// provider/repackiso.go, the GRUB config rewrite of RepackISO.
module GrubPatch {
  import opened Text

  const SEPARATOR := " ---"

  // -------------------------------------------------------------- what it does

  predicate IsKernelLine(ln: string) {
    var fields := Fields(ln);
    fields != [] && (fields[0] == "linux" || fields[0] == "linuxefi")
  }

  predicate Needs(ln: string, bootArgs: string) {
    IsKernelLine(ln) && !Contains(ln, bootArgs)
  }

  /** Before the last " ---", or at the end of the line. */
  function InsertionPoint(ln: string): (p: nat)
    ensures p <= |ln|
  {
    var idx := LastIndex(ln, SEPARATOR);
    if idx == -1 then |ln| else idx
  }

  function PatchLine(ln: string, bootArgs: string): string {
    if Needs(ln, bootArgs) then
      var p := InsertionPoint(ln);
      ln[..p] + " " + bootArgs + ln[p..]
    else ln
  }

  function PatchLines(lines: seq<string>, bootArgs: string): (r: seq<string>)
    ensures |r| == |lines|
    ensures forall i :: 0 <= i < |lines| ==> r[i] == PatchLine(lines[i], bootArgs)
  {
    seq(|lines|, i requires 0 <= i < |lines| => PatchLine(lines[i], bootArgs))
  }

  /** The number of positions at which two texts of equal length differ. */
  function Differences(a: seq<string>, b: seq<string>): nat
    requires |a| == |b|
  {
    if a == [] then 0
    else
      var n := |a| - 1;
      Differences(a[..n], b[..n]) + if a[n] != b[n] then 1 else 0
  }

  /** The config written back, or None for the "no kernel lines patched" error. */
  function Patch(data: string, bootArgs: string): Option<string> {
    var lines := Split(data, '\n');
    var patched := PatchLines(lines, bootArgs);
    if Differences(lines, patched) == 0 then None else Some(Join(patched, '\n'))
  }

  // ----------------------------------------------------------------- the code

  /** The loop of RepackISO: lines are overwritten in place and counted. */
  method PatchInPlace(lines: array<string>, bootArgs: string) returns (patched: nat)
    modifies lines
    ensures lines[..] == PatchLines(old(lines[..]), bootArgs)
    ensures patched == Differences(old(lines[..]), lines[..])
  {
    hide PatchLine, IsKernelLine, Contains, InsertionPoint;
    ghost var was := lines[..];
    patched := 0;
    for i := 0 to lines.Length
      invariant forall j :: 0 <= j < i ==> lines[j] == PatchLine(was[j], bootArgs)
      invariant forall j :: i <= j < lines.Length ==> lines[j] == was[j]
      invariant patched == Differences(was[..i], lines[..i])
    {
      var ln := lines[i];
      ghost var before := lines[..i];
      PatchLineChanges(ln, bootArgs);
      PatchLineIs(ln, bootArgs);
      var fields := Fields(ln);
      if fields != [] && (fields[0] == "linux" || fields[0] == "linuxefi") {
        if !Contains(ln, bootArgs) {
          var idx := LastIndex(ln, " ---");
          if idx != -1 {
            lines[i] := ln[..idx] + " " + bootArgs + ln[idx..];
          } else {
            lines[i] := ln + " " + bootArgs;
          }
          patched := patched + 1;
        }
      }
      assert lines[..i + 1] == before + [PatchLine(ln, bootArgs)] && was[..i + 1] == was[..i] + [ln];
      DifferencesAppend(was[..i], before, ln, PatchLine(ln, bootArgs));
    }
    assert lines[..lines.Length] == lines[..] && was[..lines.Length] == was;
    assert lines[..] == PatchLines(was, bootArgs);
  }

  /** The code around the loop: split, patch, join, and the error when nothing changed. */
  method PatchConfig(data: string, bootArgs: string) returns (r: Option<string>)
    ensures r == Patch(data, bootArgs)
  {
    var parts := Split(data, '\n');
    var lines := new string[|parts|](i requires 0 <= i < |parts| => parts[i]);
    assert lines[..] == parts;
    var patched := PatchInPlace(lines, bootArgs);
    if patched == 0 {
      return None;
    }
    return Some(Join(lines[..], '\n'));
  }

  lemma DifferencesAppend(a: seq<string>, b: seq<string>, x: string, y: string)
    requires |a| == |b|
    ensures Differences(a + [x], b + [y]) == Differences(a, b) + if x != y then 1 else 0
  {
    assert (a + [x])[..|a|] == a && (b + [y])[..|b|] == b;
  }

  lemma PatchLineIs(ln: string, bootArgs: string)
    ensures IsKernelLine(ln) <==> Fields(ln) != [] && (Fields(ln)[0] == "linux" || Fields(ln)[0] == "linuxefi")
    ensures !Needs(ln, bootArgs) ==> PatchLine(ln, bootArgs) == ln
    ensures Needs(ln, bootArgs) ==>
              PatchLine(ln, bootArgs) ==
                if LastIndex(ln, " ---") == -1 then ln + " " + bootArgs
                else ln[..LastIndex(ln, " ---")] + " " + bootArgs + ln[LastIndex(ln, " ---")..]
  {
    hide Fields, Contains, LastIndex;
    assert ln[..|ln|] == ln && ln[|ln|..] == "";
    assert ln + " " + bootArgs + "" == ln + " " + bootArgs;
  }

  /** A line is changed exactly when it is a kernel line without the arguments. */
  lemma PatchLineChanges(ln: string, bootArgs: string)
    ensures PatchLine(ln, bootArgs) != ln <==> Needs(ln, bootArgs)
    ensures PatchLine(ln, bootArgs) != ln <==> IsKernelLine(ln) && !Contains(ln, bootArgs)
  {
    hide IsKernelLine, Contains, InsertionPoint;
    var p := InsertionPoint(ln);
    assert |ln[..p] + " " + bootArgs + ln[p..]| > |ln|;
  }

  // ------------------------------------------------------------- one line's patch

  /** Where the first field of a line lies. */
  lemma {:induction false} FirstField(s: string) returns (pad: nat, w: nat)
    requires Fields(s) != []
    ensures pad + w <= |s| && Fields(s)[0] == s[pad..pad + w] && w > 0
    ensures forall i :: 0 <= i < pad ==> s[i] in SPACES
    ensures forall i :: pad <= i < pad + w ==> s[i] !in SPACES
    ensures pad + w < |s| ==> s[pad + w] in SPACES
  {
    if s[0] in SPACES {
      var p, n := FirstField(s[1..]);
      pad, w := p + 1, n;
    } else {
      pad, w := 0, WordLength(s);
    }
  }

  lemma FirstFieldPieces(s: string, pad: nat, w: nat)
    requires pad + w <= |s| && w > 0
    requires forall i :: 0 <= i < pad ==> s[i] in SPACES
    requires forall i :: pad <= i < pad + w ==> s[i] !in SPACES
    requires pad + w < |s| ==> s[pad + w] in SPACES
    ensures s == s[..pad] + (s[pad..pad + w] + s[pad + w..])
    ensures AllIn(s[..pad], SPACES) && IsWord(s[pad..pad + w])
    ensures s[pad + w..] == "" || s[pad + w..][0] in SPACES
  {
    hide SPACES;
  }

  lemma FirstFieldIs(s: string, pad: nat, w: nat)
    requires pad + w <= |s| && w > 0
    requires forall i :: 0 <= i < pad ==> s[i] in SPACES
    requires forall i :: pad <= i < pad + w ==> s[i] !in SPACES
    requires pad + w < |s| ==> s[pad + w] in SPACES
    ensures Fields(s) != [] && Fields(s)[0] == s[pad..pad + w]
  {
    var front, word, rest := s[..pad], s[pad..pad + w], s[pad + w..];
    hide *;
    FirstFieldPieces(s, pad, w);
    FieldsPad(front, word + rest);
    FieldsWord(word, rest);
  }

  /** The insertion point of a kernel line lies after its first field. */
  lemma InsertionIsAfterDirective(ln: string) returns (pad: nat, w: nat)
    requires IsKernelLine(ln)
    ensures pad + w <= InsertionPoint(ln) <= |ln| && w > 0 && Fields(ln)[0] == ln[pad..pad + w]
    ensures forall i :: 0 <= i < pad ==> ln[i] in SPACES
    ensures forall i :: pad <= i < pad + w ==> ln[i] !in SPACES
    ensures pad + w < |ln| ==> ln[pad + w] in SPACES
    ensures InsertionPoint(ln) < |ln| ==> ln[InsertionPoint(ln)] == ' '
  {
    pad, w := FirstField(ln);
    var p := InsertionPoint(ln);
    assert ln[pad] == Fields(ln)[0][0] == 'l';
    hide Fields;
    if p < |ln| {
      assert ln[p..p + 4] == SEPARATOR;
      assert ln[p] == ln[p..p + 4][0] == ' ' && ln[p + 1] == ln[p..p + 4][1] == '-';
      assert p + 1 != pad;
    }
  }

  /** A kernel line keeps its first field when text starting with a blank is inserted. */
  lemma InsertKeepsDirective(ln: string, text: string, tail: string)
    requires IsKernelLine(ln) && text != "" && text[0] == ' '
    requires tail == "" || tail == ln[InsertionPoint(ln)..]
    ensures var out := ln[..InsertionPoint(ln)] + text + tail;
            IsKernelLine(out) && Fields(ln) != [] && Fields(out) != [] && Fields(out)[0] == Fields(ln)[0]
  {
    var pad, w := InsertionIsAfterDirective(ln);
    var p := InsertionPoint(ln);
    var out := ln[..p] + text + tail;
    assert out[pad..pad + w] == ln[pad..pad + w];
    assert pad + w < |out| ==> out[pad + w] == if pad + w < p then ln[pad + w] else ' ';
    hide Fields;
    FirstFieldIs(out, pad, w);
  }

  lemma PatchLineInserts(ln: string, bootArgs: string)
    requires Needs(ln, bootArgs)
    ensures InsertionPoint(ln) <= |ln|
    ensures PatchLine(ln, bootArgs) == ln[..InsertionPoint(ln)] + (" " + bootArgs) + ln[InsertionPoint(ln)..]
  {
    var p := InsertionPoint(ln);
    hide Needs, InsertionPoint;
    assert ln[..p] + " " + bootArgs == ln[..p] + (" " + bootArgs);
  }

  lemma InsertionPointIs(ln: string)
    ensures InsertionPoint(ln) == if LastIndex(ln, " ---") >= 0 then LastIndex(ln, " ---") else |ln|
  {
    hide LastIndex;
  }

  lemma NeedsKernelLine(ln: string, bootArgs: string)
    requires Needs(ln, bootArgs)
    ensures IsKernelLine(ln)
  {
    hide IsKernelLine, Contains;
  }

  lemma BlankInFront(bootArgs: string)
    ensures |" " + bootArgs| == 1 + |bootArgs| && (" " + bootArgs)[0] == ' '
  {
  }

  /** What patching does to a line that needs it: the arguments go in right before the last
      " ---" and nowhere else, the directive stays, and cutting them out restores the line. */
  lemma PatchedLine(ln: string, bootArgs: string)
    requires Needs(ln, bootArgs)
    ensures var out, p := PatchLine(ln, bootArgs), InsertionPoint(ln);
            && |out| == |ln| + 1 + |bootArgs|
            && p == (if LastIndex(ln, " ---") >= 0 then LastIndex(ln, " ---") else |ln|)
            && out[..p] + out[p + 1 + |bootArgs|..] == ln
            && out[p..p + 1 + |bootArgs|] == " " + bootArgs
            && Contains(out, bootArgs)
            && IsKernelLine(out) && Fields(ln) != [] && Fields(out) != [] && Fields(out)[0] == Fields(ln)[0]
            && out[p + 1 + |bootArgs|..] == ln[p..]
            && (LastIndex(ln, " ---") >= 0 ==> LastIndex(out, " ---") == p + 1 + |bootArgs|)
  {
    hide *;
    var p, n := InsertionPoint(ln), 1 + |bootArgs|;
    var out := PatchLine(ln, bootArgs);
    NeedsKernelLine(ln, bootArgs);
    BlankInFront(bootArgs);
    PatchLineInserts(ln, bootArgs);
    InsertKeepsDirective(ln, " " + bootArgs, ln[p..]);
    InsertedPieces(ln, p, " " + bootArgs, out);
    InsertedContains(out, p, bootArgs);
    InsertionPointIs(ln);
    if LastIndex(ln, " ---") >= 0 {
      LastIndexShifts(ln, out, " ---", p, n);
    }
  }

  /** Cutting a text apart where another was inserted. */
  lemma InsertedPieces(s: string, p: nat, text: string, out: string)
    requires p <= |s| && out == s[..p] + text + s[p..]
    ensures |out| == |s| + |text|
    ensures out[p + |text|..] == s[p..] && out[..p] == s[..p] && out[p..p + |text|] == text
    ensures out[..p] + out[p + |text|..] == s
  {
  }

  lemma InsertedContains(out: string, p: nat, bootArgs: string)
    requires p + 1 + |bootArgs| <= |out| && out[p..p + 1 + |bootArgs|] == " " + bootArgs
    ensures Contains(out, bootArgs)
  {
    var t := out[p..p + 1 + |bootArgs|];
    assert forall x :: 0 <= x < |bootArgs| ==> bootArgs[x] == t[x + 1];
    assert out[p + 1..p + 1 + |bootArgs|] == bootArgs;
    ContainsAt(out, bootArgs, p + 1);
  }

  lemma ContainsAt(s: string, sub: string, i: nat)
    requires OccursAt(s, sub, i)
    ensures Contains(s, sub)
  {
  }

  /** The last occurrence moves with the suffix it starts. */
  lemma LastIndexShifts(s: string, out: string, sub: string, p: nat, n: nat)
    requires p <= |s| && |out| == |s| + n && out[p + n..] == s[p..]
    requires LastIndex(s, sub) == p
    ensures LastIndex(out, sub) == p + n
  {
    var r := LastIndex(out, sub);
    ShiftedOccurrence(s, out, sub, p, n, p + n);
    hide OccursAt, LastIndex;
    assert r >= p + n;
    ShiftedOccurrence(s, out, sub, p, n, r);
  }

  lemma ShiftedOccurrence(s: string, out: string, sub: string, p: nat, n: nat, i: nat)
    requires p <= |s| && |out| == |s| + n && out[p + n..] == s[p..] && i >= p + n
    ensures OccursAt(out, sub, i) <==> OccursAt(s, sub, i - n)
  {
    forall k | p <= k < |s| ensures out[k + n] == s[k] {
      assert out[p + n..][k - p] == s[p..][k - p];
    }
    if i + |sub| <= |out| {
      assert out[i..i + |sub|] == s[i - n..i - n + |sub|];
    }
  }

  /** Patching a line twice is patching it once. */
  lemma PatchLineIdempotent(ln: string, bootArgs: string)
    ensures !Needs(PatchLine(ln, bootArgs), bootArgs)
  {
    if Needs(ln, bootArgs) {
      PatchedLine(ln, bootArgs);
    }
    hide IsKernelLine, Contains, InsertionPoint;
  }

  lemma KernelLineParts(ln: string) returns (pad: string, word: string, rest: string)
    requires IsKernelLine(ln)
    ensures ln == pad + word + rest && AllWhite(pad) && (word == "linux" || word == "linuxefi")
    ensures rest == "" || White(rest[0])
  {
    PatchLineIs(ln, "");
    hide *;
    var p, w := FirstField(ln);
    FirstFieldPieces(ln, p, w);
    pad, word, rest := ln[..p], ln[p..p + w], ln[p + w..];
    Pieces(ln, p, p + w);
    AllWhiteIff(pad);
    if rest != "" {
      WhiteIff(rest[0]);
    }
  }

  lemma DirectivesAreWords()
    ensures "linux" != "" && NoWhite("linux") && "linuxefi" != "" && NoWhite("linuxefi")
  {
  }

  /** A kernel line, spelled out: white space, "linux" or "linuxefi", and behind it nothing
      or more white space, such as the tab of real boot menus. */
  lemma KernelLineIff(ln: string)
    ensures IsKernelLine(ln)
            <==> exists pad, word, rest ::
                   ln == pad + word + rest && AllWhite(pad) && (word == "linux" || word == "linuxefi")
                   && (rest == "" || White(rest[0]))
  {
    PatchLineIs(ln, "");
    DirectivesAreWords();
    hide Fields, White, IsKernelLine, NoWhite, AllWhite;
    if IsKernelLine(ln) {
      var pad, word, rest := KernelLineParts(ln);
    }
    if pad, word, rest :|
      ln == pad + word + rest && AllWhite(pad) && (word == "linux" || word == "linuxefi") && (rest == "" || White(rest[0]))
    {
      FieldsIs(pad, word, rest);
    }
  }

  // -------------------------------------------------------------- the whole file

  lemma {:induction false} NoDifferences(a: seq<string>, b: seq<string>)
    requires |a| == |b|
    ensures Differences(a, b) == 0 <==> a == b
  {
    if a != [] {
      var n := |a| - 1;
      NoDifferences(a[..n], b[..n]);
      assert a == a[..n] + [a[n]] && b == b[..n] + [b[n]];
    }
  }

  /** The error path is taken exactly when no line needs the arguments. */
  lemma FailsIff(data: string, bootArgs: string)
    ensures Patch(data, bootArgs).None? <==> forall i :: 0 <= i < |Split(data, '\n')| ==> !Needs(Split(data, '\n')[i], bootArgs)
  {
    var lines := Split(data, '\n');
    var patched := PatchLines(lines, bootArgs);
    NoDifferences(lines, patched);
    assert Patch(data, bootArgs).None? <==> lines == patched;
    hide *;
    if forall i :: 0 <= i < |lines| ==> !Needs(lines[i], bootArgs) {
      forall i | 0 <= i < |lines| ensures patched[i] == lines[i] {
        PatchLineChanges(lines[i], bootArgs);
      }
      assert lines == patched;
    } else {
      var i: nat :| i < |lines| && Needs(lines[i], bootArgs);
      PatchLineChanges(lines[i], bootArgs);
      assert lines[i] != patched[i];
      assert Patch(data, bootArgs).Some?;
      assert Needs(Split(data, '\n')[i], bootArgs);
    }
  }

  /** The lines of the output are the patched lines of the input, one for one. */
  lemma PatchedLines(data: string, bootArgs: string)
    requires Patch(data, bootArgs).Some? && '\n' !in bootArgs
    ensures Split(Patch(data, bootArgs).value, '\n') == PatchLines(Split(data, '\n'), bootArgs)
  {
    var lines := Split(data, '\n');
    SplitParts(data, '\n');
    var patched := PatchLines(lines, bootArgs);
    hide Split, Needs, Differences, InsertionPoint;
    assert Free(patched, '\n');
    SplitJoin(patched, '\n');
  }

  /** Cuts the inserted arguments out of the lines that needed them. */
  function Unpatched(lines: seq<string>, out: seq<string>, bootArgs: string): seq<string>
    requires out == PatchLines(lines, bootArgs)
  {
    seq(|lines|, i requires 0 <= i < |lines| =>
      var p := InsertionPoint(lines[i]);
      if Needs(lines[i], bootArgs) then out[i][..p] + out[i][p + 1 + |bootArgs|..] else out[i])
  }

  /** Deleting the inserted arguments from the patched lines restores the input, byte for
      byte, whatever the arguments; when they are on one line, those are the lines of the
      output. */
  lemma DeletingRestores(data: string, bootArgs: string)
    ensures var lines := Split(data, '\n');
            var out := PatchLines(lines, bootArgs);
            && Join(Unpatched(lines, out, bootArgs), '\n') == data
            && (Patch(data, bootArgs).Some? ==> Patch(data, bootArgs).value == Join(out, '\n'))
            && (Patch(data, bootArgs).Some? && '\n' !in bootArgs ==> Split(Patch(data, bootArgs).value, '\n') == out)
  {
    var lines := Split(data, '\n');
    var out := PatchLines(lines, bootArgs);
    if Patch(data, bootArgs).Some? && '\n' !in bootArgs {
      PatchedLines(data, bootArgs);
    }
    hide Split, Needs, PatchLines, InsertionPoint, Differences;
    forall i | 0 <= i < |lines| ensures Unpatched(lines, out, bootArgs)[i] == lines[i] {
      if Needs(lines[i], bootArgs) {
        PatchedAt(lines, bootArgs, i);
        PatchedLine(lines[i], bootArgs);
      } else {
        PatchedAt(lines, bootArgs, i);
      }
    }
    assert Unpatched(lines, out, bootArgs) == lines;
    SplitParts(data, '\n');
  }

  lemma PatchedAt(lines: seq<string>, bootArgs: string, i: nat)
    requires i < |lines|
    ensures PatchLines(lines, bootArgs)[i] == PatchLine(lines[i], bootArgs)
    ensures !Needs(lines[i], bootArgs) ==> PatchLines(lines, bootArgs)[i] == lines[i]
  {
    hide Needs, InsertionPoint;
  }

  /** In the output every kernel line carries the arguments and keeps its directive, and
      every other line is what it was. */
  lemma OutputLines(data: string, bootArgs: string, i: nat)
    requires Patch(data, bootArgs).Some? && '\n' !in bootArgs && i < |Split(data, '\n')|
    ensures var out, lines := Split(Patch(data, bootArgs).value, '\n'), Split(data, '\n');
            && |out| == |lines|
            && (IsKernelLine(out[i]) <==> IsKernelLine(lines[i]))
            && (IsKernelLine(lines[i]) ==> Contains(out[i], bootArgs) && Fields(out[i])[0] == Fields(lines[i])[0])
            && (!IsKernelLine(lines[i]) ==> out[i] == lines[i])
  {
    PatchedLines(data, bootArgs);
    var ln := Split(data, '\n')[i];
    if Needs(ln, bootArgs) {
      PatchedLine(ln, bootArgs);
    }
    hide Split, Fields, Contains, InsertionPoint, Patch;
  }

  /** A line of the output that starts a second argument: what newline in bootArgs does. */
  lemma NewlineLeavesKernelLine(lines: seq<string>, bootArgs: string, i: nat)
    requires i < |lines| && Needs(lines[i], bootArgs) && '\n' in bootArgs && Free(lines, '\n')
    ensures var out := Split(Join(PatchLines(lines, bootArgs), '\n'), '\n');
            exists j :: 0 <= j < |out| && IsKernelLine(out[j])
  {
    var patched := PatchLines(lines, bootArgs);
    var ln, p := lines[i], InsertionPoint(lines[i]);
    var a, b := AtFirstByte(bootArgs, '\n');
    var piece, rest := ln[..p] + " " + a, b + ln[p..];
    assert patched[i] == piece + ['\n'] + rest;
    InsertKeepsDirective(ln, " " + a, "");
    assert piece == ln[..p] + (" " + a) + "";
    assert '\n' !in piece;
    hide PatchLines, Split, IsKernelLine, Needs, Join, InsertionPoint;
    SplitFirst(piece, rest, '\n');
    SplitOfJoinHas(patched, i, piece);
  }

  /** The lines of one part are among the lines of the joined text. */
  lemma SplitOfJoinHas(parts: seq<string>, i: nat, piece: string)
    requires i < |parts| && piece in Split(parts[i], '\n')
    ensures piece in Split(Join(parts, '\n'), '\n')
  {
    hide Split, Join;
    var before, after := parts[..i], parts[i + 1..];
    var mid := Split(parts[i], '\n');
    var text := parts[i];
    assert Join([text], '\n') == text by { JoinOne(text); }
    assert parts == before + [text] + after;
    if after != [] {
      JoinConcat([text], after, '\n');
      SplitConcat(text, Join(after, '\n'), '\n');
      assert before + [text] + after == before + ([text] + after);
    } else {
      assert before + [text] + after == before + [text];
    }
    var tail := [text] + after;
    assert piece in Split(Join(tail, '\n'), '\n') by {
      if after == [] {
        assert tail == [text];
      }
    }
    if before != [] {
      JoinConcat(before, tail, '\n');
      SplitConcat(Join(before, '\n'), Join(tail, '\n'), '\n');
      assert parts == before + tail;
    } else {
      assert parts == tail;
    }
  }

  lemma JoinOne(s: string)
    ensures Join([s], '\n') == s
  {
  }

  lemma LinesNeverContain(data: string, bootArgs: string, j: nat)
    requires '\n' in bootArgs && j < |Split(data, '\n')|
    ensures !Contains(Split(data, '\n')[j], bootArgs)
  {
    SplitParts(data, '\n');
    var ln := Split(data, '\n')[j];
    assert '\n' !in ln;
    hide Split;
    var k :| 0 <= k < |bootArgs| && bootArgs[k] == '\n';
    forall i | 0 <= i <= |ln| ensures !OccursAt(ln, bootArgs, i) {
      if i + |bootArgs| <= |ln| {
        assert ln[i..i + |bootArgs|][k] == ln[i + k];
      }
    }
  }

  lemma OneLineIsFixpoint(data: string, bootArgs: string)
    requires Patch(data, bootArgs).Some? && '\n' !in bootArgs
    ensures Patch(Patch(data, bootArgs).value, bootArgs).None?
  {
    var out := Patch(data, bootArgs).value;
    hide *;
    PatchedLines(data, bootArgs);
    FailsIff(out, bootArgs);
    forall i | 0 <= i < |Split(out, '\n')| ensures !Needs(Split(out, '\n')[i], bootArgs) {
      PatchLineIdempotent(Split(data, '\n')[i], bootArgs);
    }
  }

  lemma NewlineIsNoFixpoint(data: string, bootArgs: string)
    requires Patch(data, bootArgs).Some? && '\n' in bootArgs
    ensures Patch(Patch(data, bootArgs).value, bootArgs).Some?
  {
    var lines := Split(data, '\n');
    assert Patch(data, bootArgs).value == Join(PatchLines(lines, bootArgs), '\n');
    SplitParts(data, '\n');
    FailsIff(data, bootArgs);
    hide PatchLines, PatchLine, IsKernelLine, Contains, Split, Join, Patch, Free;
    var out := Patch(data, bootArgs).value;
    FailsIff(out, bootArgs);
    var i: nat :| i < |lines| && Needs(lines[i], bootArgs);
    NewlineLeavesKernelLine(lines, bootArgs, i);
    var j: nat :| j < |Split(out, '\n')| && IsKernelLine(Split(out, '\n')[j]);
    LinesNeverContain(out, bootArgs, j);
    assert Needs(Split(out, '\n')[j], bootArgs);
  }

  /** One pass is a fixpoint exactly when the arguments are on one line: after a
      successful patch, patching the output again fails with "nothing to patch" if and
      only if bootArgs holds no newline. */
  lemma FixpointIff(data: string, bootArgs: string)
    requires Patch(data, bootArgs).Some?
    ensures Patch(Patch(data, bootArgs).value, bootArgs).None? <==> '\n' !in bootArgs
  {
    hide *;
    if '\n' in bootArgs {
      NewlineIsNoFixpoint(data, bootArgs);
    } else {
      OneLineIsFixpoint(data, bootArgs);
    }
  }

  /** The count the loop keeps is the number of lines that changed. */
  lemma {:induction false} DifferencesIsCount(a: seq<string>, b: seq<string>)
    requires |a| == |b|
    ensures Differences(a, b) == |set i | 0 <= i < |a| && a[i] != b[i]|
  {
    if a != [] {
      var n := |a| - 1;
      DifferencesIsCount(a[..n], b[..n]);
      var less := set i | 0 <= i < n && a[..n][i] != b[..n][i];
      var all := set i | 0 <= i < |a| && a[i] != b[i];
      assert less == set i | 0 <= i < |a[..n]| && a[..n][i] != b[..n][i];
      assert all == if a[n] != b[n] then less + {n} else less;
    }
  }
}
