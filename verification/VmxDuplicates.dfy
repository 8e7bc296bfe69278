// provider/vmware/ops.go, setVMXKeys, the reason it exists: a file with two lines for one
// key is rejected as a whole. When an edit adds no such line, exactly.
module VmxDuplicates {
  import opened Text
  import opened VmxEditor
  import opened VmxLaws
  import opened VmxOrder
  import opened VmxBytes
  import opened VmxCounts

  function Max(a: nat, b: nat): nat {
    if a < b then b else a
  }

  /** A key has one line in the edited file, or none, unless it had more before; and then
      it has no more than it had. */
  predicate AddsNone(data: string, pairs: seq<Pair>, key: string) {
    Count(ParseLines(Edit(data, pairs)), key) <= Max(1, Count(ParseLines(data), key))
  }

  // ------------------------------------------------------------- lines with a key

  /** The number of lines that have an '=' and so carry some key. */
  function Keyed(lines: seq<string>): nat {
    if lines == [] then 0 else Keyed(lines[..|lines| - 1]) + if '=' in lines[|lines| - 1] then 1 else 0
  }

  lemma {:induction false} KeyedConcat(a: seq<string>, b: seq<string>)
    ensures Keyed(a + b) == Keyed(a) + Keyed(b)
  {
    if b == [] {
      assert a + b == a;
    } else {
      assert (a + b)[..|a + b| - 1] == a + b[..|b| - 1];
      KeyedConcat(a, b[..|b| - 1]);
    }
  }

  lemma KeyedOne(line: string)
    ensures Keyed([line]) == if '=' in line then 1 else 0
  {
    assert [line][..0] == [];
  }

  lemma {:induction false} KeyedHas(lines: seq<string>, j: nat)
    requires j < |lines| && '=' in lines[j]
    ensures Keyed(lines) >= 1
  {
    if j < |lines| - 1 {
      KeyedHas(lines[..|lines| - 1], j);
    }
  }

  lemma Taken(lines: seq<string>, j: nat, key: string)
    requires j < |lines|
    ensures var rest := lines[..j] + lines[j + 1..];
            && Count(lines, key) == Count(rest, key) + (if Matches(lines[j], key) then 1 else 0)
            && Keyed(lines) == Keyed(rest) + (if '=' in lines[j] then 1 else 0)
  {
    hide Count, Keyed, Matches;
    var a, b := lines[..j], lines[j + 1..];
    assert lines == a + [lines[j]] + b;
    CountConcat(a, b, key);
    CountConcat(a + [lines[j]], b, key);
    CountAppend(a, lines[j], key);
    KeyedConcat(a, b);
    KeyedConcat(a + [lines[j]], b);
    KeyedConcat(a, [lines[j]]);
    KeyedOne(lines[j]);
  }

  lemma SameKeys(x: string, y: string, key: string)
    requires Matches(x, key) && Matches(y, key)
    ensures forall k :: Matches(x, k) <==> Matches(y, k)
  {
    hide Matches;
    forall k ensures Matches(x, k) <==> Matches(y, k) {
      ClassIsUnique(x, key, k);
      ClassIsUnique(y, key, k);
    }
  }

  lemma LineInClass(line: string)
    requires '=' in line
    ensures Matches(line, KeyOf(line))
  {
    hide Matches, KeyOf;
    KeyOfMatches(line, KeyOf(line));
    FoldsToItself(KeyOf(line));
  }

  /** If no class has more lines in x than in y, then x has no more lines with a key. */
  lemma {:induction false} NoMoreKeyed(x: seq<string>, y: seq<string>)
    requires forall key :: Count(x, key) <= Count(y, key)
    ensures Keyed(x) <= Keyed(y)
    decreases |x|
  {
    hide Count, Matches, FirstMatch, KeyOf;
    if x != [] {
      var n := |x| - 1;
      var last, init := x[n], x[..n];
      assert init + x[n + 1..] == init;
      if '=' in last {
        var key := KeyOf(last);
        LineInClass(last);
        Taken(x, n, key);
        CountZero(y, key);
        var j := FirstMatch(y, key);
        FirstMatchIsFirst(y, key);
        KeyOfMatches(y[j], key);
        SameKeys(last, y[j], key);
        var rest := y[..j] + y[j + 1..];
        forall k ensures Count(init, k) <= Count(rest, k) {
          Taken(x, n, k);
          Taken(y, j, k);
        }
        NoMoreKeyed(init, rest);
        Taken(y, j, key);
      } else {
        forall k ensures Count(init, k) <= Count(y, k) {
          Taken(x, n, k);
        }
        NoMoreKeyed(init, y);
        Taken(x, n, "");
      }
    }
  }

  // ----------------------------------------------- an untidy edit adds keyed lines

  lemma LineHasEquals(kv: Pair)
    ensures '=' in Line(kv)
  {
    var rest := " \"" + kv.value + "\"";
    assert Line(kv) == (kv.key + " ") + ['='] + rest;
    assert Line(kv)[|kv.key| + 1] == '=';
  }

  /** Every line that is added carries some key, and no line loses its key. */
  lemma {:induction false} KeyedAfter(lines: seq<string>, pairs: seq<Pair>)
    ensures Keyed(SetKeys(lines, pairs)) - Keyed(lines) == |SetKeys(lines, pairs)| - |lines|
  {
    hide SetKey, Line, Matches, FirstMatch;
    if pairs != [] {
      var qs, b := pairs[..|pairs| - 1], pairs[|pairs| - 1];
      var mid := SetKeys(lines, qs);
      KeyedAfter(lines, qs);
      SetKeyAt(mid, b);
      LineHasEquals(b);
      var i := FirstMatch(mid, b.key);
      if i < |mid| {
        FirstMatchIsFirst(mid, b.key);
        KeyOfMatches(mid[i], b.key);
        Taken(mid, i, "");
        Taken(mid[i := Line(b)], i, "");
        assert mid[i := Line(b)][..i] + mid[i := Line(b)][i + 1..] == mid[..i] + mid[i + 1..];
      } else {
        KeyedConcat(mid, [Line(b)]);
        KeyedOne(Line(b));
      }
    }
  }

  lemma KeyedOfSplit(line: string)
    ensures '=' in line ==> Keyed(Split(line, '\n')) >= 1
    ensures '=' in Cut(line, '\n').after && '\n' !in Cut(line, '=').before ==> Keyed(Split(line, '\n')) >= 2
  {
    var parts := Split(line, '\n');
    SplitParts(line, '\n');
    JoinHas(parts, '=');
    SpillsEquals(line);
    hide Split, Keyed, Join;
    if '=' in line {
      var j: nat :| j < |parts| && '=' in parts[j];
      KeyedHas(parts, j);
    }
    if '=' in Cut(line, '\n').after && '\n' !in Cut(line, '=').before {
      var head, rest := AtFirstByte(line, '\n');
      HeadHasEquals(head, rest);
      hide Cut;
      SplitFirst(head, rest, '\n');
      assert parts == [head] + Spilled(line);
      var j: nat :| j < |Spilled(line)| && '=' in Spilled(line)[j];
      KeyedHas(Spilled(line), j);
      KeyedConcat([head], Spilled(line));
      KeyedOne(head);
    }
  }

  lemma HeadHasEquals(head: string, rest: string)
    requires '\n' !in Cut(head + ['\n'] + rest, '=').before
    ensures '=' in head
  {
    var line := head + ['\n'] + rest;
    var i := IndexByte(line, '=');
    assert line[|head|] == '\n';
    assert forall j :: 0 <= j < i ==> line[j] in line[..i];
    assert head[i] == '=';
  }

  lemma {:induction false} KeyedOfSplitAll(lines: seq<string>)
    ensures Keyed(SplitAll(lines)) >= Keyed(lines)
    ensures (exists j :: 0 <= j < |lines| && Keyed(Split(lines[j], '\n')) >= 2) ==> Keyed(SplitAll(lines)) > Keyed(lines)
  {
    hide Split;
    if lines != [] {
      var n := |lines| - 1;
      KeyedOfSplitAll(lines[..n]);
      KeyedConcat(SplitAll(lines[..n]), Split(lines[n], '\n'));
      KeyedOfSplit(lines[n]);
      assert forall j :: 0 <= j < n ==> lines[..n][j] == lines[j];
    }
  }

  /** An edit that is not tidy leaves more lines with a key than it would have added. */
  lemma UntidyAddsKeyed(data: string, pairs: seq<Pair>)
    requires !Tidy(pairs)
    ensures Keyed(ParseLines(Edit(data, pairs))) > Keyed(ParseLines(data))
  {
    var lines := ParseLines(data);
    var after := SetKeys(lines, pairs);
    ParsedLines(data);
    hide ParseLines, SetKeys, Edit, Keyed, Settable, Cut, LastFor, EndsWell, FirstMatch, Line, SplitAll, Split;
    EditPrints(data, pairs);
    KeyedAfter(lines, pairs);
    KeyedOfSplitAll(after);
    SetKeysLonger(lines, pairs);
    UnsettableAppends(lines, pairs);
    if !exists i :: 0 <= i < |pairs| && !Settable(pairs[i].key) {
      var i: nat :| i < |pairs| && LastFor(pairs, pairs[i].key) == i && '=' in Cut(pairs[i].value, '\n').after;
      SettableAddressable(pairs);
      FirstMatchAfterEdit(lines, pairs, pairs[i].key);
      var k := FirstMatch(after, pairs[i].key);
      LineSpills(pairs[i]);
      KeyedOfSplit(after[k]);
    }
  }

  // ------------------------------------------------------- a file that shows it

  /** Every line that the pairs could write, or spill, is of a class the file has. */
  predicate Covers(lines: seq<string>, pairs: seq<Pair>) {
    forall i, part :: 0 <= i < |pairs| && part in Split(Line(pairs[i]), '\n') && '=' in part ==> Count(lines, KeyOf(part)) >= 1
  }

  lemma {:induction false} OldOrWritten(lines: seq<string>, pairs: seq<Pair>, j: nat)
    requires j < |SetKeys(lines, pairs)|
    ensures SetKeys(lines, pairs)[j] in lines || exists i :: 0 <= i < |pairs| && SetKeys(lines, pairs)[j] == Line(pairs[i])
    decreases |pairs|
  {
    hide SetKey, Line, FirstMatch;
    if pairs != [] {
      var qs, b := pairs[..|pairs| - 1], pairs[|pairs| - 1];
      var mid := SetKeys(lines, qs);
      SetKeyAt(mid, b);
      if j < |mid| && SetKey(mid, b)[j] == mid[j] {
        OldOrWritten(lines, qs, j);
        if i :| 0 <= i < |qs| && mid[j] == Line(qs[i]) {
          assert pairs[i] == qs[i];
        }
      }
    }
  }

  lemma {:induction false} SplitAllHas(lines: seq<string>, part: string)
    ensures part in SplitAll(lines) <==> exists j :: 0 <= j < |lines| && part in Split(lines[j], '\n')
  {
    hide Split;
    if lines != [] {
      var n := |lines| - 1;
      SplitAllHas(lines[..n], part);
      assert lines == lines[..n] + [lines[n]];
      assert forall j :: 0 <= j < n ==> lines[..n][j] == lines[j];
    }
  }

  /** Every line of the edited file is an old one or was written. */
  lemma EditedFrom(data: string, pairs: seq<Pair>, part: string)
    requires part in ParseLines(Edit(data, pairs))
    ensures part in ParseLines(data) || exists i :: 0 <= i < |pairs| && part in Split(Line(pairs[i]), '\n')
  {
    var lines := ParseLines(data);
    var after := SetKeys(lines, pairs);
    ParsedLines(data);
    hide ParseLines, Edit, SetKeys, Split, Line, SplitAll, EndsWell;
    EditPrints(data, pairs);
    SplitAllHas(after, part);
    var j: nat :| j < |after| && part in Split(after[j], '\n');
    OldOrWritten(lines, pairs, j);
    if after[j] in lines {
      var k :| 0 <= k < |lines| && lines[k] == after[j];
      SplitFirst(after[j], "", '\n');
    }
  }

  lemma CountAtLeastOne(lines: seq<string>, line: string, key: string)
    requires line in lines && Matches(line, key)
    ensures Count(lines, key) >= 1
  {
    hide Matches, Count, FirstMatch;
    CountZero(lines, key);
    FirstMatchIsFirst(lines, key);
  }

  /** On a file that covers it, an untidy edit gives some key that was there one more line. */
  lemma UntidyDuplicates(data: string, pairs: seq<Pair>) returns (key: string)
    requires !Tidy(pairs) && Covers(ParseLines(data), pairs)
    ensures Count(ParseLines(Edit(data, pairs)), key) > Count(ParseLines(data), key) >= 1
  {
    var lines, after := ParseLines(data), ParseLines(Edit(data, pairs));
    hide ParseLines, Edit, Count, Tidy, Keyed, Matches, FirstMatch, KeyOf, Split, Line;
    UntidyAddsKeyed(data, pairs);
    if forall k :: Count(after, k) <= Count(lines, k) {
      NoMoreKeyed(after, lines);
    }
    key :| Count(after, key) > Count(lines, key);
    CountZero(after, key);
    FirstMatchIsFirst(after, key);
    var part := after[FirstMatch(after, key)];
    EditedFrom(data, pairs, part);
    if part in lines {
      CountAtLeastOne(lines, part, key);
    } else {
      KeyOfMatches(part, key);
      CountFolds(lines, KeyOf(part), key);
    }
  }

  lemma {:induction false} SplitAllFree(lines: seq<string>)
    ensures Free(SplitAll(lines), '\n')
  {
    hide Split;
    if lines != [] {
      SplitAllFree(lines[..|lines| - 1]);
      SplitParts(lines[|lines| - 1], '\n');
    }
  }

  /** A file that covers a list of pairs: it holds all they could write. */
  lemma CoveringFile(pairs: seq<Pair>) returns (data: string)
    requires pairs != []
    ensures Covers(ParseLines(data), pairs)
  {
    var n := |pairs| - 1;
    var ls := SplitAll(Lines(pairs));
    data := PrintLines(ls);
    LineChars(pairs[n]);
    LinesAt(pairs);
    hide PrintLines, Split, Line, SplitAll, Lines, Count, KeyOf, Matches, ParseLines;
    SplitAllFree(Lines(pairs));
    SplitEnds(Line(pairs[n]));
    SplitAllLast(Lines(pairs));
    PrintParses(ls);
    forall i, part | 0 <= i < |pairs| && part in Split(Line(pairs[i]), '\n') && '=' in part
      ensures Count(ls, KeyOf(part)) >= 1
    {
      assert Lines(pairs)[i] == Line(pairs[i]);
      SplitAllHas(Lines(pairs), part);
      LineInClass(part);
      CountAtLeastOne(ls, part, KeyOf(part));
    }
  }

  lemma {:induction false} LinesAt(pairs: seq<Pair>)
    ensures forall i :: 0 <= i < |pairs| ==> Lines(pairs)[i] == Line(pairs[i])
  {
    hide Line;
    if pairs != [] {
      LinesAt(pairs[..|pairs| - 1]);
    }
  }

  lemma ConcatEndsWell(front: seq<string>, back: seq<string>)
    requires EndsWell(back)
    ensures EndsWell(front + back)
  {
    assert (front + back)[|front + back| - 1] == back[|back| - 1];
  }

  lemma SplitAllLast(lines: seq<string>)
    requires lines != [] && EndsWell(Split(lines[|lines| - 1], '\n'))
    ensures EndsWell(SplitAll(lines))
  {
    hide Split, EndsWell;
    ConcatEndsWell(SplitAll(lines[..|lines| - 1]), Split(lines[|lines| - 1], '\n'));
  }

  // ------------------------------------------------------------------ the law

  lemma CountLawAddsNone(data: string, pairs: seq<Pair>, key: string)
    requires CountLaw(data, pairs, key)
    ensures AddsNone(data, pairs, key)
  {
    hide Count, ParseLines, Edit, LastFor;
  }

  lemma NothingIsTidy()
    ensures Tidy([])
  {
  }

  /** An edit adds a duplicate line for no key, on any file, if and only if its pairs are
      tidy. */
  lemma NoDuplicatesIff(pairs: seq<Pair>)
    ensures (forall data, key :: AddsNone(data, pairs, key)) <==> Tidy(pairs)
  {
    hide Count, ParseLines, Edit, Tidy, CountLaw, Covers;
    NothingIsTidy();
    if Tidy(pairs) {
      forall data, key ensures AddsNone(data, pairs, key) {
        CountLawIff(data, pairs);
        CountLawAddsNone(data, pairs, key);
      }
    } else {
      var data := CoveringFile(pairs);
      var key := UntidyDuplicates(data, pairs);
      assert !AddsNone(data, pairs, key);
    }
  }
}
