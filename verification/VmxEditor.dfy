// The .vmx key/value editor: provider/vmware/ops.go, setVMXKeys and vmxKey.
//
// The functions of the first section say what the code does with the text of a
// file; the methods of module VmxConfig are proved to do just that. The lemmas
// give the editor's laws, for every file and every list of pairs.
module VmxEditor {
  import opened Text

  datatype Pair = Pair(key: string, value: string)

  // ------------------------------------------------------------- what it does

  /** The line written for a pair. */
  function Line(kv: Pair): string {
    kv.key + " = \"" + kv.value + "\""
  }

  /** A line carries a key when the trimmed text before its first '=' folds to it. */
  predicate Matches(line: string, key: string) {
    var c := Cut(line, '=');
    c.found && EqualFold(TrimSpace(c.before), key)
  }

  /** The index of the first line carrying key, or |lines|. */
  function FirstMatch(lines: seq<string>, key: string): (i: nat)
    ensures i <= |lines|
  {
    if lines == [] || Matches(lines[0], key) then 0 else 1 + FirstMatch(lines[1..], key)
  }

  function SetKey(lines: seq<string>, kv: Pair): seq<string> {
    var i := FirstMatch(lines, kv.key);
    if i < |lines| then lines[i := Line(kv)] else lines + [Line(kv)]
  }

  function SetKeys(lines: seq<string>, pairs: seq<Pair>): seq<string> {
    if pairs == [] then lines
    else SetKey(SetKeys(lines, pairs[..|pairs| - 1]), pairs[|pairs| - 1])
  }

  function ParseLines(data: string): seq<string> {
    Split(TrimRight(data, NEWLINES), '\n')
  }

  function PrintLines(lines: seq<string>): string {
    Join(lines, '\n') + "\n"
  }

  /** The bytes setVMXKeys writes back for a file holding data. */
  function Edit(data: string, pairs: seq<Pair>): string {
    PrintLines(SetKeys(ParseLines(data), pairs))
  }

  function LookupIn(lines: seq<string>, key: string): string {
    var i := FirstMatch(lines, key);
    if i < |lines| then Trim(TrimSpace(Cut(lines[i], '=').after), QUOTES) else ""
  }

  /** What vmxKey reads from a file holding data. */
  function Lookup(data: string, key: string): string {
    LookupIn(Split(data, '\n'), key)
  }

  // ------------------------------------------------------- keys and key classes

  /** A key the reader can find again on the line written for it. */
  predicate Addressable(key: string) {
    Trimmed(key, SPACES) && '=' !in key
  }

  predicate AllAddressable(pairs: seq<Pair>) {
    forall p | p in pairs :: Addressable(p.key)
  }

  /** The last pair whose key folds to key, or -1. */
  function LastFor(pairs: seq<Pair>, key: string): (i: int)
    ensures -1 <= i < |pairs|
  {
    if pairs == [] then -1
    else if EqualFold(pairs[|pairs| - 1].key, key) then |pairs| - 1
    else LastFor(pairs[..|pairs| - 1], key)
  }

  function Count(lines: seq<string>, key: string): nat {
    if lines == [] then 0
    else Count(lines[..|lines| - 1], key) + if Matches(lines[|lines| - 1], key) then 1 else 0
  }

  lemma {:induction false} FirstMatchIsFirst(lines: seq<string>, key: string)
    ensures FirstMatch(lines, key) < |lines| ==> Matches(lines[FirstMatch(lines, key)], key)
    ensures forall j :: 0 <= j < FirstMatch(lines, key) ==> !Matches(lines[j], key)
  {
    hide Matches;
    if lines != [] && !Matches(lines[0], key) {
      FirstMatchIsFirst(lines[1..], key);
    }
  }

  lemma {:induction false} FirstMatchIs(lines: seq<string>, key: string, i: nat)
    requires i <= |lines| && (i < |lines| ==> Matches(lines[i], key))
    requires forall j :: 0 <= j < i ==> !Matches(lines[j], key)
    ensures FirstMatch(lines, key) == i
  {
    hide Matches;
    if i > 0 {
      FirstMatchIs(lines[1..], key, i - 1);
    }
  }

  /** The line written for an addressable key belongs to exactly that key's class,
      and reads back as the value less any quotes at its ends. */
  lemma LineReadsBack(kv: Pair, key: string)
    requires Addressable(kv.key)
    ensures Matches(Line(kv), key) <==> EqualFold(kv.key, key)
    ensures Trim(TrimSpace(Cut(Line(kv), '=').after), QUOTES) == Trim(kv.value, QUOTES)
  {
    hide Cut, EqualFold, Trim;
    var before, quoted := kv.key + " ", "\"" + kv.value + "\"";
    assert Line(kv) == before + ['='] + (" " + quoted);
    CutConcat(before, " " + quoted, '=');
    assert TrimSpace(before) == kv.key by {
      assert before == "" + kv.key + " ";
      TrimPad("", kv.key, " ", SPACES);
      TrimIsTrimmed(kv.key, SPACES);
    }
    assert TrimSpace(" " + quoted) == quoted by {
      assert " " + quoted == " " + quoted + "";
      TrimPad(" ", quoted, "", SPACES);
      TrimIsTrimmed(quoted, SPACES);
    }
    TrimPad("\"", kv.value, "\"", QUOTES);
  }

  /** No line at all carries a key that is not addressable, and no line of a file
      carries one that spans lines. */
  lemma NeverMatches(line: string, key: string)
    requires !Addressable(key) || ('\n' in key && '\n' !in Cut(line, '=').before)
    ensures !Matches(line, key)
  {
    var before := Cut(line, '=').before;
    assert before <= line && '=' in before ==> !Cut(line, '=').found;
    hide Cut, Trim;
    TrimIsTrimmed(before, SPACES);
    ToLowerTrimmed(TrimSpace(before));
    ToLowerTrimmed(key);
  }

  lemma FirstMatchFolds(lines: seq<string>, a: string, b: string)
    requires EqualFold(a, b)
    ensures FirstMatch(lines, a) == FirstMatch(lines, b)
  {
    FirstMatchIsFirst(lines, a);
    forall l ensures Matches(l, a) <==> Matches(l, b) {
    }
    hide Matches;
    FirstMatchIs(lines, b, FirstMatch(lines, a));
  }

  // ----------------------------------------------------- one step of the editor

  /** Where a key is found after one step. */
  lemma FirstMatchAfterSet(lines: seq<string>, kv: Pair, key: string)
    requires Addressable(kv.key)
    ensures FirstMatch(SetKey(lines, kv), key) ==
              if !EqualFold(kv.key, key) && FirstMatch(lines, key) == |lines| then |SetKey(lines, kv)|
              else FirstMatch(lines, key)
    ensures EqualFold(kv.key, key) ==>
              FirstMatch(lines, key) < |SetKey(lines, kv)| && SetKey(lines, kv)[FirstMatch(lines, key)] == Line(kv)
    ensures !EqualFold(kv.key, key) && FirstMatch(lines, key) < |lines| ==>
              SetKey(lines, kv)[FirstMatch(lines, key)] == lines[FirstMatch(lines, key)]
  {
    var after, at := SetKey(lines, kv), FirstMatch(lines, key);
    LineReadsBack(kv, key);
    FirstMatchIsFirst(lines, key);
    FirstMatchIsFirst(lines, kv.key);
    if EqualFold(kv.key, key) {
      FirstMatchFolds(lines, kv.key, key);
      hide Matches, Line;
      FirstMatchIs(after, key, at);
    } else {
      if FirstMatch(lines, kv.key) < |lines| {
        ClassIsUnique(lines[FirstMatch(lines, kv.key)], kv.key, key);
      }
      hide Matches, Line, EqualFold;
      FirstMatchIs(after, key, if at < |lines| then at else |after|);
    }
  }

  lemma ClassIsUnique(line: string, a: string, b: string)
    requires Matches(line, a)
    ensures Matches(line, b) <==> EqualFold(a, b)
  {
    hide Cut, TrimSpace;
  }

  /** A later pair of the same class overwrites the earlier one. */
  lemma SetKeyAbsorbs(lines: seq<string>, a: Pair, b: Pair)
    requires Addressable(a.key) && EqualFold(a.key, b.key)
    ensures SetKey(SetKey(lines, a), b) == SetKey(lines, b)
  {
    FirstMatchAfterSet(lines, a, b.key);
    FirstMatchFolds(lines, a.key, b.key);
    hide Matches, Line, EqualFold, FirstMatch;
  }

  /** Pairs of different classes commute once one of them has its line. */
  lemma SetKeyCommutes(lines: seq<string>, a: Pair, b: Pair)
    requires Addressable(a.key) && Addressable(b.key) && !EqualFold(a.key, b.key)
    requires FirstMatch(lines, a.key) < |lines|
    ensures SetKey(SetKey(lines, b), a) == SetKey(SetKey(lines, a), b)
  {
    hide *;
    var i, j := FirstMatch(lines, a.key), FirstMatch(lines, b.key);
    FirstMatchAfterSet(lines, b, a.key);
    FirstMatchAfterSet(lines, a, b.key);
    if i == j {
      FirstMatchIsFirst(lines, a.key);
      FirstMatchIsFirst(lines, b.key);
      ClassIsUnique(lines[i], a.key, b.key);
    }
    SetKeyAt(lines, a);
    SetKeyAt(lines, b);
    SetKeyAt(SetKey(lines, a), b);
    SetKeyAt(SetKey(lines, b), a);
    if j < |lines| {
      assert lines[j := Line(b)][i := Line(a)] == lines[i := Line(a)][j := Line(b)];
    } else {
      assert (lines + [Line(b)])[i := Line(a)] == lines[i := Line(a)] + [Line(b)];
    }
  }

  lemma SetKeyAt(lines: seq<string>, kv: Pair)
    ensures FirstMatch(lines, kv.key) < |lines| ==> SetKey(lines, kv) == lines[FirstMatch(lines, kv.key) := Line(kv)]
    ensures FirstMatch(lines, kv.key) == |lines| ==> SetKey(lines, kv) == lines + [Line(kv)]
  {
  }
}
