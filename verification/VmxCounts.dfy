// How many lines of each key class the bytes of an edited .vmx file have, with the exact
// condition on the pairs for that to be as the editor means it.
module VmxCounts {
  import opened Text
  import opened VmxEditor
  import opened VmxLaws
  import opened VmxBytes

  /** In the edited file, a written class has the lines it had, or one if it had none, and
      every other class has exactly the lines it had. */
  predicate CountLaw(data: string, pairs: seq<Pair>, key: string) {
    Count(ParseLines(Edit(data, pairs)), key) == CountAfter(pairs, key, Count(ParseLines(data), key))
  }

  function CountAfter(pairs: seq<Pair>, key: string, before: nat): nat {
    if LastFor(pairs, key) >= 0 && before == 0 then 1 else before
  }

  /** Every key is settable, and the last value of a class has no '=' after its first
      newline: past that point a value is read as lines of its own. */
  predicate Tidy(pairs: seq<Pair>) {
    forall i :: 0 <= i < |pairs| ==>
      && Settable(pairs[i].key)
      && (LastFor(pairs, pairs[i].key) == i ==> '=' !in Cut(pairs[i].value, '\n').after)
  }

  predicate AllSettable(pairs: seq<Pair>) {
    forall i :: 0 <= i < |pairs| ==> Settable(pairs[i].key)
  }

  // ------------------------------------------------------- what a line spills

  /** The further lines of the file that one line comes to. */
  function Spilled(line: string): seq<string> {
    Split(line, '\n')[1..]
  }

  function SpilledAll(lines: seq<string>): seq<string> {
    if lines == [] then [] else SpilledAll(lines[..|lines| - 1]) + Spilled(lines[|lines| - 1])
  }

  lemma {:induction false} SpilledAllHas(lines: seq<string>, part: string)
    ensures part in SpilledAll(lines) <==> exists j :: 0 <= j < |lines| && part in Spilled(lines[j])
  {
    hide Spilled;
    if lines != [] {
      var n := |lines| - 1;
      SpilledAllHas(lines[..n], part);
      assert forall j :: 0 <= j < n ==> lines[..n][j] == lines[j];
    }
  }

  lemma {:induction false} JoinHas(parts: seq<string>, x: char)
    requires x != '\n'
    ensures x in Join(parts, '\n') <==> exists i :: 0 <= i < |parts| && x in parts[i]
  {
    if |parts| > 1 {
      JoinHas(parts[1..], x);
      assert forall i :: 1 <= i < |parts| ==> parts[i] == parts[1..][i - 1];
    }
  }

  /** A line spills an '=' exactly when it has one after its first newline. */
  lemma SpillsEquals(line: string)
    ensures (exists i :: 0 <= i < |Spilled(line)| && '=' in Spilled(line)[i]) <==> '=' in Cut(line, '\n').after
  {
    hide Split, Cut, Join;
    if '\n' in line {
      var head, rest := AtFirstByte(line, '\n');
      SplitFirst(head, rest, '\n');
      CutConcat(head, rest, '\n');
      SplitParts(rest, '\n');
      JoinHas(Split(rest, '\n'), '=');
      assert Spilled(line) == Split(rest, '\n');
    } else {
      SplitFirst(line, "", '\n');
      CutNothing(line);
    }
  }

  lemma CutNothing(line: string)
    requires '\n' !in line
    ensures Cut(line, '\n').after == ""
  {
  }

  lemma LineSpills(kv: Pair)
    requires Settable(kv.key)
    ensures '=' in Cut(Line(kv), '\n').after <==> '=' in Cut(kv.value, '\n').after
  {
    LineChars(kv);
    hide Cut;
    if '\n' in kv.value {
      var head, rest := AtFirstByte(kv.value, '\n');
      CutConcat(head, rest, '\n');
      var before := kv.key + " = \"" + head;
      assert Line(kv) == before + ['\n'] + (rest + "\"");
      CutConcat(before, rest + "\"", '\n');
    } else {
      CutNothing(kv.value);
      CutNothing(Line(kv));
    }
  }

  // ---------------------------------------------------------------- counting

  lemma CountOne(line: string, key: string)
    ensures Count([line], key) == if Matches(line, key) then 1 else 0
  {
    hide Matches;
    assert [line][..0] == [];
  }

  /** A line whose key is on its first line carries that key, and what it spills. */
  lemma CountOfSplit(line: string, key: string)
    requires '\n' !in Cut(line, '=').before
    ensures Count(Split(line, '\n'), key) == (if Matches(line, key) then 1 else 0) + Count(Spilled(line), key)
  {
    if '\n' in line {
      var head, rest := AtFirstByte(line, '\n');
      HeadKeepsKey(head, rest, key);
      hide Split, Count, Matches, Cut;
      SplitFirst(head, rest, '\n');
      assert Spilled(line) == Split(rest, '\n');
      CountConcat([head], Split(rest, '\n'), key);
      CountOne(head, key);
    } else {
      hide Split, Matches, Cut;
      SplitFirst(line, "", '\n');
      CountOne(line, key);
    }
  }

  lemma HeadKeepsKey(head: string, rest: string, key: string)
    requires '\n' !in Cut(head + ['\n'] + rest, '=').before
    ensures Matches(head, key) <==> Matches(head + ['\n'] + rest, key)
  {
    var line := head + ['\n'] + rest;
    var i := IndexByte(line, '=');
    assert line[|head|] == '\n';
    assert forall j :: 0 <= j < i ==> line[j] in line[..i];
    assert forall j :: 0 <= j < |head| ==> line[j] == head[j];
    IndexByteIs(head, '=', i);
    assert head[..i] == line[..i];
  }

  lemma {:induction false} CountOfSplitAll(lines: seq<string>, key: string)
    requires forall j :: 0 <= j < |lines| ==> '\n' !in Cut(lines[j], '=').before
    ensures Count(SplitAll(lines), key) == Count(lines, key) + Count(SpilledAll(lines), key)
  {
    hide Split, Spilled, Matches, Cut;
    if lines != [] {
      var n := |lines| - 1;
      CountOfSplitAll(lines[..n], key);
      CountOfSplit(lines[n], key);
      CountConcat(SplitAll(lines[..n]), Split(lines[n], '\n'), key);
      CountConcat(SpilledAll(lines[..n]), Spilled(lines[n]), key);
    }
  }

  /** Lines carry no key at all exactly when none of them has an '='. */
  lemma NoKeysIff(lines: seq<string>)
    ensures (forall key :: Count(lines, key) == 0) <==> forall j :: 0 <= j < |lines| ==> '=' !in lines[j]
  {
    hide *;
    if j :| 0 <= j < |lines| && '=' in lines[j] {
      var key := KeyOf(lines[j]);
      FoldsToItself(key);
      KeyOfMatches(lines[j], key);
      CountZero(lines, key);
      FirstMatchIsFirst(lines, key);
    } else {
      forall key ensures Count(lines, key) == 0 {
        forall j | 0 <= j < |lines| ensures !Matches(lines[j], key) {
          KeyOfMatches(lines[j], key);
        }
        FirstMatchIs(lines, key, |lines|);
        CountZero(lines, key);
      }
    }
  }

  // ------------------------------------------------------------ the condition

  lemma EditPrints(data: string, pairs: seq<Pair>)
    ensures ParseLines(Edit(data, pairs)) == SplitAll(SetKeys(ParseLines(data), pairs))
  {
    var after := SetKeys(ParseLines(data), pairs);
    ParsedLines(data);
    hide ParseLines, PrintLines, SetKeys, Split, Join, Free;
    EditEndsWell(ParseLines(data), pairs);
    ParsePrint(after);
    SplitOfJoin(after);
  }

  /** With settable keys, the edited file has the lines the law asks for, and those that
      written values spill. */
  lemma CountInFile(data: string, pairs: seq<Pair>, key: string)
    requires AllSettable(pairs)
    ensures Count(ParseLines(Edit(data, pairs)), key) ==
              CountAfter(pairs, key, Count(ParseLines(data), key)) + Count(SpilledAll(SetKeys(ParseLines(data), pairs)), key)
  {
    var lines := ParseLines(data);
    var after := SetKeys(lines, pairs);
    ParsedLines(data);
    SettableAddressable(pairs);
    hide ParseLines, SetKeys, Cut, Addressable, Count, EndsWell, Edit;
    UnsettableAppends(lines, pairs);
    EditPrints(data, pairs);
    CountOfSplitAll(after, key);
    CountAfterEdit(lines, pairs, key);
  }

  lemma SettableAddressable(pairs: seq<Pair>)
    requires AllSettable(pairs)
    ensures AllAddressable(pairs)
  {
    hide Addressable;
  }

  lemma TidySpillsNothing(lines: seq<string>, pairs: seq<Pair>, k: nat, part: string)
    requires Tidy(pairs) && AllAddressable(pairs) && Free(lines, '\n')
    requires k < |SetKeys(lines, pairs)| && part in Spilled(SetKeys(lines, pairs)[k])
    ensures '=' !in part
  {
    var after := SetKeys(lines, pairs);
    hide Spilled, SetKeys, Settable, Cut, LastFor, FirstMatch, Line, AllAddressable;
    LineOrigin(lines, pairs, k);
    SpillsEquals(after[k]);
    if q: nat :| q < |pairs| && WrittenBy(pairs, q, after, k) {
      LineSpills(pairs[q]);
    } else {
      CutNothing(after[k]);
    }
  }

  lemma UntidySpills(lines: seq<string>, pairs: seq<Pair>, i: nat) returns (part: string)
    requires AllAddressable(pairs) && i < |pairs| && Settable(pairs[i].key)
    requires LastFor(pairs, pairs[i].key) == i && '=' in Cut(pairs[i].value, '\n').after
    ensures part in SpilledAll(SetKeys(lines, pairs)) && '=' in part
  {
    var after := SetKeys(lines, pairs);
    hide Spilled, SpilledAll, SetKeys, Settable, Cut, LastFor, FirstMatch, Line, AllAddressable;
    FirstMatchAfterEdit(lines, pairs, pairs[i].key);
    var k := FirstMatch(after, pairs[i].key);
    LineSpills(pairs[i]);
    SpillsEquals(after[k]);
    var p :| 0 <= p < |Spilled(after[k])| && '=' in Spilled(after[k])[p];
    part := Spilled(after[k])[p];
    SpilledAllHas(after, part);
  }

  /** An edit of settable keys spills an '=' exactly when a last value does. */
  lemma EditSpillsIff(lines: seq<string>, pairs: seq<Pair>)
    requires AllSettable(pairs) && Free(lines, '\n')
    ensures (forall j :: 0 <= j < |SpilledAll(SetKeys(lines, pairs))| ==> '=' !in SpilledAll(SetKeys(lines, pairs))[j])
            <==> Tidy(pairs)
  {
    var after := SetKeys(lines, pairs);
    var spilled := SpilledAll(after);
    SettableAddressable(pairs);
    hide Spilled, SpilledAll, SetKeys, Settable, AllAddressable, Cut, LastFor, Free;
    if Tidy(pairs) {
      hide Tidy;
      forall j | 0 <= j < |spilled| ensures '=' !in spilled[j] {
        SpilledAllHas(after, spilled[j]);
        var k :| 0 <= k < |after| && spilled[j] in Spilled(after[k]);
        TidySpillsNothing(lines, pairs, k, spilled[j]);
      }
    } else {
      var i: nat :| i < |pairs| && LastFor(pairs, pairs[i].key) == i && '=' in Cut(pairs[i].value, '\n').after;
      var part := UntidySpills(lines, pairs, i);
    }
  }

  /** A key that is not settable is written and not found: it has no line, where the law
      asks for one. */
  lemma UnsettableHasNoLine(data: string, key: string)
    requires !Settable(key)
    ensures Count(ParseLines(data), key) == 0
  {
    var lines := ParseLines(data);
    ParsedLines(data);
    hide ParseLines, Addressable, Matches, Cut, EndsWell;
    forall j | 0 <= j < |lines| ensures !Matches(lines[j], key) {
      CutBefore(lines[j]);
      NeverMatches(lines[j], key);
    }
    FirstMatchIs(lines, key, |lines|);
    CountZero(lines, key);
  }

  lemma UnsettableBreaksLaw(data: string, pairs: seq<Pair>, i: nat)
    requires i < |pairs| && !Settable(pairs[i].key)
    ensures !CountLaw(data, pairs, pairs[i].key)
  {
    var key := pairs[i].key;
    hide ParseLines, Edit, Count, Settable, EqualFold;
    UnsettableHasNoLine(data, key);
    UnsettableHasNoLine(Edit(data, pairs), key);
    LastForIsLast(pairs, key);
    FoldsToItself(key);
  }

  /** An edit keeps the count law for every key if, and only if, its pairs are tidy: for
      every file and every list of pairs. */
  lemma CountLawIff(data: string, pairs: seq<Pair>)
    ensures (forall key :: CountLaw(data, pairs, key)) <==> Tidy(pairs)
  {
    hide ParseLines, Edit, Count, Settable, SpilledAll, SetKeys, CountAfter, LastFor, Cut, EndsWell;
    var lines := ParseLines(data);
    ParsedLines(data);
    if i :| 0 <= i < |pairs| && !Settable(pairs[i].key) {
      UnsettableBreaksLaw(data, pairs, i);
    } else {
      var spilled := SpilledAll(SetKeys(lines, pairs));
      assert AllSettable(pairs);
      EditSpillsIff(lines, pairs);
      NoKeysIff(spilled);
      if Tidy(pairs) {
        forall key ensures CountLaw(data, pairs, key) {
          CountInFile(data, pairs, key);
        }
      } else {
        var key :| Count(spilled, key) != 0;
        CountInFile(data, pairs, key);
        assert !CountLaw(data, pairs, key);
      }
    }
  }

  /** Repeatable pairs are tidy, but not the other way round. */
  lemma RepeatableIsTidy(pairs: seq<Pair>)
    requires Repeatable(pairs)
    ensures Tidy(pairs)
  {
    hide Settable, LastFor, Cut;
    forall i | 0 <= i < |pairs| && LastFor(pairs, pairs[i].key) == i
      ensures '=' !in Cut(pairs[i].value, '\n').after
    {
      CutNothing(pairs[i].value);
    }
  }

  /** The two conditions differ: a value may span lines and still add no duplicate. */
  lemma TidyIsWeaker()
    ensures Tidy([Pair("k", "x\ny")]) && !Repeatable([Pair("k", "x\ny")])
  {
    var p := Pair("k", "x\ny");
    assert "x\ny" == "x" + ['\n'] + "y" && p.value[1] == '\n';
    CutConcat("x", "y", '\n');
    OneIsLast(p);
  }
}
