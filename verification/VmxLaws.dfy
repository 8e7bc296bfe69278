// The laws of the .vmx editor on the lines of a file.
module VmxLaws {
  import opened Text
  import opened VmxEditor

  // ------------------------------------------------------------- last pairs

  lemma {:induction false} LastForIsLast(pairs: seq<Pair>, key: string)
    ensures LastFor(pairs, key) >= 0 ==> EqualFold(pairs[LastFor(pairs, key)].key, key)
    ensures forall j :: LastFor(pairs, key) < j < |pairs| ==> !EqualFold(pairs[j].key, key)
  {
    hide EqualFold;
    if pairs != [] && !EqualFold(pairs[|pairs| - 1].key, key) {
      LastForIsLast(pairs[..|pairs| - 1], key);
    }
  }

  lemma {:induction false} LastForIs(pairs: seq<Pair>, key: string, i: nat)
    requires i < |pairs| && EqualFold(pairs[i].key, key)
    requires forall j :: i < j < |pairs| ==> !EqualFold(pairs[j].key, key)
    ensures LastFor(pairs, key) == i
  {
    LastForIsLast(pairs, key);
  }

  lemma LastForFolds(pairs: seq<Pair>, a: string, b: string)
    requires EqualFold(a, b)
    ensures LastFor(pairs, a) == LastFor(pairs, b)
  {
    LastForIsLast(pairs, a);
    LastForIsLast(pairs, b);
    if LastFor(pairs, a) >= 0 {
      LastForIs(pairs, b, LastFor(pairs, a));
    }
  }

  lemma SetKeysStep(lines: seq<string>, pairs: seq<Pair>)
    requires pairs != []
    ensures SetKeys(lines, pairs) == SetKey(SetKeys(lines, pairs[..|pairs| - 1]), pairs[|pairs| - 1])
  {
  }

  lemma SetKeysLonger(lines: seq<string>, pairs: seq<Pair>)
    ensures |SetKeys(lines, pairs)| >= |lines|
  {
    hide Matches, Line;
    if pairs != [] {
      SetKeysLonger(lines, pairs[..|pairs| - 1]);
    }
  }

  // ------------------------------------------------------------ get after put

  /** Where a key is found after the edit, and what its line is. */
  lemma {:induction false} FirstMatchAfterEdit(lines: seq<string>, pairs: seq<Pair>, key: string)
    requires AllAddressable(pairs)
    ensures var was, now, last := FirstMatch(lines, key), FirstMatch(SetKeys(lines, pairs), key), LastFor(pairs, key);
            var after := SetKeys(lines, pairs);
            if was < |lines| then now == was < |after| && after[now] == if last >= 0 then Line(pairs[last]) else lines[was]
            else if last >= 0 then |lines| <= now < |after| && after[now] == Line(pairs[last])
            else now == |after|
  {
    hide EqualFold, Matches, Line, FirstMatch, SetKey, Addressable;
    if pairs != [] {
      var qs, b := pairs[..|pairs| - 1], pairs[|pairs| - 1];
      var mid := SetKeys(lines, qs);
      FirstMatchAfterEdit(lines, qs, key);
      SetKeysLonger(lines, qs);
      FirstMatchAfterSet(mid, b, key);
      SetKeyLonger(mid, b);
    }
  }

  lemma SetKeyLonger(lines: seq<string>, kv: Pair)
    ensures |SetKey(lines, kv)| >= |lines|
  {
    hide FirstMatch, Line;
  }

  /** Put then get: a written key reads as its last value, every other key as before. */
  lemma GetAfterPut(lines: seq<string>, pairs: seq<Pair>, key: string)
    requires AllAddressable(pairs)
    ensures LookupIn(SetKeys(lines, pairs), key) ==
              if LastFor(pairs, key) >= 0 then Trim(pairs[LastFor(pairs, key)].value, QUOTES)
              else LookupIn(lines, key)
  {
    FirstMatchAfterEdit(lines, pairs, key);
    var last := LastFor(pairs, key);
    if last >= 0 {
      LineReadsBack(pairs[last], key);
    }
    hide Matches, Line, FirstMatch, SetKeys, Cut, Trim, LastFor;
  }

  // -------------------------------------------------------------- idempotence

  /** All these pairs' classes have a line. */
  predicate AllPresent(lines: seq<string>, pairs: seq<Pair>) {
    forall p | p in pairs :: FirstMatch(lines, p.key) < |lines|
  }

  lemma SetKeyKeepsPresent(lines: seq<string>, kv: Pair, pairs: seq<Pair>)
    requires Addressable(kv.key) && AllPresent(lines, pairs)
    ensures AllPresent(SetKey(lines, kv), pairs)
  {
    hide SetKey, FirstMatch, Addressable, EqualFold;
    SetKeyLonger(lines, kv);
    forall p | p in pairs ensures FirstMatch(SetKey(lines, kv), p.key) < |SetKey(lines, kv)| {
      FirstMatchAfterSet(lines, kv, p.key);
    }
  }

  lemma {:induction false} SetKeysConcat(lines: seq<string>, ps: seq<Pair>, qs: seq<Pair>)
    ensures SetKeys(lines, ps + qs) == SetKeys(SetKeys(lines, ps), qs)
  {
    hide SetKey;
    if qs == [] {
      assert ps + qs == ps;
    } else {
      assert (ps + qs)[..|ps + qs| - 1] == ps + qs[..|qs| - 1];
      SetKeysConcat(lines, ps, qs[..|qs| - 1]);
    }
  }

  lemma SetKeysFirst(lines: seq<string>, pairs: seq<Pair>)
    ensures SetKeys(lines, []) == lines
    ensures pairs != [] ==> SetKeys(lines, pairs) == SetKeys(SetKey(lines, pairs[0]), pairs[1..])
  {
    if pairs != [] {
      SetKeysConcat(lines, pairs[..1], pairs[1..]);
      assert pairs[..1] + pairs[1..] == pairs;
      assert SetKeys(lines, pairs[..1]) == SetKey(SetKeys(lines, pairs[..1][..0]), pairs[0]);
    }
  }

  /** Writing b both before and after pairs whose classes are all present is writing it after. */
  lemma {:induction false} WriteSinks(lines: seq<string>, b: Pair, pairs: seq<Pair>)
    requires Addressable(b.key) && AllAddressable(pairs) && AllPresent(lines, pairs)
    ensures SetKey(SetKeys(SetKey(lines, b), pairs), b) == SetKey(SetKeys(lines, pairs), b)
    decreases |pairs|
  {
    hide SetKey, FirstMatch, Addressable, SetKeys;
    SetKeysFirst(lines, pairs);
    SetKeysFirst(SetKey(lines, b), pairs);
    if pairs == [] {
      SetKeyAbsorbs(lines, b, b);
    } else {
      var q := pairs[0];
      assert Addressable(q.key) && FirstMatch(lines, q.key) < |lines|;
      if EqualFold(b.key, q.key) {
        SetKeyAbsorbs(lines, b, q);
      } else {
        SetKeyCommutes(lines, q, b);
        SetKeyKeepsPresent(lines, q, pairs[1..]);
        WriteSinks(SetKey(lines, q), b, pairs[1..]);
      }
    }
  }

  lemma AllPresentAfterEdit(lines: seq<string>, pairs: seq<Pair>)
    requires AllAddressable(pairs)
    ensures AllPresent(SetKeys(lines, pairs), pairs)
  {
    hide SetKeys, FirstMatch, Addressable;
    forall p | p in pairs ensures FirstMatch(SetKeys(lines, pairs), p.key) < |SetKeys(lines, pairs)| {
      FirstMatchAfterEdit(lines, pairs, p.key);
      LastForIsLast(pairs, p.key);
    }
  }

  /** Repeating an edit of addressable keys changes no line. */
  lemma {:induction false} SetKeysIdempotent(lines: seq<string>, pairs: seq<Pair>)
    requires AllAddressable(pairs)
    ensures SetKeys(SetKeys(lines, pairs), pairs) == SetKeys(lines, pairs)
    decreases |pairs|
  {
    if pairs != [] {
      hide SetKey, FirstMatch, Addressable, SetKeys;
      var qs, b := pairs[..|pairs| - 1], pairs[|pairs| - 1];
      var mid := SetKeys(lines, qs);
      SetKeysStep(lines, pairs);
      SetKeysStep(SetKeys(lines, pairs), pairs);
      SetKeysIdempotent(lines, qs);
      AllPresentAfterEdit(lines, qs);
      WriteSinks(mid, b, qs);
    }
  }

  // ----------------------------------------------- which lines an edit changes

  /** Every line of the result is an old line in its old place, or the line of the
      last pair of its class, which is then the only class it serves. */
  ghost predicate Provenance(lines: seq<string>, pairs: seq<Pair>, after: seq<string>, i: nat)
    requires i < |after|
  {
    || (i < |lines| && after[i] == lines[i])
    || (exists q: nat :: q < |pairs| && WrittenBy(pairs, q, after, i))
  }

  ghost predicate WrittenBy(pairs: seq<Pair>, q: nat, after: seq<string>, i: nat)
    requires q < |pairs| && i < |after|
  {
    && LastFor(pairs, pairs[q].key) == q
    && FirstMatch(after, pairs[q].key) == i
    && after[i] == Line(pairs[q])
  }

  lemma {:induction false} LineOrigin(lines: seq<string>, pairs: seq<Pair>, i: nat)
    requires AllAddressable(pairs) && i < |SetKeys(lines, pairs)|
    ensures Provenance(lines, pairs, SetKeys(lines, pairs), i)
    decreases |pairs|
  {
    if pairs != [] {
      hide SetKey, FirstMatch, Addressable, SetKeys, LastFor;
      var n := |pairs| - 1;
      var qs, b := pairs[..n], pairs[n];
      var mid, after := SetKeys(lines, qs), SetKeys(lines, pairs);
      SetKeysStep(lines, pairs);
      SetKeyAt(mid, b);
      FirstMatchAfterSet(mid, b, b.key);
      LastForIs(pairs, b.key, n);
      if FirstMatch(mid, b.key) == i {
        assert WrittenBy(pairs, n, after, i);
      } else {
        assert i < |mid| && after[i] == mid[i];
        LineOrigin(lines, qs, i);
        if !(i < |lines| && mid[i] == lines[i]) {
          var q: nat :| q < |qs| && WrittenBy(qs, q, mid, i);
          FirstMatchAfterSet(mid, b, pairs[q].key);
          if EqualFold(b.key, pairs[q].key) {
            FirstMatchFolds(mid, b.key, pairs[q].key);
          }
          LastForExtends(pairs, q);
          assert WrittenBy(pairs, q, after, i);
        }
      }
    } else {
      SetKeysFirst(lines, pairs);
    }
  }

  lemma LastForExtends(pairs: seq<Pair>, q: nat)
    requires q < |pairs| - 1 && LastFor(pairs[..|pairs| - 1], pairs[q].key) == q
    requires !EqualFold(pairs[|pairs| - 1].key, pairs[q].key)
    ensures LastFor(pairs, pairs[q].key) == q
  {
  }

  /** The key text of a line that has an '='. */
  function KeyOf(line: string): string {
    TrimSpace(Cut(line, '=').before)
  }

  /** What stands at an original position after an edit: the last value of the line's
      class if it is written and this is the class's first line, else the old line. */
  function InPlace(lines: seq<string>, pairs: seq<Pair>, i: nat): string
    requires i < |lines|
  {
    var key := KeyOf(lines[i]);
    if '=' in lines[i] && FirstMatch(lines, key) == i && LastFor(pairs, key) >= 0
    then Line(pairs[LastFor(pairs, key)])
    else lines[i]
  }

  lemma KeyOfMatches(line: string, key: string)
    ensures Matches(line, key) <==> '=' in line && EqualFold(KeyOf(line), key)
  {
    hide TrimSpace, EqualFold;
  }

  /** Original positions: only the first line of a written class changes. */
  lemma EditInPlace(lines: seq<string>, pairs: seq<Pair>, i: nat)
    requires AllAddressable(pairs) && i < |lines|
    ensures |SetKeys(lines, pairs)| >= |lines| && SetKeys(lines, pairs)[i] == InPlace(lines, pairs, i)
  {
    var after, key := SetKeys(lines, pairs), KeyOf(lines[i]);
    SetKeysLonger(lines, pairs);
    FirstMatchAfterEdit(lines, pairs, key);
    LineOrigin(lines, pairs, i);
    if after[i] != lines[i] {
      var q: nat :| q < |pairs| && WrittenBy(pairs, q, after, i);
      var written := pairs[q].key;
      FirstMatchAfterEdit(lines, pairs, written);
      FirstMatchIsFirst(lines, written);
      KeyOfMatches(lines[i], written);
      hide *;
      FirstMatchFolds(lines, key, written);
      LastForFolds(pairs, key, written);
    } else {
      hide SetKeys, FirstMatch, KeyOf, LastFor, Line, Addressable;
    }
  }

  /** Appended positions: each holds the last value of a class absent before, once. */
  lemma EditAppends(lines: seq<string>, pairs: seq<Pair>, i: nat) returns (q: nat)
    requires AllAddressable(pairs) && |lines| <= i < |SetKeys(lines, pairs)|
    ensures q < |pairs| && LastFor(pairs, pairs[q].key) == q
    ensures FirstMatch(lines, pairs[q].key) == |lines|
    ensures SetKeys(lines, pairs)[i] == Line(pairs[q])
    ensures FirstMatch(SetKeys(lines, pairs), pairs[q].key) == i
  {
    var after := SetKeys(lines, pairs);
    LineOrigin(lines, pairs, i);
    q :| q < |pairs| && WrittenBy(pairs, q, after, i);
    FirstMatchAfterEdit(lines, pairs, pairs[q].key);
  }

  // ------------------------------------------------------- no new duplicates

  lemma {:induction false} CountAppend(lines: seq<string>, line: string, key: string)
    ensures Count(lines + [line], key) == Count(lines, key) + if Matches(line, key) then 1 else 0
  {
    hide Matches;
    assert (lines + [line])[..|lines + [line]| - 1] == lines;
  }

  lemma {:induction false} CountConcat(a: seq<string>, b: seq<string>, key: string)
    ensures Count(a + b, key) == Count(a, key) + Count(b, key)
  {
    hide Matches;
    if b == [] {
      assert a + b == a;
    } else {
      assert (a + b)[..|a + b| - 1] == a + b[..|b| - 1];
      CountConcat(a, b[..|b| - 1], key);
    }
  }

  lemma {:induction false} CountUpdate(lines: seq<string>, i: nat, line: string, key: string)
    requires i < |lines|
    ensures Count(lines[i := line], key) ==
              Count(lines, key) - (if Matches(lines[i], key) then 1 else 0) + if Matches(line, key) then 1 else 0
  {
    hide Matches;
    var n := |lines| - 1;
    if i < n {
      CountUpdate(lines[..n], i, line, key);
      assert lines[i := line][..n] == lines[..n][i := line];
    } else {
      assert lines[i := line][..n] == lines[..n];
    }
  }

  lemma {:induction false} CountZero(lines: seq<string>, key: string)
    ensures Count(lines, key) == 0 <==> FirstMatch(lines, key) == |lines|
  {
    hide Matches, FirstMatch;
    FirstMatchIsFirst(lines, key);
    if lines != [] {
      var init := lines[..|lines| - 1];
      CountZero(init, key);
      FirstMatchIsFirst(init, key);
      if Count(lines, key) == 0 {
        FirstMatchIs(lines, key, |lines|);
      }
    }
  }

  lemma CountAfterSet(lines: seq<string>, kv: Pair, key: string)
    requires Addressable(kv.key)
    ensures Count(SetKey(lines, kv), key) ==
              if EqualFold(kv.key, key) && Count(lines, key) == 0 then 1 else Count(lines, key)
  {
    hide Matches, FirstMatch, Count, EqualFold, Addressable, Line, SetKey;
    var i := FirstMatch(lines, kv.key);
    LineReadsBack(kv, key);
    CountZero(lines, kv.key);
    CountFolds(lines, kv.key, key);
    SetKeyAt(lines, kv);
    if i < |lines| {
      FirstMatchIsFirst(lines, kv.key);
      ClassIsUnique(lines[i], kv.key, key);
      CountUpdate(lines, i, Line(kv), key);
    } else {
      CountAppend(lines, Line(kv), key);
    }
  }

  lemma {:induction false} CountFolds(lines: seq<string>, a: string, b: string)
    ensures EqualFold(a, b) ==> Count(lines, a) == Count(lines, b)
  {
    if lines != [] && EqualFold(a, b) {
      var last := lines[|lines| - 1];
      assert Matches(last, a) == Matches(last, b);
      hide Matches;
      CountFolds(lines[..|lines| - 1], a, b);
    }
  }

  /** A written class ends with as many lines as before, or one if it had none; every
      other class keeps its count. */
  lemma {:induction false} CountAfterEdit(lines: seq<string>, pairs: seq<Pair>, key: string)
    requires AllAddressable(pairs)
    ensures Count(SetKeys(lines, pairs), key) ==
              if LastFor(pairs, key) >= 0 && Count(lines, key) == 0 then 1 else Count(lines, key)
  {
    hide SetKey, Count, EqualFold, Addressable;
    if pairs != [] {
      CountAfterEdit(lines, pairs[..|pairs| - 1], key);
      CountAfterSet(SetKeys(lines, pairs[..|pairs| - 1]), pairs[|pairs| - 1], key);
    }
  }

  // ------------------------------------------------------------ distinct keys

  /** No two pairs belong to one class: what a map of fold-distinct keys yields. */
  predicate DistinctKeys(pairs: seq<Pair>) {
    forall i, j :: 0 <= i < j < |pairs| ==> !EqualFold(pairs[i].key, pairs[j].key)
  }

  lemma FoldsToItself(key: string)
    ensures EqualFold(key, key)
  {
  }

  lemma FoldSymmetric(a: string, b: string)
    ensures EqualFold(a, b) == EqualFold(b, a)
  {
  }
}
