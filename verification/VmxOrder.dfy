// The order of the pairs: on the lines of a file, for pairs of any kind.
module VmxOrder {
  import opened Text
  import opened VmxEditor
  import opened VmxLaws

  // --------------------------------------------- one step of the editor, any key

  lemma MatchedIsAddressable(line: string, key: string)
    requires Matches(line, key)
    ensures Addressable(key)
  {
    hide Addressable, Matches;
    if !Addressable(key) {
      NeverMatches(line, key);
    }
  }

  lemma FoldedAreAlike(a: string, b: string)
    requires EqualFold(a, b)
    ensures Addressable(a) <==> Addressable(b)
  {
    ToLowerTrimmed(a);
    ToLowerTrimmed(b);
  }

  lemma UnaddressableIsAppended(lines: seq<string>, kv: Pair)
    requires !Addressable(kv.key)
    ensures SetKey(lines, kv) == lines + [Line(kv)]
  {
    hide Matches, Line, FirstMatch, Addressable;
    forall j | 0 <= j < |lines| ensures !Matches(lines[j], kv.key) {
      NeverMatches(lines[j], kv.key);
    }
    FirstMatchIs(lines, kv.key, |lines|);
    SetKeyAt(lines, kv);
  }

  /** Where a key is found after a line is appended. */
  lemma FirstMatchAfterAppend(lines: seq<string>, line: string, key: string)
    ensures var f, after := FirstMatch(lines, key), lines + [line];
            FirstMatch(after, key) == if f < |lines| || Matches(line, key) then f else |after|
  {
    hide Matches, FirstMatch;
    var f := FirstMatch(lines, key);
    FirstMatchIsFirst(lines, key);
    FirstMatchIs(lines + [line], key, if f < |lines| || Matches(line, key) then f else |lines| + 1);
  }

  /** Where a key is found after one step, whatever the pair. A pair whose key is not
      addressable may still write a line that carries the key. */
  lemma AfterSet(lines: seq<string>, kv: Pair, key: string)
    ensures var f, after := FirstMatch(lines, key), SetKey(lines, kv);
            if f < |lines| then
              && FirstMatch(after, key) == f < |after|
              && after[f] == if EqualFold(kv.key, key) then Line(kv) else lines[f]
            else if Matches(Line(kv), key) then FirstMatch(after, key) == f < |after| && after[f] == Line(kv)
            else FirstMatch(after, key) == |after|
  {
    var f := FirstMatch(lines, key);
    if f < |lines| {
      FirstMatchIsFirst(lines, key);
      MatchedIsAddressable(lines[f], key);
    }
    hide Matches, Line, FirstMatch, Addressable, EqualFold, SetKey;
    if Addressable(kv.key) {
      LineReadsBack(kv, key);
      FirstMatchAfterSet(lines, kv, key);
      if f == |lines| && EqualFold(kv.key, key) {
        FirstMatchFolds(lines, kv.key, key);
        SetKeyAt(lines, kv);
      }
    } else {
      UnaddressableIsAppended(lines, kv);
      FirstMatchAfterAppend(lines, Line(kv), key);
      if f < |lines| && EqualFold(kv.key, key) {
        FoldedAreAlike(kv.key, key);
      }
    }
  }

  // ------------------------------------------------------- pairs that keep apart

  /** What a Go map yields: no key twice. Keys may still be equal up to case. */
  predicate MapEntries(ps: seq<Pair>) {
    forall i, j :: 0 <= i < j < |ps| ==> ps[i].key != ps[j].key
  }

  /** No pair's line carries the key of another pair. */
  predicate Apart(ps: seq<Pair>) {
    forall i, j :: 0 <= i < |ps| && 0 <= j < |ps| && i != j ==> !Matches(Line(ps[i]), ps[j].key)
  }

  /** On addressable keys, that is being fold-distinct. */
  lemma ApartIffDistinct(ps: seq<Pair>)
    requires AllAddressable(ps)
    ensures Apart(ps) <==> DistinctKeys(ps)
  {
    hide Addressable, Matches, Line, EqualFold;
    forall i, j | 0 <= i < |ps| && 0 <= j < |ps|
      ensures Matches(Line(ps[i]), ps[j].key) <==> EqualFold(ps[i].key, ps[j].key)
      ensures EqualFold(ps[i].key, ps[j].key) <==> EqualFold(ps[j].key, ps[i].key)
    {
      LineReadsBack(ps[i], ps[j].key);
      FoldSymmetric(ps[i].key, ps[j].key);
    }
  }

  function Lines(pairs: seq<Pair>): (ls: seq<string>)
    ensures |ls| == |pairs|
  {
    if pairs == [] then [] else Lines(pairs[..|pairs| - 1]) + [Line(pairs[|pairs| - 1])]
  }

  /** The pairs whose class has no line yet, in order. */
  function Fresh(lines: seq<string>, pairs: seq<Pair>): seq<Pair> {
    if pairs == [] then []
    else
      Fresh(lines, pairs[..|pairs| - 1])
      + if FirstMatch(lines, pairs[|pairs| - 1].key) == |lines| then [pairs[|pairs| - 1]] else []
  }

  /** Pairs that keep apart do not move a key that none of their lines carries. */
  lemma {:induction false} ApartFirst(lines: seq<string>, ps: seq<Pair>, key: string)
    requires forall i :: 0 <= i < |ps| ==> !Matches(Line(ps[i]), key)
    ensures var f, after := FirstMatch(lines, key), SetKeys(lines, ps);
            FirstMatch(after, key) == if f < |lines| then f else |after|
    ensures FirstMatch(lines, key) < |lines| ==> FirstMatch(lines, key) < |SetKeys(lines, ps)|
  {
    hide Matches, Line, FirstMatch, SetKey, EqualFold;
    if ps != [] {
      var qs, b := ps[..|ps| - 1], ps[|ps| - 1];
      ApartFirst(lines, qs, key);
      AfterSet(SetKeys(lines, qs), b, key);
    }
  }

  /** What stands at an original position after pairs that keep apart. */
  ghost predicate Settled(lines: seq<string>, ps: seq<Pair>, after: seq<string>, i: nat)
    requires i < |lines| && i < |after|
  {
    || (exists k: nat :: k < |ps| && WritesAt(lines, ps[k], i) && after[i] == Line(ps[k]))
    || (after[i] == lines[i] && forall k :: 0 <= k < |ps| ==> !WritesAt(lines, ps[k], i))
  }

  predicate WritesAt(lines: seq<string>, p: Pair, i: nat) {
    FirstMatch(lines, p.key) == i
  }

  lemma ApartPrefix(ps: seq<Pair>, n: nat)
    requires Apart(ps) && n <= |ps|
    ensures Apart(ps[..n])
  {
    hide Matches, Line;
    assert forall i :: 0 <= i < n ==> ps[..n][i] == ps[i];
  }

  /** What one more pair makes of the result. */
  lemma ApartStep(lines: seq<string>, mid: seq<string>, b: Pair, k: nat)
    requires |mid| >= |lines| >= k && k == FirstMatch(lines, b.key)
    requires FirstMatch(mid, b.key) == if k < |lines| then k else |mid|
    ensures |SetKey(mid, b)| >= |lines|
    ensures SetKey(mid, b)[|lines|..] == if k == |lines| then mid[|lines|..] + [Line(b)] else mid[|lines|..]
    ensures forall i :: 0 <= i < |lines| ==> SetKey(mid, b)[i] == if WritesAt(lines, b, i) then Line(b) else mid[i]
  {
    hide *;
    SetKeyAt(mid, b);
    forall i | 0 <= i < |lines| ensures WritesAt(lines, b, i) <==> i == k {
      WritesAtIs(lines, b, i);
    }
  }

  lemma WritesAtIs(lines: seq<string>, p: Pair, i: nat)
    ensures WritesAt(lines, p, i) <==> FirstMatch(lines, p.key) == i
  {
    hide FirstMatch;
  }

  lemma FreshIs(lines: seq<string>, qs: seq<Pair>, b: Pair)
    ensures Fresh(lines, qs + [b]) == if FirstMatch(lines, b.key) == |lines| then Fresh(lines, qs) + [b] else Fresh(lines, qs)
  {
    hide FirstMatch;
    assert (qs + [b])[..|qs|] == qs;
    assert Fresh(lines, qs) + [] == Fresh(lines, qs);
  }

  lemma LinesStep(ps: seq<Pair>, b: Pair)
    ensures Lines(ps + [b]) == Lines(ps) + [Line(b)]
  {
    hide Line;
    assert (ps + [b])[..|ps|] == ps;
  }

  lemma FirstMatchWithin(lines: seq<string>, key: string)
    ensures FirstMatch(lines, key) <= |lines|
  {
    hide FirstMatch;
  }

  lemma NothingSettled(lines: seq<string>)
    ensures SetKeys(lines, []) == lines && Lines(Fresh(lines, [])) == [] && lines[|lines|..] == []
    ensures forall i :: 0 <= i < |lines| ==> Settled(lines, [], lines, i)
  {
  }

  /** The whole result of pairs that keep apart: each stands where its class had its first
      line, or is appended. */
  lemma {:induction false} ApartResult(lines: seq<string>, ps: seq<Pair>)
    requires Apart(ps)
    ensures |SetKeys(lines, ps)| >= |lines|
    ensures SetKeys(lines, ps)[|lines|..] == Lines(Fresh(lines, ps))
    ensures forall i :: 0 <= i < |lines| ==> Settled(lines, ps, SetKeys(lines, ps), i)
  {
    hide *;
    NothingSettled(lines);
    if ps != [] {
      var n := |ps| - 1;
      var qs, b := ps[..n], ps[n];
      var mid := SetKeys(lines, qs);
      ApartPrefix(ps, n);
      ApartResult(lines, qs);
      SetKeysStep(lines, ps);
      LastIsApart(ps);
      ApartFirst(lines, qs, b.key);
      FirstMatchWithin(lines, b.key);
      ApartStep(lines, mid, b, FirstMatch(lines, b.key));
      assert ps == qs + [b];
      FreshIs(lines, qs, b);
      LinesStep(Fresh(lines, qs), b);
      forall i | 0 <= i < |lines| ensures Settled(lines, ps, SetKeys(lines, ps), i) {
        SettledStep(lines, ps, mid, SetKeys(lines, ps), i);
      }
    }
  }

  lemma LastIsApart(ps: seq<Pair>)
    requires Apart(ps) && ps != []
    ensures var n := |ps| - 1; forall i :: 0 <= i < n ==> !Matches(Line(ps[..n][i]), ps[n].key)
  {
    hide Matches, Line;
  }

  lemma SettledStep(lines: seq<string>, ps: seq<Pair>, mid: seq<string>, after: seq<string>, i: nat)
    requires ps != [] && i < |lines| <= |mid| && |lines| <= |after|
    requires Settled(lines, ps[..|ps| - 1], mid, i)
    requires after[i] == if WritesAt(lines, ps[|ps| - 1], i) then Line(ps[|ps| - 1]) else mid[i]
    ensures Settled(lines, ps, after, i)
  {
    hide WritesAt, Line;
    var n := |ps| - 1;
    if WritesAt(lines, ps[n], i) {
      assert after[i] == Line(ps[n]);
    } else if k: nat :| k < n && WritesAt(lines, ps[..n][k], i) && mid[i] == Line(ps[..n][k]) {
      assert ps[..n][k] == ps[k];
    } else {
      assert forall k :: 0 <= k < n ==> ps[..n][k] == ps[k];
    }
  }

  /** Only one of them stands at any place. */
  lemma OneWriter(lines: seq<string>, ps: seq<Pair>, i: nat, a: nat, b: nat)
    requires Apart(ps) && i < |lines| && a < |ps| && b < |ps|
    requires WritesAt(lines, ps[a], i) && WritesAt(lines, ps[b], i)
    ensures a == b
  {
    hide Matches, Line, FirstMatch, Addressable, EqualFold;
    FirstMatchIsFirst(lines, ps[a].key);
    FirstMatchIsFirst(lines, ps[b].key);
    MatchedIsAddressable(lines[i], ps[a].key);
    ClassIsUnique(lines[i], ps[a].key, ps[b].key);
    LineReadsBack(ps[a], ps[b].key);
  }

  // ------------------------------------------------------------- permutations

  /** A permutation of the pairs of a map: the same pairs in any order. */
  predicate Permuted(ps: seq<Pair>, qs: seq<Pair>) {
    multiset(ps) == multiset(qs)
  }

  lemma {:induction false} FreshCounts(lines: seq<string>, pairs: seq<Pair>, p: Pair)
    ensures multiset(Fresh(lines, pairs))[p] == if FirstMatch(lines, p.key) == |lines| then multiset(pairs)[p] else 0
  {
    hide FirstMatch;
    if pairs != [] {
      FreshCounts(lines, pairs[..|pairs| - 1], p);
      assert pairs == pairs[..|pairs| - 1] + [pairs[|pairs| - 1]];
    }
  }

  lemma FreshPermuted(lines: seq<string>, ps: seq<Pair>, qs: seq<Pair>)
    requires Permuted(ps, qs)
    ensures Permuted(Fresh(lines, ps), Fresh(lines, qs))
  {
    hide FirstMatch, Fresh;
    forall p ensures multiset(Fresh(lines, ps))[p] == multiset(Fresh(lines, qs))[p] {
      FreshCounts(lines, ps, p);
      FreshCounts(lines, qs, p);
    }
  }

  lemma {:induction false} LinesConcat(ps: seq<Pair>, qs: seq<Pair>)
    ensures Lines(ps + qs) == Lines(ps) + Lines(qs)
  {
    hide Line;
    if qs == [] {
      assert ps + qs == ps;
    } else {
      assert (ps + qs)[..|ps + qs| - 1] == ps + qs[..|qs| - 1];
      LinesConcat(ps, qs[..|qs| - 1]);
    }
  }

  lemma RestIsPermuted(ps: seq<Pair>, qs: seq<Pair>, j: nat)
    requires Permuted(ps, qs) && ps != [] && j < |qs| && qs[j] == ps[|ps| - 1]
    ensures qs == qs[..j] + [qs[j]] + qs[j + 1..]
    ensures Permuted(ps[..|ps| - 1], qs[..j] + qs[j + 1..])
  {
    var p, init := ps[|ps| - 1], ps[..|ps| - 1];
    assert ps == init + [p];
    assert qs == qs[..j] + [p] + qs[j + 1..];
    assert multiset(init) == multiset(ps) - multiset{p};
    assert multiset(qs[..j] + qs[j + 1..]) == multiset(qs) - multiset{p};
  }

  lemma MultisetOfMiddle(a: seq<string>, b: seq<string>, c: seq<string>)
    ensures multiset(a + b + c) == multiset(a + c) + multiset(b)
  {
  }

  lemma {:induction false} LinesPermuted(ps: seq<Pair>, qs: seq<Pair>)
    requires Permuted(ps, qs)
    ensures multiset(Lines(ps)) == multiset(Lines(qs))
    decreases |ps|
  {
    hide Line, Lines;
    if ps == [] {
      assert |multiset(qs)| == 0;
      assert qs == [];
    } else {
      var p, init := ps[|ps| - 1], ps[..|ps| - 1];
      assert p in multiset(ps);
      var j :| 0 <= j < |qs| && qs[j] == p;
      var left, right := qs[..j], qs[j + 1..];
      RestIsPermuted(ps, qs, j);
      assert ps == init + [p];
      LinesPermuted(init, left + right);
      LinesConcat(init, [p]);
      LinesConcat(left, right);
      LinesConcat(left, [p]);
      LinesConcat(left + [p], right);
      MultisetOfMiddle(Lines(left), Lines([p]), Lines(right));
    }
  }

  lemma {:induction false} DistinctCounts(ps: seq<Pair>, p: Pair)
    requires forall i, j :: 0 <= i < j < |ps| ==> ps[i] != ps[j]
    ensures multiset(ps)[p] <= 1
  {
    if ps != [] {
      var init, last := ps[..|ps| - 1], ps[|ps| - 1];
      assert ps == init + [last];
      DistinctCounts(init, p);
      assert forall i :: 0 <= i < |init| ==> init[i] != last;
      assert last !in multiset(init);
    }
  }

  lemma TwiceCounts(qs: seq<Pair>, i: nat, j: nat)
    requires i < j < |qs|
    ensures qs[i] == qs[j] ==> multiset(qs)[qs[i]] >= 2
  {
    assert qs == qs[..j] + [qs[j]] + qs[j + 1..];
    assert qs[i] == qs[..j][i];
  }

  lemma PermutedIndex(ps: seq<Pair>, qs: seq<Pair>, i: nat) returns (k: nat)
    requires Permuted(ps, qs) && i < |qs|
    ensures k < |ps| && ps[k] == qs[i]
  {
    assert qs[i] in multiset(qs);
    assert qs[i] in multiset(ps);
    k :| k < |ps| && ps[k] == qs[i];
  }

  lemma PermutedEntries(ps: seq<Pair>, qs: seq<Pair>, i: nat, j: nat)
    requires Permuted(ps, qs) && MapEntries(ps) && i < j < |qs|
    ensures qs[i] != qs[j]
  {
    forall a, b | 0 <= a < b < |ps| ensures ps[a] != ps[b] {
      assert ps[a].key != ps[b].key;
    }
    DistinctCounts(ps, qs[i]);
    TwiceCounts(qs, i, j);
  }

  lemma PermutedApart(ps: seq<Pair>, qs: seq<Pair>)
    requires Permuted(ps, qs) && MapEntries(ps) && Apart(ps)
    ensures Apart(qs)
  {
    hide Matches, Line, Permuted, MapEntries;
    forall i, j | 0 <= i < |qs| && 0 <= j < |qs| && i != j ensures !Matches(Line(qs[i]), qs[j].key) {
      var a := PermutedIndex(ps, qs, i);
      var b := PermutedIndex(ps, qs, j);
      PermutedEntries(ps, qs, if i < j then i else j, if i < j then j else i);
      assert a != b;
    }
  }

  lemma OrderInPlace(lines: seq<string>, ps: seq<Pair>, qs: seq<Pair>, i: nat)
    requires Apart(ps) && Apart(qs) && Permuted(ps, qs) && i < |lines|
    ensures |SetKeys(lines, ps)| >= |lines| && |SetKeys(lines, qs)| >= |lines|
    ensures SetKeys(lines, ps)[i] == SetKeys(lines, qs)[i]
  {
    hide SetKeys, Line, Apart, WritesAt;
    ApartResult(lines, ps);
    ApartResult(lines, qs);
    var a, b := SetKeys(lines, ps), SetKeys(lines, qs);
    assert Settled(lines, ps, a, i) && Settled(lines, qs, b, i);
    PermutedBack(ps, qs);
    if k: nat :| k < |ps| && WritesAt(lines, ps[k], i) && a[i] == Line(ps[k]) {
      var m := PermutedIndex(qs, ps, k);
      var l: nat :| l < |qs| && WritesAt(lines, qs[l], i) && b[i] == Line(qs[l]);
      OneWriter(lines, qs, i, m, l);
    } else if l: nat :| l < |qs| && WritesAt(lines, qs[l], i) && b[i] == Line(qs[l]) {
      var k := PermutedIndex(ps, qs, l);
    }
  }

  lemma PermutedBack(ps: seq<Pair>, qs: seq<Pair>)
    requires Permuted(ps, qs)
    ensures Permuted(qs, ps)
  {
  }

  lemma OrderOfAppended(lines: seq<string>, ps: seq<Pair>, qs: seq<Pair>)
    requires Apart(ps) && Apart(qs) && Permuted(ps, qs)
    ensures |SetKeys(lines, ps)| == |SetKeys(lines, qs)| >= |lines|
    ensures multiset(SetKeys(lines, ps)[|lines|..]) == multiset(SetKeys(lines, qs)[|lines|..])
  {
    var a, b := SetKeys(lines, ps), SetKeys(lines, qs);
    hide SetKeys, Line, Apart, Lines, Fresh, Settled, Permuted;
    ApartResult(lines, ps);
    ApartResult(lines, qs);
    FreshPermuted(lines, ps, qs);
    LinesPermuted(Fresh(lines, ps), Fresh(lines, qs));
    assert |a[|lines|..]| == |multiset(a[|lines|..])| && |b[|lines|..]| == |multiset(b[|lines|..])|;
  }

  /** Entries of a map that keep apart: every order gives the same lines at the original
      positions, and the same appended lines up to their order. */
  lemma OrderIndependent(lines: seq<string>, ps: seq<Pair>, qs: seq<Pair>)
    requires MapEntries(ps) && Apart(ps) && Permuted(ps, qs)
    ensures |SetKeys(lines, ps)| == |SetKeys(lines, qs)| >= |lines|
    ensures SetKeys(lines, ps)[..|lines|] == SetKeys(lines, qs)[..|lines|]
    ensures multiset(SetKeys(lines, ps)[|lines|..]) == multiset(SetKeys(lines, qs)[|lines|..])
  {
    hide *;
    PermutedApart(ps, qs);
    OrderOfAppended(lines, ps, qs);
    forall i | 0 <= i < |lines| ensures SetKeys(lines, ps)[i] == SetKeys(lines, qs)[i] {
      OrderInPlace(lines, ps, qs, i);
    }
  }

  // ------------------------------------------------------- pairs that do not

  lemma UnaddressableCount(lines: seq<string>, kv: Pair, key: string)
    requires !Addressable(kv.key)
    ensures Count(SetKey(lines, kv), key) == Count(lines, key) + if Matches(Line(kv), key) then 1 else 0
  {
    hide Matches, Count, Line, Addressable;
    UnaddressableIsAppended(lines, kv);
    CountAppend(lines, Line(kv), key);
  }

  /** The pairs that add a line to a class without naming it. */
  function Leaks(ps: seq<Pair>, key: string): nat {
    if ps == [] then 0
    else
      var p := ps[|ps| - 1];
      Leaks(ps[..|ps| - 1], key) + if !Addressable(p.key) && Matches(Line(p), key) then 1 else 0
  }

  lemma {:induction false} CountAfterLeaks(lines: seq<string>, ps: seq<Pair>, key: string)
    requires Count(lines, key) >= 1
    ensures Count(SetKeys(lines, ps), key) == Count(lines, key) + Leaks(ps, key)
  {
    hide Matches, Count, Line, Addressable, SetKey, EqualFold;
    if ps != [] {
      var qs, b := ps[..|ps| - 1], ps[|ps| - 1];
      var mid := SetKeys(lines, qs);
      CountAfterLeaks(lines, qs, key);
      if Addressable(b.key) {
        CountAfterSet(mid, b, key);
      } else {
        UnaddressableCount(mid, b, key);
      }
    }
  }

  /** A pair that leaks into another's class leaves one more line when it comes second. */
  lemma LeakTells(a: Pair, b: Pair, rest: seq<Pair>)
    requires !Addressable(a.key) && Matches(Line(a), b.key)
    ensures Count(SetKeys([""], [a, b] + rest), b.key) + 1 == Count(SetKeys([""], [b, a] + rest), b.key)
  {
    MatchedIsAddressable(Line(a), b.key);
    EmptyFile(b.key);
    FoldsToItself(b.key);
    hide Matches, Count, Line, Addressable, SetKey, SetKeys, EqualFold, Leaks;
    TwoPairs([""], a, b, rest);
    TwoPairs([""], b, a, rest);
    UnaddressableCount([""], a, b.key);
    CountAfterSet(SetKey([""], a), b, b.key);
    CountAfterSet([""], b, b.key);
    UnaddressableCount(SetKey([""], b), a, b.key);
    CountAfterLeaks(SetKey(SetKey([""], a), b), rest, b.key);
    CountAfterLeaks(SetKey(SetKey([""], b), a), rest, b.key);
  }

  lemma EmptyFile(key: string)
    ensures Count([""], key) == 0 && FirstMatch([""], key) == 1
  {
    assert !Matches("", key);
    hide Matches, Count, FirstMatch;
    FirstMatchIs([""], key, 1);
    CountZero([""], key);
  }

  lemma TwoPairs(lines: seq<string>, a: Pair, b: Pair, rest: seq<Pair>)
    ensures SetKeys(lines, [a, b] + rest) == SetKeys(SetKey(SetKey(lines, a), b), rest)
    ensures SetKeys(lines, rest + [a, b]) == SetKey(SetKey(SetKeys(lines, rest), a), b)
  {
    hide SetKey, SetKeys;
    SetKeysConcat(lines, [a, b], rest);
    SetKeysConcat(lines, rest, [a, b]);
    forall ls ensures SetKeys(ls, [a, b]) == SetKey(SetKey(ls, a), b) {
      SetKeysStep(ls, [a, b]);
      SetKeysStep(ls, [a]);
      SetKeysFirst(ls, []);
      assert [a, b][..1] == [a] && [a][..0] == [];
    }
  }

  lemma {:induction false} FirstMatchStays(lines: seq<string>, ps: seq<Pair>, key: string)
    requires FirstMatch(lines, key) < |lines|
    ensures FirstMatch(SetKeys(lines, ps), key) == FirstMatch(lines, key) < |SetKeys(lines, ps)|
  {
    hide Matches, Line, FirstMatch, SetKey, EqualFold;
    if ps != [] {
      FirstMatchStays(lines, ps[..|ps| - 1], key);
      AfterSet(SetKeys(lines, ps[..|ps| - 1]), ps[|ps| - 1], key);
    }
  }

  /** Of two pairs of one class, the last one stands on the class's line. */
  lemma FoldTells(lines: seq<string>, a: Pair, b: Pair, rest: seq<Pair>)
    requires EqualFold(a.key, b.key) && FirstMatch(lines, b.key) < |lines|
    ensures var at, after := FirstMatch(lines, b.key), SetKeys(lines, rest + [a, b]);
            at < |after| && after[at] == Line(b)
  {
    FoldsToItself(b.key);
    hide Matches, Line, FirstMatch, SetKey, SetKeys, EqualFold;
    FirstMatchStays(lines, rest, b.key);
    TwoPairs(lines, a, b, rest);
    AfterSet(SetKeys(lines, rest), a, b.key);
    AfterSet(SetKey(SetKeys(lines, rest), a), b, b.key);
  }

  lemma {:induction false} CountPermuted(x: seq<string>, y: seq<string>, key: string)
    requires multiset(x) == multiset(y)
    ensures Count(x, key) == Count(y, key)
    decreases |x|
  {
    hide Matches, Count;
    if x == [] {
      assert |multiset(y)| == 0;
      assert y == [];
    } else {
      var n := |x| - 1;
      assert x[n] in multiset(x);
      var j :| 0 <= j < |y| && y[j] == x[n];
      assert x == x[..n] + [x[n]];
      assert y == y[..j] + [y[j]] + y[j + 1..];
      assert multiset(x[..n]) == multiset(x) - multiset{x[n]};
      assert multiset(y[..j] + y[j + 1..]) == multiset(y) - multiset{x[n]};
      CountPermuted(x[..n], y[..j] + y[j + 1..], key);
      CountAppend(x[..n], x[n], key);
      CountConcat(y[..j], y[j + 1..], key);
      CountConcat(y[..j] + [y[j]], y[j + 1..], key);
      CountAppend(y[..j], y[j], key);
    }
  }

  // ------------------------------------------------------------------- reading

  /** What a written line reads as. */
  function Reading(p: Pair): string {
    Trim(TrimSpace(Cut(Line(p), '=').after), QUOTES)
  }

  /** The first pair whose line carries the key, or |ps|. */
  function FirstCarrier(ps: seq<Pair>, key: string): (i: nat)
    ensures i <= |ps|
  {
    if ps == [] then 0
    else
      var n := |ps| - 1;
      var f := FirstCarrier(ps[..n], key);
      if f < n then f else if Matches(Line(ps[n]), key) then n else n + 1
  }

  lemma {:induction false} CarrierIsFirst(ps: seq<Pair>, key: string)
    ensures FirstCarrier(ps, key) < |ps| ==> Matches(Line(ps[FirstCarrier(ps, key)]), key)
    ensures forall j :: 0 <= j < FirstCarrier(ps, key) ==> !Matches(Line(ps[j]), key)
  {
    hide Matches, Line;
    if ps != [] {
      CarrierIsFirst(ps[..|ps| - 1], key);
    }
  }

  /** What a key reads as after an edit, whatever the pairs: the last value of its class;
      or as before; or, when nothing names the class and the file lacks it, as the first
      line that carries it. */
  function ReadAfter(lines: seq<string>, ps: seq<Pair>, key: string): string {
    if !Addressable(key) then ""
    else if LastFor(ps, key) >= 0 then Reading(ps[LastFor(ps, key)])
    else if FirstMatch(lines, key) < |lines| then LookupIn(lines, key)
    else if FirstCarrier(ps, key) < |ps| then Reading(ps[FirstCarrier(ps, key)])
    else ""
  }

  /** The line that a key is read from. */
  ghost predicate ReadFrom(lines: seq<string>, ps: seq<Pair>, key: string) {
    var f, after := FirstMatch(lines, key), SetKeys(lines, ps);
    var g, l, c := FirstMatch(after, key), LastFor(ps, key), FirstCarrier(ps, key);
    if l >= 0 then g < |after| && after[g] == Line(ps[l])
    else if f < |lines| then g == f < |after| && after[g] == lines[f]
    else if c < |ps| then g < |after| && after[g] == Line(ps[c])
    else g == |after|
  }

  lemma {:induction false} ReadsFrom(lines: seq<string>, ps: seq<Pair>, key: string)
    requires Addressable(key)
    ensures ReadFrom(lines, ps, key)
  {
    hide Matches, Line, FirstMatch, SetKey, EqualFold, Addressable, SetKeys, LastFor, FirstCarrier;
    SetKeysFirst(lines, ps);
    LastForOf(ps, key);
    CarrierOf(ps, key);
    if ps != [] {
      var qs, b := ps[..|ps| - 1], ps[|ps| - 1];
      ReadsFrom(lines, qs, key);
      SetKeysStep(lines, ps);
      AfterSet(SetKeys(lines, qs), b, key);
      if EqualFold(b.key, key) {
        FoldedAreAlike(b.key, key);
        LineReadsBack(b, key);
      }
    }
  }

  lemma LastForOf(ps: seq<Pair>, key: string)
    ensures ps == [] ==> LastFor(ps, key) == -1
    ensures ps != [] ==> LastFor(ps, key) == if EqualFold(ps[|ps| - 1].key, key) then |ps| - 1 else LastFor(ps[..|ps| - 1], key)
  {
    hide EqualFold;
  }

  lemma CarrierOf(ps: seq<Pair>, key: string)
    ensures ps == [] ==> FirstCarrier(ps, key) == 0
    ensures ps != [] ==>
              var n := |ps| - 1;
              var f := FirstCarrier(ps[..n], key);
              FirstCarrier(ps, key) == if f < n then f else if Matches(Line(ps[n]), key) then n else n + 1
  {
    hide Matches, Line;
  }

  lemma UnaddressableReads(lines: seq<string>, key: string)
    requires !Addressable(key)
    ensures LookupIn(lines, key) == ""
  {
    hide Matches, FirstMatch, Addressable;
    forall j | 0 <= j < |lines| ensures !Matches(lines[j], key) {
      NeverMatches(lines[j], key);
    }
    FirstMatchIs(lines, key, |lines|);
  }

  /** Put then get for pairs of any kind. */
  lemma LookupAfterAny(lines: seq<string>, ps: seq<Pair>, key: string)
    ensures LookupIn(SetKeys(lines, ps), key) == ReadAfter(lines, ps, key)
  {
    hide Matches, Line, FirstMatch, SetKeys, LastFor, FirstCarrier, Addressable, Cut, Trim, TrimSpace;
    if Addressable(key) {
      ReadsFrom(lines, ps, key);
    } else {
      UnaddressableReads(SetKeys(lines, ps), key);
    }
  }

  /** The pair can be the one its class is read from: it names the class, or nothing does. */
  predicate Decides(ps: seq<Pair>, p: Pair) {
    Addressable(p.key) || LastFor(ps, KeyOf(Line(p))) < 0
  }

  predicate SameClass(p: Pair, q: Pair) {
    EqualFold(KeyOf(Line(p)), KeyOf(Line(q)))
  }

  /** Pairs that can decide one class read the same. */
  predicate ReadsAlike(ps: seq<Pair>) {
    forall i, j :: 0 <= i < |ps| && 0 <= j < |ps| && SameClass(ps[i], ps[j]) && Decides(ps, ps[i]) && Decides(ps, ps[j]) ==>
      Reading(ps[i]) == Reading(ps[j])
  }

  lemma CarriesIts(p: Pair, key: string)
    ensures Matches(Line(p), key) <==> EqualFold(KeyOf(Line(p)), key)
  {
    var k, rest := p.key, " \"" + p.value + "\"";
    assert Line(p) == (k + " ") + ['='] + rest;
    assert Line(p)[|k| + 1] == '=';
    hide Line, Matches, KeyOf, EqualFold;
    KeyOfMatches(Line(p), key);
  }

  lemma OwnClass(p: Pair)
    requires Addressable(p.key)
    ensures EqualFold(p.key, KeyOf(Line(p)))
  {
    hide Line, KeyOf, Matches, Addressable, EqualFold;
    FoldsToItself(p.key);
    LineReadsBack(p, p.key);
    CarriesIts(p, p.key);
    FoldSymmetric(p.key, KeyOf(Line(p)));
  }

  lemma FoldTransitive(a: string, b: string, c: string)
    requires EqualFold(a, b) && EqualFold(b, c)
    ensures EqualFold(a, c) && EqualFold(c, a)
  {
  }

  lemma LastForIfAny(ps: seq<Pair>, key: string, i: nat)
    requires i < |ps| && EqualFold(ps[i].key, key)
    ensures LastFor(ps, key) >= i
  {
    LastForIsLast(ps, key);
  }

  lemma PermutedHas(ps: seq<Pair>, qs: seq<Pair>, key: string)
    requires Permuted(ps, qs)
    ensures LastFor(ps, key) >= 0 <==> LastFor(qs, key) >= 0
    ensures FirstCarrier(ps, key) < |ps| <==> FirstCarrier(qs, key) < |qs|
  {
    hide LastFor, EqualFold, Permuted, Matches, Line, FirstCarrier;
    PermutedBack(ps, qs);
    PermutedHasOneWay(ps, qs, key);
    PermutedHasOneWay(qs, ps, key);
  }

  lemma PermutedHasOneWay(ps: seq<Pair>, qs: seq<Pair>, key: string)
    requires Permuted(ps, qs)
    ensures LastFor(qs, key) >= 0 ==> LastFor(ps, key) >= 0
    ensures FirstCarrier(qs, key) < |qs| ==> FirstCarrier(ps, key) < |ps|
  {
    LastForIsLast(qs, key);
    hide LastFor, EqualFold, Permuted, Matches, Line, FirstCarrier;
    if LastFor(qs, key) >= 0 {
      var k := PermutedIndex(ps, qs, LastFor(qs, key));
      LastForIfAny(ps, key, k);
    }
    CarrierIsFirst(ps, key);
    CarrierIsFirst(qs, key);
    if FirstCarrier(qs, key) < |qs| {
      var k := PermutedIndex(ps, qs, FirstCarrier(qs, key));
    }
  }

  /** On addressable keys, that is: keys that are equal up to case have values that read
      the same. */
  lemma AlikeIffClassesAgree(ps: seq<Pair>)
    requires AllAddressable(ps)
    ensures ReadsAlike(ps)
            <==> forall i, j :: 0 <= i < |ps| && 0 <= j < |ps| && EqualFold(ps[i].key, ps[j].key) ==>
                   Trim(ps[i].value, QUOTES) == Trim(ps[j].value, QUOTES)
  {
    hide Addressable, EqualFold, Line, KeyOf, LastFor, Reading, Trim;
    forall i | 0 <= i < |ps|
      ensures Decides(ps, ps[i]) && Reading(ps[i]) == Trim(ps[i].value, QUOTES)
    {
      assert Addressable(ps[i].key);
      AddressableReading(ps[i]);
    }
    forall i, j | 0 <= i < |ps| && 0 <= j < |ps|
      ensures SameClass(ps[i], ps[j]) <==> EqualFold(ps[i].key, ps[j].key)
    {
      AddressableClass(ps[i], ps[j]);
    }
  }

  lemma AddressableReading(p: Pair)
    requires Addressable(p.key)
    ensures Reading(p) == Trim(p.value, QUOTES)
  {
    LineReadsBack(p, p.key);
    hide Line, Cut, Trim, TrimSpace, Addressable;
  }

  lemma AddressableClass(p: Pair, q: Pair)
    requires Addressable(p.key) && Addressable(q.key)
    ensures SameClass(p, q) <==> EqualFold(p.key, q.key)
  {
    hide Line, KeyOf, Addressable;
    OwnClass(p);
    OwnClass(q);
  }

  /** The pair a class is read from can decide it. */
  lemma DeciderOf(ps: seq<Pair>, key: string, p: Pair)
    requires Addressable(key)
    requires (EqualFold(p.key, key) && p in ps) || (LastFor(ps, key) < 0 && Matches(Line(p), key))
    ensures Decides(ps, p) && EqualFold(KeyOf(Line(p)), key)
  {
    hide Addressable, EqualFold, Line, Matches, KeyOf, LastFor;
    if EqualFold(p.key, key) && p in ps {
      FoldedAreAlike(p.key, key);
      OwnClass(p);
      FoldSymmetric(p.key, KeyOf(Line(p)));
      FoldTransitive(KeyOf(Line(p)), p.key, key);
    } else {
      CarriesIts(p, key);
      LastForFolds(ps, KeyOf(Line(p)), key);
    }
  }

  /** If pairs that can decide a class read the same, no order reads differently. */
  lemma AlikeReadsSame(lines: seq<string>, ps: seq<Pair>, qs: seq<Pair>, key: string)
    requires ReadsAlike(ps) && Permuted(ps, qs)
    ensures LookupIn(SetKeys(lines, ps), key) == LookupIn(SetKeys(lines, qs), key)
  {
    LookupAfterAny(lines, ps, key);
    LookupAfterAny(lines, qs, key);
    if Addressable(key) {
      PermutedHas(ps, qs, key);
      CarrierIsFirst(ps, key);
      CarrierIsFirst(qs, key);
      LastForIsLast(ps, key);
      LastForIsLast(qs, key);
      hide Addressable, EqualFold, Line, Matches, LastFor, LookupIn, SetKeys, Reading, FirstCarrier, FirstMatch, Permuted, ReadsAlike, Decides;
      if LastFor(ps, key) >= 0 {
        var k := PermutedIndex(ps, qs, LastFor(qs, key));
        DeciderOf(ps, key, ps[LastFor(ps, key)]);
        DeciderOf(ps, key, ps[k]);
        AlikeAt(ps, LastFor(ps, key), k, key);
      } else if FirstCarrier(ps, key) < |ps| {
        var k := PermutedIndex(ps, qs, FirstCarrier(qs, key));
        DeciderOf(ps, key, ps[FirstCarrier(ps, key)]);
        DeciderOf(ps, key, ps[k]);
        AlikeAt(ps, FirstCarrier(ps, key), k, key);
      }
    }
  }

  lemma AlikeAt(ps: seq<Pair>, i: nat, j: nat, key: string)
    requires ReadsAlike(ps) && i < |ps| && j < |ps| && Decides(ps, ps[i]) && Decides(ps, ps[j])
    requires EqualFold(KeyOf(Line(ps[i])), key) && EqualFold(KeyOf(Line(ps[j])), key)
    ensures Reading(ps[i]) == Reading(ps[j])
  {
    hide EqualFold, Line, KeyOf, Decides, Reading;
    FoldSymmetric(KeyOf(Line(ps[j])), key);
    FoldTransitive(KeyOf(Line(ps[i])), key, KeyOf(Line(ps[j])));
  }

  /** Two pairs that name one class: the last of them is read. */
  lemma NamingReads(lines: seq<string>, a: Pair, b: Pair, rest: seq<Pair>)
    requires Addressable(b.key)
    ensures LookupIn(SetKeys(lines, rest + [a, b]), b.key) == Reading(b)
  {
    var ps := rest + [a, b];
    FoldsToItself(b.key);
    LastForIs(ps, b.key, |rest| + 1);
    hide LookupIn, SetKeys, Reading, Addressable, LastFor;
    LookupAfterAny(lines, ps, b.key);
  }

  /** Two pairs that leak into a class nobody names: the first of them is read. */
  lemma LeakingReads(a: Pair, b: Pair, rest: seq<Pair>, key: string)
    requires Addressable(key) && Matches(Line(a), key) && LastFor([a, b] + rest, key) < 0
    ensures LookupIn(SetKeys([""], [a, b] + rest), key) == Reading(a)
  {
    var ps := [a, b] + rest;
    EmptyFile(key);
    hide LookupIn, SetKeys, Reading, Addressable, LastFor, Matches, Line, FirstMatch;
    assert ps[0] == a;
    CarrierIsFirst(ps, key);
    LookupAfterAny([""], ps, key);
  }
}
