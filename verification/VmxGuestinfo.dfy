// provider/vmware/ops.go, SetGuestinfo: the pairs come from a Go map, in whatever order
// the iteration yields them. Keys are not checked: they may hold '=' or blanks.
module VmxGuestinfo {
  import opened Text
  import opened VmxEditor
  import opened VmxLaws
  import opened VmxOrder
  import opened VmxBytes

  predicate SameReading(data: string, ps: seq<Pair>, qs: seq<Pair>, key: string) {
    Lookup(Edit(data, ps), key) == Lookup(Edit(data, qs), key)
  }

  /** The two files agree at every original line, and append the same lines. */
  predicate SameLines(data: string, ps: seq<Pair>, qs: seq<Pair>) {
    var n, a, b := |ParseLines(data)|, ParseLines(Edit(data, ps)), ParseLines(Edit(data, qs));
    |a| == |b| >= n && a[..n] == b[..n] && multiset(a[n..]) == multiset(b[n..])
  }

  lemma PermutedOneLine(ps: seq<Pair>, qs: seq<Pair>)
    requires OneLine(ps) && Permuted(ps, qs)
    ensures OneLine(qs)
  {
    hide Permuted;
    forall i | 0 <= i < |qs| ensures '\n' !in qs[i].key && '\n' !in qs[i].value {
      var k := PermutedIndex(ps, qs, i);
    }
  }

  // --------------------------------------------------------------- sufficient

  lemma ApartSameLines(data: string, ps: seq<Pair>, qs: seq<Pair>)
    requires OneLine(ps) && MapEntries(ps) && Apart(ps) && Permuted(ps, qs)
    ensures SameLines(data, ps, qs)
  {
    hide ParseLines, Edit, SetKeys, OneLine, MapEntries, Apart, Permuted;
    PermutedOneLine(ps, qs);
    OneLineEdited(data, ps);
    OneLineEdited(data, qs);
    OrderIndependent(ParseLines(data), ps, qs);
  }

  /** What vmxKey finds in a file edited with one-line pairs. */
  lemma LookupInEdited(data: string, ps: seq<Pair>, key: string)
    requires OneLine(ps)
    ensures Lookup(Edit(data, ps), key) == LookupIn(SetKeys(ParseLines(data), ps), key)
  {
    hide ParseLines, Edit, SetKeys, OneLine, LookupIn, Lookup;
    LookupIgnoresTrailingNewlines(Edit(data, ps), key);
    OneLineEdited(data, ps);
  }

  lemma AlikeSameReading(data: string, ps: seq<Pair>, qs: seq<Pair>, key: string)
    requires OneLine(ps) && ReadsAlike(ps) && Permuted(ps, qs)
    ensures SameReading(data, ps, qs, key)
  {
    hide ParseLines, Edit, SetKeys, OneLine, ReadsAlike, Permuted, LookupIn, Lookup;
    PermutedOneLine(ps, qs);
    LookupInEdited(data, ps, key);
    LookupInEdited(data, qs, key);
    AlikeReadsSame(ParseLines(data), ps, qs, key);
  }

  // ---------------------------------------------------------------- necessary

  lemma Without(ps: seq<Pair>, k: nat)
    requires k < |ps|
    ensures multiset(ps) == multiset{ps[k]} + multiset(ps[..k] + ps[k + 1..])
  {
    assert ps == ps[..k] + [ps[k]] + ps[k + 1..];
  }

  /** The rest of a list without two of its pairs. */
  lemma Rest(ps: seq<Pair>, i: nat, j: nat) returns (rest: seq<Pair>)
    requires i < |ps| && j < |ps| && i != j
    ensures multiset(ps) == multiset{ps[i], ps[j]} + multiset(rest)
  {
    var without := ps[..i] + ps[i + 1..];
    var k := if j < i then j else j - 1;
    assert without[k] == ps[j];
    rest := without[..k] + without[k + 1..];
    Without(ps, i);
    Without(without, k);
  }

  lemma Arranged(ps: seq<Pair>, a: Pair, b: Pair, rest: seq<Pair>)
    requires multiset(ps) == multiset{a, b} + multiset(rest)
    ensures Permuted(ps, [a, b] + rest) && Permuted(ps, [b, a] + rest)
    ensures Permuted(ps, rest + [a, b]) && Permuted(ps, rest + [b, a])
  {
    assert multiset([a, b]) == multiset{a, b} == multiset([b, a]);
  }

  /** Two orders that do not leave the same lines as each other: one of them does not
      leave the same lines as the list itself. */
  lemma OneDiffers(data: string, ps: seq<Pair>, x: seq<Pair>, y: seq<Pair>) returns (qs: seq<Pair>)
    requires Permuted(ps, x) && Permuted(ps, y) && !SameLines(data, x, y)
    ensures Permuted(ps, qs) && !SameLines(data, ps, qs)
  {
    qs := if SameLines(data, ps, x) then y else x;
    hide ParseLines, Edit;
  }

  lemma SameLinesCount(data: string, x: seq<Pair>, y: seq<Pair>, key: string)
    requires SameLines(data, x, y)
    ensures Count(ParseLines(Edit(data, x)), key) == Count(ParseLines(Edit(data, y)), key)
  {
    hide Edit, ParseLines, Count;
    var n, a, b := |ParseLines(data)|, ParseLines(Edit(data, x)), ParseLines(Edit(data, y));
    assert a == a[..n] + a[n..] && b == b[..n] + b[n..];
    CountConcat(a[..n], a[n..], key);
    CountConcat(b[..n], b[n..], key);
    CountPermuted(a[n..], b[n..], key);
  }

  lemma NothingParses()
    ensures ParseLines("") == [""]
  {
    SplitFirst("", "", '\n');
  }

  /** A pair that leaks into the class of another. */
  lemma LeakDiffers(ps: seq<Pair>, i: nat, j: nat) returns (qs: seq<Pair>)
    requires OneLine(ps) && i < |ps| && j < |ps| && i != j
    requires !Addressable(ps[i].key) && Matches(Line(ps[i]), ps[j].key)
    ensures Permuted(ps, qs) && !SameLines("", ps, qs)
  {
    var a, b := ps[i], ps[j];
    hide ParseLines, Edit, SetKeys, OneLine, Count, Matches, Line, Addressable, SameLines, Permuted;
    var rest := Rest(ps, i, j);
    Arranged(ps, a, b, rest);
    var x, y := [a, b] + rest, [b, a] + rest;
    PermutedOneLine(ps, x);
    PermutedOneLine(ps, y);
    NothingParses();
    OneLineEdited("", x);
    OneLineEdited("", y);
    LeakTells(a, b, rest);
    if SameLines("", x, y) {
      SameLinesCount("", x, y, b.key);
    }
    qs := OneDiffers("", ps, x, y);
  }

  /** A file that already has a line for the key. */
  lemma FileWith(key: string) returns (data: string)
    requires Settable(key)
    ensures FirstMatch(ParseLines(data), key) < |ParseLines(data)|
  {
    var kv := Pair(key, "");
    data := Edit("", [kv]);
    assert OneLine([kv]);
    OneIsLast(kv);
    hide ParseLines, Edit, SetKeys, FirstMatch, Settable, LastFor, OneLine, Addressable;
    OneLineEdited("", [kv]);
    SettableIsAddressable(key);
    assert AllAddressable([kv]);
    FirstMatchAfterEdit(ParseLines(""), [kv], key);
  }

  lemma SettableIsAddressable(key: string)
    ensures Settable(key) <==> Addressable(key) && '\n' !in key
  {
  }

  lemma KeysTell(a: Pair, b: Pair)
    requires Addressable(a.key) && Addressable(b.key) && a.key != b.key
    ensures Line(a) != Line(b)
  {
    hide Line, Addressable, KeyOf;
    KeyOfLine(a);
    KeyOfLine(b);
  }

  lemma KeyOfLine(kv: Pair)
    requires Addressable(kv.key)
    ensures KeyOf(Line(kv)) == kv.key
  {
    var quoted := " \"" + kv.value + "\"";
    assert Line(kv) == kv.key + " " + ['='] + quoted;
    hide Cut, Trim;
    CutConcat(kv.key + " ", quoted, '=');
    assert kv.key + " " == "" + kv.key + " ";
    TrimPad("", kv.key, " ", SPACES);
    TrimIsTrimmed(kv.key, SPACES);
  }

  /** Two keys that are equal up to case. */
  lemma FoldDiffers(ps: seq<Pair>, i: nat, j: nat) returns (data: string, qs: seq<Pair>)
    requires OneLine(ps) && i < |ps| && j < |ps| && ps[i].key != ps[j].key
    requires Addressable(ps[i].key) && Addressable(ps[j].key) && EqualFold(ps[i].key, ps[j].key)
    ensures Permuted(ps, qs) && !SameLines(data, ps, qs)
  {
    var a, b := ps[i], ps[j];
    SettableIsAddressable(b.key);
    FoldSymmetric(a.key, b.key);
    FirstMatchSame(a.key, b.key);
    assert '\n' !in b.key;
    hide ParseLines, Edit, SetKeys, OneLine, FirstMatch, Line, Addressable, Permuted, EqualFold, Settable;
    var rest := Rest(ps, i, j);
    Arranged(ps, a, b, rest);
    var x, y := rest + [a, b], rest + [b, a];
    PermutedOneLine(ps, x);
    PermutedOneLine(ps, y);
    data := FileWith(b.key);
    OneLineEdited(data, x);
    OneLineEdited(data, y);
    FoldTells(ParseLines(data), a, b, rest);
    FoldTells(ParseLines(data), b, a, rest);
    KeysTell(a, b);
    LineDiffers(data, x, y, FirstMatch(ParseLines(data), b.key));
    qs := OneDiffers(data, ps, x, y);
  }

  lemma FirstMatchSame(a: string, b: string)
    requires EqualFold(a, b)
    ensures forall lines :: FirstMatch(lines, a) == FirstMatch(lines, b)
  {
    hide FirstMatch, EqualFold;
    forall lines ensures FirstMatch(lines, a) == FirstMatch(lines, b) {
      FirstMatchFolds(lines, a, b);
    }
  }

  lemma LineDiffers(data: string, x: seq<Pair>, y: seq<Pair>, at: nat)
    requires at < |ParseLines(data)| && at < |ParseLines(Edit(data, x))| && at < |ParseLines(Edit(data, y))|
    requires ParseLines(Edit(data, x))[at] != ParseLines(Edit(data, y))[at]
    ensures !SameLines(data, x, y)
  {
    hide ParseLines, Edit;
    var n, a, b := |ParseLines(data)|, ParseLines(Edit(data, x)), ParseLines(Edit(data, y));
    if |a| >= n && |b| >= n {
      assert a[..n][at] != b[..n][at];
    }
  }

  /** A line of one pair that carries the key of another: some order of the map leaves
      other lines in some file. */
  lemma CrossingDiffers(ps: seq<Pair>, i: nat, j: nat) returns (data: string, qs: seq<Pair>)
    requires OneLine(ps) && MapEntries(ps) && i < |ps| && j < |ps| && i != j
    requires Matches(Line(ps[i]), ps[j].key)
    ensures Permuted(ps, qs) && !SameLines(data, ps, qs)
  {
    assert ps[i].key != ps[j].key by {
      assert i < j ==> ps[i].key != ps[j].key;
      assert j < i ==> ps[j].key != ps[i].key;
    }
    hide OneLine, MapEntries, Matches, Line, Addressable, SameLines, Permuted, EqualFold;
    MatchedIsAddressable(Line(ps[i]), ps[j].key);
    if Addressable(ps[i].key) {
      LineReadsBack(ps[i], ps[j].key);
      data, qs := FoldDiffers(ps, i, j);
    } else {
      data := "";
      qs := LeakDiffers(ps, i, j);
    }
  }

  /** Two pairs that can decide one class, and read differently: some order reads so. */
  lemma DecidersDiffer(ps: seq<Pair>, i: nat, j: nat) returns (qs: seq<Pair>, key: string)
    requires OneLine(ps) && i < |ps| && j < |ps| && SameClass(ps[i], ps[j])
    requires Decides(ps, ps[i]) && Decides(ps, ps[j]) && Reading(ps[i]) != Reading(ps[j])
    ensures Permuted(ps, qs) && !SameReading("", ps, qs, key)
  {
    var a, b := ps[i], ps[j];
    hide OneLine, ParseLines, Edit, SetKeys, Lookup, LookupIn, Reading, Line, KeyOf, EqualFold, Addressable, LastFor, Permuted, Matches;
    var rest := Rest(ps, i, j);
    Arranged(ps, a, b, rest);
    NothingParses();
    BothName(ps, i, j);
    var x, y;
    if Addressable(b.key) {
      key := b.key;
      x, y := rest + [a, b], rest + [b, a];
      NamingReads([""], a, b, rest);
      NamingReads([""], b, a, rest);
      LookupFolds(SetKeys([""], y), a.key, b.key);
    } else {
      key := KeyOf(Line(b));
      x, y := [a, b] + rest, [b, a] + rest;
      ClassIsAddressable(b);
      CarriesIts(a, key);
      CarriesIts(b, key);
      FoldsToItself(key);
      PermutedHas(ps, x, key);
      PermutedHas(ps, y, key);
      LeakingReads(a, b, rest, key);
      LeakingReads(b, a, rest, key);
    }
    PermutedOneLine(ps, x);
    PermutedOneLine(ps, y);
    LookupInEdited("", x, key);
    LookupInEdited("", y, key);
    qs := if SameReading("", ps, x, key) then y else x;
  }

  /** Of two pairs of one class that can decide it, both name it or neither does. */
  lemma BothName(ps: seq<Pair>, i: nat, j: nat)
    requires i < |ps| && j < |ps| && SameClass(ps[i], ps[j]) && Decides(ps, ps[i]) && Decides(ps, ps[j])
    ensures Addressable(ps[i].key) <==> Addressable(ps[j].key)
    ensures Addressable(ps[i].key) ==> EqualFold(ps[i].key, ps[j].key)
  {
    FoldSymmetric(KeyOf(Line(ps[i])), KeyOf(Line(ps[j])));
    hide Line, KeyOf, EqualFold, Addressable, LastFor;
    NamesClassOf(ps, i, j);
    NamesClassOf(ps, j, i);
  }

  lemma NamesClassOf(ps: seq<Pair>, i: nat, j: nat)
    requires i < |ps| && j < |ps| && EqualFold(KeyOf(Line(ps[i])), KeyOf(Line(ps[j]))) && Decides(ps, ps[j])
    ensures Addressable(ps[i].key) ==> Addressable(ps[j].key) && EqualFold(ps[i].key, ps[j].key)
  {
    hide Line, KeyOf, EqualFold, Addressable, LastFor;
    if Addressable(ps[i].key) {
      OwnClass(ps[i]);
      FoldTransitive(ps[i].key, KeyOf(Line(ps[i])), KeyOf(Line(ps[j])));
      LastForIfAny(ps, KeyOf(Line(ps[j])), i);
      OwnClass(ps[j]);
      FoldSymmetric(ps[j].key, KeyOf(Line(ps[j])));
      FoldTransitive(ps[i].key, KeyOf(Line(ps[j])), ps[j].key);
    }
  }

  lemma LookupFolds(lines: seq<string>, a: string, b: string)
    requires EqualFold(a, b)
    ensures LookupIn(lines, a) == LookupIn(lines, b)
  {
    FirstMatchFolds(lines, a, b);
    hide FirstMatch, Cut, Trim, TrimSpace;
  }

  lemma ClassIsAddressable(p: Pair)
    ensures Addressable(KeyOf(Line(p)))
  {
    hide Line, KeyOf, Matches, Addressable;
    CarriesIts(p, KeyOf(Line(p)));
    FoldsToItself(KeyOf(Line(p)));
    MatchedIsAddressable(Line(p), KeyOf(Line(p)));
  }

  // -------------------------------------------------------------- the two laws

  /** Every iteration order of a map leaves the same lines in every file, up to the order
      of the appended ones, if and only if no entry's line carries the key of another. */
  lemma LinesOrderIndependentIff(ps: seq<Pair>)
    requires OneLine(ps) && MapEntries(ps)
    ensures (forall data, qs :: Permuted(ps, qs) ==> SameLines(data, ps, qs)) <==> Apart(ps)
  {
    hide OneLine, MapEntries, Permuted, SameLines, Matches, Line;
    if Apart(ps) {
      forall data, qs | Permuted(ps, qs) ensures SameLines(data, ps, qs) {
        ApartSameLines(data, ps, qs);
      }
    } else {
      var i: nat, j: nat :| i < |ps| && j < |ps| && i != j && Matches(Line(ps[i]), ps[j].key);
      var data, qs := CrossingDiffers(ps, i, j);
    }
  }

  /** Every iteration order reads the same, for every file and key, if and only if entries
      that can decide one class read the same. */
  lemma ReadingOrderIndependentIff(ps: seq<Pair>)
    requires OneLine(ps)
    ensures (forall data, qs, key :: Permuted(ps, qs) ==> SameReading(data, ps, qs, key)) <==> ReadsAlike(ps)
  {
    hide OneLine, Permuted, SameReading, SameClass, Decides, Reading;
    if ReadsAlike(ps) {
      forall data, qs, key | Permuted(ps, qs) ensures SameReading(data, ps, qs, key) {
        AlikeSameReading(data, ps, qs, key);
      }
    } else {
      var i: nat, j: nat :| i < |ps| && j < |ps| && SameClass(ps[i], ps[j]) && Decides(ps, ps[i]) && Decides(ps, ps[j])
                            && Reading(ps[i]) != Reading(ps[j]);
      var qs, key := DecidersDiffer(ps, i, j);
    }
  }

  /** Being fold-distinct is not enough: what {"a=b": "1", "a": "2"} leaves depends on the
      order. Written second, "a" overwrites the line of "a=b"; written first, it does not. */
  lemma EqualsKeyDependsOnOrder()
    ensures var ps := [Pair("a=b", "1"), Pair("a", "2")];
            && OneLine(ps) && MapEntries(ps) && DistinctKeys(ps)
            && !forall data, qs :: Permuted(ps, qs) ==> SameLines(data, ps, qs)
  {
    var ps := [Pair("a=b", "1"), Pair("a", "2")];
    assert |"a=b"| == 3 && |"a"| == 1;
    assert OneLine(ps) && MapEntries(ps) && DistinctKeys(ps);
    assert "a" + "=" + "b" == "a=b";
    assert Settable("a");
    hide OneLine, MapEntries, DistinctKeys, Matches, Line, Settable, Cut, Trim, TrimSpace, SameLines;
    LeakyLine("a", "b", "1");
    assert Matches(Line(ps[0]), ps[1].key);
    LinesOrderIndependentIff(ps);
  }
}
