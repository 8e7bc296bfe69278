// core/artifact/fetch.go, findSHA256Sum: looking a file up in a published checksum list.
module Checksums {
  import opened Text

  /** The line lists fname: two fields, the second with an optional "*" in front. */
  predicate Lists(line: string, fname: string) {
    var fields := Fields(line);
    |fields| == 2 && TrimPrefix(fields[1], "*") == fname
  }

  function FindIn(lines: seq<string>, fname: string): string {
    if lines == [] then ""
    else if Lists(lines[0], fname) then Fields(lines[0])[0]
    else FindIn(lines[1..], fname)
  }

  /** findSHA256Sum. */
  function FindSum(sums: string, fname: string): string {
    FindIn(Split(sums, '\n'), fname)
  }

  /** findSHA256Sum's loop. */
  method FindSha256Sum(sums: string, fname: string) returns (sum: string)
    ensures sum == FindSum(sums, fname)
  {
    hide Split, Fields;
    var lines := Split(sums, '\n');
    for i := 0 to |lines|
      invariant FindIn(lines, fname) == FindIn(lines[i..], fname)
    {
      var fields := Fields(lines[i]);
      assert lines[i..][1..] == lines[i + 1..];
      if |fields| == 2 && TrimPrefix(fields[1], "*") == fname {
        return fields[0];
      }
    }
    return "";
  }

  /** The first line that lists the file. */
  ghost predicate FirstListing(lines: seq<string>, fname: string, i: nat) {
    i < |lines| && Lists(lines[i], fname) && forall j :: 0 <= j < i ==> !Lists(lines[j], fname)
  }

  lemma {:induction false} FoundIsFirst(lines: seq<string>, fname: string) returns (i: nat)
    requires FindIn(lines, fname) != ""
    ensures FirstListing(lines, fname, i) && Fields(lines[i])[0] == FindIn(lines, fname)
  {
    hide Lists, Fields;
    if Lists(lines[0], fname) {
      i := 0;
    } else {
      var k := FoundIsFirst(lines[1..], fname);
      i := k + 1;
    }
  }

  /** A sum that is found is a word from a line that lists the file. */
  lemma {:induction false} FoundIsListed(lines: seq<string>, fname: string)
    ensures var sum := FindIn(lines, fname);
            sum != "" ==> IsWord(sum) && exists i :: 0 <= i < |lines| && Lists(lines[i], fname) && Fields(lines[i])[0] == sum
    ensures FindIn(lines, fname) == "" ==> forall i :: 0 <= i < |lines| ==> !Lists(lines[i], fname)
  {
    hide Fields;
    if lines != [] {
      if Lists(lines[0], fname) {
        assert Fields(lines[0])[0] in Fields(lines[0]);
      } else {
        FoundIsListed(lines[1..], fname);
      }
    }
  }

  // -------------------------------------------------------------- printed lists

  /** An entry of a coreutils-style list; `binary` adds the "*". */
  datatype Entry = Entry(hash: string, binary: bool, name: string)

  predicate GoodEntry(e: Entry) {
    IsWord(e.hash) && IsWord(e.name) && (e.binary || e.name[0] != '*')
  }

  predicate GoodEntries(es: seq<Entry>) {
    forall i :: 0 <= i < |es| ==> GoodEntry(es[i])
  }

  function PrintEntry(e: Entry): string {
    e.hash + (if e.binary then " *" else "  ") + e.name
  }

  function PrintEntries(es: seq<Entry>): (ls: seq<string>)
    ensures |ls| == |es|
    ensures forall i :: 0 <= i < |es| ==> ls[i] == PrintEntry(es[i])
  {
    seq(|es|, i requires 0 <= i < |es| => PrintEntry(es[i]))
  }

  /** The printed list, a newline after every entry. */
  function Print(es: seq<Entry>): string {
    Join(PrintEntries(es) + [""], '\n')
  }

  /** The hash of the first entry with the name. */
  function HashOf(es: seq<Entry>, fname: string): string {
    if es == [] then "" else if es[0].name == fname then es[0].hash else HashOf(es[1..], fname)
  }

  lemma PrintedFields(e: Entry)
    requires GoodEntry(e)
    ensures Fields(PrintEntry(e)) == [e.hash, if e.binary then "*" + e.name else e.name]
    ensures '\n' !in PrintEntry(e)
  {
    var word := if e.binary then "*" + e.name else e.name;
    var pad := if e.binary then " " else "  ";
    assert PrintEntry(e) == e.hash + (pad + word);
    assert IsWord(word);
    hide PrintEntry, Fields;
    TwoFields(e.hash, pad, word);
    WordHasNoNewline(e.hash);
    WordHasNoNewline(word);
  }

  lemma WordHasNoNewline(w: string)
    requires IsWord(w)
    ensures '\n' !in w
  {
  }

  lemma TwoFields(a: string, pad: string, b: string)
    requires IsWord(a) && IsWord(b) && pad != "" && AllIn(pad, SPACES)
    ensures Fields(a + (pad + b)) == [a, b]
  {
    assert (pad + b)[0] in SPACES;
    hide Fields, IsWord;
    FieldsWord(a, pad + b);
    FieldsPad(pad, b);
    assert b + "" == b;
    FieldsWord(b, "");
    NoFields();
  }

  lemma NoFields()
    ensures Fields("") == []
  {
  }

  lemma PrintedLists(e: Entry, fname: string)
    requires GoodEntry(e)
    ensures Lists(PrintEntry(e), fname) <==> e.name == fname
  {
    hide Fields, PrintEntry;
    PrintedFields(e);
    if e.binary {
      assert ("*" + e.name)[1..] == e.name;
    }
  }

  lemma {:induction false} FindInPrinted(es: seq<Entry>, fname: string)
    requires GoodEntries(es)
    ensures FindIn(PrintEntries(es) + [""], fname) == HashOf(es, fname)
  {
    hide Fields, PrintEntry, Lists;
    var lines := PrintEntries(es) + [""];
    if es == [] {
      EmptyListsNothing(fname);
      assert lines[1..] == [];
    } else {
      assert GoodEntry(es[0]);
      PrintedLists(es[0], fname);
      PrintedFields(es[0]);
      FindInPrinted(es[1..], fname);
      assert lines[1..] == PrintEntries(es[1..]) + [""];
    }
  }

  lemma EmptyListsNothing(fname: string)
    ensures !Lists("", fname)
  {
    NoFields();
  }

  /** Looking a file up in a printed list gives the hash of the first entry with that name,
      and "" exactly when there is none. */
  lemma PrintedSumIsFound(es: seq<Entry>, fname: string)
    requires GoodEntries(es)
    ensures FindSum(Print(es), fname) == HashOf(es, fname)
    ensures FindSum(Print(es), fname) == "" <==> forall i :: 0 <= i < |es| ==> es[i].name != fname
  {
    var lines := PrintEntries(es) + [""];
    hide PrintEntry, Split, FindIn;
    forall i | 0 <= i < |lines| ensures '\n' !in lines[i] {
      if i < |es| {
        assert GoodEntry(es[i]);
        PrintedFields(es[i]);
      }
    }
    SplitJoin(lines, '\n');
    FindInPrinted(es, fname);
    HashOfIsFirst(es, fname);
  }

  lemma {:induction false} HashOfIsFirst(es: seq<Entry>, fname: string)
    requires GoodEntries(es)
    ensures HashOf(es, fname) == "" <==> forall i :: 0 <= i < |es| ==> es[i].name != fname
  {
    if es != [] {
      assert GoodEntry(es[0]);
      HashOfIsFirst(es[1..], fname);
      assert forall i :: 1 <= i < |es| ==> es[i] == es[1..][i - 1];
    }
  }

  /** A line of two words lists the second, with or without a "*" in front. */
  lemma SpelledSumIsFound(hash: string, gap: string, name: string)
    requires hash != "" && NoWhite(hash) && name != "" && NoWhite(name) && name[0] != '*'
    requires gap != "" && AllWhite(gap) && '\n' !in gap
    ensures FindSum(hash + (gap + name), name) == hash && FindSum(hash + (gap + ("*" + name)), name) == hash
  {
    WordIff(hash);
    WordIff(name);
    assert NoWhite("*" + name);
    WordIff("*" + name);
    AllWhiteIff(gap);
    assert HasPrefix("*" + name, "*") && ("*" + name)[1..] == name;
    hide Fields, IsWord, White, SPACES, NoWhite;
    TwoFields(hash, gap, name);
    TwoFields(hash, gap, "*" + name);
    WordHasNoNewline(hash);
    WordHasNoNewline(name);
    WordHasNoNewline("*" + name);
    SplitFirst(hash + (gap + name), "", '\n');
    SplitFirst(hash + (gap + ("*" + name)), "", '\n');
  }
}
