// The laws of the .vmx editor on the bytes of a file: what survives being printed,
// read back and split into lines again.
module VmxBytes {
  import opened Text
  import opened VmxEditor
  import opened VmxLaws

  // ---------------------------------------------------- printing and parsing

  /** The last line is neither empty nor ends in a newline, so TrimRight stops there. */
  predicate EndsWell(lines: seq<string>) {
    lines != [] && lines[|lines| - 1] != "" && lines[|lines| - 1][|lines[|lines| - 1]| - 1] != '\n'
  }

  /** Lines as they come from a file: newline-free, none of them empty at the end. */
  predicate FileLines(lines: seq<string>) {
    Free(lines, '\n') && (lines == [""] || EndsWell(lines))
  }

  lemma {:induction false} JoinEnds(lines: seq<string>)
    requires EndsWell(lines)
    ensures Join(lines, '\n') != "" && Join(lines, '\n')[|Join(lines, '\n')| - 1] == lines[|lines| - 1][|lines[|lines| - 1]| - 1]
  {
    if |lines| > 1 {
      JoinEnds(lines[1..]);
    }
  }

  lemma TrimOneNewline(s: string)
    requires s == "" || s[|s| - 1] != '\n'
    ensures TrimRight(s + "\n", NEWLINES) == s
  {
    TrimRightPad(s, "\n", NEWLINES);
  }

  /** TrimRight undoes exactly the newline PrintLines adds. */
  lemma ParsePrint(lines: seq<string>)
    requires lines == [""] || EndsWell(lines)
    ensures ParseLines(PrintLines(lines)) == Split(Join(lines, '\n'), '\n')
  {
    if EndsWell(lines) {
      JoinEnds(lines);
    }
    TrimOneNewline(Join(lines, '\n'));
  }

  /** Parsing is the inverse of printing on the lines of a file. */
  lemma PrintParses(lines: seq<string>)
    requires FileLines(lines)
    ensures ParseLines(PrintLines(lines)) == lines
  {
    ParsePrint(lines);
    hide *;
    SplitJoin(lines, '\n');
  }

  lemma {:induction false} JoinEndsEmpty(lines: seq<string>)
    requires lines != [] && lines[|lines| - 1] == ""
    ensures Join(lines, '\n') == "" || Join(lines, '\n')[|Join(lines, '\n')| - 1] == '\n'
  {
    if |lines| > 1 {
      JoinEndsEmpty(lines[1..]);
    }
  }

  lemma SplitEnds(s: string)
    requires s != "" && s[|s| - 1] != '\n'
    ensures EndsWell(Split(s, '\n'))
  {
    hide Split;
    SplitParts(s, '\n');
    if Split(s, '\n')[|Split(s, '\n')| - 1] == "" {
      JoinEndsEmpty(Split(s, '\n'));
    }
  }

  lemma ParsedLines(data: string)
    ensures FileLines(ParseLines(data))
  {
    var s := TrimRight(data, NEWLINES);
    TrimRightPrefix(data, NEWLINES);
    SplitParts(s, '\n');
    if s == "" {
      SplitFirst("", "", '\n');
    } else {
      hide Split, TrimRight;
      SplitEnds(s);
    }
  }

  /** vmxKey splits the whole file: past the parsed lines it sees only empty ones. */
  lemma {:induction false} LookupIgnoresTrailingNewlines(data: string, key: string)
    ensures Lookup(data, key) == LookupIn(ParseLines(data), key)
    decreases |data|
  {
    if data != "" && data[|data| - 1] == '\n' {
      var init := data[..|data| - 1];
      assert data == init + ['\n'] + "";
      LookupIgnoresTrailingNewlines(init, key);
      SplitConcat(init, "", '\n');
      SplitFirst("", "", '\n');
      hide Split;
      LookupIgnoresEmptyLine(Split(init, '\n'), key);
    }
  }

  lemma LookupIgnoresEmptyLine(lines: seq<string>, key: string)
    ensures LookupIn(lines + [""], key) == LookupIn(lines, key)
  {
    var at := FirstMatch(lines, key);
    assert !Matches("", key);
    hide Matches, Cut, Trim, TrimSpace, FirstMatch;
    FirstMatchIsFirst(lines, key);
    FirstMatchIs(lines + [""], key, if at < |lines| then at else |lines| + 1);
  }

  // ------------------------------------------------------------- when edits repeat

  /** A key the reader finds again in the file: trimmed, without '=' or a newline. */
  predicate Settable(key: string) {
    Addressable(key) && '\n' !in key
  }

  /** Every key is settable, and a value that spans lines is overwritten by a later pair. */
  predicate Repeatable(pairs: seq<Pair>) {
    forall i :: 0 <= i < |pairs| ==>
      && Settable(pairs[i].key)
      && ('\n' in pairs[i].value ==> LastFor(pairs, pairs[i].key) > i)
  }

  lemma RepeatableAddressable(pairs: seq<Pair>)
    requires Repeatable(pairs)
    ensures AllAddressable(pairs)
  {
    hide Addressable, LastFor;
  }

  lemma LineChars(kv: Pair)
    ensures '\n' in Line(kv) <==> '\n' in kv.key || '\n' in kv.value
    ensures Line(kv) != "" && Line(kv)[|Line(kv)| - 1] == '"'
  {
    var k, v, l := kv.key, kv.value, Line(kv);
    assert l == k + (" = \"" + (v + "\""));
    if '\n' in v {
      var i :| 0 <= i < |v| && v[i] == '\n';
      assert l[|k| + 4 + i] == '\n';
    }
    if '\n' in k {
      var i :| 0 <= i < |k| && k[i] == '\n';
      assert l[i] == '\n';
    }
  }

  lemma SetKeyEndsWell(lines: seq<string>, kv: Pair)
    requires FileLines(lines) || EndsWell(lines)
    requires lines != [""] || FirstMatch(lines, kv.key) == 1
    ensures EndsWell(SetKey(lines, kv))
  {
    LineChars(kv);
    hide Line, FirstMatch;
    SetKeyAt(lines, kv);
  }

  lemma EmptyLineHasNoKey(key: string)
    ensures FirstMatch([""], key) == 1
  {
    assert !Matches("", key);
    hide Matches;
    FirstMatchIs([""], key, 1);
  }

  lemma {:induction false} EditEndsWell(lines: seq<string>, pairs: seq<Pair>)
    requires FileLines(lines)
    ensures SetKeys(lines, pairs) == [""] || EndsWell(SetKeys(lines, pairs))
    ensures pairs != [] ==> EndsWell(SetKeys(lines, pairs))
  {
    hide SetKey, EndsWell, SetKeys, Free;
    SetKeysFirst(lines, pairs);
    if pairs != [] {
      var n := |pairs| - 1;
      EditEndsWell(lines, pairs[..n]);
      SetKeysStep(lines, pairs);
      EmptyLineHasNoKey(pairs[n].key);
      assert FileLines([""]) by { SplitParts("", '\n'); SplitFirst("", "", '\n'); }
      SetKeyEndsWell(SetKeys(lines, pairs[..n]), pairs[n]);
    }
  }

  /** A repeatable edit leaves lines that print and parse as themselves. */
  lemma RepeatableKeepsFileLines(lines: seq<string>, pairs: seq<Pair>)
    requires FileLines(lines) && Repeatable(pairs)
    ensures FileLines(SetKeys(lines, pairs))
  {
    var after := SetKeys(lines, pairs);
    RepeatableAddressable(pairs);
    EditEndsWell(lines, pairs);
    forall i | 0 <= i < |after| ensures '\n' !in after[i] {
      hide SetKeys, Line, FirstMatch, Addressable, LastFor;
      LineOrigin(lines, pairs, i);
      if !(i < |lines| && after[i] == lines[i]) {
        var q: nat :| q < |pairs| && WrittenBy(pairs, q, after, i);
        LineChars(pairs[q]);
      }
    }
  }

  /** Sufficient: a repeatable edit run twice gives the bytes of running it once. */
  lemma RepeatableIsIdempotent(data: string, pairs: seq<Pair>)
    requires Repeatable(pairs)
    ensures Edit(Edit(data, pairs), pairs) == Edit(data, pairs)
  {
    hide ParseLines, PrintLines, SetKeys, FileLines, Repeatable, AllAddressable;
    ParsedLines(data);
    RepeatableKeepsFileLines(ParseLines(data), pairs);
    PrintParses(SetKeys(ParseLines(data), pairs));
    RepeatableAddressable(pairs);
    SetKeysIdempotent(ParseLines(data), pairs);
  }

  /** The lines of a file these lines come to once printed and read back. */
  function SplitAll(lines: seq<string>): seq<string> {
    if lines == [] then [] else SplitAll(lines[..|lines| - 1]) + Split(lines[|lines| - 1], '\n')
  }

  lemma {:induction false} SplitOfJoin(lines: seq<string>)
    requires lines != []
    ensures Split(Join(lines, '\n'), '\n') == SplitAll(lines)
  {
    hide Split;
    var n := |lines| - 1;
    if n == 0 {
      assert lines[..0] == [];
    } else {
      SplitOfJoin(lines[..n]);
      assert lines == lines[..n] + [lines[n]];
      JoinConcat(lines[..n], [lines[n]], '\n');
      SplitConcat(Join(lines[..n], '\n'), lines[n], '\n');
    }
  }

  /** Every line prints as at least one line, and as two or more when it spans lines. */
  lemma {:induction false} SplitAllAtLeast(lines: seq<string>)
    ensures |SplitAll(lines)| >= |lines|
    ensures !Free(lines, '\n') ==> |SplitAll(lines)| > |lines|
  {
    hide Split;
    if lines != [] {
      var n := |lines| - 1;
      SplitAllAtLeast(lines[..n]);
      if '\n' in lines[n] {
        var head, rest := AtFirstByte(lines[n], '\n');
        SplitFirst(head, rest, '\n');
      }
    }
  }

  /** An edit with a key that is not settable adds a line every time it is run. */
  lemma {:induction false} UnsettableAppends(lines: seq<string>, pairs: seq<Pair>)
    requires Free(lines, '\n')
    ensures (exists i :: 0 <= i < |pairs| && !Settable(pairs[i].key)) ==> |SetKeys(lines, pairs)| > |lines|
    ensures (forall i :: 0 <= i < |pairs| ==> Settable(pairs[i].key)) ==>
              forall j :: 0 <= j < |SetKeys(lines, pairs)| ==> '\n' !in Cut(SetKeys(lines, pairs)[j], '=').before
  {
    hide SetKey, SetKeys, Settable, Cut;
    SetKeysFirst(lines, pairs);
    if pairs == [] {
      forall j | 0 <= j < |lines| ensures '\n' !in Cut(lines[j], '=').before {
        CutBefore(lines[j]);
      }
    } else {
      var n := |pairs| - 1;
      var qs, b := pairs[..n], pairs[n];
      var mid := SetKeys(lines, qs);
      UnsettableAppends(lines, qs);
      SetKeysStep(lines, pairs);
      SetKeyLonger(mid, b);
      SetKeysLonger(lines, qs);
      if forall i :: 0 <= i < n ==> Settable(qs[i].key) {
        if Settable(b.key) {
          SettableBefore(mid, b);
        } else {
          UnsettableIsAppended(mid, b);
        }
      } else {
        assert exists i :: 0 <= i < |qs| && !Settable(qs[i].key);
      }
    }
  }

  lemma CutBefore(line: string)
    requires '\n' !in line
    ensures '\n' !in Cut(line, '=').before
  {
  }

  lemma SettableBefore(lines: seq<string>, kv: Pair)
    requires Settable(kv.key)
    requires forall j :: 0 <= j < |lines| ==> '\n' !in Cut(lines[j], '=').before
    ensures forall j :: 0 <= j < |SetKey(lines, kv)| ==> '\n' !in Cut(SetKey(lines, kv)[j], '=').before
  {
    var v := " \"" + kv.value + "\"";
    assert Line(kv) == (kv.key + " ") + ['='] + v;
    CutConcat(kv.key + " ", v, '=');
    hide Cut, FirstMatch, Line;
    SetKeyAt(lines, kv);
  }

  lemma UnsettableIsAppended(lines: seq<string>, kv: Pair)
    requires !Settable(kv.key)
    requires forall j :: 0 <= j < |lines| ==> '\n' !in Cut(lines[j], '=').before
    ensures |SetKey(lines, kv)| == |lines| + 1
  {
    hide Cut, FirstMatch, Line, Matches, Addressable;
    forall j | 0 <= j < |lines| ensures !Matches(lines[j], kv.key) {
      NeverMatches(lines[j], kv.key);
    }
    FirstMatchIs(lines, kv.key, |lines|);
    SetKeyAt(lines, kv);
  }

  /** Necessary: any other edit makes the file grow when it is run again. */
  lemma UnrepeatableGrows(lines: seq<string>, pairs: seq<Pair>)
    requires FileLines(lines) && !Repeatable(pairs)
    ensures |SplitAll(SetKeys(lines, pairs))| > |lines|
  {
    var after := SetKeys(lines, pairs);
    hide SetKeys, SplitAll, LastFor, Line, FirstMatch, Addressable, EndsWell;
    SetKeysLonger(lines, pairs);
    SplitAllAtLeast(after);
    if exists i :: 0 <= i < |pairs| && !Settable(pairs[i].key) {
      UnsettableAppends(lines, pairs);
    } else {
      var i: nat :| i < |pairs| && '\n' in pairs[i].value && LastFor(pairs, pairs[i].key) <= i;
      LastForIsLast(pairs, pairs[i].key);
      FoldsToItself(pairs[i].key);
      FirstMatchAfterEdit(lines, pairs, pairs[i].key);
      LineChars(pairs[i]);
    }
  }

  lemma UnrepeatableIsNotIdempotent(data: string, pairs: seq<Pair>)
    requires !Repeatable(pairs)
    ensures Edit(Edit(data, pairs), pairs) != Edit(data, pairs)
  {
    hide Repeatable, SetKeys, SplitAll, Split, Join, TrimRight, Free;
    var once := SetKeys(ParseLines(data), pairs);
    var again := ParseLines(PrintLines(once));
    var twice := SetKeys(again, pairs);
    assert pairs != [] by { UnrepeatableIsNotEmpty(pairs); }
    ParsedLines(data);
    EditEndsWell(ParseLines(data), pairs);
    ParsedLines(PrintLines(once));
    EditEndsWell(again, pairs);
    ParsePrint(twice);
    SplitOfJoin(twice);
    UnrepeatableGrows(again, pairs);
  }

  lemma UnrepeatableIsNotEmpty(pairs: seq<Pair>)
    requires !Repeatable(pairs)
    ensures pairs != []
  {
  }

  /** Running setVMXKeys twice gives exactly the bytes of running it once if, and only
      if, the pairs are repeatable: for every file and every list of pairs. */
  lemma IdempotentIffRepeatable(data: string, pairs: seq<Pair>)
    ensures Edit(Edit(data, pairs), pairs) == Edit(data, pairs) <==> Repeatable(pairs)
  {
    hide *;
    if Repeatable(pairs) {
      RepeatableIsIdempotent(data, pairs);
    } else {
      UnrepeatableIsNotIdempotent(data, pairs);
    }
  }

  // ---------------------------------------------------------- reading the result

  /** The lines of the edited file are the edited lines. */
  lemma EditedLines(data: string, pairs: seq<Pair>)
    requires Repeatable(pairs)
    ensures ParseLines(Edit(data, pairs)) == SetKeys(ParseLines(data), pairs)
  {
    hide ParseLines, PrintLines, SetKeys, FileLines, Repeatable, AllAddressable;
    ParsedLines(data);
    RepeatableKeepsFileLines(ParseLines(data), pairs);
    PrintParses(SetKeys(ParseLines(data), pairs));
  }

  /** Pairs that hold no newline, in their keys or their values. */
  predicate OneLine(pairs: seq<Pair>) {
    forall i :: 0 <= i < |pairs| ==> '\n' !in pairs[i].key && '\n' !in pairs[i].value
  }

  lemma {:induction false} OneLineKeepsFree(lines: seq<string>, pairs: seq<Pair>)
    requires OneLine(pairs) && Free(lines, '\n')
    ensures Free(SetKeys(lines, pairs), '\n')
  {
    hide SetKey, Line, FirstMatch;
    if pairs != [] {
      var qs, b := pairs[..|pairs| - 1], pairs[|pairs| - 1];
      OneLineKeepsFree(lines, qs);
      LineChars(b);
      SetKeyAt(SetKeys(lines, qs), b);
    }
  }

  /** The lines of the edited file are the edited lines, whatever the keys. */
  lemma OneLineEdited(data: string, pairs: seq<Pair>)
    requires OneLine(pairs)
    ensures ParseLines(Edit(data, pairs)) == SetKeys(ParseLines(data), pairs)
  {
    ParsedLines(data);
    hide ParseLines, PrintLines, SetKeys, OneLine, EndsWell;
    OneLineKeepsFree(ParseLines(data), pairs);
    EditEndsWell(ParseLines(data), pairs);
    PrintParses(SetKeys(ParseLines(data), pairs));
  }

  /** Get after put, on files: a written key reads as its last value less any quotes at
      its ends, and a key that no pair names reads exactly as it did before. */
  lemma LookupAfterEdit(data: string, pairs: seq<Pair>, key: string)
    requires Repeatable(pairs)
    ensures var last := LastFor(pairs, key);
            && (last < 0 ==> Lookup(Edit(data, pairs), key) == Lookup(data, key))
            && (last >= 0 ==> Lookup(Edit(data, pairs), key) == Trim(pairs[last].value, QUOTES))
            && (last >= 0 ==> (Lookup(Edit(data, pairs), key) == pairs[last].value <==> Trimmed(pairs[last].value, QUOTES)))
  {
    var last := LastFor(pairs, key);
    RepeatableAddressable(pairs);
    hide *;
    LookupIgnoresTrailingNewlines(data, key);
    LookupIgnoresTrailingNewlines(Edit(data, pairs), key);
    EditedLines(data, pairs);
    GetAfterPut(ParseLines(data), pairs, key);
    if last >= 0 {
      TrimIsTrimmed(pairs[last].value, QUOTES);
    }
  }

  lemma LookupIsOneLine(data: string, key: string)
    ensures '\n' !in Lookup(data, key)
    ensures !Settable(key) ==> Lookup(data, key) == ""
  {
    var lines := Split(data, '\n');
    SplitParts(data, '\n');
    var i := FirstMatch(lines, key);
    FirstMatchIsFirst(lines, key);
    if i < |lines| {
      CutBefore(lines[i]);
      var v := Cut(lines[i], '=').after;
      assert '\n' !in v;
      hide Split, FirstMatch, Cut, Matches, Trim, Addressable;
      TrimIsTrimmed(v, SPACES);
      TrimIsTrimmed(TrimSpace(v), QUOTES);
      if !Settable(key) {
        NeverMatches(lines[i], key);
      }
    }
  }

  /** Exactly when one pair, written to any file, reads back as it was given. */
  lemma ReadsBackIff(data: string, kv: Pair)
    ensures Lookup(Edit(data, [kv]), kv.key) == kv.value
            <==> kv.value == "" || (Settable(kv.key) && '\n' !in kv.value && Trimmed(kv.value, QUOTES))
  {
    hide Edit, Lookup, Settable, Trimmed;
    LookupIsOneLine(Edit(data, [kv]), kv.key);
    OneIsLast(kv);
    if Settable(kv.key) && '\n' !in kv.value {
      LookupAfterEdit(data, [kv], kv.key);
      EmptyIsTrimmed();
    }
  }

  lemma EmptyIsTrimmed()
    ensures Trimmed("", QUOTES)
  {
  }

  lemma OneIsLast(kv: Pair)
    ensures LastFor([kv], kv.key) == 0
  {
    FoldsToItself(kv.key);
    LastForIs([kv], kv.key, 0);
  }

  lemma LeakyLine(a: string, rest: string, value: string)
    requires Settable(a)
    ensures var line := Line(Pair(a + "=" + rest, value));
            Matches(line, a) && '=' in Trim(TrimSpace(Cut(line, '=').after), QUOTES)
  {
    var tail := rest + " = \"" + value + "\"";
    LeakyParts(a, rest, value);
    TrimIsTrimmed(a, SPACES);
    hide Cut, Trim, TrimSpace, Line;
    CutConcat(a, tail, '=');
    TrimKeepsSpace(a);
    TrimKeeps(tail, SPACES, '=');
    TrimKeepsSpace(tail);
    TrimKeeps(TrimSpace(tail), QUOTES, '=');
  }

  lemma LeakyParts(a: string, rest: string, value: string)
    ensures var tail := rest + " = \"" + value + "\"";
            Line(Pair(a + "=" + rest, value)) == a + ['='] + tail && '=' in tail
  {
    var close := value + "\"";
    var tail := rest + (" = \"" + close);
    assert tail == rest + " = \"" + value + "\"";
    assert tail[|rest| + 1] == '=';
    assert a + "=" + rest + (" = \"" + close) == a + ['='] + tail;
    assert Line(Pair(a + "=" + rest, value)) == a + "=" + rest + (" = \"" + close);
  }

  lemma TrimKeepsSpace(s: string)
    ensures TrimSpace(s) == Trim(s, SPACES)
  {
  }

  /** On a file that lacks the key, an unsettable key is appended. */
  lemma UnsettableEdit(data: string, kv: Pair)
    requires !Settable(kv.key) && '\n' !in Line(kv)
    ensures Edit(data, [kv]) == PrintLines(ParseLines(data) + [Line(kv)])
    ensures ParseLines(Edit(data, [kv])) == ParseLines(data) + [Line(kv)]
  {
    var lines := ParseLines(data);
    hide Line, Matches, Cut, ParseLines, FirstMatch, Settable, SetKey, SetKeys, PrintLines;
    ParsedLines(data);
    forall j | 0 <= j < |lines| ensures '\n' !in Cut(lines[j], '=').before {
      CutBefore(lines[j]);
    }
    UnsettableIsAppended(lines, kv);
    SetKeyAt(lines, kv);
    SetKeysFirst(lines, [kv]);
    SetKeysFirst(SetKey(lines, kv), []);
    assert [kv][1..] == [];
    LineChars(kv);
    PrintParses(lines + [Line(kv)]);
  }

  /** Why keys must be settable: writing a key "a=rest" to a file without "a" leaves the
      key unreadable and makes "a", which no pair names, read as something else. */
  lemma UnsettableKeyLeaks(data: string, a: string, rest: string, value: string)
    requires Settable(a) && '\n' !in rest && '\n' !in value
    requires FirstMatch(ParseLines(data), a) == |ParseLines(data)|
    ensures var edited := Edit(data, [Pair(a + "=" + rest, value)]);
            Lookup(data, a) == "" && Lookup(edited, a + "=" + rest) == "" && '=' in Lookup(edited, a)
  {
    var kv, lines := Pair(a + "=" + rest, value), ParseLines(data);
    assert kv.key[|a|] == '=';
    LineChars(kv);
    hide Line, Matches, Cut, ParseLines, TrimSpace, Trim, FirstMatch, Lookup, Edit;
    LeakyLine(a, rest, value);
    UnsettableEdit(data, kv);
    FirstMatchIsFirst(lines, a);
    FirstMatchIs(lines + [Line(kv)], a, |lines|);
    LookupIgnoresTrailingNewlines(data, a);
    LookupIgnoresTrailingNewlines(Edit(data, [kv]), a);
    LookupIsOneLine(Edit(data, [kv]), kv.key);
  }
}
