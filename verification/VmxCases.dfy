// provider/vmware/ops.go, setVMXKeys: which lines a key finds, letter by letter. Keys are
// case-insensitive, and a duplicate in another case makes the product reject the file.
module VmxCases {
  import opened Text
  import opened VmxEditor
  import opened VmxLaws
  import opened VmxBytes

  /** A key as a caller should spell it: no white space at its ends, no '=', one line. */
  predicate ProperKey(key: string) {
    && (key == "" || (!White(key[0]) && !White(key[|key| - 1])))
    && '=' !in key && '\n' !in key
  }

  /** The line gives some spelling of the key a value: white space, the key with some of
      its letters in the other case, white space, '=', anything. */
  ghost predicate Spells(line: string, key: string) {
    exists l, k, r, rest :: SpelledAs(line, key, l, k, r, rest)
  }

  predicate SpelledAs(line: string, key: string, l: string, k: string, r: string, rest: string) {
    line == l + k + r + ['='] + rest && AllWhite(l) && AllWhite(r) && Recased(k, key)
  }

  lemma ProperIsSettable(key: string)
    ensures Settable(key) <==> ProperKey(key)
  {
    if key != "" {
      WhiteIff(key[0]);
      WhiteIff(key[|key| - 1]);
    }
    hide White, SPACES;
  }

  lemma CutParts(line: string)
    ensures '=' in line ==>
              var c := Cut(line, '='); c.found && line == c.before + ['='] + c.after && '=' !in c.before
    ensures '=' !in line ==> !Cut(line, '=').found
  {
  }

  lemma RecasedKeeps(k: string, key: string)
    requires Recased(k, key)
    ensures k == "" <==> key == ""
    ensures k != "" ==> (White(k[0]) <==> White(key[0])) && (White(k[|k| - 1]) <==> White(key[|key| - 1]))
    ensures '=' in k <==> '=' in key
  {
    assert forall i :: 0 <= i < |k| ==> TwoCases(k[i], key[i]);
    if '=' in k {
      var i :| 0 <= i < |k| && k[i] == '=';
      assert key[i] == '=';
    }
    if '=' in key {
      var i :| 0 <= i < |key| && key[i] == '=';
      assert k[i] == '=';
    }
  }

  lemma WhiteHasNoEquals(l: string)
    requires AllWhite(l)
    ensures '=' !in l
  {
  }

  lemma NotInMiddle(l: string, k: string, r: string)
    requires '=' !in l && '=' !in k && '=' !in r
    ensures '=' !in l + k + r
  {
  }

  /** The line a key finds is one that spells it. */
  lemma MatchesIffSpells(line: string, key: string)
    requires ProperKey(key)
    ensures Matches(line, key) <==> Spells(line, key)
  {
    CutParts(line);
    var c := Cut(line, '=');
    hide Cut, TrimSpace, EqualFold, Recased, AllWhite, White;
    if Matches(line, key) {
      var l, r := TrimSpaceParts(c.before);
      FoldIffRecased(TrimSpace(c.before), key);
      assert SpelledAs(line, key, l, TrimSpace(c.before), r, c.after);
    }
    if l, k, r, rest :| SpelledAs(line, key, l, k, r, rest) {
      RecasedKeeps(k, key);
      WhiteHasNoEquals(l);
      WhiteHasNoEquals(r);
      NotInMiddle(l, k, r);
      CutConcat(l + k + r, rest, '=');
      TrimSpaceIs(l, k, r);
      FoldIffRecased(k, key);
    }
  }

  /** For every file that has a line for some spelling of the key, the edit adds no line:
      it puts the new one in place of the first such line. Only if there is none is a
      line added, at the end. */
  lemma RecasedIsReplaced(data: string, kv: Pair, i: nat)
    requires ProperKey(kv.key) && '\n' !in kv.value
    requires i <= |ParseLines(data)| && (i < |ParseLines(data)| ==> Spells(ParseLines(data)[i], kv.key))
    requires forall j :: 0 <= j < i ==> !Spells(ParseLines(data)[j], kv.key)
    ensures var lines, line := ParseLines(data), kv.key + " = \"" + kv.value + "\"";
            ParseLines(Edit(data, [kv])) == if i < |lines| then lines[i := line] else lines + [line]
  {
    var lines := ParseLines(data);
    ProperIsSettable(kv.key);
    assert Line(kv) == kv.key + " = \"" + kv.value + "\"";
    hide ParseLines, Edit, Matches, Spells, Line, FirstMatch, SetKey, SetKeys, Settable, ProperKey, LastFor;
    forall j | 0 <= j < |lines| ensures Matches(lines[j], kv.key) <==> Spells(lines[j], kv.key) {
      ProperIsSettable(kv.key);
      MatchesIffSpells(lines[j], kv.key);
    }
    FirstMatchIs(lines, kv.key, i);
    assert Repeatable([kv]);
    EditedLines(data, [kv]);
    SetKeysFirst(lines, [kv]);
    SetKeysFirst(SetKey(lines, kv), []);
    assert [kv][1..] == [];
    SetKeyAt(lines, kv);
  }

  predicate AllQuotes(q: string) {
    forall i :: 0 <= i < |q| ==> q[i] == '"'
  }

  /** The reader finds the value on the first line that spells the key, less the quotes
      around it and the white space around those. */
  lemma FirstSpellingIsRead(data: string, key: string, i: nat, l: string, open: string, value: string, close: string, r: string)
    requires ProperKey(key) && i < |ParseLines(data)|
    requires forall j :: 0 <= j < i ==> !Spells(ParseLines(data)[j], key)
    requires Spells(ParseLines(data)[i], key)
    requires Cut(ParseLines(data)[i], '=').after == l + (open + value + close) + r
    requires AllWhite(l) && AllWhite(r) && AllQuotes(open) && AllQuotes(close)
    requires value == "" || (value[0] != '"' && value[|value| - 1] != '"')
    requires var text := open + value + close; text == "" || (!White(text[0]) && !White(text[|text| - 1]))
    ensures Lookup(data, key) == value
  {
    var lines := ParseLines(data);
    LookupIgnoresTrailingNewlines(data, key);
    TrimSpaceIs(l, open + value + close, r);
    QuotesAreTrimmed(open, value, close);
    hide ParseLines, Matches, Spells, FirstMatch, ProperKey, Cut, Trim, TrimSpace, White;
    forall j | 0 <= j < |lines| ensures Matches(lines[j], key) <==> Spells(lines[j], key) {
      MatchesIffSpells(lines[j], key);
    }
    FirstMatchIs(lines, key, i);
  }

  lemma QuotesAreTrimmed(open: string, value: string, close: string)
    requires AllQuotes(open) && AllQuotes(close) && (value == "" || (value[0] != '"' && value[|value| - 1] != '"'))
    ensures Trim(open + value + close, QUOTES) == value
  {
    TrimPad(open, value, close, QUOTES);
    TrimIsTrimmed(value, QUOTES);
  }
}
