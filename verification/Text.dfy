// The part of Go's strings package the repository relies on, over ASCII text.
module Text {

  datatype Option<+T> = None | Some(value: T)

  // ------------------------------------------------------------ characters

  const SPACES: set<char> := {'\t', '\n', '\U{000B}', '\U{000C}', '\r', ' '}
  const QUOTES: set<char> := {'"'}
  const NEWLINES: set<char> := {'\n'}

  function LowerChar(c: char): char {
    if 'A' <= c <= 'Z' then c - 'A' + 'a' else c
  }

  /** strings.ToLower on ASCII text. */
  function ToLower(s: string): (r: string)
    ensures |r| == |s|
    ensures forall i :: 0 <= i < |s| ==> r[i] == LowerChar(s[i])
  {
    seq(|s|, i requires 0 <= i < |s| => LowerChar(s[i]))
  }

  /** strings.EqualFold on ASCII text. */
  predicate EqualFold(a: string, b: string) {
    ToLower(a) == ToLower(b)
  }

  // ------------------------------------------------- prefixes and occurrences

  predicate HasPrefix(s: string, p: string) {
    p <= s
  }

  predicate HasSuffix(s: string, p: string) {
    |p| <= |s| && s[|s| - |p|..] == p
  }

  function TrimPrefix(s: string, p: string): string {
    if HasPrefix(s, p) then s[|p|..] else s
  }

  function TrimSuffix(s: string, p: string): string {
    if HasSuffix(s, p) then s[..|s| - |p|] else s
  }

  predicate OccursAt(s: string, sub: string, i: int) {
    0 <= i && i + |sub| <= |s| && s[i..i + |sub|] == sub
  }

  /** strings.Contains. */
  predicate Contains(s: string, sub: string) {
    exists i | 0 <= i <= |s| :: OccursAt(s, sub, i)
  }

  /** strings.LastIndex: the largest position of sub in s, or -1. */
  function LastIndex(s: string, sub: string): (r: int)
    ensures -1 <= r <= |s|
    ensures r >= 0 ==> OccursAt(s, sub, r)
    ensures forall i :: r < i ==> !OccursAt(s, sub, i)
  {
    LastIndexFrom(s, sub, |s|)
  }

  function LastIndexFrom(s: string, sub: string, n: nat): (r: int)
    requires n <= |s|
    ensures -1 <= r <= n
    ensures r >= 0 ==> OccursAt(s, sub, r)
    ensures forall i :: r < i <= n ==> !OccursAt(s, sub, i)
  {
    if OccursAt(s, sub, n) then n
    else if n == 0 then -1
    else LastIndexFrom(s, sub, n - 1)
  }

  /** The position of the first c in s, or |s|. */
  function IndexByte(s: string, c: char): (i: nat)
    ensures i <= |s|
    ensures forall j :: 0 <= j < i ==> s[j] != c
    ensures i < |s| ==> s[i] == c
    ensures i == |s| <==> c !in s
  {
    if s == "" || s[0] == c then 0 else 1 + IndexByte(s[1..], c)
  }

  lemma IndexByteIs(s: string, c: char, i: nat)
    requires i <= |s| && (forall j :: 0 <= j < i ==> s[j] != c) && (i < |s| ==> s[i] == c)
    ensures IndexByte(s, c) == i
  {
  }

  // ---------------------------------------------------------- split and join

  /** strings.Join with a one-byte separator. */
  function Join(parts: seq<string>, c: char): string {
    if parts == [] then ""
    else if |parts| == 1 then parts[0]
    else parts[0] + [c] + Join(parts[1..], c)
  }

  /** No part holds the separator. */
  predicate Free(parts: seq<string>, c: char) {
    forall i :: 0 <= i < |parts| ==> c !in parts[i]
  }

  /** strings.Split with a one-byte separator. */
  function Split(s: string, c: char): (parts: seq<string>)
    ensures |parts| >= 1
    decreases |s|
  {
    var i := IndexByte(s, c);
    if i == |s| then [s] else [s[..i]] + Split(s[i + 1..], c)
  }

  /** The two ways a text starts: with its first separator, or without one. */
  lemma SplitFirst(head: string, rest: string, c: char)
    requires c !in head
    ensures Split(head, c) == [head]
    ensures Split(head + [c] + rest, c) == [head] + Split(rest, c)
  {
    var s := head + [c] + rest;
    IndexByteIs(s, c, |head|);
    assert s[..|head|] == head && s[|head| + 1..] == rest;
  }

  lemma AtFirstByte(s: string, c: char) returns (head: string, rest: string)
    requires c in s
    ensures c !in head && s == head + [c] + rest && |rest| < |s|
  {
    var i := IndexByte(s, c);
    head, rest := s[..i], s[i + 1..];
  }

  /** The parts hold no separator, and joining them restores the text. */
  lemma {:induction false} SplitParts(s: string, c: char)
    ensures Free(Split(s, c), c)
    ensures Join(Split(s, c), c) == s
    decreases |s|
  {
    hide Split;
    if c in s {
      var head, rest := AtFirstByte(s, c);
      SplitFirst(head, rest, c);
      SplitParts(rest, c);
      assert Split(s, c)[1..] == Split(rest, c);
    } else {
      SplitFirst(s, "", c);
    }
  }

  lemma {:induction false} SplitConcat(a: string, b: string, c: char)
    ensures Split(a + [c] + b, c) == Split(a, c) + Split(b, c)
    decreases |a|
  {
    hide Split;
    if c in a {
      var head, tail := AtFirstByte(a, c);
      SplitConcat(tail, b, c);
      SplitFirst(head, tail, c);
      SplitFirst(head, tail + [c] + b, c);
      assert a + [c] + b == head + [c] + (tail + [c] + b);
      assert [head] + (Split(tail, c) + Split(b, c)) == ([head] + Split(tail, c)) + Split(b, c);
    } else {
      SplitFirst(a, b, c);
    }
  }

  lemma {:induction false} JoinConcat(xs: seq<string>, ys: seq<string>, c: char)
    requires xs != [] && ys != []
    ensures Join(xs + ys, c) == Join(xs, c) + [c] + Join(ys, c)
  {
    if |xs| == 1 {
      assert (xs + ys)[1..] == ys;
    } else {
      assert (xs + ys)[1..] == xs[1..] + ys;
      JoinConcat(xs[1..], ys, c);
    }
  }

  /** Splitting undoes joining when no part holds the separator. */
  lemma {:induction false} SplitJoin(parts: seq<string>, c: char)
    requires parts != [] && Free(parts, c)
    ensures Split(Join(parts, c), c) == parts
  {
    hide Split;
    if |parts| == 1 {
      SplitFirst(parts[0], "", c);
    } else {
      var tail := Join(parts[1..], c);
      SplitJoin(parts[1..], c);
      SplitFirst(parts[0], tail, c);
      assert [parts[0]] + parts[1..] == parts;
    }
  }

  datatype CutResult = CutResult(before: string, after: string, found: bool)

  /** strings.Cut with a one-byte separator. */
  function Cut(s: string, c: char): CutResult {
    var i := IndexByte(s, c);
    if i == |s| then CutResult(s, "", false) else CutResult(s[..i], s[i + 1..], true)
  }

  lemma CutConcat(a: string, b: string, c: char)
    requires c !in a
    ensures Cut(a + [c] + b, c) == CutResult(a, b, true)
  {
    IndexByteIs(a + [c] + b, c, |a|);
    assert (a + [c] + b)[..|a|] == a && (a + [c] + b)[|a| + 1..] == b;
  }

  // ---------------------------------------------------------------- trimming

  function TrimLeft(s: string, cut: set<char>): string {
    if s != "" && s[0] in cut then TrimLeft(s[1..], cut) else s
  }

  function TrimRight(s: string, cut: set<char>): string {
    if s != "" && s[|s| - 1] in cut then TrimRight(s[..|s| - 1], cut) else s
  }

  lemma {:induction false} TrimLeftSuffix(s: string, cut: set<char>)
    ensures |TrimLeft(s, cut)| <= |s| && TrimLeft(s, cut) == s[|s| - |TrimLeft(s, cut)|..]
    ensures TrimLeft(s, cut) == "" || TrimLeft(s, cut)[0] !in cut
    ensures forall i :: 0 <= i < |s| - |TrimLeft(s, cut)| ==> s[i] in cut
  {
    if s != "" && s[0] in cut {
      var t := s[1..];
      TrimLeftSuffix(t, cut);
      var n := |t| - |TrimLeft(t, cut)|;
      assert TrimLeft(s, cut) == TrimLeft(t, cut) == t[n..];
      assert t[n..] == s[n + 1..];
      assert forall i :: 0 <= i < n ==> t[i] == s[i + 1];
      forall i | 0 <= i < n + 1 ensures s[i] in cut {
        assert i > 0 ==> s[i] == t[i - 1];
      }
    }
  }

  lemma {:induction false} TrimRightPrefix(s: string, cut: set<char>)
    ensures |TrimRight(s, cut)| <= |s| && TrimRight(s, cut) == s[..|TrimRight(s, cut)|]
    ensures TrimRight(s, cut) == "" || TrimRight(s, cut)[|TrimRight(s, cut)| - 1] !in cut
    ensures forall i :: |TrimRight(s, cut)| <= i < |s| ==> s[i] in cut
  {
    if s != "" && s[|s| - 1] in cut {
      TrimRightPrefix(s[..|s| - 1], cut);
    }
  }

  /** strings.Trim: drop the characters of cut from both ends. */
  function Trim(s: string, cut: set<char>): string {
    TrimRight(TrimLeft(s, cut), cut)
  }

  function TrimSpace(s: string): string {
    Trim(s, SPACES)
  }

  predicate Trimmed(s: string, cut: set<char>) {
    s == "" || (s[0] !in cut && s[|s| - 1] !in cut)
  }

  predicate AllIn(s: string, cut: set<char>) {
    forall i :: 0 <= i < |s| ==> s[i] in cut
  }

  lemma {:induction false} TrimLeftPad(l: string, m: string, cut: set<char>)
    requires AllIn(l, cut)
    ensures TrimLeft(l + m, cut) == TrimLeft(m, cut)
  {
    if l == "" {
      assert l + m == m;
    } else {
      assert (l + m)[1..] == l[1..] + m;
      TrimLeftPad(l[1..], m, cut);
    }
  }

  lemma {:induction false} TrimRightPad(m: string, r: string, cut: set<char>)
    requires AllIn(r, cut)
    ensures TrimRight(m + r, cut) == TrimRight(m, cut)
  {
    if r == "" {
      assert m + r == m;
    } else {
      assert (m + r)[..|m + r| - 1] == m + r[..|r| - 1];
      TrimRightPad(m, r[..|r| - 1], cut);
    }
  }

  lemma {:induction false} TrimLeftAppend(m: string, r: string, cut: set<char>)
    ensures TrimLeft(m + r, cut) == if AllIn(m, cut) then TrimLeft(r, cut) else TrimLeft(m, cut) + r
    ensures AllIn(m, cut) <==> TrimLeft(m, cut) == ""
  {
    if m == "" {
      assert m + r == r;
    } else if m[0] in cut {
      assert (m + r)[1..] == m[1..] + r;
      TrimLeftAppend(m[1..], r, cut);
      assert AllIn(m[1..], cut) ==> AllIn(m, cut) by {
        assert forall i :: 1 <= i < |m| ==> m[i] == m[1..][i - 1];
      }
    }
  }

  /** Padding drawn from the cut set disappears. */
  lemma TrimPad(l: string, m: string, r: string, cut: set<char>)
    requires AllIn(l, cut) && AllIn(r, cut)
    ensures Trim(l + m + r, cut) == Trim(m, cut)
  {
    assert l + m + r == l + (m + r);
    TrimLeftPad(l, m + r, cut);
    TrimLeftAppend(m, r, cut);
    if AllIn(m, cut) {
      TrimLeftAppend(r, "", cut);
    } else {
      TrimRightPad(TrimLeft(m, cut), r, cut);
    }
  }

  lemma TrimIsTrimmed(s: string, cut: set<char>)
    ensures Trimmed(Trim(s, cut), cut)
    ensures forall c | c in Trim(s, cut) :: c in s
    ensures Trimmed(s, cut) <==> Trim(s, cut) == s
  {
    TrimLeftSuffix(s, cut);
    TrimRightPrefix(TrimLeft(s, cut), cut);
  }

  /** Trimming keeps every character outside the cut set. */
  lemma TrimKeeps(s: string, cut: set<char>, c: char)
    requires c in s && c !in cut
    ensures c in Trim(s, cut)
  {
    var l := TrimLeft(s, cut);
    var t := TrimRight(l, cut);
    TrimLeftSuffix(s, cut);
    TrimRightPrefix(l, cut);
    hide TrimLeft, TrimRight;
    var i :| 0 <= i < |s| && s[i] == c;
    var k := |s| - |l|;
    assert l[i - k] == c && t[i - k] == c;
  }

  /** Trimming keeps a contiguous piece of the text. */
  lemma TrimOccurs(s: string, cut: set<char>)
    ensures Contains(s, Trim(s, cut))
  {
    var l := TrimLeft(s, cut);
    var t := TrimRight(l, cut);
    TrimLeftSuffix(s, cut);
    TrimRightPrefix(l, cut);
    var k := |s| - |l|;
    hide TrimLeft, TrimRight;
    assert t == s[k..][..|t|] == s[k..k + |t|];
    assert OccursAt(s, t, k);
  }

  lemma ToLowerTrimmed(s: string)
    ensures Trimmed(ToLower(s), SPACES) <==> Trimmed(s, SPACES)
    ensures forall c | !('a' <= c <= 'z') && !('A' <= c <= 'Z') :: c in ToLower(s) <==> c in s
  {
    forall c | !('a' <= c <= 'z') && !('A' <= c <= 'Z')
      ensures c in ToLower(s) <==> c in s
    {
      if c in s {
        var i :| 0 <= i < |s| && s[i] == c;
        assert ToLower(s)[i] == c;
      }
      if c in ToLower(s) {
        var i :| 0 <= i < |s| && ToLower(s)[i] == c;
        assert s[i] == c;
      }
    }
  }

  // ------------------------------------------------------------------ fields

  /** The length of the leading run of s without white space. */
  function WordLength(s: string): (n: nat)
    ensures n <= |s|
    ensures forall i :: 0 <= i < n ==> s[i] !in SPACES
    ensures n < |s| ==> s[n] in SPACES
  {
    if s == "" || s[0] in SPACES then 0 else 1 + WordLength(s[1..])
  }

  predicate IsWord(s: string) {
    s != "" && forall i :: 0 <= i < |s| ==> s[i] !in SPACES
  }

  /** strings.Fields: the maximal runs of non-white-space characters. */
  function Fields(s: string): (fs: seq<string>)
    ensures forall f | f in fs :: IsWord(f)
    decreases |s|
  {
    if s == "" then []
    else if s[0] in SPACES then Fields(s[1..])
    else
      var n := WordLength(s);
      [s[..n]] + Fields(s[n..])
  }

  lemma WordLengthIs(s: string, n: nat)
    requires n <= |s| && (forall i :: 0 <= i < n ==> s[i] !in SPACES) && (n < |s| ==> s[n] in SPACES)
    ensures WordLength(s) == n
  {
  }

  lemma {:induction false} FieldsPad(l: string, s: string)
    requires AllIn(l, SPACES)
    ensures Fields(l + s) == Fields(s)
  {
    if l == "" {
      assert l + s == s;
    } else {
      assert (l + s)[1..] == l[1..] + s;
      FieldsPad(l[1..], s);
    }
  }

  /** A word followed by a blank (or by nothing) is the first field. */
  lemma FieldsWord(w: string, rest: string)
    requires IsWord(w)
    requires rest == "" || rest[0] in SPACES
    ensures Fields(w + rest) == [w] + Fields(rest)
  {
    WordLengthIs(w + rest, |w|);
    assert (w + rest)[..|w|] == w && (w + rest)[|w|..] == rest;
  }

  // --------------------------------------------------------------- replacing

  /** strings.ReplaceAll for a non-empty old. */
  function ReplaceAll(s: string, old_: string, new_: string): string
    requires old_ != ""
    decreases |s|
  {
    if s == "" then ""
    else if OccursAt(s, old_, 0) then new_ + ReplaceAll(s[|old_|..], old_, new_)
    else [s[0]] + ReplaceAll(s[1..], old_, new_)
  }

  lemma ReplaceStep(s: string, old_: string, new_: string)
    requires old_ != "" && s != ""
    ensures ReplaceAll(s, old_, new_) ==
              if OccursAt(s, old_, 0) then new_ + ReplaceAll(s[|old_|..], old_, new_)
              else [s[0]] + ReplaceAll(s[1..], old_, new_)
  {
  }

  lemma NotAtFront(s: string, mid: string)
    requires mid != "" && s != "" && s[0] != mid[0]
    ensures !OccursAt(s, mid, 0)
  {
    if |mid| <= |s| {
      assert s[0..|mid|][0] == s[0];
    }
  }

  /** Replacing a placeholder that stands once in a text. */
  lemma {:induction false} ReplaceOne(a: string, mid: string, b: string, to: string)
    requires mid != "" && mid[0] !in a && mid[0] !in b
    ensures ReplaceAll(a + mid + b, mid, to) == a + to + b
    decreases |a|
  {
    hide ReplaceAll, OccursAt;
    var s := a + mid + b;
    ReplaceStep(s, mid, to);
    if a == "" {
      FrontIs(mid, b);
      assert s == mid + b;
      ReplaceNone(b, mid, to);
      assert a + to + b == to + b;
    } else {
      assert s[0] == a[0] && s[1..] == a[1..] + mid + b;
      NotAtFront(s, mid);
      ReplaceOne(a[1..], mid, b, to);
      assert [a[0]] + (a[1..] + to + b) == a + to + b;
    }
  }

  lemma FrontIs(mid: string, b: string)
    ensures OccursAt(mid + b, mid, 0) && (mid + b)[|mid|..] == b
  {
    assert (mid + b)[0..|mid|] == mid;
  }

  lemma {:induction false} ReplaceNone(b: string, mid: string, to: string)
    requires mid != "" && mid[0] !in b
    ensures ReplaceAll(b, mid, to) == b
  {
    hide OccursAt;
    if b != "" {
      NotAtFront(b, mid);
      ReplaceNone(b[1..], mid, to);
    }
  }

  // ------------------------------------------------- the same, character by character

  /** The ASCII characters unicode.IsSpace accepts. */
  predicate White(c: char) {
    c == ' ' || c == '\t' || c == '\n' || c == '\r' || c == 11 as char || c == 12 as char
  }

  predicate AllWhite(s: string) {
    forall i :: 0 <= i < |s| ==> White(s[i])
  }

  predicate NoWhite(s: string) {
    forall i :: 0 <= i < |s| ==> !White(s[i])
  }

  /** The same character, or the two cases of one of the 26 letters. */
  predicate TwoCases(x: char, y: char) {
    || x == y
    || ('A' <= x <= 'Z' && y as int == x as int + 32)
    || ('A' <= y <= 'Z' && x as int == y as int + 32)
  }

  /** One text is the other with some letters in the other case. */
  predicate Recased(a: string, b: string) {
    |a| == |b| && forall i :: 0 <= i < |a| ==> TwoCases(a[i], b[i])
  }

  lemma WhiteIff(c: char)
    ensures c in SPACES <==> White(c)
  {
    assert '\U{000B}' == 11 as char && '\U{000C}' == 12 as char;
  }

  lemma LowerCharIff(x: char, y: char)
    ensures LowerChar(x) == LowerChar(y) <==> TwoCases(x, y)
  {
    LowerCharIs(x);
    LowerCharIs(y);
  }

  lemma LowerCharIs(x: char)
    ensures 'A' <= x <= 'Z' ==> LowerChar(x) as int == x as int + 32
    ensures !('A' <= x <= 'Z') ==> LowerChar(x) == x
  {
  }

  /** Two texts fold to each other exactly when they have the same length and, at every
      place, the same character or the two cases of one letter. */
  lemma FoldIffRecased(a: string, b: string)
    ensures EqualFold(a, b) <==> Recased(a, b)
  {
    hide LowerChar, TwoCases;
    forall i | 0 <= i < |a| && i < |b| ensures LowerChar(a[i]) == LowerChar(b[i]) <==> TwoCases(a[i], b[i]) {
      LowerCharIff(a[i], b[i]);
    }
    if EqualFold(a, b) {
      assert |ToLower(a)| == |ToLower(b)|;
      forall i | 0 <= i < |a| ensures LowerChar(a[i]) == LowerChar(b[i]) {
        assert ToLower(a)[i] == ToLower(b)[i];
      }
    }
  }

  lemma AllWhiteIff(s: string)
    ensures AllIn(s, SPACES) <==> AllWhite(s)
  {
    hide White, SPACES;
    forall i | 0 <= i < |s| ensures s[i] in SPACES <==> White(s[i]) {
      WhiteIff(s[i]);
    }
  }

  /** Trimming takes off the white space at both ends, and no more. */
  lemma TrimSpaceIs(l: string, m: string, r: string)
    requires AllWhite(l) && AllWhite(r)
    requires m == "" || (!White(m[0]) && !White(m[|m| - 1]))
    ensures TrimSpace(l + m + r) == m
  {
    AllWhiteIff(l);
    AllWhiteIff(r);
    if m != "" {
      WhiteIff(m[0]);
      WhiteIff(m[|m| - 1]);
    }
    hide Trim, SPACES, White;
    TrimPad(l, m, r, SPACES);
    TrimIsTrimmed(m, SPACES);
  }

  lemma TrimParts(s: string, cut: set<char>) returns (l: string, r: string)
    ensures s == l + Trim(s, cut) + r && AllIn(l, cut) && AllIn(r, cut)
  {
    var t := TrimLeft(s, cut);
    TrimLeftSuffix(s, cut);
    TrimRightPrefix(t, cut);
    hide TrimLeft, TrimRight;
    l, r := s[..|s| - |t|], t[|Trim(s, cut)|..];
    Pieces(s, |s| - |t|, |s|);
    Pieces(t, |Trim(s, cut)|, |t|);
    assert s == l + (Trim(s, cut) + r);
  }

  /** Every text is such a middle with white space around it. */
  lemma TrimSpaceParts(s: string) returns (l: string, r: string)
    ensures s == l + TrimSpace(s) + r && AllWhite(l) && AllWhite(r)
    ensures TrimSpace(s) == "" || (!White(TrimSpace(s)[0]) && !White(TrimSpace(s)[|TrimSpace(s)| - 1]))
  {
    hide White, SPACES, Trim, AllIn, AllWhite;
    l, r := TrimParts(s, SPACES);
    AllWhiteIff(l);
    AllWhiteIff(r);
    TrimIsTrimmed(s, SPACES);
    if TrimSpace(s) != "" {
      WhiteIff(TrimSpace(s)[0]);
      WhiteIff(TrimSpace(s)[|TrimSpace(s)| - 1]);
    }
  }

  lemma WordIff(w: string)
    ensures IsWord(w) <==> w != "" && NoWhite(w)
  {
    hide White, SPACES;
    forall i | 0 <= i < |w| ensures w[i] in SPACES <==> White(w[i]) {
      WhiteIff(w[i]);
    }
  }

  /** The fields of a text: skip white space, take the word that follows, go on behind it. */
  lemma FieldsIs(pad: string, word: string, rest: string)
    requires AllWhite(pad) && word != "" && NoWhite(word)
    requires rest == "" || White(rest[0])
    ensures Fields(pad + word + rest) == [word] + Fields(rest)
    ensures Fields(pad) == []
  {
    AllWhiteIff(pad);
    WordIff(word);
    if rest != "" {
      WhiteIff(rest[0]);
    }
    NoFieldsIn("");
    hide Fields, SPACES, White, IsWord;
    FieldsPad(pad, word + rest);
    FieldsWord(word, rest);
    FieldsPad(pad, "");
    assert pad + word + rest == pad + (word + rest) && pad + "" == pad;
  }

  lemma NoFieldsIn(s: string)
    requires s == ""
    ensures Fields(s) == []
  {
  }

  /** Prefixes, suffixes and occurrences, by the texts around them. */
  lemma AffixesAre(a: string, sub: string, b: string)
    ensures HasPrefix(sub + b, sub) && TrimPrefix(sub + b, sub) == b
    ensures HasSuffix(a + sub, sub) && TrimSuffix(a + sub, sub) == a
    ensures OccursAt(a + sub + b, sub, |a|) && Contains(a + sub + b, sub)
  {
    assert (a + sub + b)[|a|..|a| + |sub|] == sub;
    assert OccursAt(a + sub + b, sub, |a|);
    assert (a + sub)[|a + sub| - |sub|..] == sub && (a + sub)[..|a|] == a;
    assert (sub + b)[|sub|..] == b;
  }

  lemma Pieces(s: string, i: nat, j: nat)
    requires i <= j <= |s|
    ensures s == s[..i] + s[i..j] + s[j..] && s == s[..i] + s[i..]
  {
  }

  lemma PrefixOnly(s: string, p: string)
    ensures if HasPrefix(s, p) then s == p + TrimPrefix(s, p) else TrimPrefix(s, p) == s
  {
    if HasPrefix(s, p) {
      Pieces(s, |p|, |p|);
    }
  }

  lemma SuffixOnly(s: string, p: string)
    ensures if HasSuffix(s, p) then s == TrimSuffix(s, p) + p else TrimSuffix(s, p) == s
  {
    if HasSuffix(s, p) {
      Pieces(s, |s| - |p|, |s|);
    }
  }

  lemma OccursOnly(s: string, sub: string, i: int)
    requires OccursAt(s, sub, i)
    ensures 0 <= i <= i + |sub| <= |s| && s == s[..i] + sub + s[i + |sub|..]
  {
    Pieces(s, i, i + |sub|);
  }

  lemma ContainsOnly(s: string, sub: string) returns (a: string, b: string)
    requires Contains(s, sub)
    ensures s == a + sub + b
  {
    var i :| 0 <= i <= |s| && OccursAt(s, sub, i);
    OccursOnly(s, sub, i);
    a, b := s[..i], s[i + |sub|..];
  }

  lemma ReplaceFirst(s: string, x: char, y: char)
    requires s != ""
    ensures ReplaceAll(s, [x], [y]) == [if s[0] == x then y else s[0]] + ReplaceAll(s[1..], [x], [y])
  {
    assert s[0..1] == [s[0]];
    ReplaceStep(s, [x], [y]);
    hide ReplaceAll;
  }

  lemma ReplaceNothing(x: char, y: char)
    ensures ReplaceAll("", [x], [y]) == ""
  {
  }

  /** Replacing one character by another everywhere. */
  lemma {:induction false} ReplaceIsSplitJoin(s: string, x: char, y: char)
    ensures ReplaceAll(s, [x], [y]) == Join(Split(s, x), y)
    decreases |s|
  {
    hide *;
    if s == "" {
      SplitFirst("", "", x);
      JoinOne("", y);
      ReplaceNothing(x, y);
    } else {
      var rest := s[1..];
      ReplaceIsSplitJoin(rest, x, y);
      ReplaceFirst(s, x, y);
      assert s == [s[0]] + rest;
      if s[0] == x {
        assert s == "" + [x] + rest;
        SplitFirst("", rest, x);
        JoinFront("", Split(rest, x), y);
        assert "" + [y] + Join(Split(rest, x), y) == [y] + Join(Split(rest, x), y);
      } else {
        SplitGrowsFront(s[0], rest, x);
        JoinGrowsFront(s[0], Split(rest, x), y);
      }
    }
  }

  lemma JoinOne(part: string, c: char)
    ensures Join([part], c) == part
  {
  }

  lemma JoinFront(part: string, parts: seq<string>, c: char)
    requires parts != []
    ensures Join([part] + parts, c) == part + [c] + Join(parts, c)
  {
    assert ([part] + parts)[1..] == parts;
  }

  lemma SplitGrowsFront(x: char, rest: string, c: char)
    requires x != c
    ensures Split([x] + rest, c) == [[x] + Split(rest, c)[0]] + Split(rest, c)[1..]
  {
    hide Split;
    if c in rest {
      var head, tail := AtFirstByte(rest, c);
      SplitFirst(head, tail, c);
      SplitFirst([x] + head, tail, c);
      assert [x] + rest == ([x] + head) + [c] + tail;
    } else {
      SplitFirst(rest, "", c);
      SplitFirst([x] + rest, "", c);
    }
  }

  lemma JoinGrowsFront(x: char, parts: seq<string>, c: char)
    requires parts != []
    ensures Join([[x] + parts[0]] + parts[1..], c) == [x] + Join(parts, c)
  {
    if |parts| > 1 {
      assert ([[x] + parts[0]] + parts[1..])[1..] == parts[1..];
      assert [x] + (parts[0] + [c] + Join(parts[1..], c)) == [x] + parts[0] + [c] + Join(parts[1..], c);
    }
  }

  lemma {:induction false} LowerIsRecased(s: string, t: string)
    requires forall i :: 0 <= i < |t| ==> !('A' <= t[i] <= 'Z')
    ensures ToLower(s) == t <==> Recased(s, t)
  {
    forall i | 0 <= i < |t| ensures LowerChar(t[i]) == t[i] {
      LowerCharIs(t[i]);
    }
    assert ToLower(t) == t;
    FoldIffRecased(s, t);
  }

  lemma LowerOfPiece(s: string, i: nat, j: nat)
    requires i <= j <= |s|
    ensures ToLower(s)[i..j] == ToLower(s[i..j])
  {
  }

  /** Searching a lowercased text for a lowercase one finds it in any case. */
  lemma ContainsInLower(s: string, t: string)
    requires forall i :: 0 <= i < |t| ==> !('A' <= t[i] <= 'Z')
    ensures Contains(ToLower(s), t) <==> exists a, m, b :: s == a + m + b && Recased(m, t)
  {
    hide ToLower, Recased;
    if Contains(ToLower(s), t) {
      var i: nat :| i <= |s| && OccursAt(ToLower(s), t, i);
      var m := s[i..i + |t|];
      LowerOfPiece(s, i, i + |t|);
      LowerIsRecased(m, t);
      Pieces(s, i, i + |t|);
      assert s == s[..i] + m + s[i + |t|..];
    }
    if a, m, b :| s == a + m + b && Recased(m, t) {
      LowerIsRecased(m, t);
      LowerOfPiece(s, |a|, |a| + |m|);
      assert s[|a|..|a| + |m|] == m;
      assert |m| == |t|;
      assert OccursAt(ToLower(s), t, |a|);
    }
  }
}
