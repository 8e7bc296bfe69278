// provider/vmware/ops.go, leaseBlockRe and the DHCP lease scan of IP.
module Leases {
  import opened Text

  const KEYWORD := "lease "
  const OPEN := " {"

  predicate IsIpChar(c: char) {
    '0' <= c <= '9' || c == '.'
  }

  predicate IsIp(ip: string) {
    ip != "" && forall i :: 0 <= i < |ip| ==> IsIpChar(ip[i])
  }

  // ------------------------------------------------ what the expression means

  /** A match of  (?s)lease ([0-9.]+) \{(.*?)\}  with its two groups. */
  datatype Block = Block(start: nat, ip: string, body: string)
  {
    function Text(): string {
      KEYWORD + ip + OPEN + body + "}"
    }

    function End(): nat {
      start + |Text()|
    }
  }

  ghost predicate IsMatch(s: string, m: Block) {
    IsIp(m.ip) && OccursAt(s, m.Text(), m.start)
  }

  /** The match a leftmost-first engine reports: the earliest start, there the longest
      address (greedy), and with it the shortest body (lazy). */
  ghost predicate IsLeftmostLazy(s: string, m: Block) {
    && IsMatch(s, m)
    && forall o: Block :: IsMatch(s, o) ==>
         && m.start <= o.start
         && (m.start == o.start ==> |m.ip| >= |o.ip| && (m.ip == o.ip ==> |m.body| <= |o.body|))
  }

  // ------------------------------------------------------- how it is computed

  /** The length of the run of address characters at the front. */
  function IpLength(s: string): (n: nat)
    ensures n <= |s|
    ensures forall i :: 0 <= i < n ==> IsIpChar(s[i])
    ensures n < |s| ==> !IsIpChar(s[n])
  {
    if s == "" || !IsIpChar(s[0]) then 0 else 1 + IpLength(s[1..])
  }

  /** The rest of a block after " {": the body up to the first '}'. */
  function BodyHere(b: string): Option<string> {
    var k := IndexByte(b, '}');
    if k == |b| then None else Some(b[..k])
  }

  /** The rest of a block after the keyword: the address and the body. */
  function AddressHere(a: string): Option<Block> {
    var n := IpLength(a);
    if n == 0 || !HasPrefix(a[n..], OPEN) then None
    else
      match BodyHere(a[n + |OPEN|..])
      case None => None
      case Some(body) => Some(Block(0, a[..n], body))
  }

  /** The match that starts at the front of s, with its groups. */
  function MatchHere(s: string): Option<Block> {
    if HasPrefix(s, KEYWORD) then AddressHere(s[|KEYWORD|..]) else None
  }

  /** The first match in s. */
  function Find(s: string): Option<Block> {
    var here := MatchHere(s);
    if here.Some? then here
    else if s == "" then None
    else
      match Find(s[1..])
      case None => None
      case Some(m) => Some(m.(start := m.start + 1))
  }

  /** The non-overlapping matches, left to right: each search starts where the last ended. */
  function FindAll(s: string): seq<Block>
    decreases |s|
  {
    FindIsLeftmostLazy(s);
    match Find(s)
    case None => []
    case Some(m) => [m] + FindAll(s[m.End()..])
  }

  // ---------------------------------------------------- the computation is right

  /** The text of a match, nested to the right. */
  lemma TextIs(m: Block, rest: string)
    ensures m.Text() + rest == KEYWORD + (m.ip + (OPEN + (m.body + ['}'] + rest)))
  {
    var t := m.body + ['}'] + rest;
    assert m.ip + (OPEN + t) == m.ip + OPEN + t;
    assert KEYWORD + (m.ip + OPEN + t) == KEYWORD + m.ip + OPEN + t;
    assert KEYWORD + m.ip + OPEN + t == m.Text() + rest;
  }

  /** Reading a block off the front: address and body are forced. */
  lemma MatchHereReads(s: string, ip: string, body: string, rest: string)
    requires IsIp(ip) && '}' !in body
    requires s == Block(0, ip, body).Text() + rest
    ensures MatchHere(s) == Some(Block(0, ip, body))
  {
    var a := ip + (OPEN + (body + ['}'] + rest));
    TextIs(Block(0, ip, body), rest);
    hide IsIp;
    AddressHereReads(a, ip, body, rest);
    hide AddressHere;
    assert s[|KEYWORD|..] == a;
  }

  lemma AddressHereReads(a: string, ip: string, body: string, rest: string)
    requires IsIp(ip) && '}' !in body
    requires a == ip + (OPEN + (body + ['}'] + rest))
    ensures AddressHere(a) == Some(Block(0, ip, body))
  {
    var b := body + ['}'] + rest;
    IpLengthIs(a, ip, OPEN + b);
    BodyHereReads(b, body, rest);
    hide BodyHere, IpLength, IsIpChar;
    assert a[|ip|..] == OPEN + b;
    assert a[|ip| + |OPEN|..] == b;
  }

  lemma BodyHereReads(b: string, body: string, rest: string)
    requires '}' !in body && b == body + ['}'] + rest
    ensures BodyHere(b) == Some(body)
  {
    IndexByteIs(b, '}', |body|);
    assert b[..|body|] == body;
  }

  lemma {:induction false} IpLengthIs(a: string, ip: string, rest: string)
    requires a == ip + rest && (forall i :: 0 <= i < |ip| ==> IsIpChar(ip[i]))
    requires rest == "" || !IsIpChar(rest[0])
    ensures IpLength(a) == |ip|
  {
    if ip != "" {
      assert a[1..] == ip[1..] + rest;
      IpLengthIs(a[1..], ip[1..], rest);
    } else {
      assert a == rest;
    }
  }

  /** MatchHere finds a block exactly when one starts at the front, and then the one with
      the shortest body. */
  lemma MatchHereIsMatch(s: string)
    ensures MatchHere(s).Some? ==>
              var m := MatchHere(s).value; m.start == 0 && IsIp(m.ip) && '}' !in m.body && OccursAt(s, m.Text(), 0)
  {
    if MatchHere(s).Some? {
      var m := MatchHere(s).value;
      var a := s[|KEYWORD|..];
      AddressHereIsMatch(a);
      hide AddressHere, IsIp;
      var head := m.ip + (OPEN + (m.body + ['}']));
      TextIs(m, "");
      assert m.Text() + "" == m.Text() && m.body + ['}'] + "" == m.body + ['}'];
      assert m.Text() == KEYWORD + head;
      assert s == KEYWORD + a;
      OccursAtFront(KEYWORD, head, a);
    }
  }

  lemma OccursAtFront(key: string, head: string, a: string)
    requires head <= a
    ensures OccursAt(key + a, key + head, 0)
  {
    assert (key + a)[0..|key + head|] == key + head;
  }

  lemma AddressHereIsMatch(a: string)
    ensures AddressHere(a).Some? ==>
              var m := AddressHere(a).value;
              m.start == 0 && IsIp(m.ip) && '}' !in m.body && m.ip + (OPEN + (m.body + ['}'])) <= a
  {
    if AddressHere(a).Some? {
      var n := IpLength(a);
      var b := a[n + |OPEN|..];
      BodyHereIsMatch(b);
      hide BodyHere, IpLength;
      assert a[n..] == OPEN + b;
      PrefixOfParts(a, n, OPEN, b, AddressHere(a).value.body + ['}']);
    }
  }

  lemma PrefixOfParts(a: string, n: nat, mid: string, b: string, close: string)
    requires n <= |a| && a[n..] == mid + b && close <= b
    ensures a[..n] + (mid + close) <= a
  {
    assert a == a[..n] + (mid + (close + b[|close|..]));
  }

  lemma BodyHereIsMatch(b: string)
    ensures BodyHere(b).Some? ==> '}' !in BodyHere(b).value && BodyHere(b).value + ['}'] <= b
  {
  }

  lemma MatchHereIsLeast(s: string, o: Block)
    requires IsMatch(s, o) && o.start == 0
    ensures MatchHere(s).Some? && MatchHere(s).value.ip == o.ip && |MatchHere(s).value.body| <= |o.body|
  {
    var whole := o.body + ['}'];
    var k := IndexByte(whole, '}');
    var body, tail := whole[..k], whole[k + 1..];
    var rest := s[|o.Text()|..];
    hide IsIp;
    assert s == o.Text() + rest;
    TextIs(o, rest);
    assert k <= |o.body|;
    assert whole + rest == body + ['}'] + (tail + rest);
    TextIs(Block(0, o.ip, body), tail + rest);
    MatchHereReads(s, o.ip, body, tail + rest);
  }

  lemma OccursInTail(s: string, sub: string, i: int)
    requires s != "" && i >= 1
    ensures OccursAt(s, sub, i) <==> OccursAt(s[1..], sub, i - 1)
  {
    if i + |sub| <= |s| {
      var t := s[1..];
      assert forall x :: 0 <= x < |t| ==> t[x] == s[x + 1];
      assert t[i - 1..i - 1 + |sub|] == s[i..i + |sub|];
    }
  }

  /** Find reports the leftmost lazy match, and None only when there is no match at all. */
  lemma {:induction false} FindIsLeftmostLazy(s: string)
    ensures Find(s).Some? ==> IsLeftmostLazy(s, Find(s).value) && '}' !in Find(s).value.body && Find(s).value.End() <= |s|
    ensures Find(s).None? ==> forall o: Block :: !IsMatch(s, o)
  {
    hide MatchHere, IsIp;
    MatchHereIsMatch(s);
    forall o: Block | IsMatch(s, o) && o.start == 0
      ensures MatchHere(s).Some? && MatchHere(s).value.ip == o.ip && |MatchHere(s).value.body| <= |o.body|
    {
      MatchHereIsLeast(s, o);
    }
    if MatchHere(s).None? && s != "" {
      FindIsLeftmostLazy(s[1..]);
      forall o: Block | o.start > 0 ensures IsMatch(s, o) <==> IsMatch(s[1..], Earlier(o)) {
        EarlierMatches(s, o);
      }
      hide IsMatch;
      if Find(s[1..]).Some? {
        var m := Find(s[1..]).value;
        assert Earlier(Find(s).value) == m;
      }
    }
  }

  function Earlier(o: Block): Block
    requires o.start > 0
  {
    o.(start := o.start - 1)
  }

  lemma EarlierMatches(s: string, o: Block)
    requires s != "" && o.start > 0
    ensures IsMatch(s, o) <==> IsMatch(s[1..], Earlier(o))
  {
    hide IsIp, OccursAt;
    OccursInTail(s, o.Text(), o.start);
  }

  // ------------------------------------------------------------- printed files

  /** A lease record, with the text before it: comments, blank lines. */
  datatype Lease = Lease(gap: string, ip: string, body: string)

  /** Text in which no match can start: "lease " is never followed by an address. */
  predicate Quiet(gap: string) {
    forall i :: 0 <= i < |gap| && OccursAt(gap, KEYWORD, i) && i + |KEYWORD| < |gap| ==> !IsIpChar(gap[i + |KEYWORD|])
  }

  predicate GoodLease(l: Lease) {
    Quiet(l.gap) && IsIp(l.ip) && '}' !in l.body
  }

  function Print(leases: seq<Lease>, tail: string): string {
    if leases == [] then tail
    else leases[0].gap + (Block(0, leases[0].ip, leases[0].body).Text() + Print(leases[1..], tail))
  }

  lemma QuietTail(gap: string)
    requires Quiet(gap) && gap != ""
    ensures Quiet(gap[1..])
  {
    forall i | 0 <= i < |gap[1..]| && OccursAt(gap[1..], KEYWORD, i) && i + |KEYWORD| < |gap[1..]|
      ensures !IsIpChar(gap[1..][i + |KEYWORD|])
    {
      OccursInTail(gap, KEYWORD, i + 1);
    }
  }

  /** No match starts inside quiet text, whatever follows, as long as that starts another
      record or is nothing. */
  lemma QuietHasNoMatch(gap: string, rest: string)
    requires Quiet(gap) && gap != "" && (rest == "" || KEYWORD <= rest)
    ensures MatchHere(gap + rest).None?
  {
    var s := gap + rest;
    if HasPrefix(s, KEYWORD) {
      var a := s[|KEYWORD|..];
      if |gap| < |KEYWORD| {
        assert s[|gap|] == 'l';
        assert KEYWORD[|gap|] == s[|gap|];
      } else {
        assert gap[0..|KEYWORD|] == KEYWORD by {
          assert s[..|KEYWORD|] == KEYWORD;
        }
        assert OccursAt(gap, KEYWORD, 0);
        assert a == "" || !IsIpChar(a[0]);
      }
    }
  }

  lemma {:induction false} FindSkipsGap(gap: string, rest: string, m: Option<Block>)
    requires Quiet(gap) && (rest == "" || KEYWORD <= rest)
    requires m == MatchHere(rest) && (rest == "" ==> m.None?) && (rest != "" ==> m.Some?)
    ensures Find(gap + rest) == match m { case None => None case Some(b) => Some(b.(start := b.start + |gap|)) }
  {
    hide MatchHere;
    if gap == "" {
      assert gap + rest == rest;
    } else {
      QuietHasNoMatch(gap, rest);
      assert (gap + rest)[1..] == gap[1..] + rest;
      QuietTail(gap);
      FindSkipsGap(gap[1..], rest, m);
    }
  }

  /** The matches as (address, body) pairs. */
  function Pairs(ms: seq<Block>): (r: seq<(string, string)>)
    ensures |r| == |ms|
    ensures forall i :: 0 <= i < |ms| ==> r[i] == (ms[i].ip, ms[i].body)
  {
    seq(|ms|, i requires 0 <= i < |ms| => (ms[i].ip, ms[i].body))
  }

  function Records(leases: seq<Lease>): (r: seq<(string, string)>)
    ensures |r| == |leases|
    ensures forall i :: 0 <= i < |leases| ==> r[i] == (leases[i].ip, leases[i].body)
  {
    seq(|leases|, i requires 0 <= i < |leases| => (leases[i].ip, leases[i].body))
  }

  predicate GoodLeases(leases: seq<Lease>) {
    forall i :: 0 <= i < |leases| ==> GoodLease(leases[i])
  }

  lemma EmptyHasNoMatch()
    ensures MatchHere("") == None
  {
  }

  lemma {:induction false} FindAllPrinted(leases: seq<Lease>, tail: string)
    requires GoodLeases(leases) && Quiet(tail)
    ensures Pairs(FindAll(Print(leases, tail))) == Records(leases)
  {
    hide MatchHere, Quiet, IsIp, Find;
    if leases == [] {
      EmptyHasNoMatch();
      FindSkipsGap(tail, "", None);
      assert tail + "" == tail;
    } else {
      var l := leases[0];
      assert GoodLease(l);
      var b := Block(0, l.ip, l.body);
      var rest := Print(leases[1..], tail);
      var here := b.Text() + rest;
      TextIs(b, rest);
      MatchHereReads(here, l.ip, l.body, rest);
      FindSkipsGap(l.gap, here, Some(b));
      var s := l.gap + here;
      assert s == Print(leases, tail);
      var m := b.(start := |l.gap|);
      assert Find(s) == Some(m);
      RestAfter(s, l.gap, b, rest);
      FindAllPrinted(leases[1..], tail);
      hide Print;
      assert Pairs(FindAll(s)) == [(l.ip, l.body)] + Pairs(FindAll(rest));
      assert Records(leases) == [(l.ip, l.body)] + Records(leases[1..]);
    }
  }

  lemma RestAfter(s: string, gap: string, b: Block, rest: string)
    requires b.start == 0 && s == gap + (b.Text() + rest)
    ensures var m := b.(start := |gap|); m.End() <= |s| && s[m.End()..] == rest
  {
    var m := b.(start := |gap|);
    assert m.Text() == b.Text();
    assert s == gap + b.Text() + rest;
  }

  // ------------------------------------------------------------------ the scan

  predicate Mentions(body: string, mac: string) {
    Contains(ToLower(body), "hardware ethernet " + mac)
  }

  /** The last record that mentions the address, or -1. */
  function LastMention(records: seq<(string, string)>, mac: string): (i: int)
    ensures -1 <= i < |records|
  {
    if records == [] then -1
    else if Mentions(records[|records| - 1].1, mac) then |records| - 1
    else LastMention(records[..|records| - 1], mac)
  }

  lemma {:induction false} LastMentionIsLast(records: seq<(string, string)>, mac: string)
    ensures var i := LastMention(records, mac);
            && (i >= 0 ==> Mentions(records[i].1, mac))
            && (forall j :: i < j < |records| ==> !Mentions(records[j].1, mac))
  {
    hide Mentions;
    if records != [] {
      LastMentionIsLast(records[..|records| - 1], mac);
    }
  }

  /** The address the scan of one file ends with; "" when no block mentions the MAC. */
  function LeaseIn(data: string, mac: string): string {
    var records := Pairs(FindAll(data));
    var i := LastMention(records, mac);
    if i >= 0 then records[i].0 else ""
  }

  /** The loop over the matches of one file: later matches overwrite earlier ones. */
  method ScanFile(data: string, mac: string) returns (ip: string)
    ensures ip == LeaseIn(data, mac)
  {
    hide Mentions, FindAll;
    ip := "";
    var ms := FindAll(data);
    ghost var records := Pairs(ms);
    for n := 0 to |ms|
      invariant var i := LastMention(records[..n], mac); ip == if i >= 0 then records[i].0 else ""
    {
      assert records[..n + 1][..n] == records[..n];
      MentionsIs(ms[n].body, mac);
      if Contains(ToLower(ms[n].body), "hardware ethernet " + mac) {
        ip := ms[n].ip;
      }
    }
    assert records[..|ms|] == records;
  }

  lemma MentionsIs(body: string, mac: string)
    ensures Mentions(body, mac) <==> Contains(ToLower(body), "hardware ethernet " + mac)
  {
  }

  /** The first lease file that yields an address decides; unreadable files are skipped. */
  function LeaseAmong(files: seq<Option<string>>, mac: string): string {
    if files == [] then ""
    else if files[0].Some? && LeaseIn(files[0].value, mac) != "" then LeaseIn(files[0].value, mac)
    else LeaseAmong(files[1..], mac)
  }

  method ScanFiles(files: seq<Option<string>>, mac: string) returns (ip: string)
    ensures ip == LeaseAmong(files, mac)
  {
    hide LeaseIn;
    for n := 0 to |files|
      invariant LeaseAmong(files, mac) == LeaseAmong(files[n..], mac)
    {
      if files[n].Some? {
        var found := ScanFile(files[n].value, mac);
        if found != "" {
          return found;
        }
      }
    }
    return "";
  }

  /** The lease scan is right: on a file printed from records, with any quiet text between
      them, it returns the address of the last record whose body mentions the MAC, and
      nothing exactly when no record does. */
  lemma PrintedLeaseIsFound(leases: seq<Lease>, tail: string, mac: string)
    requires GoodLeases(leases) && Quiet(tail)
    ensures var ip := LeaseIn(Print(leases, tail), mac);
            || (ip == "" && forall i :: 0 <= i < |leases| ==> !Mentions(leases[i].body, mac))
            || (exists i :: 0 <= i < |leases| && ip == leases[i].ip != "" && Mentions(leases[i].body, mac)
                  && forall j :: i < j < |leases| ==> !Mentions(leases[j].body, mac))
  {
    hide Mentions, FindAll, Print, Quiet;
    FindAllPrinted(leases, tail);
    var records := Records(leases);
    LastMentionIsLast(records, mac);
    var i := LastMention(records, mac);
    if i >= 0 {
      assert GoodLease(leases[i]);
      assert forall j :: 0 <= j < |leases| ==> records[j].1 == leases[j].body;
    } else {
      assert forall j :: 0 <= j < |leases| ==> records[j].1 == leases[j].body;
    }
  }

  /** One record, spelled out: its address is found exactly when its body holds the words
      "hardware ethernet" and the MAC, in whatever case. */
  lemma SpelledLeaseIsFound(ip: string, body: string, mac: string)
    requires ip != "" && forall i :: 0 <= i < |ip| ==> '0' <= ip[i] <= '9' || ip[i] == '.'
    requires '}' !in body && forall i :: 0 <= i < |mac| ==> !('A' <= mac[i] <= 'Z')
    ensures LeaseIn("lease " + ip + " {" + body + "}", mac) ==
              if exists a, m, b :: body == a + m + b && Recased(m, "hardware ethernet " + mac) then ip else ""
  {
    var l := Lease("", ip, body);
    var words := "hardware ethernet ";
    assert forall i :: 0 <= i < |words| ==> !('A' <= words[i] <= 'Z');
    assert forall i :: 0 <= i < |words + mac| ==> !('A' <= (words + mac)[i] <= 'Z');
    ContainsInLower(body, words + mac);
    assert IsIp(ip) && Quiet("");
    PrintedOne(ip, body);
    hide Recased, Print, FindAll, IsIp, Quiet, Contains;
    FindAllPrinted([l], "");
    var records := Records([l]);
    assert records == [(ip, body)];
    LastMentionOfOne(ip, body, mac);
  }

  lemma PrintedOne(ip: string, body: string)
    ensures Print([Lease("", ip, body)], "") == "lease " + ip + " {" + body + "}"
  {
    var l := Lease("", ip, body);
    assert [l][1..] == [];
    assert Print([l], "") == "" + (Block(0, ip, body).Text() + "");
    assert "" + (Block(0, ip, body).Text() + "") == Block(0, ip, body).Text();
  }

  lemma LastMentionOfOne(ip: string, body: string, mac: string)
    ensures LastMention([(ip, body)], mac) == if Mentions(body, mac) then 0 else -1
  {
    hide Mentions;
    assert [(ip, body)][..0] == [];
  }

  /** The address is that of the first lease file that can be read and yields one. */
  lemma {:induction false} FirstFileDecides(files: seq<Option<string>>, mac: string)
    ensures LeaseAmong(files, mac) == ""
            <==> forall i :: 0 <= i < |files| && files[i].Some? ==> LeaseIn(files[i].value, mac) == ""
    ensures LeaseAmong(files, mac) != "" ==>
              exists i :: 0 <= i < |files| && files[i].Some? && LeaseIn(files[i].value, mac) == LeaseAmong(files, mac)
                && forall j :: 0 <= j < i && files[j].Some? ==> LeaseIn(files[j].value, mac) == ""
  {
    hide LeaseIn;
    if files != [] {
      FirstFileDecides(files[1..], mac);
      assert forall i :: 1 <= i < |files| ==> files[i] == files[1..][i - 1];
      if !(files[0].Some? && LeaseIn(files[0].value, mac) != "") && LeaseAmong(files[1..], mac) != "" {
        var k :| 0 <= k < |files[1..]| && files[1..][k].Some? && LeaseIn(files[1..][k].value, mac) == LeaseAmong(files[1..], mac)
                 && forall j :: 0 <= j < k && files[1..][j].Some? ==> LeaseIn(files[1..][j].value, mac) == "";
        assert files[k + 1] == files[1..][k];
      }
    }
  }
}
