// provider/vmware/ops.go, setVMXKeys, vmxKey and the operations that call configure.
module VmxConfig {
  import opened Text
  import opened HostFiles
  import opened VmxEditor
  import opened VmxLaws
  import opened VmxBytes
  import opened VmxCounts
  import opened VmxDuplicates

  // ------------------------------------------------------------ the two loops

  lemma MatchesIs(line: string, key: string)
    ensures Matches(line, key) <==> Cut(line, '=').found && EqualFold(TrimSpace(Cut(line, '=').before), key)
  {
  }

  lemma EditIs(data: string, pairs: seq<Pair>)
    ensures ParseLines(data) == Split(TrimRight(data, NEWLINES), '\n')
    ensures Edit(data, pairs) == Join(SetKeys(ParseLines(data), pairs), '\n') + "\n"
  {
  }

  /** The nested loops of setVMXKeys: overwrite the first matching line, or append. */
  method EditLines(original: seq<string>, pairs: seq<Pair>) returns (lines: seq<string>)
    ensures lines == SetKeys(original, pairs)
  {
    hide *;
    lines := original;
    SetKeysFirst(lines, pairs);
    for n := 0 to |pairs|
      invariant lines == SetKeys(original, pairs[..n])
    {
      var kv := pairs[n];
      ghost var before := lines;
      var newLine := Line(kv);
      var replaced := false;
      for i := 0 to |lines|
        invariant lines == before && !replaced
        invariant forall j :: 0 <= j < i ==> !Matches(before[j], kv.key)
      {
        MatchesIs(lines[i], kv.key);
        var c := Cut(lines[i], '=');
        if c.found && EqualFold(TrimSpace(c.before), kv.key) {
          FirstMatchIs(before, kv.key, i);
          lines := lines[i := newLine];
          replaced := true;
          break;
        }
      }
      if !replaced {
        FirstMatchIs(before, kv.key, |before|);
        lines := lines + [newLine];
      }
      SetKeyAt(before, kv);
      SetKeysUpTo(original, pairs, n);
    }
    assert pairs[..|pairs|] == pairs;
  }

  lemma SetKeysUpTo(lines: seq<string>, pairs: seq<Pair>, n: nat)
    requires n < |pairs|
    ensures SetKeys(lines, pairs[..n + 1]) == SetKey(SetKeys(lines, pairs[..n]), pairs[n])
  {
    assert pairs[..n + 1][..n] == pairs[..n];
    SetKeysStep(lines, pairs[..n + 1]);
  }

  /** setVMXKeys. The file is read, edited line by line, and written back in place: a
      write that stops halfway leaves a prefix of the edited text. */
  method SetVmxKeys(host: Host, vmx: string, pairs: seq<Pair>, write: WriteEnd) returns (ok: bool)
    modifies host
    ensures ok <==> vmx in old(host.disk.files) && write.Whole?
    ensures host.disk ==
              if vmx in old(host.disk.files) && !write.Denied?
              then WithFile(old(host.disk), vmx, Landed(write, Edit(old(host.disk).files[vmx], pairs)))
              else old(host.disk)
  {
    var data := host.Read(vmx);
    if data.None? {
      return false;
    }
    EditIs(data.value, pairs);
    var lines := EditLines(Split(TrimRight(data.value, NEWLINES), '\n'), pairs);
    if write.Denied? {
      return false;
    }
    host.Write(vmx, Landed(write, Join(lines, '\n') + "\n"));
    return write.Whole?;
  }

  /** vmxKey: the trimmed value of the first line carrying the key. */
  method VmxKey(host: Host, vmx: string, key: string) returns (v: string)
    ensures v == if vmx in host.disk.files then Lookup(host.disk.files[vmx], key) else ""
  {
    var data := host.Read(vmx);
    if data.None? {
      return "";
    }
    var lines := Split(data.value, '\n');
    for i := 0 to |lines|
      invariant forall j :: 0 <= j < i ==> !Matches(lines[j], key)
    {
      var c := Cut(lines[i], '=');
      if c.found && EqualFold(TrimSpace(c.before), key) {
        FirstMatchIs(lines, key, i);
        return Trim(TrimSpace(c.after), QUOTES);
      }
    }
    FirstMatchIs(lines, key, |lines|);
    return "";
  }

  // ---------------------------------------------------------------- operations

  /** One configuration request, with the caller's text. SetGuestinfo's pairs are the
      entries of a Go map in whatever order the iteration yields them. */
  datatype Request =
    | SetResources(cpus: int, memoryMB: int)
    | SetNestedVirt(enabled: bool)
    | AttachISO(isoPath: string, slot: string, isoExists: bool)
    | SetGuestinfo(entries: seq<Pair>)

  /** strconv.Itoa for the positive numbers SetResources passes. */
  function Itoa(n: nat): string {
    if n < 10 then [('0' as int + n) as char] else Itoa(n / 10) + [('0' as int + n % 10) as char]
  }

  function DefaultSlot(slot: string): string {
    if slot == "" then "sata0:1" else slot
  }

  /** The pairs a request hands to configure; [] when it is refused first. */
  function PairsOf(r: Request): seq<Pair> {
    match r
    case SetResources(cpus, memoryMB) =>
      (if cpus > 0 then [Pair("numvcpus", Itoa(cpus))] else [])
      + (if memoryMB > 0 then [Pair("memsize", Itoa(memoryMB))] else [])
    case SetNestedVirt(enabled) =>
      [Pair("vhv.enable", if enabled then "TRUE" else "FALSE")]
    case AttachISO(isoPath, slot, isoExists) =>
      var s := DefaultSlot(slot);
      if isoPath == "" then [Pair(s + ".present", "FALSE")]
      else if !isoExists then []
      else [Pair(s + ".present", "TRUE"), Pair(s + ".deviceType", "cdrom-image"),
            Pair(s + ".fileName", isoPath), Pair(s + ".startConnected", "TRUE")]
    case SetGuestinfo(entries) =>
      entries
  }

  /** What the caller must check about its own text before a request. */
  predicate GoodRequest(r: Request) {
    match r
    case SetResources(_, _) => true
    case SetNestedVirt(_) => true
    case AttachISO(isoPath, slot, isoExists) =>
      (PairsOf(r) != [] ==> GoodSlot(slot)) && (isoPath != "" && isoExists ==> '\n' !in isoPath)
    case SetGuestinfo(entries) => Repeatable(entries)
  }

  predicate GoodSlot(slot: string) {
    slot == "" || (slot[0] !in SPACES && '=' !in slot && '\n' !in slot)
  }

  // ------------------------------------------- which requests are repeatable

  predicate Plain(kv: Pair) {
    Settable(kv.key) && '\n' !in kv.value
  }

  predicate AllPlain(pairs: seq<Pair>) {
    forall i :: 0 <= i < |pairs| ==> Plain(pairs[i])
  }

  lemma PlainIsRepeatable(pairs: seq<Pair>)
    requires AllPlain(pairs)
    ensures Repeatable(pairs)
  {
    hide Settable, LastFor;
    assert forall i :: 0 <= i < |pairs| ==> Plain(pairs[i]);
  }

  lemma {:induction false} ItoaDigits(n: nat)
    ensures '\n' !in Itoa(n)
  {
    if n >= 10 {
      ItoaDigits(n / 10);
    }
  }

  lemma SlotKey(slot: string, suffix: string)
    requires suffix in [".present", ".deviceType", ".fileName", ".startConnected"]
    ensures Settable(DefaultSlot(slot) + suffix) <==> GoodSlot(slot)
  {
    var s := DefaultSlot(slot);
    var key := s + suffix;
    assert '=' !in suffix && '\n' !in suffix && suffix[|suffix| - 1] !in SPACES;
    assert key[0] == s[0] && key[|key| - 1] == suffix[|suffix| - 1];
    assert forall c :: c in key <==> c in s || c in suffix;
    assert '=' !in "sata0:1" && '\n' !in "sata0:1";
  }

  lemma DistinctIsLast(pairs: seq<Pair>, i: nat)
    requires DistinctKeys(pairs) && i < |pairs|
    ensures LastFor(pairs, pairs[i].key) == i
  {
    hide EqualFold;
    FoldsToItself(pairs[i].key);
    forall j | i < j < |pairs| ensures !EqualFold(pairs[j].key, pairs[i].key) {
      FoldSymmetric(pairs[i].key, pairs[j].key);
    }
    LastForIs(pairs, pairs[i].key, i);
  }

  lemma AllPlainIff(pairs: seq<Pair>)
    requires DistinctKeys(pairs)
    ensures Repeatable(pairs) <==> AllPlain(pairs)
  {
    forall i | 0 <= i < |pairs| ensures LastFor(pairs, pairs[i].key) == i {
      DistinctIsLast(pairs, i);
    }
    hide Settable, EqualFold, LastFor;
    if Repeatable(pairs) {
      assert forall i :: 0 <= i < |pairs| ==> Plain(pairs[i]);
    }
  }

  lemma DifferentLengths(a: string, b: string)
    requires |a| != |b|
    ensures !EqualFold(a, b)
  {
  }

  lemma ResourcesArePlain(cpus: int, memoryMB: int)
    ensures Repeatable(PairsOf(SetResources(cpus, memoryMB)))
  {
    if cpus > 0 {
      ItoaDigits(cpus);
    }
    if memoryMB > 0 {
      ItoaDigits(memoryMB);
    }
    hide Itoa;
    assert Settable("numvcpus") && Settable("memsize");
    PlainIsRepeatable(PairsOf(SetResources(cpus, memoryMB)));
  }

  lemma NestedVirtIsPlain(enabled: bool)
    ensures Repeatable(PairsOf(SetNestedVirt(enabled)))
  {
    assert Settable("vhv.enable") && '\n' !in "TRUE" && '\n' !in "FALSE";
    PlainIsRepeatable(PairsOf(SetNestedVirt(enabled)));
  }

  lemma AttachKeysDiffer(r: Request)
    requires r.AttachISO?
    ensures DistinctKeys(PairsOf(r))
  {
    hide DefaultSlot, EqualFold;
    var pairs := PairsOf(r);
    forall i, j | 0 <= i < j < |pairs| ensures !EqualFold(pairs[i].key, pairs[j].key) {
      DifferentLengths(pairs[i].key, pairs[j].key);
    }
  }

  lemma AttachIsRepeatable(r: Request)
    requires r.AttachISO?
    ensures Repeatable(PairsOf(r)) <==> GoodRequest(r)
  {
    var s := DefaultSlot(r.slot);
    var pairs := PairsOf(r);
    SlotKey(r.slot, ".present");
    SlotKey(r.slot, ".deviceType");
    SlotKey(r.slot, ".fileName");
    SlotKey(r.slot, ".startConnected");
    assert '\n' !in "FALSE" && '\n' !in "TRUE" && '\n' !in "cdrom-image";
    hide Settable, DefaultSlot, GoodSlot, EqualFold;
    AttachKeysDiffer(r);
    AllPlainIff(pairs);
    hide Repeatable, DistinctKeys;
    if r.isoPath != "" && r.isoExists {
      assert AllPlain(pairs) <==> Plain(pairs[0]) && Plain(pairs[1]) && Plain(pairs[2]) && Plain(pairs[3]);
    } else if r.isoPath == "" {
      assert AllPlain(pairs) <==> Plain(pairs[0]);
    }
  }

  /** A request is repeatable exactly when the caller's text is good; requests that carry
      no text of the caller's always are. */
  lemma GoodRequestIffRepeatable(r: Request)
    ensures Repeatable(PairsOf(r)) <==> GoodRequest(r)
  {
    match r {
      case SetResources(cpus, memoryMB) => ResourcesArePlain(cpus, memoryMB);
      case SetNestedVirt(enabled) => NestedVirtIsPlain(enabled);
      case AttachISO(_, _, _) => AttachIsRepeatable(r);
      case SetGuestinfo(_) =>
    }
  }

  /** What the caller must check about its own text so that no key is duplicated. */
  predicate TidyRequest(r: Request) {
    match r
    case SetResources(_, _) => true
    case SetNestedVirt(_) => true
    case AttachISO(isoPath, slot, isoExists) =>
      (PairsOf(r) != [] ==> GoodSlot(slot)) && (isoPath != "" && isoExists ==> TidyValue(isoPath))
    case SetGuestinfo(entries) => Tidy(entries)
  }

  predicate TidyValue(value: string) {
    '=' !in Cut(value, '\n').after
  }

  predicate TidyPair(kv: Pair) {
    Settable(kv.key) && TidyValue(kv.value)
  }

  predicate AllTidy(pairs: seq<Pair>) {
    forall i :: 0 <= i < |pairs| ==> TidyPair(pairs[i])
  }

  lemma TidyIff(pairs: seq<Pair>)
    requires DistinctKeys(pairs)
    ensures Tidy(pairs) <==> AllTidy(pairs)
  {
    forall i | 0 <= i < |pairs| ensures LastFor(pairs, pairs[i].key) == i {
      DistinctIsLast(pairs, i);
    }
    hide Settable, EqualFold, LastFor, Cut;
  }

  lemma OneLineIsTidy(value: string)
    requires '\n' !in value
    ensures TidyValue(value)
  {
  }

  lemma AttachKeys(r: Request)
    requires r.AttachISO?
    ensures forall i :: 0 <= i < |PairsOf(r)| ==> (Settable(PairsOf(r)[i].key) <==> GoodSlot(r.slot))
  {
    SlotKey(r.slot, ".present");
    SlotKey(r.slot, ".deviceType");
    SlotKey(r.slot, ".fileName");
    SlotKey(r.slot, ".startConnected");
    hide Settable, DefaultSlot, GoodSlot;
  }

  lemma WordsAreTidy()
    ensures TidyValue("FALSE") && TidyValue("TRUE") && TidyValue("cdrom-image")
  {
    assert '\n' !in "FALSE" && '\n' !in "TRUE" && '\n' !in "cdrom-image";
    hide TidyValue;
    OneLineIsTidy("FALSE");
    OneLineIsTidy("TRUE");
    OneLineIsTidy("cdrom-image");
  }

  lemma AttachValues(r: Request)
    requires r.AttachISO?
    ensures (forall i :: 0 <= i < |PairsOf(r)| ==> TidyValue(PairsOf(r)[i].value))
            <==> (r.isoPath != "" && r.isoExists ==> TidyValue(r.isoPath))
  {
    WordsAreTidy();
    hide DefaultSlot, TidyValue;
    if r.isoPath != "" && r.isoExists {
      assert PairsOf(r)[2].value == r.isoPath;
    }
  }

  lemma AttachIsTidy(r: Request)
    requires r.AttachISO?
    ensures Tidy(PairsOf(r)) <==> TidyRequest(r)
  {
    AttachKeys(r);
    AttachValues(r);
    hide Settable, DefaultSlot, GoodSlot, TidyValue, PairsOf, Tidy, DistinctKeys;
    AttachKeysDiffer(r);
    TidyIff(PairsOf(r));
    if PairsOf(r) != [] {
      assert AllTidy(PairsOf(r)) ==> TidyPair(PairsOf(r)[0]);
    }
  }

  /** A request's pairs are tidy exactly when the caller's text is; requests that carry no
      text of the caller's always are. */
  lemma TidyRequestIff(r: Request)
    ensures Tidy(PairsOf(r)) <==> TidyRequest(r)
  {
    match r {
      case SetResources(cpus, memoryMB) =>
        ResourcesArePlain(cpus, memoryMB);
        RepeatableIsTidy(PairsOf(r));
      case SetNestedVirt(enabled) =>
        NestedVirtIsPlain(enabled);
        RepeatableIsTidy(PairsOf(r));
      case AttachISO(_, _, _) => AttachIsTidy(r);
      case SetGuestinfo(_) =>
    }
  }

  // ------------------------------------------------------------ runs of requests

  /** What a request makes of a file: refused requests leave its bytes alone. */
  function Apply(data: string, r: Request): string {
    if PairsOf(r) == [] then data else Edit(data, PairsOf(r))
  }

  function Run(data: string, rs: seq<Request>): string {
    if rs == [] then data else Apply(Run(data, rs[..|rs| - 1]), rs[|rs| - 1])
  }

  /** Everything a run writes, in order. */
  function Written(rs: seq<Request>): seq<Pair> {
    if rs == [] then [] else Written(rs[..|rs| - 1]) + PairsOf(rs[|rs| - 1])
  }

  predicate GoodRun(rs: seq<Request>) {
    forall i :: 0 <= i < |rs| ==> GoodRequest(rs[i])
  }

  lemma {:induction false} LastForConcat(ps: seq<Pair>, qs: seq<Pair>, key: string)
    ensures LastFor(ps + qs, key) ==
              if LastFor(qs, key) >= 0 then |ps| + LastFor(qs, key) else LastFor(ps, key)
  {
    hide EqualFold;
    if qs == [] {
      assert ps + qs == ps;
    } else {
      assert (ps + qs)[..|ps + qs| - 1] == ps + qs[..|qs| - 1];
      LastForConcat(ps, qs[..|qs| - 1], key);
    }
  }

  lemma RepeatableConcat(ps: seq<Pair>, qs: seq<Pair>)
    requires Repeatable(ps) && Repeatable(qs)
    ensures Repeatable(ps + qs)
  {
    hide Settable, LastFor;
    var all := ps + qs;
    forall i | 0 <= i < |all|
      ensures Settable(all[i].key) && ('\n' in all[i].value ==> LastFor(all, all[i].key) > i)
    {
      LastForConcat(ps, qs, all[i].key);
      if i < |ps| {
        assert all[i] == ps[i];
      } else {
        assert all[i] == qs[i - |ps|];
      }
    }
  }

  lemma {:induction false} WrittenIsRepeatable(rs: seq<Request>)
    requires GoodRun(rs)
    ensures Repeatable(Written(rs))
  {
    hide GoodRequest, PairsOf, Repeatable;
    if rs == [] {
      EmptyIsRepeatable();
    } else {
      WrittenIsRepeatable(rs[..|rs| - 1]);
      GoodRequestIffRepeatable(rs[|rs| - 1]);
      RepeatableConcat(Written(rs[..|rs| - 1]), PairsOf(rs[|rs| - 1]));
    }
  }

  lemma EmptyIsRepeatable()
    ensures Repeatable([])
  {
  }

  /** Two edits in a row are one edit with the pairs of both. */
  lemma EditTwice(data: string, ps: seq<Pair>, qs: seq<Pair>)
    requires Repeatable(ps)
    ensures Edit(Edit(data, ps), qs) == Edit(data, ps + qs)
  {
    hide ParseLines, PrintLines, SetKeys, Repeatable;
    EditedLines(data, ps);
    SetKeysConcat(ParseLines(data), ps, qs);
  }

  /** A whole run of requests leaves exactly the bytes of a single edit with everything
      the run wrote; a run that wrote nothing leaves the file alone. */
  lemma {:induction false} RunIsOneEdit(data: string, rs: seq<Request>)
    requires GoodRun(rs)
    ensures Run(data, rs) == if Written(rs) == [] then data else Edit(data, Written(rs))
  {
    hide GoodRequest, PairsOf, Repeatable, Edit;
    if rs != [] {
      var init, r := rs[..|rs| - 1], rs[|rs| - 1];
      RunIsOneEdit(data, init);
      WrittenIsRepeatable(init);
      if PairsOf(r) != [] && Written(init) != [] {
        EditTwice(data, Written(init), PairsOf(r));
      }
      assert [] + PairsOf(r) == PairsOf(r) && Written(init) + [] == Written(init);
    }
  }

  lemma RunLines(data: string, rs: seq<Request>)
    requires GoodRun(rs)
    ensures AllAddressable(Written(rs))
    ensures ParseLines(Run(data, rs)) == SetKeys(ParseLines(data), Written(rs))
  {
    hide *;
    RunIsOneEdit(data, rs);
    WrittenIsRepeatable(rs);
    RepeatableAddressable(Written(rs));
    EditedLines(data, Written(rs));
    SetKeysFirst(ParseLines(data), Written(rs));
  }

  /** After the run, a written class has the lines it had, or one if it had none, and
      every other class has exactly the lines it had. */
  predicate RunLaw(data: string, rs: seq<Request>, key: string) {
    Count(ParseLines(Run(data, rs)), key) == CountAfter(Written(rs), key, Count(ParseLines(data), key))
  }

  predicate TidyRun(rs: seq<Request>) {
    forall i :: 0 <= i < |rs| ==> TidyRequest(rs[i])
  }

  lemma CountAfterConcat(ps: seq<Pair>, qs: seq<Pair>, key: string, before: nat)
    ensures CountAfter(ps + qs, key, before) == CountAfter(qs, key, CountAfter(ps, key, before))
    ensures CountAfter([], key, before) == before
  {
    LastForConcat(ps, qs, key);
    hide LastFor;
  }

  /** One more request keeps the law exactly when its own edit does. */
  lemma RunLawStep(data: string, rs: seq<Request>, n: nat, key: string)
    requires n < |rs| && RunLaw(data, rs[..n], key)
    ensures RunLaw(data, rs[..n + 1], key)
            <==> PairsOf(rs[n]) == [] || CountLaw(Run(data, rs[..n]), PairsOf(rs[n]), key)
  {
    var init, r := rs[..n], rs[n];
    assert rs[..n + 1][..n] == init;
    hide PairsOf, Edit, Count, ParseLines, CountAfter;
    CountAfterConcat(Written(init), PairsOf(r), key, Count(ParseLines(data), key));
  }

  lemma RunLawAtStart(data: string, rs: seq<Request>, key: string)
    ensures RunLaw(data, rs[..0], key)
  {
  }

  /** A run of tidy requests keeps the law. */
  lemma {:induction false} RunKeepsCountLaw(data: string, rs: seq<Request>, key: string)
    requires TidyRun(rs)
    ensures RunLaw(data, rs, key)
  {
    hide PairsOf, RunLaw, TidyRequest, CountLaw, Tidy;
    RunLawAtStart(data, rs, key);
    for n := 0 to |rs|
      invariant RunLaw(data, rs[..n], key)
    {
      TidyRequestIff(rs[n]);
      CountLawIff(Run(data, rs[..n]), PairsOf(rs[n]));
      RunLawStep(data, rs, n, key);
    }
    assert rs[..|rs|] == rs;
  }

  /** And only such runs do, at every point of the run. */
  lemma RunCountLawIff(data: string, rs: seq<Request>)
    ensures (forall n, key :: 0 <= n <= |rs| ==> RunLaw(data, rs[..n], key)) <==> TidyRun(rs)
  {
    hide PairsOf, RunLaw, TidyRequest, CountLaw, Tidy;
    if TidyRun(rs) {
      forall n, key | 0 <= n <= |rs| ensures RunLaw(data, rs[..n], key) {
        RunKeepsCountLaw(data, rs[..n], key);
      }
    } else {
      var n: nat :| n < |rs| && !TidyRequest(rs[n]);
      NothingIsTidy();
      TidyRequestIff(rs[n]);
      CountLawIff(Run(data, rs[..n]), PairsOf(rs[n]));
      var key :| !CountLaw(Run(data, rs[..n]), PairsOf(rs[n]), key);
      if RunLaw(data, rs[..n], key) {
        RunLawStep(data, rs, n, key);
        assert !RunLaw(data, rs[..n + 1], key);
      }
    }
  }

  /** A key has one line after the run, or none, unless it had more before; and then it
      has no more than it had. */
  predicate RunAddsNone(data: string, rs: seq<Request>, key: string) {
    Count(ParseLines(Run(data, rs)), key) <= Max(1, Count(ParseLines(data), key))
  }

  lemma RunLawAddsNone(data: string, rs: seq<Request>, key: string)
    requires RunLaw(data, rs, key)
    ensures RunAddsNone(data, rs, key)
    ensures Count(ParseLines(Run(data, rs)), key) >= Count(ParseLines(data), key)
  {
    hide Count, ParseLines, Run, Written, LastFor;
  }

  lemma {:induction false} FirstUntidy(rs: seq<Request>) returns (m: nat)
    requires !TidyRun(rs)
    ensures m < |rs| && !TidyRequest(rs[m]) && TidyRun(rs[..m])
  {
    hide TidyRequest;
    var n := |rs| - 1;
    if TidyRun(rs[..n]) {
      assert forall i :: 0 <= i < n ==> rs[..n][i] == rs[i];
      m := n;
    } else {
      m := FirstUntidy(rs[..n]);
      assert rs[..n][..m] == rs[..m];
    }
  }

  lemma UntidyRunDuplicates(rs: seq<Request>, m: nat) returns (data: string, key: string)
    requires m < |rs| && !TidyRequest(rs[m]) && TidyRun(rs[..m])
    ensures !RunAddsNone(data, rs[..m + 1], key)
  {
    var pairs := PairsOf(rs[m]);
    NothingIsTidy();
    assert rs[..m + 1][..m] == rs[..m];
    hide PairsOf, TidyRequest, Tidy, TidyRun, Count, ParseLines, Edit, RunLaw, KeyOf, Split, Line;
    TidyRequestIff(rs[m]);
    data := CoveringFile(pairs);
    var file := Run(data, rs[..m]);
    forall k ensures Count(ParseLines(file), k) >= Count(ParseLines(data), k) {
      RunKeepsCountLaw(data, rs[..m], k);
      RunLawAddsNone(data, rs[..m], k);
    }
    key := UntidyDuplicates(file, pairs);
  }

  /** No new duplicates over whole runs: at no point of a run, on any file, does a key get
      a duplicate line, if and only if every request of the run is tidy. */
  lemma RunAddsNoDuplicatesIff(rs: seq<Request>)
    ensures (forall data, n, key :: 0 <= n <= |rs| ==> RunAddsNone(data, rs[..n], key)) <==> TidyRun(rs)
  {
    hide RunAddsNone, RunLaw, TidyRequest;
    if TidyRun(rs) {
      forall data, n, key | 0 <= n <= |rs| ensures RunAddsNone(data, rs[..n], key) {
        RunKeepsCountLaw(data, rs[..n], key);
        RunLawAddsNone(data, rs[..n], key);
      }
    } else {
      var m := FirstUntidy(rs);
      var data, key := UntidyRunDuplicates(rs, m);
    }
  }

  /** Over whole runs, an original line changes only if it is the first of a written
      class, and then it holds the last value written; later duplicates stay as they were. */
  lemma RunChangesInPlace(data: string, rs: seq<Request>, i: nat)
    requires GoodRun(rs) && i < |ParseLines(data)|
    ensures i < |ParseLines(Run(data, rs))|
    ensures ParseLines(Run(data, rs))[i] == InPlace(ParseLines(data), Written(rs), i)
  {
    hide *;
    RunLines(data, rs);
    EditInPlace(ParseLines(data), Written(rs), i);
  }

  /** Over whole runs, each line past the original ones is the only line of a class that
      was absent, and holds the last value written to it. */
  lemma RunAppends(data: string, rs: seq<Request>, i: nat) returns (q: nat)
    requires GoodRun(rs) && |ParseLines(data)| <= i < |ParseLines(Run(data, rs))|
    ensures q < |Written(rs)| && LastFor(Written(rs), Written(rs)[q].key) == q
    ensures ParseLines(Run(data, rs))[i] == Line(Written(rs)[q])
    ensures Count(ParseLines(data), Written(rs)[q].key) == 0
    ensures Count(ParseLines(Run(data, rs)), Written(rs)[q].key) == 1
  {
    hide *;
    RunLines(data, rs);
    q := EditAppends(ParseLines(data), Written(rs), i);
    CountZero(ParseLines(data), Written(rs)[q].key);
    CountAfterEdit(ParseLines(data), Written(rs), Written(rs)[q].key);
  }

  /** Over whole runs, every key reads as the last value written to it, or as before. */
  lemma RunReads(data: string, rs: seq<Request>, key: string)
    requires GoodRun(rs)
    ensures Lookup(Run(data, rs), key) ==
              if LastFor(Written(rs), key) >= 0 then Trim(Written(rs)[LastFor(Written(rs), key)].value, QUOTES)
              else Lookup(data, key)
  {
    hide *;
    RunLines(data, rs);
    LookupIgnoresTrailingNewlines(data, key);
    LookupIgnoresTrailingNewlines(Run(data, rs), key);
    GetAfterPut(ParseLines(data), Written(rs), key);
  }
}
