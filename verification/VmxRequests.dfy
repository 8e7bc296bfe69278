// provider/vmware/ops.go, SetResources, SetNestedVirt, AttachISO and SetGuestinfo: what the
// file reads as after each of them.
module VmxRequests {
  import opened Text
  import opened VmxEditor
  import opened VmxLaws
  import opened VmxBytes
  import opened VmxCases
  import opened VmxConfig

  /** The number a decimal text stands for. */
  function DecimalValue(s: string): int {
    if s == "" then 0 else 10 * DecimalValue(s[..|s| - 1]) + (s[|s| - 1] as int - '0' as int)
  }

  /** The text is the number in decimal digits, without leading zeros. */
  predicate IsDecimal(s: string, n: int) {
    && s != "" && s[0] != '0'
    && (forall i :: 0 <= i < |s| ==> '0' <= s[i] <= '9')
    && DecimalValue(s) == n
  }

  lemma {:induction false} ItoaIsDecimal(n: nat)
    requires n > 0
    ensures IsDecimal(Itoa(n), n)
  {
    var digit := ('0' as int + n % 10) as char;
    if n < 10 {
      assert Itoa(n)[..0] == "";
    } else {
      ItoaIsDecimal(n / 10);
      var front := Itoa(n / 10);
      assert Itoa(n) == front + [digit];
      assert (front + [digit])[..|front|] == front;
    }
  }

  lemma Unquoted(s: string)
    requires '"' !in s
    ensures Trim(s, QUOTES) == s
  {
    TrimIsTrimmed(s, QUOTES);
  }

  /** What one written key reads as, given where its class ends in the pairs. */
  lemma WrittenReads(data: string, pairs: seq<Pair>, key: string, i: nat)
    requires Repeatable(pairs) && DistinctKeys(pairs) && i < |pairs| && Recased(key, pairs[i].key)
    ensures Lookup(Edit(data, pairs), key) == Trim(pairs[i].value, QUOTES)
  {
    FoldIffRecased(key, pairs[i].key);
    FoldSymmetric(key, pairs[i].key);
    hide Repeatable, Edit, Lookup, Trim, Recased, Trimmed;
    forall j | i < j < |pairs| ensures !EqualFold(pairs[j].key, key) {
      assert !EqualFold(pairs[i].key, pairs[j].key);
    }
    LastForIs(pairs, key, i);
    LookupAfterEdit(data, pairs, key);
  }

  lemma UnwrittenReads(data: string, pairs: seq<Pair>, key: string)
    requires Repeatable(pairs) && forall i :: 0 <= i < |pairs| ==> !Recased(key, pairs[i].key)
    ensures Lookup(Edit(data, pairs), key) == Lookup(data, key)
  {
    hide Repeatable, Edit, Lookup, Trim, Recased, EqualFold, Trimmed, LastFor;
    LastForIsLast(pairs, key);
    if LastFor(pairs, key) >= 0 {
      var i := LastFor(pairs, key);
      FoldSymmetric(pairs[i].key, key);
      FoldIffRecased(key, pairs[i].key);
    }
    LookupAfterEdit(data, pairs, key);
  }

  lemma DifferentLengthsDiffer(a: string, b: string)
    requires |a| != |b|
    ensures !EqualFold(a, b) && !Recased(a, b)
  {
  }

  lemma ResourcePairs(cpus: int, memoryMB: int)
    ensures var ps := PairsOf(SetResources(cpus, memoryMB));
            && DistinctKeys(ps) && Repeatable(ps)
            && (cpus > 0 ==> |ps| >= 1 && ps[0].key == "numvcpus" && IsDecimal(ps[0].value, cpus) && '"' !in ps[0].value)
            && (memoryMB > 0 ==> |ps| >= 1 && ps[|ps| - 1].key == "memsize"
                                 && IsDecimal(ps[|ps| - 1].value, memoryMB) && '"' !in ps[|ps| - 1].value)
            && |ps| == (if cpus > 0 then 1 else 0) + (if memoryMB > 0 then 1 else 0)
  {
    ResourcesArePlain(cpus, memoryMB);
    DifferentLengthsDiffer("numvcpus", "memsize");
    hide Repeatable, EqualFold, Itoa, DecimalValue;
    if cpus > 0 {
      ItoaIsDecimal(cpus);
    }
    if memoryMB > 0 {
      ItoaIsDecimal(memoryMB);
    }
  }

  lemma NotBothKeys(key: string)
    ensures !(Recased(key, "numvcpus") && Recased(key, "memsize"))
  {
  }

  /** After SetResources, numvcpus and memsize read as the numbers given, in decimal; a
      number that is not positive leaves its key as it was, and so does every other key. */
  lemma ResourcesRead(data: string, cpus: int, memoryMB: int, key: string)
    ensures var now := Lookup(Apply(data, SetResources(cpus, memoryMB)), key);
            if Recased(key, "numvcpus") && cpus > 0 then IsDecimal(now, cpus)
            else if Recased(key, "memsize") && memoryMB > 0 then IsDecimal(now, memoryMB)
            else now == Lookup(data, key)
  {
    var ps := PairsOf(SetResources(cpus, memoryMB));
    ResourcePairs(cpus, memoryMB);
    NotBothKeys(key);
    hide PairsOf, Repeatable, DistinctKeys, Edit, Lookup, IsDecimal, Recased, Trim;
    if Recased(key, "numvcpus") && cpus > 0 {
      WrittenReads(data, ps, key, 0);
      Unquoted(ps[0].value);
    } else if Recased(key, "memsize") && memoryMB > 0 {
      WrittenReads(data, ps, key, |ps| - 1);
      Unquoted(ps[|ps| - 1].value);
    } else if ps != [] {
      UnwrittenReads(data, ps, key);
    }
  }

  /** After SetNestedVirt, vhv.enable says whether it is enabled; nothing else changes. */
  lemma NestedVirtReads(data: string, enabled: bool, key: string)
    ensures Lookup(Apply(data, SetNestedVirt(enabled)), key) ==
              if Recased(key, "vhv.enable") then (if enabled then "TRUE" else "FALSE") else Lookup(data, key)
  {
    var ps := PairsOf(SetNestedVirt(enabled));
    NestedVirtIsPlain(enabled);
    assert ps == [Pair("vhv.enable", if enabled then "TRUE" else "FALSE")];
    assert '"' !in "TRUE" && '"' !in "FALSE";
    hide PairsOf, Repeatable, Edit, Lookup, Recased, Trim, EqualFold;
    if Recased(key, "vhv.enable") {
      WrittenReads(data, ps, key, 0);
      Unquoted(ps[0].value);
    } else {
      UnwrittenReads(data, ps, key);
    }
  }

  /** A slot the caller may name: the key made of it is found again. */
  predicate ProperSlot(slot: string) {
    slot == "" || (!White(slot[0]) && '=' !in slot && '\n' !in slot)
  }

  function SlotOr(slot: string): string {
    if slot == "" then "sata0:1" else slot
  }

  lemma SlotsAgree(slot: string)
    ensures ProperSlot(slot) <==> GoodSlot(slot)
    ensures SlotOr(slot) == DefaultSlot(slot)
  {
    if slot != "" {
      WhiteIff(slot[0]);
    }
    hide White, SPACES;
  }

  lemma AttachPairs(isoPath: string, slot: string)
    ensures var s := SlotOr(slot);
            && PairsOf(AttachISO("", slot, true)) == [Pair(s + ".present", "FALSE")]
            && PairsOf(AttachISO("", slot, false)) == [Pair(s + ".present", "FALSE")]
            && (isoPath != "" ==> PairsOf(AttachISO(isoPath, slot, false)) == [])
            && (isoPath != "" ==>
                  var ps := PairsOf(AttachISO(isoPath, slot, true));
                  && |ps| == 4
                  && ps[0] == Pair(s + ".present", "TRUE") && ps[1] == Pair(s + ".deviceType", "cdrom-image")
                  && ps[2] == Pair(s + ".fileName", isoPath) && ps[3] == Pair(s + ".startConnected", "TRUE"))
  {
    SlotsAgree(slot);
    hide DefaultSlot, SlotOr;
  }

  /** After AttachISO of a file that is there, the four keys of the slot, sata0:1 unless
      named, read as a connected CD-ROM image with that file; nothing else changes. */
  lemma AttachReads(data: string, isoPath: string, slot: string, key: string)
    requires isoPath != "" && '\n' !in isoPath && ProperSlot(slot)
    ensures var s, now := SlotOr(slot), Lookup(Apply(data, AttachISO(isoPath, slot, true)), key);
            if Recased(key, s + ".present") then now == "TRUE"
            else if Recased(key, s + ".deviceType") then now == "cdrom-image"
            else if Recased(key, s + ".fileName") then now == Trim(isoPath, {'"'})
            else if Recased(key, s + ".startConnected") then now == "TRUE"
            else now == Lookup(data, key)
  {
    var r := AttachISO(isoPath, slot, true);
    var s, ps := SlotOr(slot), PairsOf(r);
    SlotsAgree(slot);
    AttachPairs(isoPath, slot);
    AttachIsRepeatable(r);
    AttachKeysDiffer(r);
    assert QUOTES == {'"'};
    assert '"' !in "TRUE" && '"' !in "cdrom-image";
    assert GoodRequest(r);
    hide PairsOf, Repeatable, DistinctKeys, Edit, Lookup, Recased, Trim, EqualFold, SlotOr, GoodRequest, ProperSlot, GoodSlot;
    Unquoted("TRUE");
    Unquoted("cdrom-image");
    if Recased(key, s + ".present") {
      WrittenReads(data, ps, key, 0);
    } else if Recased(key, s + ".deviceType") {
      WrittenReads(data, ps, key, 1);
    } else if Recased(key, s + ".fileName") {
      WrittenReads(data, ps, key, 2);
    } else if Recased(key, s + ".startConnected") {
      WrittenReads(data, ps, key, 3);
    } else {
      forall i | 0 <= i < |ps| ensures !Recased(key, ps[i].key) {
      }
      UnwrittenReads(data, ps, key);
    }
  }

  /** Without a path AttachISO detaches, and with one that is not there it does nothing. */
  lemma DetachReads(data: string, isoPath: string, slot: string, isoExists: bool, key: string)
    requires ProperSlot(slot) && (isoPath == "" || !isoExists)
    ensures Lookup(Apply(data, AttachISO(isoPath, slot, isoExists)), key) ==
              if isoPath == "" && Recased(key, SlotOr(slot) + ".present") then "FALSE" else Lookup(data, key)
  {
    var r := AttachISO(isoPath, slot, isoExists);
    var ps := PairsOf(r);
    SlotsAgree(slot);
    AttachPairs(isoPath, slot);
    AttachIsRepeatable(r);
    AttachKeysDiffer(r);
    assert '"' !in "FALSE";
    assert GoodRequest(r);
    hide PairsOf, Repeatable, DistinctKeys, Edit, Lookup, Recased, Trim, EqualFold, SlotOr, GoodRequest, ProperSlot, GoodSlot;
    if isoPath == "" {
      Unquoted("FALSE");
      if Recased(key, SlotOr(slot) + ".present") {
        WrittenReads(data, ps, key, 0);
      } else {
        UnwrittenReads(data, ps, key);
      }
    }
  }

  /** SetGuestinfo writes just the entries it is given, and none when there are none. */
  lemma GuestinfoReads(data: string, entries: seq<Pair>, i: nat)
    requires Repeatable(entries) && DistinctKeys(entries)
    ensures entries == [] ==> Apply(data, SetGuestinfo(entries)) == data
    ensures i < |entries| ==> Lookup(Apply(data, SetGuestinfo(entries)), entries[i].key) == Trim(entries[i].value, {'"'})
  {
    assert QUOTES == {'"'};
    hide Repeatable, DistinctKeys, Edit, Lookup, Trim, TwoCases;
    if i < |entries| {
      RecasedItself(entries[i].key);
      hide Recased;
      WrittenReads(data, entries, entries[i].key, i);
    }
  }

  lemma RecasedItself(s: string)
    ensures Recased(s, s)
  {
  }
}
