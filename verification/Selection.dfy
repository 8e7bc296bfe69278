// One-pass selection of the earliest best candidate: core/artifact/resolve.go, pick, and
// core/artifact/fetch.go, vagrantVersion.provider and the version search of vagrantResolve.
module Selection {
  import opened Text

  // ------------------------------------------------------------ the earliest best

  /** i is the earliest candidate of maximal rank; rank 0 means "not applicable". */
  ghost predicate IsEarliestBest(ranks: seq<nat>, i: nat) {
    && i < |ranks| && ranks[i] > 0
    && (forall j :: 0 <= j < |ranks| ==> ranks[j] <= ranks[i])
    && (forall j :: 0 <= j < i ==> ranks[j] < ranks[i])
  }

  /** The choice a selection must make: the earliest best candidate, or none at all. */
  ghost predicate IsChoice(ranks: seq<nat>, choice: Option<nat>) {
    match choice
    case Some(i) => IsEarliestBest(ranks, i)
    case None => forall j :: 0 <= j < |ranks| ==> ranks[j] == 0
  }

  function Best(ranks: seq<nat>): Option<nat> {
    if ranks == [] then None
    else
      var n := |ranks| - 1;
      var b := Best(ranks[..n]);
      if ranks[n] == 0 then b
      else if b.Some? && b.value < n && ranks[b.value] >= ranks[n] then b
      else Some(n)
  }

  lemma {:induction false} BestIsChoice(ranks: seq<nat>)
    ensures IsChoice(ranks, Best(ranks))
  {
    if ranks != [] {
      BestIsChoice(ranks[..|ranks| - 1]);
    }
  }

  lemma ChoiceIsUnique(ranks: seq<nat>, a: Option<nat>, b: Option<nat>)
    requires IsChoice(ranks, a) && IsChoice(ranks, b)
    ensures a == b
  {
    if a.Some? && b.Some? {
      assert ranks[a.value] == ranks[b.value];
    }
  }

  // ----------------------------------------------------- variants of one image

  datatype Tag = Tag(family: string, arch: string)

  /** How specifically a variant matches: exact, family only, arch only, any. */
  function Specificity(v: Tag, family: string, arch: string): nat {
    if v.family == family && v.arch == arch then 4
    else if v.family == family && v.arch == "" then 3
    else if v.family == "" && v.arch == arch then 2
    else if v.family == "" && v.arch == "" then 1
    else 0
  }

  function Specificities(vs: seq<Tag>, family: string, arch: string): (r: seq<nat>)
    ensures |r| == |vs|
    ensures forall i :: 0 <= i < |vs| ==> r[i] == Specificity(vs[i], family, arch)
  {
    seq(|vs|, i requires 0 <= i < |vs| => Specificity(vs[i], family, arch))
  }

  /** The remembered index is the first of its rank, if the rank occurs. */
  ghost predicate FirstOf(ranks: seq<nat>, rank: nat, r: Option<nat>) {
    match r
    case Some(i) => i < |ranks| && ranks[i] == rank && forall j :: 0 <= j < i ==> ranks[j] != rank
    case None => forall j :: 0 <= j < |ranks| ==> ranks[j] != rank
  }

  lemma FirstOfStep(ranks: seq<nat>, i: nat, rank: nat, r: Option<nat>)
    requires i < |ranks| && FirstOf(ranks[..i], rank, r)
    ensures FirstOf(ranks[..i + 1], rank, if r.None? && ranks[i] == rank then Some(i) else r)
  {
  }

  lemma LadderDecides(ranks: seq<nat>, top: nat, a: Option<nat>, b: Option<nat>, c: Option<nat>)
    requires top == 3 || (top == 1 && a.None? && b.None?)
    requires forall j :: 0 <= j < |ranks| ==> ranks[j] <= top
    requires top == 3 ==> FirstOf(ranks, 3, a) && FirstOf(ranks, 2, b)
    requires FirstOf(ranks, 1, c)
    ensures IsChoice(ranks, if a.Some? then a else if b.Some? then b else c)
  {
  }

  /** pick: one pass with three remembered fallbacks finds the earliest best variant. */
  method Pick(vs: seq<Tag>, family: string, arch: string) returns (r: Option<nat>)
    ensures IsChoice(Specificities(vs, family, arch), r)
    ensures r == Best(Specificities(vs, family, arch))
  {
    ghost var ranks := Specificities(vs, family, arch);
    hide Best, FirstOf, IsChoice;
    BestIsChoice(ranks);
    var byFamily: Option<nat>, byArch: Option<nat>, any: Option<nat> := None, None, None;
    NothingYet(ranks);
    for i := 0 to |vs|
      invariant forall j :: 0 <= j < i ==> ranks[j] <= 3
      invariant FirstOf(ranks[..i], 3, byFamily) && FirstOf(ranks[..i], 2, byArch) && FirstOf(ranks[..i], 1, any)
    {
      var v := vs[i];
      FirstOfStep(ranks, i, 3, byFamily);
      FirstOfStep(ranks, i, 2, byArch);
      FirstOfStep(ranks, i, 1, any);
      if v.family == family && v.arch == arch {
        r := Some(i);
        TopIsBest(ranks, i, 4);
        ChoiceIsUnique(ranks, r, Best(ranks));
        return;
      } else if v.family == family && v.arch == "" {
        byFamily := if byFamily.None? then Some(i) else byFamily;
      } else if v.family == "" && v.arch == arch {
        byArch := if byArch.None? then Some(i) else byArch;
      } else if v.family == "" && v.arch == "" {
        any := if any.None? then Some(i) else any;
      }
    }
    assert ranks[..|vs|] == ranks;
    r := if byFamily.Some? then byFamily else if byArch.Some? then byArch else any;
    LadderDecides(ranks, 3, byFamily, byArch, any);
    ChoiceIsUnique(ranks, r, Best(ranks));
  }

  lemma NothingYet(ranks: seq<nat>)
    ensures forall rank: nat :: FirstOf(ranks[..0], rank, None)
  {
  }

  lemma TopIsBest(ranks: seq<nat>, i: nat, top: nat)
    requires i < |ranks| && ranks[i] == top > 0
    requires forall j :: 0 <= j < |ranks| ==> ranks[j] <= top
    requires forall j :: 0 <= j < i ==> ranks[j] < top
    ensures IsChoice(ranks, Some(i))
  {
  }

  /** The ladder, rung by rung: the first variant for just this family and architecture;
      without one, the first for the family and any architecture; then the first for any
      family and the architecture; then the first for any. */
  ghost predicate OnLadder(vs: seq<Tag>, family: string, arch: string, choice: Option<nat>) {
    var rungs := [Tag(family, arch), Tag(family, ""), Tag("", arch), Tag("", "")];
    match choice
    case Some(i) => i < |vs| && exists k :: 0 <= k < 4 && FirstTagged(vs, rungs, k, i)
    case None => forall k :: 0 <= k < 4 ==> rungs[k] !in vs
  }

  /** i is the first with the tag of the rung, and no variant has that of an earlier one. */
  predicate FirstTagged(vs: seq<Tag>, rungs: seq<Tag>, k: nat, i: nat)
    requires k < |rungs| && i < |vs|
  {
    && vs[i] == rungs[k] && rungs[k] !in vs[..i]
    && forall r :: 0 <= r < k ==> rungs[r] !in vs
  }

  lemma RankOfTag(v: Tag, family: string, arch: string)
    requires family != "" && arch != ""
    ensures Specificity(v, family, arch) == 4 <==> v == Tag(family, arch)
    ensures Specificity(v, family, arch) == 3 <==> v == Tag(family, "")
    ensures Specificity(v, family, arch) == 2 <==> v == Tag("", arch)
    ensures Specificity(v, family, arch) == 1 <==> v == Tag("", "")
    ensures Specificity(v, family, arch) <= 4
  {
  }

  /** For a family and an architecture that are named, the choice goes down the ladder. */
  lemma ChoiceIsOnLadder(vs: seq<Tag>, family: string, arch: string, choice: Option<nat>)
    requires family != "" && arch != "" && IsChoice(Specificities(vs, family, arch), choice)
    ensures OnLadder(vs, family, arch, choice)
  {
    var ranks := Specificities(vs, family, arch);
    var rungs := [Tag(family, arch), Tag(family, ""), Tag("", arch), Tag("", "")];
    forall j | 0 <= j < |vs| ensures ranks[j] <= 4 && forall k :: 0 <= k < 4 ==> (ranks[j] == 4 - k <==> vs[j] == rungs[k]) {
      RankOfTag(vs[j], family, arch);
    }
    hide Specificity;
    if choice.Some? {
      var i := choice.value;
      var k := 4 - ranks[i];
      assert FirstTagged(vs, rungs, k, i);
    }
  }

  // ------------------------------------------------- entries of a Vagrant version

  datatype Entry = Entry(name: string, architecture: string, url: string, checksum: string, checksumType: string)

  datatype Version = Version(version: string, providers: seq<Entry>)

  datatype Box = Box(current: Version, versions: seq<Version>)

  /** An exact architecture beats an entry from before multi-arch boxes. */
  function EntryRank(e: Entry, name: string, arch: string): nat {
    if e.name != name then 0
    else if e.architecture == arch then 2
    else if e.architecture == "" || e.architecture == "unknown" then 1
    else 0
  }

  function EntryRanks(es: seq<Entry>, name: string, arch: string): (r: seq<nat>)
    ensures |r| == |es|
    ensures forall i :: 0 <= i < |es| ==> r[i] == EntryRank(es[i], name, arch)
  {
    seq(|es|, i requires 0 <= i < |es| => EntryRank(es[i], name, arch))
  }

  /** vagrantVersion.provider: an exact match anywhere wins over the first fallback. */
  method ProviderEntry(es: seq<Entry>, name: string, arch: string) returns (r: Option<nat>)
    ensures IsChoice(EntryRanks(es, name, arch), r)
    ensures r == Best(EntryRanks(es, name, arch))
  {
    ghost var ranks := EntryRanks(es, name, arch);
    hide Best, FirstOf, IsChoice;
    BestIsChoice(ranks);
    r := None;
    NothingYet(ranks);
    for i := 0 to |es|
      invariant forall j :: 0 <= j < i ==> ranks[j] <= 1
      invariant FirstOf(ranks[..i], 1, r)
    {
      var p := es[i];
      FirstOfStep(ranks, i, 1, r);
      if p.name != name {
        continue;
      }
      if p.architecture == arch {
        r := Some(i);
        TopIsBest(ranks, i, 2);
        ChoiceIsUnique(ranks, r, Best(ranks));
        return;
      }
      if r.None? && (p.architecture == "" || p.architecture == "unknown") {
        r := Some(i);
      }
    }
    assert ranks[..|es|] == ranks;
    LadderDecides(ranks, 1, None, None, r);
    ChoiceIsUnique(ranks, r, Best(ranks));
  }

  /** The entry vagrantVersion.provider returns. */
  function EntryOf(v: Version, name: string, arch: string): Option<Entry> {
    match Best(EntryRanks(v.providers, name, arch))
    case None => None
    case Some(i) => if i < |v.providers| then Some(v.providers[i]) else None
  }

  /** An entry is never for another provider or another architecture. */
  lemma EntryIsUsable(v: Version, name: string, arch: string)
    ensures EntryOf(v, name, arch).Some? ==>
              var e := EntryOf(v, name, arch).value;
              && e in v.providers && e.name == name
              && (e.architecture == arch || e.architecture == "" || e.architecture == "unknown")
              && ((exists x :: x in v.providers && x.name == name && x.architecture == arch) ==> e.architecture == arch)
    ensures EntryOf(v, name, arch).None? ==>
              forall x :: x in v.providers && x.name == name ==>
                x.architecture != arch && x.architecture != "" && x.architecture != "unknown"
  {
    var ranks := EntryRanks(v.providers, name, arch);
    BestIsChoice(ranks);
    forall x | x in v.providers && x.name == name
      ensures exists k :: 0 <= k < |ranks| && v.providers[k] == x && ranks[k] == EntryRank(x, name, arch)
    {
      var k :| 0 <= k < |v.providers| && v.providers[k] == x;
      assert ranks[k] == EntryRank(x, name, arch);
    }
    hide Best;
  }

  predicate Legacy(e: Entry) {
    e.architecture == "" || e.architecture == "unknown"
  }

  /** The entry returned is the first for the name and the architecture; without one, the
      first for the name from before multi-arch boxes. */
  lemma EntryIsFirst(v: Version, name: string, arch: string)
    ensures EntryOf(v, name, arch).Some? ==>
              exists i :: 0 <= i < |v.providers| && EntryOf(v, name, arch).value == v.providers[i]
                && v.providers[i].name == name
                && ((v.providers[i].architecture == arch
                     && forall j :: 0 <= j < i && v.providers[j].name == name ==> v.providers[j].architecture != arch)
                    || (Legacy(v.providers[i])
                        && (forall j :: 0 <= j < |v.providers| && v.providers[j].name == name ==> v.providers[j].architecture != arch)
                        && forall j :: 0 <= j < i && v.providers[j].name == name ==> !Legacy(v.providers[j])))
  {
    if EntryOf(v, name, arch).Some? {
      var i := EntryIsBest(v, name, arch);
      var ranks := EntryRanks(v.providers, name, arch);
      assert forall j :: 0 <= j < |ranks| ==> ranks[j] == EntryRank(v.providers[j], name, arch);
      hide EntryOf;
    }
  }

  /** "" and "latest" ask for the current version, anything else for the first numbered so. */
  lemma VersionsAsked(box: Box, version: string, name: string, arch: string)
    ensures VagrantResolve(box, "", name, arch) == VagrantResolve(box, "latest", name, arch)
    ensures VagrantResolve(box, "", name, arch) ==
              if EntryOf(box.current, name, arch).None? then None
              else Some((box.current.version, EntryOf(box.current, name, arch).value))
    ensures version != "" && version != "latest" && VagrantResolve(box, version, name, arch).Some? ==>
              exists k :: 0 <= k < |box.versions| && box.versions[k].version == version
                && (forall j :: 0 <= j < k ==> box.versions[j].version != version)
                && VagrantResolve(box, version, name, arch).value.0 == version
                && EntryOf(box.versions[k], name, arch) == Some(VagrantResolve(box, version, name, arch).value.1)
  {
    hide EntryOf;
    if version != "" && version != "latest" && VagrantResolve(box, version, name, arch).Some? {
      var k := VersionNamedIs(box.versions, version);
    }
  }

  /** The entry returned is the earliest best of the version's. */
  lemma EntryIsBest(v: Version, name: string, arch: string) returns (i: nat)
    requires EntryOf(v, name, arch).Some?
    ensures i < |v.providers| && IsEarliestBest(EntryRanks(v.providers, name, arch), i)
    ensures EntryOf(v, name, arch) == Some(v.providers[i])
  {
    var ranks := EntryRanks(v.providers, name, arch);
    BestIsChoice(ranks);
    i := Best(ranks).value;
    hide Best, EntryRank;
  }

  /** The first version with the wanted number. */
  function VersionNamed(vs: seq<Version>, version: string): Option<Version> {
    if vs == [] then None
    else if vs[0].version == version then Some(vs[0])
    else VersionNamed(vs[1..], version)
  }

  /** The selection part of vagrantResolve. */
  function VagrantResolve(box: Box, version: string, name: string, arch: string): Option<(string, Entry)> {
    var v := if version == "" || version == "latest" then Some(box.current) else VersionNamed(box.versions, version);
    if v.None? then None
    else
      match EntryOf(v.value, name, arch)
      case None => None
      case Some(e) => Some((v.value.version, e))
  }

  /** The version asked for: the current one, or the first with that number. */
  ghost predicate IsVersion(box: Box, version: string, v: Version) {
    if version == "" || version == "latest" then v == box.current
    else exists k :: 0 <= k < |box.versions| && box.versions[k] == v && FirstNumbered(box.versions, version, k)
  }

  ghost predicate FirstNumbered(vs: seq<Version>, version: string, k: nat) {
    k < |vs| && vs[k].version == version && forall j :: 0 <= j < k ==> vs[j].version != version
  }

  lemma {:induction false} VersionNamedIs(vs: seq<Version>, version: string) returns (k: nat)
    requires VersionNamed(vs, version).Some?
    ensures FirstNumbered(vs, version, k) && vs[k] == VersionNamed(vs, version).value
  {
    if vs[0].version == version {
      k := 0;
    } else {
      var j := VersionNamedIs(vs[1..], version);
      k := j + 1;
    }
  }

  /** The version search of vagrantResolve. */
  method ResolveBox(box: Box, version: string, name: string, arch: string) returns (r: Option<(string, Entry)>)
    ensures r == VagrantResolve(box, version, name, arch)
  {
    hide Best, IsChoice;
    if version == "" || version == "latest" {
      var k := ProviderEntry(box.current.providers, name, arch);
      BestIsIndex(EntryRanks(box.current.providers, name, arch));
      if k.Some? {
        return Some((box.current.version, box.current.providers[k.value]));
      }
      return None;
    }
    for i := 0 to |box.versions|
      invariant VersionNamed(box.versions, version) == VersionNamed(box.versions[i..], version)
    {
      var v := box.versions[i];
      assert box.versions[i..][1..] == box.versions[i + 1..];
      if v.version == version {
        var k := ProviderEntry(v.providers, name, arch);
        BestIsIndex(EntryRanks(v.providers, name, arch));
        if k.Some? {
          return Some((v.version, v.providers[k.value]));
        }
        return None;
      }
    }
    return None;
  }

  lemma BestIsIndex(ranks: seq<nat>)
    ensures Best(ranks).Some? ==> Best(ranks).value < |ranks|
  {
    BestIsChoice(ranks);
    hide Best;
  }
}
