// From an image name to the format that Fetch reports: core/artifact/resolve.go, Resolve,
// which accepts a format, and core/artifact/fetch.go, Fetch, which may report another.
module FetchedFormats {
  import opened Text
  import opened HostFiles
  import opened Hashing
  import opened Provider
  import opened Selection
  import opened Artifacts
  import opened Fetching
  import BoxArchive
  import Download

  /** If the fetch succeeds, the provider accepts the format it reports. */
  predicate Fits<S>(h: Hash<S>, d: Disk, desc: Descriptor, r: Resolved, version: string, dir: string, w: World) {
    var result := FetchOf(h, d, r, version, dir, false, w).0;
    result.Some? ==> Accepts(desc, result.value.format)
  }

  lemma FetchPlans<S>(h: Hash<S>, d: Disk, r: Resolved, version: string, dir: string, w: World)
    requires FetchOf(h, d, r, version, dir, false, w).0.Some?
    ensures PlanOf(r, version, dir, w).Some?
    ensures !r.channel.Vagrant? ==> FetchOf(h, d, r, version, dir, false, w).0.value.format == r.format
  {
    assert PlanOf(r, version, dir, w).Some?;
    PlannedFor(r, version, dir, w);
    hide PlanOf, Download.OutcomeOf, Downloaded, FormatOf, Extracted, BoxArchive.Machine;
  }

  // ---------------------------------------------------- a box with either format

  function AnyEntry(r: Resolved): Entry {
    Entry(r.vagrantProvider, ArchOr(r.arch), "", "", "")
  }

  /** A registry that has every version of the box for this host, and nothing else around. */
  function Stocked(r: Resolved, version: string): World {
    World("d", None, None,
          Some(Box(Version("1", [AnyEntry(r)]), [Version(version, [AnyEntry(r)])])),
          Download.Call("", "", true, true, {}, true, true, true, [], true, true, true, true),
          true, BoxArchive.Mkdir(true, {}), _ => BoxArchive.SmallBox(true))
  }

  lemma OneEntry(v: Version, e: Entry, name: string, arch: string)
    requires v.providers == [e] && e.name == name && e.architecture == arch
    ensures EntryOf(v, name, arch) == Some(e)
  {
    assert v.providers[0] == e;
    EntryIsUsable(v, name, arch);
    hide EntryOf;
    if EntryOf(v, name, arch).Some? {
      var i := EntryIsBest(v, name, arch);
    }
  }

  lemma StockedVersion(r: Resolved, version: string)
    ensures var w := Stocked(r, version);
            var found := VagrantResolve(w.box.value, version, r.vagrantProvider, ArchOr(r.arch));
            found.Some? && found.value.1 == AnyEntry(r)
  {
    var box := Stocked(r, version).box.value;
    hide EntryOf, ArchOr;
    OneEntry(box.current, AnyEntry(r), r.vagrantProvider, ArchOr(r.arch));
    OneEntry(box.versions[0], AnyEntry(r), r.vagrantProvider, ArchOr(r.arch));
    assert VersionNamed(box.versions, version) == Some(box.versions[0]);
  }

  lemma StockedPlan(r: Resolved, version: string, dir: string, ovf: bool)
    requires r.channel.Vagrant? && r.vagrantProvider != ""
    ensures var w := Stocked(r, version);
            && PlanOf(r, version, dir, w).Some? && PlanOf(r, version, dir, w).value.sum == ""
            && PlanOf(r, version, dir, Fair(w, ovf)) == PlanOf(r, version, dir, w)
  {
    StockedVersion(r, version);
    PlanIsPublished(r, version, dir, Fair(Stocked(r, version), ovf), Stocked(r, version));
    hide VagrantResolve, BoxPath, BoxDir;
  }

  lemma EmptyIsNotWanted()
    ensures Download.Wanted("") == ""
  {
  }

  lemma FairFetch<S>(h: Hash<S>, r: Resolved, version: string, dir: string, w: World)
    requires r.channel.Vagrant? && PlanOf(r, version, dir, w).Some?
    requires var p := PlanOf(r, version, dir, w).value;
             && Download.OutcomeOf(h, Disk(map[], {}), CallOf(p, w)).Downloaded? && p.extractTo.Some?
             && BoxArchive.Machine(Extracted(Downloaded(h, Disk(map[], {}), p, w), p, w)).Some?
    ensures FetchOf(h, Disk(map[], {}), r, version, dir, false, w).0.Some?
  {
    hide PlanOf, Download.OutcomeOf, Downloaded, FormatOf, Extracted, BoxArchive.Machine;
  }

  lemma SmallBoxFormat(ovf: bool)
    ensures BoxFormat(BoxArchive.SmallBox(ovf)) == if ovf then OVF else VMX
  {
    var ms := BoxArchive.SmallBox(ovf).members;
    BoxArchive.SmallMemberIs(ovf);
    BoxArchive.NotBoth(BoxArchive.SmallMember(ovf));
    hide BoxArchive.IsOvf, BoxArchive.IsVmx, BoxArchive.Unsafe, BoxArchive.SmallMember;
    assert ms[0] == BoxArchive.SmallMember(ovf);
  }

  /** For either format there is a successful fetch of the box that reports it. */
  lemma FetchedAs<S>(h: Hash<S>, r: Resolved, version: string, dir: string, ovf: bool) returns (w: World)
    requires r.channel.Vagrant? && r.vagrantProvider != "" && '/' !in ArchOr(r.arch)
    ensures var result := FetchOf(h, Disk(map[], {}), r, version, dir, false, w).0;
            result.Some? && result.value.format == if ovf then OVF else VMX
  {
    var stocked := Stocked(r, version);
    w := Fair(stocked, ovf);
    StockedPlan(r, version, dir, ovf);
    EmptyIsNotWanted();
    FairDecodes(stocked, ovf);
    hide PlanOf, FetchOf, Stocked, Fair, ArchOr, Download.OutcomeOf, Download.Wanted, Downloaded, Extracted, BoxArchive.Machine,
         BoxFormat, Extension, BoxArchive.SmallBox, HasSuffix;
    FairBox(h, r, version, dir, stocked, ovf);
    FairDownload(h, PlanOf(r, version, dir, stocked).value, stocked, ovf);
    FairFetch(h, r, version, dir, w);
    BoxFormatIsTrue(h, Disk(map[], {}), r, version, dir, w);
    SmallBoxFormat(ovf);
  }

  lemma FairDecodes(w: World, ovf: bool)
    ensures forall data :: Fair(w, ovf).decode(data) == BoxArchive.SmallBox(ovf)
  {
  }

  lemma BoxIsOvfOrVmx<S>(h: Hash<S>, d: Disk, r: Resolved, version: string, dir: string, w: World)
    requires r.channel.Vagrant? && FetchOf(h, d, r, version, dir, false, w).0.Some?
    ensures FetchOf(h, d, r, version, dir, false, w).0.value.format in [OVF, VMX]
  {
    BoxFormatIsTrue(h, d, r, version, dir, w);
    hide FetchOf, PlanOf, Downloaded, BoxOf, HoldsOvf, Extension, HasSuffix;
  }

  // ------------------------------------------------------------------ the law

  /** What Resolve promises of an image's format holds of every successful fetch of it, on
      every disk and in every world, if and only if it is no box, or the provider accepts
      both OVF and VMX. */
  lemma FetchedFormatFitsIff<S>(h: Hash<S>, catalog: seq<Source>, image: string, desc: Descriptor, goarch: string,
                                version: string, dir: string)
    requires Serviceable(catalog) && goarch != "" && '/' !in HostArch(desc, goarch)
    requires ResolveIn(catalog, image, desc, goarch).Success?
    ensures var r := ResolveIn(catalog, image, desc, goarch).value;
            (forall d, w :: Fits(h, d, desc, r, version, dir, w))
            <==> (r.channel.Vagrant? ==> OVF in desc.formats && VMX in desc.formats)
  {
    var r := ResolveIn(catalog, image, desc, goarch).value;
    ResolvedFeedsFetch(catalog, image, desc, goarch);
    ResolvedFor(catalog, image, desc, goarch);
    hide ResolveIn, FetchOf, Serviceable, HostArch, HasPrefix;
    if r.channel.Vagrant? {
      BoxFitsIff(h, desc, r, version, dir);
    } else {
      forall d, w ensures Fits(h, d, desc, r, version, dir, w) {
        if FetchOf(h, d, r, version, dir, false, w).0.Some? {
          FetchPlans(h, d, r, version, dir, w);
        }
      }
    }
  }

  lemma ResolvedFor(catalog: seq<Source>, image: string, desc: Descriptor, goarch: string)
    requires ResolveIn(catalog, image, desc, goarch).Success? && goarch != ""
    ensures var r := ResolveIn(catalog, image, desc, goarch).value;
            ArchOr(r.arch) == HostArch(desc, goarch) && (HasPrefix(image, "vagrant:") ==> r.channel.Vagrant?)
  {
    hide SourceNamed, PickOf, ReplaceAll, Accepts, HasPrefix;
  }

  lemma BoxFitsIff<S>(h: Hash<S>, desc: Descriptor, r: Resolved, version: string, dir: string)
    requires r.channel.Vagrant? && r.vagrantProvider != "" && '/' !in ArchOr(r.arch)
    ensures (forall d, w :: Fits(h, d, desc, r, version, dir, w)) <==> OVF in desc.formats && VMX in desc.formats
  {
    hide FetchOf, ArchOr;
    if OVF in desc.formats && VMX in desc.formats {
      forall d, w ensures Fits(h, d, desc, r, version, dir, w) {
        if FetchOf(h, d, r, version, dir, false, w).0.Some? {
          BoxIsOvfOrVmx(h, d, r, version, dir, w);
        }
      }
    } else {
      var w := FetchedAs(h, r, version, dir, OVF !in desc.formats);
      assert !Fits(h, Disk(map[], {}), desc, r, version, dir, w);
    }
  }

  // --------------------------------------------------------- an input that fails

  /** What VMware reports where ovftool is missing. */
  predicate WithoutOvftool(desc: Descriptor) {
    (desc.kind.Fusion? || desc.kind.Workstation?) && desc.formats == [VMX, VMDK, ISO]
  }

  lemma UbuntuSource()
    ensures !HasPrefix("ubuntu", "vagrant:")
    ensures SourceNamed(Catalog(), "ubuntu") == Some(VagrantSource("ubuntu", "bento/ubuntu-24.04"))
  {
    var before := [Talos(), TalosIso(), WindowsDev(), UbuntuCloudImage(), TurnKeyCore()];
    assert |"ubuntu"| == 6 && |"vagrant:"| == 8;
    OtherNames();
    assert Catalog() == before + VagrantSources();
    FirstVagrantSource();
    VagrantSourceName();
    hide *;
    assert forall i :: 0 <= i < |before| ==> before[i].name != "ubuntu";
    SkipsOthers(before, VagrantSources(), "ubuntu");
    FirstIsFound(VagrantSources(), "ubuntu");
  }

  lemma OtherNames()
    ensures Talos().name != "ubuntu" && TalosIso().name != "ubuntu" && WindowsDev().name != "ubuntu"
    ensures UbuntuCloudImage().name != "ubuntu" && TurnKeyCore().name != "ubuntu"
  {
    hide TalosRepo, TalosSchematic;
    assert |"ubuntu"| == 6;
    assert |"talos"| == 5 && |"talos-iso"| == 9 && |"windows-dev"| == 11 && |"ubuntu-cloud"| == 12 && |"turnkey-core"| == 12;
  }

  lemma FirstVagrantSource()
    ensures VagrantSources() != [] && VagrantSources()[0] == VagrantSource("ubuntu", "bento/ubuntu-24.04")
  {
    hide VagrantSource;
  }

  lemma FirstIsFound(ss: seq<Source>, name: string)
    requires ss != [] && ss[0].name == name
    ensures SourceNamed(ss, name) == Some(ss[0])
  {
  }

  lemma VagrantSourceName()
    ensures VagrantSource("ubuntu", "bento/ubuntu-24.04").name == "ubuntu"
  {
  }

  lemma {:induction false} SkipsOthers(before: seq<Source>, rest: seq<Source>, name: string)
    requires forall i :: 0 <= i < |before| ==> before[i].name != name
    ensures SourceNamed(before + rest, name) == SourceNamed(rest, name)
  {
    if before == [] {
      assert before + rest == rest;
    } else {
      assert (before + rest)[1..] == before[1..] + rest;
      SkipsOthers(before[1..], rest, name);
    }
  }

  /** How a box of the catalog resolves. */
  lemma ResolvedBox(catalog: seq<Source>, image: string, desc: Descriptor, goarch: string, box: string)
    requires !HasPrefix(image, "vagrant:") && SourceNamed(catalog, image) == Some(VagrantSource(image, box))
    requires VagrantProvider(desc.kind) != "" && Accepts(desc, VagrantFormat(Family(desc.kind)))
    ensures var result := ResolveIn(catalog, image, desc, goarch);
            result.Success? && result.value.channel.Vagrant? && result.value.format == VagrantFormat(Family(desc.kind))
  {
    var vs := VagrantSource(image, box).variants;
    assert Specificity(vs[0].tag, Family(desc.kind), HostArch(desc, goarch)) > 0;
    PickIsBest(vs, Family(desc.kind), HostArch(desc, goarch));
    hide SourceNamed, PickOf, ReplaceAll, HasPrefix, Accepts, VagrantFormat, VagrantProvider, Family;
  }

  /** Without ovftool, VMware accepts the image "ubuntu" as VMX, and a fetch of it may
      report OVF, which VMware then does not accept. */
  lemma UbuntuMayNotFit<S>(h: Hash<S>, desc: Descriptor, goarch: string, version: string, dir: string)
    requires WithoutOvftool(desc) && goarch != "" && '/' !in HostArch(desc, goarch)
    ensures var result := ResolveIn(Catalog(), "ubuntu", desc, goarch);
            && result.Success? && result.value.format == VMX
            && !forall d, w :: Fits(h, d, desc, result.value, version, dir, w)
  {
    hide *;
    UbuntuSource();
    VmwareBoxes(desc);
    CatalogIsServiceable();
    ResolvedBox(Catalog(), "ubuntu", desc, goarch, "bento/ubuntu-24.04");
    FetchedFormatFitsIff(h, Catalog(), "ubuntu", desc, goarch, version, dir);
  }

  lemma VmwareBoxes(desc: Descriptor)
    requires WithoutOvftool(desc)
    ensures VagrantProvider(desc.kind) != "" && VagrantFormat(Family(desc.kind)) == VMX && Accepts(desc, VMX)
    ensures OVF !in desc.formats
  {
  }
}
