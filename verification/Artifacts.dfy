// core/artifact/resolve.go: the catalog and Resolve.
module Artifacts {
  import opened Text
  import opened Provider
  import opened Selection

  /** How an artifact is located. Unset is Go's "" in a variant: use the source's kind. */
  datatype Channel = Unset | GitHubAsset | URL | Vagrant | UbuntuCloud | TalosFactory

  /** The kinds Fetch has a case for. */
  predicate Fetchable(c: Channel) {
    !c.Unset?
  }

  datatype Variant = Variant(tag: Tag, channel: Channel, locator: string, asset: string, format: Format)

  datatype Source = Source(name: string, channel: Channel, variants: seq<Variant>)

  datatype Resolved = Resolved(
    source: string, channel: Channel, locator: string, asset: string, format: Format, arch: string, vagrantProvider: string)

  datatype Error = NoVariant(image: string, family: string, arch: string) | UnknownImage(image: string) | NotAccepted(image: string, format: Format)

  datatype Result = Success(value: Resolved) | Failure(error: Error)

  function TalosRepo(): string {
    "siderolabs/talos"
  }

  /** Image Factory's ID for the empty schematic. */
  function TalosSchematic(): string {
    "376567988ad370138ad8b2698212367b8edcb69b5fd68c80be1f2ec7d603b4ba"
  }

  const ANY := Tag("", "")

  function VagrantSource(name: string, box: string): Source {
    Source(name, Vagrant, [Variant(ANY, Unset, box, "", OVF)])
  }

  function Talos(): Source {
    Source("talos", GitHubAsset, [
             Variant(Tag("virtualbox", ""), Unset, TalosRepo(), "metal-{arch}.iso", ISO),
             Variant(Tag("vmware", ""), TalosFactory, TalosSchematic(), "vmware-{arch}.ova", OVA)])
  }

  function TalosIso(): Source {
    Source("talos-iso", GitHubAsset, [Variant(ANY, Unset, TalosRepo(), "metal-{arch}.iso", ISO)])
  }

  function WindowsDev(): Source {
    Source("windows-dev", URL, [
             Variant(Tag("virtualbox", "amd64"), Unset, "https://aka.ms/windev_VM_virtualbox", "", OVA),
             Variant(Tag("vmware", "amd64"), Unset, "https://aka.ms/windev_VM_vmware", "", OVA)])
  }

  function UbuntuCloudImage(): Source {
    Source("ubuntu-cloud", UbuntuCloud, [Variant(ANY, Unset, "", "", OVA)])
  }

  function TurnKeyCore(): Source {
    Source("turnkey-core", URL, [
             Variant(Tag("", "amd64"), Unset,
                     "https://mirror.turnkeylinux.org/turnkeylinux/images/ova/turnkey-core-18.1-bookworm-amd64.ova",
                     "", OVA)])
  }

  function VagrantSources(): seq<Source> {
    [ VagrantSource("ubuntu", "bento/ubuntu-24.04"),
      VagrantSource("debian", "bento/debian-12"),
      VagrantSource("fedora", "bento/fedora-41"),
      VagrantSource("rocky", "bento/rockylinux-9"),
      VagrantSource("alma", "bento/almalinux-9"),
      VagrantSource("opensuse", "bento/opensuse-leap-15"),
      VagrantSource("freebsd", "bento/freebsd-14"),
      VagrantSource("kali", "kalilinux/rolling")
    ]
  }

  function Catalog(): seq<Source> {
    [Talos(), TalosIso(), WindowsDev(), UbuntuCloudImage(), TurnKeyCore()] + VagrantSources()
  }

  /** What a box holds once extracted. */
  function VagrantFormat(family: string): Format {
    if family == "vmware" then VMX else OVF
  }

  // -------------------------------------------------------------- what it does

  function TagsOf(vs: seq<Variant>): (ts: seq<Tag>)
    ensures |ts| == |vs|
    ensures forall i :: 0 <= i < |vs| ==> ts[i] == vs[i].tag
  {
    seq(|vs|, i requires 0 <= i < |vs| => vs[i].tag)
  }

  /** The variant pick returns. */
  function PickOf(vs: seq<Variant>, family: string, arch: string): Option<Variant> {
    match Best(Specificities(TagsOf(vs), family, arch))
    case None => None
    case Some(i) => if i < |vs| then Some(vs[i]) else None
  }

  function SourceNamed(ss: seq<Source>, name: string): Option<Source> {
    if ss == [] then None
    else if ss[0].name == name then Some(ss[0])
    else SourceNamed(ss[1..], name)
  }

  /** Resolve, for a catalog and the architecture the program was built for. */
  function ResolveIn(catalog: seq<Source>, image: string, d: Descriptor, goarch: string): Result {
    var arch := HostArch(d, goarch);
    var family := Family(d.kind);
    var vp := VagrantProvider(d.kind);
    if HasPrefix(image, "vagrant:") then
      if vp == "" then Failure(NoVariant(image, family, arch))
      else Success(Resolved(image, Vagrant, TrimPrefix(image, "vagrant:"), "", VagrantFormat(family), arch, vp))
    else
      match SourceNamed(catalog, image)
      case None => Failure(UnknownImage(image))
      case Some(src) =>
        match PickOf(src.variants, family, arch)
        case None => Failure(NoVariant(image, family, arch))
        case Some(v) =>
          var channel := if v.channel.Unset? then src.channel else v.channel;
          var r := Resolved(src.name, channel, v.locator, ReplaceAll(v.asset, "{arch}", arch), v.format, arch, "");
          if src.channel.Vagrant? && vp == "" then Failure(NoVariant(image, family, arch))
          else
            var s := if src.channel.Vagrant? then r.(vagrantProvider := vp, format := VagrantFormat(family)) else r;
            if Accepts(d, s.format) then Success(s) else Failure(NotAccepted(image, s.format))
  }

  // ----------------------------------------------------------------- the code

  /** Resolve. */
  method Resolve(image: string, d: Descriptor, goarch: string) returns (result: Result)
    ensures result == ResolveIn(Catalog(), image, d, goarch)
  {
    hide Catalog, ReplaceAll, Best;
    var arch := d.hostArch;
    if arch == "" {
      arch := goarch;
    }
    var family := Family(d.kind);
    if HasPrefix(image, "vagrant:") {
      var box := TrimPrefix(image, "vagrant:");
      var vp := VagrantProvider(d.kind);
      if vp == "" {
        return Failure(NoVariant(image, family, arch));
      }
      return Success(Resolved(image, Vagrant, box, "", VagrantFormat(family), arch, vp));
    }
    var cat := Catalog();
    var src: Option<Source> := None;
    for i := 0 to |cat|
      invariant src == None && SourceNamed(cat, image) == SourceNamed(cat[i..], image)
    {
      if cat[i].name == image {
        src := Some(cat[i]);
        break;
      }
    }
    if src.None? {
      return Failure(UnknownImage(image));
    }
    var picked := Pick(TagsOf(src.value.variants), family, arch);
    BestIsChoice(Specificities(TagsOf(src.value.variants), family, arch));
    if picked.None? {
      return Failure(NoVariant(image, family, arch));
    }
    var v := src.value.variants[picked.value];
    var channel := src.value.channel;
    if !v.channel.Unset? {
      channel := v.channel;
    }
    var r := Resolved(src.value.name, channel, v.locator, ReplaceAll(v.asset, "{arch}", arch), v.format, arch, "");
    if src.value.channel.Vagrant? {
      var vp := VagrantProvider(d.kind);
      if vp == "" {
        return Failure(NoVariant(image, family, arch));
      }
      r := r.(vagrantProvider := vp);
      r := r.(format := VagrantFormat(family));
    }
    if !Accepts(d, r.format) {
      return Failure(NotAccepted(image, r.format));
    }
    return Success(r);
  }

  // ------------------------------------------------------------------ the laws

  /** A catalog Fetch can serve: every variant comes to a kind it handles, and boxes are
      not mixed with other channels. */
  predicate Serviceable(ss: seq<Source>) {
    forall i :: 0 <= i < |ss| ==> ServiceableSource(ss[i])
  }

  predicate ServiceableSource(s: Source) {
    Fetchable(s.channel)
    && forall j :: 0 <= j < |s.variants| ==>
         !s.variants[j].channel.Vagrant? && (s.channel.Vagrant? ==> s.variants[j].channel.Unset?)
  }

  lemma CatalogIsServiceable()
    ensures Serviceable(Catalog())
  {
    hide VagrantSources, Talos, TalosIso, WindowsDev, UbuntuCloudImage, TurnKeyCore, ServiceableSource;
    VagrantSourcesAreServiceable();
    TalosIsServiceable();
    OthersAreServiceable();
  }

  lemma TalosIsServiceable()
    ensures ServiceableSource(Talos()) && ServiceableSource(TalosIso())
  {
    hide TalosRepo, TalosSchematic;
  }

  lemma OthersAreServiceable()
    ensures ServiceableSource(WindowsDev()) && ServiceableSource(UbuntuCloudImage()) && ServiceableSource(TurnKeyCore())
  {
  }

  lemma VagrantSourcesAreServiceable()
    ensures Serviceable(VagrantSources())
  {
    assert forall name, box :: ServiceableSource(VagrantSource(name, box));
    hide VagrantSource, ServiceableSource;
  }

  lemma {:induction false} SourceNamedIs(ss: seq<Source>, name: string)
    ensures SourceNamed(ss, name).Some? ==> SourceNamed(ss, name).value in ss && SourceNamed(ss, name).value.name == name
    ensures SourceNamed(ss, name).None? ==> forall s :: s in ss ==> s.name != name
  {
    if ss != [] {
      SourceNamedIs(ss[1..], name);
    }
  }

  /** pick's variant is the earliest of maximal specificity, and there is none only when
      no variant applies. */
  lemma PickIsBest(vs: seq<Variant>, family: string, arch: string)
    ensures PickOf(vs, family, arch).None? <==> forall j :: 0 <= j < |vs| ==> Specificity(vs[j].tag, family, arch) == 0
    ensures PickOf(vs, family, arch).Some? ==>
              exists i :: 0 <= i < |vs| && PickOf(vs, family, arch).value == vs[i]
                && (forall j :: 0 <= j < |vs| ==> Specificity(vs[j].tag, family, arch) <= Specificity(vs[i].tag, family, arch))
                && (forall j :: 0 <= j < i ==> Specificity(vs[j].tag, family, arch) < Specificity(vs[i].tag, family, arch))
  {
    var ranks := Specificities(TagsOf(vs), family, arch);
    BestIsChoice(ranks);
    assert forall j :: 0 <= j < |vs| ==> ranks[j] == Specificity(vs[j].tag, family, arch);
    hide Best, Specificity;
  }

  /** The hand-off to Fetch: a successful resolution has a kind Fetch handles, a registry
      name exactly when it is a box, and, when it came from the catalog, a format the
      provider accepts and a variant that is the best match. */
  lemma ResolvedFeedsFetch(catalog: seq<Source>, image: string, d: Descriptor, goarch: string)
    requires Serviceable(catalog) && goarch != ""
    requires ResolveIn(catalog, image, d, goarch).Success?
    ensures var r := ResolveIn(catalog, image, d, goarch).value;
            && Fetchable(r.channel) && r.arch != ""
            && (r.channel.Vagrant? <==> r.vagrantProvider != "")
            && (r.channel.Vagrant? ==> r.vagrantProvider in ["virtualbox", "vmware_desktop"])
            && (!HasPrefix(image, "vagrant:") ==> Accepts(d, r.format) && r.source == image)
  {
    hide ReplaceAll, Specificity, Specificities, Best;
    SourceNamedIs(catalog, image);
    if !HasPrefix(image, "vagrant:") {
      var src := SourceNamed(catalog, image).value;
      var i :| 0 <= i < |catalog| && catalog[i] == src;
      assert ServiceableSource(catalog[i]);
      PickIsBest(src.variants, Family(d.kind), HostArch(d, goarch));
    }
  }

  /** The architecture resolved for. */
  function HostArch(d: Descriptor, goarch: string): string {
    if d.hostArch == "" then goarch else d.hostArch
  }

  /** A typo is told apart from a capability gap: an image is unknown exactly when it is
      neither a registry name nor in the catalog. */
  lemma UnknownIff(catalog: seq<Source>, image: string, d: Descriptor, goarch: string)
    ensures ResolveIn(catalog, image, d, goarch) == Failure(UnknownImage(image))
            <==> !HasPrefix(image, "vagrant:") && forall s :: s in catalog ==> s.name != image
  {
    hide ReplaceAll, Specificities, Best;
    SourceNamedIs(catalog, image);
  }

  /** Fusion and Workstation resolve every image to the same result. */
  lemma FusionAndWorkstationAgree(catalog: seq<Source>, image: string, d: Descriptor, goarch: string)
    ensures ResolveIn(catalog, image, d.(kind := Fusion), goarch) == ResolveIn(catalog, image, d.(kind := Workstation), goarch)
  {
    hide ReplaceAll, Specificities, Best;
  }

  lemma TalosSource()
    ensures !HasPrefix("talos", "vagrant:")
    ensures SourceNamed(Catalog(), "talos") == Some(Talos())
  {
    TalosFacts("vmware");
    hide VagrantSources, Talos, TalosIso, WindowsDev, UbuntuCloudImage, TurnKeyCore;
    assert Catalog()[0] == Talos();
    hide Catalog;
  }

  /** What a name in the catalog resolves to, when it is not a box. */
  lemma ResolvedVariant(catalog: seq<Source>, image: string, d: Descriptor, goarch: string, src: Source, v: Variant)
    requires !HasPrefix(image, "vagrant:") && SourceNamed(catalog, image) == Some(src) && !src.channel.Vagrant?
    requires PickOf(src.variants, Family(d.kind), HostArch(d, goarch)) == Some(v)
    ensures ResolveIn(catalog, image, d, goarch) ==
              if !Accepts(d, v.format) then Failure(NotAccepted(image, v.format))
              else
                Success(Resolved(src.name, if v.channel.Unset? then src.channel else v.channel, v.locator,
                                 ReplaceAll(v.asset, "{arch}", HostArch(d, goarch)), v.format, HostArch(d, goarch), ""))
  {
    hide PickOf, SourceNamed, ReplaceAll, HasPrefix, Family;
  }

  lemma TalosPick(family: string, arch: string)
    requires family == "virtualbox" || family == "vmware"
    requires arch != ""
    ensures PickOf(Talos().variants, family, arch) == Some(Talos().variants[if family == "vmware" then 1 else 0])
  {
    var vs := Talos().variants;
    assert "vmware" != "virtualbox" by { assert |"vmware"| == 6 && |"virtualbox"| == 10; }
    assert vs[0].tag == Tag("virtualbox", "") && vs[1].tag == Tag("vmware", "");
    PickIsBest(vs, family, arch);
    hide PickOf;
  }

  lemma TalosAssets(arch: string)
    ensures ReplaceAll("metal-{arch}.iso", "{arch}", arch) == "metal-" + arch + ".iso"
    ensures ReplaceAll("vmware-{arch}.ova", "{arch}", arch) == "vmware-" + arch + ".ova"
  {
    Placeholders();
    hide *;
    ReplaceOne("metal-", "{arch}", ".iso", arch);
    ReplaceOne("vmware-", "{arch}", ".ova", arch);
  }

  lemma Placeholders()
    ensures "metal-" + "{arch}" + ".iso" == "metal-{arch}.iso" && "vmware-" + "{arch}" + ".ova" == "vmware-{arch}.ova"
    ensures "{arch}" != "" && "{arch}"[0] == '{'
    ensures '{' !in "metal-" && '{' !in ".iso" && '{' !in "vmware-" && '{' !in ".ova"
  {
  }

  /** The Talos image for a family and an architecture. */
  function TalosFor(family: string, arch: string): Resolved {
    if family == "vmware"
    then
      Resolved("talos", TalosFactory, "376567988ad370138ad8b2698212367b8edcb69b5fd68c80be1f2ec7d603b4ba",
               "vmware-" + arch + ".ova", OVA, arch, "")
    else Resolved("talos", GitHubAsset, "siderolabs/talos", "metal-" + arch + ".iso", ISO, arch, "")
  }

  lemma TalosForIs(family: string, arch: string)
    ensures var v := Talos().variants[if family == "vmware" then 1 else 0];
            && v.format == TalosFor(family, arch).format
            && TalosFor(family, arch) ==
               Resolved(Talos().name, if v.channel.Unset? then Talos().channel else v.channel, v.locator,
                        ReplaceAll(v.asset, "{arch}", arch), v.format, arch, "")
  {
    TalosAssets(arch);
    TalosFacts(family);
    TalosPlaces();
    hide Talos, TalosSchematic, TalosRepo, ReplaceAll;
  }

  lemma TalosPlaces()
    ensures TalosSchematic() == "376567988ad370138ad8b2698212367b8edcb69b5fd68c80be1f2ec7d603b4ba"
    ensures TalosRepo() == "siderolabs/talos"
  {
  }

  lemma HostArchIsKnown(d: Descriptor, goarch: string)
    requires goarch != ""
    ensures HostArch(d, goarch) != ""
  {
  }

  lemma FamilyIs(k: Kind)
    ensures Family(k) == "vmware" || Family(k) == "virtualbox"
  {
  }

  /** What the Talos image resolves to: the metal ISO from GitHub on VirtualBox, the Image
      Factory OVA on VMware, each for the host's architecture; an error exactly when the
      provider does not accept that format. */
  lemma TalosPerFamily(d: Descriptor, goarch: string)
    requires goarch != ""
    ensures var r := TalosFor(Family(d.kind), HostArch(d, goarch));
            ResolveIn(Catalog(), "talos", d, goarch) ==
              if r.format in d.formats then Success(r) else Failure(NotAccepted("talos", r.format))
  {
    hide *;
    var family, arch := Family(d.kind), HostArch(d, goarch);
    HostArchIsKnown(d, goarch);
    FamilyIs(d.kind);
    TalosFacts(family);
    TalosSource();
    TalosPick(family, arch);
    TalosForIs(family, arch);
    AcceptsIs(d, TalosFor(family, arch).format);
    ResolvedVariant(Catalog(), "talos", d, goarch, Talos(), Talos().variants[if family == "vmware" then 1 else 0]);
  }

  lemma AcceptsIs(d: Descriptor, f: Format)
    ensures Accepts(d, f) <==> f in d.formats
  {
  }

  lemma TalosFacts(family: string)
    ensures Talos().name == "talos" && Talos().channel == GitHubAsset && |Talos().variants| == 2
    ensures var v := Talos().variants[if family == "vmware" then 1 else 0];
            if family == "vmware" then v.channel == TalosFactory && v.locator == TalosSchematic() && v.asset == "vmware-{arch}.ova" && v.format == OVA
            else v.channel == Unset && v.locator == TalosRepo() && v.asset == "metal-{arch}.iso" && v.format == ISO
  {
    hide TalosRepo, TalosSchematic;
  }

  // ---------------------------------------------------------- boxes, kind by kind

  /** A `vagrant:` image: the box named after the colon, for the host's architecture, under
      the provider's name in the registry; VirtualBox boxes hold an OVF, VMware's a VMX. */
  lemma NamedBoxPerKind(catalog: seq<Source>, box: string, d: Descriptor, goarch: string)
    ensures var image, arch := "vagrant:" + box, if d.hostArch == "" then goarch else d.hostArch;
            var result := ResolveIn(catalog, image, d, goarch);
            match d.kind
            case VirtualBox => result == Success(Resolved(image, Vagrant, box, "", OVF, arch, "virtualbox"))
            case Fusion => result == Success(Resolved(image, Vagrant, box, "", VMX, arch, "vmware_desktop"))
            case Workstation => result == Success(Resolved(image, Vagrant, box, "", VMX, arch, "vmware_desktop"))
            case OtherKind(_) => result == Failure(NoVariant(image, "virtualbox", arch))
  {
    AffixesAre("", "vagrant:", box);
    assert |"virtualbox"| == 10 && |"vmware_desktop"| == 14 && |"vmware"| == 6;
    hide HasPrefix, TrimPrefix, SourceNamed, PickOf, ReplaceAll;
  }

  /** A box of the catalog: the best variant's locator, with the same names and formats;
      an error when the provider does not accept the format, or has no boxes at all. */
  lemma CatalogBoxPerKind(catalog: seq<Source>, image: string, d: Descriptor, goarch: string, src: Source)
    requires !HasPrefix(image, "vagrant:") && SourceNamed(catalog, image) == Some(src)
    requires src.channel.Vagrant? && ServiceableSource(src)
    ensures var arch := if d.hostArch == "" then goarch else d.hostArch;
            var result := ResolveIn(catalog, image, d, goarch);
            var v := PickOf(src.variants, if d.kind.Fusion? || d.kind.Workstation? then "vmware" else "virtualbox", arch);
            && (result.Success? ==>
                  && v.Some? && result.value.channel == Vagrant
                  && result.value.source == src.name && result.value.locator == v.value.locator && result.value.arch == arch
                  && ((d.kind.VirtualBox? && result.value.vagrantProvider == "virtualbox" && result.value.format == OVF)
                      || ((d.kind.Fusion? || d.kind.Workstation?)
                          && result.value.vagrantProvider == "vmware_desktop" && result.value.format == VMX)))
            && (d.kind.OtherKind? ==> result == Failure(NoVariant(image, "virtualbox", arch)))
            && (!d.kind.OtherKind? && v.Some? ==>
                  var f := if d.kind.VirtualBox? then OVF else VMX;
                  if f in d.formats then result.Success? else result == Failure(NotAccepted(image, f)))
  {
    var family, arch := Family(d.kind), HostArch(d, goarch);
    PickIsBest(src.variants, family, arch);
    assert |"virtualbox"| == 10 && |"vmware_desktop"| == 14 && |"vmware"| == 6;
    hide HasPrefix, SourceNamed, PickOf, ReplaceAll, Specificity;
  }

  /** The catalog's boxes. */
  lemma CatalogBoxes()
    ensures var boxes := [("ubuntu", "bento/ubuntu-24.04"), ("debian", "bento/debian-12"), ("fedora", "bento/fedora-41"),
                          ("rocky", "bento/rockylinux-9"), ("alma", "bento/almalinux-9"),
                          ("opensuse", "bento/opensuse-leap-15"), ("freebsd", "bento/freebsd-14"),
                          ("kali", "kalilinux/rolling")];
            && |VagrantSources()| == |boxes|
            && forall i :: 0 <= i < |boxes| ==>
                 && VagrantSources()[i].name == boxes[i].0 && VagrantSources()[i].channel == Vagrant
                 && |VagrantSources()[i].variants| == 1
                 && VagrantSources()[i].variants[0] == Variant(Tag("", ""), Unset, boxes[i].1, "", OVF)
  {
    BoxSource("ubuntu", "bento/ubuntu-24.04");
    BoxSource("debian", "bento/debian-12");
    BoxSource("fedora", "bento/fedora-41");
    BoxSource("rocky", "bento/rockylinux-9");
    BoxSource("alma", "bento/almalinux-9");
    BoxSource("opensuse", "bento/opensuse-leap-15");
    BoxSource("freebsd", "bento/freebsd-14");
    BoxSource("kali", "kalilinux/rolling");
    hide VagrantSource;
  }

  lemma BoxSource(name: string, box: string)
    ensures var s := VagrantSource(name, box);
            s.name == name && s.channel == Vagrant && |s.variants| == 1
            && s.variants[0] == Variant(Tag("", ""), Unset, box, "", OVF)
  {
  }

  // -------------------------------------------------- the other images, each by name

  lemma DifferentNames()
    ensures "talos" != "talos-iso" && "talos" != "windows-dev" && "talos" != "ubuntu-cloud" && "talos" != "turnkey-core"
    ensures "talos-iso" != "windows-dev" && "talos-iso" != "ubuntu-cloud" && "talos-iso" != "turnkey-core"
    ensures "windows-dev" != "ubuntu-cloud" && "windows-dev" != "turnkey-core" && "ubuntu-cloud" != "turnkey-core"
    ensures !HasPrefix("talos-iso", "vagrant:") && !HasPrefix("windows-dev", "vagrant:")
    ensures !HasPrefix("ubuntu-cloud", "vagrant:") && !HasPrefix("turnkey-core", "vagrant:")
  {
    assert |"talos"| == 5 && |"talos-iso"| == 9 && |"windows-dev"| == 11 && |"ubuntu-cloud"| == |"turnkey-core"| == 12;
    assert "ubuntu-cloud"[0] == 'u' && "turnkey-core"[0] == 't' && "talos-iso"[0] == 't' && "windows-dev"[0] == 'w';
    assert "vagrant:"[0] == 'v';
  }

  lemma OtherSources()
    ensures Talos().name == "talos" && TalosIso().name == "talos-iso" && WindowsDev().name == "windows-dev"
    ensures UbuntuCloudImage().name == "ubuntu-cloud" && TurnKeyCore().name == "turnkey-core"
    ensures TalosIso().channel == GitHubAsset && WindowsDev().channel == URL && UbuntuCloudImage().channel == UbuntuCloud
    ensures TurnKeyCore().channel == URL
  {
    hide TalosRepo, TalosSchematic;
  }

  lemma SourcesAreFound()
    ensures SourceNamed(Catalog(), "talos-iso") == Some(TalosIso())
    ensures SourceNamed(Catalog(), "windows-dev") == Some(WindowsDev())
    ensures SourceNamed(Catalog(), "ubuntu-cloud") == Some(UbuntuCloudImage())
    ensures SourceNamed(Catalog(), "turnkey-core") == Some(TurnKeyCore())
  {
    hide *;
    var first := [Talos(), TalosIso(), WindowsDev(), UbuntuCloudImage(), TurnKeyCore()];
    CatalogIs();
    DifferentNames();
    OtherSources();
    FoundAt(first, VagrantSources(), 1);
    FoundAt(first, VagrantSources(), 2);
    FoundAt(first, VagrantSources(), 3);
    FoundAt(first, VagrantSources(), 4);
  }

  lemma CatalogIs()
    ensures Catalog() == [Talos(), TalosIso(), WindowsDev(), UbuntuCloudImage(), TurnKeyCore()] + VagrantSources()
  {
    hide Talos, TalosIso, WindowsDev, UbuntuCloudImage, TurnKeyCore, VagrantSources;
  }

  lemma {:induction false} FoundAt(first: seq<Source>, rest: seq<Source>, k: nat)
    requires k < |first| && forall j :: 0 <= j < k ==> first[j].name != first[k].name
    ensures SourceNamed(first + rest, first[k].name) == Some(first[k])
  {
    assert (first + rest)[1..] == first[1..] + rest;
    if k > 0 {
      assert forall j :: 1 <= j < |first| ==> first[j] == first[1..][j - 1];
      FoundAt(first[1..], rest, k - 1);
    }
  }

  /** A single variant is picked when its tag applies. */
  lemma OnlyVariant(v: Variant, family: string, arch: string)
    ensures PickOf([v], family, arch) ==
              if (v.tag.family == family || v.tag.family == "") && (v.tag.arch == arch || v.tag.arch == "") then Some(v) else None
  {
    var ranks := Specificities(TagsOf([v]), family, arch);
    assert [v][0] == v && TagsOf([v])[0] == v.tag && ranks[0] == Specificity(v.tag, family, arch);
    assert ranks == [ranks[0]];
    BestOfOne(ranks[0]);
  }

  lemma BestOfOne(r: nat)
    ensures Best([r]) == if r == 0 then None else Some(0)
  {
    assert [r][..0] == [];
  }

  /** What an image that is no box resolves to, from its one variant. */
  lemma SingleImage(catalog: seq<Source>, image: string, d: Descriptor, goarch: string, src: Source, v: Variant)
    requires !HasPrefix(image, "vagrant:") && SourceNamed(catalog, image) == Some(src) && !src.channel.Vagrant?
    requires |src.variants| == 1 && src.variants[0] == v && v.tag.family == "" && v.channel.Unset?
    ensures var arch := if d.hostArch == "" then goarch else d.hostArch;
            ResolveIn(catalog, image, d, goarch) ==
              if v.tag.arch != arch && v.tag.arch != "" then Failure(NoVariant(image, Family(d.kind), arch))
              else if v.format !in d.formats then Failure(NotAccepted(image, v.format))
              else Success(Resolved(src.name, src.channel, v.locator, ReplaceAll(v.asset, "{arch}", arch), v.format, arch, ""))
  {
    OnlyVariant(v, Family(d.kind), HostArch(d, goarch));
    assert src.variants == [v];
    hide PickOf, SourceNamed, ReplaceAll, HasPrefix, Family;
  }

  lemma NothingReplaced(arch: string)
    ensures ReplaceAll("", "{arch}", arch) == ""
  {
    assert "{arch}" != "";
  }

  /** "talos-iso", "ubuntu-cloud" and "turnkey-core" resolve alike for every kind. */
  lemma PlainImages(d: Descriptor, goarch: string)
    ensures var arch := if d.hostArch == "" then goarch else d.hostArch;
            && ResolveIn(Catalog(), "talos-iso", d, goarch) ==
                 (if ISO !in d.formats then Failure(NotAccepted("talos-iso", ISO))
                  else Success(Resolved("talos-iso", GitHubAsset, "siderolabs/talos", "metal-" + arch + ".iso", ISO, arch, "")))
            && ResolveIn(Catalog(), "ubuntu-cloud", d, goarch) ==
                 (if OVA !in d.formats then Failure(NotAccepted("ubuntu-cloud", OVA))
                  else Success(Resolved("ubuntu-cloud", UbuntuCloud, "", "", OVA, arch, "")))
            && ResolveIn(Catalog(), "turnkey-core", d, goarch) ==
                 (if arch != "amd64" then Failure(NoVariant("turnkey-core", Family(d.kind), arch))
                  else if OVA !in d.formats then Failure(NotAccepted("turnkey-core", OVA))
                  else Success(Resolved("turnkey-core", URL,
                         "https://mirror.turnkeylinux.org/turnkeylinux/images/ova/turnkey-core-18.1-bookworm-amd64.ova",
                         "", OVA, arch, "")))
  {
    var arch := if d.hostArch == "" then goarch else d.hostArch;
    hide *;
    TalosIsoVariant();
    CloudVariant();
    TurnKeyVariant();
    SourcesAreFound();
    DifferentNames();
    OtherSources();
    TalosAssets(arch);
    NothingReplaced(arch);
    SingleImage(Catalog(), "talos-iso", d, goarch, TalosIso(), TalosIso().variants[0]);
    SingleImage(Catalog(), "ubuntu-cloud", d, goarch, UbuntuCloudImage(), UbuntuCloudImage().variants[0]);
    SingleImage(Catalog(), "turnkey-core", d, goarch, TurnKeyCore(), TurnKeyCore().variants[0]);
  }

  lemma TalosIsoVariant()
    ensures |TalosIso().variants| == 1
    ensures TalosIso().variants[0] == Variant(Tag("", ""), Unset, "siderolabs/talos", "metal-{arch}.iso", ISO)
  {
  }

  lemma CloudVariant()
    ensures |UbuntuCloudImage().variants| == 1
    ensures UbuntuCloudImage().variants[0] == Variant(Tag("", ""), Unset, "", "", OVA)
  {
  }

  lemma TurnKeyVariant()
    ensures |TurnKeyCore().variants| == 1
    ensures TurnKeyCore().variants[0] ==
              Variant(Tag("", "amd64"), Unset,
                      "https://mirror.turnkeylinux.org/turnkeylinux/images/ova/turnkey-core-18.1-bookworm-amd64.ova", "", OVA)
  {
  }

  lemma WindowsPick(family: string, arch: string)
    requires family == "virtualbox" || family == "vmware"
    ensures PickOf(WindowsDev().variants, family, arch) ==
              if arch == "amd64" then Some(WindowsDev().variants[if family == "vmware" then 1 else 0]) else None
  {
    var vs := WindowsDev().variants;
    assert "vmware" != "virtualbox" by { assert |"vmware"| == 6 && |"virtualbox"| == 10; }
    assert "amd64" != "" by { assert |"amd64"| == 5; }
    assert |"vmware"| == 6 && |"virtualbox"| == 10;
    WindowsVariants();
    hide WindowsDev;
    PickIsBest(vs, family, arch);
    hide PickOf;
  }

  lemma WindowsVariants()
    ensures |WindowsDev().variants| == 2
    ensures WindowsDev().variants[0] == Variant(Tag("virtualbox", "amd64"), Unset, "https://aka.ms/windev_VM_virtualbox", "", OVA)
    ensures WindowsDev().variants[1] == Variant(Tag("vmware", "amd64"), Unset, "https://aka.ms/windev_VM_vmware", "", OVA)
  {
  }

  /** "windows-dev" has one image for each family, and only for amd64. */
  lemma WindowsPerFamily(d: Descriptor, goarch: string)
    ensures var arch := if d.hostArch == "" then goarch else d.hostArch;
            var vmware := d.kind.Fusion? || d.kind.Workstation?;
            ResolveIn(Catalog(), "windows-dev", d, goarch) ==
              if arch != "amd64" then Failure(NoVariant("windows-dev", if vmware then "vmware" else "virtualbox", arch))
              else if OVA !in d.formats then Failure(NotAccepted("windows-dev", OVA))
              else Success(Resolved("windows-dev", URL,
                     if vmware then "https://aka.ms/windev_VM_vmware" else "https://aka.ms/windev_VM_virtualbox",
                     "", OVA, arch, ""))
  {
    var arch := if d.hostArch == "" then goarch else d.hostArch;
    FamilyByKind(d.kind);
    HostArchByCase(d, goarch);
    hide *;
    var family := Family(d.kind);
    SourcesAreFound();
    DifferentNames();
    OtherSources();
    WindowsVariants();
    NothingReplaced(arch);
    WindowsPick(family, arch);
    AcceptsIs(d, OVA);
    if arch == "amd64" {
      ResolvedVariant(Catalog(), "windows-dev", d, goarch, WindowsDev(), WindowsDev().variants[if family == "vmware" then 1 else 0]);
    } else {
      NoVariantIs(Catalog(), "windows-dev", d, goarch, WindowsDev());
    }
  }

  lemma NoVariantIs(catalog: seq<Source>, image: string, d: Descriptor, goarch: string, src: Source)
    requires !HasPrefix(image, "vagrant:") && SourceNamed(catalog, image) == Some(src)
    requires PickOf(src.variants, Family(d.kind), HostArch(d, goarch)) == None
    ensures ResolveIn(catalog, image, d, goarch) == Failure(NoVariant(image, Family(d.kind), HostArch(d, goarch)))
  {
    hide PickOf, SourceNamed, HasPrefix, Family;
  }

  lemma HostArchByCase(d: Descriptor, goarch: string)
    ensures HostArch(d, goarch) == if d.hostArch == "" then goarch else d.hostArch
  {
  }

  lemma FamilyByKind(k: Kind)
    ensures Family(k) == if k.Fusion? || k.Workstation? then "vmware" else "virtualbox"
    ensures Family(k) == "vmware" <==> k.Fusion? || k.Workstation?
  {
    assert |"vmware"| == 6 && |"virtualbox"| == 10;
  }
}
