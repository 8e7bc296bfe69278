// core/artifact/fetch.go, Fetch: what is downloaded, what is reported about it, and how
// the download and the extraction fit together.
module Fetching {
  import opened Text
  import opened HostFiles
  import opened Hashing
  import opened Paths
  import Provider
  import opened Selection
  import opened Artifacts
  import Checksums
  import CacheNames
  import Download
  import BoxArchive

  datatype Asset = Asset(name: string, digest: string, url: string)

  datatype Release = Release(tag: string, assets: seq<Asset>)

  /** Everything the network and the host decide during one Fetch: the release, checksum
      list or box the registry answers with, the download, and how the box reads. */
  datatype World = World(
    defaultDir: string,
    release: Option<Release>,
    sums: Option<string>,
    box: Option<Box>,
    transfer: Download.Call,
    boxOpens: bool,
    mkdir: BoxArchive.Mkdir,
    decode: string -> BoxArchive.Archive)

  datatype FetchResult = FetchResult(path: string, format: Provider.Format, version: string, sha256: string, verified: bool)

  /** What a resolved artifact comes to before anything is downloaded. */
  datatype Plan = Plan(dest: string, url: string, sum: string, extractTo: Option<string>, result: FetchResult)

  // -------------------------------------------------------------- the planning part

  /** ghAsset.sha256. */
  function DigestOf(a: Asset): string {
    TrimPrefix(a.digest, "sha256:")
  }

  /** ghRelease.findAsset. */
  function AssetNamed(assets: seq<Asset>, name: string): Option<Asset> {
    if assets == [] then None
    else if assets[0].name == name then Some(assets[0])
    else AssetNamed(assets[1..], name)
  }

  function FormatName(f: Provider.Format): string {
    match f
    case OVA => "ova" case OVF => "ovf" case ISO => "iso" case VMX => "vmx" case VDI => "vdi" case VMDK => "vmdk"
  }

  /** formatOf. */
  function FormatOf(path: string, fallback: Provider.Format): Provider.Format {
    var ext := ToLower(Ext(path));
    if ext == ".ovf" then Provider.OVF else if ext == ".vmx" then Provider.VMX else if ext == ".ova" then Provider.OVA else fallback
  }

  function ArchOr(arch: string): string {
    if arch == "" then "amd64" else arch
  }

  /** The checksum of a registry entry, when it is a sha256. */
  function EntrySum(e: Entry): string {
    if EqualFold(e.checksumType, "sha256") && e.checksum != "" then e.checksum else ""
  }

  function BoxPath(dir: string, base: string): string {
    JoinPath(dir, "boxes/" + base + ".box")
  }

  function BoxDir(dir: string, base: string): string {
    JoinPath(dir, "boxes/" + base)
  }

  function PlanGitHub(r: Resolved, dir: string, w: World): Option<Plan> {
    if w.release.None? then None
    else
      match AssetNamed(w.release.value.assets, r.asset)
      case None => None
      case Some(a) =>
        var tag, sum := w.release.value.tag, DigestOf(a);
        var dest := JoinPath(dir, r.source + "-" + tag + "-" + a.name);
        Some(Plan(dest, a.url, sum, None, FetchResult(dest, r.format, tag, sum, sum != "")))
  }

  /** talosFactoryURL. */
  function TalosUrl(schematic: string, tag: string, asset: string): string {
    "https://factory.talos.dev/image/" + schematic + "/" + tag + "/" + asset
  }

  /** The Talos tag asked for, or that of the newest release. */
  function TalosTag(version: string, w: World): Option<string> {
    if version == "" || version == "latest" then (if w.release.None? then None else Some(w.release.value.tag))
    else Some(if HasPrefix(version, "v") then version else "v" + version)
  }

  function PlanTalos(r: Resolved, version: string, dir: string, w: World): Option<Plan> {
    match TalosTag(version, w)
    case None => None
    case Some(tag) =>
      var dest := JoinPath(dir, r.source + "-" + tag + "-" + r.asset);
      Some(Plan(dest, TalosUrl(r.locator, tag, r.asset), "", None, FetchResult(dest, r.format, tag, "", false)))
  }

  function CloudVersion(version: string): string {
    if version == "" || version == "latest" then "24.04" else version
  }

  /** The cloud image's file name. */
  function ImageName(version: string, arch: string): string {
    "ubuntu-" + CloudVersion(version) + "-server-cloudimg-" + ArchOr(arch) + ".ova"
  }

  function CloudUrl(version: string, fname: string): string {
    "https://cloud-images.ubuntu.com/releases/" + CloudVersion(version) + "/release/" + fname
  }

  function PlanUbuntu(r: Resolved, version: string, dir: string, w: World): Option<Plan> {
    var fname := ImageName(version, r.arch);
    if w.sums.None? then None
    else
      var sum := Checksums.FindSum(w.sums.value, fname);
      if sum == "" then None
      else
        var dest := JoinPath(dir, fname);
        Some(Plan(dest, CloudUrl(version, fname), sum, None, FetchResult(dest, r.format, "", sum, true)))
  }

  function PlanUrl(r: Resolved, dir: string): Option<Plan> {
    var dest := JoinPath(dir, r.source + "." + FormatName(r.format));
    Some(Plan(dest, r.locator, "", None, FetchResult(dest, r.format, "", "", false)))
  }

  function PlanVagrant(r: Resolved, version: string, dir: string, w: World): Option<Plan> {
    if r.vagrantProvider == "" || w.box.None? then None
    else
      match VagrantResolve(w.box.value, version, r.vagrantProvider, ArchOr(r.arch))
      case None => None
      case Some((ver, e)) =>
        var sum := EntrySum(e);
        var base := CacheNames.BoxName(r.locator, ver, r.vagrantProvider, ArchOr(r.arch));
        Some(Plan(BoxPath(dir, base), e.url, sum, Some(BoxDir(dir, base)),
                  FetchResult(BoxDir(dir, base), r.format, ver, sum, sum != "")))
  }

  function PlanOf(r: Resolved, version: string, dir: string, w: World): Option<Plan> {
    var d := if dir == "" then w.defaultDir else dir;
    match r.channel
    case GitHubAsset => PlanGitHub(r, d, w)
    case TalosFactory => PlanTalos(r, version, d, w)
    case UbuntuCloud => PlanUbuntu(r, version, d, w)
    case URL => PlanUrl(r, d)
    case Vagrant => PlanVagrant(r, version, d, w)
    case Unset => None
  }

  /** ghRelease.findAsset's loop. */
  method FindAsset(assets: seq<Asset>, name: string) returns (a: Option<Asset>)
    ensures a == AssetNamed(assets, name)
  {
    for i := 0 to |assets|
      invariant AssetNamed(assets, name) == AssetNamed(assets[i..], name)
    {
      assert assets[i..][1..] == assets[i + 1..];
      if assets[i].name == name {
        return Some(assets[i]);
      }
    }
    return None;
  }

  /** Fetch's switch, up to the point where a dry run stops. */
  method MakePlan(r: Resolved, version: string, dir: string, w: World) returns (plan: Option<Plan>)
    ensures plan == PlanOf(r, version, dir, w)
  {
    hide JoinPath, DigestOf, FormatName, HasPrefix, Checksums.FindSum, VagrantResolve, EntrySum, CacheNames.BoxName, AssetNamed;
    var d := dir;
    if d == "" {
      d := w.defaultDir;
    }
    match r.channel {
      case GitHubAsset =>
        if w.release.None? {
          return None;
        }
        var asset := FindAsset(w.release.value.assets, r.asset);
        if asset.None? {
          return None;
        }
        var tag, sum := w.release.value.tag, DigestOf(asset.value);
        var dest := JoinPath(d, r.source + "-" + tag + "-" + asset.value.name);
        return Some(Plan(dest, asset.value.url, sum, None, FetchResult(dest, r.format, tag, sum, sum != "")));
      case TalosFactory =>
        var tag := version;
        if tag == "" || tag == "latest" {
          if w.release.None? {
            return None;
          }
          tag := w.release.value.tag;
        } else if !HasPrefix(tag, "v") {
          tag := "v" + tag;
        }
        var dest := JoinPath(d, r.source + "-" + tag + "-" + r.asset);
        return Some(Plan(dest, TalosUrl(r.locator, tag, r.asset), "", None, FetchResult(dest, r.format, tag, "", false)));
      case UbuntuCloud =>
        if w.sums.None? {
          return None;
        }
        var fname := ImageName(version, r.arch);
        var sum := Checksums.FindSha256Sum(w.sums.value, fname);
        if sum == "" {
          return None;
        }
        var dest := JoinPath(d, fname);
        return Some(Plan(dest, CloudUrl(version, fname), sum, None, FetchResult(dest, r.format, "", sum, true)));
      case URL =>
        var dest := JoinPath(d, r.source + "." + FormatName(r.format));
        return Some(Plan(dest, r.locator, "", None, FetchResult(dest, r.format, "", "", false)));
      case Vagrant =>
        if r.vagrantProvider == "" || w.box.None? {
          return None;
        }
        var arch := ArchOr(r.arch);
        var found := ResolveBox(w.box.value, version, r.vagrantProvider, arch);
        if found.None? {
          return None;
        }
        var sum := EntrySum(found.value.1);
        var base := CacheNames.BoxName(r.locator, found.value.0, r.vagrantProvider, arch);
        return Some(Plan(BoxPath(d, base), found.value.1.url, sum, Some(BoxDir(d, base)),
                         FetchResult(BoxDir(d, base), r.format, found.value.0, sum, sum != "")));
      case Unset =>
        return None;
    }
  }

  // ------------------------------------------------------------ the executing part

  /** The download a plan asks for. */
  function CallOf(p: Plan, w: World): Download.Call {
    w.transfer.(dest := p.dest, wantSHA := p.sum)
  }

  /** The disk after the download. */
  function Downloaded<S>(h: Hash<S>, d: Disk, p: Plan, w: World): Disk {
    Download.Last(d, Download.Trace(h, d, CallOf(p, w)))
  }

  /** Extraction of the downloaded box. */
  function Extracted(d: Disk, p: Plan, w: World): BoxArchive.State
    requires p.extractTo.Some?
  {
    if !w.boxOpens || p.dest !in d.files then BoxArchive.State(d, "", true)
    else BoxArchive.Extract(p.extractTo.value, d, w.mkdir, w.decode(d.files[p.dest]))
  }

  /** What Fetch returns, and the disk it leaves. */
  function FetchOf<S>(h: Hash<S>, d: Disk, r: Resolved, version: string, dir: string, dryRun: bool, w: World): (Option<FetchResult>, Disk) {
    match PlanOf(r, version, dir, w)
    case None => (None, d)
    case Some(p) =>
      if dryRun then (Some(p.result), d)
      else
        var d1 := Downloaded(h, d, p, w);
        if !Download.OutcomeOf(h, d, CallOf(p, w)).Succeeded() then (None, d1)
        else if p.extractTo.None? then (Some(p.result), d1)
        else
          var s := Extracted(d1, p, w);
          match BoxArchive.Machine(s)
          case None => (None, s.disk)
          case Some(m) => (Some(p.result.(path := m, format := FormatOf(m, r.format))), s.disk)
  }

  /** Fetch. */
  method Fetch<S>(host: Host, h: Hash<S>, r: Resolved, version: string, dir: string, dryRun: bool, w: World)
    returns (result: Option<FetchResult>)
    modifies host
    ensures (result, host.disk) == FetchOf(h, old(host.disk), r, version, dir, dryRun, w)
    ensures dryRun ==> host.disk == old(host.disk) && host.history == old(host.history)
  {
    hide PlanOf, Download.Trace, Download.OutcomeOf, Download.Last, BoxArchive.Extract, BoxArchive.Machine, FormatOf;
    var plan := MakePlan(r, version, dir, w);
    if plan.None? {
      return None;
    }
    var p := plan.value;
    var res := p.result;
    if dryRun {
      return Some(res);
    }
    var outcome := Download.FetchHttps(host, h, CallOf(p, w));
    if !outcome.Succeeded() {
      return None;
    }
    if p.extractTo.None? {
      return Some(res);
    }
    if !w.boxOpens || p.dest !in host.disk.files {
      NothingExtracted(host.disk);
      return None;
    }
    var box := host.Read(p.dest);
    var machine := BoxArchive.ExtractBox(host, p.extractTo.value, w.mkdir, w.decode(box.value));
    if machine.None? {
      return None;
    }
    res := res.(path := machine.value);
    res := res.(format := FormatOf(machine.value, r.format));
    return Some(res);
  }

  lemma NothingExtracted(d: Disk)
    ensures BoxArchive.Machine(BoxArchive.State(d, "", true)) == None
  {
  }

  // ------------------------------------------------- the box survives its extraction

  /** A name whose last element is ordinary adds that element to the joined path. */
  lemma LastElementStays(dir: string, name: string, init: seq<string>, last: string)
    requires name != "" && !IsAbs(name) && Split(name, '/') == init + [last]
    requires '-' in last
    ensures Parts(JoinPath(dir, name)) == PushAll(IsAbs(dir), Parts(dir), init) + [last]
  {
    JoinPushes(dir, name);
    hide Split, Parts, JoinPath, PushAll;
    var stem := PushAll(IsAbs(dir), Parts(dir), init);
    PushAllConcat(IsAbs(dir), Parts(dir), init, [last]);
    PushAllOne(IsAbs(dir), stem, last);
    assert last != "" && last != "." && last != "..";
  }

  lemma StartsAlike(front: string, tail: string)
    requires front != "" && front[0] != '/'
    ensures front + tail != "" && !IsAbs(front + tail)
  {
  }

  lemma ConcatHas(c: char, a: string, b: string)
    requires c in b
    ensures c in a + b
  {
  }

  /** Changing the last element of a name changes the last element of the joined path and
      nothing before it. */
  lemma LastElementDiffers(dir: string, front: string, x: string, y: string)
    requires front != "" && front[0] != '/' && |x| != |y|
    requires '-' in x && '/' !in x && '-' in y && '/' !in y
    ensures !(Parts(JoinPath(dir, front + x)) <= Parts(JoinPath(dir, front + y)))
  {
    hide *;
    StartsAlike(front, x);
    StartsAlike(front, y);
    var init, e := SplitGrows(front, x);
    var init', e' := SplitGrows(front, y);
    SameSplit(init, e, init', e');
    ConcatHas('-', e, x);
    ConcatHas('-', e, y);
    LastElementStays(dir, front + x, init, e + x);
    LastElementStays(dir, front + y, init, e + y);
    NotAPrefix(PushAll(IsAbs(dir), Parts(dir), init), e + x, e + y);
  }

  lemma SameSplit(a: seq<string>, x: string, b: seq<string>, y: string)
    requires a + [x] == b + [y]
    ensures a == b && x == y
  {
    assert |a| == |b|;
    assert a == (a + [x])[..|a|] && b == (b + [y])[..|a|];
    assert x == (a + [x])[|a|] && y == (b + [y])[|a|];
  }

  lemma NotAPrefix(stem: seq<string>, x: string, y: string)
    requires |x| != |y|
    ensures !(stem + [x] <= stem + [y])
  {
    assert (stem + [x])[|stem|] == x && (stem + [y])[|stem|] == y;
  }

  /** Neither the box file nor its extraction directory lies within the other. */
  lemma BoxPathsDiffer(dir: string, locator: string, version: string, provider: string, arch: string)
    requires '/' !in arch
    ensures var base := CacheNames.BoxName(locator, version, provider, arch);
            && !(Parts(BoxDir(dir, base)) <= Parts(BoxPath(dir, base)))
            && !(Parts(BoxPath(dir, base)) <= Parts(BoxDir(dir, base)))
  {
    var rest := CacheNames.Dashed(locator) + "-" + version + "-" + provider;
    var front := "boxes/" + rest;
    var base := CacheNames.BoxName(locator, version, provider, arch);
    var x, y := "-" + arch, "-" + arch + ".box";
    assert base == rest + x;
    assert front[0] == 'b' && x[0] == '-' && y[0] == '-';
    assert '/' !in x && '/' !in y && |x| != |y|;
    hide JoinPath, Parts, CacheNames.BoxName, CacheNames.Dashed;
    assert "boxes/" + base == front + x;
    assert "boxes/" + base + ".box" == front + y;
    LastElementDiffers(dir, front, x, y);
    LastElementDiffers(dir, front, y, x);
  }

  /** An architecture without a slash keeps the box file out of the extraction directory,
      whatever version the registry reports. */
  lemma BoxIsOutside(dir: string, locator: string, version: string, provider: string, arch: string)
    requires '/' !in arch
    ensures var base := CacheNames.BoxName(locator, version, provider, arch);
            !BoxArchive.Under(BoxDir(dir, base), BoxPath(dir, base))
  {
    BoxPathsDiffer(dir, locator, version, provider, arch);
    hide BoxPath, BoxDir, CacheNames.BoxName, Parts;
  }

  // ------------------------------------------------- what the sources published

  ghost predicate FirstAsset(assets: seq<Asset>, name: string, i: nat) {
    i < |assets| && assets[i].name == name && forall j :: 0 <= j < i ==> assets[j].name != name
  }

  /** A release asset's digest, with or without the name of the hash in front. */
  predicate Digests(a: Asset, sum: string) {
    a.digest == "sha256:" + sum || (a.digest == sum && !HasPrefix(sum, "sha256:"))
  }

  /** A registry entry publishes a sum only when it says it is a sha256. */
  predicate EntryPublishes(e: Entry, sum: string) {
    if EqualFold(e.checksumType, "sha256") then sum == e.checksum else sum == ""
  }

  /** The address and the checksum, "" for none, that belong to just the file asked for:
      the first asset with the name; the first listing of the image; the earliest best
      entry of the version. */
  ghost predicate Published(r: Resolved, version: string, w: World, url: string, sum: string) {
    match r.channel
    case GitHubAsset =>
      w.release.Some?
      && exists i: nat ::
           FirstAsset(w.release.value.assets, r.asset, i)
           && url == w.release.value.assets[i].url && Digests(w.release.value.assets[i], sum)
    case TalosFactory =>
      sum == "" && TalosTag(version, w).Some? && url == TalosUrl(r.locator, TalosTag(version, w).value, r.asset)
    case UbuntuCloud =>
      w.sums.Some?
      && url == CloudUrl(version, ImageName(version, r.arch))
      && var lines := Split(w.sums.value, '\n');
         exists i: nat :: Checksums.FirstListing(lines, ImageName(version, r.arch), i) && Fields(lines[i])[0] == sum
    case URL => sum == "" && url == r.locator
    case Vagrant =>
      w.box.Some?
      && exists v, i: nat ::
           IsVersion(w.box.value, version, v) && i < |v.providers|
           && IsEarliestBest(EntryRanks(v.providers, r.vagrantProvider, ArchOr(r.arch)), i)
           && url == v.providers[i].url && EntryPublishes(v.providers[i], sum)
    case Unset => false
  }

  lemma {:induction false} AssetNamedIs(assets: seq<Asset>, name: string) returns (i: nat)
    requires AssetNamed(assets, name).Some?
    ensures FirstAsset(assets, name, i) && assets[i] == AssetNamed(assets, name).value
  {
    if assets[0].name == name {
      i := 0;
    } else {
      var k := AssetNamedIs(assets[1..], name);
      i := k + 1;
    }
  }

  lemma DigestIs(a: Asset)
    ensures Digests(a, DigestOf(a))
  {
    if HasPrefix(a.digest, "sha256:") {
      assert a.digest == "sha256:" + a.digest[7..];
    }
  }

  lemma EntrySumIs(e: Entry)
    ensures EntryPublishes(e, EntrySum(e))
  {
    hide EqualFold;
  }

  lemma VagrantSumIsPublished(r: Resolved, version: string, dir: string, w: World)
    requires r.channel.Vagrant? && PlanOf(r, version, dir, w).Some?
    ensures var p := PlanOf(r, version, dir, w).value; Published(r, version, w, p.url, p.sum)
  {
    var box, arch := w.box.value, ArchOr(r.arch);
    var v := if version == "" || version == "latest" then box.current else VersionNamed(box.versions, version).value;
    hide EntryOf, CacheNames.BoxName, BoxPath, BoxDir, EntrySum, EntryPublishes, VersionNamed, ArchOr, EntryRanks, IsEarliestBest;
    if !(version == "" || version == "latest") {
      var k := VersionNamedIs(box.versions, version);
      assert box.versions[k] == v;
    }
    var i := EntryIsBest(v, r.vagrantProvider, arch);
    EntrySumIs(v.providers[i]);
  }

  // ----------------------------------------------------------- what is reported

  lemma PlannedFor(r: Resolved, version: string, dir: string, w: World)
    requires PlanOf(r, version, dir, w).Some?
    ensures var p := PlanOf(r, version, dir, w).value;
            && p.result.sha256 == p.sum && (p.result.verified <==> p.sum != "")
            && (p.extractTo.None? ==> p.result.path == p.dest)
            && (p.extractTo.Some? <==> r.channel.Vagrant?)
            && p.result.format == r.format
  {
    hide JoinPath, Checksums.FindSum, VagrantResolve, CacheNames.BoxName, AssetNamed, EntrySum, BoxPath, BoxDir, DigestOf, FormatName, ImageName;
  }

  lemma ListedSumIsPublished(r: Resolved, version: string, dir: string, w: World)
    requires r.channel.UbuntuCloud? && PlanOf(r, version, dir, w).Some?
    ensures var p := PlanOf(r, version, dir, w).value; Published(r, version, w, p.url, p.sum)
    ensures IsWord(PlanOf(r, version, dir, w).value.sum)
  {
    var lines, fname := Split(w.sums.value, '\n'), ImageName(version, r.arch);
    hide Split, JoinPath, ImageName, Fields, Checksums.Lists, Checksums.FindIn, IsWord;
    var i := Checksums.FoundIsFirst(lines, fname);
    Checksums.FoundIsListed(lines, fname);
  }

  lemma AssetSumIsPublished(r: Resolved, version: string, dir: string, w: World)
    requires r.channel.GitHubAsset? && PlanOf(r, version, dir, w).Some?
    ensures var p := PlanOf(r, version, dir, w).value; Published(r, version, w, p.url, p.sum)
  {
    var assets := w.release.value.assets;
    hide JoinPath, AssetNamed, DigestOf, Digests, FirstAsset;
    var i := AssetNamedIs(assets, r.asset);
    DigestIs(assets[i]);
  }

  /** A plan reports as verified just what carries a checksum; its address and checksum are
      the ones its source published together for the file. */
  lemma PlanIsHonest(r: Resolved, version: string, dir: string, w: World)
    requires PlanOf(r, version, dir, w).Some?
    ensures var p := PlanOf(r, version, dir, w).value;
            && p.result.sha256 == p.sum && (p.result.verified <==> p.sum != "")
            && Published(r, version, w, p.url, p.sum)
            && (p.extractTo.Some? <==> r.channel.Vagrant?)
            && (r.channel.UbuntuCloud? ==> IsWord(p.sum))
  {
    PlannedFor(r, version, dir, w);
    match r.channel {
      case GitHubAsset => AssetSumIsPublished(r, version, dir, w);
      case UbuntuCloud => ListedSumIsPublished(r, version, dir, w);
      case Vagrant => VagrantSumIsPublished(r, version, dir, w);
      case TalosFactory => PlainAddressIsPublished(r, version, dir, w);
      case URL => PlainAddressIsPublished(r, version, dir, w);
      case Unset =>
    }
  }

  lemma PlainAddressIsPublished(r: Resolved, version: string, dir: string, w: World)
    requires (r.channel.TalosFactory? || r.channel.URL?) && PlanOf(r, version, dir, w).Some?
    ensures var p := PlanOf(r, version, dir, w).value; Published(r, version, w, p.url, p.sum)
  {
    hide JoinPath, FormatName;
  }

  lemma VagrantBoxIsOutside(r: Resolved, version: string, dir: string, w: World)
    requires PlanOf(r, version, dir, w).Some? && r.channel.Vagrant? && '/' !in ArchOr(r.arch)
    ensures var p := PlanOf(r, version, dir, w).value;
            p.extractTo.Some? && !BoxArchive.Under(p.extractTo.value, p.dest)
  {
    var d := if dir == "" then w.defaultDir else dir;
    var found := VagrantResolve(w.box.value, version, r.vagrantProvider, ArchOr(r.arch));
    hide VagrantResolve, CacheNames.BoxName, BoxPath, BoxDir, BoxArchive.Under, EntrySum, ArchOr;
    BoxIsOutside(d, r.locator, found.value.0, r.vagrantProvider, ArchOr(r.arch));
  }

  lemma BoxKeepsItsBytes(d: Disk, p: Plan, w: World)
    requires p.extractTo.Some? && !BoxArchive.Under(p.extractTo.value, p.dest)
    ensures FileAt(Extracted(d, p, w).disk, p.dest) == FileAt(d, p.dest)
  {
    if w.boxOpens && p.dest in d.files {
      BoxArchive.ExtractionIsConfined(p.extractTo.value, d, w.mkdir, w.decode(d.files[p.dest]));
    }
    hide BoxArchive.Extract, BoxArchive.Under;
  }

  /** A fetch that succeeds leaves the file it downloaded on disk as it was downloaded:
      for a box, that is the box file, which extraction does not overwrite. */
  lemma FetchedFileStays<S>(h: Hash<S>, d: Disk, r: Resolved, version: string, dir: string, w: World)
    requires r.channel.Vagrant? ==> '/' !in ArchOr(r.arch)
    requires FetchOf(h, d, r, version, dir, false, w).0.Some?
    ensures PlanOf(r, version, dir, w).Some?
    ensures var (result, after) := FetchOf(h, d, r, version, dir, false, w);
            var p := PlanOf(r, version, dir, w).value;
            var d1 := Downloaded(h, d, p, w);
            && p.dest in d1.files && p.dest in after.files && after.files[p.dest] == d1.files[p.dest]
            && Download.OutcomeOf(h, d, CallOf(p, w)).Succeeded()
            && result.value.sha256 == p.sum && result.value.verified == p.result.verified
            && (!r.channel.Vagrant? ==> result.value.path == p.dest)
  {
    var p := PlanOf(r, version, dir, w).value;
    PlannedFor(r, version, dir, w);
    Download.SuccessInstalls(h, d, CallOf(p, w));
    if r.channel.Vagrant? {
      VagrantBoxIsOutside(r, version, dir, w);
      BoxKeepsItsBytes(Downloaded(h, d, p, w), p, w);
    }
    hide PlanOf, Download.Trace, Download.OutcomeOf, Download.Last, Download.Wanted, Extracted, BoxArchive.Machine, FormatOf, Digest, BoxArchive.Under;
  }

  /** Reported verification is true, across planning, download and extraction: when a
      download that really ran reports a checksum that is not blank as verified, the
      downloaded file is on disk at the end and hashes to that checksum, lowercased and
      trimmed. */
  lemma VerifiedIsTrue<S>(h: Hash<S>, d: Disk, r: Resolved, version: string, dir: string, w: World)
    requires r.channel.Vagrant? ==> '/' !in ArchOr(r.arch)
    requires FetchOf(h, d, r, version, dir, false, w).0.Some?
    requires FetchOf(h, d, r, version, dir, false, w).0.value.verified
    requires Download.Wanted(FetchOf(h, d, r, version, dir, false, w).0.value.sha256) != ""
    ensures var (result, after) := FetchOf(h, d, r, version, dir, false, w);
            var file := PlanOf(r, version, dir, w).value.dest;
            && file in after.files
            && Digest(h, after.files[file]) == Download.Wanted(result.value.sha256)
            && (!r.channel.Vagrant? ==> result.value.path == file)
  {
    FetchedFileStays(h, d, r, version, dir, w);
    Download.SuccessInstalls(h, d, CallOf(PlanOf(r, version, dir, w).value, w));
    hide PlanOf, FetchOf, Download.Trace, Download.OutcomeOf, Download.Last, Download.Wanted, Digest;
  }

  /** For an Ubuntu cloud image the report is never blank, so it is always true. */
  lemma UbuntuIsVerified<S>(h: Hash<S>, d: Disk, r: Resolved, version: string, dir: string, w: World)
    requires r.channel.UbuntuCloud? && FetchOf(h, d, r, version, dir, false, w).0.Some?
    ensures var (result, after) := FetchOf(h, d, r, version, dir, false, w);
            && result.value.verified && result.value.path in after.files
            && Digest(h, after.files[result.value.path]) == Download.Wanted(result.value.sha256) != ""
  {
    FetchedFileStays(h, d, r, version, dir, w);
    PlanIsHonest(r, version, dir, w);
    WordIsWanted(PlanOf(r, version, dir, w).value.sum);
    hide PlanOf, FetchOf, Download.Trace, Download.OutcomeOf, Download.Last, Download.Wanted, Digest, Published;
    assert IsWord(PlanOf(r, version, dir, w).value.sum);
    hide IsWord;
    VerifiedIsTrue(h, d, r, version, dir, w);
  }

  lemma WordIsWanted(sum: string)
    requires IsWord(sum)
    ensures Download.Wanted(sum) != "" && sum != ""
  {
    assert Trimmed(sum, SPACES);
    TrimIsTrimmed(sum, SPACES);
    hide Trim;
  }

  /** Nothing hashes to the empty text: true of SHA-256 in hexadecimal. */
  ghost predicate NeverEmpty<S>(h: Hash<S>) {
    forall data :: Digest(h, data) != ""
  }

  /** In every run that reports a file as verified, the file is on disk at the end, and
      hashes to the reported checksum if and only if the checksum is not blank. */
  lemma VerifiedIsTrueIff<S>(h: Hash<S>, d: Disk, r: Resolved, version: string, dir: string, w: World)
    requires NeverEmpty(h) && (r.channel.Vagrant? ==> '/' !in ArchOr(r.arch))
    requires FetchOf(h, d, r, version, dir, false, w).0.Some?
    requires FetchOf(h, d, r, version, dir, false, w).0.value.verified
    ensures var (result, after) := FetchOf(h, d, r, version, dir, false, w);
            var file := PlanOf(r, version, dir, w).value.dest;
            && file in after.files
            && (Digest(h, after.files[file]) == Download.Wanted(result.value.sha256)
                <==> Download.Wanted(result.value.sha256) != "")
  {
    FetchedFileStays(h, d, r, version, dir, w);
    hide PlanOf, FetchOf, Download.OutcomeOf, Download.Wanted, Digest;
    if Download.Wanted(FetchOf(h, d, r, version, dir, false, w).0.value.sha256) != "" {
      VerifiedIsTrue(h, d, r, version, dir, w);
    }
  }

  /** The download itself goes through. */
  predicate Undisturbed(t: Download.Call) {
    t.isHttps && t.mkdirOK && t.responseOK && t.createOK && t.complete && t.closeOK && t.renameOK
  }

  /** A checksum of white space is the gap: the result says "verified", yet any complete
      body at all is installed. For a box, whatever it holds is then extracted. */
  lemma BlankChecksumVerifiesNothing<S>(h: Hash<S>, d: Disk, r: Resolved, version: string, dir: string, w: World)
    requires PlanOf(r, version, dir, w).Some? && Undisturbed(w.transfer)
    requires var sum := PlanOf(r, version, dir, w).value.sum; sum != "" && Download.Wanted(sum) == ""
    requires r.channel.Vagrant? ==>
               '/' !in ArchOr(r.arch)
               && var p := PlanOf(r, version, dir, w).value;
                  p.extractTo.Some? && BoxArchive.Machine(Extracted(Downloaded(h, d, p, w), p, w)).Some?
    ensures var (result, after) := FetchOf(h, d, r, version, dir, false, w);
            && result.Some? && result.value.verified
            && FileAt(after, PlanOf(r, version, dir, w).value.dest) == Some(Download.Body(w.transfer.chunks))
  {
    var p := PlanOf(r, version, dir, w).value;
    PlannedFor(r, version, dir, w);
    assert Download.OutcomeOf(h, d, CallOf(p, w)).Downloaded?;
    Download.SuccessInstalls(h, d, CallOf(p, w));
    hide PlanOf, Download.Trace, Download.OutcomeOf, Download.Last, Download.Wanted, Extracted, Digest, FormatOf;
    assert FetchOf(h, d, r, version, dir, false, w).0.Some?;
    FetchedFileStays(h, d, r, version, dir, w);
  }

  /** Two worlds in which the sources publish the same. */
  predicate SameSources(v: World, w: World) {
    v.defaultDir == w.defaultDir && v.release == w.release && v.sums == w.sums && v.box == w.box
  }

  lemma PlanIsPublished(r: Resolved, version: string, dir: string, v: World, w: World)
    requires SameSources(v, w)
    ensures PlanOf(r, version, dir, v) == PlanOf(r, version, dir, w)
  {
    hide JoinPath, Checksums.FindSum, VagrantResolve, CacheNames.BoxName, AssetNamed, EntrySum, BoxPath, BoxDir, DigestOf, FormatName, ImageName;
  }

  /** If the fetch succeeds, the downloaded file hashes to the reported checksum. */
  ghost predicate ReportHolds<S>(h: Hash<S>, d: Disk, r: Resolved, version: string, dir: string, w: World) {
    var (result, after) := FetchOf(h, d, r, version, dir, false, w);
    result.Some? ==>
      && PlanOf(r, version, dir, w).Some?
      && var file := PlanOf(r, version, dir, w).value.dest;
         file in after.files && Digest(h, after.files[file]) == Download.Wanted(result.value.sha256)
  }

  /** A world with the same sources in which everything goes well, and a box, if it is one,
      holds just an .ovf or just a .vmx. */
  function Fair(w: World, ovf: bool): World {
    w.(transfer := Download.Call("", "", true, true, {}, true, true, true, [], true, true, true, true),
       boxOpens := true,
       mkdir := BoxArchive.Mkdir(true, {}),
       decode := _ => BoxArchive.SmallBox(ovf))
  }

  lemma BoxPathIsNoAncestor(dir: string, locator: string, version: string, provider: string, arch: string)
    requires '/' !in arch
    ensures var base := CacheNames.BoxName(locator, version, provider, arch);
            BoxPath(dir, base) !in BoxArchive.AncestorDirs(BoxDir(dir, base))
  {
    var base := CacheNames.BoxName(locator, version, provider, arch);
    var p, q := BoxPath(dir, base), BoxDir(dir, base);
    BoxPathsDiffer(dir, locator, version, provider, arch);
    hide Parts, CacheNames.BoxName, BoxPath, BoxDir;
    BoxArchive.NotItsAncestor(q, p);
  }

  lemma FairDownload<S>(h: Hash<S>, p: Plan, w: World, ovf: bool)
    requires Download.Wanted(p.sum) == ""
    ensures var d1 := Downloaded(h, Disk(map[], {}), p, Fair(w, ovf));
            && Download.OutcomeOf(h, Disk(map[], {}), CallOf(p, Fair(w, ovf))).Downloaded?
            && d1.dirs == {} && forall file :: file in d1.files <==> file == p.dest
  {
    var c := CallOf(p, Fair(w, ovf));
    assert Download.OutcomeOf(h, Disk(map[], {}), c).Downloaded?;
    Download.DownloadedIs(h, Disk(map[], {}), c);
    hide Download.Trace, Download.OutcomeOf, Download.Body, Download.PartOf, Download.Wanted, Digest;
  }

  lemma FairBox<S>(h: Hash<S>, r: Resolved, version: string, dir: string, w: World, ovf: bool)
    requires PlanOf(r, version, dir, w).Some? && r.channel.Vagrant? && '/' !in ArchOr(r.arch)
    requires Download.Wanted(PlanOf(r, version, dir, w).value.sum) == ""
    ensures var p := PlanOf(r, version, dir, w).value;
            && p.extractTo.Some?
            && BoxArchive.Machine(Extracted(Downloaded(h, Disk(map[], {}), p, Fair(w, ovf)), p, Fair(w, ovf))).Some?
  {
    var p := PlanOf(r, version, dir, w).value;
    var found := VagrantResolve(w.box.value, version, r.vagrantProvider, ArchOr(r.arch));
    BoxPathIsNoAncestor(if dir == "" then w.defaultDir else dir, r.locator, found.value.0, r.vagrantProvider, ArchOr(r.arch));
    hide VagrantResolve, CacheNames.BoxName, BoxPath, BoxDir, EntrySum, ArchOr, Downloaded, BoxArchive.AncestorDirs,
         BoxArchive.Extract, BoxArchive.Machine, BoxArchive.SmallBox, Download.Wanted;
    var d1 := Downloaded(h, Disk(map[], {}), p, Fair(w, ovf));
    FairDownload(h, p, w, ovf);
    BoxArchive.SmallBoxExtracts(p.extractTo.value, d1, BoxArchive.Mkdir(true, {}), ovf);
  }

  /** Of what a source publishes, exactly: every successful run on it, on every disk and
      however the transfer goes, leaves a file that hashes to the reported checksum, if
      and only if the published checksum is not blank. */
  lemma ReportHoldsIff<S>(h: Hash<S>, r: Resolved, version: string, dir: string, w: World)
    requires NeverEmpty(h) && (r.channel.Vagrant? ==> '/' !in ArchOr(r.arch))
    requires PlanOf(r, version, dir, w).Some? && PlanOf(r, version, dir, w).value.sum != ""
    ensures (forall d, v :: SameSources(v, w) ==> ReportHolds(h, d, r, version, dir, v))
            <==> Download.Wanted(PlanOf(r, version, dir, w).value.sum) != ""
  {
    var p := PlanOf(r, version, dir, w).value;
    PlannedFor(r, version, dir, w);
    if Download.Wanted(p.sum) != "" {
      forall d, v | SameSources(v, w) ensures ReportHolds(h, d, r, version, dir, v) {
        PlanIsPublished(r, version, dir, v, w);
        ReportHoldsHere(h, d, r, version, dir, v);
      }
    } else {
      BlankReportFails(h, r, version, dir, w);
    }
  }

  lemma ReportHoldsHere<S>(h: Hash<S>, d: Disk, r: Resolved, version: string, dir: string, w: World)
    requires NeverEmpty(h) && (r.channel.Vagrant? ==> '/' !in ArchOr(r.arch))
    requires PlanOf(r, version, dir, w).Some?
    requires var sum := PlanOf(r, version, dir, w).value.sum; sum != "" && Download.Wanted(sum) != ""
    ensures ReportHolds(h, d, r, version, dir, w)
  {
    PlannedFor(r, version, dir, w);
    hide PlanOf, FetchOf, Download.OutcomeOf, Download.Wanted, Digest;
    if FetchOf(h, d, r, version, dir, false, w).0.Some? {
      FetchedFileStays(h, d, r, version, dir, w);
      VerifiedIsTrue(h, d, r, version, dir, w);
    }
  }

  lemma BlankReportFails<S>(h: Hash<S>, r: Resolved, version: string, dir: string, w: World)
    requires NeverEmpty(h) && (r.channel.Vagrant? ==> '/' !in ArchOr(r.arch))
    requires PlanOf(r, version, dir, w).Some?
    requires var sum := PlanOf(r, version, dir, w).value.sum; sum != "" && Download.Wanted(sum) == ""
    ensures SameSources(Fair(w, false), w) && !ReportHolds(h, Disk(map[], {}), r, version, dir, Fair(w, false))
  {
    var p, empty := PlanOf(r, version, dir, w).value, Disk(map[], {});
    PlannedFor(r, version, dir, w);
    PlanIsPublished(r, version, dir, Fair(w, false), w);
    assert Undisturbed(Fair(w, false).transfer);
    hide PlanOf, FetchOf, Fair, Download.Wanted, Digest, Downloaded, Extracted, BoxArchive.Machine;
    if r.channel.Vagrant? {
      FairBox(h, r, version, dir, w, false);
    }
    BlankChecksumVerifiesNothing(h, empty, r, version, dir, Fair(w, false));
    FetchedFileStays(h, empty, r, version, dir, Fair(w, false));
  }

  lemma FormatOfSuffix(path: string, ext: string, fallback: Provider.Format)
    requires (ext == "ovf" || ext == "vmx") && HasSuffix(path, "." + ext)
    ensures FormatOf(path, fallback) == if ext == "ovf" then Provider.OVF else Provider.VMX
  {
    assert '.' !in "ovf" && '/' !in "ovf" && '.' !in "vmx" && '/' !in "vmx";
    ExtOfSuffix(path, ext);
    hide Ext;
    assert ToLower(".ovf") == ".ovf" && ToLower(".vmx") == ".vmx";
    assert "." + "ovf" == ".ovf" && "." + "vmx" == ".vmx";
    assert ".ovf"[1] != ".vmx"[1];
  }

  /** An extracted member's path ends the way its cleaned name does. */
  lemma TargetSuffix(destDir: string, m: BoxArchive.Member, suffix: string)
    requires !BoxArchive.Unsafe(m) && '/' !in suffix && suffix != "" && suffix != "."
    requires HasSuffix(Clean(m.name), suffix)
    ensures HasSuffix(BoxArchive.Target(destDir, m), suffix)
  {
    var name, path := Clean(m.name), BoxArchive.Target(destDir, m);
    CleanIsIdempotent(m.name);
    CleanReads(m.name);
    assert Parts(name) == [] ==> name == ".";
    BoxArchive.TargetIsUnder(destDir, m);
    hide BoxArchive.Target, Clean, Parts, BoxArchive.Unsafe;
    if Parts(name) != [] {
      DirOfClean(name);
      DirOfClean(path);
      SuffixIsInBase(name, suffix);
      SuffixIsInBase(path, suffix);
    }
  }

  /** Unfolding a successful fetch of a box. */
  lemma FetchedBox<S>(h: Hash<S>, d: Disk, r: Resolved, version: string, dir: string, w: World)
    requires r.channel.Vagrant? && FetchOf(h, d, r, version, dir, false, w).0.Some?
    ensures var (result, after) := FetchOf(h, d, r, version, dir, false, w);
            && PlanOf(r, version, dir, w).Some?
            && var p := PlanOf(r, version, dir, w).value;
            var d1 := Downloaded(h, d, p, w);
            && p.extractTo.Some? && p.dest in d1.files
            && var s := BoxArchive.Extract(p.extractTo.value, d1, w.mkdir, w.decode(d1.files[p.dest]));
            && BoxArchive.Machine(s) == Some(s.machine) && after == s.disk
            && result.value.path == s.machine && result.value.format == FormatOf(s.machine, r.format)
  {
    PlanIsHonest(r, version, dir, w);
    var p := PlanOf(r, version, dir, w).value;
    var d1 := Downloaded(h, d, p, w);
    NothingExtracted(d1);
    MachineIs(Extracted(d1, p, w));
    hide PlanOf, Downloaded, FormatOf, BoxArchive.Extract, BoxArchive.Machine, Download.OutcomeOf;
  }

  /** The box holds an .ovf file. */
  ghost predicate HoldsOvf(a: BoxArchive.Archive) {
    exists i :: 0 <= i < |a.members| && BoxArchive.IsOvf(a.members[i])
  }

  ghost function BoxFormat(a: BoxArchive.Archive): Provider.Format {
    if HoldsOvf(a) then Provider.OVF else Provider.VMX
  }

  function Extension(f: Provider.Format): string {
    "." + FormatName(f)
  }

  lemma ExtensionIs(a: BoxArchive.Archive)
    ensures Extension(BoxFormat(a)) == "." + (if HoldsOvf(a) then "ovf" else "vmx")
    ensures Extension(BoxFormat(a)) == if HoldsOvf(a) then ".ovf" else ".vmx"
    ensures BoxFormat(a) == if HoldsOvf(a) then Provider.OVF else Provider.VMX
  {
    assert "." + "ovf" == ".ovf" && "." + "vmx" == ".vmx";
    hide HoldsOvf;
  }

  /** The machine file an extraction ends with, and the format its name gives it. */
  lemma MachineFormat(destDir: string, d: Disk, mk: BoxArchive.Mkdir, a: BoxArchive.Archive, fallback: Provider.Format)
    requires BoxArchive.Machine(BoxArchive.Extract(destDir, d, mk, a)).Some?
    ensures var s := BoxArchive.Extract(destDir, d, mk, a);
            && s.machine in s.disk.files
            && FormatOf(s.machine, fallback) == BoxFormat(a) && HasSuffix(s.machine, Extension(BoxFormat(a)))
  {
    hide *;
    ExtensionIs(a);
    MachineSuffix(destDir, d, mk, a);
    MachineIsFile(destDir, d, mk, a);
    FormatOfSuffix(BoxArchive.Extract(destDir, d, mk, a).machine, if HoldsOvf(a) then "ovf" else "vmx", fallback);
  }

  lemma MachineIsFile(destDir: string, d: Disk, mk: BoxArchive.Mkdir, a: BoxArchive.Archive)
    requires BoxArchive.Machine(BoxArchive.Extract(destDir, d, mk, a)).Some?
    ensures var s := BoxArchive.Extract(destDir, d, mk, a); s.machine in s.disk.files
  {
    hide BoxArchive.Extract, BoxArchive.Machine;
    BoxArchive.MachineIsExtracted(destDir, d, mk, a);
  }

  /** The archive a fetch of a box extracts. */
  function BoxOf<S>(h: Hash<S>, d: Disk, r: Resolved, version: string, dir: string, w: World): BoxArchive.Archive
    requires PlanOf(r, version, dir, w).Some?
    requires PlanOf(r, version, dir, w).value.dest in Downloaded(h, d, PlanOf(r, version, dir, w).value, w).files
  {
    var p := PlanOf(r, version, dir, w).value;
    w.decode(Downloaded(h, d, p, w).files[p.dest])
  }

  /** A box is reported by what came out of it, never as the format resolved beforehand:
      as OVF exactly when it holds an .ovf file, else as VMX; and the path has that
      extension and is a file on disk. */
  lemma BoxFormatIsTrue<S>(h: Hash<S>, d: Disk, r: Resolved, version: string, dir: string, w: World)
    requires r.channel.Vagrant? && FetchOf(h, d, r, version, dir, false, w).0.Some?
    ensures PlanOf(r, version, dir, w).Some?
    ensures PlanOf(r, version, dir, w).value.dest in Downloaded(h, d, PlanOf(r, version, dir, w).value, w).files
    ensures var (result, after) := FetchOf(h, d, r, version, dir, false, w);
            && result.value.path in after.files
            && result.value.format == BoxFormat(BoxOf(h, d, r, version, dir, w))
            && HasSuffix(result.value.path, Extension(result.value.format))
  {
    FetchedBox(h, d, r, version, dir, w);
    hide PlanOf, FetchOf, Downloaded, FormatOf, BoxArchive.Extract, BoxArchive.Machine, BoxFormat, Extension, HasSuffix;
    var p := PlanOf(r, version, dir, w).value;
    var d1 := Downloaded(h, d, p, w);
    MachineFormat(p.extractTo.value, d1, w.mkdir, w.decode(d1.files[p.dest]), r.format);
  }

  lemma MachineIs(s: BoxArchive.State)
    ensures BoxArchive.Machine(s).Some? ==> BoxArchive.Machine(s).value == s.machine
  {
  }

  lemma MachineSuffix(destDir: string, d: Disk, mk: BoxArchive.Mkdir, a: BoxArchive.Archive)
    requires BoxArchive.Machine(BoxArchive.Extract(destDir, d, mk, a)).Some?
    ensures HasSuffix(BoxArchive.Extract(destDir, d, mk, a).machine, if HoldsOvf(a) then ".ovf" else ".vmx")
  {
    hide *;
    var ms := a.members;
    var i := BoxArchive.Chosen(ms);
    BoxArchive.MachineIsExtracted(destDir, d, mk, a);
    ChosenKind(a);
    BoxArchive.MachineMeansDone(destDir, d, mk, a);
    BoxArchive.SucceededIsSafe(destDir, BoxArchive.Start(destDir, d, mk), ms, i);
    MemberSuffix(destDir, ms[i]);
  }

  lemma ChosenKind(a: BoxArchive.Archive)
    requires BoxArchive.Chosen(a.members) >= 0
    ensures BoxArchive.Chosen(a.members) < |a.members|
    ensures var m := a.members[BoxArchive.Chosen(a.members)];
            if HoldsOvf(a) then BoxArchive.IsOvf(m) else BoxArchive.IsVmx(m)
  {
    hide BoxArchive.IsOvf, BoxArchive.IsVmx;
    BoxArchive.LastOvfIsLast(a.members);
    BoxArchive.FirstVmxIsFirst(a.members);
  }

  lemma MemberSuffix(destDir: string, m: BoxArchive.Member)
    requires !BoxArchive.Unsafe(m)
    ensures BoxArchive.IsOvf(m) ==> HasSuffix(BoxArchive.Target(destDir, m), ".ovf")
    ensures BoxArchive.IsVmx(m) ==> HasSuffix(BoxArchive.Target(destDir, m), ".vmx")
  {
    hide BoxArchive.Target, BoxArchive.Unsafe, Clean, HasSuffix;
    if BoxArchive.IsOvf(m) {
      TargetSuffix(destDir, m, ".ovf");
    }
    if BoxArchive.IsVmx(m) {
      TargetSuffix(destDir, m, ".vmx");
    }
  }
}
