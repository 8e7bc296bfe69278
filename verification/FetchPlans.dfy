// core/artifact/fetch.go, Fetch: the plan of each kind of source, spelled out, and what a
// dry run foretells.
module FetchPlans {
  import opened Text
  import opened HostFiles
  import opened Hashing
  import opened Paths
  import opened Selection
  import opened Artifacts
  import opened Fetching
  import Provider
  import CacheNames
  import Checksums
  import Download
  import BoxArchive

  function DirOr(dir: string, w: World): string {
    if dir == "" then w.defaultDir else dir
  }

  predicate Newest(version: string) {
    version == "" || version == "latest"
  }

  /** A release asset: "source-tag-asset", from the asset's own address. */
  lemma AssetPlan(r: Resolved, version: string, dir: string, w: World)
    requires r.channel.GitHubAsset? && PlanOf(r, version, dir, w).Some?
    ensures w.release.Some?
    ensures var p, tag := PlanOf(r, version, dir, w).value, w.release.value.tag;
            && p.dest == JoinPath(DirOr(dir, w), r.source + "-" + tag + "-" + r.asset)
            && p.extractTo.None?
            && p.result == FetchResult(p.dest, r.format, tag, p.sum, p.sum != "")
            && exists a :: a in w.release.value.assets && a.name == r.asset && p.url == a.url
                 && (a.digest == "sha256:" + p.sum || a.digest == p.sum)
  {
    var assets := w.release.value.assets;
    AssetSumIsPublished(r, version, dir, w);
    hide JoinPath, AssetNamed, DigestOf;
    var i := AssetNamedIs(assets, r.asset);
    DigestIs(assets[i]);
  }

  /** Image Factory: "source-tag-asset" from the factory's address, without a checksum. */
  lemma TalosPlan(r: Resolved, version: string, dir: string, w: World)
    requires r.channel.TalosFactory? && PlanOf(r, version, dir, w).Some?
    ensures Newest(version) ==> w.release.Some?
    ensures var p := PlanOf(r, version, dir, w).value;
            var tag := if Newest(version) then w.release.value.tag else if version[0] == 'v' then version else "v" + version;
            && p.dest == JoinPath(DirOr(dir, w), r.source + "-" + tag + "-" + r.asset)
            && p.url == "https://factory.talos.dev/image/" + r.locator + "/" + tag + "/" + r.asset
            && p.sum == "" && p.extractTo.None?
            && p.result == FetchResult(p.dest, r.format, tag, "", false)
  {
    StartsWithV(version);
    hide JoinPath, HasPrefix;
  }

  lemma StartsWithV(version: string)
    ensures version != "" ==> (HasPrefix(version, "v") <==> version[0] == 'v')
  {
    if version != "" && version[0] == 'v' {
      assert version == "v" + version[1..];
    }
  }

  /** An Ubuntu cloud image, 24.04 and amd64 unless named. */
  lemma CloudPlan(r: Resolved, version: string, dir: string, w: World)
    requires r.channel.UbuntuCloud? && PlanOf(r, version, dir, w).Some?
    ensures w.sums.Some?
    ensures var p := PlanOf(r, version, dir, w).value;
            var v, arch := if Newest(version) then "24.04" else version, if r.arch == "" then "amd64" else r.arch;
            var fname := "ubuntu-" + v + "-server-cloudimg-" + arch + ".ova";
            && p.dest == JoinPath(DirOr(dir, w), fname)
            && p.url == "https://cloud-images.ubuntu.com/releases/" + v + "/release/" + fname
            && p.sum == Checksums.FindSum(w.sums.value, fname) != "" && p.extractTo.None?
            && p.result == FetchResult(p.dest, r.format, "", p.sum, true)
  {
    hide JoinPath, Checksums.FindSum;
  }

  /** A plain address: "source.format", without a checksum. */
  lemma UrlPlan(r: Resolved, version: string, dir: string, w: World)
    requires r.channel.URL?
    ensures PlanOf(r, version, dir, w).Some?
    ensures var p := PlanOf(r, version, dir, w).value;
            var ext := match r.format
                       case OVA => ".ova" case OVF => ".ovf" case ISO => ".iso"
                       case VMX => ".vmx" case VDI => ".vdi" case VMDK => ".vmdk";
            && p.dest == JoinPath(DirOr(dir, w), r.source + ext)
            && p.url == r.locator && p.sum == "" && p.extractTo.None?
            && p.result == FetchResult(p.dest, r.format, "", "", false)
  {
    FormatExtensions();
    hide JoinPath, FormatName;
    assert r.source + "." + FormatName(r.format) == r.source + ("." + FormatName(r.format));
  }

  lemma FormatExtensions()
    ensures "." + FormatName(Provider.OVA) == ".ova" && "." + FormatName(Provider.OVF) == ".ovf"
    ensures "." + FormatName(Provider.ISO) == ".iso" && "." + FormatName(Provider.VMX) == ".vmx"
    ensures "." + FormatName(Provider.VDI) == ".vdi" && "." + FormatName(Provider.VMDK) == ".vmdk"
  {
  }

  /** A box: kept and extracted below "boxes", under a name made of the locator, the version
      found, the provider and the architecture; amd64 unless known. */
  lemma BoxPlan(r: Resolved, version: string, dir: string, w: World)
    requires r.channel.Vagrant? && PlanOf(r, version, dir, w).Some?
    ensures w.box.Some? && r.vagrantProvider != ""
    ensures var arch := if r.arch == "" then "amd64" else r.arch;
            var found := VagrantResolve(w.box.value, version, r.vagrantProvider, arch);
            var p := PlanOf(r, version, dir, w).value;
            && found.Some?
            && var (ver, e) := found.value;
               var base := Join(Split(r.locator, '/'), '-') + "-" + ver + "-" + r.vagrantProvider + "-" + arch;
            && p.dest == JoinPath(DirOr(dir, w), "boxes/" + base + ".box")
            && p.extractTo == Some(JoinPath(DirOr(dir, w), "boxes/" + base))
            && p.url == e.url && p.sum == (if Recased(e.checksumType, "sha256") then e.checksum else "")
            && p.result == FetchResult(p.extractTo.value, r.format, ver, p.sum, p.sum != "")
  {
    var arch := if r.arch == "" then "amd64" else r.arch;
    assert ArchOr(r.arch) == arch;
    var found := VagrantResolve(w.box.value, version, r.vagrantProvider, arch);
    CacheNames.NameIsSpelled(r.locator, found.value.0, r.vagrantProvider, arch);
    FoldIffRecased(found.value.1.checksumType, "sha256");
    hide JoinPath, VagrantResolve, CacheNames.BoxName, Join, Split, EqualFold, Recased, ArchOr;
  }

  /** A resolution without a kind is an error. */
  lemma UnsetIsUnhandled(r: Resolved, version: string, dir: string, w: World)
    requires r.channel.Unset?
    ensures PlanOf(r, version, dir, w).None?
  {
  }

  /** A dry run foretells what a real one reports: the same result, save that a box is
      then reported with the machine file found in it and that file's format. */
  lemma DryRunForetells<S>(h: Hash<S>, d: Disk, r: Resolved, version: string, dir: string, w: World)
    ensures var (dry, same) := FetchOf(h, d, r, version, dir, true, w);
            var actual := FetchOf(h, d, r, version, dir, false, w).0;
            && same == d
            && (actual.Some? ==>
                  && dry.Some?
                  && actual.value.version == dry.value.version && actual.value.sha256 == dry.value.sha256
                  && actual.value.verified == dry.value.verified
                  && (!r.channel.Vagrant? ==> actual == dry))
  {
    if PlanOf(r, version, dir, w).Some? {
      PlannedFor(r, version, dir, w);
    }
    hide PlanOf, Download.OutcomeOf, Downloaded, Extracted, BoxArchive.Machine, FormatOf;
  }

  /** A box is reported with the machine file its archive holds: the file's format is told
      by the last member ending in ".ovf", else by the first ending in ".vmx". */
  lemma BoxReportsItsMachine<S>(h: Hash<S>, d: Disk, r: Resolved, version: string, dir: string, w: World)
    requires r.channel.Vagrant? && FetchOf(h, d, r, version, dir, false, w).0.Some?
    ensures PlanOf(r, version, dir, w).Some? && PlanOf(r, version, dir, w).value.extractTo.Some?
    ensures PlanOf(r, version, dir, w).value.dest in Downloaded(h, d, PlanOf(r, version, dir, w).value, w).files
    ensures var p, result := PlanOf(r, version, dir, w).value, FetchOf(h, d, r, version, dir, false, w).0.value;
            var ms := BoxOf(h, d, r, version, dir, w).members;
            var i := BoxArchive.Chosen(ms);
            && 0 <= i < |ms|
            && result.path == JoinPath(p.extractTo.value, Clean(ms[i].name))
            && result.format == (if HasSuffix(Clean(ms[i].name), ".ovf") then Provider.OVF else Provider.VMX)
  {
    FetchedBox(h, d, r, version, dir, w);
    BoxFormatIsTrue(h, d, r, version, dir, w);
    var p := PlanOf(r, version, dir, w).value;
    var a := BoxOf(h, d, r, version, dir, w);
    hide PlanOf, FetchOf, Downloaded, FormatOf, BoxArchive.Extract, BoxArchive.Machine, JoinPath, Clean, HasSuffix,
         BoxArchive.Chosen, HoldsOvf, Extension;
    BoxArchive.MachineIsExtracted(p.extractTo.value, Downloaded(h, d, p, w), w.mkdir, a);
    BoxArchive.ChosenByName(a.members);
    ChosenKind(a);
    KindByName(a.members[BoxArchive.Chosen(a.members)]);
  }

  lemma KindByName(m: BoxArchive.Member)
    ensures BoxArchive.IsOvf(m) ==> HasSuffix(Clean(m.name), ".ovf")
    ensures BoxArchive.IsVmx(m) ==> !HasSuffix(Clean(m.name), ".ovf")
  {
    hide Clean;
    var n := Clean(m.name);
    if BoxArchive.IsVmx(m) {
      assert n[|n| - 1] == 'x';
    }
  }
}
