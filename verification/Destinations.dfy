// core/artifact/fetch.go, Fetch: where the destination lies. Tags and versions come from the
// caller, a release or a registry, and go into the file name as they are.
module Destinations {
  import opened Text
  import opened Paths
  import opened Selection
  import opened Artifacts
  import opened Fetching
  import BoxArchive
  import CacheNames

  // ------------------------------------------------------- names joined to directories

  /** The elements a name comes to, starting from these. */
  function From(base: seq<string>, es: seq<string>): seq<string> {
    PushAll(false, base, es)
  }

  lemma DotDotRemains(parts: seq<string>, e: string)
    requires parts != [] && parts[0] == ".."
    ensures !AllOrdinary(Push(false, parts, e))
  {
    var after := Push(false, parts, e);
    assert after != [] && after[0] == "..";
    assert !Ordinary(after[0]);
  }

  /** A step that ends in ordinary elements started from such. */
  lemma PushedFromOrdinary(parts: seq<string>, e: string)
    requires Normal(false, parts) && AllOrdinary(Push(false, parts, e))
    ensures AllOrdinary(parts)
  {
    hide Push;
    if parts != [] && parts[0] == ".." {
      DotDotRemains(parts, e);
    } else {
      NoLaterDotDot(parts);
    }
  }

  /** From ordinary elements only a step up from none of them leaves others. */
  lemma OrdinaryPush(parts: seq<string>, e: string)
    requires AllOrdinary(parts) && '/' !in e
    ensures AllOrdinary(Push(false, parts, e)) <==> !(parts == [] && e == "..")
  {
    var after := Push(false, parts, e);
    if parts == [] && e == ".." {
      assert after == [".."];
      assert !Ordinary(after[0]);
    }
  }

  lemma FromNormal(base: seq<string>, es: seq<string>)
    requires AllOrdinary(base) && Free(es, '/')
    ensures Normal(false, From(base, es))
  {
    PushAllKeepsNormal(false, base, es);
  }

  /** If the elements of a name stay at or below where they start, they do so anywhere. */
  lemma {:induction false} StaysOnto(rooted: bool, base: seq<string>, es: seq<string>)
    requires Free(es, '/') && AllOrdinary(From([], es))
    ensures PushAll(rooted, base, es) == base + From([], es)
  {
    hide Push, Ordinary, Normal;
    if es != [] {
      var init, e := es[..|es| - 1], es[|es| - 1];
      FromNormal([], init);
      PushedFromOrdinary(From([], init), e);
      StaysOnto(rooted, base, init);
      PushOnto(rooted, base, From([], init), e);
    }
  }

  lemma PushOnto(rooted: bool, base: seq<string>, parts: seq<string>, e: string)
    requires AllOrdinary(parts) && AllOrdinary(Push(false, parts, e)) && '/' !in e
    ensures Push(rooted, base + parts, e) == base + Push(false, parts, e)
  {
    OrdinaryPush(parts, e);
    if e == ".." {
      assert (base + parts)[..|base + parts| - 1] == base + parts[..|parts| - 1];
      assert Ordinary(parts[|parts| - 1]);
    }
  }

  /** If they do not, they leave a directory whose name they do not hold. */
  lemma {:induction false} LeavesIt(d: string, es: seq<string>)
    requires Free(es, '/') && Ordinary(d) && d != ".." && d !in es && !AllOrdinary(From([], es))
    ensures d !in PushAll(true, [d], es)
  {
    hide Ordinary, Normal, Push;
    var init, e := es[..|es| - 1], es[|es| - 1];
    FromNormal([], init);
    if AllOrdinary(From([], init)) {
      StaysOnto(true, [d], init);
      StepsOut(d, From([], init), e);
    } else {
      LeavesIt(d, init);
      NotPushed(d, PushAll(true, [d], init), e);
    }
  }

  lemma StepsOut(d: string, parts: seq<string>, e: string)
    requires AllOrdinary(parts) && Ordinary(d) && '/' !in e && !AllOrdinary(Push(false, parts, e))
    ensures d !in Push(true, [d] + parts, e)
  {
    OrdinaryPush(parts, e);
    assert [d] + parts == [d];
  }

  lemma NotPushed(d: string, parts: seq<string>, e: string)
    requires d !in parts && d != e && d != ".."
    ensures d !in Push(true, parts, e)
  {
  }

  lemma {:induction false} PartsAreShorter(parts: seq<string>, i: nat)
    requires i < |parts|
    ensures |parts[i]| <= |Join(parts, '/')|
  {
    if i > 0 {
      PartsAreShorter(parts[1..], i - 1);
    }
  }

  lemma FreshDir(name: string) returns (d: string)
    ensures Ordinary(d) && d !in Split(name, '/') && d != ".."
    ensures IsAbs("/" + d) && Parts("/" + d) == [d]
  {
    d := seq(|name| + 3, _ => 'd');
    var parts := Split(name, '/');
    SplitParts(name, '/');
    hide Split, Join, Parts, Render, PushAll;
    forall i | 0 <= i < |parts| ensures parts[i] != d {
      PartsAreShorter(parts, i);
    }
    assert Normal(true, [d]);
    RenderReads(true, [d]);
    RenderOfOne(d);
  }

  lemma RenderOfOne(d: string)
    ensures Render(true, [d]) == "/" + d && IsAbs("/" + d)
  {
  }

  /** A name joined to any directory stays in it, if and only if its elements never climb
      above where they start. */
  lemma NameStaysIff(name: string)
    requires name != ""
    ensures (forall dir :: dir != "" ==> BoxArchive.Under(dir, JoinPath(dir, name)))
            <==> AllOrdinary(From([], Split(name, '/')))
  {
    var es := Split(name, '/');
    SplitParts(name, '/');
    hide Split, JoinPath, Parts, PushAll, Ordinary, IsAbs;
    if AllOrdinary(From([], es)) {
      forall dir | dir != "" ensures BoxArchive.Under(dir, JoinPath(dir, name)) {
        JoinPushesAll(dir, name);
        StaysOnto(IsAbs(dir), Parts(dir), es);
      }
    } else {
      var d := FreshDir(name);
      LeavesIt(d, es);
      JoinPushesAll("/" + d, name);
      NotUnder(d, Parts(JoinPath("/" + d, name)));
      assert !BoxArchive.Under("/" + d, JoinPath("/" + d, name));
    }
  }

  lemma NotUnder(d: string, parts: seq<string>)
    requires d !in parts
    ensures !([d] <= parts)
  {
    assert [d][0] == d;
    if parts != [] {
      assert parts[0] in parts;
    }
  }

  // ---------------------------------------------------- a tag inside a file name

  /** A tag or version never climbs above where it starts, counting `depth` for the
      elements it starts below: its elements but the first and the last, below those. */
  predicate Stays(depth: seq<string>, tag: string) {
    var es := Split(tag, '/');
    |es| == 1 || AllOrdinary(From(depth + ["x"], es[1..|es| - 1]))
  }

  /** The elements from two ordinary starts differ in the start only, if at all. */
  lemma {:induction false} SameShape(depth: seq<string>, a: string, b: string, es: seq<string>)
    requires AllOrdinary(depth) && Ordinary(a) && Ordinary(b) && Free(es, '/')
    ensures Shaped(depth, a, b, From(depth + [a], es), From(depth + [b], es))
  {
    hide Ordinary, Push;
    if es != [] {
      var init, e := es[..|es| - 1], es[|es| - 1];
      SameShape(depth, a, b, init);
      ShapeStep(depth, a, b, From(depth + [a], init), From(depth + [b], init), e);
    } else {
      assert (depth + [a])[|depth| + 1..] == (depth + [b])[|depth| + 1..];
    }
  }

  predicate Shaped(depth: seq<string>, a: string, b: string, x: seq<string>, y: seq<string>) {
    var n := |depth|;
    x == y || (|x| == |y| > n && x[..n] == y[..n] && x[n] == a && y[n] == b && x[n + 1..] == y[n + 1..])
  }

  lemma ShapeStep(depth: seq<string>, a: string, b: string, x: seq<string>, y: seq<string>, e: string)
    requires Ordinary(a) && Ordinary(b) && Shaped(depth, a, b, x, y)
    ensures Shaped(depth, a, b, Push(false, x, e), Push(false, y, e))
  {
    var n := |depth|;
    if x != y {
      assert a != ".." && b != "..";
      hide Ordinary;
      SameAfter(n, x, y, |x| - 1);
      if e == "" || e == "." {
      } else if e == ".." && x[|x| - 1] != ".." {
        ShapePop(depth, a, b, x, y);
      } else {
        ShapeGrows(depth, a, b, x, y, e);
      }
    }
  }

  lemma SameAfter(n: nat, x: seq<string>, y: seq<string>, k: nat)
    requires n < |x| == |y| && x[n + 1..] == y[n + 1..] && k < |x|
    ensures k > n ==> x[k] == y[k]
  {
    if k > n {
      assert x[n + 1..][k - n - 1] == y[n + 1..][k - n - 1];
    }
  }

  lemma ShapePop(depth: seq<string>, a: string, b: string, x: seq<string>, y: seq<string>)
    requires Shaped(depth, a, b, x, y) && x != y
    ensures Shaped(depth, a, b, x[..|x| - 1], y[..|y| - 1])
  {
    var n, k := |depth|, |x| - 1;
    assert x[..k][..n] == x[..n] && y[..k][..n] == y[..n];
    if k == n {
      assert x[..k] == y[..k];
    } else {
      assert x[..k][n + 1..] == x[n + 1..][..k - n - 1] && y[..k][n + 1..] == y[n + 1..][..k - n - 1];
    }
  }

  lemma ShapeGrows(depth: seq<string>, a: string, b: string, x: seq<string>, y: seq<string>, e: string)
    requires Shaped(depth, a, b, x, y) && x != y
    ensures Shaped(depth, a, b, x + [e], y + [e])
  {
    var n := |depth|;
    assert (x + [e])[..n] == x[..n] && (y + [e])[..n] == y[..n];
    assert (x + [e])[n + 1..] == x[n + 1..] + [e] && (y + [e])[n + 1..] == y[n + 1..] + [e];
  }

  lemma ShapedOrdinary(depth: seq<string>, a: string, b: string, x: seq<string>, y: seq<string>)
    requires Ordinary(a) && Ordinary(b) && Shaped(depth, a, b, x, y)
    ensures AllOrdinary(x) ==> AllOrdinary(y)
  {
    var n := |depth|;
    if AllOrdinary(x) && x != y {
      forall i | 0 <= i < |y| ensures Ordinary(y[i]) {
        if i < n {
          assert y[..n][i] == x[..n][i];
        } else if i > n {
          assert y[n + 1..][i - n - 1] == x[n + 1..][i - n - 1];
        }
      }
    }
  }

  lemma ShapedBack(depth: seq<string>, a: string, b: string, x: seq<string>, y: seq<string>)
    requires Shaped(depth, a, b, x, y)
    ensures Shaped(depth, b, a, y, x)
  {
  }

  lemma HyphenIsOrdinary(e: string)
    requires '-' in e && '/' !in e
    ensures Ordinary(e)
  {
    assert e != "." && e != "..";
  }

  lemma LastIsOrdinary(parts: seq<string>, last: string)
    requires Ordinary(last)
    ensures Push(false, parts, last) == parts + [last]
    ensures AllOrdinary(parts + [last]) <==> AllOrdinary(parts)
  {
    assert last != "" && last != "." && last != "..";
    hide Ordinary;
    if AllOrdinary(parts + [last]) {
      forall i | 0 <= i < |parts| ensures Ordinary(parts[i]) {
        assert (parts + [last])[i] == parts[i];
      }
    }
  }

  /** The elements of a tag between two slash-free texts. */
  lemma WrappedElements(front: string, tag: string, back: string)
    requires '/' !in front && '/' !in back
    ensures var es, ws := Split(tag, '/'), Split(front + tag + back, '/');
            && |ws| == |es|
            && (|es| == 1 ==> ws == [front + tag + back] && '/' !in tag)
            && (|es| > 1 ==> ws == [front + es[0]] + es[1..|es| - 1] + [es[|es| - 1] + back])
            && Free(es, '/')
  {
    var es := Split(tag, '/');
    SplitParts(tag, '/');
    hide Split;
    if '/' in tag {
      var head, rest := AtFirstByte(tag, '/');
      SplitFirst(head, rest, '/');
      assert front + tag + back == (front + head) + ['/'] + (rest + back);
      SplitFirst(front + head, rest + back, '/');
      var init, last := SplitGrows(rest, back);
      assert es == [head] + (init + [last]);
      assert es[1..|es| - 1] == init;
      assert [front + head] + (init + [last + back]) == [front + head] + init + [last + back];
    } else {
      SplitFirst(tag, "", '/');
      SplitFirst(front + tag + back, "", '/');
    }
  }

  lemma WrappedHasHyphen(front: string, e: string)
    requires '-' in front
    ensures '-' in front + e && '-' in e + front
  {
  }

  lemma OneElementStays(depth: seq<string>, e: string)
    requires AllOrdinary(depth) && '-' in e && '/' !in e
    ensures AllOrdinary(From(depth, [e]))
  {
    HyphenIsOrdinary(e);
    hide Ordinary, Push, PushAll;
    PushAllOne(false, depth, e);
    LastIsOrdinary(depth, e);
  }

  lemma ElementsStayIff(depth: seq<string>, first: string, mid: seq<string>, last: string)
    requires AllOrdinary(depth) && Free(mid, '/')
    requires '-' in first && '/' !in first && '-' in last && '/' !in last
    ensures AllOrdinary(From(depth, [first] + mid + [last])) <==> AllOrdinary(From(depth + ["x"], mid))
  {
    hide *;
    HyphenIsOrdinary(first);
    HyphenIsOrdinary(last);
    XIsOrdinary();
    FromThree(depth, first, mid, last);
    LastIsOrdinary(From(depth + [first], mid), last);
    SameShape(depth, first, "x", mid);
    ShapedBack(depth, first, "x", From(depth + [first], mid), From(depth + ["x"], mid));
    ShapedOrdinary(depth, first, "x", From(depth + [first], mid), From(depth + ["x"], mid));
    ShapedOrdinary(depth, "x", first, From(depth + ["x"], mid), From(depth + [first], mid));
  }

  lemma StaysIs(depth: seq<string>, tag: string)
    ensures var es := Split(tag, '/');
            Stays(depth, tag) <==> |es| == 1 || AllOrdinary(From(depth + ["x"], es[1..|es| - 1]))
  {
    hide From, AllOrdinary;
  }

  lemma MiddleIsFree(es: seq<string>)
    requires Free(es, '/') && |es| > 1
    ensures Free(es[1..|es| - 1], '/') && '/' !in es[0] && '/' !in es[|es| - 1]
  {
  }

  lemma WrappedHasNoSlash(front: string, e: string)
    requires '/' !in front && '/' !in e
    ensures '/' !in front + e && '/' !in e + front
  {
  }

  /** A tag between two texts with hyphens, below some directories: the whole stays where
      it starts exactly when the tag does. */
  lemma WrappedStaysIff(depth: seq<string>, front: string, tag: string, back: string)
    requires AllOrdinary(depth) && '/' !in front && '/' !in back && '-' in front && '-' in back
    ensures AllOrdinary(From(depth, Split(front + tag + back, '/'))) <==> Stays(depth, tag)
  {
    hide *;
    var es := Split(tag, '/');
    WrappedElements(front, tag, back);
    StaysIs(depth, tag);
    if |es| == 1 {
      WrappedHasHyphen(front, tag);
      WrappedHasNoSlash(front, tag);
      WrappedHasHyphen(back, front + tag);
      WrappedHasNoSlash(back, front + tag);
      OneElementStays(depth, front + tag + back);
    } else {
      var n := |es| - 1;
      MiddleIsFree(es);
      WrappedHasHyphen(front, es[0]);
      WrappedHasNoSlash(front, es[0]);
      WrappedHasHyphen(back, es[n]);
      WrappedHasNoSlash(back, es[n]);
      ElementsStayIff(depth, front + es[0], es[1..n], es[n] + back);
    }
  }

  lemma XIsOrdinary()
    ensures Ordinary("x")
  {
  }

  lemma FromThree(depth: seq<string>, first: string, mid: seq<string>, last: string)
    requires Ordinary(first)
    ensures From(depth, [first] + mid + [last]) == Push(false, From(depth + [first], mid), last)
  {
    PushAllOne(false, depth, first);
    PushAllConcat(false, depth, [first] + mid, [last]);
    PushAllConcat(false, depth, [first], mid);
    PushAllOne(false, From(depth + [first], mid), last);
    assert Push(false, depth, first) == depth + [first];
    hide Push, PushAll;
  }

  // ------------------------------------------------------------ the plans of Fetch

  /** The text that goes into the file name as it is: a tag or a version. */
  function TagOf(r: Resolved, version: string, w: World): string {
    match r.channel
    case GitHubAsset => if w.release.Some? then w.release.value.tag else ""
    case TalosFactory => if TalosTag(version, w).Some? then TalosTag(version, w).value else ""
    case UbuntuCloud => CloudVersion(version)
    case Vagrant =>
      if w.box.None? then ""
      else
        var found := VagrantResolve(w.box.value, version, r.vagrantProvider, ArchOr(r.arch));
        if found.Some? then found.value.0 else ""
    case _ => ""
  }

  /** What stands before and after it in its element of the name. */
  function FrontOf(r: Resolved): string {
    match r.channel
    case UbuntuCloud => "ubuntu-"
    case Vagrant => CacheNames.Dashed(r.locator) + "-"
    case _ => r.source + "-"
  }

  function BackOf(r: Resolved): string {
    match r.channel
    case UbuntuCloud => "-server-cloudimg-" + ArchOr(r.arch) + ".ova"
    case Vagrant => "-" + r.vagrantProvider + "-" + ArchOr(r.arch) + ".box"
    case _ => "-" + r.asset
  }

  /** The directories below the one asked for. */
  function DepthOf(r: Resolved): seq<string> {
    if r.channel.Vagrant? then ["boxes"] else []
  }

  function FolderOf(r: Resolved): string {
    if r.channel.Vagrant? then "boxes/" else ""
  }

  predicate Tagged(c: Channel) {
    c.GitHubAsset? || c.TalosFactory? || c.UbuntuCloud? || c.Vagrant?
  }

  /** The parts of the name that come from the catalog and the host hold no slash. */
  predicate PlainNames(r: Resolved) {
    '/' !in r.source && '/' !in r.asset && '/' !in r.vagrantProvider && '/' !in ArchOr(r.arch)
  }

  lemma ConcatFive(a: string, b: string, c: string, d: string, e: string)
    ensures a + "-" + b + "-" + c == a + "-" + b + ("-" + c)
    ensures a + b + (c + d + e) == a + b + c + d + e
  {
  }

  lemma AssetIsNamed(assets: seq<Asset>, name: string)
    ensures AssetNamed(assets, name).Some? ==> AssetNamed(assets, name).value.name == name
  {
  }

  lemma DestOfTalos(r: Resolved, version: string, dir: string, w: World)
    requires dir != "" && PlanOf(r, version, dir, w).Some? && r.channel.TalosFactory?
    ensures PlanOf(r, version, dir, w).value.dest == JoinPath(dir, FrontOf(r) + TagOf(r, version, w) + BackOf(r))
  {
    var tag := TagOf(r, version, w);
    hide JoinPath, TalosTag, TalosUrl;
    ConcatFive(r.source, tag, r.asset, "", "");
  }

  lemma DestOfAsset(r: Resolved, version: string, dir: string, w: World)
    requires dir != "" && PlanOf(r, version, dir, w).Some? && r.channel.GitHubAsset?
    ensures PlanOf(r, version, dir, w).value.dest == JoinPath(dir, FrontOf(r) + TagOf(r, version, w) + BackOf(r))
  {
    AssetIsNamed(w.release.value.assets, r.asset);
    hide JoinPath, AssetNamed, DigestOf;
    ConcatFive(r.source, w.release.value.tag, r.asset, "", "");
  }

  lemma DestOfCloud(r: Resolved, version: string, dir: string, w: World)
    requires dir != "" && PlanOf(r, version, dir, w).Some? && r.channel.UbuntuCloud?
    ensures PlanOf(r, version, dir, w).value.dest == JoinPath(dir, FrontOf(r) + TagOf(r, version, w) + BackOf(r))
  {
    var v, arch := CloudVersion(version), ArchOr(r.arch);
    hide JoinPath, CloudVersion, ArchOr, Checksums.FindSum, CloudUrl;
    ConcatFive("ubuntu-", v, "-server-cloudimg-", arch, ".ova");
    assert PlanOf(r, version, dir, w).value.dest == JoinPath(dir, ImageName(version, r.arch));
  }

  lemma DestOfBox(r: Resolved, version: string, dir: string, w: World)
    requires dir != "" && PlanOf(r, version, dir, w).Some? && r.channel.Vagrant?
    ensures PlanOf(r, version, dir, w).value.dest == JoinPath(dir, "boxes/" + (FrontOf(r) + TagOf(r, version, w) + BackOf(r)))
  {
    var ver, loc, arch := TagOf(r, version, w), CacheNames.Dashed(r.locator), ArchOr(r.arch);
    hide JoinPath, ArchOr, VagrantResolve, EntrySum, CacheNames.Dashed, BoxDir;
    NameOfBox(loc, ver, r.vagrantProvider, arch);
    assert PlanOf(r, version, dir, w).value.dest == BoxPath(dir, CacheNames.BoxName(r.locator, ver, r.vagrantProvider, arch));
  }

  lemma NameOfBox(loc: string, ver: string, vp: string, arch: string)
    ensures "boxes/" + (loc + "-" + ver + "-" + vp + "-" + arch) + ".box" ==
              "boxes/" + ((loc + "-") + ver + ("-" + vp + "-" + arch + ".box"))
  {
    var back := "-" + vp + "-" + arch;
    assert loc + "-" + ver + "-" + vp + "-" + arch == (loc + "-") + ver + back;
    assert "boxes/" + ((loc + "-") + ver + back) + ".box" == "boxes/" + ((loc + "-") + ver + (back + ".box"));
  }

  lemma DestinationIs(r: Resolved, version: string, dir: string, w: World)
    requires dir != "" && PlanOf(r, version, dir, w).Some? && Tagged(r.channel)
    ensures PlanOf(r, version, dir, w).value.dest ==
              JoinPath(dir, FolderOf(r) + (FrontOf(r) + TagOf(r, version, w) + BackOf(r)))
  {
    hide PlanOf, JoinPath, FrontOf, TagOf, BackOf;
    match r.channel {
      case TalosFactory => DestOfTalos(r, version, dir, w);
      case GitHubAsset => DestOfAsset(r, version, dir, w);
      case UbuntuCloud => DestOfCloud(r, version, dir, w);
      case Vagrant => DestOfBox(r, version, dir, w);
    }
    NoFolder(FrontOf(r) + TagOf(r, version, w) + BackOf(r));
  }

  lemma NoFolder(name: string)
    ensures "" + name == name
  {
  }

  lemma {:induction false} DashedHasNoSlash(s: string)
    ensures '/' !in ReplaceAll(s, "/", "-")
    decreases |s|
  {
    if s != "" {
      if OccursAt(s, "/", 0) {
        DashedHasNoSlash(s[1..]);
      } else {
        assert s[0..1] == [s[0]] && "/" == ['/'];
        DashedHasNoSlash(s[1..]);
      }
    }
  }

  lemma FrontAndBack(r: Resolved)
    requires Tagged(r.channel) && PlainNames(r)
    ensures '/' !in FrontOf(r) && '/' !in BackOf(r) && '-' in FrontOf(r) && '-' in BackOf(r)
  {
    DashedHasNoSlash(r.locator);
    hide CacheNames.Dashed, ArchOr, ReplaceAll;
    assert '/' !in "ubuntu-" && '/' !in "-server-cloudimg-" && '/' !in ".ova" && '/' !in ".box" && '/' !in "-";
    assert "ubuntu-"[6] == '-';
    match r.channel {
      case UbuntuCloud => assert BackOf(r)[0] == '-';
      case Vagrant => DashedIs(r.locator); VagrantBack(r.vagrantProvider, ArchOr(r.arch));
      case GitHubAsset => assert FrontOf(r)[|r.source|] == '-' && BackOf(r)[0] == '-';
      case TalosFactory => assert FrontOf(r)[|r.source|] == '-' && BackOf(r)[0] == '-';
    }
  }

  lemma DashedIs(locator: string)
    ensures CacheNames.Dashed(locator) == ReplaceAll(locator, "/", "-")
    ensures '-' in CacheNames.Dashed(locator) + "-"
  {
    assert (CacheNames.Dashed(locator) + "-")[|CacheNames.Dashed(locator)|] == '-';
  }

  lemma VagrantBack(vp: string, arch: string)
    requires '/' !in vp && '/' !in arch
    ensures var back := "-" + vp + "-" + arch + ".box"; '/' !in back && '-' in back
  {
    assert '/' !in ".box";
    assert ("-" + vp + "-" + arch + ".box")[0] == '-';
  }

  lemma FolderElements(r: Resolved, name: string)
    ensures From([], Split(FolderOf(r) + name, '/')) == From(DepthOf(r), Split(name, '/'))
    ensures AllOrdinary(DepthOf(r))
  {
    assert Ordinary("boxes") && '/' !in "boxes";
    NoFolder(name);
    if r.channel.Vagrant? {
      assert "boxes/" + name == "boxes" + ['/'] + name;
      hide Split, Push;
      SplitFirst("boxes", name, '/');
      PushAllConcat(false, [], ["boxes"], Split(name, '/'));
      PushAllOne(false, [], "boxes");
      PushBoxes();
    }
  }

  lemma PushBoxes()
    ensures Push(false, [], "boxes") == ["boxes"]
  {
  }

  lemma PlanAnyDir(r: Resolved, version: string, dir: string, dir': string, w: World)
    ensures PlanOf(r, version, dir, w).Some? <==> PlanOf(r, version, dir', w).Some?
  {
    hide JoinPath, Checksums.FindSum, VagrantResolve, CacheNames.BoxName, AssetNamed, EntrySum, BoxPath, BoxDir, DigestOf, FormatName, ImageName, TalosTag, TalosUrl, CloudUrl;
  }

  /** Fetch writes inside the directory it is given, whichever that is, if and only if the
      tag or version it puts into the name never climbs above where it starts. */
  lemma DestinationStaysIff(r: Resolved, version: string, some: string, w: World)
    requires Tagged(r.channel) && PlainNames(r) && PlanOf(r, version, some, w).Some?
    ensures (forall dir :: dir != "" ==>
               PlanOf(r, version, dir, w).Some? && BoxArchive.Under(dir, PlanOf(r, version, dir, w).value.dest))
            <==> Stays(DepthOf(r), TagOf(r, version, w))
  {
    var name := FrontOf(r) + TagOf(r, version, w) + BackOf(r);
    var full := FolderOf(r) + name;
    FrontAndBack(r);
    FolderElements(r, name);
    NotEmpty(FolderOf(r), FrontOf(r), TagOf(r, version, w), BackOf(r));
    hide PlanOf, JoinPath, FrontOf, TagOf, BackOf, FolderOf, DepthOf, Split, PushAll, Ordinary, BoxArchive.Under, PlainNames, From, Stays;
    WrappedStaysIff(DepthOf(r), FrontOf(r), TagOf(r, version, w), BackOf(r));
    NameStaysIff(full);
    forall dir | dir != ""
      ensures PlanOf(r, version, dir, w).Some? && PlanOf(r, version, dir, w).value.dest == JoinPath(dir, full)
    {
      PlanAnyDir(r, version, dir, some, w);
      DestinationIs(r, version, dir, w);
    }
  }

  lemma NotEmpty(folder: string, front: string, tag: string, back: string)
    requires '-' in front
    ensures folder + (front + tag + back) != ""
  {
  }

  /** A tag without a slash stays. */
  lemma SlashFreeStays(depth: seq<string>, tag: string)
    requires '/' !in tag
    ensures Stays(depth, tag)
  {
    SplitFirst(tag, "", '/');
  }

  lemma Spelled(a: string, b: string)
    ensures a + "/../../" + b == a + ['/'] + (".." + ['/'] + (".." + ['/'] + b))
  {
    assert "/../../" == ['/'] + (".." + ['/'] + (".." + ['/']));
    Nested(a, "..", "..", b);
  }

  lemma Nested(a: string, u: string, v: string, b: string)
    ensures a + (['/'] + (u + ['/'] + (v + ['/']))) + b == a + ['/'] + (u + ['/'] + (v + ['/'] + b))
  {
  }

  lemma FourElements(a: string, b: string)
    requires '/' !in a && '/' !in b
    ensures Split(a + "/../../" + b, '/') == [a, "..", "..", b]
  {
    assert '/' !in "..";
    hide *;
    Spelled(a, b);
    SplitFirst(a, ".." + ['/'] + (".." + ['/'] + b), '/');
    SplitFirst("..", ".." + ['/'] + b, '/');
    SplitFirst("..", b, '/');
    SplitFirst(b, "", '/');
    Listed(a, "..", "..", b);
  }

  lemma Listed(a: string, u: string, v: string, b: string)
    ensures [a] + ([u] + ([v] + [b])) == [a, u, v, b]
  {
  }

  /** Two steps up do not: such a Talos version makes Fetch write beside its directory. */
  lemma TwoStepsUpLeave(a: string, b: string)
    requires '/' !in a && '/' !in b
    ensures !Stays([], a + "/../../" + b)
  {
    FourElements(a, b);
    UpTwice();
    hide Split, PushAll, From, AllOrdinary;
    var es: seq<string> := [a, "..", "..", b];
    assert es[1..3] == ["..", ".."];
  }

  lemma UpTwice()
    ensures !AllOrdinary(From([] + ["x"], ["..", ".."]))
  {
    assert ["..", ".."][..1] == [".."] && [".."][..0] == [] && [] + ["x"] == ["x"];
    assert From(["x"], [".."]) == [];
    assert From(["x"], ["..", ".."]) == [".."];
    assert !Ordinary([".."][0]);
  }
}
