// core/artifact/fetch.go, the Vagrant cache key: one name per (box, version, provider, arch).
module CacheNames {
  import opened Text

  function Dashed(locator: string): string {
    ReplaceAll(locator, "/", "-")
  }

  /** The base name of a box in the cache. */
  function BoxName(locator: string, version: string, provider: string, arch: string): string {
    Dashed(locator) + "-" + version + "-" + provider + "-" + arch
  }

  predicate IsRegistryName(provider: string) {
    provider == "virtualbox" || provider == "vmware_desktop"
  }

  /** The last three hyphen-separated fields are version, provider and architecture, and
      the rest is the dashed locator. */
  lemma NameDecodes(locator: string, version: string, provider: string, arch: string)
    requires '-' !in version && '-' !in arch && IsRegistryName(provider)
    ensures Split(BoxName(locator, version, provider, arch), '-') == Split(Dashed(locator), '-') + [version, provider, arch]
  {
    RegistryNamesAreHyphenFree(provider);
    hide *;
    NameIs(locator, version, provider, arch);
    SplitThree(version, provider, arch);
    SplitConcat(Dashed(locator), version + ['-'] + (provider + ['-'] + arch), '-');
  }

  lemma SplitThree(a: string, b: string, c: string)
    requires '-' !in a && '-' !in b && '-' !in c
    ensures Split(a + ['-'] + (b + ['-'] + c), '-') == [a, b, c]
  {
    hide *;
    SplitTwo(b, c);
    SplitFirst(a, b + ['-'] + c, '-');
    assert [a] + [b, c] == [a, b, c];
  }

  lemma SplitTwo(b: string, c: string)
    requires '-' !in b && '-' !in c
    ensures Split(b + ['-'] + c, '-') == [b, c]
  {
    hide *;
    SplitFirst(b, c, '-');
    SplitFirst(c, "", '-');
    assert [b] + [c] == [b, c];
  }

  lemma RegistryNamesAreHyphenFree(provider: string)
    requires IsRegistryName(provider)
    ensures '-' !in provider
  {
  }

  /** The name, nested to the right. */
  lemma NameIs(locator: string, version: string, provider: string, arch: string)
    ensures BoxName(locator, version, provider, arch) ==
              Dashed(locator) + ['-'] + (version + ['-'] + (provider + ['-'] + arch))
  {
    var loc := Dashed(locator);
    hide Dashed;
    var tail := provider + ['-'] + arch;
    assert loc + "-" + version + "-" + tail == loc + ['-'] + (version + ['-'] + tail);
    assert loc + "-" + version + "-" + provider + "-" + arch == loc + "-" + version + "-" + tail;
  }

  /** Two boxes share a cache name only if they agree on everything but how the locator
      spells its slashes. */
  lemma NamesDiffer(l1: string, v1: string, p1: string, a1: string, l2: string, v2: string, p2: string, a2: string)
    requires '-' !in v1 && '-' !in a1 && IsRegistryName(p1)
    requires '-' !in v2 && '-' !in a2 && IsRegistryName(p2)
    requires BoxName(l1, v1, p1, a1) == BoxName(l2, v2, p2, a2)
    ensures v1 == v2 && p1 == p2 && a1 == a2 && Dashed(l1) == Dashed(l2)
  {
    NameDecodes(l1, v1, p1, a1);
    NameDecodes(l2, v2, p2, a2);
    SplitParts(Dashed(l1), '-');
    SplitParts(Dashed(l2), '-');
    var s1, s2 := Split(Dashed(l1), '-'), Split(Dashed(l2), '-');
    hide Split, BoxName, Dashed, IsRegistryName;
    var all := s1 + [v1, p1, a1];
    assert all == s2 + [v2, p2, a2];
    assert |s1| == |s2|;
    assert s1 == all[..|s1|] == s2;
    assert all[|s1|] == v1 == v2 && all[|s1| + 1] == p1 == p2 && all[|s1| + 2] == a1 == a2;
  }

  /** The condition on versions is needed: a hyphen can move between locator and version. */
  lemma HyphenCollides(a: string, b: string, c: string, provider: string, arch: string)
    requires '/' !in a && '/' !in b
    ensures BoxName(a, b + "-" + c, provider, arch) == BoxName(a + "-" + b, c, provider, arch)
  {
    assert '/' !in a + "-" + b;
    ReplaceNone(a, "/", "-");
    ReplaceNone(a + "-" + b, "/", "-");
    NameIs(a, b + "-" + c, provider, arch);
    NameIs(a + "-" + b, c, provider, arch);
    assert Dashed(a) == a && Dashed(a + "-" + b) == a + "-" + b;
    hide *;
    MoveHyphen(a, b, c, ['-'] + (provider + ['-'] + arch));
    assert b + "-" + c + ['-'] + (provider + ['-'] + arch) == b + "-" + c + (['-'] + (provider + ['-'] + arch));
    assert c + ['-'] + (provider + ['-'] + arch) == c + (['-'] + (provider + ['-'] + arch));
  }

  lemma MoveHyphen(a: string, b: string, c: string, rest: string)
    ensures a + ['-'] + (b + "-" + c + rest) == a + "-" + b + ['-'] + (c + rest)
  {
  }

  lemma {:induction false} LastHyphen(s: string) returns (b: string, c: string)
    requires '-' in s
    ensures s == b + "-" + c && '-' !in c
  {
    var n := |s| - 1;
    if s[n] == '-' {
      b, c := s[..n], "";
    } else {
      assert '-' in s[..n];
      var b', c' := LastHyphen(s[..n]);
      b, c := b', c' + [s[n]];
    }
  }

  /** A version is told apart from every other hyphen-free one, whatever the locators, if
      and only if it holds no hyphen. */
  lemma VersionToldApartIff(version: string, provider: string, arch: string)
    requires '/' !in version && '-' !in arch && IsRegistryName(provider)
    ensures (forall l1, l2, v2 :: '-' !in v2 && v2 != version ==>
               BoxName(l1, version, provider, arch) != BoxName(l2, v2, provider, arch))
            <==> '-' !in version
  {
    hide BoxName, IsRegistryName;
    if '-' in version {
      var b, c := LastHyphen(version);
      assert |c| < |version|;
      assert forall x :: x in b ==> x in version;
      HyphenCollides("", b, c, provider, arch);
    } else {
      forall l1, l2, v2 | '-' !in v2 && v2 != version
        ensures BoxName(l1, version, provider, arch) != BoxName(l2, v2, provider, arch)
      {
        if BoxName(l1, version, provider, arch) == BoxName(l2, v2, provider, arch) {
          NamesDiffer(l1, version, provider, arch, l2, v2, provider, arch);
        }
      }
    }
  }

  /** The name, spelled out, with the locator's slashes turned into hyphens. */
  lemma NameIsSpelled(locator: string, version: string, provider: string, arch: string)
    ensures BoxName(locator, version, provider, arch) ==
              Join(Split(locator, '/'), '-') + "-" + version + "-" + provider + "-" + arch
  {
    ReplaceIsSplitJoin(locator, '/', '-');
    assert "/" == ['/'] && "-" == ['-'];
    hide ReplaceAll, Join, Split;
  }
}
