// provider/vmware/ops.go: the VM index (List, Running), the name resolver (resolveVMX),
// and the running guard (ensureOff, configure).
module Inventory {
  import opened Text
  import opened Paths

  const BUNDLE := ".vmwarevm"
  const VMX := ".vmx"

  // ------------------------------------------------------------------ directories

  /** Directory listings: from a cleaned directory path to the names in it, in the order
      filepath.Glob visits them. Patterns in which the directory part holds glob
      characters are not interpreted: `wild` is whatever filepath.Glob makes of them. */
  datatype Tree = Tree(names: map<string, seq<string>>, wild: string -> seq<string>)

  /** What a real directory tree looks like: proper names, none twice. */
  ghost predicate TreeOK(t: Tree) {
    forall dir | dir in t.names :: Clean(dir) == dir && NamesOK(t.names[dir])
  }

  /** What filepath.Glob makes of a rooted pattern: rooted, cleaned paths. */
  ghost predicate GlobOK(t: Tree) {
    forall pattern, q :: IsAbs(pattern) && q in t.wild(pattern) ==> IsAbs(q) && Clean(q) == q
  }

  ghost predicate NamesOK(names: seq<string>) {
    && (forall i :: 0 <= i < |names| ==> Ordinary(names[i]))
    && (forall i, j :: 0 <= i < j < |names| ==> names[i] != names[j])
  }

  /** A pattern without these is matched literally by filepath.Glob. */
  predicate Literal(s: string) {
    '*' !in s && '?' !in s && '[' !in s && '\\' !in s
  }

  /** The paths of the names with a suffix: one directory level of filepath.Glob for the
      pattern "*" + suffix. */
  function Matching(dir: string, names: seq<string>, suffix: string): seq<string> {
    if names == [] then []
    else
      var n := |names| - 1;
      Matching(dir, names[..n], suffix) + if HasSuffix(names[n], suffix) then [JoinPath(dir, names[n])] else []
  }

  function Glob(t: Tree, dir: string, suffix: string): seq<string> {
    if dir in t.names then Matching(dir, t.names[dir], suffix) else []
  }

  /** filepath.Glob over several directories in turn. */
  function GlobAll(t: Tree, dirs: seq<string>, suffix: string): seq<string> {
    if dirs == [] then [] else GlobAll(t, dirs[..|dirs| - 1], suffix) + Glob(t, dirs[|dirs| - 1], suffix)
  }

  /** Glob(vmDir / "*"+bundle / "*.vmx"). */
  function GlobVmx(t: Tree, vmDir: string, bundle: string): seq<string> {
    if Literal(vmDir) then GlobAll(t, Glob(t, Clean(vmDir), bundle), VMX)
    else t.wild(JoinPath(JoinPath(vmDir, "*" + bundle), "*.vmx"))
  }

  /** Glob(vmDir / name / "*.vmx"). */
  function GlobIn(t: Tree, vmDir: string, name: string): seq<string> {
    if Literal(vmDir) && Literal(name) then Glob(t, JoinPath(vmDir, name), VMX)
    else t.wild(JoinPath(JoinPath(vmDir, name), "*.vmx"))
  }

  // -------------------------------------------------------------------- the index

  datatype VMRef = VMRef(name: string, path: string, running: bool)

  function NameOf(vmx: string): string {
    TrimSuffix(Base(Dir(vmx)), BUNDLE)
  }

  /** The first occurrence of every path. */
  function Distinct(paths: seq<string>): seq<string> {
    if paths == [] then []
    else
      var init, p := Distinct(paths[..|paths| - 1]), paths[|paths| - 1];
      if p == "" || p in init then init else init + [p]
  }

  function Refs(paths: seq<string>, report: string): seq<VMRef> {
    if paths == [] then []
    else
      var p := paths[|paths| - 1];
      Refs(paths[..|paths| - 1], report) + [VMRef(NameOf(p), p, Contains(report, p))]
  }

  function ListedPaths(t: Tree, vmDir: string): seq<string> {
    Distinct(GlobVmx(t, vmDir, BUNDLE) + GlobVmx(t, vmDir, ""))
  }

  /** What `vmrun list` told the caller: nothing when the command failed. */
  function Report(listOK: bool, output: string): string {
    if listOK then output else ""
  }

  /** List. */
  method List(t: Tree, vmDir: string, listOK: bool, output: string) returns (vms: seq<VMRef>)
    ensures vms == Refs(ListedPaths(t, vmDir), Report(listOK, output))
  {
    hide *;
    var running := Report(listOK, output);
    var seen: set<string> := {};
    vms := [];
    var patterns := [GlobVmx(t, vmDir, BUNDLE), GlobVmx(t, vmDir, "")];
    ghost var all := patterns[0] + patterns[1];
    ghost var done := 0;
    RefsStep([], "", running);
    for k := 0 to 2
      invariant done == if k == 0 then 0 else if k == 1 then |patterns[0]| else |all|
      invariant vms == Refs(Distinct(all[..done]), running)
      invariant forall p :: p in seen <==> p in Distinct(all[..done])
    {
      var m := patterns[k];
      ghost var base := done;
      for i := 0 to |m|
        invariant done == base + i
        invariant vms == Refs(Distinct(all[..done]), running)
        invariant forall p :: p in seen <==> p in Distinct(all[..done])
      {
        var vmx := m[i];
        assert all[done] == vmx;
        assert all[..done + 1] == all[..done] + [vmx];
        DistinctStep(all[..done], vmx);
        RefsStep(Distinct(all[..done]), vmx, running);
        if vmx != "" && vmx !in seen {
          seen := seen + {vmx};
          vms := vms + [VMRef(NameOf(vmx), vmx, Contains(running, vmx))];
        }
        done := done + 1;
      }
    }
    assert all[..|all|] == all;
    ListedPathsIs(t, vmDir);
  }

  lemma DistinctStep(paths: seq<string>, p: string)
    ensures Distinct([]) == []
    ensures Distinct(paths + [p]) == if p == "" || p in Distinct(paths) then Distinct(paths) else Distinct(paths) + [p]
  {
    assert (paths + [p])[..|paths|] == paths;
  }

  lemma RefsStep(paths: seq<string>, p: string, report: string)
    ensures Refs([], report) == [] && Distinct([]) == []
    ensures Refs(paths + [p], report) == Refs(paths, report) + [VMRef(NameOf(p), p, Contains(report, p))]
  {
    hide NameOf, Contains;
    assert (paths + [p])[..|paths|] == paths;
  }

  lemma ListedPathsIs(t: Tree, vmDir: string)
    ensures ListedPaths(t, vmDir) == Distinct(GlobVmx(t, vmDir, BUNDLE) + GlobVmx(t, vmDir, ""))
  {
  }

  /** The paths `vmrun list` names: its trimmed lines that end in ".vmx". */
  function RunningPaths(lines: seq<string>): seq<string> {
    if lines == [] then []
    else
      var l := TrimSpace(lines[|lines| - 1]);
      RunningPaths(lines[..|lines| - 1]) + if HasSuffix(l, VMX) then [l] else []
  }

  function RunningRefs(paths: seq<string>): (r: seq<VMRef>)
    ensures |r| == |paths|
    ensures forall i :: 0 <= i < |paths| ==> r[i] == VMRef(NameOf(paths[i]), paths[i], true)
  {
    seq(|paths|, i requires 0 <= i < |paths| => VMRef(NameOf(paths[i]), paths[i], true))
  }

  /** Running. */
  method Running(listOK: bool, output: string) returns (r: Option<seq<VMRef>>)
    ensures r == if listOK then Some(RunningRefs(RunningPaths(Split(output, '\n')))) else None
  {
    if !listOK {
      return None;
    }
    hide Split, TrimSpace, NameOf;
    var lines := Split(output, '\n');
    var vms := [];
    for i := 0 to |lines|
      invariant vms == RunningRefs(RunningPaths(lines[..i]))
    {
      assert lines[..i + 1][..i] == lines[..i];
      if HasSuffix(TrimSpace(lines[i]), ".vmx") {
        var vmx := TrimSpace(lines[i]);
        vms := vms + [VMRef(NameOf(vmx), vmx, true)];
      }
    }
    assert lines[..|lines|] == lines;
    return Some(vms);
  }

  // ----------------------------------------------------------------- the resolver

  /** vmBundle: the name of the directory a VM lives in on this platform. */
  function Bundle(darwin: bool, vm: string): string {
    if darwin then vm + BUNDLE else vm
  }

  function Only(m: seq<string>): Option<string> {
    if |m| == 1 then Some(m[0]) else None
  }

  /** resolveVMX. */
  function ResolveVmx(darwin: bool, t: Tree, vmDir: string, vm: string): Option<string> {
    if vm == "" then None
    else if HasSuffix(vm, VMX) then Some(vm)
    else
      var first := Only(GlobIn(t, vmDir, Bundle(darwin, vm)));
      var other := Only(GlobIn(t, vmDir, vm + BUNDLE));
      if first.Some? then first
      else if other.Some? then other
      else Only(GlobIn(t, vmDir, vm))
  }

  lemma BundleIsLiteral(vm: string)
    ensures Literal(vm + BUNDLE) <==> Literal(vm)
  {
    assert '*' !in BUNDLE && '?' !in BUNDLE && '[' !in BUNDLE && '\\' !in BUNDLE;
  }

  // ----------------------------------------------- what the index holds, exactly

  lemma JoinOrdinary(dir: string, e: string)
    requires Ordinary(e)
    ensures IsAbs(JoinPath(dir, e)) == IsAbs(dir) && Parts(JoinPath(dir, e)) == Parts(dir) + [e]
    ensures Clean(JoinPath(dir, e)) == JoinPath(dir, e) != ""
  {
    OrdinaryName(e);
    hide *;
    JoinConcatenates(dir, e);
  }

  lemma {:induction false} MatchingHas(dir: string, names: seq<string>, suffix: string, p: string)
    ensures p in Matching(dir, names, suffix)
            <==> exists i :: 0 <= i < |names| && HasSuffix(names[i], suffix) && p == JoinPath(dir, names[i])
  {
    hide HasSuffix, JoinPath;
    if names != [] {
      var n := |names| - 1;
      MatchingHas(dir, names[..n], suffix, p);
      assert forall i :: 0 <= i < n ==> names[..n][i] == names[i];
    }
  }

  lemma {:induction false} GlobAllHas(t: Tree, dirs: seq<string>, suffix: string, p: string)
    ensures p in GlobAll(t, dirs, suffix) <==> exists i :: 0 <= i < |dirs| && p in Glob(t, dirs[i], suffix)
  {
    hide Glob;
    if dirs != [] {
      var n := |dirs| - 1;
      GlobAllHas(t, dirs[..n], suffix, p);
      assert forall i :: 0 <= i < n ==> dirs[..n][i] == dirs[i];
    }
  }

  /** A .vmx two levels below the VM directory: d names the subdirectory, f the file. */
  ghost predicate VmxAt(t: Tree, vmDir: string, d: string, f: string, p: string) {
    && Clean(vmDir) in t.names && d in t.names[Clean(vmDir)]
    && JoinPath(Clean(vmDir), d) in t.names && f in t.names[JoinPath(Clean(vmDir), d)]
    && HasSuffix(f, VMX) && p == JoinPath(JoinPath(Clean(vmDir), d), f)
  }

  lemma GlobVmxHas(t: Tree, vmDir: string, bundle: string, p: string)
    requires Literal(vmDir)
    ensures p in GlobVmx(t, vmDir, bundle)
            <==> exists d, f :: HasSuffix(d, bundle) && VmxAt(t, vmDir, d, f, p)
  {
    var top := Glob(t, Clean(vmDir), bundle);
    GlobAllHas(t, top, VMX, p);
    hide HasSuffix, JoinPath, Clean, GlobAll;
    if p in GlobVmx(t, vmDir, bundle) {
      var i :| 0 <= i < |top| && p in Glob(t, top[i], VMX);
      MatchingHas(Clean(vmDir), t.names[Clean(vmDir)], bundle, top[i]);
      var k :| 0 <= k < |t.names[Clean(vmDir)]| && HasSuffix(t.names[Clean(vmDir)][k], bundle) && top[i] == JoinPath(Clean(vmDir), t.names[Clean(vmDir)][k]);
      MatchingHas(top[i], t.names[top[i]], VMX, p);
      var j :| 0 <= j < |t.names[top[i]]| && HasSuffix(t.names[top[i]][j], VMX) && p == JoinPath(top[i], t.names[top[i]][j]);
      assert VmxAt(t, vmDir, t.names[Clean(vmDir)][k], t.names[top[i]][j], p);
    }
    if d, f :| HasSuffix(d, bundle) && VmxAt(t, vmDir, d, f, p) {
      var sub := JoinPath(Clean(vmDir), d);
      MatchingHas(Clean(vmDir), t.names[Clean(vmDir)], bundle, sub);
      MatchingHas(sub, t.names[sub], VMX, p);
      assert sub in top;
    }
  }

  lemma {:induction false} DistinctIs(paths: seq<string>)
    ensures forall p :: p in Distinct(paths) <==> p in paths && p != ""
    ensures forall i, j :: 0 <= i < j < |Distinct(paths)| ==> Distinct(paths)[i] != Distinct(paths)[j]
  {
    if paths != [] {
      DistinctIs(paths[..|paths| - 1]);
      assert paths == paths[..|paths| - 1] + [paths[|paths| - 1]];
    }
  }

  lemma ListedHas(t: Tree, vmDir: string, p: string)
    requires TreeOK(t) && Literal(vmDir)
    ensures p in ListedPaths(t, vmDir) <==> exists d, f :: VmxAt(t, vmDir, d, f, p)
  {
    DistinctIs(GlobVmx(t, vmDir, BUNDLE) + GlobVmx(t, vmDir, ""));
    GlobVmxHas(t, vmDir, BUNDLE, p);
    GlobVmxHas(t, vmDir, "", p);
    assert forall d :: HasSuffix(d, "");
    hide VmxAt, GlobVmx, Distinct, HasSuffix, TreeOK;
    if d, f :| VmxAt(t, vmDir, d, f, p) {
      VmxAtParts(t, vmDir, d, f, p);
    }
  }

  /** List reports every .vmx file two levels down exactly once, and nothing else. */
  lemma ListsEachOnce(t: Tree, vmDir: string)
    requires TreeOK(t)
    ensures Literal(vmDir) ==> forall p :: p in ListedPaths(t, vmDir) <==> exists d, f :: VmxAt(t, vmDir, d, f, p)
    ensures forall i, j :: 0 <= i < j < |ListedPaths(t, vmDir)| ==> ListedPaths(t, vmDir)[i] != ListedPaths(t, vmDir)[j]
  {
    hide GlobVmx, Distinct, TreeOK, VmxAt, Literal;
    DistinctIs(GlobVmx(t, vmDir, BUNDLE) + GlobVmx(t, vmDir, ""));
    if Literal(vmDir) {
      forall p ensures p in ListedPaths(t, vmDir) <==> exists d, f :: VmxAt(t, vmDir, d, f, p) {
        ListedHas(t, vmDir, p);
      }
    }
  }

  /** The shape of a listed path. */
  lemma VmxAtParts(t: Tree, vmDir: string, d: string, f: string, p: string)
    requires TreeOK(t) && VmxAt(t, vmDir, d, f, p)
    ensures p != "" && Clean(p) == p
    ensures Base(Dir(p)) == d && Dir(p) == JoinPath(vmDir, d)
    ensures JoinPath(Clean(vmDir), d) == JoinPath(vmDir, d)
  {
    var names := t.names[Clean(vmDir)];
    var sub := JoinPath(Clean(vmDir), d);
    assert NamesOK(names) && NamesOK(t.names[sub]);
    hide Parts, JoinPath, Dir, Base, Clean;
    assert Ordinary(d) && Ordinary(f);
    JoinOrdinary(Clean(vmDir), d);
    JoinOrdinary(vmDir, d);
    JoinOrdinary(sub, f);
    CleanReads(vmDir);
    DirOfClean(p);
    assert Parts(p) == Parts(vmDir) + [d] + [f];
    assert Parts(p)[..|Parts(p)| - 1] == Parts(vmDir) + [d];
    CleanEqualIff(sub, JoinPath(vmDir, d));
    CleanEqualIff(Dir(p), sub);
    DirOfClean(sub);
  }

  // ------------------------------------------- the index and the resolver agree

  lemma OneMatch(t: Tree, dir: string, f: string)
    requires dir in t.names && f in t.names[dir] && HasSuffix(f, VMX) && |Glob(t, dir, VMX)| == 1
    ensures Only(Glob(t, dir, VMX)) == Some(JoinPath(dir, f))
  {
    MatchingHas(dir, t.names[dir], VMX, JoinPath(dir, f));
  }

  /** The two directories a name may stand for. */
  function Sibling(d: string): string {
    if HasSuffix(d, BUNDLE) then TrimSuffix(d, BUNDLE) else d + BUNDLE
  }

  lemma NameAndSibling(d: string)
    ensures var n := TrimSuffix(d, BUNDLE);
            (d == n && Sibling(d) == n + BUNDLE) || (d == n + BUNDLE && Sibling(d) == n)
  {
    if HasSuffix(d, BUNDLE) {
      assert d == d[..|d| - |BUNDLE|] + d[|d| - |BUNDLE|..];
    }
  }

  /** The resolver on a plain name: the platform's own layout first, then the other. */
  lemma ResolveLiteral(darwin: bool, t: Tree, vmDir: string, vm: string)
    requires Literal(vmDir) && Literal(vm) && vm != "" && !HasSuffix(vm, VMX)
    ensures var bundle, plain := Glob(t, JoinPath(vmDir, vm + BUNDLE), VMX), Glob(t, JoinPath(vmDir, vm), VMX);
            var (own, other) := if darwin then (bundle, plain) else (plain, bundle);
            ResolveVmx(darwin, t, vmDir, vm) == if |own| == 1 then Some(own[0]) else Only(other)
  {
    BundleIsLiteral(vm);
    hide Glob, JoinPath, HasSuffix, Literal;
  }

  lemma NotBothLayouts(t: Tree, vmDir: string, d: string, e: string, f: string, p: string)
    requires TreeOK(t) && VmxAt(t, vmDir, d, f, p)
    requires e != d && (e == "." || e == ".." || Ordinary(e))
    ensures p !in Glob(t, JoinPath(vmDir, e), VMX)
  {
    var sub := JoinPath(vmDir, e);
    VmxAtParts(t, vmDir, d, f, p);
    VmxAtIsOrdinary(t, vmDir, d, f, p);
    if e == "." || e == ".." {
      DotIsNoChild(vmDir, e, d);
    } else {
      hide *;
      JoinOrdinary(vmDir, d);
      JoinOrdinary(vmDir, e);
      assert (Parts(vmDir) + [d])[|Parts(vmDir)|] == d;
      assert (Parts(vmDir) + [e])[|Parts(vmDir)|] == e;
    }
    hide JoinPath, Clean, Dir, Base, Ordinary, VmxAt;
    forall q | q in Glob(t, sub, VMX) ensures Dir(q) == sub {
      GlobDir(t, sub, q);
    }
  }

  lemma VmxAtIsOrdinary(t: Tree, vmDir: string, d: string, f: string, p: string)
    requires TreeOK(t) && VmxAt(t, vmDir, d, f, p)
    ensures Ordinary(d)
  {
    assert NamesOK(t.names[Clean(vmDir)]);
    hide JoinPath, Clean, HasSuffix, Ordinary;
  }

  lemma GlobDir(t: Tree, dir: string, q: string)
    requires TreeOK(t) && q in Glob(t, dir, VMX)
    ensures Dir(q) == dir
  {
    MatchingHas(dir, t.names[dir], VMX, q);
    assert NamesOK(t.names[dir]) && Clean(dir) == dir;
    hide JoinPath, Clean, Dir, Base, Ordinary, HasSuffix, Parts;
    var i :| 0 <= i < |t.names[dir]| && q == JoinPath(dir, t.names[dir][i]);
    JoinOrdinary(dir, t.names[dir][i]);
    DirOfClean(q);
    CleanEqualIff(Dir(q), dir);
  }

  lemma NameIsPlain(d: string)
    requires Ordinary(d) && TrimSuffix(d, BUNDLE) != ""
    ensures Sibling(d) != d && (Sibling(d) == "." || Sibling(d) == ".." || Ordinary(Sibling(d)))
  {
    NameAndSibling(d);
    assert '/' !in BUNDLE;
    assert |d + BUNDLE| > 2;
  }

  /** From the listing back to the file, exactly: the name List gives a VM resolves to its
      path if and only if its directory holds one .vmx, and either that directory is this
      platform's own layout or the other directory the name may stand for does not. */
  lemma ListedNameResolvesIff(darwin: bool, t: Tree, vmDir: string, d: string, f: string, p: string)
    requires TreeOK(t) && VmxAt(t, vmDir, d, f, p)
    requires Literal(NameOf(p)) && Literal(vmDir)
    requires NameOf(p) != "" && !HasSuffix(NameOf(p), VMX)
    ensures ResolveVmx(darwin, t, vmDir, NameOf(p)) == Some(p)
            <==> |Glob(t, JoinPath(vmDir, d), VMX)| == 1
                 && (d == (if darwin then NameOf(p) + ".vmwarevm" else NameOf(p))
                     || |Glob(t, JoinPath(vmDir, Sibling(d)), VMX)| != 1)
  {
    assert BUNDLE == ".vmwarevm";
    var n, e := NameOf(p), Sibling(d);
    var mine, theirs := Glob(t, JoinPath(vmDir, d), VMX), Glob(t, JoinPath(vmDir, e), VMX);
    VmxAtParts(t, vmDir, d, f, p);
    VmxAtIsOrdinary(t, vmDir, d, f, p);
    NameAndSibling(d);
    NameIsPlain(d);
    NotBothLayouts(t, vmDir, d, e, f, p);
    ResolveLiteral(darwin, t, vmDir, n);
    hide JoinPath, Glob, Dir, Base, HasSuffix, Sibling, ResolveVmx, Ordinary, TreeOK;
    if |mine| == 1 {
      OneMatch(t, JoinPath(vmDir, d), f);
    }
    OnlyIsMember(theirs);
    OnlyIsMember(mine);
  }

  lemma GlobIsListed(t: Tree, vmDir: string, d: string, p: string)
    requires TreeOK(t) && Ordinary(d) && p in Glob(t, JoinPath(vmDir, d), VMX)
    requires Clean(vmDir) in t.names && d in t.names[Clean(vmDir)] && Literal(vmDir)
    ensures p in ListedPaths(t, vmDir)
  {
    var sub := JoinPath(vmDir, d);
    MatchingHas(sub, t.names[sub], VMX, p);
    var j :| 0 <= j < |t.names[sub]| && HasSuffix(t.names[sub][j], VMX) && p == JoinPath(sub, t.names[sub][j]);
    JoinOrdinary(vmDir, d);
    JoinOrdinary(Clean(vmDir), d);
    CleanReads(vmDir);
    CleanEqualIff(sub, JoinPath(Clean(vmDir), d));
    assert VmxAt(t, vmDir, d, t.names[sub][j], p);
    ListsEachOnce(t, vmDir);
  }

  /** Every directory stands in its parent's listing: true of real trees. */
  ghost predicate Rooted(t: Tree, vmDir: string) {
    forall d :: Ordinary(d) && JoinPath(vmDir, d) in t.names ==> Clean(vmDir) in t.names && d in t.names[Clean(vmDir)]
  }

  lemma BundleIsOrdinary(name: string)
    requires name != "" && '/' !in name
    ensures Ordinary(name + BUNDLE)
    ensures name != "." && name != ".." ==> Ordinary(name)
  {
    assert |name + BUNDLE| > 2;
    assert '/' !in BUNDLE;
  }

  lemma OnlyIsMember(m: seq<string>)
    ensures Only(m).Some? ==> Only(m).value in m
  {
  }

  /** From the resolver to the listing: what a plain name resolves to is listed. */
  lemma ResolvedIsListed(darwin: bool, t: Tree, vmDir: string, name: string)
    requires TreeOK(t) && Rooted(t, vmDir) && Literal(name) && Literal(vmDir)
    requires name != "" && '/' !in name && !HasSuffix(name, VMX) && name != "." && name != ".."
    ensures var r := ResolveVmx(darwin, t, vmDir, name);
            r.Some? ==> r.value in ListedPaths(t, vmDir)
  {
    BundleIsOrdinary(name);
    var a, b := Glob(t, JoinPath(vmDir, name + BUNDLE), VMX), Glob(t, JoinPath(vmDir, name), VMX);
    OnlyIsMember(a);
    OnlyIsMember(b);
    assert a != [] ==> JoinPath(vmDir, name + BUNDLE) in t.names;
    assert b != [] ==> JoinPath(vmDir, name) in t.names;
    ResolveLiteral(darwin, t, vmDir, name);
    hide Glob, JoinPath, Clean, TreeOK, Ordinary, ListedPaths, ResolveVmx, HasSuffix, Literal;
    if Only(a).Some? {
      GlobIsListed(t, vmDir, name + BUNDLE, Only(a).value);
    }
    if Only(b).Some? {
      GlobIsListed(t, vmDir, name, Only(b).value);
    }
  }

  /** A tree with one .vmx in one directory and nothing else. */
  function OneVmx(dir: string): Tree {
    Tree(map[dir := ["x.vmx"]], _ => [])
  }

  lemma DotIsClean(vmDir: string, name: string)
    requires name == "." || name == ".."
    ensures Clean(JoinPath(vmDir, name)) == JoinPath(vmDir, name)
    ensures |Parts(JoinPath(vmDir, name))| <= |Parts(vmDir)| || Parts(JoinPath(vmDir, name)) == Parts(vmDir) + [".."]
  {
    CleanIsIdempotent(vmDir + "/" + name);
    CleanIsIdempotent(name);
    JoinPushes(vmDir, name);
    SplitFirst(name, "", '/');
    hide JoinPath, Parts, Clean, Split, Push;
    PushAllOne(IsAbs(vmDir), Parts(vmDir), name);
    PushDot(IsAbs(vmDir), Parts(vmDir), name);
  }

  lemma PushDot(rooted: bool, parts: seq<string>, name: string)
    requires name == "." || name == ".."
    ensures |Push(rooted, parts, name)| <= |parts| || Push(rooted, parts, name) == parts + [".."]
  {
  }

  lemma OneGlob(dir: string)
    ensures Glob(OneVmx(dir), dir, VMX) == [JoinPath(dir, "x.vmx")]
  {
    assert HasSuffix("x.vmx", VMX);
    assert ["x.vmx"][..0] == [];
    hide JoinPath;
    assert Matching(dir, ["x.vmx"], VMX) == Matching(dir, [], VMX) + [JoinPath(dir, "x.vmx")];
  }

  lemma OtherGlobs(dir: string, q: string)
    ensures q != dir ==> Glob(OneVmx(dir), q, VMX) == []
  {
  }

  lemma DotTreeIsReal(vmDir: string, name: string)
    requires name == "." || name == ".."
    ensures var t := OneVmx(JoinPath(vmDir, name));
            TreeOK(t) && forall d :: Ordinary(d) ==> JoinPath(vmDir, d) !in t.names
  {
    hide *;
    DotIsClean(vmDir, name);
    OneVmxIsReal(JoinPath(vmDir, name));
    forall d | Ordinary(d) ensures JoinPath(vmDir, d) !in OneVmx(JoinPath(vmDir, name)).names {
      DotIsNoChild(vmDir, name, d);
    }
  }

  lemma OneVmxIsReal(dir: string)
    requires Clean(dir) == dir
    ensures TreeOK(OneVmx(dir)) && forall q :: q in OneVmx(dir).names <==> q == dir
  {
    hide Clean;
    assert Ordinary("x.vmx");
  }

  lemma DotIsNoChild(vmDir: string, name: string, d: string)
    requires Ordinary(d) && (name == "." || name == "..")
    ensures JoinPath(vmDir, d) != JoinPath(vmDir, name)
  {
    assert d != "..";
    hide *;
    DotIsClean(vmDir, name);
    JoinOrdinary(vmDir, d);
    assert (Parts(vmDir) + [d])[|Parts(vmDir)|] == d;
    assert (Parts(vmDir) + [".."])[|Parts(vmDir)|] == "..";
  }

  lemma SamePlace(vmDir: string, d: string)
    requires Ordinary(d)
    ensures JoinPath(Clean(vmDir), d) != Clean(vmDir)
  {
    hide *;
    JoinOrdinary(Clean(vmDir), d);
    assert |Parts(Clean(vmDir)) + [d]| == |Parts(Clean(vmDir))| + 1;
  }

  lemma OneVmxHolds(dir: string)
    ensures forall q :: q in OneVmx(dir).names <==> q == dir
    ensures OneVmx(dir).names[dir] == ["x.vmx"]
    ensures Ordinary("x.vmx")
  {
  }

  lemma VmxAtIs(t: Tree, vmDir: string, d: string, f: string, p: string)
    requires VmxAt(t, vmDir, d, f, p)
    ensures Clean(vmDir) in t.names && d in t.names[Clean(vmDir)] && JoinPath(Clean(vmDir), d) in t.names
  {
    hide JoinPath, Clean, HasSuffix;
  }

  lemma DotIsNotListed(vmDir: string, dir: string, p: string)
    requires TreeOK(OneVmx(dir)) && Literal(vmDir)
    ensures p !in ListedPaths(OneVmx(dir), vmDir)
  {
    hide *;
    var t := OneVmx(dir);
    ListsEachOnce(t, vmDir);
    OneVmxHolds(dir);
    SamePlace(vmDir, "x.vmx");
    forall d, f ensures !VmxAt(t, vmDir, d, f, p) {
      if VmxAt(t, vmDir, d, f, p) {
        VmxAtIs(t, vmDir, d, f, p);
      }
    }
  }

  /** "." and ".." escape the index: they resolve to a .vmx that List does not report. */
  lemma DotNamesEscape(darwin: bool, vmDir: string, name: string)
    requires Literal(vmDir) && Literal(name) && (name == "." || name == "..")
    ensures var t := OneVmx(JoinPath(vmDir, name));
            && TreeOK(t) && Rooted(t, vmDir)
            && ResolveVmx(darwin, t, vmDir, name) == Some(JoinPath(JoinPath(vmDir, name), "x.vmx"))
            && JoinPath(JoinPath(vmDir, name), "x.vmx") !in ListedPaths(t, vmDir)
  {
    hide *;
    var dir := JoinPath(vmDir, name);
    var t := OneVmx(dir);
    DotIsPlain(name);
    OneGlob(dir);
    OtherGlobs(dir, JoinPath(vmDir, name + BUNDLE));
    OnlyIs(Glob(t, dir, VMX));
    ResolveLiteral(darwin, t, vmDir, name);
    DotTreeIsReal(vmDir, name);
    ChildlessIsRooted(t, vmDir);
    DotIsNotListed(vmDir, dir, JoinPath(dir, "x.vmx"));
  }

  lemma DotIsPlain(name: string)
    requires name == "." || name == ".."
    ensures name != "" && !HasSuffix(name, VMX)
  {
  }

  lemma OnlyIs(m: seq<string>)
    ensures Only(m) == if |m| == 1 then Some(m[0]) else None
    ensures Only([]) == None
  {
  }

  lemma ChildlessIsRooted(t: Tree, vmDir: string)
    requires forall d :: Ordinary(d) ==> JoinPath(vmDir, d) !in t.names
    ensures Rooted(t, vmDir)
  {
    hide Ordinary, JoinPath, Clean;
  }

  /** For a separator-free name, "whatever it resolves to is in the listing" holds in every
      tree exactly when the name is not "." or "..". */
  lemma ResolvedIsListedIff(darwin: bool, vmDir: string, name: string)
    requires Literal(name) && Literal(vmDir)
    requires name != "" && '/' !in name && !HasSuffix(name, VMX)
    ensures (forall t: Tree :: TreeOK(t) && Rooted(t, vmDir) && ResolveVmx(darwin, t, vmDir, name).Some? ==>
               ResolveVmx(darwin, t, vmDir, name).value in ListedPaths(t, vmDir))
            <==> name != "." && name != ".."
  {
    hide TreeOK, Rooted, ResolveVmx, ListedPaths, JoinPath, Literal, HasSuffix;
    if name == "." || name == ".." {
      DotNamesEscape(darwin, vmDir, name);
    } else {
      forall t: Tree | TreeOK(t) && Rooted(t, vmDir) && ResolveVmx(darwin, t, vmDir, name).Some?
        ensures ResolveVmx(darwin, t, vmDir, name).value in ListedPaths(t, vmDir)
      {
        ResolvedIsListed(darwin, t, vmDir, name);
      }
    }
  }

  // ------------------------------------------------------------ the running guard

  /** ensureOff lets the caller go on. */
  predicate EnsureOff(listOK: bool, output: string, vmx: string) {
    !Contains(Report(listOK, output), vmx)
  }

  lemma RunningPathOccurs(lines: seq<string>, i: nat)
    requires i < |RunningPaths(lines)|
    ensures exists j :: 0 <= j < |lines| && RunningPaths(lines)[i] == TrimSpace(lines[j])
  {
    hide TrimSpace, HasSuffix;
    if lines != [] {
      var n := |lines| - 1;
      if i < |RunningPaths(lines[..n])| {
        RunningPathOccurs(lines[..n], i);
        var j :| 0 <= j < n && RunningPaths(lines[..n])[i] == TrimSpace(lines[..n][j]);
        assert lines[..n][j] == lines[j];
      } else {
        assert RunningPaths(lines)[i] == TrimSpace(lines[n]);
      }
    }
  }

  /** A line of a text occurs in the text. */
  lemma {:induction false} LineOccurs(lines: seq<string>, j: nat) returns (at: nat)
    requires j < |lines|
    ensures OccursAt(Join(lines, '\n'), lines[j], at)
  {
    if |lines| == 1 {
      at := 0;
    } else if j == 0 {
      at := 0;
    } else {
      var k := LineOccurs(lines[1..], j - 1);
      at := |lines[0]| + 1 + k;
      assert Join(lines, '\n') == (lines[0] + ['\n']) + Join(lines[1..], '\n');
      OccursShifted(lines[0] + ['\n'], Join(lines[1..], '\n'), lines[j], k);
    }
  }

  lemma OccursShifted(front: string, s: string, sub: string, k: nat)
    requires OccursAt(s, sub, k)
    ensures OccursAt(front + s, sub, |front| + k)
  {
    assert (front + s)[|front| + k..|front| + k + |sub|] == s[k..k + |sub|];
  }

  lemma ContainsTrans(s: string, line: string, at: nat, sub: string)
    requires OccursAt(s, line, at) && Contains(line, sub)
    ensures Contains(s, sub)
  {
    var k :| 0 <= k <= |line| && OccursAt(line, sub, k);
    forall x | 0 <= x < |sub| ensures s[at + k + x] == sub[x] {
      assert s[at..at + |line|][k + x] == line[k + x] == line[k..k + |sub|][x];
    }
    assert OccursAt(s, sub, at + k);
  }

  /** Every path Running reports occurs in the report, so ensureOff refuses it. */
  lemma ReportedIsRefused(output: string, p: string)
    requires p in RunningPaths(Split(output, '\n'))
    ensures Contains(output, p) && !EnsureOff(true, output, p)
  {
    var lines := Split(output, '\n');
    SplitParts(output, '\n');
    hide Split, Contains, Trim, Join, OccursAt;
    var i :| 0 <= i < |RunningPaths(lines)| && RunningPaths(lines)[i] == p;
    RunningPathOccurs(lines, i);
    var j :| 0 <= j < |lines| && p == TrimSpace(lines[j]);
    var at := LineOccurs(lines, j);
    TrimOccurs(lines[j], SPACES);
    ContainsTrans(output, lines[j], at, p);
  }

  lemma {:induction false} RefsAt(paths: seq<string>, report: string, i: nat)
    requires i < |paths|
    ensures |Refs(paths, report)| == |paths|
    ensures Refs(paths, report)[i] == VMRef(NameOf(paths[i]), paths[i], Contains(report, paths[i]))
  {
    hide NameOf, Contains;
    if |paths| > 1 {
      RefsAt(paths[..|paths| - 1], report, if i < |paths| - 1 then i else 0);
    }
  }

  /** For one successful report, Running, List and ensureOff agree: a path Running reports
      is refused by ensureOff, and wherever List has it, List calls it running and gives
      it the same name. */
  lemma ReportsAgree(t: Tree, vmDir: string, output: string, r: VMRef, i: nat)
    requires r in RunningRefs(RunningPaths(Split(output, '\n')))
    requires i < |ListedPaths(t, vmDir)| && ListedPaths(t, vmDir)[i] == r.path
    ensures |Refs(ListedPaths(t, vmDir), output)| == |ListedPaths(t, vmDir)|
    ensures Refs(ListedPaths(t, vmDir), output)[i] == r && r.running
    ensures !EnsureOff(true, output, r.path)
  {
    hide ListedPaths, Split, NameOf, Contains, RunningPaths, EnsureOff;
    ReportedIsRefused(output, r.path);
    RefsAt(ListedPaths(t, vmDir), output, i);
  }

  // ------------------------------------------------- what a mark in the index means

  /** A text without a newline occurs in a text exactly when it occurs in one of its lines. */
  lemma {:induction false} ContainsInLines(lines: seq<string>, p: string)
    requires lines != [] && '\n' !in p
    ensures Contains(Join(lines, '\n'), p) <==> exists j :: 0 <= j < |lines| && Contains(lines[j], p)
  {
    hide Contains;
    if |lines| > 1 {
      ContainsInLines(lines[1..], p);
      ContainsAcross(lines[0], Join(lines[1..], '\n'), p);
      assert forall j :: 1 <= j < |lines| ==> lines[j] == lines[1..][j - 1];
    }
  }

  lemma ContainsAcross(a: string, b: string, p: string)
    requires '\n' !in p
    ensures Contains(a + ['\n'] + b, p) <==> Contains(a, p) || Contains(b, p)
  {
    var s := a + ['\n'] + b;
    if Contains(s, p) {
      var i :| 0 <= i <= |s| && OccursAt(s, p, i);
      assert s[|a|] == '\n';
      forall x | i <= x < i + |p| ensures s[x] != '\n' {
        assert s[x] == s[i..i + |p|][x - i] == p[x - i];
      }
      if i + |p| <= |a| {
        assert a[i..i + |p|] == s[i..i + |p|];
        assert OccursAt(a, p, i);
      } else if i > |a| {
        var k := i - |a| - 1;
        assert s[|a| + 1..] == b;
        assert s[i..i + |p|] == s[|a| + 1..][k..k + |p|];
        assert OccursAt(b, p, k);
      }
    }
    if Contains(a, p) {
      var i :| 0 <= i <= |a| && OccursAt(a, p, i);
      assert s[i..i + |p|] == a[i..i + |p|];
      assert OccursAt(s, p, i);
    }
    if Contains(b, p) {
      var i :| 0 <= i <= |b| && OccursAt(b, p, i);
      OccursShifted(a + ['\n'], b, p, i);
      assert OccursAt(s, p, |a| + 1 + i);
    }
  }

  /** A path as `vmrun list` prints one. */
  predicate PrintedPath(p: string) {
    IsAbs(p) && HasSuffix(p, VMX) && '\n' !in p
  }

  /** A report: a heading without a slash, and a line for each running VM. */
  function Printed(heading: string, running: seq<string>): string {
    Join([heading] + running, '\n')
  }

  lemma {:induction false} RunningPathsHas(lines: seq<string>, p: string)
    ensures p in RunningPaths(lines) <==> exists j :: 0 <= j < |lines| && TrimSpace(lines[j]) == p && HasSuffix(p, VMX)
  {
    hide TrimSpace, HasSuffix;
    if lines != [] {
      var n := |lines| - 1;
      RunningPathsHas(lines[..n], p);
      assert forall j :: 0 <= j < n ==> lines[..n][j] == lines[j];
    }
  }

  lemma PathIsTrimmed(p: string)
    requires PrintedPath(p)
    ensures TrimSpace(p) == p
  {
    assert p[|p| - 1] == 'x';
    assert Trimmed(p, SPACES);
    TrimIsTrimmed(p, SPACES);
    hide Trim;
  }

  lemma PrintedLines(heading: string, running: seq<string>)
    requires '\n' !in heading && forall q | q in running :: PrintedPath(q)
    ensures Split(Printed(heading, running), '\n') == [heading] + running
  {
    var lines := [heading] + running;
    forall j | 0 <= j < |lines| ensures '\n' !in lines[j] {
      if j > 0 {
        assert lines[j] in running;
      }
    }
    hide Split, Join, HasSuffix;
    SplitJoin([heading] + running, '\n');
  }

  lemma HeadingHasNoPath(heading: string, p: string)
    requires '/' !in heading && IsAbs(p)
    ensures !Contains(heading, p) && TrimSpace(heading) != p
  {
    TrimIsTrimmed(heading, SPACES);
    hide Trim;
    forall i | 0 <= i <= |heading| ensures !OccursAt(heading, p, i) {
      if i + |p| <= |heading| {
        assert heading[i..i + |p|][0] == heading[i] != '/';
      }
    }
  }

  /** In a printed report, Running finds a path exactly when it was printed, and List and
      the guard do exactly when a path was printed in which it occurs. */
  lemma PrintedMarks(heading: string, running: seq<string>, p: string)
    requires '\n' !in heading && '/' !in heading && PrintedPath(p)
    requires forall q | q in running :: PrintedPath(q)
    ensures p in RunningPaths(Split(Printed(heading, running), '\n')) <==> p in running
    ensures Contains(Printed(heading, running), p) <==> exists q :: q in running && Contains(q, p)
  {
    var lines := [heading] + running;
    PrintedLines(heading, running);
    HeadingHasNoPath(heading, p);
    RunningPathsHas(lines, p);
    ContainsInLines(lines, p);
    forall q | q in running ensures TrimSpace(q) == q {
      PathIsTrimmed(q);
    }
    hide RunningPaths, Split, Join, Contains, TrimSpace, HasSuffix;
    assert forall j :: 1 <= j < |lines| ==> lines[j] == running[j - 1];
    assert forall k :: 0 <= k < |running| ==> running[k] == lines[k + 1];
  }

  /** Of these VMs, a set of running ones is always marked exactly. */
  ghost predicate MarkedExactly(heading: string, vms: set<string>) {
    forall running: seq<string>, p :: (forall q :: q in running ==> q in vms) && p in vms ==>
      (Contains(Printed(heading, running), p) <==> p in RunningPaths(Split(Printed(heading, running), '\n')))
  }

  lemma SelfContained(p: string)
    ensures Contains(p, p)
  {
    assert OccursAt(p, p, 0);
  }

  /** Whichever of a set of VMs run, "running" in the listing and refused by the guard mean
      that a line of the report is the path, if and only if none of their paths occurs
      inside another. */
  lemma MarksExactIff(heading: string, vms: set<string>)
    requires '\n' !in heading && '/' !in heading
    requires forall p | p in vms :: PrintedPath(p)
    ensures MarkedExactly(heading, vms) <==> forall p, q :: p in vms && q in vms && Contains(q, p) ==> p == q
  {
    hide Contains, Printed, RunningPaths, Split, PrintedPath;
    if forall p, q :: p in vms && q in vms && Contains(q, p) ==> p == q {
      forall running: seq<string>, p | (forall q :: q in running ==> q in vms) && p in vms
        ensures Contains(Printed(heading, running), p) <==> p in RunningPaths(Split(Printed(heading, running), '\n'))
      {
        PrintedMarks(heading, running, p);
        SelfContained(p);
      }
    } else {
      var p, q :| p in vms && q in vms && Contains(q, p) && p != q;
      var running := [q];
      assert forall x :: x in running ==> x in vms;
      PrintedMarks(heading, running, p);
      assert q in running;
    }
  }

  // ---------------------------------------------------------------- spelled out

  /** A file two levels down whose name ends in ".vmx" is listed, under the name of its
      directory less ".vmwarevm". */
  lemma VmxFileIsListed(t: Tree, vmDir: string, d: string, f: string)
    requires TreeOK(t) && Literal(vmDir) && Clean(vmDir) in t.names && d in t.names[Clean(vmDir)]
    requires JoinPath(vmDir, d) in t.names && f in t.names[JoinPath(vmDir, d)] && HasSuffix(f, ".vmx")
    ensures var p := JoinPath(JoinPath(vmDir, d), f);
            p in ListedPaths(t, vmDir) && NameOf(p) == TrimSuffix(d, ".vmwarevm")
  {
    var p := JoinPath(JoinPath(vmDir, d), f);
    SubdirIs(t, vmDir, d);
    assert VMX == ".vmx" && BUNDLE == ".vmwarevm";
    assert VmxAt(t, vmDir, d, f, p);
    VmxAtParts(t, vmDir, d, f, p);
    ListsEachOnce(t, vmDir);
    hide JoinPath, Dir, Base, Clean, ListedPaths, HasSuffix, VmxAt, Literal, TreeOK;
  }

  lemma SubdirIs(t: Tree, vmDir: string, d: string)
    requires TreeOK(t) && Clean(vmDir) in t.names && d in t.names[Clean(vmDir)]
    ensures JoinPath(Clean(vmDir), d) == JoinPath(vmDir, d)
  {
    assert NamesOK(t.names[Clean(vmDir)]);
    hide JoinPath, Clean, Parts;
    JoinOrdinary(vmDir, d);
    JoinOrdinary(Clean(vmDir), d);
    CleanReads(vmDir);
    CleanEqualIff(JoinPath(Clean(vmDir), d), JoinPath(vmDir, d));
  }

  /** Nothing else is listed. */
  lemma ListedIsVmxFile(t: Tree, vmDir: string, p: string)
    requires TreeOK(t) && Literal(vmDir) && p in ListedPaths(t, vmDir)
    ensures exists d, f ::
              Clean(vmDir) in t.names && d in t.names[Clean(vmDir)] && JoinPath(vmDir, d) in t.names
              && f in t.names[JoinPath(vmDir, d)] && HasSuffix(f, ".vmx") && p == JoinPath(JoinPath(vmDir, d), f)
  {
    assert VMX == ".vmx";
    ListsEachOnce(t, vmDir);
    hide JoinPath, Clean, ListedPaths, HasSuffix, Literal, TreeOK;
    var d, f :| VmxAt(t, vmDir, d, f, p);
    SubdirIs(t, vmDir, d);
  }

  /** Running names the lines of the output that end in ".vmx", less white space around. */
  lemma RunningNamesLines(output: string, p: string)
    ensures p in RunningPaths(Split(output, '\n'))
            <==> HasSuffix(p, ".vmx") && exists j :: 0 <= j < |Split(output, '\n')| && TrimSpace(Split(output, '\n')[j]) == p
  {
    assert VMX == ".vmx";
    RunningPathsHas(Split(output, '\n'), p);
    hide Split, TrimSpace, HasSuffix, RunningPaths;
  }

  /** The three places a name is looked for, in the order the platform gives them. */
  lemma LayoutsInOrder(t: Tree, vmDir: string, vm: string)
    requires vm != "" && !HasSuffix(vm, ".vmx")
    ensures var bundled, plain := GlobIn(t, vmDir, vm + ".vmwarevm"), GlobIn(t, vmDir, vm);
            && ResolveVmx(true, t, vmDir, vm) ==
                 (if |bundled| == 1 then Some(bundled[0]) else if |plain| == 1 then Some(plain[0]) else None)
            && ResolveVmx(false, t, vmDir, vm) ==
                 (if |plain| == 1 then Some(plain[0]) else if |bundled| == 1 then Some(bundled[0]) else None)
  {
    assert VMX == ".vmx" && BUNDLE == ".vmwarevm";
    hide GlobIn, HasSuffix;
  }

  /** A name or VM directory with one of the four glob characters is left to Glob. */
  lemma WildNames(t: Tree, vmDir: string, name: string)
    ensures (exists c :: c in vmDir + name && (c == '*' || c == '?' || c == '[' || c == '\\'))
            <==> !(Literal(vmDir) && Literal(name))
    ensures !(Literal(vmDir) && Literal(name)) ==> GlobIn(t, vmDir, name) == t.wild(JoinPath(JoinPath(vmDir, name), "*.vmx"))
  {
    assert forall c :: c in vmDir + name <==> c in vmDir || c in name;
    hide JoinPath, Glob;
  }
}
