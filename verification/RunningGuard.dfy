// provider/vmware/ops.go, configure: resolve, refuse if running, edit. Over runs in which
// VMs start and stop between requests.
module RunningGuard {
  import opened Text
  import opened Paths
  import opened HostFiles
  import opened VmxEditor
  import opened VmxCounts
  import opened VmxConfig
  import opened Inventory

  /** What one call of configure meets: the VM tree, the working directory, what
      `vmrun list` says, and how the write of the .vmx ends. */
  datatype Setting = Setting(
    darwin: bool,
    tree: Tree,
    vmDir: string,
    cwd: string,
    listOK: bool,
    output: string,
    write: WriteEnd)

  /** The path a call settles on, as it is spelled. */
  function Chosen(s: Setting, vm: string): Option<string> {
    ResolveVmx(s.darwin, s.tree, s.vmDir, vm)
  }

  /** The call reaches the write. The guard compares the spelling of the path; the
      operating system takes the spelling to a file, which the disk knows by its rooted,
      cleaned path. */
  predicate Edits(s: Setting, vm: string, files: map<string, string>) {
    var vmx := Chosen(s, vm);
    && vmx.Some?
    && EnsureOff(s.listOK, s.output, vmx.value)
    && AbsPath(s.cwd, vmx.value) in files
    && !s.write.Denied?
  }

  function Configured(s: Setting, vm: string, pairs: seq<Pair>, files: map<string, string>): map<string, string> {
    if Edits(s, vm, files) then
      var file := AbsPath(s.cwd, Chosen(s, vm).value);
      files[file := Landed(s.write, Edit(files[file], pairs))]
    else files
  }

  /** configure. */
  method Configure(host: Host, s: Setting, vm: string, pairs: seq<Pair>) returns (ok: bool)
    modifies host
    ensures ok == (Edits(s, vm, old(host.disk).files) && s.write.Whole?)
    ensures host.disk == Disk(Configured(s, vm, pairs, old(host.disk).files), old(host.disk).dirs)
  {
    hide ResolveVmx, EnsureOff, Edit, AbsPath, Landed;
    var vmx := ResolveVmx(s.darwin, s.tree, s.vmDir, vm);
    if vmx.None? {
      return false;
    }
    if !EnsureOff(s.listOK, s.output, vmx.value) {
      return false;
    }
    ok := SetVmxKeys(host, AbsPath(s.cwd, vmx.value), pairs, s.write);
  }

  // -------------------------------------------------------------------- runs

  /** A request in the setting it meets. Between requests VMs start and stop, so each
      request has its own report. */
  datatype Event = Event(setting: Setting, vm: string, request: Request)

  function Served(e: Event, files: map<string, string>): map<string, string> {
    if PairsOf(e.request) == [] then files else Configured(e.setting, e.vm, PairsOf(e.request), files)
  }

  /** SetResources, SetNestedVirt, AttachISO and SetGuestinfo: build the pairs, refuse when
      there are none, configure. */
  method Serve(host: Host, e: Event) returns (ok: bool)
    modifies host
    ensures ok == (PairsOf(e.request) != [] && Edits(e.setting, e.vm, old(host.disk).files) && e.setting.write.Whole?)
    ensures host.disk == Disk(Served(e, old(host.disk).files), old(host.disk).dirs)
  {
    hide Edits, Configured, PairsOf;
    var pairs := PairsOf(e.request);
    if pairs == [] {
      return false;
    }
    ok := Configure(host, e.setting, e.vm, pairs);
  }

  function After(files: map<string, string>, es: seq<Event>): map<string, string> {
    if es == [] then files else Served(es[|es| - 1], After(files, es[..|es| - 1]))
  }

  predicate Same(a: map<string, string>, b: map<string, string>, file: string) {
    (file in a <==> file in b) && (file in a ==> a[file] == b[file])
  }

  /** The request is written to the file if the file exists. */
  predicate Reaches(e: Event, file: string) {
    var vmx := Chosen(e.setting, e.vm);
    && PairsOf(e.request) != []
    && vmx.Some?
    && EnsureOff(e.setting.listOK, e.setting.output, vmx.value)
    && AbsPath(e.setting.cwd, vmx.value) == file
    && !e.setting.write.Denied?
  }

  /** What one request makes of one file. */
  lemma ServedAt(e: Event, files: map<string, string>, file: string)
    ensures file in Served(e, files) <==> file in files
    ensures file in files ==>
              Served(e, files)[file] ==
              if Reaches(e, file) then Landed(e.setting.write, Edit(files[file], PairsOf(e.request))) else files[file]
  {
    hide Chosen, EnsureOff, AbsPath, Landed, Edit, PairsOf;
  }

  // ------------------------------------------------------- when the guard holds

  /** A successful report names the file as running, by its rooted, cleaned path. */
  predicate NamesRunning(s: Setting, file: string) {
    s.listOK && file in RunningPaths(Split(s.output, '\n'))
  }

  /** The spelling occurs in the path of the file it names, or no report line can name
      that file. */
  predicate Guardable(cwd: string, path: string) {
    '\n' in AbsPath(cwd, path) || Contains(AbsPath(cwd, path), path)
  }

  /** The request settles on a path the guard can recognise. */
  predicate Careful(s: Setting, vm: string) {
    Chosen(s, vm).Some? ==> Guardable(s.cwd, Chosen(s, vm).value)
  }

  lemma ContainsContains(a: string, b: string, c: string)
    requires Contains(a, b) && Contains(b, c)
    ensures Contains(a, c)
  {
    hide OccursAt;
    var at: nat :| at <= |a| && OccursAt(a, b, at);
    ContainsTrans(a, b, at, c);
  }

  lemma RunningPathIsOneLine(output: string, p: string)
    requires p in RunningPaths(Split(output, '\n'))
    ensures '\n' !in p
  {
    var lines := Split(output, '\n');
    SplitParts(output, '\n');
    hide Split, Trim, RunningPaths, Join;
    var i :| 0 <= i < |RunningPaths(lines)| && RunningPaths(lines)[i] == p;
    RunningPathOccurs(lines, i);
    var j :| 0 <= j < |lines| && p == TrimSpace(lines[j]);
    TrimIsTrimmed(lines[j], SPACES);
  }

  /** One rooted .vmx path on a line of its own is a whole report. */
  lemma OneLineReport(p: string)
    requires IsAbs(p) && HasSuffix(p, VMX) && '\n' !in p
    ensures RunningPaths(Split(p, '\n')) == [p]
  {
    assert p[|p| - 1] == 'x';
    assert Trimmed(p, SPACES);
    TrimIsTrimmed(p, SPACES);
    SplitFirst(p, "", '\n');
    assert [p][..0] == [];
    hide Split, Trim, HasSuffix;
    assert RunningPaths([p][..0]) == [];
  }

  /** The guard closes on every report that names the file as running if and only if the
      spelling it compares is guardable. */
  lemma GuardClosesIff(cwd: string, path: string)
    requires IsAbs(cwd) && HasSuffix(path, VMX)
    ensures (forall output :: AbsPath(cwd, path) in RunningPaths(Split(output, '\n')) ==> !EnsureOff(true, output, path))
            <==> Guardable(cwd, path)
  {
    var file := AbsPath(cwd, path);
    AbsPathIsClean(cwd, path);
    AbsPathKeepsSuffix(cwd, path);
    hide AbsPath, Contains, RunningPaths, Split, HasSuffix, Clean;
    if Guardable(cwd, path) {
      forall output | file in RunningPaths(Split(output, '\n')) ensures !EnsureOff(true, output, path) {
        RunningPathIsOneLine(output, file);
        ReportedIsRefused(output, file);
        ContainsContains(output, file, path);
      }
    } else {
      OneLineReport(file);
      assert file in RunningPaths(Split(file, '\n')) && EnsureOff(true, file, path);
    }
  }

  /** A careful request never reaches the file of a VM its report names. */
  lemma ReportedIsNotReached(e: Event, file: string)
    requires NamesRunning(e.setting, file) && Careful(e.setting, e.vm)
    ensures !Reaches(e, file)
  {
    var s := e.setting;
    hide Chosen, AbsPath, RunningPaths, Split, Contains, PairsOf;
    RunningPathIsOneLine(s.output, file);
    ReportedIsRefused(s.output, file);
    if Chosen(s, e.vm).Some? && AbsPath(s.cwd, Chosen(s, e.vm).value) == file {
      ContainsContains(s.output, file, Chosen(s, e.vm).value);
    }
  }

  /** The running guard, exactly: for every report that names the file a request settles
      on, and every disk, the request is refused, if and only if the request is careful. */
  lemma RunningIsRefusedIff(s: Setting, vm: string)
    requires IsAbs(s.cwd) && !s.write.Denied?
    requires Chosen(s, vm).Some? && HasSuffix(Chosen(s, vm).value, VMX)
    ensures (forall output, files :: NamesRunning(s.(listOK := true, output := output), AbsPath(s.cwd, Chosen(s, vm).value))
                ==> !Edits(s.(listOK := true, output := output), vm, files))
            <==> Careful(s, vm)
  {
    var path := Chosen(s, vm).value;
    var file := AbsPath(s.cwd, path);
    GuardClosesIff(s.cwd, path);
    hide AbsPath, RunningPaths, Split, EnsureOff, ResolveVmx, Guardable, HasSuffix;
    if !Careful(s, vm) {
      var output :| file in RunningPaths(Split(output, '\n')) && EnsureOff(true, output, path);
      var s' := s.(listOK := true, output := output);
      assert NamesRunning(s', file) && Edits(s', vm, map[file := ""]);
    }
  }

  /** A request that gives a rooted path is careful exactly when the path is cleaned. */
  lemma RootedIsGuardableIff(cwd: string, path: string)
    requires IsAbs(path)
    ensures Guardable(cwd, path) <==> Clean(path) == path || '\n' in Clean(path)
  {
    ContainedIffClean(path);
    hide Clean, Contains;
  }

  lemma GlobIsRooted(t: Tree, dir: string, q: string)
    requires IsAbs(dir) && q in Glob(t, dir, VMX)
    ensures IsAbs(q) && Clean(q) == q
  {
    MatchingHas(dir, t.names[dir], VMX, q);
    hide JoinPath, Clean, HasSuffix;
    var i :| 0 <= i < |t.names[dir]| && q == JoinPath(dir, t.names[dir][i]);
    JoinRooted(dir, t.names[dir][i]);
  }

  lemma GlobInIsRooted(t: Tree, vmDir: string, name: string, q: string)
    requires GlobOK(t) && IsAbs(vmDir) && q in GlobIn(t, vmDir, name)
    ensures IsAbs(q) && Clean(q) == q
  {
    var dir := JoinPath(vmDir, name);
    JoinRooted(vmDir, name);
    JoinRooted(dir, "*.vmx");
    hide JoinPath, Clean, Glob, IsAbs;
    if Literal(vmDir) && Literal(name) {
      GlobIsRooted(t, dir, q);
    }
  }

  /** A request that gives a name is always careful, in a rooted VM directory. */
  lemma NamesAreCareful(s: Setting, vm: string)
    requires GlobOK(s.tree) && IsAbs(s.vmDir) && !HasSuffix(vm, VMX)
    ensures Careful(s, vm)
  {
    if vm != "" && Chosen(s, vm).Some? {
      var q := Chosen(s, vm).value;
      ResolvedIsGlobbed(s.darwin, s.tree, s.vmDir, vm);
      hide GlobIn, GlobOK, ResolveVmx, HasSuffix, Contains, Clean;
      var name :| q in GlobIn(s.tree, s.vmDir, name);
      GlobInIsRooted(s.tree, s.vmDir, name, q);
      SelfContained(q);
    }
  }

  lemma ResolvedIsGlobbed(darwin: bool, t: Tree, vmDir: string, vm: string)
    requires !HasSuffix(vm, VMX) && ResolveVmx(darwin, t, vmDir, vm).Some?
    ensures exists name :: ResolveVmx(darwin, t, vmDir, vm).value in GlobIn(t, vmDir, name)
  {
    OnlyIsMember(GlobIn(t, vmDir, Bundle(darwin, vm)));
    OnlyIsMember(GlobIn(t, vmDir, vm + BUNDLE));
    OnlyIsMember(GlobIn(t, vmDir, vm));
    hide GlobIn, HasSuffix;
  }

  lemma ConfiguredIs(s: Setting, vm: string, pairs: seq<Pair>, files: map<string, string>)
    requires Edits(s, vm, files) && s.write.Whole? && Chosen(s, vm) == Some(vm)
    ensures var file := AbsPath(s.cwd, vm);
            file in files && Configured(s, vm, pairs, files) == files[file := Edit(files[file], pairs)]
  {
    hide Chosen, EnsureOff, AbsPath, Edit;
  }

  lemma RootedIs(s: Setting, path: string)
    requires IsAbs(path)
    ensures AbsPath(s.cwd, path) == Clean(path)
    ensures s.listOK && Clean(path) in RunningPaths(Split(s.output, '\n')) ==> NamesRunning(s, Clean(path))
  {
    hide Clean, RunningPaths, Split;
  }

  /** Why requests must be careful: a rooted path that is not cleaned is not in the report
      that names its file, and the file of the running VM is rewritten. */
  lemma AliasEscapes(s: Setting, vm: string, pairs: seq<Pair>, files: map<string, string>)
    requires IsAbs(vm) && HasSuffix(vm, VMX) && Clean(vm) != vm && '\n' !in Clean(vm)
    requires s.listOK && s.output == Clean(vm) && s.write.Whole? && Clean(vm) in files
    ensures NamesRunning(s, Clean(vm))
    ensures Configured(s, vm, pairs, files) == files[Clean(vm) := Edit(files[Clean(vm)], pairs)]
  {
    assert VMX == ".vmx";
    hide *;
    CleanReads(vm);
    CleanKeepsSuffix(vm);
    ContainedIffClean(vm);
    OneLineReport(Clean(vm));
    RootedIs(s, vm);
    PathIsChosen(s, vm);
    EditsIff(s, vm, files);
    ConfiguredIs(s, vm, pairs, files);
  }

  lemma PathIsChosen(s: Setting, vm: string)
    requires HasSuffix(vm, VMX)
    ensures Chosen(s, vm) == Some(vm)
  {
    assert |vm| >= |VMX| == 4;
  }

  lemma SecondSlash(path: string)
    requires IsAbs(path) && HasSuffix(path, VMX)
    ensures IsAbs("/" + path) && "/" + path != path && HasSuffix("/" + path, VMX)
  {
    var vm := "/" + path;
    assert |vm| == |path| + 1;
    assert vm[|vm| - |VMX|..] == path[|path| - |VMX|..];
  }

  /** Such an input for every running VM: the report says "/v/x.vmx", and the request
      "//v/x.vmx". */
  lemma DoubledSlashEscapes(s: Setting, path: string, pairs: seq<Pair>, files: map<string, string>)
    requires IsAbs(path) && Clean(path) == path && HasSuffix(path, VMX) && '\n' !in path
    requires s.listOK && s.output == path && s.write.Whole? && path in files
    ensures NamesRunning(s, path)
    ensures Configured(s, "/" + path, pairs, files) == files[path := Edit(files[path], pairs)]
  {
    hide *;
    SecondSlash(path);
    LeadingSlash(path);
    AliasEscapes(s, "/" + path, pairs, files);
  }

  // ------------------------------------------------------------ runs, file by file

  /** The event's report names the file as running, and its request is careful. */
  predicate Shielded(e: Event, file: string) {
    NamesRunning(e.setting, file) && Careful(e.setting, e.vm)
  }

  /** One step of any run: a shielded event leaves the file alone. */
  lemma ShieldedIsUntouched(e: Event, files: map<string, string>, file: string)
    requires Shielded(e, file)
    ensures Same(files, Served(e, files), file)
  {
    hide NamesRunning, Careful, Served, Reaches, Edit;
    ReportedIsNotReached(e, file);
    ServedAt(e, files, file);
  }

  /** The run without the events that shield the file. */
  function Unshielded(es: seq<Event>, file: string): seq<Event> {
    if es == [] then []
    else
      var e := es[|es| - 1];
      Unshielded(es[..|es| - 1], file) + if Shielded(e, file) then [] else [e]
  }

  lemma AfterStep(files: map<string, string>, es: seq<Event>, e: Event)
    ensures After(files, es + [e]) == Served(e, After(files, es))
  {
    hide Served;
    assert (es + [e])[..|es|] == es;
  }

  /** Over any run, with VMs starting and stopping in between: to a file, events whose
      report names its VM as running might as well not have happened. */
  lemma {:induction false} RunIgnoresShielded(files: map<string, string>, es: seq<Event>, file: string)
    ensures Same(After(files, Unshielded(es, file)), After(files, es), file)
  {
    hide Served, Shielded, Reaches, Edit, Landed, PairsOf;
    if es != [] {
      var n := |es| - 1;
      var init, e := es[..n], es[n];
      RunIgnoresShielded(files, init, file);
      var less := Unshielded(init, file);
      if Shielded(e, file) {
        ShieldedIsUntouched(e, After(files, init), file);
        assert less + [] == less;
      } else {
        AfterStep(files, less, e);
        ServedAt(e, After(files, less), file);
        ServedAt(e, After(files, init), file);
      }
    }
  }

  lemma {:induction false} AllShielded(es: seq<Event>, file: string)
    requires forall i :: 0 <= i < |es| ==> Shielded(es[i], file)
    ensures Unshielded(es, file) == []
  {
    hide Shielded;
    if es != [] {
      AllShielded(es[..|es| - 1], file);
    }
  }

  /** So a VM reported running throughout a run of careful requests keeps its file. */
  lemma RunningKeepsItsFile(files: map<string, string>, es: seq<Event>, file: string)
    requires forall i :: 0 <= i < |es| ==> Shielded(es[i], file)
    ensures Same(files, After(files, es), file)
  {
    hide Shielded, Served;
    AllShielded(es, file);
    RunIgnoresShielded(files, es, file);
  }

  /** The requests of a run that are written to the file, in order. */
  function Hits(es: seq<Event>, file: string): seq<Request> {
    if es == [] then []
    else
      var e := es[|es| - 1];
      Hits(es[..|es| - 1], file) + if Reaches(e, file) then [e.request] else []
  }

  /** The point just after the last write to the file that stopped halfway, or 0. */
  function LastStopped(es: seq<Event>, file: string): (k: nat)
    ensures k <= |es|
  {
    if es == [] then 0
    else
      var e := es[|es| - 1];
      if Reaches(e, file) && e.setting.write.Stopped? then |es| else LastStopped(es[..|es| - 1], file)
  }

  lemma RunStep(data: string, rs: seq<Request>, r: Request)
    ensures Run(data, rs + [r]) == Apply(Run(data, rs), r)
  {
    hide Apply;
    assert (rs + [r])[..|rs|] == rs;
  }

  lemma LastStoppedIs(es: seq<Event>, file: string)
    requires es != []
    ensures var e := es[|es| - 1];
            LastStopped(es, file) ==
              if Reaches(e, file) && e.setting.write.Stopped? then |es| else LastStopped(es[..|es| - 1], file)
  {
    hide Reaches;
  }

  lemma HitsStep(es: seq<Event>, k: nat, file: string)
    requires k < |es|
    ensures var n := |es| - 1;
            Hits(es[k..], file) == Hits(es[..n][k..], file) + if Reaches(es[n], file) then [es[n].request] else []
  {
    hide Reaches;
    var n := |es| - 1;
    assert es[k..][..|es[k..]| - 1] == es[..n][k..];
  }

  lemma NothingRun(files: map<string, string>, data: string, file: string)
    ensures After(files, []) == files && Hits([], file) == [] && Run(data, []) == data
  {
  }

  lemma HitIsWhole(e: Event, file: string, data: string)
    requires Reaches(e, file) && !e.setting.write.Stopped?
    ensures Landed(e.setting.write, Edit(data, PairsOf(e.request))) == Apply(data, e.request)
  {
    hide Edit, PairsOf, AbsPath, EnsureOff, ResolveVmx;
  }

  /** A run over many VMs, with its guards and refusals, is for each file the plain run of
      the requests that were written to it, from the last write on that stopped halfway;
      from the beginning, when none did. */
  lemma {:induction false} GuardedRunIsRun(files: map<string, string>, es: seq<Event>, file: string)
    ensures var k := LastStopped(es, file);
            && (file in After(files, es) <==> file in files)
            && (file in After(files, es[..k]) <==> file in files)
            && (file in files ==> After(files, es)[file] == Run(After(files, es[..k])[file], Hits(es[k..], file)))
  {
    hide Served, Reaches, Edit, PairsOf, Apply, Landed, After, Hits, LastStopped, Run;
    if es == [] {
      NothingRun(files, if file in files then files[file] else "", file);
      assert es[..LastStopped(es, file)] == [] && es[LastStopped(es, file)..] == [];
    } else {
      var n, k := |es| - 1, LastStopped(es, file);
      var init, e := es[..n], es[n];
      AfterStep(files, init, e);
      assert init + [e] == es;
      LastStoppedIs(es, file);
      GuardedRunIsRun(files, init, file);
      ServedAt(e, After(files, init), file);
      if Reaches(e, file) && e.setting.write.Stopped? {
        assert es[..k] == es && es[k..] == [];
        NothingRun(files, if file in files then After(files, es)[file] else "", file);
      } else {
        assert es[..k] == init[..k];
        HitsStep(es, k, file);
        if Reaches(e, file) && file in files {
          var base := After(files, es[..k])[file];
          RunStep(base, Hits(init[k..], file), e.request);
          HitIsWhole(e, file, After(files, init)[file]);
        } else {
          assert Hits(init[k..], file) + [] == Hits(init[k..], file);
        }
      }
    }
  }

  /** It leaves each file with the bytes of a single edit with everything written to it
      since then. */
  lemma GuardedRunIsOneEdit(files: map<string, string>, es: seq<Event>, file: string)
    requires file in files && GoodRun(Hits(es[LastStopped(es, file)..], file))
    ensures var k := LastStopped(es, file);
            var written := Written(Hits(es[k..], file));
            && file in After(files, es) && file in After(files, es[..k])
            && var base := After(files, es[..k])[file];
               After(files, es)[file] == if written == [] then base else Edit(base, written)
  {
    hide *;
    var k := LastStopped(es, file);
    GuardedRunIsRun(files, es, file);
    RunIsOneEdit(After(files, es[..k])[file], Hits(es[k..], file));
  }

  /** And since then it duplicates no key when the requests written to it are tidy. */
  lemma GuardedRunAddsNoDuplicates(files: map<string, string>, es: seq<Event>, file: string, key: string)
    requires file in files && TidyRun(Hits(es[LastStopped(es, file)..], file))
    ensures var k := LastStopped(es, file);
            && file in After(files, es) && file in After(files, es[..k])
            && Count(ParseLines(After(files, es)[file]), key) ==
                 CountAfter(Written(Hits(es[k..], file)), key, Count(ParseLines(After(files, es[..k])[file]), key))
  {
    var k := LastStopped(es, file);
    hide After, Hits, Run, ParseLines, Count, CountAfter, Written, LastStopped, TidyRun;
    GuardedRunIsRun(files, es, file);
    RunKeepsCountLaw(After(files, es[..k])[file], Hits(es[k..], file), key);
  }

  // ------------------------------------------------------- what the guard rests on

  /** The guard is only as good as the report. A request that names the .vmx file itself
      is written exactly when the file is there and the write not denied, and the
      command's output, if it succeeded, does not mention the path. */
  lemma EditsIff(s: Setting, vmx: string, files: map<string, string>)
    requires HasSuffix(vmx, VMX)
    ensures Edits(s, vmx, files) <==>
              AbsPath(s.cwd, vmx) in files && !s.write.Denied? && !(s.listOK && Contains(s.output, vmx))
  {
    PathIsChosen(s, vmx);
    assert |vmx| >= |VMX| == 4;
    EmptyContainsNothing(vmx);
    hide Contains, Chosen, AbsPath;
  }

  lemma EmptyContainsNothing(sub: string)
    requires sub != ""
    ensures !Contains("", sub)
  {
  }

  /** When the list command fails the guard is open: the file of a VM that is running is
      edited all the same. */
  lemma FailedListIsOpen(s: Setting, vmx: string, pairs: seq<Pair>, files: map<string, string>)
    requires HasSuffix(vmx, VMX) && !s.listOK && AbsPath(s.cwd, vmx) in files && s.write.Whole?
    ensures var file := AbsPath(s.cwd, vmx);
            Configured(s, vmx, pairs, files) == files[file := Edit(files[file], pairs)]
  {
    EditsIff(s, vmx, files);
    PathIsChosen(s, vmx);
    hide Edit, Edits, AbsPath, Chosen;
  }
}
