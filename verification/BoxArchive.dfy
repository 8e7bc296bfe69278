// core/artifact/fetch.go, extractBox: unpack a Vagrant box into a directory and choose
// the machine file. The archive is its sequence of members.
module BoxArchive {
  import opened Text
  import opened HostFiles
  import opened Paths

  datatype Kind = Directory | Regular | Other

  /** A member with what the environment decides while it is extracted: whether MkdirAll
      and Create succeed, which directories a failing MkdirAll still makes, and the part
      written if the copy of its body is cut short. */
  datatype Member = Member(
    name: string,
    kind: Kind,
    body: string,
    mkdirOK: bool,
    partly: set<string>,
    createOK: bool,
    cut: Option<string>)

  /** The members up to the end of the archive, or up to a read error. */
  datatype Archive = Archive(members: seq<Member>, intact: bool)

  /** How the MkdirAll of the destination goes: whether it succeeds, and what it makes if
      it fails. */
  datatype Mkdir = Mkdir(ok: bool, partly: set<string>)

  datatype State = State(disk: Disk, machine: string, failed: bool)

  // -------------------------------------------------------------- what it does

  /** The directories MkdirAll makes sure of. */
  function AncestorDirs(p: string): set<string> {
    set k | 0 <= k <= |Parts(p)| :: Render(IsAbs(p), Parts(p)[..k])
  }

  predicate CanMakeDirs(d: Disk, p: string) {
    forall dir | dir in AncestorDirs(p) :: dir !in d.files
  }

  /** The name test of extractBox. */
  predicate Unsafe(m: Member) {
    HasPrefix(Clean(m.name), "..") || IsAbs(Clean(m.name))
  }

  function Target(destDir: string, m: Member): string {
    JoinPath(destDir, Clean(m.name))
  }

  /** The directory a member needs, with its ancestors. */
  function DirsOf(destDir: string, m: Member): set<string> {
    match m.kind
    case Directory => AncestorDirs(Target(destDir, m))
    case Regular => AncestorDirs(Dir(Target(destDir, m)))
    case Other => {}
  }

  predicate IsOvf(m: Member) {
    m.kind.Regular? && HasSuffix(Clean(m.name), ".ovf")
  }

  predicate IsVmx(m: Member) {
    m.kind.Regular? && HasSuffix(Clean(m.name), ".vmx")
  }

  function Step(destDir: string, s: State, m: Member): State {
    if s.failed then s
    else if Unsafe(m) then s.(failed := true)
    else if m.kind.Other? then s
    else if !m.mkdirOK || (exists dir | dir in DirsOf(destDir, m) :: dir in s.disk.files) then
      State(WithDirs(s.disk, DirsOf(destDir, m) * m.partly), s.machine, true)
    else
      var made := WithDirs(s.disk, DirsOf(destDir, m));
      if m.kind.Directory? then s.(disk := made)
      else
        var dest := Target(destDir, m);
        if !m.createOK || dest in made.dirs then State(made, s.machine, true)
        else if m.cut.Some? then State(WithFile(made, dest, m.cut.value), s.machine, true)
        else
          var machine := if IsOvf(m) || (IsVmx(m) && s.machine == "") then dest else s.machine;
          State(WithFile(made, dest, m.body), machine, false)
  }

  function Steps(destDir: string, s: State, ms: seq<Member>): State {
    if ms == [] then s else Step(destDir, Steps(destDir, s, ms[..|ms| - 1]), ms[|ms| - 1])
  }

  function Start(destDir: string, d: Disk, mk: Mkdir): State {
    if mk.ok && CanMakeDirs(d, destDir) then State(WithDirs(d, AncestorDirs(destDir)), "", false)
    else State(WithDirs(d, AncestorDirs(destDir) * mk.partly), "", true)
  }

  function Extract(destDir: string, d: Disk, mk: Mkdir, a: Archive): State {
    var s := Steps(destDir, Start(destDir, d, mk), a.members);
    if a.intact then s else s.(failed := true)
  }

  /** The machine file returned, or None for an error. */
  function Machine(s: State): Option<string> {
    if s.failed || s.machine == "" then None else Some(s.machine)
  }

  lemma StepsUpTo(destDir: string, s: State, ms: seq<Member>, n: nat)
    requires n < |ms|
    ensures Steps(destDir, s, ms[..n + 1]) == Step(destDir, Steps(destDir, s, ms[..n]), ms[n])
  {
    assert ms[..n + 1][..n] == ms[..n];
  }

  lemma {:induction false} FailureIsFinal(destDir: string, s: State, ms: seq<Member>, n: nat)
    requires n <= |ms|
    requires Steps(destDir, s, ms[..n]).failed
    ensures Steps(destDir, s, ms) == Steps(destDir, s, ms[..n])
  {
    if n < |ms| {
      var init := ms[..|ms| - 1];
      assert init[..n] == ms[..n];
      FailureIsFinal(destDir, s, init, n);
    } else {
      assert ms[..n] == ms;
    }
  }

  // ----------------------------------------------------------------- the code

  /** extractBox, once the archive is open. */
  method ExtractBox(host: Host, destDir: string, mk: Mkdir, a: Archive) returns (result: Option<string>)
    modifies host
    ensures host.disk == Extract(destDir, old(host.disk), mk, a).disk
    ensures result == Machine(Extract(destDir, old(host.disk), mk, a))
  {
    if !mk.ok || !CanMakeDirs(host.disk, destDir) {
      FailureIsFinal(destDir, Start(destDir, host.disk, mk), a.members, 0);
      host.MakeDirs(AncestorDirs(destDir) * mk.partly);
      return None;
    }
    ghost var start := Start(destDir, host.disk, mk);
    host.MakeDirs(AncestorDirs(destDir));
    var machine := "";
    var ms := a.members;
    hide AncestorDirs, Clean, JoinPath, Dir, IsOvf, IsVmx;
    for n := 0 to |ms|
      invariant State(host.disk, machine, false) == Steps(destDir, start, ms[..n])
    {
      StepsUpTo(destDir, start, ms, n);
      var ok: bool;
      ok, machine := ExtractMember(host, destDir, machine, ms[n]);
      if !ok {
        FailureIsFinal(destDir, start, ms, n + 1);
        return None;
      }
    }
    assert ms[..|ms|] == ms;
    if !a.intact || machine == "" {
      return None;
    }
    return Some(machine);
  }

  /** The body of extractBox's loop. */
  method ExtractMember(host: Host, destDir: string, machine: string, m: Member) returns (ok: bool, chosen: string)
    modifies host
    ensures State(host.disk, chosen, !ok) == Step(destDir, State(old(host.disk), machine, false), m)
  {
    var name := Clean(m.name);
    chosen := machine;
    if HasPrefix(name, "..") || IsAbs(name) {
      return false, machine;
    }
    var dest := JoinPath(destDir, name);
    hide Clean, JoinPath, Dir, AncestorDirs, HasPrefix, HasSuffix, IsAbs;
    if m.kind.Directory? {
      if !m.mkdirOK || !CanMakeDirs(host.disk, dest) {
        host.MakeDirs(AncestorDirs(dest) * m.partly);
        return false, machine;
      }
      host.MakeDirs(AncestorDirs(dest));
    } else if m.kind.Regular? {
      if !m.mkdirOK || !CanMakeDirs(host.disk, Dir(dest)) {
        host.MakeDirs(AncestorDirs(Dir(dest)) * m.partly);
        return false, machine;
      }
      host.MakeDirs(AncestorDirs(Dir(dest)));
      if !m.createOK || dest in host.disk.dirs {
        return false, machine;
      }
      host.Write(dest, if m.cut.Some? then m.cut.value else m.body);
      if m.cut.Some? {
        return false, machine;
      }
      if HasSuffix(name, ".ovf") {
        chosen := dest;
      } else if HasSuffix(name, ".vmx") && machine == "" {
        chosen := dest;
      }
    }
    return true, chosen;
  }

  // --------------------------------------------------------------- confinement

  /** The path is the directory or lies below it: its elements start with the directory's. */
  predicate Under(dir: string, path: string) {
    IsAbs(path) == IsAbs(dir) && Parts(dir) <= Parts(path)
  }

  lemma TargetIsUnder(destDir: string, m: Member)
    requires !Unsafe(m)
    ensures Under(destDir, Target(destDir, m))
    ensures Parts(Target(destDir, m)) == Parts(destDir) + Parts(m.name)
    ensures Clean(Target(destDir, m)) == Target(destDir, m) != ""
  {
    CleanReads(m.name);
    NoDotDotPrefix(m.name);
    hide Parts, Clean, JoinPath;
    JoinConcatenates(destDir, Clean(m.name));
  }

  lemma AncestorsUnder(dir: string, p: string, path: string)
    requires Under(dir, p) && path in AncestorDirs(p)
    ensures Under(dir, path) || path in AncestorDirs(dir)
  {
    var k :| 0 <= k <= |Parts(p)| && path == Render(IsAbs(p), Parts(p)[..k]);
    PartsAreNormal(p);
    hide Parts, Normal, Render;
    NormalPrefix(IsAbs(p), Parts(p), k);
    RenderReads(IsAbs(p), Parts(p)[..k]);
    if k < |Parts(dir)| {
      assert Parts(p)[..k] == Parts(dir)[..k];
    }
  }

  /** The ancestors of a cleaned path's directory are among the path's own. */
  lemma AncestorsOfDir(p: string)
    requires Clean(p) == p
    ensures AncestorDirs(Dir(p)) <= AncestorDirs(p)
  {
    if Parts(p) == [] {
      DirOfNothing(p);
    } else {
      DirOfClean(p);
      hide *;
      AncestorsOfPrefix(Dir(p), p);
    }
  }

  lemma AncestorsOfPrefix(q: string, p: string)
    requires IsAbs(q) == IsAbs(p) && Parts(p) != [] && Parts(q) == Parts(p)[..|Parts(p)| - 1]
    ensures AncestorDirs(q) <= AncestorDirs(p)
  {
    hide Parts, IsAbs, Render;
    forall path | path in AncestorDirs(q) ensures path in AncestorDirs(p) {
      var k :| 0 <= k <= |Parts(q)| && path == Render(IsAbs(q), Parts(q)[..k]);
      assert Parts(q)[..k] == Parts(p)[..k];
    }
  }

  lemma DirOfNothing(p: string)
    requires Clean(p) == p && Parts(p) == []
    ensures Dir(p) == p
  {
    NothingReads();
    assert p == "/" || p == ".";
    assert AfterLast("/", '/') == 1 && AfterLast(".", '/') == 0 by {
      AfterLastConcat("", "", '/');
      AfterLastConcat("", ".", '/');
    }
    assert "/"[..1] == "/" && "."[..0] == "";
  }

  lemma DirsOfUnder(destDir: string, m: Member, path: string)
    requires !Unsafe(m) && path in DirsOf(destDir, m)
    ensures Under(destDir, path) || path in AncestorDirs(destDir)
  {
    TargetIsUnder(destDir, m);
    AncestorsOfDir(Target(destDir, m));
    hide Unsafe, Target, AncestorDirs, Dir, Under, Clean;
    AncestorsUnder(destDir, Target(destDir, m), path);
  }

  /** What a state may have added to the disk it started from. */
  ghost predicate Confined(destDir: string, before: Disk, after: Disk) {
    && (forall path :: FileAt(after, path) != FileAt(before, path) ==> Under(destDir, path))
    && (forall path :: path in after.dirs && path !in before.dirs ==> Under(destDir, path) || path in AncestorDirs(destDir))
  }

  lemma StepIsConfined(destDir: string, before: Disk, s: State, m: Member)
    requires Confined(destDir, before, s.disk)
    ensures Confined(destDir, before, Step(destDir, s, m).disk)
  {
    var t := Step(destDir, s, m);
    hide Under, AncestorDirs, Target, DirsOf, Unsafe, IsOvf, IsVmx;
    if !s.failed && !Unsafe(m) {
      TargetIsUnder(destDir, m);
      forall path | path in DirsOf(destDir, m) ensures Under(destDir, path) || path in AncestorDirs(destDir) {
        DirsOfUnder(destDir, m, path);
      }
    }
  }

  /** Extraction is confined: whatever the members are called, and wherever extraction
      stops, every file it writes is below the destination, and every directory it makes
      is too, or is one of the destination's own ancestors. */
  lemma {:induction false} ExtractionIsConfined(destDir: string, d: Disk, mk: Mkdir, a: Archive)
    ensures Confined(destDir, d, Extract(destDir, d, mk, a).disk)
  {
    hide Under, AncestorDirs, Step, CanMakeDirs;
    var start := Start(destDir, d, mk);
    for n := 0 to |a.members|
      invariant Confined(destDir, d, Steps(destDir, start, a.members[..n]).disk)
    {
      StepsUpTo(destDir, start, a.members, n);
      StepIsConfined(destDir, d, Steps(destDir, start, a.members[..n]), a.members[n]);
    }
    assert a.members[..|a.members|] == a.members;
  }

  // ------------------------------------------------------------------- contents

  /** Safe members with one cleaned name share a target, and members with two do not. */
  lemma TargetsDiffer(destDir: string, m: Member, n: Member)
    requires !Unsafe(m) && !Unsafe(n)
    ensures Target(destDir, m) == Target(destDir, n) <==> Clean(m.name) == Clean(n.name)
  {
    TargetIsUnder(destDir, m);
    TargetIsUnder(destDir, n);
    CleanReads(m.name);
    CleanReads(n.name);
    CleanEqualIff(m.name, n.name);
    hide Parts, Clean, JoinPath;
    if Target(destDir, m) == Target(destDir, n) {
      assert Parts(m.name) == (Parts(destDir) + Parts(m.name))[|Parts(destDir)|..];
    }
  }

  /** The last member, among the first n, that is a regular file with this target, or -1. */
  function LastWriter(destDir: string, ms: seq<Member>, path: string): (i: int)
    ensures -1 <= i < |ms|
  {
    if ms == [] then -1
    else if ms[|ms| - 1].kind.Regular? && Target(destDir, ms[|ms| - 1]) == path then |ms| - 1
    else LastWriter(destDir, ms[..|ms| - 1], path)
  }

  lemma {:induction false} LastWriterIsLast(destDir: string, ms: seq<Member>, path: string)
    ensures var i := LastWriter(destDir, ms, path);
            && (i >= 0 ==> ms[i].kind.Regular? && Target(destDir, ms[i]) == path)
            && (forall j :: i < j < |ms| && ms[j].kind.Regular? ==> Target(destDir, ms[j]) != path)
  {
    hide Target;
    if ms != [] {
      LastWriterIsLast(destDir, ms[..|ms| - 1], path);
    }
  }

  /** When extraction has not failed, every path holds the body of the last regular member
      with that target, and other paths hold what they held. */
  lemma {:induction false} ContentsAreLastBodies(destDir: string, s: State, ms: seq<Member>, path: string)
    requires !Steps(destDir, s, ms).failed
    ensures FileAt(Steps(destDir, s, ms).disk, path) ==
              if LastWriter(destDir, ms, path) >= 0 then Some(ms[LastWriter(destDir, ms, path)].body)
              else FileAt(s.disk, path)
  {
    hide Target, DirsOf, Unsafe, IsOvf, IsVmx;
    if ms != [] {
      ContentsAreLastBodies(destDir, s, ms[..|ms| - 1], path);
    }
  }

  // ------------------------------------------------------------- machine choice

  function LastOvf(ms: seq<Member>): (i: int)
    ensures -1 <= i < |ms|
  {
    if ms == [] then -1
    else if IsOvf(ms[|ms| - 1]) then |ms| - 1
    else LastOvf(ms[..|ms| - 1])
  }

  function FirstVmx(ms: seq<Member>): (i: int)
    ensures -1 <= i < |ms|
  {
    if ms == [] then -1
    else
      var f := FirstVmx(ms[..|ms| - 1]);
      if f >= 0 then f else if IsVmx(ms[|ms| - 1]) then |ms| - 1 else -1
  }

  lemma {:induction false} LastOvfIsLast(ms: seq<Member>)
    ensures LastOvf(ms) >= 0 ==> IsOvf(ms[LastOvf(ms)])
    ensures forall j :: LastOvf(ms) < j < |ms| ==> !IsOvf(ms[j])
  {
    hide IsOvf;
    if ms != [] {
      LastOvfIsLast(ms[..|ms| - 1]);
    }
  }

  lemma {:induction false} FirstVmxIsFirst(ms: seq<Member>)
    ensures FirstVmx(ms) >= 0 ==> IsVmx(ms[FirstVmx(ms)]) && forall j :: 0 <= j < FirstVmx(ms) ==> !IsVmx(ms[j])
    ensures FirstVmx(ms) < 0 ==> forall j :: 0 <= j < |ms| ==> !IsVmx(ms[j])
  {
    hide IsVmx;
    if ms != [] {
      FirstVmxIsFirst(ms[..|ms| - 1]);
    }
  }

  /** The index of the machine file: the last .ovf if there is one, else the first .vmx. */
  function Chosen(ms: seq<Member>): int {
    if LastOvf(ms) >= 0 then LastOvf(ms) else FirstVmx(ms)
  }

  lemma MachineMeansDone(destDir: string, d: Disk, mk: Mkdir, a: Archive)
    requires Machine(Extract(destDir, d, mk, a)).Some?
    ensures !Steps(destDir, Start(destDir, d, mk), a.members).failed
  {
    hide Steps, Start;
  }

  lemma NotBoth(m: Member)
    ensures !(IsOvf(m) && IsVmx(m))
  {
    var n := Clean(m.name);
    if IsOvf(m) {
      assert n[|n| - 1] == 'f';
    }
    if IsVmx(m) {
      assert n[|n| - 1] == 'x';
    }
  }

  lemma MachineAfterStep(destDir: string, s: State, m: Member)
    requires !Step(destDir, s, m).failed
    ensures !s.failed && !Unsafe(m)
    ensures Step(destDir, s, m).machine ==
              if IsOvf(m) || (IsVmx(m) && s.machine == "") then Target(destDir, m) else s.machine
  {
    RegularMachine(m);
    hide Target, DirsOf, Unsafe, IsOvf, IsVmx;
  }

  lemma {:induction false} MachineIsChosen(destDir: string, s: State, ms: seq<Member>)
    requires !Steps(destDir, s, ms).failed && s.machine == ""
    ensures Steps(destDir, s, ms).machine == if Chosen(ms) >= 0 then Target(destDir, ms[Chosen(ms)]) else ""
    ensures Chosen(ms) >= 0 ==> Target(destDir, ms[Chosen(ms)]) != ""
  {
    hide Target, Unsafe, IsOvf, IsVmx, Step;
    if ms != [] {
      var init, m := ms[..|ms| - 1], ms[|ms| - 1];
      MachineAfterStep(destDir, Steps(destDir, s, init), m);
      MachineIsChosen(destDir, s, init);
      NotBoth(m);
      TargetIsUnder(destDir, m);
    }
  }

  lemma RegularMachine(m: Member)
    ensures IsOvf(m) || IsVmx(m) ==> m.kind.Regular?
  {
  }

  /** The returned machine file is the last .ovf, otherwise the first .vmx; it is a file
      on disk, holding the body of the last member with its name. */
  lemma MachineIsExtracted(destDir: string, d: Disk, mk: Mkdir, a: Archive)
    requires Machine(Extract(destDir, d, mk, a)).Some?
    ensures var s := Extract(destDir, d, mk, a);
            var i := Chosen(a.members);
            && i >= 0
            && s.machine == Target(destDir, a.members[i])
            && LastWriter(destDir, a.members, s.machine) >= i
            && FileAt(s.disk, s.machine) == Some(a.members[LastWriter(destDir, a.members, s.machine)].body)
  {
    hide Steps, Target, CanMakeDirs, AncestorDirs, IsOvf, IsVmx;
    var start := Start(destDir, d, mk);
    var ms := a.members;
    MachineIsChosen(destDir, start, ms);
    LastOvfIsLast(ms);
    FirstVmxIsFirst(ms);
    LastWriterIsLast(destDir, ms, Steps(destDir, start, ms).machine);
    ContentsAreLastBodies(destDir, start, ms, Steps(destDir, start, ms).machine);
    if Chosen(ms) >= 0 {
      RegularMachine(ms[Chosen(ms)]);
    }
  }

  /** A run that has not failed met no unsafe name. */
  lemma {:induction false} SucceededIsSafe(destDir: string, s: State, ms: seq<Member>, i: nat)
    requires !Steps(destDir, s, ms).failed && i < |ms|
    ensures !Unsafe(ms[i])
  {
    hide Target, DirsOf, Unsafe, IsOvf, IsVmx;
    if i < |ms| - 1 {
      SucceededIsSafe(destDir, s, ms[..|ms| - 1], i);
    }
  }

  // ------------------------------------------------------- when extraction fails

  predicate Willing(m: Member) {
    m.mkdirOK && m.createOK && m.cut.None?
  }

  predicate AllWilling(ms: seq<Member>) {
    forall i :: 0 <= i < |ms| ==> Willing(ms[i])
  }

  predicate AllSafe(ms: seq<Member>) {
    forall i :: 0 <= i < |ms| ==> !Unsafe(ms[i])
  }

  /** Files and directories claim the same path: among the members, or with the disk. */
  ghost predicate Collides(destDir: string, d: Disk, ms: seq<Member>, m: Member) {
    || (exists dir :: dir in DirsOf(destDir, m) && FileMade(destDir, d, ms, dir))
    || (m.kind.Regular? && DirMade(destDir, d, ms + [m], Target(destDir, m)))
  }

  ghost predicate FileMade(destDir: string, d: Disk, ms: seq<Member>, path: string) {
    path in d.files || exists i :: 0 <= i < |ms| && ms[i].kind.Regular? && Target(destDir, ms[i]) == path
  }

  ghost predicate DirMade(destDir: string, d: Disk, ms: seq<Member>, path: string) {
    path in d.dirs || exists i :: 0 <= i < |ms| && path in DirsOf(destDir, ms[i])
  }

  ghost predicate NoCollision(destDir: string, d: Disk, ms: seq<Member>) {
    forall n :: 0 <= n < |ms| ==> !Collides(destDir, d, ms[..n], ms[n])
  }

  /** With nothing going wrong, the disk holds exactly the members' files and directories. */
  lemma {:induction false} MadeExactly(destDir: string, s: State, ms: seq<Member>, path: string)
    requires !Steps(destDir, s, ms).failed
    ensures path in Steps(destDir, s, ms).disk.files <==> FileMade(destDir, s.disk, ms, path)
    ensures path in Steps(destDir, s, ms).disk.dirs <==> DirMade(destDir, s.disk, ms, path)
  {
    hide Target, DirsOf, Unsafe, IsOvf, IsVmx;
    if ms != [] {
      var init, m := ms[..|ms| - 1], ms[|ms| - 1];
      MadeExactly(destDir, s, init, path);
      MadeByOneMore(destDir, s.disk, init, m, path);
      assert init + [m] == ms;
      OtherMakesNothing(destDir, m);
    }
  }

  lemma OtherMakesNothing(destDir: string, m: Member)
    ensures m.kind.Other? ==> DirsOf(destDir, m) == {}
  {
  }

  lemma MadeByOneMore(destDir: string, d: Disk, init: seq<Member>, m: Member, path: string)
    ensures FileMade(destDir, d, init + [m], path)
            <==> FileMade(destDir, d, init, path) || (m.kind.Regular? && Target(destDir, m) == path)
    ensures DirMade(destDir, d, init + [m], path)
            <==> DirMade(destDir, d, init, path) || path in DirsOf(destDir, m)
  {
    hide Target, DirsOf;
    var all, n := init + [m], |init|;
    assert all[n] == m;
    assert forall i :: 0 <= i < n ==> all[i] == init[i];
  }

  lemma StepFailsIff(destDir: string, d: Disk, s: State, ms: seq<Member>, m: Member)
    requires s == Steps(destDir, State(d, "", false), ms) && !s.failed && Willing(m)
    ensures Step(destDir, s, m).failed <==> Unsafe(m) || Collides(destDir, d, ms, m)
  {
    var start := State(d, "", false);
    OtherMakesNothing(destDir, m);
    hide Steps, Target, DirsOf, Unsafe, IsOvf, IsVmx, FileMade, DirMade;
    forall dir | dir in DirsOf(destDir, m)
      ensures dir in s.disk.files <==> FileMade(destDir, d, ms, dir)
    {
      MadeExactly(destDir, start, ms, dir);
    }
    var dest := Target(destDir, m);
    MadeExactly(destDir, start, ms, dest);
    MadeByOneMore(destDir, d, ms, m, dest);
  }

  lemma {:induction false} StepsFailIff(destDir: string, d: Disk, ms: seq<Member>)
    requires AllWilling(ms)
    ensures Steps(destDir, State(d, "", false), ms).failed <==> !(AllSafe(ms) && NoCollision(destDir, d, ms))
  {
    hide Step, Unsafe, Collides;
    if ms != [] {
      var n := |ms| - 1;
      var init, m := ms[..n], ms[n];
      StepsFailIff(destDir, d, init);
      var s := Steps(destDir, State(d, "", false), init);
      assert Willing(m);
      if !s.failed {
        StepFailsIff(destDir, d, s, init, m);
      } else {
        StaysFailed(destDir, s, m);
      }
      assert forall k :: 0 <= k < n ==> init[..k] == ms[..k];
      assert AllSafe(ms) <==> AllSafe(init) && !Unsafe(m);
      assert NoCollision(destDir, d, ms) <==> NoCollision(destDir, d, init) && !Collides(destDir, d, init, m);
    }
  }

  lemma StaysFailed(destDir: string, s: State, m: Member)
    ensures s.failed ==> Step(destDir, s, m).failed
  {
  }

  /** A name the extractor refuses, by its elements: rooted, or starting above. */
  predicate Refused(name: string) {
    (name != "" && name[0] == '/') || (Parts(name) != [] && ".." <= Parts(name)[0])
  }

  lemma CleanStartsAs(name: string)
    requires name == "" || name[0] != '/'
    ensures HasPrefix(Clean(name), "..") <==> Parts(name) != [] && ".." <= Parts(name)[0]
  {
    var parts := Parts(name);
    PartsAreNormal(name);
    if parts != [] {
      assert PlainPart(parts[0]);
      JoinStart(parts);
      var joined, e := Join(parts, '/'), parts[0];
      assert Clean(name) == joined;
      if |parts| > 1 && |joined| > |e| {
        assert joined == e + ['/'] + Join(parts[1..], '/');
        assert joined[|e|] == '/';
      }
    }
    hide Parts, Join;
  }

  lemma UnsafeIffRefused(m: Member)
    ensures Unsafe(m) <==> Refused(m.name)
  {
    CleanReads(m.name);
    if m.name == "" || m.name[0] != '/' {
      CleanStartsAs(m.name);
    }
    hide Clean, Parts;
  }

  /** The name test, on what a step does: with nothing in the way, a member fails the
      extraction exactly when its name is rooted or its first element starts with "..". */
  lemma RefusedIff(destDir: string, s: State, m: Member)
    requires !s.failed && Willing(m)
    requires forall dir | dir in DirsOf(destDir, m) :: dir !in s.disk.files
    requires m.kind.Regular? ==> Target(destDir, m) !in s.disk.dirs + DirsOf(destDir, m)
    ensures Step(destDir, s, m).failed <==> Refused(m.name)
  {
    UnsafeIffRefused(m);
    hide Unsafe, Refused, Target, DirsOf, IsOvf, IsVmx;
  }

  /** The names `tar -C dir .` gives are accepted: "./" and "./" in front of a name. */
  lemma DotSlashIsAccepted(e: string)
    requires Ordinary(e) && !(".." <= e)
    ensures !Refused("./") && !Refused("./" + e)
    ensures Parts("./") == [] && Parts("./" + e) == [e]
  {
    assert '/' !in ".";
    assert "./" == "." + ['/'] + "" && "./" + e == "." + ['/'] + e;
    hide Split, Ordinary;
    SplitFirst(".", "", '/');
    SplitFirst("", "", '/');
    SplitFirst(".", e, '/');
    OrdinaryHasNoSlash(e);
    SplitFirst(e, "", '/');
    DotThen("");
    DotThen(e);
  }

  lemma OrdinaryHasNoSlash(e: string)
    requires Ordinary(e)
    ensures '/' !in e && e != "" && e != "." && e != ".."
  {
  }

  lemma DotThen(e: string)
    requires e == "" || (e != "." && e != "..")
    ensures PushAll(false, [], ["."] + [e]) == if e == "" then [] else [e]
  {
    PushAllConcat(false, [], ["."], [e]);
    PushAllOne(false, [], ".");
    PushAllOne(false, [], e);
    assert Push(false, [], ".") == [];
    assert Push(false, [], e) == if e == "" then [] else [] + [e];
    hide Push, PushAll;
  }

  /** When the system calls and the archive are good, extraction returns a machine file
      exactly when no name is rooted or starts above, no path is claimed both as a file and
      as a directory, and the archive has an .ovf or a .vmx; otherwise it is an error. */
  lemma SucceedsIff(destDir: string, d: Disk, mk: Mkdir, a: Archive)
    requires a.intact && AllWilling(a.members) && mk.ok && CanMakeDirs(d, destDir)
    ensures var made := WithDirs(d, AncestorDirs(destDir));
            Machine(Extract(destDir, d, mk, a)).Some?
            <==> (forall i :: 0 <= i < |a.members| ==> !Refused(a.members[i].name))
                 && NoCollision(destDir, made, a.members)
                 && (exists i :: 0 <= i < |a.members| && (IsOvf(a.members[i]) || IsVmx(a.members[i])))
  {
    forall i | 0 <= i < |a.members| ensures Unsafe(a.members[i]) <==> Refused(a.members[i].name) {
      UnsafeIffRefused(a.members[i]);
    }
    hide Steps, Target, AncestorDirs, IsOvf, IsVmx, NoCollision, CanMakeDirs, Unsafe, Refused;
    var made := WithDirs(d, AncestorDirs(destDir));
    StepsFailIff(destDir, made, a.members);
    LastOvfIsLast(a.members);
    FirstVmxIsFirst(a.members);
    if !Steps(destDir, State(made, "", false), a.members).failed {
      MachineIsChosen(destDir, State(made, "", false), a.members);
    }
  }

  /** The directories that MkdirAll makes sure of: the path, cleaned, and all above it. */
  lemma AncestorDirsAre(p: string, path: string)
    ensures path in AncestorDirs(p) <==> Clean(path) == path && IsAbs(path) == IsAbs(p) && Parts(path) <= Parts(p)
  {
    PartsAreNormal(p);
    hide Parts, Normal, Join;
    if path in AncestorDirs(p) {
      var k :| 0 <= k <= |Parts(p)| && path == Render(IsAbs(p), Parts(p)[..k]);
      NormalPrefix(IsAbs(p), Parts(p), k);
      RenderReads(IsAbs(p), Parts(p)[..k]);
      assert Clean(path) == path;
    }
    if Clean(path) == path && IsAbs(path) == IsAbs(p) && Parts(path) <= Parts(p) {
      assert Parts(p)[..|Parts(path)|] == Parts(path);
    }
  }

  /** A member that is extracted has its directory: the destination and what lies between,
      and for a directory member the member itself. */
  lemma DirectoriesAreMade(destDir: string, s: State, ms: seq<Member>, i: nat)
    requires !Steps(destDir, s, ms).failed && i < |ms|
    ensures ms[i].kind.Directory? ==> Target(destDir, ms[i]) in Steps(destDir, s, ms).disk.dirs
    ensures ms[i].kind.Regular? ==> Dir(Target(destDir, ms[i])) in Steps(destDir, s, ms).disk.dirs
  {
    var path := if ms[i].kind.Directory? then Target(destDir, ms[i]) else Dir(Target(destDir, ms[i]));
    SucceededIsSafe(destDir, s, ms, i);
    TargetIsUnder(destDir, ms[i]);
    DirIsClean(Target(destDir, ms[i]));
    MadeExactly(destDir, s, ms, path);
    AncestorDirsAre(path, path);
    hide Steps, Target, Dir, AncestorDirs, Clean, Parts, Unsafe;
  }

  lemma DirIsClean(p: string)
    ensures Clean(Dir(p)) == Dir(p)
  {
    CleanIsIdempotent(p[..AfterLast(p, '/')]);
    hide Clean, AfterLast;
  }

  /** The machine file by its name: the last regular member that ends in ".ovf"; if there is
      none, the first that ends in ".vmx". */
  lemma ChosenByName(ms: seq<Member>)
    ensures var i := Chosen(ms);
            var ovf := (k: int) requires 0 <= k < |ms| => ms[k].kind.Regular? && HasSuffix(Clean(ms[k].name), ".ovf");
            var vmx := (k: int) requires 0 <= k < |ms| => ms[k].kind.Regular? && HasSuffix(Clean(ms[k].name), ".vmx");
            && -1 <= i < |ms|
            && (i >= 0 ==> (ovf(i) && forall k :: i < k < |ms| ==> !ovf(k))
                           || (vmx(i) && (forall k :: 0 <= k < |ms| ==> !ovf(k)) && forall k :: 0 <= k < i ==> !vmx(k)))
            && (i < 0 ==> forall k :: 0 <= k < |ms| ==> !ovf(k) && !vmx(k))
  {
    LastOvfIsLast(ms);
    FirstVmxIsFirst(ms);
    forall k | 0 <= k < |ms|
      ensures IsOvf(ms[k]) <==> ms[k].kind.Regular? && HasSuffix(Clean(ms[k].name), ".ovf")
      ensures IsVmx(ms[k]) <==> ms[k].kind.Regular? && HasSuffix(Clean(ms[k].name), ".vmx")
    {
    }
    hide IsOvf, IsVmx, Clean, HasSuffix;
  }

  /** A file right in the box: an .ovf or a .vmx. */
  function SmallMember(ovf: bool): Member {
    Member(if ovf then "x.ovf" else "x.vmx", Regular, "", true, {}, true, None)
  }

  /** The smallest box there is. */
  function SmallBox(ovf: bool): Archive {
    Archive([SmallMember(ovf)], true)
  }

  lemma SameAncestors(p: string, q: string)
    requires IsAbs(p) == IsAbs(q) && Parts(p) == Parts(q)
    ensures AncestorDirs(p) == AncestorDirs(q)
  {
  }

  lemma NotItsAncestor(dir: string, p: string)
    requires !(Parts(p) <= Parts(dir))
    ensures p !in AncestorDirs(dir)
  {
    PartsAreNormal(dir);
    hide Parts, Normal, Render, IsAbs;
    forall k | 0 <= k <= |Parts(dir)| ensures p != Render(IsAbs(dir), Parts(dir)[..k]) {
      NormalPrefix(IsAbs(dir), Parts(dir), k);
      RenderReads(IsAbs(dir), Parts(dir)[..k]);
    }
  }

  /** A file right in the destination needs no further directory. */
  lemma OneLevelDown(destDir: string, m: Member)
    requires !Unsafe(m) && m.kind.Regular? && |Parts(m.name)| == 1
    ensures DirsOf(destDir, m) == AncestorDirs(destDir)
    ensures Target(destDir, m) !in AncestorDirs(destDir) && Target(destDir, m) != ""
  {
    hide Clean, Unsafe, Target, Parts, IsAbs, Dir, Base, Front, AncestorDirs;
    TargetIsUnder(destDir, m);
    var dest := Target(destDir, m);
    NotItsAncestor(destDir, dest);
    DirOfClean(dest);
    assert Parts(Dir(dest)) == Parts(destDir);
    SameAncestors(Dir(dest), destDir);
  }

  lemma SmallMemberIs(ovf: bool)
    ensures var m := SmallMember(ovf);
            && !Unsafe(m) && m.kind.Regular? && |Parts(m.name)| == 1 && Willing(m)
            && (if ovf then IsOvf(m) else IsVmx(m)) && (IsOvf(m) || IsVmx(m))
  {
    var n := SmallMember(ovf).name;
    assert Ordinary(n);
    OrdinaryName(n);
    hide Clean, Parts, Ordinary;
    assert "x.vmx"[1..] == ".vmx" && "x.vmx"[0] == 'x' && "x.ovf"[1..] == ".ovf" && "x.ovf"[0] == 'x';
  }

  lemma MachineStep(destDir: string, s: State, m: Member)
    requires !s.failed && s.machine == "" && !Unsafe(m) && (IsOvf(m) || IsVmx(m)) && Willing(m)
    requires forall dir | dir in DirsOf(destDir, m) :: dir !in s.disk.files
    requires Target(destDir, m) !in s.disk.dirs + DirsOf(destDir, m)
    ensures !Step(destDir, s, m).failed && Step(destDir, s, m).machine == Target(destDir, m)
  {
    RegularMachine(m);
    NotBoth(m);
    hide Unsafe, IsVmx, IsOvf, Target, DirsOf;
  }

  lemma StartIs(destDir: string, d: Disk, mk: Mkdir)
    requires mk.ok && CanMakeDirs(d, destDir)
    ensures Start(destDir, d, mk) == State(WithDirs(d, AncestorDirs(destDir)), "", false)
    ensures forall dir | dir in AncestorDirs(destDir) :: dir !in d.files
  {
    hide AncestorDirs;
  }

  /** It extracts into any directory that can be made. */
  lemma SmallBoxExtracts(destDir: string, d: Disk, mk: Mkdir, ovf: bool)
    requires mk.ok && CanMakeDirs(d, destDir) && d.dirs == {}
    ensures Machine(Extract(destDir, d, mk, SmallBox(ovf))).Some?
  {
    var m := SmallMember(ovf);
    hide Unsafe, IsVmx, IsOvf, Target, AncestorDirs, DirsOf, Parts, Step, Steps, Start, SmallMember, Willing, CanMakeDirs;
    SmallMemberIs(ovf);
    OneLevelDown(destDir, m);
    StartIs(destDir, d, mk);
    MachineStep(destDir, Start(destDir, d, mk), m);
    OneStep(destDir, Start(destDir, d, mk), m);
  }

  lemma OneStep(destDir: string, s: State, m: Member)
    ensures Steps(destDir, s, [m]) == Step(destDir, s, m)
  {
    hide Step;
    assert [m][..0] == [];
  }

  lemma {:induction false} StepsSucceedOnly(destDir: string, s: State, ms: seq<Member>, i: nat)
    requires !Steps(destDir, s, ms).failed && i < |ms|
    ensures ms[i].kind.Directory? ==> ms[i].mkdirOK
    ensures ms[i].kind.Regular? ==> ms[i].mkdirOK && ms[i].createOK && ms[i].cut.None?
  {
    hide Target, DirsOf, Unsafe, IsOvf, IsVmx;
    if i < |ms| - 1 {
      StepsSucceedOnly(destDir, s, ms[..|ms| - 1], i);
    }
  }

  lemma {:induction false} StartedWell(destDir: string, s: State, ms: seq<Member>)
    requires !Steps(destDir, s, ms).failed
    ensures !s.failed
  {
    hide Step;
    if ms != [] {
      if Steps(destDir, s, ms[..|ms| - 1]).failed {
        StaysFailed(destDir, Steps(destDir, s, ms[..|ms| - 1]), ms[|ms| - 1]);
      }
      StartedWell(destDir, s, ms[..|ms| - 1]);
    }
  }

  /** No failure is silent: when a machine file is returned, the archive was read to its
      end, and every directory and every file was made whole. */
  lemma NoSilentFailure(destDir: string, d: Disk, mk: Mkdir, a: Archive, i: nat)
    requires Machine(Extract(destDir, d, mk, a)).Some? && i < |a.members|
    ensures a.intact && mk.ok && CanMakeDirs(d, destDir)
    ensures a.members[i].kind.Directory? ==> a.members[i].mkdirOK
    ensures a.members[i].kind.Regular? ==> a.members[i].mkdirOK && a.members[i].createOK && a.members[i].cut.None?
  {
    MachineMeansDone(destDir, d, mk, a);
    StepsSucceedOnly(destDir, Start(destDir, d, mk), a.members, i);
    StartedWell(destDir, Start(destDir, d, mk), a.members);
    hide Steps, AncestorDirs;
  }
}
