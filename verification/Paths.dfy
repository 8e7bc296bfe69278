// Lexical slash paths: filepath.Clean, Join, Dir, Base and Ext as the repository uses them.
module Paths {
  import opened Text

  predicate IsAbs(p: string) {
    p != "" && p[0] == '/'
  }

  // ------------------------------------------------------------------- cleaning

  /** One step of lexical cleaning: empty and "." elements vanish, ".." removes the element
      before it, or stays at the front of a relative path. */
  function Push(rooted: bool, parts: seq<string>, e: string): seq<string> {
    if e == "" || e == "." then parts
    else if e == ".." then
      if parts != [] && parts[|parts| - 1] != ".." then parts[..|parts| - 1]
      else if rooted then parts
      else parts + [e]
    else parts + [e]
  }

  function PushAll(rooted: bool, parts: seq<string>, es: seq<string>): seq<string> {
    if es == [] then parts else Push(rooted, PushAll(rooted, parts, es[..|es| - 1]), es[|es| - 1])
  }

  /** The elements of the cleaned path. */
  function Parts(p: string): seq<string> {
    PushAll(IsAbs(p), [], Split(p, '/'))
  }

  function Render(rooted: bool, parts: seq<string>): string {
    if rooted then "/" + Join(parts, '/') else if parts == [] then "." else Join(parts, '/')
  }

  /** filepath.Clean. */
  function Clean(p: string): string {
    Render(IsAbs(p), Parts(p))
  }

  /** filepath.Join of two elements. */
  function JoinPath(dir: string, name: string): string {
    if dir == "" then (if name == "" then "" else Clean(name))
    else if name == "" then Clean(dir)
    else Clean(dir + "/" + name)
  }

  /** An element no step of cleaning would touch. */
  predicate PlainPart(e: string) {
    e != "" && e != "." && '/' !in e
  }

  predicate Ordinary(e: string) {
    PlainPart(e) && e != ".."
  }

  /** The elements a cleaned path can have: ".." only in front, and only when relative. */
  predicate Normal(rooted: bool, parts: seq<string>) {
    && (forall i :: 0 <= i < |parts| ==> PlainPart(parts[i]))
    && (forall i :: 0 <= i < |parts| && parts[i] == ".." ==> !rooted && (i == 0 || parts[i - 1] == ".."))
  }

  predicate AllOrdinary(parts: seq<string>) {
    forall i :: 0 <= i < |parts| ==> Ordinary(parts[i])
  }

  lemma PushKeepsNormal(rooted: bool, parts: seq<string>, e: string)
    requires Normal(rooted, parts) && '/' !in e
    ensures Normal(rooted, Push(rooted, parts, e))
  {
  }

  lemma {:induction false} PushAllKeepsNormal(rooted: bool, parts: seq<string>, es: seq<string>)
    requires Normal(rooted, parts) && Free(es, '/')
    ensures Normal(rooted, PushAll(rooted, parts, es))
  {
    hide Normal, Push;
    if es != [] {
      PushAllKeepsNormal(rooted, parts, es[..|es| - 1]);
      PushKeepsNormal(rooted, PushAll(rooted, parts, es[..|es| - 1]), es[|es| - 1]);
    }
  }

  lemma PartsAreNormal(p: string)
    ensures Normal(IsAbs(p), Parts(p))
  {
    SplitParts(p, '/');
    hide Split;
    PushAllKeepsNormal(IsAbs(p), [], Split(p, '/'));
  }

  lemma {:induction false} PushAllConcat(rooted: bool, parts: seq<string>, es: seq<string>, fs: seq<string>)
    ensures PushAll(rooted, parts, es + fs) == PushAll(rooted, PushAll(rooted, parts, es), fs)
  {
    hide Push;
    if fs == [] {
      assert es + fs == es;
    } else {
      assert (es + fs)[..|es + fs| - 1] == es + fs[..|fs| - 1];
      PushAllConcat(rooted, parts, es, fs[..|fs| - 1]);
    }
  }

  lemma PushAllOne(rooted: bool, parts: seq<string>, e: string)
    ensures PushAll(rooted, parts, [e]) == Push(rooted, parts, e)
  {
    hide Push;
    assert [e][..0] == [];
  }

  /** Normal elements are pushed unchanged; ordinary ones onto anything. */
  lemma {:induction false} PushAllNormal(rooted: bool, parts: seq<string>)
    requires Normal(rooted, parts)
    ensures PushAll(rooted, [], parts) == parts
  {
    if parts != [] {
      PushAllNormal(rooted, parts[..|parts| - 1]);
    }
  }

  lemma {:induction false} PushAllOrdinary(rooted: bool, base: seq<string>, parts: seq<string>)
    requires AllOrdinary(parts)
    ensures PushAll(rooted, base, parts) == base + parts
  {
    if parts != [] {
      PushAllOrdinary(rooted, base, parts[..|parts| - 1]);
    }
  }

  lemma NormalIsFree(rooted: bool, parts: seq<string>)
    requires Normal(rooted, parts)
    ensures Free(parts, '/')
  {
  }

  lemma JoinStart(parts: seq<string>)
    requires parts != [] && parts[0] != ""
    ensures Join(parts, '/') != "" && Join(parts, '/')[0] == parts[0][0]
    ensures parts[0] <= Join(parts, '/')
  {
  }

  lemma SplitRooted(s: string)
    ensures Split("/" + s, '/') == [""] + Split(s, '/')
  {
    SplitFirst("", s, '/');
    assert "" + ['/'] + s == "/" + s;
  }

  lemma NothingReads()
    ensures Parts("") == [] && Parts("/") == [] && Parts(".") == []
  {
    SplitFirst("", "", '/');
    SplitFirst(".", "", '/');
    assert "" + ['/'] + "" == "/";
    PushAllOne(false, [], "");
    PushAllOne(false, [], ".");
    assert ["", ""][..1] == [""];
    PushAllOne(true, [], "");
  }

  /** Rooted or not, normal elements joined by slashes split and push back to themselves. */
  lemma JoinedReads(rooted: bool, parts: seq<string>)
    requires Normal(rooted, parts) && parts != []
    ensures PushAll(rooted, [], Split(Join(parts, '/'), '/')) == parts
    ensures PushAll(rooted, [], Split("/" + Join(parts, '/'), '/')) == parts
  {
    var joined := Join(parts, '/');
    NormalIsFree(rooted, parts);
    hide Normal, Split, Join, Push, PushAll;
    SplitJoin(parts, '/');
    PushAllNormal(rooted, parts);
    SplitRooted(joined);
    PushAllConcat(rooted, [], [""], parts);
    PushAllEmpty(rooted, []);
  }

  lemma PushAllEmpty(rooted: bool, parts: seq<string>)
    ensures PushAll(rooted, parts, [""]) == parts
  {
    PushAllOne(rooted, parts, "");
  }

  /** Reading back a rendered path: it has the elements it was made of. */
  lemma RenderReads(rooted: bool, parts: seq<string>)
    requires Normal(rooted, parts)
    ensures IsAbs(Render(rooted, parts)) == rooted
    ensures Parts(Render(rooted, parts)) == parts
  {
    if parts == [] {
      NothingReads();
    } else {
      assert PlainPart(parts[0]);
      JoinStart(parts);
      hide Normal, Split, Join, Push, PushAll;
      JoinedReads(rooted, parts);
    }
  }

  lemma CleanReads(p: string)
    ensures IsAbs(Clean(p)) == IsAbs(p) && Parts(Clean(p)) == Parts(p) && Clean(p) != ""
  {
    PartsAreNormal(p);
    hide Parts, Normal, Join;
    RenderReads(IsAbs(p), Parts(p));
    RenderIsNotEmpty(IsAbs(p), Parts(p));
  }

  lemma RenderIsNotEmpty(rooted: bool, parts: seq<string>)
    requires Normal(rooted, parts)
    ensures Render(rooted, parts) != ""
  {
    if !rooted && parts != [] {
      assert PlainPart(parts[0]);
      JoinStart(parts);
    }
  }

  /** Cleaning twice is cleaning once. */
  lemma CleanIsIdempotent(p: string)
    ensures Clean(Clean(p)) == Clean(p)
  {
    CleanReads(p);
    hide Parts, Join;
  }

  /** Two paths clean to the same text exactly when they have the same elements. */
  lemma CleanEqualIff(p: string, q: string)
    ensures Clean(p) == Clean(q) <==> IsAbs(p) == IsAbs(q) && Parts(p) == Parts(q)
  {
    CleanReads(p);
    CleanReads(q);
    hide Parts, Join;
  }

  // -------------------------------------------------------------------- joining

  /** Onto a directory that is not "", whatever the name. */
  lemma JoinPushesAll(dir: string, name: string)
    requires dir != "" && name != ""
    ensures IsAbs(JoinPath(dir, name)) == IsAbs(dir)
    ensures Parts(JoinPath(dir, name)) == PushAll(IsAbs(dir), Parts(dir), Split(name, '/'))
  {
    CleanReads(dir + "/" + name);
    hide Split, Push;
    SplitConcat(dir, name, '/');
    PushAllConcat(IsAbs(dir), [], Split(dir, '/'), Split(name, '/'));
  }

  /** Joining pushes the elements of the name onto those of the directory. */
  lemma JoinPushes(dir: string, name: string)
    requires name != "" && !IsAbs(name)
    ensures IsAbs(JoinPath(dir, name)) == IsAbs(dir)
    ensures Parts(JoinPath(dir, name)) == PushAll(IsAbs(dir), Parts(dir), Split(name, '/'))
  {
    if dir == "" {
      CleanReads(name);
      SplitFirst("", "", '/');
      PushAllOne(false, [], "");
    } else {
      CleanReads(dir + "/" + name);
      hide Split, Push;
      SplitConcat(dir, name, '/');
      PushAllConcat(IsAbs(dir), [], Split(dir, '/'), Split(name, '/'));
    }
  }

  /** A name the extractor and the VM index accept: relative, and nothing points upward. */
  predicate Downward(name: string) {
    name != "" && !IsAbs(name) && AllOrdinary(Parts(name))
  }

  /** Joining a cleaned downward name concatenates elements. */
  lemma JoinConcatenates(dir: string, name: string)
    requires Downward(name) && Clean(name) == name
    ensures IsAbs(JoinPath(dir, name)) == IsAbs(dir)
    ensures Parts(JoinPath(dir, name)) == Parts(dir) + Parts(name)
    ensures Clean(JoinPath(dir, name)) == JoinPath(dir, name) != ""
  {
    var parts := Parts(name);
    JoinPushes(dir, name);
    PartsAreNormal(name);
    CleanIsIdempotent(dir + "/" + name);
    CleanIsIdempotent(name);
    CleanReads(dir + "/" + name);
    CleanReads(name);
    if parts == [] {
      SplitFirst(".", "", '/');
      PushAllOne(IsAbs(dir), Parts(dir), ".");
    } else {
      NormalIsFree(false, parts);
      hide Split, Clean, Push, PushAll, Normal, Ordinary, Parts;
      SplitOfClean(name);
      PushAllOrdinary(IsAbs(dir), Parts(dir), parts);
    }
  }

  lemma OrdinaryName(e: string)
    requires Ordinary(e)
    ensures Downward(e) && Clean(e) == e && Parts(e) == [e]
  {
    SplitFirst(e, "", '/');
    PushAllOne(false, [], e);
  }

  lemma SplitOfClean(name: string)
    requires !IsAbs(name) && Clean(name) == name && Parts(name) != []
    ensures Split(name, '/') == Parts(name)
  {
    PartsAreNormal(name);
    hide Parts, Normal, Split;
    NormalIsFree(false, Parts(name));
    SplitJoin(Parts(name), '/');
  }

  /** The text test of the extractor is the test on elements: a cleaned relative name that
      does not start with ".." has no ".." element anywhere. */
  lemma NoDotDotPrefix(name: string)
    requires !IsAbs(name) && !HasPrefix(Clean(name), "..")
    ensures Downward(Clean(name)) && Clean(Clean(name)) == Clean(name)
  {
    CleanReads(name);
    CleanIsIdempotent(name);
    PartsAreNormal(name);
    var parts := Parts(name);
    if parts != [] && parts[0] == ".." {
      JoinStart(parts);
    }
    assert parts == [] || parts[0] != "..";
    NoLaterDotDot(parts);
  }

  lemma NoLaterDotDot(parts: seq<string>)
    requires Normal(false, parts) && (parts == [] || parts[0] != "..")
    ensures AllOrdinary(parts)
  {
    forall i | 0 <= i < |parts| ensures Ordinary(parts[i]) {
      NotDotDotAt(parts, i);
    }
  }

  lemma {:induction false} NotDotDotAt(parts: seq<string>, i: nat)
    requires Normal(false, parts) && i < |parts| && parts[0] != ".."
    ensures parts[i] != ".."
  {
    if i > 0 {
      NotDotDotAt(parts, i - 1);
    }
  }

  // ---------------------------------------------------------- Dir, Base and Ext

  /** The position just past the last c in s, or 0. */
  function AfterLast(s: string, c: char): (i: nat)
    ensures i <= |s|
  {
    if s == "" || s[|s| - 1] == c then |s| else AfterLast(s[..|s| - 1], c)
  }

  lemma {:induction false} AfterLastConcat(s: string, tail: string, c: char)
    requires c !in tail
    ensures AfterLast(s + [c] + tail, c) == |s| + 1
    ensures AfterLast(tail, c) == 0
  {
    if tail == "" {
      assert s + [c] + tail == s + [c];
    } else {
      assert (s + [c] + tail)[..|s + [c] + tail| - 1] == s + [c] + tail[..|tail| - 1];
      AfterLastConcat(s, tail[..|tail| - 1], c);
    }
  }

  /** filepath.Dir. */
  function Dir(p: string): string {
    Clean(p[..AfterLast(p, '/')])
  }

  /** filepath.Base. */
  function Base(p: string): string {
    if p == "" then "."
    else
      var s := TrimRight(p, {'/'});
      if s == "" then "/" else s[AfterLast(s, '/')..]
  }

  /** filepath.Ext: from the last '.' of the last element. */
  function Ext(p: string): string {
    if p == "" || p[|p| - 1] == '/' then ""
    else if p[|p| - 1] == '.' then "."
    else
      var e := Ext(p[..|p| - 1]);
      if e == "" then "" else e + [p[|p| - 1]]
  }

  lemma JoinSplits(parts: seq<string>)
    requires |parts| > 1
    ensures var n := |parts| - 1; Join(parts, '/') == Join(parts[..n], '/') + ['/'] + parts[n]
  {
    var n := |parts| - 1;
    assert Join([parts[n]], '/') == parts[n];
    hide Join;
    assert parts == parts[..n] + [parts[n]];
    JoinConcat(parts[..n], [parts[n]], '/');
  }

  /** The text of a rendered path before its last element. */
  function Front(rooted: bool, parts: seq<string>): string
    requires parts != []
  {
    (if rooted then "/" else "") + if |parts| > 1 then Join(parts[..|parts| - 1], '/') + ['/'] else ""
  }

  /** A rendered path is its front and its last element; the front, if there is one, ends
      in a slash and holds the other elements. */
  lemma RenderSplits(rooted: bool, parts: seq<string>)
    requires Normal(rooted, parts) && parts != []
    ensures Render(rooted, parts) == Front(rooted, parts) + parts[|parts| - 1]
    ensures Front(rooted, parts) == "" || Front(rooted, parts)[|Front(rooted, parts)| - 1] == '/'
    ensures IsAbs(Front(rooted, parts)) == rooted
    ensures Parts(Front(rooted, parts)) == parts[..|parts| - 1]
  {
    hide *;
    if |parts| == 1 {
      RenderOne(rooted, parts);
      NothingReads();
    } else {
      var n := |parts| - 1;
      NormalPrefix(rooted, parts, n);
      JoinSplits(parts);
      FrontReads(rooted, parts[..n]);
      RenderIs(rooted, parts);
      SlashBetween(if rooted then "/" else "", Join(parts[..n], '/'), parts[n]);
    }
  }

  lemma SlashBetween(root: string, front: string, last: string)
    ensures root + (front + ['/'] + last) == root + (front + ['/']) + last
    ensures (root + (front + ['/']))[|root + (front + ['/'])| - 1] == '/'
  {
  }

  lemma RenderOne(rooted: bool, parts: seq<string>)
    requires |parts| == 1
    ensures Front(rooted, parts) == if rooted then "/" else ""
    ensures Render(rooted, parts) == Front(rooted, parts) + parts[0]
    ensures IsAbs(Front(rooted, parts)) == rooted
    ensures parts[..0] == []
  {
    assert "/" + "" == "/" && "" + "" == "";
    assert "" + parts[0] == parts[0];
  }

  lemma RenderIs(rooted: bool, parts: seq<string>)
    requires |parts| > 1
    ensures Render(rooted, parts) == (if rooted then "/" else "") + Join(parts, '/')
    ensures Front(rooted, parts) == (if rooted then "/" else "") + (Join(parts[..|parts| - 1], '/') + ['/'])
  {
    hide Join;
    assert "" + Join(parts, '/') == Join(parts, '/');
  }

  lemma FrontReads(rooted: bool, parts: seq<string>)
    requires Normal(rooted, parts) && parts != []
    ensures var front := (if rooted then "/" else "") + (Join(parts, '/') + ['/']);
            IsAbs(front) == rooted && Parts(front) == parts
  {
    var p := Render(rooted, parts);
    RenderReads(rooted, parts);
    RenderIsNotEmpty(rooted, parts);
    assert (if rooted then "/" else "") + (Join(parts, '/') + ['/']) == p + ['/'];
    hide *;
    TrailingSlash(p);
  }

  lemma DirOfClean(p: string)
    requires Clean(p) == p && Parts(p) != []
    ensures IsAbs(Dir(p)) == IsAbs(p)
    ensures Parts(Dir(p)) == Parts(p)[..|Parts(p)| - 1]
    ensures Clean(Dir(p)) == Dir(p)
    ensures Base(p) == Parts(p)[|Parts(p)| - 1]
    ensures p == Front(IsAbs(p), Parts(p)) + Base(p)
    ensures Front(IsAbs(p), Parts(p)) == "" || Front(IsAbs(p), Parts(p))[|Front(IsAbs(p), Parts(p))| - 1] == '/'
    ensures Base(p) != "" && '/' !in Base(p)
  {
    var rooted, parts := IsAbs(p), Parts(p);
    PartsAreNormal(p);
    var last := parts[|parts| - 1];
    assert PlainPart(last);
    var front := Front(rooted, parts);
    hide Parts, Normal, Join, Split, Front, Render, IsAbs, Base, AfterLast;
    RenderSplits(rooted, parts);
    LastElementIsBase(p, front, last);
    CleanIsIdempotent(front);
    CleanReads(front);
  }

  lemma NormalPrefix(rooted: bool, parts: seq<string>, n: nat)
    requires Normal(rooted, parts) && n <= |parts|
    ensures Normal(rooted, parts[..n])
  {
  }

  lemma LastElementIsBase(p: string, front: string, last: string)
    requires p == front + last && (front == "" || front[|front| - 1] == '/')
    requires '/' !in last && last != ""
    ensures p[..AfterLast(p, '/')] == front
    ensures Base(p) == last
  {
    assert p[|p| - 1] == last[|last| - 1];
    assert TrimRight(p, {'/'}) == p;
    if front == "" {
      assert p == last;
      AfterLastConcat("", last, '/');
    } else {
      var f := front[..|front| - 1];
      assert p == f + ['/'] + last;
      AfterLastConcat(f, last, '/');
    }
  }

  /** A trailing slash adds no element. */
  lemma TrailingSlash(p: string)
    requires p != ""
    ensures IsAbs(p + ['/']) == IsAbs(p) && Parts(p + ['/']) == Parts(p)
  {
    hide Split, Push;
    SplitConcat(p, "", '/');
    SplitFirst("", "", '/');
    assert p + ['/'] == p + ['/'] + "";
    PushAllConcat(IsAbs(p), [], Split(p, '/'), [""]);
    PushAllEmpty(IsAbs(p), Parts(p));
  }

  /** The extension of a path ending in '.' and letters is that ending. */
  lemma {:induction false} ExtOfSuffix(p: string, ext: string)
    requires '.' !in ext && '/' !in ext
    requires HasSuffix(p, "." + ext)
    ensures Ext(p) == "." + ext
  {
    if ext != "" {
      var q, e := p[..|p| - 1], ext[..|ext| - 1];
      assert p[|p| - 1] == ext[|ext| - 1];
      assert q[|q| - |"." + e|..] == "." + e;
      ExtOfSuffix(q, e);
    }
  }

  /** A slash-free suffix of a cleaned path lies within its last element. */
  lemma SuffixIsInBase(p: string, suffix: string)
    requires Clean(p) == p && Parts(p) != [] && '/' !in suffix
    ensures HasSuffix(p, suffix) <==> HasSuffix(Base(p), suffix)
  {
    hide *;
    DirOfClean(p);
    SuffixOfLast(p, Front(IsAbs(p), Parts(p)), Base(p), suffix);
  }

  lemma SuffixOfLast(p: string, front: string, last: string, suffix: string)
    requires p == front + last && (front == "" || front[|front| - 1] == '/') && '/' !in suffix
    ensures HasSuffix(p, suffix) <==> HasSuffix(last, suffix)
  {
    if |suffix| <= |last| {
      assert p[|p| - |suffix|..] == last[|last| - |suffix|..];
    } else if |suffix| <= |p| {
      var tail := p[|p| - |suffix|..];
      assert tail[|suffix| - |last| - 1] == p[|front| - 1] == '/';
      assert tail != suffix;
    }
  }

  // ------------------------------------------------------------- which file a path names

  /** A slash-free tail extends the last element of a split. */
  lemma {:induction false} SplitGrows(front: string, tail: string) returns (init: seq<string>, e: string)
    requires '/' !in tail
    ensures Split(front, '/') == init + [e]
    ensures Split(front + tail, '/') == init + [e + tail]
    decreases |front|
  {
    hide *;
    if '/' in front {
      var head, rest := AtFirstByte(front, '/');
      SplitFirst(head, rest, '/');
      SplitFirst(head, rest + tail, '/');
      assert front + tail == head + ['/'] + (rest + tail);
      init, e := SplitGrows(rest, tail);
      assert [head] + (init + [e]) == ([head] + init) + [e];
      assert [head] + (init + [e + tail]) == ([head] + init) + [e + tail];
      init := [head] + init;
    } else {
      init, e := [], front;
      SplitFirst(front, "", '/');
      SplitFirst(front + tail, "", '/');
      assert [] + [e] == [e] && [] + [e + tail] == [e + tail];
    }
  }

  lemma PushedSuffix(rooted: bool, parts: seq<string>, e: string)
    ensures Push(rooted, parts, e + ".vmx") == parts + [e + ".vmx"]
  {
    assert |e + ".vmx"| > 2;
  }

  lemma LastPartOfVmx(p: string) returns (stem: seq<string>, e: string)
    requires HasSuffix(p, ".vmx")
    ensures Parts(p) == stem + [e + ".vmx"]
  {
    var front := p[..|p| - 4];
    assert p == front + ".vmx" && '/' !in ".vmx";
    hide Split, Push, PushAll, IsAbs;
    var init, last := SplitGrows(front, ".vmx");
    e := last;
    stem := PushAll(IsAbs(p), [], init);
    PushAllConcat(IsAbs(p), [], init, [e + ".vmx"]);
    PushAllOne(IsAbs(p), stem, e + ".vmx");
    PushedSuffix(IsAbs(p), stem, e);
  }

  /** Cleaning keeps the name of a .vmx file. */
  lemma CleanKeepsSuffix(p: string)
    requires HasSuffix(p, ".vmx")
    ensures HasSuffix(Clean(p), ".vmx")
  {
    PartsAreNormal(p);
    var stem, e := LastPartOfVmx(p);
    SuffixOfVmx(Front(IsAbs(p), Parts(p)), e);
    hide Parts, Normal, Join, Front, Render, IsAbs, HasSuffix;
    RenderSplits(IsAbs(p), Parts(p));
  }

  lemma SuffixOfVmx(front: string, e: string)
    ensures HasSuffix(front + (e + ".vmx"), ".vmx")
  {
    assert front + (e + ".vmx") == front + e + ".vmx";
  }

  /** filepath.Abs: the file a path names to a process working in cwd. Spellings of one
      path with extra slashes, "." or ".." come to the same file. */
  function AbsPath(cwd: string, p: string): string {
    if IsAbs(p) then Clean(p) else JoinPath(cwd, p)
  }

  lemma JoinRooted(dir: string, name: string)
    requires IsAbs(dir)
    ensures IsAbs(JoinPath(dir, name)) && Clean(JoinPath(dir, name)) == JoinPath(dir, name)
  {
    hide Parts, Join;
    var q := if name == "" then dir else dir + "/" + name;
    assert JoinPath(dir, name) == Clean(q) && IsAbs(q);
    CleanReads(q);
    CleanIsIdempotent(q);
  }

  lemma AbsPathIsClean(cwd: string, p: string)
    requires IsAbs(cwd)
    ensures IsAbs(AbsPath(cwd, p)) && Clean(AbsPath(cwd, p)) == AbsPath(cwd, p)
  {
    hide Parts, Join, JoinPath;
    JoinRooted(cwd, p);
    CleanReads(p);
    CleanIsIdempotent(p);
  }

  lemma AbsPathKeepsSuffix(cwd: string, p: string)
    requires IsAbs(cwd) && HasSuffix(p, ".vmx")
    ensures HasSuffix(AbsPath(cwd, p), ".vmx")
  {
    hide Clean, HasSuffix;
    CleanKeepsSuffix(p);
    if !IsAbs(p) {
      SuffixOfConcat(cwd + "/", p);
      CleanKeepsSuffix(cwd + "/" + p);
    }
  }

  lemma SuffixOfConcat(front: string, p: string)
    requires HasSuffix(p, ".vmx")
    ensures HasSuffix(front + p, ".vmx") && p != ""
  {
  }

  /** The length of the elements, each with a slash. */
  function Width(parts: seq<string>): nat {
    if parts == [] then 0 else Width(parts[..|parts| - 1]) + |parts[|parts| - 1]| + 1
  }

  lemma {:induction false} PushAllWidth(rooted: bool, parts: seq<string>, es: seq<string>)
    ensures Width(PushAll(rooted, parts, es)) <= Width(parts) + Width(es)
  {
    hide Push;
    if es != [] {
      var init := es[..|es| - 1];
      PushAllWidth(rooted, parts, init);
      PushWidth(rooted, PushAll(rooted, parts, init), es[|es| - 1]);
    }
  }

  lemma PushWidth(rooted: bool, parts: seq<string>, e: string)
    ensures Width(Push(rooted, parts, e)) <= Width(parts) + |e| + 1
  {
    assert (parts + [e])[..|parts|] == parts;
  }

  lemma {:induction false} JoinWidth(parts: seq<string>)
    requires parts != []
    ensures |Join(parts, '/')| + 1 == Width(parts)
  {
    var n := |parts| - 1;
    if n == 0 {
      assert parts[..0] == [];
    } else {
      JoinWidth(parts[..n]);
      JoinSplits(parts);
    }
  }

  /** Cleaning a rooted path never makes it longer. */
  lemma CleanIsShorter(p: string)
    requires IsAbs(p)
    ensures |Clean(p)| <= |p|
  {
    var s := p[1..];
    assert p == "/" + s;
    SplitRooted(s);
    SplitParts(s, '/');
    hide Split, Push, PushAll, Join, Width;
    PushAllConcat(true, [], [""], Split(s, '/'));
    PushAllEmpty(true, []);
    PushAllWidth(true, [], Split(s, '/'));
    JoinWidth(Split(s, '/'));
    assert Width([]) == 0 by { WidthOfNothing(); }
    if Parts(p) != [] {
      JoinWidth(Parts(p));
    } else {
      JoinNothing();
    }
  }

  lemma WidthOfNothing()
    ensures Width([]) == 0
  {
  }

  lemma JoinNothing()
    ensures Join([], '/') == ""
  {
  }

  /** A second slash in front names the same file. */
  lemma LeadingSlash(p: string)
    requires IsAbs(p)
    ensures Clean("/" + p) == Clean(p)
  {
    hide Split, Push, Render;
    SplitRooted(p);
    PushAllConcat(true, [], [""], Split(p, '/'));
    PushAllEmpty(true, []);
  }

  /** A rooted path occurs in its cleaned form exactly when it is cleaned already. */
  lemma ContainedIffClean(p: string)
    requires IsAbs(p)
    ensures Contains(Clean(p), p) <==> Clean(p) == p
  {
    CleanIsShorter(p);
    assert OccursAt(p, p, 0);
    hide Clean;
    if Contains(Clean(p), p) {
      var i :| 0 <= i <= |Clean(p)| && OccursAt(Clean(p), p, i);
      assert i == 0 && Clean(p)[0..|p|] == p;
    }
  }

  // ------------------------------------------------------------ the rules of cleaning

  lemma PartsOfThree(a: string, mid: seq<string>, text: string, b: string)
    requires a != "" && text != "" && Split(text, '/') == mid
    ensures Parts(a + "/" + text + "/" + b) == PushAll(IsAbs(a), PushAll(IsAbs(a), Parts(a), mid), Split(b, '/'))
    ensures Parts(a + "/" + b) == PushAll(IsAbs(a), Parts(a), Split(b, '/'))
    ensures IsAbs(a + "/" + text + "/" + b) == IsAbs(a) == IsAbs(a + "/" + b)
  {
    var tail := text + ['/'] + b;
    assert a + "/" + text + "/" + b == a + ['/'] + tail && a + "/" + b == a + ['/'] + b;
    assert IsAbs(a + ['/'] + tail) == IsAbs(a) == IsAbs(a + ['/'] + b);
    hide Split, Push, IsAbs;
    SplitConcat(a, tail, '/');
    SplitConcat(text, b, '/');
    SplitConcat(a, b, '/');
    PushAllConcat(IsAbs(a), [], Split(a, '/'), Split(tail, '/'));
    PushAllConcat(IsAbs(a), [], Split(a, '/'), Split(b, '/'));
    PushAllConcat(IsAbs(a), Parts(a), mid, Split(b, '/'));
  }

  lemma PushUpAndDown(rooted: bool, parts: seq<string>, e: string)
    requires Ordinary(e)
    ensures PushAll(rooted, parts, [e, ".."]) == parts
  {
    assert [e, ".."] == [e] + [".."];
    PushAllConcat(rooted, parts, [e], [".."]);
    PushAllOne(rooted, parts, e);
    PushAllOne(rooted, parts + [e], "..");
    assert (parts + [e])[..|parts + [e]| - 1] == parts;
  }

  lemma UpAndDown(e: string)
    requires Ordinary(e)
    ensures Split(e + "/..", '/') == [e, ".."]
  {
    assert e + "/.." == e + ['/'] + "..";
    assert '/' !in "..";
    hide Split;
    SplitFirst(e, "..", '/');
    SplitFirst("..", "", '/');
    assert [e] + [".."] == [e, ".."];
  }

  /** The rules of lexical cleaning: a doubled slash, an element ".", and an element with
      the ".." behind it can be left out anywhere behind another element or slash. */
  lemma CleanRules(a: string, e: string, b: string)
    requires a != "" && Ordinary(e)
    ensures Clean(a + "//" + b) == Clean(a + "/" + b)
    ensures Clean(a + "/./" + b) == Clean(a + "/" + b)
    ensures Clean(a + "/" + (e + "/..") + "/" + b) == Clean(a + "/" + b)
  {
    assert '/' !in ".";
    hide Split, Push, Join, Ordinary, IsAbs;
    SplitFirst(".", "", '/');
    PartsOfThree(a, ["."], ".", b);
    PushDotNothing(IsAbs(a), Parts(a));
    assert a + "/" + "." + "/" + b == a + "/./" + b by { DotBetween(a, b); }
    NotEmptyWith(e);
    UpAndDown(e);
    PartsOfThree(a, [e, ".."], e + "/..", b);
    PushUpAndDown(IsAbs(a), Parts(a), e);
    DoubledSlash(a, b);
    hide Parts, PushAll, Render;
    CleanEqualIff(a + "/./" + b, a + "/" + b);
    CleanEqualIff(a + "/" + (e + "/..") + "/" + b, a + "/" + b);
    CleanEqualIff(a + "//" + b, a + "/" + b);
  }

  lemma NotEmptyWith(e: string)
    ensures e + "/.." != ""
  {
  }

  lemma DotBetween(a: string, b: string)
    ensures a + "/" + "." + "/" + b == a + "/./" + b
  {
    assert "/./" == "/" + "." + "/";
  }

  lemma PushDotNothing(rooted: bool, parts: seq<string>)
    ensures PushAll(rooted, parts, ["."]) == parts
  {
    PushAllOne(rooted, parts, ".");
  }

  lemma DoubledSlash(a: string, b: string)
    requires a != ""
    ensures IsAbs(a + "//" + b) == IsAbs(a + "/" + b) && Parts(a + "//" + b) == Parts(a + "/" + b)
  {
    var tail := "" + ['/'] + b;
    assert a + "//" + b == a + ['/'] + tail && a + "/" + b == a + ['/'] + b;
    hide Split, Push;
    SplitConcat(a, tail, '/');
    SplitFirst("", b, '/');
    SplitConcat(a, b, '/');
    PushAllConcat(IsAbs(a), [], Split(a, '/'), [""] + Split(b, '/'));
    PushAllConcat(IsAbs(a), [], Split(a, '/'), Split(b, '/'));
    PushAllConcat(IsAbs(a), Parts(a), [""], Split(b, '/'));
    PushAllEmpty(IsAbs(a), Parts(a));
  }

  /** The rules for the front: ".." behind the root, "." in front and a slash at the end can
      be left out; and a path to which no rule applies is clean. */
  lemma CleanFronts(rooted: bool, parts: seq<string>, b: string)
    requires Normal(rooted, parts)
    ensures Clean("/../" + b) == Clean("/" + b)
    ensures !IsAbs(b) ==> Clean("./" + b) == Clean(b)
    ensures b != "" ==> Clean(b + "/") == Clean(b)
    ensures Clean("") == "." && Clean("/") == "/"
    ensures parts != [] ==> Clean((if rooted then "/" else "") + Join(parts, '/')) == (if rooted then "/" else "") + Join(parts, '/')
  {
    NothingReads();
    RenderReads(rooted, parts);
    RootUp(b);
    if !IsAbs(b) {
      DotFront(b);
    }
    if b != "" {
      TrailingSlash(b);
      CleanEqualIff(b + ['/'], b);
      assert b + "/" == b + ['/'];
    }
    if parts != [] {
      assert Render(rooted, parts) == (if rooted then "/" else "") + Join(parts, '/') by {
        if !rooted {
          assert "" + Join(parts, '/') == Join(parts, '/');
        }
      }
      assert Clean(Render(rooted, parts)) == Render(rooted, parts);
    }
    hide Parts, Split, Push, PushAll;
  }

  lemma RootUp(b: string)
    ensures Clean("/../" + b) == Clean("/" + b)
  {
    var tail := ".." + ['/'] + b;
    assert "/../" + b == "/" + tail && '/' !in "..";
    assert IsAbs("/../" + b) && IsAbs("/" + b);
    hide Split, Push, Render, Join;
    SplitRooted(tail);
    SplitRooted(b);
    SplitFirst("..", b, '/');
    PushAllConcat(true, [], [""], [".."] + Split(b, '/'));
    PushAllConcat(true, [], [".."], Split(b, '/'));
    PushAllConcat(true, [], [""], Split(b, '/'));
    PushAllEmpty(true, []);
    PushAllOne(true, [], "..");
    assert Push(true, [], "..") == [] by { UpFromRoot(); }
  }

  lemma UpFromRoot()
    ensures Push(true, [], "..") == []
  {
  }

  lemma DotFront(b: string)
    requires !IsAbs(b)
    ensures Clean("./" + b) == Clean(b)
  {
    assert "./" + b == "." + ['/'] + b && '/' !in ".";
    assert !IsAbs("./" + b);
    hide Split, Push, Render, Join;
    SplitFirst(".", b, '/');
    PushAllConcat(false, [], ["."], Split(b, '/'));
    PushDotNothing(false, []);
  }
}
