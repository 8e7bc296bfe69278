// provider/env.go, normalizeEnv: USER, LOGNAME and HOME for provider children.
module Environment {
  import opened Text

  // ---------------------------------------------------------- reading a list

  /** The value a lookup finds: the last entry "name=value"; "" when there is none. */
  function Lookup(environ: seq<string>, name: string): string {
    if environ == [] then ""
    else
      var c := Cut(environ[|environ| - 1], '=');
      if c.found && c.before == name then c.after else Lookup(environ[..|environ| - 1], name)
  }

  /** The text before the first '=', or the whole entry when it has none. */
  function NameOf(kv: string): string {
    Cut(kv, '=').before
  }

  /** The entries whose names are not among those given, in order. */
  function Without(environ: seq<string>, names: set<string>): seq<string> {
    if environ == [] then []
    else
      var init, kv := Without(environ[..|environ| - 1], names), environ[|environ| - 1];
      if NameOf(kv) in names then init else init + [kv]
  }

  // -------------------------------------------------------------- what it does

  predicate Consistent(environ: seq<string>, username: string) {
    && Lookup(environ, "USER") == username
    && Lookup(environ, "LOGNAME") == username
    && Lookup(environ, "HOME") != ""
  }

  predicate SetsHome(environ: seq<string>, home: string) {
    Lookup(environ, "HOME") == "" && home != ""
  }

  function Replaced(environ: seq<string>, home: string): set<string> {
    if SetsHome(environ, home) then {"USER", "LOGNAME", "HOME"} else {"USER", "LOGNAME"}
  }

  function Added(environ: seq<string>, username: string, home: string): seq<string> {
    if SetsHome(environ, home) then ["USER=" + username, "LOGNAME=" + username, "HOME=" + home]
    else ["USER=" + username, "LOGNAME=" + username]
  }

  /** normalizeEnv; None is Go's nil, which exec.Cmd reads as "inherit". */
  function Normalize(environ: seq<string>, username: string, home: string): Option<seq<string>> {
    if Consistent(environ, username) then None
    else Some(Without(environ, Replaced(environ, home)) + Added(environ, username, home))
  }

  /** What the child process sees. */
  function Effective(environ: seq<string>, r: Option<seq<string>>): seq<string> {
    match r case None => environ case Some(out) => out
  }

  // ----------------------------------------------------------------- the code

  lemma LookupStep(environ: seq<string>, kv: string, name: string)
    ensures Lookup([], name) == "" && !Sets([], name)
    ensures Cut(kv, '=').found && Cut(kv, '=').before == name ==>
              Lookup(environ + [kv], name) == Cut(kv, '=').after && Sets(environ + [kv], name)
    ensures !(Cut(kv, '=').found && Cut(kv, '=').before == name) ==>
              Lookup(environ + [kv], name) == Lookup(environ, name) && Sets(environ + [kv], name) == Sets(environ, name)
  {
    hide Cut;
    assert (environ + [kv])[..|environ|] == environ;
  }

  lemma WithoutStep(environ: seq<string>, kv: string, names: set<string>)
    ensures Without([], names) == []
    ensures NameOf(kv) in names ==> Without(environ + [kv], names) == Without(environ, names)
    ensures NameOf(kv) !in names ==> Without(environ + [kv], names) == Without(environ, names) + [kv]
  {
    hide NameOf;
    assert (environ + [kv])[..|environ|] == environ;
  }

  lemma NameOfIs(kv: string)
    ensures NameOf(kv) == Cut(kv, '=').before
  {
  }

  /** normalizeEnv: scan with later entries winning, then filter and append. */
  method NormalizeEnv(environ: seq<string>, username: string, home: string) returns (r: Option<seq<string>>)
    ensures r == Normalize(environ, username, home)
  {
    hide Cut, Lookup, Without, NameOf, Sets;
    var userVal, lognameVal, homeVal := "", "", "";
    LookupStep([], "", "USER");
    LookupStep([], "", "LOGNAME");
    LookupStep([], "", "HOME");
    for i := 0 to |environ|
      invariant userVal == Lookup(environ[..i], "USER")
      invariant lognameVal == Lookup(environ[..i], "LOGNAME")
      invariant homeVal == Lookup(environ[..i], "HOME")
    {
      var kv := environ[i];
      assert environ[..i + 1] == environ[..i] + [kv];
      LookupStep(environ[..i], kv, "USER");
      LookupStep(environ[..i], kv, "LOGNAME");
      LookupStep(environ[..i], kv, "HOME");
      var c := Cut(kv, '=');
      if !c.found {
        continue;
      }
      if c.before == "USER" {
        userVal := c.after;
      } else if c.before == "LOGNAME" {
        lognameVal := c.after;
      } else if c.before == "HOME" {
        homeVal := c.after;
      }
    }
    assert environ[..|environ|] == environ;
    if userVal == username && lognameVal == username && homeVal != "" {
      return None;
    }
    var setHome := homeVal == "" && home != "";
    var out := [];
    WithoutStep([], "", Replaced(environ, home));
    for i := 0 to |environ|
      invariant out == Without(environ[..i], Replaced(environ, home))
    {
      var kv := environ[i];
      assert environ[..i + 1] == environ[..i] + [kv];
      WithoutStep(environ[..i], kv, Replaced(environ, home));
      NameOfIs(kv);
      var k := Cut(kv, '=').before;
      if k == "USER" || k == "LOGNAME" || (k == "HOME" && setHome) {
        continue;
      }
      out := out + [kv];
    }
    ghost var kept := out;
    out := out + ["USER=" + username, "LOGNAME=" + username];
    if setHome {
      out := out + ["HOME=" + home];
      assert out == kept + Added(environ, username, home);
    }
    return Some(out);
  }

  // ------------------------------------------------------------------ the laws

  lemma {:induction false} LookupConcat(a: seq<string>, b: seq<string>, name: string)
    ensures Lookup(a + b, name) == if Sets(b, name) then Lookup(b, name) else Lookup(a, name)
  {
    hide *;
    LookupStep(a, "", name);
    if b == [] {
      assert a + b == a;
    } else {
      var init, kv := b[..|b| - 1], b[|b| - 1];
      LookupConcat(a, init, name);
      assert b == init + [kv] && a + b == (a + init) + [kv];
      LookupStep(init, kv, name);
      LookupStep(a + init, kv, name);
    }
  }

  /** Some entry gives the name a value. */
  predicate Sets(environ: seq<string>, name: string) {
    if environ == [] then false
    else
      var c := Cut(environ[|environ| - 1], '=');
      (c.found && c.before == name) || Sets(environ[..|environ| - 1], name)
  }

  lemma {:induction false} WithoutConcat(a: seq<string>, b: seq<string>, names: set<string>)
    ensures Without(a + b, names) == Without(a, names) + Without(b, names)
  {
    hide *;
    WithoutStep(a, "", names);
    if b == [] {
      assert a + b == a;
    } else {
      var init, kv := b[..|b| - 1], b[|b| - 1];
      WithoutConcat(a, init, names);
      assert b == init + [kv] && a + b == (a + init) + [kv];
      WithoutStep(init, kv, names);
      WithoutStep(a + init, kv, names);
    }
  }

  /** Dropping other names keeps a lookup, and dropping a name empties it. */
  lemma {:induction false} LookupWithout(environ: seq<string>, names: set<string>, name: string)
    ensures Lookup(Without(environ, names), name) == if name in names then "" else Lookup(environ, name)
    ensures name in names ==> !Sets(Without(environ, names), name)
  {
    hide *;
    LookupStep([], "", name);
    WithoutStep([], "", names);
    if environ != [] {
      var init, kv := environ[..|environ| - 1], environ[|environ| - 1];
      assert environ == init + [kv];
      LookupWithout(init, names, name);
      NameOfIs(kv);
      WithoutStep(init, kv, names);
      LookupStep(init, kv, name);
      LookupStep(Without(init, names), kv, name);
    }
  }

  lemma {:induction false} WithoutTwice(environ: seq<string>, some: set<string>, all: set<string>)
    requires some <= all
    ensures Without(Without(environ, some), all) == Without(environ, all)
    ensures Without(Without(environ, all), some) == Without(environ, all)
  {
    hide *;
    WithoutStep([], "", some);
    WithoutStep([], "", all);
    if environ != [] {
      var init, kv := environ[..|environ| - 1], environ[|environ| - 1];
      assert environ == init + [kv];
      WithoutTwice(init, some, all);
      WithoutStep(init, kv, some);
      WithoutStep(init, kv, all);
      WithoutStep(Without(init, some), kv, all);
      WithoutStep(Without(init, all), kv, some);
    }
  }

  lemma EntryIs(name: string, value: string)
    requires '=' !in name
    ensures Cut(name + "=" + value, '=') == CutResult(name, value, true)
    ensures NameOf(name + "=" + value) == name
  {
    assert name + "=" + value == name + ['='] + value;
    CutConcat(name, value, '=');
  }

  const OURS := {"USER", "LOGNAME", "HOME"}

  lemma OursAreDistinct()
    ensures "USER" != "LOGNAME" && "USER" != "HOME" && "LOGNAME" != "HOME"
    ensures '=' !in "USER" && '=' !in "LOGNAME" && '=' !in "HOME"
    ensures OURS == {"USER", "LOGNAME", "HOME"}
  {
    assert |"USER"| == 4 && |"LOGNAME"| == 7 && "USER"[0] == 'U' && "HOME"[0] == 'H';
  }

  lemma AddedIs(environ: seq<string>, username: string, home: string)
    ensures var u, l, h := "USER=" + username, "LOGNAME=" + username, "HOME=" + home;
            && Added(environ, username, home) == (if SetsHome(environ, home) then [u, l, h] else [u, l])
            && Replaced(environ, home) == (if SetsHome(environ, home) then OURS else {"USER", "LOGNAME"})
            && Cut(u, '=') == CutResult("USER", username, true) && NameOf(u) == "USER"
            && Cut(l, '=') == CutResult("LOGNAME", username, true) && NameOf(l) == "LOGNAME"
            && Cut(h, '=') == CutResult("HOME", home, true) && NameOf(h) == "HOME"
  {
    hide Cut, SetsHome, NameOf;
    OursAreDistinct();
    assert "USER" + "=" == "USER=" && "LOGNAME" + "=" == "LOGNAME=" && "HOME" + "=" == "HOME=";
    EntryIs("USER", username);
    EntryIs("LOGNAME", username);
    EntryIs("HOME", home);
  }

  /** What the appended entries say about a name, and that filtering takes them out again. */
  lemma AddedSays(environ: seq<string>, username: string, home: string, name: string)
    ensures var added := Added(environ, username, home);
            && Sets(added, name) == (name in Replaced(environ, home))
            && (Sets(added, name) ==> Lookup(added, name) == if name == "HOME" then home else username)
            && Without(added, Replaced(environ, home)) == [] && Without(added, OURS) == []
  {
    hide *;
    var u, l, h := "USER=" + username, "LOGNAME=" + username, "HOME=" + home;
    AddedIs(environ, username, home);
    OursAreDistinct();
    EntriesSay(u, l, h, "USER", "LOGNAME", "HOME", name);
    StepsOut(u, l, h, Replaced(environ, home));
    StepsOut(u, l, h, OURS);
  }

  lemma EntriesSay(u: string, l: string, h: string, nu: string, nl: string, nh: string, name: string)
    requires Cut(u, '=').found && Cut(l, '=').found && Cut(h, '=').found
    requires Cut(u, '=').before == nu && Cut(l, '=').before == nl && Cut(h, '=').before == nh
    requires nu != nl && nu != nh && nl != nh
    ensures Sets([u, l], name) <==> name == nu || name == nl
    ensures Sets([u, l, h], name) <==> name == nu || name == nl || name == nh
    ensures name == nu ==> Lookup([u, l], name) == Lookup([u, l, h], name) == Cut(u, '=').after
    ensures name == nl ==> Lookup([u, l], name) == Lookup([u, l, h], name) == Cut(l, '=').after
    ensures name == nh ==> Lookup([u, l, h], name) == Cut(h, '=').after
  {
    hide *;
    assert [] + [u] == [u] && [u] + [l] == [u, l] && [u, l] + [h] == [u, l, h];
    LookupStep([], u, name);
    LookupStep([u], l, name);
    LookupStep([u, l], h, name);
  }

  lemma StepsOut(u: string, l: string, h: string, names: set<string>)
    requires NameOf(u) in names && NameOf(l) in names
    ensures Without([u, l], names) == []
    ensures NameOf(h) in names ==> Without([u, l, h], names) == []
  {
    hide *;
    assert [] + [u] == [u] && [u] + [l] == [u, l] && [u, l] + [h] == [u, l, h];
    WithoutStep([], u, names);
    WithoutStep([u], l, names);
    WithoutStep([u, l], h, names);
  }

  /** A lookup in the list returned by normalizeEnv. */
  lemma LookupNormalized(environ: seq<string>, username: string, home: string, name: string)
    ensures var out := Without(environ, Replaced(environ, home)) + Added(environ, username, home);
            Lookup(out, name) ==
              if name in Replaced(environ, home) then (if name == "HOME" then home else username)
              else Lookup(environ, name)
  {
    hide *;
    var names, added := Replaced(environ, home), Added(environ, username, home);
    AddedSays(environ, username, home, name);
    LookupConcat(Without(environ, names), added, name);
    LookupWithout(environ, names, name);
  }

  lemma ReplacedIs(environ: seq<string>, home: string)
    ensures Replaced(environ, home) <= OURS
    ensures "USER" in Replaced(environ, home) && "LOGNAME" in Replaced(environ, home)
    ensures "HOME" in Replaced(environ, home) <==> Lookup(environ, "HOME") == "" && home != ""
  {
    hide Lookup;
  }

  /** The effective environment: USER and LOGNAME name the user, HOME keeps a value it had
      and is otherwise filled in, and every other entry is there, in its old order. */
  lemma EffectiveEnvironment(environ: seq<string>, username: string, home: string)
    ensures var eff := Effective(environ, Normalize(environ, username, home));
            && Lookup(eff, "USER") == username
            && Lookup(eff, "LOGNAME") == username
            && Lookup(eff, "HOME") == (if Lookup(environ, "HOME") != "" then Lookup(environ, "HOME") else home)
            && Without(eff, {"USER", "LOGNAME", "HOME"}) == Without(environ, {"USER", "LOGNAME", "HOME"})
  {
    OursAreDistinct();
    hide Lookup, Without, Replaced, Added;
    if !Consistent(environ, username) {
      var names, added := Replaced(environ, home), Added(environ, username, home);
      ReplacedIs(environ, home);
      LookupNormalized(environ, username, home, "USER");
      LookupNormalized(environ, username, home, "LOGNAME");
      LookupNormalized(environ, username, home, "HOME");
      AddedSays(environ, username, home, "USER");
      WithoutConcat(Without(environ, names), added, OURS);
      WithoutTwice(environ, names, OURS);
    }
  }

  /** Normalising what was normalised changes nothing: nil, or the very same list. */
  lemma NormalizeIsFixpoint(environ: seq<string>, username: string, home: string)
    ensures var eff := Effective(environ, Normalize(environ, username, home));
            Effective(eff, Normalize(eff, username, home)) == eff
  {
    var eff := Effective(environ, Normalize(environ, username, home));
    EffectiveEnvironment(environ, username, home);
    hide Lookup, Without, Added, Replaced, OURS;
    if !Consistent(environ, username) && !Consistent(eff, username) {
      var names, added := Replaced(environ, home), Added(environ, username, home);
      AddedSays(environ, username, home, "USER");
      SameReplacement(environ, eff, username, home);
      WithoutConcat(Without(environ, names), added, names);
      WithoutTwice(environ, names, names);
      assert Without(environ, names) + [] == Without(environ, names);
    }
  }

  lemma SameReplacement(environ: seq<string>, eff: seq<string>, username: string, home: string)
    requires Lookup(eff, "HOME") == Lookup(environ, "HOME") == home == ""
    ensures Replaced(eff, home) == Replaced(environ, home) && Added(eff, username, home) == Added(environ, username, home)
  {
    hide Lookup;
  }

  /** The normalised environment is consistent whenever a home is known: then a second
      normalisation inherits. It is not when HOME was empty and no home is supplied. */
  lemma NormalizedIsConsistentIff(environ: seq<string>, username: string, home: string)
    ensures Consistent(Effective(environ, Normalize(environ, username, home)), username)
            <==> Lookup(environ, "HOME") != "" || home != ""
  {
    EffectiveEnvironment(environ, username, home);
    hide Lookup, Normalize;
  }

  /** Looking a name up, entry by entry: an entry "name=value" decides, unless a later one
      does; an entry that does not start with the name and '=' says nothing of it. */
  lemma LookupEntry(environ: seq<string>, name: string, value: string, kv: string)
    requires '=' !in name
    ensures Lookup([], name) == ""
    ensures Lookup(environ + [name + "=" + value], name) == value
    ensures !(name + "=" <= kv) ==> Lookup(environ + [kv], name) == Lookup(environ, name)
  {
    EntryIs(name, value);
    LookupStep(environ, name + "=" + value, name);
    LookupStep(environ, kv, name);
    CutFound(kv, name);
    hide Lookup, Cut;
  }

  lemma CutFound(kv: string, name: string)
    ensures Cut(kv, '=').found && Cut(kv, '=').before == name ==> name + "=" <= kv
  {
    var i := IndexByte(kv, '=');
    if i < |kv| && kv[..i] == name {
      assert kv[..i + 1] == name + "=";
    }
  }

  /** Which entries filtering keeps: those whose text before '=', or all of it, is no name
      among those given. */
  lemma WithoutEntry(environ: seq<string>, names: set<string>, name: string, value: string, bare: string)
    requires '=' !in name && '=' !in bare
    ensures Without([], names) == []
    ensures Without(environ + [name + "=" + value], names) ==
              Without(environ, names) + if name in names then [] else [name + "=" + value]
    ensures Without(environ + [bare], names) == Without(environ, names) + if bare in names then [] else [bare]
  {
    EntryIs(name, value);
    assert Cut(bare, '=').before == bare;
    NameOfIs(bare);
    WithoutStep(environ, name + "=" + value, names);
    WithoutStep(environ, bare, names);
    hide Without, Cut, NameOf;
    assert Without(environ, names) + [] == Without(environ, names);
  }

  /** nil, "inherit", is returned exactly when nothing needs to change. */
  lemma InheritsIff(environ: seq<string>, username: string, home: string)
    ensures Normalize(environ, username, home).None?
            <==> Lookup(environ, "USER") == username && Lookup(environ, "LOGNAME") == username && Lookup(environ, "HOME") != ""
  {
    hide Lookup;
  }
}
