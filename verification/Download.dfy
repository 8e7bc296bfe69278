// core/artifact/fetch.go, fetchHTTPS: download to a .part file while hashing, compare,
// rename. The call is a sequence of disk states, so that a crash can fall after any one.
module Download {
  import opened Text
  import opened HostFiles
  import opened Hashing

  /** One call of fetchHTTPS with everything the environment decides during it: whether
      each system call succeeds, and the pieces of the response body that arrive. The
      pieces are a complete body when `complete` holds; otherwise the stream or the file
      failed after them. `parents` are the directories MkdirAll adds, before it fails if it
      does. */
  datatype Call = Call(
    dest: string,
    wantSHA: string,
    isHttps: bool,
    readOK: bool,
    parents: set<string>,
    mkdirOK: bool,
    responseOK: bool,
    createOK: bool,
    chunks: seq<string>,
    complete: bool,
    closeOK: bool,
    renameOK: bool,
    removeOK: bool)

  datatype Outcome =
    | AlreadyPresent
    | Downloaded
    | Refused            // before the temporary file exists
    | StreamFailed
    | Mismatch
    | RenameFailed
  {
    predicate Succeeded() {
      AlreadyPresent? || Downloaded?
    }
  }

  function PartOf(dest: string): string {
    dest + ".part"
  }

  /** The checksum compared against: lowercased and trimmed; "" when none was published. */
  function Wanted(wantSHA: string): string {
    ToLower(TrimSpace(wantSHA))
  }

  function Body(chunks: seq<string>): string {
    if chunks == [] then "" else Body(chunks[..|chunks| - 1]) + chunks[|chunks| - 1]
  }

  // ------------------------------------------------------- the states of one call

  predicate Present<S>(h: Hash<S>, d: Disk, c: Call) {
    c.readOK && Held(h, d, c)
  }

  /** The destination holds the wanted file, whether or not it can be read. */
  predicate Held<S>(h: Hash<S>, d: Disk, c: Call) {
    Wanted(c.wantSHA) != "" && c.dest in d.files && Digest(h, d.files[c.dest]) == Wanted(c.wantSHA)
  }

  predicate HashOK<S>(h: Hash<S>, c: Call) {
    Wanted(c.wantSHA) == "" || Digest(h, Body(c.chunks)) == Wanted(c.wantSHA)
  }

  /** The call gets as far as a created temporary file. */
  predicate Created<S>(h: Hash<S>, d: Disk, c: Call) {
    c.isHttps && !Present(h, d, c) && c.mkdirOK && c.responseOK && c.createOK
  }

  function OutcomeOf<S>(h: Hash<S>, d: Disk, c: Call): Outcome {
    if !c.isHttps then Refused
    else if Present(h, d, c) then AlreadyPresent
    else if !c.mkdirOK || !c.responseOK || !c.createOK then Refused
    else if !c.complete || !c.closeOK then StreamFailed
    else if !HashOK(h, c) then Mismatch
    else if !c.renameOK then RenameFailed
    else Downloaded
  }

  /** The disk with n pieces in the temporary file. */
  function Partial(d: Disk, c: Call, n: nat): Disk
    requires n <= |c.chunks|
  {
    WithFile(WithDirs(d, c.parents), PartOf(c.dest), Body(c.chunks[..n]))
  }

  /** The successive states from the created file to the last piece. */
  function Streaming(d: Disk, c: Call, n: nat): (t: seq<Disk>)
    requires n <= |c.chunks|
    ensures |t| == n + 1
  {
    if n == 0 then [Partial(d, c, 0)] else Streaming(d, c, n - 1) + [Partial(d, c, n)]
  }

  /** What the call does once the last piece is written. */
  function Ending<S>(h: Hash<S>, d: Disk, c: Call): seq<Disk> {
    var full := Partial(d, c, |c.chunks|);
    var removed := if c.removeOK then [WithoutFile(full, PartOf(c.dest))] else [];
    match OutcomeOf(h, d, c)
    case Downloaded => [Renamed(full, PartOf(c.dest), c.dest)]
    case _ => removed
  }

  /** Every disk state a call passes through after d, in order. */
  function Trace<S>(h: Hash<S>, d: Disk, c: Call): seq<Disk> {
    if !c.isHttps || Present(h, d, c) then []
    else if !c.mkdirOK || !c.responseOK || !c.createOK then [WithDirs(d, c.parents)]
    else [WithDirs(d, c.parents)] + Streaming(d, c, |c.chunks|) + Ending(h, d, c)
  }

  function Last(d: Disk, t: seq<Disk>): Disk {
    if t == [] then d else t[|t| - 1]
  }

  // -------------------------------------------------------------- the code itself

  lemma BodyUpTo(chunks: seq<string>, n: nat)
    requires n < |chunks|
    ensures Body(chunks[..n + 1]) == Body(chunks[..n]) + chunks[n]
  {
    assert chunks[..n + 1][..n] == chunks[..n];
  }

  /** io.Copy(io.MultiWriter(f, h), resp.Body): each piece goes to the file and the hash. */
  method CopyBody<S>(host: Host, h: Hash<S>, c: Call, ghost d: Disk) returns (state: S)
    requires host.disk == Partial(d, c, 0)
    modifies host
    ensures state == Feed(h, h.start, Body(c.chunks))
    ensures host.disk == Partial(d, c, |c.chunks|)
    ensures old(host.history) + Streaming(d, c, |c.chunks|)[1..] == host.history
  {
    state := h.start;
    var tmp := PartOf(c.dest);
    for n := 0 to |c.chunks|
      invariant state == Feed(h, h.start, Body(c.chunks[..n]))
      invariant host.disk == Partial(d, c, n)
      invariant old(host.history) + Streaming(d, c, n)[1..] == host.history
    {
      host.Append(tmp, c.chunks[n]);
      state := Feed(h, state, c.chunks[n]);
      BodyUpTo(c.chunks, n);
      FeedConcat(h, h.start, Body(c.chunks[..n]), c.chunks[n]);
      AppendPartial(d, c, n);
    }
    assert c.chunks[..|c.chunks|] == c.chunks;
  }

  lemma AppendPartial(d: Disk, c: Call, n: nat)
    requires n < |c.chunks|
    ensures PartOf(c.dest) in Partial(d, c, n).files
    ensures WithFile(Partial(d, c, n), PartOf(c.dest), Partial(d, c, n).files[PartOf(c.dest)] + c.chunks[n])
            == Partial(d, c, n + 1)
  {
    BodyUpTo(c.chunks, n);
  }

  /** fetchHTTPS. */
  method FetchHttps<S>(host: Host, h: Hash<S>, c: Call) returns (outcome: Outcome)
    modifies host
    ensures outcome == OutcomeOf(h, old(host.disk), c)
    ensures host.history == old(host.history) + Trace(h, old(host.disk), c)
    ensures host.disk == Last(old(host.disk), Trace(h, old(host.disk), c))
  {
    ghost var d := host.disk;
    if !c.isHttps {
      return Refused;
    }
    var want := ToLower(TrimSpace(c.wantSHA));
    if want != "" {
      var present := host.Read(c.dest);
      if c.readOK && present.Some? && Digest(h, present.value) == want {
        return AlreadyPresent;
      }
    }
    host.MakeDirs(c.parents);
    if !c.mkdirOK || !c.responseOK || !c.createOK {
      return Refused;
    }
    outcome := Install(host, h, c, d);
  }

  lemma TraceOfCreated<S>(h: Hash<S>, d: Disk, c: Call)
    requires Created(h, d, c)
    ensures Trace(h, d, c) == [WithDirs(d, c.parents)] + ([Partial(d, c, 0)] + Streaming(d, c, |c.chunks|)[1..]) + Ending(h, d, c)
    ensures Partial(d, c, 0) == WithFile(WithDirs(d, c.parents), PartOf(c.dest), "")
    ensures Last(d, Trace(h, d, c)) == Last(Partial(d, c, |c.chunks|), Ending(h, d, c))
    ensures Digest(h, Body(c.chunks)) == h.sum(Feed(h, h.start, Body(c.chunks)))
    ensures PartOf(c.dest) in Partial(d, c, |c.chunks|).files
  {
    StreamingStates(d, c, |c.chunks|, 0);
    StreamingStates(d, c, |c.chunks|, |c.chunks|);
    hide Partial, Ending, Streaming, Present, Wanted;
    assert Streaming(d, c, |c.chunks|) == [Partial(d, c, 0)] + Streaming(d, c, |c.chunks|)[1..];
    var t := [WithDirs(d, c.parents)] + Streaming(d, c, |c.chunks|);
    if Ending(h, d, c) == [] {
      assert t + Ending(h, d, c) == t;
    }
  }

  /** The rest of fetchHTTPS, from os.Create on: copy, compare, rename, clean up. */
  method Install<S>(host: Host, h: Hash<S>, c: Call, ghost d: Disk) returns (outcome: Outcome)
    requires Created(h, d, c) && host.disk == WithDirs(d, c.parents)
    modifies host
    ensures outcome == OutcomeOf(h, d, c)
    ensures old(host.history) + Trace(h, d, c)[1..] == host.history
    ensures host.disk == Last(d, Trace(h, d, c))
  {
    hide *;
    TraceOfCreated(h, d, c);
    var tmp := PartOf(c.dest);
    host.Write(tmp, "");
    var state := CopyBody(host, h, c, d);
    assert old(host.history) + Trace(h, d, c)[1..] == host.history + Ending(h, d, c);
    EndingIs(h, d, c);
    outcome := Finish(host, c, h.sum(state));
  }

  /** How the call ends, given the digest of what arrived. */
  function EndOf(c: Call, got: string): Outcome {
    if !c.complete || !c.closeOK then StreamFailed
    else if Wanted(c.wantSHA) != "" && got != Wanted(c.wantSHA) then Mismatch
    else if !c.renameOK then RenameFailed
    else Downloaded
  }

  function EndStates(full: Disk, c: Call, end: Outcome): seq<Disk>
    requires PartOf(c.dest) in full.files
  {
    if end.Downloaded? then [Renamed(full, PartOf(c.dest), c.dest)]
    else if c.removeOK then [WithoutFile(full, PartOf(c.dest))]
    else []
  }

  lemma EndingIs<S>(h: Hash<S>, d: Disk, c: Call)
    requires Created(h, d, c)
    ensures PartOf(c.dest) in Partial(d, c, |c.chunks|).files
    ensures OutcomeOf(h, d, c) == EndOf(c, Digest(h, Body(c.chunks)))
    ensures Ending(h, d, c) == EndStates(Partial(d, c, |c.chunks|), c, OutcomeOf(h, d, c))
  {
    hide Digest, Body, PartOf, Wanted;
  }

  /** After the copy: close, compare, rename, and remove the temporary file on any failure. */
  method Finish(host: Host, c: Call, got: string) returns (outcome: Outcome)
    requires PartOf(c.dest) in host.disk.files
    modifies host
    ensures outcome == EndOf(c, got)
    ensures host.history == old(host.history) + EndStates(old(host.disk), c, outcome)
    ensures host.disk == Last(old(host.disk), EndStates(old(host.disk), c, outcome))
  {
    hide Wanted, PartOf;
    var tmp, want := PartOf(c.dest), Wanted(c.wantSHA);
    if !c.complete || !c.closeOK {
      if c.removeOK {
        host.Remove(tmp);
      }
      return StreamFailed;
    }
    if want != "" && got != want {
      if c.removeOK {
        host.Remove(tmp);
      }
      return Mismatch;
    }
    if !c.renameOK {
      if c.removeOK {
        host.Remove(tmp);
      }
      return RenameFailed;
    }
    host.Rename(tmp, c.dest);
    return Downloaded;
  }

  // ------------------------------------------------------------- one call is safe

  /** What may be found at a path: what was there, or one complete response body of the
      call, whose digest is the published checksum when there is one. */
  ghost predicate WholeBody<S>(h: Hash<S>, c: Call, path: string, content: Option<string>) {
    c.dest == path && c.complete && HashOK(h, c) && content == Some(Body(c.chunks))
  }

  lemma {:induction false} StreamingStates(d: Disk, c: Call, n: nat, i: nat)
    requires n <= |c.chunks| && i <= n
    ensures Streaming(d, c, n)[i] == Partial(d, c, i)
  {
    if i < n {
      StreamingStates(d, c, n - 1, i);
    }
  }

  lemma PartialKeeps(d: Disk, c: Call, n: nat, path: string)
    requires n <= |c.chunks| && path != PartOf(c.dest)
    ensures FileAt(Partial(d, c, n), path) == FileAt(d, path)
  {
  }

  lemma EndingStates<S>(h: Hash<S>, d: Disk, c: Call, path: string, i: nat)
    requires path != PartOf(c.dest) && Created(h, d, c) && i < |Ending(h, d, c)|
    ensures OutcomeOf(h, d, c).Downloaded? && path == c.dest ==>
              i == 0 && FileAt(Ending(h, d, c)[i], path) == Some(Body(c.chunks))
    ensures !(OutcomeOf(h, d, c).Downloaded? && path == c.dest) ==> FileAt(Ending(h, d, c)[i], path) == FileAt(d, path)
  {
    assert c.chunks[..|c.chunks|] == c.chunks;
  }

  /** In every state a call passes through, and so wherever it crashes, a path that is
      not its own temporary file holds what it held, or a whole body with its checksum. */
  lemma TraceIsSafe<S>(h: Hash<S>, d: Disk, c: Call, path: string, i: nat)
    requires path != PartOf(c.dest) && i < |Trace(h, d, c)|
    ensures var content := FileAt(Trace(h, d, c)[i], path);
            content == FileAt(d, path) || WholeBody(h, c, path, content)
  {
    if Created(h, d, c) && i > 0 {
      var n := |c.chunks|;
      hide Present, Partial, Ending, Wanted;
      if i <= n + 1 {
        StreamingStates(d, c, n, i - 1);
        PartialKeeps(d, c, i - 1, path);
      } else {
        EndingStates(h, d, c, path, i - n - 2);
      }
    }
  }

  /** The disk after a download that went through. */
  lemma DownloadedIs<S>(h: Hash<S>, d: Disk, c: Call)
    requires OutcomeOf(h, d, c).Downloaded?
    ensures var full := Partial(d, c, |c.chunks|);
            PartOf(c.dest) in full.files && Last(d, Trace(h, d, c)) == Renamed(full, PartOf(c.dest), c.dest)
  {
    TraceOfCreated(h, d, c);
    hide Partial, Trace, PartOf, Digest;
  }

  /** A call that returns success leaves the wanted bytes at its destination. */
  lemma SuccessInstalls<S>(h: Hash<S>, d: Disk, c: Call)
    requires OutcomeOf(h, d, c).Succeeded()
    ensures c.dest in Last(d, Trace(h, d, c)).files
    ensures Wanted(c.wantSHA) != "" ==>
              Digest(h, Last(d, Trace(h, d, c)).files[c.dest]) == Wanted(c.wantSHA)
    ensures OutcomeOf(h, d, c).Downloaded? ==> Last(d, Trace(h, d, c)).files[c.dest] == Body(c.chunks)
  {
    if OutcomeOf(h, d, c).Downloaded? {
      PartIsNotDest(c.dest);
      EndingStates(h, d, c, c.dest, 0);
    }
  }

  /** A failed call leaves every path but its temporary file exactly as it was. */
  lemma FailureKeeps<S>(h: Hash<S>, d: Disk, c: Call, path: string)
    requires !OutcomeOf(h, d, c).Succeeded() && path != PartOf(c.dest)
    ensures FileAt(Last(d, Trace(h, d, c)), path) == FileAt(d, path)
  {
    if Created(h, d, c) {
      var n := |c.chunks|;
      PartialKeeps(d, c, n, path);
      StreamingStates(d, c, n, n);
      hide Present, Partial, Wanted, HashOK;
      if Ending(h, d, c) != [] {
        EndingStates(h, d, c, path, 0);
      }
    }
  }

  /** The call can create, fill and install its temporary file. */
  predicate Goes<S>(h: Hash<S>, c: Call) {
    c.mkdirOK && c.responseOK && c.createOK && c.complete && c.closeOK && HashOK(h, c) && c.renameOK
  }

  /** A body is installed exactly when nothing on the way fails. */
  lemma DownloadedIff<S>(h: Hash<S>, d: Disk, c: Call)
    ensures OutcomeOf(h, d, c).Downloaded? <==> c.isHttps && !(c.readOK && Held(h, d, c)) && Goes(h, c)
    ensures OutcomeOf(h, d, c).AlreadyPresent? <==> c.isHttps && c.readOK && Held(h, d, c)
  {
    hide HashOK, Held;
  }

  /** With a checksum to compare against, success means exactly that the destination now
      holds a file with that digest; save for one that held it already and cannot be read,
      where it is the download that must go through. */
  lemma SuccessIff<S>(h: Hash<S>, d: Disk, c: Call)
    requires c.isHttps && Wanted(c.wantSHA) != ""
    ensures var after := Last(d, Trace(h, d, c)).files;
            OutcomeOf(h, d, c).Succeeded()
            <==> c.dest in after && Digest(h, after[c.dest]) == Wanted(c.wantSHA)
                 && (Held(h, d, c) && !c.readOK ==> Goes(h, c))
  {
    PartIsNotDest(c.dest);
    if OutcomeOf(h, d, c).Succeeded() {
      SuccessInstalls(h, d, c);
    } else {
      FailureKeeps(h, d, c, c.dest);
    }
    hide Trace, Ending, Last, Wanted, Digest, PartOf;
  }

  // ------------------------------------------------ the checksum, as it is spelled

  /** A digest as hex.EncodeToString prints it. */
  predicate IsHex(s: string) {
    s != "" && forall i :: 0 <= i < |s| ==> '0' <= s[i] <= '9' || 'a' <= s[i] <= 'f'
  }

  ghost predicate PrintsHex<S>(h: Hash<S>) {
    forall data :: IsHex(Digest(h, data))
  }

  /** The digest, in whichever case, with any white space around it. */
  ghost predicate SpellsDigest(text: string, digest: string) {
    exists l, m, r :: text == l + m + r && AllWhite(l) && AllWhite(r) && Recased(m, digest)
  }

  lemma HexIsLower(digest: string)
    requires IsHex(digest)
    ensures ToLower(digest) == digest && !White(digest[0]) && !White(digest[|digest| - 1])
  {
    forall i | 0 <= i < |digest| ensures LowerChar(digest[i]) == digest[i] && !White(digest[i]) {
      LowerCharIs(digest[i]);
      assert '0' <= digest[i] <= '9' || 'a' <= digest[i] <= 'f';
    }
  }

  lemma RecasedEnds(m: string, digest: string)
    requires Recased(m, digest) && digest != ""
    ensures m != "" && (White(m[0]) <==> White(digest[0])) && (White(m[|m| - 1]) <==> White(digest[|digest| - 1]))
  {
    assert TwoCases(m[0], digest[0]) && TwoCases(m[|m| - 1], digest[|digest| - 1]);
  }

  /** The comparison value is the digest exactly when the published text spells it. */
  lemma WantedIffSpells(text: string, digest: string)
    requires IsHex(digest)
    ensures Wanted(text) == digest <==> SpellsDigest(text, digest)
  {
    HexIsLower(digest);
    hide ToLower, TrimSpace, Recased, AllWhite, White, IsHex;
    if Wanted(text) == digest {
      var l, r := TrimSpaceParts(text);
      FoldIffRecased(TrimSpace(text), digest);
      assert AllWhite(l) && AllWhite(r) && text == l + TrimSpace(text) + r;
    }
    if l, m, r :| text == l + m + r && AllWhite(l) && AllWhite(r) && Recased(m, digest) {
      RecasedEnds(m, digest);
      TrimSpaceIs(l, m, r);
      FoldIffRecased(m, digest);
    }
  }

  lemma WantedIsBlank(text: string)
    ensures Wanted(text) == "" <==> AllWhite(text)
  {
    var l, r := TrimSpaceParts(text);
    hide TrimSpace, White;
    assert Wanted(text) == "" <==> TrimSpace(text) == "";
    if AllWhite(text) {
      TrimSpaceIs(text, "", "");
      assert text + "" + "" == text;
    }
    if TrimSpace(text) == "" {
      assert text == l + r;
    }
  }

  /** The system calls of the call all succeed. */
  predicate Undisturbed(c: Call) {
    && c.isHttps && c.readOK && c.mkdirOK && c.responseOK && c.createOK
    && c.complete && c.closeOK && c.renameOK
  }

  /** What an undisturbed call does, by the text of the published checksum: a file that it
      spells the digest of is left alone; a body is installed when the text spells its
      digest or is all white space, and is otherwise a mismatch. */
  lemma OutcomeBySpelling<S>(h: Hash<S>, d: Disk, c: Call)
    requires PrintsHex(h) && Undisturbed(c)
    ensures OutcomeOf(h, d, c) ==
              if c.dest in d.files && SpellsDigest(c.wantSHA, Digest(h, d.files[c.dest])) then AlreadyPresent
              else if AllWhite(c.wantSHA) || SpellsDigest(c.wantSHA, Digest(h, Body(c.chunks))) then Downloaded
              else Mismatch
  {
    WantedIsBlank(c.wantSHA);
    assert IsHex(Digest(h, Body(c.chunks)));
    WantedIffSpells(c.wantSHA, Digest(h, Body(c.chunks)));
    if c.dest in d.files {
      assert IsHex(Digest(h, d.files[c.dest]));
      WantedIffSpells(c.wantSHA, Digest(h, d.files[c.dest]));
    }
    hide Wanted, Body, Digest, SpellsDigest, AllWhite;
  }

  lemma PartIsNotDest(dest: string)
    ensures PartOf(dest) != dest
  {
    assert |PartOf(dest)| == |dest| + 5;
  }

  /** A call that returns after creating its temporary file leaves none behind, as long as
      the removals it asks for succeed. */
  lemma NoPartLeft<S>(h: Hash<S>, d: Disk, c: Call)
    requires Created(h, d, c) && (OutcomeOf(h, d, c).Downloaded? || c.removeOK)
    ensures PartOf(c.dest) !in Last(d, Trace(h, d, c)).files
  {
    PartIsNotDest(c.dest);
  }

  lemma {:induction false} StreamingIgnoresStale(d: Disk, c: Call, stale: string, n: nat)
    requires n <= |c.chunks|
    ensures var dirty := WithFile(d, PartOf(c.dest), stale);
            Partial(dirty, c, n) == Partial(d, c, n) && Streaming(dirty, c, n) == Streaming(d, c, n)
  {
    hide Body, PartOf;
    var part := PartOf(c.dest);
    assert d.files[part := stale][part := Body(c.chunks[..n])] == d.files[part := Body(c.chunks[..n])];
    if n > 0 {
      StreamingIgnoresStale(d, c, stale, n - 1);
    }
  }

  lemma OutcomeIgnoresStale<S>(h: Hash<S>, d: Disk, c: Call, stale: string)
    ensures var dirty := WithFile(d, PartOf(c.dest), stale);
            Present(h, dirty, c) == Present(h, d, c) && OutcomeOf(h, dirty, c) == OutcomeOf(h, d, c)
  {
    PartIsNotDest(c.dest);
    hide PartOf, HashOK, Digest, Wanted;
  }

  /** Bytes left in the temporary file by an earlier crash never matter: the outcome is the
      same, and from the creation of the temporary file on the disk is the very same. */
  lemma StalePartIsIrrelevant<S>(h: Hash<S>, d: Disk, c: Call, stale: string)
    ensures var dirty := WithFile(d, PartOf(c.dest), stale);
            && OutcomeOf(h, dirty, c) == OutcomeOf(h, d, c)
            && Created(h, dirty, c) == Created(h, d, c)
            && (Created(h, d, c) ==> Trace(h, dirty, c)[1..] == Trace(h, d, c)[1..])
  {
    var dirty := WithFile(d, PartOf(c.dest), stale);
    OutcomeIgnoresStale(h, d, c, stale);
    StreamingIgnoresStale(d, c, stale, |c.chunks|);
    hide Present, Wanted, HashOK, Partial, Streaming, OutcomeOf, PartOf;
    if Created(h, d, c) {
      var rest := Streaming(d, c, |c.chunks|) + Ending(h, d, c);
      assert Ending(h, dirty, c) == Ending(h, d, c);
      assert Trace(h, d, c) == [WithDirs(d, c.parents)] + rest;
      assert Trace(h, dirty, c) == [WithDirs(dirty, c.parents)] + rest;
    }
  }

  // ------------------------------------------------- runs of calls, with crashes

  /** A call that runs for at most `steps` disk states before the process dies; with
      steps at least the length of its trace it returns. */
  datatype Attempt = Attempt(call: Call, steps: nat)

  function States<S>(h: Hash<S>, d: Disk, a: Attempt): seq<Disk> {
    var t := Trace(h, d, a.call);
    if a.steps < |t| then t[..a.steps] else t
  }

  /** Every disk state of a run, in order. */
  function RunStates<S>(h: Hash<S>, d: Disk, run: seq<Attempt>): seq<Disk> {
    if run == [] then []
    else
      var before := RunStates(h, d, run[..|run| - 1]);
      before + States(h, Last(d, before), run[|run| - 1])
  }

  /** No call of the run uses the path as its temporary file. */
  predicate NotAPart(run: seq<Attempt>, path: string) {
    forall i :: 0 <= i < |run| ==> PartOf(run[i].call.dest) != path
  }

  lemma RunStatesStep<S>(h: Hash<S>, d: Disk, run: seq<Attempt>, i: nat)
    requires run != [] && i < |RunStates(h, d, run)|
    ensures var init, a := run[..|run| - 1], run[|run| - 1];
            var before := RunStates(h, d, init);
            if i < |before| then RunStates(h, d, run)[i] == before[i]
            else
              var t := Trace(h, Last(d, before), a.call);
              i - |before| < |t| && RunStates(h, d, run)[i] == t[i - |before|]
  {
    hide Trace, Last;
  }

  lemma LastIs(d: Disk, t: seq<Disk>)
    ensures Last(d, []) == d
    ensures t != [] ==> Last(d, t) == t[|t| - 1]
  {
  }

  lemma NoRunNoStates<S>(h: Hash<S>, d: Disk)
    ensures RunStates(h, d, []) == []
  {
  }

  /** What a run may leave at a path: what was there before, or a whole verified body. */
  ghost predicate Accounted<S>(h: Hash<S>, d: Disk, run: seq<Attempt>, path: string, content: Option<string>) {
    content == FileAt(d, path) || exists k :: 0 <= k < |run| && WholeBody(h, run[k].call, path, content)
  }

  lemma AccountedGrows<S>(h: Hash<S>, d: Disk, run: seq<Attempt>, path: string, content: Option<string>)
    requires run != []
    ensures Accounted(h, d, run[..|run| - 1], path, content) ==> Accounted(h, d, run, path, content)
    ensures WholeBody(h, run[|run| - 1].call, path, content) ==> Accounted(h, d, run, path, content)
  {
    hide WholeBody, FileAt;
    var init := run[..|run| - 1];
    assert forall k :: 0 <= k < |init| ==> init[k] == run[k];
  }

  lemma NotAPartStep(run: seq<Attempt>, path: string)
    requires run != [] && NotAPart(run, path)
    ensures NotAPart(run[..|run| - 1], path) && PartOf(run[|run| - 1].call.dest) != path
  {
    hide PartOf;
  }

  lemma AccountedFromStart<S>(h: Hash<S>, d: Disk, run: seq<Attempt>, path: string)
    ensures Accounted(h, d, run, path, FileAt(d, path))
  {
  }

  /** Crash-safe install: in every state of any run of calls, each with its own chunking,
      failures and crash point, a path holds what it held before the run or one complete
      body that some call of the run downloaded to it, verified if it had a checksum. */
  lemma {:induction false} RunIsSafe<S>(h: Hash<S>, d: Disk, run: seq<Attempt>, path: string, i: nat)
    requires NotAPart(run, path) && i < |RunStates(h, d, run)|
    ensures Accounted(h, d, run, path, FileAt(RunStates(h, d, run)[i], path))
    decreases |run|
  {
    hide *;
    NoRunNoStates(h, d);
    var init, a := run[..|run| - 1], run[|run| - 1];
    var before := RunStates(h, d, init);
    var content := FileAt(RunStates(h, d, run)[i], path);
    RunStatesStep(h, d, run, i);
    NotAPartStep(run, path);
    AccountedGrows(h, d, run, path, content);
    LastIs(d, before);
    if i < |before| {
      RunIsSafe(h, d, init, path, i);
    } else {
      TraceIsSafe(h, Last(d, before), a.call, path, i - |before|);
      if before == [] {
        AccountedFromStart(h, d, run, path);
      } else {
        RunIsSafe(h, d, init, path, |before| - 1);
      }
    }
  }

  /** The condition is needed: at a path that is some call's temporary file, a crash while
      streaming leaves just the pieces that had arrived. */
  lemma CrashLeavesPieces<S>(h: Hash<S>, d: Disk, c: Call, n: nat)
    requires Created(h, d, c) && n <= |c.chunks|
    ensures var run := [Attempt(c, n + 2)];
            && |RunStates(h, d, run)| == n + 2
            && FileAt(RunStates(h, d, run)[n + 1], c.dest + ".part") == Some(Body(c.chunks[..n]))
  {
    var run := [Attempt(c, n + 2)];
    var t := Trace(h, d, c);
    StreamingStates(d, c, |c.chunks|, n);
    assert t[n + 1] == Partial(d, c, n);
    assert PartOf(c.dest) == c.dest + ".part";
    hide Trace, Streaming, Ending, Present, Body, PartOf;
    assert run[..0] == [];
    NoRunNoStates(h, d);
    LastIs(d, []);
    assert RunStates(h, d, run) == [] + States(h, d, run[0]);
  }
}
