/**
  What an import does to the series directory: `digits` keeps its width while
  the files are moved, so a checked import moves every candidate to the
  episode name it was checked against and records each move in the manifest;
  the directory changes only once the check has passed.
*/
module ImportProperties {
  import opened Wrappers
  import opened Text
  import opened Naming
  import opened Filesystem
  import opened CommandHelper
  import opened Digests
  import opened ImportCommand

  // ---------------------------------------------------------------------------
  // `digits` across one move

  /** The width `digits` returns is never zero. */
  lemma DigitsPositive(base: string, S: set<string>, w: nat)
    requires DigitsIn(base, S) == Ok(w)
    ensures 1 <= w
  {
    DigitsInWidth(base, S, w);
    if Counted(base, S) != {} {
      var f :| f in Counted(base, S);
    }
  }

  /** The extension `episode_filename` copies from an episode name is that name's own extension. */
  lemma ExtensionOfEpisodeName(base: string, number: string, ext: string)
    requires IsExtension(ext)
    ensures Extension(EpisodeName(base, number, ext)) == "." + ext
  {
    var p := EpisodeName(base, number, ext);
    var n := |p| - |ext| - 1;
    assert p[n] == '.' && p[n + 1..] == ext;
    assert p[|p| - 1] == ext[|ext| - 1];
    var x := Extension(p);
    assert x == p[n..];
  }

  /** An episode file's generated name keeps its extension, so it is counted as an episode too. */
  lemma EpisodeStaysEpisode(base: string, w: nat, num: nat, src: string)
    requires ParseEpisode(base, src).Some? && '/' !in src
    ensures var dest := EpisodeFilename(base, w, num, src);
      ParseEpisode(base, dest) == Some(ZeroPad(num, w)) && '/' !in dest
  {
    var number := ParseEpisode(base, src).value;
    var m := |base| + 4 + |number|;
    ExtensionOfEpisodeName(base, number, src[m..]);
    EpisodeFilenameParses(base, w, num, src);
    ZeroPadProperties(num, w);
    var pad := ZeroPad(num, w);
    var x := Extension(src);
    var dest := EpisodeFilename(base, w, num, src);
    forall i | 0 <= i < |dest| ensures dest[i] != '/' {
      if i < |base| {
        assert dest[i] == src[i];
      } else if i < |base| + 3 {
      } else if i < |base| + 3 + |pad| {
        assert dest[i] == pad[i - |base| - 3];
      } else {
        assert dest[i] == x[i - |base| - 3 - |pad|] == src[|src| - |x| + i - |base| - 3 - |pad|];
      }
    }
  }

  /**
    Appending a manifest line and moving an existing file to the name
    `episode_filename` gives it under width `w`, with a number below 10^w,
    leave `digits` at `w`.
  */
  lemma MoveKeepsDigits(base: string, t: Tree, w: nat, num: nat, src: string, line: string)
    requires DigitsIn(base, Entries(base, t)) == Ok(w)
    requires src in t.files && num < Pow10(w)
    ensures Move(Appended(t, line), src, EpisodeFilename(base, w, num, src)).Ok?
    ensures DigitsIn(base, Entries(base, Move(Appended(t, line), src, EpisodeFilename(base, w, num, src)).value)) == Ok(w)
  {
    var dest := EpisodeFilename(base, w, num, src);
    var t' := Move(Appended(t, line), src, dest).value;
    var S, S' := Entries(base, t), Entries(base, t');
    var C, C' := Counted(base, S), Counted(base, S');
    DigitsPositive(base, S, w);
    DigitsInWidth(base, S, w);
    DigestFilenameIsNoEpisode(base);
    EpisodeFilenameParses(base, w, num, src);
    ZeroPadProperties(num, w);
    forall f | f in C' ensures |ParseEpisode(base, f).value| == w {
      if f != dest {
        assert f in C;
      }
    }
    if C != {} {
      var g :| g in C;
      if g != src {
        assert g in C';
      } else {
        EpisodeStaysEpisode(base, w, num, src);
        assert dest in C';
      }
    }
    DigitsInWidth(base, S', w);
  }

  /**
    One pass of `perform_moves` under width `w`: the manifest line for the
    generated name is appended and the file is renamed to it.
  */
  lemma StepMoves(base: string, t: Tree, w: nat, num: nat, c: Candidate)
    requires DigitsIn(base, Entries(base, t)) == Ok(w)
    requires c.path in t.files
    ensures var dest := EpisodeFilename(base, w, num, c.path);
      StepOf(base)(t, num, c) == (Ok(()), Tree(Renamed(t.files, c.path, dest), Some(Lines(t.manifest) + [ManifestLine(c.sha1, dest)])))
  {
  }

  /** The state one pass of `perform_moves` leaves keeps `digits` at `w`. */
  lemma StepKeepsDigits(base: string, t: Tree, w: nat, num: nat, c: Candidate)
    requires DigitsIn(base, Entries(base, t)) == Ok(w)
    requires c.path in t.files && num < Pow10(w)
    ensures var dest := EpisodeFilename(base, w, num, c.path);
      DigitsIn(base, Entries(base, Tree(Renamed(t.files, c.path, dest), Some(Lines(t.manifest) + [ManifestLine(c.sha1, dest)])))) == Ok(w)
  {
    var dest := EpisodeFilename(base, w, num, c.path);
    MoveKeepsDigits(base, t, w, num, c.path, ManifestLine(c.sha1, dest));
    assert Move(Appended(t, ManifestLine(c.sha1, dest)), c.path, dest).value ==
      Tree(Renamed(t.files, c.path, dest), Some(Lines(t.manifest) + [ManifestLine(c.sha1, dest)]));
  }

  // ---------------------------------------------------------------------------
  // A whole `perform_moves`

  /** The paths of the candidates. */
  function Sources(cands: seq<Candidate>): (ps: seq<string>)
    ensures |ps| == |cands| && forall k :: 0 <= k < |cands| ==> ps[k] == cands[k].path
  {
    seq(|cands|, k requires 0 <= k < |cands| => cands[k].path)
  }

  /** The names the candidates are moved to under width `w`, numbered from `start`. */
  function Destinations(base: string, w: nat, start: nat, cands: seq<Candidate>): (ds: seq<string>)
    ensures |ds| == |cands|
    ensures forall k :: 0 <= k < |cands| ==> ds[k] == EpisodeFilename(base, w, start + k, cands[k].path)
  {
    seq(|cands|, k requires 0 <= k < |cands| => EpisodeFilename(base, w, start + k, cands[k].path))
  }

  /** The manifest lines written for the candidates and their destinations. */
  function ManifestLines(cands: seq<Candidate>, dests: seq<string>): (lines: seq<string>)
    requires |dests| == |cands|
    ensures |lines| == |cands| && forall k :: 0 <= k < |cands| ==> lines[k] == ManifestLine(cands[k].sha1, dests[k])
  {
    seq(|cands|, k requires 0 <= k < |cands| => ManifestLine(cands[k].sha1, dests[k]))
  }

  /** What makes the passes from the `i`-th candidate on all succeed in state `t`. */
  ghost predicate Movable(base: string, t: Tree, w: nat, start: nat, cands: seq<Candidate>, i: nat) {
    i <= |cands| &&
    DigitsIn(base, Entries(base, t)) == Ok(w) &&
    start + |cands| <= Pow10(w) &&
    (forall k :: i <= k < |cands| ==>
      cands[k].path in t.files && EpisodeFilename(base, w, start + k, cands[k].path) !in t.files) &&
    (forall k, l :: i <= k < l < |cands| ==> cands[k].path != cands[l].path)
  }

  /**
    The files after renaming `ps[k]` to `ds[k]` for each `k` from `i` on, in
    order; a source that is missing by then is skipped.
  */
  function Relocated(files: map<string, seq<byte>>, ps: seq<string>, ds: seq<string>, i: nat): map<string, seq<byte>>
    requires i <= |ps| == |ds|
    decreases |ps| - i
  {
    if i == |ps| then files
    else Relocated(if ps[i] in files then Renamed(files, ps[i], ds[i]) else files, ps, ds, i + 1)
  }

  /** What makes the renames from the `i`-th on act on distinct existing sources and fresh distinct names. */
  ghost predicate Relocatable(files: map<string, seq<byte>>, ps: seq<string>, ds: seq<string>, i: nat) {
    i <= |ps| == |ds| &&
    (forall k :: i <= k < |ps| ==> ps[k] in files && ds[k] !in files) &&
    (forall k, l :: i <= k < l < |ps| ==> ps[k] != ps[l] && ds[k] != ds[l])
  }

  lemma RelocatableStep(files: map<string, seq<byte>>, ps: seq<string>, ds: seq<string>, i: nat)
    requires Relocatable(files, ps, ds, i) && i < |ps|
    ensures Relocatable(Renamed(files, ps[i], ds[i]), ps, ds, i + 1)
  {
    var files1 := Renamed(files, ps[i], ds[i]);
    forall k | i + 1 <= k < |ps| ensures ps[k] in files1 && ds[k] !in files1 {
      assert ps[k] != ps[i] && ds[k] != ds[i];
    }
  }

  /** Each destination ends up with its source's content. */
  lemma {:induction false} RelocatedMoves(files: map<string, seq<byte>>, ps: seq<string>, ds: seq<string>, i: nat)
    requires Relocatable(files, ps, ds, i)
    ensures forall k :: i <= k < |ps| ==>
      ds[k] in Relocated(files, ps, ds, i) && Relocated(files, ps, ds, i)[ds[k]] == files[ps[k]]
    decreases |ps| - i
  {
    if i < |ps| {
      var files1 := Renamed(files, ps[i], ds[i]);
      RelocatableStep(files, ps, ds, i);
      RelocatedMoves(files1, ps, ds, i + 1);
      RelocatedKeeps(files1, ps, ds, i + 1);
      assert forall k :: i + 1 <= k < |ps| ==> ds[i] != ps[k];
    }
  }

  /** No source is left. */
  lemma {:induction false} RelocatedSources(files: map<string, seq<byte>>, ps: seq<string>, ds: seq<string>, i: nat)
    requires Relocatable(files, ps, ds, i)
    ensures forall k :: i <= k < |ps| ==> ps[k] !in Relocated(files, ps, ds, i)
    decreases |ps| - i
  {
    if i < |ps| {
      var files1 := Renamed(files, ps[i], ds[i]);
      RelocatableStep(files, ps, ds, i);
      RelocatedSources(files1, ps, ds, i + 1);
      RelocatedOnly(files1, ps, ds, i + 1);
    }
  }

  /** A file that is not a source keeps its content. */
  lemma {:induction false} RelocatedKeeps(files: map<string, seq<byte>>, ps: seq<string>, ds: seq<string>, i: nat)
    requires Relocatable(files, ps, ds, i)
    ensures forall p :: p in files && (forall k :: i <= k < |ps| ==> p != ps[k]) ==>
      p in Relocated(files, ps, ds, i) && Relocated(files, ps, ds, i)[p] == files[p]
    decreases |ps| - i
  {
    if i < |ps| {
      var files1 := Renamed(files, ps[i], ds[i]);
      RelocatableStep(files, ps, ds, i);
      RelocatedKeeps(files1, ps, ds, i + 1);
    }
  }

  /** Nothing but the old files and the destinations is there. */
  lemma {:induction false} RelocatedOnly(files: map<string, seq<byte>>, ps: seq<string>, ds: seq<string>, i: nat)
    requires Relocatable(files, ps, ds, i)
    ensures forall p :: p in Relocated(files, ps, ds, i) ==> p in files || exists k :: i <= k < |ps| && p == ds[k]
    decreases |ps| - i
  {
    if i < |ps| {
      var files1 := Renamed(files, ps[i], ds[i]);
      RelocatableStep(files, ps, ds, i);
      RelocatedOnly(files1, ps, ds, i + 1);
    }
  }

  /** Candidates numbered differently get different names. */
  lemma DestinationsDistinct(base: string, w: nat, start: nat, cands: seq<Candidate>, k: nat, l: nat)
    requires k < l < |cands|
    ensures Destinations(base, w, start, cands)[k] != Destinations(base, w, start, cands)[l]
  {
    var ds := Destinations(base, w, start, cands);
    if ds[k] == ds[l] {
      EpisodeFilenameInjective(base, w, start + k, cands[k].path, start + l, cands[l].path);
    }
  }

  /**
    All the renames: each destination holds its source's content, no source
    is left, every other file keeps its content, and nothing else appears.
  */
  lemma RelocatedAll(files: map<string, seq<byte>>, ps: seq<string>, ds: seq<string>)
    requires Relocatable(files, ps, ds, 0)
    ensures var m := Relocated(files, ps, ds, 0);
      (forall k :: 0 <= k < |ps| ==> ds[k] in m && m[ds[k]] == files[ps[k]]) &&
      (forall k :: 0 <= k < |ps| ==> ps[k] !in m) &&
      (forall p :: p in files && p !in ps ==> p in m && m[p] == files[p]) &&
      (forall p :: p in m ==> p in files || p in ds)
  {
    RelocatedMoves(files, ps, ds, 0);
    RelocatedSources(files, ps, ds, 0);
    RelocatedKeeps(files, ps, ds, 0);
    RelocatedOnly(files, ps, ds, 0);
    var m := Relocated(files, ps, ds, 0);
    forall p | p in m ensures p in files || p in ds {
      if p !in files {
        var k :| 0 <= k < |ps| && p == ds[k];
      }
    }
  }

  /** Appending the `i`-th element, then the rest, appends the suffix from `i`. */
  lemma AppendSuffix<T>(a: seq<T>, s: seq<T>, i: nat)
    requires i < |s|
    ensures (a + [s[i]]) + s[i + 1..] == a + s[i..]
  {
    assert s[i..] == [s[i]] + s[i + 1..];
  }

  /** The state after the `i`-th pass, when it succeeds. */
  function AfterPass(base: string, t: Tree, w: nat, start: nat, cands: seq<Candidate>, i: nat): Tree
    requires i < |cands| && cands[i].path in t.files
  {
    var dest := EpisodeFilename(base, w, start + i, cands[i].path);
    Tree(Renamed(t.files, cands[i].path, dest), Some(Lines(t.manifest) + [ManifestLine(cands[i].sha1, dest)]))
  }

  /** A pass that succeeds hands its state on to the next one. */
  lemma MovesFromOk(step: (Tree, nat, Candidate) -> (Result<()>, Tree), t: Tree, t1: Tree, start: nat, cands: seq<Candidate>, i: nat)
    requires i < |cands| && step(t, start + i, cands[i]) == (Ok(()), t1)
    ensures MovesFrom(step, t, start, cands, i) == MovesFrom(step, t1, start, cands, i + 1)
  {
  }

  /** A pass that fails ends `perform_moves` with its error and the state it leaves. */
  lemma MovesFromErr(step: (Tree, nat, Candidate) -> (Result<()>, Tree), t: Tree, start: nat, cands: seq<Candidate>, i: nat)
    requires i < |cands| && step(t, start + i, cands[i]).0.Err?
    ensures MovesFrom(step, t, start, cands, i) == step(t, start + i, cands[i])
  {
  }

  /** The `i`-th pass leaves `digits` at `w`. */
  lemma PassKeepsDigits(base: string, t: Tree, w: nat, start: nat, cands: seq<Candidate>, i: nat)
    requires i < |cands| && cands[i].path in t.files && start + i < Pow10(w)
    requires DigitsIn(base, Entries(base, t)) == Ok(w)
    ensures DigitsIn(base, Entries(base, AfterPass(base, t, w, start, cands, i))) == Ok(w)
  {
    StepKeepsDigits(base, t, w, start + i, cands[i]);
  }

  /** After the `i`-th pass the later files are still there and their names still free. */
  lemma PassKeepsFree(base: string, t: Tree, w: nat, start: nat, cands: seq<Candidate>, i: nat)
    requires Movable(base, t, w, start, cands, i) && i < |cands|
    ensures var t1 := AfterPass(base, t, w, start, cands, i);
      forall k :: i + 1 <= k < |cands| ==>
        cands[k].path in t1.files && EpisodeFilename(base, w, start + k, cands[k].path) !in t1.files
  {
    var ds := Destinations(base, w, start, cands);
    forall k | i < k < |cands| ensures ds[k] != ds[i] {
      DestinationsDistinct(base, w, start, cands, i, k);
    }
  }

  /**
    The state the passes from the `i`-th on leave when they all succeed: the
    candidates' paths renamed in order, their manifest lines appended in order.
  */
  ghost function Moved(base: string, t: Tree, w: nat, start: nat, cands: seq<Candidate>, i: nat): Tree
    requires i <= |cands|
  {
    var ds := Destinations(base, w, start, cands);
    Tree(Relocated(t.files, Sources(cands), ds, i),
         if i == |cands| then t.manifest else Some(Lines(t.manifest) + ManifestLines(cands, ds)[i..]))
  }

  /**
    When the candidates from the `i`-th on are movable, the passes from the
    `i`-th on all succeed, leaving the state `Moved` describes.
  */
  lemma {:induction false} MovesFromMoved(base: string, t: Tree, w: nat, start: nat, cands: seq<Candidate>, i: nat)
    requires Movable(base, t, w, start, cands, i)
    ensures MovesFrom(StepOf(base), t, start, cands, i) == (Ok(()), Moved(base, t, w, start, cands, i))
    decreases |cands| - i, 1
  {
    if i == |cands| {
      MovedNone(base, t, w, start, cands);
    } else {
      PassThenRest(base, t, w, start, cands, i);
      MovedStep(base, t, w, start, cands, i);
      RestMoved(base, t, w, start, cands, i);
    }
  }

  /** The induction step of `MovesFromMoved`: the passes after a movable one. */
  lemma {:induction false} RestMoved(base: string, t: Tree, w: nat, start: nat, cands: seq<Candidate>, i: nat)
    requires Movable(base, t, w, start, cands, i) && i < |cands|
    ensures MovesFrom(StepOf(base), AfterPass(base, t, w, start, cands, i), start, cands, i + 1) ==
      (Ok(()), Moved(base, AfterPass(base, t, w, start, cands, i), w, start, cands, i + 1))
    decreases |cands| - i, 0
  {
    PassKeepsMovable(base, t, w, start, cands, i);
    MovesFromMoved(base, AfterPass(base, t, w, start, cands, i), w, start, cands, i + 1);
    assert MovesFrom(StepOf(base), AfterPass(base, t, w, start, cands, i), start, cands, i + 1) == (Ok(()), Moved(base, AfterPass(base, t, w, start, cands, i), w, start, cands, i + 1));
  }

  /** A movable pass succeeds and hands the state `AfterPass` describes to the next one. */
  lemma PassThenRest(base: string, t: Tree, w: nat, start: nat, cands: seq<Candidate>, i: nat)
    requires Movable(base, t, w, start, cands, i) && i < |cands|
    ensures MovesFrom(StepOf(base), t, start, cands, i) == MovesFrom(StepOf(base), AfterPass(base, t, w, start, cands, i), start, cands, i + 1)
  {
    assert cands[i].path in t.files;
    StepMoves(base, t, w, start + i, cands[i]);
    MovesFromOk(StepOf(base), t, AfterPass(base, t, w, start, cands, i), start, cands, i);
  }

  /** With no pass left, nothing changes. */
  lemma MovedNone(base: string, t: Tree, w: nat, start: nat, cands: seq<Candidate>)
    ensures Moved(base, t, w, start, cands, |cands|) == t
  {
  }

  /** After a pass over movable candidates, the rest are still movable. */
  lemma PassKeepsMovable(base: string, t: Tree, w: nat, start: nat, cands: seq<Candidate>, i: nat)
    requires Movable(base, t, w, start, cands, i) && i < |cands|
    ensures Movable(base, AfterPass(base, t, w, start, cands, i), w, start, cands, i + 1)
  {
    PassKeepsDigits(base, t, w, start, cands, i);
    PassKeepsFree(base, t, w, start, cands, i);
  }

  /** The state left from the `i`-th pass on is the one left from the next pass on, after the `i`-th. */
  lemma MovedStep(base: string, t: Tree, w: nat, start: nat, cands: seq<Candidate>, i: nat)
    requires i < |cands| && cands[i].path in t.files
    ensures Moved(base, AfterPass(base, t, w, start, cands, i), w, start, cands, i + 1) == Moved(base, t, w, start, cands, i)
  {
    var ds := Destinations(base, w, start, cands);
    var ps := Sources(cands);
    var ls := ManifestLines(cands, ds);
    var t1 := AfterPass(base, t, w, start, cands, i);
    assert t1.files == Renamed(t.files, ps[i], ds[i]);
    assert Relocated(t1.files, ps, ds, i + 1) == Relocated(t.files, ps, ds, i);
    AppendSuffix(Lines(t.manifest), ls, i);
    if i + 1 == |cands| {
      assert ls[i + 1..] == [];
      assert Lines(t1.manifest) + ls[i + 1..] == Lines(t1.manifest);
    }
  }

  /** Movable candidates are renamed from distinct existing paths to distinct free names. */
  lemma MovableRelocatable(base: string, t: Tree, w: nat, start: nat, cands: seq<Candidate>)
    requires Movable(base, t, w, start, cands, 0)
    ensures Relocatable(t.files, Sources(cands), Destinations(base, w, start, cands), 0)
  {
    var ds := Destinations(base, w, start, cands);
    forall k, l | 0 <= k < l < |cands| ensures ds[k] != ds[l] {
      DestinationsDistinct(base, w, start, cands, k, l);
    }
  }

  /**
    `perform_moves` where `digits` is settled on `w`, every path exists, no
    path is given twice, every number is below 10^w and every generated name
    is free: it succeeds, every candidate is renamed to its episode name with
    its content, one manifest line per candidate is appended in order, and
    nothing else changes.
  */
  lemma PerformMovesSucceeds(base: string, t: Tree, w: nat, start: nat, cands: seq<Candidate>)
    requires Movable(base, t, w, start, cands, 0)
    ensures var (r, t') := MovesFrom(StepOf(base), t, start, cands, 0);
      var ds := Destinations(base, w, start, cands);
      r == Ok(()) &&
      t'.manifest == (if cands == [] then t.manifest else Some(Lines(t.manifest) + ManifestLines(cands, ds))) &&
      (forall k :: 0 <= k < |cands| ==> ds[k] in t'.files && t'.files[ds[k]] == t.files[cands[k].path]) &&
      (forall k :: 0 <= k < |cands| ==> cands[k].path !in t'.files) &&
      (forall p :: p in t.files && p !in Sources(cands) ==> p in t'.files && t'.files[p] == t.files[p]) &&
      (forall p :: p in t'.files ==> p in t.files || p in ds)
  {
    var ds := Destinations(base, w, start, cands);
    var ps := Sources(cands);
    MovesFromMoved(base, t, w, start, cands, 0);
    assert ManifestLines(cands, ds)[0..] == ManifestLines(cands, ds);
    assert cands == [] <==> 0 == |cands|;
    MovableRelocatable(base, t, w, start, cands);
    RelocatedAll(t.files, ps, ds);
  }

  // ---------------------------------------------------------------------------
  // A whole import once the first number is known

  /** The names `episode_filename` gives the paths under width `w`, numbered from `start`. */
  function EpisodeNames(base: string, w: nat, start: nat, paths: seq<string>): (ns: seq<string>)
    ensures |ns| == |paths|
    ensures forall k :: 0 <= k < |paths| ==> ns[k] == EpisodeFilename(base, w, start + k, paths[k])
  {
    seq(|paths|, k requires 0 <= k < |paths| => EpisodeFilename(base, w, start + k, paths[k]))
  }

  /**
    A passed `sanity_check` on distinct paths, in a directory whose `digits`
    is `w`, with every number below 10^w, leaves the moves nothing to trip on.
  */
  lemma SanityMovable(base: string, t: Tree, w: nat, start: nat, paths: seq<string>, sha1: Sha1Function)
    requires Sanity(base, t, start, paths, sha1) == Ok(true)
    requires DigitsIn(base, Entries(base, t)) == Ok(w)
    requires forall k, l :: 0 <= k < l < |paths| ==> paths[k] != paths[l]
    requires start + |paths| <= Pow10(w)
    ensures forall k :: 0 <= k < |paths| ==> paths[k] in t.files
    ensures Movable(base, t, w, start, DigestedCandidates(t.files, paths, sha1), 0)
  {
    SanityAccepts(base, t, start, paths, sha1);
    var cands := DigestedCandidates(t.files, paths, sha1);
    forall k | 0 <= k < |cands|
      ensures cands[k].path in t.files && EpisodeFilename(base, w, start + k, cands[k].path) !in t.files
    {
      assert Accepted(base, t, start + k, paths[k]);
    }
  }

  /** After a passed check whose moves all succeed, `run` exits with 0 in the state the moves leave. */
  lemma ImportMoves(base: string, t: Tree, w: nat, start: nat, paths: seq<string>, sha1: Sha1Function)
    requires Sanity(base, t, start, paths, sha1) == Ok(true)
    requires DigitsIn(base, Entries(base, t)) == Ok(w)
    requires forall k, l :: 0 <= k < l < |paths| ==> paths[k] != paths[l]
    requires start + |paths| <= Pow10(w)
    ensures forall k :: 0 <= k < |paths| ==> paths[k] in t.files
    ensures var (moved, t') := MovesFrom(StepOf(base), t, start, DigestedCandidates(t.files, paths, sha1), 0);
      moved == Ok(()) && ImportFrom(base, t, start, paths, sha1) == (Ok(0), t')
  {
    SanityMovable(base, t, w, start, paths, sha1);
    PerformMovesSucceeds(base, t, w, start, DigestedCandidates(t.files, paths, sha1));
  }

  /**
    `run` after a passed check, on distinct paths, with `digits` at `w` and
    every number below 10^w: it exits with 0 and every path is renamed to its
    episode name under width `w`, keeping its content; with no paths nothing
    changes.
  */
  lemma ImportSucceeds(base: string, t: Tree, w: nat, start: nat, paths: seq<string>, sha1: Sha1Function)
    requires Sanity(base, t, start, paths, sha1) == Ok(true)
    requires DigitsIn(base, Entries(base, t)) == Ok(w)
    requires forall k, l :: 0 <= k < l < |paths| ==> paths[k] != paths[l]
    requires start + |paths| <= Pow10(w)
    ensures var (r, t') := ImportFrom(base, t, start, paths, sha1);
      r == Ok(0) &&
      (paths == [] ==> t' == t) &&
      forall k :: 0 <= k < |paths| ==>
        var dest := EpisodeFilename(base, w, start + k, paths[k]);
        paths[k] in t.files && paths[k] !in t'.files && dest in t'.files && t'.files[dest] == t.files[paths[k]]
  {
    SanityMovable(base, t, w, start, paths, sha1);
    var cands := DigestedCandidates(t.files, paths, sha1);
    PerformMovesSucceeds(base, t, w, start, cands);
    ImportMoves(base, t, w, start, paths, sha1);
  }

  /** Under the same conditions, the files not named are left as they were, and no other file appears. */
  lemma ImportKeepsOthers(base: string, t: Tree, w: nat, start: nat, paths: seq<string>, sha1: Sha1Function)
    requires Sanity(base, t, start, paths, sha1) == Ok(true)
    requires DigitsIn(base, Entries(base, t)) == Ok(w)
    requires forall k, l :: 0 <= k < l < |paths| ==> paths[k] != paths[l]
    requires start + |paths| <= Pow10(w)
    ensures var (r, t') := ImportFrom(base, t, start, paths, sha1);
      (forall p :: p in t.files && p !in paths ==> p in t'.files && t'.files[p] == t.files[p]) &&
      (forall p :: p in t'.files ==> p in t.files || p in EpisodeNames(base, w, start, paths))
  {
    SanityMovable(base, t, w, start, paths, sha1);
    var cands := DigestedCandidates(t.files, paths, sha1);
    PerformMovesSucceeds(base, t, w, start, cands);
    ImportMoves(base, t, w, start, paths, sha1);
    assert Sources(cands) == paths;
    assert EpisodeNames(base, w, start, paths) == Destinations(base, w, start, cands);
  }

  /**
    Under the same conditions, the manifest keeps its lines and gains one
    per path, in order: the SHA-1 of the file, two spaces and its new name;
    it is created when there is a path to record.
  */
  lemma ImportRecords(base: string, t: Tree, w: nat, start: nat, paths: seq<string>, sha1: Sha1Function)
    requires Sanity(base, t, start, paths, sha1) == Ok(true)
    requires DigitsIn(base, Entries(base, t)) == Ok(w)
    requires forall k, l :: 0 <= k < l < |paths| ==> paths[k] != paths[l]
    requires start + |paths| <= Pow10(w)
    ensures var (r, t') := ImportFrom(base, t, start, paths, sha1);
      var old_lines := Lines(t.manifest);
      (paths != [] ==> t'.manifest.Some?) &&
      |Lines(t'.manifest)| == |old_lines| + |paths| &&
      Lines(t'.manifest)[..|old_lines|] == old_lines &&
      forall k :: 0 <= k < |paths| ==>
        paths[k] in t.files &&
        Lines(t'.manifest)[|old_lines| + k] == HexDigest(Sha1, t.files[paths[k]], sha1) + "  " + EpisodeFilename(base, w, start + k, paths[k])
  {
    SanityMovable(base, t, w, start, paths, sha1);
    var cands := DigestedCandidates(t.files, paths, sha1);
    PerformMovesSucceeds(base, t, w, start, cands);
    ImportMoves(base, t, w, start, paths, sha1);
  }

  /**
    A path given twice that passes the check under two numbers is moved on
    the first pass; the second pass appends its manifest line and then fails
    on the missing source, leaving the first move and both lines in place.
  */
  lemma ImportTwice(base: string, t: Tree, w: nat, start: nat, p: string, sha1: Sha1Function)
    requires Sanity(base, t, start, [p, p], sha1) == Ok(true)
    requires DigitsIn(base, Entries(base, t)) == Ok(w)
    requires start < Pow10(w)
    ensures var (r, t') := ImportFrom(base, t, start, [p, p], sha1);
      var dest := EpisodeFilename(base, w, start, p);
      p in t.files && r == Err(FileNotFound(p)) &&
      p !in t'.files && dest in t'.files && t'.files[dest] == t.files[p] &&
      |Lines(t'.manifest)| == |Lines(t.manifest)| + 2
  {
    SanityAccepts(base, t, start, [p, p], sha1);
    assert Accepted(base, t, start, [p, p][0]);
    var cands := DigestedCandidates(t.files, [p, p], sha1);
    assert cands == [cands[0], cands[0]];
    MovesTwice(base, t, w, start, cands[0]);
  }

  /** The two passes of `perform_moves` over the same candidate, numbered from `start`. */
  lemma MovesTwice(base: string, t: Tree, w: nat, start: nat, c: Candidate)
    requires DigitsIn(base, Entries(base, t)) == Ok(w)
    requires c.path in t.files && start < Pow10(w) && EpisodeFilename(base, w, start, c.path) !in t.files
    ensures var (r, t') := MovesFrom(StepOf(base), t, start, [c, c], 0);
      var dest := EpisodeFilename(base, w, start, c.path);
      r == Err(FileNotFound(c.path)) &&
      c.path !in t'.files && dest in t'.files && t'.files[dest] == t.files[c.path] &&
      |Lines(t'.manifest)| == |Lines(t.manifest)| + 2
  {
    MovesTwiceState(base, t, w, start, c);
  }

  /** The state the two passes over the same candidate leave behind. */
  lemma MovesTwiceState(base: string, t: Tree, w: nat, start: nat, c: Candidate)
    requires DigitsIn(base, Entries(base, t)) == Ok(w)
    requires c.path in t.files && start < Pow10(w) && EpisodeFilename(base, w, start, c.path) != c.path
    ensures var dest := EpisodeFilename(base, w, start, c.path);
      var line1 := ManifestLine(c.sha1, dest);
      var line2 := ManifestLine(c.sha1, EpisodeFilename(base, w, start + 1, c.path));
      MovesFrom(StepOf(base), t, start, [c, c], 0) ==
        (Err(FileNotFound(c.path)), Tree(Renamed(t.files, c.path, dest), Some(Lines(t.manifest) + [line1] + [line2])))
  {
    var dest := EpisodeFilename(base, w, start, c.path);
    var t1 := Tree(Renamed(t.files, c.path, dest), Some(Lines(t.manifest) + [ManifestLine(c.sha1, dest)]));
    FirstOfTwo(base, t, w, start, c);
    StepKeepsDigits(base, t, w, start, c);
    assert c.path !in t1.files;
    SecondOfTwo(base, t1, w, start, c);
  }

  /** The first of the two passes moves the file. */
  lemma FirstOfTwo(base: string, t: Tree, w: nat, start: nat, c: Candidate)
    requires DigitsIn(base, Entries(base, t)) == Ok(w)
    requires c.path in t.files
    ensures var dest := EpisodeFilename(base, w, start, c.path);
      MovesFrom(StepOf(base), t, start, [c, c], 0) ==
        MovesFrom(StepOf(base), Tree(Renamed(t.files, c.path, dest), Some(Lines(t.manifest) + [ManifestLine(c.sha1, dest)])), start, [c, c], 1)
  {
    var dest := EpisodeFilename(base, w, start, c.path);
    StepMoves(base, t, w, start, c);
    MovesFromOk(StepOf(base), t, Tree(Renamed(t.files, c.path, dest), Some(Lines(t.manifest) + [ManifestLine(c.sha1, dest)])), start, [c, c], 0);
  }

  /** The second of the two passes finds the file gone. */
  lemma SecondOfTwo(base: string, t1: Tree, w: nat, start: nat, c: Candidate)
    requires DigitsIn(base, Entries(base, t1)) == Ok(w)
    requires c.path !in t1.files
    ensures MovesFrom(StepOf(base), t1, start, [c, c], 1) ==
      (Err(FileNotFound(c.path)), Tree(t1.files, Some(Lines(t1.manifest) + [ManifestLine(c.sha1, EpisodeFilename(base, w, start + 1, c.path))])))
  {
    PassOnMissing(base, t1, w, start + 1, c);
    MovesFromErr(StepOf(base), t1, start, [c, c], 1);
  }

  /** A pass whose source is gone appends its manifest line, then fails and moves nothing. */
  lemma PassOnMissing(base: string, t: Tree, w: nat, num: nat, c: Candidate)
    requires DigitsIn(base, Entries(base, t)) == Ok(w)
    requires c.path !in t.files
    ensures var (r, t') := StepOf(base)(t, num, c);
      r == Err(FileNotFound(c.path)) && t'.files == t.files &&
      t'.manifest == Some(Lines(t.manifest) + [ManifestLine(c.sha1, EpisodeFilename(base, w, num, c.path))])
  {
  }

  // ---------------------------------------------------------------------------
  // `run`

  /** `-nN` starts the series at `N`, and the paths are the arguments after it. */
  lemma StartOption(base: string, t: Tree, n: nat, rest: seq<string>)
    ensures StartNumber(base, t, ["-n" + DecimalString(n)] + rest) == Ok(n)
    ensures CandidatePaths(["-n" + DecimalString(n)] + rest) == rest
  {
    var arg := "-n" + DecimalString(n);
    assert IsNumberOption(arg) && arg[2..] == DecimalString(n);
    ToIOfDecimal(n);
    assert (["-n" + DecimalString(n)] + rest)[1..] == rest;
  }

  /**
    What follows `-n` is read by `to_i`: nothing reads as 0 and `-N` as the
    negative number, start numbers that `run` refuses with `ArgumentError`
    before anything is read or changed; no arguments at all are refused too.
  */
  lemma StartTextBelowOne(base: string, t: Tree, n: nat, rest: seq<string>, sha1: Sha1Function)
    ensures ToI("") == 0
    ensures ToI("-" + DecimalString(n)) == 0 - n as int
    ensures ImportRun(base, t, [], sha1) == (Err(ArgumentError), t)
    ensures ImportRun(base, t, ["-n"] + rest, sha1) == (Err(ArgumentError), t)
    ensures ImportRun(base, t, ["-n-" + DecimalString(n)] + rest, sha1) == (Err(ArgumentError), t)
  {
    var d := DecimalString(n);
    assert ("-" + d)[0] == '-' && ("-" + d)[1..] == d;
    LeadingNumberOfDigits(d);
    DecimalStringValue(n);
    var bare, neg := ["-n"] + rest, ["-n-" + d] + rest;
    assert IsNumberOption(bare[0]) && bare[0][2..] == "";
    assert IsNumberOption(neg[0]) && neg[0][2..] == "-" + d;
  }

  /**
    Once the first number is known, the directory changes, or `run` exits
    with 0, only after `sanity_check` has passed; it exits with 1 exactly
    when the check fails without raising, and then nothing changes.
  */
  lemma ImportChangesOnlyAfterCheck(base: string, t: Tree, start: nat, paths: seq<string>, sha1: Sha1Function)
    ensures var (r, t') := ImportFrom(base, t, start, paths, sha1);
      (t' != t || r == Ok(0) ==> Sanity(base, t, start, paths, sha1) == Ok(true)) &&
      (r == Ok(1) <==> Sanity(base, t, start, paths, sha1) == Ok(false)) &&
      (r == Ok(1) ==> t' == t)
  {
  }

  /**
    `run` changes the directory, or exits with 0, only once a start number of
    at least 1 is known and `sanity_check` has passed; exiting with 1 means
    the check failed and the directory is untouched.
  */
  lemma RunChangesOnlyAfterCheck(base: string, t: Tree, args: seq<string>, sha1: Sha1Function)
    ensures var (r, t') := ImportRun(base, t, args, sha1);
      (t' != t || r == Ok(0) || r == Ok(1) ==>
        |args| >= 1 && StartNumber(base, t, args).Ok? && StartNumber(base, t, args).value >= 1) &&
      (t' != t || r == Ok(0) ==>
        Sanity(base, t, StartNumber(base, t, args).value, CandidatePaths(args), sha1) == Ok(true)) &&
      (r == Ok(1) ==>
        t' == t && Sanity(base, t, StartNumber(base, t, args).value, CandidatePaths(args), sha1) == Ok(false))
  {
    if |args| >= 1 && StartNumber(base, t, args).Ok? && StartNumber(base, t, args).value >= 1 {
      ImportChangesOnlyAfterCheck(base, t, StartNumber(base, t, args).value, CandidatePaths(args), sha1);
    }
  }
}
