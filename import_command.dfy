/**
  `org import [-nN] files...`: checks every candidate file (it exists, its
  name holds its episode number, it has an extension, its destination is
  free, its announced CRC-32 matches), then appends one manifest line per
  file and moves it to its episode name.
*/
module ImportCommand {
  import opened Wrappers
  import opened Text
  import opened Naming
  import opened Filesystem
  import opened Digests
  import opened CommandHelper
  import opened ImportNumbers

  /** `ImportCommand::FileInfo`: a candidate path and the digests computed for it. */
  class FileInfo {
    const path: string
    var sha1: Option<string>
    var crc32: Option<string>

    constructor (path: string)
      ensures this.path == path && sha1 == None && crc32 == None
    {
      this.path := path;
      sha1 := None;
      crc32 := None;
    }
  }

  function Paths(files: seq<FileInfo>): (ps: seq<string>)
    ensures |ps| == |files| && forall i :: 0 <= i < |files| ==> ps[i] == files[i].path
  {
    seq(|files|, i requires 0 <= i < |files| => files[i].path)
  }

  // ---------------------------------------------------------------------------
  // `next_number_in_series`

  /** The number the series continues with, for the directory state `t`. */
  function NextNumber(base: string, t: Tree): Result<int> {
    SeriesFrom(EpisodeNumbers(EpisodesOf(base, t)), 1)
  }

  /** `next_number_in_series`: every yielded number must be the one expected, starting at 1. */
  method NextNumberInSeries(d: Directory) returns (r: Result<int>)
    ensures r == NextNumber(d.base, d.State())
  {
    var ys := EachEpisodeFile(d);
    ghost var nums := EpisodeNumbers(ys);
    var next := 1;
    var i := 0;
    while i < |ys|
      invariant 0 <= i <= |ys|
      invariant SeriesFrom(nums, 1) == SeriesFrom(nums[i..], next)
    {
      assert nums[i..][1..] == nums[i + 1..];
      var num := ToI(ys[i].number);
      if num != next {
        return Err(InconsistentNumbering(next, num));
      }
      next := num + 1;
      i := i + 1;
    }
    return Ok(next);
  }

  // ---------------------------------------------------------------------------
  // `sanity_check`, first loop

  /** The checks of the first loop of `sanity_check` that `path` passes as episode `num`. */
  predicate Accepted(base: string, t: Tree, num: nat, path: string) {
    path in t.files && num in NumbersInFilename(path) && Extension(path) != "" &&
    EpisodeFilenameIn(base, t, num, path).Ok? && EpisodeFilenameIn(base, t, num, path).value !in t.files
  }

  /**
    The checks of the first loop of `sanity_check` for one path as episode
    `num`, in order: `Ok(true)` lets the loop go on, `Ok(false)` ends it, and
    `episode_filename` may raise.
  */
  function CandidateCheck(base: string, t: Tree, num: nat, path: string): Result<bool> {
    if path !in t.files || num !in NumbersInFilename(path) || Extension(path) == "" then Ok(false)
    else
      match EpisodeFilenameIn(base, t, num, path)
      case Err(e) => Err(e)
      case Ok(dest) => Ok(dest !in t.files)
  }

  /** The checks of the first loop as a function of the episode number and the path. */
  function CheckOf(base: string, t: Tree): (nat, string) -> Result<bool> {
    (num: nat, path: string) => CandidateCheck(base, t, num, path)
  }

  /** The verdicts of `check` on the paths, numbered from `num`. */
  function Verdicts(check: (nat, string) -> Result<bool>, num: nat, paths: seq<string>): (vs: seq<Result<bool>>)
    ensures |vs| == |paths|
    decreases |paths|
  {
    if paths == [] then [] else [check(num, paths[0])] + Verdicts(check, num + 1, paths[1..])
  }

  /** The verdict at position `i` is that of the `i`-th path, numbered `num + i`. */
  lemma {:induction false} VerdictAt(check: (nat, string) -> Result<bool>, num: nat, paths: seq<string>, i: nat)
    requires i < |paths|
    ensures Verdicts(check, num, paths)[i] == check(num + i, paths[i])
    decreases i
  {
    if i > 0 {
      VerdictAt(check, num + 1, paths[1..], i - 1);
      assert paths[1..][i - 1] == paths[i];
    }
  }

  /** A loop that stops at the first verdict that is not a pass, with that verdict. */
  function FirstFailure(vs: seq<Result<bool>>): Result<bool>
    decreases |vs|
  {
    if vs == [] then Ok(true) else if vs[0] != Ok(true) then vs[0] else FirstFailure(vs[1..])
  }

  /** The loop passes exactly when every verdict is a pass. */
  lemma {:induction false} FirstFailurePasses(vs: seq<Result<bool>>)
    ensures FirstFailure(vs) == Ok(true) <==> forall i :: 0 <= i < |vs| ==> vs[i] == Ok(true)
    decreases |vs|
  {
    if vs != [] {
      FirstFailurePasses(vs[1..]);
      assert forall i :: 0 < i < |vs| ==> vs[i] == vs[1..][i - 1];
    }
  }

  /** Otherwise it ends with the first verdict that is not a pass. */
  lemma {:induction false} FirstFailureAt(vs: seq<Result<bool>>, k: nat)
    requires k < |vs| && vs[k] != Ok(true)
    requires forall i :: 0 <= i < k ==> vs[i] == Ok(true)
    ensures FirstFailure(vs) == vs[k]
    decreases k
  {
    if k > 0 {
      assert forall i :: 0 <= i < k - 1 ==> vs[1..][i] == vs[i + 1];
      FirstFailureAt(vs[1..], k - 1);
    }
  }

  /** The first loop of `sanity_check`, from episode `num` on: the first failure ends it. */
  function CandidatesOk(base: string, t: Tree, num: nat, paths: seq<string>): Result<bool> {
    FirstFailure(Verdicts(CheckOf(base, t), num, paths))
  }

  /** The first loop accepts exactly when every path passes every check with its own number. */
  lemma CandidatesAccepted(base: string, t: Tree, num: nat, paths: seq<string>)
    ensures CandidatesOk(base, t, num, paths) == Ok(true) <==>
      forall i :: 0 <= i < |paths| ==> Accepted(base, t, num + i, paths[i])
  {
    var vs := Verdicts(CheckOf(base, t), num, paths);
    FirstFailurePasses(vs);
    forall i | 0 <= i < |paths| ensures vs[i] == Ok(true) <==> Accepted(base, t, num + i, paths[i]) {
      VerdictAccepts(base, t, num, paths, i);
    }
  }

  /** The `i`-th verdict of the first loop is a pass exactly when the `i`-th path is accepted. */
  lemma VerdictAccepts(base: string, t: Tree, num: nat, paths: seq<string>, i: nat)
    requires i < |paths|
    ensures Verdicts(CheckOf(base, t), num, paths)[i] == Ok(true) <==> Accepted(base, t, num + i, paths[i])
  {
    var v := Verdicts(CheckOf(base, t), num, paths)[i];
    VerdictAt(CheckOf(base, t), num, paths, i);
    CheckOfAccepts(base, t, num + i, paths[i]);
    if v == Ok(true) {
      assert CheckOf(base, t)(num + i, paths[i]) == Ok(true);
    } else {
      assert CheckOf(base, t)(num + i, paths[i]) != Ok(true);
    }
  }

  /** `CheckOf` passes a path exactly when it is accepted. */
  lemma CheckOfAccepts(base: string, t: Tree, num: nat, path: string)
    ensures CheckOf(base, t)(num, path) == Ok(true) <==> Accepted(base, t, num, path)
  {
    CandidateCheckAccepts(base, t, num, path);
  }

  /** One path passes its checks exactly when it is accepted. */
  lemma CandidateCheckAccepts(base: string, t: Tree, num: nat, path: string)
    ensures CandidateCheck(base, t, num, path) == Ok(true) <==> Accepted(base, t, num, path)
  {
    if path in t.files && num in NumbersInFilename(path) && Extension(path) != "" {
      match EpisodeFilenameIn(base, t, num, path)
      case Err(e) =>
      case Ok(dest) =>
    }
  }

  /** The first loop only raises when `digits` does. */
  lemma CandidatesRaise(base: string, t: Tree, num: nat, paths: seq<string>)
    ensures CandidatesOk(base, t, num, paths).Err? ==> CandidatesOk(base, t, num, paths) == Err(InconsistentNaming)
  {
    var vs := Verdicts(CheckOf(base, t), num, paths);
    if CandidatesOk(base, t, num, paths).Err? {
      FirstFailurePasses(vs);
      var k := FirstNonPass(vs);
      FirstFailureAt(vs, k);
      VerdictAt(CheckOf(base, t), num, paths, k);
      DigitsInFails(base, Entries(base, t));
    }
  }

  /** The position of the first verdict that is not a pass. */
  lemma FirstNonPass(vs: seq<Result<bool>>) returns (k: nat)
    requires exists i :: 0 <= i < |vs| && vs[i] != Ok(true)
    ensures k < |vs| && vs[k] != Ok(true) && forall i :: 0 <= i < k ==> vs[i] == Ok(true)
  {
    k := 0;
    while vs[k] == Ok(true)
      invariant k < |vs| && forall i :: 0 <= i < k ==> vs[i] == Ok(true)
      decreases |vs| - k
    {
      k := k + 1;
    }
  }

  // ---------------------------------------------------------------------------
  // `sanity_check`, second loop

  /** The digests computed for a path: SHA-1, and CRC-32 too when the name announces one. */
  function Algorithms(path: string): (names: seq<DigestName>)
    ensures |names| == (if FirstCrcToken(path).Some? then 2 else 1)
    ensures AllSupported(names) && names[0] == Sha1
    ensures |names| == 2 ==> names[1] == Crc32
  {
    if FirstCrcToken(path).Some? then [Sha1, Crc32] else [Sha1]
  }

  /** The CRC-32 check of a path with content `data`: passes when no token is announced. */
  predicate CrcMatches(path: string, data: seq<byte>, sha1: Sha1Function) {
    var token := FirstCrcToken(path);
    token.None? || Lower(token.value) == HexDigest(Crc32, data, sha1)
  }

  /**
    The announced CRC-32 matches exactly when the token, read as a hex number
    with either letter case, is the CRC-32 of the content.
  */
  lemma CrcMatchesValue(path: string, data: seq<byte>, sha1: Sha1Function)
    ensures CrcMatches(path, data, sha1) <==>
      FirstCrcToken(path).None? || HexValue(FirstCrcToken(path).value) == ZlibCrc32(data, 0) as int
  {
    var token := FirstCrcToken(path);
    if token.Some? {
      var bs := PackN(ZlibCrc32(data, 0));
      HexDigestShape(Crc32, data, sha1);
      HexValueOfHex(bs);
      DowncaseComparesValues(token.value, bs);
    }
  }

  /**
    The second loop of `sanity_check`: each path is digested in turn (opening a
    missing file raises), and the first CRC-32 mismatch ends it with `false`.
  */
  function DigestsCheck(files: map<string, seq<byte>>, paths: seq<string>, sha1: Sha1Function): Result<bool>
    decreases |paths|
  {
    if paths == [] then Ok(true)
    else if paths[0] !in files then Err(FileNotFound(paths[0]))
    else if !CrcMatches(paths[0], files[paths[0]], sha1) then Ok(false)
    else DigestsCheck(files, paths[1..], sha1)
  }

  /** With every file present, the second loop passes exactly when every announced CRC-32 matches. */
  lemma {:induction false} DigestsAccepted(files: map<string, seq<byte>>, paths: seq<string>, sha1: Sha1Function)
    requires forall i :: 0 <= i < |paths| ==> paths[i] in files
    ensures DigestsCheck(files, paths, sha1).Ok?
    ensures DigestsCheck(files, paths, sha1) == Ok(true) <==>
      forall i :: 0 <= i < |paths| ==> CrcMatches(paths[i], files[paths[i]], sha1)
    decreases |paths|
  {
    if paths != [] {
      assert paths[0] in files;
      forall i | 0 <= i < |paths| - 1 ensures paths[1..][i] in files {
        assert paths[1..][i] == paths[i + 1];
      }
      DigestsAccepted(files, paths[1..], sha1);
      if DigestsCheck(files, paths, sha1) == Ok(true) {
        forall i | 0 <= i < |paths| ensures CrcMatches(paths[i], files[paths[i]], sha1) {
          if i > 0 {
            assert paths[i] == paths[1..][i - 1];
          }
        }
      }
      if forall i :: 0 <= i < |paths| ==> CrcMatches(paths[i], files[paths[i]], sha1) {
        forall i | 0 <= i < |paths| - 1 ensures CrcMatches(paths[1..][i], files[paths[1..][i]], sha1) {
          assert paths[1..][i] == paths[i + 1];
        }
      }
    }
  }

  /** `sanity_check(start_num, files)`: the first loop, then, if it passed, the second. */
  function Sanity(base: string, t: Tree, start: nat, paths: seq<string>, sha1: Sha1Function): Result<bool> {
    match CandidatesOk(base, t, start, paths)
    case Err(e) => Err(e)
    case Ok(ok) => if ok then DigestsCheck(t.files, paths, sha1) else Ok(false)
  }

  /**
    The check passes exactly when every path passes the first loop's checks
    with its number and every announced CRC-32 matches; it raises only where
    `episode_filename` does.
  */
  lemma SanityAccepts(base: string, t: Tree, start: nat, paths: seq<string>, sha1: Sha1Function)
    ensures Sanity(base, t, start, paths, sha1) == Ok(true) <==>
      forall i :: 0 <= i < |paths| ==>
        Accepted(base, t, start + i, paths[i]) && CrcMatches(paths[i], t.files[paths[i]], sha1)
    ensures Sanity(base, t, start, paths, sha1).Err? ==> Sanity(base, t, start, paths, sha1) == Err(InconsistentNaming)
  {
    CandidatesAccepted(base, t, start, paths);
    if CandidatesOk(base, t, start, paths) == Ok(true) {
      DigestsAccepted(t.files, paths, sha1);
    }
    CandidatesRaise(base, t, start, paths);
  }

  /** The digests the second loop stores in a `FileInfo` whose file has content `data`. */
  predicate Digested(f: FileInfo, files: map<string, seq<byte>>, sha1: Sha1Function)
    reads f
  {
    f.path in files &&
    f.sha1 == Some(HexDigest(Sha1, files[f.path], sha1)) &&
    f.crc32 == if FirstCrcToken(f.path).Some? then Some(HexDigest(Crc32, files[f.path], sha1)) else None
  }

  /**
    `sanity_check(start_num, files)`. The second loop stores the digests in
    the `FileInfo` objects, also for a file whose CRC-32 then fails.
  */
  method SanityCheck(d: Directory, start: nat, files: seq<FileInfo>, sha1: Sha1Function) returns (r: Result<bool>)
    modifies set f | f in files
    ensures r == Sanity(d.base, d.State(), start, Paths(files), sha1)
    ensures r == Ok(true) ==> forall f :: f in files ==> Digested(f, d.files, sha1)
    ensures CandidatesOk(d.base, d.State(), start, Paths(files)) != Ok(true) ==> forall f :: f in files ==> unchanged(f)
  {
    var ok := CheckCandidates(d, start, files);
    if ok != Ok(true) {
      return ok;
    }
    r := CheckDigests(d, files, sha1);
  }

  /** The first loop of `sanity_check`. */
  method CheckCandidates(d: Directory, start: nat, files: seq<FileInfo>) returns (r: Result<bool>)
    ensures r == CandidatesOk(d.base, d.State(), start, Paths(files))
  {
    ghost var t := d.State();
    ghost var paths := Paths(files);
    ghost var vs := Verdicts(CheckOf(d.base, t), start, paths);
    var i := 0;
    while i < |files|
      invariant 0 <= i <= |files|
      invariant forall j :: 0 <= j < i ==> vs[j] == Ok(true)
    {
      var ok := CheckCandidate(d, t, start, paths, i, files[i].path);
      if ok != Ok(true) {
        FirstFailureAt(vs, i);
        return ok;
      }
      i := i + 1;
    }
    FirstFailurePasses(vs);
    return Ok(true);
  }

  /** One pass of the first loop of `sanity_check`. */
  method CheckCandidate(d: Directory, ghost t: Tree, start: nat, ghost paths: seq<string>, i: nat, path: string)
    returns (r: Result<bool>)
    requires t == d.State() && i < |paths| && paths[i] == path
    ensures r == Verdicts(CheckOf(d.base, t), start, paths)[i]
  {
    VerdictAt(CheckOf(d.base, t), start, paths, i);
    if !d.Exists(path) {
      return Ok(false);
    }
    if start + i !in NumbersInFilename(path) {
      return Ok(false);
    }
    if Extension(path) == "" {
      return Ok(false);
    }
    var dest := EpisodeFilenameFor(d, start + i, path);
    if dest.Err? {
      return Err(dest.error);
    }
    return Ok(!d.Exists(dest.value));
  }

  /** The second loop of `sanity_check`. */
  method CheckDigests(d: Directory, files: seq<FileInfo>, sha1: Sha1Function) returns (r: Result<bool>)
    modifies set f | f in files
    ensures r == DigestsCheck(d.files, Paths(files), sha1)
    ensures r == Ok(true) ==> forall f :: f in files ==> Digested(f, d.files, sha1)
  {
    ghost var paths := Paths(files);
    var i := 0;
    while i < |files|
      invariant i <= |files| == |paths|
      invariant DigestsCheck(d.files, paths, sha1) == DigestsCheck(d.files, paths[i..], sha1)
      invariant forall j :: 0 <= j < i ==> Digested(files[j], d.files, sha1)
    {
      DigestsCheckStep(d.files, paths, i, sha1);
      r := DigestNext(d, files, i, sha1);
      if r != Ok(true) {
        return;
      }
      i := i + 1;
    }
    forall f | f in files ensures Digested(f, d.files, sha1) {
      var j :| 0 <= j < |files| && files[j] == f;
    }
    return Ok(true);
  }

  /** The pass of the second loop over `files[i]`; the files digested before stay digested. */
  method DigestNext(d: Directory, files: seq<FileInfo>, i: nat, sha1: Sha1Function) returns (r: Result<bool>)
    requires i < |files|
    requires forall j :: 0 <= j < i ==> Digested(files[j], d.files, sha1)
    modifies files[i]
    ensures files[i].path !in d.files ==> r == Err(FileNotFound(files[i].path))
    ensures files[i].path in d.files ==> r == Ok(CrcMatches(files[i].path, d.files[files[i].path], sha1))
    ensures r == Ok(true) ==> forall j :: 0 <= j <= i ==> Digested(files[j], d.files, sha1)
  {
    r := DigestFile(d, files[i], sha1);
    if r == Ok(true) {
      forall j | 0 <= j < i ensures Digested(files[j], d.files, sha1) {
        if files[j] != files[i] {
          assert unchanged(files[j]);
        }
      }
    }
  }

  /** `DigestsCheck` on a suffix looks at the suffix's first path. */
  lemma DigestsCheckStep(files: map<string, seq<byte>>, paths: seq<string>, i: nat, sha1: Sha1Function)
    requires i < |paths|
    ensures DigestsCheck(files, paths[i..], sha1) ==
      if paths[i] !in files then Err(FileNotFound(paths[i]))
      else if !CrcMatches(paths[i], files[paths[i]], sha1) then Ok(false)
      else DigestsCheck(files, paths[i + 1..], sha1)
  {
    assert paths[i..][0] == paths[i];
    assert paths[i..][1..] == paths[i + 1..];
  }

  /**
    One pass of the second loop: the digests are stored in `file`, then an
    announced CRC-32 is compared with the computed one.
  */
  method DigestFile(d: Directory, file: FileInfo, sha1: Sha1Function) returns (r: Result<bool>)
    modifies file
    ensures file.path !in d.files ==>
      r == Err(FileNotFound(file.path)) && file.sha1 == old(file.sha1) && file.crc32 == old(file.crc32)
    ensures file.path in d.files ==>
      Digested(file, d.files, sha1) && r == Ok(CrcMatches(file.path, d.files[file.path], sha1))
  {
    var hashes := HashesFor(d.files, file.path, Algorithms(file.path), sha1);
    if hashes.Err? {
      return Err(hashes.error);
    }
    file.sha1 := Some(hashes.value[0]);
    file.crc32 := if |hashes.value| > 1 then Some(hashes.value[1]) else None;
    var token := FirstCrcToken(file.path);
    if token.Some? && hashes.value[1] != Lower(token.value) {
      return Ok(false);
    }
    return Ok(true);
  }

  // ---------------------------------------------------------------------------
  // `perform_moves`

  /** What `perform_moves` reads from a `FileInfo`. */
  datatype Candidate = Candidate(path: string, sha1: Option<string>)

  function Candidates(files: seq<FileInfo>): (cs: seq<Candidate>)
    reads files
    ensures |cs| == |files| && forall i :: 0 <= i < |files| ==> cs[i] == Candidate(files[i].path, files[i].sha1)
  {
    seq(|files|, i requires 0 <= i < |files| reads files => Candidate(files[i].path, files[i].sha1))
  }

  /** `"#{file.sha1}  #{destfile}"`: a missing digest is written as nothing. */
  function ManifestLine(sha1: Option<string>, dest: string): (line: string)
    ensures |line| >= |dest| + 2 && line[|line| - |dest| - 2..] == "  " + dest
    ensures sha1.Some? ==> line == sha1.value + "  " + dest
  {
    (if sha1.Some? then sha1.value else "") + "  " + dest
  }

  /**
    One pass of `perform_moves` for candidate `c` as episode `num` in state
    `t`: the destination is computed afresh (so `digits` may raise), its
    manifest line is appended, then the file is moved (a missing source
    raises). The result and the state left behind.
  */
  function MoveStep(base: string, t: Tree, num: nat, c: Candidate): (Result<()>, Tree) {
    match EpisodeFilenameIn(base, t, num, c.path)
    case Err(e) => (Err(e), t)
    case Ok(dest) =>
      var t1 := Appended(t, ManifestLine(c.sha1, dest));
      match Move(t1, c.path, dest)
      case Err(e) => (Err(e), t1)
      case Ok(t2) => (Ok(()), t2)
  }

  /** The passes of `perform_moves` as a function of the state, the episode number and the candidate. */
  function StepOf(base: string): (Tree, nat, Candidate) -> (Result<()>, Tree) {
    (t: Tree, num: nat, c: Candidate) => MoveStep(base, t, num, c)
  }

  /**
    The passes `step` from the `i`-th candidate on, numbered from `start`, in
    state `t`: the first error ends them.
  */
  function MovesFrom(step: (Tree, nat, Candidate) -> (Result<()>, Tree), t: Tree, start: nat, cands: seq<Candidate>, i: nat):
    (Result<()>, Tree)
    requires i <= |cands|
    decreases |cands| - i
  {
    if i == |cands| then (Ok(()), t)
    else
      var (moved, t') := step(t, start + i, cands[i]);
      if moved.Err? then (moved, t') else MovesFrom(step, t', start, cands, i + 1)
  }

  /** `perform_moves(start_num, files)` */
  method PerformMoves(d: Directory, start: nat, files: seq<FileInfo>) returns (r: Result<()>)
    modifies d
    ensures (r, d.State()) == MovesFrom(StepOf(d.base), old(d.State()), start, old(Candidates(files)), 0)
  {
    ghost var cands := Candidates(files);
    ghost var t0 := d.State();
    var i := 0;
    while i < |files|
      invariant i <= |cands| == |files|
      invariant MovesFrom(StepOf(d.base), t0, start, cands, 0) == MovesFrom(StepOf(d.base), d.State(), start, cands, i)
    {
      r := MoveOne(d, start, cands, i, files[i]);
      if r.Err? {
        return;
      }
      i := i + 1;
    }
    return Ok(());
  }

  /** One pass of `perform_moves`, for the `i`-th candidate. */
  method MoveOne(d: Directory, start: nat, ghost cands: seq<Candidate>, i: nat, file: FileInfo) returns (r: Result<()>)
    requires i < |cands| && cands[i] == Candidate(file.path, file.sha1)
    modifies d
    ensures r.Err? ==> (r, d.State()) == MovesFrom(StepOf(d.base), old(d.State()), start, cands, i)
    ensures r.Ok? ==>
      MovesFrom(StepOf(d.base), old(d.State()), start, cands, i) == MovesFrom(StepOf(d.base), d.State(), start, cands, i + 1)
  {
    var dest := EpisodeFilenameFor(d, start + i, file.path);
    if dest.Err? {
      return Err(dest.error);
    }
    d.AppendLine(ManifestLine(file.sha1, dest.value));
    r := d.MoveFile(file.path, dest.value);
  }

  // ---------------------------------------------------------------------------
  // `run`

  /** `args[0] =~ /^-n(.*)$/` */
  predicate IsNumberOption(arg: string) {
    |arg| >= 2 && arg[..2] == "-n"
  }

  /** The first episode number: from `-nN`, or where the series leaves off. */
  function StartNumber(base: string, t: Tree, args: seq<string>): Result<int>
    requires |args| >= 1
  {
    if IsNumberOption(args[0]) then Ok(ToI(args[0][2..])) else NextNumber(base, t)
  }

  /** The candidate paths: the arguments, without a leading `-nN`. */
  function CandidatePaths(args: seq<string>): (paths: seq<string>)
    requires |args| >= 1
    ensures paths == if IsNumberOption(args[0]) then args[1..] else args
  {
    if IsNumberOption(args[0]) then args[1..] else args
  }

  /** The `FileInfo`s of checked paths, as `perform_moves` reads them. */
  function DigestedCandidates(files: map<string, seq<byte>>, paths: seq<string>, sha1: Sha1Function): (cs: seq<Candidate>)
    requires forall i :: 0 <= i < |paths| ==> paths[i] in files
    ensures |cs| == |paths|
    ensures forall i :: 0 <= i < |paths| ==> cs[i] == Candidate(paths[i], Some(HexDigest(Sha1, files[paths[i]], sha1)))
  {
    seq(|paths|, i requires 0 <= i < |paths| => Candidate(paths[i], Some(HexDigest(Sha1, files[paths[i]], sha1))))
  }

  /** A passed check found every file. */
  lemma SanityFindsFiles(base: string, t: Tree, start: nat, paths: seq<string>, sha1: Sha1Function)
    requires Sanity(base, t, start, paths, sha1) == Ok(true)
    ensures forall i :: 0 <= i < |paths| ==> paths[i] in t.files
  {
    SanityAccepts(base, t, start, paths, sha1);
  }

  /**
    `run` once the first number is known: the check, then the moves. The exit
    status, or the error raised, and the state left behind.
  */
  function ImportFrom(base: string, t: Tree, start: nat, paths: seq<string>, sha1: Sha1Function): (Result<int>, Tree) {
    match Sanity(base, t, start, paths, sha1)
    case Err(e) => (Err(e), t)
    case Ok(ok) =>
      if !ok then (Ok(1), t)
      else
        SanityFindsFiles(base, t, start, paths, sha1);
        var (moved, t') := MovesFrom(StepOf(base), t, start, DigestedCandidates(t.files, paths, sha1), 0);
        if moved.Err? then (Err(moved.error), t') else (Ok(0), t')
  }

  /**
    `ImportCommand#run(*args)` on directory state `t`: the exit status, or the
    error raised, and the state left behind.
  */
  function ImportRun(base: string, t: Tree, args: seq<string>, sha1: Sha1Function): (Result<int>, Tree) {
    if |args| < 1 then (Err(ArgumentError), t)
    else
      match StartNumber(base, t, args)
      case Err(e) => (Err(e), t)
      case Ok(start) => if start < 1 then (Err(ArgumentError), t) else ImportFrom(base, t, start, CandidatePaths(args), sha1)
  }

  /** `ImportCommand#run(*args)` */
  method Run(d: Directory, args: seq<string>, sha1: Sha1Function) returns (r: Result<int>)
    modifies d
    ensures (r, d.State()) == ImportRun(d.base, old(d.State()), args, sha1)
  {
    if |args| < 1 {
      return Err(ArgumentError);
    }
    var start: int;
    var paths := args;
    if IsNumberOption(args[0]) {
      start := ToI(args[0][2..]);
      paths := args[1..];
    } else {
      var next := NextNumberInSeries(d);
      if next.Err? {
        return Err(next.error);
      }
      start := next.value;
    }
    if start < 1 {
      return Err(ArgumentError);
    }
    r := ImportFiles(d, start, paths, sha1);
  }

  /** The part of `run` from `files = args.map ...` on. */
  method ImportFiles(d: Directory, start: nat, paths: seq<string>, sha1: Sha1Function) returns (r: Result<int>)
    modifies d
    ensures (r, d.State()) == ImportFrom(d.base, old(d.State()), start, paths, sha1)
  {
    var files := NewFileInfos(paths);
    var ok := SanityCheck(d, start, files, sha1);
    if ok.Err? {
      return Err(ok.error);
    }
    if !ok.value {
      return Ok(1);
    }
    SanityFindsFiles(d.base, d.State(), start, paths, sha1);
    CandidatesDigested(files, d.files, paths, sha1);
    var moved := PerformMoves(d, start, files);
    if moved.Err? {
      return Err(moved.error);
    }
    return Ok(0);
  }

  /** After a passed check, `perform_moves` reads each path with its SHA-1 digest. */
  lemma CandidatesDigested(files: seq<FileInfo>, contents: map<string, seq<byte>>, paths: seq<string>, sha1: Sha1Function)
    requires Paths(files) == paths && forall i :: 0 <= i < |paths| ==> paths[i] in contents
    requires forall f :: f in files ==> Digested(f, contents, sha1)
    ensures Candidates(files) == DigestedCandidates(contents, paths, sha1)
  {
    assert forall i :: 0 <= i < |files| ==> files[i] in files;
  }

  /** `args.map { |arg| FileInfo.new(arg) }` */
  method NewFileInfos(paths: seq<string>) returns (files: seq<FileInfo>)
    ensures Paths(files) == paths
    ensures forall f :: f in files ==> fresh(f) && f.sha1 == None && f.crc32 == None
  {
    files := [];
    var i := 0;
    while i < |paths|
      invariant 0 <= i <= |paths| && |files| == i
      invariant forall j :: 0 <= j < i ==> files[j].path == paths[j]
      invariant forall f :: f in files ==> fresh(f) && f.sha1 == None && f.crc32 == None
    {
      var f := new FileInfo(paths[i]);
      files := files + [f];
      i := i + 1;
    }
  }
}
