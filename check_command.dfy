/**
  `org check`: the digests recorded in the series' manifest are compared
  with the files they name, and the files no line mentions are reported.
*/
module CheckCommand {
  import opened Wrappers
  import opened Text
  import opened Naming
  import opened Filesystem
  import opened Digests
  import ImportCommand

  /** The character class `[0-9a-fA-Z]` of the manifest pattern: upper case runs on to `Z`. */
  predicate IsDigestChar(c: char) { IsDigit(c) || 'a' <= c <= 'f' || 'A' <= c <= 'Z' }

  /** An accepted manifest line: the recorded digest and the file it names. */
  datatype Entry = Entry(expected: string, filename: string)

  /**
    `line =~ /^([0-9a-fA-Z]{40})  (.*)?/`: forty digest characters, two
    spaces, and the rest of the line as the file name.
  */
  function ParseLine(line: string): (e: Option<Entry>)
    ensures e.Some? <==>
      |line| >= 42 && (forall i :: 0 <= i < 40 ==> IsDigestChar(line[i])) && line[40] == ' ' && line[41] == ' '
    ensures e.Some? ==> |e.value.expected| == 40 && line == e.value.expected + "  " + e.value.filename
  {
    if |line| >= 42 && (forall i :: 0 <= i < 40 ==> IsDigestChar(line[i])) && line[40..42] == "  " then
      Some(Entry(line[..40], line[42..]))
    else
      None
  }

  /** The line `perform_moves` writes for a file is read back as that file and its digest. */
  lemma ParseManifestLine(hex: string, dest: string)
    requires |hex| == 40 && AllLowerHex(hex)
    ensures ParseLine(ImportCommand.ManifestLine(Some(hex), dest)) == Some(Entry(hex, dest))
  {
    var line := ImportCommand.ManifestLine(Some(hex), dest);
    assert line[..40] == hex && line[42..] == dest;
    forall i | 0 <= i < 40 ensures IsDigestChar(line[i]) {
      assert line[i] == hex[i];
    }
  }

  /** `checked_files`: the file names of the accepted lines, in order, repeats kept. */
  function Checked(lines: seq<string>): (names: seq<string>)
    ensures |names| <= |lines|
  {
    if lines == [] then []
    else
      var e := ParseLine(lines[0]);
      (if e.Some? then [e.value.filename] else []) + Checked(lines[1..])
  }

  /** The checked names are exactly the file names of the accepted lines. */
  lemma {:induction false} CheckedMembers(lines: seq<string>)
    ensures forall i :: 0 <= i < |lines| && ParseLine(lines[i]).Some? ==>
      ParseLine(lines[i]).value.filename in Checked(lines)
    ensures forall n :: n in Checked(lines) ==>
      exists i :: 0 <= i < |lines| && ParseLine(lines[i]).Some? && ParseLine(lines[i]).value.filename == n
  {
    if lines != [] {
      CheckedMembers(lines[1..]);
      forall i | 1 <= i < |lines| ensures lines[i] == lines[1..][i - 1] { }
      forall n | n in Checked(lines)
        ensures exists i :: 0 <= i < |lines| && ParseLine(lines[i]).Some? && ParseLine(lines[i]).value.filename == n
      {
        if n !in Checked(lines[1..]) {
          assert ParseLine(lines[0]).Some? && ParseLine(lines[0]).value.filename == n;
        } else {
          var j :| 0 <= j < |lines[1..]| && ParseLine(lines[1..][j]).Some? && ParseLine(lines[1..][j]).value.filename == n;
          assert lines[j + 1] == lines[1..][j];
        }
      }
    }
  }

  /** The names of two runs of lines are those of each, in order: one line is added at a time. */
  lemma {:induction false} CheckedAppend(a: seq<string>, b: seq<string>)
    ensures Checked(a + b) == Checked(a) + Checked(b)
  {
    if a == [] {
      assert a + b == b;
    } else {
      var ab := a + b;
      assert ab[0] == a[0] && ab[1..] == a[1..] + b;
      var e := ParseLine(a[0]);
      var head := if e.Some? then [e.value.filename] else [];
      assert Checked(ab) == head + Checked(a[1..] + b);
      CheckedAppend(a[1..], b);
      assert Checked(a) == head + Checked(a[1..]);
    }
  }

  /** A mismatch so far, then the verdict on the remaining lines; a raise wins over both. */
  function Combine(allOk: bool, rest: Result<bool>): Result<bool> {
    if rest.Err? then rest else Ok(allOk && rest.value)
  }

  /** Whether the recorded digest of `e` is the SHA-1 of its file, compared case-sensitively. */
  predicate Matches(files: map<string, seq<byte>>, e: Entry, sha1: Sha1Function)
    requires e.filename in files
  {
    e.expected == HexDigest(Sha1, files[e.filename], sha1)
  }

  /**
    The lines of the manifest checked in order: every accepted line is
    checked, a mismatch does not stop the walk, a missing file raises.
  */
  function Verify(files: map<string, seq<byte>>, lines: seq<string>, sha1: Sha1Function): Result<bool> {
    if lines == [] then Ok(true)
    else
      match ParseLine(lines[0])
      case None => Verify(files, lines[1..], sha1)
      case Some(e) =>
        if e.filename !in files then Err(FileNotFound(e.filename))
        else Combine(Matches(files, e, sha1), Verify(files, lines[1..], sha1))
  }

  /** An accepted line names a file that exists. */
  predicate Present(files: map<string, seq<byte>>, line: string) {
    ParseLine(line).None? || ParseLine(line).value.filename in files
  }

  /** An accepted line names a file that exists and records its digest. */
  predicate Agrees(files: map<string, seq<byte>>, line: string, sha1: Sha1Function) {
    ParseLine(line).None? || (ParseLine(line).value.filename in files && Matches(files, ParseLine(line).value, sha1))
  }

  /**
    The walk raises exactly when some accepted line names a missing file, and
    its verdict is true exactly when every accepted line agrees with its file.
  */
  lemma {:induction false} VerifyMeans(files: map<string, seq<byte>>, lines: seq<string>, sha1: Sha1Function)
    ensures Verify(files, lines, sha1).Ok? <==> forall l :: l in lines ==> Present(files, l)
    ensures Verify(files, lines, sha1).Ok? ==>
      (Verify(files, lines, sha1).value <==> forall l :: l in lines ==> Agrees(files, l, sha1))
  {
    if lines != [] {
      var rest := lines[1..];
      VerifyMeans(files, rest, sha1);
      assert forall l :: l in lines <==> l == lines[0] || l in rest;
      var e := ParseLine(lines[0]);
      if e.None? {
        assert Verify(files, lines, sha1) == Verify(files, rest, sha1);
      } else if e.value.filename in files {
        assert Verify(files, lines, sha1) == Combine(Matches(files, e.value, sha1), Verify(files, rest, sha1));
        assert Agrees(files, lines[0], sha1) == Matches(files, e.value, sha1);
      } else {
        assert !Present(files, lines[0]);
      }
    }
  }

  /** Line `k` is the first accepted line whose file is missing. */
  predicate FirstMissing(files: map<string, seq<byte>>, lines: seq<string>, k: int) {
    0 <= k < |lines| && !Present(files, lines[k]) && forall j :: 0 <= j < k ==> Present(files, lines[j])
  }

  /** A raise names the file of the first accepted line whose file is missing. */
  lemma {:induction false} VerifyRaises(files: map<string, seq<byte>>, lines: seq<string>, sha1: Sha1Function)
    requires Verify(files, lines, sha1).Err?
    ensures exists k :: FirstMissing(files, lines, k) && Verify(files, lines, sha1).error == FileNotFound(ParseLine(lines[k]).value.filename)
  {
    var e := ParseLine(lines[0]);
    if e.Some? && e.value.filename !in files {
      assert FirstMissing(files, lines, 0);
    } else {
      var rest := lines[1..];
      VerifyRaises(files, rest, sha1);
      var k :| FirstMissing(files, rest, k) && Verify(files, rest, sha1).error == FileNotFound(ParseLine(rest[k]).value.filename);
      assert lines[k + 1] == rest[k];
      forall j | 0 <= j < k + 1 ensures Present(files, lines[j]) {
        if j > 0 { assert lines[j] == rest[j - 1]; }
      }
      assert FirstMissing(files, lines, k + 1);
    }
  }

  /**
    `digest_check` in state `t`: opening a missing manifest raises; the list
    of checked names when every recorded digest agrees, `nil` otherwise.
  */
  function DigestCheckIn(base: string, t: Tree, sha1: Sha1Function): Result<Option<seq<string>>> {
    if t.manifest.None? then Err(FileNotFound(DigestFilename(base)))
    else
      match Verify(t.files, t.manifest.value, sha1)
      case Err(e) => Err(e)
      case Ok(allOk) => Ok(if allOk then Some(Checked(t.manifest.value)) else None)
  }

  /** `Checked` and `Verify` on a suffix look at its first line. */
  lemma CheckStep(files: map<string, seq<byte>>, lines: seq<string>, i: nat, sha1: Sha1Function)
    requires i < |lines|
    ensures var e := ParseLine(lines[i]);
      Checked(lines[i..]) == (if e.Some? then [e.value.filename] else []) + Checked(lines[i + 1..]) &&
      Verify(files, lines[i..], sha1) ==
        if e.None? then Verify(files, lines[i + 1..], sha1)
        else if e.value.filename !in files then Err(FileNotFound(e.value.filename))
        else Combine(Matches(files, e.value, sha1), Verify(files, lines[i + 1..], sha1))
  {
    assert lines[i..][0] == lines[i];
    assert lines[i..][1..] == lines[i + 1..];
  }

  /**
    `digest_check`: walks the manifest's lines, collecting the names of the
    accepted ones and clearing `all_ok` on a mismatch.
  */
  method DigestCheck(d: Directory, sha1: Sha1Function) returns (r: Result<Option<seq<string>>>)
    ensures r == DigestCheckIn(d.base, d.State(), sha1)
  {
    if d.manifest.None? {
      return Err(FileNotFound(DigestFilename(d.base)));
    }
    var lines := d.manifest.value;
    var checkedFiles: seq<string> := [];
    var allOk := true;
    var i := 0;
    while i < |lines|
      invariant i <= |lines|
      invariant Checked(lines) == checkedFiles + Checked(lines[i..])
      invariant Verify(d.files, lines, sha1) == Combine(allOk, Verify(d.files, lines[i..], sha1))
    {
      CheckStep(d.files, lines, i, sha1);
      var entry := ParseLine(lines[i]);
      if entry.Some? {
        checkedFiles := checkedFiles + [entry.value.filename];
        var ok := CheckEntry(d, entry.value, sha1);
        if ok.Err? {
          return Err(ok.error);
        }
        if !ok.value {
          allOk := false;
        }
      }
      i := i + 1;
    }
    assert lines[i..] == [];
    assert Verify(d.files, lines, sha1) == Ok(allOk);
    assert Checked(lines) == checkedFiles;
    return if allOk then Ok(Some(checkedFiles)) else Ok(None);
  }

  /** One accepted line: `hashes_for(filename, [:sha1])` raises on a missing file, else the digests are compared. */
  method CheckEntry(d: Directory, e: Entry, sha1: Sha1Function) returns (r: Result<bool>)
    ensures e.filename !in d.files ==> r == Err(FileNotFound(e.filename))
    ensures e.filename in d.files ==> r == Ok(Matches(d.files, e, sha1))
  {
    var hashes := HashesFor(d.files, e.filename, [Sha1], sha1);
    if hashes.Err? {
      return Err(hashes.error);
    }
    return Ok(e.expected == hashes.value[0]);
  }

  /** The names `run` never reports: the manifest, `.`, `..` and the configuration file. */
  predicate Reserved(base: string, file: string) {
    file == DigestFilename(base) || file == "." || file == ".." || file == ConfigFilename
  }

  /** The entries, in order, that `run` reports as unchecked. */
  function Unreported(base: string, entries: seq<string>, checked: seq<string>): seq<string> {
    if entries == [] then []
    else
      (if !Reserved(base, entries[0]) && entries[0] !in checked then [entries[0]] else []) +
      Unreported(base, entries[1..], checked)
  }

  /** The unchecked names of sorted entries are sorted, and are the entries neither reserved nor checked. */
  lemma {:induction false} UnreportedMeans(base: string, entries: seq<string>, checked: seq<string>)
    requires StrictlySorted(entries)
    ensures StrictlySorted(Unreported(base, entries, checked))
    ensures forall x :: x in Unreported(base, entries, checked) <==> x in entries && !Reserved(base, x) && x !in checked
  {
    if entries != [] {
      var rest := entries[1..];
      assert StrictlySorted(rest) by {
        forall i, j | 0 <= i < j < |rest| ensures LexLess(rest[i], rest[j]) {
          assert rest[i] == entries[i + 1] && rest[j] == entries[j + 1];
        }
      }
      UnreportedMeans(base, rest, checked);
      var u := Unreported(base, rest, checked);
      assert entries == [entries[0]] + rest;
      if !Reserved(base, entries[0]) && entries[0] !in checked {
        forall j | 0 <= j < |u| ensures LexLess(entries[0], u[j]) {
          assert u[j] in u;
          var k :| 0 <= k < |rest| && rest[k] == u[j];
          assert entries[k + 1] == u[j];
        }
      }
    }
  }

  /** `run`'s report for state `t` once `digest_check` returned `checked`. */
  function Unchecked(base: string, t: Tree, checked: seq<string>): (report: seq<string>)
    ensures StrictlySorted(report)
    ensures forall x :: x in report <==> x in Entries(base, t) && !Reserved(base, x) && x !in checked
  {
    UnreportedMeans(base, SortedOf(Entries(base, t)), checked);
    Unreported(base, SortedOf(Entries(base, t)), checked)
  }

  /** `Unreported` on a suffix looks at its first entry. */
  lemma UnreportedStep(base: string, entries: seq<string>, checked: seq<string>, i: nat)
    requires i < |entries|
    ensures Unreported(base, entries[i..], checked) ==
      (if !Reserved(base, entries[i]) && entries[i] !in checked then [entries[i]] else []) +
      Unreported(base, entries[i + 1..], checked)
  {
    assert entries[i..][0] == entries[i];
    assert entries[i..][1..] == entries[i + 1..];
  }

  /**
    `run`: 1 when a digest disagrees, with nothing reported; otherwise 0,
    with the unchecked files reported in sorted order. Raises propagate.
  */
  method Run(d: Directory, sha1: Sha1Function) returns (r: Result<int>, report: seq<string>)
    ensures DigestCheckIn(d.base, d.State(), sha1).Err? ==>
      r == Err(DigestCheckIn(d.base, d.State(), sha1).error) && report == []
    ensures DigestCheckIn(d.base, d.State(), sha1) == Ok(None) ==> r == Ok(1) && report == []
    ensures DigestCheckIn(d.base, d.State(), sha1).Ok? && DigestCheckIn(d.base, d.State(), sha1).value.Some? ==>
      r == Ok(0) && report == Unchecked(d.base, d.State(), DigestCheckIn(d.base, d.State(), sha1).value.value)
  {
    var checked := DigestCheck(d, sha1);
    if checked.Err? {
      return Err(checked.error), [];
    }
    if checked.value.None? {
      return Ok(1), [];
    }
    report := ReportUnchecked(d, checked.value.value);
    return Ok(0), report;
  }

  /** The loop of `run` over the sorted entries, collecting those to report as unchecked. */
  method ReportUnchecked(d: Directory, checkedFiles: seq<string>) returns (report: seq<string>)
    ensures report == Unchecked(d.base, d.State(), checkedFiles)
  {
    var entries := d.SortedEntries();
    report := SelectUnchecked(d.base, entries, checkedFiles);
  }

  /** The filter of `run`'s loop over a listing. */
  method SelectUnchecked(base: string, entries: seq<string>, checkedFiles: seq<string>) returns (report: seq<string>)
    ensures report == Unreported(base, entries, checkedFiles)
  {
    report := [];
    var i := 0;
    while i < |entries|
      invariant i <= |entries|
      invariant Unreported(base, entries, checkedFiles) == report + Unreported(base, entries[i..], checkedFiles)
    {
      UnreportedStep(base, entries, checkedFiles, i);
      var file := entries[i];
      if file != DigestFilename(base) && file != "." && file != ".." &&
         file != ConfigFilename && file !in checkedFiles {
        report := report + [file];
      }
      i := i + 1;
    }
    assert entries[i..] == [];
  }

  /**
    A manifest made of the lines `perform_moves` writes for existing files,
    with their contents unchanged since, passes the check, and every one of
    those files counts as checked.
  */
  lemma {:induction false} RecordedPasses(files: map<string, seq<byte>>, names: seq<string>, sha1: Sha1Function)
    requires forall k :: 0 <= k < |names| ==> names[k] in files
    ensures var lines := RecordedLines(files, names, sha1);
      Verify(files, lines, sha1) == Ok(true) && Checked(lines) == names
  {
    if names != [] {
      var lines := RecordedLines(files, names, sha1);
      HexDigestShape(Sha1, files[names[0]], sha1);
      ParseManifestLine(HexDigest(Sha1, files[names[0]], sha1), names[0]);
      RecordedPasses(files, names[1..], sha1);
      assert lines[1..] == RecordedLines(files, names[1..], sha1);
    }
  }

  /** The manifest lines for `names` as `perform_moves` writes them. */
  function RecordedLines(files: map<string, seq<byte>>, names: seq<string>, sha1: Sha1Function): (lines: seq<string>)
    requires forall k :: 0 <= k < |names| ==> names[k] in files
    ensures |lines| == |names|
    ensures forall k :: 0 <= k < |names| ==>
      lines[k] == ImportCommand.ManifestLine(Some(HexDigest(Sha1, files[names[k]], sha1)), names[k])
  {
    seq(|names|, k requires 0 <= k < |names| => ImportCommand.ManifestLine(Some(HexDigest(Sha1, files[names[k]], sha1)), names[k]))
  }

  /** Digests are compared case-sensitively: a recorded digest with upper case never agrees. */
  lemma UpperCaseDisagrees(files: map<string, seq<byte>>, e: Entry, sha1: Sha1Function)
    requires e.filename in files
    requires exists i :: 0 <= i < |e.expected| && 'A' <= e.expected[i] <= 'Z'
    ensures !Matches(files, e, sha1)
  {
    HexDigestShape(Sha1, files[e.filename], sha1);
  }
}
