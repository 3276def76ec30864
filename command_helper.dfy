/**
  The loops of `CommandHelper` that read the current directory:
  `each_episode_file`, `digits`, and `episode_filename`, which calls `digits`
  afresh every time.
*/
module CommandHelper {
  import opened Wrappers
  import opened Text
  import opened Naming
  import opened Filesystem

  /** The episodes of a directory state, as `each_episode_file` yields them. */
  function EpisodesOf(base: string, t: Tree): seq<Episode> {
    Yields(base, SortedOf(Entries(base, t)))
  }

  /** `episode_filename(num, origfile)` in state `t`: `digits` may raise first. */
  function EpisodeFilenameIn(base: string, t: Tree, num: nat, origfile: string): Result<string> {
    match DigitsIn(base, Entries(base, t))
    case Err(e) => Err(e)
    case Ok(w) => Ok(EpisodeFilename(base, w, num, origfile))
  }

  /**
    `each_episode_file`: walks the sorted entries and yields each episode file
    with its number string; the yields are returned in order.
  */
  method EachEpisodeFile(d: Directory) returns (ys: seq<Episode>)
    ensures ys == EpisodesOf(d.base, d.State())
  {
    ys := SelectEpisodes(d.base, d.SortedEntries());
  }

  /** The loop of `each_episode_file` over a list of entries. */
  method SelectEpisodes(base: string, entries: seq<string>) returns (ys: seq<Episode>)
    ensures ys == Yields(base, entries)
  {
    ys := [];
    var i := 0;
    while i < |entries|
      invariant 0 <= i <= |entries|
      invariant Yields(base, entries) == ys + Yields(base, entries[i..])
    {
      YieldsStep(base, entries, i);
      var number := ParseEpisode(base, entries[i]);
      if number.Some? {
        ys := ys + [Episode(entries[i], number.value)];
      }
      i := i + 1;
    }
    assert entries[i..] == [];
  }

  lemma YieldsStep(base: string, entries: seq<string>, i: nat)
    requires i < |entries|
    ensures Yields(base, entries[i..]) ==
      (if ParseEpisode(base, entries[i]).Some? then [Episode(entries[i], ParseEpisode(base, entries[i]).value)] else []) +
      Yields(base, entries[i + 1..])
  {
    assert entries[i..][1..] == entries[i + 1..];
  }

  /**
    `digits`: the width of the first yielded number string, checked against
    every later one; 2 when nothing is yielded.
  */
  method Digits(d: Directory) returns (r: Result<nat>)
    ensures r == DigitsIn(d.base, Entries(d.base, d.State()))
  {
    var ys := EachEpisodeFile(d);
    r := CommonWidth(ys);
  }

  /** The loop of `digits` over the yielded episodes. */
  method CommonWidth(ys: seq<Episode>) returns (r: Result<nat>)
    ensures r == DigitsOf(ys)
  {
    var result: Option<nat> := None;
    var i := 0;
    while i < |ys|
      invariant 0 <= i <= |ys|
      invariant result.None? <==> i == 0
      invariant result.Some? ==> result.value == |ys[0].number|
      invariant forall j :: 0 <= j < i ==> |ys[j].number| == |ys[0].number|
    {
      var width := |ys[i].number|;
      if result.Some? && result.value != width {
        return Err(InconsistentNaming);
      }
      result := Some(width);
      i := i + 1;
    }
    r := if result.Some? then Ok(result.value) else Ok(2);
  }

  /** `episode_filename(num, origfile)` */
  method EpisodeFilenameFor(d: Directory, num: nat, origfile: string) returns (r: Result<string>)
    ensures r == EpisodeFilenameIn(d.base, d.State(), num, origfile)
  {
    var w := Digits(d);
    if w.Err? {
      return Err(w.error);
    }
    return Ok(EpisodeFilename(d.base, w.value, num, origfile));
  }
}
