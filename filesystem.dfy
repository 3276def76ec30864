/**
  The part of the file system the commands see: the files reachable from the
  current directory by path, and the series' digest manifest, a text file of
  lines. `Dir.entries`, `File.exists?`, `File.open(..., "a")` and
  `FileUtils.mv` act on this state.
*/
module Filesystem {
  import opened Wrappers
  import opened Text
  import opened Naming

  /**
    A snapshot: file contents by path (relative to the current directory, so
    a plain name is an entry of it), and the lines of the manifest
    `<base>.sha1` when that file exists.
  */
  datatype Tree = Tree(files: map<string, seq<byte>>, manifest: Option<seq<string>>)

  /** The lines of the manifest; a missing manifest has none. */
  function Lines(manifest: Option<seq<string>>): seq<string> {
    if manifest.Some? then manifest.value else []
  }

  /** `Dir.entries('.')`: the plain file names, `.` and `..`, and the manifest once it exists. */
  function Entries(base: string, t: Tree): (es: set<string>)
    ensures forall x :: x in es <==>
      (x in t.files && '/' !in x) || x == "." || x == ".." || (t.manifest.Some? && x == DigestFilename(base))
  {
    (set p | p in t.files && '/' !in p) + {".", ".."} + (if t.manifest.Some? then {DigestFilename(base)} else {})
  }

  /** `io.puts line` on the manifest opened for appending; the file is created if missing. */
  function Appended(t: Tree, line: string): Tree {
    Tree(t.files, Some(Lines(t.manifest) + [line]))
  }

  /** `FileUtils.mv(src, dst)` on an existing `src`: the content moves, replacing any file at `dst`. */
  function Renamed(files: map<string, seq<byte>>, src: string, dst: string): (m: map<string, seq<byte>>)
    requires src in files
    ensures forall p :: p in m <==> p == dst || (p in files && p != src)
    ensures m[dst] == files[src]
    ensures forall p :: p in files && p != src && p != dst ==> m[p] == files[p]
  {
    (files - {src})[dst := files[src]]
  }

  /** `FileUtils.mv`, failing when the source does not exist. */
  function Move(t: Tree, src: string, dst: string): Result<Tree> {
    if src !in t.files then Err(FileNotFound(src)) else Ok(Tree(Renamed(t.files, src, dst), t.manifest))
  }

  /** The current directory of a command: its name, its files, its manifest. */
  class Directory {
    /** `File.basename(Dir.pwd)` */
    const name: string
    /** `basename`: the series' base name, from the directory's own name. */
    const base: string
    var files: map<string, seq<byte>>
    var manifest: Option<seq<string>>

    constructor (name: string, files: map<string, seq<byte>>, manifest: Option<seq<string>>)
      ensures this.name == name && base == Basename(name)
      ensures this.files == files && this.manifest == manifest
    {
      this.name := name;
      base := Basename(name);
      this.files := files;
      this.manifest := manifest;
    }

    function State(): Tree
      reads this
    {
      Tree(files, manifest)
    }

    /** `Dir.entries('.').sort` */
    function SortedEntries(): (es: seq<string>)
      reads this
      ensures StrictlySorted(es)
      ensures forall x :: x in es <==> x in Entries(base, State())
    {
      SortedOf(Entries(base, State()))
    }

    /** `File.exists?(path)` for the files the commands open or create. */
    function Exists(path: string): bool
      reads this
    {
      path in files
    }

    /** `File.open(digest_filename, "a") { |io| io.puts line }` */
    method AppendLine(line: string)
      modifies this
      ensures State() == Appended(old(State()), line)
    {
      manifest := Some(Lines(manifest) + [line]);
    }

    /** `FileUtils.mv(src, dst)`: raises when `src` is missing, otherwise renames. */
    method MoveFile(src: string, dst: string) returns (r: Result<()>)
      modifies this
      ensures Move(old(State()), src, dst).Err? ==> r == Err(Move(old(State()), src, dst).error) && State() == old(State())
      ensures Move(old(State()), src, dst).Ok? ==> r == Ok(()) && State() == Move(old(State()), src, dst).value
    {
      if src !in files {
        return Err(FileNotFound(src));
      }
      files := Renamed(files, src, dst);
      return Ok(());
    }
  }
}
