# org: episode import and digest check, modelled in Dafny

`org` is a command-line tool that keeps a directory of numbered episode files
for one series. Everything it does depends on the directory's name and
contents. The model covers three parts of it.

- **The helper mixin.** It derives the series' *base name* from the directory
  name, dropping a trailing `" (annotation)"`. It lists the *episode files*:
  `"<base> - <digits>.<ext>"`, where subtitle extensions are skipped. It infers
  the *digit width* of their numbers, builds new episode names, and names the
  *manifest* `<base>.sha1` and the config file `0org`. It also computes the
  CRC-32 and SHA-1 digests of a file, reading it in 8 MiB chunks.
- **`org import [-nN] files...`.** It first checks every candidate file:
  - the file exists;
  - its name contains the episode number it will receive;
  - it has an extension;
  - its destination name is free;
  - a CRC-32 written as `[XXXXXXXX]` in its name equals the CRC-32 of its
    content.

  Then, for each file in turn, it appends the line `"<sha1>  <dest>"` to the
  manifest and moves the file to its episode name. Without `-nN`, numbering
  continues the existing series, which must be gap-free from 1.
- **`org check`.** It walks the manifest and compares each recorded SHA-1 with
  the file the line names. It then lists the directory entries that no line
  mentions.

The model is organised as follows.

- `Text`: character classes, decimal and hex numerals, `"%0Nd"` padding,
  Ruby's `String#to_i`, and the code-point order `sort` uses.
- `Naming`: `basename`, the episode-name pattern, `episode_filename`'s name
  building, and the width `digits` infers.
- `Filesystem`: a directory snapshot (`Tree`) and the `Directory` class whose
  methods append to the manifest and move files.
- `CommandHelper`: the directory-reading loops `each_episode_file` and
  `digits`, and `episode_filename`.
- `Digests`: zlib's CRC-32, written out, `PseudoDigestCrc32`, and `hashes_for`
  over an array of digest states.
- `ImportNumbers`: `numbers_in_filename` and the series walk of
  `next_number_in_series`.
- `ImportCommand`: `FileInfo`, `sanity_check`, `perform_moves` and `run`. Each
  loop is a method proved equal to a specification function of the directory
  state.
- `ImportProperties`: what an import does to the directory, proved on those
  functions.
- `CheckCommand`: `digest_check` and `check`'s `run`.

The model makes these choices.

- SHA-1 is a parameter: any function from content to 20 bytes.
- A raised exception is a `Result` error: `FileNotFound(path)`,
  `InconsistentNaming`, `InconsistentNumbering(expected, found)`,
  `UnknownDigest(name)` or `ArgumentError`.
- A command's exit status is `Ok(0)` or `Ok(1)`.
- Messages written to standard error are not modelled, except the list of
  unchecked files that `check` reports.

## Model

| member | source | states |
|---|---|---|
| Text.ZeroPadProperties | org-lib/command-helper.rb:55 | `"%0Nd" % num` is all digits, reads back as `num`, and is `w` characters long unless the numeral is wider; exactly `w` when `num < 10^w` |
| Text.DecimalStringLength | org-lib/command-helper.rb:55 | the numeral of `n` fits in `w` digits exactly when `n < 10^w` |
| Text.ToIOfDecimal | org-lib/commands/import.rb:159 | `to_i` reads every decimal numeral back as its value |
| Text.DowncaseComparesValues | org-lib/commands/import.rb:92-106 | the downcased CRC token equals the hex encoding of the digest bytes exactly when the token, read as a hex number in either case, is their value |
| Text.LowerHexInjective | org-lib/command-helper.rb:102 | two lower-case hex strings of equal length and equal value are equal |
| Text.HexValueOfHex | org-lib/command-helper.rb:102 | `hexencode` of a byte string is a hex string whose value is the bytes read big-endian |
| Text.SortedOf | org-lib/command-helper.rb:43 | the sorted listing is strictly increasing in code-point order and holds exactly the listed names |
| Text.LexLessTotal | org-lib/command-helper.rb:43 | the order `sort` uses is total: of two distinct strings one comes first |
| Naming.Basename | org-lib/command-helper.rb:11-15 | the base name is the directory name itself or that name with a trailing annotation stripped |
| Naming.BasenameStrips | org-lib/command-helper.rb:13 | `basename` strips exactly the trailing match of `\s+\([^()]+\)$` when there is one, and otherwise returns the name unchanged |
| Naming.StrippedByBasename | org-lib/command-helper.rb:13 | a name ending in whitespace + a non-empty bracket group + `)` loses exactly that ending |
| Naming.ParseEpisode | org-lib/command-helper.rb:41-47 | a reported number means the file is exactly `"<base> - <digits>.<ext>"`, with a non-empty, dot-free, non-subtitle extension |
| Naming.ParseEpisodeName | org-lib/command-helper.rb:41-47 | every such name is taken, with its own digit string as the episode number |
| Naming.NumberPartUnique | org-lib/command-helper.rb:41 | an episode name determines its digit string and its extension |
| Naming.Extension | org-lib/command-helper.rb:56-60 | the extension is `""` or the path's suffix from its last dot, non-empty and dot-free after the dot; it is `""` exactly when the path is empty, ends in a dot, or has no dot |
| Naming.EpisodeFilenameParses | org-lib/command-helper.rb:54-63 | a generated name is an episode file numbered with the padded number exactly when the original has an extension that is not a subtitle extension |
| Naming.EpisodeNumberPart | org-lib/command-helper.rb:54-63 | with `num < 10^w`, the `w` characters after `"<base> - "` in a generated name are digits with value `num` |
| Naming.EpisodeFilenameInjective | org-lib/command-helper.rb:54-63 | the same width never gives two numbers the same name, whatever the original names |
| Naming.DigestFilenameIsNoEpisode | org-lib/command-helper.rb:66-73 | the manifest is never taken for an episode file, and is never the config file `0org` |
| Naming.YieldsMembers | org-lib/command-helper.rb:43-50 | the episodes yielded are exactly the entries matching the episode pattern, each with its number |
| Naming.YieldsSorted | org-lib/command-helper.rb:43-47 | for a sorted listing, the episodes are yielded in increasing name order |
| Naming.DigitsInWidth | org-lib/command-helper.rb:24-35 | `digits` returns `w` exactly when every episode number has `w` characters, and 2 when there are none |
| Naming.DigitsInFails | org-lib/command-helper.rb:28-29 | `digits` raises exactly when two episode numbers differ in width |
| Filesystem.Entries | org-lib/command-helper.rb:43 | an entry is a path without `/`, `.`, `..`, or the manifest once it exists, and nothing else |
| Filesystem.Renamed | org-lib/commands/import.rb:131 | after a rename, `dst` holds the source's content, `src` is gone, and every other path keeps its content |
| Filesystem.Directory.constructor | org-lib/command-helper.rb:11-15 | a directory's base name is `basename` of its own name |
| Filesystem.Directory.SortedEntries | org-lib/command-helper.rb:43 | `Dir.entries('.').sort` is strictly sorted and lists the plain file names, `.`, `..` and the manifest once it exists |
| Filesystem.Directory.AppendLine | org-lib/commands/import.rb:126-128 | appending adds one line at the end of the manifest and creates it if missing; the files do not change |
| Filesystem.Directory.MoveFile | org-lib/commands/import.rb:131 | `mv` raises on a missing source and changes nothing; otherwise only the rename happens |
| CommandHelper.EachEpisodeFile | org-lib/command-helper.rb:40-51 | the loop yields the episodes of the current directory state in sorted order |
| CommandHelper.SelectEpisodes | org-lib/command-helper.rb:43-50 | the loop over a listing yields exactly the episodes of that listing |
| CommandHelper.Digits | org-lib/command-helper.rb:24-35 | `digits` computes the width that `DigitsInWidth` characterises |
| CommandHelper.CommonWidth | org-lib/command-helper.rb:25-34 | the loop returns the first number's width once all widths agree, raises at the first one that differs, and returns 2 for no episodes |
| CommandHelper.EpisodeFilenameFor | org-lib/command-helper.rb:54-63 | `episode_filename` raises when `digits` does; otherwise it returns the name built with the current width |
| Digests.ZlibCrc32Chains | org-lib/command-helper.rb:110-112 | feeding `a`, then `b` to `Zlib.crc32` gives the CRC-32 of `a + b` |
| Digests.UpdateChains | org-lib/command-helper.rb:95-99 | two updates of a digest object equal one update with both buffers |
| Digests.PackN | org-lib/command-helper.rb:114-116 | `[v].pack("N")` is four bytes whose big-endian value is `v` |
| Digests.FedDigest | org-lib/command-helper.rb:95-102 | a fresh digest fed the content yields the digest of that content |
| Digests.HexDigestShape | org-lib/command-helper.rb:102 | a hex digest is lower case, 8 characters for CRC-32 or 40 for SHA-1; a CRC-32 digest's value is the CRC-32 of the content |
| Digests.FirstUnsupportedAt | org-lib/command-helper.rb:82-91 | the raise names the first unknown digest name |
| Digests.NewDigests | org-lib/command-helper.rb:82-91 | one fresh digest object per name, or the raise for the first unknown name |
| Digests.FeedAll | org-lib/command-helper.rb:98 | every digest object is updated with the buffer |
| Digests.FeedFile | org-lib/command-helper.rb:93-100 | reading in 8 MiB chunks leaves every digest as if it were fed the whole content at once |
| Digests.HexDigests | org-lib/command-helper.rb:102 | the results are the hex digests of the content, in the order of the names |
| Digests.HashesFor | org-lib/command-helper.rb:81-103 | an unknown name raises, then a missing file raises; otherwise one hex digest of the content per name, in order |
| ImportNumbers.StripKeepsPlainText | org-lib/commands/import.rb:146 | text before the first `[` survives the CRC-token removal unchanged |
| ImportNumbers.FirstCrcTokenAt | org-lib/commands/import.rb:90-92 | the announced CRC is the token at the first position where `[XXXXXXXX]` occurs |
| ImportNumbers.NoCrcToken | org-lib/commands/import.rb:90-146 | no CRC is announced exactly when no position holds a token, and then the removal leaves the name unchanged |
| ImportNumbers.DigitRunsSplit | org-lib/commands/import.rb:147 | `scan(/\d+/)` splits at every non-digit |
| ImportNumbers.StripSplit | org-lib/commands/import.rb:146 | where no token reaches across a boundary, the CRC-token removal of a concatenation is the removal of each part |
| ImportNumbers.StripCrcToken | org-lib/commands/import.rb:146 | every `[XXXXXXXX]` token is removed whatever surrounds it: the removal of `a + token + b` is that of `a` followed by that of `b` |
| ImportNumbers.CrcDigitsIgnored | org-lib/commands/import.rb:143-147 | the digits of a CRC token never count: the numbers of a name with a token are those of the text around it, and those of each side when the text before ends in a non-digit |
| ImportNumbers.NumbersInFilename | org-lib/commands/import.rb:145-148 | one number per digit run left after the CRC tokens are removed, each the run's decimal value |
| ImportNumbers.NumberInFilename | org-lib/commands/import.rb:145-148 | a digit run that no CRC token covers, with no digit beside it once the tokens are removed, is found with its value between the numbers before it and those after it |
| ImportNumbers.EpisodeNumbers | org-lib/commands/import.rb:158-159 | one number per yielded episode, and an episode's digit string gives its decimal value, its padding zeros ignored |
| ImportNumbers.SeriesOutcome | org-lib/commands/import.rb:156-167 | the series walk succeeds exactly when the numbers run without a gap from the first expected one |
| ImportNumbers.SeriesComplete | org-lib/commands/import.rb:156-167 | a gap-free series continues with the number after the last |
| ImportNumbers.SeriesBroken | org-lib/commands/import.rb:160-161 | the walk raises with the expected number and the first number that differs from it |
| ImportCommand.FileInfo.constructor | org-lib/commands/import.rb:13-15 | a new `FileInfo` holds its path and no digests |
| ImportCommand.NextNumberInSeries | org-lib/commands/import.rb:156-167 | `next_number_in_series` computes the series walk over the current episodes, starting at 1 |
| ImportCommand.FirstFailurePasses | org-lib/commands/import.rb:61-84 | the first loop passes exactly when every verdict is a pass |
| ImportCommand.FirstFailureAt | org-lib/commands/import.rb:61-84 | otherwise the loop ends with the first verdict that is not a pass |
| ImportCommand.CandidateCheckAccepts | org-lib/commands/import.rb:62-81 | one path passes exactly when it exists, contains its number, has an extension, and has a free destination |
| ImportCommand.CandidatesAccepted | org-lib/commands/import.rb:60-84 | the first loop accepts exactly when every path passes those checks with its own number, `start + i` |
| ImportCommand.CandidatesRaise | org-lib/commands/import.rb:77 | the first loop raises only the inconsistent-naming error of `digits` |
| ImportCommand.CrcMatchesValue | org-lib/commands/import.rb:102-111 | the CRC check passes exactly when no CRC is announced, or the announced hex value, in either case, is the CRC-32 of the content |
| ImportCommand.DigestsAccepted | org-lib/commands/import.rb:86-113 | with every file present, the second loop does not raise, and passes exactly when every announced CRC matches |
| ImportCommand.SanityAccepts | org-lib/commands/import.rb:59-116 | `sanity_check` passes exactly when every path passes the first loop's checks and its CRC check, and it raises only when `digits` does |
| ImportCommand.SanityCheck | org-lib/commands/import.rb:59-116 | the method returns `sanity_check`'s verdict; on a pass every `FileInfo` holds its digests; no `FileInfo` changes when the first loop fails |
| ImportCommand.CheckCandidates | org-lib/commands/import.rb:60-84 | the loop returns the first loop's verdict |
| ImportCommand.CheckCandidate | org-lib/commands/import.rb:62-83 | one pass returns the verdict on its path |
| ImportCommand.CheckDigests | org-lib/commands/import.rb:86-115 | the loop returns the second loop's verdict, and on a pass every `FileInfo` holds its digests |
| ImportCommand.DigestNext | org-lib/commands/import.rb:95-112 | one pass raises on a missing file and otherwise returns the CRC verdict; earlier digests are kept |
| ImportCommand.DigestFile | org-lib/commands/import.rb:95-98 | the digests are stored in the `FileInfo` when the file exists; a missing file raises with the `FileInfo` unchanged |
| ImportCommand.ManifestLine | org-lib/commands/import.rb:127 | a manifest line ends in two spaces and the destination, and with a SHA-1 known it is exactly `"<sha1>  <dest>"` |
| ImportCommand.PerformMoves | org-lib/commands/import.rb:120-137 | the method leaves the result and state of the passes over the candidates |
| ImportCommand.MoveOne | org-lib/commands/import.rb:122-134 | one pass either ends the passes with its error, or hands its new state to the next pass |
| ImportCommand.SanityFindsFiles | org-lib/commands/import.rb:62-65 | after a passed check every candidate exists |
| ImportCommand.CandidatesDigested | org-lib/commands/import.rb:98 | after a passed check, `perform_moves` reads each path with the SHA-1 of its content |
| ImportCommand.NewFileInfos | org-lib/commands/import.rb:50 | one fresh `FileInfo` per argument, in order, without digests |
| ImportCommand.ImportFiles | org-lib/commands/import.rb:50-54 | `run` from the checks on: 1 when the check fails, the moves when it passes |
| ImportCommand.Run | org-lib/commands/import.rb:39-55 | `run` leaves the exit status or the error raised, and the final directory state that `ImportRun` gives |
| ImportProperties.DigitsPositive | org-lib/command-helper.rb:24-35 | the width `digits` returns is at least 1 |
| ImportProperties.ExtensionOfEpisodeName | org-lib/command-helper.rb:56 | an episode name's extension is its own `.<ext>` |
| ImportProperties.EpisodeStaysEpisode | org-lib/commands/import.rb:124 | the destination of an episode file is again an episode file, numbered with the padded number |
| ImportProperties.MoveKeepsDigits | org-lib/commands/import.rb:124-131 | a pass whose number is below `10^w` keeps `digits` at `w` |
| ImportProperties.StepMoves | org-lib/commands/import.rb:124-131 | a pass over an existing file appends its line and renames it to its episode name |
| ImportProperties.StepKeepsDigits | org-lib/commands/import.rb:124-131 | the state that pass leaves keeps `digits` at `w` |
| ImportProperties.DestinationsDistinct | org-lib/commands/import.rb:124 | two candidates never get the same destination |
| ImportProperties.RelocatedAll | org-lib/commands/import.rb:131 | renaming distinct sources to distinct free names: each destination holds its source's content; sources are gone; other files are kept; no other name appears |
| ImportProperties.MovesFromMoved | org-lib/commands/import.rb:122-134 | when the checks' facts hold from a pass on, that pass and every later one succeed, leaving the state `Moved` describes |
| ImportProperties.PerformMovesSucceeds | org-lib/commands/import.rb:120-137 | `perform_moves` succeeds for distinct existing candidates with free destinations and numbers below `10^w`; the effects are listed below |
| ImportProperties.SanityMovable | org-lib/commands/import.rb:52-53 | a passed `sanity_check` with distinct paths and numbers below `10^w` establishes what `perform_moves` needs |
| ImportProperties.ImportMoves | org-lib/commands/import.rb:52-54 | then `run`'s moves succeed and it returns 0 |
| ImportProperties.ImportSucceeds | org-lib/commands/import.rb:50-54 | then every candidate has moved to its episode name with its content; an empty list changes nothing |
| ImportProperties.ImportKeepsOthers | org-lib/commands/import.rb:50-54 | then every other file keeps its content, and only episode names are new |
| ImportProperties.ImportRecords | org-lib/commands/import.rb:126-128 | then the manifest keeps its old lines and gains `"<sha1>  <dest>"` for each candidate, in order |
| ImportProperties.ImportTwice | org-lib/commands/import.rb:120-137 | a path given twice passes the check; the second move raises after the file has moved and both lines were appended |
| ImportProperties.MovesTwice | org-lib/commands/import.rb:124-131 | two passes over one candidate: the first moves it, the second appends its line and then raises |
| ImportProperties.StartOption | org-lib/commands/import.rb:42-44 | `-nN` sets the first number to `N` and is not itself a candidate |
| ImportProperties.StartTextBelowOne | org-lib/commands/import.rb:39-49 | `-n` with no number reads as 0 and `-n-N` as `-N`; `run` raises `ArgumentError` for both, and for no arguments, with nothing changed |
| ImportProperties.ImportChangesOnlyAfterCheck | org-lib/commands/import.rb:52-53 | the directory changes, or 0 is returned, only after a passed check; 1 is returned exactly when the check fails, and then nothing changes |
| ImportProperties.RunChangesOnlyAfterCheck | org-lib/commands/import.rb:39-55 | `run` changes the directory or returns 0 or 1 only with an argument and a first number of at least 1, and its check decides as above |
| CheckCommand.ParseLine | org-lib/commands/check.rb:42-44 | a line is taken exactly when it starts with 40 characters of `[0-9a-fA-Z]` and two spaces; they are the digest and the rest is the file name |
| CheckCommand.Checked | org-lib/commands/check.rb:40-51 | at most one name per manifest line |
| CheckCommand.CheckedMembers | org-lib/commands/check.rb:40-51 | every accepted line's file name is among the checked names, and every checked name is the file name of an accepted line |
| CheckCommand.CheckedAppend | org-lib/commands/check.rb:40-51 | the names are collected line by line in manifest order: those of two runs of lines are those of the first followed by those of the second |
| CheckCommand.ParseManifestLine | org-lib/commands/check.rb:42-44 | every line `import` writes is taken, with its own digest and destination |
| CheckCommand.VerifyMeans | org-lib/commands/check.rb:41-58 | the walk raises exactly when a taken line names a missing file; otherwise its verdict is true exactly when every taken line records its file's SHA-1 |
| CheckCommand.VerifyRaises | org-lib/commands/check.rb:53 | the error names the file of the first taken line whose file is missing |
| CheckCommand.DigestCheck | org-lib/commands/check.rb:36-64 | `digest_check` raises on a missing manifest or file; otherwise it returns the checked names, repeats kept, when all agree and `nil` otherwise |
| CheckCommand.CheckEntry | org-lib/commands/check.rb:53 | one comparison raises on a missing file and otherwise is the case-sensitive comparison with the file's SHA-1 |
| CheckCommand.UpperCaseDisagrees | org-lib/commands/check.rb:42-53 | a recorded digest with an upper-case letter never matches |
| CheckCommand.RecordedPasses | org-lib/commands/check.rb:36-64 | a manifest of the lines `import` writes for existing files checks clean, and its checked names are those files |
| CheckCommand.Unchecked | org-lib/commands/check.rb:23-29 | the report is sorted and lists the entries that are neither reserved (manifest, `.`, `..`, `0org`) nor checked |
| CheckCommand.UnreportedMeans | org-lib/commands/check.rb:23-29 | over any sorted listing, the report is sorted and holds exactly the unreserved, unchecked entries |
| CheckCommand.SelectUnchecked | org-lib/commands/check.rb:23-29 | the report loop computes that report |
| CheckCommand.ReportUnchecked | org-lib/commands/check.rb:23-29 | the report over the current directory |
| CheckCommand.Run | org-lib/commands/check.rb:17-32 | `check` raises what `digest_check` raises; it returns 1 when a digest disagrees, and 0 with the unchecked files reported otherwise |

## Left out

- Standard-error output is not modelled: progress messages, "NOT OK", the reasons `sanity_check` fails, and the duplicate-entry warning of `digest_check`. `check`'s list of unchecked files is modelled, as its report.
- The manifest is kept apart from the other files. It therefore cannot itself be imported, hashed or moved, and a candidate path cannot be the manifest.
- Paths are plain strings. The model has no subdirectories apart from excluding names with `/` from the listing, no `..` resolution, no links, and no two spellings of one file.
- `Filesystem.Entries` does not list a directory: a file `sub/x` does not make `sub` an entry, where `Dir.entries` would list it and `check` would report it as unchecked.
- `Filesystem.Move`, `Filesystem.Directory.MoveFile`, `ImportProperties.PerformMovesSucceeds`, `ImportMoves` and `ImportSucceeds` let a rename create any destination path. `File.rename` raises `Errno::ENOENT` when the destination's directory does not exist. That happens when the only dot of a candidate path is in a directory name, as in `ep3.x/file`: its extension is `.x/file`, the destination `<base> - 03.x/file`, and `perform_moves` raises after appending the line. The model instead reports success for that case.
- Entry names and arguments are taken to contain no newline. Ruby's `^`, `$` and `.` are line-based.
- `FileUtils.mv` onto the source itself, and onto an existing directory, are not modelled.
- SHA-1 is a parameter rather than an implementation. CRC-32 is implemented in full.
- `Text.ToI` models `String#to_i`: leading whitespace, a sign, digits and single underscores. The `0d`-style radix prefixes `to_i` also accepts are left out.
- `sha1_hex` is not modelled as written. It calls `digests_for`, which does not exist (org-lib/command-helper.rb:120-123), so `check` would stop at the first taken line. `CheckCommand.CheckEntry` uses `hashes_for(filename, [:sha1])[0]` instead, the non-deprecated call the method's own message points to. As a consequence, a manifest line naming a missing file raises and ends `check`. Here the code is followed rather than the intended behaviour of reporting the file and going on.
- `ImportCommand.SanityCheck` and `ImportCommand.CheckDigests` do not state which `FileInfo`s hold digests after a failed CRC check or a raise. They state the verdict, the digests on a pass, and no change when the first loop fails.
- `ImportProperties.PerformMovesSucceeds`, `ImportMoves`, `ImportSucceeds`, `ImportKeepsOthers` and `ImportRecords` require distinct candidate paths and every number below `10^w`. The outcome with a repeated path is stated separately by `ImportTwice`. With a number that overflows the width, the destination name widens and `digits` can raise in the middle of the moves. That case is modelled by `MoveStep` but not characterised by a lemma.
- `Filesystem.Directory.AppendLine`, `ImportProperties.ImportRecords` and `CheckCommand.RecordedPasses` take the manifest to be a list of whole lines, so each `io.puts` adds a line of its own. A manifest whose last byte is not a newline, after an edit by hand, say, would have the new entry joined to its last line, and `check` would read the two as one entry. That case is not modelled.
- `ImportProperties.MovesTwice` requires the destination to be free, as the check guarantees.
- Concurrency, file permissions, the clock and I/O errors other than a missing file are not modelled.
- The command dispatcher, `Command`, usage texts and the deprecated `crc32_hex` are not part of this model.
