/**
  How a series directory names its files (the string side of `CommandHelper`):
  the base name taken from the directory's own name, the episode file names
  `"<base> - <NN>.<ext>"` recognised by `each_episode_file`, the names
  `episode_filename` generates, the digest manifest and the config file, and
  the digit width `digits` settles on.
*/
module Naming {
  import opened Wrappers
  import opened Text

  // ---------------------------------------------------------------------------
  // `basename`: drop one trailing `/\s+\([^\(\)]+\)$/` annotation

  predicate AllSpace(s: string) { forall i :: 0 <= i < |s| ==> IsSpace(s[i]) }

  predicate IsParen(c: char) { c == '(' || c == ')' }

  predicate ParenFree(s: string) { forall i :: 0 <= i < |s| ==> !IsParen(s[i]) }

  /**
    `t` as a whole matches `\s+\([^\(\)]+\)$`: white space, `(`, a non-empty
    text without brackets, `)` at the end. `p` is the position of the `(`.
  */
  predicate AnnotationAt(t: string, p: int) {
    0 < p < |t| - 2 && AllSpace(t[..p]) && t[p] == '(' && ParenFree(t[p + 1..|t| - 1]) && t[|t| - 1] == ')'
  }

  ghost predicate IsAnnotation(t: string) {
    exists p :: AnnotationAt(t, p)
  }

  /**
    `r` is what is left of `name` once the leftmost match of the annotation
    pattern is removed: the pattern matches the rest of `name`, and no white
    space before it could have joined the match.
  */
  ghost predicate StripsTo(name: string, r: string) {
    |r| < |name| && name[..|r|] == r && IsAnnotation(name[|r|..]) && (|r| == 0 || !IsSpace(r[|r| - 1]))
  }

  /** The last position before `n` that holds a round bracket, or -1. */
  function LastParen(s: string, n: nat): (i: int)
    requires n <= |s|
    ensures -1 <= i < n && (0 <= i ==> IsParen(s[i]))
    ensures forall j :: i < j < n ==> !IsParen(s[j])
  {
    if n == 0 then -1 else if IsParen(s[n - 1]) then n - 1 else LastParen(s, n - 1)
  }

  /** The start of the run of white space that ends just before position `p`. */
  function SpaceRunStart(s: string, p: nat): (q: nat)
    requires p <= |s|
    ensures q <= p && AllSpace(s[q..p]) && (0 < q ==> !IsSpace(s[q - 1]))
  {
    if p == 0 || !IsSpace(s[p - 1]) then p
    else
      var q := SpaceRunStart(s, p - 1);
      assert s[q..p] == s[q..p - 1] + [s[p - 1]];
      q
  }

  /**
    `basename`: the name of the current directory, with a trailing
    `" (...)"` annotation (the state of the series) removed.
  */
  function Basename(name: string): (r: string)
    ensures r == name || StripsTo(name, r)
  {
    if |name| == 0 || name[|name| - 1] != ')' then name
    else
      var p := LastParen(name, |name| - 1);
      if p < 1 || name[p] != '(' || p == |name| - 2 then name
      else
        var q := SpaceRunStart(name, p);
        if q == p then name
        else
          AnnotationFound(name, p, q);
          name[..q]
  }

  /** A `(` at `p` after white space from `q`, and no bracket up to the final `)`: an annotation from `q`. */
  lemma AnnotationFound(name: string, p: nat, q: nat)
    requires q < p < |name| - 2 && AllSpace(name[q..p]) && name[p] == '(' && name[|name| - 1] == ')'
    requires forall j :: p < j < |name| - 1 ==> !IsParen(name[j])
    ensures AnnotationAt(name[q..], p - q)
  {
    var t := name[q..];
    assert t[..p - q] == name[q..p];
    assert forall j :: p - q + 1 <= j < |t| - 1 ==> t[j] == name[j + q];
  }

  /**
    `basename` removes exactly the annotation the pattern matches: it changes
    `name` into `r` if and only if `r` is `name` with that suffix stripped.
  */
  lemma BasenameStrips(name: string, r: string)
    ensures StripsTo(name, r) <==> Basename(name) == r && r != name
  {
    if StripsTo(name, r) {
      StrippedByBasename(name, r);
    }
  }

  /** The annotation the pattern matches is the one `basename` removes. */
  lemma StrippedByBasename(name: string, r: string)
    requires StripsTo(name, r)
    ensures Basename(name) == r
  {
    var t := name[|r|..];
    var p' :| AnnotationAt(t, p');
    var p := |r| + p';
    assert name[p] == '(';
    assert name[|name| - 1] == ')';
    forall j | p < j < |name| - 1 ensures !IsParen(name[j]) {
      assert name[j] == t[p' + 1..|t| - 1][j - p - 1];
    }
    var lp := LastParen(name, |name| - 1);
    assert lp == p;
    assert name[|r|..p] == t[..p'];
    if |r| > 0 {
      assert name[|r| - 1] == r[|r| - 1];
    }
    SpaceRunFrom(name, p, |r|);
  }

  /** The run of white space before `p` starts at `k` when it cannot extend further left. */
  lemma {:induction false} SpaceRunFrom(s: string, p: nat, k: nat)
    requires k <= p <= |s| && AllSpace(s[k..p]) && (0 < k ==> !IsSpace(s[k - 1]))
    ensures SpaceRunStart(s, p) == k
    decreases p
  {
    if k < p {
      assert s[p - 1] == s[k..p][p - 1 - k];
      assert s[k..p - 1] == s[k..p][..p - 1 - k];
      SpaceRunFrom(s, p - 1, k);
    }
  }

  // ---------------------------------------------------------------------------
  // Episode file names

  /** The file name `"<base> - <number>.<ext>"`. */
  function EpisodeName(base: string, number: string, ext: string): string {
    base + " - " + number + "." + ext
  }

  /** `[^.]+`: a non-empty extension without a dot. */
  predicate IsExtension(e: string) { |e| > 0 && forall i :: 0 <= i < |e| ==> e[i] != '.' }

  /** The subtitle extensions `(ass|ssa|sub)` that `each_episode_file` skips. */
  predicate IsSubtitle(e: string) { e == "ass" || e == "ssa" || e == "sub" }

  /** The longest prefix of `s` made of digits: what `(\d+)` takes before `\.`. */
  function DigitPrefix(s: string): (d: string)
    ensures |d| <= |s| && d == s[..|d|] && AllDigits(d)
    ensures |d| < |s| ==> !IsDigit(s[|d|])
  {
    if |s| == 0 || !IsDigit(s[0]) then []
    else
      var d := DigitPrefix(s[1..]);
      assert [s[0]] + d == s[..|d| + 1];
      [s[0]] + d
  }

  lemma {:induction false} DigitPrefixOfDigits(d: string, rest: string)
    requires AllDigits(d) && (rest == [] || !IsDigit(rest[0]))
    ensures DigitPrefix(d + rest) == d
  {
    if d != [] {
      assert (d + rest)[1..] == d[1..] + rest;
      DigitPrefixOfDigits(d[1..], rest);
    } else {
      assert d + rest == rest;
    }
  }

  /**
    The number string `each_episode_file` yields for `file`: `file` matches
    `^<base> - (\d+)\.[^.]+$` and not `^<base> - (\d+)\.(ass|ssa|sub)$`.
  */
  function ParseEpisode(base: string, file: string): (r: Option<string>)
    ensures r.Some? ==>
      var n := |base| + 4 + |r.value|;
      |r.value| > 0 && AllDigits(r.value) && n <= |file| &&
      file == EpisodeName(base, r.value, file[n..]) &&
      IsExtension(file[n..]) && !IsSubtitle(file[n..])
  {
    var k := |base| + 3;
    if |file| < k || file[..k] != base + " - " then None
    else
      var rest := file[k..];
      var d := DigitPrefix(rest);
      if |d| == 0 || |d| == |rest| || rest[|d|] != '.' then None
      else
        var ext := rest[|d| + 1..];
        if !IsExtension(ext) || IsSubtitle(ext) then None
        else
          assert rest == d + "." + ext;
          assert file == file[..k] + rest;
          assert file[k + |d| + 1..] == ext;
          Some(d)
  }

  /** Every name of the episode form is recognised, with its own number string. */
  lemma ParseEpisodeName(base: string, number: string, ext: string)
    requires |number| > 0 && AllDigits(number) && IsExtension(ext) && !IsSubtitle(ext)
    ensures ParseEpisode(base, EpisodeName(base, number, ext)) == Some(number)
  {
    var file := EpisodeName(base, number, ext);
    var k := |base| + 3;
    assert file[..k] == base + " - ";
    var rest := file[k..];
    assert rest == number + ("." + ext);
    DigitPrefixOfDigits(number, "." + ext);
    assert rest[|number| + 1..] == ext;
  }

  /**
    The extension `episode_filename` copies: what `/^.*(\.[^\.]+$)/` captures,
    the last dot and the non-empty dot-free rest; `""` when there is none.
  */
  function Extension(path: string): (x: string)
    ensures x == "" || (x[0] == '.' && IsExtension(x[1..]) && |x| <= |path| && path[|path| - |x|..] == x)
    ensures x == "" <==> |path| == 0 || path[|path| - 1] == '.' || forall i :: 0 <= i < |path| ==> path[i] != '.'
  {
    if |path| == 0 || path[|path| - 1] == '.' then ""
    else
      var i := LastDot(path, |path|);
      if i < 0 then "" else path[i..]
  }

  /** The last position before `n` that holds a dot, or -1. */
  function LastDot(s: string, n: nat): (i: int)
    requires n <= |s|
    ensures -1 <= i < n && (0 <= i ==> s[i] == '.')
    ensures forall j :: i < j < n ==> s[j] != '.'
  {
    if n == 0 then -1 else if s[n - 1] == '.' then n - 1 else LastDot(s, n - 1)
  }

  /** `episode_filename(num, origfile)` once `digits` has returned `width`. */
  function EpisodeFilename(base: string, width: nat, num: nat, origfile: string): string {
    base + " - " + ZeroPad(num, width) + Extension(origfile)
  }

  /**
    The generated name is an episode name again, numbered by the padded
    number, unless the copied extension is missing or a subtitle extension.
  */
  lemma EpisodeFilenameParses(base: string, width: nat, num: nat, origfile: string)
    ensures var x := Extension(origfile);
      ParseEpisode(base, EpisodeFilename(base, width, num, origfile)) ==
        if x != "" && !IsSubtitle(x[1..]) then Some(ZeroPad(num, width)) else None
  {
    var x := Extension(origfile);
    var pad := ZeroPad(num, width);
    ZeroPadProperties(num, width);
    var file := EpisodeFilename(base, width, num, origfile);
    if x != "" {
      assert file == EpisodeName(base, pad, x[1..]);
      if !IsSubtitle(x[1..]) {
        ParseEpisodeName(base, pad, x[1..]);
      } else {
        var r := ParseEpisode(base, file);
        if r.Some? {
          NumberPartUnique(base, r.value, file[|base| + 4 + |r.value|..], pad, x[1..]);
        }
      }
    } else {
      assert file == base + " - " + pad;
      assert file[|base| + 3..] == pad + [];
      DigitPrefixOfDigits(pad, []);
      assert DigitPrefix(file[|base| + 3..]) == pad;
    }
  }

  /** The number and extension of an episode name are determined by the name. */
  lemma NumberPartUnique(base: string, d1: string, e1: string, d2: string, e2: string)
    requires AllDigits(d1) && AllDigits(d2)
    requires EpisodeName(base, d1, e1) == EpisodeName(base, d2, e2)
    ensures d1 == d2 && e1 == e2
  {
    var f := EpisodeName(base, d1, e1);
    var k := |base| + 3;
    assert f[k..] == d1 + ("." + e1) == d2 + ("." + e2);
    DigitPrefixOfDigits(d1, "." + e1);
    DigitPrefixOfDigits(d2, "." + e2);
    assert e1 == f[k + |d1| + 1..] == e2;
  }

  /**
    When `num` is below 10^width, the number part of the generated name has
    exactly `width` digits and reads back as `num`.
  */
  lemma EpisodeNumberPart(base: string, width: nat, num: nat, origfile: string)
    requires 1 <= width && num < Pow10(width)
    ensures var f := EpisodeFilename(base, width, num, origfile);
      var d := f[|base| + 3..|base| + 3 + width];
      |base| + 3 + width <= |f| && AllDigits(d) && DecimalValue(d) == num
  {
    ZeroPadProperties(num, width);
    var f := EpisodeFilename(base, width, num, origfile);
    assert f[|base| + 3..|base| + 3 + width] == ZeroPad(num, width);
  }

  /** Different numbers give different names, whatever the files they come from. */
  lemma EpisodeFilenameInjective(base: string, width: nat, n1: nat, f1: string, n2: nat, f2: string)
    requires EpisodeFilename(base, width, n1, f1) == EpisodeFilename(base, width, n2, f2)
    ensures n1 == n2
  {
    ZeroPadProperties(n1, width);
    ZeroPadProperties(n2, width);
    DigitsBeforeDot(base + " - ", ZeroPad(n1, width), Extension(f1), ZeroPad(n2, width), Extension(f2));
  }

  /** After a common prefix, a run of digits followed by nothing or by a dot is determined. */
  lemma DigitsBeforeDot(prefix: string, p1: string, x1: string, p2: string, x2: string)
    requires AllDigits(p1) && AllDigits(p2)
    requires (x1 == "" || x1[0] == '.') && (x2 == "" || x2[0] == '.')
    requires prefix + p1 + x1 == prefix + p2 + x2
    ensures p1 == p2
  {
    var s := prefix + p1 + x1;
    assert p1 + x1 == s[|prefix|..] == p2 + x2;
    DigitPrefixOfDigits(p1, x1);
    DigitPrefixOfDigits(p2, x2);
  }

  /** `digest_filename` */
  function DigestFilename(base: string): (r: string)
    ensures r == base + ".sha1"
  {
    base + ".sha1"
  }

  /** `config_filename` */
  const ConfigFilename: string := "0org"

  /** The manifest is never taken for an episode; it is not the config file either. */
  lemma DigestFilenameIsNoEpisode(base: string)
    ensures ParseEpisode(base, DigestFilename(base)) == None
    ensures DigestFilename(base) != ConfigFilename
  {
    var f := DigestFilename(base);
    var r := ParseEpisode(base, f);
    assert |f| == |base| + 5 > |ConfigFilename|;
  }

  // ---------------------------------------------------------------------------
  // What `each_episode_file` yields, and the width `digits` settles on

  /** One yield of `each_episode_file`: the file name and its number string. */
  datatype Episode = Episode(file: string, number: string)

  /** The yields, in the order of `entries`. */
  function Yields(base: string, entries: seq<string>): (ys: seq<Episode>)
    ensures |ys| <= |entries|
  {
    if entries == [] then []
    else
      var rest := Yields(base, entries[1..]);
      match ParseEpisode(base, entries[0])
      case Some(n) => [Episode(entries[0], n)] + rest
      case None => rest
  }

  /** Exactly the episode entries are yielded, each with its number string. */
  lemma {:induction false} YieldsMembers(base: string, entries: seq<string>)
    ensures forall y :: y in Yields(base, entries) <==> y.file in entries && ParseEpisode(base, y.file) == Some(y.number)
  {
    if entries != [] {
      YieldsMembers(base, entries[1..]);
      assert forall f :: f in entries <==> f == entries[0] || f in entries[1..];
    }
  }

  /** Yields come in the order of the entries: a sorted listing gives sorted yields. */
  lemma {:induction false} YieldsSorted(base: string, entries: seq<string>)
    requires StrictlySorted(entries)
    ensures forall i, j :: 0 <= i < j < |Yields(base, entries)| ==>
      LexLess(Yields(base, entries)[i].file, Yields(base, entries)[j].file)
  {
    if entries != [] {
      var tail := entries[1..];
      assert StrictlySorted(tail) by {
        forall i, j | 0 <= i < j < |tail| ensures LexLess(tail[i], tail[j]) {
          assert tail[i] == entries[i + 1] && tail[j] == entries[j + 1];
        }
      }
      YieldsSorted(base, tail);
      YieldsMembers(base, tail);
      var rest := Yields(base, tail);
      if ParseEpisode(base, entries[0]).Some? {
        var e := Episode(entries[0], ParseEpisode(base, entries[0]).value);
        var ys := [e] + rest;
        assert Yields(base, entries) == ys;
        forall j | 1 <= j < |ys| ensures LexLess(ys[0].file, ys[j].file) {
          assert rest[j - 1] in rest;
          var k :| 0 <= k < |tail| && tail[k] == rest[j - 1].file;
          assert entries[k + 1] == tail[k];
        }
      }
    }
  }

  /**
    `digits` as a reference: 2 when nothing is yielded, the common length of
    the number strings when they agree, and an error as soon as two differ.
  */
  function DigitsOf(ys: seq<Episode>): Result<nat> {
    if ys == [] then Ok(2)
    else if forall i :: 0 <= i < |ys| ==> |ys[i].number| == |ys[0].number| then Ok(|ys[0].number|)
    else Err(InconsistentNaming)
  }

  /** The files of a listing that are counted as episodes. */
  function Counted(base: string, S: set<string>): set<string> {
    set f | f in S && ParseEpisode(base, f).Some?
  }

  /** The width `digits` finds for a listing `S`: its sorted entries go through `each_episode_file`. */
  function DigitsIn(base: string, S: set<string>): Result<nat> {
    DigitsOf(Yields(base, SortedOf(S)))
  }

  /**
    The width does not depend on the order of the listing: `digits` returns
    `w` exactly when every counted episode's number has `w` characters, and
    `w` is 2 when nothing is counted.
  */
  lemma DigitsInWidth(base: string, S: set<string>, w: nat)
    ensures DigitsIn(base, S) == Ok(w) <==>
      (forall f :: f in Counted(base, S) ==> |ParseEpisode(base, f).value| == w) &&
      (Counted(base, S) == {} ==> w == 2)
  {
    var ys := Yields(base, SortedOf(S));
    YieldsMembers(base, SortedOf(S));
    if ys != [] {
      assert ys[0] in ys;
      assert ys[0].file in Counted(base, S);
      if DigitsIn(base, S) == Ok(w) {
        forall f | f in Counted(base, S) ensures |ParseEpisode(base, f).value| == w {
          var y := Episode(f, ParseEpisode(base, f).value);
          assert y in ys;
          var i :| 0 <= i < |ys| && ys[i] == y;
        }
      }
      if (forall f :: f in Counted(base, S) ==> |ParseEpisode(base, f).value| == w) {
        forall i | 0 <= i < |ys| ensures |ys[i].number| == w {
          assert ys[i] in ys;
          assert ys[i].file in Counted(base, S);
        }
      }
    } else {
      assert forall f :: f in Counted(base, S) ==> Episode(f, ParseEpisode(base, f).value) in ys;
    }
  }

  /** `digits` fails exactly when two counted episodes have numbers of different widths. */
  lemma DigitsInFails(base: string, S: set<string>)
    ensures DigitsIn(base, S).Err? <==>
      exists f, g :: f in Counted(base, S) && g in Counted(base, S) &&
        |ParseEpisode(base, f).value| != |ParseEpisode(base, g).value|
  {
    var C := Counted(base, S);
    if DigitsIn(base, S).Err? {
      var ys := Yields(base, SortedOf(S));
      YieldsMembers(base, SortedOf(S));
      var i :| 0 <= i < |ys| && |ys[i].number| != |ys[0].number|;
      assert ys[i] in ys && ys[0] in ys;
      assert ys[i].file in C && ys[0].file in C;
    } else {
      var w := DigitsIn(base, S).value;
      DigitsInWidth(base, S, w);
    }
  }
}
