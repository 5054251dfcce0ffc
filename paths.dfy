/** Where `process_podcast` and `main` put things: the episode file name
    `clean_filename(f"{date}_ep{n}_{title}{extension}")`, the per-source
    output directory and the cover path. */
module Paths {
  import opened Wrappers
  import opened Decimal
  import opened Chrono
  import opened Sanitizer

  /** How an f-string renders an optional string: None prints as "None". */
  function Render(v: Option<string>): (r: string) {
    match v
    case None => "None"
    case Some(s) => s
  }

  /** The part of the raw file name that precedes the title:
      `{date_string}_ep{episode_number}_`. */
  function NamePrefix(date: DateTime, n: nat): (r: string) {
    OutDate(date) + "_ep" + NatToString(n) + "_"
  }

  /** The file name built on lines 182-184: the raw name, sanitised. */
  function EpisodeFileName(date: DateTime, n: nat, title: Option<string>, ext: Option<string>): (r: string) {
    CleanFilename(NamePrefix(date, n) + Render(title) + Render(ext))
  }

  /** `f"{outPath}{name}/"`. */
  function OutDir(outPath: string, name: string): (r: string) {
    outPath + name + "/"
  }

  /** `f'{outDir}{filename}'`. */
  function EpisodePath(outDir: string, date: DateTime, n: nat, title: Option<string>, ext: Option<string>): (r: string) {
    outDir + EpisodeFileName(date, n, title, ext)
  }

  /** `f'{outDir}cover{ext}'`, the album art copy. */
  function CoverPath(outDir: string, ext: Option<string>): (r: string) {
    outDir + "cover" + Render(ext)
  }

  /** Podcasts with different names get different output directories,
      and every episode and the cover lie inside the directory. */
  lemma OutDirLayout(outPath: string, name: string, other: string, date: DateTime, n: nat,
                     title: Option<string>, ext: Option<string>, coverExt: Option<string>)
    ensures OutDir(outPath, name) == OutDir(outPath, other) <==> name == other
    ensures var dir := OutDir(outPath, name);
      && dir[..|outPath|] == outPath && dir[|dir| - 1] == '/'
      && EpisodePath(dir, date, n, title, ext)[..|dir|] == dir
      && CoverPath(dir, coverExt)[..|dir|] == dir
  {
    if OutDir(outPath, name) == OutDir(outPath, other) {
      assert name == OutDir(outPath, name)[|outPath|..|outPath| + |name|];
    }
  }

  /** The index of the first `_` in `s`, or `|s|` when there is none. */
  function FindUnderscore(s: string): (i: nat)
    ensures i <= |s|
    ensures forall j :: 0 <= j < i ==> s[j] != '_'
    ensures i < |s| ==> s[i] == '_'
  {
    if s == [] || s[0] == '_' then 0 else 1 + FindUnderscore(s[1..])
  }

  /** Reads the episode number back out of a file name: the digits that
      follow the first `_ep`. */
  function EpisodeNumberOf(name: string): (r: Option<nat>) {
    var i := FindUnderscore(name);
    if i + 3 <= |name| && name[i..i + 3] == "_ep" then
      var d := LeadingDigits(name[i + 3..]);
      if d == [] then None else Some(ParseDigits(d))
    else None
  }

  lemma PrefixAllowed(date: DateTime, n: nat)
    ensures AllAllowed(NamePrefix(date, n))
  {
    var p := NamePrefix(date, n);
    var d, k := OutDate(date), NatToString(n);
    OutDateFields(date);
    forall i | 0 <= i < |p| ensures IsAllowed(p[i]) {
      if i < |d| {
        assert p[i] == d[i];
      } else if i < |d| + 3 {
        assert p[i] == "_ep"[i - |d|];
      } else if i < |d| + 3 + |k| {
        assert p[i] == k[i - |d| - 3];
      } else {
        assert p[i] == '_';
      }
    }
  }

  /** Sanitising leaves the prefix alone: the file name is the date, the
      number and `_ep`/`_` literally, followed by the sanitised title and
      extension. */
  lemma FileNameShape(date: DateTime, n: nat, title: Option<string>, ext: Option<string>)
    ensures EpisodeFileName(date, n, title, ext)
      == NamePrefix(date, n) + CleanFilename(Render(title) + Render(ext))
  {
    var p := NamePrefix(date, n);
    PrefixAllowed(date, n);
    assert p[|p| - 1] == '_';
    assert p + Render(title) + Render(ext) == p + (Render(title) + Render(ext));
    CleanConcat(p, Render(title) + Render(ext));
    CleanAllowedIsIdentity(p);
  }

  /** An extension made only of allowed characters (".mp3", or "None"
      when the MIME type is unknown) ends the file name unchanged. */
  lemma ExtensionKept(date: DateTime, n: nat, title: Option<string>, ext: Option<string>)
    requires AllAllowed(Render(ext))
    ensures EpisodeFileName(date, n, title, ext)
      == NamePrefix(date, n) + CleanFilename(Render(title)) + Render(ext)
  {
    PrefixAllowed(date, n);
    CleanBetweenAllowed(NamePrefix(date, n), Render(title), Render(ext));
  }

  /** An unknown MIME type renders as the literal text "None" at the end
      of the file name. */
  lemma UnknownTypeEndsInNone(date: DateTime, n: nat, title: Option<string>)
    ensures EpisodeFileName(date, n, title, None)
      == NamePrefix(date, n) + CleanFilename(Render(title)) + "None"
  {
    assert AllAllowed("None") by {
      var none := "None";
      assert IsAllowed(none[0]) && IsAllowed(none[1]) && IsAllowed(none[2]) && IsAllowed(none[3]);
    }
    ExtensionKept(date, n, title, None);
  }

  lemma {:induction false} UnderscoreAfter(a: string, b: string)
    requires forall i :: 0 <= i < |a| ==> a[i] != '_'
    requires b != [] && b[0] == '_'
    ensures FindUnderscore(a + b) == |a|
  {
    if a == [] {
      assert a + b == b;
    } else {
      assert (a + b)[1..] == a[1..] + b;
      UnderscoreAfter(a[1..], b);
    }
  }

  lemma NumberAfterUnderscore(d: string, k: string, rest: string)
    requires forall i :: 0 <= i < |d| ==> d[i] != '_'
    requires k != [] && AllDigits(k)
    ensures EpisodeNumberOf(d + ("_ep" + k + "_" + rest)) == Some(ParseDigits(k))
  {
    var name := d + ("_ep" + k + "_" + rest);
    UnderscoreAfter(d, "_ep" + k + "_" + rest);
    var i := |d|;
    assert name[i..i + 3] == "_ep";
    assert name[i + 3..] == k + ("_" + rest);
    LeadingDigitsOf(k, "_" + rest);
  }

  lemma DateHasNoUnderscore(date: DateTime)
    ensures forall i :: 0 <= i < |OutDate(date)| ==> OutDate(date)[i] != '_'
  {
    OutDateFields(date);
  }

  /** The episode number can be read back from the file name, whatever the
      title and extension. */
  lemma NumberRecoverable(date: DateTime, n: nat, title: Option<string>, ext: Option<string>)
    ensures EpisodeNumberOf(EpisodeFileName(date, n, title, ext)) == Some(n)
  {
    FileNameShape(date, n, title, ext);
    var d, k := OutDate(date), NatToString(n);
    var rest := CleanFilename(Render(title) + Render(ext));
    Regroup(d, k, rest);
    DateHasNoUnderscore(date);
    ParseNatToString(n);
    NumberAfterUnderscore(d, k, rest);
  }

  lemma Regroup(d: string, k: string, rest: string)
    ensures d + "_ep" + k + "_" + rest == d + ("_ep" + k + "_" + rest)
  {
  }

  /** Distinct episode numbers give distinct file names, so within one
      output directory no two episodes share a path. */
  lemma DistinctNumbersDistinctNames(d1: DateTime, n1: nat, t1: Option<string>, e1: Option<string>,
                                     d2: DateTime, n2: nat, t2: Option<string>, e2: Option<string>)
    requires n1 != n2
    ensures EpisodeFileName(d1, n1, t1, e1) != EpisodeFileName(d2, n2, t2, e2)
    ensures forall dir :: EpisodePath(dir, d1, n1, t1, e1) != EpisodePath(dir, d2, n2, t2, e2)
  {
    var a, b := EpisodeFileName(d1, n1, t1, e1), EpisodeFileName(d2, n2, t2, e2);
    NumberRecoverable(d1, n1, t1, e1);
    NumberRecoverable(d2, n2, t2, e2);
    assert a != b;
    forall dir ensures EpisodePath(dir, d1, n1, t1, e1) != EpisodePath(dir, d2, n2, t2, e2) {
      PrefixCancel(dir, a, b);
    }
  }

  lemma PrefixCancel(dir: string, a: string, b: string)
    ensures dir + a == dir + b ==> a == b
  {
    if dir + a == dir + b {
      assert a == (dir + a)[|dir|..];
    }
  }

  /** An episode file name starts with a digit of the year, the cover's
      with `c`: no episode is ever written over the cover. */
  lemma CoverIsNotAnEpisode(outDir: string, date: DateTime, n: nat, title: Option<string>,
                            ext: Option<string>, coverExt: Option<string>)
    ensures EpisodePath(outDir, date, n, title, ext) != CoverPath(outDir, coverExt)
  {
    FileNameShape(date, n, title, ext);
    var d := OutDate(date);
    OutDateFields(date);
    assert IsDigit(d[..|d| - 6][0]);
    var p := EpisodePath(outDir, date, n, title, ext);
    var c := CoverPath(outDir, coverExt);
    assert p[|outDir|] == d[0];
    assert c[|outDir|] == 'c';
  }
}
