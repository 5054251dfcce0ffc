/** What one call of `process_podcast`, the episode loop and one pass of
    `main`'s loop guarantee, stated over the functions of `Pipeline`. */
module PipelineProperties {
  import opened Wrappers
  import opened Decimal
  import opened Chrono
  import opened Feed
  import opened Ordering
  import opened Paths
  import opened Pipeline

  /** The frames an episode is tagged with, read off the podcast's tags,
      the episode and its art rather than off the dictionary. */
  function FramesFor(channel: Tags, n: nat, ep: Episode, art: Artwork): (r: Frames) {
    Frames(NatToString(n), ep.item.title, channel.album, channel.copyright,
           channel.artist, channel.albumArtist, "Podcast", NatToString(ep.date.year),
           art.data, art.mime)
  }

  /** The art filter, if there is one and there is an `href`, matches it. */
  predicate ArtMatches(env: Env, cfg: EpisodeConfig, ep: Episode) {
    ep.item.artHref.None? || ep.item.artHref.value == []
    || FilterUrl(env.findall, cfg.artUrlFilter, ep.item.artHref.value).Some?
  }

  predicate UrlMatches(env: Env, cfg: EpisodeConfig, ep: Episode) {
    FilterUrl(env.findall, cfg.episodeUrlFilter, ep.item.enclosureUrl).Some?
  }

  // ---------------------------------------------------------------------
  // One episode

  /** Lines 192-196 and 209-213: with no filter the URL is used as it is;
      with a filter, its first match, and no match at all is the
      IndexError. */
  lemma FilterUrlRule(findall: (string, string) -> seq<string>, filter: Option<string>, url: string)
    ensures filter.None? ==> FilterUrl(findall, filter, url) == Some(url)
    ensures filter.Some? ==> (FilterUrl(findall, filter, url).None? <==> findall(filter.value, url) == [])
    ensures FilterUrl(findall, filter, url).Some? && filter.Some? ==>
      FilterUrl(findall, filter, url).value == findall(filter.value, url)[0]
  {
  }

  /** Lines 170-183: the episode keys hold the item's title, description,
      raw `pubDate` text, parsed date and enclosure URL, the genre
      "Podcast", the guessed extension, and the year as decimal text. */
  lemma EpisodeTagsOfItem(ep: Episode, guess: string -> Option<string>)
    ensures var v := EpisodeValues(ep, guess);
      && v.title == ep.item.title && v.description == ep.item.description
      && v.publicationDate == ep.item.pubDate && v.date == ep.date
      && v.rawUrl == ep.item.enclosureUrl && v.genre == "Podcast"
      && v.extension == guess(ep.item.enclosureType)
      && AllDigits(v.dateYear) && ParseDigits(v.dateYear) == ep.date.year
  {
  }

  /** Lines 243-256: the frames read off the dictionary, once the episode
      and its art are set, are the ones FramesFor names: TRCK the number,
      TIT2 the title, TALB/TCOP/TPE1/TPE2 the podcast-level tags, TCON
      "Podcast", TDRC the year and APIC the episode art. */
  lemma FramesFromTags(channel: Tags, n: nat, ep: Episode, art: Artwork, guess: string -> Option<string>)
    ensures var tags := channel.(episode := Some(EpisodeValues(ep, guess)),
                                 artwork := Some(ArtTagValues(art.data, art.mime, guess(art.mime))));
      BuildFrames(tags, n) == FramesFor(channel, n, ep, art)
  {
  }

  /** The art depends on the podcast-level tags only. */
  lemma ArtFromChannelTags(env: Env, filter: Option<string>, a: Tags, b: Tags, href: Option<string>)
    requires SameChannelTags(a, b)
    ensures ResolveArt(env, filter, a, href) == ResolveArt(env, filter, b, href)
  {
  }

  /** Lines 200-222: an episode with no usable `href` falls back to the
      podcast's art and fetches nothing; one with an `href` fetches the
      (filtered) URL and takes the body and Content-Type of the response. */
  lemma ArtSources(env: Env, filter: Option<string>, tags: Tags, href: Option<string>)
    ensures href.None? || href.value == [] ==>
      ResolveArt(env, filter, tags, href) == Some(Artwork(tags.art, tags.artMime, []))
    ensures href.Some? && href.value != [] && FilterUrl(env.findall, filter, href.value).Some? ==>
      var u := FilterUrl(env.findall, filter, href.value).value;
      var resp := env.fetch(u);
      && ResolveArt(env, filter, tags, href) == Some(Artwork(resp.content, resp.contentType, [Fetch(u)]))
      && (filter.None? ==> u == href.value)
      && (filter.Some? ==> u == env.findall(filter.value, href.value)[0])
    ensures ResolveArt(env, filter, tags, href).None? <==>
      href.Some? && href.value != [] && FilterUrl(env.findall, filter, href.value).None?
  {
  }

  /** The URL filter runs before the existence and dry-run checks: when it
      matches nothing the episode fails, whatever else holds, and nothing
      is fetched or written. */
  lemma UrlFilterFailure(env: Env, cfg: EpisodeConfig, s: State, n: nat, ep: Episode)
    ensures !UrlMatches(env, cfg, ep) <==> Step(env, cfg, s, n, ep).1 == Failed(UrlNoMatch(n, ep.item.enclosureUrl))
    ensures !UrlMatches(env, cfg, ep) ==> Step(env, cfg, s, n, ep).0.files == s.files
    ensures !UrlMatches(env, cfg, ep) ==> Step(env, cfg, s, n, ep).0.effects == s.effects
  {
  }

  /** A dry run changes no file and performs no I/O for an episode. */
  lemma DryRunStep(env: Env, cfg: EpisodeConfig, s: State, n: nat, ep: Episode)
    requires env.dryRun
    ensures var r := Step(env, cfg, s, n, ep);
      && r.0.files == s.files && r.0.effects == s.effects
      && (r.1 == DryRunPause <==> UrlMatches(env, cfg, ep))
  {
  }

  /** An episode whose file exists is skipped without any I/O. */
  lemma ExistingSkipped(env: Env, cfg: EpisodeConfig, s: State, n: nat, ep: Episode)
    requires !env.dryRun && PathFor(env, cfg, n, ep) in s.files
    ensures var r := Step(env, cfg, s, n, ep);
      && r.0.files == s.files && r.0.effects == s.effects
      && (r.1 == Skipped <==> UrlMatches(env, cfg, ep))
  {
  }

  /** A new episode is downloaded exactly when both filters match: the art
      is fetched if the episode names its own, then the media is fetched,
      written to its path and tagged; the path now exists. */
  lemma DownloadStep(env: Env, cfg: EpisodeConfig, s: State, n: nat, ep: Episode)
    requires !env.dryRun && PathFor(env, cfg, n, ep) !in s.files
    ensures var r := Step(env, cfg, s, n, ep);
      r.1 == Downloaded <==> UrlMatches(env, cfg, ep) && ArtMatches(env, cfg, ep)
    ensures UrlMatches(env, cfg, ep) && !ArtMatches(env, cfg, ep) ==>
      var r := Step(env, cfg, s, n, ep);
      r.1 == Failed(ArtNoMatch(n, ep.item.artHref.value)) && r.0.files == s.files && r.0.effects == s.effects
    ensures UrlMatches(env, cfg, ep) && ArtMatches(env, cfg, ep) ==>
      var r := Step(env, cfg, s, n, ep);
      var url := FilterUrl(env.findall, cfg.episodeUrlFilter, ep.item.enclosureUrl).value;
      var art := ResolveArt(env, cfg.artUrlFilter, s.tags, ep.item.artHref).value;
      var path := PathFor(env, cfg, n, ep);
      && r.0.files == s.files + {path}
      && r.0.effects == s.effects + art.fetches + MediaEffects(env, url, path, FramesFor(s.tags, n, ep, art))
  {
    var s1 := s.(tags := s.tags.(episode := Some(EpisodeValues(ep, env.guessExtension))));
    var path := PathFor(env, cfg, n, ep);
    ArtFromChannelTags(env, cfg.artUrlFilter, s.tags, s1.tags, ep.item.artHref);
    match FilterUrl(env.findall, cfg.episodeUrlFilter, ep.item.enclosureUrl)
    case None =>
    case Some(url) =>
      assert Step(env, cfg, s, n, ep) == Download(env, cfg, s1, n, ep, url, path);
  }

  /** The part of DownloadStep the loop needs: a new episode whose filters
      both match is downloaded to its path. */
  lemma StepDownloads(env: Env, cfg: EpisodeConfig, s: State, n: nat, ep: Episode)
    requires !env.dryRun && PathFor(env, cfg, n, ep) !in s.files
    requires UrlMatches(env, cfg, ep) && ArtMatches(env, cfg, ep)
    ensures Step(env, cfg, s, n, ep).1 == Downloaded
    ensures Step(env, cfg, s, n, ep).0.files == s.files + {PathFor(env, cfg, n, ep)}
  {
    DownloadStep(env, cfg, s, n, ep);
  }

  /** The track number frame reads back as the episode number, and the
      year frame as the publication year. */
  lemma FrameNumbers(channel: Tags, n: nat, ep: Episode, art: Artwork)
    ensures var f := FramesFor(channel, n, ep, art);
      && AllDigits(f.trck) && ParseDigits(f.trck) == n
      && AllDigits(f.tdrc) && ParseDigits(f.tdrc) == ep.date.year
  {
    ParseNatToString(n);
    ParseNatToString(ep.date.year);
  }

  // ---------------------------------------------------------------------
  // The episode loop

  /** One more episode after a completed prefix of the loop. */
  lemma RunExtends(env: Env, cfg: EpisodeConfig, s: State, eps: seq<Episode>)
    requires eps != [] && Run(env, cfg, s, eps[..|eps| - 1]).1 == Completed
    ensures var after := Step(env, cfg, Run(env, cfg, s, eps[..|eps| - 1]).0, |eps|, eps[|eps| - 1]);
      Run(env, cfg, s, eps) == (after.0, if after.1.Failed? then Aborted(after.1.fault) else Completed)
  {
  }

  /** A completed loop completed its prefix and did not fail on its last episode. */
  lemma CompletedPrefix(env: Env, cfg: EpisodeConfig, s: State, eps: seq<Episode>)
    requires eps != [] && Run(env, cfg, s, eps).1 == Completed
    ensures Run(env, cfg, s, eps[..|eps| - 1]).1 == Completed
    ensures !Step(env, cfg, Run(env, cfg, s, eps[..|eps| - 1]).0, |eps|, eps[|eps| - 1]).1.Failed?
  {
  }

  /** A dry run changes no file and performs no I/O over the whole loop. */
  lemma {:induction false} DryRunLoop(env: Env, cfg: EpisodeConfig, s: State, eps: seq<Episode>)
    requires env.dryRun
    ensures Run(env, cfg, s, eps).0.files == s.files
    ensures Run(env, cfg, s, eps).0.effects == s.effects
    decreases |eps|
  {
    if eps != [] {
      DryRunLoop(env, cfg, s, eps[..|eps| - 1]);
      var before := Run(env, cfg, s, eps[..|eps| - 1]);
      if before.1.Completed? {
        DryRunStep(env, cfg, before.0, |eps|, eps[|eps| - 1]);
      }
    }
  }

  /** A completed loop met no filter that failed to match. */
  lemma {:induction false} CompletedLoopMatched(env: Env, cfg: EpisodeConfig, s: State, eps: seq<Episode>)
    requires Run(env, cfg, s, eps).1 == Completed
    ensures forall i :: 0 <= i < |eps| ==> UrlMatches(env, cfg, eps[i])
    decreases |eps|
  {
    if eps != [] {
      var k := |eps|;
      var init := eps[..k - 1];
      CompletedPrefix(env, cfg, s, eps);
      CompletedLoopMatched(env, cfg, s, init);
      UrlFilterFailure(env, cfg, Run(env, cfg, s, init).0, k, eps[k - 1]);
      forall i | 0 <= i < k ensures UrlMatches(env, cfg, eps[i]) {
        if i < k - 1 {
          assert eps[i] == init[i];
        }
      }
    }
  }

  /** The images of the episodes under f, each with its number (from 1). */
  function Numbered(f: (nat, Episode) -> string, eps: seq<Episode>): (r: set<string>)
    decreases |eps|
  {
    if eps == [] then {}
    else Numbered(f, eps[..|eps| - 1]) + {f(|eps|, eps[|eps| - 1])}
  }

  lemma {:induction false} NumberedMembers(f: (nat, Episode) -> string, eps: seq<Episode>, x: string)
    ensures x in Numbered(f, eps) <==> exists i :: 0 <= i < |eps| && x == f(i + 1, eps[i])
    decreases |eps|
  {
    if eps != [] {
      var k := |eps|;
      var init := eps[..k - 1];
      NumberedMembers(f, init, x);
      if x in Numbered(f, init) {
        var i :| 0 <= i < |init| && x == f(i + 1, init[i]);
        assert eps[i] == init[i];
      }
      if exists i :: 0 <= i < k && x == f(i + 1, eps[i]) {
        var i :| 0 <= i < k && x == f(i + 1, eps[i]);
        if i < k - 1 {
          assert init[i] == eps[i];
        }
      }
    }
  }

  /** The paths of the episodes of the loop, each under its number. */
  function LoopPaths(env: Env, cfg: EpisodeConfig, eps: seq<Episode>): (r: set<string>) {
    Numbered((n: nat, ep: Episode) => PathFor(env, cfg, n, ep), eps)
  }

  /** LoopPaths holds exactly the path of each episode under its number. */
  lemma LoopPathsMembers(env: Env, cfg: EpisodeConfig, eps: seq<Episode>, p: string)
    ensures p in LoopPaths(env, cfg, eps) <==> exists i :: 0 <= i < |eps| && p == PathFor(env, cfg, i + 1, eps[i])
  {
    var f := (n: nat, ep: Episode) => PathFor(env, cfg, n, ep);
    NumberedMembers(f, eps, p);
    if p in LoopPaths(env, cfg, eps) {
      var i :| 0 <= i < |eps| && p == f(i + 1, eps[i]);
      assert p == PathFor(env, cfg, i + 1, eps[i]);
    }
    if exists i :: 0 <= i < |eps| && p == PathFor(env, cfg, i + 1, eps[i]) {
      var i :| 0 <= i < |eps| && p == PathFor(env, cfg, i + 1, eps[i]);
      assert p == f(i + 1, eps[i]);
    }
  }

  /** After a completed run that was not a dry run every episode's file
      exists, numbered by its position in the sorted list. */
  lemma {:induction false} CompletedLoopRecordsPaths(env: Env, cfg: EpisodeConfig, s: State, eps: seq<Episode>)
    requires !env.dryRun
    requires Run(env, cfg, s, eps).1 == Completed
    ensures LoopPaths(env, cfg, eps) <= Run(env, cfg, s, eps).0.files
    decreases |eps|
  {
    if eps != [] {
      var k := |eps|;
      var init := eps[..k - 1];
      var before := Run(env, cfg, s, init);
      assert before.1 == Completed;
      CompletedLoopRecordsPaths(env, cfg, s, init);
      StepRecordsPath(env, cfg, before.0, k, eps[k - 1]);
    }
  }

  /** An episode that does not fail, outside a dry run, ends with its file present. */
  lemma StepRecordsPath(env: Env, cfg: EpisodeConfig, s: State, n: nat, ep: Episode)
    requires !env.dryRun
    requires !Step(env, cfg, s, n, ep).1.Failed?
    ensures PathFor(env, cfg, n, ep) in Step(env, cfg, s, n, ep).0.files
  {
    if PathFor(env, cfg, n, ep) in s.files {
      ExistingSkipped(env, cfg, s, n, ep);
    } else {
      StepNewRecordsPath(env, cfg, s, n, ep);
    }
  }

  lemma StepNewRecordsPath(env: Env, cfg: EpisodeConfig, s: State, n: nat, ep: Episode)
    requires !env.dryRun && PathFor(env, cfg, n, ep) !in s.files
    requires !Step(env, cfg, s, n, ep).1.Failed?
    ensures PathFor(env, cfg, n, ep) in Step(env, cfg, s, n, ep).0.files
  {
    UrlFilterFailure(env, cfg, s, n, ep);
    DownloadStep(env, cfg, s, n, ep);
    StepDownloads(env, cfg, s, n, ep);
  }

  /** When every episode's file already exists and every URL filter
      matches, the loop completes without any I/O. */
  lemma {:induction false} LoopOverExisting(env: Env, cfg: EpisodeConfig, s: State, eps: seq<Episode>)
    requires !env.dryRun
    requires LoopPaths(env, cfg, eps) <= s.files
    requires forall i :: 0 <= i < |eps| ==> UrlMatches(env, cfg, eps[i])
    ensures Run(env, cfg, s, eps).1 == Completed
    ensures Run(env, cfg, s, eps).0.files == s.files
    ensures Run(env, cfg, s, eps).0.effects == s.effects
    decreases |eps|
  {
    if eps != [] {
      var init := eps[..|eps| - 1];
      assert forall i :: 0 <= i < |init| ==> init[i] == eps[i];
      LoopOverExisting(env, cfg, s, init);
      SkipsExtend(env, cfg, s, eps);
    }
  }

  lemma SkipsExtend(env: Env, cfg: EpisodeConfig, s: State, eps: seq<Episode>)
    requires !env.dryRun && eps != []
    requires var before := Run(env, cfg, s, eps[..|eps| - 1]);
      before.1 == Completed && before.0.files == s.files && before.0.effects == s.effects
    requires LoopPaths(env, cfg, eps) <= s.files
    requires UrlMatches(env, cfg, eps[|eps| - 1])
    ensures var after := Run(env, cfg, s, eps);
      after.1 == Completed && after.0.files == s.files && after.0.effects == s.effects
  {
    var before := Run(env, cfg, s, eps[..|eps| - 1]);
    ExistingSkipped(env, cfg, before.0, |eps|, eps[|eps| - 1]);
    RunExtends(env, cfg, s, eps);
  }

  /** Running the loop again after it completed is a no-op on the disk
      and performs no I/O. */
  lemma LoopIdempotent(env: Env, cfg: EpisodeConfig, s: State, eps: seq<Episode>)
    requires !env.dryRun
    requires Run(env, cfg, s, eps).1 == Completed
    ensures var done := Run(env, cfg, s, eps).0;
      && Run(env, cfg, done, eps).1 == Completed
      && Run(env, cfg, done, eps).0.files == done.files
      && Run(env, cfg, done, eps).0.effects == done.effects
  {
    CompletedLoopMatched(env, cfg, s, eps);
    CompletedLoopRecordsPaths(env, cfg, s, eps);
    LoopOverExisting(env, cfg, Run(env, cfg, s, eps).0, eps);
  }

  /** The paths of episodes 1..|eps| are all different from the path of
      an episode numbered later. */
  lemma LaterPathIsFresh(env: Env, cfg: EpisodeConfig, eps: seq<Episode>, n: nat, ep: Episode)
    requires n > |eps|
    ensures PathFor(env, cfg, n, ep) !in LoopPaths(env, cfg, eps)
  {
    forall i | 0 <= i < |eps| ensures PathFor(env, cfg, n, ep) != PathFor(env, cfg, i + 1, eps[i]) {
      PathsOfDistinctNumbers(env, cfg, n, ep, i + 1, eps[i]);
    }
    LoopPathsMembers(env, cfg, eps, PathFor(env, cfg, n, ep));
  }

  /** Two episodes numbered differently never share a path. */
  lemma PathsOfDistinctNumbers(env: Env, cfg: EpisodeConfig, n1: nat, ep1: Episode, n2: nat, ep2: Episode)
    requires n1 != n2
    ensures PathFor(env, cfg, n1, ep1) != PathFor(env, cfg, n2, ep2)
  {
    DistinctNumbersDistinctNames(ep1.date, n1, ep1.item.title, env.guessExtension(ep1.item.enclosureType),
      ep2.date, n2, ep2.item.title, env.guessExtension(ep2.item.enclosureType));
  }

  /** When no episode's file exists yet and every filter matches, every
      episode is downloaded, each to its own path. */
  lemma {:induction false} LoopDownloadsAll(env: Env, cfg: EpisodeConfig, s: State, eps: seq<Episode>)
    requires !env.dryRun
    requires LoopPaths(env, cfg, eps) !! s.files
    requires forall i :: 0 <= i < |eps| ==> UrlMatches(env, cfg, eps[i]) && ArtMatches(env, cfg, eps[i])
    ensures Run(env, cfg, s, eps).1 == Completed
    ensures Run(env, cfg, s, eps).0.files == s.files + LoopPaths(env, cfg, eps)
    decreases |eps|
  {
    if eps != [] {
      var init := eps[..|eps| - 1];
      assert forall i :: 0 <= i < |init| ==> init[i] == eps[i];
      LoopDownloadsAll(env, cfg, s, init);
      DownloadsExtend(env, cfg, s, eps);
    }
  }

  lemma DownloadsExtend(env: Env, cfg: EpisodeConfig, s: State, eps: seq<Episode>)
    requires !env.dryRun && eps != []
    requires Run(env, cfg, s, eps[..|eps| - 1]).1 == Completed
    requires Run(env, cfg, s, eps[..|eps| - 1]).0.files == s.files + LoopPaths(env, cfg, eps[..|eps| - 1])
    requires LoopPaths(env, cfg, eps) !! s.files
    requires UrlMatches(env, cfg, eps[|eps| - 1]) && ArtMatches(env, cfg, eps[|eps| - 1])
    ensures Run(env, cfg, s, eps).1 == Completed
    ensures Run(env, cfg, s, eps).0.files == s.files + LoopPaths(env, cfg, eps)
  {
    var init, last := eps[..|eps| - 1], eps[|eps| - 1];
    var before := Run(env, cfg, s, init);
    var p := PathFor(env, cfg, |eps|, last);
    NextPathFresh(env, cfg, s.files, eps);
    StepDownloads(env, cfg, before.0, |eps|, last);
    RunExtends(env, cfg, s, eps);
    UnionExtends(s.files, LoopPaths(env, cfg, init), LoopPaths(env, cfg, eps), p);
  }

  lemma UnionExtends(files: set<string>, earlier: set<string>, all: set<string>, p: string)
    requires all == earlier + {p}
    ensures files + earlier + {p} == files + all
  {
  }

  /** The last episode's path is new to the files the earlier ones left. */
  lemma NextPathFresh(env: Env, cfg: EpisodeConfig, files: set<string>, eps: seq<Episode>)
    requires eps != [] && LoopPaths(env, cfg, eps) !! files
    ensures var p := PathFor(env, cfg, |eps|, eps[|eps| - 1]);
      && p !in files + LoopPaths(env, cfg, eps[..|eps| - 1])
      && LoopPaths(env, cfg, eps) == LoopPaths(env, cfg, eps[..|eps| - 1]) + {p}
  {
    LaterPathIsFresh(env, cfg, eps[..|eps| - 1], |eps|, eps[|eps| - 1]);
  }

  /** A failed episode ends the loop: later episodes are never processed. */
  lemma {:induction false} AbortStopsLoop(env: Env, cfg: EpisodeConfig, s: State, eps: seq<Episode>, i: nat)
    requires i <= |eps| && Run(env, cfg, s, eps[..i]).1.Aborted?
    ensures Run(env, cfg, s, eps) == Run(env, cfg, s, eps[..i])
    decreases |eps|
  {
    if i == |eps| {
      assert eps[..i] == eps;
    } else {
      var init := eps[..|eps| - 1];
      assert init[..i] == eps[..i];
      AbortStopsLoop(env, cfg, s, init, i);
      AbortedRunPrefix(env, cfg, s, eps);
    }
  }

  lemma AbortedRunPrefix(env: Env, cfg: EpisodeConfig, s: State, eps: seq<Episode>)
    requires eps != [] && Run(env, cfg, s, eps[..|eps| - 1]).1.Aborted?
    ensures Run(env, cfg, s, eps) == Run(env, cfg, s, eps[..|eps| - 1])
  {
  }

  /** What one more iteration of the episode loop leaves: the loop goes
      on after an episode that did not fail, and ends after one that did. */
  lemma LoopAdvance(env: Env, cfg: EpisodeConfig, s: State, eps: seq<Episode>, i: nat,
                    after: State, outcome: Outcome)
    requires i < |eps| && Run(env, cfg, s, eps[..i]).1 == Completed
    requires (after, outcome) == Step(env, cfg, Run(env, cfg, s, eps[..i]).0, i + 1, eps[i])
    ensures outcome.Failed? ==> Run(env, cfg, s, eps) == (after, Aborted(outcome.fault))
    ensures !outcome.Failed? ==> Run(env, cfg, s, eps[..i + 1]) == (after, Completed)
  {
    RunPrefixExtends(env, cfg, s, eps, i);
    if outcome.Failed? {
      AbortStopsLoop(env, cfg, s, eps, i + 1);
    }
  }

  lemma RunPrefixExtends(env: Env, cfg: EpisodeConfig, s: State, eps: seq<Episode>, i: nat)
    requires i < |eps| && Run(env, cfg, s, eps[..i]).1 == Completed
    ensures var after := Step(env, cfg, Run(env, cfg, s, eps[..i]).0, i + 1, eps[i]);
      Run(env, cfg, s, eps[..i + 1]) == (after.0, if after.1.Failed? then Aborted(after.1.fault) else Completed)
  {
    var pre := eps[..i + 1];
    assert pre[..|pre| - 1] == eps[..i] && pre[|pre| - 1] == eps[i];
    RunExtends(env, cfg, s, pre);
  }

  // ---------------------------------------------------------------------
  // One podcast

  /** A feed location that does not start with `http` is read from disk,
      and `.decode` on the resulting `str` ends the program: nothing is
      written. */
  lemma LocalFeedAborts(env: Env, s: State, src: Source)
    requires !IsRemote(src.rssFeedUrl)
    ensures Sync(env, s, src).1 == Aborted(LocalFeedNotDecodable(src.rssFeedUrl))
    ensures Sync(env, s, src).0.files == s.files
    ensures ReadFile(src.rssFeedUrl) in Sync(env, s, src).0.effects
  {
  }

  /** A feed with an item whose date is missing or does not parse ends the
      program at the first such item, before the cover or any episode is
      written. */
  lemma DateErrorAborts(env: Env, s: State, src: Source)
    requires IsRemote(src.rssFeedUrl)
    requires var doc := env.parseFeed(env.fetch(src.rssFeedUrl).content);
      DateSort(doc.items, env.parseDate).Err?
    ensures var doc := env.parseFeed(env.fetch(src.rssFeedUrl).content);
      && Sync(env, s, src).1.Aborted?
      && Sync(env, s, src).1.fault.DateFault?
      && (exists i :: FirstFailure(doc.items, env.parseDate, i, Sync(env, s, src).1.fault.error))
      && Sync(env, s, src).0.files == s.files
  {
  }

  /** A feed that declares no `itunes` prefix makes the `itunes:author`
      lookup raise, after the dates are sorted and before the cover is written. */
  lemma MissingItunesAborts(env: Env, s: State, src: Source)
    requires IsRemote(src.rssFeedUrl)
    requires var doc := env.parseFeed(env.fetch(src.rssFeedUrl).content);
      && DateSort(doc.items, env.parseDate).Ok?
      && (forall i :: 0 <= i < |doc.namespaceMatches| ==> doc.namespaceMatches[i].0 != "itunes")
    ensures Sync(env, s, src).1 == Aborted(NoItunesPrefix)
    ensures Sync(env, s, src).0.files == s.files
  {
    var doc := env.parseFeed(env.fetch(src.rssFeedUrl).content);
    NamespaceMapLastWins(doc.namespaceMatches);
  }

  /** A dry run still fetches the feed and the podcast image and writes the
      cover; it writes nothing else. */
  lemma DryRunWritesOnlyCover(env: Env, s: State, src: Source)
    requires env.dryRun && IsRemote(src.rssFeedUrl)
    requires var doc := env.parseFeed(env.fetch(src.rssFeedUrl).content);
      && DateSort(doc.items, env.parseDate).Ok?
      && "itunes" in NamespaceMap(doc.namespaceMatches)
    ensures var doc := env.parseFeed(env.fetch(src.rssFeedUrl).content);
      var image := env.fetch(doc.channel.imageUrl);
      var cover := CoverPath(OutDir(env.outPath, src.name), env.guessExtension(image.contentType));
      && Sync(env, s, src).0.files == s.files + {cover}
      && Fetch(src.rssFeedUrl) in Sync(env, s, src).0.effects
      && Fetch(doc.channel.imageUrl) in Sync(env, s, src).0.effects
      && WriteFile(cover, image.content) in Sync(env, s, src).0.effects
  {
    var doc := env.parseFeed(env.fetch(src.rssFeedUrl).content);
    var image := env.fetch(doc.channel.imageUrl);
    var outDir := OutDir(env.outPath, src.name);
    var cover := CoverPath(outDir, env.guessExtension(image.contentType));
    var s1 := LoadFeed(env, s, src).0;
    var s2 := s1.(effects := s1.effects + [Fetch(doc.channel.imageUrl)]);
    var s3 := State(InitialTags(doc.channel, image), s2.files + {cover}, s2.dirs,
                    s2.effects + [WriteFile(cover, image.content)]);
    var cfg := EpisodeConfig(outDir, src.episodeUrlFilter, src.artUrlFilter);
    DryRunLoop(env, cfg, s3, DateSort(doc.items, env.parseDate).value);
    assert Fetch(src.rssFeedUrl) in s1.effects;
  }

  /** Lines 304-311 as the episodes see them: the album and the album
      artist are both the channel title, the artist the `itunes:author`
      text, the art the image response; the episode loop leaves them so. */
  lemma PodcastTags(env: Env, s: State, src: Source)
    requires IsRemote(src.rssFeedUrl)
    requires var doc := env.parseFeed(env.fetch(src.rssFeedUrl).content);
      && DateSort(doc.items, env.parseDate).Ok?
      && "itunes" in NamespaceMap(doc.namespaceMatches)
    ensures var doc := env.parseFeed(env.fetch(src.rssFeedUrl).content);
      var image := env.fetch(doc.channel.imageUrl);
      var t := Sync(env, s, src).0.tags;
      && t.album == doc.channel.title && t.albumArtist == doc.channel.title
      && t.artist == doc.channel.author && t.copyright == doc.channel.copyright
      && t.art == image.content && t.artMime == image.contentType
  {
  }

  /** The cover and the episodes never share a path. */
  lemma CoverNeverOverwritten(env: Env, src: Source, n: nat, ep: Episode, coverExt: Option<string>)
    ensures var cfg := EpisodeConfig(OutDir(env.outPath, src.name), src.episodeUrlFilter, src.artUrlFilter);
      PathFor(env, cfg, n, ep) != CoverPath(OutDir(env.outPath, src.name), coverExt)
  {
    var outDir := OutDir(env.outPath, src.name);
    CoverIsNotAnEpisode(outDir, ep.date, n, ep.item.title, env.guessExtension(ep.item.enclosureType), coverExt);
  }

  // ---------------------------------------------------------------------
  // All podcasts

  /** An abort ends `main`: podcasts after it are never started. */
  lemma {:induction false} AbortStopsMain(env: Env, s: State, srcs: seq<Source>, i: nat)
    requires i <= |srcs| && SyncAll(env, s, srcs[..i]).1.Aborted?
    ensures SyncAll(env, s, srcs) == SyncAll(env, s, srcs[..i])
    decreases |srcs|
  {
    if i == |srcs| {
      assert srcs[..i] == srcs;
    } else {
      var init := srcs[..|srcs| - 1];
      assert init[..i] == srcs[..i];
      AbortStopsMain(env, s, init, i);
      AbortedPrefix(env, s, srcs);
    }
  }

  lemma AbortedPrefix(env: Env, s: State, srcs: seq<Source>)
    requires srcs != [] && SyncAll(env, s, srcs[..|srcs| - 1]).1.Aborted?
    ensures SyncAll(env, s, srcs) == SyncAll(env, s, srcs[..|srcs| - 1])
  {
  }

  /** What one more podcast leaves: `main` goes on after a podcast that
      completed, and ends after one that aborted. */
  lemma MainAdvance(env: Env, s: State, srcs: seq<Source>, i: nat, after: State, outcome: RunOutcome)
    requires i < |srcs| && SyncAll(env, s, srcs[..i]).1 == Completed
    requires (after, outcome) == Sync(env, SyncAll(env, s, srcs[..i]).0, srcs[i])
    ensures outcome.Aborted? ==> SyncAll(env, s, srcs) == (after, outcome)
    ensures outcome.Completed? ==> SyncAll(env, s, srcs[..i + 1]) == (after, Completed)
  {
    SyncAllPrefixExtends(env, s, srcs, i);
    if outcome.Aborted? {
      AbortStopsMain(env, s, srcs, i + 1);
    }
  }

  lemma SyncAllPrefixExtends(env: Env, s: State, srcs: seq<Source>, i: nat)
    requires i < |srcs| && SyncAll(env, s, srcs[..i]).1 == Completed
    ensures SyncAll(env, s, srcs[..i + 1]) == Sync(env, SyncAll(env, s, srcs[..i]).0, srcs[i])
  {
    var pre := srcs[..i + 1];
    assert pre[..|pre| - 1] == srcs[..i] && pre[|pre| - 1] == srcs[i];
  }
}
