/** `process_podcast` and `main` as the source writes them: statements
    that update the shared tag dictionary, the files and directories on
    disk and the log of I/O in place, one after the other. Each method is
    proved to leave the state the corresponding function of `Pipeline`
    computes, so every property proved about those functions holds of
    these methods. */
module Collector {
  import opened Wrappers
  import opened Feed
  import opened Ordering
  import opened Paths
  import opened Pipeline
  import opened PipelineProperties

  class Collector {
    /** The configuration and the outside world, fixed for the whole run. */
    const env: Env
    /** `podcast_config['podcast_tags']`, which every episode's `tags` aliases. */
    var tags: Tags
    var files: set<string>
    var dirs: set<string>
    /** The I/O performed so far, in order. */
    var effects: seq<Effect>

    function Snapshot(): (r: State)
      reads this
    {
      State(tags, files, dirs, effects)
    }

    constructor (env: Env, initial: State)
      ensures this.env == env && Snapshot() == initial
    {
      this.env := env;
      tags := initial.tags;
      files := initial.files;
      dirs := initial.dirs;
      effects := initial.effects;
    }

    /** `process_podcast(n, ep, podcast_config)`: lines 166-274. */
    method ProcessEpisode(cfg: EpisodeConfig, n: nat, ep: Episode) returns (outcome: Outcome)
      modifies this
      ensures (Snapshot(), outcome) == Step(env, cfg, old(Snapshot()), n, ep)
    {
      tags := tags.(episode := Some(EpisodeValues(ep, env.guessExtension)));
      var filename := EpisodeFileName(ep.date, n, ep.item.title, env.guessExtension(ep.item.enclosureType));
      var fullPath := cfg.outDir + filename;
      var processedUrl := FilterUrl(env.findall, cfg.episodeUrlFilter, ep.item.enclosureUrl);
      if processedUrl.None? {
        return Failed(UrlNoMatch(n, ep.item.enclosureUrl));
      }
      if fullPath !in files && !env.dryRun {
        outcome := Download(cfg, n, ep, processedUrl.value, fullPath);
      } else if env.dryRun {
        outcome := DryRunPause;
      } else {
        outcome := Skipped;
      }
    }

    /** Lines 198-256: the episode is new and this is not a dry run. */
    method Download(cfg: EpisodeConfig, n: nat, ep: Episode, processedUrl: string, fullPath: string)
      returns (outcome: Outcome)
      requires tags.episode.Some?
      modifies this
      ensures (Snapshot(), outcome) == Pipeline.Download(env, cfg, old(Snapshot()), n, ep, processedUrl, fullPath)
    {
      ghost var art := ResolveArt(env, cfg.artUrlFilter, tags, ep.item.artHref);
      var href := ep.item.artHref;
      if href.Some? && href.value != [] {
        var processedArtUrl := FilterUrl(env.findall, cfg.artUrlFilter, href.value);
        if processedArtUrl.None? {
          return Failed(ArtNoMatch(n, href.value));
        }
        var eart := env.fetch(processedArtUrl.value);
        effects := effects + [Fetch(processedArtUrl.value)];
        tags := tags.(artwork := Some(ArtTagValues(eart.content, eart.contentType, None)));
      } else {
        tags := tags.(artwork := Some(ArtTagValues(tags.art, tags.artMime, None)));
      }
      tags := tags.(artwork := Some(tags.artwork.value.(ext := env.guessExtension(tags.artwork.value.mime))));
      assert tags.artwork.value == ArtTagValues(art.value.data, art.value.mime, env.guessExtension(art.value.mime));
      assert effects == old(effects) + art.value.fetches;
      var html := env.fetch(processedUrl);
      effects := effects + [Fetch(processedUrl)];
      files := files + {fullPath};
      effects := effects + [WriteFile(fullPath, html.content)];
      effects := effects + [WriteTags(fullPath, BuildFrames(tags, n))];
      assert effects == old(effects) + art.value.fetches + MediaEffects(env, processedUrl, fullPath, BuildFrames(tags, n));
      outcome := Downloaded;
    }

    /** Lines 318-319: the sorted episodes, numbered from 1; an exception
        in one of them ends the loop. */
    method ProcessEpisodes(cfg: EpisodeConfig, eps: seq<Episode>) returns (result: RunOutcome)
      modifies this
      ensures (Snapshot(), result) == Run(env, cfg, old(Snapshot()), eps)
    {
      var i := 0;
      while i < |eps|
        invariant 0 <= i <= |eps|
        invariant (Snapshot(), Completed) == Run(env, cfg, old(Snapshot()), eps[..i])
      {
        var outcome := ProcessEpisode(cfg, i + 1, eps[i]);
        LoopAdvance(env, cfg, old(Snapshot()), eps, i, Snapshot(), outcome);
        if outcome.Failed? {
          return Aborted(outcome.fault);
        }
        i := i + 1;
      }
      assert eps[..i] == eps;
      result := Completed;
    }

    /** One pass of `main`'s loop: lines 282-319 with `get_rss`. */
    method SyncPodcast(src: Source) returns (result: RunOutcome)
      modifies this
      ensures (Snapshot(), result) == Sync(env, old(Snapshot()), src)
    {
      var outDir := OutDir(env.outPath, src.name);
      if outDir !in dirs {
        dirs := dirs + {outDir};
        effects := effects + [MakeDirs(outDir)];
      }
      if !IsRemote(src.rssFeedUrl) {
        effects := effects + [ReadFile(src.rssFeedUrl)];
        return Aborted(LocalFeedNotDecodable(src.rssFeedUrl));
      }
      var rssXml := env.fetch(src.rssFeedUrl).content;
      effects := effects + [Fetch(src.rssFeedUrl)];
      var doc := env.parseFeed(rssXml);
      var r := env.fetch(doc.channel.imageUrl);
      effects := effects + [Fetch(doc.channel.imageUrl)];
      var episodes := DateSort(doc.items, env.parseDate);
      if episodes.Err? {
        return Aborted(DateFault(episodes.error));
      }
      var ns := NamespaceMap(doc.namespaceMatches);
      if "itunes" !in ns {
        return Aborted(NoItunesPrefix);
      }
      tags := InitialTags(doc.channel, r);
      var outPath := CoverPath(outDir, env.guessExtension(r.contentType));
      files := files + {outPath};
      effects := effects + [WriteFile(outPath, r.content)];
      result := ProcessEpisodes(EpisodeConfig(outDir, src.episodeUrlFilter, src.artUrlFilter), episodes.value);
    }

    /** `main`: the podcasts of `podList` in order; an exception ends the program. */
    method SyncPodcasts(srcs: seq<Source>) returns (result: RunOutcome)
      modifies this
      ensures (Snapshot(), result) == SyncAll(env, old(Snapshot()), srcs)
    {
      var i := 0;
      while i < |srcs|
        invariant 0 <= i <= |srcs|
        invariant (Snapshot(), Completed) == SyncAll(env, old(Snapshot()), srcs[..i])
      {
        var outcome := SyncPodcast(srcs[i]);
        MainAdvance(env, old(Snapshot()), srcs, i, Snapshot(), outcome);
        if outcome.Aborted? {
          return outcome;
        }
        i := i + 1;
      }
      assert srcs[..i] == srcs;
      result := Completed;
    }
  }
}
