/** What `process_podcast` and `main` do, as functions of the state they
    read and change: the shared tag dictionary, the files and directories
    that exist, and the I/O performed so far, in order. The network,
    `mimetypes.guess_extension`, `re.findall`, `strptime` and the XML
    parser are parameters of the environment. */
module Pipeline {
  import opened Wrappers
  import opened Decimal
  import opened Chrono
  import opened Feed
  import opened Ordering
  import opened Paths

  newtype byte = x: int | 0 <= x < 256

  /** A response of `requests.get`: its body and its Content-Type header. */
  datatype Response = Response(content: seq<byte>, contentType: string)

  /** The values `process_podcast` writes under 'title', 'description',
      'PublicationDate', 'date', 'rawURL', 'genre', 'extension' and
      'dateYear' for one episode. */
  datatype EpisodeTagValues = EpisodeTagValues(
    title: Option<string>, description: Option<string>, publicationDate: Option<string>,
    date: DateTime, rawUrl: string, genre: string, extension: Option<string>, dateYear: string)

  /** The values written under 'episode_art', 'episode_art_mime' and
      'episode_art_ext' before a download. */
  datatype ArtTagValues = ArtTagValues(data: seq<byte>, mime: string, ext: Option<string>)

  /** The podcast tag dictionary `podcast_config['podcast_tags']`, shared
      by every episode of one podcast. Its six podcast-level keys are set
      when it is created; the episode keys and the art keys are absent
      until an episode first sets them and then keep the values of the
      last episode that did. */
  datatype Tags = Tags(
    album: Option<string>, art: seq<byte>, artMime: string, artist: Option<string>,
    albumArtist: Option<string>, copyright: Option<string>,
    episode: Option<EpisodeTagValues>, artwork: Option<ArtTagValues>)

  /** The ID3 frames written into a downloaded episode: TRCK, TIT2, TALB,
      TCOP, TPE1, TPE2, TCON and TDRC, and the APIC picture's data and MIME type. */
  datatype Frames = Frames(
    trck: string, tit2: Option<string>, talb: Option<string>, tcop: Option<string>, tpe1: Option<string>,
    tpe2: Option<string>, tcon: string, tdrc: string, apicData: seq<byte>, apicMime: string)

  /** The I/O the program performs. */
  datatype Effect =
    | Fetch(url: string)
    | ReadFile(path: string)
    | MakeDirs(path: string)
    | WriteFile(path: string, data: seq<byte>)
    | WriteTags(path: string, frames: Frames)

  /** Why a run stops. All of these are uncaught exceptions in the source,
      so each ends the whole program. */
  datatype Fault =
    | LocalFeedNotDecodable(location: string)      // `str` has no `.decode`
    | DateFault(error: DateError)                  // in `date_sort`
    | NoItunesPrefix                               // ElementTree's SyntaxError
    | UrlNoMatch(episode: nat, url: string)        // `findall(...)[0]`: IndexError
    | ArtNoMatch(episode: nat, href: string)

  datatype Outcome = Downloaded | DryRunPause | Skipped | Failed(fault: Fault)

  datatype RunOutcome = Completed | Aborted(fault: Fault)

  /** The environment: the global configuration and the outside world. */
  datatype Env = Env(
    dryRun: bool,
    outPath: string,
    guessExtension: string -> Option<string>,
    findall: (string, string) -> seq<string>,
    fetch: string -> Response,
    parseFeed: seq<byte> -> FeedDocument,
    parseDate: DateParser)

  /** One entry of `podList`: its name, feed location and optional filters. */
  datatype Source = Source(
    name: string,
    rssFeedUrl: string,
    episodeUrlFilter: Option<string>,
    artUrlFilter: Option<string>)

  /** The part of `podcast_config` that `process_podcast` reads besides the tags. */
  datatype EpisodeConfig = EpisodeConfig(
    outDir: string,
    episodeUrlFilter: Option<string>,
    artUrlFilter: Option<string>)

  datatype State = State(tags: Tags, files: set<string>, dirs: set<string>, effects: seq<Effect>)

  /** The episode art and its MIME type, with the fetch performed to get it. */
  datatype Artwork = Artwork(data: seq<byte>, mime: string, fetches: seq<Effect>)

  /** The podcast-level tags of a and b agree. */
  predicate SameChannelTags(a: Tags, b: Tags) {
    b == a.(episode := b.episode, artwork := b.artwork)
  }

  /** An optional regular expression applied to a URL: no filter leaves the
      URL as it is (the `KeyError` branch), a filter selects its first
      match, and no match at all is None (the `IndexError`). */
  function FilterUrl(findall: (string, string) -> seq<string>, filter: Option<string>, url: string): (r: Option<string>) {
    match filter
    case None => Some(url)
    case Some(p) => if findall(p, url) == [] then None else Some(findall(p, url)[0])
  }

  /** The tags every episode sets before anything can fail (lines 168-180). */
  function EpisodeValues(ep: Episode, guess: string -> Option<string>): (r: EpisodeTagValues) {
    EpisodeTagValues(ep.item.title, ep.item.description, ep.item.pubDate, ep.date,
                     ep.item.enclosureUrl, "Podcast", guess(ep.item.enclosureType), YearText(ep.date))
  }

  /** `full_path` for episode number n. */
  function PathFor(env: Env, cfg: EpisodeConfig, n: nat, ep: Episode): (r: string) {
    EpisodePath(cfg.outDir, ep.date, n, ep.item.title, env.guessExtension(ep.item.enclosureType))
  }

  /** Lines 200-222: art named by the episode's `itunes:image`, passed
      through the art filter and fetched; the podcast's art when the
      element or its `href` is missing or the `href` is empty. None when
      the art filter does not match. */
  function ResolveArt(env: Env, filter: Option<string>, tags: Tags, href: Option<string>): (r: Option<Artwork>)
    ensures r.None? ==> href.Some? && href.value != []
  {
    if href.Some? && href.value != [] then
      match FilterUrl(env.findall, filter, href.value)
      case None => None
      case Some(u) =>
        var resp := env.fetch(u);
        Some(Artwork(resp.content, resp.contentType, [Fetch(u)]))
    else Some(Artwork(tags.art, tags.artMime, []))
  }

  /** Lines 243-256: the frames read from the tag dictionary. */
  function BuildFrames(tags: Tags, n: nat): (r: Frames)
    requires tags.episode.Some? && tags.artwork.Some?
  {
    var e, a := tags.episode.value, tags.artwork.value;
    Frames(NatToString(n), e.title, tags.album, tags.copyright, tags.artist,
           tags.albumArtist, e.genre, e.dateYear, a.data, a.mime)
  }

  /** The download itself: fetch the media, write it, tag it. */
  function MediaEffects(env: Env, url: string, path: string, frames: Frames): (r: seq<Effect>) {
    [Fetch(url), WriteFile(path, env.fetch(url).content), WriteTags(path, frames)]
  }

  /** Lines 198-256, once the tags are set and the URL is filtered: the
      episode is absent and this is not a dry run. */
  function Download(env: Env, cfg: EpisodeConfig, s: State, n: nat, ep: Episode,
                    mediaUrl: string, path: string): (r: (State, Outcome))
    requires s.tags.episode.Some?
    ensures r.1 == Downloaded || r.1.Failed?
    ensures r.1.Failed? ==> ep.item.artHref.Some? && r.1 == Failed(ArtNoMatch(n, ep.item.artHref.value)) && r.0 == s
    ensures r.1 == Downloaded ==>
      && r.0.files == s.files + {path} && r.0.dirs == s.dirs
      && r.0.tags == s.tags.(artwork := r.0.tags.artwork) && r.0.tags.artwork.Some?
  {
    match ResolveArt(env, cfg.artUrlFilter, s.tags, ep.item.artHref)
    case None => (s, Failed(ArtNoMatch(n, ep.item.artHref.value)))
    case Some(art) =>
      var tags := s.tags.(artwork := Some(ArtTagValues(art.data, art.mime, env.guessExtension(art.mime))));
      var effects := s.effects + art.fetches + MediaEffects(env, mediaUrl, path, BuildFrames(tags, n));
      (State(tags, s.files + {path}, s.dirs, effects), Downloaded)
  }

  /** `process_podcast(n, ep, podcast_config)`. */
  function Step(env: Env, cfg: EpisodeConfig, s: State, n: nat, ep: Episode): (r: (State, Outcome))
    ensures SameChannelTags(s.tags, r.0.tags)
    ensures r.0.tags.episode == Some(EpisodeValues(ep, env.guessExtension))
    ensures r.0.dirs == s.dirs && s.files <= r.0.files
    ensures r.1.Failed? ==> r.1.fault.UrlNoMatch? || r.1.fault.ArtNoMatch?
  {
    var s1 := s.(tags := s.tags.(episode := Some(EpisodeValues(ep, env.guessExtension))));
    var path := PathFor(env, cfg, n, ep);
    match FilterUrl(env.findall, cfg.episodeUrlFilter, ep.item.enclosureUrl)
    case None => (s1, Failed(UrlNoMatch(n, ep.item.enclosureUrl)))
    case Some(mediaUrl) =>
      if path !in s.files && !env.dryRun then Download(env, cfg, s1, n, ep, mediaUrl, path)
      else if env.dryRun then (s1, DryRunPause)
      else (s1, Skipped)
  }

  /** The loop of lines 318-319 over the first |eps| sorted episodes,
      numbered from 1; the first failure ends it. */
  function Run(env: Env, cfg: EpisodeConfig, s: State, eps: seq<Episode>): (r: (State, RunOutcome))
    ensures SameChannelTags(s.tags, r.0.tags)
    ensures r.0.dirs == s.dirs && s.files <= r.0.files
    ensures r.1.Aborted? ==> r.1.fault.UrlNoMatch? || r.1.fault.ArtNoMatch?
    decreases |eps|
  {
    if eps == [] then (s, Completed)
    else
      var before := Run(env, cfg, s, eps[..|eps| - 1]);
      if before.1.Aborted? then before
      else
        var after := Step(env, cfg, before.0, |eps|, eps[|eps| - 1]);
        (after.0, if after.1.Failed? then Aborted(after.1.fault) else Completed)
  }

  /** `xml_location[0:4] == 'http'`. */
  predicate IsRemote(location: string) {
    |location| >= 4 && location[..4] == "http"
  }

  /** Lines 284-299: the output directory and the feed. */
  function LoadFeed(env: Env, s: State, src: Source): (r: (State, Option<FeedDocument>))
    ensures r.0.dirs == s.dirs + {OutDir(env.outPath, src.name)}
    ensures r.0.files == s.files && r.0.tags == s.tags
    ensures r.1.Some? <==> IsRemote(src.rssFeedUrl)
    ensures r.1.Some? ==> r.1.value == env.parseFeed(env.fetch(src.rssFeedUrl).content)
    ensures |r.0.effects| > |s.effects| && r.0.effects[..|s.effects|] == s.effects
    ensures r.0.effects[|r.0.effects| - 1] == if IsRemote(src.rssFeedUrl) then Fetch(src.rssFeedUrl) else ReadFile(src.rssFeedUrl)
  {
    var outDir := OutDir(env.outPath, src.name);
    var s1 := if outDir in s.dirs then s else s.(dirs := s.dirs + {outDir}, effects := s.effects + [MakeDirs(outDir)]);
    if IsRemote(src.rssFeedUrl) then
      (s1.(effects := s1.effects + [Fetch(src.rssFeedUrl)]), Some(env.parseFeed(env.fetch(src.rssFeedUrl).content)))
    else
      (s1.(effects := s1.effects + [ReadFile(src.rssFeedUrl)]), None)
  }

  /** Lines 304-311: the podcast-level tags, in a fresh dictionary. */
  function InitialTags(ch: Channel, art: Response): (r: Tags) {
    Tags(ch.title, art.content, art.contentType, ch.author, ch.title, ch.copyright, None, None)
  }

  /** The body of `main`'s loop for one podcast. */
  function Sync(env: Env, s: State, src: Source): (r: (State, RunOutcome))
    ensures r.0.dirs == s.dirs + {OutDir(env.outPath, src.name)}
    ensures s.files <= r.0.files
  {
    var loaded := LoadFeed(env, s, src);
    var s1 := loaded.0;
    match loaded.1
    case None => (s1, Aborted(LocalFeedNotDecodable(src.rssFeedUrl)))
    case Some(doc) =>
      var image := env.fetch(doc.channel.imageUrl);
      var s2 := s1.(effects := s1.effects + [Fetch(doc.channel.imageUrl)]);
      match DateSort(doc.items, env.parseDate)
      case Err(e) => (s2, Aborted(DateFault(e)))
      case Ok(eps) =>
        if "itunes" !in NamespaceMap(doc.namespaceMatches) then (s2, Aborted(NoItunesPrefix))
        else
          var outDir := OutDir(env.outPath, src.name);
          var cover := CoverPath(outDir, env.guessExtension(image.contentType));
          var s3 := State(InitialTags(doc.channel, image), s2.files + {cover}, s2.dirs,
                          s2.effects + [WriteFile(cover, image.content)]);
          Run(env, EpisodeConfig(outDir, src.episodeUrlFilter, src.artUrlFilter), s3, eps)
  }

  /** `main`: the podcasts in configuration order; an abort ends the program. */
  function SyncAll(env: Env, s: State, srcs: seq<Source>): (r: (State, RunOutcome))
    ensures s.dirs <= r.0.dirs && s.files <= r.0.files
    decreases |srcs|
  {
    if srcs == [] then (s, Completed)
    else
      var before := SyncAll(env, s, srcs[..|srcs| - 1]);
      if before.1.Aborted? then before
      else Sync(env, before.0, srcs[|srcs| - 1])
  }
}
