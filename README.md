# Podcast Collector in Dafny

A model of `podcast_get.py`, the script that downloads the episodes of the
podcasts listed in its configuration, names each file after its date,
number and title, and writes ID3 tags into it. The model covers the
decisions the script takes, and the properties below are proved about
them:

- how a file name is sanitised (`clean_filename`) and how a date is
  rendered (`out_date`);
- how `pubDate` is parsed and the items ordered (`extract_date`,
  `date_sort`);
- how `process_podcast` derives the path, filters the media and art URLs,
  chooses between download, dry run and skip, falls back to the podcast's
  art, fills the shared tag dictionary and builds the ID3 frames;
- how `main` numbers the sorted episodes from 1 and builds the podcast's
  tag dictionary, and the namespace dictionary of `get_rss`.

Modules, in dependency order:

- `Wrappers`: `Option` and `Result`.
- `Decimal`: `str(n)` for naturals, zero padding, and reading digits back.
- `Chrono`: the fields of an aware `datetime`, the instant it denotes
  (proleptic Gregorian days, less the UTC offset), `strftime('%Y-%m-%d')`
  and `str(year)`.
- `Sanitizer`: `clean_filename`. It is `re.sub(r"\s+", "_", s)` with
  Python's Unicode whitespace class, followed by keeping only the allowed
  characters. The allowed set is built exactly as the source builds it,
  `str.lower` included, and proved equal to an explicit range predicate.
- `Feed`: the records the XML lookups yield, and the namespace dictionary.
- `Ordering`: `extract_date` as a `Result`, and `date_sort` as a stable
  insertion sort. Like `sorted(..., key=...)`, the sort is stated for any
  integer key, and `date_sort` uses the instant as its key. Being stable,
  its result is the only one `sorted` can return.
- `Paths`: the episode file name, the output directory and the cover path.
- `Pipeline`: `process_podcast`, the episode loop and `main` as functions
  of a `State`. The state holds the tag dictionary, the files and
  directories that exist, and the log of I/O performed so far.
- `PipelineProperties`: what those functions guarantee, per episode, per
  loop, per podcast and for the whole run.
- `Collector`: the same operations the way the source writes them. A
  class holds the tag dictionary, the files, the directories and the I/O
  log as fields, and methods update them statement by statement: two
  `while` loops for `main` and for the `enumerate` loop. Each method is
  proved to leave the state the corresponding `Pipeline` function
  computes, so every property in `PipelineProperties` holds of the
  methods.

The outside world is a parameter, `Pipeline.Env`. It holds:

- the `dryRun` flag and `outPath`;
- `mimetypes.guess_extension`;
- `re.findall` for the URL filters;
- `requests.get`, which gives a body and a Content-Type;
- the XML parser, which yields `Feed.FeedDocument`;
- `datetime.strptime`.

Every uncaught exception in the source ends the whole program. The model
therefore stops at the first `Fault` and reports it as an `Aborted`
outcome.

### Tag dictionary

`podcast_config['podcast_tags']` and the episode's `tags` are one
dictionary (line 168), so it is modelled as one value, `Pipeline.Tags`,
held by the `Collector.Collector.tags` field. The value is a record rather
than a map, because the script only uses a fixed set of keys:

- the six podcast-level keys set on lines 301-308;
- the eight episode keys of lines 170-183, as one `Option`;
- the three art keys of lines 215-222, as one `Option`.

An `Option` group is `None` until the first episode sets it. After that it
keeps the last episode's values, as the aliased dictionary does. Each
group is set as a whole. That is faithful because nothing the model lets
fail lies between the assignments of a group.

### Behaviour of the script worth knowing

- `clean_filename` keeps `.`: it is in the allowed set on line 143.
- A URL filter that matches nothing raises `IndexError`; only `KeyError`
  is caught in lines 192-196. The filter runs before the existence and
  dry-run checks, so this ends the program even for an episode that is
  already downloaded or in a dry run.
- An unknown MIME type is not an error. `guess_extension` returns `None`
  and the f-string writes `None` at the end of the file name.
- A dry run still creates the directory, fetches the feed and the podcast
  image, and writes the cover (lines 288-315).
- No error is contained to one episode or one podcast: the first
  exception ends the run.
- A local feed is read as `str`, and `.decode` on line 86 then fails.
- A feed without an `itunes` namespace makes the `itunes:author` lookup
  on line 305 raise.

## Model

| member | source | states |
|---|---|---|
| Decimal.NatToString | podcast_get.py:183 | `str(n)` is a non-empty digit string with no leading zero except for 0 itself |
| Decimal.ParseNatToString | podcast_get.py:183 | the decimal rendering of n reads back as n |
| Decimal.NatToStringInjective | podcast_get.py:186-187 | distinct numbers render differently |
| Decimal.ZeroPad | podcast_get.py:105 | `%m`/`%d` padding: digits only, at least the width, still denoting n |
| Chrono.OutDateFields | podcast_get.py:105 | `OutDate`, i.e. `strftime('%Y-%m-%d')`, is digits and two dashes at fixed places from the end, and each field reads back as the year, month and day |
| Chrono.YearText | podcast_get.py:183 | `dateYear` is digits denoting the year in the feed's own offset |
| Chrono.SameOffsetOrder | podcast_get.py:62 | `Instant`, the value aware datetimes compare by: for equal offsets the instant order is the order of the written calendar fields, and equal instants have equal fields |
| Chrono.DayNumberOrder | podcast_get.py:62 | an earlier calendar day has a smaller day number |
| Chrono.ExampleDates | podcast_get.py:105 | two concrete timestamps render as "2023-01-02" and "2023-01-01" |
| Chrono.OffsetsReorderDates | podcast_get.py:105-123 | the instant order used for sorting can disagree with the order of the rendered dates when offsets differ |
| Sanitizer.AsciiCapitalsRange | podcast_get.py:140 | the first literal is exactly A-Z |
| Sanitizer.AccentedCapitalsRange | podcast_get.py:141 | the accented literal is exactly À-Ö, Ø-Ý, Œ and Ÿ |
| Sanitizer.AsciiSmallRange | podcast_get.py:142 | `.lower()` of A-Z is exactly a-z |
| Sanitizer.AccentedSmallRange | podcast_get.py:142 | `.lower()` of the accented literal is exactly à-ö, ø-ý, œ and ÿ |
| Sanitizer.ExtrasRange | podcast_get.py:143 | the last literal is the digits, `-`, `_`, `.` and ß |
| Sanitizer.GoodCharactersAreAllowed | podcast_get.py:140-143 | a character is in `good_character` exactly when it satisfies the explicit allowed-set predicate |
| Sanitizer.AllowedCharacters | podcast_get.py:140-146 | no allowed character is whitespace |
| Sanitizer.SkipWhitespace | podcast_get.py:146 | drops exactly the leading whitespace run: a suffix of the input, every dropped character is whitespace, and the rest does not start with whitespace |
| Sanitizer.CollapseWhitespace | podcast_get.py:146 | `re.sub(r"\s+", "_", s)` leaves no whitespace and never lengthens the text |
| Sanitizer.KeepAllowed | podcast_get.py:149 | the join keeps only allowed characters and never lengthens the text |
| Sanitizer.CleanFilename | podcast_get.py:126-149 | the result is no longer than the input, holds only allowed characters and contains no whitespace |
| Sanitizer.CleanMatchesByCharacter | podcast_get.py:146-149 | sanitising equals a one-pass scan that writes one `_` for the first character of each whitespace run, drops the rest of the run, keeps allowed characters and drops the others |
| Sanitizer.ByCharacterConcat | podcast_get.py:146-149 | the one-pass scan of a concatenation is the scan of each part, the second continuing the first's whitespace state |
| Sanitizer.CleanConcat | podcast_get.py:146-149 | sanitising distributes over a concatenation that does not join two whitespace runs |
| Sanitizer.CleanAllowedIsIdentity | podcast_get.py:146-149 | text made only of allowed characters is left as it is |
| Sanitizer.CleanBetweenAllowed | podcast_get.py:146-149 | allowed text around a middle part survives unchanged and only the middle is sanitised |
| Sanitizer.CleanIdempotent | podcast_get.py:146-149 | cleaning twice equals cleaning once |
| Sanitizer.KeepAllowedIsSubsequence | podcast_get.py:149 | the filter keeps characters in their original order |
| Sanitizer.CleanWithoutWhitespaceDeletes | podcast_get.py:146-149 | without whitespace, sanitising only deletes characters and keeps the rest in order |
| Sanitizer.DoubleUnderscoreExample | podcast_get.py:146-149 | `"a : b"` becomes `"a__b"`: the output can hold `__` |
| Feed.NamespaceMapLastWins | podcast_get.py:86 | `NamespaceMap`, the dict comprehension: the keys are exactly the matched prefixes, and each maps to the URI of its last match |
| Ordering.ExtractDate | podcast_get.py:44-62 | Ok exactly when `pubDate` is present and parses; then the parsed value; otherwise which of the two failed |
| Ordering.ExtractAll | podcast_get.py:44-62 | every item paired with its date, in feed order, or the first item whose date fails |
| Ordering.WithKeyConcat | podcast_get.py:123 | the episodes with a given key in a concatenation are those of each part, in order |
| Ordering.InsertBySorted | podcast_get.py:123 | inserting into a sorted list keeps it sorted and adds exactly the element |
| Ordering.InsertByPermutes | podcast_get.py:123 | insertion adds exactly the element to the multiset |
| Ordering.InsertByStable | podcast_get.py:123 | insertion places an element after every earlier element with the same key |
| Ordering.SortBy | podcast_get.py:123 | `sorted(s, key=key)`: ordered by key, a permutation of the input, and keeping the input order among equal keys |
| Ordering.StableSortUnique | podcast_get.py:123 | two lists ordered by key that hold the same elements per key, in the same order, are equal: the stable sort's result is unique |
| Ordering.DateSort | podcast_get.py:108-123 | Ok exactly when every date parses, and then a stable, instant-ordered permutation of the items; otherwise the first failing item's error |
| Paths.PrefixAllowed | podcast_get.py:182-187 | `{date}_ep{n}_` consists of allowed characters only |
| Paths.FileNameShape | podcast_get.py:182-188 | `EpisodeFileName`: the file name is the date and `_ep{n}_` unchanged, followed by the sanitised title and extension |
| Paths.ExtensionKept | podcast_get.py:176-188 | an extension of allowed characters ends the name unchanged after the sanitised title |
| Paths.UnknownTypeEndsInNone | podcast_get.py:176-188 | an unknown MIME type makes the name end in the literal `None` |
| Paths.NumberRecoverable | podcast_get.py:182-188 | the episode number reads back from the file name, whatever the title and extension |
| Paths.DistinctNumbersDistinctNames | podcast_get.py:186-189 | `EpisodeFileName` and `EpisodePath`: different episode numbers give different names and different paths in any directory |
| Paths.OutDirLayout | podcast_get.py:286 | `OutDir`: podcasts with different names get different directories, each ending in `/` under `outPath`, and every episode path and the cover path lie inside it |
| Paths.CoverIsNotAnEpisode | podcast_get.py:311 | `CoverPath`: no episode path equals the cover path of the same directory |
| Pipeline.ResolveArt | podcast_get.py:200-222 | art resolution fails only when there is a non-empty `href` |
| Pipeline.Download | podcast_get.py:198-265 | the download branch either downloads, adding exactly the episode's path and changing only the art tags, or fails on the art filter with nothing changed |
| Pipeline.LoadFeed | podcast_get.py:284-292 | with `get_rss` (lines 80-86): the output directory now exists, no file or tag changes, the feed is parsed exactly when the location starts with `http`, and the last I/O is the fetch or the file read |
| Pipeline.Sync | podcast_get.py:281-319 | one podcast adds its output directory and removes no file |
| Pipeline.SyncAll | podcast_get.py:277-320 | `main` removes no directory and no file |
| Pipeline.Step | podcast_get.py:152-274 | `process_podcast` keeps the six podcast-level tags, sets the episode tags from the item, creates no directory, removes no file, and fails only by a filter that does not match |
| Pipeline.Run | podcast_get.py:318-319 | the episode loop keeps the podcast-level tags and the directories, removes no file, and aborts only by a filter that does not match |
| PipelineProperties.FilterUrlRule | podcast_get.py:192-213 | `FilterUrl`: with no filter the URL itself, with a filter its first `findall` match, and no URL exactly when the filter matches nothing |
| PipelineProperties.EpisodeTagsOfItem | podcast_get.py:170-183 | `EpisodeValues`: the item's title, description, `pubDate` text, parsed date and enclosure URL, genre "Podcast", the guessed extension, and the year as digits denoting it |
| PipelineProperties.FramesFromTags | podcast_get.py:243-256 | `BuildFrames` over the dictionary equals FramesFor: TRCK the number, TIT2 the title, TALB/TCOP/TPE1/TPE2 the podcast tags, TCON "Podcast", TDRC the year, APIC the episode art |
| PipelineProperties.ArtFromChannelTags | podcast_get.py:200-219 | the resolved art depends only on the podcast-level tags |
| PipelineProperties.ArtSources | podcast_get.py:200-219 | no usable `href` gives the podcast's art and MIME type with no fetch; an `href` the filter matches gives one fetch of `href` itself (no filter) or of the filter's first match, and that response's body and Content-Type; failure means exactly an `href` the art filter does not match |
| PipelineProperties.UrlFilterFailure | podcast_get.py:191-198 | the episode fails with IndexError exactly when the URL filter matches nothing, and then nothing is fetched or written, whatever the existence and dry-run checks would say |
| PipelineProperties.DryRunStep | podcast_get.py:198-269 | a dry run performs no I/O and writes no file for an episode, and pauses exactly when the URL filter matches |
| PipelineProperties.ExistingSkipped | podcast_get.py:198-274 | an existing file outside a dry run means no I/O, and a skip exactly when the URL filter matches |
| PipelineProperties.DownloadStep | podcast_get.py:198-265 | a new episode outside a dry run is downloaded exactly when both filters match; if the art filter does not match, nothing is fetched or written; if both match, the path is added and the I/O is the art fetch (if any), the media fetch, the write and the frames |
| PipelineProperties.StepDownloads | podcast_get.py:198-231 | a new episode whose filters match is downloaded and its path now exists |
| PipelineProperties.FrameNumbers | podcast_get.py:243-250 | TRCK reads back as the episode number and TDRC as the publication year |
| PipelineProperties.RunExtends | podcast_get.py:318-319 | one more iteration after a completed prefix processes the next episode under the next number |
| PipelineProperties.CompletedPrefix | podcast_get.py:318-319 | a completed loop completed its prefix, and its last episode did not fail |
| PipelineProperties.DryRunLoop | podcast_get.py:267-269 | a dry run over all episodes writes no file and performs no I/O |
| PipelineProperties.CompletedLoopMatched | podcast_get.py:192-196 | a completed loop met no URL filter that failed to match |
| PipelineProperties.NumberedMembers | podcast_get.py:318 | the numbered images are exactly the image of episode i under number i+1 |
| PipelineProperties.LoopPathsMembers | podcast_get.py:318-319 | the loop's paths are exactly the path of each sorted episode under its number, 1 to N |
| PipelineProperties.CompletedLoopRecordsPaths | podcast_get.py:198-231 | after a completed run outside a dry run, every episode's file exists under its number |
| PipelineProperties.StepRecordsPath | podcast_get.py:198-274 | an episode that did not fail, outside a dry run, ends with its file present |
| PipelineProperties.StepNewRecordsPath | podcast_get.py:198-231 | an absent episode that does not fail, outside a dry run, is then present |
| PipelineProperties.LoopOverExisting | podcast_get.py:271-274 | when every file exists and every URL filter matches, the loop completes with no I/O and no new file |
| PipelineProperties.SkipsExtend | podcast_get.py:271-274 | one more skipped episode leaves the files and the I/O as they were |
| PipelineProperties.LoopIdempotent | podcast_get.py:198 | running the loop again after it completed writes nothing and performs no I/O |
| PipelineProperties.PathsOfDistinctNumbers | podcast_get.py:186-189 | two episodes numbered differently never share a path |
| PipelineProperties.LaterPathIsFresh | podcast_get.py:186-189 | the path of the episode numbered after the first `k` is none of theirs |
| PipelineProperties.NextPathFresh | podcast_get.py:186-189 | the last episode's path is new to the files the earlier ones left |
| PipelineProperties.LoopDownloadsAll | podcast_get.py:198-231 | when no file exists yet and every filter matches, every episode is downloaded to its own path and nothing else appears |
| PipelineProperties.DownloadsExtend | podcast_get.py:198-231 | one more downloaded episode adds exactly its path |
| PipelineProperties.AbortStopsLoop | podcast_get.py:318-319 | after a failed episode the later episodes change nothing |
| PipelineProperties.AbortedRunPrefix | podcast_get.py:318-319 | an aborted prefix is not extended |
| PipelineProperties.RunPrefixExtends | podcast_get.py:318-319 | the loop over one more episode is the previous loop followed by that episode's step |
| PipelineProperties.LoopAdvance | podcast_get.py:318-319 | an iteration that does not fail continues the loop; one that fails is the loop's end result |
| PipelineProperties.LocalFeedAborts | podcast_get.py:80-86 | a location not starting with `http` is read from disk and the run ends with no file written |
| PipelineProperties.DateErrorAborts | podcast_get.py:299 | a feed with an undated or unparsable item ends the run at the first such item, before the cover or any episode is written |
| PipelineProperties.MissingItunesAborts | podcast_get.py:305 | a feed declaring no `itunes` prefix ends the run with no file written |
| PipelineProperties.DryRunWritesOnlyCover | podcast_get.py:288-319 | a dry run fetches the feed and the image, writes the cover and no other file |
| PipelineProperties.PodcastTags | podcast_get.py:301-308 | `InitialTags` as the episodes see it: after a podcast, album and album artist are the channel title, the artist is `itunes:author`, the copyright and the art are the channel's |
| PipelineProperties.CoverNeverOverwritten | podcast_get.py:310-311 | no episode of a podcast is written to its cover path |
| PipelineProperties.AbortStopsMain | podcast_get.py:281-319 | after an aborted podcast the later podcasts change nothing |
| PipelineProperties.AbortedPrefix | podcast_get.py:281-319 | an aborted prefix of `main` is not extended |
| PipelineProperties.SyncAllPrefixExtends | podcast_get.py:281-319 | `main` over one more podcast is the previous run followed by that podcast |
| PipelineProperties.MainAdvance | podcast_get.py:281-319 | a podcast that completes continues `main`; one that aborts is its end result |
| Collector.Collector.ProcessEpisode | podcast_get.py:152-274 | the in-place updates of `process_podcast` leave exactly the state and outcome of `Pipeline.Step` |
| Collector.Collector.Download | podcast_get.py:198-265 | the download branch's in-place updates leave exactly the state of `Pipeline.Download` |
| Collector.Collector.ProcessEpisodes | podcast_get.py:318-319 | the `enumerate` loop leaves exactly the state of `Pipeline.Run`, stopping at the first failure |
| Collector.Collector.SyncPodcast | podcast_get.py:281-319 | one pass of `main`'s loop leaves exactly the state of `Pipeline.Sync` |
| Collector.Collector.SyncPodcasts | podcast_get.py:277-320 | `main` leaves exactly the state of `Pipeline.SyncAll` |

## Left out

- XML parsing and the XPath lookups are not modelled. A feed arrives as a
  `Feed.FeedDocument` holding what `find`/`findtext` return. A malformed
  feed, on which `ET.fromstring` raises `ParseError` (line 292), is not
  modelled: the `parseFeed` parameter always returns a document.
- An invalid `episodeUrlFilter` or `artUrlFilter` pattern is not modelled.
  In the source `re.compile` raises on it (lines 193 and 210); the model
  takes `findall` as a total parameter.
- A missing `enclosure` element or attribute is not modelled; the model
  always has an enclosure URL and type. In the source a missing element
  raises `AttributeError` on line 174 (`.get` on `None`), and a missing
  `type` raises inside `guess_extension(None)` on lines 176-177. A missing
  `url` raises nothing there: `get('url')` gives `None` and the episode goes
  on. With `episodeUrlFilter` set, `findall(None)` then raises `TypeError`
  on line 194. Without a filter, `requests.get(None)` raises on line 226,
  which happens only in the download branch, after any episode-art fetch
  on line 214; a dry run or a skipped episode goes on without error.
- A channel without `image/url` is not modelled. In the source
  `.text` on the missing element (line 295) raises `AttributeError`; the
  model always has an image URL.
- A response without a Content-Type header is not modelled. In the source
  it raises `KeyError`.
- The namespace pattern `config['namespaceRegex']` is not modelled. Its
  matches arrive as (prefix, uri) pairs, as a pattern with two groups
  yields.
- `.decode("UTF-8")` failing on a remote feed is not modelled.
- `datetime.strptime` is a parameter and no RFC 822 parser is modelled.
  The day-of-month check it performs is the separate predicate
  `Chrono.CalendarDay`, required only by the order lemmas.
- `Chrono.OutDateFields`: the year is rendered without padding, so
  years below 1000 get fewer than four digits. This is a choice of the
  model. What `strftime('%Y')` gives for such years depends on the
  CPython version: older releases on Linux pass glibc's unpadded result
  through, and newer releases pad `%Y` to four digits on every platform.
- `mimetypes.guess_extension`, `re.findall` and `requests.get` are
  parameters. Network errors and timeouts are not modelled.
- Writing files is modelled as adding the path to a set and logging a
  `WriteFile` effect. File contents on disk and write errors are not
  modelled.
- For mutagen, only the frame values are modelled. `mutagen.File` on an
  unrecognised file is not modelled. Neither is `None` passed as frame
  text: `TIT2` (an item without `title`, line 244), `TALB` and `TPE2` (a
  channel without `title`, lines 245 and 248), `TCOP` (without `copyright`,
  line 246) and `TPE1` (without `itunes:author`, line 247) can all receive
  `None`. `Pipeline.Frames` carries these texts as `Option` and does not
  say what mutagen does with them.
- `print` and the 0.1 second `time.sleep` of a dry run are not modelled.
  They have no effect on the state.
- The configuration bootstrap (lines 29-40) is not modelled: `outPath`
  arrives in its final form. Line 39 compares `[:-1]` instead of `[-1:]`,
  so a `/` is appended almost always; that is outside this model.
- Of `podcast_config.update(podcast)` only `name`, `rssFeedUrl`, and the
  two optional filters are modelled.
- The tag dictionary is a record with a fixed key set (see "Tag
  dictionary"), not a general map.
