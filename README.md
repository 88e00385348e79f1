# Archive plugins and Nginx sync login, modelled in Dafny

This project models the logic inside three plugins of a media-streaming host
application. The host, HTTP, HTML parsing and JSON decoding are treated as
given inputs.

- **Internet Archive provider** (`InternetArchiveProvider.kt`)
  - A search hit becomes a search result.
  - A metadata record becomes a load response. The provider filters the
    video files and decides between one movie (or music item) and a playlist
    series. For a series, it groups the files by cleaned name into
    episodes, reads season and episode numbers from file names with five
    ordered patterns, and sorts the episodes.
  - `loadLinks` turns a "video-playlist" payload into one link per URL,
    in ascending order.
  - The extractor reads an item page from a process-wide page cache. It
    picks media download anchors, or `og:video` metas when there are none,
    and labels each link and assigns it a quality tier.
- **Example provider** (`ExampleProvider.kt`)
  - The same search and load mappings in a simpler form.
  - An extractor that takes each `video source` of the page that has a URL
    and a positive height, using its own page cache.
- **Nginx sync login** (`NginxApi.kt`)
  - A login form with a server is stored for a new account in the host's
    key-value store.
  - The provider-wide override URL and basic-auth credentials are derived
    from the stored form.

Layout, one module per file:
- `kotlin_text.dfy` holds the parts of Kotlin's string library in use.
- `regex_scan.dfy` writes the seven regular expressions as scanners, plus
  leftmost `find`.
- `collections.dfy` models insertion-ordered sets and map keys.
- `grouping.dfy` holds the generic `urlMap` grouping.
- `stable_sort.dfy` and `string_order.dfy` hold sorting.
- `host_api.dfy` holds the host's data types.
- The Internet Archive provider is in:
  - `archive_records.dfy`
  - `archive_classifier.dfy`
  - `archive_load.dfy`
  - `archive_links.dfy`
  - `archive_extractor.dfy`
- `archive_examples.dfy` holds worked inputs.
- The remaining files:
  - `document_cache.dfy`: documents and the page cache class
  - `example_provider.dfy`
  - `nginx_sync.dfy`

State that the source changes in place is modelled as classes:
- `DocumentCache` is a companion `archivedItems` map.
- `NginxApi` holds the account index, the registered accounts and the store.
- `NginxProvider` holds the two static override fields.

The source's loops are methods, each proved equal to a specification
function:
- the pattern loop of `extractEpisodeInfo`
- the `forEach` that fills `urlMap`
- the `forEach`es that emit links

Behaviour of the code worth noting:
- The grouping key is the cleaned name as it stands: it is not lower-cased
  and quality markers stay in it. So "Ep1_480p.mp4", "Ep1_720p.mp4" and
  "Ep2_480p.mp4" make three groups
  (`ArchiveExamples.ExampleQualityVariantsGroups`).
- Episodes without a season sort first, always. `compareBy` puts null
  before any value.
- `load` of the Internet Archive provider reports a failed request or
  decoding as an error ("Error loading: invalid json response"). Its
  `search` and `getMainPage` catch every exception and give no results.
- The example provider has no `try`. Metadata or search text that does not
  decode gives null or no results, but a failed request escapes as an
  exception (`Threw`).

## Model

| member | source | states |
|---|---|---|
| ArchiveRecords.ToSearchResponse | InternetArchiveProvider/src/main/kotlin/com/luna712/InternetArchiveProvider.kt:107-118 | The result is named by the title, or by the identifier when there is no title. It is Music exactly when the mediatype is "audio". It always has a poster. |
| ArchiveRecords.SearchResultRoundTrip | InternetArchiveProvider/src/main/kotlin/com/luna712/InternetArchiveProvider.kt:84-85 | For an identifier without '/', the details URL of a search result leads `load` back to the same identifier. The poster URL ends with that identifier too. |
| ArchiveRecords.IdentifierOf | InternetArchiveProvider/src/main/kotlin/com/luna712/InternetArchiveProvider.kt:84 | The identifier is the whole URL when it holds no '/'. Otherwise it is the '/'-free suffix that follows a '/', which is the text after the last '/'. |
| ArchiveRecords.TypeOf | InternetArchiveProvider/src/main/kotlin/com/luna712/InternetArchiveProvider.kt:241-243 | The type is Music exactly for mediatype "audio". Every other mediatype gives Movie. |
| ArchiveRecords.SearchResults | InternetArchiveProvider/src/main/kotlin/com/luna712/InternetArchiveProvider.kt:54-80 | A response that fails to decode gives no results. Otherwise there is one result per hit, in order, with the details URL and poster URL of its identifier. |
| ArchiveClassifier.FirstMatchFrom | InternetArchiveProvider/src/main/kotlin/com/luna712/InternetArchiveProvider.kt:128-140 | The pattern found is the first one in list order with a match anywhere. Every pattern before it has no match, and "none found" means no pattern matches. |
| ArchiveClassifier.PairFromGroups | InternetArchiveProvider/src/main/kotlin/com/luna712/InternetArchiveProvider.kt:141-147 | When every capture group is a digit run, each number it yields is in 0..Int.MAX_VALUE. |
| ArchiveClassifier.EpisodeInfo | InternetArchiveProvider/src/main/kotlin/com/luna712/InternetArchiveProvider.kt:137-151 | Season and episode numbers are never negative and fit an Int. |
| ArchiveClassifier.EpisodeInfoFirstMatch | InternetArchiveProvider/src/main/kotlin/com/luna712/InternetArchiveProvider.kt:137-148 | If pattern k matches and no earlier pattern does, the result comes from pattern k's groups. |
| ArchiveClassifier.EpisodeInfoNoMatch | InternetArchiveProvider/src/main/kotlin/com/luna712/InternetArchiveProvider.kt:150 | When no pattern matches, the result is (null, null). |
| ArchiveClassifier.ExtractEpisodeInfo | InternetArchiveProvider/src/main/kotlin/com/luna712/InternetArchiveProvider.kt:137-151 | The loop with its early return computes `EpisodeInfo`. Every match has two or three groups, so the size-5 branch is never taken. |
| ArchiveClassifier.ExtractYear | InternetArchiveProvider/src/main/kotlin/com/luna712/InternetArchiveProvider.kt:153-180 | Null input or fewer than 4 characters gives null. Exactly 4 characters gives `toIntOrNull` of the whole string. Longer strings yield a year in 0..9999 or null. |
| ArchiveClassifier.YearValue | InternetArchiveProvider/src/main/kotlin/com/luna712/InternetArchiveProvider.kt:170 | `toInt()` of a four-digit group never fails and is in 0..9999. |
| ArchiveClassifier.YearRangeWins | InternetArchiveProvider/src/main/kotlin/com/luna712/InternetArchiveProvider.kt:164-171 | The first `YYYY-YYYY` range gives its start year, even when a bare year appears earlier. |
| ArchiveClassifier.FirstBareYear | InternetArchiveProvider/src/main/kotlin/com/luna712/InternetArchiveProvider.kt:173-177 | With no range anywhere, the leftmost standalone 4-digit year is used. |
| ArchiveClassifier.NoYearGivesNull | InternetArchiveProvider/src/main/kotlin/com/luna712/InternetArchiveProvider.kt:164-179 | A date longer than 4 characters with no `YYYY-YYYY` range and no standalone year gives null. |
| ArchiveClassifier.CleanedName | InternetArchiveProvider/src/main/kotlin/com/luna712/InternetArchiveProvider.kt:189-194 | The cleaned name holds no '/' and no '_' and is never longer than the file name. |
| ArchiveClassifier.UniqueName | InternetArchiveProvider/src/main/kotlin/com/luna712/InternetArchiveProvider.kt:196-204 | The unique name is a function of the cleaned name and never longer than it. |
| ArchiveClassifier.RemoveIaSuffix | InternetArchiveProvider/src/main/kotlin/com/luna712/InternetArchiveProvider.kt:203 | Removing ".ia" from a name with ".ia" appended gives the same result as removing it from the name alone. |
| ArchiveClassifier.IaVariantSharesUniqueName | InternetArchiveProvider/src/main/kotlin/com/luna712/InternetArchiveProvider.kt:196-204 | "stem.ia.ext" and "stem.ext" have the same unique name, whether both are in one directory or both at the top level. |
| ArchiveClassifier.CleanedNameOf | InternetArchiveProvider/src/main/kotlin/com/luna712/InternetArchiveProvider.kt:189-194 | The cleaned name of "dir/stem.ext", or of a top-level "stem.ext", is the stem with '_' replaced by ' '. |
| ArchiveClassifier.FirstThumbnail | InternetArchiveProvider/src/main/kotlin/com/luna712/InternetArchiveProvider.kt:183-185 | `find` returns the first file that is a thumbnail of the name, and none exactly when no file is. |
| ArchiveClassifier.ThumbnailUrl | InternetArchiveProvider/src/main/kotlin/com/luna712/InternetArchiveProvider.kt:182-187 | The result is null exactly when no file is a thumbnail of the name. Otherwise it is the "https://server dir/name" URL of the first such file. |
| ArchiveLoad.VideoFiles | InternetArchiveProvider/src/main/kotlin/com/luna712/InternetArchiveProvider.kt:225-239 | A file is kept exactly when it is long enough and its format names a video container. |
| ArchiveLoad.VideoFilesSnoc | InternetArchiveProvider/src/main/kotlin/com/luna712/InternetArchiveProvider.kt:225-239 | The filter keeps file order and multiplicity: each file in turn is appended when it is a video file and skipped otherwise. |
| ArchiveLoad.AddFile | InternetArchiveProvider/src/main/kotlin/com/luna712/InternetArchiveProvider.kt:271-277 | The file's URL joins the set of its cleaned name. A name seen for the first time becomes a new key, last in key order. |
| ArchiveLoad.GroupByCleanedName | InternetArchiveProvider/src/main/kotlin/com/luna712/InternetArchiveProvider.kt:269-277 | The keys are the cleaned names, once each, in the order of first appearance. Each key holds the URLs of exactly the files with that name. |
| ArchiveLoad.FileUrlInjective | InternetArchiveProvider/src/main/kotlin/com/luna712/InternetArchiveProvider.kt:273 | Two files of one item have the same URL only when they have the same name. |
| ArchiveLoad.FileInItsGroupOnly | InternetArchiveProvider/src/main/kotlin/com/luna712/InternetArchiveProvider.kt:271-277 | Each file's URL lands in the group of its own cleaned name and in no other group. |
| ArchiveLoad.EpisodeOf | InternetArchiveProvider/src/main/kotlin/com/luna712/InternetArchiveProvider.kt:279-295 | The episode and its LoadData are named after the key, and its type is "video-playlist". Season, episode and thumbnail come from the first video file with that cleaned name. |
| ArchiveLoad.Episodes | InternetArchiveProvider/src/main/kotlin/com/luna712/InternetArchiveProvider.kt:279-295 | There is one episode per key, in key order, each carrying its key's group. |
| ArchiveLoad.EpisodeOrderIsTotalPreorder | InternetArchiveProvider/src/main/kotlin/com/luna712/InternetArchiveProvider.kt:296 | `compareBy(season, episode)` with null first is total and transitive. |
| ArchiveLoad.NullSeasonFirst | InternetArchiveProvider/src/main/kotlin/com/luna712/InternetArchiveProvider.kt:296 | An episode without a season comes strictly before any episode with one. |
| ArchiveLoad.SortEpisodes | InternetArchiveProvider/src/main/kotlin/com/luna712/InternetArchiveProvider.kt:296 | The result is a permutation of the episodes, sorted by season, then episode. |
| ArchiveLoad.SortEpisodesIsStable | InternetArchiveProvider/src/main/kotlin/com/luna712/InternetArchiveProvider.kt:296 | Episodes that tie on (season, episode) keep their order. |
| ArchiveLoad.Tags | InternetArchiveProvider/src/main/kotlin/com/luna712/InternetArchiveProvider.kt:255-257 | A single subject is split on ';'. The pieces hold no ';' and joining them gives the subject back. Any other subject list is used as is. |
| ArchiveLoad.Actors | InternetArchiveProvider/src/main/kotlin/com/luna712/InternetArchiveProvider.kt:259-261 | Every creator, in order, becomes an actor credited as "Creator". No creators gives no actors. |
| ArchiveLoad.DetailsOf | InternetArchiveProvider/src/main/kotlin/com/luna712/InternetArchiveProvider.kt:253-261 | The plot is the description and the year comes from `extractYear`. The tags follow the subject rule and the actors are the creators. The poster is "mainUrl/services/img/identifier". |
| ArchiveLoad.LoadResponseOf | InternetArchiveProvider/src/main/kotlin/com/luna712/InternetArchiveProvider.kt:224-315 | The title falls back to the identifier, and the URL is the details URL. It is a movie exactly when the single-item test holds; then its data is the identifier and its type is Music exactly for audio. Otherwise it is a TvSeries of the sorted episodes. |
| ArchiveLoad.ToLoadResponse | InternetArchiveProvider/src/main/kotlin/com/luna712/InternetArchiveProvider.kt:224-315 | The filter, the grouping loop and the sort compute `LoadResponseOf`. |
| ArchiveLoad.ShapeDecision | InternetArchiveProvider/src/main/kotlin/com/luna712/InternetArchiveProvider.kt:241-245 | The result is a single item exactly when the mediatype is "audio" or all video files share one unique name. |
| ArchiveLoad.TwoGroupsWhenTwoUniqueNames | InternetArchiveProvider/src/main/kotlin/com/luna712/InternetArchiveProvider.kt:245-277 | Two distinct unique names imply two distinct groups. |
| ArchiveLoad.SeriesEpisodes | InternetArchiveProvider/src/main/kotlin/com/luna712/InternetArchiveProvider.kt:263-313 | A series has at least two episodes, sorted, a permutation of the groups. Each episode is a non-empty "video-playlist" named after a cleaned name, carrying exactly that group's URLs. |
| ArchiveLoad.EpisodesAreGroups | InternetArchiveProvider/src/main/kotlin/com/luna712/InternetArchiveProvider.kt:279-295 | Before sorting, every episode is the playlist of its group. |
| ArchiveLoad.MetadataRequestUrl | InternetArchiveProvider/src/main/kotlin/com/luna712/InternetArchiveProvider.kt:84-85 | The request is "mainUrl/metadata/" followed by an identifier. That identifier is the whole URL when the URL has no '/'. Otherwise it is the '/'-free suffix right after a '/'. |
| ArchiveLoad.MetadataRequestOfPath | InternetArchiveProvider/src/main/kotlin/com/luna712/InternetArchiveProvider.kt:84-85 | The request for "path/identifier" asks for that identifier, for any path. |
| ArchiveLoad.Load | InternetArchiveProvider/src/main/kotlin/com/luna712/InternetArchiveProvider.kt:82-92 | `load` fails with "Error loading: invalid json response" exactly when the metadata cannot be fetched or decoded. Otherwise it gives the record's load response. |
| ArchiveLoad.SearchResultLoadsItsIdentifier | InternetArchiveProvider/src/main/kotlin/com/luna712/InternetArchiveProvider.kt:82-92 | Opening a search result requests the metadata of that very identifier. |
| ArchiveLinks.DirectoryLabel | InternetArchiveProvider/src/main/kotlin/com/luna712/InternetArchiveProvider.kt:352-356 | The directory label holds no '/' or '_' and is never longer than the URL. |
| ArchiveLinks.Extension | InternetArchiveProvider/src/main/kotlin/com/luna712/InternetArchiveProvider.kt:357 | The extension is a '.'-free suffix of the URL. |
| ArchiveLinks.LoadLinks | InternetArchiveProvider/src/main/kotlin/com/luna712/InternetArchiveProvider.kt:342-380 | The method emits `LoadLinksOf` and always returns true. |
| ArchiveLinks.DelegatesUnlessPlaylist | InternetArchiveProvider/src/main/kotlin/com/luna712/InternetArchiveProvider.kt:372-378 | A payload that does not decode, or is not a "video-playlist", is handed to the host's extractor as the item's details page. |
| ArchiveLinks.PlaylistUrlsSpec | InternetArchiveProvider/src/main/kotlin/com/luna712/InternetArchiveProvider.kt:361 | Links are emitted for every URL of the payload, once each, in strictly ascending string order. |
| ArchiveLinks.PlaylistLinksSpec | InternetArchiveProvider/src/main/kotlin/com/luna712/InternetArchiveProvider.kt:361-371 | There is one link per sorted URL, in that order, with Unknown quality, no referer and the provider as source. |
| ArchiveLinks.PlaylistLinkName | InternetArchiveProvider/src/main/kotlin/com/luna712/InternetArchiveProvider.kt:365 | Each link is labelled by `getName` of its own URL. |
| ArchiveLinks.LabelRule | InternetArchiveProvider/src/main/kotlin/com/luna712/InternetArchiveProvider.kt:351-359 | The label is "directory (extension)" exactly when the directory differs from the group name and the group has more than one URL. Otherwise it is the provider name. |
| ArchiveLinks.EpisodeLinks | InternetArchiveProvider/src/main/kotlin/com/luna712/InternetArchiveProvider.kt:279-290 | An episode's links carry exactly the URLs of the files in its group, once each. |
| Documents.Lookup | InternetArchiveProvider/src/main/kotlin/com/luna712/InternetArchiveProvider.kt:407-416 | A cached page is used without fetching. On a miss, the fetched page is returned and stored. A failed fetch gives no page and leaves the cache unchanged. |
| Documents.LookupOnlyInserts | InternetArchiveProvider/src/main/kotlin/com/luna712/InternetArchiveProvider.kt:394 | The cache never loses or replaces an entry, and it grows by at most one. |
| Documents.LookupTwice | InternetArchiveProvider/src/main/kotlin/com/luna712/InternetArchiveProvider.kt:407-411 | A second lookup of a resolved URL gives the same page whatever the network returns, and it leaves the cache unchanged. |
| Documents.DocumentCache.Get | ExampleProvider/src/main/kotlin/com/example/ExampleProvider.kt:126-135 | The method updates the cache as `Lookup` says. It keeps every old entry, and a hit or a failed fetch leaves the cache unchanged. |
| ArchiveExtractor.FileLinks | InternetArchiveProvider/src/main/kotlin/com/luna712/InternetArchiveProvider.kt:418-430 | An anchor is kept exactly when its href ends, ignoring case, with one of the nine media extensions. |
| ArchiveExtractor.FileLinksSnoc | InternetArchiveProvider/src/main/kotlin/com/luna712/InternetArchiveProvider.kt:418-430 | The selection keeps page order and multiplicity: each anchor in turn is appended when it has a media extension and skipped otherwise. |
| ArchiveExtractor.Selected | InternetArchiveProvider/src/main/kotlin/com/luna712/InternetArchiveProvider.kt:432-434 | The `og:video` metas are used exactly when no anchor has a media extension. Otherwise the media anchors are used, in page order. |
| ArchiveExtractor.MediaUrl | InternetArchiveProvider/src/main/kotlin/com/luna712/InternetArchiveProvider.kt:437-441 | An element is skipped exactly when it has neither href nor content. An href wins and is prefixed with the site URL. |
| ArchiveExtractor.QualityOf | InternetArchiveProvider/src/main/kotlin/com/luna712/InternetArchiveProvider.kt:444-449 | The tier is P1080 if the name holds "1080", else P720 for "720", else P480 for "480", else Unknown. Matching ignores case. |
| ArchiveExtractor.QualityIgnoresDirectories | InternetArchiveProvider/src/main/kotlin/com/luna712/InternetArchiveProvider.kt:443 | Quality is read from the last path segment only. |
| ArchiveExtractor.LinkLabel | InternetArchiveProvider/src/main/kotlin/com/luna712/InternetArchiveProvider.kt:452-456 | A URL of at most one character is labelled with the provider name. A longer URL fails exactly when the decoder throws on its file name. |
| ArchiveExtractor.LabelOfFile | InternetArchiveProvider/src/main/kotlin/com/luna712/InternetArchiveProvider.kt:452-456 | A file "stem.ext" whose name decodes to "title.ext" is labelled "title (ext)". |
| ArchiveExtractor.EmitAllUrls | InternetArchiveProvider/src/main/kotlin/com/luna712/InternetArchiveProvider.kt:436-467 | The emitted URLs are a prefix of the selected elements' non-empty media URLs, in page order, and all of them when nothing throws. The loop throws exactly when the decoder fails on one of those URLs. |
| ArchiveExtractor.EmittedLinkFields | InternetArchiveProvider/src/main/kotlin/com/luna712/InternetArchiveProvider.kt:451-465 | Each link has the extractor as source, no referer and a non-empty URL. Its quality comes from its file name and its label from the label rule. |
| ArchiveExtractor.ThrownIsFinal | InternetArchiveProvider/src/main/kotlin/com/luna712/InternetArchiveProvider.kt:436-467 | After the decoder throws, no further element is processed. |
| ArchiveExtractor.EmitLinks | InternetArchiveProvider/src/main/kotlin/com/luna712/InternetArchiveProvider.kt:436-467 | The loop with its early exit computes `EmitAll`. |
| ArchiveExtractor.Resolve | InternetArchiveProvider/src/main/kotlin/com/luna712/InternetArchiveProvider.kt:401-468 | The cache is updated as `Lookup` says. A failed fetch emits nothing and does not throw. |
| ArchiveExtractor.ResolveTwice | InternetArchiveProvider/src/main/kotlin/com/luna712/InternetArchiveProvider.kt:407-416 | Resolving the same page twice emits the same links from the cache, whatever the network returns the second time. |
| ArchiveExtractor.GetUrl | InternetArchiveProvider/src/main/kotlin/com/luna712/InternetArchiveProvider.kt:401-468 | `getUrl` computes `Resolve` on the companion cache and keeps every entry of it. |
| ExampleProvider.ToSearchResponse | ExampleProvider/src/main/kotlin/com/example/ExampleProvider.kt:56-64 | The result is a Movie under the title, with URL "mainUrl/details/id" and poster "mainUrl/services/img/id". |
| ExampleProvider.SearchResults | ExampleProvider/src/main/kotlin/com/example/ExampleProvider.kt:21-42 | A failed request throws. Undecodable text gives no results. Otherwise there is one result per entry, in order. |
| ExampleProvider.SearchResultLoadsItsIdentifier | ExampleProvider/src/main/kotlin/com/example/ExampleProvider.kt:44-47 | Opening a search result requests the same identifier's metadata. The poster URL ends with that identifier. |
| ExampleProvider.ToLoadResponse | ExampleProvider/src/main/kotlin/com/example/ExampleProvider.kt:73-86 | The result is a Movie named by the title, with the identifier as data and the description as plot. The creator, when present, is the one actor, credited as "Creator". |
| ExampleProvider.Load | ExampleProvider/src/main/kotlin/com/example/ExampleProvider.kt:44-50 | The request is for the text after the URL's last '/'. The call throws exactly when the request fails, and gives null exactly when the metadata does not decode. Otherwise it gives the entry's load response. |
| ExampleProvider.LoadOfPath | ExampleProvider/src/main/kotlin/com/example/ExampleProvider.kt:44-50 | Opening "path/identifier" loads the metadata of that identifier. |
| ExampleProvider.HeightOf | ExampleProvider/src/main/kotlin/com/example/ExampleProvider.kt:139 | An unparseable height counts as 0. Any non-zero height is the parsed integer. |
| ExampleProvider.QualifyingSources | ExampleProvider/src/main/kotlin/com/example/ExampleProvider.kt:137-141 | A source is kept exactly when its src is non-empty and its height is positive. |
| ExampleProvider.VideoLinkFields | ExampleProvider/src/main/kotlin/com/example/ExampleProvider.kt:141-149 | Each link has a non-empty URL from a qualifying source and a positive Int pixel height as quality. Its source and label are the extractor name, and it has no referer. |
| ExampleProvider.EmitVideoLinks | ExampleProvider/src/main/kotlin/com/example/ExampleProvider.kt:137-152 | The loop emits exactly one link per qualifying source, in document order. |
| ExampleProvider.VideoLinksSnoc | ExampleProvider/src/main/kotlin/com/example/ExampleProvider.kt:141-150 | A qualifying source appends its link. Any other source is skipped. |
| ExampleProvider.ExampleSources | ExampleProvider/src/main/kotlin/com/example/ExampleProvider.kt:137-152 | Of four sources (heights 720, "auto" and -480, and one with an empty src), only the 720 one gives a link, with quality 720. |
| ExampleProvider.Resolve | ExampleProvider/src/main/kotlin/com/example/ExampleProvider.kt:120-153 | The cache step comes first, then the page's video-source links. A failed fetch emits nothing. |
| ExampleProvider.GetUrl | ExampleProvider/src/main/kotlin/com/example/ExampleProvider.kt:120-153 | `getUrl` computes `Resolve` on the extractor's own cache and keeps every entry of it. |
| NginxSync.OverrideUrlOf | NginxProvider/src/main/kotlin/com/luna712/NginxApi.kt:51 | The override URL always ends with '/'. It is the server itself when the server already ends with '/', and the server plus '/' otherwise. |
| NginxSync.OverrideUrlIdempotent | NginxProvider/src/main/kotlin/com/luna712/NginxApi.kt:51 | Normalising twice gives the same URL as normalising once. |
| NginxSync.Credentials | NginxProvider/src/main/kotlin/com/luna712/NginxApi.kt:52 | The credentials string is as long as the username, a ':' and the password together. |
| NginxSync.CredentialsParse | NginxProvider/src/main/kotlin/com/luna712/NginxApi.kt:52 | When the username holds no ':', the first ':' separates the username (or "") from the password (or ""). |
| NginxSync.NginxApi.LatestLoginData | NginxProvider/src/main/kotlin/com/luna712/NginxApi.kt:26-28 | The result is the form stored under `nginx_user` for the current account, and present exactly when one is stored. |
| NginxSync.NginxApi.LoginInfoOf | NginxProvider/src/main/kotlin/com/luna712/NginxApi.kt:30-33 | The result is null exactly when nothing is stored. Otherwise it is named by the username, or the server when there is no username, and carries the current account index. |
| NginxSync.NginxApi.InitializeData | NginxProvider/src/main/kotlin/com/luna712/NginxApi.kt:45-53 | With nothing stored, both provider fields become null. Otherwise they become the normalised override URL and the credentials of the stored form. |
| NginxSync.NginxApi.Login | NginxProvider/src/main/kotlin/com/luna712/NginxApi.kt:35-43 | A null or blank server gives null and changes nothing. Otherwise the method switches to the new account, stores the form, registers the account and sets both fields from the form. The stored form and the login info read back, and a token is returned. |
| ArchiveExamples.ExampleSeasonEpisodeTight | InternetArchiveProvider/src/main/kotlin/com/luna712/InternetArchiveProvider.kt:129 | "Show.S02E05.mkv" gives (2, 5). |
| ArchiveExamples.ExampleEpisodeThenSeason | InternetArchiveProvider/src/main/kotlin/com/luna712/InternetArchiveProvider.kt:132 | "Episode 7 Season 1" gives (7, 1): the first group is read as the season. |
| ArchiveExamples.ExampleEpisodeAlone | InternetArchiveProvider/src/main/kotlin/com/luna712/InternetArchiveProvider.kt:133 | "Episode 7" gives (null, 7). |
| ArchiveExamples.ExampleNoMatch | InternetArchiveProvider/src/main/kotlin/com/luna712/InternetArchiveProvider.kt:150 | "random.mp4" gives (null, null). |
| ArchiveExamples.ExampleYearRange | InternetArchiveProvider/src/main/kotlin/com/luna712/InternetArchiveProvider.kt:168-171 | "1990-1991" gives 1990. |
| ArchiveExamples.ExampleIsoDate | InternetArchiveProvider/src/main/kotlin/com/luna712/InternetArchiveProvider.kt:174-177 | "1994-05-01" gives 1994. |
| ArchiveExamples.ExampleRangeAfterYear | InternetArchiveProvider/src/main/kotlin/com/luna712/InternetArchiveProvider.kt:168-171 | "1980 1990-1991" gives 1990: a range beats an earlier bare year. |
| ArchiveExamples.ExampleRunTogether | InternetArchiveProvider/src/main/kotlin/com/luna712/InternetArchiveProvider.kt:164-179 | "19940501" gives null. |
| ArchiveExamples.ExampleIaVariant | InternetArchiveProvider/src/main/kotlin/com/luna712/InternetArchiveProvider.kt:196-204 | "d/movie.ia.mp4" and "d/movie.mp4" share a unique name, and so do "movie.ia.mp4" and "movie.mp4". |
| ArchiveExamples.ExampleQualityVariantsGroups | InternetArchiveProvider/src/main/kotlin/com/luna712/InternetArchiveProvider.kt:189-194 | "Ep1_480p.mp4", "Ep1_720p.mp4" and "Ep2_480p.mp4" have three distinct cleaned names. |
| KotlinText.ToIntOrNull | InternetArchiveProvider/src/main/kotlin/com/luna712/InternetArchiveProvider.kt:143-144 | A digit string gives its value when it fits an Int and null on overflow. Empty or non-numeric text gives null. Any result fits an Int. |
| KotlinText.JoinSplit | InternetArchiveProvider/src/main/kotlin/com/luna712/InternetArchiveProvider.kt:256 | Joining the pieces of `split(";")` gives the input back. |
| KotlinText.SplitJoin | InternetArchiveProvider/src/main/kotlin/com/luna712/InternetArchiveProvider.kt:256 | Splitting the join of ';'-free pieces gives the pieces back. |
| Collections.DedupMembers | InternetArchiveProvider/src/main/kotlin/com/luna712/InternetArchiveProvider.kt:245 | `distinctBy` and `mutableSetOf` hold every element once, and nothing else. |
| Collections.DedupFirstOccurrenceOrder | InternetArchiveProvider/src/main/kotlin/com/luna712/InternetArchiveProvider.kt:269-279 | Map keys are ordered by first occurrence. |
| Collections.Filter | InternetArchiveProvider/src/main/kotlin/com/luna712/InternetArchiveProvider.kt:225-239 | `filter` keeps exactly the elements the predicate accepts, and nothing else. |
| Collections.FilterAppend | InternetArchiveProvider/src/main/kotlin/com/luna712/InternetArchiveProvider.kt:418-430 | Filtering a concatenation gives the concatenation of the filtered parts. |
| Collections.FilterSnoc | InternetArchiveProvider/src/main/kotlin/com/luna712/InternetArchiveProvider.kt:225-239 | `filter` keeps order and multiplicity: each element in turn is appended when accepted and skipped otherwise. |
| Grouping.GroupMembers | InternetArchiveProvider/src/main/kotlin/com/luna712/InternetArchiveProvider.kt:274-276 | A group holds exactly the values filed under its key. |
| Grouping.GroupIsNonEmpty | InternetArchiveProvider/src/main/kotlin/com/luna712/InternetArchiveProvider.kt:276 | Every key that occurs has a non-empty group. |
| StableSort.SortStable | InternetArchiveProvider/src/main/kotlin/com/luna712/InternetArchiveProvider.kt:296 | `sortedWith` keeps the relative order of equal elements. |
| StringOrder.SortStrings | InternetArchiveProvider/src/main/kotlin/com/luna712/InternetArchiveProvider.kt:361 | `sorted()` returns a permutation in ascending string order. |

## Left out

- HTTP and HTML fetching (`app.get`, `Jsoup.connect(url).get()`) become function parameters.
  - In the Internet Archive provider and both extractors, a fetch returns a decoded record or page, or fails (`None`). The surrounding `try` treats a failed request and failed decoding alike.
  - The example provider's fetch tells the two apart (`RequestFailed`, `Undecodable`, `Decoded`), because only decoding failures are caught there.
- JSON decoding and encoding are left out: the Jackson mapper settings, `tryParseJson`, `toJson`, and the `LoadData` round trip through JSON. Decoded records are datatypes, and `loadLinks` receives the decoded payload beside the raw string.
- Jsoup CSS selection is left out. A page is given as the lists of elements that `a[href*="/download/"]`, the head's `meta[property="og:video"]` and `video source` select, in document order.
- The duration test of `toLoadResponse` is left out (`timeToSeconds`, `toFloatOrNull`, `>= 10.0`): it is floating point. It is an abstract per-file predicate on the `length` field. The format test is modelled.
- `URLEncoder` is left out: the search request URLs, with their query strings, are not modelled. `URLDecoder` is a parameter that may fail; a failure is an exception that ends the extractor's `forEach`.
- Host constructors become plain datatypes: `newMovieLoadResponse`, `newTvSeriesLoadResponse`, `newMovieSearchResponse` and `newHomePageResponse`. The home page's list title "Featured" is not modelled.
- Host services are not run. `loadExtractor` is a `Delegated(pageUrl)` outcome, and the example provider's `loadLinks`, which only delegates, is not modelled. `logError` is dropped. `ErrorLoadingException` is the `LoadFailed` message.
- Nginx account services are abstract. `switchToNewAccount` picks a new account index, which is a parameter of `Login`. `registerAccount` adds the index to a set. `getKey`/`setKey` are an account-keyed map. The token payload (`form.toJson()`) is the form itself.
- Suspension and the unsynchronised shared caches are left out; everything runs sequentially.
- `getExtractorUrl` of both extractors is not a separate member. It builds the same "mainUrl/details/id" URL as `ArchiveRecords.DetailsUrl`.
- Plugin registration classes and Gradle build files are configuration.
- The subtitle callback is never invoked by this code, so it is not modelled.
- KotlinText.EqualsIgnoreCase: folds ASCII letters only. Kotlin's `ignoreCase` comparisons and `RegexOption.IGNORE_CASE` also fold other Unicode letters (for example 'ſ' and the Kelvin sign).
- RegexScan.IsWordChar: `\b` counts ASCII letters, digits and '_' as word characters. The JVM's `\b` also counts every other Unicode letter and digit, so in "1994年" it finds no standalone year where the model finds 1994. `\d` and `\s` are ASCII on the JVM as in the model.
- KotlinText.ToIntOrNull: accepts ASCII digits only. Kotlin also accepts other Unicode decimal digits.
- StringOrder.StrLe: compares whole code points. Kotlin compares UTF-16 code units; the two differ only between supplementary characters and characters from U+E000 up.
- NginxSync.NginxApi.Login: does not model how the host chooses the new account index.
