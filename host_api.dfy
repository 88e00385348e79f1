/**
 * The host application's data model as the plugins use it: search results,
 * load responses, episodes and extractor links. Host services that build
 * them (`newMovieLoadResponse` and friends) become plain constructors.
 */
module HostApi {
  import opened Options

  datatype TvType = Movie | Music | TvSeries | Others

  datatype SearchResponse = SearchResponse(name: string, url: string, tvType: TvType, posterUrl: Option<string>)

  /** `ActorData(Actor(name, ""), roleString = role)`. */
  datatype ActorData = ActorData(name: string, role: string)

  /**
   * The per-episode payload handed from `load` to `loadLinks` (serialised
   * as JSON by the source; `kind` is its `type` field).
   */
  datatype LoadData = LoadData(urls: seq<string>, kind: string, name: string)

  datatype Episode = Episode(data: LoadData, name: string, season: Option<int>, episode: Option<int>,
                             posterUrl: Option<string>)

  /** The fields a load response carries besides its shape. */
  datatype Details = Details(plot: Option<string>, year: Option<int>, tags: Option<seq<string>>,
                             posterUrl: string, actors: Option<seq<ActorData>>)

  datatype LoadResponse =
    | MovieLoad(name: string, url: string, tvType: TvType, dataUrl: string, details: Details)
    | SeriesLoad(name: string, url: string, tvType: TvType, episodes: seq<Episode>, details: Details)

  /** `Qualities.Unknown`, `P480`, `P720`, `P1080`, or a raw pixel height. */
  datatype Quality = QualityUnknown | P480 | P720 | P1080 | Pixels(height: int)

  datatype ExtractorLink = ExtractorLink(source: string, name: string, url: string, referer: string,
                                         quality: Quality)
}
