/**
 * The app's data classes: what the Jikan API returns (anime, characters, pagination) and the
 * Room rows the app caches them in. They carry no behaviour.
 */
module Model {
  import opened Base

  /** A Kotlin `Double`, kept as its IEEE 754 bit pattern: the app never computes with it. */
  type Score = bv64

  /**
   * `AnimeImageUrls`, `CharacterImageUrls` and `PersonImageUrls`: three classes with the
   * same three nullable URLs and the same JSON names.
   */
  datatype ImageUrls = ImageUrls(imageUrl: Option<string>, smallImageUrl: Option<string>, largeImageUrl: Option<string>)

  /** `AnimeImages`, `CharacterImages` and `PersonImages`: a JPEG and a WebP rendition. */
  datatype Images = Images(jpg: Option<ImageUrls>, webp: Option<ImageUrls>)

  datatype TrailerImages = TrailerImages(
    imageUrl: Option<string>, smallImageUrl: Option<string>, mediumImageUrl: Option<string>,
    largeImageUrl: Option<string>, maximumImageUrl: Option<string>)

  datatype Trailer = Trailer(youtubeId: Option<string>, url: Option<string>, embedUrl: Option<string>, images: Option<TrailerImages>)

  /** `Genre`, `Studio` and `Producer` have the same four fields; the JSON key of `kind` is "type". */
  datatype Resource = Resource(malId: Int32, kind: string, name: string, url: string)
  type Genre = Resource
  type Studio = Resource
  type Producer = Resource

  /**
   * The twenty scalar properties that `Anime` and `AnimeEntity` share, title through year,
   * in declaration order. The field called `type` in the app is `kind` here.
   */
  datatype AnimeInfo = AnimeInfo(
    title: string, titleEnglish: Option<string>, titleJapanese: Option<string>, kind: Option<string>,
    source: Option<string>, episodes: Option<Int32>, status: Option<string>, airing: bool,
    duration: Option<string>, rating: Option<string>, score: Option<Score>, scoredBy: Option<Int32>,
    rank: Option<Int32>, popularity: Option<Int32>, members: Option<Int32>, favorites: Option<Int32>,
    synopsis: Option<string>, background: Option<string>, season: Option<string>, year: Option<Int32>)

  datatype Anime = Anime(
    malId: Int32, info: AnimeInfo, images: Option<Images>, trailer: Option<Trailer>,
    genres: Option<seq<Genre>>, studios: Option<seq<Studio>>, producers: Option<seq<Producer>>)

  datatype Person = Person(malId: Int32, url: string, images: Option<Images>, name: string)
  datatype VoiceActor = VoiceActor(person: Person, language: string)
  datatype Character = Character(malId: Int32, url: string, images: Option<Images>, name: string)
  datatype CharacterData = CharacterData(character: Character, role: string, voiceActors: seq<VoiceActor>)

  datatype PaginationItems = PaginationItems(count: Int32, total: Int32, perPage: Int32)
  datatype Pagination = Pagination(lastVisiblePage: Int32, hasNextPage: bool, currentPage: Int32, items: PaginationItems)

  datatype TopAnimeResponse = TopAnimeResponse(data: seq<Anime>, pagination: Pagination)

  /**
   * `AnimeDetailResponse`. Its `data` is declared non-null, but Gson leaves a missing member
   * null and the repository tests it with `?.`, so it is nullable here.
   */
  datatype AnimeDetailResponse = AnimeDetailResponse(data: Option<Anime>)

  datatype CharacterResponse = CharacterResponse(data: seq<CharacterData>)
}
