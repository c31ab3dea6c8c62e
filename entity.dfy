/**
 * The two Room tables' rows. Nested API structure is flattened into nullable columns, and the
 * nested lists are stored as Gson documents.
 */
module Entity {
  import opened Base
  import opened Model
  import Json

  /** A row of table `anime`, keyed by `malId`. */
  datatype AnimeEntity = AnimeEntity(
    malId: Int32,
    info: AnimeInfo,
    imageUrl: Option<string>, smallImageUrl: Option<string>, largeImageUrl: Option<string>,
    trailerYoutubeId: Option<string>, trailerUrl: Option<string>, trailerEmbedUrl: Option<string>,
    genresJson: Option<Json.Value>, studiosJson: Option<Json.Value>, producersJson: Option<Json.Value>,
    lastUpdated: int,
    isOfflineAvailable: bool)

  /** A row of table `characters`, keyed by `characterMalId` alone. */
  datatype CharacterEntity = CharacterEntity(
    characterMalId: Int32,
    animeMalId: Int32,
    characterName: string,
    characterUrl: string,
    role: string,
    characterImageUrl: Option<string>, characterSmallImageUrl: Option<string>, characterLargeImageUrl: Option<string>,
    voiceActorsJson: Option<Json.Value>,
    lastUpdated: int,
    isOfflineAvailable: bool)

  /** `images?.jpg`: the only image URLs a row keeps, each null when any step of the path is null. */
  function JpgColumns(images: Option<Images>): (u: ImageUrls)
    ensures images.None? || images.value.jpg.None? ==> u == ImageUrls(None, None, None)
    ensures images.Some? && images.value.jpg.Some? ==> u == images.value.jpg.value
  {
    if images.Some? && images.value.jpg.Some? then images.value.jpg.value else ImageUrls(None, None, None)
  }

  predicate AnyUrl(u: ImageUrls)
  {
    u.imageUrl.Some? || u.smallImageUrl.Some? || u.largeImageUrl.Some?
  }

  /** The image structure rebuilt from three columns: present iff some URL is, JPEG only. */
  function ImagesFromColumns(u: ImageUrls): (images: Option<Images>)
    ensures images.Some? <==> AnyUrl(u)
    ensures images.Some? ==> images.value == Images(Some(u), None)
  {
    if AnyUrl(u) then Some(Images(Some(u), None)) else None
  }

  /** Flattening rebuilt images gives back the same columns. */
  lemma ColumnsOfRebuiltImages(u: ImageUrls)
    ensures JpgColumns(ImagesFromColumns(u)) == u
  {
  }
}
