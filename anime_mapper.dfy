/** Conversion between an API `Anime` and its cached row. */
module AnimeMapper {
  import opened Base
  import opened Model
  import opened Entity
  import Json
  import Gson

  /** A nullable list column is null, or a document that reads back as a list. */
  predicate ReadableList(v: Option<Json.Value>)
  {
    v.None? || Gson.DecodeResources(v.value).Some?
  }

  /** The row's documents can be read back; Gson would throw on any other row. */
  predicate Readable(e: AnimeEntity)
  {
    ReadableList(e.genresJson) && ReadableList(e.studiosJson) && ReadableList(e.producersJson)
  }

  /** A nullable list column is null, or a document that Gson itself wrote. */
  ghost predicate WrittenList(v: Option<Json.Value>)
  {
    v.None? || exists rs :: v.value == Gson.EncodeResources(rs)
  }

  function EncodeList(rs: Option<seq<Resource>>): (v: Option<Json.Value>)
    ensures v.None? <==> rs.None?
    ensures rs.Some? ==> Gson.DecodeResources(v.value) == rs
  {
    if rs.None? then None
    else
      Gson.ResourcesRoundTrip(rs.value);
      Some(Gson.EncodeResources(rs.value))
  }

  function DecodeList(v: Option<Json.Value>): (rs: Option<seq<Resource>>)
    requires ReadableList(v)
    ensures rs.None? <==> v.None?
  {
    if v.None? then None else Gson.DecodeResources(v.value)
  }

  function TrailerColumns(t: Option<Trailer>): (r: (Option<string>, Option<string>, Option<string>))
    ensures t.None? ==> r == (None, None, None)
    ensures t.Some? ==> r == (t.value.youtubeId, t.value.url, t.value.embedUrl)
  {
    if t.None? then (None, None, None) else (t.value.youtubeId, t.value.url, t.value.embedUrl)
  }

  /**
   * `toEntity`: copies the id and the scalar properties, keeps the JPEG URLs and the trailer's
   * three links, writes the lists as documents, and stamps the row with the clock reading `now`.
   */
  function ToEntity(anime: Anime, now: int): (e: AnimeEntity)
    ensures e.malId == anime.malId && e.info == anime.info
    ensures (e.imageUrl, e.smallImageUrl, e.largeImageUrl) == (JpgColumns(anime.images).imageUrl, JpgColumns(anime.images).smallImageUrl, JpgColumns(anime.images).largeImageUrl)
    ensures (e.trailerYoutubeId, e.trailerUrl, e.trailerEmbedUrl) == TrailerColumns(anime.trailer)
    ensures e.genresJson.None? <==> anime.genres.None?
    ensures e.studiosJson.None? <==> anime.studios.None?
    ensures e.producersJson.None? <==> anime.producers.None?
    ensures e.lastUpdated == now && e.isOfflineAvailable
    ensures Readable(e) && WrittenList(e.genresJson) && WrittenList(e.studiosJson) && WrittenList(e.producersJson)
  {
    var jpg := JpgColumns(anime.images);
    var trailer := TrailerColumns(anime.trailer);
    AnimeEntity(
      anime.malId, anime.info,
      jpg.imageUrl, jpg.smallImageUrl, jpg.largeImageUrl,
      trailer.0, trailer.1, trailer.2,
      EncodeList(anime.genres), EncodeList(anime.studios), EncodeList(anime.producers),
      now, true)
  }

  /**
   * `toModel`: rebuilds `images` (JPEG only) when some URL column is set and `trailer` (without
   * images) when some trailer column is set, and reads the lists back.
   */
  function ToModel(e: AnimeEntity): (anime: Anime)
    requires Readable(e)
    ensures anime.malId == e.malId && anime.info == e.info
    ensures anime.images.Some? <==> (e.imageUrl.Some? || e.smallImageUrl.Some? || e.largeImageUrl.Some?)
    ensures anime.images.Some? ==> anime.images.value == Images(Some(ImageUrls(e.imageUrl, e.smallImageUrl, e.largeImageUrl)), None)
    ensures anime.trailer.Some? <==> (e.trailerYoutubeId.Some? || e.trailerUrl.Some? || e.trailerEmbedUrl.Some?)
    ensures anime.trailer.Some? ==> anime.trailer.value == Trailer(e.trailerYoutubeId, e.trailerUrl, e.trailerEmbedUrl, None)
    ensures anime.genres.None? <==> e.genresJson.None?
    ensures anime.studios.None? <==> e.studiosJson.None?
    ensures anime.producers.None? <==> e.producersJson.None?
  {
    Anime(
      e.malId, e.info,
      ImagesFromColumns(ImageUrls(e.imageUrl, e.smallImageUrl, e.largeImageUrl)),
      if e.trailerYoutubeId.Some? || e.trailerUrl.Some? || e.trailerEmbedUrl.Some? then
        Some(Trailer(e.trailerYoutubeId, e.trailerUrl, e.trailerEmbedUrl, None))
      else None,
      DecodeList(e.genresJson), DecodeList(e.studiosJson), DecodeList(e.producersJson))
  }

  /**
   * What survives a trip through the cache: the WebP images, the trailer's images, and an
   * image or trailer structure whose every link is null are lost.
   */
  function Flatten(anime: Anime): Anime
  {
    var jpg := JpgColumns(anime.images);
    var t := TrailerColumns(anime.trailer);
    anime.(
      images := if AnyUrl(jpg) then Some(Images(Some(jpg), None)) else None,
      trailer := if t.0.Some? || t.1.Some? || t.2.Some? then Some(Trailer(t.0, t.1, t.2, None)) else None)
  }

  /** An anime the cache stores without loss. */
  predicate Lossless(anime: Anime)
  {
    && (anime.images.None? || (anime.images.value.webp.None? && anime.images.value.jpg.Some? && AnyUrl(anime.images.value.jpg.value)))
    && (anime.trailer.None? || (anime.trailer.value.images.None? &&
          (anime.trailer.value.youtubeId.Some? || anime.trailer.value.url.Some? || anime.trailer.value.embedUrl.Some?)))
  }

  /** Reading back a stored anime gives the anime with what the columns cannot hold dropped. */
  lemma ModelOfEntity(anime: Anime, now: int)
    ensures ToModel(ToEntity(anime, now)) == Flatten(anime)
  {
    var e := ToEntity(anime, now);
    if anime.genres.Some? { Gson.ResourcesRoundTrip(anime.genres.value); }
    if anime.studios.Some? { Gson.ResourcesRoundTrip(anime.studios.value); }
    if anime.producers.Some? { Gson.ResourcesRoundTrip(anime.producers.value); }
  }

  /** Exactly the lossless anime come back unchanged. */
  lemma FlattenExact(anime: Anime)
    ensures Flatten(anime) == anime <==> Lossless(anime)
  {
  }

  lemma StoredAnimeIsLossless(anime: Anime, now: int)
    ensures Lossless(ToModel(ToEntity(anime, now)))
  {
    ModelOfEntity(anime, now);
  }

  /** Rewriting a row read from the cache reproduces the row, apart from its timestamp and flag. */
  lemma EntityOfModel(e: AnimeEntity, now: int)
    requires Readable(e) && WrittenList(e.genresJson) && WrittenList(e.studiosJson) && WrittenList(e.producersJson)
    ensures ToEntity(ToModel(e), now) == e.(lastUpdated := now, isOfflineAvailable := true)
  {
    RewrittenList(e.genresJson);
    RewrittenList(e.studiosJson);
    RewrittenList(e.producersJson);
  }

  lemma RewrittenList(v: Option<Json.Value>)
    requires ReadableList(v) && WrittenList(v)
    ensures EncodeList(DecodeList(v)) == v
  {
    if v.Some? {
      var rs :| v.value == Gson.EncodeResources(rs);
      Gson.ResourcesRoundTrip(rs);
    }
  }

  /** `toEntityList`: one row per anime, in the same order, all stamped `now`. */
  function ToEntityList(animeList: seq<Anime>, now: int): (es: seq<AnimeEntity>)
    ensures |es| == |animeList|
    ensures forall i :: 0 <= i < |es| ==> es[i] == ToEntity(animeList[i], now)
    ensures forall e :: e in es ==> Readable(e) && e.lastUpdated == now
  {
    seq(|animeList|, i requires 0 <= i < |animeList| => ToEntity(animeList[i], now))
  }

  predicate AllReadable(es: seq<AnimeEntity>)
  {
    forall e :: e in es ==> Readable(e)
  }

  /** `toModelList`: one anime per row, in the same order. */
  function ToModelList(es: seq<AnimeEntity>): (animeList: seq<Anime>)
    requires AllReadable(es)
    ensures |animeList| == |es|
    ensures forall i :: 0 <= i < |es| ==> animeList[i] == ToModel(es[i])
    ensures forall i :: 0 <= i < |es| ==> animeList[i].malId == es[i].malId
  {
    seq(|es|, i requires 0 <= i < |es| => ToModel(es[i]))
  }

  /** The mapped list holds exactly the anime of the listed rows. */
  lemma ToModelListMembers(es: seq<AnimeEntity>)
    requires AllReadable(es)
    ensures forall a :: a in ToModelList(es) <==> exists e :: e in es && a == ToModel(e)
  {
    var list := ToModelList(es);
    forall a | a in list ensures exists e :: e in es && a == ToModel(e) {
      var i :| 0 <= i < |list| && list[i] == a;
      assert es[i] in es;
    }
    forall e | e in es ensures ToModel(e) in list {
      var i :| 0 <= i < |es| && es[i] == e;
      assert list[i] == ToModel(e);
    }
  }
}
