/** Conversion between an API `CharacterData` and its cached row. */
module CharacterMapper {
  import opened Base
  import opened Model
  import opened Entity
  import Json
  import Gson

  /** The voice-actor column is null or a document that reads back as a list. */
  predicate Readable(e: CharacterEntity)
  {
    e.voiceActorsJson.None? || Gson.DecodeVoiceActors(e.voiceActorsJson.value).Some?
  }

  /**
   * `toEntity`: keys the row by the character's id, tags it with `animeMalId`, keeps the JPEG
   * URLs, always writes the voice actors as a document, and stamps the row with `now`.
   */
  function ToEntity(d: CharacterData, animeMalId: Int32, now: int): (e: CharacterEntity)
    ensures e.characterMalId == d.character.malId && e.animeMalId == animeMalId
    ensures e.characterName == d.character.name && e.characterUrl == d.character.url && e.role == d.role
    ensures ImageUrls(e.characterImageUrl, e.characterSmallImageUrl, e.characterLargeImageUrl) == JpgColumns(d.character.images)
    ensures e.voiceActorsJson.Some? && Gson.DecodeVoiceActors(e.voiceActorsJson.value) == Some(d.voiceActors)
    ensures e.lastUpdated == now && e.isOfflineAvailable
    ensures Readable(e)
  {
    var jpg := JpgColumns(d.character.images);
    Gson.VoiceActorsRoundTrip(d.voiceActors);
    CharacterEntity(
      d.character.malId, animeMalId, d.character.name, d.character.url, d.role,
      jpg.imageUrl, jpg.smallImageUrl, jpg.largeImageUrl,
      Some(Gson.EncodeVoiceActors(d.voiceActors)),
      now, true)
  }

  /**
   * `toModel`: rebuilds the character's images (JPEG only) when some URL column is set, and
   * reads the voice actors back, an empty list when the column is null.
   */
  function ToModel(e: CharacterEntity): (d: CharacterData)
    requires Readable(e)
    ensures d.character.malId == e.characterMalId && d.character.name == e.characterName
    ensures d.character.url == e.characterUrl && d.role == e.role
    ensures d.character.images.Some? <==> (e.characterImageUrl.Some? || e.characterSmallImageUrl.Some? || e.characterLargeImageUrl.Some?)
    ensures d.character.images.Some? ==>
      d.character.images.value == Images(Some(ImageUrls(e.characterImageUrl, e.characterSmallImageUrl, e.characterLargeImageUrl)), None)
    ensures e.voiceActorsJson.None? ==> d.voiceActors == []
  {
    CharacterData(
      Character(e.characterMalId, e.characterUrl,
        ImagesFromColumns(ImageUrls(e.characterImageUrl, e.characterSmallImageUrl, e.characterLargeImageUrl)),
        e.characterName),
      e.role,
      if e.voiceActorsJson.None? then [] else Gson.DecodeVoiceActors(e.voiceActorsJson.value).value)
  }

  /** What survives the cache: the character's images reduced to their JPEG URLs, if any. */
  function Flatten(d: CharacterData): CharacterData
  {
    d.(character := d.character.(images := ImagesFromColumns(JpgColumns(d.character.images))))
  }

  /**
   * Reading back a stored character gives its id, name, url, role and voice actors unchanged,
   * and its images reduced to JPEG.
   */
  lemma ModelOfEntity(d: CharacterData, animeMalId: Int32, now: int)
    ensures ToModel(ToEntity(d, animeMalId, now)) == Flatten(d)
  {
    Gson.VoiceActorsRoundTrip(d.voiceActors);
  }

  /** `toEntityList`: one row per character, in order, each tagged with the same anime. */
  function ToEntityList(ds: seq<CharacterData>, animeMalId: Int32, now: int): (es: seq<CharacterEntity>)
    ensures |es| == |ds|
    ensures forall i :: 0 <= i < |es| ==> es[i] == ToEntity(ds[i], animeMalId, now)
    ensures forall e :: e in es ==> e.animeMalId == animeMalId && Readable(e) && e.lastUpdated == now
  {
    seq(|ds|, i requires 0 <= i < |ds| => ToEntity(ds[i], animeMalId, now))
  }

  predicate AllReadable(es: seq<CharacterEntity>)
  {
    forall e :: e in es ==> Readable(e)
  }

  /** `toModelList`: one character per row, in order. */
  function ToModelList(es: seq<CharacterEntity>): (ds: seq<CharacterData>)
    requires AllReadable(es)
    ensures |ds| == |es|
    ensures forall i :: 0 <= i < |es| ==> ds[i] == ToModel(es[i])
    ensures forall i :: 0 <= i < |es| ==> ds[i].character.malId == es[i].characterMalId
  {
    seq(|es|, i requires 0 <= i < |es| => ToModel(es[i]))
  }
}
