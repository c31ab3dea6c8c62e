/**
 * How Gson writes the app's nested lists into JSON and reads them back: members carry their
 * `@SerializedName` keys, are written in declaration order, and a null property is left out.
 */
module Gson {
  import opened Base
  import opened Model
  import opened Json

  function EncodeImageUrls(u: ImageUrls): Value
  {
    Object(
      OptionalString("image_url", u.imageUrl)
      + OptionalString("small_image_url", u.smallImageUrl)
      + OptionalString("large_image_url", u.largeImageUrl))
  }

  function DecodeImageUrls(v: Value): Option<ImageUrls>
  {
    if !v.Object? then None
    else
      var image := ReadOptionalString(Get(v.members, "image_url"));
      var small := ReadOptionalString(Get(v.members, "small_image_url"));
      var large := ReadOptionalString(Get(v.members, "large_image_url"));
      if image.Some? && small.Some? && large.Some? then Some(ImageUrls(image.value, small.value, large.value))
      else None
  }

  lemma ImageUrlsRoundTrip(u: ImageUrls)
    ensures DecodeImageUrls(EncodeImageUrls(u)) == Some(u)
  {
    var a := OptionalString("image_url", u.imageUrl);
    var b := OptionalString("small_image_url", u.smallImageUrl);
    var c := OptionalString("large_image_url", u.largeImageUrl);
    GetConcat3(a, b, c, "image_url");
    GetConcat3(a, b, c, "small_image_url");
    GetConcat3(a, b, c, "large_image_url");
  }

  function EncodeOptionalImageUrls(u: Option<ImageUrls>): Option<Value>
  {
    if u.None? then None else Some(EncodeImageUrls(u.value))
  }

  /** A nullable nested object: absent or null reads as null; `None` means malformed. */
  function DecodeOptionalImageUrls(v: Option<Value>): Option<Option<ImageUrls>>
  {
    if v.None? || v.value.Null? then Some(None)
    else
      var u := DecodeImageUrls(v.value);
      if u.Some? then Some(Some(u.value)) else None
  }

  function EncodeImages(i: Images): Value
  {
    Object(OptionalMember("jpg", EncodeOptionalImageUrls(i.jpg)) + OptionalMember("webp", EncodeOptionalImageUrls(i.webp)))
  }

  function DecodeImages(v: Value): Option<Images>
  {
    if !v.Object? then None
    else
      var jpg := DecodeOptionalImageUrls(Get(v.members, "jpg"));
      var webp := DecodeOptionalImageUrls(Get(v.members, "webp"));
      if jpg.Some? && webp.Some? then Some(Images(jpg.value, webp.value)) else None
  }

  lemma ImagesRoundTrip(i: Images)
    ensures DecodeImages(EncodeImages(i)) == Some(i)
  {
    var a := OptionalMember("jpg", EncodeOptionalImageUrls(i.jpg));
    var b := OptionalMember("webp", EncodeOptionalImageUrls(i.webp));
    GetConcat(a, b, "jpg");
    GetConcat(a, b, "webp");
    if i.jpg.Some? {
      ImageUrlsRoundTrip(i.jpg.value);
    }
    if i.webp.Some? {
      ImageUrlsRoundTrip(i.webp.value);
    }
  }

  function EncodeOptionalImages(i: Option<Images>): Option<Value>
  {
    if i.None? then None else Some(EncodeImages(i.value))
  }

  function DecodeOptionalImages(v: Option<Value>): Option<Option<Images>>
  {
    if v.None? || v.value.Null? then Some(None)
    else
      var i := DecodeImages(v.value);
      if i.Some? then Some(Some(i.value)) else None
  }

  function EncodePerson(p: Person): Value
  {
    Object(
      [("mal_id", Number(p.malId)), ("url", Str(p.url))]
      + OptionalMember("images", EncodeOptionalImages(p.images))
      + [("name", Str(p.name))])
  }

  function DecodePerson(v: Value): Option<Person>
  {
    if !v.Object? then None
    else
      var malId := ReadInt32(Get(v.members, "mal_id"));
      var url := ReadString(Get(v.members, "url"));
      var images := DecodeOptionalImages(Get(v.members, "images"));
      var name := ReadString(Get(v.members, "name"));
      if malId.Some? && url.Some? && images.Some? && name.Some? then Some(Person(malId.value, url.value, images.value, name.value))
      else None
  }

  lemma PersonRoundTrip(p: Person)
    ensures DecodePerson(EncodePerson(p)) == Some(p)
  {
    var a := [("mal_id", Number(p.malId)), ("url", Str(p.url))];
    var b := OptionalMember("images", EncodeOptionalImages(p.images));
    var c := [("name", Str(p.name))];
    GetConcat3(a, b, c, "mal_id");
    GetConcat3(a, b, c, "url");
    GetConcat3(a, b, c, "images");
    GetConcat3(a, b, c, "name");
    assert Get(a, "url") == Get(a[1..], "url") == Some(Str(p.url));
    assert Get(a, "images").None? && Get(a, "name").None? by {
      assert Get(a[1..], "images") == Get(a[2..], "images") == None;
      assert Get(a[1..], "name") == Get(a[2..], "name") == None;
    }
    assert Get(c, "name") == Some(Str(p.name));
    assert Get(c, "images") == Get(c[1..], "images") == None;
    assert Get(b, "name").None? && Get(b, "mal_id").None? && Get(b, "url").None?;
    var m := EncodePerson(p).members;
    assert m == a + b + c;
    assert Get(m, "mal_id") == Some(Number(p.malId));
    assert Get(m, "url") == Some(Str(p.url));
    assert Get(m, "name") == Some(Str(p.name));
    assert Get(m, "images") == EncodeOptionalImages(p.images);
    if p.images.Some? {
      ImagesRoundTrip(p.images.value);
    }
    assert DecodeOptionalImages(Get(m, "images")) == Some(p.images);
  }

  function EncodeVoiceActor(a: VoiceActor): Value
  {
    Object([("person", EncodePerson(a.person)), ("language", Str(a.language))])
  }

  function DecodeVoiceActor(v: Value): Option<VoiceActor>
  {
    if !v.Object? then None
    else
      var person := Get(v.members, "person");
      var language := ReadString(Get(v.members, "language"));
      if person.Some? && language.Some? then
        var p := DecodePerson(person.value);
        if p.Some? then Some(VoiceActor(p.value, language.value)) else None
      else None
  }

  lemma VoiceActorRoundTrip(a: VoiceActor)
    ensures DecodeVoiceActor(EncodeVoiceActor(a)) == Some(a)
  {
    var m := EncodeVoiceActor(a).members;
    assert Get(m, "language") == Get(m[1..], "language") == Some(Str(a.language));
    PersonRoundTrip(a.person);
  }

  function EncodeResource(r: Resource): Value
  {
    Object([("mal_id", Number(r.malId)), ("type", Str(r.kind)), ("name", Str(r.name)), ("url", Str(r.url))])
  }

  function DecodeResource(v: Value): Option<Resource>
  {
    if !v.Object? then None
    else
      var malId := ReadInt32(Get(v.members, "mal_id"));
      var kind := ReadString(Get(v.members, "type"));
      var name := ReadString(Get(v.members, "name"));
      var url := ReadString(Get(v.members, "url"));
      if malId.Some? && kind.Some? && name.Some? && url.Some? then Some(Resource(malId.value, kind.value, name.value, url.value))
      else None
  }

  lemma ResourceRoundTrip(r: Resource)
    ensures DecodeResource(EncodeResource(r)) == Some(r)
  {
    var m := EncodeResource(r).members;
    assert Get(m, "type") == Get(m[1..], "type") == Some(Str(r.kind));
    assert Get(m, "name") == Get(m[1..], "name") == Get(m[2..], "name") == Some(Str(r.name));
    assert Get(m, "url") == Get(m[1..], "url") == Get(m[2..], "url") == Get(m[3..], "url") == Some(Str(r.url));
  }

  /** `gson.toJson(list)` for a list of genres, studios or producers: a JSON array. */
  function EncodeResources(rs: seq<Resource>): (v: Value)
    ensures v.Array? && |v.items| == |rs|
    ensures forall i :: 0 <= i < |rs| ==> v.items[i] == EncodeResource(rs[i])
  {
    Array(seq(|rs|, i requires 0 <= i < |rs| => EncodeResource(rs[i])))
  }

  function DecodeResourceItems(items: seq<Value>): Option<seq<Resource>>
  {
    if items == [] then Some([])
    else
      var first := DecodeResource(items[0]);
      var rest := DecodeResourceItems(items[1..]);
      if first.Some? && rest.Some? then Some([first.value] + rest.value) else None
  }

  /** `gson.fromJson(json, Array<T>::class.java).toList()`: anything but an array of well-formed objects is malformed. */
  function DecodeResources(v: Value): Option<seq<Resource>>
  {
    if v.Array? then DecodeResourceItems(v.items) else None
  }

  lemma {:induction false} ResourceItemsRoundTrip(rs: seq<Resource>)
    ensures DecodeResourceItems(EncodeResources(rs).items) == Some(rs)
  {
    if rs != [] {
      ResourceRoundTrip(rs[0]);
      assert EncodeResources(rs).items[1..] == EncodeResources(rs[1..]).items;
      ResourceItemsRoundTrip(rs[1..]);
      assert rs == [rs[0]] + rs[1..];
    }
  }

  /** Reading back a written list gives the same list. */
  lemma ResourcesRoundTrip(rs: seq<Resource>)
    ensures DecodeResources(EncodeResources(rs)) == Some(rs)
  {
    ResourceItemsRoundTrip(rs);
  }

  function EncodeVoiceActors(vs: seq<VoiceActor>): (v: Value)
    ensures v.Array? && |v.items| == |vs|
    ensures forall i :: 0 <= i < |vs| ==> v.items[i] == EncodeVoiceActor(vs[i])
  {
    Array(seq(|vs|, i requires 0 <= i < |vs| => EncodeVoiceActor(vs[i])))
  }

  function DecodeVoiceActorItems(items: seq<Value>): Option<seq<VoiceActor>>
  {
    if items == [] then Some([])
    else
      var first := DecodeVoiceActor(items[0]);
      var rest := DecodeVoiceActorItems(items[1..]);
      if first.Some? && rest.Some? then Some([first.value] + rest.value) else None
  }

  function DecodeVoiceActors(v: Value): Option<seq<VoiceActor>>
  {
    if v.Array? then DecodeVoiceActorItems(v.items) else None
  }

  lemma {:induction false} VoiceActorItemsRoundTrip(vs: seq<VoiceActor>)
    ensures DecodeVoiceActorItems(EncodeVoiceActors(vs).items) == Some(vs)
  {
    if vs != [] {
      VoiceActorRoundTrip(vs[0]);
      assert EncodeVoiceActors(vs).items[1..] == EncodeVoiceActors(vs[1..]).items;
      VoiceActorItemsRoundTrip(vs[1..]);
      assert vs == [vs[0]] + vs[1..];
    }
  }

  lemma VoiceActorsRoundTrip(vs: seq<VoiceActor>)
    ensures DecodeVoiceActors(EncodeVoiceActors(vs)) == Some(vs)
  {
    VoiceActorItemsRoundTrip(vs);
  }
}
