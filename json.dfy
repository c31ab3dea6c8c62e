/**
 * JSON documents as Gson reads and writes them, at the level of the document tree: the
 * character-level printing and parsing of the text is not part of this model.
 */
module Json {
  import opened Base

  datatype Value =
    | Null
    | Bool(b: bool)
    | Number(n: int)
    | Str(s: string)
    | Array(items: seq<Value>)
    | Object(members: seq<(string, Value)>)

  /** The value of the first member named `key`. */
  function Get(members: seq<(string, Value)>, key: string): Option<Value>
  {
    if members == [] then None
    else if members[0].0 == key then Some(members[0].1)
    else Get(members[1..], key)
  }

  /** Looking a key up in two runs of members finds it in the first run if it is there. */
  lemma {:induction false} GetConcat(xs: seq<(string, Value)>, ys: seq<(string, Value)>, key: string)
    ensures Get(xs + ys, key) == if Get(xs, key).Some? then Get(xs, key) else Get(ys, key)
  {
    if xs != [] {
      assert (xs + ys)[1..] == xs[1..] + ys;
      GetConcat(xs[1..], ys, key);
    } else {
      assert xs + ys == ys;
    }
  }

  /** Looking a key up in three runs of members finds it in the first run that has it. */
  lemma GetConcat3(xs: seq<(string, Value)>, ys: seq<(string, Value)>, zs: seq<(string, Value)>, key: string)
    ensures Get(xs + ys + zs, key) ==
      if Get(xs, key).Some? then Get(xs, key) else if Get(ys, key).Some? then Get(ys, key) else Get(zs, key)
  {
    assert xs + ys + zs == xs + (ys + zs);
    GetConcat(xs, ys + zs, key);
    GetConcat(ys, zs, key);
  }

  /** The member `key: v`, or no member at all for a null, as Gson writes an object by default. */
  function OptionalMember(key: string, v: Option<Value>): (r: seq<(string, Value)>)
    ensures Get(r, key) == v
    ensures forall k :: k != key ==> Get(r, k).None?
  {
    if v.None? then [] else [(key, v.value)]
  }

  function OptionalString(key: string, s: Option<string>): seq<(string, Value)>
  {
    OptionalMember(key, if s.None? then None else Some(Str(s.value)))
  }

  /** Reads a nullable string: an absent member and a JSON null are both null; `None` means malformed. */
  function ReadOptionalString(v: Option<Value>): (r: Option<Option<string>>)
    ensures r.Some? <==> v.None? || v.value.Null? || v.value.Str?
  {
    match v
    case None => Some(None)
    case Some(Null) => Some(None)
    case Some(Str(s)) => Some(Some(s))
    case _ => None
  }

  function ReadString(v: Option<Value>): (r: Option<string>)
    ensures r.Some? <==> v.Some? && v.value.Str?
  {
    if v.Some? && v.value.Str? then Some(v.value.s) else None
  }

  /** Reads a Kotlin `Int`: a number outside 32 bits is malformed, as Gson rejects it. */
  function ReadInt32(v: Option<Value>): (r: Option<Int32>)
    ensures r.Some? <==> v.Some? && v.value.Number? && -0x8000_0000 <= v.value.n < 0x8000_0000
  {
    if v.Some? && v.value.Number? && -0x8000_0000 <= v.value.n < 0x8000_0000 then Some(v.value.n as Int32) else None
  }

  lemma ReadOptionalStringOf(key: string, s: Option<string>)
    ensures ReadOptionalString(Get(OptionalString(key, s), key)) == Some(s)
  {
  }
}
