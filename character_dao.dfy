/**
 * Table `characters` and its DAO. The primary key is the character's id alone, so a character
 * belongs to at most one anime at a time.
 */
module CharacterTable {
  import opened Base
  import opened Text
  import opened Sorting
  import opened Entity
  import Tables

  type Table = map<int, CharacterEntity>

  function Key(e: CharacterEntity): int { e.characterMalId }

  /** `ORDER BY role ASC, characterName ASC` under the BINARY collation. */
  predicate CharacterLe(a: CharacterEntity, b: CharacterEntity)
  {
    if a.role == b.role then StrLe(a.characterName, b.characterName) else StrLe(a.role, b.role)
  }

  lemma CharacterOrderIsTotal()
    ensures TotalPreorder(CharacterLe)
  {
    forall a: CharacterEntity, b: CharacterEntity ensures CharacterLe(a, b) || CharacterLe(b, a) {
      StrLeTotal(a.role, b.role);
      StrLeTotal(a.characterName, b.characterName);
    }
    forall a: CharacterEntity, b: CharacterEntity, c: CharacterEntity | CharacterLe(a, b) && CharacterLe(b, c)
      ensures CharacterLe(a, c)
    {
      if a.role == b.role && b.role == c.role {
        StrLeTransitive(a.characterName, b.characterName, c.characterName);
      } else if a.role != b.role && b.role != c.role {
        StrLeTransitive(a.role, b.role, c.role);
        if a.role == c.role {
          StrLeAntisymmetric(a.role, b.role);
        }
      }
    }
  }

  /** `getCharactersByAnimeId`: the anime's characters, by role and then by name. */
  function ByAnime(t: Table, animeMalId: int): (r: seq<CharacterEntity>)
    requires Tables.Keyed(t, Key)
    ensures forall e :: e in r <==> e in t.Values && e.animeMalId == animeMalId
    ensures SortedBy(r, CharacterLe)
    ensures forall i, j :: 0 <= i < j < |r| ==> r[i].characterMalId != r[j].characterMalId
  {
    CharacterOrderIsTotal();
    var p := (e: CharacterEntity) => e.animeMalId == animeMalId;
    FilterThenSort(Tables.Scan(t, Key), p, CharacterLe, Key);
    SortBy(Filter(Tables.Scan(t, Key), p), CharacterLe)
  }

  /** `getStaleCharacters`: the rows updated strictly before `cutoff`, in primary-key order. */
  function Stale(t: Table, cutoff: int): (r: seq<CharacterEntity>)
    requires Tables.Keyed(t, Key)
    ensures forall e :: e in r <==> e in t.Values && e.lastUpdated < cutoff
    ensures forall i, j :: 0 <= i < j < |r| ==> r[i].characterMalId < r[j].characterMalId
  {
    var scan := Tables.Scan(t, Key);
    FilterKeepsOrder(scan, (e: CharacterEntity) => e.lastUpdated < cutoff, (a: CharacterEntity, b: CharacterEntity) => a.characterMalId < b.characterMalId);
    Filter(scan, (e: CharacterEntity) => e.lastUpdated < cutoff)
  }

  /** `searchCharacters`: a substring match on the name only, by role and then by name. */
  function Search(t: Table, query: string): (r: seq<CharacterEntity>)
    requires Tables.Keyed(t, Key)
    ensures forall e :: e in r <==> e in t.Values && ContainsIgnoringCase(e.characterName, query)
    ensures SortedBy(r, CharacterLe)
    ensures forall i, j :: 0 <= i < j < |r| ==> r[i].characterMalId != r[j].characterMalId
  {
    CharacterOrderIsTotal();
    var p := (e: CharacterEntity) => ContainsIgnoringCase(e.characterName, query);
    FilterThenSort(Tables.Scan(t, Key), p, CharacterLe, Key);
    SortBy(Filter(Tables.Scan(t, Key), p), CharacterLe)
  }

  /** `DELETE FROM characters WHERE animeMalId = :animeMalId` */
  function WithoutAnime(t: Table, animeMalId: int): (r: Table)
    requires Tables.Keyed(t, Key)
    ensures Tables.Keyed(r, Key)
    ensures forall k :: k in r <==> k in t && t[k].animeMalId != animeMalId
    ensures forall k :: k in r ==> r[k] == t[k]
  {
    map k | k in t && t[k].animeMalId != animeMalId :: t[k]
  }

  /** After deleting an anime's characters, listing that anime finds none. */
  lemma WithoutAnimeEmptiesIt(t: Table, animeMalId: int)
    requires Tables.Keyed(t, Key)
    ensures ByAnime(WithoutAnime(t, animeMalId), animeMalId) == []
  {
    var w := WithoutAnime(t, animeMalId);
    var r := ByAnime(w, animeMalId);
    if r != [] {
      assert false;
    }
  }

  /**
   * Inserting a character that is stored under another anime moves it: the old anime's list
   * no longer holds that character, and the new anime's list holds the new row.
   */
  lemma ReinsertMovesCharacter(t: Table, e: CharacterEntity)
    requires Tables.Keyed(t, Key)
    requires e.characterMalId in t
    ensures forall x :: x in ByAnime(Tables.Upsert(t, e, Key), t[e.characterMalId].animeMalId) ==>
      x.characterMalId != e.characterMalId || x == e
    ensures e in ByAnime(Tables.Upsert(t, e, Key), e.animeMalId)
  {
    var u := Tables.Upsert(t, e, Key);
    forall x | x in ByAnime(u, t[e.characterMalId].animeMalId) && x.characterMalId == e.characterMalId
      ensures x == e
    {
      var k :| k in u && u[k] == x;
    }
    assert u[e.characterMalId] == e;
  }

  /** The Room DAO over table `characters`. */
  class CharacterDao {
    var rows: Table

    ghost predicate Valid()
      reads this
    {
      Tables.Keyed(rows, Key)
    }

    constructor()
      ensures Valid() && rows == map[]
    {
      rows := map[];
    }

    /** `getCharactersByAnimeId` */
    function GetCharactersByAnimeId(animeMalId: int): (r: seq<CharacterEntity>)
      reads this
      requires Valid()
      ensures forall e :: e in r <==> e in rows.Values && e.animeMalId == animeMalId
      ensures SortedBy(r, CharacterLe)
      ensures forall i, j :: 0 <= i < j < |r| ==> r[i].characterMalId != r[j].characterMalId
    {
      ByAnime(rows, animeMalId)
    }

    /** `getCharacterById` and `getCharacterByIdFlow` */
    function GetCharacterById(characterMalId: int): (r: Option<CharacterEntity>)
      reads this
      requires Valid()
      ensures r.Some? <==> characterMalId in rows
      ensures r.Some? ==> r.value == rows[characterMalId] && r.value.characterMalId == characterMalId
    {
      if characterMalId in rows then Some(rows[characterMalId]) else None
    }

    /** `getStaleCharacters` */
    function GetStaleCharacters(cutoffTime: int): (r: seq<CharacterEntity>)
      reads this
      requires Valid()
      ensures forall e :: e in r <==> e in rows.Values && e.lastUpdated < cutoffTime
      ensures forall i, j :: 0 <= i < j < |r| ==> r[i].characterMalId < r[j].characterMalId
    {
      Stale(rows, cutoffTime)
    }

    /** `searchCharacters` */
    function SearchCharacters(query: string): (r: seq<CharacterEntity>)
      reads this
      requires Valid()
      ensures forall e :: e in r <==> e in rows.Values && ContainsIgnoringCase(e.characterName, query)
      ensures SortedBy(r, CharacterLe)
      ensures forall i, j :: 0 <= i < j < |r| ==> r[i].characterMalId != r[j].characterMalId
    {
      Search(rows, query)
    }

    /** `insertCharacter`: replaces the row with the same character id, whatever its anime. */
    method InsertCharacter(character: CharacterEntity)
      requires Valid()
      modifies this
      ensures Valid()
      ensures rows == old(rows)[character.characterMalId := character]
    {
      rows := Tables.Upsert(rows, character, Key);
    }

    /** `insertCharacterList`: the rows are inserted one after another; the last of an id wins. */
    method InsertCharacterList(characterList: seq<CharacterEntity>)
      requires Valid()
      modifies this
      ensures Valid()
      ensures rows == Tables.UpsertAll(old(rows), characterList, Key)
    {
      for i := 0 to |characterList|
        invariant Valid()
        invariant rows == Tables.UpsertAll(old(rows), characterList[..i], Key)
      {
        assert characterList[..i + 1][..i] == characterList[..i];
        rows := Tables.Upsert(rows, characterList[i], Key);
      }
      assert characterList[..|characterList|] == characterList;
    }

    /** `updateCharacter`: replaces the row with the same id; does nothing when there is none. */
    method UpdateCharacter(character: CharacterEntity)
      requires Valid()
      modifies this
      ensures Valid()
      ensures character.characterMalId in old(rows) ==> rows == old(rows)[character.characterMalId := character]
      ensures character.characterMalId !in old(rows) ==> rows == old(rows)
    {
      if character.characterMalId in rows {
        rows := rows[character.characterMalId := character];
      }
    }

    /** `deleteCharacter`: deletes by primary key. */
    method DeleteCharacter(character: CharacterEntity)
      requires Valid()
      modifies this
      ensures Valid()
      ensures rows == old(rows) - {character.characterMalId}
    {
      rows := rows - {character.characterMalId};
    }

    /** `deleteCharactersByAnimeId`: removes that anime's rows and no others. */
    method DeleteCharactersByAnimeId(animeMalId: int)
      requires Valid()
      modifies this
      ensures Valid()
      ensures rows == WithoutAnime(old(rows), animeMalId)
      ensures GetCharactersByAnimeId(animeMalId) == []
    {
      WithoutAnimeEmptiesIt(rows, animeMalId);
      rows := WithoutAnime(rows, animeMalId);
    }

    /** `deleteAllCharacters` */
    method DeleteAllCharacters()
      requires Valid()
      modifies this
      ensures Valid() && rows == map[]
    {
      rows := map[];
    }

    /** `updateLastUpdated`: restamps one row; does nothing for an absent id. */
    method UpdateLastUpdated(characterMalId: int, timestamp: int)
      requires Valid()
      modifies this
      ensures Valid()
      ensures characterMalId in old(rows) ==> rows == old(rows)[characterMalId := old(rows)[characterMalId].(lastUpdated := timestamp)]
      ensures characterMalId !in old(rows) ==> rows == old(rows)
    {
      if characterMalId in rows {
        rows := rows[characterMalId := rows[characterMalId].(lastUpdated := timestamp)];
      }
    }
  }
}
