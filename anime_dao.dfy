/**
 * Table `anime` and its DAO: upsert by `malId`, the catalogue order `rank ASC, popularity ASC`,
 * `LIMIT`/`OFFSET` paging, the staleness query and the title search.
 */
module AnimeTable {
  import opened Base
  import opened Text
  import opened Sorting
  import opened Model
  import opened Entity
  import Tables

  type Table = map<int, AnimeEntity>

  function Key(e: AnimeEntity): int { e.malId }

  /** SQLite's ascending order on a nullable integer column: NULL comes first. */
  predicate NullsFirstLe(a: Option<Int32>, b: Option<Int32>)
  {
    a.None? || (b.Some? && a.value <= b.value)
  }

  /** `ORDER BY rank ASC, popularity ASC` on the columns the row shares with its anime. */
  predicate InfoLe(a: AnimeInfo, b: AnimeInfo)
  {
    if a.rank == b.rank then NullsFirstLe(a.popularity, b.popularity)
    else NullsFirstLe(a.rank, b.rank)
  }

  /** The catalogue order on rows. */
  predicate CatalogueLe(a: AnimeEntity, b: AnimeEntity)
  {
    InfoLe(a.info, b.info)
  }

  lemma CatalogueOrderIsTotal()
    ensures TotalPreorder(CatalogueLe)
  {
  }

  /**
   * `getAllAnime`: every row once, sorted by the catalogue order. Rows that tie keep their
   * primary-key order, a choice SQL leaves to the engine.
   */
  function Catalogue(t: Table): (r: seq<AnimeEntity>)
    requires Tables.Keyed(t, Key)
    ensures |r| == |t|
  {
    CatalogueOrderIsTotal();
    var r := SortBy(Tables.Scan(t, Key), CatalogueLe);
    assert |r| == |multiset(r)|;
    r
  }

  /** The catalogue lists exactly the stored rows. */
  lemma CatalogueMembers(t: Table)
    requires Tables.Keyed(t, Key)
    ensures forall e :: e in Catalogue(t) <==> e in t.Values
  {
    CatalogueOrderIsTotal();
    SameElements(Tables.Scan(t, Key), Catalogue(t));
  }

  /** The catalogue is a sorted permutation of the table's rows. */
  lemma CatalogueIsSortedPermutation(t: Table)
    requires Tables.Keyed(t, Key)
    ensures multiset(Catalogue(t)) == multiset(Tables.Scan(t, Key))
    ensures forall e :: e in Catalogue(t) <==> e in t.Values
    ensures SortedBy(Catalogue(t), CatalogueLe)
    ensures UniqueKeys(Catalogue(t), Key)
  {
    CatalogueOrderIsTotal();
    SameElements(Tables.Scan(t, Key), Catalogue(t));
    SortByKeepsUniqueKeys(Tables.Scan(t, Key), CatalogueLe, Key);
  }

  /** The first row an `OFFSET` selects: SQLite reads a negative offset as none. */
  function Start(offset: int): nat
  {
    if offset < 0 then 0 else offset
  }

  /** `LIMIT limit OFFSET offset` in SQLite: a negative limit means no limit, a negative offset none. */
  function Window<T>(s: seq<T>, limit: int, offset: int): (r: seq<T>)
    ensures Start(offset) >= |s| ==> r == []
    ensures Start(offset) < |s| ==> |r| == (if limit < 0 then |s| - Start(offset) else Min(limit, |s| - Start(offset)))
    ensures forall i :: 0 <= i < |r| ==> Start(offset) + i < |s| && r[i] == s[Start(offset) + i]
  {
    var start := Start(offset);
    if start >= |s| then []
    else if limit < 0 then s[start..]
    else s[start..start + Min(limit, |s| - start)]
  }

  /**
   * What a caller may rely on of `r` as rows `offset` to `offset + limit` of `s`: it is bounded
   * by a non-negative limit, empty from an offset past the end, and from a non-negative offset
   * it reads `s` from that offset on.
   */
  ghost predicate IsPage<T>(r: seq<T>, s: seq<T>, limit: int, offset: int)
  {
    && (limit >= 0 ==> |r| <= limit)
    && (offset >= |s| ==> r == [])
    && (0 <= offset ==> forall i :: 0 <= i < |r| ==> offset + i < |s| && r[i] == s[offset + i])
  }

  lemma WindowIsPage<T>(s: seq<T>, limit: int, offset: int)
    ensures IsPage(Window(s, limit, offset), s, limit, offset)
  {
  }

  /** A page holds only elements of the sequence it is cut from. */
  lemma WindowMembers<T>(s: seq<T>, limit: int, offset: int)
    ensures forall x :: x in Window(s, limit, offset) ==> x in s
  {
    var r := Window(s, limit, offset);
    forall x | x in r ensures x in s {
      var i :| 0 <= i < |r| && r[i] == x;
      assert s[Start(offset) + i] == x;
    }
  }

  /** Consecutive pages of `size` rows, numbered from 1, read the sequence from its start. */
  function Pages<T>(s: seq<T>, size: nat, n: nat): seq<T>
  {
    if n == 0 then [] else Pages(s, size, n - 1) + Window(s, size, (n - 1) * size)
  }

  lemma {:induction false} PagesArePrefix<T>(s: seq<T>, size: nat, n: nat)
    ensures Pages(s, size, n) == s[..Min(n * size, |s|)]
  {
    if n > 0 {
      var start := (n - 1) * size;
      PagesArePrefix(s, size, n - 1);
      NextPageStart(n, size);
      WindowExtendsPrefix(s, size, start);
      assert Pages(s, size, n) == s[..Min(start, |s|)] + Window(s, size, start);
    }
  }

  lemma NextPageStart(n: nat, size: nat)
    requires n > 0
    ensures n * size == (n - 1) * size + size
  {
  }

  /** The page at `start` continues the prefix that ends there. */
  lemma WindowExtendsPrefix<T>(s: seq<T>, size: nat, start: nat)
    ensures s[..Min(start, |s|)] + Window(s, size, start) == s[..Min(start + size, |s|)]
  {
    if start < |s| {
      var end := Min(start + size, |s|);
      assert Window(s, size, start) == s[start..end];
      assert s[..end] == s[..start] + s[start..end];
    }
  }

  /** `getStaleAnime`: the rows updated strictly before `cutoff`, in primary-key order. */
  function Stale(t: Table, cutoff: int): (r: seq<AnimeEntity>)
    requires Tables.Keyed(t, Key)
    ensures forall e :: e in r <==> e in t.Values && e.lastUpdated < cutoff
    ensures forall i, j :: 0 <= i < j < |r| ==> r[i].malId < r[j].malId
  {
    var scan := Tables.Scan(t, Key);
    var r := Filter(scan, (e: AnimeEntity) => e.lastUpdated < cutoff);
    FilterKeepsOrder(scan, (e: AnimeEntity) => e.lastUpdated < cutoff, (a: AnimeEntity, b: AnimeEntity) => a.malId < b.malId);
    r
  }

  /** `title LIKE '%q%' OR titleEnglish LIKE '%q%'`: a null English title matches nothing. */
  predicate TitleMatches(e: AnimeEntity, query: string)
    ensures query == [] ==> TitleMatches(e, query)
    ensures e.info.titleEnglish.None? ==> (TitleMatches(e, query) <==> ContainsIgnoringCase(e.info.title, query))
  {
    EmptyPatternMatches(e.info.title);
    || ContainsIgnoringCase(e.info.title, query)
    || (e.info.titleEnglish.Some? && ContainsIgnoringCase(e.info.titleEnglish.value, query))
  }

  /** `searchAnime`: the rows whose title or English title contains `query`, in catalogue order. */
  function Search(t: Table, query: string): (r: seq<AnimeEntity>)
    requires Tables.Keyed(t, Key)
    ensures forall e :: e in r <==> e in t.Values && TitleMatches(e, query)
    ensures SortedBy(r, CatalogueLe)
    ensures forall i, j :: 0 <= i < j < |r| ==> r[i].malId != r[j].malId
  {
    var all := Catalogue(t);
    CatalogueIsSortedPermutation(t);
    FilterKeepsOrder(all, e => TitleMatches(e, query), CatalogueLe);
    FilterKeepsUniqueKeys(all, e => TitleMatches(e, query), Key);
    Filter(all, e => TitleMatches(e, query))
  }

  /** Searching for the empty string lists the whole catalogue. */
  lemma SearchEmptyIsCatalogue(t: Table)
    requires Tables.Keyed(t, Key)
    ensures Search(t, "") == Catalogue(t)
  {
    FilterAll(Catalogue(t), e => TitleMatches(e, ""));
  }

  /** The Room DAO over table `anime`. */
  class AnimeDao {
    var rows: Table

    ghost predicate Valid()
      reads this
    {
      Tables.Keyed(rows, Key)
    }

    constructor()
      ensures Valid() && rows == map[]
    {
      rows := map[];
    }

    /** `getAllAnime` */
    function GetAllAnime(): (r: seq<AnimeEntity>)
      reads this
      requires Valid()
      ensures |r| == |rows| && (forall e :: e in r <==> e in rows.Values)
      ensures SortedBy(r, CatalogueLe)
      ensures forall i, j :: 0 <= i < j < |r| ==> r[i].malId != r[j].malId
    {
      CatalogueIsSortedPermutation(rows);
      Catalogue(rows)
    }

    /** `getAnimeById` and `getAnimeByIdFlow`: the row with that key, or null. */
    function GetAnimeById(malId: int): (r: Option<AnimeEntity>)
      reads this
      requires Valid()
      ensures r.Some? <==> malId in rows
      ensures r.Some? ==> r.value == rows[malId] && r.value.malId == malId
    {
      if malId in rows then Some(rows[malId]) else None
    }

    /** `getAnimePage`: rows `offset` to `offset + limit` of the catalogue, clipped to the table. */
    function GetAnimePage(limit: int, offset: int): (r: seq<AnimeEntity>)
      reads this
      requires Valid()
      ensures IsPage(r, GetAllAnime(), limit, offset)
    {
      WindowIsPage(Catalogue(rows), limit, offset);
      Window(Catalogue(rows), limit, offset)
    }

    /** `getAnimeCount` */
    function GetAnimeCount(): (n: nat)
      reads this
      requires Valid()
      ensures n == |GetAllAnime()|
    {
      |rows|
    }

    /** `getStaleAnime` */
    function GetStaleAnime(cutoffTime: int): (r: seq<AnimeEntity>)
      reads this
      requires Valid()
      ensures forall e :: e in r <==> e in rows.Values && e.lastUpdated < cutoffTime
      ensures forall i, j :: 0 <= i < j < |r| ==> r[i].malId < r[j].malId
    {
      Stale(rows, cutoffTime)
    }

    /** `searchAnime` */
    function SearchAnime(query: string): (r: seq<AnimeEntity>)
      reads this
      requires Valid()
      ensures forall e :: e in r <==> e in rows.Values && TitleMatches(e, query)
      ensures SortedBy(r, CatalogueLe)
      ensures forall i, j :: 0 <= i < j < |r| ==> r[i].malId != r[j].malId
    {
      Search(rows, query)
    }

    /** `insertAnime`: replaces the row with the same key, or adds one. */
    method InsertAnime(anime: AnimeEntity)
      requires Valid()
      modifies this
      ensures Valid()
      ensures rows == old(rows)[anime.malId := anime]
      ensures GetAnimeById(anime.malId) == Some(anime)
      ensures forall k :: k != anime.malId ==> GetAnimeById(k) == old(GetAnimeById(k))
    {
      rows := Tables.Upsert(rows, anime, Key);
    }

    /** `insertAnimeList`: the rows are inserted one after another, so the last of a key wins. */
    method InsertAnimeList(animeList: seq<AnimeEntity>)
      requires Valid()
      modifies this
      ensures Valid()
      ensures rows == Tables.UpsertAll(old(rows), animeList, Key)
    {
      for i := 0 to |animeList|
        invariant Valid()
        invariant rows == Tables.UpsertAll(old(rows), animeList[..i], Key)
      {
        assert animeList[..i + 1][..i] == animeList[..i];
        rows := Tables.Upsert(rows, animeList[i], Key);
      }
      assert animeList[..|animeList|] == animeList;
    }

    /** `updateAnime`: replaces the row with the same key; does nothing when there is none. */
    method UpdateAnime(anime: AnimeEntity)
      requires Valid()
      modifies this
      ensures Valid()
      ensures anime.malId in old(rows) ==> rows == old(rows)[anime.malId := anime]
      ensures anime.malId !in old(rows) ==> rows == old(rows)
    {
      if anime.malId in rows {
        rows := rows[anime.malId := anime];
      }
    }

    /** `deleteAnime`: deletes by primary key; the other columns of `anime` play no part. */
    method DeleteAnime(anime: AnimeEntity)
      requires Valid()
      modifies this
      ensures Valid()
      ensures rows == old(rows) - {anime.malId}
    {
      rows := rows - {anime.malId};
    }

    /** `deleteAllAnime` */
    method DeleteAllAnime()
      requires Valid()
      modifies this
      ensures Valid() && rows == map[]
      ensures GetAnimeCount() == 0
    {
      rows := map[];
    }

    /** `updateLastUpdated`: restamps one row; does nothing for an absent key. */
    method UpdateLastUpdated(malId: int, timestamp: int)
      requires Valid()
      modifies this
      ensures Valid()
      ensures malId in old(rows) ==> rows == old(rows)[malId := old(rows)[malId].(lastUpdated := timestamp)]
      ensures malId !in old(rows) ==> rows == old(rows)
    {
      if malId in rows {
        rows := rows[malId := rows[malId].(lastUpdated := timestamp)];
      }
    }
  }
}
