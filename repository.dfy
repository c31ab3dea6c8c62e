/**
 * The offline-first repository. Each operation takes whether the device is online, the
 * outcome of every request it may make, and the cache; it decides what to return, what to
 * write to the cache, and which requests it makes.
 */
module Repository {
  import opened Base
  import opened Text
  import opened Model
  import opened Entity
  import opened Sorting
  import AnimeMapper
  import CharacterMapper
  import AnimeTable
  import CharacterTable
  import Tables

  /** What a Retrofit call produced: an exception, or an HTTP response with status line and parsed body. */
  datatype Remote<T> = Throws(message: Option<string>) | Http(code: int, reason: string, body: Option<T>)

  /** Retrofit's `isSuccessful`. */
  predicate IsSuccessful<T>(r: Remote<T>)
  {
    r.Http? && 200 <= r.code < 300
  }

  /** The Jikan endpoints, with the path parameter each request carries. */
  datatype Request =
    | TopAnime(page: Int32)
    | AnimeFull(id: Int32)
    | AnimeSummary(id: Int32)
    | AnimeCharacters(id: Int32)

  /** An operation's decision: its result, the rows it writes in order, and the requests it makes. */
  datatype Step<R, W> = Step(result: R, writes: seq<W>, requests: seq<Request>)

  /** How Kotlin's string template renders a nullable exception message. */
  function MessageText(m: Option<string>): (s: string)
    ensures m.Some? ==> s == m.value
  {
    if m.Some? then m.value else "null"
  }

  /** One hour in milliseconds: rows written before `now` minus this are stale. */
  const StaleAfter: int := 60 * 60 * 1000

  /** The size of an offline page. */
  const PageSize: int := 25

  /** `(page - 1) * 25` in Kotlin `Int` arithmetic. */
  function PageOffset(page: Int32): (offset: Int32)
    ensures 1 <= page <= 0x8000_0000 / PageSize ==> offset == (page - 1) * PageSize
  {
    Wrap32(Wrap32(page - 1) * PageSize)
  }

  function TopAnimeList(remote: Remote<TopAnimeResponse>): seq<Anime>
  {
    if remote.Http? && remote.body.Some? then remote.body.value.data else []
  }

  /**
   * `getTopAnime`, one emission: online with a 2xx response, the response's list (empty for
   * a null body) is written and returned; in every other case the cached catalogue is returned.
   */
  function TopAnimeStep(isOnline: bool, remote: Remote<TopAnimeResponse>, local: seq<AnimeEntity>, now: int): (s: Step<Result<seq<Anime>>, AnimeEntity>)
    requires AnimeMapper.AllReadable(local)
    ensures s.result.Success?
    ensures s.requests == if isOnline then [TopAnime(1)] else []
    ensures isOnline && IsSuccessful(remote) ==>
      s.result.value == TopAnimeList(remote) && s.writes == AnimeMapper.ToEntityList(TopAnimeList(remote), now)
    ensures !(isOnline && IsSuccessful(remote)) ==> s.result.value == AnimeMapper.ToModelList(local) && s.writes == []
  {
    if isOnline && IsSuccessful(remote) then
      var list := TopAnimeList(remote);
      Step(Success(list), AnimeMapper.ToEntityList(list, now), [TopAnime(1)])
    else
      Step(Success(AnimeMapper.ToModelList(local)), [], if isOnline then [TopAnime(1)] else [])
  }

  /** The pagination `getTopAnimePage` makes up for a page read from the cache. */
  function OfflinePagination(page: Int32, count: nat): (p: Pagination)
    requires count <= PageSize
    ensures p.currentPage == page && p.lastVisiblePage == page
    ensures p.hasNextPage <==> count == PageSize
    ensures p.items == PaginationItems(count, count, PageSize)
  {
    Pagination(page, count == PageSize, page, PaginationItems(count, count, PageSize))
  }

  /** The cached rows of page `page`: rows `(page - 1) * 25` onwards of the catalogue, at most 25. */
  function CachedPage(page: Int32, t: AnimeTable.Table): (cached: seq<AnimeEntity>)
    requires Tables.Keyed(t, AnimeTable.Key) && AnimeRowsReadable(t)
    ensures |cached| <= PageSize
    ensures AnimeMapper.AllReadable(cached)
    ensures cached == AnimeTable.Window(AnimeTable.Catalogue(t), PageSize, PageOffset(page))
  {
    var all := AnimeTable.Catalogue(t);
    var offset := PageOffset(page);
    CatalogueReadable(t);
    AnimeTable.WindowMembers(all, PageSize, offset);
    AnimeTable.WindowIsPage(all, PageSize, offset);
    AnimeTable.Window(all, PageSize, offset)
  }

  /** Every row the catalogue lists can be mapped back to an anime. */
  lemma CatalogueReadable(t: AnimeTable.Table)
    requires Tables.Keyed(t, AnimeTable.Key) && AnimeRowsReadable(t)
    ensures AnimeMapper.AllReadable(AnimeTable.Catalogue(t))
  {
    AnimeTable.CatalogueMembers(t);
  }

  /**
   * Offline, pages 1 to `n` read the cached catalogue from its start, 25 rows a page, with
   * neither gaps nor overlaps.
   */
  lemma OfflinePagesTile(t: AnimeTable.Table, n: nat)
    requires Tables.Keyed(t, AnimeTable.Key) && AnimeRowsReadable(t)
    requires n <= 0x8000_0000 / PageSize
    ensures CachedPages(t, n) == AnimeTable.Catalogue(t)[..Min(n * PageSize, |t|)]
  {
    CachedPagesArePages(t, n);
    AnimeTable.PagesArePrefix(AnimeTable.Catalogue(t), PageSize, n);
  }

  function CachedPages(t: AnimeTable.Table, n: nat): seq<AnimeEntity>
    requires Tables.Keyed(t, AnimeTable.Key) && AnimeRowsReadable(t)
    requires n <= 0x8000_0000 / PageSize
  {
    if n == 0 then [] else CachedPages(t, n - 1) + CachedPage(n as Int32, t)
  }

  lemma {:induction false} CachedPagesArePages(t: AnimeTable.Table, n: nat)
    requires Tables.Keyed(t, AnimeTable.Key) && AnimeRowsReadable(t)
    requires n <= 0x8000_0000 / PageSize
    ensures CachedPages(t, n) == AnimeTable.Pages(AnimeTable.Catalogue(t), PageSize, n)
  {
    if n > 0 {
      CachedPagesArePages(t, n - 1);
      assert PageOffset(n as Int32) == (n - 1) * PageSize;
    }
  }

  /** The response `getTopAnimePage` makes up offline from the cached page. */
  function OfflinePage(page: Int32, t: AnimeTable.Table): (r: TopAnimeResponse)
    requires Tables.Keyed(t, AnimeTable.Key) && AnimeRowsReadable(t)
    ensures r.data == AnimeMapper.ToModelList(CachedPage(page, t))
    ensures r.pagination == OfflinePagination(page, |CachedPage(page, t)|)
  {
    var cached := CachedPage(page, t);
    TopAnimeResponse(AnimeMapper.ToModelList(cached), OfflinePagination(page, |cached|))
  }

  /**
   * `getTopAnimePage(page)`. Online, a 2xx response with a body is written and returned
   * unchanged; a null body, a non-2xx status or an exception is a failure and writes nothing.
   * Offline, the page is rows `(page - 1) * 25` onwards of the cached catalogue.
   */
  function TopAnimePageStep(isOnline: bool, page: Int32, remote: Remote<TopAnimeResponse>, t: AnimeTable.Table, now: int)
    : (s: Step<Result<TopAnimeResponse>, AnimeEntity>)
    requires Tables.Keyed(t, AnimeTable.Key) && AnimeRowsReadable(t)
    ensures s.requests == if isOnline then [TopAnime(page)] else []
    ensures s.writes != [] ==> isOnline && IsSuccessful(remote) && remote.body.Some?
    ensures isOnline && IsSuccessful(remote) && remote.body.Some? ==>
      s.result == Success(remote.body.value) && s.writes == AnimeMapper.ToEntityList(remote.body.value.data, now)
    ensures isOnline && IsSuccessful(remote) && remote.body.None? ==> s.result == Failure(Some("Empty response body"))
    ensures isOnline && remote.Http? && !IsSuccessful(remote) ==>
      s.result == Failure(Some("Failed to fetch anime page " + Decimal(page) + ": " + Decimal(remote.code)))
    ensures isOnline && remote.Throws? ==> s.result == Failure(remote.message)
    ensures !isOnline ==> s.result == Success(OfflinePage(page, t)) && s.writes == []
  {
    if isOnline then
      if remote.Throws? then Step(Failure(remote.message), [], [TopAnime(page)])
      else if !IsSuccessful(remote) then
        Step(Failure(Some("Failed to fetch anime page " + Decimal(page) + ": " + Decimal(remote.code))), [], [TopAnime(page)])
      else if remote.body.None? then Step(Failure(Some("Empty response body")), [], [TopAnime(page)])
      else Step(Success(remote.body.value), AnimeMapper.ToEntityList(remote.body.value.data, now), [TopAnime(page)])
    else Step(Success(OfflinePage(page, t)), [], [])
  }

  /** The message `getAnimeById` fails with when a request gets a non-2xx status and nothing is cached. */
  function StatusMessage(code: int, reason: string, malId: Int32): (m: string)
    ensures code == 400 ==> m == "Bad Request - Invalid anime ID: " + Decimal(malId)
    ensures code == 404 ==> m == "Anime not found with ID: " + Decimal(malId)
    ensures code == 429 ==> m == "Rate limit exceeded. Please try again later."
    ensures code !in {400, 404, 429} ==> m == "Failed to fetch anime details: " + Decimal(code) + " - " + reason
  {
    match code
    case 400 => "Bad Request - Invalid anime ID: " + Decimal(malId)
    case 404 => "Anime not found with ID: " + Decimal(malId)
    case 429 => "Rate limit exceeded. Please try again later."
    case _ => "Failed to fetch anime details: " + Decimal(code) + " - " + reason
  }

  /** The response `getAnimeById` goes on with: the full endpoint's, or the summary's when the full call threw. */
  function DetailResponse(full: Remote<AnimeDetailResponse>, summary: Remote<AnimeDetailResponse>): Remote<AnimeDetailResponse>
  {
    if full.Throws? then summary else full
  }

  /** The anime a 2xx detail response carries, if any. */
  function DetailData(r: Remote<AnimeDetailResponse>): (d: Option<Anime>)
    ensures d.Some? ==> IsSuccessful(r)
  {
    if IsSuccessful(r) && r.body.Some? then r.body.value.data else None
  }

  /** Serving the cached row, or failing with `message` when there is none. */
  function CachedOr(local: Option<AnimeEntity>, message: string): (r: Result<Anime>)
    requires local.Some? ==> AnimeMapper.Readable(local.value)
    ensures local.Some? ==> r == Success(AnimeMapper.ToModel(local.value))
    ensures local.None? ==> r == Failure(Some(message))
  {
    if local.Some? then Success(AnimeMapper.ToModel(local.value)) else Failure(Some(message))
  }

  /**
   * `getAnimeById(malId)`, one emission, given the outcomes of the full and the summary request
   * and the cached row.
   */
  function AnimeByIdStep(
    isOnline: bool, malId: Int32, full: Remote<AnimeDetailResponse>, summary: Remote<AnimeDetailResponse>,
    local: Option<AnimeEntity>, now: int)
    : (s: Step<Result<Anime>, AnimeEntity>)
    requires local.Some? ==> AnimeMapper.Readable(local.value)
    ensures !isOnline ==> s.requests == [] && s.writes == [] && s.result == CachedOr(local, "Anime not found in offline cache")
    ensures isOnline && malId <= 0 ==>
      s.requests == [] && s.writes == [] && s.result == Failure(Some("Invalid anime ID: " + Decimal(malId)))
    ensures isOnline && malId > 0 ==>
      s.requests == [AnimeFull(malId)] + (if full.Throws? then [AnimeSummary(malId)] else [])
    ensures isOnline && malId > 0 && DetailData(DetailResponse(full, summary)).Some? ==>
      var d := DetailData(DetailResponse(full, summary)).value;
      s.result == Success(d) && s.writes == [AnimeMapper.ToEntity(d, now)]
    ensures s.writes != [] ==> isOnline && malId > 0 && DetailData(DetailResponse(full, summary)).Some?
    ensures local.Some? && (isOnline ==> malId > 0) && s.writes == [] ==> s.result == Success(AnimeMapper.ToModel(local.value))
    ensures isOnline && malId > 0 && IsSuccessful(DetailResponse(full, summary)) && DetailData(DetailResponse(full, summary)).None? ==>
      s.result == CachedOr(local, "Anime not found")
    ensures isOnline && malId > 0 && DetailResponse(full, summary).Http? && !IsSuccessful(DetailResponse(full, summary)) ==>
      var r := DetailResponse(full, summary);
      s.result == CachedOr(local, StatusMessage(r.code, r.reason, malId))
    ensures isOnline && malId > 0 && full.Throws? && summary.Throws? ==>
      s.result == CachedOr(local, "Network error: " + MessageText(summary.message))
  {
    if !isOnline then Step(CachedOr(local, "Anime not found in offline cache"), [], [])
    else if malId <= 0 then Step(Failure(Some("Invalid anime ID: " + Decimal(malId))), [], [])
    else
      var requests := [AnimeFull(malId)] + (if full.Throws? then [AnimeSummary(malId)] else []);
      var response := DetailResponse(full, summary);
      match response
      case Throws(message) => Step(CachedOr(local, "Network error: " + MessageText(message)), [], requests)
      case Http(code, reason, _) =>
        if IsSuccessful(response) then
          var data := DetailData(response);
          if data.Some? then Step(Success(data.value), [AnimeMapper.ToEntity(data.value, now)], requests)
          else Step(CachedOr(local, "Anime not found"), [], requests)
        else Step(CachedOr(local, StatusMessage(code, reason, malId)), [], requests)
  }

  function CharacterList(remote: Remote<CharacterResponse>): seq<CharacterData>
  {
    if remote.Http? && remote.body.Some? then remote.body.value.data else []
  }

  /**
   * `getAnimeCharacters(animeMalId)`, one emission: like `getTopAnime`, it never fails; the
   * fetched characters are written tagged with `animeMalId`.
   */
  function CharactersStep(isOnline: bool, animeMalId: Int32, remote: Remote<CharacterResponse>, local: seq<CharacterEntity>, now: int)
    : (s: Step<Result<seq<CharacterData>>, CharacterEntity>)
    requires CharacterMapper.AllReadable(local)
    ensures s.result.Success?
    ensures s.requests == if isOnline then [AnimeCharacters(animeMalId)] else []
    ensures isOnline && IsSuccessful(remote) ==>
      s.result.value == CharacterList(remote) && s.writes == CharacterMapper.ToEntityList(CharacterList(remote), animeMalId, now)
    ensures !(isOnline && IsSuccessful(remote)) ==> s.result.value == CharacterMapper.ToModelList(local) && s.writes == []
  {
    if isOnline && IsSuccessful(remote) then
      var list := CharacterList(remote);
      Step(Success(list), CharacterMapper.ToEntityList(list, animeMalId, now), [AnimeCharacters(animeMalId)])
    else
      Step(Success(CharacterMapper.ToModelList(local)), [], if isOnline then [AnimeCharacters(animeMalId)] else [])
  }

  /** `refreshAnimeList`: writes the fetched list on a 2xx response, and nothing otherwise. */
  function RefreshAnimeListWrites(isOnline: bool, remote: Remote<TopAnimeResponse>, now: int): (writes: seq<AnimeEntity>)
    ensures !(isOnline && IsSuccessful(remote)) ==> writes == []
    ensures isOnline && IsSuccessful(remote) ==> writes == AnimeMapper.ToEntityList(TopAnimeList(remote), now)
  {
    if isOnline && IsSuccessful(remote) then AnimeMapper.ToEntityList(TopAnimeList(remote), now) else []
  }

  /** `refreshAnimeCharacters`: writes the fetched characters on a 2xx response, and nothing otherwise. */
  function RefreshCharactersWrites(isOnline: bool, animeMalId: Int32, remote: Remote<CharacterResponse>, now: int)
    : (writes: seq<CharacterEntity>)
    ensures !(isOnline && IsSuccessful(remote)) ==> writes == []
    ensures isOnline && IsSuccessful(remote) ==> writes == CharacterMapper.ToEntityList(CharacterList(remote), animeMalId, now)
    ensures forall e :: e in writes ==> e.animeMalId == animeMalId
  {
    if isOnline && IsSuccessful(remote) then CharacterMapper.ToEntityList(CharacterList(remote), animeMalId, now) else []
  }

  /** What `syncOfflineData` writes for one stale row: the refetched anime, if a 2xx response carried one. */
  function SyncAnimeWrite(response: Remote<AnimeDetailResponse>, now: int): (writes: seq<AnimeEntity>)
    ensures |writes| <= 1
    ensures writes != [] <==> DetailData(response).Some?
    ensures writes != [] ==> writes[0] == AnimeMapper.ToEntity(DetailData(response).value, now)
  {
    var d := DetailData(response);
    if d.Some? then [AnimeMapper.ToEntity(d.value, now)] else []
  }

  /**
   * The rows `syncOfflineData` writes, in order: request `i` refetches stale row `i` and gets
   * `outcome(i)`. A failed request only skips its own row.
   */
  function SyncAnimeWrites(stale: seq<AnimeEntity>, outcome: nat -> Remote<AnimeDetailResponse>, now: int): (writes: seq<AnimeEntity>)
    ensures |writes| <= |stale|
    ensures forall e :: e in writes ==> e.lastUpdated == now && AnimeMapper.Readable(e)
    decreases |stale|
  {
    if stale == [] then [] else SyncAnimeWrites(stale[..|stale| - 1], outcome, now) + SyncAnimeWrite(outcome(|stale| - 1), now)
  }

  lemma SyncAnimeWritesStep(stale: seq<AnimeEntity>, i: nat, outcome: nat -> Remote<AnimeDetailResponse>, now: int)
    requires i < |stale|
    ensures SyncAnimeWrites(stale[..i + 1], outcome, now) == SyncAnimeWrites(stale[..i], outcome, now) + SyncAnimeWrite(outcome(i), now)
  {
    assert stale[..i + 1][..i] == stale[..i];
  }

  /** The requests `syncOfflineData` makes: one summary request per stale row, in order. */
  function SyncAnimeRequests(stale: seq<AnimeEntity>): (requests: seq<Request>)
    ensures |requests| == |stale|
    ensures forall i :: 0 <= i < |stale| ==> requests[i] == AnimeSummary(stale[i].malId)
  {
    seq(|stale|, i requires 0 <= i < |stale| => AnimeSummary(stale[i].malId))
  }

  lemma SyncAnimeRequestsStep(stale: seq<AnimeEntity>, i: nat)
    requires i < |stale|
    ensures SyncAnimeRequests(stale[..i + 1]) == SyncAnimeRequests(stale[..i]) + [AnimeSummary(stale[i].malId)]
  {
  }

  /**
   * Every row the sweep writes is the stored form of an anime that a 2xx response to one of
   * its requests carried; so the sweep writes at most one row per stale row.
   */
  lemma {:induction false} SyncAnimeWritesFromResponses(stale: seq<AnimeEntity>, outcome: nat -> Remote<AnimeDetailResponse>, now: int)
    ensures forall e :: e in SyncAnimeWrites(stale, outcome, now) ==>
      exists i :: 0 <= i < |stale| && DetailData(outcome(i)).Some? && e == AnimeMapper.ToEntity(DetailData(outcome(i)).value, now)
    decreases |stale|
  {
    if stale != [] {
      var n := |stale| - 1;
      SyncAnimeWritesFromResponses(stale[..n], outcome, now);
      forall e | e in SyncAnimeWrites(stale, outcome, now)
        ensures exists i :: 0 <= i < |stale| && DetailData(outcome(i)).Some? && e == AnimeMapper.ToEntity(DetailData(outcome(i)).value, now)
      {
        if e !in SyncAnimeWrites(stale[..n], outcome, now) {
          assert DetailData(outcome(n)).Some? && e == AnimeMapper.ToEntity(DetailData(outcome(n)).value, now);
        }
      }
    }
  }

  /** When no request succeeds with data, the sweep writes nothing. */
  lemma {:induction false} SyncAnimeWritesNothingOnFailure(stale: seq<AnimeEntity>, outcome: nat -> Remote<AnimeDetailResponse>, now: int)
    requires forall i :: 0 <= i < |stale| ==> DetailData(outcome(i)).None?
    ensures SyncAnimeWrites(stale, outcome, now) == []
    decreases |stale|
  {
    if stale != [] {
      SyncAnimeWritesNothingOnFailure(stale[..|stale| - 1], outcome, now);
    }
  }

  /**
   * The row a 2xx response with data writes is the last the sweep writes under its key, unless
   * a later response carries an anime with the same id; the other requests' failures play no part.
   */
  lemma {:induction false} SyncAnimeLastWrite(stale: seq<AnimeEntity>, outcome: nat -> Remote<AnimeDetailResponse>, now: int, i: nat)
    requires i < |stale| && DetailData(outcome(i)).Some?
    requires forall j :: i < j < |stale| && DetailData(outcome(j)).Some? ==>
      DetailData(outcome(j)).value.malId != DetailData(outcome(i)).value.malId
    ensures var d := DetailData(outcome(i)).value;
      Tables.LastWithKey(SyncAnimeWrites(stale, outcome, now), d.malId, AnimeTable.Key) == Some(AnimeMapper.ToEntity(d, now))
    decreases |stale|
  {
    var n := |stale| - 1;
    var d := DetailData(outcome(i)).value;
    var prefix := SyncAnimeWrites(stale[..n], outcome, now);
    assert SyncAnimeWrites(stale, outcome, now) == prefix + SyncAnimeWrite(outcome(n), now);
    if i == n {
      Tables.LastWithKeyAppendSame(prefix, AnimeMapper.ToEntity(d, now), d.malId, AnimeTable.Key);
    } else if DetailData(outcome(n)).Some? {
      SyncAnimeLastWrite(stale[..n], outcome, now, i);
      Tables.LastWithKeyAppendOther(prefix, AnimeMapper.ToEntity(DetailData(outcome(n)).value, now), d.malId, AnimeTable.Key);
    } else {
      SyncAnimeLastWrite(stale[..n], outcome, now, i);
      assert prefix + SyncAnimeWrite(outcome(n), now) == prefix;
    }
  }

  /**
   * After the sweep, the table holds the anime a 2xx response brought, stamped `now`, unless
   * a later response brought an anime with the same id.
   */
  lemma SyncAnimeSuccessIsKept(t: AnimeTable.Table, stale: seq<AnimeEntity>, outcome: nat -> Remote<AnimeDetailResponse>, now: int, i: nat)
    requires Tables.Keyed(t, AnimeTable.Key)
    requires i < |stale| && DetailData(outcome(i)).Some?
    requires forall j :: i < j < |stale| && DetailData(outcome(j)).Some? ==>
      DetailData(outcome(j)).value.malId != DetailData(outcome(i)).value.malId
    ensures var d := DetailData(outcome(i)).value;
      var rows := Tables.UpsertAll(t, SyncAnimeWrites(stale, outcome, now), AnimeTable.Key);
      d.malId in rows && rows[d.malId] == AnimeMapper.ToEntity(d, now)
  {
    var d := DetailData(outcome(i)).value;
    SyncAnimeLastWrite(stale, outcome, now, i);
    Tables.UpsertAllLastWins(t, SyncAnimeWrites(stale, outcome, now), AnimeTable.Key, d.malId);
  }

  /** What `syncCharacterData` writes for one stale row: the anime's fetched characters, on a 2xx response. */
  function SyncCharacterWrite(animeMalId: Int32, response: Remote<CharacterResponse>, now: int): (writes: seq<CharacterEntity>)
    ensures !IsSuccessful(response) ==> writes == []
    ensures IsSuccessful(response) ==> writes == CharacterMapper.ToEntityList(CharacterList(response), animeMalId, now)
    ensures forall e :: e in writes ==> e.animeMalId == animeMalId
  {
    if IsSuccessful(response) then CharacterMapper.ToEntityList(CharacterList(response), animeMalId, now) else []
  }

  /** The rows `syncCharacterData` writes, in order: request `i` fetches the anime of stale row `i`. */
  function SyncCharacterWrites(stale: seq<CharacterEntity>, outcome: nat -> Remote<CharacterResponse>, now: int): (writes: seq<CharacterEntity>)
    ensures forall e :: e in writes ==> e.lastUpdated == now && CharacterMapper.Readable(e)
    decreases |stale|
  {
    if stale == [] then []
    else
      SyncCharacterWrites(stale[..|stale| - 1], outcome, now)
      + SyncCharacterWrite(stale[|stale| - 1].animeMalId, outcome(|stale| - 1), now)
  }

  lemma SyncCharacterWritesStep(stale: seq<CharacterEntity>, i: nat, outcome: nat -> Remote<CharacterResponse>, now: int)
    requires i < |stale|
    ensures SyncCharacterWrites(stale[..i + 1], outcome, now)
      == SyncCharacterWrites(stale[..i], outcome, now) + SyncCharacterWrite(stale[i].animeMalId, outcome(i), now)
  {
    assert stale[..i + 1][..i] == stale[..i];
  }

  /**
   * The requests `syncCharacterData` makes: one per stale character row, for that row's anime,
   * so an anime with several stale characters is fetched once for each of them.
   */
  function SyncCharacterRequests(stale: seq<CharacterEntity>): (requests: seq<Request>)
    ensures |requests| == |stale|
    ensures forall i :: 0 <= i < |stale| ==> requests[i] == AnimeCharacters(stale[i].animeMalId)
  {
    seq(|stale|, i requires 0 <= i < |stale| => AnimeCharacters(stale[i].animeMalId))
  }

  lemma SyncCharacterRequestsStep(stale: seq<CharacterEntity>, i: nat)
    requires i < |stale|
    ensures SyncCharacterRequests(stale[..i + 1]) == SyncCharacterRequests(stale[..i]) + [AnimeCharacters(stale[i].animeMalId)]
  {
  }

  /** The rows written for the first `m` stale rows begin the rows the whole sweep writes. */
  lemma {:induction false} SyncCharacterWritesPrefix(stale: seq<CharacterEntity>, outcome: nat -> Remote<CharacterResponse>, now: int, m: nat)
    requires m <= |stale|
    ensures var w := SyncCharacterWrites(stale, outcome, now);
      var p := SyncCharacterWrites(stale[..m], outcome, now);
      |p| <= |w| && w[..|p|] == p
    decreases |stale|
  {
    if m == |stale| {
      assert stale[..m] == stale;
    } else {
      var n := |stale| - 1;
      var front := SyncCharacterWrites(stale[..n], outcome, now);
      var last := SyncCharacterWrite(stale[n].animeMalId, outcome(n), now);
      assert SyncCharacterWrites(stale, outcome, now) == front + last;
      SyncCharacterWritesPrefix(stale[..n], outcome, now, m);
      assert stale[..n][..m] == stale[..m];
      PrefixOfAppend(front, last, SyncCharacterWrites(stale[..m], outcome, now));
    }
  }

  /**
   * A 2xx response's characters are all written, together and in order, right after the rows
   * of the requests before it, whatever the other requests got.
   */
  lemma SyncCharacterSuccessIsWritten(stale: seq<CharacterEntity>, outcome: nat -> Remote<CharacterResponse>, now: int, i: nat)
    requires i < |stale| && IsSuccessful(outcome(i))
    ensures var w := SyncCharacterWrites(stale, outcome, now);
      var before := SyncCharacterWrites(stale[..i], outcome, now);
      var fetched := CharacterMapper.ToEntityList(CharacterList(outcome(i)), stale[i].animeMalId, now);
      |before| + |fetched| <= |w| && w[|before|..|before| + |fetched|] == fetched
  {
    var w := SyncCharacterWrites(stale, outcome, now);
    var before := SyncCharacterWrites(stale[..i], outcome, now);
    var fetched := CharacterMapper.ToEntityList(CharacterList(outcome(i)), stale[i].animeMalId, now);
    SyncCharacterWritesPrefix(stale, outcome, now, i + 1);
    SyncCharacterWritesStep(stale, i, outcome, now);
    var p := before + fetched;
    assert w[..|p|] == p;
    assert w[|before|..|p|] == w[..|p|][|before|..];
  }

  /** Every row the character sweep writes belongs to the anime of some stale row. */
  lemma {:induction false} SyncCharacterWritesTagged(stale: seq<CharacterEntity>, outcome: nat -> Remote<CharacterResponse>, now: int)
    ensures forall e :: e in SyncCharacterWrites(stale, outcome, now) ==> exists i :: 0 <= i < |stale| && e.animeMalId == stale[i].animeMalId
    decreases |stale|
  {
    if stale != [] {
      var n := |stale| - 1;
      SyncCharacterWritesTagged(stale[..n], outcome, now);
      forall e | e in SyncCharacterWrites(stale, outcome, now) ensures exists i :: 0 <= i < |stale| && e.animeMalId == stale[i].animeMalId {
        if e !in SyncCharacterWrites(stale[..n], outcome, now) {
          assert e.animeMalId == stale[n].animeMalId;
        } else {
          var i :| 0 <= i < n && e.animeMalId == stale[..n][i].animeMalId;
          assert stale[..n][i] == stale[i];
        }
      }
    }
  }

  predicate AnimeRowsReadable(t: AnimeTable.Table)
  {
    forall k :: k in t ==> AnimeMapper.Readable(t[k])
  }

  /** The anime a search of the cache returns. */
  function SearchResults(t: AnimeTable.Table, query: string): seq<Anime>
    requires Tables.Keyed(t, AnimeTable.Key) && AnimeRowsReadable(t)
  {
    var found := AnimeTable.Search(t, query);
    assert AnimeMapper.AllReadable(found);
    AnimeMapper.ToModelList(found)
  }

  /** The catalogue order, `rank` then `popularity` with nulls first, on anime. */
  predicate AnimeCatalogueLe(a: Anime, b: Anime)
  {
    AnimeTable.InfoLe(a.info, b.info)
  }

  /**
   * A search returns exactly the stored anime whose title or English title matches, each
   * once, in catalogue order.
   */
  lemma SearchResultsAreStoredAnime(t: AnimeTable.Table, query: string)
    requires Tables.Keyed(t, AnimeTable.Key) && AnimeRowsReadable(t)
    ensures forall a :: a in SearchResults(t, query) <==>
      exists e :: e in t.Values && AnimeTable.TitleMatches(e, query) && AnimeMapper.Readable(e) && a == AnimeMapper.ToModel(e)
    ensures var r := SearchResults(t, query);
      forall i, j :: 0 <= i < j < |r| ==> r[i].malId != r[j].malId
    ensures SortedBy(SearchResults(t, query), AnimeCatalogueLe)
  {
    var found := AnimeTable.Search(t, query);
    AnimeMapper.ToModelListMembers(found);
    var r := SearchResults(t, query);
    forall i, j | 0 <= i < j < |r| ensures r[i].malId != r[j].malId && AnimeCatalogueLe(r[i], r[j]) {
      assert r[i] == AnimeMapper.ToModel(found[i]) && r[j] == AnimeMapper.ToModel(found[j]);
      assert AnimeTable.CatalogueLe(found[i], found[j]);
    }
  }

  predicate CharacterRowsReadable(t: CharacterTable.Table)
  {
    forall k :: k in t ==> CharacterMapper.Readable(t[k])
  }

  /** `AnimeRepository` over its two DAOs. */
  class AnimeRepository {
    const animeDao: AnimeTable.AnimeDao
    const characterDao: CharacterTable.CharacterDao

    /** Both tables are well keyed, and every cached row can be read back. */
    ghost predicate Valid()
      reads this, animeDao, characterDao
    {
      && animeDao.Valid() && characterDao.Valid()
      && AnimeRowsReadable(animeDao.rows) && CharacterRowsReadable(characterDao.rows)
    }

    constructor(animeDao: AnimeTable.AnimeDao, characterDao: CharacterTable.CharacterDao)
      requires animeDao.Valid() && characterDao.Valid()
      requires AnimeRowsReadable(animeDao.rows) && CharacterRowsReadable(characterDao.rows)
      ensures this.animeDao == animeDao && this.characterDao == characterDao
      ensures Valid()
    {
      this.animeDao := animeDao;
      this.characterDao := characterDao;
    }

    /** Writes rows that can be read back, keeping the cache readable. */
    method WriteAnime(es: seq<AnimeEntity>)
      requires Valid() && AnimeMapper.AllReadable(es)
      modifies animeDao
      ensures Valid()
      ensures animeDao.rows == Tables.UpsertAll(old(animeDao.rows), es, AnimeTable.Key)
    {
      Tables.UpsertAllPreserves(animeDao.rows, es, AnimeTable.Key, AnimeMapper.Readable);
      animeDao.InsertAnimeList(es);
    }

    method WriteCharacters(es: seq<CharacterEntity>)
      requires Valid() && CharacterMapper.AllReadable(es)
      modifies characterDao
      ensures Valid()
      ensures characterDao.rows == Tables.UpsertAll(old(characterDao.rows), es, CharacterTable.Key)
    {
      Tables.UpsertAllPreserves(characterDao.rows, es, CharacterTable.Key, CharacterMapper.Readable);
      characterDao.InsertCharacterList(es);
    }

    function CachedCatalogue(): (r: seq<AnimeEntity>)
      reads this, animeDao, characterDao
      requires Valid()
      ensures AnimeMapper.AllReadable(r)
    {
      animeDao.GetAllAnime()
    }

    /** `getTopAnime`, one emission on the current cache. */
    method GetTopAnime(isOnline: bool, remote: Remote<TopAnimeResponse>, now: int) returns (r: Result<seq<Anime>>, requests: seq<Request>)
      requires Valid()
      modifies animeDao
      ensures Valid()
      ensures var s := TopAnimeStep(isOnline, remote, old(CachedCatalogue()), now);
        r == s.result && requests == s.requests
        && animeDao.rows == Tables.UpsertAll(old(animeDao.rows), s.writes, AnimeTable.Key)
    {
      var local := CachedCatalogue();
      requests := [];
      if isOnline {
        requests := [TopAnime(1)];
        if IsSuccessful(remote) {
          var animeList := TopAnimeList(remote);
          WriteAnime(AnimeMapper.ToEntityList(animeList, now));
          r := Success(animeList);
        } else {
          r := Success(AnimeMapper.ToModelList(local));
        }
      } else {
        r := Success(AnimeMapper.ToModelList(local));
      }
    }

    /** `getTopAnimePage`: one request online, a read of the cached page offline. */
    method GetTopAnimePage(isOnline: bool, page: Int32, remote: Remote<TopAnimeResponse>, now: int)
      returns (r: Result<TopAnimeResponse>, requests: seq<Request>)
      requires Valid()
      modifies animeDao
      ensures Valid()
      ensures var s := TopAnimePageStep(isOnline, page, remote, old(animeDao.rows), now);
        r == s.result && requests == s.requests
        && animeDao.rows == Tables.UpsertAll(old(animeDao.rows), s.writes, AnimeTable.Key)
    {
      if isOnline {
        requests := [TopAnime(page)];
        if remote.Throws? {
          r := Failure(remote.message);
        } else if IsSuccessful(remote) {
          if remote.body.Some? {
            WriteAnime(AnimeMapper.ToEntityList(remote.body.value.data, now));
            r := Success(remote.body.value);
          } else {
            r := Failure(Some("Empty response body"));
          }
        } else {
          r := Failure(Some("Failed to fetch anime page " + Decimal(page) + ": " + Decimal(remote.code)));
        }
      } else {
        requests := [];
        var cached := animeDao.GetAnimePage(PageSize, PageOffset(page));
        assert cached == CachedPage(page, animeDao.rows);
        r := Success(TopAnimeResponse(AnimeMapper.ToModelList(cached), OfflinePagination(page, |cached|)));
      }
    }

    /** `getAnimeById`, one emission on the current cache. */
    method GetAnimeById(isOnline: bool, malId: Int32, full: Remote<AnimeDetailResponse>, summary: Remote<AnimeDetailResponse>, now: int)
      returns (r: Result<Anime>, requests: seq<Request>)
      requires Valid()
      modifies animeDao
      ensures Valid()
      ensures var s := AnimeByIdStep(isOnline, malId, full, summary, old(animeDao.GetAnimeById(malId)), now);
        r == s.result && requests == s.requests
        && animeDao.rows == Tables.UpsertAll(old(animeDao.rows), s.writes, AnimeTable.Key)
    {
      var local := animeDao.GetAnimeById(malId);
      requests := [];
      if !isOnline {
        r := CachedOr(local, "Anime not found in offline cache");
        return;
      }
      if malId <= 0 {
        r := Failure(Some("Invalid anime ID: " + Decimal(malId)));
        return;
      }
      var response := full;
      requests := [AnimeFull(malId)];
      if full.Throws? {
        response := summary;
        requests := requests + [AnimeSummary(malId)];
      }
      if response.Throws? {
        r := CachedOr(local, "Network error: " + MessageText(response.message));
      } else if IsSuccessful(response) {
        var data := DetailData(response);
        if data.Some? {
          WriteAnime([AnimeMapper.ToEntity(data.value, now)]);
          r := Success(data.value);
        } else {
          r := CachedOr(local, "Anime not found");
        }
      } else {
        r := CachedOr(local, StatusMessage(response.code, response.reason, malId));
      }
    }

    /** `refreshAnimeList`: the fetched list is written on a 2xx response; nothing else happens. */
    method RefreshAnimeList(isOnline: bool, remote: Remote<TopAnimeResponse>, now: int) returns (requests: seq<Request>)
      requires Valid()
      modifies animeDao
      ensures Valid()
      ensures requests == if isOnline then [TopAnime(1)] else []
      ensures animeDao.rows == Tables.UpsertAll(old(animeDao.rows), RefreshAnimeListWrites(isOnline, remote, now), AnimeTable.Key)
    {
      requests := [];
      if isOnline {
        requests := [TopAnime(1)];
        if IsSuccessful(remote) {
          WriteAnime(AnimeMapper.ToEntityList(TopAnimeList(remote), now));
        }
      }
    }

    /** One iteration of `syncOfflineData`: the refetched anime is written on a 2xx response with data. */
    method SyncAnime(response: Remote<AnimeDetailResponse>, now: int)
      requires Valid()
      modifies animeDao
      ensures Valid()
      ensures animeDao.rows == Tables.UpsertAll(old(animeDao.rows), SyncAnimeWrite(response, now), AnimeTable.Key)
    {
      var data := DetailData(response);
      if data.Some? {
        WriteAnime([AnimeMapper.ToEntity(data.value, now)]);
      }
    }

    /**
     * `syncOfflineData`: online, refetches every row last written more than an hour before
     * `now`, one request each; the `i`-th request gets `outcome(i)`.
     */
    method SyncOfflineData(isOnline: bool, now: int, outcome: nat -> Remote<AnimeDetailResponse>) returns (requests: seq<Request>)
      requires Valid()
      modifies animeDao
      ensures Valid()
      ensures !isOnline ==> requests == [] && animeDao.rows == old(animeDao.rows)
      ensures isOnline ==>
        var stale := AnimeTable.Stale(old(animeDao.rows), now - StaleAfter);
        && requests == SyncAnimeRequests(stale)
        && animeDao.rows == Tables.UpsertAll(old(animeDao.rows), SyncAnimeWrites(stale, outcome, now), AnimeTable.Key)
    {
      requests := [];
      if !isOnline {
        return;
      }
      var staleAnime := animeDao.GetStaleAnime(now - StaleAfter);
      requests := SyncAnimeRows(staleAnime, outcome, now);
    }

    /** The loop of `syncOfflineData` over a snapshot of the stale rows. */
    method SyncAnimeRows(staleAnime: seq<AnimeEntity>, outcome: nat -> Remote<AnimeDetailResponse>, now: int) returns (requests: seq<Request>)
      requires Valid()
      modifies animeDao
      ensures Valid()
      ensures requests == SyncAnimeRequests(staleAnime)
      ensures animeDao.rows == Tables.UpsertAll(old(animeDao.rows), SyncAnimeWrites(staleAnime, outcome, now), AnimeTable.Key)
    {
      requests := [];
      for i := 0 to |staleAnime|
        invariant Valid()
        invariant requests == SyncAnimeRequests(staleAnime[..i])
        invariant animeDao.rows == Tables.UpsertAll(old(animeDao.rows), SyncAnimeWrites(staleAnime[..i], outcome, now), AnimeTable.Key)
      {
        ghost var before := SyncAnimeWrites(staleAnime[..i], outcome, now);
        SyncAnimeWritesStep(staleAnime, i, outcome, now);
        SyncAnimeRequestsStep(staleAnime, i);
        requests := requests + [AnimeSummary(staleAnime[i].malId)];
        SyncAnime(outcome(i), now);
        Tables.UpsertAllAppend(old(animeDao.rows), before, SyncAnimeWrite(outcome(i), now), AnimeTable.Key);
      }
      assert staleAnime[..|staleAnime|] == staleAnime;
    }

    /** `searchAnime`, one emission: the matching cached rows as anime, in catalogue order. */
    function SearchAnime(query: string): (r: Result<seq<Anime>>)
      reads this, animeDao, characterDao
      requires Valid()
      ensures r.Success?
      ensures forall a :: a in r.value <==> exists e :: e in animeDao.rows.Values && AnimeTable.TitleMatches(e, query) && AnimeMapper.Readable(e) && a == AnimeMapper.ToModel(e)
      ensures forall i, j :: 0 <= i < j < |r.value| ==> r.value[i].malId != r.value[j].malId
      ensures SortedBy(r.value, AnimeCatalogueLe)
    {
      SearchResultsAreStoredAnime(animeDao.rows, query);
      Success(SearchResults(animeDao.rows, query))
    }

    /** `getAnimeCharacters`, one emission on the current cache. */
    method GetAnimeCharacters(isOnline: bool, animeMalId: Int32, remote: Remote<CharacterResponse>, now: int)
      returns (r: Result<seq<CharacterData>>, requests: seq<Request>)
      requires Valid()
      modifies characterDao
      ensures Valid()
      ensures var s := CharactersStep(isOnline, animeMalId, remote, old(CharacterTable.ByAnime(characterDao.rows, animeMalId)), now);
        r == s.result && requests == s.requests
        && characterDao.rows == Tables.UpsertAll(old(characterDao.rows), s.writes, CharacterTable.Key)
    {
      var local := characterDao.GetCharactersByAnimeId(animeMalId);
      assert CharacterMapper.AllReadable(local);
      requests := [];
      if isOnline {
        requests := [AnimeCharacters(animeMalId)];
        if IsSuccessful(remote) {
          var characterList := CharacterList(remote);
          WriteCharacters(CharacterMapper.ToEntityList(characterList, animeMalId, now));
          r := Success(characterList);
        } else {
          r := Success(CharacterMapper.ToModelList(local));
        }
      } else {
        r := Success(CharacterMapper.ToModelList(local));
      }
    }

    /** `refreshAnimeCharacters`: the fetched characters are written on a 2xx response. */
    method RefreshAnimeCharacters(isOnline: bool, animeMalId: Int32, remote: Remote<CharacterResponse>, now: int)
      returns (requests: seq<Request>)
      requires Valid()
      modifies characterDao
      ensures Valid()
      ensures requests == if isOnline then [AnimeCharacters(animeMalId)] else []
      ensures characterDao.rows == Tables.UpsertAll(old(characterDao.rows), RefreshCharactersWrites(isOnline, animeMalId, remote, now), CharacterTable.Key)
    {
      requests := [];
      if isOnline {
        requests := [AnimeCharacters(animeMalId)];
        if IsSuccessful(remote) {
          WriteCharacters(CharacterMapper.ToEntityList(CharacterList(remote), animeMalId, now));
        }
      }
    }

    /** One iteration of `syncCharacterData`: the anime's characters are written on a 2xx response. */
    method SyncCharacters(animeMalId: Int32, response: Remote<CharacterResponse>, now: int)
      requires Valid()
      modifies characterDao
      ensures Valid()
      ensures characterDao.rows == Tables.UpsertAll(old(characterDao.rows), SyncCharacterWrite(animeMalId, response, now), CharacterTable.Key)
    {
      if IsSuccessful(response) {
        WriteCharacters(CharacterMapper.ToEntityList(CharacterList(response), animeMalId, now));
      }
    }

    /**
     * `syncCharacterData`: online, one character-list request per character row last written
     * more than an hour before `now`, for that row's anime; the `i`-th request gets `outcome(i)`.
     */
    method SyncCharacterData(isOnline: bool, now: int, outcome: nat -> Remote<CharacterResponse>) returns (requests: seq<Request>)
      requires Valid()
      modifies characterDao
      ensures Valid()
      ensures !isOnline ==> requests == [] && characterDao.rows == old(characterDao.rows)
      ensures isOnline ==>
        var stale := CharacterTable.Stale(old(characterDao.rows), now - StaleAfter);
        && requests == SyncCharacterRequests(stale)
        && characterDao.rows == Tables.UpsertAll(old(characterDao.rows), SyncCharacterWrites(stale, outcome, now), CharacterTable.Key)
    {
      requests := [];
      if !isOnline {
        return;
      }
      var staleCharacters := characterDao.GetStaleCharacters(now - StaleAfter);
      requests := SyncCharacterRows(staleCharacters, outcome, now);
    }

    /** The loop of `syncCharacterData` over a snapshot of the stale rows. */
    method SyncCharacterRows(staleCharacters: seq<CharacterEntity>, outcome: nat -> Remote<CharacterResponse>, now: int)
      returns (requests: seq<Request>)
      requires Valid()
      modifies characterDao
      ensures Valid()
      ensures requests == SyncCharacterRequests(staleCharacters)
      ensures characterDao.rows == Tables.UpsertAll(old(characterDao.rows), SyncCharacterWrites(staleCharacters, outcome, now), CharacterTable.Key)
    {
      requests := [];
      for i := 0 to |staleCharacters|
        invariant Valid()
        invariant requests == SyncCharacterRequests(staleCharacters[..i])
        invariant characterDao.rows == Tables.UpsertAll(old(characterDao.rows), SyncCharacterWrites(staleCharacters[..i], outcome, now), CharacterTable.Key)
      {
        var entity := staleCharacters[i];
        ghost var before := SyncCharacterWrites(staleCharacters[..i], outcome, now);
        SyncCharacterWritesStep(staleCharacters, i, outcome, now);
        SyncCharacterRequestsStep(staleCharacters, i);
        requests := requests + [AnimeCharacters(entity.animeMalId)];
        SyncCharacters(entity.animeMalId, outcome(i), now);
        Tables.UpsertAllAppend(old(characterDao.rows), before, SyncCharacterWrite(entity.animeMalId, outcome(i), now), CharacterTable.Key);
      }
      assert staleCharacters[..|staleCharacters|] == staleCharacters;
    }
  }
}
