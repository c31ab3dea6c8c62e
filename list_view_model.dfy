/**
 * `AnimeListViewModel`: the catalogue screen's paging accumulator. It asks the repository for
 * page 1, then for one page after another as the user scrolls, appends each page to the list and
 * stops at 300 items. A load-more is single-flight: it is refused while one is in progress.
 *
 * Each `viewModelScope.launch` body runs on the main dispatcher, so the part before the
 * repository call happens at once and the rest when the result arrives. Every operation is
 * therefore split in two: a step taken when it is called (`BeginLoad`, `StartLoadMore`) and a
 * step taken with the repository's result (`FinishLoad`, `FinishLoadMore`).
 */
module ListViewModel {
  import opened Base
  import opened Model

  /** `maxItems`: the most anime the list ever accumulates by paging. */
  const MaxItems := 300

  /** `AnimeListUiState`, the state the screen renders. */
  datatype AnimeListUiState = AnimeListUiState(
    isLoading: bool,
    isRefreshing: bool,
    isLoadingMore: bool,
    animeList: seq<Anime>,
    hasNextPage: bool,
    currentPage: Int32,
    error: Option<string>,
    paginationError: Option<string>)

  /** The default arguments of `AnimeListUiState()`. */
  const DefaultUiState := AnimeListUiState(false, false, false, [], true, 1, None, None)

  /** The whole state of the view model: the published UI state and the two private fields. */
  datatype Paging = Paging(ui: AnimeListUiState, currentPage: Int32, hasNextPage: bool)

  /** The view model's fields before `init` runs. */
  const Initial := Paging(DefaultUiState, 1, true)

  /**
   * What every step keeps: the UI shows the private page number; it offers a next page only
   * when the view model has one; and it offers one whenever the view model has one and the
   * list is below the cap.
   */
  predicate Consistent(p: Paging)
  {
    && p.ui.currentPage == p.currentPage
    && (p.ui.hasNextPage ==> p.hasNextPage)
    && (p.hasNextPage && |p.ui.animeList| < MaxItems ==> p.ui.hasNextPage)
  }

  /** Kotlin's `List.take(n)`. */
  function Take<T>(s: seq<T>, n: nat): (r: seq<T>)
    ensures |r| == Min(|s|, n) && r <= s
  {
    if |s| <= n then s else s[..n]
  }

  /** `loadAnimeList`, up to the repository call: show the loader and clear the error. */
  function BeginLoad(p: Paging): (r: Paging)
    ensures r.ui.isLoading && r.ui.error == None
    ensures r.ui.animeList == p.ui.animeList && r.ui.paginationError == p.ui.paginationError
    ensures r.ui.isLoadingMore == p.ui.isLoadingMore && r.ui.hasNextPage == p.ui.hasNextPage
    ensures r.ui.currentPage == p.ui.currentPage && r.currentPage == p.currentPage
    ensures r.hasNextPage == p.hasNextPage
    ensures Consistent(p) ==> Consistent(r)
  {
    p.(ui := p.ui.(isLoading := true, error := None))
  }

  /**
   * `loadAnimeList`, with the result of `getTopAnimePage(1)`: a page replaces the list and its
   * pagination becomes the paging state; a failure keeps the list and shows its message.
   */
  function FinishLoad(p: Paging, result: Result<TopAnimeResponse>): (r: Paging)
    ensures !r.ui.isLoading
    ensures r.ui.isLoadingMore == p.ui.isLoadingMore && r.ui.paginationError == p.ui.paginationError
    ensures result.Success? ==>
      && r.ui.animeList == result.value.data && r.ui.error == None
      && r.currentPage == r.ui.currentPage == result.value.pagination.currentPage
      && r.hasNextPage == r.ui.hasNextPage == result.value.pagination.hasNextPage
    ensures result.Failure? ==>
      && r.ui.error == Some(OrElse(result.message, "Unknown error occurred"))
      && r.ui.animeList == p.ui.animeList && r.ui.hasNextPage == p.ui.hasNextPage
      && r.currentPage == p.currentPage && r.hasNextPage == p.hasNextPage
    ensures Consistent(p) ==> Consistent(r)
  {
    match result
    case Success(response) =>
      var currentPage := response.pagination.currentPage;
      var hasNextPage := response.pagination.hasNextPage;
      Paging(p.ui.(isLoading := false, animeList := response.data, hasNextPage := hasNextPage,
                   currentPage := currentPage, error := None),
             currentPage, hasNextPage)
    case Failure(message) =>
      p.(ui := p.ui.(isLoading := false, error := Some(OrElse(message, "Unknown error occurred"))))
  }

  /**
   * `loadMoreAnime`'s guard: a next page exists, none is being loaded and the cap is not reached.
   * From a consistent state it agrees with what the screen sees.
   */
  predicate MayLoadMore(p: Paging)
    ensures Consistent(p) ==>
      (MayLoadMore(p) <==> p.ui.hasNextPage && !p.ui.isLoadingMore && |p.ui.animeList| < MaxItems)
  {
    p.hasNextPage && !p.ui.isLoadingMore && |p.ui.animeList| < MaxItems
  }

  /**
   * `loadMoreAnime`, up to the repository call. It returns the new state and the page it asks
   * for, `currentPage + 1` in 32-bit arithmetic, or `None` when the guard returns early.
   */
  function StartLoadMore(p: Paging): (r: (Paging, Option<Int32>))
    ensures r.1.Some? <==> MayLoadMore(p)
    ensures r.1.None? ==> r.0 == p
    ensures r.1.Some? ==>
      && r.1.value == Wrap32(p.currentPage + 1)
      && r.0.ui.isLoadingMore && r.0.ui.paginationError == None
      && r.0.ui == p.ui.(isLoadingMore := true, paginationError := None)
    ensures r.0.currentPage == p.currentPage && r.0.hasNextPage == p.hasNextPage
    ensures r.1.Some? ==> !MayLoadMore(r.0)
    ensures Consistent(p) ==> Consistent(r.0)
  {
    if !p.hasNextPage || p.ui.isLoadingMore || |p.ui.animeList| >= MaxItems then (p, None)
    else (p.(ui := p.ui.(isLoadingMore := true, paginationError := None)), Some(Wrap32(p.currentPage + 1)))
  }

  /**
   * `loadMoreAnime`, with the repository's result. A page is appended and the list cut at
   * `MaxItems`; a next page is offered only while the list is below the cap. A failure keeps
   * the list and the paging state and shows a pagination error.
   */
  function FinishLoadMore(p: Paging, result: Result<TopAnimeResponse>): (r: Paging)
    ensures !r.ui.isLoadingMore
    ensures r.ui.isLoading == p.ui.isLoading && r.ui.error == p.ui.error
    ensures result.Success? ==>
      var page := result.value;
      && |r.ui.animeList| == Min(|p.ui.animeList| + |page.data|, MaxItems)
      && r.ui.animeList <= p.ui.animeList + page.data
      && r.currentPage == r.ui.currentPage == page.pagination.currentPage
      && r.hasNextPage == page.pagination.hasNextPage
      && (r.ui.hasNextPage <==> page.pagination.hasNextPage && |r.ui.animeList| < MaxItems)
      && r.ui.paginationError == None
    ensures result.Success? ==> |r.ui.animeList| <= MaxItems
    ensures result.Success? && |p.ui.animeList| <= MaxItems ==> p.ui.animeList <= r.ui.animeList
    ensures result.Failure? ==>
      && r.ui.animeList == p.ui.animeList && r.ui.hasNextPage == p.ui.hasNextPage
      && r.currentPage == p.currentPage && r.hasNextPage == p.hasNextPage
      && r.ui.paginationError == Some(OrElse(result.message, "Failed to load more anime"))
    ensures Consistent(p) ==> Consistent(r)
  {
    match result
    case Success(response) =>
      var currentPage := response.pagination.currentPage;
      var hasNextPage := response.pagination.hasNextPage;
      var updatedList := Take(p.ui.animeList + response.data, MaxItems);
      assert |p.ui.animeList| <= MaxItems ==> p.ui.animeList <= updatedList by {
        if |p.ui.animeList| <= MaxItems {
          assert (p.ui.animeList + response.data)[..|p.ui.animeList|] == p.ui.animeList;
        }
      }
      Paging(p.ui.(isLoadingMore := false, animeList := updatedList,
                   hasNextPage := hasNextPage && |updatedList| < MaxItems,
                   currentPage := currentPage, paginationError := None),
             currentPage, hasNextPage)
    case Failure(message) =>
      p.(ui := p.ui.(isLoadingMore := false,
                     paginationError := Some(OrElse(message, "Failed to load more anime"))))
  }

  /** `clearError`: only the error goes. */
  function ErrorCleared(p: Paging): (r: Paging)
    ensures r.ui.error == None
    ensures r.ui.(error := p.ui.error) == p.ui && r.currentPage == p.currentPage && r.hasNextPage == p.hasNextPage
    ensures Consistent(p) ==> Consistent(r)
  {
    p.(ui := p.ui.(error := None))
  }

  /** `clearPaginationError`: only the pagination error goes. */
  function PaginationErrorCleared(p: Paging): (r: Paging)
    ensures r.ui.paginationError == None
    ensures r.ui.(paginationError := p.ui.paginationError) == p.ui
    ensures r.currentPage == p.currentPage && r.hasNextPage == p.hasNextPage
    ensures Consistent(p) ==> Consistent(r)
  {
    p.(ui := p.ui.(paginationError := None))
  }

  /**
   * Scrolling: one load-more attempt per result. An attempt the guard lets through is completed
   * with its result before the next attempt; the result of a refused attempt is never asked for.
   */
  function LoadMoreRounds(p: Paging, results: seq<Result<TopAnimeResponse>>): Paging
    decreases |results|
  {
    if results == [] then p
    else
      var (q, request) := StartLoadMore(p);
      LoadMoreRounds(if request.Some? then FinishLoadMore(q, results[0]) else q, results[1..])
  }

  /** The pages a run of attempts asks for, in order. */
  function RequestedPages(p: Paging, results: seq<Result<TopAnimeResponse>>): seq<Int32>
    decreases |results|
  {
    if results == [] then []
    else
      var (q, request) := StartLoadMore(p);
      (if request.Some? then [request.value] else [])
        + RequestedPages(if request.Some? then FinishLoadMore(q, results[0]) else q, results[1..])
  }

  /**
   * However the pages arrive, paging only appends: the list before is a prefix of the list
   * after, it never grows past the cap, the state stays consistent and nothing is left loading.
   */
  lemma {:induction false} LoadMoreRoundsOnlyAppend(p: Paging, results: seq<Result<TopAnimeResponse>>)
    requires |p.ui.animeList| <= MaxItems && Consistent(p) && !p.ui.isLoadingMore
    ensures var r := LoadMoreRounds(p, results);
      && p.ui.animeList <= r.ui.animeList && |r.ui.animeList| <= MaxItems
      && Consistent(r) && !r.ui.isLoadingMore
    decreases |results|
  {
    if results != [] {
      var (q, request) := StartLoadMore(p);
      var next := if request.Some? then FinishLoadMore(q, results[0]) else q;
      LoadMoreRoundsOnlyAppend(next, results[1..]);
    }
  }

  /** Once the list holds `MaxItems` anime, no further page is ever requested. */
  lemma {:induction false} CapEndsPaging(p: Paging, results: seq<Result<TopAnimeResponse>>)
    requires |p.ui.animeList| >= MaxItems
    ensures RequestedPages(p, results) == []
    ensures LoadMoreRounds(p, results) == p
    decreases |results|
  {
    if results != [] {
      CapEndsPaging(p, results[1..]);
    }
  }

  /**
   * `AnimeListViewModel`. `uiState` is the value of the published state flow; `currentPage` and
   * `hasNextPage` are its private fields.
   */
  class AnimeListViewModel {
    var uiState: AnimeListUiState
    var currentPage: Int32
    var hasNextPage: bool

    function State(): Paging
      reads this
    {
      Paging(uiState, currentPage, hasNextPage)
    }

    ghost predicate Valid()
      reads this
    {
      Consistent(State())
    }

    /** The fields' initial values, then `init`'s call of `loadAnimeList`, up to its repository call. */
    constructor()
      ensures Valid()
      ensures State() == BeginLoad(Initial)
    {
      uiState := DefaultUiState.(isLoading := true, error := None);
      currentPage := 1;
      hasNextPage := true;
    }

    method BeginLoadAnimeList()
      requires Valid()
      modifies this
      ensures Valid()
      ensures State() == BeginLoad(old(State()))
    {
      uiState := uiState.(isLoading := true, error := None);
    }

    method FinishLoadAnimeList(result: Result<TopAnimeResponse>)
      requires Valid()
      modifies this
      ensures Valid()
      ensures State() == FinishLoad(old(State()), result)
    {
      match result {
        case Success(topAnimeResponse) =>
          var animeList := topAnimeResponse.data;
          currentPage := topAnimeResponse.pagination.currentPage;
          hasNextPage := topAnimeResponse.pagination.hasNextPage;
          uiState := uiState.(isLoading := false, animeList := animeList, hasNextPage := hasNextPage,
                              currentPage := currentPage, error := None);
        case Failure(message) =>
          uiState := uiState.(isLoading := false, error := Some(OrElse(message, "Unknown error occurred")));
      }
    }

    /** Returns the page the launched load asks the repository for, or `None` when it returns early. */
    method LoadMoreAnime() returns (nextPage: Option<Int32>)
      requires Valid()
      modifies this
      ensures Valid()
      ensures (State(), nextPage) == StartLoadMore(old(State()))
    {
      if !hasNextPage || uiState.isLoadingMore || |uiState.animeList| >= MaxItems {
        return None;
      }
      uiState := uiState.(isLoadingMore := true, paginationError := None);
      nextPage := Some(Wrap32(currentPage + 1));
    }

    method FinishLoadMoreAnime(result: Result<TopAnimeResponse>)
      requires Valid()
      modifies this
      ensures Valid()
      ensures State() == FinishLoadMore(old(State()), result)
    {
      match result {
        case Success(topAnimeResponse) =>
          var newAnimeList := topAnimeResponse.data;
          currentPage := topAnimeResponse.pagination.currentPage;
          hasNextPage := topAnimeResponse.pagination.hasNextPage;
          var updatedList := Take(uiState.animeList + newAnimeList, MaxItems);
          uiState := uiState.(isLoadingMore := false, animeList := updatedList,
                              hasNextPage := hasNextPage && |updatedList| < MaxItems,
                              currentPage := currentPage, paginationError := None);
        case Failure(message) =>
          uiState := uiState.(isLoadingMore := false,
                              paginationError := Some(OrElse(message, "Failed to load more anime")));
      }
    }

    /** `retryLoadMore` is `loadMoreAnime`. */
    method RetryLoadMore() returns (nextPage: Option<Int32>)
      requires Valid()
      modifies this
      ensures Valid()
      ensures (State(), nextPage) == StartLoadMore(old(State()))
    {
      nextPage := LoadMoreAnime();
    }

    method ClearError()
      requires Valid()
      modifies this
      ensures Valid()
      ensures State() == ErrorCleared(old(State()))
    {
      uiState := uiState.(error := None);
    }

    method ClearPaginationError()
      requires Valid()
      modifies this
      ensures Valid()
      ensures State() == PaginationErrorCleared(old(State()))
    {
      uiState := uiState.(paginationError := None);
    }
  }
}
