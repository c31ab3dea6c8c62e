/**
 * The detail screen's decisions: which of its views to show for an id and a UI state, whether to
 * ask for the details at all, and how counts such as members and favourites are abbreviated.
 */
module DetailScreen {
  import opened Base
  import opened Text
  import opened Model
  import opened DetailViewModel

  /** What the detail screen's body shows. `Blank` is the `when` with no branch taken. */
  datatype DetailView = InvalidId(message: string) | Loading | Error(message: string) | Content(anime: Anime) | Blank

  /** The screen's `when`: a bad id first, then the loader, then an error, then the anime. */
  function SelectDetailView(animeId: Int32, ui: AnimeDetailUiState): (v: DetailView)
    ensures v.InvalidId? <==> animeId <= 0
    ensures v.InvalidId? ==> v.message == "Invalid anime ID: " + Decimal(animeId)
    ensures v.Loading? <==> animeId > 0 && ui.isLoading
    ensures v.Error? <==> animeId > 0 && !ui.isLoading && ui.error.Some?
    ensures v.Error? ==> v.message == ui.error.value
    ensures v.Content? <==> animeId > 0 && !ui.isLoading && ui.error.None? && ui.anime.Some?
    ensures v.Content? ==> v.anime == ui.anime.value
  {
    if animeId <= 0 then InvalidId("Invalid anime ID: " + Decimal(animeId))
    else if ui.isLoading then Loading
    else if ui.error.Some? then Error(OrElse(ui.error, "Unknown error"))
    else if ui.anime.Some? then Content(ui.anime.value)
    else Blank
  }

  /**
   * The `LaunchedEffect`: details are asked for only for a positive id, so exactly when the
   * screen does not show the invalid-id error, whatever the state.
   */
  predicate ShouldRequestDetails(animeId: Int32)
    ensures forall ui :: ShouldRequestDetails(animeId) <==> !SelectDetailView(animeId, ui).InvalidId?
  {
    animeId > 0
  }

  /**
   * Once a load for a valid id has received emissions, the loader is gone: the screen shows the
   * last emission's error, or else the anime of the last success.
   */
  lemma ScreenAfterEmissions(animeId: Int32, s: AnimeDetailUiState, results: seq<Result<Anime>>)
    requires ShouldRequestDetails(animeId) && results != []
    ensures var ui := Collect(StartLoad(s), results);
      && !SelectDetailView(animeId, ui).Loading?
      && (results[|results| - 1].Failure? ==>
            SelectDetailView(animeId, ui) == Error(OrElse(results[|results| - 1].message, "Failed to load anime details")))
      && (results[|results| - 1].Success? ==> SelectDetailView(animeId, ui) == Content(results[|results| - 1].value))
  {
    CollectShowsLastSuccess(StartLoad(s), results);
  }

  /** `formatNumber`: a count in millions ("M") or thousands ("K"), rounded down, or in full. */
  function FormatNumber(number: Int32): (s: string)
    ensures |s| >= 1
    ensures s[|s| - 1] == 'M' <==> number >= 1_000_000
    ensures s[|s| - 1] == 'K' <==> 1_000 <= number < 1_000_000
    ensures number < 1_000 ==> s == Decimal(number)
  {
    if number >= 1_000_000 then Decimal(number / 1_000_000) + "M"
    else if number >= 1_000 then Decimal(number / 1_000) + "K"
    else Decimal(number)
  }

  /** The unit an abbreviated count is written in. */
  function Unit(number: int): nat
  {
    if number >= 1_000_000 then 1_000_000 else if number >= 1_000 then 1_000 else 1
  }

  /**
   * Reading the digits of `formatNumber(n)` back gives the count of whole units in `n`: the
   * shown number times the unit never exceeds `n`, and one more unit would.
   */
  lemma FormatNumberRoundsDown(number: Int32)
    requires number >= 1_000
    ensures var s := FormatNumber(number);
      && ParseDecimal(s[..|s| - 1]) == Some(number / Unit(number))
      && (number / Unit(number)) * Unit(number) <= number < (number / Unit(number) + 1) * Unit(number)
  {
    var s := FormatNumber(number);
    var shown := number / Unit(number);
    assert s[..|s| - 1] == Decimal(shown);
    DecimalRoundTrip(shown);
  }

  /** 1,999,999 is shown as "1M" and 999,999 as "999K": the division truncates. */
  lemma FormatNumberTruncates()
    ensures FormatNumber(1_999_999) == "1M"
    ensures FormatNumber(999_999) == "999K"
  {
    assert Digits(999) == Digits(99) + [DigitChar(9)];
    assert Digits(99) == Digits(9) + [DigitChar(9)];
  }
}

/**
 * The list screen's decisions: the full-screen view, when scrolling asks for more, and the
 * markers at the end of the grid.
 */
module ListScreen {
  import opened Base
  import opened Model
  import opened ListViewModel

  /** What the list screen's body shows. */
  datatype ListView = Loading | Error(message: string) | Grid

  /** The screen's `when`: a loader or an error take the whole screen only while the list is empty. */
  function SelectListView(ui: AnimeListUiState): (v: ListView)
    ensures v.Loading? <==> ui.isLoading && ui.animeList == []
    ensures v.Error? <==> !ui.isLoading && ui.error.Some? && ui.animeList == []
    ensures v.Error? ==> v.message == ui.error.value
    ensures ui.animeList != [] ==> v.Grid?
  {
    if ui.isLoading && ui.animeList == [] then Loading
    else if ui.error.Some? && ui.animeList == [] then Error(OrElse(ui.error, "Unknown error"))
    else Grid
  }

  /**
   * The infinite-scroll trigger: an item is visible, the last visible index is within six
   * of the end, a next page is offered and none is loading.
   */
  predicate ShouldLoadMore(lastVisibleIndex: Option<int>, size: int, hasNextPage: bool, isLoadingMore: bool)
    ensures ShouldLoadMore(lastVisibleIndex, size, hasNextPage, isLoadingMore) ==> hasNextPage && !isLoadingMore
    ensures lastVisibleIndex.None? ==> !ShouldLoadMore(lastVisibleIndex, size, hasNextPage, isLoadingMore)
    ensures lastVisibleIndex == Some(size - 1) ==>
      (ShouldLoadMore(lastVisibleIndex, size, hasNextPage, isLoadingMore) <==> hasNextPage && !isLoadingMore)
  {
    lastVisibleIndex.Some? && lastVisibleIndex.value >= size - 6 && hasNextPage && !isLoadingMore
  }

  /**
   * The "You've reached the end!" marker. It is part of the grid, and while it shows no scroll
   * position asks for another page.
   */
  predicate ShowEndOfList(ui: AnimeListUiState)
    ensures ShowEndOfList(ui) ==> SelectListView(ui).Grid?
    ensures ShowEndOfList(ui) ==>
      forall i :: !ShouldLoadMore(i, |ui.animeList|, ui.hasNextPage, ui.isLoadingMore)
  {
    !ui.hasNextPage && ui.animeList != [] && !ui.isLoadingMore
  }

  /** The pagination error card. */
  predicate ShowPaginationError(ui: AnimeListUiState)
  {
    ui.paginationError.Some?
  }

  /**
   * The trigger and the view model's guard agree. When the trigger fires below the cap the view
   * model loads a page; and whenever the view model would load one, scrolling to the last item
   * fires the trigger.
   */
  lemma TriggerAgreesWithGuard(p: Paging, lastVisibleIndex: Option<int>)
    requires Consistent(p)
    ensures (ShouldLoadMore(lastVisibleIndex, |p.ui.animeList|, p.ui.hasNextPage, p.ui.isLoadingMore)
             && |p.ui.animeList| < MaxItems) ==> StartLoadMore(p).1.Some?
    ensures MayLoadMore(p) ==>
      ShouldLoadMore(Some(|p.ui.animeList| - 1), |p.ui.animeList|, p.ui.hasNextPage, p.ui.isLoadingMore)
  {
  }

  /** A page that fills the list to the cap shows the end-of-list marker. */
  lemma CapShowsEndOfList(p: Paging, result: Result<TopAnimeResponse>)
    requires result.Success? && |FinishLoadMore(p, result).ui.animeList| == MaxItems
    ensures ShowEndOfList(FinishLoadMore(p, result).ui)
    ensures !StartLoadMore(FinishLoadMore(p, result)).1.Some?
  {
  }

  /** A failed load-more shows the error card until it is dismissed or a retry starts. */
  lemma FailedLoadMoreShowsError(p: Paging, result: Result<TopAnimeResponse>)
    requires result.Failure?
    ensures ShowPaginationError(FinishLoadMore(p, result).ui)
    ensures !ShowPaginationError(PaginationErrorCleared(FinishLoadMore(p, result)).ui)
    ensures MayLoadMore(FinishLoadMore(p, result)) ==> !ShowPaginationError(StartLoadMore(FinishLoadMore(p, result)).0.ui)
  {
  }
}
