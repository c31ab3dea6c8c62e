/**
 * `AnimeDetailViewModel`: the detail screen's state. A load shows the loader, then every result
 * the repository's `getAnimeById` flow emits (one per change of network state or of the cached
 * row) overwrites the state: a success shows its anime, a failure its message over the anime
 * already shown.
 */
module DetailViewModel {
  import opened Base
  import opened Model

  /** `AnimeDetailUiState`. */
  datatype AnimeDetailUiState = AnimeDetailUiState(isLoading: bool, anime: Option<Anime>, error: Option<string>)

  /** The default arguments of `AnimeDetailUiState()`. */
  const DefaultUiState := AnimeDetailUiState(false, None, None)

  /** The message a failed emission shows. */
  function ErrorOf(result: Result<Anime>): Option<string>
  {
    if result.Success? then None else Some(OrElse(result.message, "Failed to load anime details"))
  }

  /** `loadAnimeDetails`, before the flow is collected. */
  function StartLoad(s: AnimeDetailUiState): (r: AnimeDetailUiState)
    ensures r.isLoading && r.error == None && r.anime == s.anime
  {
    s.(isLoading := true, error := None)
  }

  /** One emission of the flow. */
  function Apply(s: AnimeDetailUiState, result: Result<Anime>): (r: AnimeDetailUiState)
    ensures !r.isLoading
    ensures result.Success? ==> r.anime == Some(result.value) && r.error == None
    ensures result.Failure? ==>
      r.anime == s.anime && r.error == Some(OrElse(result.message, "Failed to load anime details"))
  {
    match result
    case Success(anime) => s.(isLoading := false, anime := Some(anime), error := None)
    case Failure(message) => s.(isLoading := false, error := Some(OrElse(message, "Failed to load anime details")))
  }

  /** The state after the flow has emitted `results`, in order. */
  function Collect(s: AnimeDetailUiState, results: seq<Result<Anime>>): (r: AnimeDetailUiState)
    ensures results == [] ==> r == s
    ensures results != [] ==> !r.isLoading && r.error == ErrorOf(results[|results| - 1])
    decreases |results|
  {
    if results == [] then s
    else Apply(Collect(s, results[..|results| - 1]), results[|results| - 1])
  }

  /** The value of the last successful emission, if any. */
  function LastSuccess(results: seq<Result<Anime>>): Option<Anime>
    decreases |results|
  {
    if results == [] then None
    else if results[|results| - 1].Success? then Some(results[|results| - 1].value)
    else LastSuccess(results[..|results| - 1])
  }

  /** The value of a success after which every emission failed is what `LastSuccess` names. */
  lemma {:induction false} LastSuccessIsLast(results: seq<Result<Anime>>, i: nat)
    requires i < |results| && results[i].Success?
    requires forall j :: i < j < |results| ==> results[j].Failure?
    ensures LastSuccess(results) == Some(results[i].value)
    decreases |results|
  {
    var n := |results| - 1;
    if i < n {
      assert results[..n][i] == results[i];
      LastSuccessIsLast(results[..n], i);
    }
  }

  /** With no successful emission there is no last success. */
  lemma {:induction false} NoSuccessNoLast(results: seq<Result<Anime>>)
    requires forall j :: 0 <= j < |results| ==> results[j].Failure?
    ensures LastSuccess(results) == None
    decreases |results|
  {
    if results != [] {
      var n := |results| - 1;
      assert forall j :: 0 <= j < n ==> results[..n][j] == results[j];
      NoSuccessNoLast(results[..n]);
    }
  }

  /**
   * After any emissions the screen shows the anime of the last success, or the anime it showed
   * before when none succeeded; a failure never clears it.
   */
  lemma {:induction false} CollectShowsLastSuccess(s: AnimeDetailUiState, results: seq<Result<Anime>>)
    ensures Collect(s, results).anime == if LastSuccess(results).Some? then LastSuccess(results) else s.anime
    decreases |results|
  {
    if results != [] {
      CollectShowsLastSuccess(s, results[..|results| - 1]);
    }
  }

  class AnimeDetailViewModel {
    /** The value of the published state flow. */
    var uiState: AnimeDetailUiState

    constructor()
      ensures uiState == DefaultUiState
    {
      uiState := DefaultUiState;
    }

    /** `loadAnimeDetails`, collecting the flow's emissions one after another. */
    method LoadAnimeDetails(emissions: seq<Result<Anime>>)
      modifies this
      ensures uiState == Collect(StartLoad(old(uiState)), emissions)
    {
      uiState := uiState.(isLoading := true, error := None);
      ghost var start := uiState;
      for i := 0 to |emissions|
        invariant uiState == Collect(start, emissions[..i])
      {
        assert emissions[..i + 1][..i] == emissions[..i];
        match emissions[i] {
          case Success(anime) =>
            uiState := uiState.(isLoading := false, anime := Some(anime), error := None);
          case Failure(message) =>
            uiState := uiState.(isLoading := false, error := Some(OrElse(message, "Failed to load anime details")));
        }
      }
      assert emissions[..|emissions|] == emissions;
    }

    method ClearError()
      modifies this
      ensures uiState == old(uiState).(error := None)
    {
      uiState := uiState.(error := None);
    }
  }
}
