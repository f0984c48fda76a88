/** The sports slice: the catalog lists plus a loading flag and an error,
    driven by five actions. */
module Sports {
  import opened Js
  import opened Types

  datatype SportsState = SportsState(
    sports: seq<Item>,
    leagues: seq<Item>,
    teams: seq<Item>,
    isLoading: bool,
    error: Option<string>)

  const InitialState := SportsState([], [], [], false, None)

  datatype Action =
    | FetchSportsStart
    | FetchSportsSuccess(sports: seq<Item>)
    | FetchLeaguesSuccess(leagues: seq<Item>)
    | FetchTeamsSuccess(teams: seq<Item>)
    | FetchSportsFailure(message: string)

  /** The slice reducer. Only the start action raises the loading flag and
      clears the error; each success action replaces its own list and nothing
      else but the flag; the failure action keeps every list. */
  function Reduce(s: SportsState, a: Action): (r: SportsState)
    ensures r.isLoading <==> a.FetchSportsStart?
    ensures r.sports == (if a.FetchSportsSuccess? then a.sports else s.sports)
    ensures r.leagues == (if a.FetchLeaguesSuccess? then a.leagues else s.leagues)
    ensures r.teams == (if a.FetchTeamsSuccess? then a.teams else s.teams)
    ensures a.FetchSportsStart? ==> r.error == None
    ensures a.FetchSportsFailure? ==> r.error == Some(a.message)
    ensures !a.FetchSportsStart? && !a.FetchSportsFailure? ==> r.error == s.error
  {
    match a
    case FetchSportsStart => s.(isLoading := true, error := None)
    case FetchSportsSuccess(xs) => s.(isLoading := false, sports := xs)
    case FetchLeaguesSuccess(xs) => s.(isLoading := false, leagues := xs)
    case FetchTeamsSuccess(xs) => s.(isLoading := false, teams := xs)
    case FetchSportsFailure(m) => s.(isLoading := false, error := Some(m))
  }

  /** The state after dispatching `actions` in order. */
  function ReduceAll(s: SportsState, actions: seq<Action>): SportsState
    decreases |actions|
  {
    if |actions| == 0 then s else ReduceAll(Reduce(s, actions[0]), actions[1..])
  }

  /** The initial state has no data, is not loading and has no error. */
  lemma InitialStateIsIdle()
    ensures InitialState.sports == [] && InitialState.leagues == [] && InitialState.teams == []
    ensures !InitialState.isLoading && InitialState.error == None
  {
  }

  /** Only the start action ever clears an error: no run of actions without a
      start in it, however many successes it holds, removes a recorded error. */
  lemma {:induction false} OnlyStartClearsError(s: SportsState, actions: seq<Action>)
    requires s.error.Some?
    requires forall k :: 0 <= k < |actions| ==> !actions[k].FetchSportsStart?
    ensures ReduceAll(s, actions).error.Some?
    decreases |actions|
  {
    if |actions| > 0 {
      OnlyStartClearsError(Reduce(s, actions[0]), actions[1..]);
    }
  }
}
