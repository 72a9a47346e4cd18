/** The theme context (`src/ThemeContext.tsx`): the selected colour theme
    and the reducer that `dispatch` applies to it. */
module Theme {
  import opened Results

  const Dark := "theme-dark"
  const Light := "theme-light"

  /** `{ selectedTheme }`. */
  datatype ThemeState = ThemeState(selectedTheme: string)

  /** An action `{ type }`; a `type` that is not a string compares unequal
      to both case labels, so it behaves like any other unknown string. */
  datatype ThemeAction = ThemeAction(kind: string)

  /** The state the provider starts from: the dark theme. */
  const InitialState := ThemeState(Dark)

  /** The state an action installs, if it is one of the two mode actions. */
  function ModeOf(a: ThemeAction): (r: Option<ThemeState>)
    ensures r.Some? <==> a.kind == "LIGHTMODE" || a.kind == "DARKMODE"
    ensures r.Some? ==> r.value.selectedTheme in {Dark, Light}
  {
    if a.kind == "LIGHTMODE" then Some(ThemeState(Light))
    else if a.kind == "DARKMODE" then Some(ThemeState(Dark))
    else None
  }

  /** `themeReducer(state, action)`: `LIGHTMODE` selects the light theme,
      `DARKMODE` the dark one, and any other action returns the state as it
      is. */
  function Reduce(state: ThemeState, a: ThemeAction): (r: ThemeState)
    ensures a.kind == "LIGHTMODE" ==> r.selectedTheme == Light
    ensures a.kind == "DARKMODE" ==> r.selectedTheme == Dark
    ensures a.kind != "LIGHTMODE" && a.kind != "DARKMODE" ==> r == state
  {
    match a.kind
    case "LIGHTMODE" => ThemeState(Light)
    case "DARKMODE" => ThemeState(Dark)
    case _ => state
  }

  /** The state after dispatching `actions` in order. */
  function ReduceAll(state: ThemeState, actions: seq<ThemeAction>): ThemeState
    decreases |actions|
  {
    if actions == [] then state else ReduceAll(Reduce(state, actions[0]), actions[1..])
  }

  /** The mode action latest in `actions`, if any: a reference definition
      read from the end of the sequence. */
  function LastMode(actions: seq<ThemeAction>): (r: Option<ThemeState>)
    ensures r.Some? ==> r.value.selectedTheme in {Dark, Light}
    decreases |actions|
  {
    if actions == [] then None
    else
      var last := actions[|actions| - 1];
      if ModeOf(last).Some? then ModeOf(last) else LastMode(actions[..|actions| - 1])
  }

  /** Dispatching the same action twice is the same as dispatching it once. */
  lemma ReduceIdempotent(state: ThemeState, a: ThemeAction)
    ensures Reduce(Reduce(state, a), a) == Reduce(state, a)
  {
  }

  lemma {:induction false} ReduceAllSnoc(state: ThemeState, actions: seq<ThemeAction>, a: ThemeAction)
    ensures ReduceAll(state, actions + [a]) == Reduce(ReduceAll(state, actions), a)
    decreases |actions|
  {
    if actions == [] {
      assert [] + [a] == [a];
    } else {
      assert (actions + [a])[1..] == actions[1..] + [a];
      ReduceAllSnoc(Reduce(state, actions[0]), actions[1..], a);
    }
  }

  /** The theme after a sequence of dispatches is the one the latest mode
      action selects; when there is none, the state is unchanged. */
  lemma {:induction false} LatestModeWins(state: ThemeState, actions: seq<ThemeAction>)
    ensures ReduceAll(state, actions) == (match LastMode(actions) case Some(s) => s case None => state)
    decreases |actions|
  {
    if actions != [] {
      var init, last := actions[..|actions| - 1], actions[|actions| - 1];
      assert actions == init + [last];
      ReduceAllSnoc(state, init, last);
      LatestModeWins(state, init);
    }
  }

  /** From the initial state, the selected theme is always one of the two
      themes, whatever is dispatched. */
  lemma ReachableThemes(actions: seq<ThemeAction>)
    ensures ReduceAll(InitialState, actions).selectedTheme in {Dark, Light}
  {
    LatestModeWins(InitialState, actions);
  }
}
