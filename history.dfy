/**
 * History synchronisation of the root component (`App#js_handlers`,
 * `App#on_hash_change`, `App#store_app_route`), stated as functions on a
 * snapshot of the component's route and game data and of the browser window:
 * whether `window.onpopstate` is set, the location string
 * (`pathname + hash + search`) and the entries pushed with `history.pushState`.
 */
module History {
  import opened Wrappers
  import opened GameLoad

  /** `history.pushState(state, title, url)`: the state is the game data, or `null`. */
  datatype Entry = Entry(state: Option<GameData>, title: string, url: string)

  datatype Snapshot = Snapshot(
    route: string,            // @app_route
    data: Option<GameData>,   // @game_data
    installed: bool,          // window.onpopstate is set
    location: string,         // window.location.pathname + hash + search
    history: seq<Entry>)      // the entries pushed so far

  /** `store_app_route`: copy the location into the route, unless the location is empty. */
  function StoreAppRoute(s: Snapshot): Snapshot {
    if s.location == "" then s else s.(route := s.location)
  }

  /** First half of `js_handlers`: install the popstate handler once, recording the location. */
  function Install(s: Snapshot): Snapshot {
    if s.installed then s else StoreAppRoute(s.(installed := true))
  }

  /**
   * Second half of `js_handlers`: push `(data, route, route)` when the
   * location differs from the route; the browser then shows the route.
   */
  function PushIfMoved(s: Snapshot): Snapshot {
    if s.location != s.route then
      s.(history := s.history + [Entry(s.data, s.route, s.route)], location := s.route)
    else
      s
  }

  /** `js_handlers`, run on every render. */
  function JsHandlers(s: Snapshot): Snapshot {
    PushIfMoved(Install(s))
  }

  /**
   * `Hash.new(state)` for the state of a popstate event: the pushed hash, or
   * an empty one for `null`.
   */
  function StateHash(state: Option<GameData>): GameData {
    if state.Some? then state.value else map[]
  }

  /** `on_hash_change(state)`: adopt a non-empty event state as game data, then re-read the route. */
  function OnHashChange(s: Snapshot, state: Option<GameData>): Snapshot {
    var hash := StateHash(state);
    StoreAppRoute(if |hash| > 0 then s.(data := Some(hash)) else s)
  }

  // ---------------------------------------------------------------------------
  // Properties.

  /** The route is never overwritten with an empty location: an empty route only stays empty. */
  lemma StoreNeverEmpty(s: Snapshot)
    ensures StoreAppRoute(s).route == "" ==> s.route == ""
    ensures s.location == "" ==> StoreAppRoute(s) == s
    ensures s.location != "" ==> StoreAppRoute(s).route == s.location
    ensures StoreAppRoute(s).(route := s.route) == s
  {
  }

  /**
   * The handler is installed once: a second install changes nothing, an
   * installed window is left alone, and installing records a non-empty
   * location as the route without pushing anything.
   */
  lemma InstallOnce(s: Snapshot)
    ensures Install(s).installed
    ensures Install(Install(s)) == Install(s)
    ensures s.installed ==> Install(s) == s
    ensures !s.installed && s.location != "" ==> Install(s).route == s.location
    ensures Install(s).history == s.history && Install(s).location == s.location
    ensures Install(s).data == s.data
    ensures !s.installed && s.location == "" ==> Install(s).route == s.route
  {
  }

  /**
   * A history entry is pushed exactly when the location differs from the
   * route; it carries the game data and the route, and afterwards the
   * location shows the route.
   */
  lemma PushIff(s: Snapshot)
    ensures var t := PushIfMoved(s);
            s.history <= t.history && t.location == t.route &&
            t.route == s.route && t.data == s.data && t.installed == s.installed &&
            (s.location != s.route <==> |t.history| == |s.history| + 1) &&
            (s.location == s.route <==> t.history == s.history) &&
            (s.location != s.route ==> t.history[|s.history|] == Entry(s.data, s.route, s.route))
  {
  }

  /**
   * After `js_handlers` the handler is installed and the location equals the
   * route, so running it again with no route change does nothing: two runs
   * push at most one entry.
   */
  lemma JsHandlersIdempotent(s: Snapshot)
    ensures JsHandlers(s).installed && JsHandlers(s).location == JsHandlers(s).route
    ensures JsHandlers(JsHandlers(s)) == JsHandlers(s)
    ensures s.history <= JsHandlers(s).history && |JsHandlers(s).history| <= |s.history| + 1
  {
    InstallOnce(s);
    PushIff(Install(s));
  }

  /**
   * A popstate event adopts its state as game data only when that state is a
   * non-empty hash (`null` and `{}` leave the data alone), keeps the route at
   * an empty location, and leaves the window untouched.
   */
  lemma OnHashChangeOnlyNonEmpty(s: Snapshot, state: Option<GameData>)
    ensures state.None? || |state.value| == 0 ==> OnHashChange(s, state).data == s.data
    ensures state.Some? && |state.value| > 0 ==> OnHashChange(s, state).data == state
    ensures s.location == "" ==> OnHashChange(s, state).route == s.route
    ensures s.location != "" ==> OnHashChange(s, state).route == s.location
    ensures var t := OnHashChange(s, state);
            t.installed == s.installed && t.location == s.location && t.history == s.history
  {
  }

  /**
   * A popstate event that leaves a non-empty location never leads the next
   * render to push: the route was just read from that location.
   */
  lemma PopstateDoesNotPush(s: Snapshot, state: Option<GameData>)
    requires s.location != ""
    ensures JsHandlers(OnHashChange(s, state)).history == s.history
    ensures JsHandlers(OnHashChange(s, state)).route == s.location
  {
    var t := OnHashChange(s, state);
    assert t.route == t.location == s.location;
    InstallOnce(t);
  }

  /**
   * Pushing and coming back: when the browser returns to an entry that a
   * render pushed and fires popstate with its state, the component gets back
   * the route of that render, and its game data when that data was non-empty.
   */
  lemma PushThenPopRoundTrip(s: Snapshot, later: Snapshot)
    requires s.route != "" && s.location != s.route
    requires later.location == PushIfMoved(s).history[|s.history|].url
    ensures var back := OnHashChange(later, PushIfMoved(s).history[|s.history|].state);
            back.route == s.route &&
            (s.data.Some? && |s.data.value| > 0 ==> back.data == s.data) &&
            (s.data.None? ==> back.data == later.data)
  {
    PushIff(s);
  }
}

/** The root component with the state the three handlers touch. */
module Root {
  import opened Wrappers
  import opened Pages
  import opened GameLoad
  import H = History

  class App {
    var appRoute: string
    var gameData: Option<GameData>
    const pin: Option<string>

    // The browser window.
    var popstateInstalled: bool
    var location: string
    var history: seq<H.Entry>

    ghost function State(): H.Snapshot
      reads this
    {
      H.Snapshot(appRoute, gameData, popstateInstalled, location, history)
    }

    /** A component mounted on `route` in a window at `location` with no handler yet. */
    constructor(route: string, pin: Option<string>, location: string)
      ensures State() == H.Snapshot(route, None, false, location, []) && this.pin == pin
    {
      appRoute := route;
      gameData := None;
      this.pin := pin;
      popstateInstalled := false;
      this.location := location;
      history := [];
    }

    method StoreAppRoute()
      modifies this
      ensures State() == H.StoreAppRoute(old(State()))
      ensures appRoute == "" ==> old(appRoute) == ""
    {
      var windowRoute := location;
      if windowRoute != "" {
        appRoute := windowRoute;
      }
    }

    method OnHashChange(state: Option<GameData>)
      modifies this
      ensures State() == H.OnHashChange(old(State()), state)
      ensures location != "" ==> appRoute == location
    {
      var hash := if state.Some? then state.value else map[];
      if |hash| > 0 {
        gameData := Some(hash);
      }
      StoreAppRoute();
    }

    method JsHandlers()
      modifies this
      ensures State() == H.JsHandlers(old(State()))
      ensures popstateInstalled && location == appRoute
      ensures old(history) <= history && |history| <= |old(history)| + 1
    {
      if !popstateInstalled {
        popstateInstalled := true;
        StoreAppRoute();
      }
      if location != appRoute {
        history := history + [H.Entry(gameData, appRoute, appRoute)];
        location := appRoute;
      }
      H.JsHandlersIdempotent(old(State()));
    }

    /**
     * `render_content` without the rendering: synchronise with the window,
     * pick the page for the route and, on the game page, take the load decision.
     */
    method RenderContent() returns (page: Page, game: Option<Result<GameRender, RenderError>>)
      modifies this
      ensures State() == H.JsHandlers(old(State()))
      ensures page == SelectPage(appRoute)
      ensures game.Some? <==> page == Game
      ensures game.Some? ==> game.value == RenderGame(appRoute, gameData, pin)
    {
      JsHandlers();
      page := SelectPage(appRoute);
      if page == Game {
        game := Some(RenderGame(appRoute, gameData, pin));
      } else {
        game := None;
      }
    }
  }

  /** Two renders with no navigation in between push at most one history entry. */
  method RenderTwice(app: App)
    modifies app
    ensures app.State() == H.JsHandlers(old(app.State()))
    ensures |app.history| <= |old(app.history)| + 1
  {
    var page1, game1 := app.RenderContent();
    var page2, game2 := app.RenderContent();
    H.JsHandlersIdempotent(old(app.State()));
  }
}
