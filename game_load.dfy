/**
 * The load decision of `App#render_game`: from the route and the game data
 * the component holds, which load requests go out to the game manager and
 * whether the game or the "Loading game..." placeholder is shown.
 */
module GameLoad {
  import opened Wrappers
  import opened Text
  import opened GameRoute

  /** A value of the game-data hash, as far as a Ruby condition can tell it apart. */
  datatype Value = Nil | Bool(b: bool) | Other(text: string)

  /** The game-data hash; its `loaded` and `loading` entries drive the decision. */
  type GameData = map<string, Value>

  /** Ruby truthiness: everything but `nil` and `false`. */
  predicate Truthy(v: Value) {
    v != Nil && v != Bool(false)
  }

  /** `data[key]` used as a condition; a missing key reads as `nil`. */
  predicate Flag(data: GameData, key: string) {
    key in data && Truthy(data[key])
  }

  /** The `mode:` argument of `enter_game`; the code spells the first one `:muti`. */
  datatype Mode = Multi | Hotseat

  /** `match[1] == 'game' ? :muti : :hotseat`. */
  function ModeOf(k: Kind): (m: Mode)
    ensures m == Multi <==> Word(k) == "game"
  {
    if k == GameWord then Multi else Hotseat
  }

  /** The calls into the game manager that `render_game` makes. */
  datatype Action =
    | EnterTutorial
    | EnterGame(id: string, mode: Mode, pin: Option<string>)
    | EnterGameWith(data: GameData)

  datatype View = LoadingPlaceholder | GameView

  datatype GameRender = GameRender(actions: seq<Action>, view: View)

  /** `match[2]` on a failed match: Ruby raises NoMethodError on `nil`. */
  datatype RenderError = NoGameId

  /** A load is requested when there is no data, or data neither loaded nor loading. */
  predicate NeedsLoad(data: Option<GameData>) {
    data.None? || (!Flag(data.value, "loaded") && !Flag(data.value, "loading"))
  }

  /** `enter_game(id: match[2], mode: ..., pin: @pin)`, or the error of reading a failed match. */
  function RequestFor(route: string, pin: Option<string>): (r: Result<Action, RenderError>)
    ensures r.Failure? <==> Extract(route).None?
    ensures r.Success? ==>
              r.value.EnterGame? && r.value.id == Extract(route).value.id &&
              r.value.mode == ModeOf(Extract(route).value.kind) && r.value.pin == pin
  {
    match Extract(route)
    case None => Failure(NoGameId)
    case Some(m) => Success(EnterGame(m.id, ModeOf(m.kind), pin))
  }

  /** What `render_game` does for `route` when the component holds `data`. */
  function RenderGame(route: string, data: Option<GameData>, pin: Option<string>): (r: Result<GameRender, RenderError>)
    // It fails exactly when it must request a game and the route names none.
    ensures r.Failure? <==>
              NeedsLoad(data) && !(data.None? && Contains(route, "tutorial")) && Extract(route).None?
    // The game is shown exactly when the data says it is loaded.
    ensures r.Success? ==> (r.value.view == GameView <==> data.Some? && Flag(data.value, "loaded"))
    // Something is requested exactly when a load is needed, and never more than two calls.
    ensures r.Success? ==> (r.value.actions != [] <==> NeedsLoad(data)) && |r.value.actions| <= 2
    // The tutorial is entered only when there is no data and the route mentions it.
    ensures r.Success? && EnterTutorial in r.value.actions ==> data.None? && Contains(route, "tutorial")
    // Every game request is for the game the route names, in its mode, with the component's pin.
    ensures r.Success? ==>
              forall a :: a in r.value.actions && a.EnterGame? ==>
                Extract(route).Some? && a == EnterGame(Extract(route).value.id, ModeOf(Extract(route).value.kind), pin)
    // Data is handed back to the game manager only together with a fresh request for it.
    ensures r.Success? ==>
              forall a :: a in r.value.actions && a.EnterGameWith? ==>
                data.Some? && a.data == data.value && |r.value.actions| == 2 && r.value.actions[0].EnterGame?
    // With no data, `tutorial` in the route wins over any id the route also names.
    ensures data.None? && Contains(route, "tutorial") ==>
              r == Success(GameRender([EnterTutorial], LoadingPlaceholder))
    // With no data and no `tutorial`, one request for the route's game.
    ensures data.None? && !Contains(route, "tutorial") && Extract(route).Some? ==>
              r == Success(GameRender(
                     [EnterGame(Extract(route).value.id, ModeOf(Extract(route).value.kind), pin)],
                     LoadingPlaceholder))
    // With data neither loaded nor loading, the request is followed by handing the data back.
    ensures data.Some? && NeedsLoad(data) && Extract(route).Some? ==>
              r == Success(GameRender(
                     [EnterGame(Extract(route).value.id, ModeOf(Extract(route).value.kind), pin),
                      EnterGameWith(data.value)],
                     LoadingPlaceholder))
    // With data loading or loaded, nothing is requested.
    ensures !NeedsLoad(data) ==>
              r == Success(GameRender([], if Flag(data.value, "loaded") then GameView else LoadingPlaceholder))
  {
    var view := if data.Some? && Flag(data.value, "loaded") then GameView else LoadingPlaceholder;
    if data.None? then
      if Contains(route, "tutorial") then
        Success(GameRender([EnterTutorial], view))
      else
        match RequestFor(route, pin)
        case Failure(e) => Failure(e)
        case Success(a) => Success(GameRender([a], view))
    else if !Flag(data.value, "loaded") && !Flag(data.value, "loading") then
      match RequestFor(route, pin)
      case Failure(e) => Failure(e)
      case Success(a) => Success(GameRender([a, EnterGameWith(data.value)], view))
    else
      Success(GameRender([], view))
  }
}

module GameLoadExamples {
  import opened Wrappers
  import opened Text
  import opened GameRoute
  import opened GameRouteExamples
  import opened GameLoad

  /** `/game/42` with no data: one multiplayer request for game 42, and the placeholder. */
  lemma MultiplayerRequest(r: string, pin: Option<string>)
    requires r == "/game/42"
    ensures RenderGame(r, None, pin) ==
              Success(GameRender([EnterGame("42", Multi, pin)], LoadingPlaceholder))
  {
    MultiplayerExample(r);
    MissingChar(r, "tutorial", 0);
  }

  /** `/hotseat/hs_abc_7` with no data: one hotseat request for the whole `hs_abc_7` id. */
  lemma HotseatRequest(r: string, pin: Option<string>)
    requires r == "/hotseat/hs_abc_7"
    ensures RenderGame(r, None, pin) ==
              Success(GameRender([EnterGame("hs_abc_7", Hotseat, pin)], LoadingPlaceholder))
  {
    HotseatExample(r);
    HotseatRouteIsNotTutorial(r);
  }

  lemma HotseatRouteIsNotTutorial(r: string)
    requires r == "/hotseat/hs_abc_7"
    ensures !Contains(r, "tutorial")
  {
    assert 'u' !in r;
    MissingChar(r, "tutorial", 1);
  }

  /** `/tutorial` with no data enters the tutorial, although the route names no game. */
  lemma TutorialRequest(pin: Option<string>)
    ensures RenderGame("/tutorial", None, pin) == Success(GameRender([EnterTutorial], LoadingPlaceholder))
  {
    assert OccursAt("/tutorial", "tutorial", 1);
    ContainsAt("/tutorial", "tutorial", 1);
  }

  /** With no data, a route that names a game and mentions `tutorial` enters the tutorial. */
  lemma TutorialBeatsId(r: string, pin: Option<string>)
    requires r == "/game/5/tutorial"
    ensures RenderGame(r, None, pin) == Success(GameRender([EnterTutorial], LoadingPlaceholder))
  {
    assert OccursAt(r, "tutorial", 8);
    ContainsAt(r, "tutorial", 8);
  }

  /**
   * `/tutorial` with data that is neither loaded nor loading: the tutorial
   * test is skipped and reading the failed match raises.
   */
  lemma TutorialWithIdleDataFails(data: GameData, pin: Option<string>)
    requires !Flag(data, "loaded") && !Flag(data, "loading")
    ensures RenderGame("/tutorial", Some(data), pin) == Failure(NoGameId)
  {
    TutorialHasNoId();
  }

  lemma SevenAtOne(r: string)
    requires r == "/game/7"
    ensures MatchAt(r, 1) == Some(GameLink(1, GameWord, "7"))
  {
    var rest := r[1..];
    assert rest == "game/7" && !("hotseat/" <= rest) && "game/" <= rest;
    assert rest[5..] == "7";
    assert HsSplitFrom("7", -1).None?;
    assert DigitRun("7") == 1;
    assert "7"[..1] == "7";
  }

  /**
   * Route `/game/7` with no data requests game 7 and shows the placeholder;
   * once the data reports `loaded`, the same route shows the game and requests nothing.
   */
  lemma LoadScenario(r: string, pin: Option<string>, loaded: GameData)
    requires r == "/game/7"
    requires Flag(loaded, "loaded")
    ensures RenderGame(r, None, pin) == Success(GameRender([EnterGame("7", Multi, pin)], LoadingPlaceholder))
    ensures RenderGame(r, Some(loaded), pin) == Success(GameRender([], GameView))
  {
    SlashStart(r);
    SevenAtOne(r);
    ExtractIsFirstFound(r, 1);
    MissingChar(r, "tutorial", 0);
  }
}
