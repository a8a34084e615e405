# Root component of the 18xx web client: route dispatch, game loading, history sync

This project models the decision logic of `App`, the root component of the 18xx
board-game web client (`assets/app/app.rb`), and proves properties of that model in
Dafny. There are three pieces.

- **Page dispatch** (`render_content`). The route string is tested against unanchored
  patterns in a fixed order: `new_game`, `game|hotseat|tutorial`, `signup`, `login`,
  `profile`, `forgot`, `reset`, `about`, `tiles`, `map`. The first pattern that matches
  picks the page; a route that matches none shows Home. In the model the `case` is a
  table of rules (`Pages.Rules`) with a first-match search over it.
- **Game reference and load decision** (`render_game`).
  - The regular expression `(hotseat|game)/((hs.*_)?\d+)` is modelled as a matcher.
    It tries start positions from left to right and, at each one, backtracks as a
    regex engine does: the greedy `.*` is tried longest first, then the greedy `\d+`.
  - The matcher is proved to return the leftmost match. The id it returns is the
    longest prefix, after the slash, that is in the language of `(hs.*_)?\d+`.
  - The decision returns the game-manager calls as values (`EnterTutorial`,
    `EnterGame(id, mode, pin)`, `EnterGameWith(data)`), plus whether the game or the
    "Loading game..." placeholder is shown.
  - Reading `match[2]` after a failed match raises `NoMethodError` in Ruby. The model
    returns that case as `Failure(NoGameId)`.
- **History synchronisation** (`js_handlers`, `on_hash_change`, `store_app_route`).
  - The functions of module `History` act on a snapshot. The snapshot holds the
    component's route and game data, plus the browser window: whether
    `window.onpopstate` is set, the location string (`pathname + hash + search`) and
    the entries pushed with `history.pushState`.
  - Class `Root.App` holds the same state as fields. Its methods update those fields,
    and their postconditions tie the new state to these functions.

Modules: `Wrappers` (Option, Result), `Text` (substring test, digits), `Pages`,
`GameRoute`, `GameLoad`, `History` and `Root`. Concrete examples live in `PagesExamples`,
`GameRouteExamples` and `GameLoadExamples`.

Two behaviours of `render_game` follow directly from the code and are worth naming.
- It tests for `tutorial` only when it holds no game data; then it calls `enter_tutorial`,
  even when the route also names a game. With data that is neither loaded nor loading it
  calls `enter_game` with the id from the match, so a `/tutorial` route raises there
  (`TutorialWithIdleDataFails`).
- A route the pattern does not match makes `match[2]` raise `NoMethodError` whenever a load
  is requested; the model returns `Failure(NoGameId)` in that case.

## Model

| member | source | states |
|---|---|---|
| Text.ContainsIff | assets/app/app.rb:49-69 | the left-to-right scan that stands for an unanchored literal pattern (`when /login/`) succeeds exactly when the word occurs at some index of the route |
| Text.DigitRun | assets/app/app.rb:85 | the greedy `\d+` takes a run of digits that is followed by a non-digit or the end of the route |
| Pages.FirstMatch | assets/app/app.rb:48-72 | the arm found is one that matches, every earlier arm fails, and the result is past the end only when no arm matches |
| Pages.SelectPage | assets/app/app.rb:48-72 | Home is shown exactly when no arm matches; otherwise the page is that of the first arm that matches |
| Pages.SelectedIff | assets/app/app.rb:48-72 | a given page other than Home is shown exactly when its arm matches and no earlier arm does |
| Pages.NewGameWins | assets/app/app.rb:50-51 | the create-game page is shown exactly when the route contains `new_game` |
| Pages.NewGameContainsGame | assets/app/app.rb:50-53 | every route containing `new_game` also contains `game`, so only the order of the arms picks the create-game page |
| Pages.GameFamilyWins | assets/app/app.rb:52-53 | the game page is shown exactly when the route contains `game`, `hotseat` or `tutorial` and not `new_game`, whatever later words it also holds |
| Pages.HomeIffNoWord | assets/app/app.rb:70-71 | Home is shown exactly when none of the listed words occurs in the route |
| PagesExamples.UnknownRouteIsHome | assets/app/app.rb:70-71 | `/unknown/xyz` shows Home |
| PagesExamples.NewGameExample | assets/app/app.rb:50-51 | `/new_game` shows the create-game page |
| PagesExamples.GameBeatsLoginExample | assets/app/app.rb:52-57 | `/game/5/login` shows the game page, not the login form |
| GameRoute.HsSplitFrom | assets/app/app.rb:85 | the backtracking `.*` of `(hs.*_)?` ends at the LAST `_` that digits follow and that no line terminator precedes; none is found only when there is no such `_` |
| GameRoute.IdAt | assets/app/app.rb:85 | the second capture is a prefix of the text after the slash |
| GameRoute.IdAtIsLongestPrefix | assets/app/app.rb:85 | the second capture is in the language `(hs.*_)?\d+` and is the longest prefix after the slash that is; there is none exactly when no prefix is in the language |
| GameRoute.WordAt | assets/app/app.rb:85 | the alternation of the two words before the slash matches at the start of the text with the word it reports followed by a slash, and reports nothing only when neither `hotseat/` nor `game/` begins the text |
| GameRoute.MatchAt | assets/app/app.rb:85 | a match tried at a position starts at that position |
| GameRoute.MatchAtSound | assets/app/app.rb:85 | what the matcher finds at a position is `hotseat/` or `game/` followed by the id, with the id in the language |
| GameRoute.MatchAtComplete | assets/app/app.rb:85 | every match of the expression at a position is found there, with the same first capture, and ends no later than the one found |
| GameRoute.ExtractFrom | assets/app/app.rb:85 | the scan from a position returns a match that starts at or after that position and inside the route |
| GameRoute.ExtractFromLeftmost | assets/app/app.rb:85 | the scan returns what the matcher finds at the first position, from the given one on, where it succeeds; it returns nothing exactly when the matcher fails at every position up to the end of the route |
| GameRoute.ExtractIsFirstFound | assets/app/app.rb:85 | when the matcher fails at every position before `p` and succeeds at `p`, `route.match` returns what it finds at `p` |
| GameRoute.Extract | assets/app/app.rb:85 | no ensures of its own: `route.match` as the scan from position 0; see `GameRoute.ExtractIsLeftmostLongest` and `GameRoute.ExtractFromLeftmost` |
| GameRoute.ExtractIsLeftmostLongest | assets/app/app.rb:85 | `route.match` gives the leftmost match of the expression with its longest id; there is none exactly when the expression matches nowhere in the route |
| GameRouteExamples.NoWordNoMatch | assets/app/app.rb:85 | a route without `hotseat/` and without `game/` has no match |
| GameRouteExamples.MultiplayerExample | assets/app/app.rb:85 | `/game/42` gives first capture `game` and id `42` |
| GameRouteExamples.HotseatExample | assets/app/app.rb:85 | `/hotseat/hs_abc_7` gives first capture `hotseat` and id `hs_abc_7` |
| GameRouteExamples.GreedyExample | assets/app/app.rb:85 | `/hotseat/hs_1_2` gives id `hs_1_2`, because the `.*` is greedy |
| GameRouteExamples.TutorialHasNoId | assets/app/app.rb:85 | `/tutorial` has no match |
| GameLoad.ModeOf | assets/app/app.rb:91 | the mode is multiplayer (`:muti`) exactly when the first capture is `game` |
| GameLoad.RequestFor | assets/app/app.rb:91 | `enter_game` is called with the id and mode of the route's match and the component's pin; it fails exactly when the route has no match |
| GameLoad.Flag | assets/app/app.rb:93 | no ensures of its own: `data[key]` as a Ruby condition, true exactly when the key is present with a value other than `nil` and `false`; used by `GameLoad.RenderGame` |
| GameLoad.NeedsLoad | assets/app/app.rb:87-93 | no ensures of its own: a load is requested with no data, or with data neither loaded nor loading; see `GameLoad.RenderGame` |
| GameLoad.RenderGame | assets/app/app.rb:84-101 | the render fails exactly when a request is needed, the tutorial case does not apply and the route has no match. With no data and `tutorial` in the route the calls are exactly `[enter_tutorial]`, whatever id the route names. With no data, no `tutorial` and a match they are exactly one `enter_game` for the match's id and mode with the pin. With data neither loaded nor loading and a match they are exactly that `enter_game` followed by `enter_game(@game_data)`. With data loading or loaded there are no calls. The game is shown exactly when the data is loaded, otherwise the placeholder |
| GameLoadExamples.MultiplayerRequest | assets/app/app.rb:87-91 | `/game/42` with no data requests game `42` in multiplayer mode and shows the placeholder |
| GameLoadExamples.HotseatRequest | assets/app/app.rb:87-91 | `/hotseat/hs_abc_7` with no data requests game `hs_abc_7` in hotseat mode |
| GameLoadExamples.TutorialRequest | assets/app/app.rb:87-89 | `/tutorial` with no data enters the tutorial |
| GameLoadExamples.TutorialBeatsId | assets/app/app.rb:87-89 | `/game/5/tutorial` with no data enters the tutorial and requests no game, because `tutorial` is tested before the match is read |
| GameLoadExamples.TutorialWithIdleDataFails | assets/app/app.rb:93-94 | `/tutorial` with data neither loaded nor loading reads a failed match and raises |
| GameLoadExamples.LoadScenario | assets/app/app.rb:84-100 | `/game/7` with no data requests game 7 and shows the placeholder; with data marked loaded it requests nothing and shows the game |
| History.StoreAppRoute | assets/app/app.rb:126-128 | no ensures of its own: `store_app_route` on a snapshot; see `History.StoreNeverEmpty` |
| History.Install | assets/app/app.rb:107-110 | no ensures of its own: the first half of `js_handlers`; see `History.InstallOnce` |
| History.PushIfMoved | assets/app/app.rb:112-116 | no ensures of its own: the second half of `js_handlers`; see `History.PushIff` |
| History.JsHandlers | assets/app/app.rb:103-117 | no ensures of its own: `js_handlers` as the install step then the push step; see `History.JsHandlersIdempotent` |
| History.StateHash | assets/app/app.rb:121 | no ensures of its own: `Hash.new(state)` gives the pushed hash, or an empty hash for `null`; see `History.PushThenPopRoundTrip` |
| History.OnHashChange | assets/app/app.rb:120-123 | no ensures of its own: `on_hash_change` adopts a non-empty event state as game data, then re-reads the route; see `History.PopstateDoesNotPush` and `History.PushThenPopRoundTrip` |
| History.StoreNeverEmpty | assets/app/app.rb:126-128 | an empty location is never stored: the route is unchanged when the location is empty and becomes the location otherwise; nothing else changes |
| History.InstallOnce | assets/app/app.rb:107-110 | the handler is installed once: a second install is a no-op, an installed window is untouched, and installing records a non-empty location as the route and keeps the route at an empty one, without pushing |
| History.PushIff | assets/app/app.rb:112-116 | an entry `(game data, route, route)` is appended exactly when the location differs from the route; otherwise the history is unchanged; afterwards the location shows the route |
| History.JsHandlersIdempotent | assets/app/app.rb:103-117 | after `js_handlers` the handler is installed and location equals route, so a second run changes nothing and two runs push at most one entry |
| History.OnHashChangeOnlyNonEmpty | assets/app/app.rb:120-128 | a popstate event replaces the game data exactly when its state is a non-empty hash (`null` and `{}` keep the data); the route becomes a non-empty location and stays put at an empty one; the handler flag, the location and the pushed entries are untouched |
| History.PopstateDoesNotPush | assets/app/app.rb:120-124 | after a popstate event at a non-empty location, the next render pushes nothing and the route is that location |
| History.PushThenPopRoundTrip | assets/app/app.rb:115 | returning to a pushed entry gives back the route that pushed it, and its game data when that data was non-empty |
| Root.App.constructor | assets/app/app.rb:20-24 | a fresh component holds the given route and pin, no game data, and sees a window with no handler and no pushed entries |
| Root.App.StoreAppRoute | assets/app/app.rb:126-129 | the new state is `History.StoreAppRoute` of the old one; a non-empty route never becomes empty |
| Root.App.OnHashChange | assets/app/app.rb:120-124 | the new state is `History.OnHashChange` of the old one; the route equals a non-empty location afterwards |
| Root.App.JsHandlers | assets/app/app.rb:103-118 | the new state is `History.JsHandlers` of the old one: the handler is installed, location equals route, and at most one entry was appended to the old history |
| Root.App.RenderContent | assets/app/app.rb:42-72 | synchronises history first, then shows the page the synchronised route selects; the load decision is taken exactly on the game page |
| Root.RenderTwice | assets/app/app.rb:103-117 | two renders with no navigation in between leave the state one render leaves, with at most one new history entry |

## Left out

- Rendering is left out: `h(...)`, props, styles and the view components (`assets/app/app.rb:26-40`, `74-81`). Pages are an enumeration.
- `Lib::Connection`, `refresh_user` and UserManager (`assets/app/app.rb:43-45`) are network and session plumbing and are not modelled.
- GameManager's `enter_game` and `enter_tutorial` are calls into code outside this model. They appear as returned action values.
- GameLoad.RenderGame: decides the view from the game data held when `render_game` starts. Any change that `enter_game` makes to `@game_data` during the same call happens inside the game manager, which is not part of this model.
- Load-state transitions other than the requests above (a load resolving or failing, retrying, discarding data when the route changes) are not in `app.rb`; they belong to the game manager, which is not part of this model.
- `store(..., skip:)` is an assignment here. When the framework schedules the re-render is not modelled.
- The browser is abstracted to a location string and a list of pushed entries. `pushState` sets the location to its URL exactly, with no URL normalisation. Back and forward navigation belongs to the browser: the caller sets `location` before calling `OnHashChange`.
- The game data crosses `pushState` unchanged: `@game_data.to_n`, the browser's copy of the state, and `Hash.new(state)` are taken together to give back the same hash, so `Entry.state` holds the `GameData` itself. This holds for string-keyed JSON data; other values, such as symbol keys or objects that do not survive a structured clone, are not modelled.
- `window.onpopstate` is a property of the window. The model keeps it as a field of the component's snapshot, so a second component mounted in the same window is not modelled.
- The regular expression engine in general is left out. Only the one extraction pattern is modelled, with JavaScript's `.` (any character except `\n`, `\r`, U+2028, U+2029), since the client runs compiled to JavaScript. Substring patterns are case-sensitive, as written.
- The route is always a string. A `nil` `@app_route` before the first store comes from the caller of the component, which is not part of this model.
- `disable_user_errors` and the user passed to the views only affect rendering, so they are not modelled.
