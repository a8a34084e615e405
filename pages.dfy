/**
 * Page dispatch of the root component (`App#render_content`): the route is
 * tested against unanchored patterns in a fixed order, the first pattern
 * that matches picks the page, and a route that matches none shows Home.
 */
module Pages {
  import opened Text

  datatype UserForm = Signup | Login | Profile

  /** The page kinds `render_content` chooses between. */
  datatype Page =
    | CreateGame
    | Game
    | User(form: UserForm)
    | Forgot
    | Reset
    | About
    | Tiles
    | Map
    | Home

  /** One `when` arm: a regular expression that is an alternation of literal words. */
  datatype Rule = Rule(alternatives: seq<string>, page: Page)

  /** The arms of the `case`, in the order they are tested. */
  const Rules: seq<Rule> := [
    Rule(["new_game"], CreateGame),
    Rule(["game", "hotseat", "tutorial"], Game),
    Rule(["signup"], User(Signup)),
    Rule(["login"], User(Login)),
    Rule(["profile"], User(Profile)),
    Rule(["forgot"], Forgot),
    Rule(["reset"], Reset),
    Rule(["about"], About),
    Rule(["tiles"], Tiles),
    Rule(["map"], Map)
  ]

  /** An unanchored alternation matches when one of its words is a substring. */
  predicate Matches(rule: Rule, route: string) {
    exists i :: 0 <= i < |rule.alternatives| && Contains(route, rule.alternatives[i])
  }

  /** Index of the first rule that matches `route`, or `|rules|` when none does. */
  function FirstMatch(rules: seq<Rule>, route: string): (k: nat)
    ensures k <= |rules|
    ensures k < |rules| ==> Matches(rules[k], route)
    ensures forall j :: 0 <= j < k ==> !Matches(rules[j], route)
  {
    if rules == [] then 0
    else if Matches(rules[0], route) then 0
    else 1 + FirstMatch(rules[1..], route)
  }

  /** The page `render_content` shows for `route`. */
  function SelectPage(route: string): (p: Page)
    ensures p == Home <==> forall k :: 0 <= k < |Rules| ==> !Matches(Rules[k], route)
    ensures forall k ::
              0 <= k < |Rules| && Matches(Rules[k], route) &&
              (forall j :: 0 <= j < k ==> !Matches(Rules[j], route))
              ==> p == Rules[k].page
  {
    var k := FirstMatch(Rules, route);
    if k < |Rules| then Rules[k].page else Home
  }

  /** The arms name pairwise different pages, none of them Home. */
  lemma RulePagesDistinct()
    ensures forall i, j :: 0 <= i < j < |Rules| ==> Rules[i].page != Rules[j].page
    ensures forall i :: 0 <= i < |Rules| ==> Rules[i].page != Home
  {
  }

  /** A page other than Home is shown exactly when its arm is the first to match. */
  lemma SelectedIff(route: string, k: nat)
    requires k < |Rules|
    ensures SelectPage(route) == Rules[k].page <==>
              Matches(Rules[k], route) && forall j :: 0 <= j < k ==> !Matches(Rules[j], route)
  {
    RulePagesDistinct();
    var f := FirstMatch(Rules, route);
    if SelectPage(route) == Rules[k].page {
      assert f < |Rules|;
      assert f == k;
    }
  }

  /** Every arm but the second is a single word. */
  lemma SingleWordArm(route: string, k: nat)
    requires k < |Rules| && k != 1
    ensures |Rules[k].alternatives| == 1
    ensures Matches(Rules[k], route) <==> Contains(route, Rules[k].alternatives[0])
  {
  }

  lemma GameArm(route: string)
    ensures Matches(Rules[1], route) <==>
              Contains(route, "game") || Contains(route, "hotseat") || Contains(route, "tutorial")
  {
    var alts := Rules[1].alternatives;
    assert alts == ["game", "hotseat", "tutorial"];
    if Contains(route, "game") { assert Contains(route, alts[0]); }
    if Contains(route, "hotseat") { assert Contains(route, alts[1]); }
    if Contains(route, "tutorial") { assert Contains(route, alts[2]); }
  }

  /** `new_game` is tested first, so it wins over `game`, which it contains. */
  lemma NewGameWins(route: string)
    ensures SelectPage(route) == CreateGame <==> Contains(route, "new_game")
  {
    SelectedIff(route, 0);
    SingleWordArm(route, 0);
  }

  /** A route containing `new_game` also contains `game`: only the order decides. */
  lemma NewGameContainsGame(route: string)
    requires Contains(route, "new_game")
    ensures Contains(route, "game")
  {
    assert OccursAt("new_game", "game", 4);
    ContainsAt("new_game", "game", 4);
    ContainsTrans(route, "new_game", "game");
  }

  /**
   * The game view is shown for every route that mentions `game`, `hotseat` or
   * `tutorial` and not `new_game`, whatever later word (`login`, `map`, ...)
   * it also holds.
   */
  lemma GameFamilyWins(route: string)
    ensures SelectPage(route) == Game <==>
              !Contains(route, "new_game") &&
              (Contains(route, "game") || Contains(route, "hotseat") || Contains(route, "tutorial"))
  {
    SelectedIff(route, 1);
    SingleWordArm(route, 0);
    GameArm(route);
  }

  /** None of the words of the `case` occurs in the route (`new_game` is covered by `game`). */
  predicate NoListedWord(route: string) {
    !Contains(route, "game") && !Contains(route, "hotseat") && !Contains(route, "tutorial") &&
    !Contains(route, "signup") && !Contains(route, "login") && !Contains(route, "profile") &&
    !Contains(route, "forgot") && !Contains(route, "reset") && !Contains(route, "about") &&
    !Contains(route, "tiles") && !Contains(route, "map")
  }

  /** Home is the fallback: it is shown exactly when no listed word occurs in the route. */
  lemma HomeIffNoWord(route: string)
    ensures SelectPage(route) == Home <==> NoListedWord(route)
  {
    if Contains(route, "new_game") {
      NewGameContainsGame(route);
    }
    GameArm(route);
    SingleWordArm(route, 0);
    SingleWordArm(route, 2);
    SingleWordArm(route, 3);
    SingleWordArm(route, 4);
    SingleWordArm(route, 5);
    SingleWordArm(route, 6);
    SingleWordArm(route, 7);
    SingleWordArm(route, 8);
    SingleWordArm(route, 9);
  }
}

module PagesExamples {
  import opened Text
  import opened Pages

  /** `/unknown/xyz` mentions none of the words of the `case`, so Home is shown. */
  lemma UnknownRouteIsHome(r: string)
    requires r == "/unknown/xyz"
    ensures SelectPage(r) == Home
  {
    UnknownRouteLacksFirstFive(r);
    UnknownRouteLacksLastFive(r);
    NoWordsFromChars(r);
    HomeIffNoWord(r);
  }

  lemma UnknownRouteLacksFirstFive(r: string)
    requires r == "/unknown/xyz"
    ensures 'g' !in r && 'h' !in r && 't' !in r && 's' !in r && 'l' !in r
  {
  }

  lemma UnknownRouteLacksLastFive(r: string)
    requires r == "/unknown/xyz"
    ensures 'p' !in r && 'f' !in r && 'r' !in r && 'a' !in r && 'm' !in r
  {
  }

  /** Each listed word has a character that a route lacking all of these cannot contain. */
  lemma NoWordsFromChars(r: string)
    requires 'g' !in r && 'h' !in r && 't' !in r && 's' !in r && 'l' !in r
    requires 'p' !in r && 'f' !in r && 'r' !in r && 'a' !in r && 'm' !in r
    ensures NoListedWord(r)
  {
    MissingChar(r, "game", 0);
    MissingChar(r, "hotseat", 0);
    MissingChar(r, "tutorial", 0);
    MissingChar(r, "signup", 0);
    MissingChar(r, "login", 0);
    MissingChar(r, "profile", 0);
    MissingChar(r, "forgot", 0);
    MissingChar(r, "reset", 0);
    MissingChar(r, "about", 0);
    MissingChar(r, "tiles", 0);
    MissingChar(r, "map", 0);
  }

  /** `/new_game` shows the create-game page, although it also contains `game`. */
  lemma NewGameExample(r: string)
    requires r == "/new_game"
    ensures SelectPage(r) == CreateGame
  {
    assert OccursAt(r, "new_game", 1);
    ContainsAt(r, "new_game", 1);
    NewGameWins(r);
  }

  /** A game route that also mentions `login` still shows the game. */
  lemma GameBeatsLoginExample(r: string)
    requires r == "/game/5/login"
    ensures SelectPage(r) == Game
  {
    assert OccursAt(r, "game", 1);
    ContainsAt(r, "game", 1);
    assert 'w' !in r;
    MissingChar(r, "new_game", 2);
    GameFamilyWins(r);
  }
}
