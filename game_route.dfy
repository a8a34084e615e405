/**
 * The game reference that `App#render_game` pulls out of the route with the
 * regular expression `(hotseat|game)/((hs.*_)?\d+)`: the leftmost position
 * where the expression matches, and there the captures a backtracking
 * matcher yields (the greedy `.*` tried longest first, then the greedy `\d+`).
 */
module GameRoute {
  import opened Wrappers
  import opened Text

  /** The first capture group: which word introduced the id. */
  datatype Kind = HotseatWord | GameWord

  function Word(k: Kind): string {
    match k
    case HotseatWord => "hotseat"
    case GameWord => "game"
  }

  /** The match: where it starts, the first capture and the second capture (the id). */
  datatype GameLink = GameLink(start: nat, kind: Kind, id: string)

  // ---------------------------------------------------------------------------
  // The language of the second capture, `(hs.*_)?\d+`, stated declaratively.

  /** `s` is `hs`, then characters other than line terminators, then `_`, then digits; `j` is the `_`. */
  ghost predicate HsSplit(s: string, j: int) {
    2 <= j < |s| - 1 && s[..2] == "hs" && s[j] == '_' &&
    NoLineTerminator(s[2..j]) && AllDigits(s[j + 1..])
  }

  /** `s` is in the language of `(hs.*_)?\d+`. */
  ghost predicate IdShape(s: string) {
    (|s| > 0 && AllDigits(s)) || exists j :: HsSplit(s, j)
  }

  // ---------------------------------------------------------------------------
  // The matcher.

  /** Position `j` of `t` can end the optional group: the `_` there is followed by a digit. */
  predicate Candidate(t: string, j: int) {
    2 <= j < |t| - 1 && t[..2] == "hs" && t[j] == '_' && IsDigit(t[j + 1]) &&
    NoLineTerminator(t[2..j])
  }

  /**
   * Backtracking of the greedy `.*`: the candidate end of the group is tried
   * from `j` downwards, and the first one that lets `\d+` match is taken.
   */
  function HsSplitFrom(t: string, j: int): (r: Option<nat>)
    ensures r.Some? ==> Candidate(t, r.value) && r.value <= j
    ensures r.Some? ==> forall k :: r.value < k <= j ==> !Candidate(t, k)
    ensures r.None? ==> forall k :: k <= j ==> !Candidate(t, k)
    decreases j
  {
    if j < 2 then None
    else if Candidate(t, j) then Some(j)
    else HsSplitFrom(t, j - 1)
  }

  /** The second capture when the expression is tried just after `hotseat/` or `game/`. */
  function IdAt(t: string): (r: Option<string>)
    ensures r.Some? ==> r.value <= t
  {
    var split := HsSplitFrom(t, |t| - 2);
    if split.Some? then
      var j := split.value;
      Some(t[..j + 1 + DigitRun(t[j + 1..])])
    else if DigitRun(t) > 0 then
      Some(t[..DigitRun(t)])
    else
      None
  }

  /**
   * The alternation `(hotseat|game)/` at the start of `rest`. The two words
   * differ in their first letter, so at most one of them can match there.
   */
  function WordAt(rest: string): (r: Option<Kind>)
    ensures r.Some? ==> Word(r.value) + "/" <= rest
    ensures r.None? ==> !("hotseat/" <= rest) && !("game/" <= rest)
  {
    if "hotseat/" <= rest then Some(HotseatWord)
    else if "game/" <= rest then Some(GameWord)
    else None
  }

  /** The expression tried at position `p` of the route. */
  function MatchAt(route: string, p: nat): (r: Option<GameLink>)
    requires p <= |route|
    ensures r.Some? ==> r.value.start == p
  {
    match WordAt(route[p..])
    case None => None
    case Some(k) =>
      match IdAt(route[p..][|Word(k)| + 1..])
      case None => None
      case Some(id) => Some(GameLink(p, k, id))
  }

  /** The leftmost match at or after position `p`. */
  function ExtractFrom(route: string, p: nat): (r: Option<GameLink>)
    requires p <= |route|
    ensures r.Some? ==> p <= r.value.start <= |route|
    decreases |route| - p
  {
    var m := MatchAt(route, p);
    if m.Some? then m
    else if p == |route| then None
    else ExtractFrom(route, p + 1)
  }

  /** The matcher fails at every position of the route from `p` up to, not including, `e`. */
  ghost predicate NoMatchIn(route: string, p: int, e: int) {
    forall q :: 0 <= p <= q < e && q <= |route| ==> MatchAt(route, q).None?
  }

  lemma NoMatchExtend(route: string, p: nat, e: int)
    requires p <= |route| && MatchAt(route, p).None? && NoMatchIn(route, p + 1, e)
    ensures NoMatchIn(route, p, e)
  {
  }

  /**
   * `ExtractFrom` returns what the matcher finds at the first position from
   * `p` on where it succeeds, and nothing exactly when it fails at every one.
   */
  lemma {:induction false} ExtractFromLeftmost(route: string, p: nat)
    requires p <= |route|
    ensures var r := ExtractFrom(route, p);
            r.Some? ==> MatchAt(route, r.value.start) == r && NoMatchIn(route, p, r.value.start)
    ensures ExtractFrom(route, p).None? <==> NoMatchIn(route, p, |route| + 1)
    decreases |route| - p
  {
    if MatchAt(route, p).None? {
      if p == |route| {
        NoMatchExtend(route, p, |route| + 1);
      } else {
        ExtractFromLeftmost(route, p + 1);
        var r := ExtractFrom(route, p);
        if r.Some? {
          NoMatchExtend(route, p, r.value.start);
        } else {
          NoMatchExtend(route, p, |route| + 1);
        }
      }
    }
  }

  /** `route.match(%r{(hotseat|game)/((hs.*_)?\d+)})`. */
  function Extract(route: string): Option<GameLink> {
    ExtractFrom(route, 0)
  }

  // ---------------------------------------------------------------------------
  // What the matcher computes, in terms of the language.

  /** What the matcher finds after the slash is in the language. */
  lemma IdAtSound(t: string)
    requires IdAt(t).Some?
    ensures IdShape(IdAt(t).value)
  {
    var id := IdAt(t).value;
    var split := HsSplitFrom(t, |t| - 2);
    if split.Some? {
      var j := split.value;
      var n := DigitRun(t[j + 1..]);
      assert id[j + 1..] == t[j + 1..][..n];
      assert id[2..j] == t[2..j];
      assert HsSplit(id, j);
    } else {
      assert id == t[..DigitRun(t)];
    }
  }

  /** An `hs..._digits` prefix of `t` ends no later than what the matcher takes. */
  lemma HsPrefixLongest(t: string, e: int, k: int)
    requires 0 <= e <= |t| && HsSplit(t[..e], k)
    ensures IdAt(t).Some? && e <= |IdAt(t).value|
  {
    var s := t[..e];
    assert s[2..k] == t[2..k];
    assert s[k + 1..][0] == t[k + 1];
    assert Candidate(t, k);
    var j := HsSplitFrom(t, |t| - 2).value;
    var n := DigitRun(t[j + 1..]);
    assert k <= j;
    assert forall i :: k + 1 <= i < e ==> IsDigit(t[i]) by {
      forall i | k + 1 <= i < e
        ensures IsDigit(t[i])
      {
        assert s[k + 1..][i - (k + 1)] == t[i];
      }
    }
    assert j + 1 + n == |t| || !IsDigit(t[j + 1 + n]) by {
      assert n == |t[j + 1..]| || t[j + 1..][n] == t[j + 1 + n];
    }
    assert !IsDigit(t[j]);
  }

  /** A prefix of digits ends no later than what the matcher takes. */
  lemma DigitPrefixLongest(t: string, e: int)
    requires 0 < e <= |t| && AllDigits(t[..e])
    ensures IdAt(t).Some? && e <= |IdAt(t).value|
  {
    assert t[..e][0] == t[0];
    assert HsSplitFrom(t, |t| - 2).None?;
    DigitRunLongest(t, e);
  }

  /** A prefix of `t` in the language ending at `e` makes `e` no larger than what the matcher takes. */
  lemma IdAtLongest(t: string, e: int)
    requires 0 <= e <= |t| && IdShape(t[..e])
    ensures IdAt(t).Some? && e <= |IdAt(t).value|
  {
    if k :| HsSplit(t[..e], k) {
      HsPrefixLongest(t, e, k);
    } else {
      DigitPrefixLongest(t, e);
    }
  }

  /**
   * The second capture is the longest prefix of what follows the slash that
   * is in the language of `(hs.*_)?\d+`, and there is none when no prefix is.
   */
  lemma IdAtIsLongestPrefix(t: string)
    ensures IdAt(t).Some? ==>
              IdShape(IdAt(t).value) && forall e :: |IdAt(t).value| < e <= |t| ==> !IdShape(t[..e])
    ensures IdAt(t).None? ==> forall e :: 0 <= e <= |t| ==> !IdShape(t[..e])
  {
    if IdAt(t).Some? {
      IdAtSound(t);
    }
    forall e | 0 <= e <= |t| && IdShape(t[..e])
      ensures IdAt(t).Some? && e <= |IdAt(t).value|
    {
      IdAtLongest(t, e);
    }
  }

  // ---------------------------------------------------------------------------
  // The whole expression.

  /** The expression matches `route[p..e]` with `k` as first capture. */
  ghost predicate MatchSpan(route: string, p: int, k: Kind, e: int) {
    var w := Word(k) + "/";
    0 <= p && p + |w| <= e <= |route| && route[p..p + |w|] == w && IdShape(route[p + |w|..e])
  }

  /** Where the match of `m` ends in the route. */
  function End(m: GameLink): nat {
    m.start + |Word(m.kind)| + 1 + |m.id|
  }

  lemma MatchSpanIff(route: string, p: nat, k: Kind, e: int)
    requires p <= |route|
    ensures MatchSpan(route, p, k, e) <==>
              var w := Word(k) + "/";
              w <= route[p..] && p + |w| <= e <= |route| && IdShape(route[p + |w|..][..e - (p + |w|)])
  {
    var w := Word(k) + "/";
    if p + |w| <= e <= |route| {
      assert route[p + |w|..][..e - (p + |w|)] == route[p + |w|..e];
      assert route[p..][..|w|] == route[p..p + |w|];
    }
  }

  /** Any match at `p` is found by the matcher there, with the same first capture, and ends no later. */
  lemma MatchAtComplete(route: string, p: nat, k: Kind, e: int)
    requires p <= |route| && MatchSpan(route, p, k, e)
    ensures MatchAt(route, p).Some? && MatchAt(route, p).value.kind == k
    ensures e <= End(MatchAt(route, p).value)
  {
    var rest := route[p..];
    var w := Word(k) + "/";
    MatchSpanIff(route, p, k, e);
    assert WordAt(rest) == Some(k) by {
      if k == GameWord {
        assert rest[0] == 'g';
      }
    }
    var t := rest[|Word(k)| + 1..];
    assert t == route[p + |w|..];
    IdAtLongest(t, e - (p + |w|));
  }

  /** A word and slash at `p` followed by an id in the language form a match of the expression. */
  lemma SpanOfId(route: string, p: nat, k: Kind, id: string)
    requires p + |Word(k)| + 1 <= |route|
    requires Word(k) + "/" <= route[p..] && IdShape(id) && id <= route[p + |Word(k)| + 1..]
    ensures var m := GameLink(p, k, id);
            End(m) <= |route| && route[End(m) - |id|..End(m)] == id && MatchSpan(route, p, k, End(m))
  {
    var w := Word(k) + "/";
    var e := End(GameLink(p, k, id));
    assert e == p + |w| + |id|;
    assert route[p + |w|..e] == id;
    assert route[e - |id|..e] == id;
    assert route[p..p + |w|] == w;
  }

  /** What the matcher finds at `p` is a match of the expression there. */
  lemma MatchAtSound(route: string, p: nat)
    requires p <= |route| && MatchAt(route, p).Some?
    ensures var m := MatchAt(route, p).value;
            End(m) <= |route| && route[End(m) - |m.id|..End(m)] == m.id &&
            MatchSpan(route, p, m.kind, End(m))
  {
    var rest := route[p..];
    var m := MatchAt(route, p).value;
    var k := WordAt(rest).value;
    var t := rest[|Word(k)| + 1..];
    assert MatchAt(route, p) == Some(GameLink(p, k, IdAt(t).value));
    IdAtSound(t);
    assert t == route[p + |Word(k)| + 1..];
    SpanOfId(route, p, k, m.id);
  }

  /** A position where the matcher succeeds ends every stretch of failures that would cover it. */
  lemma FoundBreaksNoMatch(route: string, p: nat, e: int)
    requires p <= |route| && MatchAt(route, p).Some? && p < e
    ensures !NoMatchIn(route, 0, e)
  {
  }

  /** Two positions that are each the first where the matcher succeeds are the same. */
  lemma FirstFoundUnique(route: string, p: nat, s: nat)
    requires p <= |route| && NoMatchIn(route, 0, p) && MatchAt(route, p).Some?
    requires s <= |route| && NoMatchIn(route, 0, s) && MatchAt(route, s).Some?
    ensures s == p
  {
  }

  /** When the matcher fails before `p` and succeeds at `p`, `Extract` returns what it finds at `p`. */
  lemma ExtractIsFirstFound(route: string, p: nat)
    requires p <= |route| && NoMatchIn(route, 0, p) && MatchAt(route, p).Some?
    ensures Extract(route) == MatchAt(route, p)
  {
    ExtractFromLeftmost(route, 0);
    FoundBreaksNoMatch(route, p, |route| + 1);
    FirstFoundUnique(route, p, Extract(route).value.start);
  }

  /** No match of the expression starts before a position up to which the matcher fails everywhere. */
  lemma NoSpanBefore(route: string, s: int)
    requires NoMatchIn(route, 0, s)
    ensures forall q, k, e :: q < s ==> !MatchSpan(route, q, k, e)
  {
    forall q, k, e | MatchSpan(route, q, k, e)
      ensures s <= q
    {
      MatchAtComplete(route, q, k, e);
    }
  }

  /** What the matcher finds is a match of the expression, and no match at its start has another first capture or ends later. */
  lemma FoundIsLongest(route: string, r: Option<GameLink>)
    requires r.Some? ==> r.value.start <= |route| && MatchAt(route, r.value.start) == r
    ensures r.Some? ==>
              End(r.value) <= |route| &&
              route[End(r.value) - |r.value.id|..End(r.value)] == r.value.id &&
              MatchSpan(route, r.value.start, r.value.kind, End(r.value)) &&
              forall k, e :: MatchSpan(route, r.value.start, k, e) ==> k == r.value.kind && e <= End(r.value)
  {
    if r.Some? {
      var m := r.value;
      MatchAtSound(route, m.start);
      forall k, e | MatchSpan(route, m.start, k, e)
        ensures k == m.kind && e <= End(m)
      {
        MatchAtComplete(route, m.start, k, e);
      }
    }
  }

  /** With no result, the expression matches nowhere in the route. */
  lemma ExtractNoneMeansNoMatch(route: string)
    ensures Extract(route).None? ==> forall q, k, e :: q < |route| + 1 ==> !MatchSpan(route, q, k, e)
  {
    ExtractFromLeftmost(route, 0);
    if Extract(route).None? {
      NoSpanBefore(route, |route| + 1);
    }
  }

  /** A result is a match of the expression that no match at the same start exceeds. */
  lemma ExtractFoundIsLongest(route: string)
    ensures Extract(route).Some? ==>
              End(Extract(route).value) <= |route| &&
              route[End(Extract(route).value) - |Extract(route).value.id|..End(Extract(route).value)] ==
                Extract(route).value.id &&
              MatchSpan(route, Extract(route).value.start, Extract(route).value.kind, End(Extract(route).value)) &&
              forall k, e :: MatchSpan(route, Extract(route).value.start, k, e) ==>
                k == Extract(route).value.kind && e <= End(Extract(route).value)
  {
    ExtractFromLeftmost(route, 0);
    FoundIsLongest(route, Extract(route));
  }

  /** No match of the expression starts before a result. */
  lemma ExtractFoundIsLeftmost(route: string)
    ensures Extract(route).Some? ==>
              forall q, k, e :: q < Extract(route).value.start ==> !MatchSpan(route, q, k, e)
  {
    ExtractFromLeftmost(route, 0);
    if Extract(route).Some? {
      NoSpanBefore(route, Extract(route).value.start);
    }
  }

  /**
   * `Extract` is the leftmost match of `(hotseat|game)/((hs.*_)?\d+)` in the
   * route with the longest id the language allows there, and there is no
   * result exactly when the expression matches nowhere.
   */
  lemma ExtractIsLeftmostLongest(route: string)
    ensures Extract(route).None? ==> forall q, k, e :: q < |route| + 1 ==> !MatchSpan(route, q, k, e)
    ensures Extract(route).Some? ==>
              End(Extract(route).value) <= |route| &&
              route[End(Extract(route).value) - |Extract(route).value.id|..End(Extract(route).value)] ==
                Extract(route).value.id &&
              MatchSpan(route, Extract(route).value.start, Extract(route).value.kind, End(Extract(route).value)) &&
              forall k, e :: MatchSpan(route, Extract(route).value.start, k, e) ==>
                k == Extract(route).value.kind && e <= End(Extract(route).value)
    ensures Extract(route).Some? ==>
              forall q, k, e :: q < Extract(route).value.start ==> !MatchSpan(route, q, k, e)
  {
    ExtractNoneMeansNoMatch(route);
    ExtractFoundIsLongest(route);
    ExtractFoundIsLeftmost(route);
  }
}

module GameRouteExamples {
  import opened Wrappers
  import opened Text
  import opened GameRoute

  /** No match starts at a position where neither `hotseat/` nor `game/` begins. */
  lemma NoWordNoMatchAt(route: string, p: nat)
    requires p <= |route| && !("hotseat/" <= route[p..]) && !("game/" <= route[p..])
    ensures MatchAt(route, p).None?
  {
  }

  /** No match can start where neither `hotseat/` nor `game/` occurs. */
  lemma NoWordNoMatch(route: string)
    requires !Contains(route, "hotseat/") && !Contains(route, "game/")
    ensures Extract(route).None?
  {
    forall p | 0 <= p <= |route|
      ensures MatchAt(route, p).None?
    {
      if "hotseat/" <= route[p..] {
        assert route[p..p + 8] == "hotseat/";
        ContainsAt(route, "hotseat/", p);
      }
      if "game/" <= route[p..] {
        assert route[p..p + 5] == "game/";
        ContainsAt(route, "game/", p);
      }
      NoWordNoMatchAt(route, p);
    }
    ExtractFromLeftmost(route, 0);
  }

  /** Nothing matches at a leading `/`. */
  lemma SlashStart(route: string)
    requires |route| > 0 && route[0] == '/'
    ensures NoMatchIn(route, 0, 1)
  {
    assert route[0..][0] == '/';
    NoWordNoMatchAt(route, 0);
    NoMatchExtend(route, 0, 1);
  }

  lemma MultiplayerAtOne(r: string)
    requires r == "/game/42"
    ensures MatchAt(r, 1) == Some(GameLink(1, GameWord, "42"))
  {
    var rest := r[1..];
    assert rest == "game/42" && !("hotseat/" <= rest) && "game/" <= rest;
    assert rest[5..] == "42";
    assert HsSplitFrom("42", 0).None?;
    assert DigitRun("42") == 2;
    assert "42"[..2] == "42";
  }

  /** A multiplayer route: the id is the digits after `game/`. */
  lemma MultiplayerExample(r: string)
    requires r == "/game/42"
    ensures Extract(r) == Some(GameLink(1, GameWord, "42"))
  {
    SlashStart(r);
    MultiplayerAtOne(r);
    ExtractIsFirstFound(r, 1);
  }

  lemma HotseatId()
    ensures IdAt("hs_abc_7") == Some("hs_abc_7")
  {
    var t := "hs_abc_7";
    assert t[2..6] == "_abc";
    assert Candidate(t, 6);
    assert HsSplitFrom(t, 6) == Some(6);
    assert t[7..] == "7" && DigitRun("7") == 1;
    assert t[..8] == t;
  }

  lemma HotseatAtOne(r: string)
    requires r == "/hotseat/hs_abc_7"
    ensures MatchAt(r, 1) == Some(GameLink(1, HotseatWord, "hs_abc_7"))
  {
    var rest := r[1..];
    assert rest == "hotseat/hs_abc_7" && "hotseat/" <= rest;
    assert rest[8..] == "hs_abc_7";
    HotseatId();
  }

  /** A hotseat route: the id keeps its `hs..._` prefix. */
  lemma HotseatExample(r: string)
    requires r == "/hotseat/hs_abc_7"
    ensures Extract(r) == Some(GameLink(1, HotseatWord, "hs_abc_7"))
  {
    SlashStart(r);
    HotseatAtOne(r);
    ExtractIsFirstFound(r, 1);
  }

  lemma GreedyId()
    ensures IdAt("hs_1_2") == Some("hs_1_2")
  {
    var t := "hs_1_2";
    assert t[2..4] == "_1";
    assert Candidate(t, 4);
    assert HsSplitFrom(t, 4) == Some(4);
    assert t[5..] == "2" && DigitRun("2") == 1;
    assert t[..6] == t;
  }

  lemma GreedyAtOne(r: string)
    requires r == "/hotseat/hs_1_2"
    ensures MatchAt(r, 1) == Some(GameLink(1, HotseatWord, "hs_1_2"))
  {
    var rest := r[1..];
    assert rest == "hotseat/hs_1_2" && "hotseat/" <= rest;
    assert rest[8..] == "hs_1_2";
    GreedyId();
  }

  /** The `.*` of the group is greedy: the id runs to the last `_` that digits follow. */
  lemma GreedyExample(r: string)
    requires r == "/hotseat/hs_1_2"
    ensures Extract(r) == Some(GameLink(1, HotseatWord, "hs_1_2"))
  {
    SlashStart(r);
    GreedyAtOne(r);
    ExtractIsFirstFound(r, 1);
  }

  /** The tutorial route names no game: there is nothing to extract. */
  lemma TutorialHasNoId()
    ensures Extract("/tutorial").None?
  {
    MissingChar("/tutorial", "hotseat/", 0);
    MissingChar("/tutorial", "game/", 0);
    NoWordNoMatch("/tutorial");
  }
}
