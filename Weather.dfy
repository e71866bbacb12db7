/**
 * Outfit recommendation from free-text weather: a fixed rule table, tried in the order
 * rain, cold, hot, clear, whose first rule whose token occurs in the text selects the rows kept.
 */
module Weather {
  import opened Text
  import opened Wardrobe

  const RainToken: string := "비"
  const ColdToken: string := "추움"
  const HotToken: string := "더움"
  const ClearToken: string := "맑음"

  const Outer: string := "아우터"
  const Top: string := "상의"
  const Sporty: string := "스포티"
  const Black: string := "검정"
  const Navy: string := "네이비"

  /** The rule a weather text selects; `Unmatched` when it holds none of the tokens. */
  datatype Rule = Rainy | Cold | Hot | Clear | Unmatched

  /** The first rule, in the fixed order rain, cold, hot, clear, whose token occurs in the (lowered) text. */
  function RuleFor(weather: string): (r: Rule)
    ensures r == Rainy <==> Contains(weather, RainToken)
    ensures r == Unmatched <==>
      !Contains(weather, RainToken) && !Contains(weather, ColdToken) &&
      !Contains(weather, HotToken) && !Contains(weather, ClearToken)
  {
    if Contains(weather, RainToken) then Rainy
    else if Contains(weather, ColdToken) then Cold
    else if Contains(weather, HotToken) then Hot
    else if Contains(weather, ClearToken) then Clear
    else Unmatched
  }

  /** A dark colour: black or navy. */
  predicate Dark(color: string) {
    color == Black || color == Navy
  }

  /** The row mask of each rule; the clear rule and a text without tokens keep every row. */
  predicate Keeps(rule: Rule, it: Item) {
    match rule
    case Rainy => it.category == Outer || Dark(it.color)
    case Cold => (it.category == Outer || it.category == Top) && it.style != Sporty
    case Hot => it.category == Top && !Dark(it.color)
    case Clear => true
    case Unmatched => true
  }

  /** The rows of `items` that the rule keeps, in their original order (a boolean mask over a copy). */
  function Filter(items: seq<Item>, rule: Rule): (kept: seq<Item>)
    ensures |kept| <= |items|
  {
    if items == [] then []
    else
      var n := |items| - 1;
      Filter(items[..n], rule) + (if Keeps(rule, items[n]) then [items[n]] else [])
  }

  /** The recommendation shown for a wardrobe and an already lowered weather text: some of its rows, never a new one. */
  function Recommendation(items: seq<Item>, weather: string): (r: seq<Item>)
    ensures |r| <= |items|
    ensures forall x :: x in r ==> x in items
  {
    FilterMembers(items, RuleFor(weather));
    Filter(items, RuleFor(weather))
  }

  /**
   * `positions` picks `kept` out of `items` in order, and picks exactly the rows the rule keeps:
   * `kept` is the subsequence of `items` of the rows the rule keeps.
   */
  ghost predicate Selects(items: seq<Item>, rule: Rule, kept: seq<Item>, positions: seq<nat>) {
    && |positions| == |kept|
    && (forall k :: 0 <= k < |positions| ==> positions[k] < |items| && kept[k] == items[positions[k]])
    && (forall k, l :: 0 <= k < l < |positions| ==> positions[k] < positions[l])
    && (forall i :: 0 <= i < |items| ==> (Keeps(rule, items[i]) <==> i in positions))
  }

  /** A selection of a prefix extends by the next row when the rule keeps that row. */
  lemma SelectsExtend(front: seq<Item>, x: Item, rule: Rule, kept: seq<Item>, positions: seq<nat>)
    requires Selects(front, rule, kept, positions)
    ensures var n := |front|;
      Selects(front + [x], rule,
              kept + (if Keeps(rule, x) then [x] else []),
              positions + (if Keeps(rule, x) then [n] else []))
  {
    var n := |front|;
    var items := front + [x];
    var extra := if Keeps(rule, x) then [n] else [];
    var kept' := kept + (if Keeps(rule, x) then [x] else []);
    var positions' := positions + extra;
    forall k | 0 <= k < |positions'|
      ensures positions'[k] < |items| && kept'[k] == items[positions'[k]]
    {
      if k < |positions| {
        assert positions'[k] == positions[k] && kept'[k] == kept[k];
      }
    }
    forall i | 0 <= i < |items| ensures Keeps(rule, items[i]) <==> i in positions' {
      if i < n {
        assert items[i] == front[i];
        assert i !in extra;
      } else {
        assert n !in positions;
      }
    }
  }

  /**
   * Filter is a subsequence selection: the kept rows are the rows at a strictly increasing
   * list of positions, and a position is on that list exactly when the rule keeps its row.
   */
  lemma {:induction false} FilterSelects(items: seq<Item>, rule: Rule) returns (positions: seq<nat>)
    ensures Selects(items, rule, Filter(items, rule), positions)
  {
    if items == [] {
      positions := [];
    } else {
      var n := |items| - 1;
      var front := items[..n];
      var p := FilterSelects(front, rule);
      SelectsExtend(front, items[n], rule, Filter(front, rule), p);
      assert front + [items[n]] == items;
      positions := p + (if Keeps(rule, items[n]) then [n] else []);
    }
  }

  /** A row is recommended exactly when it is in the wardrobe and the rule keeps it. */
  lemma FilterMembers(items: seq<Item>, rule: Rule)
    ensures forall x :: x in Filter(items, rule) <==> x in items && Keeps(rule, x)
  {
    var kept := Filter(items, rule);
    var positions := FilterSelects(items, rule);
    forall x | x in kept ensures x in items && Keeps(rule, x) {
      var k :| 0 <= k < |kept| && kept[k] == x;
      assert positions[k] in positions;
    }
    forall x | x in items && Keeps(rule, x) ensures x in kept {
      var i :| 0 <= i < |items| && items[i] == x;
      var k :| 0 <= k < |positions| && positions[k] == i;
      assert kept[k] == x;
    }
  }

  /** A rule that keeps every row leaves the table as it is. */
  lemma {:induction false} FilterKeepsAll(items: seq<Item>, rule: Rule)
    requires forall i :: 0 <= i < |items| ==> Keeps(rule, items[i])
    ensures Filter(items, rule) == items
  {
    if items != [] {
      var n := |items| - 1;
      var front := items[..n];
      forall i | 0 <= i < |front| ensures Keeps(rule, front[i]) {
        assert front[i] == items[i];
      }
      FilterKeepsAll(front, rule);
      assert Keeps(rule, items[n]);
      assert Filter(items, rule) == Filter(front, rule) + [items[n]];
      assert front + [items[n]] == items;
    }
  }

  /**
   * What the recommendation holds, case by case in rule priority order: rain wins over every
   * other token, cold over hot and clear, hot over clear; clear or no token keeps the whole wardrobe.
   */
  lemma RecommendationCases(items: seq<Item>, weather: string)
    ensures var r := Recommendation(items, weather);
      Contains(weather, RainToken) ==>
        forall x :: x in r <==> x in items && (x.category == Outer || x.color in {Black, Navy})
    ensures var r := Recommendation(items, weather);
      !Contains(weather, RainToken) && Contains(weather, ColdToken) ==>
        forall x :: x in r <==> x in items && x.category in {Outer, Top} && x.style != Sporty
    ensures var r := Recommendation(items, weather);
      !Contains(weather, RainToken) && !Contains(weather, ColdToken) && Contains(weather, HotToken) ==>
        forall x :: x in r <==> x in items && x.category == Top && x.color !in {Black, Navy}
    ensures !Contains(weather, RainToken) && !Contains(weather, ColdToken) && !Contains(weather, HotToken) ==>
      Recommendation(items, weather) == items
  {
    var rule := RuleFor(weather);
    FilterMembers(items, rule);
    if rule == Clear || rule == Unmatched {
      FilterKeepsAll(items, rule);
    }
  }

  /** The weather text is lowered before the tokens are looked up; that cannot change the rule chosen. */
  lemma RuleForLowered(weather: string)
    ensures RuleFor(Lower(weather)) == RuleFor(weather)
  {
    LowerKeepsOccurrence(weather, RainToken);
    LowerKeepsOccurrence(weather, ColdToken);
    LowerKeepsOccurrence(weather, HotToken);
    LowerKeepsOccurrence(weather, ClearToken);
  }

  /** Rain keeps an outer of any colour and a black top alike; clear keeps the whole wardrobe. */
  lemma RainAndClearExample()
    ensures var w := [Item(Outer, "파랑", "캐주얼", "M", ""), Item(Top, Black, "캐주얼", "M", "")];
      Recommendation(w, "비") == w && Recommendation(w, "맑음") == w
  {
    var w := [Item(Outer, "파랑", "캐주얼", "M", ""), Item(Top, Black, "캐주얼", "M", "")];
    assert OccursAt("비", RainToken, 0);
    assert OccursAt("맑음", ClearToken, 0);
    FilterKeepsAll(w, Rainy);
    FilterKeepsAll(w, Clear);
  }

  /** A text with both the rain and the cold token gets the rain rule only: a light top is not kept. */
  lemma RainBeforeColdExample()
    ensures var w := [Item(Top, "흰색", "캐주얼", "M", "")];
      Recommendation(w, "비 추움") == [] && Filter(w, Cold) == w
  {
    var w := [Item(Top, "흰색", "캐주얼", "M", "")];
    assert OccursAt("비 추움", RainToken, 0);
    FilterKeepsAll(w, Cold);
  }
}
