/**
 * The colour and style distributions: pandas `value_counts` on the 색상 and 스타일 columns,
 * one bar per distinct value with its number of rows, highest count first.
 */
module Analysis {
  import opened Wardrobe

  /** One bar of a distribution: a column value and how many rows hold it. */
  datatype Bar = Bar(value: string, count: nat)

  /** The colour column of the wardrobe. */
  function Colors(items: seq<Item>): (column: seq<string>)
    ensures |column| == |items|
  {
    seq(|items|, i requires 0 <= i < |items| => items[i].color)
  }

  /** The style column of the wardrobe. */
  function Styles(items: seq<Item>): (column: seq<string>)
    ensures |column| == |items|
  {
    seq(|items|, i requires 0 <= i < |items| => items[i].style)
  }

  /** The sum of the counts. */
  function Total(bars: seq<Bar>): (sum: nat) {
    if bars == [] then 0 else bars[0].count + Total(bars[1..])
  }

  /** The values that have a bar. */
  function Labels(bars: seq<Bar>): (values: set<string>) {
    set b | b in bars :: b.value
  }

  /** No value has two bars. */
  predicate DistinctLabels(bars: seq<Bar>) {
    forall i, j :: 0 <= i < j < |bars| ==> bars[i].value != bars[j].value
  }

  /** Highest count first. */
  predicate SortedByCount(bars: seq<Bar>) {
    forall i, j :: 0 <= i < j < |bars| ==> bars[i].count >= bars[j].count
  }

  /** `bars` is a frequency table of `column`: one bar per distinct value, each holding that value's number of occurrences. */
  ghost predicate Tallies(bars: seq<Bar>, column: seq<string>) {
    && DistinctLabels(bars)
    && (forall v :: v in column <==> v in Labels(bars))
    && (forall b :: b in bars ==> b.count == multiset(column)[b.value])
  }

  /** One more occurrence of `v`: its bar's count goes up by one, or a new bar for it goes at the end. */
  function Bump(bars: seq<Bar>, v: string): (bumped: seq<Bar>) {
    if bars == [] then [Bar(v, 1)]
    else if bars[0].value == v then [Bar(v, bars[0].count + 1)] + bars[1..]
    else [bars[0]] + Bump(bars[1..], v)
  }

  /** The bars of `column` in order of first appearance. */
  function Tally(column: seq<string>): (bars: seq<Bar>) {
    if column == [] then []
    else Bump(Tally(column[..|column| - 1]), column[|column| - 1])
  }

  /** Bump adds one occurrence to the total. */
  lemma {:induction false} BumpTotal(bars: seq<Bar>, v: string)
    ensures Total(Bump(bars, v)) == Total(bars) + 1
  {
    if bars != [] && bars[0].value != v {
      BumpTotal(bars[1..], v);
      assert Bump(bars, v)[1..] == Bump(bars[1..], v);
    } else if bars != [] {
      assert Bump(bars, v)[1..] == bars[1..];
    }
  }

  /** A bar is in `bars` exactly when it is the first one or in the rest. */
  lemma LabelsCons(bars: seq<Bar>)
    requires bars != []
    ensures Labels(bars) == {bars[0].value} + Labels(bars[1..])
  {
    forall l | l in Labels(bars) ensures l == bars[0].value || l in Labels(bars[1..]) {
      var x :| x in bars && x.value == l;
      if x != bars[0] {
        var j :| 0 <= j < |bars| && bars[j] == x;
        assert bars[1..][j - 1] == x;
      }
    }
    assert bars[0] in bars;
    forall l | l in Labels(bars[1..]) ensures l in Labels(bars) {
      var x :| x in bars[1..] && x.value == l;
      assert x in bars;
    }
  }

  /** Bump adds `v` to the labels. */
  lemma {:induction false} BumpLabels(bars: seq<Bar>, v: string)
    ensures Labels(Bump(bars, v)) == Labels(bars) + {v}
  {
    var r := Bump(bars, v);
    if bars == [] {
      assert r == [Bar(v, 1)];
      LabelsCons(r);
      assert r[1..] == [];
    } else {
      LabelsCons(bars);
      LabelsCons(r);
      if bars[0].value == v {
        assert r[1..] == bars[1..];
      } else {
        assert r[1..] == Bump(bars[1..], v);
        BumpLabels(bars[1..], v);
      }
    }
  }

  /** The first label of a list with distinct labels does not recur. */
  lemma DistinctCons(bars: seq<Bar>)
    requires bars != []
    ensures DistinctLabels(bars) <==> DistinctLabels(bars[1..]) && bars[0].value !in Labels(bars[1..])
  {
    var rest := bars[1..];
    if DistinctLabels(bars) {
      forall j | 0 <= j < |rest| ensures rest[j].value != bars[0].value {
        assert rest[j] == bars[j + 1];
      }
      forall x | x in rest ensures x.value != bars[0].value {
        var j :| 0 <= j < |rest| && rest[j] == x;
      }
    }
    if DistinctLabels(rest) && bars[0].value !in Labels(rest) {
      forall i, j | 0 <= i < j < |bars| ensures bars[i].value != bars[j].value {
        assert bars[j] == rest[j - 1];
        if i > 0 {
          assert bars[i] == rest[i - 1];
        } else {
          assert bars[j] in rest;
        }
      }
    }
  }

  /** Bump keeps labels distinct. */
  lemma {:induction false} BumpDistinct(bars: seq<Bar>, v: string)
    requires DistinctLabels(bars)
    ensures DistinctLabels(Bump(bars, v))
  {
    var r := Bump(bars, v);
    if bars == [] {
    } else {
      DistinctCons(bars);
      DistinctCons(r);
      if bars[0].value == v {
        assert r[1..] == bars[1..];
      } else {
        assert r[1..] == Bump(bars[1..], v);
        BumpDistinct(bars[1..], v);
        BumpLabels(bars[1..], v);
      }
    }
  }

  /** Bump gives `v` one more than the `had` it had and leaves every other bar as it was. */
  lemma {:induction false} BumpCounts(bars: seq<Bar>, v: string, had: nat)
    requires DistinctLabels(bars)
    requires forall c :: c in bars && c.value == v ==> c.count == had
    requires v !in Labels(bars) ==> had == 0
    ensures forall c :: c in Bump(bars, v) ==> (c.value != v && c in bars) || (c.value == v && c.count == had + 1)
  {
    var r := Bump(bars, v);
    if bars == [] {
      assert r == [Bar(v, 1)];
    } else {
      DistinctCons(bars);
      var rest := bars[1..];
      if bars[0].value == v {
        assert r == [Bar(v, had + 1)] + rest;
        forall c | c in rest ensures c.value != v {
          assert c.value in Labels(rest);
        }
      } else {
        LabelsCons(bars);
        BumpCounts(rest, v, had);
        assert r == [bars[0]] + Bump(rest, v);
      }
    }
  }

  /** Tally is a frequency table of its column whose counts add up to the column's length. */
  lemma {:induction false} TallyCounts(column: seq<string>)
    ensures Tallies(Tally(column), column)
    ensures Total(Tally(column)) == |column|
  {
    if column != [] {
      var n := |column| - 1;
      var front, v := column[..n], column[n];
      assert column == front + [v];
      TallyCounts(front);
      var t := Tally(front);
      var had := multiset(front)[v];
      assert v !in Labels(t) ==> had == 0;
      BumpTotal(t, v);
      BumpLabels(t, v);
      BumpDistinct(t, v);
      BumpCounts(t, v, had);
      assert multiset(column) == multiset(front) + multiset{v};
    }
  }

  /** `b` goes before the first bar whose count is not larger, after every bar with a larger count. */
  function Insert(b: Bar, bars: seq<Bar>): (inserted: seq<Bar>) {
    if bars == [] || bars[0].count <= b.count then [b] + bars
    else [bars[0]] + Insert(b, bars[1..])
  }

  /** Insertion sort, highest count first; a bar ties before the later bars with its count. */
  function SortByCount(bars: seq<Bar>): (sorted: seq<Bar>) {
    if bars == [] then [] else Insert(bars[0], SortByCount(bars[1..]))
  }

  /** Insert adds `b` and nothing else. */
  lemma {:induction false} InsertPermutes(b: Bar, bars: seq<Bar>)
    ensures multiset(Insert(b, bars)) == multiset(bars) + multiset{b}
  {
    if bars != [] && bars[0].count > b.count {
      InsertPermutes(b, bars[1..]);
      assert Insert(b, bars) == [bars[0]] + Insert(b, bars[1..]);
      assert bars == [bars[0]] + bars[1..];
    }
  }

  /** Insert adds the count of `b` to the total. */
  lemma {:induction false} InsertTotal(b: Bar, bars: seq<Bar>)
    ensures Total(Insert(b, bars)) == b.count + Total(bars)
  {
    if bars != [] && bars[0].count > b.count {
      InsertTotal(b, bars[1..]);
      assert Insert(b, bars)[1..] == Insert(b, bars[1..]);
    } else {
      assert ([b] + bars)[1..] == bars;
    }
  }

  /** A list is sorted when its head is at least every later count and its tail is sorted. */
  lemma SortedCons(bars: seq<Bar>)
    requires bars != []
    ensures SortedByCount(bars) <==>
      SortedByCount(bars[1..]) && forall c :: c in bars[1..] ==> c.count <= bars[0].count
  {
    var rest := bars[1..];
    if SortedByCount(bars) {
      forall c | c in rest ensures c.count <= bars[0].count {
        var j :| 0 <= j < |rest| && rest[j] == c;
        assert bars[j + 1] == c;
      }
      forall i, j | 0 <= i < j < |rest| ensures rest[i].count >= rest[j].count {
        assert rest[i] == bars[i + 1] && rest[j] == bars[j + 1];
      }
    }
    if SortedByCount(rest) && forall c :: c in rest ==> c.count <= bars[0].count {
      forall i, j | 0 <= i < j < |bars| ensures bars[i].count >= bars[j].count {
        assert bars[j] == rest[j - 1];
        if i > 0 { assert bars[i] == rest[i - 1]; }
      }
    }
  }

  /** Insert keeps a sorted list sorted. */
  lemma {:induction false} InsertSorted(b: Bar, bars: seq<Bar>)
    requires SortedByCount(bars)
    ensures SortedByCount(Insert(b, bars))
  {
    var r := Insert(b, bars);
    if bars == [] {
      assert r == [b];
    } else {
      SortedCons(bars);
      SortedCons(r);
      if bars[0].count <= b.count {
        assert r[1..] == bars;
      } else {
        var rest := bars[1..];
        assert r[1..] == Insert(b, rest);
        InsertSorted(b, rest);
        InsertPermutes(b, rest);
        forall c | c in r[1..] ensures c.count <= r[0].count {
          assert c in multiset(Insert(b, rest));
        }
      }
    }
  }

  /** Bars with the same multiset have the same labels. */
  lemma SameLabels(a: seq<Bar>, b: seq<Bar>)
    requires multiset(a) == multiset(b)
    ensures Labels(a) == Labels(b)
  {
    forall l | l in Labels(a) ensures l in Labels(b) {
      var x :| x in a && x.value == l;
      assert x in multiset(b);
    }
    forall l | l in Labels(b) ensures l in Labels(a) {
      var x :| x in b && x.value == l;
      assert x in multiset(a);
    }
  }

  /** Inserting a bar whose label is new keeps the labels distinct. */
  lemma {:induction false} InsertDistinct(b: Bar, bars: seq<Bar>)
    requires DistinctLabels(bars) && b.value !in Labels(bars)
    ensures DistinctLabels(Insert(b, bars))
  {
    var r := Insert(b, bars);
    if bars == [] {
      assert r == [b];
    } else {
      DistinctCons(bars);
      DistinctCons(r);
      LabelsCons(bars);
      if bars[0].count <= b.count {
        assert r[1..] == bars;
      } else {
        var rest := bars[1..];
        assert r[1..] == Insert(b, rest);
        InsertDistinct(b, rest);
        InsertPermutes(b, rest);
        SameLabels(Insert(b, rest), rest + [b]);
        LabelsAppend(rest, b);
      }
    }
  }

  /** The labels of `bars + [b]`. */
  lemma LabelsAppend(bars: seq<Bar>, b: Bar)
    ensures Labels(bars + [b]) == Labels(bars) + {b.value}
  {
    var s := bars + [b];
    assert b == s[|bars|];
    forall x | x in s ensures x in bars || x == b {
      var j :| 0 <= j < |s| && s[j] == x;
      if j < |bars| { assert bars[j] == x; }
    }
  }

  /** Sorting permutes the bars. */
  lemma {:induction false} SortPermutes(bars: seq<Bar>)
    ensures multiset(SortByCount(bars)) == multiset(bars)
  {
    if bars != [] {
      SortPermutes(bars[1..]);
      InsertPermutes(bars[0], SortByCount(bars[1..]));
      assert bars == [bars[0]] + bars[1..];
    }
  }

  /** Sorting keeps the total. */
  lemma {:induction false} SortTotal(bars: seq<Bar>)
    ensures Total(SortByCount(bars)) == Total(bars)
  {
    if bars != [] {
      SortTotal(bars[1..]);
      InsertTotal(bars[0], SortByCount(bars[1..]));
    }
  }

  /** Sorting orders the bars by count, highest first. */
  lemma {:induction false} SortSorted(bars: seq<Bar>)
    ensures SortedByCount(SortByCount(bars))
  {
    if bars != [] {
      SortSorted(bars[1..]);
      InsertSorted(bars[0], SortByCount(bars[1..]));
    }
  }

  /** Sorting keeps labels distinct. */
  lemma {:induction false} SortDistinct(bars: seq<Bar>)
    requires DistinctLabels(bars)
    ensures DistinctLabels(SortByCount(bars))
  {
    if bars != [] {
      var rest := bars[1..];
      DistinctCons(bars);
      SortDistinct(rest);
      SortPermutes(rest);
      SameLabels(SortByCount(rest), rest);
      InsertDistinct(bars[0], SortByCount(rest));
    }
  }

  /** pandas `value_counts`: a frequency table of the column, highest count first, whose counts add up to the column's length. */
  function ValueCounts(column: seq<string>): (bars: seq<Bar>)
    ensures Tallies(bars, column)
    ensures Total(bars) == |column|
    ensures SortedByCount(bars)
  {
    var t := Tally(column);
    TallyCounts(column);
    SortPermutes(t);
    SortTotal(t);
    SortSorted(t);
    SortDistinct(t);
    SameLabels(SortByCount(t), t);
    assert forall b :: b in SortByCount(t) ==> b in multiset(t);
    SortByCount(t)
  }

  /** The two charts of the analysis page. */
  datatype Distribution = Distribution(colors: seq<Bar>, styles: seq<Bar>)
}
