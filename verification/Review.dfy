/**
 Two computations of the activity report (tools/review.py): percentile ranks of
 a list of durations, and the days on which nothing happened at all.
 */
module Review {
  import opened Options

  // ------------------------------------------------------------------- percentiles

  ghost predicate Sorted(s: seq<real>) {
    forall i, j :: 0 <= i < j < |s| ==> s[i] <= s[j]
  }

  function Insert(x: real, s: seq<real>): seq<real> {
    if s == [] || x <= s[0] then [x] + s else [s[0]] + Insert(x, s[1..])
  }

  /** `sorted(values)` */
  function Sort(s: seq<real>): seq<real> {
    if s == [] then [] else Insert(s[0], Sort(s[1..]))
  }

  lemma {:induction false} InsertKeeps(x: real, s: seq<real>)
    ensures multiset(Insert(x, s)) == multiset(s) + multiset{x}
  {
    if s == [] || x <= s[0] {
    } else {
      InsertKeeps(x, s[1..]);
      assert s == [s[0]] + s[1..];
    }
  }

  lemma {:induction false} InsertSorts(x: real, s: seq<real>)
    requires Sorted(s)
    ensures Sorted(Insert(x, s)) && |Insert(x, s)| == |s| + 1
    ensures Insert(x, s)[0] == if s != [] && s[0] < x then s[0] else x
  {
    if s == [] || x <= s[0] {
    } else {
      InsertSorts(x, s[1..]);
    }
  }

  lemma {:induction false} SortSorts(s: seq<real>)
    ensures Sorted(Sort(s)) && |Sort(s)| == |s|
    ensures multiset(Sort(s)) == multiset(s)
  {
    if s == [] {
    } else {
      SortSorts(s[1..]);
      InsertSorts(s[0], Sort(s[1..]));
      InsertKeeps(s[0], Sort(s[1..]));
      assert s == [s[0]] + s[1..];
    }
  }

  lemma HeadIsLeast(s: seq<real>, x: real)
    requires Sorted(s) && x in multiset(s)
    ensures s != [] && s[0] <= x
  {
  }

  lemma TailMultiset(s: seq<real>)
    requires s != []
    ensures multiset(s[1..]) == multiset(s) - multiset{s[0]}
  {
    assert s == [s[0]] + s[1..];
  }

  lemma SameLength(a: seq<real>, b: seq<real>)
    requires multiset(a) == multiset(b)
    ensures |a| == |b|
  {
    assert |multiset(a)| == |a| && |multiset(b)| == |b|;
  }

  lemma SameHead(a: seq<real>, b: seq<real>)
    requires Sorted(a) && Sorted(b) && multiset(a) == multiset(b) && a != []
    ensures b != [] && a[0] == b[0] && multiset(a[1..]) == multiset(b[1..])
  {
    SameLength(a, b);
    assert a[0] in multiset(b) && b[0] in multiset(a);
    HeadIsLeast(b, a[0]);
    HeadIsLeast(a, b[0]);
    TailMultiset(a);
    TailMultiset(b);
  }

  lemma EqualByParts(a: seq<real>, b: seq<real>)
    requires a != [] && b != [] && a[0] == b[0] && a[1..] == b[1..]
    ensures a == b
  {
  }

  /** There is only one way to put the same values in order. */
  lemma {:induction false} SortedUnique(a: seq<real>, b: seq<real>)
    requires Sorted(a) && Sorted(b) && multiset(a) == multiset(b)
    ensures a == b
    decreases |a|
  {
    if a == [] {
      SameLength(a, b);
    } else {
      SameHead(a, b);
      SortedUnique(a[1..], b[1..]);
      EqualByParts(a, b);
    }
  }

  /** Python's `round`: to the nearest whole number, halves to the even one. */
  function RoundHalfEven(x: real): int {
    var down := x.Floor;
    var part := x - down as real;
    if part < 0.5 || (part == 0.5 && down % 2 == 0) then down else down + 1
  }

  /** The nearest whole number, and the even one when there are two. */
  ghost predicate Nearest(r: int, x: real) {
    x - 0.5 <= r as real <= x + 0.5 && (r as real == x - 0.5 || r as real == x + 0.5 ==> r % 2 == 0)
  }

  lemma RoundIsNearest(x: real)
    ensures forall r: int :: r == RoundHalfEven(x) <==> Nearest(r, x)
  {
    assert Nearest(RoundHalfEven(x), x);
    forall r: int | Nearest(r, x) ensures r == RoundHalfEven(x) {
      NearestIsOne(r, RoundHalfEven(x), x);
    }
  }

  lemma NearestIsOne(r: int, s: int, x: real)
    requires Nearest(r, x) && Nearest(s, x)
    ensures r == s
  {
  }

  /** Where the quantile `q` falls among the indices of a list of length `n`. */
  function Position(q: real, n: nat): real
    requires n > 0
  {
    q * (n - 1) as real
  }

  /** `min(n - 1, max(0, wanted))` */
  function Clamp(wanted: int, n: nat): int
    requires n > 0
  {
    var atLeast := if wanted > 0 then wanted else 0;
    if atLeast < n - 1 then atLeast else n - 1
  }

  /** The index `at(q)` looks up in a sorted list of length `n`. */
  function Rank(q: real, n: nat): int
    requires n > 0
  {
    Clamp(RoundHalfEven(Position(q, n)), n)
  }

  datatype Percentiles = Percentiles(p50: real, p90: real, p95: real, max: real)

  function PercentilesOf(values: seq<real>): Option<Percentiles> {
    if values == [] then None
    else
      var ordered := Sort(values);
      SortSorts(values);
      var n := |values|;
      RankInRange(0.5, n);
      RankInRange(0.9, n);
      RankInRange(0.95, n);
      Some(Percentiles(ordered[Rank(0.5, n)], ordered[Rank(0.9, n)], ordered[Rank(0.95, n)], ordered[n - 1]))
  }

  lemma PositionInRange(q: real, n: nat)
    requires n > 0 && 0.0 <= q <= 1.0
    ensures 0.0 <= Position(q, n) <= (n - 1) as real
  {
    Scaled(q, (n - 1) as real);
  }

  lemma Scaled(q: real, last: real)
    requires 0.0 <= q <= 1.0 && 0.0 <= last
    ensures 0.0 <= q * last <= last
  {
  }

  /** For quantiles between 0 and 1 the clamps never bite, and the rank is the one nearest index, the even one of two. */
  lemma RankInRange(q: real, n: nat)
    requires n > 0 && 0.0 <= q <= 1.0
    ensures 0 <= Rank(q, n) < n
    ensures forall r: int :: r == Rank(q, n) <==> Nearest(r, Position(q, n))
  {
    PositionInRange(q, n);
    RoundIsNearest(Position(q, n));
    assert Nearest(RoundHalfEven(Position(q, n)), Position(q, n));
  }

  function CountAtMost(s: seq<real>, x: real): nat {
    if s == [] then 0 else CountAtMost(s[1..], x) + if s[0] <= x then 1 else 0
  }

  function CountBelow(s: seq<real>, x: real): nat {
    if s == [] then 0 else CountBelow(s[1..], x) + if s[0] < x then 1 else 0
  }

  lemma {:induction false} CountInserted(x: real, s: seq<real>, y: real)
    ensures CountAtMost(Insert(x, s), y) == CountAtMost(s, y) + if x <= y then 1 else 0
    ensures CountBelow(Insert(x, s), y) == CountBelow(s, y) + if x < y then 1 else 0
  {
    if s == [] || x <= s[0] {
      assert ([x] + s)[1..] == s;
    } else {
      CountInserted(x, s[1..], y);
      assert Insert(x, s)[1..] == Insert(x, s[1..]);
    }
  }

  lemma {:induction false} CountSorted(s: seq<real>, y: real)
    ensures CountAtMost(Sort(s), y) == CountAtMost(s, y)
    ensures CountBelow(Sort(s), y) == CountBelow(s, y)
  {
    if s == [] {
    } else {
      CountSorted(s[1..], y);
      CountInserted(s[0], Sort(s[1..]), y);
    }
  }

  lemma {:induction false} NoneBelow(s: seq<real>, y: real)
    requires forall i :: 0 <= i < |s| ==> y <= s[i]
    ensures CountBelow(s, y) == 0
  {
    if s == [] {
    } else {
      NoneBelow(s[1..], y);
    }
  }

  /** In a sorted list at most `i` values are below the one at index `i`, and more than `i` do not exceed it. */
  lemma {:induction false} CountAtIndex(s: seq<real>, i: nat)
    requires Sorted(s) && i < |s|
    ensures CountBelow(s, s[i]) <= i < CountAtMost(s, s[i])
  {
    if i == 0 {
      NoneBelow(s, s[0]);
    } else {
      CountAtIndex(s[1..], i - 1);
    }
  }

  /** The value with index `r` among all of them in order, told without ordering them. */
  ghost predicate AtRank(values: seq<real>, r: int, reported: real) {
    reported in values && CountBelow(values, reported) <= r < CountAtMost(values, reported)
  }

  lemma EntryIsRanked(values: seq<real>, q: real)
    requires values != [] && 0.0 <= q <= 1.0
    ensures 0 <= Rank(q, |values|) < |Sort(values)|
    ensures AtRank(values, Rank(q, |values|), Sort(values)[Rank(q, |values|)])
  {
    SortSorts(values);
    RankInRange(q, |values|);
    var i := Rank(q, |values|);
    CountAtIndex(Sort(values), i);
    CountSorted(values, Sort(values)[i]);
    assert Sort(values)[i] in multiset(Sort(values));
  }

  /** At most one value has a given rank. */
  lemma RankDecides(values: seq<real>, r: int, x: real, y: real)
    requires AtRank(values, r, x) && AtRank(values, r, y)
    ensures x == y
  {
    if x < y {
      CountsNest(values, x, y);
    } else if y < x {
      CountsNest(values, y, x);
    }
  }

  lemma {:induction false} CountsNest(s: seq<real>, x: real, y: real)
    requires x < y
    ensures CountAtMost(s, x) <= CountBelow(s, y)
  {
    if s == [] {
    } else {
      CountsNest(s[1..], x, y);
    }
  }

  lemma RanksAscend(n: nat)
    requires n > 0
    ensures 0 <= Rank(0.5, n) <= Rank(0.9, n) <= Rank(0.95, n) <= n - 1
  {
  }

  lemma LastIsMax(values: seq<real>)
    requires values != []
    ensures |Sort(values)| == |values|
    ensures var top := Sort(values)[|values| - 1]; top in values && forall i :: 0 <= i < |values| ==> values[i] <= top
  {
    var ordered := Sort(values);
    SortSorts(values);
    assert ordered[|values| - 1] in multiset(ordered);
    forall i | 0 <= i < |values| ensures values[i] <= ordered[|values| - 1] {
      assert values[i] in multiset(ordered);
      var j :| 0 <= j < |values| && ordered[j] == values[i];
    }
  }

  /** The reported value for a quantile. */
  function Reported(p: Percentiles, q: real): real
    requires q == 0.5 || q == 0.9 || q == 0.95
  {
    if q == 0.5 then p.p50 else if q == 0.9 then p.p90 else p.p95
  }

  lemma ReportedAtRank(values: seq<real>, q: real)
    requires values != [] && (q == 0.5 || q == 0.9 || q == 0.95)
    ensures 0 <= Rank(q, |values|) < |Sort(values)|
    ensures Reported(PercentilesOf(values).value, q) == Sort(values)[Rank(q, |values|)]
  {
    SortSorts(values);
    RankInRange(q, |values|);
  }

  lemma NearestIsRank(q: real, n: nat, r: int)
    requires n > 0 && 0.0 <= q <= 1.0
    requires q * (n - 1) as real - 0.5 <= r as real <= q * (n - 1) as real + 0.5
    requires r as real == q * (n - 1) as real - 0.5 || r as real == q * (n - 1) as real + 0.5 ==> r % 2 == 0
    ensures r == Rank(q, n)
  {
    RankInRange(q, n);
    assert Nearest(r, Position(q, n));
  }

  /**
   Exactly which value is reported for a quantile: the one at the whole number
   nearest `q * (n - 1)`, the even one of two, of the `n` values in order.
   */
  lemma ReportedExactly(values: seq<real>, q: real, r: int, x: real)
    requires values != [] && (q == 0.5 || q == 0.9 || q == 0.95)
    requires q * (|values| - 1) as real - 0.5 <= r as real <= q * (|values| - 1) as real + 0.5
    requires r as real == q * (|values| - 1) as real - 0.5 || r as real == q * (|values| - 1) as real + 0.5 ==> r % 2 == 0
    ensures Reported(PercentilesOf(values).value, q) == x <==>
              x in values && CountBelow(values, x) <= r < CountAtMost(values, x)
  {
    NearestIsRank(q, |values|, r);
    ReportedAtRank(values, q);
    EntryIsRanked(values, q);
    if AtRank(values, r, x) {
      RankDecides(values, r, x, Sort(values)[r]);
    }
  }

  /** For every list there is such a number, the values are in order, and the last is the greatest. */
  lemma PercentilesRanked(values: seq<real>)
    ensures PercentilesOf(values).Some? <==> values != []
    ensures values != [] ==>
              var p := PercentilesOf(values).value;
              && p.p50 <= p.p90 <= p.p95 <= p.max
              && p.max in values && forall i :: 0 <= i < |values| ==> values[i] <= p.max
  {
    if values != [] {
      SortSorts(values);
      RanksAscend(|values|);
      LastIsMax(values);
    }
  }

  /** The report does not depend on the order the durations came in. */
  lemma PercentilesIgnoreOrder(a: seq<real>, b: seq<real>)
    requires multiset(a) == multiset(b)
    ensures PercentilesOf(a) == PercentilesOf(b)
  {
    SortSorts(a);
    SortSorts(b);
    SortedUnique(Sort(a), Sort(b));
  }

  // ------------------------------------------------------------------- empty days

  /** Days that parsed, as day numbers; malformed ones are skipped. */
  function Seen(days: seq<Option<int>>): set<int> {
    set i | 0 <= i < |days| && days[i].Some? :: days[i].value
  }

  ghost predicate Bounds(seen: set<int>, first: int, last: int) {
    first in seen && last in seen && forall d :: d in seen ==> first <= d <= last
  }

  /** The loop that fills `seen`, with its least and greatest day. */
  method CollectSeen(days: seq<Option<int>>) returns (seen: set<int>, first: int, last: int)
    ensures seen == Seen(days)
    ensures seen != {} ==> Bounds(seen, first, last)
  {
    seen, first, last := {}, 0, 0;
    for i := 0 to |days|
      invariant seen == Seen(days[..i])
      invariant seen != {} ==> Bounds(seen, first, last)
    {
      assert Seen(days[..i + 1]) == Seen(days[..i]) + if days[i].Some? then {days[i].value} else {};
      if days[i].Some? {
        var day := days[i].value;
        if seen == {} || day < first {
          first := day;
        }
        if seen == {} || day > last {
          last := day;
        }
        seen := seen + {day};
      }
    }
    assert days[..|days|] == days;
  }

  ghost predicate Ascending(s: seq<int>) {
    forall i, j :: 0 <= i < j < |s| ==> s[i] < s[j]
  }

  /** `gaps` lists, in order, exactly the days from `first` to `last` that were not seen. */
  ghost predicate Gaps(gaps: seq<int>, seen: set<int>, first: int, last: int) {
    && Ascending(gaps)
    && forall d :: d in gaps <==> first <= d <= last && d !in seen
  }

  function Before(seen: set<int>, day: int): set<int> {
    set d | d in seen && d < day
  }

  lemma NextDay(seen: set<int>, day: int)
    ensures |Before(seen, day + 1)| == |Before(seen, day)| + if day in seen then 1 else 0
  {
    if day in seen {
      assert Before(seen, day + 1) == Before(seen, day) + {day};
    } else {
      assert Before(seen, day + 1) == Before(seen, day);
    }
  }

  /** The comprehension over the span; seen days and gaps add up to it. */
  method GapsBetween(seen: set<int>, start: int, end: int) returns (gaps: seq<int>)
    requires Bounds(seen, start, end)
    ensures Gaps(gaps, seen, start, end)
    ensures |gaps| + |seen| == end - start + 1
  {
    gaps := [];
    assert Before(seen, start) == {};
    for i := 0 to end - start + 1
      invariant |gaps| + |Before(seen, start + i)| == i
      invariant Ascending(gaps)
      invariant forall j :: 0 <= j < |gaps| ==> gaps[j] < start + i
      invariant forall d :: d in gaps <==> start <= d < start + i && d !in seen
    {
      NextDay(seen, start + i);
      if start + i !in seen {
        gaps := gaps + [start + i];
      }
    }
    assert Before(seen, end + 1) == seen;
  }

  ghost predicate ActiveBefore(days: seq<Option<int>>, d: int) {
    exists i :: 0 <= i < |days| && days[i].Some? && days[i].value < d
  }

  ghost predicate ActiveAfter(days: seq<Option<int>>, d: int) {
    exists i :: 0 <= i < |days| && days[i].Some? && days[i].value > d
  }

  /**
   The days without any activity that have active ones before and after them, in
   order and none missed; with the active ones they fill the span of both.
   */
  method EmptyDays(days: seq<Option<int>>) returns (gaps: seq<int>)
    ensures Ascending(gaps)
    ensures forall d :: d in gaps <==> Some(d) !in days && ActiveBefore(days, d) && ActiveAfter(days, d)
    ensures forall first, last :: Bounds(Seen(days), first, last) ==> |gaps| + |Seen(days)| == last - first + 1
  {
    var seen, start, end := CollectSeen(days);
    forall d ensures d in seen <==> Some(d) in days {
      if Some(d) in days {
        var i :| 0 <= i < |days| && days[i] == Some(d);
      }
    }
    if seen == {} {
      forall d ensures !ActiveBefore(days, d) {
        if ActiveBefore(days, d) {
          ActiveIsSeen(days, d);
        }
      }
      return [];
    }
    gaps := GapsBetween(seen, start, end);
    forall d | d !in seen ensures start <= d <= end <==> ActiveBefore(days, d) && ActiveAfter(days, d) {
      SpanIsBetween(days, start, end, d);
    }
  }

  lemma ActiveIsSeen(days: seq<Option<int>>, d: int)
    requires ActiveBefore(days, d)
    ensures Seen(days) != {}
  {
    var i :| 0 <= i < |days| && days[i].Some? && days[i].value < d;
    assert days[i].value in Seen(days);
  }

  lemma SpanIsBetween(days: seq<Option<int>>, start: int, end: int, d: int)
    requires Bounds(Seen(days), start, end) && d !in Seen(days)
    ensures start <= d <= end <==> ActiveBefore(days, d) && ActiveAfter(days, d)
  {
    var i :| 0 <= i < |days| && days[i] == Some(start);
    var j :| 0 <= j < |days| && days[j] == Some(end);
    if ActiveBefore(days, d) {
      var k :| 0 <= k < |days| && days[k].Some? && days[k].value < d;
      assert days[k].value in Seen(days);
    }
    if ActiveAfter(days, d) {
      var k :| 0 <= k < |days| && days[k].Some? && days[k].value > d;
      assert days[k].value in Seen(days);
    }
  }
}
