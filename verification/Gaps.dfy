/** The counter positions a partition leaves unexplained, as packages/audit/src/anomalies.ts lists them. */
module Gaps {
  import opened Bytes
  import opened Sorting

  const MAX_LISTED_POSITIONS: nat := 10000

  /** A proof's two counters, parsed; None where one is missing or not a numeral. */
  datatype Member = Member(counter: Option<nat>, slotCounter: Option<nat>)

  datatype Range = Range(start: int, end: int)

  datatype Report = Report(count: int, ranges: seq<Range>, positions: seq<int>, truncated: bool)

  // ---------------------------------------------------------------- explained positions

  predicate Explains(m: Member, p: int) {
    (m.counter.Some? && m.counter.value == p) || (m.slotCounter.Some? && m.slotCounter.value == p)
  }

  ghost predicate Explained(members: seq<Member>, p: int) {
    exists m :: m in members && Explains(m, p)
  }

  /** A set kept in insertion order. */
  function Add(s: seq<int>, x: int): seq<int> {
    if x in s then s else s + [x]
  }

  /** Every counter and every slot counter once. */
  method Collect(members: seq<Member>) returns (explained: seq<int>)
    ensures Distinct(explained) && forall p :: p in explained <==> Explained(members, p)
  {
    explained := [];
    for k := 0 to |members|
      invariant Distinct(explained)
      invariant forall p :: p in explained <==> Explained(members[..k], p)
    {
      var m := members[k];
      ghost var before := explained;
      if m.counter.Some? {
        explained := Add(explained, m.counter.value);
      }
      if m.slotCounter.Some? {
        explained := Add(explained, m.slotCounter.value);
      }
      forall p ensures p in explained <==> Explained(members[..k + 1], p) {
        ExplainedNext(members, k, p);
        assert p in explained <==> p in before || Explains(m, p);
      }
    }
    assert members[..|members|] == members;
  }

  lemma ExplainedNext(members: seq<Member>, k: nat, p: int)
    requires k < |members|
    ensures Explained(members[..k + 1], p) <==> Explained(members[..k], p) || Explains(members[k], p)
  {
    assert members[..k + 1] == members[..k] + [members[k]];
    if Explains(members[k], p) {
      assert members[k] in members[..k + 1];
    }
    if Explained(members[..k], p) {
      var m :| m in members[..k] && Explains(m, p);
      assert m in members[..k + 1];
    }
  }

  // ------------------------------------------------------------------------- the sort

  function Order(a: int, b: int): int {
    if a < b then -1 else if a > b then 1 else 0
  }

  ghost predicate Rising(s: seq<int>) {
    forall i, j :: 0 <= i < j < |s| ==> s[i] < s[j]
  }

  lemma SortedRises(s: seq<int>)
    requires Distinct(s)
    ensures var t := SortBy(Order, s); Rising(t) && |t| == |s| && forall p :: p in t <==> p in s
  {
    hide SortBy;
    var t := SortBy(Order, s);
    SortKeeps(Order, s);
    SortAscending(Order, s);
    forall p ensures p in t <==> p in s {
      SameElements(t, s, p);
    }
    forall i, j | 0 <= i < j < |t| ensures t[i] < t[j] {
      AscendingPair(Order, t, i, j);
      if t[i] == t[j] {
        AppearsTwice(t, i, j);
        SameElements(t, s, t[i]);
        var a :| 0 <= a < |s| && s[a] == t[i];
        AppearsOnce(s, a);
      }
    }
  }

  // ----------------------------------------------------------------------- the ranges

  ghost predicate Within(r: Range, p: int) {
    r.start <= p <= r.end
  }

  ghost predicate Covered(ranges: seq<Range>, p: int) {
    exists r :: r in ranges && Within(r, p)
  }

  /** Non-empty ranges in rising order that do not even touch, all below `top`. */
  ghost predicate Apart(ranges: seq<Range>, top: int) {
    && (forall i :: 0 <= i < |ranges| ==> ranges[i].start <= ranges[i].end && ranges[i].end < top)
    && (forall i, j :: 0 <= i < j < |ranges| ==> ranges[i].end + 1 < ranges[j].start)
  }

  /** Every position of the ranges, from the first to the last. */
  function Flatten(ranges: seq<Range>): seq<int> {
    if ranges == [] then [] else Flatten(Init(ranges)) + Span(Last(ranges).start, Last(ranges).end)
  }

  function Span(low: int, high: int): (s: seq<int>)
    ensures |s| == if low <= high then high - low + 1 else 0
    ensures forall i :: 0 <= i < |s| ==> s[i] == low + i
  {
    if low <= high then seq(high - low + 1, i => low + i) else []
  }

  function Cut(s: seq<int>, n: nat): seq<int> {
    if |s| <= n then s else s[..n]
  }

  lemma CutMore(s: seq<int>, t: seq<int>, n: nat)
    ensures |s| >= n ==> Cut(s + t, n) == Cut(s, n)
    ensures |s| < n ==> Cut(s + t, n) == s + Cut(t, n - |s|)
  {
  }

  /** The gaps between the sorted positions `sorted[..n]`. */
  ghost predicate Gapped(sorted: seq<int>, n: nat, ranges: seq<Range>, count: int)
    requires 1 <= n <= |sorted|
  {
    && Apart(ranges, sorted[n - 1])
    && (forall p :: Covered(ranges, p) <==> sorted[0] < p < sorted[n - 1] && p !in sorted)
    && count == sorted[n - 1] - sorted[0] + 1 - n && count == |Flatten(ranges)|
  }

  lemma GapNext(sorted: seq<int>, n: nat, ranges: seq<Range>, count: int)
    requires Rising(sorted) && 1 <= n < |sorted| && Gapped(sorted, n, ranges, count)
    ensures var low, high := sorted[n - 1] + 1, sorted[n] - 1;
            if low > high then Gapped(sorted, n + 1, ranges, count)
            else Gapped(sorted, n + 1, ranges + [Range(low, high)], count + (high - low + 1))
  {
    hide Flatten;
    var low, high := sorted[n - 1] + 1, sorted[n] - 1;
    forall p | sorted[n - 1] < p < sorted[n] ensures p !in sorted {
      Between(sorted, n, p);
    }
    if low <= high {
      var r := Range(low, high);
      FlattenNext(ranges, r);
      forall p ensures Covered(ranges + [r], p) <==> sorted[0] < p < sorted[n] && p !in sorted {
        CoveredNext(ranges, r, p);
        assert p == sorted[n - 1] ==> p in sorted;
        assert sorted[0] <= sorted[n - 1];
      }
    } else {
      forall p ensures Covered(ranges, p) <==> sorted[0] < p < sorted[n] && p !in sorted {
        assert p == sorted[n - 1] ==> p in sorted;
      }
    }
  }

  lemma Between(sorted: seq<int>, n: nat, p: int)
    requires Rising(sorted) && 1 <= n < |sorted| && sorted[n - 1] < p < sorted[n]
    ensures p !in sorted
  {
    forall k | 0 <= k < |sorted| ensures sorted[k] != p {
      if k < n - 1 {
        assert sorted[k] < sorted[n - 1];
      } else if k > n {
        assert sorted[n] < sorted[k];
      }
    }
  }

  lemma FlattenNext(ranges: seq<Range>, r: Range)
    ensures Flatten(ranges + [r]) == Flatten(ranges) + Span(r.start, r.end)
  {
    Snoc(ranges, r);
  }

  lemma CoveredNext(ranges: seq<Range>, r: Range, p: int)
    ensures Covered(ranges + [r], p) <==> Covered(ranges, p) || Within(r, p)
  {
    if Covered(ranges, p) {
      var q :| q in ranges && Within(q, p);
      assert q in ranges + [r];
    }
    if Within(r, p) {
      assert r in ranges + [r];
    }
  }

  /** The positions of one gap, listed while there is room. */
  method ListGap(positions: seq<int>, low: int, high: int) returns (listed: seq<int>)
    requires |positions| <= MAX_LISTED_POSITIONS
    ensures listed == positions + Cut(Span(low, high), MAX_LISTED_POSITIONS - |positions|)
  {
    listed := positions;
    var p := low;
    while p <= high && |listed| < MAX_LISTED_POSITIONS
      invariant low <= p && (p <= high + 1 || p == low)
      invariant listed == positions + Span(low, p - 1) && |listed| <= MAX_LISTED_POSITIONS
    {
      listed := listed + [p];
      p := p + 1;
    }
    if low <= high {
      assert Span(low, p - 1) == Cut(Span(low, high), MAX_LISTED_POSITIONS - |positions|);
    }
  }

  /** What is said of a partition when something is missing inside its range. */
  ghost predicate Reports(members: seq<Member>, min: int, max: int, size: nat, r: Report) {
    && Explained(members, min) && Explained(members, max)
    && (forall p :: Explained(members, p) ==> min <= p <= max)
    && Apart(r.ranges, max) && (forall i :: 0 <= i < |r.ranges| ==> min < r.ranges[i].start)
    && (forall p :: Covered(r.ranges, p) <==> min <= p <= max && !Explained(members, p))
    && r.count == max - min + 1 - size == |Flatten(r.ranges)| && r.count > 0
    && r.positions == Cut(Flatten(r.ranges), MAX_LISTED_POSITIONS)
    && (r.truncated <==> r.count > MAX_LISTED_POSITIONS)
  }

  /**
   * The report is exact: its ranges are the positions of [min, max] that no counter explains, its count is how
   * many they are, and its list is the first of them in order. There is none when nothing is missing.
   */
  method AnalyzeGaps(members: seq<Member>) returns (report: Option<Report>, explained: seq<int>)
    ensures Distinct(explained) && forall p :: p in explained <==> Explained(members, p)
    ensures report.Some? ==> exists min, max :: Reports(members, min, max, |explained|, report.value)
    ensures report.None? <==>
      forall a, b, p :: Explained(members, a) && Explained(members, b) && a <= p <= b ==> Explained(members, p)
  {
    hide SortBy, Order, Flatten, Explained, Apart, Covered;
    explained := Collect(members);
    if |explained| < 2 {
      assert forall a, b :: a in explained && b in explained ==> a == b;
      return None, explained;
    }
    var sorted := SortBy(Order, explained);
    SortedRises(explained);
    var ranges: seq<Range> := [];
    var positions: seq<int> := [];
    var count := 0;
    GapStart(sorted);
    for i := 1 to |sorted|
      invariant Gapped(sorted, i, ranges, count)
      invariant positions == Cut(Flatten(ranges), MAX_LISTED_POSITIONS)
    {
      var low, high := sorted[i - 1] + 1, sorted[i] - 1;
      GapNext(sorted, i, ranges, count);
      if low > high {
        continue;
      }
      FlattenNext(ranges, Range(low, high));
      CutMore(Flatten(ranges), Span(low, high), MAX_LISTED_POSITIONS);
      ranges := ranges + [Range(low, high)];
      count := count + (high - low + 1);
      positions := ListGap(positions, low, high);
    }
    Exactly(members, explained, sorted, ranges, count);
    if |ranges| == 0 {
      return None, explained;
    }
    report := Some(Report(count, ranges, positions, count > |positions|));
  }

  lemma GapStart(sorted: seq<int>)
    requires |sorted| > 0
    ensures Gapped(sorted, 1, [], 0) && Cut(Flatten([]), MAX_LISTED_POSITIONS) == []
  {
  }

  lemma Exactly(members: seq<Member>, explained: seq<int>, sorted: seq<int>, ranges: seq<Range>, count: int)
    requires forall p :: p in explained <==> Explained(members, p)
    requires Rising(sorted) && |sorted| == |explained| >= 2 && forall p :: p in sorted <==> p in explained
    requires Gapped(sorted, |sorted|, ranges, count)
    ensures var r := Report(count, ranges, Cut(Flatten(ranges), MAX_LISTED_POSITIONS),
      count > |Cut(Flatten(ranges), MAX_LISTED_POSITIONS)|);
      ranges != [] ==> Reports(members, sorted[0], Last(sorted), |explained|, r)
    ensures ranges == [] <==>
      forall a, b, p :: Explained(members, a) && Explained(members, b) && a <= p <= b ==> Explained(members, p)
  {
    hide Flatten, Explained;
    var min, max := sorted[0], sorted[|sorted| - 1];
    assert min in sorted && max in sorted;
    forall p | p in sorted ensures min <= p <= max {
      var k :| 0 <= k < |sorted| && sorted[k] == p;
    }
    if ranges == [] {
      forall a, b, p | Explained(members, a) && Explained(members, b) && a <= p <= b ensures Explained(members, p) {
        assert a in sorted && b in sorted;
        assert !Covered(ranges, p);
      }
    } else {
      forall i | 0 <= i < |ranges| ensures min < ranges[i].start {
        CoversStart(ranges, i);
      }
      CoversStart(ranges, 0);
      var p := ranges[0].start;
      assert min <= p <= max && !Explained(members, p);
      LongFlatten(ranges);
    }
  }

  lemma CoversStart(ranges: seq<Range>, i: nat)
    requires i < |ranges| && ranges[i].start <= ranges[i].end
    ensures Covered(ranges, ranges[i].start)
  {
    assert ranges[i] in ranges && Within(ranges[i], ranges[i].start);
  }

  lemma LongFlatten(ranges: seq<Range>)
    requires ranges != [] && Last(ranges).start <= Last(ranges).end
    ensures |Flatten(ranges)| > 0
  {
  }
}
