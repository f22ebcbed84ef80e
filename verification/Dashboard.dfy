/** Dashboard aggregation: distributions with an "other" row, trends, and rounded shares. */
module Dashboard {
  import opened Text
  import opened StableSort

  // ---------------------------------------------------------------------------------------------
  // Model distribution.
  // ---------------------------------------------------------------------------------------------

  datatype Mode = Requests | Tokens

  datatype Item = Item(model: string, requestCount: int, totalTokens: int)

  datatype Point = Point(model: string, value: int, requestCount: int, totalTokens: int)

  /** Where `slice(0, topN)` and `slice(topN)` both cut: a negative number counts from the end. */
  function Cut(n: nat, topN: int): (cut: nat)
    ensures cut <= n
  {
    if topN < 0 then (if n + topN < 0 then 0 else n + topN) else if topN < n then topN else n
  }

  function ValueOf(mode: Mode, requests: int, tokens: int): int { if mode == Tokens then tokens else requests }

  function ToPoint(mode: Mode, item: Item): Point {
    Point(item.model, ValueOf(mode, item.requestCount, item.totalTokens), item.requestCount, item.totalTokens)
  }

  function ToPoints(mode: Mode, items: seq<Item>): seq<Point> {
    seq(|items|, i requires 0 <= i < |items| => ToPoint(mode, items[i]))
  }

  function SumRequests(items: seq<Item>): int {
    if items == [] then 0 else SumRequests(items[..|items| - 1]) + items[|items| - 1].requestCount
  }

  function SumTokens(items: seq<Item>): int {
    if items == [] then 0 else SumTokens(items[..|items| - 1]) + items[|items| - 1].totalTokens
  }

  function BuildModelDistributionPoints(items: seq<Item>, mode: Mode, topN: int): seq<Point> {
    if items == [] then []
    else
      var cut := Cut(|items|, topN);
      var top := ToPoints(mode, items[..cut]);
      if |items| <= topN then top
      else
        top + [OtherPoint(mode, items[cut..])]
  }

  /** The rest of the items as one point. */
  function OtherPoint(mode: Mode, items: seq<Item>): Point {
    var requests, tokens := SumRequests(items), SumTokens(items);
    Point("other", ValueOf(mode, requests, tokens), requests, tokens)
  }

  datatype Measure = ByValue | ByRequests | ByTokens

  function Measured(m: Measure, p: Point): int {
    match m
    case ByValue => p.value
    case ByRequests => p.requestCount
    case ByTokens => p.totalTokens
  }

  /** A total over points. */
  function SumPoints(points: seq<Point>, m: Measure): int {
    if points == [] then 0 else SumPoints(points[..|points| - 1], m) + Measured(m, points[|points| - 1])
  }

  datatype Summary = Summary(rowCount: nat, topLabel: Option<string>, topValue: int, totalValue: int)

  /** `rest.reduce(add, first.value)`. */
  function SumFrom(points: seq<Point>, start: int): int {
    if points == [] then start else SumFrom(points[..|points| - 1], start) + points[|points| - 1].value
  }

  function SummarizeModelDistribution(points: seq<Point>): Summary {
    if points == [] then Summary(0, None, 0, 0)
    else Summary(|points|, Some(points[0].model), points[0].value, SumFrom(points[1..], points[0].value))
  }

  lemma {:induction false} SumRequestsAppend(a: seq<Item>, b: seq<Item>)
    ensures SumRequests(a + b) == SumRequests(a) + SumRequests(b)
    ensures SumTokens(a + b) == SumTokens(a) + SumTokens(b)
    decreases |b|
  {
    if b == [] {
      assert a + b == a;
    } else {
      assert (a + b)[..|a + b| - 1] == a + b[..|b| - 1];
      SumRequestsAppend(a, b[..|b| - 1]);
    }
  }

  /** A total over items. */
  function ItemTotal(mode: Mode, items: seq<Item>, m: Measure): int {
    match m
    case ByValue => ValueOf(mode, SumRequests(items), SumTokens(items))
    case ByRequests => SumRequests(items)
    case ByTokens => SumTokens(items)
  }

  lemma {:induction false} SumOfPoints(mode: Mode, items: seq<Item>, m: Measure)
    ensures SumPoints(ToPoints(mode, items), m) == ItemTotal(mode, items, m)
    decreases |items|
  {
    if items != [] {
      var n := |items| - 1;
      assert ToPoints(mode, items)[..n] == ToPoints(mode, items[..n]);
      SumOfPoints(mode, items[..n], m);
    }
  }

  lemma SumPointsAppend(points: seq<Point>, p: Point, m: Measure)
    ensures SumPoints(points + [p], m) == SumPoints(points, m) + Measured(m, p)
  {
    assert (points + [p])[..|points|] == points;
  }

  lemma SumWithOther(mode: Mode, top: seq<Item>, rest: seq<Item>, m: Measure)
    ensures SumPoints(ToPoints(mode, top) + [OtherPoint(mode, rest)], m) == ItemTotal(mode, top + rest, m)
  {
    SumOfPoints(mode, top, m);
    SumPointsAppend(ToPoints(mode, top), OtherPoint(mode, rest), m);
    SumRequestsAppend(top, rest);
  }

  /** Whatever is cut off into "other", requests, tokens and values are each conserved. */
  lemma DistributionConserves(items: seq<Item>, mode: Mode, topN: int, m: Measure)
    ensures var points := BuildModelDistributionPoints(items, mode, topN);
            SumPoints(points, m) == ItemTotal(mode, items, m) && (topN >= 0 ==> |points| <= topN + 1)
  {
    if items != [] {
      var cut := Cut(|items|, topN);
      if |items| <= topN {
        assert items[..cut] == items;
        SumOfPoints(mode, items, m);
      } else {
        assert items[..cut] + items[cut..] == items;
        SumWithOther(mode, items[..cut], items[cut..], m);
      }
    }
  }

  /** The items before the cut keep their order and values. */
  lemma TopItemsKeepTheirPlaces(items: seq<Item>, mode: Mode, topN: int, i: nat)
    requires i < Cut(|items|, topN)
    ensures var points := BuildModelDistributionPoints(items, mode, topN);
            i < |points| && points[i] == ToPoint(mode, items[i])
  {
    assert ToPoints(mode, items[..Cut(|items|, topN)])[i] == ToPoint(mode, items[i]);
  }

  /**
   * What is built: with a topN of at least 0 the first topN items, with a negative one all but that many of the
   * last, each as it is, and then, if items are left over, one point that stands for them.
   */
  lemma DistributionShape(items: seq<Item>, mode: Mode, topN: int, i: nat)
    ensures var points, n := BuildModelDistributionPoints(items, mode, topN), |items|;
            var kept := if topN >= n then n else if topN >= 0 then topN else if n + topN >= 0 then n + topN else 0;
            && |points| == kept + (if n > topN && n > 0 then 1 else 0)
            && (i < kept ==>
                  && points[i].model == items[i].model && points[i].requestCount == items[i].requestCount
                  && points[i].totalTokens == items[i].totalTokens
                  && points[i].value == if mode == Tokens then items[i].totalTokens else items[i].requestCount)
            && (i == kept < |points| ==>
                  && points[i].model == "other"
                  && points[i].value == if mode == Tokens then points[i].totalTokens else points[i].requestCount)
  {
    if i < Cut(|items|, topN) {
      TopItemsKeepTheirPlaces(items, mode, topN, i);
    }
  }

  /** The accessible summary counts the points and names the first. */
  lemma SummaryNamesTheFirst(points: seq<Point>)
    ensures var s := SummarizeModelDistribution(points);
            && s.rowCount == |points| && (points == [] <==> s.topLabel.None?) && (points == [] ==> s.topValue == 0)
            && (points != [] ==> s.topLabel == Some(points[0].model) && s.topValue == points[0].value)
  {
  }

  lemma {:induction false} SumFromIsSum(points: seq<Point>, first: Point)
    ensures SumFrom(points, first.value) == SumPoints([first] + points, ByValue)
    decreases |points|
  {
    if points == [] {
      assert [first] + points == [] + [first];
      SumPointsAppend([], first, ByValue);
    } else {
      var n := |points| - 1;
      assert [first] + points == ([first] + points[..n]) + [points[n]];
      SumPointsAppend([first] + points[..n], points[n], ByValue);
      SumFromIsSum(points[..n], first);
    }
  }

  /** The accessible summary's total is the total of all original items, for every topN. */
  lemma SummaryTotalIsComplete(items: seq<Item>, mode: Mode, topN: int)
    ensures SummarizeModelDistribution(BuildModelDistributionPoints(items, mode, topN)).totalValue
         == if mode == Tokens then SumTokens(items) else SumRequests(items)
  {
    var points := BuildModelDistributionPoints(items, mode, topN);
    DistributionConserves(items, mode, topN, ByValue);
    if points != [] {
      SumFromIsSum(points[1..], points[0]);
      assert [points[0]] + points[1..] == points;
    }
  }

  // ---------------------------------------------------------------------------------------------
  // Token trends.
  // ---------------------------------------------------------------------------------------------

  datatype Trend = Trend(
    hourStart: int, requestCount: int, inputTokens: int, cachedTokens: int, outputTokens: int, reasoningTokens: int,
    totalTokens: int)

  datatype ChartPoint = ChartPoint(timestamp: int, trend: Trend)

  function ByHour(): Order<Trend> { (a: Trend, b: Trend) => a.hourStart <= b.hourStart }

  function BuildChartPoints(trends: seq<Trend>): seq<ChartPoint> {
    var sorted := Sort(ByHour(), trends);
    seq(|sorted|, i requires 0 <= i < |sorted| => ChartPoint(sorted[i].hourStart * 1000, sorted[i]))
  }

  datatype Component = InputTokens | CachedTokens | OutputTokens | ReasoningTokens

  const COMPONENT_ORDER := [InputTokens, CachedTokens, OutputTokens, ReasoningTokens]

  function ComponentValue(c: Component, t: Trend): int {
    match c
    case InputTokens => t.inputTokens
    case CachedTokens => t.cachedTokens
    case OutputTokens => t.outputTokens
    case ReasoningTokens => t.reasoningTokens
  }

  datatype A11yRow = A11yRow(timestamp: int, values: seq<(Component, int)>)

  /** The components that a selection shows, in the fixed order. */
  function VisibleKeys(selection: set<Component>): seq<Component> { Filter(COMPONENT_ORDER, c => c in selection) }

  function BuildA11yRows(points: seq<ChartPoint>, selection: set<Component>): seq<A11yRow> {
    var keys := VisibleKeys(selection);
    seq(|points|, i requires 0 <= i < |points| =>
      A11yRow(points[i].timestamp,
              seq(|keys|, k requires 0 <= k < |keys| => (keys[k], ComponentValue(keys[k], points[i].trend)))))
  }

  datatype TrendSummary = TrendSummary(rowCount: nat, start: Option<int>, end: Option<int>)

  function SummarizeTrendRows(rows: seq<A11yRow>): TrendSummary {
    if rows == [] then TrendSummary(0, None, None)
    else TrendSummary(|rows|, Some(rows[0].timestamp), Some(rows[|rows| - 1].timestamp))
  }

  function Sparkline(trends: seq<Trend>, field: Trend -> int): seq<int> {
    var points := BuildChartPoints(trends);
    seq(|points|, i requires 0 <= i < |points| => field(points[i].trend))
  }

  lemma ByHourIsTotal()
    ensures Total(ByHour())
  {
  }

  lemma SortedMembers(trends: seq<Trend>)
    ensures var sorted := Sort(ByHour(), trends);
            && |sorted| == |trends| && Sorted(ByHour(), sorted) && multiset(sorted) == multiset(trends)
            && forall t :: t in sorted <==> t in trends
  {
    var sorted := Sort(ByHour(), trends);
    ByHourIsTotal();
    SortIsStable(ByHour(), trends);
    SortKeeps(ByHour(), trends);
    forall t ensures t in sorted <==> t in trends {
      assert t in sorted <==> t in multiset(sorted);
      assert t in trends <==> t in multiset(trends);
    }
  }

  /** The first and the last of the sorted trends are the earliest and the latest. */
  lemma SortedEnds(trends: seq<Trend>, t: Trend)
    requires t in trends
    ensures var sorted := Sort(ByHour(), trends);
            && |sorted| == |trends| && sorted[0] in trends && sorted[|sorted| - 1] in trends
            && sorted[0].hourStart <= t.hourStart <= sorted[|sorted| - 1].hourStart
  {
    var sorted := Sort(ByHour(), trends);
    SortedMembers(trends);
    var n := |sorted| - 1;
    assert sorted[0] in sorted && sorted[n] in sorted && t in sorted;
    var i :| 0 <= i < |sorted| && sorted[i] == t;
    BetweenEnds(sorted, i);
  }

  lemma BetweenEnds(sorted: seq<Trend>, i: nat)
    requires Sorted(ByHour(), sorted) && i < |sorted|
    ensures sorted[0].hourStart <= sorted[i].hourStart <= sorted[|sorted| - 1].hourStart
  {
    assert i > 0 ==> ByHour()(sorted[0], sorted[i]);
    assert i < |sorted| - 1 ==> ByHour()(sorted[i], sorted[|sorted| - 1]);
  }

  /** A summary shows the first and the last hour of the points. */
  lemma SummaryOfPoints(trends: seq<Trend>, selection: set<Component>)
    ensures var sorted := Sort(ByHour(), trends);
            SummarizeTrendRows(BuildA11yRows(BuildChartPoints(trends), selection))
            == if sorted == [] then TrendSummary(0, None, None)
               else TrendSummary(|sorted|, Some(sorted[0].hourStart * 1000),
                                 Some(sorted[|sorted| - 1].hourStart * 1000))
  {
    var points := BuildChartPoints(trends);
    RowStamps(points, selection);
    PointStamps(trends);
  }

  lemma RowStamps(points: seq<ChartPoint>, selection: set<Component>)
    ensures var rows := BuildA11yRows(points, selection);
            |rows| == |points| && forall i :: 0 <= i < |rows| ==> rows[i].timestamp == points[i].timestamp
  {
  }

  lemma PointStamps(trends: seq<Trend>)
    ensures var points, sorted := BuildChartPoints(trends), Sort(ByHour(), trends);
            && |points| == |sorted|
            && forall i :: 0 <= i < |points| ==> points[i].timestamp == sorted[i].hourStart * 1000
  {
  }

  /** The accessible summary of any unsorted trends spans exactly their earliest and latest hours. */
  lemma TrendSummarySpans(trends: seq<Trend>, selection: set<Component>)
    ensures var s := SummarizeTrendRows(BuildA11yRows(BuildChartPoints(trends), selection));
            && s.rowCount == |trends|
            && (trends == [] <==> s.start.None?) && (trends == [] <==> s.end.None?)
            && (trends != [] ==>
                  && (exists t :: t in trends && s.start == Some(t.hourStart * 1000))
                  && (exists t :: t in trends && s.end == Some(t.hourStart * 1000))
                  && (forall t :: t in trends ==> s.start.value <= t.hourStart * 1000 <= s.end.value))
  {
    SummaryOfPoints(trends, selection);
    SortedMembers(trends);
    forall t | t in trends
      ensures var sorted := Sort(ByHour(), trends);
              sorted != [] && sorted[0].hourStart <= t.hourStart <= sorted[|sorted| - 1].hourStart
    {
      SortedEnds(trends, t);
    }
    if trends != [] {
      SortedEnds(trends, trends[0]);
    }
  }

  function Asked(c: Component, t: Trend): int {
    if c == InputTokens then t.inputTokens
    else if c == CachedTokens then t.cachedTokens
    else if c == OutputTokens then t.outputTokens
    else t.reasoningTokens
  }

  /** The place of a component in the fixed order: prompt, cached prompt, completion, reasoning. */
  function OrderOf(c: Component): nat {
    match c
    case InputTokens => 0
    case CachedTokens => 1
    case OutputTokens => 2
    case ReasoningTokens => 3
  }

  lemma VisibleComponents(selection: set<Component>)
    ensures var keys := VisibleKeys(selection);
            && (forall c :: c in keys <==> c in selection)
            && forall i, j :: 0 <= i < j < |keys| ==> OrderOf(keys[i]) < OrderOf(keys[j])
  {
    var keep := c => c in selection;
    forall c: Component ensures c in COMPONENT_ORDER {
      match c
      case InputTokens => assert COMPONENT_ORDER[0] == c;
      case CachedTokens => assert COMPONENT_ORDER[1] == c;
      case OutputTokens => assert COMPONENT_ORDER[2] == c;
      case ReasoningTokens => assert COMPONENT_ORDER[3] == c;
    }
    FilterKeepsOrder(COMPONENT_ORDER, keep);
  }

  ghost predicate Ascends(s: seq<Component>) {
    forall i, j :: 0 <= i < j < |s| ==> OrderOf(s[i]) < OrderOf(s[j])
  }

  lemma {:induction false} FilterKeepsOrder(s: seq<Component>, keep: Component -> bool)
    requires Ascends(s)
    ensures Ascends(Filter(s, keep))
  {
    if s != [] {
      var rest := Filter(s[1..], keep);
      FilterKeepsOrder(s[1..], keep);
      if keep(s[0]) {
        forall j | 0 <= j < |rest| ensures OrderOf(s[0]) < OrderOf(rest[j]) {
          assert rest[j] in s[1..];
          var k :| 0 <= k < |s[1..]| && s[1..][k] == rest[j];
        }
      }
    }
  }

  lemma RowValues(points: seq<ChartPoint>, selection: set<Component>, i: nat)
    requires i < |points|
    ensures var rows, keys := BuildA11yRows(points, selection), VisibleKeys(selection);
            && |rows| == |points| && rows[i].timestamp == points[i].timestamp && |rows[i].values| == |keys|
            && forall k :: 0 <= k < |keys| ==> rows[i].values[k] == (keys[k], Asked(keys[k], points[i].trend))
  {
  }

  /** Every accessible row shows, at its time, exactly the selected components of its trend, in the fixed order. */
  lemma RowsShowSelection(points: seq<ChartPoint>, selection: set<Component>, i: nat, c: Component)
    requires i < |points|
    ensures var rows := BuildA11yRows(points, selection);
            && |rows| == |points| && rows[i].timestamp == points[i].timestamp
            && (c in selection ==> (c, Asked(c, points[i].trend)) in rows[i].values)
            && (forall k :: 0 <= k < |rows[i].values| && rows[i].values[k].0 == c ==>
                  c in selection && rows[i].values[k].1 == Asked(c, points[i].trend))
            && forall j, k :: 0 <= j < k < |rows[i].values| ==>
                 OrderOf(rows[i].values[j].0) < OrderOf(rows[i].values[k].0)
  {
    var keys, values := VisibleKeys(selection), BuildA11yRows(points, selection)[i].values;
    VisibleComponents(selection);
    RowValues(points, selection, i);
    if c in selection {
      var k :| 0 <= k < |keys| && keys[k] == c;
      assert values[k] in values;
    }
    forall k | 0 <= k < |values| && values[k].0 == c ensures c in selection {
      assert keys[k] in keys;
    }
  }

  function MapField(trends: seq<Trend>, field: Trend -> int): seq<int> {
    seq(|trends|, i requires 0 <= i < |trends| => field(trends[i]))
  }

  lemma {:induction false} MapInsert(trends: seq<Trend>, x: Trend, field: Trend -> int)
    ensures multiset(MapField(Insert(ByHour(), x, trends), field))
         == multiset(MapField(trends, field)) + multiset{field(x)}
  {
    var le := ByHour();
    if trends == [] || le(x, trends[0]) {
      assert MapField([x] + trends, field) == [field(x)] + MapField(trends, field);
    } else {
      var rest := trends[1..];
      MapInsert(rest, x, field);
      var inserted := Insert(le, x, rest);
      assert MapField([trends[0]] + inserted, field) == [field(trends[0])] + MapField(inserted, field);
      assert MapField(trends, field) == [field(trends[0])] + MapField(rest, field);
    }
  }

  lemma {:induction false} MapSort(trends: seq<Trend>, field: Trend -> int)
    ensures multiset(MapField(Sort(ByHour(), trends), field)) == multiset(MapField(trends, field))
  {
    if trends != [] {
      MapSort(trends[1..], field);
      MapInsert(Sort(ByHour(), trends[1..]), trends[0], field);
      assert MapField(trends, field) == [field(trends[0])] + MapField(trends[1..], field);
    }
  }

  /** The trends by hour, those of one hour in their old order. */
  ghost predicate InHourOrder(trends: seq<Trend>, sorted: seq<Trend>) {
    Sorted(ByHour(), sorted) && Stable(ByHour(), trends, sorted) && multiset(sorted) == multiset(trends)
  }

  /** A sparkline is the field's values, each kept, in the order of the hours. */
  lemma SparklineIsPermutation(trends: seq<Trend>, field: Trend -> int)
    ensures multiset(Sparkline(trends, field)) == multiset(MapField(trends, field))
    ensures exists sorted :: InHourOrder(trends, sorted) && Sparkline(trends, field) == MapField(sorted, field)
  {
    var sorted := Sort(ByHour(), trends);
    MapSort(trends, field);
    SortedMembers(trends);
    ByHourIsTotal();
    SortIsStable(ByHour(), trends);
    assert Sparkline(trends, field) == MapField(sorted, field);
    assert InHourOrder(trends, sorted);
  }

  // ---------------------------------------------------------------------------------------------
  // Rounded shares.
  // ---------------------------------------------------------------------------------------------

  function Sum(counts: seq<nat>): nat {
    if counts == [] then 0 else Sum(counts[..|counts| - 1]) + counts[|counts| - 1]
  }

  /** The share before rounding, in percent. */
  function Exact(value: nat, total: nat): real
    requires total > 0
  {
    value as real / total as real * 100.0
  }

  /** `Math.round((value / total) * 100)`, or 0 without a total. */
  function Share(value: nat, total: nat): int {
    if total > 0 then (Exact(value, total) + 0.5).Floor else 0
  }

  function SharesOf(counts: seq<nat>, total: nat): seq<int> {
    seq(|counts|, i requires 0 <= i < |counts| => Share(counts[i], total))
  }

  function Shares(counts: seq<nat>): seq<int> { SharesOf(counts, Sum(counts)) }

  function SumShares(shares: seq<int>): int {
    if shares == [] then 0 else SumShares(shares[..|shares| - 1]) + shares[|shares| - 1]
  }

  lemma ExactAdds(a: nat, b: nat, total: nat)
    requires total > 0
    ensures Exact(a + b, total) == Exact(a, total) + Exact(b, total)
  {
    assert (a as real + b as real) / total as real == a as real / total as real + b as real / total as real;
  }

  lemma ExactMonotone(a: nat, b: nat, total: nat)
    requires total > 0 && a <= b
    ensures 0.0 <= Exact(a, total) <= Exact(b, total)
  {
    var x, y, t := a as real, b as real, total as real;
    assert 0.0 <= x / t <= y / t;
  }

  lemma ExactWhole(total: nat)
    requires total > 0
    ensures Exact(total, total) == 100.0 && Exact(0, total) == 0.0
  {
  }

  lemma {:induction false} SharesAddUp(counts: seq<nat>, total: nat)
    requires total > 0
    ensures var error := SumShares(SharesOf(counts, total)) as real - Exact(Sum(counts), total);
            -(|counts| as real) <= 2.0 * error <= |counts| as real
    decreases |counts|
  {
    ExactWhole(total);
    if counts != [] {
      var n := |counts| - 1;
      assert SharesOf(counts, total)[..n] == SharesOf(counts[..n], total);
      SharesAddUp(counts[..n], total);
      ExactAdds(Sum(counts[..n]), counts[n], total);
    }
  }

  lemma {:induction false} PartAtMostSum(counts: seq<nat>, i: nat)
    requires i < |counts|
    ensures counts[i] <= Sum(counts)
  {
    if i < |counts| - 1 {
      PartAtMostSum(counts[..|counts| - 1], i);
    }
  }

  /** Twice the share of a value misses twice its exact share by at most one in a hundred. */
  predicate Nearest(share: int, value: int, total: int) {
    -1 * total <= 2 * (share * total - 100 * value) <= total
  }

  lemma ShareIsNearest(value: nat, total: nat)
    requires total > 0
    ensures Nearest(Share(value, total), value, total)
  {
    var t, e, share := total as real, Exact(value, total), Share(value, total);
    ExactTimes(value as real, t);
    ScaledError(share as real, e, t, 100.0 * value as real);
    assert share as real * t == (share * total) as real;
  }

  lemma ExactTimes(v: real, t: real)
    requires t > 0.0
    ensures v / t * 100.0 * t == 100.0 * v
  {
  }

  lemma ScaledError(s: real, e: real, t: real, p: real)
    requires t > 0.0 && -0.5 <= s - e <= 0.5 && e * t == p
    ensures -t <= 2.0 * (s * t - p) <= t
  {
    var d := s - e;
    assert s * t == d * t + p;
    Half(d, t);
  }

  lemma Half(d: real, t: real)
    requires t > 0.0 && -0.5 <= d <= 0.5
    ensures -t <= 2.0 * (d * t) <= t
  {
    assert (0.5 - d) * t >= 0.0;
    assert (d + 0.5) * t >= 0.0;
  }

  /** Without anything counted every share is 0. */
  lemma NothingHasNoShare(counts: seq<nat>, i: nat)
    requires Sum(counts) == 0 && i < |counts|
    ensures i < |Shares(counts)| && Shares(counts)[i] == 0
  {
  }

  /** Rounded shares lie in 0..100 and together miss 100 by at most half a percent each. */
  lemma SharesNearHundred(counts: seq<nat>)
    requires Sum(counts) > 0
    ensures |Shares(counts)| == |counts| && forall i :: 0 <= i < |counts| ==> 0 <= Shares(counts)[i] <= 100
    ensures forall i :: 0 <= i < |counts| ==> Nearest(Shares(counts)[i], counts[i], Sum(counts))
    ensures -|counts| <= 2 * (SumShares(Shares(counts)) - 100) <= |counts|
  {
    var total := Sum(counts);
    ExactWhole(total);
    forall i | 0 <= i < |counts| ensures 0 <= Shares(counts)[i] <= 100 {
      PartAtMostSum(counts, i);
      ExactMonotone(counts[i], total, total);
    }
    forall i | 0 <= i < |counts| ensures Nearest(Shares(counts)[i], counts[i], total) {
      ShareIsNearest(counts[i], total);
    }
    SharesAddUp(counts, total);
  }

  /** For the four pool states and the five health classes the shares miss 100 by at most 2. */
  lemma FourOrFiveSharesMissByTwo(counts: seq<nat>)
    requires Sum(counts) > 0 && |counts| <= 5
    ensures 98 <= SumShares(Shares(counts)) <= 102
  {
    SharesNearHundred(counts);
  }
}
