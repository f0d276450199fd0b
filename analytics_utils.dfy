/**
 * The analytics computed over one item's price history
 * (`lib/analyticsUtils.ts`): the store allow-list, the price statistics and
 * trend, the per-date chart series, the distinct store list, the store colours
 * and the list of item names.
 */
module AnalyticsUtils {
  import opened Wrappers
  import opened Sequences
  import opened Strings
  import opened ItemsProcessor

  // ---------------------------------------------------------------------------
  // The store allow-list

  /** `history.filter(entry => stores.includes(entry.store))`. */
  function KeepStores(history: seq<ItemPriceEntry>, stores: seq<string>): (r: seq<ItemPriceEntry>)
    ensures SubsequenceOf(r, history)
    ensures forall e :: e in r <==> e in history && e.store in stores
    decreases |history|
  {
    if history == [] then []
    else
      var init := history[..|history| - 1];
      var last := history[|history| - 1];
      var r := KeepStores(init, stores);
      SubsequenceFacts(r, init);
      assert forall e :: e in history <==> e in init || e == last;
      if last.store in stores then
        assert (r + [last])[..|r|] == r;
        r + [last]
      else r
  }

  /** An empty allow-list keeps the whole history; otherwise only the listed stores, in order. */
  function SelectStores(history: seq<ItemPriceEntry>, selectedStores: seq<string>): (r: seq<ItemPriceEntry>)
    ensures selectedStores == [] ==> r == history
    ensures SubsequenceOf(r, history)
    ensures selectedStores != [] ==> forall e :: e in r <==> e in history && e.store in selectedStores
  {
    if |selectedStores| > 0 then KeepStores(history, selectedStores)
    else
      SubsequenceRefl(history);
      history
  }

  // ---------------------------------------------------------------------------
  // Statistics

  /** `history.reduce((min, e) => e.price < min.price ? e : min)`, as an index. */
  function CheapestIndex(h: seq<ItemPriceEntry>): (k: nat)
    requires h != []
    ensures k < |h|
    ensures forall i :: 0 <= i < |h| ==> h[k].price <= h[i].price
    ensures forall i :: 0 <= i < k ==> h[k].price < h[i].price
    decreases |h|
  {
    if |h| == 1 then 0
    else
      var m := CheapestIndex(h[..|h| - 1]);
      if h[|h| - 1].price < h[m].price then |h| - 1 else m
  }

  /** `history.reduce((max, e) => e.price > max.price ? e : max)`, as an index. */
  function MostExpensiveIndex(h: seq<ItemPriceEntry>): (k: nat)
    requires h != []
    ensures k < |h|
    ensures forall i :: 0 <= i < |h| ==> h[i].price <= h[k].price
    ensures forall i :: 0 <= i < k ==> h[i].price < h[k].price
    decreases |h|
  {
    if |h| == 1 then 0
    else
      var m := MostExpensiveIndex(h[..|h| - 1]);
      if h[|h| - 1].price > h[m].price then |h| - 1 else m
  }

  /** `history.reduce((sum, e) => sum + e.price, 0)`. */
  function Sum(h: seq<ItemPriceEntry>): real
    decreases |h|
  {
    if h == [] then 0.0 else Sum(h[..|h| - 1]) + h[|h| - 1].price
  }

  /** `x` added to itself `n` times. */
  function Times(n: nat, x: real): real {
    if n == 0 then 0.0 else Times(n - 1, x) + x
  }

  lemma {:induction false} TimesIsProduct(n: nat, x: real)
    ensures Times(n, x) == n as real * x
  {
    if n > 0 {
      TimesIsProduct(n - 1, x);
    }
  }

  /** A sum of prices between `lo` and `hi` lies between `|h|` times each. */
  lemma {:induction false} SumBounds(h: seq<ItemPriceEntry>, lo: real, hi: real)
    requires forall e :: e in h ==> lo <= e.price <= hi
    ensures Times(|h|, lo) <= Sum(h) <= Times(|h|, hi)
    decreases |h|
  {
    if h != [] {
      var init := h[..|h| - 1];
      assert forall e :: e in init ==> e in h;
      assert h[|h| - 1] in h;
      SumBounds(init, lo, hi);
    }
  }

  /** A total of `n` terms between `lo` and `hi`, divided by `n`, lies between `lo` and `hi`. */
  lemma QuotientBounds(total: real, n: nat, lo: real, hi: real)
    requires n > 0 && Times(n, lo) <= total <= Times(n, hi)
    ensures lo <= total / n as real <= hi
  {
    TimesIsProduct(n, lo);
    TimesIsProduct(n, hi);
    var q := total / n as real;
    assert q * n as real == total;
  }

  /** The percentage change, with the values IEEE arithmetic gives when the oldest price is zero. */
  datatype PriceChange = Finite(percent: real) | PositiveInfinity | NegativeInfinity | NotANumber

  /**
   * `((newest - oldest) / oldest) * 100`: a finite percentage exactly when the
   * oldest price is not zero, and then the change relative to the oldest price;
   * from zero, an infinity of the sign of the change, or NaN for no change.
   */
  function PercentChange(oldest: real, newest: real): (r: PriceChange)
    ensures r.Finite? <==> oldest != 0.0
    ensures r.Finite? ==> r.percent * oldest == (newest - oldest) * 100.0
    ensures oldest == 0.0 ==> (r.PositiveInfinity? <==> newest > 0.0) && (r.NegativeInfinity? <==> newest < 0.0)
  {
    if oldest != 0.0 then Finite((newest - oldest) / oldest * 100.0)
    else if newest > 0.0 then PositiveInfinity
    else if newest < 0.0 then NegativeInfinity
    else NotANumber
  }

  /** Changes of at most this many percent, either way, count as stable. */
  const TREND_THRESHOLD: real := 5.0

  datatype Trend = Up | Down | Stable

  /** `Math.abs(priceChange) > 5 ? (priceChange > 0 ? 'up' : 'down') : 'stable'`; NaN compares false. */
  function TrendOf(change: PriceChange): (t: Trend)
    ensures t == Up <==> change.PositiveInfinity? || (change.Finite? && change.percent > TREND_THRESHOLD)
    ensures t == Down <==> change.NegativeInfinity? || (change.Finite? && change.percent < -TREND_THRESHOLD)
    ensures t == Stable <==> change.NotANumber? || (change.Finite? && -TREND_THRESHOLD <= change.percent <= TREND_THRESHOLD)
  {
    match change
    case Finite(p) => if Abs(p) > TREND_THRESHOLD then (if p > 0.0 then Up else Down) else Stable
    case PositiveInfinity => Up
    case NegativeInfinity => Down
    case NotANumber => Stable
  }

  /**
   * For a positive oldest price the percentage is the relative change, and the
   * trend is up exactly when the newest price exceeds the oldest by more than
   * 5%, down exactly when it is more than 5% below, and stable otherwise.
   */
  lemma TrendMeaning(oldest: real, newest: real)
    requires oldest > 0.0
    ensures PercentChange(oldest, newest).Finite?
    ensures PercentChange(oldest, newest).percent * oldest == (newest - oldest) * 100.0
    ensures TrendOf(PercentChange(oldest, newest)) == Up <==> newest * 100.0 > oldest * 105.0
    ensures TrendOf(PercentChange(oldest, newest)) == Down <==> newest * 100.0 < oldest * 95.0
    ensures TrendOf(PercentChange(oldest, newest)) == Stable <==>
      oldest * 95.0 <= newest * 100.0 <= oldest * 105.0
  {
    var p := (newest - oldest) / oldest * 100.0;
    PercentTimesOldest(oldest, newest);
    PercentAgainstThreshold(oldest, newest, p);
  }

  lemma PercentAgainstThreshold(oldest: real, newest: real, p: real)
    requires oldest > 0.0
    requires p * oldest == (newest - oldest) * 100.0
    ensures p > 5.0 <==> newest * 100.0 > oldest * 105.0
    ensures p < -5.0 <==> newest * 100.0 < oldest * 95.0
  {
    ScaleByPositive(p, 5.0, oldest);
    ScaleByPositive(-5.0, p, oldest);
  }

  lemma PercentTimesOldest(oldest: real, newest: real)
    requires oldest > 0.0
    ensures ((newest - oldest) / oldest * 100.0) * oldest == (newest - oldest) * 100.0
  {
  }

  lemma ScaleByPositive(x: real, y: real, k: real)
    requires k > 0.0
    ensures x > y <==> x * k > y * k
  {
    if x > y {
      assert (x - y) * k > 0.0;
    } else {
      assert (y - x) * k >= 0.0;
    }
  }

  /** With a zero oldest price any rise is up, any fall is down, and no change is stable. */
  lemma TrendFromZero(newest: real)
    ensures TrendOf(PercentChange(0.0, newest)) == Up <==> newest > 0.0
    ensures TrendOf(PercentChange(0.0, newest)) == Down <==> newest < 0.0
    ensures TrendOf(PercentChange(0.0, newest)) == Stable <==> newest == 0.0
  {
  }

  datatype PriceStatistics = PriceStatistics(
    cheapestStore: string,
    cheapestPrice: real,
    cheapestDate: int,
    mostExpensiveStore: string,
    mostExpensivePrice: real,
    mostExpensiveDate: int,
    averagePrice: real,
    totalPurchases: nat,
    priceChange: PriceChange,
    trend: Trend)

  /** `calculateStatistics`: no statistics without an item or without a purchase at the selected stores. */
  function CalculateStatistics(item: Option<ProcessedItem>, selectedStores: seq<string>): (r: Option<PriceStatistics>)
    ensures r.None? <==> item.None? || SelectStores(item.value.priceHistory, selectedStores) == []
    ensures r.Some? ==> r.value.totalPurchases == |SelectStores(item.value.priceHistory, selectedStores)|
  {
    if item.None? then None
    else
      var h := SelectStores(item.value.priceHistory, selectedStores);
      if |h| == 0 then None
      else
        var cheapest := h[CheapestIndex(h)];
        var mostExpensive := h[MostExpensiveIndex(h)];
        var averagePrice := Sum(h) / |h| as real;
        var firstPrice := h[|h| - 1].price;
        var lastPrice := h[0].price;
        var priceChange := PercentChange(firstPrice, lastPrice);
        Some(PriceStatistics(cheapest.store, cheapest.price, cheapest.date,
                             mostExpensive.store, mostExpensive.price, mostExpensive.date,
                             averagePrice, |h|, priceChange, TrendOf(priceChange)))
  }

  /** Every price of a non-empty history lies between the reduce minimum and maximum. */
  lemma HistoryBounds(h: seq<ItemPriceEntry>)
    requires h != []
    ensures forall e :: e in h ==> h[CheapestIndex(h)].price <= e.price <= h[MostExpensiveIndex(h)].price
  {
    forall e | e in h ensures h[CheapestIndex(h)].price <= e.price <= h[MostExpensiveIndex(h)].price {
      var i :| 0 <= i < |h| && h[i] == e;
    }
  }

  /** The mean of a non-empty history lies between any bounds of its prices. */
  lemma MeanBetween(h: seq<ItemPriceEntry>, lo: real, hi: real)
    requires h != []
    requires forall e :: e in h ==> lo <= e.price <= hi
    ensures lo <= Sum(h) / |h| as real <= hi
  {
    SumBounds(h, lo, hi);
    QuotientBounds(Sum(h), |h|, lo, hi);
  }

  /** Every selected price, and the average, lie between the cheapest and the most expensive price. */
  lemma StatisticsBounds(item: ProcessedItem, selectedStores: seq<string>)
    requires CalculateStatistics(Some(item), selectedStores).Some?
    ensures var s := CalculateStatistics(Some(item), selectedStores).value;
      && (forall e :: e in SelectStores(item.priceHistory, selectedStores) ==>
            s.cheapestPrice <= e.price <= s.mostExpensivePrice)
      && s.cheapestPrice <= s.averagePrice <= s.mostExpensivePrice
  {
    var h := SelectStores(item.priceHistory, selectedStores);
    HistoryBounds(h);
    MeanBetween(h, h[CheapestIndex(h)].price, h[MostExpensiveIndex(h)].price);
  }

  /**
   * The cheapest and the most expensive purchase are actual selected
   * purchases, each the first of its price in history order.
   */
  lemma StatisticsExtremes(item: ProcessedItem, selectedStores: seq<string>)
    requires CalculateStatistics(Some(item), selectedStores).Some?
    ensures var h := SelectStores(item.priceHistory, selectedStores);
      var s := CalculateStatistics(Some(item), selectedStores).value;
      && (exists k :: 0 <= k < |h| && h[k].store == s.cheapestStore && h[k].price == s.cheapestPrice &&
            h[k].date == s.cheapestDate && forall i :: 0 <= i < k ==> h[i].price > s.cheapestPrice)
      && (exists k :: 0 <= k < |h| && h[k].store == s.mostExpensiveStore && h[k].price == s.mostExpensivePrice &&
            h[k].date == s.mostExpensiveDate && forall i :: 0 <= i < k ==> h[i].price < s.mostExpensivePrice)
  {
    var h := SelectStores(item.priceHistory, selectedStores);
    var c := CheapestIndex(h);
    var m := MostExpensiveIndex(h);
    assert forall i :: 0 <= i < c ==> h[i].price > h[c].price;
    assert forall i :: 0 <= i < m ==> h[i].price < h[m].price;
  }

  /** The change runs from the oldest selected purchase (last) to the newest (first). */
  lemma StatisticsChange(item: ProcessedItem, selectedStores: seq<string>)
    requires CalculateStatistics(Some(item), selectedStores).Some?
    ensures var h := SelectStores(item.priceHistory, selectedStores);
      var s := CalculateStatistics(Some(item), selectedStores).value;
      s.priceChange == PercentChange(h[|h| - 1].price, h[0].price) &&
      s.trend == TrendOf(s.priceChange) &&
      (h[|h| - 1].price > 0.0 ==>
        (s.trend == Up <==> h[0].price * 100.0 > h[|h| - 1].price * 105.0) &&
        (s.trend == Down <==> h[0].price * 100.0 < h[|h| - 1].price * 95.0))
  {
    var h := SelectStores(item.priceHistory, selectedStores);
    if h[|h| - 1].price > 0.0 {
      TrendMeaning(h[|h| - 1].price, h[0].price);
    }
  }

  /** Three purchases, newest first at 4, 3 and 3: a third more, trend up, average 10/3. */
  lemma StatisticsExample()
    ensures var h := [ItemPriceEntry("A", 4.0, None, 3, "r3", 3),
                      ItemPriceEntry("B", 3.0, None, 2, "r2", 2),
                      ItemPriceEntry("A", 3.0, None, 1, "r1", 1)];
      var item := ProcessedItem("Milk", "milk", 4.0, "A", 3, None, h);
      CalculateStatistics(Some(item), []) == Some(PriceStatistics(
        "B", 3.0, 2, "A", 4.0, 3, 10.0 / 3.0, 3, Finite(100.0 / 3.0), Up))
  {
    var h := [ItemPriceEntry("A", 4.0, None, 3, "r3", 3),
              ItemPriceEntry("B", 3.0, None, 2, "r2", 2),
              ItemPriceEntry("A", 3.0, None, 1, "r1", 1)];
    assert h[..1] == [h[0]] && h[..2] == [h[0], h[1]];
    assert CheapestIndex(h[..2]) == 1;
    assert CheapestIndex(h) == 1;
    assert MostExpensiveIndex(h[..2]) == 0;
    assert MostExpensiveIndex(h) == 0;
    assert Sum(h[..1]) == 4.0;
    assert Sum(h[..2]) == 7.0;
    assert Sum(h) == 10.0;
  }

  // ---------------------------------------------------------------------------
  // Chart series

  /** A chart point: a billing date and the price of each store on that date. */
  datatype ChartPoint = ChartPoint(date: int, prices: map<string, real>)

  /**
   * `existing ? (existing + price) / 2 : price`: an existing 0 counts as absent.
   * A non-zero existing price and the new one are equally far from the result,
   * which lies between them.
   */
  function FoldPrice(existing: Option<real>, price: real): (r: real)
    ensures existing.None? || existing == Some(0.0) ==> r == price
    ensures existing.Some? && existing.value != 0.0 ==>
      r - existing.value == price - r &&
      (existing.value <= r <= price || price <= r <= existing.value)
  {
    if existing.Some? && existing.value != 0.0 then (existing.value + price) / 2.0 else price
  }

  /**
   * The store map the fold builds for `date` from the entries of `h`, in order;
   * with no entry on that date it stays empty.
   */
  function StorePricesOn(h: seq<ItemPriceEntry>, date: int): (m: map<string, real>)
    ensures date !in Dates(h) ==> m == map[]
    decreases |h|
  {
    if h == [] then map[]
    else
      assert Dates(h[..|h| - 1]) == Dates(h)[..|h| - 1];
      var m := StorePricesOn(h[..|h| - 1], date);
      var e := h[|h| - 1];
      if e.date != date then m
      else m[e.store := FoldPrice(if e.store in m then Some(m[e.store]) else None, e.price)]
  }

  function Dates(h: seq<ItemPriceEntry>): (dates: seq<int>)
    ensures |dates| == |h|
    ensures forall i :: 0 <= i < |h| ==> dates[i] == h[i].date
    decreases |h|
  {
    if h == [] then [] else Dates(h[..|h| - 1]) + [h[|h| - 1].date]
  }

  /** A point carries a store exactly when some entry of that store was bought on its date. */
  lemma {:induction false} StorePricesKeys(h: seq<ItemPriceEntry>, date: int)
    ensures forall store :: store in StorePricesOn(h, date) <==>
      exists e :: e in h && e.date == date && e.store == store
    decreases |h|
  {
    if h != [] {
      var init := h[..|h| - 1];
      StorePricesKeys(init, date);
      assert forall e :: e in h <==> e in init || e == h[|h| - 1];
    }
  }

  /** The folded price of a store on a date lies between the least and greatest of its prices that day. */
  lemma {:induction false} StorePricesBetween(h: seq<ItemPriceEntry>, date: int, store: string, lo: real, hi: real)
    requires forall e :: e in h && e.date == date && e.store == store ==> lo <= e.price <= hi
    requires store in StorePricesOn(h, date)
    ensures lo <= StorePricesOn(h, date)[store] <= hi
    decreases |h|
  {
    var init := h[..|h| - 1];
    var e := h[|h| - 1];
    assert forall x :: x in init ==> x in h;
    assert e in h;
    if store in StorePricesOn(init, date) {
      StorePricesBetween(init, date, store, lo, hi);
    }
  }

  /** Two purchases at one store on one day average, when the first price is not zero. */
  lemma ChartFoldTwo(store: string, date: int, p1: real, p2: real)
    requires p1 != 0.0
    ensures var h := [ItemPriceEntry(store, p1, None, date, "r1", 1), ItemPriceEntry(store, p2, None, date, "r2", 2)];
      StorePricesOn(h, date) == map[store := (p1 + p2) / 2.0]
  {
    var h := [ItemPriceEntry(store, p1, None, date, "r1", 1), ItemPriceEntry(store, p2, None, date, "r2", 2)];
    assert h[..1] == [h[0]] && [h[0]][..0] == [];
    assert StorePricesOn(h[..1], date) == map[store := p1];
  }

  /** Three purchases at 1, 2 and 3 on one day chart as 2.25, not as their mean 2. */
  lemma ChartFoldIsNotTheMean()
    ensures var h := [ItemPriceEntry("A", 1.0, None, 5, "r1", 1), ItemPriceEntry("A", 2.0, None, 5, "r2", 2),
                      ItemPriceEntry("A", 3.0, None, 5, "r3", 3)];
      StorePricesOn(h, 5)["A"] == 2.25 && (1.0 + 2.0 + 3.0) / 3.0 == 2.0
  {
    var h := [ItemPriceEntry("A", 1.0, None, 5, "r1", 1), ItemPriceEntry("A", 2.0, None, 5, "r2", 2),
              ItemPriceEntry("A", 3.0, None, 5, "r3", 3)];
    assert h[..1] == [h[0]] && h[..2] == [h[0], h[1]] && [h[0]][..0] == [] && [h[0], h[1]][..1] == [h[0]];
    assert StorePricesOn(h[..1], 5) == map["A" := 1.0];
    assert StorePricesOn(h[..2], 5) == map["A" := 1.5];
  }

  /** A price of 0 already charted is overwritten by the next one, not averaged with it. */
  lemma ChartFoldSkipsZero()
    ensures var h := [ItemPriceEntry("A", 0.0, None, 5, "r1", 1), ItemPriceEntry("A", 4.0, None, 5, "r2", 2)];
      StorePricesOn(h, 5)["A"] == 4.0
  {
    var h := [ItemPriceEntry("A", 0.0, None, 5, "r1", 1), ItemPriceEntry("A", 4.0, None, 5, "r2", 2)];
    assert h[..1] == [h[0]] && [h[0]][..0] == [];
    assert StorePricesOn(h[..1], 5) == map["A" := 0.0];
  }

  /** `dateMap` after the entries `seen`: its keys in insertion order, each with its folded store map. */
  ghost predicate ChartGrouped(dateMap: map<int, map<string, real>>, dateOrder: seq<int>, seen: seq<ItemPriceEntry>) {
    dateOrder == Dedup(Dates(seen)) &&
    (forall d :: d in dateMap <==> d in dateOrder) &&
    (forall d :: d in dateMap ==> dateMap[d] == StorePricesOn(seen, d))
  }

  lemma StorePricesStep(seen: seq<ItemPriceEntry>, e: ItemPriceEntry, date: int)
    ensures var m := StorePricesOn(seen, date);
      StorePricesOn(seen + [e], date) ==
        if e.date != date then m
        else m[e.store := FoldPrice(if e.store in m then Some(m[e.store]) else None, e.price)]
  {
    assert (seen + [e])[..|seen|] == seen;
  }

  lemma ChartGroupedStep(dateMap: map<int, map<string, real>>, dateOrder: seq<int>, seen: seq<ItemPriceEntry>,
                         e: ItemPriceEntry, withDate: map<int, map<string, real>>, newOrder: seq<int>,
                         newStoreMap: map<string, real>)
    requires ChartGrouped(dateMap, dateOrder, seen)
    requires withDate == if e.date in dateMap then dateMap else dateMap[e.date := map[]]
    requires newOrder == if e.date in dateMap then dateOrder else dateOrder + [e.date]
    requires var storeMap := withDate[e.date];
      newStoreMap == storeMap[e.store := FoldPrice(if e.store in storeMap then Some(storeMap[e.store]) else None, e.price)]
    ensures ChartGrouped(withDate[e.date := newStoreMap], newOrder, seen + [e])
  {
    var seen1 := seen + [e];
    var newMap := withDate[e.date := newStoreMap];
    assert newOrder == Dedup(Dates(seen1)) by {
      assert Dates(seen1) == Dates(seen) + [e.date];
      DedupAppend(Dates(seen), e.date);
    }
    assert withDate[e.date] == StorePricesOn(seen, e.date) by {
      if e.date !in dateMap {
        assert e.date !in Dates(seen);
      }
    }
    forall d | d in newMap ensures newMap[d] == StorePricesOn(seen1, d) {
      StorePricesStep(seen, e, d);
    }
  }

  /** The chart points for `dates`, in that order. */
  function ChartPoints(h: seq<ItemPriceEntry>, dates: seq<int>): (points: seq<ChartPoint>)
    ensures |points| == |dates|
    decreases |dates|
  {
    if dates == [] then []
    else
      var d := dates[|dates| - 1];
      ChartPoints(h, dates[..|dates| - 1]) + [ChartPoint(d, StorePricesOn(h, d))]
  }

  lemma {:induction false} ChartPointsAt(h: seq<ItemPriceEntry>, dates: seq<int>, i: nat)
    requires i < |dates|
    ensures ChartPoints(h, dates)[i] == ChartPoint(dates[i], StorePricesOn(h, dates[i]))
    decreases |dates|
  {
    if i < |dates| - 1 {
      ChartPointsAt(h, dates[..|dates| - 1], i);
    }
  }

  lemma ChartPointsStep(h: seq<ItemPriceEntry>, dates: seq<int>, n: nat)
    requires n < |dates|
    ensures ChartPoints(h, dates[..n + 1]) == ChartPoints(h, dates[..n]) + [ChartPoint(dates[n], StorePricesOn(h, dates[n]))]
  {
    assert dates[..n + 1][..n] == dates[..n];
  }

  /** The comparator of the chart sort: `a.dateObj.getTime() - b.dateObj.getTime()`. */
  predicate DateOrder(a: ChartPoint, b: ChartPoint) {
    a.date <= b.date
  }

  lemma DateOrderIsTotal()
    ensures TotalPreorder(DateOrder)
  {
  }

  /** The chart series of a history: one point per distinct date, ascending, each with its folded store prices. */
  ghost predicate IsChartOf(chartData: seq<ChartPoint>, h: seq<ItemPriceEntry>) {
    (forall i, j :: 0 <= i < j < |chartData| ==> chartData[i].date < chartData[j].date) &&
    (forall d :: (exists p :: p in chartData && p.date == d) <==> d in Dates(h)) &&
    (forall p :: p in chartData ==> p.prices == StorePricesOn(h, p.date))
  }

  /** Two points of `points` with one date are the same point. */
  ghost predicate KeyedByDate(points: seq<ChartPoint>) {
    forall p, q :: p in points && q in points && p.date == q.date ==> p == q
  }

  /** The points of distinct dates: one per date, each carrying that date's folded prices. */
  lemma ChartPointsFacts(h: seq<ItemPriceEntry>, dates: seq<int>)
    requires NoDup(dates)
    ensures var points := ChartPoints(h, dates);
      && NoDup(points)
      && KeyedByDate(points)
      && (forall p :: p in points ==> p.date in dates && p.prices == StorePricesOn(h, p.date))
      && (forall d :: d in dates ==> ChartPoint(d, StorePricesOn(h, d)) in points)
  {
    var points := ChartPoints(h, dates);
    forall i | 0 <= i < |points| ensures points[i] == ChartPoint(dates[i], StorePricesOn(h, dates[i])) {
      ChartPointsAt(h, dates, i);
    }
    forall x, y | 0 <= x < y < |points| ensures points[x] != points[y] {
      assert dates[x] != dates[y];
    }
  }

  /** Sorting the points of the distinct dates by date yields the chart series. */
  lemma SortedPointsAreChart(h: seq<ItemPriceEntry>, sorted: seq<ChartPoint>)
    requires multiset(sorted) == multiset(ChartPoints(h, Dedup(Dates(h))))
    requires SortedBy(sorted, DateOrder)
    ensures IsChartOf(sorted, h)
  {
    var dates := Dedup(Dates(h));
    var points := ChartPoints(h, dates);
    ChartPointsFacts(h, dates);
    PermutationKeepsNoDup(points, sorted);
    assert forall p :: p in sorted <==> p in points by {
      forall p ensures p in sorted <==> p in points {
        assert p in sorted <==> p in multiset(sorted);
      }
    }
    forall i, j | 0 <= i < j < |sorted| ensures sorted[i].date < sorted[j].date {
      assert sorted[i] in points && sorted[j] in points;
    }
    forall d | d in Dates(h) ensures exists p :: p in sorted && p.date == d {
      assert ChartPoint(d, StorePricesOn(h, d)) in points;
    }
  }

  /** `prepareChartData`: no chart without an item; otherwise the chart series of the selected history. */
  method PrepareChartData(item: Option<ProcessedItem>, selectedStores: seq<string>) returns (chartData: seq<ChartPoint>)
    ensures item.None? ==> chartData == []
    ensures item.Some? ==> IsChartOf(chartData, SelectStores(item.value.priceHistory, selectedStores))
  {
    if item.None? {
      return [];
    }
    var filteredHistory := SelectStores(item.value.priceHistory, selectedStores);
    var dateMap: map<int, map<string, real>> := map[];
    var dateOrder: seq<int> := [];
    for i := 0 to |filteredHistory|
      invariant ChartGrouped(dateMap, dateOrder, filteredHistory[..i])
    {
      ghost var dateMap0, dateOrder0 := dateMap, dateOrder;
      var entry := filteredHistory[i];
      if entry.date !in dateMap {
        dateMap := dateMap[entry.date := map[]];
        dateOrder := dateOrder + [entry.date];
      }
      ghost var withDate := dateMap;
      var storeMap := dateMap[entry.date];
      var existing := if entry.store in storeMap then Some(storeMap[entry.store]) else None;
      var price: real;
      if existing.Some? && existing.value != 0.0 {
        price := (existing.value + entry.price) / 2.0;
      } else {
        price := entry.price;
      }
      assert price == FoldPrice(existing, entry.price);
      storeMap := storeMap[entry.store := price];
      dateMap := dateMap[entry.date := storeMap];
      ChartGroupedStep(dateMap0, dateOrder0, filteredHistory[..i], entry, withDate, dateOrder, storeMap);
      PrefixStep(filteredHistory, i);
    }
    assert filteredHistory[..|filteredHistory|] == filteredHistory;

    var points: seq<ChartPoint> := [];
    for n := 0 to |dateOrder|
      invariant points == ChartPoints(filteredHistory, dateOrder[..n])
    {
      ChartPointsStep(filteredHistory, dateOrder, n);
      points := points + [ChartPoint(dateOrder[n], dateMap[dateOrder[n]])];
    }
    assert dateOrder[..|dateOrder|] == dateOrder;
    DateOrderIsTotal();
    chartData := SortBy(points, DateOrder);
    SortedPointsAreChart(filteredHistory, chartData);
  }

  // ---------------------------------------------------------------------------
  // Stores, colours and names

  /** `getUniqueStores`: the distinct selected store names of the receipts, ascending. */
  method GetUniqueStores(receipts: seq<Receipt>) returns (stores: seq<string>)
    ensures StrictlySorted(stores)
    ensures forall s :: s in stores <==> exists r :: r in receipts && r.storeNameSelected == s
  {
    var storesSet: seq<string> := [];
    for i := 0 to |receipts|
      invariant NoDup(storesSet)
      invariant forall s :: s in storesSet <==> exists k :: 0 <= k < i && receipts[k].storeNameSelected == s
    {
      if receipts[i].storeNameSelected !in storesSet {
        storesSet := storesSet + [receipts[i].storeNameSelected];
      }
    }
    stores := SortStrings(storesSet);
    SortStringsOfSet(storesSet);
    forall r | r in receipts ensures r.storeNameSelected in storesSet {
      var k :| 0 <= k < |receipts| && receipts[k] == r;
    }
  }

  /** The rotating palette for stores without a brand colour. */
  const PALETTE: seq<string> := ["#D4AF37", "#2E7D32", "#1976D2", "#D32F2F", "#7B1FA2", "#F57C00", "#0097A7", "#C2185B"]

  /** The brand colours, as `(name fragment, colour)` in the order they are tried. */
  const BRANDS: seq<(string, string)> := [("walmart", "#0071CE"), ("target", "#CC0000"), ("costco", "#0066B2"),
                                           ("whole foods", "#00A652"), ("kroger", "#E32D1C")]

  /** The colour of the first brand whose name occurs in `storeLower`, if any. */
  function BrandColor(storeLower: string, brands: seq<(string, string)>): (r: Option<string>)
    ensures r.Some? ==> exists b :: b in brands && Contains(storeLower, b.0) && r.value == b.1
    ensures r.None? <==> forall b :: b in brands ==> !Contains(storeLower, b.0)
    decreases |brands|
  {
    if brands == [] then None
    else if Contains(storeLower, brands[0].0) then Some(brands[0].1)
    else BrandColor(storeLower, brands[1..])
  }

  /** `getStoreColor`: a brand colour when the lower-cased name mentions the brand, else the palette entry `index mod 8`. */
  function GetStoreColor(store: string, index: nat): (color: string)
    ensures color in PALETTE || exists b :: b in BRANDS && color == b.1
    ensures BrandColor(Lower(store), BRANDS).None? ==> color == PALETTE[index % 8]
  {
    match BrandColor(Lower(store), BRANDS)
    case Some(c) => c
    case None => PALETTE[index % |PALETTE|]
  }

  /** The colour does not depend on letter case. */
  lemma StoreColorIgnoresCase(store: string, index: nat)
    ensures GetStoreColor(Lower(store), index) == GetStoreColor(store, index)
  {
    LowerIdempotent(store);
  }

  /** Without a brand the colour repeats every eight indices; with one the index does not matter. */
  lemma StoreColorPeriodic(store: string, index: nat, other: nat)
    ensures GetStoreColor(store, index + |PALETTE|) == GetStoreColor(store, index)
    ensures BrandColor(Lower(store), BRANDS).Some? ==> GetStoreColor(store, index) == GetStoreColor(store, other)
  {
    assert (index + 8) % 8 == index % 8;
  }

  /** The colour is that of the first brand, in the order tried, whose name the lower-cased store name contains. */
  lemma {:induction false} FirstBrandWins(storeLower: string, brands: seq<(string, string)>, k: nat)
    requires k < |brands| && Contains(storeLower, brands[k].0)
    requires forall j :: 0 <= j < k ==> !Contains(storeLower, brands[j].0)
    ensures BrandColor(storeLower, brands) == Some(brands[k].1)
    decreases k
  {
    if k > 0 {
      assert !Contains(storeLower, brands[0].0);
      FirstBrandWins(storeLower, brands[1..], k - 1);
    }
  }

  /** A store mentioning the k-th brand, and none before it, gets the k-th brand colour whatever its index. */
  lemma StoreColorOfBrand(store: string, index: nat, k: nat)
    requires k < |BRANDS| && Contains(Lower(store), BRANDS[k].0)
    requires forall j :: 0 <= j < k ==> !Contains(Lower(store), BRANDS[j].0)
    ensures GetStoreColor(store, index) == BRANDS[k].1
  {
    FirstBrandWins(Lower(store), BRANDS, k);
  }

  /** The comparator of `getItemNamesForAnalytics`: `a.toLowerCase().localeCompare(b.toLowerCase())`. */
  predicate NameOrderIgnoringCase(a: string, b: string) {
    StrLessEq(Lower(a), Lower(b))
  }

  lemma CaseInsensitiveOrderIsTotal()
    ensures TotalPreorder(NameOrderIgnoringCase)
  {
    forall a, b ensures NameOrderIgnoringCase(a, b) || NameOrderIgnoringCase(b, a) {
      StrLessEqTotal(Lower(a), Lower(b));
    }
    forall a, b, c | NameOrderIgnoringCase(a, b) && NameOrderIgnoringCase(b, c)
      ensures NameOrderIgnoringCase(a, c)
    {
      StrLessEqTransitive(Lower(a), Lower(b), Lower(c));
    }
  }

  function DisplayNames(items: seq<ProcessedItem>): (names: seq<string>)
    ensures |names| == |items|
    ensures forall i :: 0 <= i < |items| ==> names[i] == items[i].name
    decreases |items|
  {
    if items == [] then [] else DisplayNames(items[..|items| - 1]) + [items[|items| - 1].name]
  }

  /** `getItemNamesForAnalytics`: the display names of the processed items, ordered ignoring case. */
  function GetItemNamesForAnalytics(receipts: seq<Receipt>): (names: seq<string>)
    ensures SortedBy(names, NameOrderIgnoringCase)
    ensures multiset(names) == multiset(DisplayNames(ProcessedItems(receipts)))
  {
    CaseInsensitiveOrderIsTotal();
    SortBy(DisplayNames(ProcessedItems(receipts)), NameOrderIgnoringCase)
  }

  /** Every name offered for analytics looks up an item. */
  lemma ItemNamesLookUp(receipts: seq<Receipt>, name: string)
    requires name in GetItemNamesForAnalytics(receipts)
    ensures GetItemByName(receipts, name).Some?
    ensures GetItemByName(receipts, name).value.name == name
  {
    var items := ProcessedItems(receipts);
    var names := DisplayNames(items);
    assert name in multiset(names);
    var i :| 0 <= i < |names| && names[i] == name;
    GetItemByNameRoundTrip(receipts, items[i]);
  }
}
