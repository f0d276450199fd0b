/**
 * The item price-history engine of `lib/itemsProcessor.ts`: every line item of
 * every receipt becomes a per-unit price entry, entries are grouped by the
 * canonical item name, each group is sorted by receipt timestamp and passed
 * through the price-variation filter, and the survivors become one
 * `ProcessedItem` per canonical name.
 */
module ItemsProcessor {
  import opened Wrappers
  import opened Sequences
  import opened Strings

  /** A line item as extracted from a receipt (`ReceiptItem`); an absent quantity is `None`. */
  datatype LineItem = LineItem(
    name: string,
    quantity: Option<real>,
    unitPrice: Option<real>,
    totalPrice: real,
    unit: Option<string>)

  /**
   * A stored receipt (`SavedReceipt`). Billing dates and save timestamps are
   * ordered integer keys; the scanned store name and the upload date play no
   * part in the engine.
   */
  datatype Receipt = Receipt(
    id: string,
    storeNameSelected: string,
    billingDate: int,
    items: seq<LineItem>,
    timestamp: int)

  datatype ItemPriceEntry = ItemPriceEntry(
    store: string,
    price: real,
    unit: Option<string>,
    date: int,
    receiptId: string,
    timestamp: int)

  datatype ProcessedItem = ProcessedItem(
    name: string,
    normalizedName: string,
    latestPrice: real,
    latestStore: string,
    latestDate: int,
    latestUnit: Option<string>,
    priceHistory: seq<ItemPriceEntry>)

  // ---------------------------------------------------------------------------
  // Step 1: one price entry per line item

  /** `item.quantity || 1`: an absent or zero quantity divides by one. */
  function Divisor(item: LineItem): (d: real)
    ensures d != 0.0
    ensures d == 1.0 || item.quantity == Some(d)
    ensures item.quantity.Some? && item.quantity.value != 0.0 ==> d == item.quantity.value
  {
    if item.quantity.Some? && item.quantity.value != 0.0 then item.quantity.value else 1.0
  }

  /** The per-unit price observation a line item contributes: the price times the divisor is the line total. */
  function PriceEntry(receipt: Receipt, item: LineItem): (e: ItemPriceEntry)
    ensures e.price * Divisor(item) == item.totalPrice
  {
    ItemPriceEntry(receipt.storeNameSelected, item.totalPrice / Divisor(item), item.unit,
                   receipt.billingDate, receipt.id, receipt.timestamp)
  }

  /**
   * The entry's price times the quantity is the line total, and an absent or
   * zero quantity leaves the total as the price; store, date, unit and receipt
   * come from the line item and its receipt.
   */
  lemma PerUnitPrice(receipt: Receipt, item: LineItem)
    ensures var e := PriceEntry(receipt, item);
      (item.quantity.Some? && item.quantity.value != 0.0 ==> e.price * item.quantity.value == item.totalPrice) &&
      (item.quantity.None? || item.quantity == Some(0.0) ==> e.price == item.totalPrice) &&
      e.store == receipt.storeNameSelected && e.date == receipt.billingDate &&
      e.receiptId == receipt.id && e.timestamp == receipt.timestamp && e.unit == item.unit
  {
  }

  /** A line item together with its canonical name and the entry it contributes. */
  datatype Observation = Observation(key: string, name: string, entry: ItemPriceEntry)

  /** The key of an observation is already canonical: canonicalising it again changes nothing. */
  function Observe(receipt: Receipt, item: LineItem): (o: Observation)
    ensures LowerTrim(o.key) == o.key && o.name == item.name
  {
    LowerTrimIdempotent(item.name);
    Observation(LowerTrim(item.name), item.name, PriceEntry(receipt, item))
  }

  /** The observations of `items`, all bought on `receipt`. */
  function ItemObservations(receipt: Receipt, items: seq<LineItem>): (obs: seq<Observation>)
    ensures |obs| == |items|
    decreases |items|
  {
    if items == [] then []
    else ItemObservations(receipt, items[..|items| - 1]) + [Observe(receipt, items[|items| - 1])]
  }

  lemma {:induction false} ItemObservationsAt(receipt: Receipt, items: seq<LineItem>, j: nat)
    requires j < |items|
    ensures ItemObservations(receipt, items)[j] == Observe(receipt, items[j])
    decreases |items|
  {
    if j < |items| - 1 {
      var init := items[..|items| - 1];
      ItemObservationsAt(receipt, init, j);
      assert ItemObservations(receipt, items)[j] == ItemObservations(receipt, init)[j];
    }
  }

  lemma ItemObservationsStep(before: seq<Observation>, receipt: Receipt, j: nat)
    requires j < |receipt.items|
    ensures before + ItemObservations(receipt, receipt.items[..j + 1])
      == (before + ItemObservations(receipt, receipt.items[..j])) + [Observe(receipt, receipt.items[j])]
  {
    assert receipt.items[..j + 1][..j] == receipt.items[..j];
  }

  /** Every line item of every receipt, in receipt order and then item order. */
  function Observations(receipts: seq<Receipt>): seq<Observation>
    decreases |receipts|
  {
    if receipts == [] then []
    else Observations(receipts[..|receipts| - 1]) + ItemObservations(receipts[|receipts| - 1], receipts[|receipts| - 1].items)
  }

  /** `receipts.flatMap(r => r.extractedData.items)`. */
  function AllItems(receipts: seq<Receipt>): seq<LineItem>
    decreases |receipts|
  {
    if receipts == [] then []
    else AllItems(receipts[..|receipts| - 1]) + receipts[|receipts| - 1].items
  }

  lemma {:induction false} ObservationsMatchItems(receipts: seq<Receipt>)
    ensures |Observations(receipts)| == |AllItems(receipts)|
    ensures forall i :: 0 <= i < |AllItems(receipts)| ==>
      Observations(receipts)[i].name == AllItems(receipts)[i].name &&
      Observations(receipts)[i].key == LowerTrim(AllItems(receipts)[i].name)
    decreases |receipts|
  {
    if receipts != [] {
      var init := receipts[..|receipts| - 1];
      var last := receipts[|receipts| - 1];
      ObservationsMatchItems(init);
      forall i | |AllItems(init)| <= i < |AllItems(receipts)|
        ensures Observations(receipts)[i] == Observe(last, last.items[i - |AllItems(init)|])
        ensures AllItems(receipts)[i] == last.items[i - |AllItems(init)|]
      {
        ItemObservationsAt(last, last.items, i - |AllItems(init)|);
      }
    }
  }

  function ObservedKeys(obs: seq<Observation>): (keys: seq<string>)
    ensures |keys| == |obs|
    ensures forall i :: 0 <= i < |obs| ==> keys[i] == obs[i].key
    decreases |obs|
  {
    if obs == [] then [] else ObservedKeys(obs[..|obs| - 1]) + [obs[|obs| - 1].key]
  }

  /** The keys of the grouping `Map`, in its insertion order. */
  function ItemKeys(obs: seq<Observation>): seq<string> {
    Dedup(ObservedKeys(obs))
  }

  /** The entries of the group for `key`, in observation order. */
  function Group(obs: seq<Observation>, key: string): seq<ItemPriceEntry>
    decreases |obs|
  {
    if obs == [] then []
    else
      var last := obs[|obs| - 1];
      Group(obs[..|obs| - 1], key) + (if last.key == key then [last.entry] else [])
  }

  /**
   * Every line item lands in the group of its canonical name and in no other:
   * the group for `key` holds one entry per line item whose name normalises to
   * `key`, and each of its entries comes from such a line item.
   */
  lemma GroupIsPartition(obs: seq<Observation>, key: string)
    ensures |Group(obs, key)| == multiset(ObservedKeys(obs))[key]
    ensures forall i :: 0 <= i < |obs| && obs[i].key == key ==> obs[i].entry in Group(obs, key)
    ensures forall e :: e in Group(obs, key) ==>
      exists i :: 0 <= i < |obs| && obs[i].key == key && obs[i].entry == e
  {
    GroupSize(obs, key);
    GroupComplete(obs, key);
    GroupSound(obs, key);
  }

  lemma {:induction false} GroupSize(obs: seq<Observation>, key: string)
    ensures |Group(obs, key)| == multiset(ObservedKeys(obs))[key]
    decreases |obs|
  {
    if obs != [] {
      GroupSize(obs[..|obs| - 1], key);
    }
  }

  lemma {:induction false} GroupComplete(obs: seq<Observation>, key: string)
    ensures forall i :: 0 <= i < |obs| && obs[i].key == key ==> obs[i].entry in Group(obs, key)
    decreases |obs|
  {
    if obs != [] {
      var init := obs[..|obs| - 1];
      GroupComplete(init, key);
      forall i | 0 <= i < |obs| && obs[i].key == key ensures obs[i].entry in Group(obs, key) {
        if i < |obs| - 1 {
          assert obs[i] == init[i];
        }
      }
    }
  }

  lemma {:induction false} GroupSound(obs: seq<Observation>, key: string)
    ensures forall e :: e in Group(obs, key) ==>
      exists i :: 0 <= i < |obs| && obs[i].key == key && obs[i].entry == e
    decreases |obs|
  {
    if obs != [] {
      var init := obs[..|obs| - 1];
      GroupSound(init, key);
      forall e | e in Group(obs, key)
        ensures exists i :: 0 <= i < |obs| && obs[i].key == key && obs[i].entry == e
      {
        if e in Group(init, key) {
          var i :| 0 <= i < |init| && init[i].key == key && init[i].entry == e;
          assert obs[i] == init[i];
        } else {
          assert obs[|obs| - 1].key == key && obs[|obs| - 1].entry == e;
        }
      }
    }
  }

  lemma {:induction false} GroupEmptyUnlessObserved(obs: seq<Observation>, key: string)
    requires key !in ObservedKeys(obs)
    ensures Group(obs, key) == []
    decreases |obs|
  {
    if obs != [] {
      var init := obs[..|obs| - 1];
      assert ObservedKeys(obs) == ObservedKeys(init) + [obs[|obs| - 1].key];
      GroupEmptyUnlessObserved(init, key);
    }
  }

  lemma GroupNonEmpty(obs: seq<Observation>, key: string)
    requires key in ObservedKeys(obs)
    ensures Group(obs, key) != []
  {
    GroupIsPartition(obs, key);
  }

  // ---------------------------------------------------------------------------
  // Step 4: the price-variation filter

  /** Two prices closer than this are the same price. */
  const PRICE_TOLERANCE: real := 0.01

  function Abs(x: real): real {
    if x < 0.0 then -x else x
  }

  /** The last entry of `kept` from `store`, if any. */
  function LastKept(kept: seq<ItemPriceEntry>, store: string): (r: Option<ItemPriceEntry>)
    ensures r.Some? ==> r.value in kept && r.value.store == store
    decreases |kept|
  {
    if kept == [] then None
    else if kept[|kept| - 1].store == store then Some(kept[|kept| - 1])
    else LastKept(kept[..|kept| - 1], store)
  }

  /** A store has no last kept entry exactly when none of the kept entries is from it. */
  lemma {:induction false} LastKeptNone(kept: seq<ItemPriceEntry>, store: string)
    ensures LastKept(kept, store).None? <==> forall e :: e in kept ==> e.store != store
    decreases |kept|
  {
    if kept != [] {
      LastKeptNone(kept[..|kept| - 1], store);
      assert kept == kept[..|kept| - 1] + [kept[|kept| - 1]];
    }
  }

  /**
   * Whether the filter keeps `e` after having kept `kept`: always when no kept
   * entry is from its store, and never when it is dropped unless some kept entry
   * of its store lies within the tolerance of its price.
   */
  predicate Keeps(kept: seq<ItemPriceEntry>, e: ItemPriceEntry)
    ensures (forall x :: x in kept ==> x.store != e.store) ==> Keeps(kept, e)
  {
    LastKeptNone(kept, e.store);
    match LastKept(kept, e.store)
    case None => true
    case Some(prior) => Abs(e.price - prior.price) > PRICE_TOLERANCE
  }

  /** What `applyPriceVariationRules` returns, defined over the prefixes of its input. */
  function VariationFilter(entries: seq<ItemPriceEntry>): (r: seq<ItemPriceEntry>)
    ensures entries != [] ==> r != []
    decreases |entries|
  {
    if entries == [] then []
    else
      var kept := VariationFilter(entries[..|entries| - 1]);
      var e := entries[|entries| - 1];
      if Keeps(kept, e) then kept + [e] else kept
  }

  /** One more entry: the filter either appends it or leaves the kept prefix alone. */
  lemma FilterStep(s: seq<ItemPriceEntry>, i: nat)
    requires i < |s|
    ensures VariationFilter(s[..i + 1])
      == if Keeps(VariationFilter(s[..i]), s[i]) then VariationFilter(s[..i]) + [s[i]]
         else VariationFilter(s[..i])
  {
    assert s[..i + 1][..i] == s[..i];
  }

  /** `m` maps each store with a kept entry to its last kept entry, and nothing else. */
  ghost predicate TracksLastKept(m: map<string, ItemPriceEntry>, kept: seq<ItemPriceEntry>) {
    forall store :: LastKept(kept, store) == if store in m then Some(m[store]) else None
  }

  /** The map answers the filter's question: an entry is kept when the map has no entry for its store or the prices differ. */
  lemma KeepsByMap(m: map<string, ItemPriceEntry>, kept: seq<ItemPriceEntry>, e: ItemPriceEntry)
    requires TracksLastKept(m, kept)
    ensures Keeps(kept, e)
      <==> kept == [] || e.store !in m || Abs(e.price - m[e.store].price) > PRICE_TOLERANCE
  {
    assert LastKept(kept, e.store) == if e.store in m then Some(m[e.store]) else None;
  }

  /** One turn of the loop in `ApplyPriceVariationRules` keeps both of its invariants. */
  lemma FilterLoopStep(entries: seq<ItemPriceEntry>, i: nat, m: map<string, ItemPriceEntry>,
                       kept: seq<ItemPriceEntry>, keep: bool)
    requires i < |entries|
    requires kept == VariationFilter(entries[..i]) && TracksLastKept(m, kept)
    requires keep == Keeps(kept, entries[i])
    ensures VariationFilter(entries[..i + 1]) == if keep then kept + [entries[i]] else kept
    ensures keep ==> TracksLastKept(m[entries[i].store := entries[i]], kept + [entries[i]])
  {
    FilterStep(entries, i);
    assert (kept + [entries[i]])[..|kept|] == kept;
  }

  /** `applyPriceVariationRules`: one pass with a map from store to its last kept entry. */
  method ApplyPriceVariationRules(entries: seq<ItemPriceEntry>) returns (result: seq<ItemPriceEntry>)
    ensures result == VariationFilter(entries)
  {
    if |entries| == 0 {
      return [];
    }
    result := [];
    var lastEntryByStore: map<string, ItemPriceEntry> := map[];
    for i := 0 to |entries|
      invariant result == VariationFilter(entries[..i])
      invariant TracksLastKept(lastEntryByStore, result)
    {
      var entry := entries[i];
      var lastFromSameStore :=
        if entry.store in lastEntryByStore then Some(lastEntryByStore[entry.store]) else None;
      var keep: bool;
      if |result| == 0 {
        // the first entry is always kept
        keep := true;
      } else if lastFromSameStore.None? {
        // a store not seen before is always kept, whatever the price
        keep := true;
      } else {
        // a known store is kept only when its price moved
        var priceChanged := Abs(entry.price - lastFromSameStore.value.price) > PRICE_TOLERANCE;
        keep := priceChanged;
      }
      KeepsByMap(lastEntryByStore, result, entry);
      FilterLoopStep(entries, i, lastEntryByStore, result, keep);
      if keep {
        result := result + [entry];
        lastEntryByStore := lastEntryByStore[entry.store := entry];
      }
    }
    assert entries[..|entries|] == entries;
  }

  /** A non-empty input keeps its first entry, in first place. */
  lemma {:induction false} FilterKeepsFirst(s: seq<ItemPriceEntry>)
    requires s != []
    ensures VariationFilter(s) != [] && VariationFilter(s)[0] == s[0]
    decreases |s|
  {
    var init := s[..|s| - 1];
    if |s| > 1 {
      FilterKeepsFirst(init);
    } else {
      assert init == [];
    }
  }

  /** The output is an order-preserving subsequence of the input. */
  lemma {:induction false} FilterIsSubsequence(s: seq<ItemPriceEntry>)
    ensures SubsequenceOf(VariationFilter(s), s)
    ensures |VariationFilter(s)| <= |s|
    decreases |s|
  {
    if s != [] {
      var init := s[..|s| - 1];
      FilterIsSubsequence(init);
      var kept := VariationFilter(init);
      if Keeps(kept, s[|s| - 1]) {
        assert (kept + [s[|s| - 1]])[..|kept|] == kept;
      }
    }
    SubsequenceFacts(VariationFilter(s), s);
  }

  /** An entry whose store appears nowhere before it is kept, whatever its price. */
  lemma FilterKeepsNewStore(s: seq<ItemPriceEntry>, i: nat)
    requires i < |s|
    requires forall j :: 0 <= j < i ==> s[j].store != s[i].store
    ensures VariationFilter(s[..i + 1]) == VariationFilter(s[..i]) + [s[i]]
  {
    var kept := VariationFilter(s[..i]);
    FilterIsSubsequence(s[..i]);
    SubsequenceFacts(kept, s[..i]);
    assert s[..i + 1][..i] == s[..i];
    LastKeptNone(kept, s[i].store);
  }

  /**
   * An entry from a store with a kept entry is kept exactly when its price is
   * more than the tolerance away from that store's last kept price.
   */
  lemma FilterToleranceRule(s: seq<ItemPriceEntry>, i: nat)
    requires i < |s|
    requires LastKept(VariationFilter(s[..i]), s[i].store).Some?
    ensures var prior := LastKept(VariationFilter(s[..i]), s[i].store).value;
      VariationFilter(s[..i + 1])
        == if Abs(s[i].price - prior.price) > PRICE_TOLERANCE
           then VariationFilter(s[..i]) + [s[i]]
           else VariationFilter(s[..i])
  {
    FilterStep(s, i);
  }

  /** When every entry comes from a different store, nothing is dropped. */
  lemma {:induction false} FilterDistinctStores(s: seq<ItemPriceEntry>)
    requires forall i, j :: 0 <= i < j < |s| ==> s[i].store != s[j].store
    ensures VariationFilter(s) == s
    decreases |s|
  {
    if s != [] {
      var n := |s| - 1;
      FilterDistinctStores(s[..n]);
      FilterKeepsNewStore(s, n);
      assert s[..n + 1] == s;
    }
  }

  /** One store at a steady price (within the tolerance of the first) collapses to the first entry. */
  lemma {:induction false} FilterSteadySingleStore(s: seq<ItemPriceEntry>)
    requires s != []
    requires forall i :: 0 <= i < |s| ==>
      s[i].store == s[0].store && Abs(s[i].price - s[0].price) <= PRICE_TOLERANCE
    ensures VariationFilter(s) == [s[0]]
    decreases |s|
  {
    var init := s[..|s| - 1];
    if |s| > 1 {
      FilterSteadySingleStore(init);
      assert LastKept([s[0]], s[|s| - 1].store) == Some(s[0]);
    } else {
      assert init == [];
    }
  }

  /** Every kept entry differs from its store's previous kept entry by more than the tolerance. */
  ghost predicate NoiseFree(r: seq<ItemPriceEntry>) {
    forall i :: 0 <= i < |r| ==> Keeps(r[..i], r[i])
  }

  lemma {:induction false} FilterIsNoiseFree(s: seq<ItemPriceEntry>)
    ensures NoiseFree(VariationFilter(s))
    decreases |s|
  {
    if s != [] {
      var kept := VariationFilter(s[..|s| - 1]);
      FilterIsNoiseFree(s[..|s| - 1]);
      var e := s[|s| - 1];
      if Keeps(kept, e) {
        var r := kept + [e];
        forall i | 0 <= i < |r| ensures Keeps(r[..i], r[i]) {
          if i < |kept| {
            assert r[..i] == kept[..i];
          } else {
            assert r[..i] == kept;
          }
        }
      }
    }
  }

  lemma NoiseFreePrefix(r: seq<ItemPriceEntry>)
    requires r != [] && NoiseFree(r)
    ensures NoiseFree(r[..|r| - 1])
    ensures Keeps(r[..|r| - 1], r[|r| - 1])
  {
    var init := r[..|r| - 1];
    forall i | 0 <= i < |init| ensures Keeps(init[..i], init[i]) {
      assert init[..i] == r[..i];
    }
  }

  lemma {:induction false} NoiseFreeIsFixedPoint(r: seq<ItemPriceEntry>)
    requires NoiseFree(r)
    ensures VariationFilter(r) == r
    decreases |r|
  {
    if r != [] {
      NoiseFreePrefix(r);
      NoiseFreeIsFixedPoint(r[..|r| - 1]);
      SplitLast(r);
    }
  }

  /** Filtering an already filtered history changes nothing. */
  lemma FilterIdempotent(s: seq<ItemPriceEntry>)
    ensures VariationFilter(VariationFilter(s)) == VariationFilter(s)
  {
    FilterIsNoiseFree(s);
    NoiseFreeIsFixedPoint(VariationFilter(s));
  }

  /** Milk bought at store A for 3.50, again at A for 3.50, then at B for 3.50: two entries remain. */
  lemma FilterMilkScenario()
    ensures var a1 := ItemPriceEntry("Store A", 3.5, None, 1, "r1", 1);
      var a2 := ItemPriceEntry("Store A", 3.5, None, 2, "r2", 2);
      var b := ItemPriceEntry("Store B", 3.5, None, 3, "r3", 3);
      VariationFilter([a1, a2, b]) == [a1, b]
  {
    var a1 := ItemPriceEntry("Store A", 3.5, None, 1, "r1", 1);
    var a2 := ItemPriceEntry("Store A", 3.5, None, 2, "r2", 2);
    var b := ItemPriceEntry("Store B", 3.5, None, 3, "r3", 3);
    var s := [a1, a2, b];
    assert s[..1] == [a1] && s[..2] == [a1, a2];
    assert [a1][..0] == [] && [a1, a2][..1] == [a1];
    assert VariationFilter([a1]) == [a1];
    assert LastKept([a1], "Store A") == Some(a1);
    assert VariationFilter([a1, a2]) == [a1];
    assert LastKept([a1], "Store B") == None;
  }

  // ---------------------------------------------------------------------------
  // Steps 2 and 3, and the processed items

  /** The comparator of the timestamp sort: oldest first. */
  predicate EarlierOrSame(a: ItemPriceEntry, b: ItemPriceEntry) {
    a.timestamp <= b.timestamp
  }

  /** The comparator of the final sort: `a.normalizedName.localeCompare(b.normalizedName)`. */
  predicate NameOrder(a: ProcessedItem, b: ProcessedItem) {
    StrLessEq(a.normalizedName, b.normalizedName)
  }

  /** The sort of a group: `sort((a, b) => a.timestamp - b.timestamp)`. */
  function SortByTime(entries: seq<ItemPriceEntry>): (r: seq<ItemPriceEntry>)
    ensures SortedBy(r, EarlierOrSame) && multiset(r) == multiset(entries)
  {
    TimestampOrderIsTotal();
    SortBy(entries, EarlierOrSame)
  }

  /** The final sort: `sort((a, b) => a.normalizedName.localeCompare(b.normalizedName))`. */
  function SortByName(items: seq<ProcessedItem>): (r: seq<ProcessedItem>)
    ensures SortedBy(r, NameOrder) && multiset(r) == multiset(items)
  {
    NameOrderIsTotal();
    SortBy(items, NameOrder)
  }

  lemma TimestampOrderIsTotal()
    ensures TotalPreorder(EarlierOrSame)
  {
  }

  lemma NameOrderIsTotal()
    ensures TotalPreorder(NameOrder)
  {
    forall a, b ensures NameOrder(a, b) || NameOrder(b, a) {
      StrLessEqTotal(a.normalizedName, b.normalizedName);
    }
    forall a, b, c | NameOrder(a, b) && NameOrder(b, c) ensures NameOrder(a, c) {
      StrLessEqTransitive(a.normalizedName, b.normalizedName, c.normalizedName);
    }
  }

  /** The first line item, in `flatMap` order, whose canonical name is `key`. */
  function FindItem(items: seq<LineItem>, key: string): (r: Option<LineItem>)
    ensures r.Some? ==> r.value in items && LowerTrim(r.value.name) == key
    ensures r.None? ==> forall it :: it in items ==> LowerTrim(it.name) != key
    decreases |items|
  {
    if items == [] then None
    else if LowerTrim(items[0].name) == key then Some(items[0])
    else FindItem(items[1..], key)
  }

  /**
   * `.find` returns the first match: when `items[i]` is the first line item
   * whose canonical name is `key`, the search yields exactly that item.
   */
  lemma {:induction false} FindItemIsFirst(items: seq<LineItem>, key: string, i: nat)
    requires i < |items| && LowerTrim(items[i].name) == key
    requires forall j :: 0 <= j < i ==> LowerTrim(items[j].name) != key
    ensures FindItem(items, key) == Some(items[i])
    decreases i
  {
    if i > 0 {
      assert LowerTrim(items[0].name) != key;
      FindItemIsFirst(items[1..], key, i - 1);
    }
  }

  /** `...find(...)?.name || normalizedName`: the casing of the first line item with this key. */
  function OriginalName(receipts: seq<Receipt>, key: string): (name: string)
    ensures LowerTrim(name) == key || (name == key && FindItem(AllItems(receipts), key).None?)
  {
    match FindItem(AllItems(receipts), key)
    case Some(item) => if item.name != "" then item.name else key
    case None => key
  }

  /**
   * The display name is the casing of the first line item, across all receipts
   * in order, whose canonical name is `key`; an empty name falls back to the key.
   */
  lemma OriginalNameIsFirstCasing(receipts: seq<Receipt>, key: string, i: nat)
    requires i < |AllItems(receipts)| && LowerTrim(AllItems(receipts)[i].name) == key
    requires forall j :: 0 <= j < i ==> LowerTrim(AllItems(receipts)[j].name) != key
    ensures OriginalName(receipts, key) == if AllItems(receipts)[i].name != "" then AllItems(receipts)[i].name else key
  {
    FindItemIsFirst(AllItems(receipts), key, i);
  }

  /**
   * The kept history of one group, oldest first: empty exactly when no line
   * item has the key.
   */
  function History(receipts: seq<Receipt>, key: string): (h: seq<ItemPriceEntry>)
    ensures h == [] <==> Group(Observations(receipts), key) == []
  {
    var group := Group(Observations(receipts), key);
    var sorted := SortByTime(group);
    assert |sorted| == |group| by {
      assert |multiset(sorted)| == |multiset(group)|;
    }
    VariationFilter(sorted)
  }

  /**
   * The item built for `key`, when its kept history is not empty: its latest
   * fields are those of the first, newest, entry of its price history.
   */
  function ItemFor(receipts: seq<Receipt>, key: string): (r: Option<ProcessedItem>)
    ensures r.Some? <==> Group(Observations(receipts), key) != []
    ensures r.Some? ==> var it := r.value;
      it.normalizedName == key && |it.priceHistory| == |History(receipts, key)| > 0 &&
      it.latestPrice == it.priceHistory[0].price && it.latestStore == it.priceHistory[0].store &&
      it.latestDate == it.priceHistory[0].date && it.latestUnit == it.priceHistory[0].unit
  {
    var filtered := History(receipts, key);
    if |filtered| > 0 then
      var latest := filtered[|filtered| - 1];
      Some(ProcessedItem(OriginalName(receipts, key), key, latest.price, latest.store,
                         latest.date, latest.unit, Reverse(filtered)))
    else None
  }

  /** The item builder of `processItemsFromReceipts`, one canonical name at a time. */
  function ItemMaker(receipts: seq<Receipt>): string -> Option<ProcessedItem> {
    key => ItemFor(receipts, key)
  }

  /** The items built for `keys`, in the order of `keys`. */
  function ItemsFor(receipts: seq<Receipt>, keys: seq<string>): seq<ProcessedItem>
    decreases |keys|
  {
    if keys == [] then []
    else
      var item := ItemFor(receipts, keys[|keys| - 1]);
      ItemsFor(receipts, keys[..|keys| - 1]) + (if item.Some? then [item.value] else [])
  }

  lemma {:induction false} ItemsForIsCollect(receipts: seq<Receipt>, keys: seq<string>)
    ensures ItemsFor(receipts, keys) == Collect(keys, ItemMaker(receipts))
    decreases |keys|
  {
    if keys != [] {
      ItemsForIsCollect(receipts, keys[..|keys| - 1]);
    }
  }

  lemma ItemsForStep(receipts: seq<Receipt>, keys: seq<string>, n: nat)
    requires n < |keys|
    ensures ItemsFor(receipts, keys[..n + 1])
      == ItemsFor(receipts, keys[..n]) + (if ItemFor(receipts, keys[n]).Some? then [ItemFor(receipts, keys[n]).value] else [])
  {
    assert keys[..n + 1][..n] == keys[..n];
  }

  /** What `processItemsFromReceipts` returns: sorted by canonical name, one item per key. */
  function ProcessedItems(receipts: seq<Receipt>): (r: seq<ProcessedItem>)
    ensures SortedBy(r, NameOrder)
    ensures |r| == |ItemKeys(Observations(receipts))|
  {
    var obs := Observations(receipts);
    UnsortedItems(receipts);
    var unsorted := ItemsFor(receipts, ItemKeys(obs));
    assert |SortByName(unsorted)| == |unsorted| by {
      assert |multiset(SortByName(unsorted))| == |multiset(unsorted)|;
    }
    SortByName(unsorted)
  }

  /** `m` and `order` are the grouping `Map` after the observations `seen`. */
  ghost predicate GroupedAs(m: map<string, seq<ItemPriceEntry>>, order: seq<string>, seen: seq<Observation>) {
    order == ItemKeys(seen) &&
    (forall k :: k in m <==> k in order) &&
    (forall k :: k in m ==> m[k] == Group(seen, k))
  }

  lemma GroupAppend(seen: seq<Observation>, o: Observation, key: string)
    ensures Group(seen + [o], key) == Group(seen, key) + (if o.key == key then [o.entry] else [])
  {
    assert (seen + [o])[..|seen|] == seen;
  }

  lemma ItemKeysAppend(seen: seq<Observation>, o: Observation)
    ensures ItemKeys(seen + [o])
      == if o.key in ItemKeys(seen) then ItemKeys(seen) else ItemKeys(seen) + [o.key]
  {
    assert ObservedKeys(seen + [o]) == ObservedKeys(seen) + [o.key];
    DedupAppend(ObservedKeys(seen), o.key);
  }

  /** Pushing `o.entry` onto its group keeps every group equal to its definition. */
  lemma GroupsAfterObserve(groups: map<string, seq<ItemPriceEntry>>, seen: seq<Observation>, o: Observation)
    requires forall k :: k in groups ==> groups[k] == Group(seen, k)
    requires o.key in groups
    ensures var groups' := groups[o.key := groups[o.key] + [o.entry]];
      forall k :: k in groups' ==> groups'[k] == Group(seen + [o], k)
  {
    var groups' := groups[o.key := groups[o.key] + [o.entry]];
    forall k | k in groups' ensures groups'[k] == Group(seen + [o], k) {
      GroupAppend(seen, o, k);
    }
  }

  /**
   * One line item into the grouping `Map`: `withKey` and `newOrder` are the map
   * and key order once `o.key` has an entry, and `newGroup` is its group with
   * `o.entry` pushed.
   */
  lemma GroupedAfterObserve(m: map<string, seq<ItemPriceEntry>>, order: seq<string>, seen: seq<Observation>,
                            o: Observation, withKey: map<string, seq<ItemPriceEntry>>, newOrder: seq<string>,
                            newGroup: seq<ItemPriceEntry>)
    requires GroupedAs(m, order, seen)
    requires withKey == if o.key in m then m else m[o.key := []]
    requires newOrder == if o.key in m then order else order + [o.key]
    requires newGroup == withKey[o.key] + [o.entry]
    ensures newOrder == ItemKeys(seen + [o])
    ensures forall k :: k in withKey[o.key := newGroup] <==> k in newOrder
    ensures forall k :: k in withKey[o.key := newGroup] ==> withKey[o.key := newGroup][k] == Group(seen + [o], k)
  {
    ItemKeysAppend(seen, o);
    if o.key !in m {
      assert o.key !in ObservedKeys(seen);
      GroupEmptyUnlessObserved(seen, o.key);
    }
    assert newOrder == ItemKeys(seen + [o]) by {
      assert o.key in m <==> o.key in order;
    }
    assert forall k :: k in withKey[o.key := newGroup] <==> k in newOrder;
    GroupsAfterObserve(withKey, seen, o);
  }

  lemma ObservationsStep(receipts: seq<Receipt>, i: nat)
    requires i < |receipts|
    ensures Observations(receipts[..i + 1]) == Observations(receipts[..i]) + ItemObservations(receipts[i], receipts[i].items)
  {
    assert receipts[..i + 1][..i] == receipts[..i];
  }

  /** Step 1 of `processItemsFromReceipts`: the `Map` from canonical name to price entries. */
  method GroupByName(receipts: seq<Receipt>)
    returns (itemsMap: map<string, seq<ItemPriceEntry>>, keyOrder: seq<string>)
    ensures GroupedAs(itemsMap, keyOrder, Observations(receipts))
  {
    itemsMap := map[];
    keyOrder := [];
    ghost var seen: seq<Observation> := [];
    for i := 0 to |receipts|
      invariant seen == Observations(receipts[..i])
      invariant GroupedAs(itemsMap, keyOrder, seen)
    {
      var receipt := receipts[i];
      ghost var before := seen;
      for j := 0 to |receipt.items|
        invariant seen == before + ItemObservations(receipt, receipt.items[..j])
        invariant GroupedAs(itemsMap, keyOrder, seen)
      {
        var item := receipt.items[j];
        ghost var map0, order0 := itemsMap, keyOrder;
        var normalizedName := LowerTrim(item.name);
        if normalizedName !in itemsMap {
          itemsMap := itemsMap[normalizedName := []];
          keyOrder := keyOrder + [normalizedName];
        }
        ghost var withKey := itemsMap;
        var group := itemsMap[normalizedName] + [PriceEntry(receipt, item)];
        itemsMap := itemsMap[normalizedName := group];
        GroupedAfterObserve(map0, order0, seen, Observe(receipt, item), withKey, keyOrder, group);
        ItemObservationsStep(before, receipt, j);
        seen := seen + [Observe(receipt, item)];
      }
      assert receipt.items[..|receipt.items|] == receipt.items;
      ObservationsStep(receipts, i);
    }
    assert receipts[..|receipts|] == receipts;
  }

  /**
   * The body of the per-name loop of `processItemsFromReceipts`: sort the
   * group by timestamp, filter it, and build the item when something is kept.
   */
  method BuildItem(receipts: seq<Receipt>, normalizedName: string, entries: seq<ItemPriceEntry>)
    returns (item: Option<ProcessedItem>)
    requires entries == Group(Observations(receipts), normalizedName)
    ensures item == ItemFor(receipts, normalizedName)
  {
    var sortedEntries := SortByTime(entries);
    var originalName := OriginalName(receipts, normalizedName);
    var filteredHistory := ApplyPriceVariationRules(sortedEntries);
    assert filteredHistory == History(receipts, normalizedName);
    if |filteredHistory| > 0 {
      var latest := filteredHistory[|filteredHistory| - 1];
      item := Some(ProcessedItem(
        originalName, normalizedName, latest.price, latest.store, latest.date, latest.unit,
        Reverse(filteredHistory)));
    } else {
      item := None;
    }
  }

  /** `processItemsFromReceipts`: group, then sort, filter and build each item, then sort by name. */
  method ProcessItemsFromReceipts(receipts: seq<Receipt>) returns (items: seq<ProcessedItem>)
    ensures items == ProcessedItems(receipts)
  {
    var itemsMap, keyOrder := GroupByName(receipts);
    var processedItems: seq<ProcessedItem> := [];
    for n := 0 to |keyOrder|
      invariant processedItems == ItemsFor(receipts, keyOrder[..n])
    {
      var normalizedName := keyOrder[n];
      var item := BuildItem(receipts, normalizedName, itemsMap[normalizedName]);
      ItemsForStep(receipts, keyOrder, n);
      if item.Some? {
        processedItems := processedItems + [item.value];
      }
    }
    assert keyOrder[..|keyOrder|] == keyOrder;
    items := SortByName(processedItems);
  }

  // ---------------------------------------------------------------------------
  // What the processed items promise

  function Names(items: seq<ProcessedItem>): (names: seq<string>)
    ensures |names| == |items|
    ensures forall i :: 0 <= i < |items| ==> names[i] == items[i].normalizedName
    decreases |items|
  {
    if items == [] then [] else Names(items[..|items| - 1]) + [items[|items| - 1].normalizedName]
  }

  /**
   * Every canonical name that occurs gets an item: a group is never empty and
   * the filter keeps its first entry, so the `filteredHistory.length > 0`
   * guard always holds.
   */
  lemma EveryKeyHasItem(receipts: seq<Receipt>, key: string)
    requires key in ObservedKeys(Observations(receipts))
    ensures |History(receipts, key)| > 0
    ensures ItemFor(receipts, key).Some?
  {
    var obs := Observations(receipts);
    GroupNonEmpty(obs, key);
    TimestampOrderIsTotal();
    FilterKeepsFirst(SortBy(Group(obs, key), EarlierOrSame));
  }

  lemma ItemForKey(receipts: seq<Receipt>, key: string)
    requires ItemFor(receipts, key).Some?
    ensures ItemFor(receipts, key).value.normalizedName == key
  {
  }

  lemma ItemsForAllKeys(receipts: seq<Receipt>, keys: seq<string>)
    requires forall k :: k in keys ==> ItemFor(receipts, k).Some?
    ensures Names(ItemsFor(receipts, keys)) == keys
    ensures forall i :: 0 <= i < |keys| ==> ItemsFor(receipts, keys)[i] == ItemFor(receipts, keys[i]).value
  {
    ItemsForIsCollect(receipts, keys);
    CollectAll(keys, ItemMaker(receipts));
    forall i | 0 <= i < |keys| ensures Names(ItemsFor(receipts, keys))[i] == keys[i] {
      ItemForKey(receipts, keys[i]);
    }
  }

  /** The items before the final sort: one per canonical name, in first-seen order. */
  lemma UnsortedItems(receipts: seq<Receipt>)
    ensures var keys := ItemKeys(Observations(receipts));
      Names(ItemsFor(receipts, keys)) == keys &&
      forall i :: 0 <= i < |keys| ==> ItemFor(receipts, keys[i]) == Some(ItemsFor(receipts, keys)[i])
  {
    var keys := ItemKeys(Observations(receipts));
    forall k | k in keys ensures ItemFor(receipts, k).Some? {
      EveryKeyHasItem(receipts, k);
    }
    ItemsForAllKeys(receipts, keys);
  }

  /** Sorting items with distinct canonical names by name orders the names strictly. */
  lemma SortedDistinctNames(unsorted: seq<ProcessedItem>, sorted: seq<ProcessedItem>)
    requires NoDup(Names(unsorted))
    requires multiset(sorted) == multiset(unsorted) && SortedBy(sorted, NameOrder)
    ensures StrictlySorted(Names(sorted))
  {
    assert NoDup(unsorted) by {
      forall i, j | 0 <= i < j < |unsorted| ensures unsorted[i] != unsorted[j] {
        assert Names(unsorted)[i] != Names(unsorted)[j];
      }
    }
    PermutationKeepsNoDup(unsorted, sorted);
    var names := Names(sorted);
    forall i, j | 0 <= i < j < |names| ensures StrLess(names[i], names[j]) {
      assert NameOrder(sorted[i], sorted[j]);
      assert sorted[i] in multiset(unsorted) && sorted[j] in multiset(unsorted);
      var a :| 0 <= a < |unsorted| && unsorted[a] == sorted[i];
      var b :| 0 <= b < |unsorted| && unsorted[b] == sorted[j];
    }
  }

  lemma PermutationKeepsNames(unsorted: seq<ProcessedItem>, sorted: seq<ProcessedItem>)
    requires multiset(sorted) == multiset(unsorted)
    ensures forall k :: k in Names(sorted) <==> k in Names(unsorted)
  {
    forall k ensures k in Names(sorted) ==> k in Names(unsorted) {
      if k in Names(sorted) {
        var i :| 0 <= i < |sorted| && Names(sorted)[i] == k;
        assert sorted[i] in multiset(unsorted);
        var a :| 0 <= a < |unsorted| && unsorted[a] == sorted[i];
        assert Names(unsorted)[a] == k;
      }
    }
    forall k ensures k in Names(unsorted) ==> k in Names(sorted) {
      if k in Names(unsorted) {
        var a :| 0 <= a < |unsorted| && Names(unsorted)[a] == k;
        assert unsorted[a] in multiset(sorted);
        var i :| 0 <= i < |sorted| && sorted[i] == unsorted[a];
        assert Names(sorted)[i] == k;
      }
    }
  }

  /** The result is ordered by canonical name, with no name twice. */
  lemma ProcessedItemsSortedByName(receipts: seq<Receipt>)
    ensures StrictlySorted(Names(ProcessedItems(receipts)))
  {
    UnsortedItems(receipts);
    NameOrderIsTotal();
    SortedDistinctNames(ItemsFor(receipts, ItemKeys(Observations(receipts))), ProcessedItems(receipts));
  }

  /** The canonical names that occur are those of the line items. */
  lemma ObservedKeysAreItemNames(receipts: seq<Receipt>)
    ensures forall k :: k in ObservedKeys(Observations(receipts)) <==>
      exists item :: item in AllItems(receipts) && LowerTrim(item.name) == k
  {
    var obs := Observations(receipts);
    var all := AllItems(receipts);
    ObservationsMatchItems(receipts);
    forall k ensures k in ObservedKeys(obs) <==> exists item :: item in all && LowerTrim(item.name) == k {
      if k in ObservedKeys(obs) {
        var i :| 0 <= i < |obs| && ObservedKeys(obs)[i] == k;
        assert all[i] in all && LowerTrim(all[i].name) == k;
      }
      if exists item :: item in all && LowerTrim(item.name) == k {
        var item :| item in all && LowerTrim(item.name) == k;
        var i :| 0 <= i < |all| && all[i] == item;
        assert ObservedKeys(obs)[i] == k;
      }
    }
  }

  /** An item exists for a canonical name exactly when some line item has that name. */
  lemma ProcessedItemsCoverLineItems(receipts: seq<Receipt>)
    ensures forall k :: k in Names(ProcessedItems(receipts)) <==>
      exists item :: item in AllItems(receipts) && LowerTrim(item.name) == k
  {
    var obs := Observations(receipts);
    var unsorted := ItemsFor(receipts, ItemKeys(obs));
    var sorted := ProcessedItems(receipts);
    UnsortedItems(receipts);
    assert sorted == SortByName(unsorted);
    PermutationKeepsNames(unsorted, sorted);
    assert forall k :: k in Names(unsorted) <==> k in ObservedKeys(obs);
    ObservedKeysAreItemNames(receipts);
  }

  /** `LowerTrim` of the casing kept for a name is that name. */
  lemma OriginalNameNormalizes(receipts: seq<Receipt>, key: string)
    requires key in ObservedKeys(Observations(receipts))
    ensures LowerTrim(OriginalName(receipts, key)) == key
  {
    ObservedKeysAreItemNames(receipts);
    var item :| item in AllItems(receipts) && LowerTrim(item.name) == key;
    var found := FindItem(AllItems(receipts), key);
    assert found.Some?;
    if found.value.name == "" {
      assert LowerTrim("") == "" by {
        assert Lower("") == "";
      }
    }
  }

  /** A kept history, read newest first, is in descending timestamp order. */
  lemma NewestFirst(sorted: seq<ItemPriceEntry>)
    requires SortedBy(sorted, EarlierOrSame)
    ensures var h := Reverse(VariationFilter(sorted));
      forall i, j :: 0 <= i < j < |h| ==> h[j].timestamp <= h[i].timestamp
  {
    FilterIsSubsequence(sorted);
    SubsequenceSorted(VariationFilter(sorted), sorted, EarlierOrSame);
  }

  /** A kept history holds only entries of the group it was filtered from. */
  lemma KeptFromGroup(group: seq<ItemPriceEntry>, sorted: seq<ItemPriceEntry>)
    requires multiset(sorted) == multiset(group)
    ensures forall e :: e in Reverse(VariationFilter(sorted)) ==> e in group
  {
    FilterIsSubsequence(sorted);
    SubsequenceFacts(VariationFilter(sorted), sorted);
    var kept := VariationFilter(sorted);
    forall e | e in Reverse(kept) ensures e in group {
      var i :| 0 <= i < |kept| && Reverse(kept)[i] == e;
      assert kept[|kept| - 1 - i] == e;
      assert e in kept;
      assert e in multiset(sorted);
    }
  }

  /** The item built for an occurring canonical name, field by field. */
  lemma ItemForShape(receipts: seq<Receipt>, key: string)
    requires key in ObservedKeys(Observations(receipts))
    ensures ItemFor(receipts, key).Some?
    ensures var it := ItemFor(receipts, key).value;
      it.normalizedName == key &&
      it.priceHistory == Reverse(History(receipts, key)) &&
      |it.priceHistory| > 0 &&
      it.latestPrice == it.priceHistory[0].price && it.latestStore == it.priceHistory[0].store &&
      it.latestDate == it.priceHistory[0].date && it.latestUnit == it.priceHistory[0].unit &&
      (forall i, j :: 0 <= i < j < |it.priceHistory| ==>
        it.priceHistory[j].timestamp <= it.priceHistory[i].timestamp) &&
      (forall e :: e in it.priceHistory ==> e in Group(Observations(receipts), key)) &&
      LowerTrim(it.name) == key
  {
    EveryKeyHasItem(receipts, key);
    OriginalNameNormalizes(receipts, key);
    TimestampOrderIsTotal();
    var group := Group(Observations(receipts), key);
    var sorted := SortBy(group, EarlierOrSame);
    NewestFirst(sorted);
    KeptFromGroup(group, sorted);
    assert ItemFor(receipts, key).value.priceHistory == Reverse(VariationFilter(sorted));
  }

  lemma ItemsForMember(receipts: seq<Receipt>, keys: seq<string>, it: ProcessedItem)
    requires it in ItemsFor(receipts, keys)
    ensures it.normalizedName in keys
    ensures ItemFor(receipts, it.normalizedName) == Some(it)
  {
    ItemsForIsCollect(receipts, keys);
    CollectMember(keys, ItemMaker(receipts), it);
    var k :| k in keys && ItemMaker(receipts)(k) == Some(it);
    ItemForKey(receipts, k);
  }

  /** Every item of the result is the item built for its own canonical name. */
  lemma ProcessedItemIsItemFor(receipts: seq<Receipt>, it: ProcessedItem)
    requires it in ProcessedItems(receipts)
    ensures it.normalizedName in ObservedKeys(Observations(receipts))
    ensures ItemFor(receipts, it.normalizedName) == Some(it)
  {
    var keys := ItemKeys(Observations(receipts));
    var unsorted := ItemsFor(receipts, keys);
    NameOrderIsTotal();
    assert it in multiset(ProcessedItems(receipts));
    ItemsForMember(receipts, keys, it);
  }

  /**
   * Each item carries its own kept history, newest first, drawn from the line
   * items with its canonical name; its `latest*` fields are those of the newest
   * entry, and its display name normalises back to its canonical name.
   */
  lemma ProcessedItemShape(receipts: seq<Receipt>, it: ProcessedItem)
    requires it in ProcessedItems(receipts)
    ensures ItemFor(receipts, it.normalizedName) == Some(it)
    ensures it.priceHistory == Reverse(History(receipts, it.normalizedName))
    ensures |it.priceHistory| > 0
    ensures it.latestPrice == it.priceHistory[0].price && it.latestStore == it.priceHistory[0].store
    ensures it.latestDate == it.priceHistory[0].date && it.latestUnit == it.priceHistory[0].unit
    ensures forall i, j :: 0 <= i < j < |it.priceHistory| ==>
      it.priceHistory[j].timestamp <= it.priceHistory[i].timestamp
    ensures forall e :: e in it.priceHistory ==> e in Group(Observations(receipts), it.normalizedName)
    ensures LowerTrim(it.name) == it.normalizedName
  {
    ProcessedItemIsItemFor(receipts, it);
    ItemForShape(receipts, it.normalizedName);
  }

  // ---------------------------------------------------------------------------
  // Lookup and search

  /** The first item whose canonical name is `key`. */
  function FindByName(items: seq<ProcessedItem>, key: string): (r: Option<ProcessedItem>)
    ensures r.Some? ==> r.value in items && r.value.normalizedName == key
    ensures r.None? ==> forall it :: it in items ==> it.normalizedName != key
    decreases |items|
  {
    if items == [] then None
    else if items[0].normalizedName == key then Some(items[0])
    else FindByName(items[1..], key)
  }

  /** `getItemByName`: the processed item whose canonical name is that of `itemName`. */
  function GetItemByName(receipts: seq<Receipt>, itemName: string): (r: Option<ProcessedItem>)
    ensures r.Some? ==> r.value in ProcessedItems(receipts) && r.value.normalizedName == LowerTrim(itemName)
    ensures r.None? <==> forall it :: it in ProcessedItems(receipts) ==> it.normalizedName != LowerTrim(itemName)
  {
    FindByName(ProcessedItems(receipts), LowerTrim(itemName))
  }

  /** In a list with strictly ordered names, a name identifies one item. */
  lemma UniqueByName(items: seq<ProcessedItem>, x: ProcessedItem, y: ProcessedItem)
    requires StrictlySorted(Names(items))
    requires x in items && y in items && x.normalizedName == y.normalizedName
    ensures x == y
  {
    var i :| 0 <= i < |items| && items[i] == x;
    var j :| 0 <= j < |items| && items[j] == y;
    assert Names(items)[i] == Names(items)[j];
  }

  /** Looking up an item by its canonical name or by its display name finds that very item. */
  lemma GetItemByNameRoundTrip(receipts: seq<Receipt>, it: ProcessedItem)
    requires it in ProcessedItems(receipts)
    ensures GetItemByName(receipts, it.name) == Some(it)
    ensures GetItemByName(receipts, it.normalizedName) == Some(it)
  {
    ProcessedItemShape(receipts, it);
    LowerTrimIdempotent(it.name);
    ProcessedItemsSortedByName(receipts);
    var items := ProcessedItems(receipts);
    var found := FindByName(items, it.normalizedName);
    UniqueByName(items, found.value, it);
  }

  /** Upper-case letters and surrounding white space in the query do not matter. */
  lemma GetItemByNameNormalizesQuery(receipts: seq<Receipt>, itemName: string)
    ensures GetItemByName(receipts, Lower(itemName)) == GetItemByName(receipts, itemName)
    ensures GetItemByName(receipts, Trim(itemName)) == GetItemByName(receipts, itemName)
  {
    LowerTrimAbsorbs(itemName);
  }

  /** `.filter(item => item.normalizedName.includes(query))`. */
  function FilterContaining(items: seq<ProcessedItem>, query: string): (r: seq<ProcessedItem>)
    ensures SubsequenceOf(r, items)
    ensures forall it :: it in r <==> it in items && Contains(it.normalizedName, query)
    decreases |items|
  {
    if items == [] then []
    else
      var init := items[..|items| - 1];
      var last := items[|items| - 1];
      var r := FilterContaining(init, query);
      SubsequenceFacts(r, init);
      assert forall it :: it in items <==> it in init || it == last;
      if Contains(last.normalizedName, query) then
        assert (r + [last])[..|r|] == r;
        r + [last]
      else r
  }

  /** `searchItems`: a blank query returns everything, otherwise the items whose canonical name contains it. */
  function SearchItems(receipts: seq<Receipt>, searchTerm: string): (r: seq<ProcessedItem>)
    ensures LowerTrim(searchTerm) == "" ==> r == ProcessedItems(receipts)
    ensures SubsequenceOf(r, ProcessedItems(receipts))
    ensures LowerTrim(searchTerm) != "" ==> forall it :: it in r <==>
      it in ProcessedItems(receipts) && Contains(it.normalizedName, LowerTrim(searchTerm))
  {
    var allItems := ProcessedItems(receipts);
    var query := LowerTrim(searchTerm);
    if query == "" then
      SubsequenceRefl(allItems);
      allItems
    else FilterContaining(allItems, query)
  }
}
