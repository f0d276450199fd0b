# Receipt scanner price-history engine, in Dafny

This project models the logic core of a receipt-scanning application. The
application keeps scanned receipts, derives a per-item price history from
them, computes statistics and chart series over that history, and maintains
two reference lists: known stores and known units.

The four modelled files are:

- `lib/itemsProcessor.ts`: the item price-history engine. Every line item of
  every receipt becomes a per-unit price entry (`totalPrice / (quantity || 1)`).
  Entries are grouped by the item's lower-cased, trimmed name, and each group
  is sorted by receipt timestamp. Each group then goes through the
  price-variation filter, which keeps an entry when it is the first entry, when
  its store has no kept entry yet, or when its price moved by more than 0.01
  from that store's last kept price. Each surviving group becomes a
  `ProcessedItem` with a newest-first history and "latest" fields. The result
  is sorted by canonical name. Lookup by name and substring search sit on top.
- `lib/analyticsUtils.ts`: the analytics over one item's history. This covers
  the store allow-list, the statistics (cheapest, most expensive, mean, percent
  change and the ±5% trend dead-band), the per-date chart series, the distinct
  store list, the store colours and the item name list.
- `lib/storesStorage.ts` and `lib/unitsStorage.ts`: the store and unit lists.
  Each list lives in one JSON file. Every save normalises the list: trim (and,
  for units, lower-case), de-duplicate, drop empties, sort. Adding refuses
  blank names and duplicates, and deleting reports when nothing matched. Unit
  discovery merges the units found on receipts into the list.

Modules:

| module | file | contents |
|---|---|---|
| `Wrappers` | `wrappers.dfy` | `Option` |
| `Sequences` | `sequences.dfy` | stable sort (`Array.prototype.sort`), `new Set` order, `filter`, `reverse`, subsequences |
| `Strings` | `strings.dfy` | `trim`, `toLowerCase`, `includes`, string order, sorted distinct lists |
| `ItemsProcessor` | `items_processor.dfy` | the price-history engine, `getItemByName`, `searchItems` |
| `AnalyticsUtils` | `analytics_utils.dfy` | statistics, chart series, stores, colours, names |
| `ListFiles` | `list_files.dfy` | the JSON list file as a value: missing, unreadable, or holding an array |
| `StoresStorage` | `stores_storage.dfy` | store normalisation and the `StoreList` class |
| `UnitsStorage` | `units_storage.dfy` | unit normalisation, discovery and the `UnitList` class |

The code's loops are methods with loop invariants, each proved against a
specification function:

- `processItemsFromReceipts` against `ProcessedItems`;
- `applyPriceVariationRules` against `VariationFilter`;
- `prepareChartData` against `IsChartOf`;
- `getUniqueStores` and `discoverUnitsFromReceipts` against their set contents.

The properties promised by the code are lemmas about those functions. Each
storage file is a class whose one field, `file`, is the JSON file's content.
Its methods read and overwrite that field as the code reads and overwrites
the file.

Three behaviours of the code are easy to mistake for something simpler; the
model follows the code in each:

- **Per-unit price.** The code divides by `quantity || 1`. Only a zero or
  absent quantity becomes 1; a negative quantity divides as it is (`Divisor`,
  `PerUnitPrice`).
- **Chart value.** Repeated purchases at one store on one date are folded
  pairwise, `(existing + price) / 2`, so they do not chart as their arithmetic
  mean: prices 1, 2 and 3 give 2.25 rather than 2 (`ChartFoldIsNotTheMean`).
  An existing value of 0 counts as absent (`ChartFoldSkipsZero`).
- **Zero oldest price.** Nothing stops the percent change from dividing by an
  oldest price of 0. It is modelled as the IEEE result the code produces
  (`PositiveInfinity`, `NegativeInfinity` or `NotANumber`), and the trend
  follows the code's comparisons on those values (`TrendFromZero`).

## Model

| member | source | states |
|---|---|---|
| `ItemsProcessor.PerUnitPrice` | lib/itemsProcessor.ts:37-44 | the entry's price times a non-zero quantity is the line total; with the quantity absent or zero the price is the total; store, date, unit, receipt id and timestamp come from the receipt and line item |
| `ItemsProcessor.Divisor` | lib/itemsProcessor.ts:39 | the divisor is never zero: a non-zero quantity is the divisor, and an absent or zero one becomes 1 |
| `ItemsProcessor.PriceEntry` | lib/itemsProcessor.ts:37-44 | the entry's price times the divisor is the line total |
| `ItemsProcessor.Observe` | lib/itemsProcessor.ts:31-44 | the observation's key is already canonical and its name is the line item's |
| `ItemsProcessor.ObservationsMatchItems` | lib/itemsProcessor.ts:29-31 | one observation per line item, in receipt-then-item order, whose key is the item name lower-cased and trimmed |
| `ItemsProcessor.GroupIsPartition` | lib/itemsProcessor.ts:31-37 | the group of a name holds exactly one entry per line item with that canonical name, and every entry in it comes from such a line item |
| `ItemsProcessor.GroupNonEmpty` | lib/itemsProcessor.ts:33-37 | the group of a name that occurs is never empty |
| `ItemsProcessor.GroupByName` | lib/itemsProcessor.ts:26-46 | the map holds one key per canonical name, in first-seen order, each mapped to its group of entries in observation order |
| `ItemsProcessor.ObservedKeysAreItemNames` | lib/itemsProcessor.ts:29-37 | a name is a map key iff some line item has that canonical name |
| `ItemsProcessor.ApplyPriceVariationRules` | lib/itemsProcessor.ts:92-126 | the loop with its store-to-last-kept map returns exactly `VariationFilter` of its input |
| `ItemsProcessor.LastKept` | lib/itemsProcessor.ts:99 | the store's last kept entry, when there is one, is a kept entry from that store |
| `ItemsProcessor.Keeps` | lib/itemsProcessor.ts:108-122 | an entry from a store with no kept entry is always kept |
| `ItemsProcessor.VariationFilter` | lib/itemsProcessor.ts:92-126 | a non-empty input keeps at least one entry |
| `ItemsProcessor.LastKeptNone` | lib/itemsProcessor.ts:99 | a store has no last kept entry iff no kept entry is from that store |
| `ItemsProcessor.FilterKeepsFirst` | lib/itemsProcessor.ts:102-106 | a non-empty input keeps its first entry, in first place |
| `ItemsProcessor.FilterIsSubsequence` | lib/itemsProcessor.ts:95-125 | the output is an order-preserving subsequence of the input, hence no longer |
| `ItemsProcessor.FilterKeepsNewStore` | lib/itemsProcessor.ts:108-113 | an entry whose store occurs nowhere before it is appended, whatever its price |
| `ItemsProcessor.FilterToleranceRule` | lib/itemsProcessor.ts:115-122 | an entry from a store with a kept entry is appended iff its price differs from that store's last kept price by more than 0.01 |
| `ItemsProcessor.FilterDistinctStores` | lib/itemsProcessor.ts:108-113 | when all stores are distinct the output equals the input |
| `ItemsProcessor.FilterSteadySingleStore` | lib/itemsProcessor.ts:115-122 | one store at prices within 0.01 of the first collapses to the first entry |
| `ItemsProcessor.FilterIsNoiseFree` | lib/itemsProcessor.ts:98-123 | every kept entry would be kept again after the entries kept before it |
| `ItemsProcessor.NoiseFreeIsFixedPoint` | lib/itemsProcessor.ts:98-123 | a history in which every entry is kept after its predecessors passes the filter unchanged |
| `ItemsProcessor.FilterIdempotent` | lib/itemsProcessor.ts:92-126 | filtering a filtered history changes nothing |
| `ItemsProcessor.FilterMilkScenario` | lib/itemsProcessor.ts:87-90 | store A at 3.50, A at 3.50, then B at 3.50 keeps the first A entry and the B entry |
| `ItemsProcessor.SortByTime` | lib/itemsProcessor.ts:53-55 | the group sorted oldest first by timestamp, a permutation of the group |
| `ItemsProcessor.FindItem` | lib/itemsProcessor.ts:58-60 | a line item of the list with the canonical name, or none exactly when no line item has it |
| `ItemsProcessor.FindItemIsFirst` | lib/itemsProcessor.ts:57-60 | when `items[i]` is the first line item with the canonical name, the search returns exactly that item, as `.find` does |
| `ItemsProcessor.OriginalName` | lib/itemsProcessor.ts:58-60 | the display name normalises to the key, or is the key itself when no line item has it |
| `ItemsProcessor.OriginalNameIsFirstCasing` | lib/itemsProcessor.ts:57-60 | the display name is the casing of the first line item, across receipts in order, with the key; an empty name falls back to the key |
| `ItemsProcessor.OriginalNameNormalizes` | lib/itemsProcessor.ts:58-60 | for a name that occurs, the display name lower-cased and trimmed is the canonical name |
| `ItemsProcessor.EveryKeyHasItem` | lib/itemsProcessor.ts:63-65 | the filtered history of an occurring name is never empty, so the length guard always passes and every name yields an item |
| `ItemsProcessor.BuildItem` | lib/itemsProcessor.ts:51-77 | one turn of the per-name loop (sort, filter, build when non-empty) yields `ItemFor` of that name |
| `ItemsProcessor.ProcessItemsFromReceipts` | lib/itemsProcessor.ts:25-84 | the method returns `ProcessedItems`: one item per map key in key order, then sorted by canonical name |
| `ItemsProcessor.ProcessedItems` | lib/itemsProcessor.ts:25-84 | the result is sorted by canonical name and holds one item per canonical name |
| `ItemsProcessor.History` | lib/itemsProcessor.ts:53-63 | the kept history of a name is empty exactly when its group is |
| `ItemsProcessor.ItemFor` | lib/itemsProcessor.ts:65-76 | an item is built exactly when the name has a group; it carries the name as key, and its latest fields come from the first, newest, entry of its non-empty history |
| `ItemsProcessor.SortByName` | lib/itemsProcessor.ts:81-83 | the items sorted ascending by canonical name, a permutation of the input |
| `ItemsProcessor.UnsortedItems` | lib/itemsProcessor.ts:51-78 | before the final sort the items' canonical names are exactly the map keys, in order, each item built for its key |
| `ItemsProcessor.ProcessedItemsSortedByName` | lib/itemsProcessor.ts:81-83 | the result's canonical names are strictly ascending, so no name occurs twice |
| `ItemsProcessor.ProcessedItemsCoverLineItems` | lib/itemsProcessor.ts:25-84 | the result has an item for a canonical name iff some line item has that canonical name |
| `ItemsProcessor.NewestFirst` | lib/itemsProcessor.ts:53-75 | the reversed filtered history of a timestamp-sorted group is in descending timestamp order |
| `ItemsProcessor.KeptFromGroup` | lib/itemsProcessor.ts:53-75 | every entry of the reversed filtered history belongs to the group |
| `ItemsProcessor.ItemForShape` | lib/itemsProcessor.ts:65-76 | the item of an occurring name has a non-empty newest-first history whose first entry supplies latest price, store, date and unit, all drawn from its group |
| `ItemsProcessor.ProcessedItemIsItemFor` | lib/itemsProcessor.ts:49-83 | every item of the result is the item built for its own canonical name, which occurs among the line items |
| `ItemsProcessor.ProcessedItemShape` | lib/itemsProcessor.ts:65-76 | every item of the result has a non-empty newest-first history drawn from its own group, with `latest*` equal to the fields of its first entry |
| `ItemsProcessor.FindByName` | lib/itemsProcessor.ts:138 | an item of the list with the given canonical name, or none exactly when no item has it |
| `ItemsProcessor.GetItemByName` | lib/itemsProcessor.ts:131-139 | a found item is in the result and its canonical name is the lower-cased trimmed query; none iff no item has that canonical name |
| `ItemsProcessor.UniqueByName` | lib/itemsProcessor.ts:81-83 | in a list with strictly ordered names, equal canonical names mean the same item |
| `ItemsProcessor.GetItemByNameRoundTrip` | lib/itemsProcessor.ts:136-138 | looking up an item of the result by its display name or its canonical name returns that item |
| `ItemsProcessor.GetItemByNameNormalizesQuery` | lib/itemsProcessor.ts:136 | lower-casing or trimming the query first does not change the lookup |
| `ItemsProcessor.FilterContaining` | lib/itemsProcessor.ts:153-155 | an order-preserving subsequence holding exactly the items whose canonical name contains the query |
| `ItemsProcessor.SearchItems` | lib/itemsProcessor.ts:144-156 | a blank query returns every item; otherwise exactly the items whose canonical name contains the normalised query, in result order |
| `AnalyticsUtils.KeepStores` | lib/analyticsUtils.ts:44 | an order-preserving subsequence holding exactly the entries whose store is listed |
| `AnalyticsUtils.SelectStores` | lib/analyticsUtils.ts:98-100 | an empty allow-list keeps the whole history; otherwise exactly the entries of listed stores, in order |
| `AnalyticsUtils.CheapestIndex` | lib/analyticsUtils.ts:105-107 | the reduce picks an entry whose price is at most every price and strictly below every earlier price |
| `AnalyticsUtils.MostExpensiveIndex` | lib/analyticsUtils.ts:110-112 | the reduce picks an entry whose price is at least every price and strictly above every earlier price |
| `AnalyticsUtils.SumBounds` | lib/analyticsUtils.ts:115 | a sum of n prices between lo and hi lies between n·lo and n·hi |
| `AnalyticsUtils.MeanBetween` | lib/analyticsUtils.ts:115 | the mean of a non-empty history lies between any bounds of its prices |
| `AnalyticsUtils.TrendMeaning` | lib/analyticsUtils.ts:118-125 | for a positive oldest price the change is the relative change in percent; the trend is up iff newest > 1.05·oldest, down iff newest < 0.95·oldest, stable otherwise |
| `AnalyticsUtils.PercentChange` | lib/analyticsUtils.ts:118-120 | finite exactly when the oldest price is not zero, and then the percentage times the oldest price is 100 times the change; from zero, an infinity of the sign of the change |
| `AnalyticsUtils.TrendOf` | lib/analyticsUtils.ts:122-125 | up exactly for a change above 5% or +∞, down exactly below −5% or −∞, stable for NaN or within ±5% |
| `AnalyticsUtils.TrendFromZero` | lib/analyticsUtils.ts:120-125 | with an oldest price of 0 the trend is up iff the newest price is positive, down iff negative, stable iff zero |
| `AnalyticsUtils.CalculateStatistics` | lib/analyticsUtils.ts:91-139 | no statistics iff there is no item or the selected history is empty; otherwise total purchases is the selected length |
| `AnalyticsUtils.HistoryBounds` | lib/analyticsUtils.ts:105-112 | every price lies between the reduced minimum and maximum |
| `AnalyticsUtils.StatisticsBounds` | lib/analyticsUtils.ts:105-115 | every selected price, and the average, lie between the cheapest and the most expensive price |
| `AnalyticsUtils.StatisticsExtremes` | lib/analyticsUtils.ts:127-133 | cheapest and most expensive store, price and date belong to one actual selected entry, the first with that price |
| `AnalyticsUtils.StatisticsChange` | lib/analyticsUtils.ts:118-125 | the change runs from the last (oldest) selected entry to the first (newest), and the trend is its dead-band classification |
| `AnalyticsUtils.StatisticsExample` | lib/analyticsUtils.ts:91-139 | prices 4, 3, 3 newest first give cheapest B at 3, most expensive A at 4, mean 10/3, change 33⅓%, trend up |
| `AnalyticsUtils.StorePricesKeys` | lib/analyticsUtils.ts:50-61 | a date's store map has a store iff some selected entry of that store falls on that date |
| `AnalyticsUtils.FoldPrice` | lib/analyticsUtils.ts:55-61 | with no existing price, or an existing 0, the new price; otherwise the midpoint between the existing and the new price |
| `AnalyticsUtils.StorePricesOn` | lib/analyticsUtils.ts:50-61 | a date with no entry has no store prices |
| `AnalyticsUtils.StorePricesBetween` | lib/analyticsUtils.ts:56-61 | a store's folded price on a date lies between the least and greatest of its prices that day |
| `AnalyticsUtils.ChartFoldTwo` | lib/analyticsUtils.ts:56-58 | two purchases of one store on one date chart as their average when the first is not 0 |
| `AnalyticsUtils.ChartFoldIsNotTheMean` | lib/analyticsUtils.ts:56-61 | three purchases at 1, 2 and 3 on one date chart as 2.25, not the mean 2 |
| `AnalyticsUtils.ChartFoldSkipsZero` | lib/analyticsUtils.ts:57-61 | an existing 0 is replaced by the next price, not averaged |
| `AnalyticsUtils.ChartGroupedStep` | lib/analyticsUtils.ts:50-62 | one entry into the date map keeps the keys in first-seen order and each store map equal to its fold |
| `AnalyticsUtils.ChartPointsFacts` | lib/analyticsUtils.ts:67-82 | one point per distinct date, each with that date's folded store prices |
| `AnalyticsUtils.SortedPointsAreChart` | lib/analyticsUtils.ts:85 | the points sorted by date ascend strictly, cover exactly the selected dates and carry their folded prices |
| `AnalyticsUtils.PrepareChartData` | lib/analyticsUtils.ts:36-86 | no item gives no points; otherwise the result is the chart series of the selected history |
| `AnalyticsUtils.GetUniqueStores` | lib/analyticsUtils.ts:144-150 | strictly ascending, and holds a name iff some receipt's selected store is that name |
| `AnalyticsUtils.BrandColor` | lib/analyticsUtils.ts:168-173 | some brand's colour for a name containing that brand, none iff the name contains no brand |
| `AnalyticsUtils.FirstBrandWins` | lib/analyticsUtils.ts:169-173 | the colour is that of the first brand, in the order tried, that the name contains |
| `AnalyticsUtils.GetStoreColor` | lib/analyticsUtils.ts:155-176 | the colour is a palette colour or a brand colour; without a brand it is palette entry `index % 8` |
| `AnalyticsUtils.StoreColorIgnoresCase` | lib/analyticsUtils.ts:168 | letter case of the store name does not change its colour |
| `AnalyticsUtils.StoreColorPeriodic` | lib/analyticsUtils.ts:175 | without a brand the colour repeats every 8 indices; with a brand the index does not matter |
| `AnalyticsUtils.StoreColorOfBrand` | lib/analyticsUtils.ts:168-173 | a store containing the k-th brand and no earlier one gets the k-th brand colour |
| `AnalyticsUtils.CaseInsensitiveOrderIsTotal` | lib/analyticsUtils.ts:28-29 | comparing lower-cased names is a total preorder, as a sort comparator must be |
| `AnalyticsUtils.GetItemNamesForAnalytics` | lib/analyticsUtils.ts:26-31 | the display names of the processed items, sorted ignoring case, a permutation of them |
| `AnalyticsUtils.ItemNamesLookUp` | lib/analyticsUtils.ts:26-31 | every name offered finds, by name lookup, an item with that display name |
| `ListFiles.OnlyFirstReadWrites` | lib/storesStorage.ts:30-35 | after any read the file is no longer missing, so a second read writes nothing |
| `ListFiles.RereadReturnsSaved` | lib/storesStorage.ts:30-48 | a read after a read returns what the first read saved when the file was missing, and what the first read returned otherwise |
| `StoresStorage.MissingFileReadTwice` | lib/storesStorage.ts:30-35 | reading a missing store file returns the defaults in declared order; reading it again returns the sorted list the first read saved, which differs |
| `UnitsStorage.MissingFileReadTwice` | lib/unitsStorage.ts:30-35 | reading a missing unit file returns the defaults in declared order; reading it again returns the sorted list the first read saved, which differs |
| `StoresStorage.TrimAll` | lib/storesStorage.ts:60 | each name trimmed, position by position |
| `StoresStorage.NormalizeStores` | lib/storesStorage.ts:60 | strictly ascending, holding exactly the non-empty trimmed names |
| `StoresStorage.NormalizedStoresAreTrimmed` | lib/storesStorage.ts:60 | every saved name is non-empty and trimmed |
| `StoresStorage.NormalizeStoresOrderFree` | lib/storesStorage.ts:60 | lists with the same names save the same, whatever their order or repetition |
| `StoresStorage.NormalizeStoresIdempotent` | lib/storesStorage.ts:60 | saving a saved list writes it back unchanged |
| `StoresStorage.NormalizeStoresIsCaseSensitive` | lib/storesStorage.ts:60 | "target" and "Target" both survive a save |
| `StoresStorage.NormalizeTrimmedStores` | lib/storesStorage.ts:60 | distinct trimmed non-empty names save as their ascending arrangement |
| `StoresStorage.DefaultStoresTrimmed` | lib/storesStorage.ts:4 | the default stores are non-empty and trimmed |
| `StoresStorage.DefaultStoresSaved` | lib/storesStorage.ts:30-35 | a missing file is seeded with Costco, Kroger, Target, Walmart, Whole Foods in that order |
| `StoresStorage.AddedStoreKeepsOthers` | lib/storesStorage.ts:87-88 | after a successful add the new name and every previously saved name are saved |
| `StoresStorage.DeletedStoreIsGone` | lib/storesStorage.ts:97-103 | for a list of trimmed names, as every save writes, after a delete no saved name equals the deleted one ignoring case, and every other non-empty name survives |
| `StoresStorage.UntrimmedNameSurvivesDelete` | lib/storesStorage.ts:97-99 | a hand-written `" Target"` is not matched by `deleteStore("target")`, and the save that follows stores `"Target"` |
| `StoresStorage.StoreList.SaveAllStores` | lib/storesStorage.ts:54-68 | the file holds the normalised list |
| `StoresStorage.StoreList.GetAllStores` | lib/storesStorage.ts:26-49 | returns the stored array or the defaults; a missing file is created with the normalised defaults, any other left alone |
| `StoresStorage.StoreList.AddStore` | lib/storesStorage.ts:73-89 | succeeds iff the trimmed name is non-empty and matches no listed name ignoring case; a blank name touches nothing; a refusal leaves only the read's seeding; success saves the listed names plus the trimmed name |
| `StoresStorage.StoreList.DeleteStore` | lib/storesStorage.ts:94-104 | succeeds iff some listed name equals the argument ignoring case; success saves the list without every such name; failure leaves only the read's seeding |
| `UnitsStorage.CanonicalAll` | lib/unitsStorage.ts:60 | each unit lower-cased and trimmed, position by position |
| `UnitsStorage.NormalizeUnits` | lib/unitsStorage.ts:60 | strictly ascending, holding exactly the non-empty lower-cased trimmed units |
| `UnitsStorage.NormalizedUnitsAreCanonical` | lib/unitsStorage.ts:60 | every saved unit is non-empty, lower-case and trimmed |
| `UnitsStorage.NormalizeUnitsOrderFree` | lib/unitsStorage.ts:60 | lists with the same units save the same, whatever their order or repetition |
| `UnitsStorage.NormalizeUnitsIdempotent` | lib/unitsStorage.ts:60 | saving a saved list writes it back unchanged |
| `UnitsStorage.NormalizeCanonicalUnits` | lib/unitsStorage.ts:60 | distinct canonical units save as their ascending arrangement |
| `UnitsStorage.DefaultUnitsCanonical` | lib/unitsStorage.ts:4 | the default units are non-empty, lower-case and trimmed |
| `UnitsStorage.DefaultUnitsSaved` | lib/unitsStorage.ts:30-35 | a missing file is seeded with ct, ea, g, kg, l, lb, lbs, ml, oz, pcs in that order |
| `UnitsStorage.TrimmedLowerIsCanonical` | lib/unitsStorage.ts:74 | `trim().toLowerCase()` is already in the form a save writes |
| `UnitsStorage.AddedUnitKeepsOthers` | lib/unitsStorage.ts:85-86 | after a successful add the new unit and every previously saved unit are saved |
| `UnitsStorage.DeleteDoesNotTrim` | lib/unitsStorage.ts:94-98 | a unit name with surrounding white space deletes nothing from a saved list |
| `UnitsStorage.LowerAllMembers` | lib/unitsStorage.ts:111 | the lower-cased existing units are exactly the lower-case forms of the existing units |
| `UnitsStorage.ItemUnitsMembers` | lib/unitsStorage.ts:117-121 | a line item contributes its unit trimmed and lower-cased iff the unit is present and not blank |
| `UnitsStorage.ReceiptUnitsMembers` | lib/unitsStorage.ts:114-124 | the receipt units are exactly the trimmed lower-cased non-blank units of the receipts' line items |
| `UnitsStorage.ReceiptUnitsAreCanonical` | lib/unitsStorage.ts:119 | every receipt unit is non-empty and in saved form |
| `UnitsStorage.AddItemUnits` | lib/unitsStorage.ts:117-121 | the set after one receipt is duplicate-free and holds the previous units plus that receipt's units |
| `UnitsStorage.DiscoveredUnits` | lib/unitsStorage.ts:107-126 | strictly ascending, holding exactly the lower-cased existing units and the receipt units |
| `UnitsStorage.NothingNewWhenAllKnown` | lib/unitsStorage.ts:129-132 | a saved list already holding every receipt unit has no new unit, so nothing is written |
| `UnitsStorage.UnitList.SaveAllUnits` | lib/unitsStorage.ts:54-68 | the file holds the normalised list |
| `UnitsStorage.UnitList.GetAllUnits` | lib/unitsStorage.ts:26-49 | returns the stored array or the defaults; a missing file is created with the normalised defaults, any other left alone |
| `UnitsStorage.UnitList.AddUnit` | lib/unitsStorage.ts:73-87 | succeeds iff the trimmed lower-cased unit is non-empty and not listed; a blank unit touches nothing; a refusal leaves only the read's seeding; success saves the listed units plus the new one |
| `UnitsStorage.UnitList.DeleteUnit` | lib/unitsStorage.ts:92-101 | succeeds iff the lower-cased argument is listed; success saves the list without it; failure leaves only the read's seeding |
| `UnitsStorage.UnitList.DiscoverUnitsFromReceipts` | lib/unitsStorage.ts:106-135 | returns the sorted merged set of listed and receipt units, and saves it iff it holds a unit not already listed |
| `Strings.Trim` | lib/itemsProcessor.ts:31 | the result neither starts nor ends with white space |
| `Strings.TrimIsInfix` | lib/itemsProcessor.ts:31 | the result is the infix of the input left after cutting a prefix and a suffix that are all white space |
| `Strings.LowerAt` | lib/itemsProcessor.ts:31 | `toLowerCase` maps each character to its lower-case form, position by position |
| `Strings.LowerIdempotent` | lib/itemsProcessor.ts:31 | lower-casing twice is lower-casing once |
| `Strings.ContainsIff` | lib/itemsProcessor.ts:154 | `includes` holds exactly when the term occurs in the name at some position |
| `Strings.StrLessEqTotal` | lib/itemsProcessor.ts:81-83 | any two strings are ordered one way or the other |
| `Strings.StrLessEqAntisymmetric` | lib/itemsProcessor.ts:81-83 | strings ordered both ways are equal |
| `Strings.StrLessEqTransitive` | lib/itemsProcessor.ts:81-83 | the string order is transitive |
| `Strings.PrefixComesFirst` | lib/itemsProcessor.ts:81-83 | a string comes before every extension of it |
| `Strings.TrimEmpty` | lib/storesStorage.ts:74-77 | a name trims to empty iff it is all white space |
| `Strings.TrimIdempotent` | lib/storesStorage.ts:60 | trimming twice is trimming once |
| `Strings.TrimLowerCommute` | lib/unitsStorage.ts:74 | `trim().toLowerCase()` equals `toLowerCase().trim()` |
| `Strings.LowerTrimIdempotent` | lib/itemsProcessor.ts:31 | a canonical name is its own canonical name |
| `Strings.LowerTrimAbsorbs` | lib/itemsProcessor.ts:136 | lower-casing or trimming first does not change the canonical name |
| `Strings.StringOrderIsTotal` | lib/storesStorage.ts:60 | the string order of `.sort()` is a total preorder |
| `Strings.StrictlySortedUnique` | lib/storesStorage.ts:60 | two strictly ascending lists with the same elements are equal |
| `Strings.SortStrings` | lib/storesStorage.ts:87 | `.sort()` on strings: ascending, a permutation of its input |
| `Strings.SortStringsOfSet` | lib/analyticsUtils.ts:149 | sorting a duplicate-free list ascends strictly and keeps its elements |
| `Strings.DropEmpty` | lib/storesStorage.ts:60 | `filter(s => s !== '')` keeps exactly the non-empty strings |
| `Strings.SortedUnique` | lib/storesStorage.ts:60 | `Array.from(new Set(xs)).filter(...).sort()` is strictly ascending and holds exactly the non-empty strings of `xs` |
| `Sequences.SortBy` | lib/itemsProcessor.ts:53-55 | `Array.prototype.sort` with a comparator: sorted and a permutation of its input |
| `Sequences.SortByStable` | lib/itemsProcessor.ts:53-55 | the sort is stable: entries the comparator ranks equal keep their relative order |
| `Sequences.Dedup` | lib/analyticsUtils.ts:145-149 | `Array.from(new Set(s))`: duplicate-free, holding exactly the elements of `s` |
| `Sequences.Reject` | lib/storesStorage.ts:97-99 | `filter` with a negated test: an order-preserving subsequence holding exactly the elements not dropped, of equal length iff nothing is dropped |
| `Sequences.Reverse` | lib/itemsProcessor.ts:75 | `reverse()`: same length, element i is element `n - 1 - i` of the input |

## Left out

- File-system calls are not modelled: directory creation, `JSON.parse`, the
  write itself and console logging. The JSON file is the `file` field. A save
  always succeeds, so the `false` a failed `writeFileSync` would return, and
  the `boolean` result of the save functions, are not modelled.
- A JSON file holding an array with non-string elements is not modelled.
  `Written` holds strings only.
- `toLowerCase` is modelled on ASCII letters only. Other letters keep their
  case.
- `trim` removes the ECMAScript white-space and line-terminator characters.
- `localeCompare` and the default `.sort()` are both modelled as
  lexicographic order on characters. Locale collation is not modelled. For
  characters outside the Basic Multilingual Plane, code-point order differs
  from the UTF-16 code-unit order `.sort()` uses.
- Billing dates and receipt timestamps are integers compared by value.
  Parsing them with `new Date(...)` is not modelled. Neither is an
  unparseable timestamp, which would give `NaN` and an inconsistent
  comparator.
- The chart points' display label (`toLocaleDateString` in the
  America/Los_Angeles time zone) and the `dateObj` field are not modelled. A
  point is its integer date and its map from store to price.
- A chart point whose store is literally named `date` or `dateObj` would
  overwrite that field. The model keeps the store prices in a separate map.
- Prices are exact reals, not IEEE doubles. Rounding in the division by the
  quantity, the pairwise average, the mean and the percent change is not
  modelled.
- AnalyticsUtils.GetStoreColor: the index is a natural number. A negative
  or fractional index, for which `colors[index % 8]` is `undefined`, is not
  modelled.
- UnitsStorage.UnitList.DiscoverUnitsFromReceipts: receipts are well-typed.
  The checks `Array.isArray(receipts)`, a missing `extractedData.items` and a
  non-string `unit` are not modelled.
- ItemsProcessor.Receipt: the scanned store name, the upload date and the
  rest of the extracted data play no part in the engine and are not
  modelled.
- ItemsProcessor.LineItem: the line item's `unitPrice` is carried, as in the
  code, and never read; the per-unit price is always computed from
  `totalPrice` and `quantity`.
- `ItemsProcessor.GroupByName`, `ItemsProcessor.BuildItem`,
  `UnitsStorage.AddItemUnits` and `UnitsStorage.DiscoveredUnits` are the
  loops of `processItemsFromReceipts` and `discoverUnitsFromReceipts`, split
  out as methods of their own.
- ItemsProcessor.ApplyPriceVariationRules: in `applyPriceVariationRules`,
  each of the three cases pushes and updates the map itself. The model
  records each case's decision in one `keep` flag and then pushes and updates
  once.
- A store name written to the file untrimmed, by hand, survives its own
  deletion: `deleteStore` compares the untrimmed names and only the save
  afterwards trims them (`UntrimmedNameSurvivesDelete`). The model keeps this
  behaviour; `DeletedStoreIsGone` promises removal only for trimmed lists.
- In-place mutation of shared arrays is not modelled. `entries.sort` reorders
  the group array that the grouping map also holds. The model works on
  sequence values, and the map is not read again after the sort.
