/**
 * The list of known units (`lib/unitsStorage.ts`): every save lower-cases,
 * trims, de-duplicates, drops empty units and sorts; units are added and
 * deleted by their lower-case spelling, and units found on receipts are
 * merged into the list.
 */
module UnitsStorage {
  import opened Sequences
  import opened Strings
  import opened ListFiles
  import opened ItemsProcessor

  const DEFAULT_UNITS: seq<string> := ["g", "kg", "oz", "lb", "lbs", "ml", "l", "ea", "pcs", "ct"]

  function CanonicalAll(units: seq<string>): (r: seq<string>)
    ensures |r| == |units|
    ensures forall i :: 0 <= i < |units| ==> r[i] == LowerTrim(units[i])
    ensures forall x :: x in r <==> exists u :: u in units && LowerTrim(u) == x
    decreases |units|
  {
    if units == [] then []
    else
      var init := units[..|units| - 1];
      assert forall u :: u in units <==> u in init || u == units[|units| - 1];
      CanonicalAll(init) + [LowerTrim(units[|units| - 1])]
  }

  /** The list `saveAllUnits` writes: the distinct non-empty lower-cased trimmed units, ascending. */
  function NormalizeUnits(units: seq<string>): (r: seq<string>)
    ensures StrictlySorted(r)
    ensures forall x :: x in r <==> x != "" && exists u :: u in units && LowerTrim(u) == x
  {
    var canonical := CanonicalAll(units);
    SortedUnique(canonical)
  }

  /** Every saved unit is lower-case, trimmed and non-empty. */
  lemma NormalizedUnitsAreCanonical(units: seq<string>)
    ensures forall x :: x in NormalizeUnits(units) ==> x != "" && LowerTrim(x) == x
  {
    forall u | u in units {
      LowerTrimIdempotent(u);
    }
  }

  /** Only which units occur matters, not their order or repetition. */
  lemma NormalizeUnitsOrderFree(units: seq<string>, others: seq<string>)
    requires forall u :: u in units <==> u in others
    ensures NormalizeUnits(units) == NormalizeUnits(others)
  {
    StrictlySortedUnique(NormalizeUnits(units), NormalizeUnits(others));
  }

  /** Saving a saved list writes it back unchanged. */
  lemma NormalizeUnitsIdempotent(units: seq<string>)
    ensures NormalizeUnits(NormalizeUnits(units)) == NormalizeUnits(units)
  {
    NormalizedUnitsAreCanonical(units);
    StrictlySortedUnique(NormalizeUnits(NormalizeUnits(units)), NormalizeUnits(units));
  }

  /** Units already canonical, non-empty and distinct are saved as their ascending arrangement. */
  lemma NormalizeCanonicalUnits(units: seq<string>, sorted: seq<string>)
    requires forall u :: u in units ==> u != "" && LowerTrim(u) == u
    requires StrictlySorted(sorted) && forall x :: x in sorted <==> x in units
    ensures NormalizeUnits(units) == sorted
  {
    StrictlySortedUnique(NormalizeUnits(units), sorted);
  }

  lemma DefaultUnitsCanonical()
    ensures forall u :: u in DEFAULT_UNITS ==> u != "" && LowerTrim(u) == u
  {
    forall u | u in DEFAULT_UNITS ensures LowerTrim(u) == u {
      LowerWordIsCanonical(u);
    }
  }

  lemma DefaultUnitsOrder()
    ensures StrictlySorted(["ct", "ea", "g", "kg", "l", "lb", "lbs", "ml", "oz", "pcs"])
  {
    var sorted := ["ct", "ea", "g", "kg", "l", "lb", "lbs", "ml", "oz", "pcs"];
    assert StrLess(sorted[0], sorted[1]) && StrLess(sorted[1], sorted[2]) && StrLess(sorted[2], sorted[3]);
    assert StrLess(sorted[3], sorted[4]) && StrLess(sorted[4], sorted[5]) && StrLess(sorted[5], sorted[6]);
    assert StrLess(sorted[6], sorted[7]) && StrLess(sorted[7], sorted[8]) && StrLess(sorted[8], sorted[9]);
    StrictlySortedByNeighbours(sorted);
  }

  /** A missing unit file is created holding the ten default units in ascending order. */
  lemma DefaultUnitsSaved()
    ensures NormalizeUnits(DEFAULT_UNITS) == ["ct", "ea", "g", "kg", "l", "lb", "lbs", "ml", "oz", "pcs"]
  {
    DefaultUnitsCanonical();
    DefaultUnitsOrder();
    NormalizeCanonicalUnits(DEFAULT_UNITS, ["ct", "ea", "g", "kg", "l", "lb", "lbs", "ml", "oz", "pcs"]);
  }

  /**
   * Reading a missing file twice: the first read returns the defaults in their
   * declared order, the second the sorted list the first one saved.
   */
  lemma MissingFileReadTwice()
    ensures var saved := NormalizeUnits(DEFAULT_UNITS);
      Listed(Missing, DEFAULT_UNITS) == DEFAULT_UNITS &&
      Listed(Seeded(Missing, saved), DEFAULT_UNITS) == ["ct", "ea", "g", "kg", "l", "lb", "lbs", "ml", "oz", "pcs"] &&
      Listed(Seeded(Missing, saved), DEFAULT_UNITS) != DEFAULT_UNITS
  {
    RereadReturnsSaved(Missing, DEFAULT_UNITS, NormalizeUnits(DEFAULT_UNITS));
    DefaultUnitsSaved();
    SortedDefaultsDiffer();
  }

  /** The saved defaults are not in their declared order. */
  lemma SortedDefaultsDiffer()
    ensures ["ct", "ea", "g", "kg", "l", "lb", "lbs", "ml", "oz", "pcs"] != DEFAULT_UNITS
  {
    assert ["ct", "ea", "g", "kg", "l", "lb", "lbs", "ml", "oz", "pcs"][0][0] != DEFAULT_UNITS[0][0];
  }

  /** `unit.trim().toLowerCase()` is already in canonical form. */
  lemma TrimmedLowerIsCanonical(unit: string)
    ensures LowerTrim(Lower(Trim(unit))) == Lower(Trim(unit))
  {
    TrimLowerCommute(unit);
    LowerTrimIdempotent(unit);
  }

  /** A successful add keeps every previously saved unit and adds the new one. */
  lemma AddedUnitKeepsOthers(all: seq<string>, unit: string)
    requires Lower(Trim(unit)) != ""
    ensures Lower(Trim(unit)) in NormalizeUnits(all + [Lower(Trim(unit))])
    ensures forall x :: x in NormalizeUnits(all) ==> x in NormalizeUnits(all + [Lower(Trim(unit))])
  {
    var added := Lower(Trim(unit));
    TrimmedLowerIsCanonical(unit);
    assert added in all + [added];
    forall x | x in NormalizeUnits(all) ensures x in NormalizeUnits(all + [added]) {
      var u :| u in all && LowerTrim(u) == x;
      assert u in all + [added];
    }
  }

  /** The units `u !== unit.toLowerCase()` drops. */
  function SameUnit(unit: string): string -> bool {
    u => u == Lower(unit)
  }

  /** The name given to a delete is lower-cased but not trimmed: padded, it matches no saved unit. */
  lemma DeleteDoesNotTrim(all: seq<string>, unit: string)
    requires forall u :: u in all ==> LowerTrim(u) == u
    requires Trim(Lower(unit)) != Lower(unit)
    ensures |Reject(all, SameUnit(unit))| == |all|
  {
    forall u | u in all ensures !SameUnit(unit)(u) {
      if u == Lower(unit) {
        assert LowerTrim(u) == Trim(Lower(Lower(unit)));
        LowerIdempotent(unit);
      }
    }
  }

  // ---------------------------------------------------------------------------
  // Discovery

  /** `units.map(u => u.toLowerCase())`. */
  function LowerAll(units: seq<string>): (r: seq<string>)
    ensures |r| == |units|
    decreases |units|
  {
    if units == [] then [] else LowerAll(units[..|units| - 1]) + [Lower(units[|units| - 1])]
  }

  lemma {:induction false} LowerAllMembers(units: seq<string>)
    ensures forall x :: x in LowerAll(units) <==> exists u :: u in units && Lower(u) == x
    decreases |units|
  {
    if units != [] {
      var init := units[..|units| - 1];
      var last := units[|units| - 1];
      LowerAllMembers(init);
      assert LowerAll(units) == LowerAll(init) + [Lower(last)];
      assert forall u :: u in units <==> u in init || u == last;
      assert last in units;
    }
  }

  /**
   * The units the line items contribute, in order: `unit.trim().toLowerCase()`
   * for each item whose unit is present and not blank.
   */
  function ItemUnits(items: seq<LineItem>): seq<string>
    decreases |items|
  {
    if items == [] then []
    else
      var item := items[|items| - 1];
      ItemUnits(items[..|items| - 1]) +
        (if item.unit.Some? && Trim(item.unit.value) != "" then [Lower(Trim(item.unit.value))] else [])
  }

  /** The units the receipts' line items contribute, receipt by receipt. */
  function ReceiptUnits(receipts: seq<Receipt>): seq<string>
    decreases |receipts|
  {
    if receipts == [] then [] else ReceiptUnits(receipts[..|receipts| - 1]) + ItemUnits(receipts[|receipts| - 1].items)
  }

  /** A receipt unit is the trimmed lower-cased unit of some line item whose unit is not blank. */
  lemma {:induction false} ItemUnitsMembers(items: seq<LineItem>)
    ensures forall x :: x in ItemUnits(items) <==>
      exists it :: it in items && it.unit.Some? && Trim(it.unit.value) != "" && Lower(Trim(it.unit.value)) == x
    decreases |items|
  {
    if items != [] {
      var init := items[..|items| - 1];
      ItemUnitsMembers(init);
      assert forall it :: it in items <==> it in init || it == items[|items| - 1];
    }
  }

  lemma {:induction false} ReceiptUnitsMembers(receipts: seq<Receipt>)
    ensures forall x :: x in ReceiptUnits(receipts) <==>
      exists r, it :: r in receipts && it in r.items && it.unit.Some? && Trim(it.unit.value) != "" &&
                      Lower(Trim(it.unit.value)) == x
    decreases |receipts|
  {
    if receipts != [] {
      var init := receipts[..|receipts| - 1];
      var last := receipts[|receipts| - 1];
      ReceiptUnitsMembers(init);
      ItemUnitsMembers(last.items);
      assert forall r :: r in receipts <==> r in init || r == last;
    }
  }

  /** Every discovered receipt unit is in canonical form, so saving keeps it. */
  lemma {:induction false} ReceiptUnitsAreCanonical(receipts: seq<Receipt>)
    ensures forall x :: x in ReceiptUnits(receipts) ==> x != "" && LowerTrim(x) == x
  {
    ReceiptUnitsMembers(receipts);
    forall x | x in ReceiptUnits(receipts) ensures x != "" && LowerTrim(x) == x {
      var r, it :| r in receipts && it in r.items && it.unit.Some? && Trim(it.unit.value) != "" &&
                   Lower(Trim(it.unit.value)) == x;
      TrimmedLowerIsCanonical(it.unit.value);
    }
  }

  lemma PrefixItemUnits(items: seq<LineItem>, j: nat)
    requires j < |items|
    ensures ItemUnits(items[..j + 1]) == ItemUnits(items[..j]) +
      (if items[j].unit.Some? && Trim(items[j].unit.value) != "" then [Lower(Trim(items[j].unit.value))] else [])
  {
    assert items[..j + 1][..j] == items[..j];
  }

  lemma PrefixReceiptUnits(receipts: seq<Receipt>, i: nat)
    requires i < |receipts|
    ensures ReceiptUnits(receipts[..i + 1]) == ReceiptUnits(receipts[..i]) + ItemUnits(receipts[i].items)
  {
    assert receipts[..i + 1][..i] == receipts[..i];
  }

  lemma PrefixLowerAll(units: seq<string>, k: nat)
    requires k < |units|
    ensures LowerAll(units[..k + 1]) == LowerAll(units[..k]) + [Lower(units[k])]
  {
    assert units[..k + 1][..k] == units[..k];
  }

  /** The inner loop of discovery: adds the units of one receipt's line items to the set. */
  method AddItemUnits(discoveredUnits: seq<string>, items: seq<LineItem>) returns (result: seq<string>)
    requires NoDup(discoveredUnits)
    ensures NoDup(result)
    ensures forall u :: u in result <==> u in discoveredUnits || u in ItemUnits(items)
  {
    result := discoveredUnits;
    for j := 0 to |items|
      invariant NoDup(result)
      invariant forall u :: u in result <==> u in discoveredUnits || u in ItemUnits(items[..j])
    {
      ghost var before := result;
      var item := items[j];
      if item.unit.Some? && Trim(item.unit.value) != "" {
        var unit := Lower(Trim(item.unit.value));
        if unit !in result {
          result := result + [unit];
        }
      }
      PrefixItemUnits(items, j);
      SetAddStep(before, result, discoveredUnits, ItemUnits(items[..j]),
        if item.unit.Some? && Trim(item.unit.value) != "" then [Lower(Trim(item.unit.value))] else []);
    }
    assert items[..|items|] == items;
  }

  /**
   * The set `discoverUnitsFromReceipts` builds, sorted: every existing unit
   * lower-cased (not trimmed) and every non-blank line-item unit trimmed and
   * lower-cased.
   */
  method DiscoveredUnits(existingUnits: seq<string>, receipts: seq<Receipt>) returns (allUnits: seq<string>)
    ensures StrictlySorted(allUnits)
    ensures forall u :: u in allUnits <==> u in LowerAll(existingUnits) || u in ReceiptUnits(receipts)
  {
    var discoveredUnits: seq<string> := [];
    for k := 0 to |existingUnits|
      invariant NoDup(discoveredUnits)
      invariant forall u :: u in discoveredUnits <==> u in LowerAll(existingUnits[..k])
    {
      ghost var before := discoveredUnits;
      var unit := Lower(existingUnits[k]);
      if unit !in discoveredUnits {
        discoveredUnits := discoveredUnits + [unit];
      }
      PrefixLowerAll(existingUnits, k);
      SetAddStep(before, discoveredUnits, [], LowerAll(existingUnits[..k]), [unit]);
    }
    assert existingUnits[..|existingUnits|] == existingUnits;
    for i := 0 to |receipts|
      invariant NoDup(discoveredUnits)
      invariant forall u :: u in discoveredUnits <==> u in LowerAll(existingUnits) || u in ReceiptUnits(receipts[..i])
    {
      discoveredUnits := AddItemUnits(discoveredUnits, receipts[i].items);
      PrefixReceiptUnits(receipts, i);
    }
    assert receipts[..|receipts|] == receipts;
    allUnits := SortStrings(discoveredUnits);
    SortStringsOfSet(discoveredUnits);
  }

  /** `allUnits.some(unit => !existingUnits.includes(unit))`. */
  predicate HasNewUnits(allUnits: seq<string>, existingUnits: seq<string>) {
    exists u :: u in allUnits && u !in existingUnits
  }

  /** A saved list already holding every receipt unit is not written again. */
  lemma NothingNewWhenAllKnown(existingUnits: seq<string>, receipts: seq<Receipt>, allUnits: seq<string>)
    requires forall u :: u in existingUnits ==> LowerTrim(u) == u
    requires forall u :: u in ReceiptUnits(receipts) ==> u in existingUnits
    requires forall u :: u in allUnits <==> u in LowerAll(existingUnits) || u in ReceiptUnits(receipts)
    ensures !HasNewUnits(allUnits, existingUnits)
  {
    LowerAllMembers(existingUnits);
    forall u | u in LowerAll(existingUnits) ensures u in existingUnits {
      var e :| e in existingUnits && Lower(e) == u;
      assert LowerTrim(e) == e;
      TrimLowerCommute(e);
      LowerIdempotent(Trim(e));
    }
  }

  /** The unit list file. */
  class UnitList {
    var file: ListFile

    constructor(file: ListFile)
      ensures this.file == file
    {
      this.file := file;
    }

    /** `saveAllUnits`: writes the normalised list. */
    method SaveAllUnits(units: seq<string>)
      modifies this
      ensures file == Written(NormalizeUnits(units))
    {
      file := Written(NormalizeUnits(units));
    }

    /**
     * `getAllUnits`: the stored array, or the defaults; a missing file is
     * first created holding the normalised defaults.
     */
    method GetAllUnits() returns (units: seq<string>)
      modifies this
      ensures units == Listed(old(file), DEFAULT_UNITS)
      ensures file == Seeded(old(file), NormalizeUnits(DEFAULT_UNITS))
    {
      if file.Missing? {
        SaveAllUnits(DEFAULT_UNITS);
        return DEFAULT_UNITS;
      }
      match file
      case Written(entries) => return entries;
      case Corrupt => return DEFAULT_UNITS;
    }

    /**
     * `addUnit`: a blank unit, or one whose lower-case spelling is already
     * listed, is refused; otherwise it is added and the list saved.
     */
    method AddUnit(unit: string) returns (added: bool)
      modifies this
      ensures added <==> Lower(Trim(unit)) != "" && Lower(Trim(unit)) !in Listed(old(file), DEFAULT_UNITS)
      ensures Lower(Trim(unit)) == "" ==> file == old(file)
      ensures Lower(Trim(unit)) != "" && !added ==> file == Seeded(old(file), NormalizeUnits(DEFAULT_UNITS))
      ensures added ==> file == Written(NormalizeUnits(Listed(old(file), DEFAULT_UNITS) + [Lower(Trim(unit))]))
    {
      var trimmed := Lower(Trim(unit));
      if trimmed == "" {
        return false;
      }
      var allUnits := GetAllUnits();
      if trimmed in allUnits {
        return false;
      }
      var newUnits := SortStrings(allUnits + [trimmed]);
      NormalizeUnitsOrderFree(newUnits, allUnits + [trimmed]);
      SaveAllUnits(newUnits);
      return true;
    }

    /**
     * `deleteUnit`: removes the units equal to `unit.toLowerCase()` and saves;
     * reports false, saving nothing, when none matched.
     */
    method DeleteUnit(unit: string) returns (deleted: bool)
      modifies this
      ensures deleted <==> Lower(unit) in Listed(old(file), DEFAULT_UNITS)
      ensures !deleted ==> file == Seeded(old(file), NormalizeUnits(DEFAULT_UNITS))
      ensures deleted ==> file == Written(NormalizeUnits(Reject(Listed(old(file), DEFAULT_UNITS), SameUnit(unit))))
    {
      var allUnits := GetAllUnits();
      var filtered := Reject(allUnits, SameUnit(unit));
      if |filtered| == |allUnits| {
        return false;
      }
      SaveAllUnits(filtered);
      return true;
    }

    /**
     * `discoverUnitsFromReceipts`: merges the receipts' units into the listed
     * ones and saves the merged list only when it holds a unit not listed.
     */
    method DiscoverUnitsFromReceipts(receipts: seq<Receipt>) returns (allUnits: seq<string>)
      modifies this
      ensures StrictlySorted(allUnits)
      ensures forall u :: u in allUnits <==>
        u in LowerAll(Listed(old(file), DEFAULT_UNITS)) || u in ReceiptUnits(receipts)
      ensures HasNewUnits(allUnits, Listed(old(file), DEFAULT_UNITS)) ==> file == Written(NormalizeUnits(allUnits))
      ensures !HasNewUnits(allUnits, Listed(old(file), DEFAULT_UNITS)) ==>
        file == Seeded(old(file), NormalizeUnits(DEFAULT_UNITS))
    {
      var existingUnits := GetAllUnits();
      allUnits := DiscoveredUnits(existingUnits, receipts);
      var hasNewUnits := exists u :: u in allUnits && u !in existingUnits;
      if hasNewUnits {
        SaveAllUnits(allUnits);
      }
    }
  }
}
