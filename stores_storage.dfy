/**
 * The list of known stores (`lib/storesStorage.ts`): every save trims,
 * de-duplicates, drops empty names and sorts; adding rejects blank names and
 * names already present in any letter case; deleting removes every name equal
 * in any letter case.
 */
module StoresStorage {
  import opened Sequences
  import opened Strings
  import opened ListFiles

  const DEFAULT_STORES: seq<string> := ["Walmart", "Target", "Costco", "Whole Foods", "Kroger"]

  function TrimAll(stores: seq<string>): (r: seq<string>)
    ensures |r| == |stores|
    ensures forall i :: 0 <= i < |stores| ==> r[i] == Trim(stores[i])
    ensures forall x :: x in r <==> exists s :: s in stores && Trim(s) == x
    decreases |stores|
  {
    if stores == [] then []
    else
      var init := stores[..|stores| - 1];
      assert forall s :: s in stores <==> s in init || s == stores[|stores| - 1];
      TrimAll(init) + [Trim(stores[|stores| - 1])]
  }

  /** The list `saveAllStores` writes: the distinct non-empty trimmed names, ascending. */
  function NormalizeStores(stores: seq<string>): (r: seq<string>)
    ensures StrictlySorted(r)
    ensures forall x :: x in r <==> x != "" && exists s :: s in stores && Trim(s) == x
  {
    var trimmed := TrimAll(stores);
    SortedUnique(trimmed)
  }

  /** Every saved name is trimmed and non-empty. */
  lemma NormalizedStoresAreTrimmed(stores: seq<string>)
    ensures forall x :: x in NormalizeStores(stores) ==> x != "" && Trim(x) == x
  {
    forall s | s in stores {
      TrimIdempotent(s);
    }
  }

  /** Only which names occur matters, not their order or repetition. */
  lemma NormalizeStoresOrderFree(stores: seq<string>, others: seq<string>)
    requires forall s :: s in stores <==> s in others
    ensures NormalizeStores(stores) == NormalizeStores(others)
  {
    StrictlySortedUnique(NormalizeStores(stores), NormalizeStores(others));
  }

  /** Saving a saved list writes it back unchanged. */
  lemma NormalizeStoresIdempotent(stores: seq<string>)
    ensures NormalizeStores(NormalizeStores(stores)) == NormalizeStores(stores)
  {
    NormalizedStoresAreTrimmed(stores);
    StrictlySortedUnique(NormalizeStores(NormalizeStores(stores)), NormalizeStores(stores));
  }

  lemma NormalizeStoresOfTwo(a: string, b: string)
    requires a != "" && Trim(a) == a && b != "" && Trim(b) == b && StrLess(a, b)
    ensures NormalizeStores([b, a]) == [a, b]
  {
    assert StrictlySorted([a, b]);
    StrictlySortedUnique(NormalizeStores([b, a]), [a, b]);
  }

  /** De-duplication compares names exactly: two spellings of one store both survive. */
  lemma NormalizeStoresIsCaseSensitive()
    ensures NormalizeStores(["target", "Target"]) == ["Target", "target"]
  {
    assert Trim("Target") == "Target" by {
      assert TrimStart("Target") == "Target";
      assert TrimEnd("Target") == "Target";
    }
    assert Trim("target") == "target" by {
      assert TrimStart("target") == "target";
      assert TrimEnd("target") == "target";
    }
    assert StrLess("Target", "target");
    NormalizeStoresOfTwo("Target", "target");
  }

  /** Names already trimmed, non-empty and distinct are saved as their ascending arrangement. */
  lemma NormalizeTrimmedStores(stores: seq<string>, sorted: seq<string>)
    requires forall s :: s in stores ==> s != "" && Trim(s) == s
    requires StrictlySorted(sorted) && forall x :: x in sorted <==> x in stores
    ensures NormalizeStores(stores) == sorted
  {
    StrictlySortedUnique(NormalizeStores(stores), sorted);
  }

  lemma DefaultStoresTrimmed()
    ensures forall s :: s in DEFAULT_STORES ==> s != "" && Trim(s) == s
  {
    forall s | s in DEFAULT_STORES ensures Trim(s) == s {
      TrimKeeps(s);
    }
  }

  lemma DefaultStoresOrder()
    ensures StrictlySorted(["Costco", "Kroger", "Target", "Walmart", "Whole Foods"])
  {
    var sorted := ["Costco", "Kroger", "Target", "Walmart", "Whole Foods"];
    assert StrLess(sorted[0], sorted[1]) && StrLess(sorted[1], sorted[2]) && StrLess(sorted[2], sorted[3]);
    assert StrLess(sorted[3], sorted[4]);
    StrictlySortedByNeighbours(sorted);
  }

  /** A missing store file is created holding the five default stores in ascending order. */
  lemma DefaultStoresSaved()
    ensures NormalizeStores(DEFAULT_STORES) == ["Costco", "Kroger", "Target", "Walmart", "Whole Foods"]
  {
    DefaultStoresTrimmed();
    DefaultStoresOrder();
    NormalizeTrimmedStores(DEFAULT_STORES, ["Costco", "Kroger", "Target", "Walmart", "Whole Foods"]);
  }

  /**
   * Reading a missing file twice: the first read returns the defaults in their
   * declared order, the second the sorted list the first one saved.
   */
  lemma MissingFileReadTwice()
    ensures var saved := NormalizeStores(DEFAULT_STORES);
      Listed(Missing, DEFAULT_STORES) == DEFAULT_STORES &&
      Listed(Seeded(Missing, saved), DEFAULT_STORES) == ["Costco", "Kroger", "Target", "Walmart", "Whole Foods"] &&
      Listed(Seeded(Missing, saved), DEFAULT_STORES) != DEFAULT_STORES
  {
    RereadReturnsSaved(Missing, DEFAULT_STORES, NormalizeStores(DEFAULT_STORES));
    DefaultStoresSaved();
    SortedDefaultsDiffer();
  }

  /** The saved defaults are not in their declared order. */
  lemma SortedDefaultsDiffer()
    ensures ["Costco", "Kroger", "Target", "Walmart", "Whole Foods"] != DEFAULT_STORES
  {
    assert ["Costco", "Kroger", "Target", "Walmart", "Whole Foods"][0][0] != DEFAULT_STORES[0][0];
  }

  /** The names `s.toLowerCase() === name.toLowerCase()` matches. */
  function SameStore(name: string): string -> bool {
    s => Lower(s) == Lower(name)
  }

  /** A successful add keeps every previously saved name and adds the new one. */
  lemma AddedStoreKeepsOthers(all: seq<string>, trimmed: string)
    requires trimmed != "" && Trim(trimmed) == trimmed
    ensures trimmed in NormalizeStores(all + [trimmed])
    ensures forall x :: x in NormalizeStores(all) ==> x in NormalizeStores(all + [trimmed])
  {
    assert trimmed in all + [trimmed];
    forall x | x in NormalizeStores(all) ensures x in NormalizeStores(all + [trimmed]) {
      var s :| s in all && Trim(s) == x;
      assert s in all + [trimmed];
    }
  }

  /**
   * A name stored with surrounding white space survives its own deletion: the
   * comparison sees `" target"`, and only the save afterwards trims it.
   */
  lemma UntrimmedNameSurvivesDelete()
    ensures var kept := Reject([" Target"], SameStore("target"));
      kept == [" Target"] && "Target" in NormalizeStores(kept)
  {
    var kept := Reject([" Target"], SameStore("target"));
    assert Lower(" Target") != Lower("target") by {
      assert |Lower(" Target")| != |Lower("target")|;
    }
    assert kept == [" Target"] by {
      assert |kept| == 1;
    }
    assert Trim(" Target") == "Target" by {
      assert TrimStart(" Target") == "Target";
      TrimKeeps("Target");
    }
  }

  /** After a delete from a list of trimmed names, as every save writes, no saved name equals the deleted one in any letter case. */
  lemma DeletedStoreIsGone(all: seq<string>, storeName: string)
    requires forall s :: s in all ==> Trim(s) == s
    ensures forall x :: x in NormalizeStores(Reject(all, SameStore(storeName))) ==> Lower(x) != Lower(storeName)
    ensures forall x :: x in all && Lower(x) != Lower(storeName) && x != "" ==>
      x in NormalizeStores(Reject(all, SameStore(storeName)))
  {
    var kept := Reject(all, SameStore(storeName));
    forall x | x in NormalizeStores(kept) ensures Lower(x) != Lower(storeName) {
      var s :| s in kept && Trim(s) == x;
      assert !SameStore(storeName)(s);
    }
    forall x | x in all && Lower(x) != Lower(storeName) && x != "" ensures x in NormalizeStores(kept) {
      assert x in kept;
    }
  }

  /** The store list file. */
  class StoreList {
    var file: ListFile

    constructor(file: ListFile)
      ensures this.file == file
    {
      this.file := file;
    }

    /** `saveAllStores`: writes the normalised list. */
    method SaveAllStores(stores: seq<string>)
      modifies this
      ensures file == Written(NormalizeStores(stores))
    {
      file := Written(NormalizeStores(stores));
    }

    /**
     * `getAllStores`: the stored array, or the defaults; a missing file is
     * first created holding the normalised defaults.
     */
    method GetAllStores() returns (stores: seq<string>)
      modifies this
      ensures stores == Listed(old(file), DEFAULT_STORES)
      ensures file == Seeded(old(file), NormalizeStores(DEFAULT_STORES))
    {
      if file.Missing? {
        SaveAllStores(DEFAULT_STORES);
        return DEFAULT_STORES;
      }
      match file
      case Written(entries) => return entries;
      case Corrupt => return DEFAULT_STORES;
    }

    /**
     * `addStore`: a blank name, or one already present in any letter case, is
     * refused; otherwise the trimmed name is added and the list saved.
     */
    method AddStore(storeName: string) returns (added: bool)
      modifies this
      ensures added <==>
        Trim(storeName) != "" && forall s :: s in Listed(old(file), DEFAULT_STORES) ==> Lower(s) != Lower(Trim(storeName))
      ensures Trim(storeName) == "" ==> file == old(file)
      ensures Trim(storeName) != "" && !added ==> file == Seeded(old(file), NormalizeStores(DEFAULT_STORES))
      ensures added ==> file == Written(NormalizeStores(Listed(old(file), DEFAULT_STORES) + [Trim(storeName)]))
    {
      var trimmed := Trim(storeName);
      if trimmed == "" {
        return false;
      }
      var allStores := GetAllStores();
      var lowerCased := Lower(trimmed);
      if exists s :: s in allStores && Lower(s) == lowerCased {
        return false;
      }
      var newStores := SortStrings(allStores + [trimmed]);
      NormalizeStoresOrderFree(newStores, allStores + [trimmed]);
      SaveAllStores(newStores);
      return true;
    }

    /**
     * `deleteStore`: removes every name equal to `storeName` in any letter
     * case and saves; reports false, saving nothing, when none matched.
     */
    method DeleteStore(storeName: string) returns (deleted: bool)
      modifies this
      ensures deleted <==> exists s :: s in Listed(old(file), DEFAULT_STORES) && Lower(s) == Lower(storeName)
      ensures !deleted ==> file == Seeded(old(file), NormalizeStores(DEFAULT_STORES))
      ensures deleted ==> file == Written(NormalizeStores(Reject(Listed(old(file), DEFAULT_STORES), SameStore(storeName))))
    {
      var allStores := GetAllStores();
      var filtered := Reject(allStores, SameStore(storeName));
      if |filtered| == |allStores| {
        return false;
      }
      SaveAllStores(filtered);
      return true;
    }
  }
}
