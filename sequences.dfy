/**
 * Generic facts about sequences used throughout the model: the stable sort that
 * stands for `Array.prototype.sort`, the first-occurrence de-duplication that a
 * JavaScript `Set` performs, subsequences and reversal.
 */
module Sequences {
  import opened Wrappers

  /** `le` is total and transitive: what a sort comparator must be. */
  ghost predicate TotalPreorder<T(!new)>(le: (T, T) -> bool) {
    && (forall a, b :: le(a, b) || le(b, a))
    && (forall a, b, c :: le(a, b) && le(b, c) ==> le(a, c))
  }

  predicate SortedBy<T>(s: seq<T>, le: (T, T) -> bool) {
    forall i, j :: 0 <= i < j < |s| ==> le(s[i], s[j])
  }

  predicate NoDup<T(==)>(s: seq<T>) {
    forall i, j :: 0 <= i < j < |s| ==> s[i] != s[j]
  }

  /** Where a stable insertion puts `x` into sorted `s`: after every element not above it. */
  function InsertionPoint<T>(x: T, s: seq<T>, le: (T, T) -> bool): (p: nat)
    ensures p <= |s|
    ensures forall i :: 0 <= i < p ==> le(s[i], x)
    ensures p < |s| ==> !le(s[p], x)
  {
    if s == [] || !le(s[0], x) then 0 else 1 + InsertionPoint(x, s[1..], le)
  }

  function Insert<T>(x: T, s: seq<T>, le: (T, T) -> bool): (r: seq<T>)
    ensures multiset(r) == multiset(s) + multiset{x}
  {
    var p := InsertionPoint(x, s, le);
    assert s == s[..p] + s[p..];
    s[..p] + [x] + s[p..]
  }

  lemma InsertSorted<T(!new)>(x: T, s: seq<T>, le: (T, T) -> bool)
    requires TotalPreorder(le) && SortedBy(s, le)
    ensures SortedBy(Insert(x, s, le), le)
  {
    var p := InsertionPoint(x, s, le);
    var r := Insert(x, s, le);
    if p < |s| {
      assert le(x, s[p]);
    }
    forall i, j | 0 <= i < j < |r| ensures le(r[i], r[j]) {
      if j < p {
        assert r[i] == s[i] && r[j] == s[j];
      } else if j == p {
        assert r[j] == x && r[i] == s[i];
      } else if i < p {
        assert r[i] == s[i] && r[j] == s[j - 1];
      } else if i == p {
        assert r[i] == x && r[j] == s[j - 1];
        assert le(s[p], s[j - 1]) || p == j - 1;
      } else {
        assert r[i] == s[i - 1] && r[j] == s[j - 1];
      }
    }
  }

  /**
   * Stable insertion sort: the model of `Array.prototype.sort` with a comparator,
   * which ECMAScript 2019 requires to be stable.
   */
  function SortBy<T(!new)>(s: seq<T>, le: (T, T) -> bool): (r: seq<T>)
    requires TotalPreorder(le)
    ensures SortedBy(r, le)
    ensures multiset(r) == multiset(s)
    ensures |r| == |s|
    decreases |s|
  {
    if s == [] then []
    else
      var sorted := SortBy(s[..|s| - 1], le);
      InsertSorted(s[|s| - 1], sorted, le);
      assert s == s[..|s| - 1] + [s[|s| - 1]];
      Insert(s[|s| - 1], sorted, le)
  }

  /** The elements of `s` that `le` ranks equal to `x`, in their order in `s`. */
  function TiedWith<T>(s: seq<T>, x: T, le: (T, T) -> bool): seq<T>
    decreases |s|
  {
    if s == [] then []
    else
      var last := s[|s| - 1];
      TiedWith(s[..|s| - 1], x, le) + (if le(last, x) && le(x, last) then [last] else [])
  }

  lemma {:induction false} TiedWithAppend<T>(a: seq<T>, b: seq<T>, x: T, le: (T, T) -> bool)
    ensures TiedWith(a + b, x, le) == TiedWith(a, x, le) + TiedWith(b, x, le)
    decreases |b|
  {
    if b != [] {
      var b' := b[..|b| - 1];
      assert (a + b)[..|a + b| - 1] == a + b';
      TiedWithAppend(a, b', x, le);
    } else {
      assert a + b == a;
    }
  }

  lemma {:induction false} TiedWithNone<T>(s: seq<T>, x: T, le: (T, T) -> bool)
    requires forall i :: 0 <= i < |s| ==> !(le(s[i], x) && le(x, s[i]))
    ensures TiedWith(s, x, le) == []
    decreases |s|
  {
    if s != [] {
      TiedWithNone(s[..|s| - 1], x, le);
    }
  }

  /** Past the insertion point of `y`, nothing ranks equal to anything tied with `y`. */
  lemma NothingTiedAfterInsertionPoint<T(!new)>(y: T, t: seq<T>, x: T, le: (T, T) -> bool)
    requires TotalPreorder(le) && SortedBy(t, le)
    requires le(y, x) && le(x, y)
    ensures TiedWith(t[InsertionPoint(y, t, le)..], x, le) == []
  {
    var p := InsertionPoint(y, t, le);
    var back := t[p..];
    forall i | 0 <= i < |back| ensures !(le(back[i], x) && le(x, back[i])) {
      assert back[i] == t[p + i];
      if i > 0 {
        assert le(t[p], t[p + i]);
      }
    }
    TiedWithNone(back, x, le);
  }

  lemma InsertSplitsTiedWith<T>(y: T, t: seq<T>, x: T, le: (T, T) -> bool)
    ensures var p := InsertionPoint(y, t, le);
      && TiedWith(Insert(y, t, le), x, le)
         == TiedWith(t[..p], x, le) + TiedWith([y], x, le) + TiedWith(t[p..], x, le)
      && TiedWith(t, x, le) == TiedWith(t[..p], x, le) + TiedWith(t[p..], x, le)
  {
    var p := InsertionPoint(y, t, le);
    var front, back := t[..p], t[p..];
    assert t == front + back;
    assert Insert(y, t, le) == (front + [y]) + back;
    TiedWithAppend(front, back, x, le);
    TiedWithAppend(front + [y], back, x, le);
    TiedWithAppend(front, [y], x, le);
  }

  lemma TiedWithSingleton<T>(y: T, x: T, le: (T, T) -> bool)
    ensures TiedWith([y], x, le) == if le(y, x) && le(x, y) then [y] else []
  {
    assert [y][..0] == [];
  }

  lemma InsertTiedWith<T>(y: T, t: seq<T>, x: T, le: (T, T) -> bool)
    requires le(y, x) && le(x, y) ==> TiedWith(t[InsertionPoint(y, t, le)..], x, le) == []
    ensures TiedWith(Insert(y, t, le), x, le)
         == TiedWith(t, x, le) + (if le(y, x) && le(x, y) then [y] else [])
  {
    InsertSplitsTiedWith(y, t, x, le);
    var p := InsertionPoint(y, t, le);
    TiedWithSingleton(y, x, le);
    MoveToEnd(TiedWith(t[..p], x, le), TiedWith([y], x, le), TiedWith(t[p..], x, le));
  }

  lemma MoveToEnd<T>(front: seq<T>, mid: seq<T>, back: seq<T>)
    requires mid != [] ==> back == []
    ensures front + mid + back == (front + back) + mid
  {
    if mid != [] {
      assert back == [];
      assert front + mid + [] == front + mid;
      assert front + [] == front;
    } else {
      assert front + [] + back == front + back;
      assert (front + back) + [] == front + back;
    }
  }

  lemma InsertStable<T(!new)>(y: T, t: seq<T>, x: T, le: (T, T) -> bool)
    requires TotalPreorder(le) && SortedBy(t, le)
    ensures TiedWith(Insert(y, t, le), x, le)
         == TiedWith(t, x, le) + (if le(y, x) && le(x, y) then [y] else [])
  {
    if le(y, x) && le(x, y) {
      NothingTiedAfterInsertionPoint(y, t, x, le);
    }
    InsertTiedWith(y, t, x, le);
  }

  /** The sort is stable: elements ranked equal keep their relative order. */
  lemma {:induction false} SortByStable<T(!new)>(s: seq<T>, x: T, le: (T, T) -> bool)
    requires TotalPreorder(le)
    ensures TiedWith(SortBy(s, le), x, le) == TiedWith(s, x, le)
    decreases |s|
  {
    if s != [] {
      var init := s[..|s| - 1];
      SortByStable(init, x, le);
      InsertStable(s[|s| - 1], SortBy(init, le), x, le);
    }
  }

  lemma {:induction false} NoDupAtMostOnce<T>(s: seq<T>, x: T)
    requires NoDup(s)
    ensures multiset(s)[x] <= 1
    decreases |s|
  {
    if s != [] {
      var init := s[..|s| - 1];
      assert s == init + [s[|s| - 1]];
      NoDupAtMostOnce(init, x);
      if x == s[|s| - 1] {
        assert x !in init;
      }
    }
  }

  /** A rearrangement of a duplicate-free sequence is duplicate-free. */
  lemma PermutationKeepsNoDup<T>(s: seq<T>, t: seq<T>)
    requires multiset(s) == multiset(t) && NoDup(s)
    ensures NoDup(t)
  {
    forall i, j | 0 <= i < j < |t| ensures t[i] != t[j] {
      if t[i] == t[j] {
        assert t == t[..j] + t[j..];
        assert t[i] in t[..j] && t[j] in t[j..];
        assert multiset(t)[t[i]] == multiset(t[..j])[t[i]] + multiset(t[j..])[t[i]];
        NoDupAtMostOnce(s, t[i]);
        assert false;
      }
    }
  }

  /** What `Array.from(new Set(s))` yields: each distinct element once, at its first occurrence. */
  function Dedup<T(==,!new)>(s: seq<T>): (r: seq<T>)
    ensures NoDup(r)
    ensures forall x :: x in r <==> x in s
    decreases |s|
  {
    if s == [] then []
    else
      var d := Dedup(s[..|s| - 1]);
      var last := s[|s| - 1];
      if last in d then d else d + [last]
  }

  /**
   * One `set.add` on a set kept as a duplicate-free sequence in insertion order:
   * `before` holds the elements of `base` and `found`, `added` is what this step
   * offers (nothing or one element), and `after` is the set once it is added.
   */
  lemma SetAddStep<T>(before: seq<T>, after: seq<T>, base: seq<T>, found: seq<T>, added: seq<T>)
    requires NoDup(before) && forall u :: u in before <==> u in base || u in found
    requires |added| <= 1
    requires after == if added != [] && added[0] !in before then before + added else before
    ensures NoDup(after)
    ensures forall u :: u in after <==> u in base || u in found + added
  {
  }

  /** `s.filter(x => !drop(x))`. */
  function Reject<T(!new)>(s: seq<T>, drop: T -> bool): (r: seq<T>)
    ensures SubsequenceOf(r, s)
    ensures forall x :: x in r <==> x in s && !drop(x)
    ensures |r| == |s| <==> forall x :: x in s ==> !drop(x)
    decreases |s|
  {
    if s == [] then []
    else
      var init := s[..|s| - 1];
      var last := s[|s| - 1];
      var r := Reject(init, drop);
      SubsequenceFacts(r, init);
      assert forall x :: x in s <==> x in init || x == last;
      if drop(last) then r
      else
        assert (r + [last])[..|r|] == r;
        r + [last]
  }

  lemma DedupAppend<T(!new)>(s: seq<T>, x: T)
    ensures Dedup(s + [x]) == if x in Dedup(s) then Dedup(s) else Dedup(s) + [x]
  {
    assert (s + [x])[..|s|] == s;
  }

  lemma PrefixStep<T>(s: seq<T>, j: nat)
    requires j < |s|
    ensures s[..j + 1] == s[..j] + [s[j]]
  {
  }

  lemma SplitLast<T>(s: seq<T>)
    requires s != []
    ensures s == s[..|s| - 1] + [s[|s| - 1]]
  {
  }

  lemma HeadIsElement<T>(s: seq<T>)
    ensures s != [] ==> s[0] in s
  {
  }

  /** `xs.map(f)` with the absent results dropped, in the order of `xs`. */
  function Collect<A, B>(xs: seq<A>, f: A -> Option<B>): (r: seq<B>)
    ensures |r| <= |xs|
    decreases |xs|
  {
    if xs == [] then []
    else
      var y := f(xs[|xs| - 1]);
      Collect(xs[..|xs| - 1], f) + (if y.Some? then [y.value] else [])
  }

  /** When `f` yields a value for every element, nothing is dropped. */
  lemma {:induction false} CollectAll<A, B>(xs: seq<A>, f: A -> Option<B>)
    requires forall x :: x in xs ==> f(x).Some?
    ensures |Collect(xs, f)| == |xs|
    ensures forall i :: 0 <= i < |xs| ==> Collect(xs, f)[i] == f(xs[i]).value
    decreases |xs|
  {
    if xs != [] {
      var init := xs[..|xs| - 1];
      assert forall x :: x in init ==> x in xs;
      CollectAll(init, f);
      assert xs[|xs| - 1] in xs;
      forall i | 0 <= i < |xs| ensures Collect(xs, f)[i] == f(xs[i]).value {
        if i < |init| {
          assert xs[i] == init[i];
        }
      }
    }
  }

  /** Every collected value is the value of `f` at some element. */
  lemma {:induction false} CollectMember<A, B>(xs: seq<A>, f: A -> Option<B>, y: B)
    requires y in Collect(xs, f)
    ensures exists x :: x in xs && f(x) == Some(y)
    decreases |xs|
  {
    var init := xs[..|xs| - 1];
    if y in Collect(init, f) {
      CollectMember(init, f, y);
      var x :| x in init && f(x) == Some(y);
      assert x in xs;
    } else {
      assert xs[|xs| - 1] in xs;
    }
  }

  /** `a` can be obtained from `b` by deleting elements. */
  predicate SubsequenceOf<T(==)>(a: seq<T>, b: seq<T>)
    decreases |b|
  {
    if b == [] then a == []
    else
      || SubsequenceOf(a, b[..|b| - 1])
      || (a != [] && a[|a| - 1] == b[|b| - 1] && SubsequenceOf(a[..|a| - 1], b[..|b| - 1]))
  }

  lemma {:induction false} SubsequenceFacts<T>(a: seq<T>, b: seq<T>)
    requires SubsequenceOf(a, b)
    ensures |a| <= |b|
    ensures forall x :: x in a ==> x in b
    decreases |b|
  {
    if b != [] {
      if SubsequenceOf(a, b[..|b| - 1]) {
        SubsequenceFacts(a, b[..|b| - 1]);
      } else {
        SubsequenceFacts(a[..|a| - 1], b[..|b| - 1]);
        assert a == a[..|a| - 1] + [a[|a| - 1]];
      }
    }
  }

  /** A subsequence of a sorted sequence is sorted. */
  lemma {:induction false} SubsequenceSorted<T>(a: seq<T>, b: seq<T>, le: (T, T) -> bool)
    requires SubsequenceOf(a, b) && SortedBy(b, le)
    ensures SortedBy(a, le)
    decreases |b|
  {
    if b != [] {
      if SubsequenceOf(a, b[..|b| - 1]) {
        SubsequenceSorted(a, b[..|b| - 1], le);
      } else {
        var a', b' := a[..|a| - 1], b[..|b| - 1];
        SubsequenceSorted(a', b', le);
        SubsequenceFacts(a', b');
        forall i, j | 0 <= i < j < |a| ensures le(a[i], a[j]) {
          if j == |a| - 1 {
            assert a[i] in b';
            var k :| 0 <= k < |b'| && b'[k] == a[i];
            assert le(b[k], b[|b| - 1]);
          } else {
            assert a[i] == a'[i] && a[j] == a'[j];
          }
        }
      }
    }
  }

  lemma {:induction false} SubsequenceRefl<T>(s: seq<T>)
    ensures SubsequenceOf(s, s)
    decreases |s|
  {
    if s != [] {
      SubsequenceRefl(s[..|s| - 1]);
    }
  }

  function Reverse<T>(s: seq<T>): (r: seq<T>)
    ensures |r| == |s|
    ensures forall i :: 0 <= i < |s| ==> r[i] == s[|s| - 1 - i]
    decreases |s|
  {
    if s == [] then [] else [s[|s| - 1]] + Reverse(s[..|s| - 1])
  }
}
