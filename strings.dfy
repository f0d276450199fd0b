/**
 * The string operations the TypeScript code relies on: `trim`, `toLowerCase`,
 * `includes`, and the order used by `.sort()` and `localeCompare`.
 */
module Strings {
  import opened Sequences

  /** ECMAScript WhiteSpace and LineTerminator code points: what `String.prototype.trim` removes. */
  predicate IsSpace(c: char) {
    || c == ' ' || c == '\t' || c == '\n' || c == '\r' || c == '\U{B}' || c == '\U{C}'
    || c == '\U{A0}' || c == '\U{1680}' || ('\U{2000}' <= c <= '\U{200A}')
    || c == '\U{2028}' || c == '\U{2029}' || c == '\U{202F}' || c == '\U{205F}'
    || c == '\U{3000}' || c == '\U{FEFF}'
  }

  function TrimStart(s: string): (r: string)
    ensures |r| <= |s|
    ensures r == [] || !IsSpace(r[0])
    decreases |s|
  {
    if s != [] && IsSpace(s[0]) then TrimStart(s[1..]) else s
  }

  function TrimEnd(s: string): (r: string)
    ensures |r| <= |s|
    ensures r == [] || !IsSpace(r[|r| - 1])
    decreases |s|
  {
    if s != [] && IsSpace(s[|s| - 1]) then TrimEnd(s[..|s| - 1]) else s
  }

  lemma {:induction false} TrimStartIsSuffix(s: string)
    ensures TrimStart(s) == s[|s| - |TrimStart(s)|..]
    decreases |s|
  {
    if s != [] && IsSpace(s[0]) {
      TrimStartIsSuffix(s[1..]);
    }
  }

  lemma {:induction false} TrimEndIsPrefix(s: string)
    ensures TrimEnd(s) == s[..|TrimEnd(s)|]
    decreases |s|
  {
    if s != [] && IsSpace(s[|s| - 1]) {
      TrimEndIsPrefix(s[..|s| - 1]);
    }
  }

  /** `s.trim()`: the longest infix of `s` that neither starts nor ends with white space. */
  function Trim(s: string): (r: string)
    ensures r == [] || (!IsSpace(r[0]) && !IsSpace(r[|r| - 1]))
  {
    var t := TrimStart(s);
    var r := TrimEnd(t);
    TrimEndIsPrefix(t);
    assert r != [] ==> r[0] == t[0];
    r
  }

  /**
   * `Trim(s)` is the infix of `s` left once its leading and trailing white
   * space is cut: everything before and after it is white space.
   */
  lemma TrimIsInfix(s: string)
    ensures var i := |s| - |TrimStart(s)|;
      && i + |Trim(s)| <= |s|
      && Trim(s) == s[i..i + |Trim(s)|]
      && (forall k :: 0 <= k < i ==> IsSpace(s[k]))
      && (forall k :: i + |Trim(s)| <= k < |s| ==> IsSpace(s[k]))
  {
    var t := TrimStart(s);
    var i := |s| - |t|;
    TrimStartIsSuffix(s);
    TrimStartDropsSpace(s);
    TrimEndIsPrefix(t);
    TrimEndDropsSpace(t);
    forall k | i + |Trim(s)| <= k < |s| ensures IsSpace(s[k]) {
      assert s[k] == t[k - i];
    }
  }

  lemma {:induction false} TrimStartDropsSpace(s: string)
    ensures forall i :: 0 <= i < |s| - |TrimStart(s)| ==> IsSpace(s[i])
    decreases |s|
  {
    if s != [] && IsSpace(s[0]) {
      TrimStartDropsSpace(s[1..]);
      forall i | 1 <= i < |s| - |TrimStart(s)| ensures IsSpace(s[i]) {
        assert s[i] == s[1..][i - 1];
      }
    }
  }

  lemma {:induction false} TrimEndDropsSpace(s: string)
    ensures forall i :: |TrimEnd(s)| <= i < |s| ==> IsSpace(s[i])
    decreases |s|
  {
    if s != [] && IsSpace(s[|s| - 1]) {
      TrimEndDropsSpace(s[..|s| - 1]);
    }
  }

  /** Trimming leaves nothing exactly when the string is all white space. */
  lemma TrimEmpty(s: string)
    ensures Trim(s) == [] <==> forall i :: 0 <= i < |s| ==> IsSpace(s[i])
  {
    TrimStartDropsSpace(s);
    TrimStartIsSuffix(s);
    var t := TrimStart(s);
    TrimEndDropsSpace(t);
    forall i | |s| - |t| <= i < |s| ensures s[i] == t[i - (|s| - |t|)] {
    }
  }

  lemma TrimIdempotent(s: string)
    ensures Trim(Trim(s)) == Trim(s)
  {
    var r := Trim(s);
    assert TrimStart(r) == r;
    assert TrimEnd(r) == r;
  }

  /** A string that neither starts nor ends with white space is its own trim. */
  lemma TrimKeeps(s: string)
    requires s == [] || (!IsSpace(s[0]) && !IsSpace(s[|s| - 1]))
    ensures Trim(s) == s
  {
    assert TrimStart(s) == s;
  }

  /** The ASCII part of `toLowerCase`: `A`..`Z` become `a`..`z`, everything else is kept. */
  function LowerChar(c: char): char {
    if 'A' <= c <= 'Z' then (c as int + 32) as char else c
  }

  /** Lower-casing neither creates nor removes white space. */
  lemma LowerCharSpace(c: char)
    ensures IsSpace(LowerChar(c)) <==> IsSpace(c)
  {
  }

  function Lower(s: string): (r: string)
    ensures |r| == |s|
    decreases |s|
  {
    if s == [] then [] else [LowerChar(s[0])] + Lower(s[1..])
  }

  /** A string without ASCII capitals is its own lower-case form. */
  lemma {:induction false} LowerKeeps(s: string)
    requires forall i :: 0 <= i < |s| ==> !('A' <= s[i] <= 'Z')
    ensures Lower(s) == s
    decreases |s|
  {
    if s != [] {
      assert forall i :: 0 <= i < |s| - 1 ==> s[1..][i] == s[i + 1];
      LowerKeeps(s[1..]);
    }
  }

  lemma {:induction false} LowerAt(s: string, i: nat)
    requires i < |s|
    ensures Lower(s)[i] == LowerChar(s[i])
    decreases i
  {
    if i > 0 {
      LowerAt(s[1..], i - 1);
    }
  }

  lemma {:induction false} LowerIdempotent(s: string)
    ensures Lower(Lower(s)) == Lower(s)
    decreases |s|
  {
    if s != [] {
      LowerIdempotent(s[1..]);
    }
  }

  lemma {:induction false} TrimStartLower(s: string)
    ensures TrimStart(Lower(s)) == Lower(TrimStart(s))
    decreases |s|
  {
    if s != [] && IsSpace(s[0]) {
      assert Lower(s)[1..] == Lower(s[1..]);
      TrimStartLower(s[1..]);
    }
  }

  lemma LowerInit(s: string)
    requires s != []
    ensures Lower(s)[..|s| - 1] == Lower(s[..|s| - 1])
  {
    var init := s[..|s| - 1];
    forall i | 0 <= i < |init| ensures Lower(s)[i] == Lower(init)[i] {
      LowerAt(s, i);
      LowerAt(init, i);
    }
  }

  lemma {:induction false} TrimEndLower(s: string)
    ensures TrimEnd(Lower(s)) == Lower(TrimEnd(s))
    decreases |s|
  {
    if s != [] {
      LowerAt(s, |s| - 1);
      LowerCharSpace(s[|s| - 1]);
      if IsSpace(s[|s| - 1]) {
        LowerInit(s);
        TrimEndLower(s[..|s| - 1]);
      }
    }
  }

  /** A word of lower-case ASCII letters is already in canonical form. */
  lemma LowerWordIsCanonical(s: string)
    requires forall i :: 0 <= i < |s| ==> 'a' <= s[i] <= 'z'
    ensures LowerTrim(s) == s
  {
    LowerKeeps(s);
    TrimKeeps(s);
  }

  /** `s.toLowerCase().trim()` and `s.trim().toLowerCase()` agree. */
  lemma TrimLowerCommute(s: string)
    ensures Trim(Lower(s)) == Lower(Trim(s))
  {
    TrimStartLower(s);
    TrimEndLower(TrimStart(s));
  }

  /** `s.toLowerCase().trim()`: the canonical form of an item name. */
  function LowerTrim(s: string): string {
    Trim(Lower(s))
  }

  lemma LowerTrimIdempotent(s: string)
    ensures LowerTrim(LowerTrim(s)) == LowerTrim(s)
  {
    TrimLowerCommute(Lower(s));
    LowerIdempotent(s);
    TrimIdempotent(Lower(s));
  }

  /** Lower-casing or trimming a string first does not change its canonical form. */
  lemma LowerTrimAbsorbs(s: string)
    ensures LowerTrim(Lower(s)) == LowerTrim(s)
    ensures LowerTrim(Trim(s)) == LowerTrim(s)
  {
    LowerIdempotent(s);
    TrimLowerCommute(s);
    TrimIdempotent(Lower(s));
  }

  /** `s.includes(sub)`. */
  predicate Contains(s: string, sub: string)
    decreases |s|
  {
    |sub| <= |s| && (s[..|sub|] == sub || (s != [] && Contains(s[1..], sub)))
  }

  /** `sub` occurs in `s` starting at index `i`. */
  predicate OccursAt(s: string, sub: string, i: nat) {
    i + |sub| <= |s| && s[i..i + |sub|] == sub
  }

  /** `s.includes(sub)` holds exactly when `sub` occurs in `s` at some position. */
  lemma ContainsIff(s: string, sub: string)
    ensures Contains(s, sub) <==> exists i: nat :: OccursAt(s, sub, i)
  {
    if exists i: nat :: OccursAt(s, sub, i) {
      var i: nat :| OccursAt(s, sub, i);
      ContainsAt(s, sub, i);
    }
    if Contains(s, sub) {
      ContainsOccurs(s, sub);
    }
  }

  lemma {:induction false} ContainsOccurs(s: string, sub: string)
    requires Contains(s, sub)
    ensures exists i: nat :: OccursAt(s, sub, i)
    decreases |s|
  {
    if s[..|sub|] != sub {
      ContainsOccurs(s[1..], sub);
      var i: nat :| OccursAt(s[1..], sub, i);
      assert s[i + 1..i + 1 + |sub|] == s[1..][i..i + |sub|];
      assert OccursAt(s, sub, i + 1);
    } else {
      assert OccursAt(s, sub, 0);
    }
  }

  lemma {:induction false} ContainsAt(s: string, sub: string, i: nat)
    requires OccursAt(s, sub, i)
    ensures Contains(s, sub)
    decreases i
  {
    if i > 0 {
      assert s[1..][i - 1..i - 1 + |sub|] == sub;
      ContainsAt(s[1..], sub, i - 1);
    }
  }

  /**
   * Lexicographic order on code points, standing in for both the code-unit
   * order of `.sort()` and `localeCompare`.
   */
  predicate StrLessEq(a: string, b: string)
    decreases |a|
  {
    a == [] || (b != [] && (a[0] < b[0] || (a[0] == b[0] && StrLessEq(a[1..], b[1..]))))
  }

  /** A string comes before every extension of it. */
  lemma {:induction false} PrefixComesFirst(a: string, b: string)
    ensures StrLessEq(a, a + b)
    decreases |a|
  {
    if a != [] {
      assert (a + b)[1..] == a[1..] + b;
      PrefixComesFirst(a[1..], b);
    }
  }

  predicate StrLess(a: string, b: string) {
    StrLessEq(a, b) && a != b
  }

  lemma {:induction false} StrLessEqTotal(a: string, b: string)
    ensures StrLessEq(a, b) || StrLessEq(b, a)
    decreases |a|
  {
    if a != [] && b != [] && a[0] == b[0] {
      StrLessEqTotal(a[1..], b[1..]);
    }
  }

  lemma {:induction false} StrLessEqAntisymmetric(a: string, b: string)
    requires StrLessEq(a, b) && StrLessEq(b, a)
    ensures a == b
    decreases |a|
  {
    if a != [] {
      StrLessEqAntisymmetric(a[1..], b[1..]);
      assert a == [a[0]] + a[1..] && b == [b[0]] + b[1..];
    }
  }

  lemma {:induction false} StrLessEqTransitive(a: string, b: string, c: string)
    requires StrLessEq(a, b) && StrLessEq(b, c)
    ensures StrLessEq(a, c)
    decreases |a|
  {
    if a != [] && a[0] == b[0] && b[0] == c[0] {
      StrLessEqTransitive(a[1..], b[1..], c[1..]);
    }
  }

  lemma StringOrderIsTotal()
    ensures TotalPreorder(StrLessEq)
  {
    forall a, b ensures StrLessEq(a, b) || StrLessEq(b, a) {
      StrLessEqTotal(a, b);
    }
    forall a, b, c | StrLessEq(a, b) && StrLessEq(b, c) ensures StrLessEq(a, c) {
      StrLessEqTransitive(a, b, c);
    }
  }

  /** Ascending and without duplicates. */
  predicate StrictlySorted(s: seq<string>) {
    forall i, j :: 0 <= i < j < |s| ==> StrLess(s[i], s[j])
  }

  lemma SortedNoDupIsStrict(s: seq<string>)
    requires SortedBy(s, StrLessEq) && NoDup(s)
    ensures StrictlySorted(s)
  {
  }

  /** Neighbours in strict order make the whole list strictly sorted. */
  lemma {:induction false} StrictlySortedByNeighbours(s: seq<string>)
    requires forall i :: 0 <= i < |s| - 1 ==> StrLess(s[i], s[i + 1])
    ensures StrictlySorted(s)
    decreases |s|
  {
    if |s| > 1 {
      StrictlySortedByNeighbours(s[1..]);
      forall j | 1 <= j < |s| ensures StrLess(s[0], s[j]) {
        if j > 1 {
          assert StrLess(s[1], s[j]) by {
            assert s[1..][0] == s[1] && s[1..][j - 1] == s[j];
          }
          StrLessEqTransitive(s[0], s[1], s[j]);
          if s[0] == s[j] {
            StrLessEqAntisymmetric(s[0], s[1]);
          }
        }
      }
      forall i, j | 0 <= i < j < |s| ensures StrLess(s[i], s[j]) {
        if i > 0 {
          assert s[1..][i - 1] == s[i] && s[1..][j - 1] == s[j];
        }
      }
    }
  }

  /** A strictly sorted list is determined by its elements. */
  lemma {:induction false} StrictlySortedUnique(a: seq<string>, b: seq<string>)
    requires StrictlySorted(a) && StrictlySorted(b)
    requires forall x :: x in a <==> x in b
    ensures a == b
    decreases |a|
  {
    if a != [] && b != [] {
      assert a[0] in b;
      assert b[0] in a;
      StrLessEqTotal(a[0], a[0]);
      assert StrLessEq(b[0], a[0]) by {
        var k :| 0 <= k < |b| && b[k] == a[0];
        assert k == 0 || StrLess(b[0], b[k]);
      }
      assert StrLessEq(a[0], b[0]) by {
        var k :| 0 <= k < |a| && a[k] == b[0];
        assert k == 0 || StrLess(a[0], a[k]);
      }
      StrLessEqAntisymmetric(a[0], b[0]);
      forall x ensures x in a[1..] <==> x in b[1..] {
        if x in a[1..] {
          var k :| 1 <= k < |a| && a[k] == x;
          assert StrLess(a[0], a[k]);
          assert x in b && x != b[0];
          var m :| 0 <= m < |b| && b[m] == x;
          assert b[1..][m - 1] == x;
        }
        if x in b[1..] {
          var k :| 1 <= k < |b| && b[k] == x;
          assert StrLess(b[0], b[k]);
          assert x in a && x != a[0];
          var m :| 0 <= m < |a| && a[m] == x;
          assert a[1..][m - 1] == x;
        }
      }
      StrictlySortedUnique(a[1..], b[1..]);
      assert a == [a[0]] + a[1..] && b == [b[0]] + b[1..];
    } else if a != [] {
      HeadIsElement(a);
      assert false;
    } else if b != [] {
      HeadIsElement(b);
      assert false;
    }
  }

  /** `.filter(s => s !== '')`. */
  function DropEmpty(xs: seq<string>): (r: seq<string>)
    ensures forall x :: x in r <==> x in xs && x != ""
    ensures NoDup(xs) ==> NoDup(r)
    decreases |xs|
  {
    if xs == [] then []
    else
      var init := DropEmpty(xs[..|xs| - 1]);
      var last := xs[|xs| - 1];
      assert NoDup(xs) ==> last !in xs[..|xs| - 1];
      if last != "" then init + [last] else init
  }

  /** `.sort()` on strings: ascending in the code-point order `StrLessEq`. */
  function SortStrings(xs: seq<string>): (r: seq<string>)
    ensures SortedBy(r, StrLessEq) && multiset(r) == multiset(xs)
    ensures forall x :: x in r <==> x in xs
  {
    StringOrderIsTotal();
    var r := SortBy(xs, StrLessEq);
    assert forall x :: x in r <==> x in multiset(r);
    r
  }

  /** Sorting a list without duplicates orders the same strings strictly. */
  lemma SortStringsOfSet(xs: seq<string>)
    requires NoDup(xs)
    ensures StrictlySorted(SortStrings(xs))
    ensures forall x :: x in SortStrings(xs) <==> x in xs
  {
    var r := SortStrings(xs);
    PermutationKeepsNoDup(xs, r);
    SortedNoDupIsStrict(r);
  }

  /**
   * `Array.from(new Set(xs)).filter(s => s !== '').sort()`: the distinct non-empty
   * strings of `xs`, in ascending order.
   */
  function SortedUnique(xs: seq<string>): (r: seq<string>)
    ensures StrictlySorted(r)
    ensures forall x :: x in r <==> x in xs && x != ""
  {
    var distinct := DropEmpty(Dedup(xs));
    SortStringsOfSet(distinct);
    SortStrings(distinct)
  }
}
