/**
 * Stable ordering by a ranking relation. Both sorts the site uses are stable:
 * JavaScript's `Array.prototype.sort` with a comparator (the Glovedle
 * leaderboard) and Python's `sorted(..., reverse=True)` (the RSS items). A
 * stable sort of `s + [x]` puts `x` after every entry ranked at or above it,
 * so sorting is modelled as inserting the entries one after the other in
 * input order.
 *
 * `ge(a, b)` reads "`a` may be listed before `b`".
 */
module Ranking {

  ghost predicate TotalPreorder<T(!new)>(ge: (T, T) -> bool) {
    && (forall a, b :: ge(a, b) || ge(b, a))
    && (forall a, b, c :: ge(a, b) && ge(b, c) ==> ge(a, c))
  }

  /** Every entry may be listed before every later one. */
  predicate Ranked<T>(s: seq<T>, ge: (T, T) -> bool) {
    forall i, j | 0 <= i < j < |s| :: ge(s[i], s[j])
  }

  /** How many leading entries are ranked at or above `x`. */
  function InsertPos<T>(s: seq<T>, x: T, ge: (T, T) -> bool): (k: nat)
    decreases |s|
    ensures k <= |s|
    ensures forall i | 0 <= i < k :: ge(s[i], x)
    ensures k < |s| ==> !ge(s[k], x)
  {
    if |s| == 0 || !ge(s[0], x) then 0 else 1 + InsertPos(s[1..], x, ge)
  }

  /** `x` placed after the leading entries ranked at or above it. */
  function Insert<T>(s: seq<T>, x: T, ge: (T, T) -> bool): (r: seq<T>)
    ensures |r| == |s| + 1
    ensures multiset(r) == multiset(s) + multiset{x}
  {
    var k := InsertPos(s, x, ge);
    assert s == s[..k] + s[k..];
    s[..k] + [x] + s[k..]
  }

  /** The stable sort of `s`. */
  function Sort<T>(s: seq<T>, ge: (T, T) -> bool): (r: seq<T>)
    decreases |s|
    ensures multiset(r) == multiset(s)
  {
    if |s| == 0 then []
    else
      assert s == s[..|s| - 1] + [s[|s| - 1]];
      Insert(Sort(s[..|s| - 1], ge), s[|s| - 1], ge)
  }

  /** The entries of `s` with `x` placed at index `k`. */
  lemma InsertAt<T>(s: seq<T>, k: nat, x: T, i: nat)
    requires k <= |s| && i <= |s|
    ensures (s[..k] + [x] + s[k..])[i] == if i < k then s[i] else if i == k then x else s[i - 1]
  {
  }

  /** Inserting into a ranked list keeps it ranked. */
  lemma InsertRanked<T(!new)>(s: seq<T>, x: T, ge: (T, T) -> bool)
    requires TotalPreorder(ge) && Ranked(s, ge)
    ensures Ranked(Insert(s, x, ge), ge)
  {
    var k := InsertPos(s, x, ge);
    var r := Insert(s, x, ge);
    assert r == s[..k] + [x] + s[k..];
    if k < |s| {
      assert ge(x, s[k]);
      forall j | k <= j < |s| ensures ge(x, s[j]) {
        if j > k {
          assert ge(s[k], s[j]);
        }
      }
    }
    forall i, j | 0 <= i < j < |r| ensures ge(r[i], r[j]) {
      InsertAt(s, k, x, i);
      InsertAt(s, k, x, j);
    }
  }

  /** The sort ranks its result. */
  lemma {:induction false} SortRanked<T(!new)>(s: seq<T>, ge: (T, T) -> bool)
    requires TotalPreorder(ge)
    ensures Ranked(Sort(s, ge), ge)
    decreases |s|
  {
    if |s| > 0 {
      SortRanked(s[..|s| - 1], ge);
      InsertRanked(Sort(s[..|s| - 1], ge), s[|s| - 1], ge);
    }
  }

  /** An entry ranked at or below all the others goes last. */
  lemma InsertLast<T>(s: seq<T>, x: T, ge: (T, T) -> bool)
    requires forall i | 0 <= i < |s| :: ge(s[i], x)
    ensures Insert(s, x, ge) == s + [x]
  {
    var k := InsertPos(s, x, ge);
    assert k == |s|;
  }

  /** The entries before the last of a ranked list are ranked, and rank at or above the last. */
  lemma RankedInit<T>(s: seq<T>, ge: (T, T) -> bool)
    requires |s| > 0 && Ranked(s, ge)
    ensures Ranked(s[..|s| - 1], ge)
    ensures forall i | 0 <= i < |s| - 1 :: ge(s[i], s[|s| - 1])
  {
  }

  /** A list that is already ranked is left as it is (stability). */
  lemma {:induction false} SortOfRanked<T>(s: seq<T>, ge: (T, T) -> bool)
    requires Ranked(s, ge)
    ensures Sort(s, ge) == s
    decreases |s|
  {
    if |s| > 0 {
      var init, x := s[..|s| - 1], s[|s| - 1];
      RankedInit(s, ge);
      SortOfRanked(init, ge);
      InsertLast(init, x, ge);
      assert init + [x] == s;
    }
  }

  /** Appending one entry and sorting inserts it into the sorted rest. */
  lemma SortAppend<T>(s: seq<T>, x: T, ge: (T, T) -> bool)
    ensures Sort(s + [x], ge) == Insert(Sort(s, ge), x, ge)
  {
    assert (s + [x])[..|s|] == s;
  }
}
