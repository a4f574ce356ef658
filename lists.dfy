/**
 * The list and stream operations the repositories are built from:
 * `filter(..).findFirst()`, `filter(..).collect(..)`, `filter(..).count()`,
 * `anyMatch`, `removeIf`, `List.remove(Object)`, an indexed replace, and a
 * stable sort by a descending integer key. Each is a function over `seq`,
 * specified by what it returns rather than how.
 */
module Lists {
  import opened Wrappers

  /** Some element of `s` satisfies `p`. */
  predicate AnyMatch<T>(s: seq<T>, p: T -> bool) {
    exists i :: 0 <= i < |s| && p(s[i])
  }

  /** The negation of `p`, as a function value (the predicate `removeIf` keeps). */
  function Not<T>(p: T -> bool): T -> bool {
    x => !p(x)
  }

  /** The index of the first element satisfying `p`, or `|s|` when none does. */
  function FirstIndex<T>(s: seq<T>, p: T -> bool): (i: nat)
    ensures i <= |s|
    ensures forall j :: 0 <= j < i ==> !p(s[j])
    ensures i < |s| ==> p(s[i])
    ensures i < |s| <==> AnyMatch(s, p)
  {
    if s == [] then 0
    else if p(s[0]) then 0
    else 1 + FirstIndex(s[1..], p)
  }

  /** `r` is the first element of `s` satisfying `p`, or absent when none does. */
  ghost predicate IsFirst<T>(s: seq<T>, p: T -> bool, r: Option<T>) {
    match r
    case None => forall i :: 0 <= i < |s| ==> !p(s[i])
    case Some(x) =>
      exists i :: 0 <= i < |s| && s[i] == x && p(x) && forall j :: 0 <= j < i ==> !p(s[j])
  }

  /** `stream().filter(p).findFirst()`. */
  function Find<T>(s: seq<T>, p: T -> bool): (r: Option<T>)
    ensures IsFirst(s, p, r)
    ensures r.Some? <==> AnyMatch(s, p)
  {
    var i := FirstIndex(s, p);
    if i < |s| then Some(s[i]) else None
  }

  /** `stream().filter(p).collect(..)`: the elements satisfying `p`, in order. */
  function Filter<T>(s: seq<T>, p: T -> bool): (r: seq<T>)
    ensures |r| <= |s|
  {
    if s == [] then []
    else (if p(s[0]) then [s[0]] else []) + Filter(s[1..], p)
  }

  /** `r` can be obtained from `s` by deleting elements (greedy matching). */
  ghost predicate IsSubsequence<T>(r: seq<T>, s: seq<T>)
    decreases |s|
  {
    if r == [] then true
    else if s == [] then false
    else if r[0] == s[0] then IsSubsequence(r[1..], s[1..])
    else IsSubsequence(r, s[1..])
  }

  /** `stream().filter(p).count()`, counted independently of `Filter`. */
  function Count<T>(s: seq<T>, p: T -> bool): (n: nat)
    ensures n <= |s|
    ensures n == 0 <==> !AnyMatch(s, p)
  {
    if s == [] then 0
    else (if p(s[0]) then 1 else 0) + Count(s[1..], p)
  }

  /** `removeIf(p)`: the elements NOT satisfying `p`, in order. */
  function RemoveAll<T>(s: seq<T>, p: T -> bool): (r: seq<T>)
    ensures forall x :: x in r ==> x in s && !p(x)
    ensures forall x :: x in s && !p(x) ==> x in r
    ensures |r| <= |s|
  {
    FilterMembers(s, Not(p));
    Filter(s, Not(p))
  }

  /**
   * The indexed loop `for i ... if p(s[i]) { s.set(i, x); return true; }`:
   * the first element satisfying `p` is replaced by `x`, all others stay.
   */
  function ReplaceFirst<T>(s: seq<T>, p: T -> bool, x: T): (r: seq<T>)
    ensures |r| == |s|
    ensures forall j :: 0 <= j < |s| && j != FirstIndex(s, p) ==> r[j] == s[j]
    ensures AnyMatch(s, p) ==> r[FirstIndex(s, p)] == x
    ensures !AnyMatch(s, p) ==> r == s
    ensures forall y :: y in r ==> y in s || y == x
  {
    var i := FirstIndex(s, p);
    if i < |s| then s[i := x] else s
  }

  /** `List.remove(Object)`: the first element satisfying `p` is deleted. */
  function RemoveFirst<T>(s: seq<T>, p: T -> bool): (r: seq<T>)
    ensures AnyMatch(s, p) ==> |r| == |s| - 1
    ensures !AnyMatch(s, p) ==> r == s
    ensures forall y :: y in r ==> y in s
  {
    var i := FirstIndex(s, p);
    if i < |s| then s[..i] + s[i + 1..] else s
  }

  /** No two positions of `s` carry the same key. */
  ghost predicate Unique<T, K>(s: seq<T>, key: T -> K) {
    forall i, j :: 0 <= i < j < |s| ==> key(s[i]) != key(s[j])
  }

  /** Every pair of positions is ordered by non-increasing `key`. */
  ghost predicate NonIncreasing<T>(s: seq<T>, key: T -> int) {
    forall i, j :: 0 <= i < j < |s| ==> key(s[i]) >= key(s[j])
  }

  /**
   * Puts `x` before the first element whose key is not larger than its own,
   * so that `x` stays ahead of the elements it came before with equal keys.
   */
  function Insert<T>(x: T, s: seq<T>, key: T -> int): (r: seq<T>)
    ensures multiset(r) == multiset(s) + multiset{x}
    ensures |r| == |s| + 1
  {
    if s == [] then [x]
    else if key(s[0]) <= key(x) then [x] + s
    else
      assert s == [s[0]] + s[1..];
      [s[0]] + Insert(x, s[1..], key)
  }

  /** `Insert` into a list ordered by non-increasing key keeps it ordered. */
  lemma {:induction false} InsertSorted<T>(x: T, s: seq<T>, key: T -> int)
    requires NonIncreasing(s, key)
    ensures NonIncreasing(Insert(x, s, key), key)
  {
    if s != [] && key(s[0]) > key(x) {
      InsertSorted(x, s[1..], key);
      var t := Insert(x, s[1..], key);
      var r := [s[0]] + t;
      assert key(s[0]) >= key(t[0]) by {
        InsertHead(x, s[1..], key);
        if s[1..] != [] {
          assert s[1..][0] == s[1];
        }
      }
      forall i, j | 0 <= i < j < |r| ensures key(r[i]) >= key(r[j]) {
        if i > 0 {
          assert r[i] == t[i - 1] && r[j] == t[j - 1];
        } else {
          assert r[j] == t[j - 1];
        }
      }
    }
  }

  /** `Insert` puts in front either `x` or the old head. */
  lemma InsertHead<T>(x: T, s: seq<T>, key: T -> int)
    ensures Insert(x, s, key)[0] == x || (s != [] && Insert(x, s, key)[0] == s[0])
  {
  }

  /** A stable sort by descending `key` (`sorted((a, b) -> compare(key(b), key(a)))`). */
  function SortDesc<T>(s: seq<T>, key: T -> int): (r: seq<T>)
    ensures multiset(r) == multiset(s)
    ensures |r| == |s|
    ensures NonIncreasing(r, key)
  {
    if s == [] then []
    else
      assert s == [s[0]] + s[1..];
      var t := SortDesc(s[1..], key);
      InsertSorted(s[0], t, key);
      Insert(s[0], t, key)
  }

  /** Counting matches and collecting them agree: `count()` is the size of the filtered list. */
  lemma {:induction false} CountIsFilterLength<T>(s: seq<T>, p: T -> bool)
    ensures Count(s, p) == |Filter(s, p)|
  {
    if s != [] {
      CountIsFilterLength(s[1..], p);
    }
  }

  /** `Filter` keeps exactly the elements of `s` that satisfy `p`. */
  lemma {:induction false} FilterMembers<T>(s: seq<T>, p: T -> bool)
    ensures forall x :: x in Filter(s, p) ==> x in s && p(x)
    ensures forall x :: x in s && p(x) ==> x in Filter(s, p)
  {
    if s != [] {
      FilterMembers(s[1..], p);
      assert forall x :: x in s <==> x == s[0] || x in s[1..];
    }
  }

  /** `Filter` keeps the relative order of what it keeps. */
  lemma {:induction false} FilterIsSubsequence<T>(s: seq<T>, p: T -> bool)
    ensures IsSubsequence(Filter(s, p), s)
  {
    if s != [] {
      FilterIsSubsequence(s[1..], p);
      var r := Filter(s, p);
      if p(s[0]) {
        assert r[0] == s[0] && r[1..] == Filter(s[1..], p);
      } else {
        assert r == Filter(s[1..], p);
        if r != [] {
          FilterMembers(s[1..], p);
          assert r[0] in r;
        }
      }
    }
  }

  /** `Filter` keeps every occurrence of a matching element and none of the others. */
  lemma {:induction false} FilterOccurrences<T>(s: seq<T>, p: T -> bool, x: T)
    ensures multiset(Filter(s, p))[x] == if p(x) then multiset(s)[x] else 0
  {
    if s != [] {
      FilterOccurrences(s[1..], p, x);
      assert s == [s[0]] + s[1..];
      FilterCons(s[0], s[1..], p);
    }
  }

  /** Filtering distributes over concatenation. */
  lemma {:induction false} FilterConcat<T>(a: seq<T>, b: seq<T>, p: T -> bool)
    ensures Filter(a + b, p) == Filter(a, p) + Filter(b, p)
  {
    if a == [] {
      assert a + b == b;
    } else {
      var h := if p(a[0]) then [a[0]] else [];
      assert (a + b)[0] == a[0];
      assert (a + b)[1..] == a[1..] + b;
      assert Filter(a + b, p) == h + Filter(a[1..] + b, p);
      FilterConcat(a[1..], b, p);
      assert Filter(a, p) == h + Filter(a[1..], p);
    }
  }

  /** A filter keeps everything when every element matches. */
  lemma {:induction false} FilterAllMatch<T>(s: seq<T>, p: T -> bool)
    requires forall i :: 0 <= i < |s| ==> p(s[i])
    ensures Filter(s, p) == s
  {
    if s != [] {
      var u := s[1..];
      assert forall i :: 0 <= i < |u| ==> u[i] == s[i + 1];
      FilterAllMatch(u, p);
      assert s == [s[0]] + u;
    }
  }

  /** A filter keeps nothing when no element matches. */
  lemma {:induction false} FilterNoneMatch<T>(s: seq<T>, p: T -> bool)
    requires forall i :: 0 <= i < |s| ==> !p(s[i])
    ensures Filter(s, p) == []
  {
    if s != [] {
      assert forall i :: 0 <= i < |s[1..]| ==> s[1..][i] == s[i + 1];
      FilterNoneMatch(s[1..], p);
    }
  }

  /** A filter drops something when some element does not match. */
  lemma {:induction false} FilterDropsMismatch<T>(s: seq<T>, p: T -> bool, i: nat)
    requires i < |s| && !p(s[i])
    ensures |Filter(s, p)| < |s|
  {
    if i > 0 {
      assert s[1..][i - 1] == s[i];
      FilterDropsMismatch(s[1..], p, i - 1);
    }
  }

  /** A filter keeps everything exactly when every element matches. */
  lemma FilterKeepsAll<T>(s: seq<T>, p: T -> bool)
    ensures |Filter(s, p)| == |s| <==> forall i :: 0 <= i < |s| ==> p(s[i])
    ensures (forall i :: 0 <= i < |s| ==> p(s[i])) ==> Filter(s, p) == s
  {
    if forall i :: 0 <= i < |s| ==> p(s[i]) {
      FilterAllMatch(s, p);
    } else {
      var i :| 0 <= i < |s| && !p(s[i]);
      FilterDropsMismatch(s, p, i);
    }
  }

  /** `removeIf` reports a change exactly when some element matched. */
  lemma RemoveAllShrinks<T>(s: seq<T>, p: T -> bool)
    ensures |RemoveAll(s, p)| < |s| <==> AnyMatch(s, p)
    ensures |RemoveAll(s, p)| + Count(s, p) == |s|
  {
    FilterKeepsAll(s, Not(p));
    CountSplit(s, p);
  }

  /** The matching and the non-matching elements add up to the whole list. */
  lemma {:induction false} CountSplit<T>(s: seq<T>, p: T -> bool)
    ensures Count(s, p) + |Filter(s, Not(p))| == |s|
  {
    if s != [] {
      CountSplit(s[1..], p);
    }
  }

  /** Something in `s + [x]` matches iff something in `s` does or `x` does. */
  lemma AppendAnyMatch<T>(s: seq<T>, x: T, p: T -> bool)
    ensures AnyMatch(s + [x], p) <==> AnyMatch(s, p) || p(x)
  {
    var t := s + [x];
    assert t[|s|] == x;
    if AnyMatch(s, p) {
      var i :| 0 <= i < |s| && p(s[i]);
      assert t[i] == s[i];
    }
    if AnyMatch(t, p) && !p(x) {
      var i :| 0 <= i < |t| && p(t[i]);
      assert i < |s| && t[i] == s[i];
    }
  }

  /** Appending an element whose key no stored element shares keeps keys unique. */
  lemma AppendKeepsUnique<T, K>(s: seq<T>, x: T, key: T -> K)
    requires Unique(s, key)
    requires forall i :: 0 <= i < |s| ==> key(s[i]) != key(x)
    ensures Unique(s + [x], key)
  {
  }

  /** Replacing an element by one with the same key keeps keys unique. */
  lemma ReplaceFirstKeepsUnique<T, K>(s: seq<T>, p: T -> bool, x: T, key: T -> K)
    requires Unique(s, key)
    requires AnyMatch(s, p) ==> key(s[FirstIndex(s, p)]) == key(x)
    ensures Unique(ReplaceFirst(s, p, x), key)
  {
    var r := ReplaceFirst(s, p, x);
    forall i, j | 0 <= i < j < |r| ensures key(r[i]) != key(r[j]) {
      assert key(r[i]) == key(s[i]) && key(r[j]) == key(s[j]);
    }
  }

  /** With unique keys, the first element carrying the key of position `i` is at `i`. */
  lemma UniqueFirstIndex<T, K>(s: seq<T>, i: nat, p: T -> bool, key: T -> K)
    requires Unique(s, key) && i < |s|
    requires forall y :: p(y) <==> key(y) == key(s[i])
    ensures FirstIndex(s, p) == i
  {
    assert p(s[i]);
  }

  /** Every subsequence of a key-unique list is key-unique. */
  lemma {:induction false} FilterKeepsUnique<T, K>(s: seq<T>, p: T -> bool, key: T -> K)
    requires Unique(s, key)
    ensures Unique(Filter(s, p), key)
  {
    if s != [] {
      FilterKeepsUnique(s[1..], p, key);
      var t := Filter(s[1..], p);
      FilterMembers(s[1..], p);
      if p(s[0]) {
        forall j | 0 <= j < |t| ensures key(s[0]) != key(t[j]) {
          assert t[j] in t;
          var m :| 0 <= m < |s[1..]| && s[1..][m] == t[j];
          assert s[m + 1] == t[j];
        }
        assert Unique([s[0]] + t, key);
      }
    }
  }

  /**
   * An element changed in place at position `i` and then written back by
   * its key: with unique keys the write-back lands on `i` again, so the net
   * effect is the single update at `i`, and keys stay unique.
   */
  lemma SetThenReplaceFirst<T, K>(s: seq<T>, i: nat, x: T, p: T -> bool, key: T -> K)
    requires Unique(s, key) && i < |s|
    requires key(x) == key(s[i])
    requires forall y :: p(y) <==> key(y) == key(x)
    ensures Unique(s[i := x], key)
    ensures ReplaceFirst(s[i := x], p, x) == s[i := x]
  {
    SetKeepsUnique(s, i, x, key);
    UniqueFirstIndex(s[i := x], i, p, key);
  }

  /** Overwriting a position with an element of the same key keeps keys unique. */
  lemma SetKeepsUnique<T, K>(s: seq<T>, i: nat, x: T, key: T -> K)
    requires Unique(s, key) && i < |s|
    requires key(x) == key(s[i])
    ensures Unique(s[i := x], key)
  {
    var t := s[i := x];
    forall a, b | 0 <= a < b < |t| ensures key(t[a]) != key(t[b]) {
      assert key(t[a]) == key(s[a]) && key(t[b]) == key(s[b]);
    }
  }

  /**
   * With unique keys, deleting the first element with key `k` deletes every
   * element with key `k`, and nothing else: `remove(Object)` agrees with `removeIf`.
   */
  lemma RemoveFirstUnique<T, K>(s: seq<T>, p: T -> bool, key: T -> K, k: K)
    requires Unique(s, key)
    requires forall y :: p(y) <==> key(y) == k
    ensures RemoveFirst(s, p) == RemoveAll(s, p)
    ensures !AnyMatch(RemoveFirst(s, p), p)
    ensures Unique(RemoveFirst(s, p), key)
  {
    RemoveFirstIsRemoveAll(s, p, key, k);
    FilterKeepsUnique(s, Not(p), key);
    var r := RemoveFirst(s, p);
    forall m | 0 <= m < |r| ensures !p(r[m]) {
      assert r[m] in RemoveAll(s, p);
    }
  }

  lemma RemoveFirstIsRemoveAll<T, K>(s: seq<T>, p: T -> bool, key: T -> K, k: K)
    requires Unique(s, key)
    requires forall y :: p(y) <==> key(y) == k
    ensures RemoveFirst(s, p) == Filter(s, Not(p))
  {
    var i := FirstIndex(s, p);
    var q := Not(p);
    if i < |s| {
      var a, b := s[..i], s[i + 1..];
      FilterSplitAt(s, i, q);
      forall m | 0 <= m < |a| ensures q(a[m]) {
        assert a[m] == s[m];
      }
      FilterAllMatch(a, q);
      forall m | 0 <= m < |b| ensures q(b[m]) {
        assert b[m] == s[i + 1 + m];
        assert key(s[i]) != key(s[i + 1 + m]);
      }
      FilterAllMatch(b, q);
    } else {
      FilterAllMatch(s, q);
    }
  }

  /** Filtering a list with a known head: the head, if it matches, then the filtered tail. */
  lemma FilterCons<T>(x: T, s: seq<T>, p: T -> bool)
    ensures Filter([x] + s, p) == (if p(x) then [x] else []) + Filter(s, p)
  {
    assert ([x] + s)[0] == x && ([x] + s)[1..] == s;
  }

  /** Filtering around one position: the prefix, the element, the suffix. */
  lemma FilterSplitAt<T>(s: seq<T>, i: nat, p: T -> bool)
    requires i < |s|
    ensures Filter(s, p) == Filter(s[..i], p) + (if p(s[i]) then [s[i]] else []) + Filter(s[i + 1..], p)
  {
    var a, b := s[..i], s[i + 1..];
    assert s == a + ([s[i]] + b);
    FilterConcat(a, [s[i]] + b, p);
    FilterCons(s[i], b, p);
  }

  /** The elements whose key is `k`, as a predicate. */
  function KeyIs<T>(key: T -> int, k: int): T -> bool {
    y => key(y) == k
  }

  /**
   * Stability of `Insert`: among the elements with one given key, `x` comes
   * first and the others keep their order.
   */
  lemma {:induction false} InsertStable<T>(x: T, s: seq<T>, key: T -> int, k: int)
    ensures Filter(Insert(x, s, key), KeyIs(key, k)) == (if key(x) == k then [x] else []) + Filter(s, KeyIs(key, k))
  {
    var p := KeyIs(key, k);
    if s == [] {
      assert [x] == [x] + s;
      FilterCons(x, s, p);
    } else if key(s[0]) <= key(x) {
      FilterCons(x, s, p);
    } else {
      InsertStable(x, s[1..], key, k);
      FilterCons(s[0], Insert(x, s[1..], key), p);
      assert s == [s[0]] + s[1..];
      FilterCons(s[0], s[1..], p);
    }
  }

  /**
   * Stability of `SortDesc`: the elements with any one key appear in the
   * sorted list in the same order as in the input.
   */
  lemma {:induction false} SortStable<T>(s: seq<T>, key: T -> int, k: int)
    ensures Filter(SortDesc(s, key), KeyIs(key, k)) == Filter(s, KeyIs(key, k))
  {
    if s != [] {
      var t := SortDesc(s[1..], key);
      SortStable(s[1..], key, k);
      InsertStable(s[0], t, key, k);
      assert SortDesc(s, key) == Insert(s[0], t, key);
    }
  }
}
