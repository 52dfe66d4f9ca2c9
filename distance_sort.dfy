/**
 * The sort the ranker applies once a user position is known: ascending by
 * `km`, with a missing distance counted as 1e9 km, and stable, as the host's
 * `Array.prototype.sort` is. `Sort` is the specification (a stable insertion
 * sort on sequences); `SortInPlace` reorders an array in place and is proved
 * to produce `Sort` of its old contents. `StableSortUnique` shows that every
 * stable sort by this key yields the same list, so the choice of algorithm
 * does not matter.
 */
module DistanceSort {
  import opened Places

  /** The key that stands in for a missing distance. */
  const UnknownKm: real := 1000000000.0

  /** The comparator's key: `km ?? 1e9`. */
  function SortKey(e: Entry): real
  {
    match e.km
    case Some(k) => k
    case None => UnknownKm
  }

  /** Non-decreasing by key. */
  ghost predicate Sorted(s: seq<Entry>)
  {
    forall i, j :: 0 <= i < j < |s| ==> SortKey(s[i]) <= SortKey(s[j])
  }

  /** The entries of `s` whose key is `k`, in their order in `s`. */
  function WithKey(s: seq<Entry>, k: real): seq<Entry>
  {
    if s == [] then []
    else (if SortKey(s[0]) == k then [s[0]] else []) + WithKey(s[1..], k)
  }

  /** For every key, `s` and `t` list the entries with that key in the same order. */
  ghost predicate SameKeyOrder(s: seq<Entry>, t: seq<Entry>)
  {
    forall k :: WithKey(s, k) == WithKey(t, k)
  }

  /** Inserts `x` into `p` after every trailing entry whose key is not greater than `x`'s. */
  function InsertLast(p: seq<Entry>, x: Entry): (r: seq<Entry>)
    ensures |r| == |p| + 1
  {
    if p == [] then [x]
    else if SortKey(p[|p| - 1]) <= SortKey(x) then p + [x]
    else InsertLast(p[..|p| - 1], x) + [p[|p| - 1]]
  }

  /** Stable insertion sort by `SortKey`: each entry is inserted, left to right, into the sorted prefix. */
  function Sort(s: seq<Entry>): (r: seq<Entry>)
    ensures |r| == |s|
  {
    if s == [] then []
    else InsertLast(Sort(s[..|s| - 1]), s[|s| - 1])
  }

  /** Inserting adds exactly `x`. */
  lemma {:induction false} InsertLastPermutes(p: seq<Entry>, x: Entry)
    ensures multiset(InsertLast(p, x)) == multiset(p) + multiset{x}
    decreases |p|
  {
    if p != [] && SortKey(p[|p| - 1]) > SortKey(x) {
      var q, y := p[..|p| - 1], p[|p| - 1];
      assert p == q + [y];
      InsertLastPermutes(q, x);
    }
  }

  /** `Sort` only reorders: the result is a permutation of its input. */
  lemma {:induction false} SortPermutes(s: seq<Entry>)
    ensures multiset(Sort(s)) == multiset(s)
    decreases |s|
  {
    if s != [] {
      var q, x := s[..|s| - 1], s[|s| - 1];
      assert s == q + [x];
      SortPermutes(q);
      InsertLastPermutes(Sort(q), x);
    }
  }

  lemma {:induction false} WithKeyAppend(a: seq<Entry>, b: seq<Entry>, k: real)
    ensures WithKey(a + b, k) == WithKey(a, k) + WithKey(b, k)
    decreases |a|
  {
    if a == [] {
      assert a + b == b;
    } else {
      assert (a + b)[1..] == a[1..] + b;
      WithKeyAppend(a[1..], b, k);
    }
  }

  lemma WithKeySingle(x: Entry, k: real)
    ensures WithKey([x], k) == if SortKey(x) == k then [x] else []
  {
    assert [x][1..] == [];
  }

  lemma WithKeyHead(s: seq<Entry>)
    requires s != []
    ensures WithKey(s, SortKey(s[0])) == [s[0]] + WithKey(s[1..], SortKey(s[0]))
  {
  }

  /** Every entry that `WithKey` selects is in the list and has that key. */
  lemma {:induction false} WithKeyMembers(s: seq<Entry>, k: real, e: Entry)
    requires e in WithKey(s, k)
    ensures e in s && SortKey(e) == k
    decreases |s|
  {
    if s != [] && !(SortKey(s[0]) == k && e == s[0]) {
      WithKeyMembers(s[1..], k, e);
    }
  }

  /** Inserting into a sorted list keeps it sorted; the last key is the larger of the old last key and `x`'s. */
  lemma {:induction false} InsertLastSorted(p: seq<Entry>, x: Entry)
    requires Sorted(p)
    ensures Sorted(InsertLast(p, x))
    ensures var r := InsertLast(p, x);
      SortKey(r[|r| - 1]) == if p == [] || SortKey(p[|p| - 1]) <= SortKey(x) then SortKey(x) else SortKey(p[|p| - 1])
    decreases |p|
  {
    if p == [] {
    } else if SortKey(p[|p| - 1]) <= SortKey(x) {
      var r := p + [x];
      forall i, j | 0 <= i < j < |r| ensures SortKey(r[i]) <= SortKey(r[j]) {
        if j == |r| - 1 && i < |p| - 1 {
          assert SortKey(p[i]) <= SortKey(p[|p| - 1]);
        }
      }
    } else {
      var q, y := p[..|p| - 1], p[|p| - 1];
      InsertLastSorted(q, x);
      var r' := InsertLast(q, x);
      var r := r' + [y];
      assert r == InsertLast(p, x);
      assert q != [] ==> SortKey(q[|q| - 1]) <= SortKey(y);
      assert SortKey(r'[|r'| - 1]) <= SortKey(y);
      forall i, j | 0 <= i < j < |r| ensures SortKey(r[i]) <= SortKey(r[j]) {
        if j == |r| - 1 && i < |r'| - 1 {
          assert SortKey(r'[i]) <= SortKey(r'[|r'| - 1]);
        }
      }
    }
  }

  /** Inserting `x` adds it after the entries with its key and moves no entry past another with the same key. */
  lemma {:induction false} InsertLastWithKey(p: seq<Entry>, x: Entry, k: real)
    ensures WithKey(InsertLast(p, x), k) == WithKey(p, k) + WithKey([x], k)
    decreases |p|
  {
    if p == [] {
      assert InsertLast(p, x) == [x];
    } else if SortKey(p[|p| - 1]) <= SortKey(x) {
      WithKeyAppend(p, [x], k);
    } else {
      var q, y := p[..|p| - 1], p[|p| - 1];
      assert p == q + [y];
      InsertLastWithKey(q, x, k);
      WithKeyAppend(InsertLast(q, x), [y], k);
      WithKeyAppend(q, [y], k);
      WithKeySingle(x, k);
      WithKeySingle(y, k);
    }
  }

  /** The result of `Sort` is non-decreasing by key. */
  lemma {:induction false} SortSorted(s: seq<Entry>)
    ensures Sorted(Sort(s))
    decreases |s|
  {
    if s != [] {
      var q := s[..|s| - 1];
      SortSorted(q);
      InsertLastSorted(Sort(q), s[|s| - 1]);
    }
  }

  /** `Sort` is stable: entries with equal keys keep their relative input order. */
  lemma {:induction false} SortKeepsKeyOrder(s: seq<Entry>)
    ensures SameKeyOrder(Sort(s), s)
    decreases |s|
  {
    if s != [] {
      var q, x := s[..|s| - 1], s[|s| - 1];
      assert s == q + [x];
      SortKeepsKeyOrder(q);
      forall k ensures WithKey(Sort(s), k) == WithKey(s, k) {
        InsertLastWithKey(Sort(q), x, k);
        WithKeyAppend(q, [x], k);
      }
    }
  }

  /** Two sorted lists that agree, key by key, on which entries occur in which order are equal. */
  lemma {:induction false} SortedKeyOrderUnique(a: seq<Entry>, b: seq<Entry>)
    requires Sorted(a) && Sorted(b)
    requires SameKeyOrder(a, b)
    ensures a == b
    decreases |a|
  {
    if a == [] {
      if b != [] {
        WithKeyHead(b);
        assert false;
      }
    } else if b == [] {
      WithKeyHead(a);
      assert false;
    } else {
      var ka, kb := SortKey(a[0]), SortKey(b[0]);
      assert WithKey(a, ka) == [a[0]] + WithKey(a[1..], ka);
      assert WithKey(b, kb) == [b[0]] + WithKey(b[1..], kb);
      assert a[0] in WithKey(b, ka);
      WithKeyMembers(b, ka, a[0]);
      assert b[0] in WithKey(a, kb);
      WithKeyMembers(a, kb, b[0]);
      assert kb <= ka && ka <= kb;
      assert WithKey(a, ka) == WithKey(b, ka);
      assert a[0] == WithKey(a, ka)[0] == WithKey(b, kb)[0] == b[0];
      forall k ensures WithKey(a[1..], k) == WithKey(b[1..], k) {
        var head := if SortKey(a[0]) == k then [a[0]] else [];
        assert WithKey(a, k) == head + WithKey(a[1..], k);
        assert WithKey(b, k) == head + WithKey(b[1..], k);
        assert WithKey(a, k) == WithKey(b, k);
        assert WithKey(a[1..], k) == WithKey(a, k)[|head|..];
        assert WithKey(b[1..], k) == WithKey(b, k)[|head|..];
      }
      SortedKeyOrderUnique(a[1..], b[1..]);
      assert a == [a[0]] + a[1..] && b == [b[0]] + b[1..];
    }
  }

  /** Any stable sort of `s` by `SortKey` gives exactly `Sort(s)`. */
  lemma StableSortUnique(s: seq<Entry>, r: seq<Entry>)
    requires Sorted(r) && SameKeyOrder(r, s)
    ensures r == Sort(s)
  {
    SortSorted(s);
    SortKeepsKeyOrder(s);
    SortedKeyOrderUnique(r, Sort(s));
  }

  /** Where `x` lands when `p` splits at `j` into keys not above and above `x`'s. */
  lemma {:induction false} InsertLastAt(p: seq<Entry>, x: Entry, j: nat)
    requires j <= |p|
    requires forall m :: j <= m < |p| ==> SortKey(p[m]) > SortKey(x)
    requires j == 0 || SortKey(p[j - 1]) <= SortKey(x)
    ensures InsertLast(p, x) == p[..j] + [x] + p[j..]
    decreases |p|
  {
    if j < |p| {
      var q, y := p[..|p| - 1], p[|p| - 1];
      assert SortKey(y) > SortKey(x);
      assert InsertLast(p, x) == InsertLast(q, x) + [y];
      InsertLastAt(q, x, j);
      assert q[..j] == p[..j];
      assert q[j..] + [y] == p[j..];
    } else {
      assert p[..j] == p && p[j..] == [];
    }
  }

  /** Moves `a[i]` left past the entries of the sorted prefix `a[..i]` whose keys are greater. */
  method InsertInPlace(a: array<Entry>, i: nat)
    requires i < a.Length
    modifies a
    ensures a[..i + 1] == InsertLast(old(a[..i]), old(a[i]))
    ensures a[i + 1..] == old(a[i + 1..])
  {
    var x := a[i];
    ghost var p := a[..i];
    ghost var rest := a[i + 1..];
    var j := i;
    while j > 0 && SortKey(a[j - 1]) > SortKey(x)
      invariant 0 <= j <= i
      invariant a[..j] == p[..j]
      invariant a[j + 1..i + 1] == p[j..]
      invariant forall m :: j <= m < i ==> SortKey(p[m]) > SortKey(x)
      invariant a[i + 1..] == rest
    {
      a[j] := a[j - 1];
      j := j - 1;
    }
    a[j] := x;
    InsertLastAt(p, x, j);
    assert a[..i + 1] == a[..j] + [x] + a[j + 1..i + 1];
  }

  /** Sorts `a` in place by insertion, left to right; equal keys never pass each other. */
  method SortInPlace(a: array<Entry>)
    modifies a
    ensures a[..] == Sort(old(a[..]))
  {
    ghost var s := a[..];
    var i := 0;
    while i < a.Length
      invariant 0 <= i <= a.Length
      invariant a[..i] == Sort(s[..i])
      invariant a[i..] == s[i..]
    {
      InsertInPlace(a, i);
      assert s[..i + 1][..i] == s[..i];
      assert a[i + 1..] == s[i + 1..];
      i := i + 1;
    }
    assert s[..a.Length] == s;
  }
}
