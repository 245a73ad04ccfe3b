/**
 * The key list of the report (main.go:59-60): the cities of the map are
 * collected into a slice in the map's iteration order and then sorted in
 * place by Go's string order.
 */
module Keys {

  /**
   * Go's `<` on strings: lexicographic order, a proper prefix first. Go
   * compares UTF-8 bytes; on well-formed text that order agrees with the order
   * of the characters compared here.
   */
  predicate Less(a: string, b: string)
  {
    if |a| == 0 then |b| > 0
    else if |b| == 0 then false
    else if a[0] == b[0] then Less(a[1..], b[1..])
    else a[0] < b[0]
  }

  predicate LessEq(a: string, b: string)
  {
    a == b || Less(a, b)
  }

  lemma {:induction false} LessIrreflexive(a: string)
    ensures !Less(a, a)
  {
    if |a| > 0 {
      LessIrreflexive(a[1..]);
    }
  }

  lemma {:induction false} LessTransitive(a: string, b: string, c: string)
    requires Less(a, b) && Less(b, c)
    ensures Less(a, c)
  {
    if |a| > 0 && a[0] == b[0] && b[0] == c[0] {
      LessTransitive(a[1..], b[1..], c[1..]);
    }
  }

  lemma {:induction false} LessTotal(a: string, b: string)
    ensures a == b || Less(a, b) || Less(b, a)
  {
    if |a| > 0 && |b| > 0 && a[0] == b[0] {
      LessTotal(a[1..], b[1..]);
      if a[1..] == b[1..] {
        assert a == [a[0]] + a[1..] && b == [b[0]] + b[1..];
      }
    }
  }

  /**
   * The usual statement of the order: after a common prefix, either `a` has
   * ended while `b` goes on, or the first differing character of `a` is
   * the smaller one.
   */
  predicate FirstDifferenceLess(a: string, b: string)
  {
    exists i :: 0 <= i <= |a| && i <= |b| && (forall k :: 0 <= k < i ==> a[k] == b[k])
                && ((i == |a| && i < |b|) || (i < |a| && i < |b| && a[i] < b[i]))
  }

  lemma {:induction false} LessIsFirstDifference(a: string, b: string)
    ensures Less(a, b) <==> FirstDifferenceLess(a, b)
  {
    if |a| == 0 || |b| == 0 || a[0] != b[0] {
      if Less(a, b) {
        assert (0 == |a| && 0 < |b|) || (0 < |a| && 0 < |b| && a[0] < b[0]);
      }
    } else {
      var a', b' := a[1..], b[1..];
      LessIsFirstDifference(a', b');
      if FirstDifferenceLess(a', b') {
        var i :| 0 <= i <= |a'| && i <= |b'| && (forall k :: 0 <= k < i ==> a'[k] == b'[k])
                 && ((i == |a'| && i < |b'|) || (i < |a'| && i < |b'| && a'[i] < b'[i]));
        assert forall k :: 0 <= k < i + 1 ==> a[k] == b[k] by {
          forall k | 0 < k < i + 1 ensures a[k] == b[k] {
            assert a[k] == a'[k - 1] && b[k] == b'[k - 1];
          }
        }
        assert (i + 1 == |a| && i + 1 < |b|) || (i + 1 < |a| && i + 1 < |b| && a[i + 1] < b[i + 1]);
      }
      if FirstDifferenceLess(a, b) {
        var i :| 0 <= i <= |a| && i <= |b| && (forall k :: 0 <= k < i ==> a[k] == b[k])
                 && ((i == |a| && i < |b|) || (i < |a| && i < |b| && a[i] < b[i]));
        assert i > 0;
        assert forall k :: 0 <= k < i - 1 ==> a'[k] == b'[k] by {
          forall k | 0 <= k < i - 1 ensures a'[k] == b'[k] {
            assert a[k + 1] == b[k + 1];
          }
        }
        assert (i - 1 == |a'| && i - 1 < |b'|) || (i - 1 < |a'| && i - 1 < |b'| && a'[i - 1] < b'[i - 1]);
      }
    }
  }

  lemma LessAsymmetric(a: string, b: string)
    requires Less(a, b)
    ensures !Less(b, a)
  {
    if Less(b, a) {
      LessTransitive(a, b, a);
      LessIrreflexive(a);
    }
  }

  /** Every pair in order (what slices.Sort promises). */
  predicate Sorted(s: seq<string>)
  {
    forall i, j :: 0 <= i < j < |s| ==> LessEq(s[i], s[j])
  }

  /** Every neighbouring pair in order. */
  predicate AdjacentSorted(s: seq<string>)
  {
    forall k :: 0 < k < |s| ==> LessEq(s[k - 1], s[k])
  }

  /** Strictly ascending: sorted with no key twice. */
  predicate Ascending(s: seq<string>)
  {
    forall i, j :: 0 <= i < j < |s| ==> Less(s[i], s[j])
  }

  predicate Distinct(s: seq<string>)
  {
    forall i, j :: 0 <= i < j < |s| ==> s[i] != s[j]
  }

  lemma {:induction false} AdjacentSortedIsSorted(s: seq<string>)
    requires AdjacentSorted(s)
    ensures Sorted(s)
  {
    if |s| > 1 {
      var front := s[..|s| - 1];
      assert AdjacentSorted(front);
      AdjacentSortedIsSorted(front);
      forall i | 0 <= i < |s| - 1
        ensures LessEq(s[i], s[|s| - 1])
      {
        assert front[i] == s[i] && front[|s| - 2] == s[|s| - 2];
        if Less(s[i], s[|s| - 2]) && Less(s[|s| - 2], s[|s| - 1]) {
          LessTransitive(s[i], s[|s| - 2], s[|s| - 1]);
        }
      }
      forall i, j | 0 <= i < j < |s|
        ensures LessEq(s[i], s[j])
      {
        if j < |s| - 1 {
          assert front[i] == s[i] && front[j] == s[j];
        }
      }
    }
  }

  /** A key of a duplicate-free sequence occurs in it at most once. */
  lemma {:induction false} DistinctMultiplicity(s: seq<string>, x: string)
    requires Distinct(s)
    ensures multiset(s)[x] <= 1
  {
    if |s| > 0 {
      var front := s[..|s| - 1];
      assert s == front + [s[|s| - 1]];
      assert Distinct(front);
      DistinctMultiplicity(front, x);
    }
  }

  /** A key at two positions occurs at least twice. */
  lemma RepeatedMultiplicity(s: seq<string>, i: nat, j: nat)
    requires i < j < |s| && s[i] == s[j]
    ensures multiset(s)[s[i]] >= 2
  {
    assert s == s[..j] + [s[j]] + s[j + 1..];
    assert s[..j][i] == s[i];
    assert s[i] in multiset(s[..j]);
  }

  /**
   * Sorting a duplicate-free key list gives a strictly ascending list of the
   * same keys.
   */
  lemma SortedPermutationIsAscending(s: seq<string>, t: seq<string>)
    requires Distinct(s)
    requires multiset(t) == multiset(s)
    requires Sorted(t)
    ensures Ascending(t)
    ensures forall k :: k in t <==> k in s
  {
    forall i, j | 0 <= i < j < |t|
      ensures Less(t[i], t[j])
    {
      if t[i] == t[j] {
        RepeatedMultiplicity(t, i, j);
        DistinctMultiplicity(s, t[i]);
        assert false;
      }
    }
    forall k
      ensures k in t <==> k in s
    {
      assert k in t <==> k in multiset(t);
      assert k in s <==> k in multiset(s);
    }
  }

  /**
   * There is one strictly ascending list of a given set of keys, so the order
   * of the report does not depend on the map's iteration order.
   */
  lemma {:induction false} AscendingUnique(s: seq<string>, t: seq<string>)
    requires Ascending(s) && Ascending(t)
    requires forall k :: k in s <==> k in t
    ensures s == t
  {
    assert |s| > 0 ==> s[0] in s;
    assert |t| > 0 ==> t[0] in t;
    if |s| > 0 && |t| > 0 {
      assert s[0] in t;
      var j :| 0 <= j < |t| && t[j] == s[0];
      assert t[0] in s;
      var i :| 0 <= i < |s| && s[i] == t[0];
      if j > 0 {
        if i > 0 {
          LessAsymmetric(s[0], s[i]);
        } else {
          LessIrreflexive(t[0]);
        }
      }
      assert s[0] == t[0];
      forall k
        ensures k in s[1..] <==> k in t[1..]
      {
        if k in s[1..] {
          var a :| 0 <= a < |s| - 1 && s[1..][a] == k;
          assert Less(s[0], s[a + 1]);
          LessIrreflexive(k);
          assert s[a + 1] in s;
          var b :| 0 <= b < |t| && t[b] == k;
          assert b != 0 && t[1..][b - 1] == k;
        }
        if k in t[1..] {
          var b :| 0 <= b < |t| - 1 && t[1..][b] == k;
          assert Less(t[0], t[b + 1]);
          LessIrreflexive(k);
          assert t[b + 1] in t;
          var a :| 0 <= a < |s| && s[a] == k;
          assert a != 0 && s[1..][a - 1] == k;
        }
      }
      AscendingUnique(s[1..], t[1..]);
      assert s == [s[0]] + s[1..] && t == [t[0]] + t[1..];
    }
  }

  /**
   * slices.Collect(maps.Keys(data)): every key of the map once, in an order
   * the map chooses.
   */
  method CollectKeys<V>(data: map<string, V>) returns (keys: seq<string>)
    ensures |keys| == |data|
    ensures Distinct(keys)
    ensures forall k :: k in keys <==> k in data
  {
    keys := [];
    var remaining := data.Keys;
    while remaining != {}
      invariant remaining <= data.Keys
      invariant forall k :: k in keys <==> k in data && k !in remaining
      invariant Distinct(keys)
      invariant |keys| + |remaining| == |data.Keys|
      decreases |remaining|
    {
      var k :| k in remaining;
      keys := keys + [k];
      remaining := remaining - {k};
    }
  }

  /** Swaps two entries of the key slice. */
  method Swap(a: array<string>, i: nat, j: nat)
    requires i < a.Length && j < a.Length
    modifies a
    ensures a[i] == old(a[j]) && a[j] == old(a[i])
    ensures forall k :: 0 <= k < a.Length && k != i && k != j ==> a[k] == old(a[k])
    ensures multiset(a[..]) == old(multiset(a[..]))
  {
    a[i], a[j] := a[j], a[i];
  }

  /**
   * slices.Sort(keys): sorts the slice in place. The library's own algorithm
   * is not part of this model; an insertion sort by neighbour swaps stands
   * for it and meets the same contract.
   */
  method SortKeys(a: array<string>)
    modifies a
    ensures Sorted(a[..])
    ensures multiset(a[..]) == old(multiset(a[..]))
  {
    var i := 0;
    while i < a.Length
      invariant 0 <= i <= a.Length
      invariant AdjacentSorted(a[..i])
      invariant multiset(a[..]) == old(multiset(a[..]))
    {
      var j := i;
      while j > 0 && Less(a[j], a[j - 1])
        invariant 0 <= j <= i
        invariant forall k :: 0 < k <= i && k != j ==> LessEq(a[k - 1], a[k])
        invariant 0 < j < i ==> LessEq(a[j - 1], a[j + 1])
        invariant multiset(a[..]) == old(multiset(a[..]))
      {
        Swap(a, j - 1, j);
        j := j - 1;
      }
      if j > 0 {
        LessTotal(a[j - 1], a[j]);
      }
      i := i + 1;
    }
    assert a[..a.Length] == a[..];
    AdjacentSortedIsSorted(a[..]);
  }
}
