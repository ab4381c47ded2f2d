/**
 * The order in which `Array.prototype.sort()` without a comparator arranges
 * the date keys of the feed: lexicographic comparison character by character,
 * a proper prefix coming first.
 */
module DateOrder {

  /** `a` sorts strictly before `b`. */
  predicate StrLess(a: string, b: string)
  {
    |b| > 0 && (|a| == 0 || a[0] < b[0] || (a[0] == b[0] && StrLess(a[1..], b[1..])))
  }

  lemma {:induction false} StrLessIrreflexive(a: string)
    ensures !StrLess(a, a)
  {
    if |a| > 0 {
      StrLessIrreflexive(a[1..]);
    }
  }

  lemma {:induction false} StrLessAsymmetric(a: string, b: string)
    requires StrLess(a, b)
    ensures !StrLess(b, a)
  {
    if |a| > 0 && a[0] == b[0] {
      StrLessAsymmetric(a[1..], b[1..]);
    }
  }

  lemma {:induction false} StrLessTransitive(a: string, b: string, c: string)
    requires StrLess(a, b) && StrLess(b, c)
    ensures StrLess(a, c)
  {
    if |a| > 0 && a[0] == b[0] && b[0] == c[0] {
      StrLessTransitive(a[1..], b[1..], c[1..]);
    }
  }

  /** Any two different strings are ordered one way or the other. */
  lemma {:induction false} StrLessTotal(a: string, b: string)
    requires a != b
    ensures StrLess(a, b) || StrLess(b, a)
  {
    if |a| > 0 && |b| > 0 && a[0] == b[0] {
      assert a == [a[0]] + a[1..] && b == [b[0]] + b[1..];
      StrLessTotal(a[1..], b[1..]);
    }
  }

  /** Each date sorts strictly before the next one. */
  predicate StrictlySorted(ds: seq<string>)
  {
    forall i :: 0 < i < |ds| ==> StrLess(ds[i - 1], ds[i])
  }

  /** Strict sortedness of neighbours extends to every pair of positions. */
  lemma {:induction false} StrictlySortedPairwise(ds: seq<string>, i: nat, j: nat)
    requires StrictlySorted(ds)
    requires i < j < |ds|
    ensures StrLess(ds[i], ds[j])
    decreases j - i
  {
    if i + 1 < j {
      StrictlySortedPairwise(ds, i + 1, j);
      StrLessTransitive(ds[i], ds[i + 1], ds[j]);
    }
  }

  /** A strictly sorted sequence holds no date twice. */
  lemma StrictlySortedDistinct(ds: seq<string>)
    requires StrictlySorted(ds)
    ensures forall i, j :: 0 <= i < j < |ds| ==> ds[i] != ds[j]
  {
    forall i, j | 0 <= i < j < |ds|
      ensures ds[i] != ds[j]
    {
      StrictlySortedPairwise(ds, i, j);
      StrLessIrreflexive(ds[i]);
    }
  }

  /**
   * The sorted key list is determined by the set of keys: two strictly sorted
   * sequences with the same elements are equal.
   */
  lemma {:induction false} SortedKeysUnique(a: seq<string>, b: seq<string>)
    requires StrictlySorted(a) && StrictlySorted(b)
    requires forall d :: d in a <==> d in b
    ensures a == b
  {
    if |a| > 0 {
      assert a[0] in b;
    }
    if |b| > 0 {
      assert b[0] in a;
    }
    if |a| > 0 && |b| > 0 {
      if a[0] != b[0] {
        assert b[0] in a && a[0] in b;
        var i :| 0 <= i < |a| && a[i] == b[0];
        var j :| 0 <= j < |b| && b[j] == a[0];
        StrictlySortedPairwise(a, 0, i);
        StrictlySortedPairwise(b, 0, j);
        StrLessAsymmetric(a[0], b[0]);
        assert false;
      }
      StrictlySortedDistinct(a);
      StrictlySortedDistinct(b);
      forall d
        ensures d in a[1..] <==> d in b[1..]
      {
        if d in a[1..] {
          var i :| 1 <= i < |a| && a[i] == d;
          assert d in a;
          var j :| 0 <= j < |b| && b[j] == d;
          assert j != 0;
        }
        if d in b[1..] {
          var j :| 1 <= j < |b| && b[j] == d;
          assert d in b;
          var i :| 0 <= i < |a| && a[i] == d;
          assert i != 0;
        }
      }
      SortedKeysUnique(a[1..], b[1..]);
      assert a == [a[0]] + a[1..] && b == [b[0]] + b[1..];
    }
  }

  /**
   * Arranges the keys of the feed in ascending order, as
   * `Object.keys(rawData.near_earth_objects).sort()` does: each key is
   * inserted in front of the first date that sorts after it.
   */
  method SortDates(keys: set<string>) returns (dates: seq<string>)
    ensures StrictlySorted(dates)
    ensures forall d :: d in dates <==> d in keys
  {
    dates := [];
    var rest := keys;
    while rest != {}
      invariant StrictlySorted(dates)
      invariant forall d :: d in keys <==> d in rest || d in dates
      invariant forall d :: d in rest ==> d !in dates
      decreases rest
    {
      var k :| k in rest;
      rest := rest - {k};
      var i := 0;
      while i < |dates| && StrLess(dates[i], k)
        invariant 0 <= i <= |dates|
        invariant i > 0 ==> StrLess(dates[i - 1], k)
      {
        i := i + 1;
      }
      if i < |dates| {
        StrLessTotal(dates[i], k);
      }
      dates := dates[..i] + [k] + dates[i..];
    }
  }
}
