/** Sums of a map's values and sizes of integer sets. */
module Totals {

  import opened Wrappers

  ghost function Total<K>(m: map<K, nat>): nat
    decreases |m.Keys|
  {
    if m.Keys == {} then 0
    else
      var k := Pick(m.Keys);
      assert (m - {k}).Keys == m.Keys - {k};
      m[k] + Total(m - {k})
  }

  lemma {:induction false} TotalWithout<K>(m: map<K, nat>, k: K)
    requires k in m
    ensures Total(m) == m[k] + Total(m - {k})
    decreases |m.Keys|
  {
    var p := Pick(m.Keys);
    if p != k {
      assert (m - {p}).Keys == m.Keys - {p} && (m - {k}).Keys == m.Keys - {k};
      TotalWithout(m - {p}, k);
      TotalWithout(m - {k}, p);
      assert m - {p} - {k} == m - {k} - {p};
    }
  }

  lemma TotalSet<K>(m: map<K, nat>, k: K, v: nat)
    ensures Total(m[k := v]) == v + Total(m - {k})
    ensures k in m ==> Total(m) == m[k] + Total(m - {k})
    ensures k !in m ==> Total(m) == Total(m - {k})
  {
    TotalWithout(m[k := v], k);
    assert m[k := v] - {k} == m - {k};
    if k in m {
      TotalWithout(m, k);
    } else {
      assert m - {k} == m;
    }
  }

  /** Integers between two bounds are no more than the bounds leave room for. */
  lemma {:induction false} SizeOfRange(s: set<int>, lo: int, hi: int)
    requires forall x :: x in s ==> lo <= x <= hi
    ensures |s| <= if lo <= hi then hi - lo + 1 else 0
    decreases hi - lo + 1
  {
    if s != {} {
      var x := Pick(s);
      assert lo <= x <= hi;
      SizeOfRange(s - {hi}, lo, hi - 1);
      assert |s| <= |s - {hi}| + 1 by {
        if hi in s {
          assert |s - {hi}| == |s| - 1;
        } else {
          assert s - {hi} == s;
        }
      }
    }
  }

  lemma SubsetSize<T>(a: set<T>, b: set<T>)
    requires a <= b
    ensures |a| <= |b|
  {
    assert b == a + (b - a);
  }
}
