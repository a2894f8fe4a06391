/** Combinations of group members and their number. */
module Combinations {
  import opened Sets

  /** The number of k-element subsets of n elements. */
  function Choose(n: nat, k: nat): nat {
    if k == 0 then 1
    else if n == 0 then 0
    else Choose(n - 1, k - 1) + Choose(n - 1, k)
  }

  lemma {:induction false} ChooseBounds(n: nat, k: nat)
    ensures k > n ==> Choose(n, k) == 0
    ensures k == n ==> Choose(n, k) == 1
    ensures k <= n ==> Choose(n, k) >= 1
  {
    if k > 0 && n > 0 {
      ChooseBounds(n - 1, k - 1);
      ChooseBounds(n - 1, k);
    }
  }

  lemma ChooseNone(n: nat)
    ensures Choose(n, 0) == 1
  {
  }

  lemma {:induction false} ChooseSymmetric(n: nat, k: nat)
    requires k <= n
    ensures Choose(n, k) == Choose(n, n - k)
  {
    ChooseBounds(n, n);
    if 0 < k < n {
      ChooseSymmetric(n - 1, k - 1);
      ChooseSymmetric(n - 1, k);
    }
  }

  lemma AbsorptionStep(n: int, k: int, a: int, b: int, x: int, y: int)
    requires x == a + b && k * y == (n - 1) * b && (k - 1) * x == (n - 1) * a
    ensures k * (x + y) == n * x
  {
    assert (n - 1) * (a + b) == (n - 1) * a + (n - 1) * b;
    assert k * (x + y) == k * x + k * y;
    assert (k - 1) * x == k * x - x;
    assert (n - 1) * x == n * x - x;
  }

  lemma {:induction false} Absorption(n: nat, k: nat)
    requires n > 0 && k > 0
    ensures k * Choose(n, k) == n * Choose(n - 1, k - 1)
  {
    if n == 1 {
      ChooseBounds(0, k - 1);
      ChooseBounds(1, k);
    } else {
      Absorption(n - 1, k);
      if k > 1 {
        Absorption(n - 1, k - 1);
        AbsorptionStep(n, k, Choose(n - 2, k - 2), Choose(n - 2, k - 1), Choose(n - 1, k - 1), Choose(n - 1, k));
      }
    }
  }

  lemma ReciprocalStep(r: real, a: real, b: real, c: real, d: real)
    requires b > 0.0 && a * c == b * d && r * d == 1.0
    ensures r * (a / b) * c == 1.0
  {
    var q := a / b;
    assert q * b == a;
    assert b * (q * c) == b * d by {
      assert b * (q * c) == (q * b) * c;
    }
    Cancel(b, q * c, d);
    assert r * q * c == r * (q * c);
  }

  lemma Cancel(b: real, x: real, y: real)
    requires b > 0.0 && b * x == b * y
    ensures x == y
  {
    assert b * (x - y) == 0.0;
  }

  /** One factor of the product: i / (k + i). */
  lemma GrowReciprocal(k: nat, i: nat, result: real)
    requires i > 0 && result * Choose(k + i - 1, i - 1) as real == 1.0
    ensures result * (i as real / (k + i) as real) * Choose(k + i, i) as real == 1.0
  {
    hide Choose;
    Absorption(k + i, i);
    ProductAsReal(i, Choose(k + i, i));
    ProductAsReal(k + i, Choose(k + i - 1, i - 1));
    ReciprocalStep(result, i as real, (k + i) as real, Choose(k + i, i) as real, Choose(k + i - 1, i - 1) as real);
  }

  lemma ProductAsReal(a: int, b: int)
    ensures (a * b) as real == a as real * b as real
  {
  }

  /** The reciprocal of the number of combinations. */
  method CalculateCombinationReciprocal(n: nat, k: nat) returns (result: real)
    requires n >= k
    ensures result * Choose(n, k) as real == 1.0
  {
    hide Choose;
    ChooseSymmetric(n, k);
    var m := if n - k > k then n - k else k;
    result := 1.0;
    ChooseNone(m);
    for i := 1 to n - m + 1
      invariant result * Choose(m + i - 1, i - 1) as real == 1.0
    {
      GrowReciprocal(m, i, result);
      result := result * (i as real / (m + i) as real);
    }
    ChooseSymmetric(n, m);
  }

  /** All subsets of [lo, n) with k elements, in lexicographic order. */
  function Subsets(lo: nat, n: nat, k: nat): seq<set<int>>
    requires lo <= n
    decreases n - lo
  {
    if k == 0 then [{}]
    else if lo == n then []
    else AddToEach(Subsets(lo + 1, n, k - 1), lo) + Subsets(lo + 1, n, k)
  }

  function AddToEach(sets: seq<set<int>>, x: int): (r: seq<set<int>>)
    ensures |r| == |sets| && forall i | 0 <= i < |sets| :: r[i] == sets[i] + {x}
  {
    if sets == [] then [] else [sets[0] + {x}] + AddToEach(sets[1..], x)
  }

  function Range(lo: nat, n: nat): (r: set<int>)
    requires lo <= n
    ensures |r| == n - lo && forall x :: x in r <==> lo <= x < n
    decreases n - lo
  {
    if lo == n then {} else {lo} + Range(lo + 1, n)
  }

  /** The subsets with the first element come first. */
  lemma SubsetAt(lo: nat, n: nat, k: nat, i: nat)
    requires lo < n && k > 0
    ensures |Subsets(lo, n, k)| == |Subsets(lo + 1, n, k - 1)| + |Subsets(lo + 1, n, k)|
    ensures i < |Subsets(lo + 1, n, k - 1)| ==> Subsets(lo, n, k)[i] == Subsets(lo + 1, n, k - 1)[i] + {lo}
    ensures |Subsets(lo + 1, n, k - 1)| <= i < |Subsets(lo, n, k)|
            ==> Subsets(lo, n, k)[i] == Subsets(lo + 1, n, k)[i - |Subsets(lo + 1, n, k - 1)|]
  {
  }

  lemma SubsetsEnd(lo: nat, n: nat, k: nat)
    requires lo <= n && (k == 0 || lo == n)
    ensures Subsets(lo, n, k) == if k == 0 then [{}] else []
  {
  }

  lemma {:induction false} SubsetsAre(lo: nat, n: nat, k: nat, i: nat)
    requires lo <= n && i < |Subsets(lo, n, k)|
    ensures forall x <- Subsets(lo, n, k)[i] :: lo <= x < n
    ensures |Subsets(lo, n, k)[i]| == k
    decreases n - lo
  {
    hide Subsets;
    if k == 0 || lo == n {
      SubsetsEnd(lo, n, k);
    } else {
      SubsetAt(lo, n, k, i);
      var first := |Subsets(lo + 1, n, k - 1)|;
      if i < first {
        SubsetsAre(lo + 1, n, k - 1, i);
        assert lo !in Subsets(lo + 1, n, k - 1)[i];
      } else {
        SubsetsAre(lo + 1, n, k, i - first);
      }
    }
  }

  /** Every k-element subset is listed. */
  lemma {:induction false} SubsetsComplete(lo: nat, n: nat, k: nat, s: set<int>) returns (i: nat)
    requires lo <= n && |s| == k && forall x <- s :: lo <= x < n
    ensures i < |Subsets(lo, n, k)| && Subsets(lo, n, k)[i] == s
    decreases n - lo
  {
    hide Subsets, Range;
    Subset(s, Range(lo, n));
    if k == 0 {
      SubsetsEnd(lo, n, k);
      i := 0;
    } else {
      var first := |Subsets(lo + 1, n, k - 1)|;
      if lo in s {
        i := SubsetsComplete(lo + 1, n, k - 1, s - {lo});
        SubsetAt(lo, n, k, i);
        assert s - {lo} + {lo} == s;
      } else {
        var j := SubsetsComplete(lo + 1, n, k, s);
        i := first + j;
        SubsetAt(lo, n, k, i);
      }
    }
  }

  /** No subset is listed twice. */
  lemma {:induction false} SubsetsDistinct(lo: nat, n: nat, k: nat, i: nat, j: nat)
    requires lo <= n && i < j < |Subsets(lo, n, k)|
    ensures Subsets(lo, n, k)[i] != Subsets(lo, n, k)[j]
    decreases n - lo
  {
    hide Subsets;
    if k == 0 || lo == n {
      SubsetsEnd(lo, n, k);
    } else {
      SubsetAt(lo, n, k, i);
      SubsetAt(lo, n, k, j);
      var first := |Subsets(lo + 1, n, k - 1)|;
      if j < first {
        SubsetsDistinct(lo + 1, n, k - 1, i, j);
        AddDistinct(Subsets(lo + 1, n, k - 1)[i], Subsets(lo + 1, n, k - 1)[j], lo) by {
          SubsetsAre(lo + 1, n, k - 1, i);
          SubsetsAre(lo + 1, n, k - 1, j);
        }
      } else if i < first {
        SubsetsAre(lo + 1, n, k, j - first);
        assert lo in Subsets(lo, n, k)[i];
      } else {
        SubsetsDistinct(lo + 1, n, k, i - first, j - first);
      }
    }
  }

  lemma AddDistinct(s: set<int>, t: set<int>, x: int)
    requires s != t && x !in s && x !in t
    ensures s + {x} != t + {x}
  {
    assert s + {x} - {x} == s && t + {x} - {x} == t;
  }

  /** The number of subsets that contain one of the elements. */
  lemma {:induction false} SubsetsCount(lo: nat, n: nat, k: nat)
    requires lo <= n
    ensures |Subsets(lo, n, k)| == Choose(n - lo, k)
    decreases n - lo
  {
    if k > 0 && lo < n {
      SubsetsCount(lo + 1, n, k - 1);
      SubsetsCount(lo + 1, n, k);
    }
  }
}
