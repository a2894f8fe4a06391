/** The rare-event and min-cut-upper-bound approximations over cut sets, and their order with
    respect to the exact probability of the union. */
module Approximations {
  import Sets
  import opened Vertices
  import opened Expectation

  type CutSet = seq<int>

  ghost predicate Distinct(c: CutSet) {
    forall i, j | 0 <= i < j < |c| :: c[i] != c[j]
  }

  ghost predicate Known(c: CutSet, p: Probabilities) {
    forall i | 0 <= i < |c| :: c[i] in p
  }

  ghost predicate AllKnown(cuts: seq<CutSet>, p: Probabilities) {
    forall i | 0 <= i < |cuts| :: Known(cuts[i], p) && Distinct(cuts[i])
  }

  // What the calculators compute.

  ghost function CutProbability(c: CutSet, p: Probabilities): real
    requires Known(c, p)
  {
    if c == [] then 1.0 else Times(p[c[0]], CutProbability(c[1..], p))
  }

  ghost function Sum(cuts: seq<CutSet>, p: Probabilities): real
    requires AllKnown(cuts, p)
  {
    if cuts == [] then 0.0 else CutProbability(cuts[0], p) + Sum(cuts[1..], p)
  }

  ghost function NoneProduct(cuts: seq<CutSet>, p: Probabilities): real
    requires AllKnown(cuts, p)
  {
    if cuts == [] then 1.0 else Times(1.0 - CutProbability(cuts[0], p), NoneProduct(cuts[1..], p))
  }

  ghost function RareEvent(cuts: seq<CutSet>, p: Probabilities): real
    requires AllKnown(cuts, p)
  {
    if Sum(cuts, p) > 1.0 then 1.0 else Sum(cuts, p)
  }

  ghost function Mcub(cuts: seq<CutSet>, p: Probabilities): real
    requires AllKnown(cuts, p)
  {
    1.0 - NoneProduct(cuts, p)
  }

  /** The product of the probabilities of the members; 1 for the empty set. */
  method CalculateCutSet(c: CutSet, p: Probabilities) returns (product: real)
    requires Known(c, p)
    ensures product == CutProbability(c, p)
  {
    product := 1.0;
    for i := 0 to |c|
      invariant Times(product, CutProbability(c[i..], p)) == CutProbability(c, p)
    {
      product := product * p[c[i]];
    }
  }

  method CalculateRareEvent(cuts: seq<CutSet>, p: Probabilities) returns (r: real)
    requires AllKnown(cuts, p)
    ensures r == RareEvent(cuts, p)
  {
    var sum := 0.0;
    for i := 0 to |cuts|
      invariant sum + Sum(cuts[i..], p) == Sum(cuts, p)
    {
      var q := CalculateCutSet(cuts[i], p);
      assert cuts[i..][1..] == cuts[i + 1..];
      sum := sum + q;
    }
    r := if sum > 1.0 then 1.0 else sum;
  }

  method CalculateMcub(cuts: seq<CutSet>, p: Probabilities) returns (r: real)
    requires AllKnown(cuts, p)
    ensures r == Mcub(cuts, p)
  {
    var m := 1.0;
    for i := 0 to |cuts|
      invariant Times(m, NoneProduct(cuts[i..], p)) == NoneProduct(cuts, p)
    {
      var q := CalculateCutSet(cuts[i], p);
      assert cuts[i..][1..] == cuts[i + 1..];
      TimesAssociates(m, 1.0 - q, NoneProduct(cuts[i + 1..], p));
      m := m * (1.0 - q);
    }
    r := 1.0 - m;
  }

  lemma TimesAssociates(x: real, y: real, z: real)
    ensures Times(x, Times(y, z)) == Times(x * y, z)
  {
  }

  // The events.

  ghost predicate Fails(c: CutSet, a: Assignment) {
    forall i | 0 <= i < |c| :: c[i] in a
  }

  ghost predicate SomeFails(cuts: seq<CutSet>, a: Assignment) {
    exists i | 0 <= i < |cuts| :: Fails(cuts[i], a)
  }

  ghost function Failure(c: CutSet): Assignment -> real {
    (a: Assignment) => if Fails(c, a) then 1.0 else 0.0
  }

  ghost function Survival(c: CutSet): Assignment -> real {
    (a: Assignment) => if Fails(c, a) then 0.0 else 1.0
  }

  ghost function Union(cuts: seq<CutSet>): Assignment -> real {
    (a: Assignment) => if SomeFails(cuts, a) then 1.0 else 0.0
  }

  ghost function Intact(cuts: seq<CutSet>): Assignment -> real {
    (a: Assignment) => if SomeFails(cuts, a) then 0.0 else 1.0
  }

  /** More failures never increase `f`. */
  ghost predicate Decreasing(f: Assignment -> real) {
    forall a: Assignment, b: Assignment | a <= b :: f(b) <= f(a)
  }

  lemma {:induction false} ExpectDecreasing(vars: seq<int>, p: Probabilities, f: Assignment -> real, a: Assignment, b: Assignment)
    requires Covered(vars, p) && InUnit(p) && Decreasing(f) && a <= b
    ensures Expect(vars, p, f, b) <= Expect(vars, p, f, a)
  {
    if vars == [] {
    } else {
      hide Decreasing, Mix;
      var x := vars[0];
      assert x in p;
      ExpectDecreasing(vars[1..], p, f, a + iset{x}, b + iset{x});
      ExpectDecreasing(vars[1..], p, f, a - iset{x}, b - iset{x});
      MixOrdered(p[x], Expect(vars[1..], p, f, a + iset{x}), Expect(vars[1..], p, f, a - iset{x}),
                 Expect(vars[1..], p, f, b + iset{x}), Expect(vars[1..], p, f, b - iset{x}));
    }
  }

  lemma MixOrdered(p: real, h: real, l: real, h': real, l': real)
    requires 0.0 <= p <= 1.0 && h' <= h && l' <= l
    ensures Mix(p, h', l') <= Mix(p, h, l)
  {
    NonNegative(p, h - h');
    NonNegative(1.0 - p, l - l');
    assert Mix(p, h, l) - Mix(p, h', l') == p * (h - h') + (1.0 - p) * (l - l');
  }

  lemma NonNegative(x: real, y: real)
    requires x >= 0.0 && y >= 0.0
    ensures x * y >= 0.0
  {
  }

  /** Positive correlation of decreasing functions of independent variables. */
  lemma {:induction false} PositiveCorrelation(vars: seq<int>, p: Probabilities, f: Assignment -> real, g: Assignment -> real,
                                               fg: Assignment -> real, a: Assignment)
    requires Covered(vars, p) && InUnit(p) && Decreasing(f) && Decreasing(g)
    requires forall b: Assignment :: fg(b) == Times(f(b), g(b))
    ensures Expect(vars, p, fg, a) >= Times(Expect(vars, p, f, a), Expect(vars, p, g, a))
  {
    if vars == [] {
    } else {
      hide Decreasing, Mix, Times;
      var x, rest := vars[0], vars[1..];
      assert x in p;
      PositiveCorrelation(rest, p, f, g, fg, a + iset{x});
      PositiveCorrelation(rest, p, f, g, fg, a - iset{x});
      ExpectDecreasing(rest, p, f, a - iset{x}, a + iset{x});
      ExpectDecreasing(rest, p, g, a - iset{x}, a + iset{x});
      var f1, f0 := Expect(rest, p, f, a + iset{x}), Expect(rest, p, f, a - iset{x});
      var g1, g0 := Expect(rest, p, g, a + iset{x}), Expect(rest, p, g, a - iset{x});
      MixOrdered(p[x], Expect(rest, p, fg, a + iset{x}), Expect(rest, p, fg, a - iset{x}), Times(f1, g1), Times(f0, g0));
      MixCorrelated(p[x], f1, f0, g1, g0);
    }
  }

  lemma MixCorrelated(p: real, f1: real, f0: real, g1: real, g0: real)
    requires 0.0 <= p <= 1.0 && f1 <= f0 && g1 <= g0
    ensures Mix(p, Times(f1, g1), Times(f0, g0)) >= Times(Mix(p, f1, f0), Mix(p, g1, g0))
  {
    NonNegative(f0 - f1, g0 - g1);
    NonNegative(p, 1.0 - p);
    NonNegative(p * (1.0 - p), (f0 - f1) * (g0 - g1));
    Covariance(p, f1, f0, g1, g0);
  }

  lemma Covariance(p: real, f1: real, f0: real, g1: real, g0: real)
    ensures p * (f1 * g1) + (1.0 - p) * (f0 * g0)
         == (p * f1 + (1.0 - p) * f0) * (p * g1 + (1.0 - p) * g0) + p * (1.0 - p) * ((f0 - f1) * (g0 - g1))
  {
  }

  /** The members of a cut set fail together with the product of their probabilities. */
  lemma {:induction false} CutIsProduct(vars: seq<int>, p: Probabilities, c: CutSet, a: Assignment)
    requires Covered(vars, p) && Known(c, p) && Distinct(c) && forall x <- p :: x in vars
    ensures Expect(vars, p, Failure(c), a) == CutProbability(c, p)
  {
    hide Mix, Times;
    if c == [] {
      ExpectConstant(vars, p, Failure(c), 1.0, a);
    } else {
      var x, rest := c[0], c[1..];
      var choice := (b: Assignment) => if x in b then 1.0 else 0.0;
      var never := (b: Assignment) => 0.0;
      FailsTogether(c);
      assert DependsOn(choice, iset{x}) by {
        assert forall b: Assignment :: x in b <==> x in b * iset{x};
      }
      ExpectChoice(vars, p, iset{x}, choice, Failure(rest), never, Failure(c), a);
      ExpectVariable(vars, p, choice, x, a);
      ExpectConstant(vars, p, never, 0.0, a);
      CutIsProduct(vars, p, rest, a);
      MixWithZero(p[x], CutProbability(rest, p));
    }
  }

  lemma MixWithZero(p: real, q: real)
    ensures Mix(p, q, 0.0) == Times(p, q)
  {
  }

  lemma FailsTogether(c: CutSet)
    requires c != [] && Distinct(c)
    ensures forall b: Assignment :: Fails(c, b) <==> c[0] in b && Fails(c[1..], b)
    ensures Ignores(Failure(c[1..]), iset{c[0]})
  {
    forall b: Assignment
      ensures Fails(c, b) <==> c[0] in b && Fails(c[1..], b)
    {
      assert forall i | 1 <= i < |c| :: c[i] == c[1..][i - 1];
    }
    forall a: Assignment, b: Assignment | a - iset{c[0]} == b - iset{c[0]}
      ensures Failure(c[1..])(a) == Failure(c[1..])(b)
    {
      forall i | 0 <= i < |c[1..]|
        ensures c[1..][i] in a <==> c[1..][i] in b
      {
        assert c[1..][i] != c[0];
        assert c[1..][i] in a - iset{c[0]} <==> c[1..][i] in b - iset{c[0]};
      }
    }
  }

  lemma {:induction false} CutBounds(c: CutSet, p: Probabilities)
    requires Known(c, p) && InUnit(p)
    ensures 0.0 <= CutProbability(c, p) <= 1.0
  {
    if c != [] {
      var x := c[0];
      assert x in p && 0.0 <= p[x] <= 1.0;
      CutBounds(c[1..], p);
      TimesBounds(p[x], CutProbability(c[1..], p));
    }
  }

  lemma TimesBounds(x: real, y: real)
    requires 0.0 <= x <= 1.0 && 0.0 <= y <= 1.0
    ensures 0.0 <= Times(x, y) <= x && Times(x, y) <= y
  {
    NonNegative(x, y);
    NonNegative(x, 1.0 - y);
    NonNegative(1.0 - x, y);
  }

  lemma {:induction false} NoneBounds(cuts: seq<CutSet>, p: Probabilities)
    requires AllKnown(cuts, p) && InUnit(p)
    ensures 0.0 <= NoneProduct(cuts, p) <= 1.0
    ensures Mcub(cuts, p) <= Sum(cuts, p)
  {
    if cuts != [] {
      NoneBounds(cuts[1..], p);
      CutBounds(cuts[0], p);
      TimesBounds(1.0 - CutProbability(cuts[0], p), NoneProduct(cuts[1..], p));
      BoundStep(CutProbability(cuts[0], p), NoneProduct(cuts[1..], p));
    }
  }

  lemma BoundStep(q: real, n: real)
    requires 0.0 <= q <= 1.0 && 0.0 <= n <= 1.0
    ensures 1.0 - Times(1.0 - q, n) <= q + (1.0 - n)
  {
  }

  lemma SurvivalDecreases(cuts: seq<CutSet>)
    ensures Decreasing(Intact(cuts))
    ensures cuts != [] ==> Decreasing(Survival(cuts[0]))
    ensures cuts != [] ==> forall b: Assignment :: Intact(cuts)(b) == Times(Survival(cuts[0])(b), Intact(cuts[1..])(b))
  {
    forall a: Assignment, b: Assignment | a <= b
      ensures SomeFails(cuts, a) ==> SomeFails(cuts, b)
    {
      if i :| 0 <= i < |cuts| && Fails(cuts[i], a) {
        assert Fails(cuts[i], b);
      }
    }
    if cuts != [] {
      forall b: Assignment
        ensures SomeFails(cuts, b) <==> Fails(cuts[0], b) || SomeFails(cuts[1..], b)
      {
        assert forall i | 1 <= i < |cuts| :: cuts[i] == cuts[1..][i - 1];
      }
    }
  }

  /** The probability that no cut set fails is at least the product of the survivals. */
  lemma {:induction false} IntactAtLeastProduct(vars: seq<int>, p: Probabilities, cuts: seq<CutSet>, a: Assignment)
    requires Covered(vars, p) && InUnit(p) && AllKnown(cuts, p) && forall x <- p :: x in vars
    ensures Expect(vars, p, Intact(cuts), a) >= NoneProduct(cuts, p)
  {
    hide Mix, Times, Decreasing;
    if cuts == [] {
      ExpectConstant(vars, p, Intact(cuts), 1.0, a);
    } else {
      var c, rest := cuts[0], cuts[1..];
      SurvivalDecreases(cuts);
      SurvivalDecreases(rest);
      PositiveCorrelation(vars, p, Survival(c), Intact(rest), Intact(cuts), a);
      IntactAtLeastProduct(vars, p, rest, a);
      CutIsProduct(vars, p, c, a);
      ExpectComplement(vars, p, Failure(c), Survival(c), a);
      CutBounds(c, p);
      TimesMonotone(1.0 - CutProbability(c, p), NoneProduct(rest, p), Expect(vars, p, Intact(rest), a));
    }
  }

  lemma TimesMonotone(x: real, y: real, z: real)
    requires x >= 0.0 && y <= z
    ensures Times(x, y) <= Times(x, z)
  {
  }

  /** The order of the approximations: exact, min-cut upper bound, rare event, one. */
  lemma ApproximationOrder(vars: seq<int>, p: Probabilities, cuts: seq<CutSet>, a: Assignment)
    requires Covered(vars, p) && InUnit(p) && AllKnown(cuts, p) && forall x <- p :: x in vars
    ensures Expect(vars, p, Union(cuts), a) <= Mcub(cuts, p) <= RareEvent(cuts, p) <= 1.0
  {
    IntactAtLeastProduct(vars, p, cuts, a);
    ExpectComplement(vars, p, Intact(cuts), Union(cuts), a);
    NoneBounds(cuts, p);
  }

  // What the approximations are exactly.

  /** The cut sets that fail. */
  ghost function Failing(cuts: seq<CutSet>, a: Assignment): set<int> {
    set i | 0 <= i < |cuts| && Fails(cuts[i], a)
  }

  ghost function Failures(cuts: seq<CutSet>): Assignment -> real {
    (a: Assignment) => |Failing(cuts, a)| as real
  }

  lemma FailingFirst(cuts: seq<CutSet>, a: Assignment)
    requires cuts != []
    ensures |Failing(cuts, a)| == |Failing(cuts[1..], a)| + if Fails(cuts[0], a) then 1 else 0
  {
    var rest, all := Failing(cuts[1..], a), Failing(cuts, a);
    var shifted := set i <- rest :: i + 1;
    Shifted(rest, shifted);
    forall i
      ensures i in all <==> i in shifted + if Fails(cuts[0], a) then {0} else {}
    {
      assert i in shifted <==> i - 1 in rest;
      assert 0 < i < |cuts| ==> cuts[1..][i - 1] == cuts[i];
    }
    Sets.SameSet(all, shifted + if Fails(cuts[0], a) then {0} else {});
  }

  lemma {:induction false} Shifted(s: set<int>, shifted: set<int>)
    requires forall i :: i in shifted <==> i - 1 in s
    ensures |shifted| == |s|
  {
    if s == {} {
      forall i: int
        ensures i !in shifted
      {
      }
      var none: set<int> := {};
      Sets.SameSet(shifted, none);
    } else {
      var x := Sets.Some(s);
      Shifted(s - {x}, shifted - {x + 1});
      assert x + 1 in shifted;
    }
  }

  lemma {:induction false} ExpectSum(vars: seq<int>, p: Probabilities, f: Assignment -> real, g: Assignment -> real, h: Assignment -> real, a: Assignment)
    requires Covered(vars, p) && forall b: Assignment :: h(b) == f(b) + g(b)
    ensures Expect(vars, p, h, a) == Expect(vars, p, f, a) + Expect(vars, p, g, a)
  {
    hide Mix;
    if vars != [] {
      var x, rest := vars[0], vars[1..];
      ExpectSum(rest, p, f, g, h, a + iset{x});
      ExpectSum(rest, p, f, g, h, a - iset{x});
      MixSum(p[x], Expect(rest, p, f, a + iset{x}), Expect(rest, p, f, a - iset{x}),
             Expect(rest, p, g, a + iset{x}), Expect(rest, p, g, a - iset{x}));
    }
  }

  lemma MixSum(p: real, h: real, l: real, h': real, l': real)
    ensures Mix(p, h + h', l + l') == Mix(p, h, l) + Mix(p, h', l')
  {
  }

  /** The sum is the expected number of cut sets that fail. */
  lemma {:induction false} ExpectedFailures(vars: seq<int>, p: Probabilities, cuts: seq<CutSet>, a: Assignment)
    requires Covered(vars, p) && AllKnown(cuts, p) && forall x <- p :: x in vars
    ensures Sum(cuts, p) == Expect(vars, p, Failures(cuts), a)
  {
    hide Mix, Fails;
    if cuts == [] {
      ExpectConstant(vars, p, Failures(cuts), 0.0, a);
    } else {
      ExpectedFailures(vars, p, cuts[1..], a);
      CutIsProduct(vars, p, cuts[0], a);
      forall b: Assignment
        ensures Failures(cuts)(b) == Failure(cuts[0])(b) + Failures(cuts[1..])(b)
      {
        FailingFirst(cuts, b);
      }
      ExpectSum(vars, p, Failure(cuts[0]), Failures(cuts[1..]), Failures(cuts), a);
    }
  }

  /** The rare-event approximation is the expected number of cut sets that fail, or 1 if that
      is greater. */
  lemma RareEventExactly(vars: seq<int>, p: Probabilities, cuts: seq<CutSet>, a: Assignment)
    requires Covered(vars, p) && AllKnown(cuts, p) && forall x <- p :: x in vars
    ensures var expected := Expect(vars, p, Failures(cuts), a);
            RareEvent(cuts, p) == if expected < 1.0 then expected else 1.0
  {
    ExpectedFailures(vars, p, cuts, a);
  }

  /** No two cut sets share a variable. */
  ghost predicate Separated(cuts: seq<CutSet>) {
    forall i, j, k, l | 0 <= i < j < |cuts| && 0 <= k < |cuts[i]| && 0 <= l < |cuts[j]| :: cuts[i][k] != cuts[j][l]
  }

  lemma {:induction false} IntactExactly(vars: seq<int>, p: Probabilities, cuts: seq<CutSet>, a: Assignment)
    requires Covered(vars, p) && AllKnown(cuts, p) && Separated(cuts) && forall x <- p :: x in vars
    ensures Expect(vars, p, Intact(cuts), a) == NoneProduct(cuts, p)
  {
    hide Mix, Times;
    if cuts == [] {
      ExpectConstant(vars, p, Intact(cuts), 1.0, a);
    } else {
      var c, rest := cuts[0], cuts[1..];
      assert Separated(rest) && AllKnown(rest, p);
      var never := (b: Assignment) => 0.0;
      var s := iset i | 0 <= i < |c| :: c[i];
      FirstApart(cuts, s);
      ExpectChoice(vars, p, s, Failure(c), never, Intact(rest), Intact(cuts), a);
      CutIsProduct(vars, p, c, a);
      ExpectConstant(vars, p, never, 0.0, a);
      IntactExactly(vars, p, rest, a);
      MixOfNone(CutProbability(c, p), NoneProduct(rest, p));
    }
  }

  lemma MixOfNone(p: real, q: real)
    ensures Mix(p, 0.0, q) == Times(1.0 - p, q)
  {
  }

  /** The failure of the first cut set depends on its variables only, and the others do not
      depend on them. */
  lemma FirstApart(cuts: seq<CutSet>, s: iset<int>)
    requires cuts != [] && Separated(cuts) && s == iset i | 0 <= i < |cuts[0]| :: cuts[0][i]
    ensures DependsOn(Failure(cuts[0]), s) && Ignores(Intact(cuts[1..]), s)
    ensures forall b: Assignment ::
              Intact(cuts)(b) == Failure(cuts[0])(b) * 0.0 + (1.0 - Failure(cuts[0])(b)) * Intact(cuts[1..])(b)
  {
    forall a: Assignment, b: Assignment | a * s == b * s
      ensures Failure(cuts[0])(a) == Failure(cuts[0])(b)
    {
      forall i | 0 <= i < |cuts[0]|
        ensures cuts[0][i] in a <==> cuts[0][i] in b
      {
        assert cuts[0][i] in s;
        assert cuts[0][i] in a * s <==> cuts[0][i] in b * s;
      }
    }
    forall a: Assignment, b: Assignment | a - s == b - s
      ensures SomeFails(cuts[1..], a) == SomeFails(cuts[1..], b)
    {
      forall i | 0 <= i < |cuts[1..]|
        ensures Fails(cuts[1..][i], a) == Fails(cuts[1..][i], b)
      {
        SameOutside(cuts, s, i, a, b);
      }
    }
    forall b: Assignment
      ensures SomeFails(cuts, b) <==> Fails(cuts[0], b) || SomeFails(cuts[1..], b)
    {
      assert forall i | 1 <= i < |cuts| :: cuts[i] == cuts[1..][i - 1];
    }
  }

  lemma SameOutside(cuts: seq<CutSet>, s: iset<int>, i: nat, a: Assignment, b: Assignment)
    requires cuts != [] && Separated(cuts) && s == iset i | 0 <= i < |cuts[0]| :: cuts[0][i]
    requires i < |cuts[1..]| && a - s == b - s
    ensures Fails(cuts[1..][i], a) == Fails(cuts[1..][i], b)
  {
    forall l | 0 <= l < |cuts[1..][i]|
      ensures cuts[1..][i][l] in a <==> cuts[1..][i][l] in b
    {
      var x := cuts[i + 1][l];
      assert x !in s;
      assert x in a - s <==> x in b - s;
    }
  }

  /** The min-cut upper bound is the exact probability of cut sets that share no variables. */
  lemma McubExactly(vars: seq<int>, p: Probabilities, cuts: seq<CutSet>, a: Assignment)
    requires Covered(vars, p) && AllKnown(cuts, p) && Separated(cuts) && forall x <- p :: x in vars
    ensures Mcub(cuts, p) == Expect(vars, p, Union(cuts), a)
  {
    IntactExactly(vars, p, cuts, a);
    ExpectComplement(vars, p, Intact(cuts), Union(cuts), a);
  }
}
