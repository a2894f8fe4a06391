/** Exact expectation over independent Boolean variables. */
module Expectation {
  import opened Vertices

  type Probabilities = map<int, real>

  ghost predicate Covered(vars: seq<int>, p: Probabilities) {
    forall i | 0 <= i < |vars| :: vars[i] in p
  }

  ghost predicate InUnit(p: Probabilities) {
    forall x <- p :: 0.0 <= p[x] <= 1.0
  }

  /** The sum over all assignments to `vars` of weight times value; other variables are as in
      `a`, and `weight` is the product of the probabilities chosen so far. */
  ghost function WeightedSum(vars: seq<int>, p: Probabilities, f: Assignment -> real, a: Assignment, weight: real): real
    requires Covered(vars, p)
  {
    if vars == [] then
      Times(weight, f(a))
    else
      var x := vars[0];
      WeightedSum(vars[1..], p, f, a + iset{x}, Times(weight, p[x]))
      + WeightedSum(vars[1..], p, f, a - iset{x}, Times(weight, 1.0 - p[x]))
  }

  ghost function Times(x: real, y: real): real {
    x * y
  }

  /** The expectation of `f`. */
  ghost function Expect(vars: seq<int>, p: Probabilities, f: Assignment -> real, a: Assignment): real
    requires Covered(vars, p)
  {
    if vars == [] then
      f(a)
    else
      var x := vars[0];
      Mix(p[x], Expect(vars[1..], p, f, a + iset{x}), Expect(vars[1..], p, f, a - iset{x}))
  }

  /** The average of two values, of which the first has probability `p`. */
  ghost function Mix(p: real, high: real, low: real): real {
    p * high + (1.0 - p) * low
  }

  lemma {:induction false} SumIsExpectation(vars: seq<int>, p: Probabilities, f: Assignment -> real, a: Assignment, weight: real)
    requires Covered(vars, p)
    ensures WeightedSum(vars, p, f, a, weight) == Times(weight, Expect(vars, p, f, a))
  {
    hide Mix, Times;
    if vars != [] {
      var x := vars[0];
      SumIsExpectation(vars[1..], p, f, a + iset{x}, Times(weight, p[x]));
      SumIsExpectation(vars[1..], p, f, a - iset{x}, Times(weight, 1.0 - p[x]));
      Distribute(weight, p[x], Expect(vars[1..], p, f, a + iset{x}), Expect(vars[1..], p, f, a - iset{x}));
    }
  }

  lemma Distribute(w: real, p: real, high: real, low: real)
    ensures Times(w, Mix(p, high, low)) == Times(Times(w, p), high) + Times(Times(w, 1.0 - p), low)
  {
  }

  /** `f` does not depend on the variables in `s`. */
  ghost predicate Ignores(f: Assignment -> real, s: iset<int>) {
    forall a: Assignment, b: Assignment | a - s == b - s :: f(a) == f(b)
  }

  /** `f` depends on no variables but those in `s`. */
  ghost predicate DependsOn(f: Assignment -> real, s: iset<int>) {
    forall a: Assignment, b: Assignment | a * s == b * s :: f(a) == f(b)
  }

  /** Setting a variable keeps assignments in agreement inside or outside a set. */
  lemma Setting(a: Assignment, b: Assignment, s: iset<int>, x: int)
    ensures a - s == b - s ==> (a + iset{x}) - s == (b + iset{x}) - s && (a - iset{x}) - s == (b - iset{x}) - s
    ensures a * s == b * s ==> (a + iset{x}) * s == (b + iset{x}) * s && (a - iset{x}) * s == (b - iset{x}) * s
    ensures if x in s then (a + iset{x}) - s == (a - iset{x}) - s else (a + iset{x}) * s == (a - iset{x}) * s
  {
    if a - s == b - s {
      assert forall y :: y !in s ==> (y in a <==> y in a - s) && (y in b <==> y in b - s);
    }
    if a * s == b * s {
      assert forall y :: y in s ==> (y in a <==> y in a * s) && (y in b <==> y in b * s);
    }
  }

  lemma {:induction false} ExpectIgnores(vars: seq<int>, p: Probabilities, f: Assignment -> real, s: iset<int>, a: Assignment, b: Assignment)
    requires Covered(vars, p) && Ignores(f, s) && a - s == b - s
    ensures Expect(vars, p, f, a) == Expect(vars, p, f, b)
  {
    if vars != [] {
      hide Ignores;
      var x := vars[0];
      Setting(a, b, s, x);
      ExpectIgnores(vars[1..], p, f, s, a + iset{x}, b + iset{x});
      ExpectIgnores(vars[1..], p, f, s, a - iset{x}, b - iset{x});
    }
  }

  lemma {:induction false} ExpectDependsOn(vars: seq<int>, p: Probabilities, f: Assignment -> real, s: iset<int>, a: Assignment, b: Assignment)
    requires Covered(vars, p) && DependsOn(f, s) && a * s == b * s
    ensures Expect(vars, p, f, a) == Expect(vars, p, f, b)
  {
    if vars != [] {
      hide DependsOn;
      var x := vars[0];
      Setting(a, b, s, x);
      ExpectDependsOn(vars[1..], p, f, s, a + iset{x}, b + iset{x});
      ExpectDependsOn(vars[1..], p, f, s, a - iset{x}, b - iset{x});
    }
  }

  /** Independence: a choice between `high` and `low` made by variables on which neither of
      them depends. */
  lemma {:induction false} ExpectChoice(vars: seq<int>, p: Probabilities, s: iset<int>, choice: Assignment -> real,
                                        high: Assignment -> real, low: Assignment -> real, f: Assignment -> real, a: Assignment)
    requires Covered(vars, p) && DependsOn(choice, s) && Ignores(high, s) && Ignores(low, s)
    requires forall b: Assignment :: f(b) == choice(b) * high(b) + (1.0 - choice(b)) * low(b)
    ensures Expect(vars, p, f, a) == Mix(Expect(vars, p, choice, a), Expect(vars, p, high, a), Expect(vars, p, low, a))
  {
    if vars == [] {
    } else {
      hide DependsOn, Ignores, Mix;
      var x, rest := vars[0], vars[1..];
      Setting(a, a, s, x);
      ExpectChoice(rest, p, s, choice, high, low, f, a + iset{x});
      ExpectChoice(rest, p, s, choice, high, low, f, a - iset{x});
      var c1, c0 := Expect(rest, p, choice, a + iset{x}), Expect(rest, p, choice, a - iset{x});
      var h1, h0 := Expect(rest, p, high, a + iset{x}), Expect(rest, p, high, a - iset{x});
      var l1, l0 := Expect(rest, p, low, a + iset{x}), Expect(rest, p, low, a - iset{x});
      if x in s {
        ExpectIgnores(rest, p, high, s, a + iset{x}, a - iset{x});
        ExpectIgnores(rest, p, low, s, a + iset{x}, a - iset{x});
        ChoiceAlgebra(p[x], c1, c0, h1, h0, l1, l0);
      } else {
        ExpectDependsOn(rest, p, choice, s, a + iset{x}, a - iset{x});
        ChoiceAlgebra(p[x], c1, c0, h1, h0, l1, l0);
      }
    }
  }

  lemma ChoiceAlgebra(p: real, c1: real, c0: real, h1: real, h0: real, l1: real, l0: real)
    requires c1 == c0 || (h1 == h0 && l1 == l0)
    ensures Mix(p, Mix(c1, h1, l1), Mix(c0, h0, l0)) == Mix(Mix(p, c1, c0), Mix(p, h1, h0), Mix(p, l1, l0))
  {
    if c1 == c0 {
      assert Mix(p, c1, c0) == c1;
    } else {
      assert Mix(p, h1, h0) == h1;
      assert Mix(p, l1, l0) == l1;
    }
  }

  lemma {:induction false} ExpectConstant(vars: seq<int>, p: Probabilities, f: Assignment -> real, c: real, a: Assignment)
    requires Covered(vars, p) && forall b: Assignment :: f(b) == c
    ensures Expect(vars, p, f, a) == c
  {
    hide Mix;
    if vars != [] {
      ExpectConstant(vars[1..], p, f, c, a + iset{vars[0]});
      ExpectConstant(vars[1..], p, f, c, a - iset{vars[0]});
      MixEqual(p[vars[0]], c);
    }
  }

  lemma {:induction false} ExpectComplement(vars: seq<int>, p: Probabilities, f: Assignment -> real, g: Assignment -> real, a: Assignment)
    requires Covered(vars, p) && forall b: Assignment :: g(b) == 1.0 - f(b)
    ensures Expect(vars, p, g, a) == 1.0 - Expect(vars, p, f, a)
  {
    hide Mix;
    if vars != [] {
      ExpectComplement(vars[1..], p, f, g, a + iset{vars[0]});
      ExpectComplement(vars[1..], p, f, g, a - iset{vars[0]});
      MixComplement(p[vars[0]], Expect(vars[1..], p, f, a + iset{vars[0]}), Expect(vars[1..], p, f, a - iset{vars[0]}));
    }
  }

  lemma {:induction false} ExpectVariable(vars: seq<int>, p: Probabilities, f: Assignment -> real, x: int, a: Assignment)
    requires Covered(vars, p) && forall b: Assignment :: f(b) == if x in b then 1.0 else 0.0
    ensures Expect(vars, p, f, a) == if x in vars then p[x] else f(a)
  {
    hide Mix;
    if vars != [] {
      var y := vars[0];
      ExpectVariable(vars[1..], p, f, x, a + iset{y});
      ExpectVariable(vars[1..], p, f, x, a - iset{y});
      if x in vars[1..] {
        MixEqual(p[y], p[x]);
      } else if x == y {
        MixOneZero(p[y]);
      } else {
        MixEqual(p[y], f(a));
      }
    }
  }

  lemma MixEqual(p: real, c: real)
    ensures Mix(p, c, c) == c
  {
    assert p * c + (1.0 - p) * c == c;
  }

  lemma MixOneZero(p: real)
    ensures Mix(p, 1.0, 0.0) == p
  {
  }

  lemma MixComplement(p: real, high: real, low: real)
    ensures Mix(p, 1.0 - high, 1.0 - low) == 1.0 - Mix(p, high, low)
  {
  }
}
