/** Common cause groups: the expansion of the members of a group into events for their
    common failure. */
module CommonCause {
  import opened Reals
  import opened Combinations
  import opened Options
  import Sets

  datatype Model = BetaFactor | Mgl | AlphaFactor

  datatype Outcome = Done | LogicError | DuplicateElementError | ValidityError | DomainError

  datatype Factor = Missing | Factor(level: int, value: real)

  /** The probability of each event for a given number of members. */
  datatype Level = Level(size: nat, probability: real)

  /** The common failure of some members of a group. */
  datatype CcfEvent = CcfEvent(members: set<int>, probability: real)

  predicate IsProbability(p: real) {
    0.0 <= p <= 1.0
  }

  /** The summed probability of so many equally likely events. */
  function Mass(count: nat, p: real): real {
    count as real * p
  }

  function Events(combinations: seq<set<int>>, p: real): (r: seq<CcfEvent>)
    ensures |r| == |combinations| && forall i | 0 <= i < |r| :: r[i] == CcfEvent(combinations[i], p)
  {
    seq(|combinations|, i requires 0 <= i < |combinations| => CcfEvent(combinations[i], p))
  }

  /** The events of all levels. */
  function AllEvents(n: nat, levels: seq<Level>): seq<CcfEvent> {
    if levels == [] then [] else
      var last := levels[|levels| - 1];
      AllEvents(n, levels[..|levels| - 1]) + Events(Subsets(0, n, last.size), last.probability)
  }

  /** The events in which a member fails, by position. */
  function Containing(events: seq<CcfEvent>, m: int): (r: seq<nat>)
    ensures forall e :: e in r <==> 0 <= e < |events| && m in events[e].members
    ensures forall i, j | 0 <= i < j < |r| :: r[i] < r[j]
  {
    if events == [] then [] else
      var last := |events| - 1;
      var front := Containing(events[..last], m);
      assert forall i | 0 <= i < |front| :: front[i] in front;
      front + if m in events[last].members then [last] else []
  }

  /** The summed probability of the events in which a member fails. */
  function MemberSum(events: seq<CcfEvent>, m: int): real {
    if events == [] then 0.0 else
      var last := events[|events| - 1];
      MemberSum(events[..|events| - 1], m) + if m in last.members then last.probability else 0.0
  }

  lemma {:induction false} MemberSumConcat(s: seq<CcfEvent>, t: seq<CcfEvent>, m: int)
    ensures MemberSum(s + t, m) == MemberSum(s, m) + MemberSum(t, m)
  {
    if t == [] {
      assert s + t == s;
    } else {
      MemberSumConcat(s, t[..|t| - 1], m);
      assert (s + t)[..|s + t| - 1] == s + t[..|t| - 1];
    }
  }

  /** The summed probability of the events in which all of some members fail, together with
      others so that their number is within the given bounds. */
  function SumOver(events: seq<CcfEvent>, together: set<int>, least: nat, most: nat): real {
    if events == [] then 0.0 else
      var last := events[|events| - 1];
      SumOver(events[..|events| - 1], together, least, most)
      + if together <= last.members && least <= |last.members| <= most then last.probability else 0.0
  }

  lemma {:induction false} SumOverConcat(s: seq<CcfEvent>, t: seq<CcfEvent>, together: set<int>, least: nat, most: nat)
    ensures SumOver(s + t, together, least, most) == SumOver(s, together, least, most) + SumOver(t, together, least, most)
  {
    if t == [] {
      assert s + t == s;
    } else {
      SumOverConcat(s, t[..|t| - 1], together, least, most);
      assert (s + t)[..|s + t| - 1] == s + t[..|t| - 1];
    }
  }

  /** Events with the same number of members. */
  lemma {:induction false} SumOverLevel(sets: seq<set<int>>, p: real, m: int, k: nat, least: nat, most: nat)
    requires forall i | 0 <= i < |sets| :: |sets[i]| == k
    ensures SumOver(Events(sets, p), {m}, least, most) == if least <= k <= most then MemberSum(Events(sets, p), m) else 0.0
    ensures SumOver(Events(sets, p), {}, least, most) == if least <= k <= most then Mass(|sets|, p) else 0.0
  {
    if sets != [] {
      var last := |sets| - 1;
      SumOverLevel(sets[..last], p, m, k, least, most);
      assert Events(sets, p)[..last] == Events(sets[..last], p);
      assert {m} <= sets[last] <==> m in sets[last];
    }
  }

  lemma LevelSums(n: nat, k: nat, p: real, m: int, least: nat, most: nat)
    requires 0 <= m < n && 0 < k
    ensures SumOver(Events(Subsets(0, n, k), p), {m}, least, most) == if least <= k <= most then Mass(Choose(n - 1, k - 1), p) else 0.0
    ensures SumOver(Events(Subsets(0, n, k), p), {}, least, most) == if least <= k <= most then Mass(Choose(n, k), p) else 0.0
  {
    hide Subsets, Choose, Mass, SumOver, MemberSum, Events;
    forall i | 0 <= i < |Subsets(0, n, k)|
      ensures |Subsets(0, n, k)[i]| == k
    {
      SubsetsAre(0, n, k, i);
    }
    SumOverLevel(Subsets(0, n, k), p, m, k, least, most);
    LevelSum(0, n, k, p, m);
    SubsetsCount(0, n, k);
  }

  /** The same number of events, with the member in all of them or in none. */
  lemma {:induction false} MemberSumUniform(sets: seq<set<int>>, p: real, m: int, inside: bool)
    requires forall i | 0 <= i < |sets| :: (m in sets[i]) == inside
    ensures MemberSum(Events(sets, p), m) == if inside then Mass(|sets|, p) else 0.0
  {
    if sets != [] {
      MemberSumUniform(sets[..|sets| - 1], p, m, inside);
      assert Events(sets, p)[..|sets| - 1] == Events(sets[..|sets| - 1], p);
    }
  }

  lemma {:induction false} MemberSumAdded(sets: seq<set<int>>, p: real, m: int, x: int)
    requires m != x
    ensures MemberSum(Events(AddToEach(sets, x), p), m) == MemberSum(Events(sets, p), m)
  {
    if sets != [] {
      var last := |sets| - 1;
      MemberSumAdded(sets[..last], p, m, x);
      assert AddToEach(sets, x)[..last] == AddToEach(sets[..last], x);
      assert Events(sets, p)[..last] == Events(sets[..last], p);
      assert Events(AddToEach(sets, x), p)[..last] == Events(AddToEach(sets, x)[..last], p);
    }
  }

  lemma LevelParts(lo: nat, n: nat, k: nat, p: real, m: int)
    requires lo < n && k > 0
    ensures MemberSum(Events(Subsets(lo, n, k), p), m)
         == MemberSum(Events(AddToEach(Subsets(lo + 1, n, k - 1), lo), p), m) + MemberSum(Events(Subsets(lo + 1, n, k), p), m)
  {
    hide MemberSum;
    var with, without := AddToEach(Subsets(lo + 1, n, k - 1), lo), Subsets(lo + 1, n, k);
    assert Events(with + without, p) == Events(with, p) + Events(without, p);
    MemberSumConcat(Events(with, p), Events(without, p), m);
  }

  lemma Pascal(n: nat, k: nat, p: real)
    requires k > 0
    ensures Mass(Choose(n + 1, k), p) == Mass(Choose(n, k - 1), p) + Mass(Choose(n, k), p)
  {
  }

  lemma FirstIn(lo: nat, n: nat, k: nat, p: real)
    requires lo < n && k > 0
    ensures MemberSum(Events(AddToEach(Subsets(lo + 1, n, k - 1), lo), p), lo) == Mass(Choose(n - lo - 1, k - 1), p)
    ensures MemberSum(Events(Subsets(lo + 1, n, k), p), lo) == 0.0
  {
    hide MemberSum, Subsets, Choose, Mass;
    SubsetsCount(lo + 1, n, k - 1);
    MemberSumUniform(AddToEach(Subsets(lo + 1, n, k - 1), lo), p, lo, true);
    var without := Subsets(lo + 1, n, k);
    forall i | 0 <= i < |without|
      ensures lo !in without[i]
    {
      SubsetsAre(lo + 1, n, k, i);
    }
    MemberSumUniform(without, p, lo, false);
  }

  lemma NobodyFails(lo: nat, n: nat, p: real, m: int)
    requires lo <= n
    ensures MemberSum(Events(Subsets(lo, n, 0), p), m) == 0.0
  {
    MemberSumUniform([{}], p, m, false);
  }

  /** A member fails in C(n - 1, k - 1) of the events of k members. */
  lemma {:induction false} LevelSum(lo: nat, n: nat, k: nat, p: real, m: int)
    requires lo <= m < n && k > 0
    ensures MemberSum(Events(Subsets(lo, n, k), p), m) == Mass(Choose(n - lo - 1, k - 1), p)
    decreases n - lo
  {
    hide MemberSum, Subsets, Mass;
    LevelParts(lo, n, k, p, m);
    if m == lo {
      FirstIn(lo, n, k, p);
    } else {
      MemberSumAdded(Subsets(lo + 1, n, k - 1), p, m, lo);
      LevelSum(lo + 1, n, k, p, m);
      if k == 1 {
        NobodyFails(lo + 1, n, p, m);
      } else {
        LevelSum(lo + 1, n, k - 1, p, m);
        hide Choose;
        Pascal(n - lo - 2, k - 1, p);
      }
    }
  }

  /** The share of the levels in the failures of one member. */
  function Share(n: nat, levels: seq<Level>): real
    requires n > 0 && forall i | 0 <= i < |levels| :: levels[i].size > 0
  {
    if levels == [] then 0.0 else
      var last := levels[|levels| - 1];
      Share(n, levels[..|levels| - 1]) + Mass(Choose(n - 1, last.size - 1), last.probability)
  }

  lemma {:induction false} ShareOfMember(n: nat, levels: seq<Level>, m: int)
    requires 0 <= m < n && forall i | 0 <= i < |levels| :: levels[i].size > 0
    ensures MemberSum(AllEvents(n, levels), m) == Share(n, levels)
  {
    hide Subsets, Choose, Events, Mass;
    if levels != [] {
      var last := levels[|levels| - 1];
      ShareOfMember(n, levels[..|levels| - 1], m);
      LevelSum(0, n, last.size, last.probability, m);
      MemberSumConcat(AllEvents(n, levels[..|levels| - 1]), Events(Subsets(0, n, last.size), last.probability), m);
    }
  }

  predicate Positive(levels: seq<Level>) {
    forall i | 0 <= i < |levels| :: levels[i].size > 0
  }

  /** The events of a level in which a member fails carry a fraction of its probability. */
  predicate Carries(n: nat, level: Level, fraction: real, q: real) {
    0 < level.size <= n && Mass(Choose(n - 1, level.size - 1), level.probability) == fraction * q
  }

  /** So do the events of all levels. */
  predicate Distributes(n: nat, levels: seq<Level>, fractions: seq<real>, q: real) {
    |levels| == |fractions| && forall i | 0 <= i < |levels| :: Carries(n, levels[i], fractions[i], q)
  }

  lemma {:induction false} ShareOfFractions(n: nat, levels: seq<Level>, fractions: seq<real>, q: real)
    requires n > 0 && Distributes(n, levels, fractions, q)
    ensures Positive(levels) && Share(n, levels) == Sum(fractions) * q
  {
    hide Mass, Choose;
    if levels != [] {
      var last := |levels| - 1;
      ShareOfFractions(n, levels[..last], fractions[..last], q);
      assert (Sum(fractions[..last]) + fractions[last]) * q == Sum(fractions[..last]) * q + fractions[last] * q;
    }
  }

  /** C(n - 1, k - 1) events with a share of 1 / C(n - 1, k - 1). */
  lemma Divided(n: nat, size: nat, reciprocal: real, fraction: real, q: real)
    requires 0 < size <= n && reciprocal * Choose(n - 1, size - 1) as real == 1.0
    ensures Carries(n, Level(size, reciprocal * (fraction * q)), fraction, q)
  {
    hide Choose;
    var count := Choose(n - 1, size - 1) as real;
    Reassociate(count, reciprocal, fraction * q);
  }

  lemma Reassociate(a: real, b: real, x: real)
    requires b * a == 1.0
    ensures a * (b * x) == x
  {
    assert a * (b * x) == b * a * x;
  }

  // The beta-factor model: a member fails alone or with all others.

  function BetaFractions(beta: real): seq<real> {
    [1.0 - beta, beta]
  }

  method BetaProbabilities(n: nat, beta: real, q: real) returns (levels: seq<Level>)
    requires n >= 2
    ensures Distributes(n, levels, BetaFractions(beta), q)
    ensures |levels| == 2 && levels[0].size == 1 && levels[1].size == n
    ensures levels[0].probability == (1.0 - beta) * q && levels[1].probability == beta * q
  {
    levels := [Level(1, (1.0 - beta) * q), Level(n, beta * q)];
    ChooseBounds(n - 1, n - 1);
    ChooseNone(n - 1);
  }

  // The multiple Greek letters model: a factor is the fraction of failures of at least k
  // members among those of at least k - 1 members.

  function Product(factors: seq<real>): real {
    if factors == [] then 1.0 else Product(factors[..|factors| - 1]) * factors[|factors| - 1]
  }

  function MglFraction(factors: seq<real>, i: nat): real
    requires i <= |factors|
  {
    Product(factors[..i]) * if i < |factors| then 1.0 - factors[i] else 1.0
  }

  function MglFractions(factors: seq<real>): (r: seq<real>)
    ensures |r| == |factors| + 1 && forall i | 0 <= i <= |factors| :: r[i] == MglFraction(factors, i)
  {
    seq(|factors| + 1, i requires 0 <= i <= |factors| => MglFraction(factors, i))
  }

  method MglProbabilities(n: nat, factors: seq<real>, q: real) returns (levels: seq<Level>)
    requires n > |factors|
    ensures Distributes(n, levels, MglFractions(factors), q)
    ensures forall i | 0 <= i < |levels| :: levels[i].size == i + 1
  {
    hide Carries, Choose, Product;
    levels := [];
    for i := 0 to |factors| + 1
      invariant |levels| == i
      invariant forall j | 0 <= j < i :: levels[j].size == j + 1
      invariant forall j | 0 <= j < i :: Carries(n, levels[j], MglFraction(factors, j), q)
    {
      var multiplier := CalculateCombinationReciprocal(n - 1, i);
      var product := FactorProduct(factors, i);
      if i < |factors| {
        product := product * (1.0 - factors[i]);
      }
      assert product == MglFraction(factors, i);
      Divided(n, i + 1, multiplier, product, q);
      levels := levels + [Level(i + 1, multiplier * (product * q))];
    }
  }

  method FactorProduct(factors: seq<real>, i: nat) returns (product: real)
    requires i <= |factors|
    ensures product == Product(factors[..i])
  {
    product := 1.0;
    for j := 0 to i
      invariant product == Product(factors[..j])
    {
      assert factors[..j + 1][..j] == factors[..j];
      product := product * factors[j];
    }
  }

  /** The fractions telescope. */
  lemma {:induction false} MglTelescopes(factors: seq<real>, t: nat)
    requires t <= |factors|
    ensures Sum(MglFractions(factors)[..t]) == 1.0 - Product(factors[..t])
  {
    if t > 0 {
      MglTelescopes(factors, t - 1);
      assert MglFractions(factors)[..t][..t - 1] == MglFractions(factors)[..t - 1];
      assert factors[..t][..t - 1] == factors[..t - 1];
    }
  }

  lemma MglComplete(factors: seq<real>)
    ensures Sum(MglFractions(factors)) == 1.0
  {
    MglTelescopes(factors, |factors|);
    assert factors[..|factors|] == factors;
  }

  // The alpha-factor model: a factor is the fraction of events of exactly k members.

  /** The sum of the first factors, each times its level. */
  function Weighted(factors: seq<real>): real {
    if factors == [] then 0.0
    else Weighted(factors[..|factors| - 1]) + |factors| as real * factors[|factors| - 1]
  }

  function Ratio(a: real, b: real): real
    requires b != 0.0
  {
    a / b
  }

  function AlphaFraction(i: nat, factor: real, sum: real): real
    requires sum != 0.0
  {
    (i + 1) as real * Ratio(factor, sum)
  }

  function AlphaFractions(factors: seq<real>): (r: seq<real>)
    requires Weighted(factors) != 0.0
    ensures |r| == |factors|
    ensures forall i | 0 <= i < |factors| :: r[i] == AlphaFraction(i, factors[i], Weighted(factors))
  {
    seq(|factors|, i requires 0 <= i < |factors| => AlphaFraction(i, factors[i], Weighted(factors)))
  }

  method AlphaProbabilities(n: nat, factors: seq<real>, q: real) returns (levels: seq<Level>)
    requires n >= |factors| && n > 0 && Weighted(factors) != 0.0
    ensures Distributes(n, levels, AlphaFractions(factors), q)
    ensures forall i | 0 <= i < |levels| :: levels[i].size == i + 1
  {
    hide Carries, Choose, Weighted;
    var sum := WeightedSum(factors);
    levels := [];
    for i := 0 to |factors|
      invariant |levels| == i
      invariant forall j | 0 <= j < i :: levels[j].size == j + 1
      invariant forall j | 0 <= j < i :: Carries(n, levels[j], AlphaFraction(j, factors[j], sum), q)
    {
      var multiplier := CalculateCombinationReciprocal(n - 1, i);
      var fraction := AlphaFraction(i, factors[i], sum);
      Divided(n, i + 1, multiplier, fraction, q);
      levels := levels + [Level(i + 1, multiplier * (fraction * q))];
    }
  }

  method WeightedSum(factors: seq<real>) returns (sum: real)
    ensures sum == Weighted(factors)
  {
    sum := 0.0;
    for i := 0 to |factors|
      invariant sum == Weighted(factors[..i])
    {
      assert factors[..i + 1][..i] == factors[..i];
      sum := sum + (i + 1) as real * factors[i];
    }
    assert factors[..|factors|] == factors;
  }

  lemma {:induction false} AlphaPartial(factors: seq<real>, t: nat)
    requires t <= |factors| && Weighted(factors) != 0.0
    ensures Sum(AlphaFractions(factors)[..t]) == Ratio(Weighted(factors[..t]), Weighted(factors))
  {
    hide Weighted, Ratio, AlphaFraction;
    if t == 0 {
      NoWeight(Weighted(factors), factors[..0], AlphaFractions(factors)[..0]);
    } else {
      var i, fractions := t - 1, AlphaFractions(factors);
      AlphaPartial(factors, i);
      assert fractions[..t][..i] == fractions[..i];
      WeightedNext(factors, i);
      SumOfRatios(Weighted(factors[..i]), i, factors[i], Weighted(factors), Weighted(factors[..t]));
    }
  }

  lemma NoWeight(d: real, factors: seq<real>, fractions: seq<real>)
    requires d != 0.0 && |factors| == |fractions| == 0
    ensures Sum(fractions) == Ratio(Weighted(factors), d)
  {
  }

  lemma WholeRatio(d: real)
    requires d != 0.0
    ensures Ratio(d, d) == 1.0
  {
  }

  lemma WeightedNext(factors: seq<real>, i: nat)
    requires i < |factors|
    ensures Weighted(factors[..i + 1]) == Weighted(factors[..i]) + (i + 1) as real * factors[i]
  {
    assert factors[..i + 1][..i] == factors[..i];
  }

  lemma SumOfRatios(a: real, i: nat, c: real, d: real, total: real)
    requires d != 0.0 && total == a + (i + 1) as real * c
    ensures Ratio(a, d) + AlphaFraction(i, c, d) == Ratio(total, d)
  {
  }

  lemma AlphaComplete(factors: seq<real>)
    requires Weighted(factors) != 0.0
    ensures Sum(AlphaFractions(factors)) == 1.0
  {
    hide Weighted, Ratio, AlphaFraction;
    AlphaPartial(factors, |factors|);
    assert factors[..|factors|] == factors;
    assert AlphaFractions(factors)[..|factors|] == AlphaFractions(factors);
    WholeRatio(Weighted(factors));
  }

  // What the probabilities of the generated events say about the factors.

  /** The sums over all events, level by level. */
  lemma SumsNext(n: nat, levels: seq<Level>, m: int, least: nat, most: nat)
    requires levels != [] && levels[|levels| - 1].size > 0 && 0 <= m < n
    ensures var last := |levels| - 1;
            var k, p := levels[last].size, levels[last].probability;
            && SumOver(AllEvents(n, levels), {m}, least, most)
               == SumOver(AllEvents(n, levels[..last]), {m}, least, most) + (if least <= k <= most then Mass(Choose(n - 1, k - 1), p) else 0.0)
            && SumOver(AllEvents(n, levels), {}, least, most)
               == SumOver(AllEvents(n, levels[..last]), {}, least, most) + (if least <= k <= most then Mass(Choose(n, k), p) else 0.0)
  {
    hide Subsets, Choose, Mass, Events, SumOver;
    var last := |levels| - 1;
    var level := levels[last];
    LevelSums(n, level.size, level.probability, m, least, most);
    SumOverConcat(AllEvents(n, levels[..last]), Events(Subsets(0, n, level.size), level.probability), {m}, least, most);
    SumOverConcat(AllEvents(n, levels[..last]), Events(Subsets(0, n, level.size), level.probability), {}, least, most);
  }

  lemma CarriesPortion(n: nat, level: Level, fraction: real, q: real)
    requires Carries(n, level, fraction, q)
    ensures 0 < level.size <= n && Mass(Choose(n - 1, level.size - 1), level.probability) == Portion(fraction, q)
  {
  }

  /** The levels by number of members, with their fractions. */
  ghost predicate Graded(n: nat, levels: seq<Level>, fractions: seq<real>, q: real) {
    |levels| == |fractions| && forall i | 0 <= i < |levels| :: levels[i].size == i + 1 && Carries(n, levels[i], fractions[i], q)
  }

  lemma NoEvents(n: nat, together: set<int>, least: nat, most: nat)
    ensures SumOver(AllEvents(n, []), together, least, most) == 0.0
  {
  }

  /** The events of the first levels in which a member fails with at least `k - 1` others. */
  lemma {:induction false} TailOfLevels(n: nat, levels: seq<Level>, fractions: seq<real>, q: real, m: int, k: nat)
    requires 0 <= m < n && 0 < k && Graded(n, levels, fractions, q)
    ensures |levels| == |fractions|
    ensures SumOver(AllEvents(n, levels), {m}, k, n)
         == if |levels| < k then 0.0 else Portion(Sum(fractions) - Sum(fractions[..k - 1]), q)
  {
    hide Choose, Mass, AllEvents, SumOver, Portion, Carries;
    NoPortion(q);
    if levels == [] {
      NoEvents(n, {m}, k, n);
    } else {
      var last := |levels| - 1;
      assert Graded(n, levels[..last], fractions[..last], q);
      TailOfLevels(n, levels[..last], fractions[..last], q, m, k);
      CarriesPortion(n, levels[last], fractions[last], q);
      SumsNext(n, levels, m, k, n);
      if k <= last {
        assert fractions[..last][..k - 1] == fractions[..k - 1];
        PortionsAdd(Sum(fractions[..last]) - Sum(fractions[..k - 1]), fractions[last], q);
      } else if k == |levels| {
        assert fractions[..k - 1] == fractions[..last];
      }
    }
  }

  function Portion(fraction: real, q: real): real {
    fraction * q
  }

  lemma NoPortion(q: real)
    ensures Portion(0.0, q) == 0.0
  {
  }

  lemma PortionsAdd(a: real, b: real, q: real)
    ensures Portion(a, q) + Portion(b, q) == Portion(a + b, q)
  {
  }

  /** A factor of the multiple Greek letters model is the fraction of the failures of at least
      `k` members among those of at least `k - 1` members. */
  lemma MglMeaning(n: nat, factors: seq<real>, levels: seq<Level>, q: real, m: int, k: nat)
    requires 0 <= m < n && Distributes(n, levels, MglFractions(factors), q)
    requires forall i | 0 <= i < |levels| :: levels[i].size == i + 1
    ensures MglExplains(n, factors, AllEvents(n, levels), m, k)
  {
    if 2 <= k <= |factors| + 1 {
      MglTails(n, factors, levels, q, m, k);
    }
  }

  /** The failures of a member together with at least `k - 1` others. */
  lemma MglTail(n: nat, factors: seq<real>, levels: seq<Level>, q: real, m: int, k: nat)
    requires 0 <= m < n && 1 <= k <= |factors| + 1 && Distributes(n, levels, MglFractions(factors), q)
    requires forall i | 0 <= i < |levels| :: levels[i].size == i + 1
    ensures SumOver(AllEvents(n, levels), {m}, k, n) == Portion(Product(factors[..k - 1]), q)
  {
    hide AllEvents, SumOver, Portion, Carries, Product, Sum, MglFraction;
    assert Graded(n, levels, MglFractions(factors), q);
    TailOfLevels(n, levels, MglFractions(factors), q, m, k);
    MglComplete(factors);
    MglTelescopes(factors, k - 1);
  }

  lemma MglTails(n: nat, factors: seq<real>, levels: seq<Level>, q: real, m: int, k: nat)
    requires 0 <= m < n && 2 <= k <= |factors| + 1 && Distributes(n, levels, MglFractions(factors), q)
    requires forall i | 0 <= i < |levels| :: levels[i].size == i + 1
    ensures SumOver(AllEvents(n, levels), {m}, k, n) == factors[k - 2] * SumOver(AllEvents(n, levels), {m}, k - 1, n)
  {
    hide *;
    MglTail(n, factors, levels, q, m, k);
    MglTail(n, factors, levels, q, m, k - 1);
    ProductNext(factors, k - 1);
    ProductShare(Product(factors[..k - 1]), Product(factors[..k - 2]), factors[k - 2], q,
                 SumOver(AllEvents(n, levels), {m}, k, n), SumOver(AllEvents(n, levels), {m}, k - 1, n));
  }

  lemma ProductNext(factors: seq<real>, t: nat)
    requires 0 < t <= |factors|
    ensures Product(factors[..t]) == Product(factors[..t - 1]) * factors[t - 1]
  {
    assert factors[..t][..t - 1] == factors[..t - 1];
  }

  lemma ProductShare(product: real, before: real, factor: real, q: real, tail: real, longer: real)
    requires product == before * factor && tail == Portion(product, q) && longer == Portion(before, q)
    ensures tail == factor * longer
  {
  }

  /** The events of a level of the alpha-factor model. */
  lemma AlphaLevel(n: nat, level: Level, i: nat, factor: real, weight: real, q: real)
    requires n > 0 && weight != 0.0 && level.size == i + 1 && Carries(n, level, AlphaFraction(i, factor, weight), q)
    ensures Mass(Choose(n, level.size), level.probability) == Portion(Ratio(factor, weight), n as real * q)
  {
    hide Choose, Ratio;
    Absorption(n, i + 1);
    ProductAsReal(i + 1, Choose(n, i + 1));
    ProductAsReal(n, Choose(n - 1, i));
    AlphaStep((i + 1) as real, Choose(n, i + 1) as real, n as real, Choose(n - 1, i) as real, level.probability, Ratio(factor, weight), q);
  }

  lemma AlphaStep(k: real, all: real, n: real, part: real, p: real, ratio: real, q: real)
    requires k > 0.0 && k * all == n * part && part * p == k * ratio * q
    ensures all * p == ratio * (n * q)
  {
    AlphaLeft(k, all, n, part, p);
    AlphaRight(k, n, ratio, q);
    Cancel(k, all * p, ratio * (n * q));
  }

  lemma AlphaLeft(k: real, all: real, n: real, part: real, p: real)
    requires k * all == n * part
    ensures k * (all * p) == n * (part * p)
  {
    assert k * (all * p) == k * all * p;
    assert n * (part * p) == n * part * p;
  }

  lemma AlphaRight(k: real, n: real, ratio: real, q: real)
    ensures n * (k * ratio * q) == k * (ratio * (n * q))
  {
  }

  lemma {:induction false} AlphaSums(n: nat, factors: seq<real>, weight: real, fractions: seq<real>, levels: seq<Level>, q: real, k: nat)
    requires n > 0 && weight != 0.0 && Graded(n, levels, fractions, q) && |factors| == |levels|
    requires forall i | 0 <= i < |levels| :: fractions[i] == AlphaFraction(i, factors[i], weight)
    ensures SumOver(AllEvents(n, levels), {}, 0, n) == Portion(Ratio(Sum(factors), weight), n as real * q)
    ensures 1 <= k <= |levels| ==> SumOver(AllEvents(n, levels), {}, k, k) == Portion(Ratio(factors[k - 1], weight), n as real * q)
    ensures k > |levels| ==> SumOver(AllEvents(n, levels), {}, k, k) == 0.0
  {
    hide Choose, Mass, AllEvents, SumOver, Portion, AlphaFraction, Ratio, Carries;
    var x := n as real * q;
    if levels == [] {
      NoRatio(weight);
      NoPortion(x);
      NoEvents(n, {}, 0, n);
      NoEvents(n, {}, k, k);
    } else {
      var last := |levels| - 1;
      assert Graded(n, levels[..last], fractions[..last], q);
      AlphaSums(n, factors[..last], weight, fractions[..last], levels[..last], q, k);
      AlphaLevel(n, levels[last], last, factors[last], weight, q);
      CarriesPortion(n, levels[last], fractions[last], q);
      SumsNext(n, levels, 0, 0, n);
      SumsNext(n, levels, 0, k, k);
      RatioShares(Sum(factors[..last]), factors[last], weight, x);
    }
  }

  lemma NoRatio(weight: real)
    requires weight != 0.0
    ensures Ratio(0.0, weight) == 0.0
  {
  }

  lemma RatioShares(a: real, b: real, weight: real, x: real)
    requires weight != 0.0
    ensures Portion(Ratio(a, weight), x) + Portion(Ratio(b, weight), x) == Portion(Ratio(a + b, weight), x)
  {
    assert a / weight + b / weight == (a + b) / weight;
  }

  /** A factor of the alpha-factor model is in proportion to the summed probability of the events
      with exactly `k` members. */
  lemma AlphaMeaning(n: nat, factors: seq<real>, levels: seq<Level>, q: real, k: nat)
    requires n > 0 && Weighted(factors) != 0.0 && Distributes(n, levels, AlphaFractions(factors), q)
    requires forall i | 0 <= i < |levels| :: levels[i].size == i + 1
    ensures AlphaExplains(n, factors, AllEvents(n, levels), k)
  {
    hide AllEvents, SumOver, Weighted, Portion, Ratio, AlphaFraction, Carries;
    assert Graded(n, levels, AlphaFractions(factors), q);
    AlphaSums(n, factors, Weighted(factors), AlphaFractions(factors), levels, q, k);
    if 1 <= k <= |factors| {
      CrossRatio(Sum(factors), factors[k - 1], Weighted(factors), n as real * q);
    }
  }

  lemma CrossRatio(a: real, b: real, weight: real, x: real)
    requires weight != 0.0
    ensures a * Portion(Ratio(b, weight), x) == b * Portion(Ratio(a, weight), x)
  {
    var u, v := Ratio(a, weight), Ratio(b, weight);
    assert u * weight == a && v * weight == b;
    CrossProducts(u, v, weight, x);
  }

  lemma CrossProducts(u: real, v: real, weight: real, x: real)
    ensures u * weight * (v * x) == v * weight * (u * x)
  {
  }

  /** The events of the beta-factor model. */
  lemma BetaMeaning(n: nat, beta: real, levels: seq<Level>, q: real, e: CcfEvent)
    requires n >= 2 && Distributes(n, levels, BetaFractions(beta), q)
    requires |levels| == 2 && levels[0].size == 1 && levels[1].size == n && e in AllEvents(n, levels)
    ensures BetaExplains(n, beta, q, e)
  {
    assert Carries(n, levels[0], 1.0 - beta, q) && Carries(n, levels[1], beta, q);
    ChooseNone(n - 1);
    ChooseBounds(n - 1, n - 1);
    assert levels[0].probability == (1.0 - beta) * q && levels[1].probability == beta * q;
    var i := EventOfLevel(n, levels, e);
  }

  lemma {:induction false} EventOfLevel(n: nat, levels: seq<Level>, e: CcfEvent) returns (i: nat)
    requires e in AllEvents(n, levels)
    ensures i < |levels| && |e.members| == levels[i].size && e.probability == levels[i].probability && e.members <= Range(0, n)
  {
    var last := |levels| - 1;
    var level := levels[last];
    var sets := Subsets(0, n, level.size);
    hide Subsets;
    if e in AllEvents(n, levels[..last]) {
      i := EventOfLevel(n, levels[..last], e);
    } else {
      i := last;
      var j :| 0 <= j < |sets| && e == Events(sets, level.probability)[j];
      SubsetsAre(0, n, level.size, j);
    }
  }

  /** Every set of members of the size of some level fails together in an event. */
  lemma {:induction false} EventOfSet(n: nat, levels: seq<Level>, i: nat, together: set<int>) returns (e: CcfEvent)
    requires i < |levels| && together <= Range(0, n) && |together| == levels[i].size
    ensures e in AllEvents(n, levels) && e.members == together
  {
    var last := |levels| - 1;
    var level := levels[last];
    hide Subsets;
    if i == last {
      var j := SubsetsComplete(0, n, level.size, together);
      e := Events(Subsets(0, n, level.size), level.probability)[j];
    } else {
      e := EventOfSet(n, levels[..last], i, together);
    }
  }

  /** The events of the last level come last. */
  lemma EventAt(n: nat, levels: seq<Level>, i: nat)
    requires levels != [] && i < |AllEvents(n, levels)|
    ensures var before, sets := AllEvents(n, levels[..|levels| - 1]), Subsets(0, n, levels[|levels| - 1].size);
            && |AllEvents(n, levels)| == |before| + |sets|
            && if i < |before| then AllEvents(n, levels)[i] == before[i] else AllEvents(n, levels)[i].members == sets[i - |before|]
  {
    hide Subsets;
  }

  ghost predicate Different(levels: seq<Level>) {
    forall k, l | 0 <= k < l < |levels| :: levels[k].size != levels[l].size
  }

  lemma SomeLevel(n: nat, levels: seq<Level>, i: nat)
    requires i < |AllEvents(n, levels)|
    ensures levels != []
  {
  }

  /** No set of members has two events. */
  lemma {:induction false} EventsDiffer(n: nat, levels: seq<Level>, i: nat, j: nat)
    requires i < j < |AllEvents(n, levels)| && Different(levels)
    ensures AllEvents(n, levels)[i].members != AllEvents(n, levels)[j].members
  {
    hide Subsets, Events, AllEvents;
    SomeLevel(n, levels, i);
    var last := |levels| - 1;
    EventAt(n, levels, i);
    EventAt(n, levels, j);
    var before, size := AllEvents(n, levels[..last]), levels[last].size;
    if j < |before| {
      assert Different(levels[..last]);
      EventsDiffer(n, levels[..last], i, j);
    } else if i < |before| {
      assert before[i] in before;
      var k := EventOfLevel(n, levels[..last], before[i]);
      SubsetsAre(0, n, size, j - |before|);
    } else {
      SubsetsDistinct(0, n, size, i - |before|, j - |before|);
    }
  }

  function Values(factors: seq<Factor>): (r: seq<real>)
    requires forall i | 0 <= i < |factors| :: factors[i].Factor?
    ensures |r| == |factors| && forall i | 0 <= i < |r| :: r[i] == factors[i].value
  {
    seq(|factors|, i requires 0 <= i < |factors| => factors[i].value)
  }

  /** The fractions of the failures of a member by level. */
  function LevelFractions(model: Model, values: seq<real>): seq<real>
    requires values != []
    requires model.AlphaFactor? ==> Weighted(values) != 0.0
  {
    match model
    case BetaFactor => BetaFractions(values[0])
    case Mgl => MglFractions(values)
    case AlphaFactor => AlphaFractions(values)
  }

  lemma FractionsSum(model: Model, values: seq<real>)
    requires values != []
    requires model.AlphaFactor? ==> Weighted(values) != 0.0
    ensures Sum(LevelFractions(model, values)) == 1.0
  {
    match model
    case BetaFactor =>
      var beta := values[0];
      assert [1.0 - beta, beta][..1] == [1.0 - beta];
      assert Sum([1.0 - beta]) == 1.0 - beta;
    case Mgl => MglComplete(values);
    case AlphaFactor => AlphaComplete(values);
  }

  /** The numbers of members in the events of each level: 1 and all for the beta-factor model,
      each number from 1 on for the others. */
  predicate Sized(model: Model, n: nat, factors: nat, levels: seq<Level>) {
    match model
    case BetaFactor => |levels| == 2 && levels[0].size == 1 && levels[1].size == n
    case Mgl => |levels| == factors + 1 && forall i | 0 <= i < |levels| :: levels[i].size == i + 1
    case AlphaFactor => |levels| == factors && forall i | 0 <= i < |levels| :: levels[i].size == i + 1
  }

  class CcfGroup {
    const model: Model
    var members: seq<string>
    var distribution: Option<real>
    var factors: seq<Factor>
    var prevLevel: int
    var ccfEvents: seq<CcfEvent>
    /** For each member, the arguments of the OR gate that stands for it. */
    var proxies: seq<seq<nat>>

    function MinLevel(): int
      reads this`members
    {
      match model
      case BetaFactor => |members|
      case Mgl => 2
      case AlphaFactor => 1
    }

    /** The factors stand at consecutive levels up to the number of members. */
    predicate Valid()
      reads this
    {
      && (forall i, j | 0 <= i < j < |members| :: members[i] != members[j])
      && (distribution.Some? ==> |members| >= 2)
      && (factors != [] ==> members != [] && MinLevel() + |factors| <= |members| + 1)
      && forall i | 0 <= i < |factors| :: factors[i].Factor? ==> factors[i].level == MinLevel() + i
    }

    /** What validation establishes. */
    predicate Validated()
      reads this
    {
      && distribution.Some? && IsProbability(distribution.value)
      && factors != []
      && forall i | 0 <= i < |factors| :: factors[i].Factor? && IsProbability(factors[i].value)
    }

    constructor (model: Model)
      ensures Valid() && this.model == model && members == [] && distribution.None? && factors == []
    {
      this.model := model;
      members, distribution, factors, prevLevel, ccfEvents, proxies := [], None, [], 0, [], [];
    }

    method AddMember(name: string) returns (r: Outcome)
      requires Valid()
      modifies this`members
      ensures Valid()
      ensures r == if distribution.Some? || factors != [] then LogicError
                   else if name in old(members) then DuplicateElementError
                   else Done
      ensures members == if r.Done? then old(members) + [name] else old(members)
    {
      if distribution.Some? || factors != [] {
        return LogicError;
      }
      if name in members {
        return DuplicateElementError;
      }
      members := members + [name];
      r := Done;
    }

    method AddDistribution(q: real) returns (r: Outcome)
      requires Valid()
      modifies this`distribution
      ensures Valid()
      ensures r == if old(distribution).Some? then LogicError else if |members| < 2 then ValidityError else Done
      ensures distribution == if r.Done? then Some(q) else old(distribution)
    {
      if distribution.Some? {
        return LogicError;
      }
      if |members| < 2 {
        return ValidityError;
      }
      distribution := Some(q);
      r := Done;
    }

    /** The level of a factor without a given level is the one after the last. */
    function NextLevel(level: Option<int>): int
      reads this`members, this`prevLevel
    {
      match level
      case Some(l) => l
      case None => if prevLevel != 0 then prevLevel + 1 else MinLevel()
    }

    method AddFactor(value: real, level: Option<int>) returns (r: Outcome)
      requires Valid()
      modifies this`factors, this`prevLevel
      ensures Valid()
      ensures var l := old(NextLevel(level));
              var index := l - MinLevel();
              && r == (if l <= 0 || members == [] then LogicError
                       else if l < MinLevel() || |members| < l then ValidityError
                       else if index < |old(factors)| && old(factors)[index].Factor? then ValidityError
                       else Done)
              && if r.Done?
                 then && prevLevel == l
                      && |factors| == (if index < |old(factors)| then |old(factors)| else index + 1)
                      && (forall i | 0 <= i < |factors| ::
                            factors[i] == if i == index then Factor(l, value)
                                          else if i < |old(factors)| then old(factors)[i] else Missing)
                 else prevLevel == old(prevLevel) && factors == old(factors)
      ensures r.Done? ==> Factor(prevLevel, value) in factors
      ensures r.Done? && level.Some? ==> prevLevel == level.value
      ensures r.Done? && level.None? ==>
                prevLevel == if old(prevLevel) != 0 then old(prevLevel) + 1
                             else match model
                                  case BetaFactor => |members|
                                  case Mgl => 2
                                  case AlphaFactor => 1
    {
      var l := NextLevel(level);
      if l <= 0 || members == [] {
        return LogicError;
      }
      if l < MinLevel() {
        return ValidityError;
      }
      if |members| < l {
        return ValidityError;
      }
      var index := l - MinLevel();
      if index < |factors| && factors[index].Factor? {
        return ValidityError;
      }
      if index >= |factors| {
        factors := factors + seq(index + 1 - |factors|, _ => Missing);
      }
      factors := factors[index := Factor(l, value)];
      assert factors[index] == Factor(l, value);
      prevLevel := l;
      r := Done;
    }

    method Validate() returns (r: Outcome)
      requires Valid()
      ensures r.Done? <==> Validated()
      ensures r.Done? <==>
                && distribution.Some? && 0.0 <= distribution.value <= 1.0 && factors != []
                && forall i | 0 <= i < |factors| :: factors[i].Factor? && 0.0 <= factors[i].value <= 1.0
      ensures r == if distribution.None? || factors == [] then LogicError
                   else if !IsProbability(distribution.value) then DomainError
                   else r
    {
      if distribution.None? || members == [] || factors == [] {
        return LogicError;
      }
      if !IsProbability(distribution.value) {
        return DomainError;
      }
      for i := 0 to |factors|
        invariant forall j | 0 <= j < i :: factors[j].Factor? && IsProbability(factors[j].value)
      {
        if factors[i].Missing? {
          return ValidityError;
        }
        if !IsProbability(factors[i].value) {
          return DomainError;
        }
      }
      r := Done;
    }

    ghost function Fractions(): seq<real>
      reads this
      requires Valid() && Validated()
      requires model.AlphaFactor? ==> Weighted(Values(factors)) != 0.0
    {
      LevelFractions(model, Values(factors))
    }

    method CalculateProbabilities() returns (levels: seq<Level>)
      requires Valid() && Validated()
      requires model.AlphaFactor? ==> Weighted(Values(factors)) != 0.0
      ensures Distributes(|members|, levels, Fractions(), distribution.value)
      ensures Sized(model, |members|, |factors|, levels)
    {
      match model
      case BetaFactor => levels := BetaProbabilities(|members|, factors[0].value, distribution.value);
      case Mgl => levels := MglProbabilities(|members|, Values(factors), distribution.value);
      case AlphaFactor => levels := AlphaProbabilities(|members|, Values(factors), distribution.value);
    }

    /** Replaces every member with an OR over the events in which it fails. The probabilities
        of these events sum to the probability of the member, and those of each level to its
        fraction of it. The division of the alpha-factor model needs a factor that is not zero.
        Every member gets at least two events, as the code demands, unless an alpha-factor group
        has only the factor of level 1. */
    method ApplyModel()
      requires Valid() && Validated()
      requires model.AlphaFactor? ==> exists i | 0 <= i < |factors| :: factors[i].value > 0.0
      modifies this`ccfEvents, this`proxies
      ensures Valid() && Validated() && (model.AlphaFactor? ==> Weighted(Values(factors)) != 0.0)
      ensures exists levels: seq<Level> ::
                && Sized(model, |members|, |factors|, levels) && Distributes(|members|, levels, Fractions(), distribution.value)
                && ccfEvents == AllEvents(|members|, levels)
      ensures AllOnce(model, |members|, |factors|, ccfEvents)
      ensures Explains(model, |members|, Values(factors), distribution.value, ccfEvents)
      ensures |proxies| == |members|
      ensures forall m | 0 <= m < |members| :: proxies[m] == Containing(ccfEvents, m)
      ensures forall m | 0 <= m < |members| :: MemberSum(ccfEvents, m) == distribution.value
      ensures (forall m | 0 <= m < |members| :: |proxies[m]| >= 2) <==> !model.AlphaFactor? || |factors| > 1
      ensures model.AlphaFactor? && |factors| == 1 ==> forall m | 0 <= m < |members| :: |proxies[m]| == 1
    {
      hide Distributes, Carries, LevelFractions;
      if model.AlphaFactor? {
        WeightedPositive(Values(factors));
      }
      var levels := CalculateProbabilities();
      GenerateEvents(levels);
      Conservation(model, Values(factors), |members|, levels, distribution.value);
      if model.AlphaFactor? && |factors| == 1 {
        forall m | 0 <= m < |members|
          ensures |proxies[m]| == 1
        {
          FirstLevelAlone(|members|, levels, m);
        }
      }
      OnceInModel(model, |members|, |factors|, levels);
      ModelMeaning(model, |members|, Values(factors), levels, distribution.value);
      assert |proxies[0]| >= 2 || (model.AlphaFactor? && |factors| == 1);
    }

    method GenerateEvents(levels: seq<Level>)
      modifies this`ccfEvents, this`proxies
      ensures ccfEvents == AllEvents(|members|, levels)
      ensures |proxies| == |members| && forall m | 0 <= m < |members| :: proxies[m] == Containing(ccfEvents, m)
    {
      ccfEvents := [];
      proxies := seq(|members|, _ => []);
      for l := 0 to |levels|
        invariant ccfEvents == AllEvents(|members|, levels[..l])
        invariant |proxies| == |members| && forall m | 0 <= m < |members| :: proxies[m] == Containing(ccfEvents, m)
      {
        AddLevel(levels[l]);
        assert levels[..l + 1][..l] == levels[..l];
      }
      assert levels[..|levels|] == levels;
    }

    /** The events of one level. */
    method AddLevel(level: Level)
      requires |proxies| == |members| && forall m | 0 <= m < |members| :: proxies[m] == Containing(ccfEvents, m)
      modifies this`ccfEvents, this`proxies
      ensures ccfEvents == old(ccfEvents) + Events(Subsets(0, |members|, level.size), level.probability)
      ensures |proxies| == |members| && forall m | 0 <= m < |members| :: proxies[m] == Containing(ccfEvents, m)
    {
      var combinations := Subsets(0, |members|, level.size);
      for c := 0 to |combinations|
        invariant ccfEvents == old(ccfEvents) + Events(combinations[..c], level.probability)
        invariant |proxies| == |members| && forall m | 0 <= m < |members| :: proxies[m] == Containing(ccfEvents, m)
      {
        AddEvent(CcfEvent(combinations[c], level.probability));
      }
      assert combinations[..|combinations|] == combinations;
    }

    /** A new event becomes an argument of the proxies of its members. */
    method AddEvent(event: CcfEvent)
      requires |proxies| == |members| && forall m | 0 <= m < |members| :: proxies[m] == Containing(ccfEvents, m)
      modifies this`ccfEvents, this`proxies
      ensures ccfEvents == old(ccfEvents) + [event]
      ensures |proxies| == |members| && forall m | 0 <= m < |members| :: proxies[m] == Containing(ccfEvents, m)
    {
      var e := |ccfEvents|;
      for m := 0 to |members|
        modifies this`proxies
        invariant |proxies| == |members|
        invariant forall k | 0 <= k < |members| ::
                    proxies[k] == Containing(ccfEvents, k) + if k < m && k in event.members then [e] else []
      {
        if m in event.members {
          proxies := proxies[m := proxies[m] + [e]];
        }
      }
      ccfEvents := ccfEvents + [event];
      assert ccfEvents[..e] == old(ccfEvents);
    }
  }

  /** Which members can fail together. */
  ghost predicate Together(model: Model, n: nat, factors: nat, together: set<int>) {
    && (forall x <- together :: 0 <= x < n)
    && match model
       case BetaFactor => |together| == 1 || |together| == n
       case Mgl => 1 <= |together| <= factors + 1
       case AlphaFactor => 1 <= |together| <= factors
  }

  ghost predicate HasEvent(events: seq<CcfEvent>, together: set<int>) {
    exists i | 0 <= i < |events| :: events[i].members == together
  }

  /** Each possible set of members has one event. */
  ghost predicate AllOnce(model: Model, n: nat, factors: nat, events: seq<CcfEvent>) {
    && (forall i, j | 0 <= i < j < |events| :: events[i].members != events[j].members)
    && forall together: set<int> :: HasEvent(events, together) <==> Together(model, n, factors, together)
  }

  /** The probability of an event is the fraction of its number of members: all, or one. */
  ghost predicate BetaExplains(n: nat, beta: real, q: real, e: CcfEvent) {
    (|e.members| == n ==> e.probability == beta * q) && (|e.members| == 1 ==> e.probability == (1.0 - beta) * q)
  }

  /** Of the failures of a member together with at least `k - 2` others, the factor for `k` is the
      fraction of those with at least `k - 1` others. */
  ghost predicate MglExplains(n: nat, factors: seq<real>, events: seq<CcfEvent>, m: int, k: nat) {
    2 <= k <= |factors| + 1 ==>
      SumOver(events, {m}, k, n) == factors[k - 2] * SumOver(events, {m}, k - 1, n)
  }

  /** Of all events, those with exactly `k` members are in proportion to the factor for `k`. */
  ghost predicate AlphaExplains(n: nat, factors: seq<real>, events: seq<CcfEvent>, k: nat) {
    1 <= k <= |factors| ==>
      Sum(factors) * SumOver(events, {}, k, k) == factors[k - 1] * SumOver(events, {}, 0, n)
  }

  /** What the probabilities of the events say about the factors. */
  ghost predicate Explains(model: Model, n: nat, factors: seq<real>, q: real, events: seq<CcfEvent>)
    requires factors != []
  {
    match model
    case BetaFactor => forall e <- events :: BetaExplains(n, factors[0], q, e)
    case Mgl => forall m, k: nat | 0 <= m < n :: MglExplains(n, factors, events, m, k)
    case AlphaFactor => forall k: nat :: AlphaExplains(n, factors, events, k)
  }

  lemma SizedDiffer(model: Model, n: nat, factors: nat, levels: seq<Level>)
    requires Sized(model, n, factors, levels) && n >= 2
    ensures Different(levels)
  {
  }

  lemma SetsOfModel(model: Model, n: nat, factors: nat, levels: seq<Level>, together: set<int>)
    requires Sized(model, n, factors, levels) && n >= 2
    ensures HasEvent(AllEvents(n, levels), together) <==> Together(model, n, factors, together)
  {
    hide AllEvents;
    var events := AllEvents(n, levels);
    if j :| 0 <= j < |events| && events[j].members == together {
      var i := EventOfLevel(n, levels, events[j]);
    }
    if Together(model, n, factors, together) {
      var i := if model.BetaFactor? then (if |together| == 1 then 0 else 1) else |together| - 1;
      var e := EventOfSet(n, levels, i, together);
      var j :| 0 <= j < |events| && events[j] == e;
    }
  }

  lemma OnceInModel(model: Model, n: nat, factors: nat, levels: seq<Level>)
    requires Sized(model, n, factors, levels) && n >= 2
    ensures AllOnce(model, n, factors, AllEvents(n, levels))
  {
    hide AllEvents, HasEvent, Together, Sized;
    SizedDiffer(model, n, factors, levels);
    var events := AllEvents(n, levels);
    forall i, j | 0 <= i < j < |events|
      ensures events[i].members != events[j].members
    {
      EventsDiffer(n, levels, i, j);
    }
    forall together: set<int>
      ensures HasEvent(events, together) <==> Together(model, n, factors, together)
    {
      SetsOfModel(model, n, factors, levels, together);
    }
  }

  lemma ModelMeaning(model: Model, n: nat, values: seq<real>, levels: seq<Level>, q: real)
    requires values != [] && n >= 2 && (model.AlphaFactor? ==> Weighted(values) != 0.0)
    requires Sized(model, n, |values|, levels) && Distributes(n, levels, LevelFractions(model, values), q)
    ensures Explains(model, n, values, q, AllEvents(n, levels))
  {
    hide AllEvents, SumOver, Distributes, Weighted, BetaExplains, MglExplains, AlphaExplains, BetaFractions, MglFractions, AlphaFractions;
    var events := AllEvents(n, levels);
    match model
    case BetaFactor =>
      forall e <- events
        ensures BetaExplains(n, values[0], q, e)
      {
        BetaMeaning(n, values[0], levels, q, e);
      }
    case Mgl =>
      forall m, k: nat | 0 <= m < n
        ensures MglExplains(n, values, events, m, k)
      {
        MglMeaning(n, values, levels, q, m, k);
      }
    case AlphaFactor =>
      forall k: nat
        ensures AlphaExplains(n, values, events, k)
      {
        AlphaMeaning(n, values, levels, q, k);
      }
  }

  lemma DistributesSizes(n: nat, levels: seq<Level>, fractions: seq<real>, q: real)
    requires Distributes(n, levels, fractions, q)
    ensures Positive(levels) && forall i | 0 <= i < |levels| :: levels[i].size <= n
  {
  }

  lemma {:induction false} WeightedPositive(values: seq<real>)
    requires forall i | 0 <= i < |values| :: values[i] >= 0.0
    ensures Weighted(values) >= 0.0
    ensures Weighted(values) > 0.0 <==> exists i | 0 <= i < |values| :: values[i] > 0.0
  {
    if values != [] {
      var last := |values| - 1;
      WeightedPositive(values[..last]);
      assert |values| as real * values[last] >= 0.0;
      if i :| 0 <= i < |values| && values[i] > 0.0 {
        assert i == last || values[..last][i] > 0.0;
      }
    }
  }

  /** Counting events is summing probabilities of 1. */
  lemma {:induction false} ContainingCount(sets: seq<set<int>>, p: real, m: int)
    ensures |Containing(Events(sets, p), m)| as real == MemberSum(Events(sets, 1.0), m)
  {
    if sets != [] {
      var last := |sets| - 1;
      ContainingCount(sets[..last], p, m);
      assert Events(sets, p)[..last] == Events(sets[..last], p);
      assert Events(sets, 1.0)[..last] == Events(sets[..last], 1.0);
    }
  }

  /** Each member has one event of its own. */
  lemma FirstLevelAlone(n: nat, levels: seq<Level>, m: int)
    requires 0 <= m < n && |levels| == 1 && levels[0].size == 1
    ensures |Containing(AllEvents(n, levels), m)| == 1
  {
    var events := Events(Subsets(0, n, 1), levels[0].probability);
    assert levels[..0] == [] && AllEvents(n, []) == [];
    assert AllEvents(n, levels) == [] + events == events;
    ContainingCount(Subsets(0, n, 1), levels[0].probability, m);
    LevelSum(0, n, 1, 1.0, m);
    ChooseNone(n - 1);
  }

  /** An alpha-factor group of two members that has only the factor of level 1 is valid, but
      its members have only one event each. */
  method SingleAlphaFactor(a: string, b: string, q: real) returns (group: CcfGroup)
    requires a != b && IsProbability(q)
    ensures fresh(group) && group.Valid() && group.Validated() && group.model.AlphaFactor?
    ensures group.members == [a, b] && group.distribution == Some(q) && group.factors == [Factor(1, 1.0)]
    ensures |group.proxies| == 2 && |group.proxies[0]| == |group.proxies[1]| == 1
  {
    group := TwoMembers(a, b, q);
    var r := group.AddFactor(1.0, Some(1));
    assert group.factors[0] == Factor(1, 1.0);
    r := group.Validate();
    group.ApplyModel();
  }

  method TwoMembers(a: string, b: string, q: real) returns (group: CcfGroup)
    requires a != b
    ensures fresh(group) && group.Valid() && group.model.AlphaFactor?
    ensures group.members == [a, b] && group.distribution == Some(q) && group.factors == []
  {
    group := new CcfGroup(AlphaFactor);
    var r := group.AddMember(a);
    r := group.AddMember(b);
    r := group.AddDistribution(q);
  }

  lemma {:induction false} ContainingConcat(s: seq<CcfEvent>, t: seq<CcfEvent>, m: int)
    ensures |Containing(s + t, m)| == |Containing(s, m)| + |Containing(t, m)|
  {
    if t == [] {
      assert s + t == s;
    } else {
      var last := |t| - 1;
      ContainingConcat(s, t[..last], m);
      assert (s + t)[..|s + t| - 1] == s + t[..last];
    }
  }

  lemma {:induction false} SubsetWith(n: nat, k: nat, m: int) returns (s: set<int>)
    requires 0 <= m < n && 0 < k <= n
    ensures m in s && |s| == k && forall x <- s :: 0 <= x < n
  {
    if k == 1 {
      s := {m};
    } else {
      var t := SubsetWith(n, k - 1, m);
      assert t <= Range(0, n);
      assert |Range(0, n) - t| == n - (k - 1);
      var x := Sets.Some(Range(0, n) - t);
      s := t + {x};
    }
  }

  /** A member fails in an event of every level. */
  lemma {:induction false} EventOfEveryLevel(n: nat, levels: seq<Level>, m: int)
    requires 0 <= m < n && Positive(levels) && forall i | 0 <= i < |levels| :: levels[i].size <= n
    ensures |Containing(AllEvents(n, levels), m)| >= |levels|
  {
    hide Subsets;
    if levels != [] {
      var last := levels[|levels| - 1];
      EventOfEveryLevel(n, levels[..|levels| - 1], m);
      var events := Events(Subsets(0, n, last.size), last.probability);
      ContainingConcat(AllEvents(n, levels[..|levels| - 1]), events, m);
      var s := SubsetWith(n, last.size, m);
      var i := SubsetsComplete(0, n, last.size, s);
      assert i in Containing(events, m);
    }
  }

  /** Conservation: each member fails in the generated events with the probability of the
      group, whatever the model, the number of members and the levels. */
  lemma Conservation(model: Model, values: seq<real>, n: nat, levels: seq<Level>, q: real)
    requires values != [] && (model.AlphaFactor? ==> Weighted(values) != 0.0)
    requires Distributes(n, levels, LevelFractions(model, values), q)
    ensures Positive(levels) && forall i | 0 <= i < |levels| :: levels[i].size <= n
    ensures forall m | 0 <= m < n :: MemberSum(AllEvents(n, levels), m) == q
    ensures forall m | 0 <= m < n :: |Containing(AllEvents(n, levels), m)| >= |levels|
  {
    hide Distributes, LevelFractions;
    FractionsSum(model, values);
    DistributesSizes(n, levels, LevelFractions(model, values), q);
    forall m | 0 <= m < n
      ensures MemberSum(AllEvents(n, levels), m) == q && |Containing(AllEvents(n, levels), m)| >= |levels|
    {
      ShareOfFractions(n, levels, LevelFractions(model, values), q);
      ShareOfMember(n, levels, m);
      EventOfEveryLevel(n, levels, m);
    }
  }
}
