/** Importance factors of the variables from the total probability and the marginal factor. */
module Factors {
  import Sets
  import opened Indices
  import opened Vertices
  import opened Expectation
  import opened Diagrams
  import opened Importance
  import opened Analyzers

  datatype ImportanceFactors =
    ImportanceFactors(occurrence: nat, mif: real, cif: real, dif: real, raw: real, rrw: real)

  /** The factors of one variable. */
  method CalculateFactors(occurrence: nat, pTotal: real, pVar: real, mif: real, ghost pTrue: real, ghost pFalse: real)
      returns (f: ImportanceFactors)
    requires mif == pTrue - pFalse
    ensures f.occurrence == occurrence && f.mif == mif
    ensures pTotal == 0.0 ==> f.cif == f.dif == f.raw == f.rrw == 0.0
    ensures pTotal != 0.0 && pTotal == Mix(pVar, pTrue, pFalse) ==> Direct(f, pTotal, pVar, pTrue, pFalse)
    ensures pTotal != 0.0 && pTotal == 1.0 - Mix(pVar, pTrue, pFalse) ==> Mirrored(f, pTotal, pVar, 1.0 - pTrue, 1.0 - pFalse)
  {
    hide Direct, Mirrored, Mix;
    f := ImportanceFactors(occurrence, mif, 0.0, 0.0, 0.0, 0.0);
    if pTotal != 0.0 {
      f := f.(cif := pVar * mif / pTotal, raw := 1.0 + (1.0 - pVar) * mif / pTotal);
      f := f.(dif := pVar * f.raw);
      if pTotal != pVar * mif {
        f := f.(rrw := pTotal / (pTotal - pVar * mif));
      }
      assert Computed(f, pTotal, pVar, mif);
      if pTotal == Mix(pVar, pTrue, pFalse) {
        RiskDirect(f, pTotal, pVar, pTrue, pFalse);
      }
      if pTotal == 1.0 - Mix(pVar, pTrue, pFalse) {
        RiskMirrored(f, pTotal, pVar, pTrue, pFalse);
      }
    }
  }

  ghost predicate Computed(f: ImportanceFactors, pTotal: real, pVar: real, mif: real)
    requires pTotal != 0.0
  {
    && f.cif == pVar * mif / pTotal
    && f.raw == 1.0 + (1.0 - pVar) * mif / pTotal
    && f.dif == pVar * f.raw
    && f.rrw == if pTotal != pVar * mif then pTotal / (pTotal - pVar * mif) else 0.0
  }

  lemma MixParts(pVar: real, pTrue: real, pFalse: real)
    ensures Mix(pVar, pTrue, pFalse) == pFalse + pVar * (pTrue - pFalse)
    ensures Mix(pVar, pTrue, pFalse) == pTrue - (1.0 - pVar) * (pTrue - pFalse)
  {
  }

  lemma RiskDirect(f: ImportanceFactors, pTotal: real, pVar: real, pTrue: real, pFalse: real)
    requires pTotal == Mix(pVar, pTrue, pFalse) && pTotal != 0.0
    requires Computed(f, pTotal, pVar, pTrue - pFalse)
    ensures Direct(f, pTotal, pVar, pTrue, pFalse)
  {
    hide Mix;
    MixParts(pVar, pTrue, pFalse);
    RiskAchievement(pTotal, pVar, pTrue, pFalse);
  }

  /** The factors for a complemented root, by the conditional probabilities of the function:
      the importance has the other sign, and the other factors follow it. */
  ghost predicate Mirrored(f: ImportanceFactors, pTotal: real, pVar: real, pTrue: real, pFalse: real)
    requires pTotal != 0.0
  {
    && f.cif == -(pVar * (pTrue - pFalse) / pTotal)
    && f.raw == 2.0 - pTrue / pTotal
    && f.dif == pVar * (2.0 - pTrue / pTotal)
    && f.rrw == if 2.0 * pTotal != pFalse then pTotal / (2.0 * pTotal - pFalse) else 0.0
  }

  lemma RiskMirrored(f: ImportanceFactors, pTotal: real, pVar: real, pTrue: real, pFalse: real)
    requires pTotal == 1.0 - Mix(pVar, pTrue, pFalse) && pTotal != 0.0
    requires Computed(f, pTotal, pVar, pTrue - pFalse)
    ensures Mirrored(f, pTotal, pVar, 1.0 - pTrue, 1.0 - pFalse)
  {
    hide Mix;
    var importance, other := pVar * (pTrue - pFalse), (1.0 - pVar) * (pTrue - pFalse);
    MixParts(pVar, pTrue, pFalse);
    NegatedProduct(pVar, pTrue, pFalse);
    NegatedQuotient(importance, pTotal);
    QuotientOfSum(other, 1.0 - pTrue, pTotal);
    assert other + (1.0 - pTrue) == pTotal;
    assert pTotal / pTotal == 1.0;
  }

  lemma NegatedProduct(p: real, a: real, b: real)
    ensures p * (1.0 - a - (1.0 - b)) == -(p * (a - b))
  {
  }

  lemma NegatedQuotient(a: real, c: real)
    requires c != 0.0
    ensures (-a) / c == -(a / c)
  {
    QuotientOfSum(a, -a, c);
  }

  /** What the factors should be, by the conditional probabilities of the function. */
  ghost predicate Direct(f: ImportanceFactors, pTotal: real, pVar: real, pTrue: real, pFalse: real)
    requires pTotal != 0.0
  {
    && f.cif == pVar * (pTrue - pFalse) / pTotal
    && f.raw == pTrue / pTotal
    && f.dif == pVar * (pTrue / pTotal)
    && f.rrw == if pFalse != 0.0 then pTotal / pFalse else 0.0
  }

  /** For a complemented root, the factors are right exactly where the importance, weighted
      with the probability of the event or of its complement, is 0. */
  lemma FactorsRight(f: ImportanceFactors, pTotal: real, pVar: real, pTrue: real, pFalse: real)
    requires pTotal == Mix(pVar, pTrue, pFalse) && pTotal != 0.0 && Mirrored(f, pTotal, pVar, pTrue, pFalse)
    ensures f.cif == pVar * (pTrue - pFalse) / pTotal <==> pVar * (pTrue - pFalse) == 0.0
    ensures f.raw == pTrue / pTotal <==> (1.0 - pVar) * (pTrue - pFalse) == 0.0
    ensures f.dif == pVar * (pTrue / pTotal) <==> pVar * ((1.0 - pVar) * (pTrue - pFalse)) == 0.0
    ensures f.rrw == (if pFalse != 0.0 then pTotal / pFalse else 0.0) <==> pVar * (pTrue - pFalse) == 0.0
  {
    hide Mix;
    MixParts(pVar, pTrue, pFalse);
    var weighted, other := pVar * (pTrue - pFalse), (1.0 - pVar) * (pTrue - pFalse);
    CriticalRight(f.cif, weighted, pTotal);
    AchievementRight(f.raw, pTrue, other, pTotal);
    DiagnosticRight(f.dif, pVar, pTrue, other, pTotal);
    RiskWorth(pTotal, weighted);
  }

  lemma CriticalRight(cif: real, weighted: real, pTotal: real)
    requires pTotal != 0.0 && cif == -(weighted / pTotal)
    ensures cif == weighted / pTotal <==> weighted == 0.0
  {
    ZeroQuotient(weighted, pTotal);
  }

  lemma RatioOfTrue(pTrue: real, other: real, pTotal: real)
    requires pTotal != 0.0 && pTotal == pTrue - other
    ensures pTrue / pTotal == 1.0 + other / pTotal
  {
    var ratio, r := pTrue / pTotal, other / pTotal;
    assert ratio * pTotal == pTrue && r * pTotal == other;
    SameMultiple(ratio, 1.0 + r, pTotal);
  }

  lemma SameMultiple(a: real, b: real, c: real)
    requires c != 0.0 && a * c == b * c
    ensures a == b
  {
    assert (a - b) * c == 0.0;
  }

  lemma AchievementRight(raw: real, pTrue: real, other: real, pTotal: real)
    requires pTotal != 0.0 && pTotal == pTrue - other && raw == 2.0 - pTrue / pTotal
    ensures raw == pTrue / pTotal <==> other == 0.0
  {
    RatioOfTrue(pTrue, other, pTotal);
    ZeroQuotient(other, pTotal);
    Midpoint(raw, pTrue / pTotal, other / pTotal);
  }

  lemma Midpoint(raw: real, ratio: real, r: real)
    requires ratio == 1.0 + r && raw == 2.0 - ratio
    ensures raw == ratio <==> r == 0.0
  {
  }

  lemma ZeroQuotient(a: real, c: real)
    requires c != 0.0
    ensures a / c == 0.0 <==> a == 0.0
  {
    assert a / c * c == a;
  }

  lemma DiagnosticRight(dif: real, pVar: real, pTrue: real, other: real, pTotal: real)
    requires pTotal != 0.0 && pTotal == pTrue - other && dif == pVar * (2.0 - pTrue / pTotal)
    ensures dif == pVar * (pTrue / pTotal) <==> pVar * other == 0.0
  {
    RatioOfTrue(pTrue, other, pTotal);
    var r := other / pTotal;
    assert r * pTotal == other;
    DiagnosticStep(dif, pVar, pTrue / pTotal, r, other, pTotal);
  }

  lemma DiagnosticStep(dif: real, pVar: real, ratio: real, r: real, other: real, pTotal: real)
    requires pTotal != 0.0 && ratio == 1.0 + r && dif == pVar * (2.0 - ratio) && r * pTotal == other
    ensures dif == pVar * ratio <==> pVar * other == 0.0
  {
    assert dif - pVar * ratio == -2.0 * (pVar * r);
    assert pVar * other == pVar * r * pTotal;
  }

  /** The reciprocals of two different numbers are different. */
  lemma RiskWorth(pTotal: real, weighted: real)
    requires pTotal != 0.0
    ensures (if pTotal + weighted != 0.0 then pTotal / (pTotal + weighted) else 0.0)
         == (if pTotal - weighted != 0.0 then pTotal / (pTotal - weighted) else 0.0)
       <==> weighted == 0.0
  {
    var a, b := pTotal + weighted, pTotal - weighted;
    if a != 0.0 {
      ZeroQuotient(pTotal, a);
      assert pTotal / a * a == pTotal;
    }
    if b != 0.0 {
      ZeroQuotient(pTotal, b);
      assert pTotal / b * b == pTotal;
    }
  }

  lemma RiskAchievement(pTotal: real, pVar: real, pTrue: real, pFalse: real)
    requires pTotal == Mix(pVar, pTrue, pFalse) && pTotal != 0.0
    ensures 1.0 + (1.0 - pVar) * (pTrue - pFalse) / pTotal == pTrue / pTotal
  {
    hide Mix;
    MixParts(pVar, pTrue, pFalse);
    QuotientOfSum(pTotal, (1.0 - pVar) * (pTrue - pFalse), pTotal);
  }

  lemma QuotientOfSum(a: real, b: real, c: real)
    requires c != 0.0
    ensures (a + b) / c == a / c + b / c
  {
    var x, y := a / c, b / c;
    assert x * c == a && y * c == b;
    assert (x + y) * c == a + b;
  }

  /** A literal of the variable, in either sign. */
  predicate IsLiteral(literal: int, index: int) {
    literal == index || literal == -index
  }

  /** Where a variable occurs: the numbers of the products, and the places in them. */
  ghost function Positions(products: seq<seq<int>>, index: int): set<(int, int)> {
    set i, j | 0 <= i < |products| && 0 <= j < |products[i]| && IsLiteral(products[i][j], index) :: (i, j)
  }

  /** The places before the given one. */
  ghost function PositionsBefore(products: seq<seq<int>>, m: nat, k: nat, index: int): set<(int, int)> {
    set i, j | 0 <= i < |products| && 0 <= j < |products[i]| && IsLiteral(products[i][j], index) && (i < m || (i == m && j < k)) :: (i, j)
  }

  lemma NextPosition(products: seq<seq<int>>, m: nat, k: nat, index: int)
    requires m < |products| && k < |products[m]|
    ensures |PositionsBefore(products, m, k + 1, index)|
         == |PositionsBefore(products, m, k, index)| + if IsLiteral(products[m][k], index) then 1 else 0
  {
    assert PositionsBefore(products, m, k + 1, index)
        == PositionsBefore(products, m, k, index) + if IsLiteral(products[m][k], index) then {(m, k)} else {};
  }

  lemma NextProduct(products: seq<seq<int>>, m: nat, index: int)
    requires m < |products|
    ensures PositionsBefore(products, m, |products[m]|, index) == PositionsBefore(products, m + 1, 0, index)
  {
  }

  lemma AllPositions(products: seq<seq<int>>, index: int)
    ensures PositionsBefore(products, 0, 0, index) == {}
    ensures PositionsBefore(products, |products|, 0, index) == Positions(products, index)
  {
  }

  /** The variables have the indices from 2 on. */
  predicate InRange(products: seq<seq<int>>, n: nat) {
    forall i, j | 0 <= i < |products| && 0 <= j < |products[i]| :: 2 <= Abs(products[i][j]) < 2 + n
  }

  /** How often each variable occurs in the products, in one pass. */
  method Occurrences(products: seq<seq<int>>, n: nat) returns (result: array<nat>)
    requires InRange(products, n)
    ensures fresh(result) && result.Length == n
    ensures forall v | 0 <= v < n :: result[v] == |Positions(products, VARIABLE_START_INDEX + v)|
  {
    result := new nat[n](_ => 0);
    forall v | 0 <= v < n
      ensures result[v] == |PositionsBefore(products, 0, 0, VARIABLE_START_INDEX + v)|
    {
      AllPositions(products, VARIABLE_START_INDEX + v);
    }
    for m := 0 to |products|
      invariant forall v | 0 <= v < n :: result[v] == |PositionsBefore(products, m, 0, VARIABLE_START_INDEX + v)|
    {
      CountProduct(products, m, n, result);
      forall v | 0 <= v < n
        ensures result[v] == |PositionsBefore(products, m + 1, 0, VARIABLE_START_INDEX + v)|
      {
        NextProduct(products, m, VARIABLE_START_INDEX + v);
      }
    }
    forall v | 0 <= v < n
      ensures result[v] == |Positions(products, VARIABLE_START_INDEX + v)|
    {
      AllPositions(products, VARIABLE_START_INDEX + v);
    }
  }

  method CountProduct(products: seq<seq<int>>, m: nat, n: nat, result: array<nat>)
    requires InRange(products, n) && m < |products| && result.Length == n
    requires forall v | 0 <= v < n :: result[v] == |PositionsBefore(products, m, 0, VARIABLE_START_INDEX + v)|
    modifies result
    ensures forall v | 0 <= v < n :: result[v] == |PositionsBefore(products, m, |products[m]|, VARIABLE_START_INDEX + v)|
  {
    hide PositionsBefore;
    for k := 0 to |products[m]|
      invariant forall v | 0 <= v < n :: result[v] == |PositionsBefore(products, m, k, VARIABLE_START_INDEX + v)|
    {
      forall v | 0 <= v < n
        ensures |PositionsBefore(products, m, k + 1, VARIABLE_START_INDEX + v)|
             == result[v] + if IsLiteral(products[m][k], VARIABLE_START_INDEX + v) then 1 else 0
      {
        NextPosition(products, m, k, VARIABLE_START_INDEX + v);
      }
      var v := Abs(products[m][k]) - VARIABLE_START_INDEX;
      result[v] := result[v] + 1;
    }
  }

  datatype Record = Record(index: int, factors: ImportanceFactors)

  /** The factors of a record in terms of conditional probabilities. The marginal factor is
      that of the root vertex; the others are those of the root function if the root is not
      complemented, and mirror them otherwise. */
  ghost predicate Meaning(modules: Modules, p: Probabilities, root: Function, pTotal: real, products: seq<seq<int>>, r: Record)
    requires Grounded(modules, p.Keys, root.vertex)
  {
    && r.index in p
    && var f := r.factors;
       var pTrue := ProbF(modules, Given(p, r.index, true), root);
       var pFalse := ProbF(modules, Given(p, r.index, false), root);
    && f.occurrence == |Positions(products, r.index)|
    && f.mif == Prob(modules, Given(p, r.index, true), root.vertex) - Prob(modules, Given(p, r.index, false), root.vertex)
    && (pTotal == 0.0 ==> f.cif == f.dif == f.raw == f.rrw == 0.0)
    && (pTotal != 0.0 && !root.complement ==> Direct(f, pTotal, p[r.index], pTrue, pFalse))
    && (pTotal != 0.0 && root.complement ==> Mirrored(f, pTotal, p[r.index], pTrue, pFalse))
  }

  /** The variable occurs in some product. */
  ghost predicate Occurs(products: seq<seq<int>>, index: int) {
    exists i, j | 0 <= i < |products| && 0 <= j < |products[i]| :: IsLiteral(products[i][j], index)
  }

  /** Exactly the first `n` basic events that occur in products have records, in order. */
  ghost predicate Listed(products: seq<seq<int>>, n: nat, records: seq<Record>) {
    && (forall k | 0 <= k < |records| :: 2 <= records[k].index < 2 + n && Occurs(products, records[k].index))
    && (forall k, l | 0 <= k < l < |records| :: records[k].index < records[l].index)
    && forall index | 2 <= index < 2 + n && Occurs(products, index) :: exists k | 0 <= k < |records| :: records[k].index == index
  }

  lemma OccursSomewhere(products: seq<seq<int>>, index: int)
    ensures Occurs(products, index) <==> |Positions(products, index)| > 0
  {
    if i, j :| 0 <= i < |products| && 0 <= j < |products[i]| && IsLiteral(products[i][j], index) {
      assert (i, j) in Positions(products, index);
    }
    if |Positions(products, index)| > 0 {
      var position := Sets.Some(Positions(products, index));
      assert IsLiteral(products[position.0][position.1], index);
    }
  }

  lemma ListedNext(products: seq<seq<int>>, n: nat, records: seq<Record>, r: Record)
    requires Listed(products, n, records) && r.index == 2 + n && Occurs(products, 2 + n)
    ensures Listed(products, n + 1, records + [r])
  {
    hide Occurs;
    forall index | 2 <= index < 3 + n && Occurs(products, index)
      ensures exists k | 0 <= k < |records + [r]| :: (records + [r])[k].index == index
    {
      if index == 2 + n {
        assert (records + [r])[|records|].index == index;
      } else {
        var k :| 0 <= k < |records| && records[k].index == index;
        assert (records + [r])[k].index == index;
      }
    }
  }

  lemma ListedSkip(products: seq<seq<int>>, n: nat, records: seq<Record>)
    requires Listed(products, n, records) && !Occurs(products, 2 + n)
    ensures Listed(products, n + 1, records)
  {
    hide Occurs;
  }

  /** The importance records of all basic events that occur in products. */
  method Analyze(analyzer: ImportanceAnalyzer, pTotal: real, products: seq<seq<int>>, n: nat) returns (records: seq<Record>)
    requires analyzer.Valid() && InRange(products, n)
    requires pTotal == ProbF(analyzer.modules, analyzer.p, analyzer.root)
    requires Uniform(analyzer.vertices, analyzer.fields.mark, Marked(analyzer.fields.mark, analyzer.root.vertex))
    requires forall index | 2 <= index < 2 + n && Occurs(products, index) :: index in analyzer.indexToOrder
    modifies analyzer.fields`mark, analyzer.fields`factor
    ensures analyzer.Valid()
    ensures Grounded(analyzer.modules, analyzer.p.Keys, analyzer.root.vertex) && Listed(products, n, records)
    ensures forall r <- records :: Meaning(analyzer.modules, analyzer.p, analyzer.root, pTotal, products, r)
    ensures Uniform(analyzer.vertices, analyzer.fields.mark, Marked(analyzer.fields.mark, analyzer.root.vertex))
  {
    hide Frozen, Laid, Mif, Meaning, Prob, WellLaid, Occurs, Listed, InRange, Positions;
    RootIsGrounded(analyzer);
    var occurrences := Occurrences(products, n);
    records := [];
    NoRecords(products);
    for i := 0 to n
      invariant analyzer.Valid() && Listed(products, i, records)
      invariant forall v | 0 <= v < n :: occurrences[v] == |Positions(products, 2 + v)|
      invariant forall r <- records :: Meaning(analyzer.modules, analyzer.p, analyzer.root, pTotal, products, r)
      invariant Uniform(analyzer.vertices, analyzer.fields.mark, Marked(analyzer.fields.mark, analyzer.root.vertex))
    {
      var index := VARIABLE_START_INDEX + i;
      OccursSomewhere(products, index);
      if occurrences[i] == 0 {
        ListedSkip(products, i, records);
      } else {
        var r := AnalyzeEvent(analyzer, pTotal, products, index, occurrences[i]);
        ListedNext(products, i, records, r);
        records := records + [r];
      }
    }
  }

  lemma NoRecords(products: seq<seq<int>>)
    ensures Listed(products, 0, [])
  {
  }

  lemma RootIsGrounded(analyzer: ImportanceAnalyzer)
    requires analyzer.Valid()
    ensures Grounded(analyzer.modules, analyzer.p.Keys, analyzer.root.vertex)
  {
  }

  lemma Conditioned(analyzer: ImportanceAnalyzer, index: int)
    requires analyzer.Valid() && index in analyzer.indexToOrder
    ensures index in analyzer.p && Grounded(analyzer.modules, analyzer.p.Keys, analyzer.root.vertex)
    ensures Prob(analyzer.modules, analyzer.p, analyzer.root.vertex)
         == Mix(analyzer.p[index],
                Prob(analyzer.modules, Given(analyzer.p, index, true), analyzer.root.vertex),
                Prob(analyzer.modules, Given(analyzer.p, index, false), analyzer.root.vertex))
  {
    hide WellLaid, Prob, Mix;
    RootIsGrounded(analyzer);
    TotalProbability(analyzer.layout, analyzer.modules, analyzer.p, analyzer.root.vertex, analyzer.lo, analyzer.hi, index);
  }

  method AnalyzeEvent(analyzer: ImportanceAnalyzer, pTotal: real, ghost products: seq<seq<int>>, index: int, occurrence: nat)
      returns (r: Record)
    requires analyzer.Valid() && index in analyzer.indexToOrder && occurrence == |Positions(products, index)|
    requires pTotal == ProbF(analyzer.modules, analyzer.p, analyzer.root)
    requires Uniform(analyzer.vertices, analyzer.fields.mark, Marked(analyzer.fields.mark, analyzer.root.vertex))
    modifies analyzer.fields`mark, analyzer.fields`factor
    ensures analyzer.Valid() && r.index == index
    ensures Meaning(analyzer.modules, analyzer.p, analyzer.root, pTotal, products, r)
    ensures Uniform(analyzer.vertices, analyzer.fields.mark, Marked(analyzer.fields.mark, analyzer.root.vertex))
  {
    hide WellLaid, Frozen, Laid, Prob, Grounded, Mix;
    Conditioned(analyzer, index);
    var mif := analyzer.CalculateMif(index);
    var f := CalculateFactors(occurrence, pTotal, analyzer.p[index], mif,
                              Prob(analyzer.modules, Given(analyzer.p, index, true), analyzer.root.vertex),
                              Prob(analyzer.modules, Given(analyzer.p, index, false), analyzer.root.vertex));
    r := Record(index, f);
  }
}
