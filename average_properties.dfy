/** What the three-tier weighted average promises: sums of coefficients,
    zero guards, the skipping of children without data, and the ordering and
    scale bounds that propagate from grades to the overall average. */
module AverageProperties {
  import opened GradeTypes
  import opened Averages

  // ---------------------------------------------------------------------
  // The final division

  /** Each average is the weighted sum divided by the coefficient sum: times
      that sum it gives the weighted sum back; a non-positive coefficient sum
      gives averages of 0 and no division. */
  lemma AverageIsWeightedMean(s: Sums)
    ensures Average(s).total == s.coeff
    ensures s.coeff > 0.0 ==>
      && Average(s).current * s.coeff == s.current
      && Average(s).min * s.coeff == s.min
      && Average(s).max * s.coeff == s.max
    ensures s.coeff <= 0.0 ==>
      Average(s).current == 0.0 && Average(s).min == 0.0 && Average(s).max == 0.0
  {
  }

  // ---------------------------------------------------------------------
  // Subject level

  /** Sum of the coefficients of a list of grades, from the front. */
  function CoeffSum(gs: seq<Grade>): real {
    if gs == [] then 0.0 else gs[0].coefficient + CoeffSum(gs[1..])
  }

  lemma {:induction false} CoeffSumSnoc(gs: seq<Grade>, g: Grade)
    ensures CoeffSum(gs + [g]) == CoeffSum(gs) + g.coefficient
  {
    if gs != [] {
      assert (gs + [g])[1..] == gs[1..] + [g];
      CoeffSumSnoc(gs[1..], g);
    }
  }

  lemma {:induction false} GradeSumsCoeff(gs: seq<Grade>)
    ensures GradeSums(gs).coeff == CoeffSum(gs)
  {
    if gs != [] {
      var n := |gs| - 1;
      GradeSumsCoeff(gs[..n]);
      CoeffSumSnoc(gs[..n], gs[n]);
      assert gs[..n] + [gs[n]] == gs;
    }
  }

  /** A subject's `total` is the sum of its grades' coefficients, whatever
      their sign. */
  lemma SubjectTotalIsCoefficientSum(s: Subject)
    ensures SubjectStats(s).total == CoeffSum(s.grades)
  {
    GradeSumsCoeff(s.grades);
  }

  /** Appending a grade adds exactly its weighted contribution to the sums. */
  lemma GradeSumsSnoc(gs: seq<Grade>, g: Grade)
    ensures GradeSums(gs + [g]) == Plus(GradeSums(gs), Weighted(g))
  {
    assert (gs + [g])[..|gs|] == gs;
  }

  /** Dividing `x * c` by `c` gives `x` back. */
  lemma CancelFactor(x: real, c: real)
    requires c > 0.0
    ensures (x * c) / c == x
  {
  }

  /** A subject whose only grade is exact mark `v` with coefficient `c > 0`
      has current = min = max = v and total = c. */
  lemma SingleExactGrade(s: Subject)
    requires |s.grades| == 1 && s.grades[0].value.Exact? && s.grades[0].coefficient > 0.0
    ensures SubjectStats(s).current == s.grades[0].value.value
    ensures SubjectStats(s).min == s.grades[0].value.value
    ensures SubjectStats(s).max == s.grades[0].value.value
    ensures SubjectStats(s).total == s.grades[0].coefficient
  {
    var g := s.grades[0];
    assert s.grades[..0] == [];
    assert GradeSums(s.grades) == Plus(Zero, Weighted(g));
    CancelFactor(g.value.value, g.coefficient);
  }

  /** A subject whose only grade is the range [lo, hi] with coefficient
      `c > 0` has current = (lo + hi) / 2, min = lo, max = hi and total = c. */
  lemma SingleRangeGrade(s: Subject)
    requires |s.grades| == 1 && s.grades[0].value.Range? && s.grades[0].coefficient > 0.0
    ensures SubjectStats(s).current == (s.grades[0].value.min + s.grades[0].value.max) / 2.0
    ensures SubjectStats(s).min == s.grades[0].value.min
    ensures SubjectStats(s).max == s.grades[0].value.max
    ensures SubjectStats(s).total == s.grades[0].coefficient
  {
    var g := s.grades[0];
    assert s.grades[..0] == [];
    assert GradeSums(s.grades) == Plus(Zero, Weighted(g));
    CancelFactor((g.value.min + g.value.max) / 2.0, g.coefficient);
    CancelFactor(g.value.min, g.coefficient);
    CancelFactor(g.value.max, g.coefficient);
  }

  // ---------------------------------------------------------------------
  // Ordering and scale

  predicate Ordered(st: GradeStats) {
    st.min <= st.current <= st.max
  }

  predicate InScale(st: GradeStats, lo: real, hi: real) {
    && lo <= st.min <= hi
    && lo <= st.current <= hi
    && lo <= st.max <= hi
  }

  predicate SumsOrdered(s: Sums) {
    s.min <= s.current <= s.max
  }

  /** `x` lies between `lo` and `hi` times the weight `c`. */
  predicate Between(x: real, lo: real, hi: real, c: real) {
    lo * c <= x <= hi * c
  }

  /** Each weighted sum lies between `lo` and `hi` times the coefficient sum. */
  predicate SumsInScale(s: Sums, lo: real, hi: real) {
    && Between(s.min, lo, hi, s.coeff)
    && Between(s.current, lo, hi, s.coeff)
    && Between(s.max, lo, hi, s.coeff)
  }

  /** A grade the edit form would accept: positive coefficient, ordered range. */
  predicate ValidGrade(g: Grade) {
    g.coefficient > 0.0 && (g.value.Range? ==> g.value.min <= g.value.max)
  }

  /** Positive coefficient and every mark or bound inside [lo, hi]. */
  predicate GradeInScale(g: Grade, lo: real, hi: real) {
    && g.coefficient > 0.0
    && match g.value
       case Exact(v) => lo <= v <= hi
       case Range(a, b) => lo <= a <= hi && lo <= b <= hi
  }

  lemma ScaleMonotone(a: real, b: real, k: real)
    requires a <= b && k >= 0.0
    ensures a * k <= b * k
  {
  }

  lemma DivideMonotone(a: real, b: real, k: real)
    requires a <= b && k > 0.0
    ensures a / k <= b / k
  {
  }

  /** `lo * k <= a <= hi * k` with `k > 0` gives `lo <= a / k <= hi`. */
  lemma DivideBounds(a: real, k: real, lo: real, hi: real)
    requires k > 0.0 && Between(a, lo, hi, k)
    ensures lo <= a / k <= hi
  {
    CancelFactor(lo, k);
    CancelFactor(hi, k);
    DivideMonotone(lo * k, a, k);
    DivideMonotone(a, hi * k, k);
  }

  lemma AverageOrdered(s: Sums)
    requires SumsOrdered(s)
    ensures Ordered(Average(s))
  {
    if s.coeff > 0.0 {
      DivideMonotone(s.min, s.current, s.coeff);
      DivideMonotone(s.current, s.max, s.coeff);
    }
  }

  lemma AverageInScale(s: Sums, lo: real, hi: real)
    requires s.coeff > 0.0 && SumsInScale(s, lo, hi)
    ensures InScale(Average(s), lo, hi)
  {
    DivideBounds(s.min, s.coeff, lo, hi);
    DivideBounds(s.current, s.coeff, lo, hi);
    DivideBounds(s.max, s.coeff, lo, hi);
  }

  lemma Distribute(x: real, a: real, b: real)
    ensures x * (a + b) == x * a + x * b
  {
  }

  lemma PlusInScale(a: Sums, b: Sums, lo: real, hi: real)
    requires SumsInScale(a, lo, hi) && SumsInScale(b, lo, hi)
    ensures SumsInScale(Plus(a, b), lo, hi)
  {
    AddBounds(a.min, b.min, a.coeff, b.coeff, lo, hi);
    AddBounds(a.current, b.current, a.coeff, b.coeff, lo, hi);
    AddBounds(a.max, b.max, a.coeff, b.coeff, lo, hi);
  }

  /** Bounds add up with their weights. */
  lemma AddBounds(x1: real, x2: real, c1: real, c2: real, lo: real, hi: real)
    requires Between(x1, lo, hi, c1) && Between(x2, lo, hi, c2)
    ensures Between(x1 + x2, lo, hi, c1 + c2)
  {
    Distribute(lo, c1, c2);
    Distribute(hi, c1, c2);
  }

  /** Scaling a value in [lo, hi] by a weight `k >= 0`. */
  lemma ScaleBounds(lo: real, x: real, hi: real, k: real)
    requires lo <= x <= hi && k >= 0.0
    ensures Between(x * k, lo, hi, k)
  {
    ScaleMonotone(lo, x, k);
    ScaleMonotone(x, hi, k);
  }

  lemma WeightedOrdered(g: Grade)
    requires ValidGrade(g)
    ensures SumsOrdered(Weighted(g))
  {
    if g.value.Range? {
      var lo, hi, c := g.value.min, g.value.max, g.coefficient;
      ScaleMonotone(lo, (lo + hi) / 2.0, c);
      ScaleMonotone((lo + hi) / 2.0, hi, c);
    }
  }

  lemma WeightedInScale(g: Grade, lo: real, hi: real)
    requires GradeInScale(g, lo, hi)
    ensures SumsInScale(Weighted(g), lo, hi)
  {
    var c := g.coefficient;
    var (x, y, z) := if g.value.Exact? then (g.value.value, g.value.value, g.value.value)
                     else ((g.value.min + g.value.max) / 2.0, g.value.min, g.value.max);
    assert Weighted(g) == Sums(x * c, y * c, z * c, c);
    ScaledInScale(x, y, z, c, lo, hi);
  }

  /** Three values in [lo, hi] weighted by `c >= 0` stay in scale. */
  lemma ScaledInScale(x: real, y: real, z: real, c: real, lo: real, hi: real)
    requires lo <= x <= hi && lo <= y <= hi && lo <= z <= hi && c >= 0.0
    ensures SumsInScale(Sums(x * c, y * c, z * c, c), lo, hi)
  {
    ScaleBounds(lo, x, hi, c);
    ScaleBounds(lo, y, hi, c);
    ScaleBounds(lo, z, hi, c);
  }

  lemma {:induction false} GradeSumsOrdered(gs: seq<Grade>)
    requires forall g | g in gs :: ValidGrade(g)
    ensures SumsOrdered(GradeSums(gs))
  {
    if gs != [] {
      var n := |gs| - 1;
      GradeSumsOrdered(gs[..n]);
      WeightedOrdered(gs[n]);
    }
  }

  lemma {:induction false} GradeSumsInScale(gs: seq<Grade>, lo: real, hi: real)
    requires forall g | g in gs :: GradeInScale(g, lo, hi)
    ensures SumsInScale(GradeSums(gs), lo, hi)
    ensures gs != [] ==> GradeSums(gs).coeff > 0.0
  {
    if gs != [] {
      var n := |gs| - 1;
      GradeSumsInScale(gs[..n], lo, hi);
      WeightedInScale(gs[n], lo, hi);
      PlusInScale(GradeSums(gs[..n]), Weighted(gs[n]), lo, hi);
    }
  }

  /** If every coefficient is positive and every range has min <= max, the
      subject's averages satisfy min <= current <= max. */
  lemma SubjectStatsOrdered(s: Subject)
    requires forall g | g in s.grades :: ValidGrade(g)
    ensures Ordered(SubjectStats(s))
  {
    if s.grades != [] {
      GradeSumsOrdered(s.grades);
      AverageOrdered(GradeSums(s.grades));
    }
  }

  /** If every coefficient is positive and every mark and bound lies in
      [lo, hi], so do the three averages of a subject with grades. */
  lemma SubjectStatsInScale(s: Subject, lo: real, hi: real)
    requires forall g | g in s.grades :: GradeInScale(g, lo, hi)
    ensures s.grades != [] ==> SubjectStats(s).total > 0.0 && InScale(SubjectStats(s), lo, hi)
  {
    if s.grades != [] {
      GradeSumsInScale(s.grades, lo, hi);
      AverageInScale(GradeSums(s.grades), lo, hi);
    }
  }
}
