/** Properties of the two upper levels (teaching unit, overall): children
    without data are skipped, `total` counts only contributing children, and
    ordering and scale bounds carry over from children to parents. */
module PoolProperties {
  import opened GradeTypes
  import opened Averages
  import opened AverageProperties

  // ---------------------------------------------------------------------
  // Children without data change nothing

  lemma {:induction false} SubjectPoolSkipsSilent(pre: seq<Subject>, s: Subject, post: seq<Subject>)
    requires SubjectStats(s).total <= 0.0
    ensures SubjectPool(pre + [s] + post) == SubjectPool(pre + post)
    decreases |post|
  {
    if post == [] {
      assert pre + [s] + post == pre + [s];
      assert (pre + [s])[..|pre|] == pre;
      assert pre + post == pre;
    } else {
      var n := |post| - 1;
      var front := post[..n];
      SubjectPoolSkipsSilent(pre, s, front);
      assert pre + [s] + post == (pre + [s] + front) + [post[n]];
      assert (pre + [s] + post)[..|pre + [s] + front|] == pre + [s] + front;
      assert pre + post == (pre + front) + [post[n]];
      assert (pre + post)[..|pre + front|] == pre + front;
    }
  }

  /** Inserting or removing a subject whose stats total is not positive (for
      example one without grades) leaves the unit's statistics unchanged. */
  lemma EUStatsSkipsSilentSubject(eu: EU, pre: seq<Subject>, s: Subject, post: seq<Subject>)
    requires eu.subjects == pre + [s] + post
    requires SubjectStats(s).total <= 0.0
    ensures EUStats(eu) == EUStats(eu.(subjects := pre + post))
  {
    SubjectPoolSkipsSilent(pre, s, post);
    if pre + post == [] {
      assert SubjectPool(pre + post) == Zero;
    }
  }

  lemma {:induction false} EUPoolSkipsSilent(pre: seq<EU>, e: EU, post: seq<EU>)
    requires EUStats(e).total <= 0.0
    ensures EUPool(pre + [e] + post) == EUPool(pre + post)
    decreases |post|
  {
    if post == [] {
      assert pre + [e] + post == pre + [e];
      assert (pre + [e])[..|pre|] == pre;
      assert pre + post == pre;
    } else {
      var n := |post| - 1;
      var front := post[..n];
      EUPoolSkipsSilent(pre, e, front);
      assert pre + [e] + post == (pre + [e] + front) + [post[n]];
      assert (pre + [e] + post)[..|pre + [e] + front|] == pre + [e] + front;
      assert pre + post == (pre + front) + [post[n]];
      assert (pre + post)[..|pre + front|] == pre + front;
    }
  }

  /** Inserting or removing a unit whose stats total is not positive leaves
      the overall statistics unchanged. */
  lemma GeneralStatsSkipsSilentEU(pre: seq<EU>, e: EU, post: seq<EU>)
    requires EUStats(e).total <= 0.0
    ensures GeneralStats(pre + [e] + post) == GeneralStats(pre + post)
  {
    EUPoolSkipsSilent(pre, e, post);
    if pre + post == [] {
      assert EUPool(pre + post) == Zero;
    }
  }

  // ---------------------------------------------------------------------
  // Totals

  /** Sum of the coefficients of the subjects that have data, from the front. */
  function ContributingSubjectCoeff(ss: seq<Subject>): real {
    if ss == [] then 0.0
    else (if SubjectStats(ss[0]).total > 0.0 then ss[0].coefficient else 0.0)
         + ContributingSubjectCoeff(ss[1..])
  }

  lemma {:induction false} ContributingSubjectCoeffSnoc(ss: seq<Subject>, s: Subject)
    ensures ContributingSubjectCoeff(ss + [s])
         == ContributingSubjectCoeff(ss) + (if SubjectStats(s).total > 0.0 then s.coefficient else 0.0)
  {
    if ss != [] {
      assert (ss + [s])[1..] == ss[1..] + [s];
      ContributingSubjectCoeffSnoc(ss[1..], s);
    }
  }

  lemma {:induction false} SubjectPoolCoeff(ss: seq<Subject>)
    ensures SubjectPool(ss).coeff == ContributingSubjectCoeff(ss)
  {
    if ss != [] {
      var n := |ss| - 1;
      SubjectPoolCoeff(ss[..n]);
      ContributingSubjectCoeffSnoc(ss[..n], ss[n]);
      assert ss[..n] + [ss[n]] == ss;
    }
  }

  /** A unit's `total` is the sum of the coefficients of its subjects whose
      own total is positive. */
  lemma EUTotalIsContributingCoeff(eu: EU)
    ensures EUStats(eu).total == ContributingSubjectCoeff(eu.subjects)
  {
    SubjectPoolCoeff(eu.subjects);
  }

  /** Sum of the coefficients of the units that have data, from the front. */
  function ContributingEUCoeff(eus: seq<EU>): real {
    if eus == [] then 0.0
    else (if EUStats(eus[0]).total > 0.0 then eus[0].coefficient else 0.0)
         + ContributingEUCoeff(eus[1..])
  }

  lemma {:induction false} ContributingEUCoeffSnoc(eus: seq<EU>, e: EU)
    ensures ContributingEUCoeff(eus + [e])
         == ContributingEUCoeff(eus) + (if EUStats(e).total > 0.0 then e.coefficient else 0.0)
  {
    if eus != [] {
      assert (eus + [e])[1..] == eus[1..] + [e];
      ContributingEUCoeffSnoc(eus[1..], e);
    }
  }

  lemma {:induction false} EUPoolCoeff(eus: seq<EU>)
    ensures EUPool(eus).coeff == ContributingEUCoeff(eus)
  {
    if eus != [] {
      var n := |eus| - 1;
      EUPoolCoeff(eus[..n]);
      ContributingEUCoeffSnoc(eus[..n], eus[n]);
      assert eus[..n] + [eus[n]] == eus;
    }
  }

  /** The overall `total` is the sum of the coefficients of the units whose
      own total is positive. */
  lemma GeneralTotalIsContributingCoeff(eus: seq<EU>)
    ensures GeneralStats(eus).total == ContributingEUCoeff(eus)
  {
    EUPoolCoeff(eus);
  }

  // ---------------------------------------------------------------------
  // One contributing child

  /** A unit whose only subject has data and coefficient k > 0 has that
      subject's three averages, and total k. */
  lemma SingleGradedSubject(eu: EU)
    requires |eu.subjects| == 1
    requires SubjectStats(eu.subjects[0]).total > 0.0 && eu.subjects[0].coefficient > 0.0
    ensures EUStats(eu).current == SubjectStats(eu.subjects[0]).current
    ensures EUStats(eu).min == SubjectStats(eu.subjects[0]).min
    ensures EUStats(eu).max == SubjectStats(eu.subjects[0]).max
    ensures EUStats(eu).total == eu.subjects[0].coefficient
  {
    var s := eu.subjects[0];
    var st := SubjectStats(s);
    assert eu.subjects[..0] == [];
    assert SubjectPool(eu.subjects) == Plus(Zero, Pooled(st, s.coefficient));
    CancelFactor(st.current, s.coefficient);
    CancelFactor(st.min, s.coefficient);
    CancelFactor(st.max, s.coefficient);
  }

  // ---------------------------------------------------------------------
  // Ordering and scale carry over

  /** A child that contributes has a positive coefficient and ordered stats. */
  predicate ContributesOrdered(st: GradeStats, k: real) {
    st.total > 0.0 ==> k > 0.0 && Ordered(st)
  }

  predicate ContributesInScale(st: GradeStats, k: real, lo: real, hi: real) {
    st.total > 0.0 ==> k > 0.0 && InScale(st, lo, hi)
  }

  lemma PooledOrdered(st: GradeStats, k: real)
    requires ContributesOrdered(st, k)
    ensures SumsOrdered(Pooled(st, k))
  {
    if st.total > 0.0 {
      ScaleMonotone(st.min, st.current, k);
      ScaleMonotone(st.current, st.max, k);
    }
  }

  /** A child without data adds nothing to its parent's sums. */
  lemma SilentAddsNothing(a: Sums, st: GradeStats, k: real)
    requires st.total <= 0.0
    ensures Plus(a, Pooled(st, k)) == a
  {
    assert Pooled(st, k) == Zero;
  }

  lemma PooledInScale(st: GradeStats, k: real, lo: real, hi: real)
    requires ContributesInScale(st, k, lo, hi)
    ensures SumsInScale(Pooled(st, k), lo, hi) && Pooled(st, k).coeff >= 0.0
  {
    if st.total > 0.0 {
      ScaledInScale(st.current, st.min, st.max, k, lo, hi);
    } else {
      assert Pooled(st, k) == Zero;
      assert lo * 0.0 == 0.0 && hi * 0.0 == 0.0;
    }
  }

  lemma {:induction false} SubjectPoolOrdered(ss: seq<Subject>)
    requires forall s | s in ss :: ContributesOrdered(SubjectStats(s), s.coefficient)
    ensures SumsOrdered(SubjectPool(ss))
  {
    if ss != [] {
      var n := |ss| - 1;
      assert forall s | s in ss[..n] :: s in ss;
      SubjectPoolOrdered(ss[..n]);
      PooledOrdered(SubjectStats(ss[n]), ss[n].coefficient);
    }
  }

  lemma {:induction false} SubjectPoolInScale(ss: seq<Subject>, lo: real, hi: real)
    requires forall s | s in ss :: ContributesInScale(SubjectStats(s), s.coefficient, lo, hi)
    ensures SumsInScale(SubjectPool(ss), lo, hi) && SubjectPool(ss).coeff >= 0.0
  {
    if ss != [] {
      var n := |ss| - 1;
      assert forall s | s in ss[..n] :: s in ss;
      SubjectPoolInScale(ss[..n], lo, hi);
      PooledInScale(SubjectStats(ss[n]), ss[n].coefficient, lo, hi);
      PlusInScale(SubjectPool(ss[..n]), Pooled(SubjectStats(ss[n]), ss[n].coefficient), lo, hi);
    }
  }

  /** If every subject with data has a positive coefficient and
      min <= current <= max, the unit's statistics are ordered the same way. */
  lemma EUStatsOrdered(eu: EU)
    requires forall s | s in eu.subjects :: ContributesOrdered(SubjectStats(s), s.coefficient)
    ensures Ordered(EUStats(eu))
  {
    if eu.subjects != [] {
      SubjectPoolOrdered(eu.subjects);
      AverageOrdered(SubjectPool(eu.subjects));
    }
  }

  /** If every subject with data has a positive coefficient and averages in
      [lo, hi], a unit with data has its averages in [lo, hi]. */
  lemma EUStatsInScale(eu: EU, lo: real, hi: real)
    requires forall s | s in eu.subjects :: ContributesInScale(SubjectStats(s), s.coefficient, lo, hi)
    ensures EUStats(eu).total > 0.0 ==> InScale(EUStats(eu), lo, hi)
  {
    if eu.subjects != [] {
      SubjectPoolInScale(eu.subjects, lo, hi);
      if SubjectPool(eu.subjects).coeff > 0.0 {
        AverageInScale(SubjectPool(eu.subjects), lo, hi);
      }
    }
  }

  lemma {:induction false} EUPoolOrdered(eus: seq<EU>)
    requires forall e | e in eus :: ContributesOrdered(EUStats(e), e.coefficient)
    ensures SumsOrdered(EUPool(eus))
  {
    if eus != [] {
      var n := |eus| - 1;
      assert forall e | e in eus[..n] :: e in eus;
      EUPoolOrdered(eus[..n]);
      PooledOrdered(EUStats(eus[n]), eus[n].coefficient);
    }
  }

  lemma {:induction false} EUPoolInScale(eus: seq<EU>, lo: real, hi: real)
    requires forall e | e in eus :: ContributesInScale(EUStats(e), e.coefficient, lo, hi)
    ensures SumsInScale(EUPool(eus), lo, hi) && EUPool(eus).coeff >= 0.0
  {
    if eus != [] {
      var n := |eus| - 1;
      assert forall e | e in eus[..n] :: e in eus;
      EUPoolInScale(eus[..n], lo, hi);
      PooledInScale(EUStats(eus[n]), eus[n].coefficient, lo, hi);
      PlusInScale(EUPool(eus[..n]), Pooled(EUStats(eus[n]), eus[n].coefficient), lo, hi);
    }
  }

  lemma GeneralStatsOrdered(eus: seq<EU>)
    requires forall e | e in eus :: ContributesOrdered(EUStats(e), e.coefficient)
    ensures Ordered(GeneralStats(eus))
  {
    if eus != [] {
      EUPoolOrdered(eus);
      AverageOrdered(EUPool(eus));
    }
  }

  lemma GeneralStatsInScale(eus: seq<EU>, lo: real, hi: real)
    requires forall e | e in eus :: ContributesInScale(EUStats(e), e.coefficient, lo, hi)
    ensures GeneralStats(eus).total > 0.0 ==> InScale(GeneralStats(eus), lo, hi)
  {
    if eus != [] {
      EUPoolInScale(eus, lo, hi);
      if EUPool(eus).coeff > 0.0 {
        AverageInScale(EUPool(eus), lo, hi);
      }
    }
  }

  // ---------------------------------------------------------------------
  // Whole tree

  /** Every coefficient positive and every range ordered: what the edit
      dialogs enforce. */
  predicate ValidTree(eus: seq<EU>) {
    forall e | e in eus ::
      && e.coefficient > 0.0
      && forall s | s in e.subjects ::
           && s.coefficient > 0.0
           && forall g | g in s.grades :: ValidGrade(g)
  }

  /** Every coefficient positive and every mark and bound in [lo, hi]. */
  predicate TreeInScale(eus: seq<EU>, lo: real, hi: real) {
    forall e | e in eus ::
      && e.coefficient > 0.0
      && forall s | s in e.subjects ::
           && s.coefficient > 0.0
           && forall g | g in s.grades :: GradeInScale(g, lo, hi)
  }

  /** In a valid tree, the worst case never exceeds the expected average and
      the expected average never exceeds the best case, at every level. */
  lemma TreeStatsOrdered(eus: seq<EU>)
    requires ValidTree(eus)
    ensures forall e | e in eus :: Ordered(EUStats(e))
    ensures Ordered(GeneralStats(eus))
  {
    forall e | e in eus
      ensures Ordered(EUStats(e))
    {
      forall s | s in e.subjects
        ensures ContributesOrdered(SubjectStats(s), s.coefficient)
      {
        SubjectStatsOrdered(s);
      }
      EUStatsOrdered(e);
    }
    GeneralStatsOrdered(eus);
  }

  /** With every mark and bound on the 0-20 scale and positive coefficients,
      the three overall averages are on the 0-20 scale too. */
  lemma TreeStatsOnTwentyScale(eus: seq<EU>)
    requires TreeInScale(eus, 0.0, 20.0)
    ensures InScale(GeneralStats(eus), 0.0, 20.0)
  {
    forall e | e in eus
      ensures ContributesInScale(EUStats(e), e.coefficient, 0.0, 20.0)
    {
      forall s | s in e.subjects
        ensures ContributesInScale(SubjectStats(s), s.coefficient, 0.0, 20.0)
      {
        SubjectStatsInScale(s, 0.0, 20.0);
      }
      EUStatsInScale(e, 0.0, 20.0);
    }
    GeneralStatsInScale(eus, 0.0, 20.0);
  }
}
