/** Specification of the three-tier weighted average: grade -> subject ->
    teaching unit -> overall. Every fold runs from the left, as the source's
    `forEach` loops do, so that a loop's accumulators after `i` steps equal the
    fold of the first `i` children. */
module Averages {
  import opened GradeTypes

  const NoData := GradeStats(0.0, 0.0, 0.0, 0.0)

  /** The four accumulators of every aggregation loop:
      currentSum, minSum, maxSum and totalCoeff. */
  datatype Sums = Sums(current: real, min: real, max: real, coeff: real)

  const Zero := Sums(0.0, 0.0, 0.0, 0.0)

  function Plus(a: Sums, b: Sums): Sums {
    Sums(a.current + b.current, a.min + b.min, a.max + b.max, a.coeff + b.coeff)
  }

  /** The final step of every level: each sum divided by the coefficient sum,
      or 0 when that sum is not positive. */
  function Average(s: Sums): GradeStats {
    GradeStats(
      if s.coeff > 0.0 then s.current / s.coeff else 0.0,
      if s.coeff > 0.0 then s.min / s.coeff else 0.0,
      if s.coeff > 0.0 then s.max / s.coeff else 0.0,
      s.coeff)
  }

  /** What one grade adds to the four sums: an exact mark adds the same
      weighted value to all three, a range adds its midpoint to `current` and
      its own bounds to `min` and `max`. */
  function Weighted(g: Grade): Sums {
    var c := g.coefficient;
    match g.value
    case Exact(v) => Sums(v * c, v * c, v * c, c)
    case Range(lo, hi) => Sums(((lo + hi) / 2.0) * c, lo * c, hi * c, c)
  }

  function GradeSums(gs: seq<Grade>): Sums {
    if |gs| == 0 then Zero else Plus(GradeSums(gs[..|gs| - 1]), Weighted(gs[|gs| - 1]))
  }

  function SubjectStats(s: Subject): GradeStats {
    if |s.grades| == 0 then NoData else Average(GradeSums(s.grades))
  }

  /** What a child with statistics `st` and coefficient `k` adds one level up:
      nothing at all unless its `total` is positive. */
  function Pooled(st: GradeStats, k: real): Sums {
    if st.total > 0.0 then Sums(st.current * k, st.min * k, st.max * k, k) else Zero
  }

  function SubjectPool(ss: seq<Subject>): Sums {
    if |ss| == 0 then Zero
    else
      var last := ss[|ss| - 1];
      Plus(SubjectPool(ss[..|ss| - 1]), Pooled(SubjectStats(last), last.coefficient))
  }

  function EUStats(eu: EU): GradeStats {
    if |eu.subjects| == 0 then NoData else Average(SubjectPool(eu.subjects))
  }

  function EUPool(eus: seq<EU>): Sums {
    if |eus| == 0 then Zero
    else
      var last := eus[|eus| - 1];
      Plus(EUPool(eus[..|eus| - 1]), Pooled(EUStats(last), last.coefficient))
  }

  function GeneralStats(eus: seq<EU>): GradeStats {
    if |eus| == 0 then NoData else Average(EUPool(eus))
  }
}
