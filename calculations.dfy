/** The aggregation loops of the grade tracker. The subject-level and overall
    averages and the EU-level averages live in two source files that import
    each other; Dafny modules cannot, so both are modelled here. */
module Calculations {
  import opened GradeTypes
  import opened Averages

  /** Weighted averages of one subject's grades. */
  method CalculateSubjectAverage(subject: Subject) returns (stats: GradeStats)
    ensures stats == SubjectStats(subject)
  {
    if |subject.grades| == 0 {
      return GradeStats(0.0, 0.0, 0.0, 0.0);
    }
    var currentSum, minSum, maxSum, totalCoeff := 0.0, 0.0, 0.0, 0.0;
    for i := 0 to |subject.grades|
      invariant Sums(currentSum, minSum, maxSum, totalCoeff) == GradeSums(subject.grades[..i])
    {
      assert subject.grades[..i + 1][..i] == subject.grades[..i];
      currentSum, minSum, maxSum, totalCoeff := AccumulateGrade(currentSum, minSum, maxSum, totalCoeff, subject.grades[i]);
    }
    assert subject.grades[..|subject.grades|] == subject.grades;
    stats := GradeStats(
      if totalCoeff > 0.0 then currentSum / totalCoeff else 0.0,
      if totalCoeff > 0.0 then minSum / totalCoeff else 0.0,
      if totalCoeff > 0.0 then maxSum / totalCoeff else 0.0,
      totalCoeff);
  }

  /** The `forEach` callback of the subject average: one grade's weighted
      contribution added to the running sums. */
  method AccumulateGrade(currentSum: real, minSum: real, maxSum: real, totalCoeff: real, grade: Grade)
    returns (current: real, low: real, high: real, total: real)
    ensures Sums(current, low, high, total) == Plus(Sums(currentSum, minSum, maxSum, totalCoeff), Weighted(grade))
  {
    total := totalCoeff + grade.coefficient;
    match grade.value {
      case Exact(v) =>
        var weighted := v * grade.coefficient;
        current, low, high := currentSum + weighted, minSum + weighted, maxSum + weighted;
      case Range(lo, hi) =>
        var avgWeighted := ((lo + hi) / 2.0) * grade.coefficient;
        current, low, high := currentSum + avgWeighted, minSum + lo * grade.coefficient, maxSum + hi * grade.coefficient;
    }
  }

  /** The `forEach` callback of the EU and overall averages: a child whose
      total is positive adds its averages weighted by its coefficient, any
      other child leaves the sums as they are. */
  method AccumulatePooled(currentSum: real, minSum: real, maxSum: real, totalCoeff: real,
                          childStats: GradeStats, coefficient: real)
    returns (current: real, low: real, high: real, total: real)
    ensures Sums(current, low, high, total) == Plus(Sums(currentSum, minSum, maxSum, totalCoeff), Pooled(childStats, coefficient))
  {
    current, low, high, total := currentSum, minSum, maxSum, totalCoeff;
    if childStats.total > 0.0 {
      total := totalCoeff + coefficient;
      current := currentSum + childStats.current * coefficient;
      low := minSum + childStats.min * coefficient;
      high := maxSum + childStats.max * coefficient;
      assert Pooled(childStats, coefficient) == Sums(childStats.current * coefficient, childStats.min * coefficient, childStats.max * coefficient, coefficient);
    } else {
      assert Pooled(childStats, coefficient) == Zero;
    }
  }

  /** Weighted averages of a teaching unit's subjects; subjects without data
      are skipped. */
  method CalculateEUAverage(eu: EU) returns (stats: GradeStats)
    ensures stats == EUStats(eu)
  {
    if |eu.subjects| == 0 {
      return GradeStats(0.0, 0.0, 0.0, 0.0);
    }
    var currentSum, minSum, maxSum, totalCoeff := 0.0, 0.0, 0.0, 0.0;
    for i := 0 to |eu.subjects|
      invariant Sums(currentSum, minSum, maxSum, totalCoeff) == SubjectPool(eu.subjects[..i])
    {
      var subject := eu.subjects[i];
      var subjectStats := CalculateSubjectAverage(subject);
      assert eu.subjects[..i + 1][..i] == eu.subjects[..i];
      currentSum, minSum, maxSum, totalCoeff :=
        AccumulatePooled(currentSum, minSum, maxSum, totalCoeff, subjectStats, subject.coefficient);
    }
    assert eu.subjects[..|eu.subjects|] == eu.subjects;
    stats := GradeStats(
      if totalCoeff > 0.0 then currentSum / totalCoeff else 0.0,
      if totalCoeff > 0.0 then minSum / totalCoeff else 0.0,
      if totalCoeff > 0.0 then maxSum / totalCoeff else 0.0,
      totalCoeff);
  }

  /** Overall averages over all teaching units; units without data are
      skipped. */
  method CalculateGeneralAverage(eus: seq<EU>) returns (stats: GradeStats)
    ensures stats == GeneralStats(eus)
  {
    if |eus| == 0 {
      return GradeStats(0.0, 0.0, 0.0, 0.0);
    }
    var currentSum, minSum, maxSum, totalCoeff := 0.0, 0.0, 0.0, 0.0;
    for i := 0 to |eus|
      invariant Sums(currentSum, minSum, maxSum, totalCoeff) == EUPool(eus[..i])
    {
      var eu := eus[i];
      var euStats := CalculateEUAverage(eu);
      assert eus[..i + 1][..i] == eus[..i];
      currentSum, minSum, maxSum, totalCoeff :=
        AccumulatePooled(currentSum, minSum, maxSum, totalCoeff, euStats, eu.coefficient);
    }
    assert eus[..|eus|] == eus;
    stats := GradeStats(
      if totalCoeff > 0.0 then currentSum / totalCoeff else 0.0,
      if totalCoeff > 0.0 then minSum / totalCoeff else 0.0,
      if totalCoeff > 0.0 then maxSum / totalCoeff else 0.0,
      totalCoeff);
  }

  /** The second copy of the overall average, kept next to the EU average;
      its contract is the same as CalculateGeneralAverage's, so the two agree
      on every input. */
  method CalculateGeneralAverageFromEUs(eus: seq<EU>) returns (stats: GradeStats)
    ensures stats == GeneralStats(eus)
  {
    if |eus| == 0 {
      return GradeStats(0.0, 0.0, 0.0, 0.0);
    }
    var currentSum, minSum, maxSum, totalCoeff := 0.0, 0.0, 0.0, 0.0;
    for i := 0 to |eus|
      invariant Sums(currentSum, minSum, maxSum, totalCoeff) == EUPool(eus[..i])
    {
      var eu := eus[i];
      var euStats := CalculateEUAverage(eu);
      assert eus[..i + 1][..i] == eus[..i];
      currentSum, minSum, maxSum, totalCoeff :=
        AccumulatePooled(currentSum, minSum, maxSum, totalCoeff, euStats, eu.coefficient);
    }
    assert eus[..|eus|] == eus;
    stats := GradeStats(
      if totalCoeff > 0.0 then currentSum / totalCoeff else 0.0,
      if totalCoeff > 0.0 then minSum / totalCoeff else 0.0,
      if totalCoeff > 0.0 then maxSum / totalCoeff else 0.0,
      totalCoeff);
  }

  /** Text color class for an average, a ladder of thresholds at 16, 14, 12
      and 10. */
  datatype TextColor = TextAccent | TextPrimary | TextBlue500 | TextWarning | TextDestructive

  /** Position of a color on the ladder, 4 for the best band. */
  function ColorRank(c: TextColor): nat {
    match c
    case TextAccent => 4
    case TextPrimary => 3
    case TextBlue500 => 2
    case TextWarning => 1
    case TextDestructive => 0
  }

  function GetGradeColor(average: real): (c: TextColor)
    ensures c == TextAccent <==> average >= 16.0
    ensures c == TextPrimary <==> 14.0 <= average < 16.0
    ensures c == TextBlue500 <==> 12.0 <= average < 14.0
    ensures c == TextWarning <==> 10.0 <= average < 12.0
    ensures c == TextDestructive <==> average < 10.0
  {
    if average >= 16.0 then TextAccent
    else if average >= 14.0 then TextPrimary
    else if average >= 12.0 then TextBlue500
    else if average >= 10.0 then TextWarning
    else TextDestructive
  }

  /** A higher average never gets a lower color band. */
  lemma GradeColorMonotone(a: real, b: real)
    requires a <= b
    ensures ColorRank(GetGradeColor(a)) <= ColorRank(GetGradeColor(b))
  {
  }
}
