/** The grade edits of a subject card: each builds the updated subject that
    the card hands to its parent. */
module SubjectCard {
  import opened Wrappers
  import opened GradeTypes
  import opened Averages
  import opened Collections
  import AverageProperties

  function GradeId(g: Grade): string {
    g.id
  }

  /** `handleAddGrade`: the draft goes at the end with a fresh id; the id is
      written after the spread, so it wins over any id in the draft. */
  function AddGrade(s: Subject, draft: GradeDraft, freshId: string): (r: Subject)
    ensures r.(grades := s.grades) == s
    ensures |r.grades| == |s.grades| + 1 && r.grades[..|s.grades|] == s.grades
    ensures var g := r.grades[|s.grades|];
      && g.id == freshId && g.name == draft.name && g.value == draft.value
      && g.coefficient == draft.coefficient && g.date.None? && g.isConfirmed.None?
  {
    s.(grades := s.grades + [Grade(freshId, draft.value, draft.coefficient, draft.name, None, None)])
  }

  /** `handleDeleteGrade`: the grades carrying that id disappear, the others
      stay in order. */
  function DeleteGrade(s: Subject, gradeId: string): (r: Subject)
    ensures r.(grades := s.grades) == s
    ensures forall g | g in r.grades :: g in s.grades && g.id != gradeId
    ensures forall g | g in s.grades && g.id != gradeId :: g in r.grades
  {
    s.(grades := RemoveById(s.grades, GradeId, gradeId))
  }

  /** `handleUpdateGrade`: the grades carrying the updated grade's id are
      replaced by it, the length and the other grades are kept. */
  function UpdateGrade(s: Subject, updated: Grade): (r: Subject)
    ensures r.(grades := s.grades) == s
    ensures |r.grades| == |s.grades|
    ensures forall i | 0 <= i < |s.grades| ::
      r.grades[i] == (if s.grades[i].id == updated.id then updated else s.grades[i])
  {
    s.(grades := ReplaceById(s.grades, GradeId, updated))
  }

  /** After adding a grade the subject's total grows by exactly the new
      grade's coefficient. */
  lemma AddGradeGrowsTotal(s: Subject, draft: GradeDraft, freshId: string)
    ensures SubjectStats(AddGrade(s, draft, freshId)).total == SubjectStats(s).total + draft.coefficient
  {
    var r := AddGrade(s, draft, freshId);
    AverageProperties.SubjectTotalIsCoefficientSum(s);
    AverageProperties.SubjectTotalIsCoefficientSum(r);
    AverageProperties.CoeffSumSnoc(s.grades, r.grades[|s.grades|]);
  }

  /** Sum of the coefficients of the grades carrying id `k`. */
  function CoeffOfId(gs: seq<Grade>, k: string): real {
    if gs == [] then 0.0
    else (if gs[0].id == k then gs[0].coefficient else 0.0) + CoeffOfId(gs[1..], k)
  }

  lemma {:induction false} CoeffSumAfterRemove(gs: seq<Grade>, k: string)
    ensures AverageProperties.CoeffSum(RemoveById(gs, GradeId, k))
         == AverageProperties.CoeffSum(gs) - CoeffOfId(gs, k)
  {
    if gs != [] {
      CoeffSumAfterRemove(gs[1..], k);
      if gs[0].id != k {
        assert ([gs[0]] + RemoveById(gs[1..], GradeId, k))[1..] == RemoveById(gs[1..], GradeId, k);
      }
    }
  }

  /** After deleting, the subject's total shrinks by the coefficients of the
      removed grades. */
  lemma DeleteGradeShrinksTotal(s: Subject, gradeId: string)
    ensures SubjectStats(DeleteGrade(s, gradeId)).total == SubjectStats(s).total - CoeffOfId(s.grades, gradeId)
  {
    AverageProperties.SubjectTotalIsCoefficientSum(s);
    AverageProperties.SubjectTotalIsCoefficientSum(DeleteGrade(s, gradeId));
    CoeffSumAfterRemove(s.grades, gradeId);
  }

  /** Deleting an id that no grade carries leaves the subject as it is. */
  lemma DeleteAbsentGrade(s: Subject, gradeId: string)
    requires gradeId !in Ids(s.grades, GradeId)
    ensures DeleteGrade(s, gradeId) == s
  {
    RemoveAbsentIsIdentity(s.grades, GradeId, gradeId);
  }
}
