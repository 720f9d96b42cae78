/** The subject edits of an EU card: each builds the updated EU that the
    card hands to the page. */
module EUCard {
  import opened Wrappers
  import opened GradeTypes
  import opened Averages
  import opened Collections
  import PoolProperties

  function SubjectId(s: Subject): string {
    s.id
  }

  /** `handleAddSubject`: a new subject with a fresh id, the dialog's name,
      coefficient and color and no grades goes at the end. */
  function AddSubject(eu: EU, data: EntityData, freshId: string): (r: EU)
    ensures r.(subjects := eu.subjects) == eu
    ensures |r.subjects| == |eu.subjects| + 1 && r.subjects[..|eu.subjects|] == eu.subjects
    ensures var s := r.subjects[|eu.subjects|];
      && s.id == freshId && s.name == data.name && s.coefficient == data.coefficient
      && s.color == data.color && s.grades == []
  {
    eu.(subjects := eu.subjects + [Subject(freshId, data.name, data.coefficient, data.color, [])])
  }

  /** `handleUpdateSubject`: only the subjects carrying the updated one's id
      are replaced; length, order and the other EU fields are kept. */
  function UpdateSubject(eu: EU, updated: Subject): (r: EU)
    ensures r.(subjects := eu.subjects) == eu
    ensures |r.subjects| == |eu.subjects|
    ensures forall i | 0 <= i < |eu.subjects| ::
      r.subjects[i] == (if eu.subjects[i].id == updated.id then updated else eu.subjects[i])
  {
    eu.(subjects := ReplaceById(eu.subjects, SubjectId, updated))
  }

  /** `handleDeleteSubject`: the subjects carrying that id disappear, the
      others stay in order. */
  function DeleteSubject(eu: EU, subjectId: string): (r: EU)
    ensures r.(subjects := eu.subjects) == eu
    ensures forall s | s in r.subjects :: s in eu.subjects && s.id != subjectId
    ensures forall s | s in eu.subjects && s.id != subjectId :: s in r.subjects
  {
    eu.(subjects := RemoveById(eu.subjects, SubjectId, subjectId))
  }

  /** A freshly added subject has no grades, so the EU's statistics do not
      move. */
  lemma AddSubjectKeepsStats(eu: EU, data: EntityData, freshId: string)
    ensures EUStats(AddSubject(eu, data, freshId)) == EUStats(eu)
  {
    var r := AddSubject(eu, data, freshId);
    var s := r.subjects[|eu.subjects|];
    assert r.subjects == eu.subjects + [s] + [];
    PoolProperties.EUStatsSkipsSilentSubject(r, eu.subjects, s, []);
    assert r.(subjects := eu.subjects + []) == eu;
  }

  lemma SubjectPoolSnoc(ss: seq<Subject>, s: Subject)
    ensures SubjectPool(ss + [s]) == Plus(SubjectPool(ss), Pooled(SubjectStats(s), s.coefficient))
  {
    assert (ss + [s])[..|ss|] == ss;
  }

  lemma {:induction false} RemoveSilentSubjects(ss: seq<Subject>, k: string)
    requires forall s | s in ss && s.id == k :: SubjectStats(s).total <= 0.0
    ensures SubjectPool(RemoveById(ss, SubjectId, k)) == SubjectPool(ss)
  {
    if ss != [] {
      var n := |ss| - 1;
      var init, last := ss[..n], ss[n];
      assert ss == init + [last];
      RemoveDistributes(init, [last], SubjectId, k);
      RemoveSilentSubjects(init, k);
      var kept := RemoveById(init, SubjectId, k);
      SubjectPoolSnoc(init, last);
      if last.id != k {
        assert RemoveById([last], SubjectId, k) == [last];
        SubjectPoolSnoc(kept, last);
      } else {
        assert RemoveById([last], SubjectId, k) == [];
        assert kept + [] == kept;
        PoolProperties.SilentAddsNothing(SubjectPool(init), SubjectStats(last), last.coefficient);
      }
    }
  }

  /** Deleting subjects that have no data (no grades, say) leaves the EU's
      statistics unchanged. */
  lemma DeleteSilentSubjectKeepsStats(eu: EU, subjectId: string)
    requires forall s | s in eu.subjects && s.id == subjectId :: SubjectStats(s).total <= 0.0
    ensures EUStats(DeleteSubject(eu, subjectId)) == EUStats(eu)
  {
    RemoveSilentSubjects(eu.subjects, subjectId);
  }
}
