/** The main page: the list of EUs it owns and edits, and the dashboard
    figures it derives from that list. */
module IndexPage {
  import opened GradeTypes
  import opened Averages
  import opened Collections
  import opened Calculations
  import PoolProperties

  function EUId(e: EU): string {
    e.id
  }

  /** `handleAddEU`: one new EU with a fresh id, the dialog's data and no
      subjects goes at the end; the existing EUs are untouched. */
  function AddEU(eus: seq<EU>, data: EntityData, freshId: string): (r: seq<EU>)
    ensures |r| == |eus| + 1 && r[..|eus|] == eus
    ensures var e := r[|eus|];
      && e.id == freshId && e.name == data.name && e.coefficient == data.coefficient
      && e.color == data.color && e.subjects == []
  {
    eus + [EU(freshId, data.name, data.coefficient, data.color, [])]
  }

  /** `handleUpdateEU`: every EU carrying the updated one's id is replaced. */
  function UpdateEU(eus: seq<EU>, updated: EU): (r: seq<EU>)
    ensures |r| == |eus|
    ensures forall i | 0 <= i < |eus| :: r[i] == (if eus[i].id == updated.id then updated else eus[i])
  {
    ReplaceById(eus, EUId, updated)
  }

  /** `handleDeleteEU`: every EU carrying that id is removed, the rest keep
      their order. */
  function DeleteEU(eus: seq<EU>, euId: string): (r: seq<EU>)
    ensures forall e | e in r :: e in eus && e.id != euId
    ensures forall e | e in eus && e.id != euId :: e in r
  {
    RemoveById(eus, EUId, euId)
  }

  /** Updating or deleting an id that no EU carries changes nothing. */
  lemma AbsentIdEditsAreIdentity(eus: seq<EU>, updated: EU, euId: string)
    ensures updated.id !in Ids(eus, EUId) ==> UpdateEU(eus, updated) == eus
    ensures euId !in Ids(eus, EUId) ==> DeleteEU(eus, euId) == eus
  {
    if updated.id !in Ids(eus, EUId) {
      ReplaceAbsentIsIdentity(eus, EUId, updated);
    }
    if euId !in Ids(eus, EUId) {
      RemoveAbsentIsIdentity(eus, EUId, euId);
    }
  }

  /** A new EU has no subjects, so the overall statistics do not move. */
  lemma AddEUKeepsGeneralStats(eus: seq<EU>, data: EntityData, freshId: string)
    ensures GeneralStats(AddEU(eus, data, freshId)) == GeneralStats(eus)
  {
    var r := AddEU(eus, data, freshId);
    var e := r[|eus|];
    assert r == eus + [e] + [];
    PoolProperties.GeneralStatsSkipsSilentEU(eus, e, []);
    assert eus + [] == eus;
  }

  lemma EUPoolSnoc(eus: seq<EU>, e: EU)
    ensures EUPool(eus + [e]) == Plus(EUPool(eus), Pooled(EUStats(e), e.coefficient))
  {
    assert (eus + [e])[..|eus|] == eus;
  }

  lemma {:induction false} RemoveSilentEUs(eus: seq<EU>, k: string)
    requires forall e | e in eus && e.id == k :: EUStats(e).total <= 0.0
    ensures EUPool(RemoveById(eus, EUId, k)) == EUPool(eus)
  {
    if eus != [] {
      var n := |eus| - 1;
      var init, last := eus[..n], eus[n];
      assert eus == init + [last];
      RemoveDistributes(init, [last], EUId, k);
      RemoveSilentEUs(init, k);
      var kept := RemoveById(init, EUId, k);
      EUPoolSnoc(init, last);
      if last.id != k {
        assert RemoveById([last], EUId, k) == [last];
        EUPoolSnoc(kept, last);
      } else {
        assert RemoveById([last], EUId, k) == [];
        assert kept + [] == kept;
        PoolProperties.SilentAddsNothing(EUPool(init), EUStats(last), last.coefficient);
      }
    }
  }

  /** Deleting EUs that have no data leaves the overall statistics as they
      were. */
  lemma DeleteSilentEUKeepsGeneralStats(eus: seq<EU>, euId: string)
    requires forall e | e in eus && e.id == euId :: EUStats(e).total <= 0.0
    ensures GeneralStats(DeleteEU(eus, euId)) == GeneralStats(eus)
  {
    RemoveSilentEUs(eus, euId);
  }

  /** The variant of the "current average" card. */
  datatype Variant = Success | Warning | Danger

  function DashboardVariant(current: real): (v: Variant)
    ensures v == Success <==> current >= 12.0
    ensures v == Warning <==> 10.0 <= current < 12.0
    ensures v == Danger <==> current < 10.0
  {
    if current >= 12.0 then Success else if current >= 10.0 then Warning else Danger
  }

  /** The card's variant agrees with the color ladder of the averages:
      danger is exactly the destructive band, success exactly the bands from
      blue upwards, warning exactly the warning band. */
  lemma VariantAgreesWithColor(current: real)
    ensures DashboardVariant(current) == Danger <==> GetGradeColor(current) == TextDestructive
    ensures DashboardVariant(current) == Warning <==> GetGradeColor(current) == TextWarning
    ensures DashboardVariant(current) == Success <==> ColorRank(GetGradeColor(current)) >= 2
  {
  }

  /** The page state: the EU list and whether the add dialog is shown. */
  class Dashboard {
    var eus: seq<EU>
    var showAddEU: bool

    /** `stored` is what the page reads back from storage (empty when
        nothing was saved). */
    constructor(stored: seq<EU>)
      ensures eus == stored && !showAddEU
    {
      eus := stored;
      showAddEU := false;
    }

    method SetShowAddEU(show: bool)
      modifies this
      ensures showAddEU == show && eus == old(eus)
    {
      showAddEU := show;
    }

    method HandleAddEU(data: EntityData, freshId: string)
      modifies this
      ensures eus == AddEU(old(eus), data, freshId) && !showAddEU
    {
      eus := eus + [EU(freshId, data.name, data.coefficient, data.color, [])];
      showAddEU := false;
    }

    method HandleUpdateEU(updated: EU)
      modifies this
      ensures eus == UpdateEU(old(eus), updated) && showAddEU == old(showAddEU)
    {
      eus := ReplaceById(eus, EUId, updated);
    }

    method HandleDeleteEU(euId: string)
      modifies this
      ensures eus == DeleteEU(old(eus), euId) && showAddEU == old(showAddEU)
    {
      eus := RemoveById(eus, EUId, euId);
    }

    /** The dashboard figures: the overall statistics and the variant of the
        current-average card. */
    method Overview() returns (stats: GradeStats, variant: Variant)
      ensures stats == GeneralStats(eus)
      ensures variant == Success <==> stats.current >= 12.0
      ensures variant == Danger <==> stats.current < 10.0
    {
      stats := CalculateGeneralAverage(eus);
      variant := if stats.current >= 12.0 then Success else if stats.current >= 10.0 then Warning else Danger;
    }
  }
}
