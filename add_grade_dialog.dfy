/** The add-grade dialog: six text and radio fields, read with silent
    fallbacks on submit and reset afterwards. */
module AddGrade {
  import opened Wrappers
  import opened GradeTypes
  import opened FormInput
  import AverageProperties

  datatype GradeForm = GradeForm(
    name: string, kind: ValueKind,
    exactValue: string, minValue: string, maxValue: string,
    coefficient: string)

  /** The state the dialog starts in and returns to after each submit. */
  const BlankGradeForm := GradeForm("", ExactKind, "", "", "", "1")

  /** `handleSubmit`'s emitted object: nothing without a name and a
      coefficient text; an unreadable mark or bound becomes 0, an unreadable
      or zero coefficient becomes 1, and nothing else is checked. */
  function SubmitNewGrade(form: GradeForm, parse: Parser): (r: Option<GradeDraft>)
    ensures r.None? <==> form.name == "" || form.coefficient == ""
    ensures r.Some? ==> r.value.name == form.name
    ensures r.Some? ==> (r.value.value.Exact? <==> form.kind == ExactKind)
    ensures r.Some? && r.value.value.Exact? ==> r.value.value.value == parse(form.exactValue).GetOr(0.0)
    ensures r.Some? && r.value.value.Range? ==>
      && r.value.value.min == parse(form.minValue).GetOr(0.0)
      && r.value.value.max == parse(form.maxValue).GetOr(0.0)
    ensures r.Some? ==> r.value.coefficient != 0.0
    ensures r.Some? && parse(form.coefficient).Some? && parse(form.coefficient).value != 0.0 ==>
      r.value.coefficient == parse(form.coefficient).value
    ensures r.Some? && (parse(form.coefficient).None? || parse(form.coefficient).value == 0.0) ==>
      r.value.coefficient == 1.0
  {
    if form.name == "" || form.coefficient == "" then None
    else
      var value := match form.kind
        case ExactKind => Exact(OrDefault(parse(form.exactValue), 0.0))
        case RangeKind => Range(OrDefault(parse(form.minValue), 0.0), OrDefault(parse(form.maxValue), 0.0));
      Some(GradeDraft(form.name, value, OrDefault(parse(form.coefficient), 1.0)))
  }

  /** No range or sign check: a negative coefficient and a range whose
      minimum exceeds its maximum are emitted as typed. */
  lemma InvertedRangeAndNegativeCoefficientPass(form: GradeForm, parse: Parser, lo: real, hi: real, c: real)
    requires form.name != "" && form.coefficient != "" && form.kind == RangeKind
    requires parse(form.coefficient) == Some(c) && c < 0.0
    requires parse(form.minValue) == Some(lo) && parse(form.maxValue) == Some(hi) && lo > hi
    ensures SubmitNewGrade(form, parse) == Some(GradeDraft(form.name, Range(lo, hi), c))
    ensures !AverageProperties.ValidGrade(Grade("", Range(lo, hi), c, form.name, None, None))
  {
  }

  /** The dialog's state: one field per input. */
  class AddGradeDialog {
    var name: string
    var kind: ValueKind
    var exactValue: string
    var minValue: string
    var maxValue: string
    var coefficient: string

    function Form(): GradeForm
      reads this
    {
      GradeForm(name, kind, exactValue, minValue, maxValue, coefficient)
    }

    constructor()
      ensures Form() == BlankGradeForm
    {
      name, kind, exactValue, minValue, maxValue, coefficient := "", ExactKind, "", "", "", "1";
    }

    /** The inputs' change handlers, taken together. */
    method Enter(form: GradeForm)
      modifies this
      ensures Form() == form
    {
      name, kind, exactValue, minValue, maxValue, coefficient :=
        form.name, form.kind, form.exactValue, form.minValue, form.maxValue, form.coefficient;
    }

    /** `handleSubmit`: the emitted draft (what `onAdd` receives), then the
        form reset; an incomplete form is left as it is. */
    method HandleSubmit(parse: Parser) returns (added: Option<GradeDraft>)
      modifies this
      ensures added == SubmitNewGrade(old(Form()), parse)
      ensures added.Some? ==> Form() == BlankGradeForm
      ensures added.None? ==> Form() == old(Form())
    {
      if name == "" || coefficient == "" {
        return None;
      }
      var value: GradeValue;
      if kind == ExactKind {
        value := Exact(OrDefault(parse(exactValue), 0.0));
      } else {
        value := Range(OrDefault(parse(minValue), 0.0), OrDefault(parse(maxValue), 0.0));
      }
      added := Some(GradeDraft(name, value, OrDefault(parse(coefficient), 1.0)));
      name := "";
      kind := ExactKind;
      exactValue := "";
      minValue := "";
      maxValue := "";
      coefficient := "1";
    }
  }
}
