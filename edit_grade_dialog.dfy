/** The edit-grade dialog: a form seeded from the grade, strict checks on
    submit, and a type switch that clears the other kind's inputs. */
module EditGrade {
  import opened Wrappers
  import opened GradeTypes
  import opened FormInput
  import AverageProperties
  import AddGrade

  datatype EditForm = EditForm(
    name: string, kind: ValueKind,
    exactValue: string, minValue: string, maxValue: string,
    coefficient: string, isConfirmed: bool)

  /** The message each refusal shows; `Incomplete` is the silent return. */
  datatype EditError = Incomplete | BadCoefficient | BadValue | BadBounds | InvertedRange

  /** `isNaN(parseFloat(s)) || s === ''`. */
  predicate Unreadable(s: string, parse: Parser) {
    parse(s).None? || s == ""
  }

  /** The form the dialog opens with; `show` is `Number.prototype.toString`. */
  function InitialForm(g: Grade, show: real -> string): EditForm {
    match g.value
    case Exact(v) => EditForm(g.name, ExactKind, show(v), "", "", show(g.coefficient), g.isConfirmed.GetOr(false))
    case Range(lo, hi) => EditForm(g.name, RangeKind, "", show(lo), show(hi), show(g.coefficient), g.isConfirmed.GetOr(false))
  }

  /** `handleSubmit`: the updated grade or the reason it was refused. */
  function SubmitEdit(g: Grade, form: EditForm, parse: Parser): (r: Result<Grade, EditError>)
    ensures r == Failure(Incomplete) <==> form.name == "" || form.coefficient == ""
    ensures r.Success? <==>
      && form.name != "" && form.coefficient != ""
      && parse(form.coefficient).Some? && parse(form.coefficient).value > 0.0
      && match form.kind
         case ExactKind => !Unreadable(form.exactValue, parse)
         case RangeKind =>
           && !Unreadable(form.minValue, parse) && !Unreadable(form.maxValue, parse)
           && parse(form.minValue).value <= parse(form.maxValue).value
    ensures r.Success? ==>
      && r.value.id == g.id && r.value.date == g.date
      && r.value.name == form.name && r.value.isConfirmed == Some(form.isConfirmed)
      && Some(r.value.coefficient) == parse(form.coefficient)
    ensures r.Success? ==> match r.value.value
      case Exact(v) => form.kind == ExactKind && parse(form.exactValue) == Some(v)
      case Range(lo, hi) => form.kind == RangeKind && parse(form.minValue) == Some(lo) && parse(form.maxValue) == Some(hi)
  {
    if form.name == "" || form.coefficient == "" then Failure(Incomplete)
    else
      var coeff := parse(form.coefficient);
      if coeff.None? || coeff.value <= 0.0 then Failure(BadCoefficient)
      else
        var value: Result<GradeValue, EditError> :=
          match form.kind
          case ExactKind =>
            if Unreadable(form.exactValue, parse) then Failure(BadValue)
            else Success(Exact(parse(form.exactValue).value))
          case RangeKind =>
            if Unreadable(form.minValue, parse) || Unreadable(form.maxValue, parse) then Failure(BadBounds)
            else if parse(form.minValue).value > parse(form.maxValue).value then Failure(InvertedRange)
            else Success(Range(parse(form.minValue).value, parse(form.maxValue).value));
        match value
        case Failure(e) => Failure(e)
        case Success(v) =>
          Success(g.(name := form.name, value := v, coefficient := coeff.value, isConfirmed := Some(form.isConfirmed)))
  }

  /** Every grade the dialog emits has a positive coefficient and ordered
      bounds, the hypotheses under which the averages are ordered. */
  lemma EditedGradeIsValid(g: Grade, form: EditForm, parse: Parser)
    ensures SubmitEdit(g, form, parse).Success? ==> AverageProperties.ValidGrade(SubmitEdit(g, form, parse).value)
  {
  }

  /** Submitting the form as it opened gives the grade back, with
      `isConfirmed` made explicit, whenever `parse` reads back what `show`
      writes for the grade's own coefficient, mark or bounds, and the grade
      itself would pass the checks. */
  lemma UnchangedFormRoundTrip(g: Grade, show: real -> string, parse: Parser)
    requires ReadsBack(g.coefficient, show, parse)
    requires match g.value
      case Exact(v) => ReadsBack(v, show, parse)
      case Range(lo, hi) => ReadsBack(lo, show, parse) && ReadsBack(hi, show, parse)
    requires g.name != "" && AverageProperties.ValidGrade(g)
    ensures SubmitEdit(g, InitialForm(g, show), parse) == Success(g.(isConfirmed := Some(g.isConfirmed.GetOr(false))))
  {
  }

  /** What the add dialog emits, the edit dialog may refuse: a negative
      coefficient passes one and not the other. */
  lemma AddAcceptsWhatEditRefuses(g: Grade, form: AddGrade.GradeForm, parse: Parser, c: real)
    requires form.name != "" && form.coefficient != "" && parse(form.coefficient) == Some(c) && c < 0.0
    ensures AddGrade.SubmitNewGrade(form, parse).Some?
    ensures SubmitEdit(g, EditForm(form.name, form.kind, form.exactValue, form.minValue, form.maxValue, form.coefficient, false), parse)
         == Failure(BadCoefficient)
  {
  }

  /** The dialog's state: the grade being edited and one field per input. */
  class EditGradeDialog {
    const grade: Grade
    var name: string
    var kind: ValueKind
    var exactValue: string
    var minValue: string
    var maxValue: string
    var coefficient: string
    var isConfirmed: bool

    function Form(): EditForm
      reads this
    {
      EditForm(name, kind, exactValue, minValue, maxValue, coefficient, isConfirmed)
    }

    constructor(grade: Grade, show: real -> string)
      ensures this.grade == grade && Form() == InitialForm(grade, show)
    {
      this.grade := grade;
      name := grade.name;
      kind := if grade.value.Exact? then ExactKind else RangeKind;
      exactValue := if grade.value.Exact? then show(grade.value.value) else "";
      minValue := if grade.value.Range? then show(grade.value.min) else "";
      maxValue := if grade.value.Range? then show(grade.value.max) else "";
      coefficient := show(grade.coefficient);
      isConfirmed := grade.isConfirmed.GetOr(false);
    }

    /** The text inputs' and the checkbox's change handlers, taken together;
        the type radio goes through SetType. */
    method Enter(name: string, exactValue: string, minValue: string, maxValue: string,
                 coefficient: string, isConfirmed: bool)
      modifies this
      ensures Form() == EditForm(name, old(kind), exactValue, minValue, maxValue, coefficient, isConfirmed)
    {
      this.name, this.exactValue, this.minValue, this.maxValue, this.coefficient, this.isConfirmed :=
        name, exactValue, minValue, maxValue, coefficient, isConfirmed;
    }

    /** Choosing a type; the effect keyed on `type` then clears the inputs
        of the other kind. Choosing the current type changes nothing. */
    method SetType(t: ValueKind)
      modifies this
      ensures kind == t
      ensures name == old(name) && coefficient == old(coefficient) && isConfirmed == old(isConfirmed)
      ensures t == old(kind) ==> Form() == old(Form())
      ensures t != old(kind) && t == ExactKind ==>
        minValue == "" && maxValue == "" && exactValue == old(exactValue)
      ensures t != old(kind) && t == RangeKind ==>
        exactValue == "" && minValue == old(minValue) && maxValue == old(maxValue)
    {
      if t != kind {
        kind := t;
        if t == ExactKind {
          minValue := "";
          maxValue := "";
        } else {
          exactValue := "";
        }
      }
    }

    /** `handleSubmit`: the grade handed to `onUpdate`, or the refusal; the
        form itself is left as it is either way. */
    method HandleSubmit(parse: Parser) returns (r: Result<Grade, EditError>)
      ensures r == SubmitEdit(grade, Form(), parse)
    {
      if name == "" || coefficient == "" {
        return Failure(Incomplete);
      }
      var coeffValue := parse(coefficient);
      if coeffValue.None? || coeffValue.value <= 0.0 {
        return Failure(BadCoefficient);
      }
      var gradeValue: GradeValue;
      if kind == ExactKind {
        var exactVal := parse(exactValue);
        if exactVal.None? || exactValue == "" {
          return Failure(BadValue);
        }
        gradeValue := Exact(exactVal.value);
      } else {
        var minVal := parse(minValue);
        var maxVal := parse(maxValue);
        if minVal.None? || minValue == "" || maxVal.None? || maxValue == "" {
          return Failure(BadBounds);
        }
        if minVal.value > maxVal.value {
          return Failure(InvertedRange);
        }
        gradeValue := Range(minVal.value, maxVal.value);
      }
      r := Success(grade.(name := name, value := gradeValue, coefficient := coeffValue.value,
                          isConfirmed := Some(isConfirmed)));
    }
  }
}
