/** The edit-subject dialog: a form seeded from the subject; a submit replaces
    its name, coefficient and color and closes the dialog. */
module EditSubject {
  import opened Wrappers
  import opened GradeTypes
  import opened FormInput

  /** The form the dialog opens with; `show` is `Number.prototype.toString`. */
  function InitialForm(subject: Subject, show: real -> string): EntityForm {
    EntityForm(subject.name, show(subject.coefficient), subject.color)
  }

  /** The updated subject a submit hands to `onUpdate`: nothing without a name
      and a coefficient text; otherwise the id and the grades are kept and
      only name, coefficient and color are replaced. */
  function Submit(subject: Subject, form: EntityForm, parse: Parser): (r: Option<Subject>)
    ensures r.None? <==> form.name == "" || form.coefficient == ""
    ensures r.Some? ==> r.value.id == subject.id && r.value.grades == subject.grades
    ensures r.Some? ==> ReadEntity(form, parse) == Some(EntityData(r.value.name, r.value.coefficient, r.value.color))
  {
    match ReadEntity(form, parse)
    case None => None
    case Some(d) => Some(subject.(name := d.name, coefficient := d.coefficient, color := d.color))
  }

  /** Submitting the form as it opened gives the subject back when `parse`
      reads back what `show` writes for its coefficient, unless that
      coefficient is 0, which comes back as 1. */
  lemma UnchangedFormRoundTrip(subject: Subject, show: real -> string, parse: Parser)
    requires ReadsBack(subject.coefficient, show, parse)
    requires subject.name != ""
    ensures Submit(subject, InitialForm(subject, show), parse)
         == Some(if subject.coefficient == 0.0 then subject.(coefficient := 1.0) else subject)
  {
  }

  class EditSubjectDialog {
    const subject: Subject
    var name: string
    var coefficient: string
    var selectedColor: string
    var open: bool

    function Form(): EntityForm
      reads this
    {
      EntityForm(name, coefficient, selectedColor)
    }

    constructor(subject: Subject, show: real -> string, open: bool)
      ensures this.subject == subject && Form() == InitialForm(subject, show) && this.open == open
    {
      this.subject := subject;
      name, coefficient, selectedColor := subject.name, show(subject.coefficient), subject.color;
      this.open := open;
    }

    /** The inputs' and swatches' change handlers, taken together. */
    method Enter(form: EntityForm)
      modifies this
      ensures Form() == form && open == old(open)
    {
      name, coefficient, selectedColor := form.name, form.coefficient, form.color;
    }

    /** `handleSubmit`: the subject handed to `onUpdate`; a successful submit
        closes the dialog, an incomplete form leaves it open. */
    method HandleSubmit(parse: Parser) returns (updated: Option<Subject>)
      modifies this
      ensures updated == Submit(subject, old(Form()), parse)
      ensures Form() == old(Form())
      ensures updated.Some? ==> !open
      ensures updated.None? ==> open == old(open)
    {
      if name == "" || coefficient == "" {
        return None;
      }
      updated := Some(subject.(name := name, coefficient := OrDefault(parse(coefficient), 1.0), color := selectedColor));
      open := false;
    }
  }
}
