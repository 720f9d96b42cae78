/** The edit-EU dialog: a form seeded from the EU; a submit replaces
    its name, coefficient and color and closes the dialog. */
module EditEU {
  import opened Wrappers
  import opened GradeTypes
  import opened FormInput

  /** The form the dialog opens with; `show` is `Number.prototype.toString`. */
  function InitialForm(eu: EU, show: real -> string): EntityForm {
    EntityForm(eu.name, show(eu.coefficient), eu.color)
  }

  /** The updated EU a submit hands to `onUpdate`: nothing without a name
      and a coefficient text; otherwise the id and the subjects are kept and
      only name, coefficient and color are replaced. */
  function Submit(eu: EU, form: EntityForm, parse: Parser): (r: Option<EU>)
    ensures r.None? <==> form.name == "" || form.coefficient == ""
    ensures r.Some? ==> r.value.id == eu.id && r.value.subjects == eu.subjects
    ensures r.Some? ==> ReadEntity(form, parse) == Some(EntityData(r.value.name, r.value.coefficient, r.value.color))
  {
    match ReadEntity(form, parse)
    case None => None
    case Some(d) => Some(eu.(name := d.name, coefficient := d.coefficient, color := d.color))
  }

  /** Submitting the form as it opened gives the EU back when `parse`
      reads back what `show` writes for its coefficient, unless that
      coefficient is 0, which comes back as 1. */
  lemma UnchangedFormRoundTrip(eu: EU, show: real -> string, parse: Parser)
    requires ReadsBack(eu.coefficient, show, parse)
    requires eu.name != ""
    ensures Submit(eu, InitialForm(eu, show), parse)
         == Some(if eu.coefficient == 0.0 then eu.(coefficient := 1.0) else eu)
  {
  }

  class EditEUDialog {
    const eu: EU
    var name: string
    var coefficient: string
    var selectedColor: string
    var open: bool

    function Form(): EntityForm
      reads this
    {
      EntityForm(name, coefficient, selectedColor)
    }

    constructor(eu: EU, show: real -> string, open: bool)
      ensures this.eu == eu && Form() == InitialForm(eu, show) && this.open == open
    {
      this.eu := eu;
      name, coefficient, selectedColor := eu.name, show(eu.coefficient), eu.color;
      this.open := open;
    }

    /** The inputs' and swatches' change handlers, taken together. */
    method Enter(form: EntityForm)
      modifies this
      ensures Form() == form && open == old(open)
    {
      name, coefficient, selectedColor := form.name, form.coefficient, form.color;
    }

    /** `handleSubmit`: the EU handed to `onUpdate`; a successful submit
        closes the dialog, an incomplete form leaves it open. */
    method HandleSubmit(parse: Parser) returns (updated: Option<EU>)
      modifies this
      ensures updated == Submit(eu, old(Form()), parse)
      ensures Form() == old(Form())
      ensures updated.Some? ==> !open
      ensures updated.None? ==> open == old(open)
    {
      if name == "" || coefficient == "" {
        return None;
      }
      updated := Some(eu.(name := name, coefficient := OrDefault(parse(coefficient), 1.0), color := selectedColor));
      open := false;
    }
  }
}
