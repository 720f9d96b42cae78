/** The add-subject dialog: name, coefficient and one of the preset colors,
    read on submit and reset afterwards. */
module AddSubject {
  import opened Wrappers
  import opened GradeTypes
  import opened FormInput

  /** The state the dialog starts in and returns to after each submit. */
  const BlankSubjectForm := EntityForm("", "1", PresetColors[0])

  /** A fresh form with only a name typed: coefficient 1 (when "1" reads as
      1) and the first preset color. */
  lemma FreshFormDefaults(name: string, parse: Parser)
    requires name != "" && parse("1") == Some(1.0)
    ensures ReadEntity(BlankSubjectForm.(name := name), parse) == Some(EntityData(name, 1.0, "#6366F1"))
  {
  }

  class AddSubjectDialog {
    var name: string
    var coefficient: string
    var selectedColor: string

    function Form(): EntityForm
      reads this
    {
      EntityForm(name, coefficient, selectedColor)
    }

    constructor()
      ensures Form() == BlankSubjectForm
    {
      name, coefficient, selectedColor := "", "1", PresetColors[0];
    }

    /** The inputs' and swatches' change handlers, taken together. */
    method Enter(form: EntityForm)
      modifies this
      ensures Form() == form
    {
      name, coefficient, selectedColor := form.name, form.coefficient, form.color;
    }

    /** `handleSubmit`: the data handed to `onAdd`, then the form reset; an
        incomplete form is left as it is. */
    method HandleSubmit(parse: Parser) returns (added: Option<EntityData>)
      modifies this
      ensures added == ReadEntity(old(Form()), parse)
      ensures added.Some? ==> Form() == BlankSubjectForm
      ensures added.None? ==> Form() == old(Form())
    {
      if name == "" || coefficient == "" {
        return None;
      }
      added := Some(EntityData(name, OrDefault(parse(coefficient), 1.0), selectedColor));
      name := "";
      coefficient := "1";
      selectedColor := PresetColors[0];
    }
  }
}
