/** What the form dialogs share: reading numbers typed as text, the
    `parseFloat(x) || d` fallback, the grade kinds, the color presets and the
    name/coefficient/color rule of the subject and EU forms. */
module FormInput {
  import opened Wrappers
  import opened GradeTypes

  /** `parseFloat` on a field's text; None stands for NaN. */
  type Parser = string -> Option<real>

  /** `parse` reads back the non-empty text `show` writes for `x`. */
  predicate ReadsBack(x: real, show: real -> string, parse: Parser) {
    parse(show(x)) == Some(x) && show(x) != ""
  }

  /** `parseFloat(x) || d`: NaN and 0 are both falsy, so both give `d`. */
  function OrDefault(parsed: Option<real>, d: real): (r: real)
    ensures r == d || parsed == Some(r)
    ensures parsed.Some? && parsed.value != 0.0 ==> r == parsed.value
    ensures d != 0.0 ==> r != 0.0
  {
    match parsed
    case Some(x) => if x != 0.0 then x else d
    case None => d
  }

  /** With default 0 the fallback only replaces NaN. */
  lemma OrZeroOnlyReplacesNaN(parsed: Option<real>)
    ensures OrDefault(parsed, 0.0) == parsed.GetOr(0.0)
  {
  }

  /** The radio group of the grade forms. */
  datatype ValueKind = ExactKind | RangeKind

  /** The twelve swatches of the subject and EU forms (two repeat). */
  const PresetColors: seq<string> := [
    "#6366F1", "#8B5CF6", "#EC4899", "#F43F5E",
    "#EF4444", "#F97316", "#F59E0B", "#10B981",
    "#06B6D4", "#3B82F6", "#6366F1", "#8B5CF6"]

  /** The fields of the subject and EU forms. */
  datatype EntityForm = EntityForm(name: string, coefficient: string, color: string)

  /** The rule every subject and EU form applies on submit: nothing without
      a name and a coefficient text, otherwise the name and color as typed
      and the coefficient read with fallback 1. */
  function ReadEntity(form: EntityForm, parse: Parser): (r: Option<EntityData>)
    ensures r.None? <==> form.name == "" || form.coefficient == ""
    ensures r.Some? ==> r.value.name == form.name && r.value.color == form.color
    ensures r.Some? ==> r.value.coefficient != 0.0
    ensures r.Some? && parse(form.coefficient).Some? && parse(form.coefficient).value != 0.0 ==>
      r.value.coefficient == parse(form.coefficient).value
    ensures r.Some? && (parse(form.coefficient).None? || parse(form.coefficient).value == 0.0) ==>
      r.value.coefficient == 1.0
  {
    if form.name == "" || form.coefficient == "" then None
    else Some(EntityData(form.name, OrDefault(parse(form.coefficient), 1.0), form.color))
  }
}
