/** The entity tree of the grade tracker: teaching units (EU) own subjects,
    subjects own grades. Identifiers, names and colors are strings. */
module GradeTypes {
  import opened Wrappers

  /** A grade is either a single mark or a plausible interval of marks. */
  datatype GradeValue = Exact(value: real) | Range(min: real, max: real)

  /** `date` and `isConfirmed` are optional properties of the stored object:
      `None` stands for a property that is absent. */
  datatype Grade = Grade(
    id: string,
    value: GradeValue,
    coefficient: real,
    name: string,
    date: Option<string>,
    isConfirmed: Option<bool>)

  datatype Subject = Subject(
    id: string,
    name: string,
    coefficient: real,
    color: string,
    grades: seq<Grade>)

  /** A teaching unit ("unité d'enseignement"). */
  datatype EU = EU(
    id: string,
    name: string,
    coefficient: real,
    color: string,
    subjects: seq<Subject>)

  /** Result of aggregation: expected, worst-case and best-case averages and
      the sum of the coefficients that contributed. */
  datatype GradeStats = GradeStats(current: real, min: real, max: real, total: real)

  /** The object the add-grade form emits: no id and no confirmation flag. */
  datatype GradeDraft = GradeDraft(name: string, value: GradeValue, coefficient: real)

  /** The object the subject and EU forms emit. */
  datatype EntityData = EntityData(name: string, coefficient: real, color: string)
}
