# Grade tracker core, modelled in Dafny

The grade tracker keeps a tree of teaching units (EUs). Each EU owns
subjects and each subject owns grades. A grade is an exact mark or a range
of plausible marks, and every level carries a coefficient. This project
models four parts of it:

- **The averaging engine.** Each level folds its children into four
  accumulators (current, min and max sums, and the coefficient sum) and
  divides by the coefficient sum when that sum is positive. At the EU and
  overall levels, a child whose own total is not positive is skipped.
  `Averages` holds the specification as left folds. `Calculations` holds
  the loops, each proved equal to its fold. `AverageProperties` and
  `PoolProperties` prove what the folds promise: weighted means, totals,
  skipping of children without data, `min <= current <= max`, and bounds
  within the 0–20 scale.
- **The export codec.** Its key-renaming pass replaces the 13 long
  property names by one-letter aliases on export and restores them on
  import. `Codec` models objects as ordered property lists, so the
  `compressed[key] = value` assignment is modelled exactly: an existing key
  keeps its place and takes the new value. `CodecProperties` proves the
  following:
  - the two tables are inverse;
  - both passes keep key order and are idempotent;
  - decompressing a compressed value gives it back whenever no key is
    already an alias;
  - a long key and its alias in one object collide.
- **The dialogs.** Each submit handler is a function from the form's text
  fields to an optional entity or an error. Each dialog is a class whose
  fields are its form state. `FormInput` holds what the dialogs share.
- **The tree edits.** Adding, replacing by id and removing by id are
  modelled in `Collections`, `SubjectCard`, `EUCard` and `IndexPage`,
  together with their effect on the averages.

Numbers are `real`. `parseFloat` is a parameter `parse: string ->
Option<real>`, where `None` stands for NaN. Number-to-text conversion is a
parameter `show`. Fresh ids are parameters.

## Model

| member | source | states |
|---|---|---|
| Calculations.CalculateSubjectAverage | src/lib/gradeCalculations.ts:4-36 | result equals `SubjectStats`: all zeros with no grades, otherwise each grade's weighted contribution summed (an exact mark in all three sums, a range's midpoint, min and max separately) and divided by the coefficient sum, or 0 when that sum is not positive |
| Calculations.AccumulateGrade | src/lib/gradeCalculations.ts:14-28 | the callback adds the grade's coefficient to the total and exactly its weighted contribution (`Weighted`) to the three running sums |
| Calculations.AccumulatePooled | src/lib/euCalculations.ts:14-23 | the callback adds a child's averages times its coefficient, and its coefficient to the total, exactly when the child's total is positive; otherwise the sums are unchanged |
| Calculations.CalculateEUAverage | src/lib/euCalculations.ts:4-31 | result equals `EUStats`: zeros with no subjects, otherwise subjects with positive total pooled by subject coefficient, divided under the same guard |
| Calculations.CalculateGeneralAverage | src/lib/gradeCalculations.ts:38-65 | result equals `GeneralStats`: zeros for no EUs, otherwise EUs with positive total pooled by EU coefficient |
| Calculations.CalculateGeneralAverageFromEUs | src/lib/euCalculations.ts:33-60 | result equals `GeneralStats`, the specification `CalculateGeneralAverage` meets, so the two return the same stats for every input |
| Calculations.GetGradeColor | src/lib/gradeCalculations.ts:69-75 | each band exactly: accent from 16 up, primary in [14, 16), blue in [12, 14), warning in [10, 12), destructive below 10 |
| Calculations.GradeColorMonotone | src/lib/gradeCalculations.ts:69-75 | a higher average never gets a lower band of the 16/14/12/10 ladder |
| AverageProperties.AverageIsWeightedMean | src/lib/gradeCalculations.ts:30-35 | total is the coefficient sum; with a positive sum each average times the sum is its weighted sum; otherwise all three averages are 0, so there is no division by zero |
| AverageProperties.SubjectTotalIsCoefficientSum | src/lib/gradeCalculations.ts:14-34 | a subject's total is the sum of its grades' coefficients, whatever their sign |
| AverageProperties.GradeSumsSnoc | src/lib/gradeCalculations.ts:17-27 | one more grade adds exactly its weighted contribution to the four sums |
| AverageProperties.SingleExactGrade | src/lib/gradeCalculations.ts:17-35 | one exact grade v with coefficient c > 0 gives current = min = max = v and total = c |
| AverageProperties.SingleRangeGrade | src/lib/gradeCalculations.ts:22-35 | one range grade gives its midpoint, its min and its max, and total = its coefficient |
| AverageProperties.SubjectStatsOrdered | src/lib/gradeCalculations.ts:14-33 | positive coefficients and ordered ranges give min <= current <= max |
| AverageProperties.SubjectStatsInScale | src/lib/gradeCalculations.ts:14-33 | if every mark and bound is in [lo, hi] and every coefficient is positive, a non-empty subject's three averages are in [lo, hi] and its total is positive |
| PoolProperties.EUStatsSkipsSilentSubject | src/lib/euCalculations.ts:14-23 | inserting or removing a subject whose total is not positive leaves the EU stats unchanged |
| PoolProperties.GeneralStatsSkipsSilentEU | src/lib/gradeCalculations.ts:48-57 | inserting or removing an EU whose total is not positive leaves the overall stats unchanged |
| PoolProperties.EUTotalIsContributingCoeff | src/lib/euCalculations.ts:17-29 | the EU total is the sum of the coefficients of its subjects with positive total |
| PoolProperties.GeneralTotalIsContributingCoeff | src/lib/gradeCalculations.ts:51-63 | the overall total is the sum of the coefficients of the EUs with positive total |
| PoolProperties.SingleGradedSubject | src/lib/euCalculations.ts:14-30 | an EU whose only subject has data and coefficient k > 0 has that subject's three averages and total k |
| PoolProperties.EUStatsOrdered | src/lib/euCalculations.ts:17-30 | if every contributing subject is ordered and has a positive coefficient, so is the EU |
| PoolProperties.EUStatsInScale | src/lib/euCalculations.ts:17-30 | subjects inside [lo, hi] keep a contributing EU inside [lo, hi] |
| PoolProperties.GeneralStatsOrdered | src/lib/gradeCalculations.ts:48-64 | ordered contributing EUs with positive coefficients give ordered overall stats |
| PoolProperties.GeneralStatsInScale | src/lib/gradeCalculations.ts:48-64 | EUs inside [lo, hi] keep the overall averages inside [lo, hi] |
| PoolProperties.TreeStatsOrdered | src/lib/gradeCalculations.ts:38-65 | a tree of positive coefficients and ordered ranges has min <= current <= max for every EU and overall |
| PoolProperties.TreeStatsOnTwentyScale | src/lib/gradeCalculations.ts:38-65 | if every mark and bound is on the 0–20 scale, so are the overall averages |
| Codec.Put | src/lib/exportCompression.ts:39-41 | after `obj[k] = v` the object has key k, and its keys are exactly the old keys plus k |
| Codec.RenameKeys | src/lib/exportCompression.ts:29-65 | the recursive pass (map over arrays, assignment loop over object entries) equals `Rename` with the given table |
| Codec.RenameItems | src/lib/exportCompression.ts:32-34 | the array case: the result holds, in order, each element renamed with the same table |
| Codec.RenameMembers | src/lib/exportCompression.ts:36-42 | the object case: the result is what assigning each renamed property, in entry order, into a fresh object gives, a repeated key keeping its first place and its last value |
| Codec.CompressObject | src/lib/exportCompression.ts:29-46 | equals `Rename` with the forward table |
| Codec.DecompressObject | src/lib/exportCompression.ts:48-65 | equals `Rename` with the reverse table |
| CodecProperties.KeyTablesAreInverse | src/lib/exportCompression.ts:4-27 | each table undoes the other and no alias is a long key, so the 13 aliases are pairwise distinct |
| CodecProperties.PutKeepsDistinct | src/lib/exportCompression.ts:40 | assigning into an object with distinct keys keeps the keys distinct |
| CodecProperties.LookupRoundTrip | src/lib/exportCompression.ts:39 | for a key that is not an alias, looking up the alias and then the long name gives the key back |
| CodecProperties.RenamedKeysDistinct | src/lib/exportCompression.ts:38-41 | distinct keys outside the inverse table stay distinct after renaming, so no assignment overwrites another |
| CodecProperties.RenameLeavesNoTableKeys | src/lib/exportCompression.ts:29-65 | after one pass no object key anywhere is a key of the table, and all objects have distinct keys |
| CodecProperties.RenameFixesWellKeyed | src/lib/exportCompression.ts:29-65 | a value whose keys are distinct and avoid the table is renamed to itself |
| CodecProperties.EUJsonWellKeyed | src/lib/exportCompression.ts:67-69 | an exported EU has distinct keys at every depth, and none of them lies in any set that avoids the tree's twelve property names, the set of aliases included |
| CodecProperties.AliasesAvoidTreeKeys | src/lib/exportCompression.ts:4-27 | no property name of the entity tree is one of the one-letter aliases |
| CodecProperties.AssignFacts | src/lib/exportCompression.ts:37-42 | the rebuilt object has distinct keys and only input properties, and equals its input when the input keys are distinct |
| CodecProperties.RenameObjectInOrder | src/lib/exportCompression.ts:36-43 | without collisions, property i of the result is property i of the input with its key looked up and its value renamed |
| CodecProperties.RenameRoundTrip | src/lib/exportCompression.ts:29-65 | renaming by a table and then by its inverse gives back every value whose objects have distinct keys outside the inverse's keys |
| CodecProperties.CompressRoundTrip | src/lib/exportCompression.ts:29-65 | decompress(compress(v)) = v when no object key of v is one of the 13 aliases |
| CodecProperties.CompressKeepsKeyOrder | src/lib/exportCompression.ts:38-41 | compression keeps the order and number of an object's properties |
| CodecProperties.DecompressKeepsKeyOrder | src/lib/exportCompression.ts:57-60 | decompression keeps the order and number of an object's properties |
| CodecProperties.CompressIdempotent | src/lib/exportCompression.ts:29-46 | compressing twice is compressing once |
| CodecProperties.DecompressIdempotent | src/lib/exportCompression.ts:48-65 | decompressing twice is decompressing once |
| CodecProperties.RenameShape | src/lib/exportCompression.ts:30-34 | null, booleans, numbers and strings (the "exact"/"range" tags included) pass unchanged; arrays keep their length; objects never grow |
| CodecProperties.AliasCollisionLosesData | src/lib/exportCompression.ts:38-41 | for every object holding both a long key and its alias: the compressed object is shorter, the alias holds the compressed value of whichever of the two came later, and decompression does not give the object back |
| CodecProperties.IdAndAliasCollide | src/lib/exportCompression.ts:38-41 | `{"id": 1, "i": 2}` compresses to `{"i": 2}` and comes back as `{"id": 2}` |
| CodecProperties.AssignDropsRepeat | src/lib/exportCompression.ts:37-41 | a key that occurs twice among the entries makes the rebuilt object shorter than its input |
| CodecProperties.AssignLastWins | src/lib/exportCompression.ts:37-41 | the last entry with a given key ends up in the rebuilt object as it is |
| CodecProperties.ExportImportRoundTrip | src/lib/exportCompression.ts:67-91 | decompressing an exported tree gives back exactly the tree's JSON value |
| Import.TrimEmptyIffBlank | src/components/ImportDialog.tsx:26 | the trimmed code is empty exactly when every character is ECMAScript white space |
| Import.Validate | src/components/ImportDialog.tsx:21-51 | blank code gives the missing-code error; otherwise acceptance holds exactly when the code decodes to an array whose elements all pass the EU check, and the accepted data is that array |
| Import.CheckEUs | src/components/ImportDialog.tsx:40-44 | the loop accepts exactly when every element has a truthy id and name and a numeric coefficient |
| Import.FindMeetsKeys | src/components/ImportDialog.tsx:41 | a property read finds a value exactly when the key is present, and that value belongs to the object |
| Import.EUJsonAcceptable | src/components/ImportDialog.tsx:40-44 | an exported EU passes the element check exactly when its id and name are non-empty |
| Import.CheckIsShallow | src/components/ImportDialog.tsx:39-44 | after an id, a name and a number, the element check ignores every further property, so subjects and grades are not inspected |
| Import.ExportedTreeAccepted | src/components/ImportDialog.tsx:32-46 | an exported tree is accepted exactly when every EU has a non-empty id and name, and the preview is then that tree |
| Import.ImportDialog.constructor | src/components/ImportDialog.tsx:17-19 | empty code, no error, no preview |
| Import.ImportDialog.SetImportCode | src/components/ImportDialog.tsx:89 | only the code changes |
| Import.ImportDialog.HandleValidate | src/components/ImportDialog.tsx:21-51 | every rejection leaves no preview and sets its error; an acceptance stores exactly the decoded array and clears the error |
| Import.ImportDialog.HandleImport | src/components/ImportDialog.tsx:53-67 | the preview is handed over only when present and confirmed, after which code, preview and error are cleared and the dialog closes; otherwise nothing changes |
| Import.ImportDialog.HandleClose | src/components/ImportDialog.tsx:69-74 | clears code, preview and error and closes |
| Collections.ReplaceById | src/pages/Index.tsx:36 | same length; each element with the new element's id is replaced, the rest stay; the id list is unchanged |
| Collections.RemoveById | src/pages/Index.tsx:40 | keeps exactly the elements whose id differs and never adds any; multiplicity is `RemoveKeepsMultiplicity`, order is `RemoveDistributes` |
| Collections.ReplaceAbsentIsIdentity | src/pages/Index.tsx:36 | replacing with an id nobody has is the identity |
| Collections.RemoveAbsentIsIdentity | src/pages/Index.tsx:40 | removing an id nobody has is the identity |
| Collections.RemoveKeepsMultiplicity | src/pages/Index.tsx:40 | as a multiset the result lies within the input, and every element whose id differs keeps its number of occurrences |
| Collections.RemoveDistributes | src/pages/Index.tsx:40 | removal distributes over concatenation, so the relative order of kept elements is preserved |
| Collections.RemoveIdempotent | src/pages/Index.tsx:40 | removing twice is removing once |
| Collections.RemoveUniqueDropsOne | src/pages/Index.tsx:40 | with unique ids, removing a present id drops exactly one element |
| Collections.RemoveKeepsUnique | src/pages/Index.tsx:40 | removal keeps ids unique |
| Collections.EditsKeepIdsUnique | src/pages/Index.tsx:25-41 | replace and remove keep ids unique, and so does appending an element with a fresh id |
| SubjectCard.AddGrade | src/components/SubjectCard.tsx:27-33 | one grade appended with the fresh id (overriding any in the draft), the draft's name, value and coefficient, no date and no confirmation flag; other fields and earlier grades unchanged |
| SubjectCard.DeleteGrade | src/components/SubjectCard.tsx:35-40 | grades with that id disappear, the others stay; other subject fields unchanged; the body filters with `RemoveById`, whose order and multiplicities `RemoveDistributes` and `RemoveKeepsMultiplicity` state |
| SubjectCard.UpdateGrade | src/components/SubjectCard.tsx:42-47 | only grades with the updated id are replaced; length and other fields unchanged |
| SubjectCard.AddGradeGrowsTotal | src/components/SubjectCard.tsx:27-31 | the subject's total grows by exactly the new grade's coefficient |
| SubjectCard.CoeffSumAfterRemove | src/components/SubjectCard.tsx:38 | the coefficient sum after filtering is the old sum minus the coefficients of the grades with that id |
| SubjectCard.DeleteGradeShrinksTotal | src/components/SubjectCard.tsx:35-40 | the subject's total shrinks by the coefficients of the removed grades |
| SubjectCard.DeleteAbsentGrade | src/components/SubjectCard.tsx:35-40 | deleting an id no grade has leaves the subject unchanged |
| EUCard.AddSubject | src/components/EUCard.tsx:27-38 | one subject appended with the fresh id, the form's name, coefficient and color and no grades; other EU fields unchanged |
| EUCard.UpdateSubject | src/components/EUCard.tsx:40-45 | only subjects with the updated id are replaced; length, order and other EU fields kept |
| EUCard.DeleteSubject | src/components/EUCard.tsx:47-52 | subjects with that id disappear, the others stay; other EU fields unchanged; the body filters with `RemoveById`, whose order and multiplicities `RemoveDistributes` and `RemoveKeepsMultiplicity` state |
| EUCard.AddSubjectKeepsStats | src/components/EUCard.tsx:27-36 | adding a subject leaves the EU stats unchanged |
| EUCard.RemoveSilentSubjects | src/components/EUCard.tsx:50 | filtering out subjects without data leaves the EU's pooled sums unchanged |
| EUCard.DeleteSilentSubjectKeepsStats | src/components/EUCard.tsx:47-52 | deleting subjects without data leaves the EU stats unchanged |
| IndexPage.AddEU | src/pages/Index.tsx:25-31 | one EU appended with the fresh id, the given data and no subjects; existing EUs unchanged |
| IndexPage.UpdateEU | src/pages/Index.tsx:35-37 | each EU with the updated id is replaced; length and the other EUs kept |
| IndexPage.DeleteEU | src/pages/Index.tsx:39-41 | EUs with that id removed, all others kept; the body filters with `RemoveById`, whose order and multiplicities `RemoveDistributes` and `RemoveKeepsMultiplicity` state |
| IndexPage.AbsentIdEditsAreIdentity | src/pages/Index.tsx:35-41 | updating or deleting an absent id is the identity |
| IndexPage.AddEUKeepsGeneralStats | src/pages/Index.tsx:25-31 | adding an EU leaves the overall stats unchanged |
| IndexPage.RemoveSilentEUs | src/pages/Index.tsx:40 | filtering out EUs without data leaves the overall pooled sums unchanged |
| IndexPage.DeleteSilentEUKeepsGeneralStats | src/pages/Index.tsx:39-41 | deleting EUs without data leaves the overall stats unchanged |
| IndexPage.DashboardVariant | src/pages/Index.tsx:71 | success exactly from 12, danger exactly below 10, warning in between |
| IndexPage.VariantAgreesWithColor | src/pages/Index.tsx:71 | danger is the destructive band, warning the warning band, success the bands from blue up |
| IndexPage.Dashboard.constructor | src/pages/Index.tsx:13-17 | the stored list, add dialog hidden |
| IndexPage.Dashboard.SetShowAddEU | src/pages/Index.tsx:86 | only the dialog flag changes |
| IndexPage.Dashboard.HandleAddEU | src/pages/Index.tsx:25-33 | the list becomes `AddEU` of the old list and the add dialog closes |
| IndexPage.Dashboard.HandleUpdateEU | src/pages/Index.tsx:35-37 | the list becomes `UpdateEU` of the old list |
| IndexPage.Dashboard.HandleDeleteEU | src/pages/Index.tsx:39-41 | the list becomes `DeleteEU` of the old list |
| IndexPage.Dashboard.Overview | src/pages/Index.tsx:23-71 | the overall stats of the current list and the card variant for their current average |
| FormInput.OrDefault | src/components/AddGradeDialog.tsx:32 | a non-zero parsed number is kept, NaN and 0 give the default, so a non-zero default never yields 0 |
| FormInput.OrZeroOnlyReplacesNaN | src/components/AddGradeDialog.tsx:26-27 | with fallback 0, the falsy-number fallback only replaces NaN |
| FormInput.ReadEntity | src/components/AddSubjectDialog.tsx:24-31 | nothing without a name and a coefficient text; otherwise name and color as typed and a coefficient that is never 0: the parsed one when non-zero, else 1 (negatives pass) |
| AddGrade.SubmitNewGrade | src/components/AddGradeDialog.tsx:22-33 | nothing without a name and a coefficient text; otherwise the kind as chosen, unreadable marks or bounds read as 0, and the coefficient is the parsed one when that is a non-zero number and exactly 1 when it is unreadable or 0 |
| AddGrade.InvertedRangeAndNegativeCoefficientPass | src/components/AddGradeDialog.tsx:25-33 | a negative coefficient and a range with min > max are emitted as typed, giving a grade outside the ordered-average hypotheses |
| AddGrade.AddGradeDialog.constructor | src/components/AddGradeDialog.tsx:15-20 | the blank form: empty name and values, exact type, coefficient "1" |
| AddGrade.AddGradeDialog.Enter | src/components/AddGradeDialog.tsx:57-129 | the form becomes what was typed |
| AddGrade.AddGradeDialog.HandleSubmit | src/components/AddGradeDialog.tsx:22-42 | emits `SubmitNewGrade` of the form, then resets to the blank form; an incomplete form is left as it is |
| EditGrade.SubmitEdit | src/components/EditGradeDialog.tsx:59-97 | succeeds exactly when name and coefficient are present, the coefficient reads as > 0, and the exact mark, or both bounds with min <= max, read; the result keeps id and date and takes name, value, coefficient and confirmation from the form |
| EditGrade.EditedGradeIsValid | src/components/EditGradeDialog.tsx:62-87 | every emitted grade has a positive coefficient and ordered bounds |
| EditGrade.UnchangedFormRoundTrip | src/components/EditGradeDialog.tsx:18-97 | submitting the form as it opened returns the grade with its confirmation made explicit, when parse reads back what show writes for the grade's coefficient and its mark or bounds |
| EditGrade.AddAcceptsWhatEditRefuses | src/components/EditGradeDialog.tsx:62-66 | a negative coefficient passes the add dialog and is refused by the edit dialog |
| EditGrade.EditGradeDialog.constructor | src/components/EditGradeDialog.tsx:18-30 | the form seeded from the grade: the other kind's inputs empty, confirmation false when absent |
| EditGrade.EditGradeDialog.Enter | src/components/EditGradeDialog.tsx:112-193 | the text inputs and the checkbox become what was typed; the type is untouched |
| EditGrade.EditGradeDialog.SetType | src/components/EditGradeDialog.tsx:50-57 | switching type clears the other kind's inputs and nothing else; choosing the same type changes nothing |
| EditGrade.EditGradeDialog.HandleSubmit | src/components/EditGradeDialog.tsx:59-97 | the guard chain returns `SubmitEdit` of the current form and leaves the form as it is |
| AddSubject.FreshFormDefaults | src/components/AddSubjectDialog.tsx:20-31 | a fresh form with a name typed emits coefficient 1 and the first preset color |
| AddSubject.AddSubjectDialog.constructor | src/components/AddSubjectDialog.tsx:20-22 | empty name, coefficient "1", first preset color |
| AddSubject.AddSubjectDialog.Enter | src/components/AddSubjectDialog.tsx:52-83 | the form becomes what was typed and picked |
| AddSubject.AddSubjectDialog.HandleSubmit | src/components/AddSubjectDialog.tsx:24-37 | emits `ReadEntity` of the form, then resets; an incomplete form is left as it is |
| EditSubject.Submit | src/components/EditSubjectDialog.tsx:32-40 | nothing without name and coefficient text; otherwise id and grades kept, name, coefficient and color replaced by what `ReadEntity` reads |
| EditSubject.UnchangedFormRoundTrip | src/components/EditSubjectDialog.tsx:22-40 | the unchanged form gives the subject back, except that coefficient 0 comes back as 1, when parse reads back what show writes for the coefficient |
| EditSubject.EditSubjectDialog.constructor | src/components/EditSubjectDialog.tsx:22-24 | the form seeded from the subject |
| EditSubject.EditSubjectDialog.Enter | src/components/EditSubjectDialog.tsx:57-88 | the form becomes what was typed and picked; the open flag is untouched |
| EditSubject.EditSubjectDialog.HandleSubmit | src/components/EditSubjectDialog.tsx:32-42 | emits `Submit` of the form; a success closes the dialog, an incomplete form leaves it open |
| EditEU.Submit | src/components/EditEUDialog.tsx:32-40 | nothing without name and coefficient text; otherwise id and subjects kept, name, coefficient and color replaced by what `ReadEntity` reads |
| EditEU.UnchangedFormRoundTrip | src/components/EditEUDialog.tsx:22-40 | the unchanged form gives the EU back, except that coefficient 0 comes back as 1, when parse reads back what show writes for the coefficient |
| EditEU.EditEUDialog.constructor | src/components/EditEUDialog.tsx:22-24 | the form seeded from the EU |
| EditEU.EditEUDialog.Enter | src/components/EditEUDialog.tsx:57-88 | the form becomes what was typed and picked; the open flag is untouched |
| EditEU.EditEUDialog.HandleSubmit | src/components/EditEUDialog.tsx:32-42 | emits `Submit` of the form; a success closes the dialog, an incomplete form leaves it open |

## Left out

- JSON text, base64 and URI escaping around the codec are library calls. Export stops at the renamed value. Import takes a `decode` parameter that returns `None` whenever trimming, base64 or JSON parsing throws.
- Persistence is not modelled. The dashboard's constructor takes the stored list, and saving to `localStorage` is left out.
- The clipboard is not modelled.
- `window.confirm` is a boolean parameter of `HandleImport`.
- `alert` messages are the error values of `SubmitEdit`.
- Rendering is not modelled: JSX, card styling, `toFixed(2)`, the preview counts, and expand/collapse flags.
- IEEE-754 doubles are not modelled: numbers are reals, NaN is `None`, and rounding and infinities are absent. `Truthy` therefore treats every number other than 0 as truthy.
- `crypto.randomUUID` is a fresh-id parameter.
- The effects that re-seed the edit dialogs when the entity prop changes are not modelled. Only the initial form (the constructors) and the type-switch effect are.
- `Json` has no `undefined` case, so the `obj === undefined` return of `compressObject` and `decompressObject` is not modelled. Exported trees and parsed JSON never hold `undefined`, and its `null` twin is modelled as `JNull`, which passes through unchanged.
- `KEY_MAP[key]` is a finite map, so inherited prototype properties such as `constructor` are not found. JavaScript's reordering of integer-like keys and the `__proto__` key are not modelled either.
- `Import.Property`: in the code, reading a property of `null` throws. The model reads it as `undefined` instead. Both lead to the same invalid-code error, because the element check fails either way.
- The cast of the accepted preview to `EU[]` is unchecked in the code. `HandleImport` hands over the JSON values themselves, and what the parent does with them is not part of this model.
- The id-before-spread order in `handleAddSubject` and `handleAddEU` is not modelled. It would only matter if the form data carried an `id`, and the forms never emit one.
- `AddEUDialog` is not part of this model. The page's `HandleAddEU` takes the data it would emit.
- Risk scoring and grades attached directly to an EU are described for the application, but no code in the modelled files implements them. The model follows the code and leaves both out.
