# Work-immersion grade sheets, modelled in Dafny

This project models the work-immersion part of the Learning-Opt system:

- **Immersion list** (`Immersion.jsx`). An uploaded student sheet is cleaned to five columns and stored, newest first, in local storage without download URLs. A finished download remembers its URL on one entry, and an entry is deleted through a confirmation dialog.
- **Technical grade page** (`ImmersionTechnical.jsx`). It has fifteen written categories worth 201 points and a 24-step performance scale scanned upwards. Rows are edited in place and found by object identity. Arrow keys move over the input grid.
- **Production grade page** (`ImmersionProduction.jsx`). It has fourteen categories worth 175 points but is rated out of 185, with a 6-step scale scanned downwards. Rows are replaced copy-on-write.
- **`/fill-template` route** (`immersion.py`). It reads the students of an uploaded workbook and extends the template's formatting when needed. It writes one numbered row per student from row 10, sizes columns A to F, and returns the file or an error.

Modules:

| file | module | contents |
|---|---|---|
| `wrappers.dfy` | `Wrappers` | `Option` |
| `js_values.dfy` | `JsValues` | cell values, truthiness and `\|\|`, `trim`, `toUpperCase`, `parseInt`, `parseFloat`, `toFixed(2)` |
| `js_object.dfy` | `JsObject` | insertion-ordered JS objects with `Get`/`Set` |
| `grade_sheet.dfy` | `GradeSheet` | what both grade pages share: row normalisation, the input guards, the scale reference and the two scans, ratings and remark, the department filter |
| `immersion_technical.dfy` | `ImmersionTechnical` | the Technical page |
| `immersion_production.dfy` | `ImmersionProduction` | the Production page |
| `immersion_list.dfy` | `ImmersionList` | the list page |
| `fill_template.dfy` | `FillTemplate` | the route |

Numbers are exact reals and integers. `toFixed(2)` is modelled as the number its text denotes: round half away from zero.

A JS object is a sequence of key/value pairs in insertion order. Key order matters where two raw headers normalise to the same key: the later one's value wins (`NormalizeKeysGet`).

A worksheet is three maps: cell values, cell styles and column widths. As in openpyxl, a cell keeps at most 32767 characters of text and refuses the C0 control characters other than tab, line feed and carriage return.

Calls into the browser and the server are parameters of the operations:
- the file reader's parsed sheet;
- the clock's date text;
- the created object URL;
- whether the template file exists;
- the loaded template.

Production's `writtenMaxScores` holds fourteen categories whose maxima add up to 175, while the rating divides by 185. Both pages' remark is "COMPLETE" or "INCOMPLETE".

## Model

| member | source | states |
|---|---|---|
| JsValues.SkipSpaces | FINAL-main/Learning-Opt-main/frontend/src/pages/ImmersionTechnical.jsx:79 | the index where leading white space ends: everything before it is white space and the character at it is not |
| JsValues.SpacesBefore | FINAL-main/Learning-Opt-main/frontend/src/pages/ImmersionTechnical.jsx:79 | the index where trailing white space starts: everything after it is white space and the character before it is not |
| JsValues.CaseMapping | FINAL-main/Learning-Opt-main/frontend/src/pages/ImmersionTechnical.jsx:59-79 | on ASCII letters: `toUpperCase` leaves no a–z and `toLowerCase` no A–Z; each is idempotent; casing one way after the other equals casing that way alone; strings equal after `toLowerCase` are equal after `toUpperCase` |
| JsValues.DigitEnd | FINAL-main/Learning-Opt-main/frontend/src/pages/ImmersionTechnical.jsx:106 | the end of the longest run of digits from an index |
| JsValues.DigitEndAt | FINAL-main/Learning-Opt-main/frontend/src/pages/ImmersionTechnical.jsx:106 | a run of digits followed by a non-digit (or the end) is exactly where `DigitEnd` stops |
| JsValues.DigitsValueBound | FINAL-main/Learning-Opt-main/frontend/src/pages/ImmersionTechnical.jsx:106 | `k` digits spell a number below 10^k |
| JsValues.Fraction | FINAL-main/Learning-Opt-main/frontend/src/pages/ImmersionTechnical.jsx:127 | the digits after a point spell a value in [0, 1) |
| JsValues.ParseIntOfDigits | FINAL-main/Learning-Opt-main/frontend/src/pages/ImmersionTechnical.jsx:108 | `parseInt(value, 10)` reads a non-empty digit string as the number it spells |
| JsValues.PointedDecimal | FINAL-main/Learning-Opt-main/frontend/src/pages/ImmersionTechnical.jsx:127 | `parseFloat` reads digits, a point and digits as that decimal; a lone point is NaN |
| JsValues.DigitsDecimal | FINAL-main/Learning-Opt-main/frontend/src/pages/ImmersionTechnical.jsx:127 | `parseFloat` reads a digit string as the whole number it spells |
| JsValues.ToFixed2 | FINAL-main/Learning-Opt-main/frontend/src/pages/ImmersionTechnical.jsx:177 | `toFixed(2)` lies within half a hundredth of its argument |
| JsValues.ToFixed2Monotone | FINAL-main/Learning-Opt-main/frontend/src/pages/ImmersionTechnical.jsx:177-182 | rounding to two decimals never reverses an order |
| JsValues.ToFixed2Exact | FINAL-main/Learning-Opt-main/frontend/src/pages/ImmersionTechnical.jsx:177-182 | a number of hundredths is rendered exactly |
| JsObject.Find | FINAL-main/Learning-Opt-main/frontend/src/pages/ImmersionTechnical.jsx:112 | the first position holding a key, or the length when there is none |
| JsObject.FindByKeys | FINAL-main/Learning-Opt-main/frontend/src/pages/ImmersionTechnical.jsx:85-88 | two objects with the same key order find each key at the same position |
| JsObject.GetSet | FINAL-main/Learning-Opt-main/frontend/src/pages/ImmersionTechnical.jsx:112 | after `o[k] = v`, `o[k]` is `v` and every other key reads as before |
| JsObject.KeysOfSet | FINAL-main/Learning-Opt-main/frontend/src/pages/ImmersionTechnical.jsx:79 | assigning keeps the key order; a new key goes last and keys stay unique |
| GradeSheet.NormalizeKeysGet | FINAL-main/Learning-Opt-main/frontend/src/pages/ImmersionTechnical.jsx:76-82 | after normalising the keys, each key holds the value of the last raw key that trims and upper-cases to it |
| GradeSheet.NormalizeKeysUnique | FINAL-main/Learning-Opt-main/frontend/src/pages/ImmersionTechnical.jsx:76-82 | a normalised row has each key once |
| GradeSheet.NormalizeRowSpec | FINAL-main/Learning-Opt-main/frontend/src/pages/ImmersionTechnical.jsx:84-94 | `grades` holds exactly the table's categories in table order, each the row's value or "" when that is falsy; likewise `performance` |
| GradeSheet.AcceptedGradeScore | FINAL-main/Learning-Opt-main/frontend/src/pages/ImmersionTechnical.jsx:105-115 | an accepted grade counts in the total for the number it spells, which is within the category's maximum |
| GradeSheet.GradeGuard | FINAL-main/Learning-Opt-main/frontend/src/pages/ImmersionTechnical.jsx:106-109 | the guard as written (pattern `^\d{0,3}$`, then reject `parseInt > max`) is exactly `GradeAccepted` |
| GradeSheet.AcceptedGradeAtMost999 | FINAL-main/Learning-Opt-main/frontend/src/pages/ImmersionTechnical.jsx:106 | no accepted grade exceeds 999 |
| GradeSheet.GradeEditKeepsRange | FINAL-main/Learning-Opt-main/frontend/src/pages/ImmersionTechnical.jsx:105-115 | an accepted edit of a table category keeps every grade of the row within its maximum |
| GradeSheet.SetKeepsRange | FINAL-main/Learning-Opt-main/frontend/src/pages/ImmersionTechnical.jsx:112 | storing an in-range value under a table key keeps the row in range and its keys in order |
| GradeSheet.PointedPattern | FINAL-main/Learning-Opt-main/frontend/src/pages/ImmersionTechnical.jsx:129 | on digits with one point, `^\d*\.?\d{0,2}$` matches exactly when at most two digits follow the point |
| GradeSheet.DigitsPattern | FINAL-main/Learning-Opt-main/frontend/src/pages/ImmersionTechnical.jsx:129 | the pattern matches every digit string |
| GradeSheet.PerformanceTextShape | FINAL-main/Learning-Opt-main/frontend/src/pages/ImmersionTechnical.jsx:129 | a matching text is digits, or digits, a point and at most two digits |
| GradeSheet.FractionHundredths | FINAL-main/Learning-Opt-main/frontend/src/pages/ImmersionTechnical.jsx:127-129 | at most two decimals stand for a whole number of hundredths |
| GradeSheet.PointedAccepted | FINAL-main/Learning-Opt-main/frontend/src/pages/ImmersionTechnical.jsx:117-137 | digits with a point are accepted if and only if the text is not a lone point, has at most two decimals, and is at most 5 |
| GradeSheet.DigitsAccepted | FINAL-main/Learning-Opt-main/frontend/src/pages/ImmersionTechnical.jsx:117-137 | a digit string is accepted if and only if it spells at most 5 |
| GradeSheet.AcceptedPerformanceValue | FINAL-main/Learning-Opt-main/frontend/src/pages/ImmersionTechnical.jsx:117-137 | an accepted non-empty performance is a number of hundredths in [0, 500], so it stays in [0, 5] |
| GradeSheet.PointedHundredths | FINAL-main/Learning-Opt-main/frontend/src/pages/ImmersionTechnical.jsx:127 | digits, a point and at most two digits parse to a number of hundredths |
| GradeSheet.DigitsHundredths | FINAL-main/Learning-Opt-main/frontend/src/pages/ImmersionTechnical.jsx:127 | digits parse to a whole number of hundredths |
| GradeSheet.PerformanceGuardRejectsThreeDecimals | FINAL-main/Learning-Opt-main/frontend/src/pages/ImmersionTechnical.jsx:129 | "1.234" is rejected |
| GradeSheet.ItDepartmentView | FINAL-main/Learning-Opt-main/frontend/src/pages/ImmersionTechnical.jsx:97-103 | a department written " it " is keyed "IT", and that row is shown exactly in views that are neither Support nor Production |
| GradeSheet.SumEntriesBounded | FINAL-main/Learning-Opt-main/frontend/src/pages/ImmersionProduction.jsx:134-138 | with every grade in range, the sum of all entries lies between 0 and the sum of the maxima |
| GradeSheet.SumFieldsPrefix | FINAL-main/Learning-Opt-main/frontend/src/pages/ImmersionTechnical.jsx:171-176 | summing the first keys' values equals summing the first entries |
| GradeSheet.SumFieldsOfKeys | FINAL-main/Learning-Opt-main/frontend/src/pages/ImmersionTechnical.jsx:171-176 | summing the listed fields equals summing every entry, when the list is the row's keys |
| GradeSheet.BestIndex | FINAL-main/Learning-Opt-main/frontend/src/pages/ImmersionTechnical.jsx:139-151 | reference meaning of the lookup: the entry with the greatest limit not above the score, or none |
| GradeSheet.RisesFromOrdered | FINAL-main/Learning-Opt-main/frontend/src/pages/ImmersionTechnical.jsx:22-47 | a scale that rises step by step rises between any two entries |
| GradeSheet.FallsFromOrdered | FINAL-main/Learning-Opt-main/frontend/src/pages/ImmersionProduction.jsx:21-28 | a scale that falls step by step falls between any two entries |
| GradeSheet.RisingScale | FINAL-main/Learning-Opt-main/frontend/src/pages/ImmersionTechnical.jsx:22-47 | a rising scale starting at 60 or more is strictly ascending, and its grades follow its limits |
| GradeSheet.FallingScale | FINAL-main/Learning-Opt-main/frontend/src/pages/ImmersionProduction.jsx:21-28 | a falling scale ending at 60 or more is strictly descending, and its grades follow its limits |
| GradeSheet.ScaleGradeBounds | FINAL-main/Learning-Opt-main/frontend/src/pages/ImmersionTechnical.jsx:139-151 | every score gets a grade between 60 and the top entry's |
| GradeSheet.ScaleGradeMonotone | FINAL-main/Learning-Opt-main/frontend/src/pages/ImmersionTechnical.jsx:139-151 | a higher score never gets a lower grade |
| GradeSheet.AscendingScanFindsBest | FINAL-main/Learning-Opt-main/frontend/src/pages/ImmersionTechnical.jsx:143-149 | an upward scan that stops at the first limit above the score ends just past the best entry |
| GradeSheet.DescendingScanFindsBest | FINAL-main/Learning-Opt-main/frontend/src/pages/ImmersionProduction.jsx:128-131 | a downward scan stops at the best entry |
| GradeSheet.ScanAscending | FINAL-main/Learning-Opt-main/frontend/src/pages/ImmersionTechnical.jsx:142-150 | the loop with `break` returns the reference grade of the score |
| GradeSheet.ScanDescending | FINAL-main/Learning-Opt-main/frontend/src/pages/ImmersionProduction.jsx:128-131 | the loop with early return (60 after it) returns the reference grade of the score |
| GradeSheet.WrittenRatingRange | FINAL-main/Learning-Opt-main/frontend/src/pages/ImmersionTechnical.jsx:177 | the written rating maps [0, denominator] into [50, 100], with exactly 50 and 100 at the ends |
| GradeSheet.AssembleMonotone | FINAL-main/Learning-Opt-main/frontend/src/pages/ImmersionTechnical.jsx:177-183 | a higher total or performance grade never lowers the final grade nor withdraws COMPLETE |
| GradeSheet.RemarkByPerformance | FINAL-main/Learning-Opt-main/frontend/src/pages/ImmersionTechnical.jsx:179-183 | with a written rating in [50, 100], a performance grade of 64 or less is INCOMPLETE and 86 or more is COMPLETE |
| GradeSheet.KeptIndicesThrows | FINAL-main/Learning-Opt-main/frontend/src/pages/ImmersionTechnical.jsx:97-98 | the filter throws if and only if some department is a non-zero number |
| GradeSheet.KeptIndicesKeeps | FINAL-main/Learning-Opt-main/frontend/src/pages/ImmersionTechnical.jsx:97-103 | otherwise the filter keeps exactly the rows whose department the active view shows, in increasing position |
| GradeSheet.Positions | FINAL-main/Learning-Opt-main/frontend/src/pages/ImmersionTechnical.jsx:102 | the list 0..n-1 |
| GradeSheet.KeptIndicesNoFlag | FINAL-main/Learning-Opt-main/frontend/src/pages/ImmersionTechnical.jsx:102 | with no view flag every row is kept at its own position |
| GradeSheet.IndexOf | FINAL-main/Learning-Opt-main/frontend/src/pages/ImmersionTechnical.jsx:372 | `findIndex(r => r === row)` gives the first position holding the row, or -1 when it is absent |
| GradeSheet.IndexOfPicked | FINAL-main/Learning-Opt-main/frontend/src/pages/ImmersionTechnical.jsx:371-372 | with distinct rows, the displayed row's identity lookup yields the position the filter took it from |
| ImmersionTechnical.MaximaPrefix | FINAL-main/Learning-Opt-main/frontend/src/pages/ImmersionTechnical.jsx:4-20 | the running sums of the table's maxima |
| ImmersionTechnical.MaxScoresFacts | FINAL-main/Learning-Opt-main/frontend/src/pages/ImmersionTechnical.jsx:4-20 | fifteen distinct categories whose maxima add up to the denominator 201; the summed fields are exactly the table's keys in order |
| ImmersionTechnical.ScaleRisesFrom | FINAL-main/Learning-Opt-main/frontend/src/pages/ImmersionTechnical.jsx:22-47 | the scale rises step by step from every entry |
| ImmersionTechnical.ScaleFacts | FINAL-main/Learning-Opt-main/frontend/src/pages/ImmersionTechnical.jsx:22-47 | the limits strictly ascend, grades never fall as limits rise, and no grade is below 60 |
| ImmersionTechnical.LookupPerformanceGrade | FINAL-main/Learning-Opt-main/frontend/src/pages/ImmersionTechnical.jsx:139-151 | 0 for NaN, otherwise the reference grade of the score |
| ImmersionTechnical.LookupMonotone | FINAL-main/Learning-Opt-main/frontend/src/pages/ImmersionTechnical.jsx:139-151 | a higher appraisal never gets a lower grade |
| ImmersionTechnical.ScaleGradeBelowOne | FINAL-main/Learning-Opt-main/frontend/src/pages/ImmersionTechnical.jsx:22-24 | below 1 the grade is 60 |
| ImmersionTechnical.ScaleGradeFrom32 | FINAL-main/Learning-Opt-main/frontend/src/pages/ImmersionTechnical.jsx:37 | from 3.2 the grade is at least 86 |
| ImmersionTechnical.ScaleGradeRange | FINAL-main/Learning-Opt-main/frontend/src/pages/ImmersionTechnical.jsx:139-151 | every grade lies in [60, 100]; from 5 it is exactly 100 |
| ImmersionTechnical.ComputeResultsBounds | FINAL-main/Learning-Opt-main/frontend/src/pages/ImmersionTechnical.jsx:171-191 | with grades in range: total = sum of all grades, in [0, 201]; written rating in [50, 100]; performance grade 0 or in [60, 100] |
| ImmersionTechnical.RemarkThresholds | FINAL-main/Learning-Opt-main/frontend/src/pages/ImmersionTechnical.jsx:171-191 | an appraisal that is NaN or below 1 gives INCOMPLETE; from 3.2 it gives COMPLETE, whatever the written scores |
| ImmersionTechnical.PerfectRow | FINAL-main/Learning-Opt-main/frontend/src/pages/ImmersionTechnical.jsx:171-191 | full marks and appraisal 5 give 201, 100.00, 100, 100.00, COMPLETE |
| ImmersionTechnical.BlankRow | FINAL-main/Learning-Opt-main/frontend/src/pages/ImmersionTechnical.jsx:171-191 | an untouched row gives 0, 50.00, 0, 15.00, INCOMPLETE |
| ImmersionTechnical.ZeroAppraisalRow | FINAL-main/Learning-Opt-main/frontend/src/pages/ImmersionTechnical.jsx:139-191 | all scores 0 with appraisal "0" gives 0, 50.00, 60, 57.00, INCOMPLETE: "0" parses and gets the scale's lowest grade, unlike a blank appraisal |
| ImmersionTechnical.GradeGuardExamples | FINAL-main/Learning-Opt-main/frontend/src/pages/ImmersionTechnical.jsx:105-109 | "11" is rejected for WI (maximum 10), "10" is accepted, and "1000" is rejected for every category |
| ImmersionTechnical.RowRecord.constructor | FINAL-main/Learning-Opt-main/frontend/src/pages/ImmersionTechnical.jsx:89-93 | a row object holds the normalised row |
| ImmersionTechnical.TechnicalSheet.constructor | FINAL-main/Learning-Opt-main/frontend/src/pages/ImmersionTechnical.jsx:58-95 | one fresh, distinct row object per content row holding its normalised row; flags read from the path |
| ImmersionTechnical.TechnicalSheet.HandleGradeChange | FINAL-main/Learning-Opt-main/frontend/src/pages/ImmersionTechnical.jsx:105-115 | the row's grades become `Set(grades, field, value)` when accepted, else stay; nothing else changes; grades stay in range |
| ImmersionTechnical.TechnicalSheet.HandlePerformanceChange | FINAL-main/Learning-Opt-main/frontend/src/pages/ImmersionTechnical.jsx:117-137 | the row's performance becomes the value when accepted, else stays; nothing else changes; performance stays "" or in [0, 5] |
| ImmersionTechnical.TechnicalSheet.EditShownGrade | FINAL-main/Learning-Opt-main/frontend/src/pages/ImmersionTechnical.jsx:371-372 | typing in displayed row j stores an accepted grade in the row the filter took it from, keeps that row's performance, and leaves every other row as it was |
| ImmersionTechnical.TechnicalSheet.EditShownPerformance | FINAL-main/Learning-Opt-main/frontend/src/pages/ImmersionTechnical.jsx:397-400 | typing in displayed row j stores an accepted appraisal in the row the filter took it from, keeps that row's grades, and leaves every other row as it was |
| ImmersionTechnical.KeyTarget | FINAL-main/Learning-Opt-main/frontend/src/pages/ImmersionTechnical.jsx:203-229 | other keys are ignored; an arrow changes one coordinate by at most one and never leaves the grid of 16 columns |
| ImmersionTechnical.ArrowsUndo | FINAL-main/Learning-Opt-main/frontend/src/pages/ImmersionTechnical.jsx:216-229 | inside the grid opposite arrows undo each other; at an edge an arrow stays put |
| ImmersionProduction.MaximaPrefix | FINAL-main/Learning-Opt-main/frontend/src/pages/ImmersionProduction.jsx:4-19 | the running sums of the table's maxima |
| ImmersionProduction.MaxScoresSum | FINAL-main/Learning-Opt-main/frontend/src/pages/ImmersionProduction.jsx:4-19 | the maxima add up to 175, below the denominator 185 |
| ImmersionProduction.ScaleFallsFrom | FINAL-main/Learning-Opt-main/frontend/src/pages/ImmersionProduction.jsx:21-28 | the scale falls step by step from every entry |
| ImmersionProduction.ScaleFacts | FINAL-main/Learning-Opt-main/frontend/src/pages/ImmersionProduction.jsx:21-28 | the limits strictly descend, grades follow limits, and no grade is below 60 |
| ImmersionProduction.LookupPerformanceGrade | FINAL-main/Learning-Opt-main/frontend/src/pages/ImmersionProduction.jsx:125-132 | 0 for NaN, otherwise the reference grade of the score |
| ImmersionProduction.LookupMonotone | FINAL-main/Learning-Opt-main/frontend/src/pages/ImmersionProduction.jsx:125-132 | a higher appraisal never gets a lower grade |
| ImmersionProduction.ScaleGradeValues | FINAL-main/Learning-Opt-main/frontend/src/pages/ImmersionProduction.jsx:21-28 | a grade is one of 60, 75, 79, 85, 95, 100; below 1 it is 60; from 4 it is at least 95 |
| ImmersionProduction.FullSheetRating | FINAL-main/Learning-Opt-main/frontend/src/pages/ImmersionProduction.jsx:139 | a full written sheet rates 97.30 |
| ImmersionProduction.ComputeResultsBounds | FINAL-main/Learning-Opt-main/frontend/src/pages/ImmersionProduction.jsx:134-153 | with grades in range: total in [0, 175]; written rating in [50, 97.30], never 100; performance grade 0 or a scale grade |
| ImmersionProduction.RemarkThresholds | FINAL-main/Learning-Opt-main/frontend/src/pages/ImmersionProduction.jsx:134-153 | an appraisal that is NaN or below 1 gives INCOMPLETE; from 4 it gives COMPLETE |
| ImmersionProduction.WithGradeSpec | FINAL-main/Learning-Opt-main/frontend/src/pages/ImmersionProduction.jsx:85-99 | the copied row keeps its fields and performance; `field` holds the value exactly when accepted; other grades are kept; range is kept; repeating the edit is idempotent |
| ImmersionProduction.WithPerformanceSpec | FINAL-main/Learning-Opt-main/frontend/src/pages/ImmersionProduction.jsx:101-123 | the copied row keeps fields and grades; the performance is the value exactly when accepted; range is kept |
| ImmersionProduction.RowFieldsUpdate | FINAL-main/Learning-Opt-main/frontend/src/pages/ImmersionProduction.jsx:90-97 | replacing a row by a copy with the same fields keeps every row's fields |
| ImmersionProduction.ProductionSheet.constructor | FINAL-main/Learning-Opt-main/frontend/src/pages/ImmersionProduction.jsx:39-75 | one normalised row per content row; flags read from the path |
| ImmersionProduction.ProductionSheet.HandleGradeChange | FINAL-main/Learning-Opt-main/frontend/src/pages/ImmersionProduction.jsx:85-99 | row `rowIndex` is replaced by its grade-edited copy; no other row changes, nor which rows are shown |
| ImmersionProduction.ProductionSheet.HandlePerformanceChange | FINAL-main/Learning-Opt-main/frontend/src/pages/ImmersionProduction.jsx:101-123 | row `rowIndex` is replaced by its performance-edited copy; no other row changes, nor which rows are shown |
| ImmersionProduction.ProductionSheet.EditShownGradeAsWritten | FINAL-main/Learning-Opt-main/frontend/src/pages/ImmersionProduction.jsx:283-317 | as written: typing in displayed row j edits `rows[j]` |
| ImmersionProduction.ProductionSheet.EditShownGrade | FINAL-main/Learning-Opt-main/frontend/src/pages/ImmersionProduction.jsx:283-317 | corrected: typing in displayed row j edits the row the filter took it from |
| ImmersionProduction.ProductionSheet.EditShownPerformance | FINAL-main/Learning-Opt-main/frontend/src/pages/ImmersionProduction.jsx:303-304 | corrected: the same for the performance input |
| ImmersionProduction.ShownPositionsAtLeast | FINAL-main/Learning-Opt-main/frontend/src/pages/ImmersionProduction.jsx:77-83 | the j-th kept position is at least j, so `rows[j]` exists |
| ImmersionProduction.KeptPrefixPosition | FINAL-main/Learning-Opt-main/frontend/src/pages/ImmersionProduction.jsx:77-83 | when the first rows are all kept, the j-th kept position is j |
| ImmersionProduction.ShownIndexIsPosition | FINAL-main/Learning-Opt-main/frontend/src/pages/ImmersionProduction.jsx:283 | the displayed index names the right row for every displayed row if and only if the shown rows are the first rows |
| ImmersionProduction.FilteredIndexEditsHiddenRow | FINAL-main/Learning-Opt-main/frontend/src/pages/ImmersionProduction.jsx:283-317 | for the sheet [IT, PROD] on the Production view, only position 1 is shown, yet the as-written edit changes the hidden IT row and not the shown one |
| ImmersionProduction.SampleKept | FINAL-main/Learning-Opt-main/frontend/src/pages/ImmersionProduction.jsx:77-83 | on the Production view the departments [IT, PROD] keep only position 1 |
| ImmersionProduction.SampleEdit | FINAL-main/Learning-Opt-main/frontend/src/pages/ImmersionProduction.jsx:85-97 | typing 7 into WI (maximum 10) is stored |
| ImmersionProduction.SampleDepartments | FINAL-main/Learning-Opt-main/frontend/src/pages/ImmersionProduction.jsx:78 | the sample rows' department keys are IT and PROD |
| ImmersionProduction.PlainDepartment | FINAL-main/Learning-Opt-main/frontend/src/pages/ImmersionProduction.jsx:78 | an upper-case department with no surrounding space is its own key |
| ImmersionList.CleanKeysDistinct | FINAL-main/Learning-Opt-main/frontend/src/pages/Immersion.jsx:35-41 | the five cleaned keys are distinct |
| ImmersionList.CleanRowSpec | FINAL-main/Learning-Opt-main/frontend/src/pages/Immersion.jsx:35-41 | a cleaned row has exactly the five keys once each, each holding the matching column's value or "", never missing |
| ImmersionList.Loaded | FINAL-main/Learning-Opt-main/frontend/src/pages/Immersion.jsx:7-10 | the entries read back, none with a download URL |
| ImmersionList.PersistLoaded | FINAL-main/Learning-Opt-main/frontend/src/pages/Immersion.jsx:7-20 | storing what was loaded writes back exactly what was read |
| ImmersionList.LoadPersisted | FINAL-main/Learning-Opt-main/frontend/src/pages/Immersion.jsx:7-20 | loading what was stored gives the list back with the download URLs dropped |
| ImmersionList.WithoutSpec | FINAL-main/Learning-Opt-main/frontend/src/pages/Immersion.jsx:110 | the filter removes exactly the entry at the target, keeping the rest in order, and nothing when there is none |
| ImmersionList.WithUrl | FINAL-main/Learning-Opt-main/frontend/src/pages/Immersion.jsx:84-88 | the list keeps its length |
| ImmersionList.WithUrlSpec | FINAL-main/Learning-Opt-main/frontend/src/pages/Immersion.jsx:84-88 | only the entry at `index` changes, gaining the URL, so the stored list does not change |
| ImmersionList.ImmersionPage.constructor | FINAL-main/Learning-Opt-main/frontend/src/pages/Immersion.jsx:7-20 | the list loaded from storage (empty when nothing is stored), dialog closed, no target |
| ImmersionList.ImmersionPage.UploadSheet | FINAL-main/Learning-Opt-main/frontend/src/pages/Immersion.jsx:22-53 | no file or no rows changes nothing; otherwise the new entry is first, the rest follow, and storage matches |
| ImmersionList.ImmersionPage.DownloadSucceeded | FINAL-main/Learning-Opt-main/frontend/src/pages/Immersion.jsx:82-88 | the entry at `index` gains the URL; storage is unchanged |
| ImmersionList.ImmersionPage.ConfirmDelete | FINAL-main/Learning-Opt-main/frontend/src/pages/Immersion.jsx:103-106 | the target is set and the dialog opens; the list is unchanged |
| ImmersionList.ImmersionPage.CancelDelete | FINAL-main/Learning-Opt-main/frontend/src/pages/Immersion.jsx:239 | the dialog closes and the target is kept |
| ImmersionList.ImmersionPage.DeleteRow | FINAL-main/Learning-Opt-main/frontend/src/pages/Immersion.jsx:108-115 | with a target, the entry at it is removed and the dialog closed; without one, nothing changes |
| FillTemplate.ExtractEntries | FINAL-main/Learning-Opt-main/backend/app/routes/immersion.py:33-43 | the loop returns one entry per row with a truthy cell, in order |
| FillTemplate.ExtractedConcat | FINAL-main/Learning-Opt-main/backend/app/routes/immersion.py:34-43 | the entries of two blocks of rows are those of each block, in order |
| FillTemplate.ExtractedAtMostRows | FINAL-main/Learning-Opt-main/backend/app/routes/immersion.py:34-43 | never more entries than rows |
| FillTemplate.ExtractedBlankRows | FINAL-main/Learning-Opt-main/backend/app/routes/immersion.py:34-43 | rows whose cells are all falsy give no entry |
| FillTemplate.ExtractedFullRows | FINAL-main/Learning-Opt-main/backend/app/routes/immersion.py:34-43 | when every row has a truthy cell, there is one entry per row, in order |
| FillTemplate.PreformattedSpec | FINAL-main/Learning-Opt-main/backend/app/routes/immersion.py:59-62 | the preformatted rows are exactly the rows from 10 to `max_row` whose column B has a value or a style, in increasing order |
| FillTemplate.LastAtLeast | FINAL-main/Learning-Opt-main/backend/app/routes/immersion.py:67 | the last of k increasing rows from 10 is at least row 10 + k - 1 |
| FillTemplate.ExtensionReachesLastEntry | FINAL-main/Learning-Opt-main/backend/app/routes/immersion.py:63-71 | the rows whose formatting is extended reach at least the last student's row |
| FillTemplate.ExtendedSpec | FINAL-main/Learning-Opt-main/backend/app/routes/immersion.py:69-83 | each extended row takes the last preformatted row's style in columns 1..10 where that row has one; every other cell keeps its style |
| FillTemplate.StoredSpec | FINAL-main/Learning-Opt-main/backend/app/routes/immersion.py:88-93 | a cell keeps text whole up to 32767 characters and its first 32767 beyond that; numbers and `None` are kept and always accepted; cutting keeps truthiness and is idempotent |
| FillTemplate.LegalExamples | FINAL-main/Learning-Opt-main/backend/app/routes/immersion.py:88-93 | tab and line breaks are accepted in a cell; a bell or escape character is refused |
| FillTemplate.Written | FINAL-main/Learning-Opt-main/backend/app/routes/immersion.py:88-93 | writing `None` leaves the cell; any other value is stored as the cell keeps it (text cut to 32767 characters); no other cell changes |
| FillTemplate.PlacedSpec | FINAL-main/Learning-Opt-main/backend/app/routes/immersion.py:86-93 | row 10 + i holds i + 1 in column A and the entry's values in B..F (a `None` keeps the template's); every other cell is kept |
| FillTemplate.Digits | FINAL-main/Learning-Opt-main/backend/app/routes/immersion.py:102 | a decimal rendering has at least one character |
| FillTemplate.MaxLengthSpec | FINAL-main/Learning-Opt-main/backend/app/routes/immersion.py:97-102 | the computed length is the maximum over the truthy cells, and 0 only when there is none |
| FillTemplate.DigitsMonotone | FINAL-main/Learning-Opt-main/backend/app/routes/immersion.py:102 | a larger number never has a shorter decimal rendering |
| FillTemplate.NumberedColumnLength | FINAL-main/Learning-Opt-main/backend/app/routes/immersion.py:96-103 | a column numbered 1..k from row 10 has longest text the decimal rendering of k |
| FillTemplate.NumberColumnLength | FINAL-main/Learning-Opt-main/backend/app/routes/immersion.py:88 | column A, numbered 1..n, is as wide as n's decimal rendering |
| FillTemplate.Worksheet.constructor | FINAL-main/Learning-Opt-main/backend/app/routes/immersion.py:50-51 | the loaded template's cells, styles, widths and `max_row` |
| FillTemplate.Worksheet.ExtendFormatting | FINAL-main/Learning-Opt-main/backend/app/routes/immersion.py:69-83 | the nested loop leaves every cell's style as `Extended` describes; values and widths are unchanged |
| FillTemplate.Worksheet.PlaceEntries | FINAL-main/Learning-Opt-main/backend/app/routes/immersion.py:86-93 | the loop fails exactly when some entry holds text a cell refuses; otherwise it leaves the cells as `Placed` describes; styles and widths are unchanged |
| FillTemplate.Worksheet.AdjustWidths | FINAL-main/Learning-Opt-main/backend/app/routes/immersion.py:96-103 | columns 1..6 get the longest truthy text of the data rows plus 2; other widths are kept |
| FillTemplate.FillTemplate | FINAL-main/Learning-Opt-main/backend/app/routes/immersion.py:17-122 | the 400 responses for a missing part and for an empty file name; 500 for an unreadable upload, a missing template, more students than preformatted rows when there are none, or a student's text with a character a cell refuses; otherwise the file is sent and the template is filled; the template is untouched on the errors raised before writing |

## Left out

- Upper, Lower, NormKey, DepartmentKey: case mapping covers the ASCII letters only. JS also maps other Unicode letters, some to several characters (ß→SS, ı→I, ſ→S, ligatures), so a header, department or page path spelled with them normalises differently here and can miss its category or view.
- PlaceEntries, FillTemplate: when openpyxl refuses a value, the cells already written before the error are not described. The route discards that workbook and answers 500.
- Reading the page's content from navigation state or from local storage by file name is input. The grade pages' constructors take the content rows.
- Rendering, styling, the Dashboard, `navigate` and `handleViewDetails` are navigation and display. They change no modelled state.
- `handleKeyDown` focusing and selecting the target input is DOM work. `KeyTarget` gives the cell it looks for.
- `FileReader` and `XLSX.read`/`sheet_to_json` are I/O. `UploadSheet` receives the parsed rows and the file name; the date text comes from the clock and is a parameter.
- `handleDownload` building the workbook, the `fetch` to the route, `createObjectURL` and the link click are I/O. Its failure path only alerts and changes no state. The success path is `DownloadSucceeded`, with the URL as a parameter. `handleDownload` takes the entry's index before its `fetch`; an upload or delete that finishes in between shifts the list, and the URL then goes to whichever entry holds that index. `DownloadSucceeded` takes the index as given, so it allows this ordering.
- The connection between the list page's download and the route (the sheet sent is the cleaned rows under a header row) is not modelled: that would need the spreadsheet encoding in between.
- IEEE doubles are modelled as exact reals. `parseFloat`'s exponent forms and "Infinity" are not modelled, and neither is `parseInt` of a number whose text uses an exponent.
- Cell values of other JS types (booleans, objects, dates) are not modelled; a cell is missing, a string or a number.
- React batching is not modelled: each `setRows`/`setData` update is applied at once.
- openpyxl's reading and saving, `send_file`, an unreadable template file and the logging `print` calls are I/O. The exception text of a 500 is not modelled; such a response is `Failed`.
- Float, date and boolean cells in the route are not modelled, nor cells openpyxl creates when they are accessed.
- The six copied style parts are opaque identifiers. Column letters are column numbers.
- ImmersionRecords.jsx (the Support page) is not part of this model.

## Findings

| source | as written | input that shows it | evidently intended | confidence | as-written member | corrected member |
|---|---|---|---|---|---|---|
| FINAL-main/Learning-Opt-main/frontend/src/pages/ImmersionProduction.jsx:283-317 | `filteredRows.map((row, rowIndex) => …)` passes the position among the displayed rows to `handleGradeChange` and `handlePerformanceChange`, which edit `rows[rowIndex]` (lines 85-123). The page is mounted only at `/immersion/production/:filename` (App.jsx:31), so the Production filter is always on. | rows [IT, PROD]: only the PROD row is displayed, as index 0. Typing 7 into its WI input stores 7 in the hidden IT row, and the displayed row keeps "". | edit the displayed row, which sits at the position the filter took it from (as the Technical page does with `findIndex`) | not executed | ImmersionProduction.ProductionSheet.EditShownGradeAsWritten, ImmersionProduction.FilteredIndexEditsHiddenRow | ImmersionProduction.ProductionSheet.EditShownGrade |
