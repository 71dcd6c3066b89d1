# Macroseismic survey of the Mirotice earthquake of 24 April 2025 — Dafny model

The analysis script `macroseismics_mirotice2025.py` reads the questionnaire answers
of a macroseismic survey and works on the rows in these steps:

1. It drops every answer whose observation time or coordinates are unusable.
2. It keeps only the answers from April 2025.
3. Of those, it keeps the ones observed within 1.5 hours either side of the
   Mirotice event (2025-04-24 17:32:47.3 UTC). Both ends of the window count.
4. On that event table, six sections each derive one label column and count its labels:
   - place of observation (indoors or not);
   - who felt it;
   - the tremor description;
   - fear or panic;
   - aggregated movement of objects, with a per-column count of observed movement;
   - damage to the building.

This project models those steps:

- The rules that turn raw cells into labels are pure functions. Lemmas state each
  label in terms of the raw text.
- The data frame is a class. Its `dropna` calls remove rows in place, its mask
  selections copy, and each section assigns its column in place and counts it.
- The counts are stated against the labels of the raw cells. The lemmas show the
  counts add up to the number of rows in the window.
- The two early exits (nothing in April, nothing in the window) are outcomes of
  the analysis.

Modules:

- `Optional` holds the option type.
- `Text` models Python's `str.strip()` and `str.lower()`.
- `Cells` models a pandas cell and its text and numeric forms.
- `Labels` holds the per-row rules.
- `Sequences` models mask selection and `value_counts()`.
- `Rows` models row selection and the label assignments.
- `Tally` holds the counts and their lemmas.
- `Survey` holds the data frame and the whole analysis.

Times are UTC instants, in nanoseconds since the Unix epoch, together with their
UTC year and month. A cell is either missing (NaN) or a value. A value carries its
text `str(value)` and the result of `pd.to_numeric(value, errors='coerce')`.

## Model

| member | source | states |
|---|---|---|
| Text.IsSpace | macroseismics_mirotice2025.py:222 | the characters `str.strip()` and `str.isspace()` treat as whitespace; StripCutsOnlySpace and StripPadding describe its use |
| Text.StripLeft | macroseismics_mirotice2025.py:158 | the left-stripped text is no longer than the input and does not start with whitespace |
| Text.StripLeftIsSuffix | macroseismics_mirotice2025.py:158 | the left-stripped text is a suffix of the input |
| Text.StripLeftRemovesSpace | macroseismics_mirotice2025.py:158 | what left-stripping removes is whitespace only |
| Text.StripRight | macroseismics_mirotice2025.py:158 | the right-stripped text is no longer than the input and does not end with whitespace |
| Text.StripRightIsPrefix | macroseismics_mirotice2025.py:158 | the right-stripped text is a prefix of the input |
| Text.StripRightRemovesSpace | macroseismics_mirotice2025.py:158 | what right-stripping removes is whitespace only |
| Text.AllSpaceAppend | macroseismics_mirotice2025.py:233 | a concatenation is all whitespace iff both parts are |
| Text.StripLeftEmptyIff | macroseismics_mirotice2025.py:233 | left-stripping gives the empty text iff the input is all whitespace |
| Text.Strip | macroseismics_mirotice2025.py:158 | `strip()` gives the empty text exactly when the input is all whitespace, and otherwise starts and ends with a non-whitespace character |
| Text.StripIsTrimmedSlice | macroseismics_mirotice2025.py:158 | `strip()` is the slice of the input that starts where the left-stripped text starts |
| Text.StripCutsOnlySpace | macroseismics_mirotice2025.py:158 | what `strip()` cuts off before and after that slice is whitespace only |
| Text.StripLeftOfSpaces | macroseismics_mirotice2025.py:245 | leading whitespace does not change the left-stripped text |
| Text.StripRightOfSpaces | macroseismics_mirotice2025.py:245 | trailing whitespace does not change the right-stripped text |
| Text.StripLeftAppend | macroseismics_mirotice2025.py:245 | left-stripping a concatenation keeps the tail whole once a non-whitespace character is met |
| Text.StripPadding | macroseismics_mirotice2025.py:245 | whitespace added at either end of a text does not survive `strip()` |
| Text.Lower | macroseismics_mirotice2025.py:139 | `str.lower()` applies LowerChar to each character; it keeps the length and leaves no ASCII capital (see LowerIdempotent, LowerEqualsAsciiWord) |
| Text.LowerChar | macroseismics_mirotice2025.py:139 | the lower case of one character; LowerCharToAscii, LowerCharNotUpper and LowerCharKeepsSpace describe it |
| Text.LowerIdempotent | macroseismics_mirotice2025.py:183 | lower-casing twice is lower-casing once |
| Text.LowerEqualsAsciiWord | macroseismics_mirotice2025.py:140 | for an ASCII lower-case word, `t.lower() == w` iff `t` spells `w` in any mix of letter cases |
| Text.StripLeftLower | macroseismics_mirotice2025.py:158 | left-stripping commutes with lower-casing |
| Text.StripRightLower | macroseismics_mirotice2025.py:158 | right-stripping commutes with lower-casing |
| Text.LowerCharToAscii | macroseismics_mirotice2025.py:158 | a character lowers to a character of an ASCII lower-case word iff it is that character or its ASCII capital |
| Text.StripLowerCommute | macroseismics_mirotice2025.py:158 | `s.lower().strip() == s.strip().lower()` |
| Text.LowerCharKeepsSpace | macroseismics_mirotice2025.py:245 | a character is whitespace iff its lower case is |
| Text.LowerCharNotUpper | macroseismics_mirotice2025.py:183 | no ASCII capital survives lower-casing |
| Text.LowerAppend | macroseismics_mirotice2025.py:245 | lower-casing distributes over concatenation |
| Text.LowerOfSpaces | macroseismics_mirotice2025.py:245 | lower-casing leaves whitespace unchanged |
| Cells.Observed | macroseismics_mirotice2025.py:222 | the movement test on one cell; ObservedIsSourceTest states it in the source's terms |
| Cells.ObservedIsSourceTest | macroseismics_mirotice2025.py:222 | the movement test holds iff the cell is not missing and its stripped text is not empty |
| Labels.LocationOf | macroseismics_mirotice2025.py:139-141 | the place label of one cell; LocationIndoorIff and LocationIsNotTrimmed describe it |
| Labels.LocationIndoorIff | macroseismics_mirotice2025.py:139-141 | indoors iff the cell is present and spells exactly 'budova' in any letter case; a missing cell is outdoors |
| Labels.LocationIsNotTrimmed | macroseismics_mirotice2025.py:139-141 | ' budova' is outdoors, 'BUDOVA' is indoors, a missing cell is outdoors |
| Labels.KeyOfMissing | macroseismics_mirotice2025.py:158 | the lookup key of a missing cell is 'nan' |
| Labels.KeyIsAsciiWord | macroseismics_mirotice2025.py:158 | the lookup key equals an ASCII word other than 'nan' iff the cell is present and its stripped text spells that word in any letter case |
| Labels.FeltByOf | macroseismics_mirotice2025.py:158-161 | the felt-by label of one cell; FeltByIff, FeltByIgnoresPadding and FeltByIgnoresCase describe it |
| Labels.FeltByIff | macroseismics_mirotice2025.py:158-161 | respondent-only iff the stripped text is 'pouze vy' in any letter case; majority iff the stripped text lower-cases to 'většina ano'; a missing cell is unspecified |
| Labels.FeltByIgnoresPadding | macroseismics_mirotice2025.py:158-161 | surrounding whitespace does not change the felt-by label |
| Labels.FeltByIgnoresCase | macroseismics_mirotice2025.py:158-161 | letter case does not change the felt-by label |
| Labels.TremorOf | macroseismics_mirotice2025.py:183 | the tremor label of one cell; TremorNeverPlaceholder and TremorIsLowerCase describe it |
| Labels.TremorNeverPlaceholder | macroseismics_mirotice2025.py:183 | a missing tremor cell is labelled 'nan', and no cell gets the 'Nezadáno' placeholder |
| Labels.TremorIsLowerCase | macroseismics_mirotice2025.py:183 | tremor labels are lower case, and texts equal up to case get the same label |
| Labels.FearOf | macroseismics_mirotice2025.py:201 | the fear flag of one cell; FearIff describes it |
| Labels.FearIff | macroseismics_mirotice2025.py:201 | fear iff the cell coerces to the number 1; missing or unparsable cells give no fear |
| Labels.AnyObserved | macroseismics_mirotice2025.py:222 | `any(...)` over a row's movement cells is true iff one of them passes the movement test |
| Labels.MovementCountsAnyAnswer | macroseismics_mirotice2025.py:222 | answers '0' and 'ne' count as movement; missing and blank cells do not |
| Labels.DamageOf | macroseismics_mirotice2025.py:245-248 | the damage label of one cell; DamageIff and DamageIgnoresPadding describe it |
| Labels.DamageIff | macroseismics_mirotice2025.py:245-248 | reported iff the stripped text is 'bylo' in any letter case, not reported iff it is 'nebylo'; a missing cell is unknown |
| Labels.DamageIgnoresPadding | macroseismics_mirotice2025.py:245-248 | surrounding whitespace does not change the damage label |
| Labels.NamesAreDistinct | macroseismics_mirotice2025.py:203 | distinct labels are reported under distinct texts, so counting texts counts labels |
| Sequences.Where | macroseismics_mirotice2025.py:69-72 | mask selection keeps only rows that pass the mask and never adds rows |
| Sequences.WhereMultiplicity | macroseismics_mirotice2025.py:53 | each row is kept with its full multiplicity when it passes the mask and dropped entirely otherwise |
| Sequences.WhereMembers | macroseismics_mirotice2025.py:219 | an element is selected iff it is in the input and passes the mask |
| Sequences.MaskIndices | macroseismics_mirotice2025.py:69-72 | the positions where the mask holds, strictly increasing, all of them and no others |
| Sequences.WhereSelectsMask | macroseismics_mirotice2025.py:82-85 | the k-th selected row is the input row at the k-th position where the mask holds, so order is kept and rows are unaltered |
| Sequences.WhereCongruent | macroseismics_mirotice2025.py:69-85 | two masks that agree on every row select the same rows |
| Sequences.WhereWhere | macroseismics_mirotice2025.py:53 | selecting by one mask and then another is selecting once by both |
| Sequences.Occurrences | macroseismics_mirotice2025.py:142 | a value's count is at most the number of rows, and zero iff the value does not occur |
| Sequences.OccurrencesIsMultiplicity | macroseismics_mirotice2025.py:142 | the count is the value's multiplicity in the column |
| Sequences.OccurrencesAreIndices | macroseismics_mirotice2025.py:224 | the count is the number of positions holding the value |
| Sequences.OccurrencesSnoc | macroseismics_mirotice2025.py:142 | appending a value adds one to its count and leaves other counts alone |
| Sequences.TotalOccurrencesSnoc | macroseismics_mirotice2025.py:142 | appending a value raises the total over distinct labels by one iff it is one of them |
| Sequences.CountsAddUp | macroseismics_mirotice2025.py:142-148 | when every value is one of a list of distinct labels, their counts add up to the number of rows |
| Sequences.ValueCounts | macroseismics_mirotice2025.py:142 | `value_counts()` counts each value as often as it occurs, and the counts add up to the number of rows |
| Rows.HasTime | macroseismics_mirotice2025.py:52-53 | a row whose time parsed; AprilRowsAreMaskSelection describes its use |
| Rows.HasCoordinates | macroseismics_mirotice2025.py:65-67 | a row with both coordinates; AprilRowsAreMaskSelection describes its use |
| Rows.InTargetMonth | macroseismics_mirotice2025.py:69-71 | a row observed in April 2025; AprilRowsAreMaskSelection describes its use |
| Rows.InEventWindow | macroseismics_mirotice2025.py:77-84 | a row observed within the window; WindowIsClosed describes it |
| Rows.Cleaned | macroseismics_mirotice2025.py:52-67 | the rows both `dropna` calls keep; AprilRowsAreMaskSelection describes it |
| Rows.AprilRows | macroseismics_mirotice2025.py:69-72 | the April 2025 table; AprilRowsAreMaskSelection describes it |
| Rows.EventRows | macroseismics_mirotice2025.py:82-85 | the event table; EventRowsAreMaskSelection and MonthFilterIsRedundant describe it |
| Rows.AprilRowsAreMaskSelection | macroseismics_mirotice2025.py:52-72 | cleaning and the April filter keep exactly the rows with a time, a latitude and a longitude whose time is in April 2025, each with its multiplicity |
| Rows.EventRowsAreMaskSelection | macroseismics_mirotice2025.py:77-85 | a row reaches the event table iff it has time and coordinates, falls in April 2025 and lies within the window; the table is that mask selection of the input |
| Rows.WindowIsClosed | macroseismics_mirotice2025.py:79-84 | the window is the closed interval of 5400 s either side of the event: both ends are kept, one nanosecond past the end is not |
| Rows.PresentMovementColumns | macroseismics_mirotice2025.py:219 | the movement columns the table has, in list order; PresentMovementColumnsIff describes it |
| Rows.Moved | macroseismics_mirotice2025.py:221-223 | the aggregated movement flag of one row; MovedOverColumns and MovedIff describe it |
| Rows.MovedOverColumns | macroseismics_mirotice2025.py:221-223 | the aggregated flag over some columns is true iff one of those cells passes the movement test |
| Rows.PresentMovementColumnsIff | macroseismics_mirotice2025.py:219 | a column is taken into account iff it is in the movement list and in the table |
| Rows.MovedIff | macroseismics_mirotice2025.py:219-223 | a row shows movement iff some movement column the table has holds a present, non-blank answer in it |
| Rows.WindowInsideApril | macroseismics_mirotice2025.py:69-85 | the window lies inside April 2025, so a time in the window whose year and month agree with its instant passes the month filter |
| Rows.MonthFilterIsRedundant | macroseismics_mirotice2025.py:69-85 | when every time's year and month agree with its instant, the event table is the cleaned table cut to the window |
| Rows.AssignLocation | macroseismics_mirotice2025.py:139-141 | assigns the place label to every row when the place column exists; RowLabels describes it |
| Rows.AssignFeltBy | macroseismics_mirotice2025.py:158-161 | assigns the felt-by label when its column exists; RowLabels describes it |
| Rows.AssignTremor | macroseismics_mirotice2025.py:183 | assigns the tremor label when its column exists; RowLabels describes it |
| Rows.AssignFear | macroseismics_mirotice2025.py:201 | assigns the fear flag when its column exists; RowLabels describes it |
| Rows.AssignMovement | macroseismics_mirotice2025.py:219-223 | assigns the movement flag when some movement column exists; RowLabels describes it |
| Rows.AssignDamage | macroseismics_mirotice2025.py:245-248 | assigns the damage label when its column exists; RowLabels describes it |
| Rows.DeriveAll | macroseismics_mirotice2025.py:139-248 | the six assignments in order; RowLabels and DeriveAllLabelsEachRow describe it |
| Rows.EventRowsLabelled | macroseismics_mirotice2025.py:82-248 | when the loaded rows carry no labels, each row of the labelled event table is the event row with its own six labels and nothing else changed |
| Rows.RowLabels | macroseismics_mirotice2025.py:139-248 | the six assignments give a row exactly the labels of its own cells, and leave time, coordinates and cells alone |
| Rows.DeriveAllLabelsEachRow | macroseismics_mirotice2025.py:139-248 | the assignments keep the number and order of rows, and each row gets one label per derived column (none for a missing source column) |
| Tally.CountColumn | macroseismics_mirotice2025.py:162 | a column's counts exist iff the column was derived; they count each label as often as the column holds it and add up to the number of rows |
| Tally.CountObserved | macroseismics_mirotice2025.py:233 | the observed count is the number of rows whose cell passes the movement test |
| Tally.ObservedCounts | macroseismics_mirotice2025.py:232-233 | one observed count per present movement column, in list order |
| Tally.TwoLabelsAddUp | macroseismics_mirotice2025.py:203 | with two distinct labels, their counts add up to the number of rows |
| Tally.ThreeLabelsAddUp | macroseismics_mirotice2025.py:162 | with three distinct labels, their counts add up to the number of rows |
| Tally.LocationCountsAddUp | macroseismics_mirotice2025.py:142-148 | the indoor and outdoor counts add up to the number of rows |
| Tally.FeltByCountsAddUp | macroseismics_mirotice2025.py:162-170 | the three felt-by counts add up to the number of rows |
| Tally.FlagCountsAddUp | macroseismics_mirotice2025.py:203-210 | the true and false counts of a flag column add up to the number of rows |
| Tally.DamageCountsAddUp | macroseismics_mirotice2025.py:249-256 | the three damage counts add up to the number of rows |
| Tally.CategoryCountsAddUp | macroseismics_mirotice2025.py:139-249 | the counts of each column with a fixed label set (place, felt-by, fear, movement, damage) add up to the number of rows in the window; the tremor counts add up by CountColumn |
| Tally.MovedRowsCount | macroseismics_mirotice2025.py:224 | the count of True in the movement column is the number of rows flagged as moved |
| Tally.ObservedRowsAreMoved | macroseismics_mirotice2025.py:221-233 | every row counted for a present movement column is flagged as moved |
| Tally.ObservedAtMostMoved | macroseismics_mirotice2025.py:224-233 | no per-column observed count exceeds the count of rows flagged as moved |
| Tally.MovedRowHasAnswer | macroseismics_mirotice2025.py:221-233 | a row flagged as moved is counted for some present movement column |
| Tally.NoMovementIffNoAnswers | macroseismics_mirotice2025.py:219-233 | no row is flagged as moved iff every present movement column's observed count is zero |
| Survey.Frame.constructor | macroseismics_mirotice2025.py:42 | a frame holds the given columns and rows |
| Survey.Frame.DropMissingTime | macroseismics_mirotice2025.py:52-53 | the frame's rows become those with a time, in order; the columns are unchanged |
| Survey.Frame.DropMissingCoordinates | macroseismics_mirotice2025.py:65-67 | the frame's rows become those with both coordinates, in order; the columns are unchanged |
| Survey.Frame.Select | macroseismics_mirotice2025.py:69-72 | a new frame with the same columns and the rows the mask keeps |
| Survey.Frame.LocationSection | macroseismics_mirotice2025.py:135-143 | assigns the place label to every row when the place column exists, keeps the raw cells, and counts the labels of the raw cells |
| Survey.Frame.FeltBySection | macroseismics_mirotice2025.py:156-162 | assigns the felt-by label when its column exists, keeps the raw cells, and counts the labels of the raw cells |
| Survey.Frame.TremorSection | macroseismics_mirotice2025.py:181-184 | assigns the tremor label when its column exists, keeps the raw cells, and counts the labels of the raw cells |
| Survey.Frame.FearSection | macroseismics_mirotice2025.py:198-203 | assigns the fear flag when its column exists, keeps the raw cells, and counts the flags of the raw cells |
| Survey.Frame.MovementSection | macroseismics_mirotice2025.py:219-233 | assigns the aggregated movement flag when some movement column exists and counts it, then gives one observed count per present column |
| Survey.Frame.DamageSection | macroseismics_mirotice2025.py:243-249 | assigns the damage label when its column exists, keeps the raw cells, and counts the labels of the raw cells |
| Survey.Analyse | macroseismics_mirotice2025.py:42-249 | for a loaded table whose rows carry no labels yet (the sheet has no label columns), stops iff nothing is left for April 2025, or else iff nothing is in the window; otherwise the event table is the selected rows, in order, each with exactly its own six labels, and every reported count is that of the raw cells of the selected rows |

## Left out

- Loading the Excel workbook, and its `na_values` handling, are not modelled. The loaded rows and the set of column names are the inputs. A cell's text and numeric forms are given with it.
- Parsing dates with `dayfirst` is not modelled, and neither is converting Europe/Prague to UTC (with `ambiguous='infer'` for daylight-saving time). A row carries its UTC instant and its UTC year and month as given values.
- `pd.to_numeric` parsing of coordinates and fear answers is not modelled. Its outcome is given with each row or cell.
- The error exits for a missing file or key, and for failed time-zone conversion, are I/O or library failures and are not modelled. The two data-dependent exits (empty April table, empty window) are modelled as `Survey.Outcome`.
- The map figure, the output directory, percentages and console output are rendering, floating point and printing, and are not modelled. Only the integer counts are kept.
- The report keeps every per-column observed count. The script prints only those above zero; that choice is printing only.
- Text.LowerChar: only the Basic Latin, Latin-1 and Latin Extended-A letters are lower-cased (these hold every Czech letter). Other scripts and other Latin letters are left unchanged, and so are U+0130, whose Python lower case is two characters, and U+212A KELVIN SIGN, which Python lowers to 'k'. `Text.LowerEqualsAsciiWord` describes this `Lower`, not Python's, for words holding 'k'. None of 'budova', 'pouze vy', 'bylo', 'nebylo' or 'většina ano' contains 'k'. Python lowers U+0130 to two characters, which match no looked-up word. So no place, felt-by or damage label depends on these characters.
- Derived label columns are held in each row's `derived` record rather than added to the frame's set of column names. No later presence test (`... in df_event.columns` at lines 156, 181, 198, 219 and 243) can see a label column, because no label name is the name of a source column. The script reads each label column back by name to count it (lines 142, 162, 184, 203 and 224); the model's counts read the label from `derived`.
- `value_counts()` ordering (by decreasing count) is not modelled. Counts are a multiset of labels.
- Labels are the categories themselves (for example `Indoor`); the report texts are their `Name()` functions. `Labels.NamesAreDistinct` shows that counting texts and counting categories agree.
- Cells.AsText: a missing cell becomes the text 'nan' under `astype(str)`, as pandas 2.x does. `Labels.KeyOfMissing` and `Labels.TremorNeverPlaceholder` rest on this. Under the default string type of pandas 3, the missing value would be kept, and the `fillna('Nezadáno')` at line 183 would then apply.
- A row's UTC year and month are given beside its instant and are not derived from it. `Rows.CalendarAgrees` states how they relate for April 2025. `Rows.MonthFilterIsRedundant` assumes that relation.
