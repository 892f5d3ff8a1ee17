# ai_tuner driver pipeline, modelled in Dafny

This project models the data pipeline of the GTR2 `ai_tuner` tool. The tool
finds driver names in `.car` files, looks up each driver's talent record
in the `.rcd` files, and writes edited talent values back into the `.rcd`
files. The pipeline has four stages.

- **Name extraction** (`CarHandler`, `car_handler.dfy`):
  - the four driver-name rules are written as a hand-made scanner with
    `re.findall` semantics (case-insensitive keyword, digits, spaces, `=`,
    spaces, then the value);
  - each raw capture is cleaned;
  - names are collected over many files into one set, plus a map from each
    name to the path of the last file that produced it.
- **`.rcd` parsing** (`RcdHandler`, `rcd_handler.dfy`):
  - each line is cut at `//`, stripped and classified as blank, header,
    field or brace;
  - a small state machine (open block, ordered records) attributes fields to
    the last header;
  - the per-file records are merged with `dict.update`, so the later file
    wins.
- **Matching** (`Matcher`, `matcher.dfy`):
  - each extracted name is looked up through a series of tiers: exact
    ignoring case, last word, first word, single word, then a substring
    either way;
  - record names already matched are skipped;
  - names are processed in ascending order while the rows, the column list
    and the found and missing lists are built.
- **Write-back** (`RcdUpdater`, `rcd_updater.dfy`):
  - the line rewriter of `update_single_rcd_file` is a brace-depth state
    machine over the file's lines;
  - the header test of `driver_in_rcd_file`;
  - the success/error counting of `update_rcd_files`;
  - the backup-name sanitiser.

The editor and viewer tables (`driver_table_editor.dfy`,
`driver_table_viewer.dfy`) build on shared column helpers in `columns.dfy`.
The modelled parts are:
- the variable list: columns that are not excluded, present standard
  columns first in standard order, the rest sorted;
- the editable-field filter;
- the case-insensitive name filter, which falls back to all variables;
- the export selection;
- the editor's change tracking, as a class `Editor` whose fields are its
  drivers, its DataFrame cells, its on-screen cells and `changesMade`.

Supporting modules model the Python behaviour the code relies on:
- `Text` (`text.dfy`): `strip`, `split('//')[0]`, `in`, `split`, `lower`
  and `sorted` on strings;
- `Dicts` (`dicts.dfy`): insertion-ordered `dict` with `d[k] = v` and
  `update`;
- `Wrappers` (`wrappers.dfy`): `Option`.

Where the Python code changes state step by step, the model is a `method`
with a loop. The method is proved equal to a specification function, and
the source's promises are proved about that function as lemmas. File
contents are parameters: a file's decoded text, or `None` when it cannot be
read.

The code behaves as follows in places a reader might not expect, and the
model keeps that behaviour:
- **Comments lose the whitespace before `//`.** A rewritten line keeps its
  indentation and its `//` comment. The whitespace between the old value and
  the comment is dropped, so `  Consistency=50 // base value` with value 75
  becomes `  Consistency=75// base value` (`RcdUpdater.RewriteKeeps`).
- **The unquoted rule also fires on quoted values.** `Driver1="Jane Doe"`
  yields both `Jane Doe` and the stray capture `"Jane`, and `"Jane` cleans to
  a second name, `Jane` (`CarHandler.QuotedValueAlsoMatchesBareRule`,
  `CarHandler.StrayCaptureCleansToName`).
- **Every key is kept.** The parser has no field-set filter: every
  `key=value` line inside a block is kept.
- **Updated keys are not restricted to a field set.** The updater rewrites
  any key listed in `fieldnames` (ignoring case) whose new value is a
  non-empty string. The value is written as given, not trimmed.
- **`changesMade` can stay set with nothing to save.** Rebuilding the table
  (`create_table`, `create_filtered_table`) resets every cell to its
  original text but leaves `changes_made` unchanged. The editor's invariant
  is therefore only "a differing cell implies `changesMade`".

## Model

| member | source | states |
|---|---|---|
| CarHandler.MatchAt | ai_tuner/config.py:24-27 | A match of any of the four rules ends after its start and inside the text, so `findall` always moves forward |
| CarHandler.CapturesUnion | ai_tuner/car_handler.py:100-105 | A string is among the collected captures of the first n rules iff it is non-empty and some one of those rules captures it |
| CarHandler.CollectCaptures | ai_tuner/car_handler.py:100-105 | The loop over the rules collects exactly the non-empty captures of all four rules |
| CarHandler.AddCaptures | ai_tuner/car_handler.py:103-105 | The inner loop adds exactly the non-empty matches to the set |
| CarHandler.ExtractDriversFromFile | ai_tuner/car_handler.py:94-107 | `_extract_drivers_from_file` returns the per-file name set; empty or unreadable content gives the empty set |
| CarHandler.FileDriversMembers | ai_tuner/car_handler.py:96-107 | Empty or unreadable content gives no names; otherwise a name is reported iff it is non-empty and captured by one of the four rules |
| CarHandler.FileDriversOfFour | ai_tuner/car_handler.py:101-105 | A file's names are the union of the non-empty captures of the four rules |
| CarHandler.RemoveAll | ai_tuner/car_handler.py:130 | `replace('"', '')` leaves exactly the other characters and never lengthens the name |
| CarHandler.CleanSteps | ai_tuner/car_handler.py:129-131 | After the quote strip, the quote removal and the whitespace strip, the name holds no `"` and has no whitespace at either end |
| CarHandler.CleanDriverNameShape | ai_tuner/car_handler.py:126-136 | The empty name cleans to `""`; every cleaned name holds no `"` and has no leading or trailing whitespace |
| CarHandler.QuoteBranchUnreachable | ai_tuner/car_handler.py:133-134 | The `startswith('"')` branch never changes the name, because no `"` is left |
| CarHandler.Record | ai_tuner/car_handler.py:75 | Recording a file's names adds exactly those names to the map's keys |
| CarHandler.AddFileNames | ai_tuner/car_handler.py:66-75 | One file adds its cleaned non-empty names to the set, and records its path as their source |
| CarHandler.ExtractDrivers | ai_tuner/car_handler.py:54-91 | `extract_drivers` returns the union of all files' cleaned names, never the empty name; the source map's keys are exactly that set |
| CarHandler.SourceMapStep | ai_tuner/car_handler.py:74-75 | A later file sets its path for each of its names and leaves the other entries as they were |
| CarHandler.SourceMapKeys | ai_tuner/car_handler.py:74-75 | The source map's key set equals the set of all drivers |
| CarHandler.AllDriversMembers | ai_tuner/car_handler.py:61-74 | A name is in the result iff some file contributes it |
| CarHandler.SourceIsLastFile | ai_tuner/car_handler.py:61-75 | A name's recorded source is the last file in input order that produced it; earlier entries are overwritten |
| CarHandler.SourceIsSomeFile | ai_tuner/car_handler.py:61-75 | Conversely, every recorded source produced the name, and no later file did |
| CarHandler.JaneQuoted | ai_tuner/config.py:24 | On `Driver1="Jane Doe"` the quoted rule captures `Jane Doe` once |
| CarHandler.JaneUnterminated | ai_tuner/config.py:25 | On the same line the unterminated-quote rule also captures `Jane Doe` |
| CarHandler.JaneBare | ai_tuner/config.py:26 | On the same line the unquoted rule captures `"Jane` |
| CarHandler.JaneDriverName | ai_tuner/config.py:27 | On the same line the `DriverName` rule captures nothing |
| CarHandler.QuotedValueAlsoMatchesBareRule | ai_tuner/car_handler.py:100-107 | The file `Driver1="Jane Doe"` yields the raw names `Jane Doe` and `"Jane` |
| CarHandler.StrayCaptureCleansToName | ai_tuner/car_handler.py:124-136 | The stray capture `"Jane` cleans to `Jane` |
| RcdHandler.Content | ai_tuner/rcd_handler.py:89 | `line.split('//')[0].strip()` holds no `//` and has no whitespace at either end |
| RcdHandler.Classify | ai_tuner/rcd_handler.py:89-106 | A header is non-empty, holds no `=` and starts with neither brace; a field's key holds no `=` |
| RcdHandler.ClassifyContent | ai_tuner/rcd_handler.py:91-105 | The same guarantees for the classification of a line's content |
| RcdHandler.FieldOf | ai_tuner/rcd_handler.py:102-105 | `split('=', 1)` of a line holding `=` always gives a field whose key holds no `=` |
| RcdHandler.ClassifiedHeader | ai_tuner/rcd_handler.py:94-95 | A header's name is the whole comment-free, stripped line |
| RcdHandler.ClassifiedField | ai_tuner/rcd_handler.py:101-105 | The key is the stripped text before the first `=` and the value is the stripped rest; the value may hold `=`, and neither part holds `//` or surrounding whitespace |
| RcdHandler.Step | ai_tuner/rcd_handler.py:91-106 | Each line keeps the open block recorded in the result |
| RcdHandler.Lines | ai_tuner/rcd_handler.py:86-89 | One classified line per piece of `content.split('\n')` |
| RcdHandler.ParseLine | ai_tuner/rcd_handler.py:88-106 | One turn of the line loop performs the automaton step for the classified line |
| RcdHandler.ParseRcdFile | ai_tuner/rcd_handler.py:78-108 | `_parse_rcd_file` computes the automaton's records; it never fails, and empty or unreadable content gives `{}` |
| RcdHandler.RecordNames | ai_tuner/rcd_handler.py:94-97 | The result's keys are exactly the header texts seen |
| RcdHandler.NoHeaderNoRecords | ai_tuner/rcd_handler.py:101 | Field lines before any header are dropped: without a header nothing is recorded |
| RcdHandler.LastBlock | ai_tuner/rcd_handler.py:94-106 | After the last header, its record is exactly the fields after it, later keys overwriting earlier ones; a repeated header resets the record; every other record is untouched |
| RcdHandler.StepInBlock | ai_tuner/rcd_handler.py:101-106 | A non-header line changes at most the open block's record, by storing its field |
| RcdHandler.ParseRcdFiles | ai_tuner/rcd_handler.py:53-75 | `parse_rcd_files` merges the files' records in order with `update` |
| RcdHandler.MergedNames | ai_tuner/rcd_handler.py:59-66 | A driver is in the merged result iff some file holds it |
| RcdHandler.LastFileWins | ai_tuner/rcd_handler.py:66 | The last file that holds a driver supplies its whole record; records are never combined field by field |
| Dicts.Put | ai_tuner/rcd_handler.py:106 | `d[k] = v` maps k to v; a new key is appended, an existing key keeps its place |
| Dicts.Update | ai_tuner/rcd_handler.py:66 | `a.update(b)`: b's values win, and b's new keys are appended in b's order |
| Matcher.Tiers | ai_tuner/matcher.py:95-130 | The exact tier comes first and the two-way substring tier last |
| Matcher.FirstFit | ai_tuner/matcher.py:107-109 | One tier's loop returns the first free key satisfying the tier, or None iff no free key satisfies it |
| Matcher.BestOf | ai_tuner/matcher.py:96-132 | The tier search returns only keys of the records that are not used |
| Matcher.FindBestMatch | ai_tuner/matcher.py:90-132 | `_find_best_match` returns None or an unused key of the records |
| Matcher.ExactMatchWins | ai_tuner/matcher.py:96-98 | A free key equal to the name ignoring case always wins over every substring tier, and the first such key is chosen |
| Matcher.NoMatchIff | ai_tuner/matcher.py:117-132 | None is returned iff no free key satisfies any tier: equal name, containing the tier's word, or a substring either way, all ignoring case |
| Matcher.FirstTierFirstKey | ai_tuner/matcher.py:104-115 | The result satisfies some tier; no free key satisfies an earlier tier (so the last word is tried before the first); no earlier key satisfies that tier |
| Matcher.DriveLength | ai_tuner/matcher.py:42-45 | The drive prefix `X:` that Windows' `os.path` splits off is two characters or none |
| Matcher.Basename | ai_tuner/matcher.py:42-44 | Windows' `os.path.basename` is the suffix after the last `/` or `\`, holds no separator and never reaches into the drive |
| Matcher.BasenameJoin | ai_tuner/matcher.py:42-45 | The base name of a path joined from a folder and a file name, with either separator, is the file name |
| Matcher.WindowsCarFileName | ai_tuner/matcher.py:42-44 | `C:/Games/GTR2/GameData/Teams\BMW\m3.car` has base name `m3.car` |
| Matcher.MakeRow | ai_tuner/matcher.py:40-41 | A row's `Driver` is the matched key |
| Matcher.MakeRowFields | ai_tuner/matcher.py:40-48 | A row holds the source path (`Unknown` when missing) and its basename; `Original_CAR_Name` is the extracted name when it differs from the key, and is otherwise as in the record; every other field is copied from the record |
| Matcher.RowFields | ai_tuner/matcher.py:41-48 | Setting the base fields and the original name leaves every other field as it was |
| Matcher.AddNew | ai_tuner/matcher.py:51-53 | The column update keeps the old list as a prefix, adds no duplicate and lists exactly the old columns and the row's keys |
| Matcher.AddFieldnames | ai_tuner/matcher.py:51-53 | The column-update loop computes that update |
| Matcher.MatchingGood | ai_tuner/matcher.py:36-71 | There is one row per found name, no two rows share a `Driver`, and every row's driver is a record; the columns start with the base three, have no duplicates and hold every row key; found + missing = number of names |
| Matcher.FoundIffRow | ai_tuner/matcher.py:55-68 | Since matches are always unused, the "already used" branch is unreachable: a name is counted found iff it adds a row |
| Matcher.SortedNames | ai_tuner/matcher.py:36 | `sorted(car_drivers)` lists each name once, in ascending order |
| Matcher.SortedEnumerationUnique | ai_tuner/matcher.py:36 | The sorted order of a set of names is unique |
| Matcher.MatchName | ai_tuner/matcher.py:37-71 | One turn of the loop performs the matching step for the name's best match |
| Matcher.MatchInOrder | ai_tuner/matcher.py:36-71 | The loop over the names computes the matching outcome |
| Matcher.MatchDrivers | ai_tuner/matcher.py:12-88 | `match_drivers` matches the names in ascending order. Found count = rows and found + missing = names. Drivers are distinct records. Columns start with `Driver`, `Source_CAR_File`, `CAR_File_Path`, have no duplicates and cover every row key |
| RcdUpdater.DropNewlines | ai_tuner/rcd_updater.py:169 | `rstrip('\n')` removes exactly the trailing newlines |
| RcdUpdater.CommentOf | ai_tuner/rcd_updater.py:203-207 | The comment is the suffix starting at the first `//`, or empty when there is none |
| RcdUpdater.NewValue | ai_tuner/rcd_updater.py:197-213 | The new value is that of the first listed field equal to the key ignoring case whose value is non-empty (earlier such fields are missing or empty); None iff no such field has a non-empty value |
| RcdUpdater.FirstListedFieldWins | ai_tuner/rcd_updater.py:197-213 | With `Speed` and `speed` both listed, the one listed first supplies the value |
| RcdUpdater.LookupField | ai_tuner/rcd_updater.py:197-216 | The `for`/`else` search through `fieldnames` finds that value |
| RcdUpdater.Next | ai_tuner/rcd_updater.py:172-224 | The automaton's step, stated case by case (its consequences for the output are OpenAfterHeader, ChangedOnlyAfterHeader and LinesKept): outside the block, a line whose comment-free stripped text equals the name enters it at depth 0; inside, depth changes by count(`{`) - count(`}`), and the block is left only on a line holding `}` that leaves depth 0 |
| RcdUpdater.Updated | ai_tuner/rcd_updater.py:168-227 | The output has one line per input line |
| RcdUpdater.UpdateLine | ai_tuner/rcd_updater.py:169-227 | One turn of the loop performs the automaton step and writes that line's output |
| RcdUpdater.UpdateSingleRcdFile | ai_tuner/rcd_updater.py:155-237 | `update_single_rcd_file`, without the file access, computes those output lines |
| RcdUpdater.LinesKept | ai_tuner/rcd_updater.py:168-227 | One output line per input line, each ending in `\n`; every line is copied unless it holds `=`, lies in the open block and is rewritten with a non-empty value |
| RcdUpdater.OpenAfterHeader | ai_tuner/rcd_updater.py:172-178 | The block is open only after a line naming the driver |
| RcdUpdater.ChangedOnlyAfterHeader | ai_tuner/rcd_updater.py:172-227 | Only lines after a header line for the driver can change, so a file without one is copied unchanged |
| RcdUpdater.RewriteConditions | ai_tuner/rcd_updater.py:181-220 | A line changes only inside the block, only when it holds `=` with positive depth after it, and only when its key names a listed field with a non-empty value |
| RcdUpdater.RewriteParts | ai_tuner/rcd_updater.py:191-211 | The rewrite is indent + stripped key + `=` + new value + comment + newline |
| RcdUpdater.RewriteKeeps | ai_tuner/rcd_updater.py:191-211 | For a canonical line, only the value changes, and the whitespace before `//` is dropped; the same value leaves the line unchanged |
| RcdUpdater.DriverInRcdFile | ai_tuner/rcd_updater.py:138-153 | True iff the file is readable and some line is a header naming the driver exactly (case-sensitive) |
| RcdUpdater.HeaderTestAgreesWithParser | ai_tuner/rcd_updater.py:146-150 | That header test is the parser's header classification |
| RcdUpdater.Succeeded | ai_tuner/rcd_updater.py:44-67 | Successes never exceed the processed rows |
| RcdUpdater.UpdateRcdFiles | ai_tuner/rcd_updater.py:17-81 | Rows with an empty `Driver` are skipped; success + error = remaining rows |
| RcdUpdater.SafeName | ai_tuner/rcd_updater.py:100 | Same length; alphanumerics and ` _-` are kept and every other character becomes `_` |
| RcdUpdater.SafeNameIdempotent | ai_tuner/rcd_updater.py:100 | Sanitising twice changes nothing more, and a name that is already safe is kept |
| Columns.Without | ai_tuner/driver_table_editor.py:139-140 | The comprehension keeps exactly the columns not dropped and keeps distinct columns distinct |
| Columns.WithoutAppend | ai_tuner/driver_table_editor.py:139-140 | The selection preserves order: it distributes over concatenation |
| Columns.Present | ai_tuner/driver_table_editor.py:155-157 | The standard columns taken are exactly those present, without repeats |
| Columns.RemoveFirst | ai_tuner/driver_table_editor.py:158 | `list.remove` takes out one occurrence |
| Columns.Pick | ai_tuner/driver_table_editor.py:154-158 | The picked and remaining variables together are a rearrangement of the variables |
| Columns.Arranged | ai_tuner/driver_table_editor.py:154-161 | The ordered variables are a permutation of the variables |
| Columns.Arrange | ai_tuner/driver_table_editor.py:154-161 | The ordering loop with its `remove` and `extend(sorted(...))` computes that order |
| Columns.PickedPresent | ai_tuner/driver_table_editor.py:154-158 | For distinct variables, the picked ones are the present standard columns in standard order; other columns stay |
| Columns.RestOutsideOrder | ai_tuner/driver_table_editor.py:155-158 | For distinct variables, no present standard column is left over |
| Columns.ArrangedShape | ai_tuner/driver_table_editor.py:153-161 | The result is a permutation: the present standard columns first in order, then the others in ascending order, none of them standard |
| Columns.Matching | ai_tuner/driver_table_editor.py:295-298 | The filter keeps exactly the names whose lower-cased form contains the text |
| Columns.MatchingAppend | ai_tuner/driver_table_editor.py:295-298 | The filter preserves order: it distributes over concatenation |
| Columns.Filtered | ai_tuner/driver_table_editor.py:294-302 | Drivers are kept by substring; matching variables are kept, or all variables when none matches |
| DriverTableEditor.GetVariables | ai_tuner/driver_table_editor.py:133-163 | `get_variables` computes the ordered variables |
| DriverTableEditor.VariablesMembers | ai_tuner/driver_table_editor.py:135-140 | Never the metadata columns or `Abbreviation`, `Nationality`, `NatAbbrev`, `Script`; every other column is kept, with its multiplicity |
| DriverTableEditor.VariablesOrder | ai_tuner/driver_table_editor.py:143-161 | For distinct columns, the present standard columns come first in standard order and the rest follow sorted |
| DriverTableEditor.EditableFields | ai_tuner/driver_table_editor.py:445-447 | The editable fields are exactly `fieldnames` without the metadata and excluded fields |
| DriverTableEditor.ShownAreEditable | ai_tuner/driver_table_editor.py:445-447 | The fields written back are exactly the variables the editor shows |
| DriverTableEditor.ApplyFilter | ai_tuner/driver_table_editor.py:282-305 | An empty filter restores the full table; otherwise drivers are kept iff the lower-cased text is a substring of their lower-cased name, and only variables are shown |
| DriverTableEditor.EmptyFilterKeepsAll | ai_tuner/driver_table_editor.py:286-302 | Filtering by the empty text would keep everything, so the empty-filter shortcut agrees with the filter |
| DriverTableEditor.Editor.constructor | ai_tuner/driver_table_editor.py:14-29 | Starts with no cells and `changes_made` false |
| DriverTableEditor.Editor.ShowTable | ai_tuner/driver_table_editor.py:165-235 | The cells are rebuilt from the DataFrame with no cell differing; `changes_made` is kept |
| DriverTableEditor.Editor.CellChanged | ai_tuner/driver_table_editor.py:260-280 | A differing cell sets `changes_made`; a revert clears it iff no cell differs any more |
| DriverTableEditor.Editor.SaveCsvChanges | ai_tuner/driver_table_editor.py:415-430 | Exactly the differing cells are written into the DataFrame; everything else is kept |
| DriverTableEditor.Editor.HandleSaveSuccess | ai_tuner/driver_table_editor.py:460-469 | Every cell's text becomes its original, and nothing is pending |
| DriverTableViewer.GetVariables | ai_tuner/driver_table_viewer.py:122-152 | `get_variables` computes the ordered variables |
| DriverTableViewer.VariablesMembers | ai_tuner/driver_table_viewer.py:124-128 | Only the four metadata columns are left out |
| DriverTableViewer.VariablesOrder | ai_tuner/driver_table_viewer.py:131-150 | For distinct columns, the present standard columns, including `Abbreviation` and `Script`, come first in order and the rest follow sorted |
| DriverTableViewer.ApplyFilter | ai_tuner/driver_table_viewer.py:205-231 | An empty filter changes nothing; otherwise drivers are kept by case-insensitive substring and only variables are shown |
| DriverTableViewer.Export | ai_tuner/driver_table_viewer.py:297-323 | The exported sheet starts with the `Driver` column |
| DriverTableViewer.ExportIsView | ai_tuner/driver_table_viewer.py:304-323 | The export holds the filtered selection when there is a filter, and all drivers and variables otherwise |
| Text.Lower | ai_tuner/matcher.py:93 | `lower()` keeps the length and lower-cases each character |
| Text.Strip | ai_tuner/rcd_handler.py:89 | `strip()` is the slice left after removing the leading and trailing whitespace, and it neither starts nor ends with whitespace |
| Text.CutComment | ai_tuner/rcd_handler.py:89 | `split('//')[0]` is the prefix before the first `//` and holds no `//` |
| Text.IndexOf | ai_tuner/rcd_handler.py:102 | The first `=` (the split point of `split('=', 1)`) |
| Text.SplitOn | ai_tuner/rcd_handler.py:86 | `split('\n')` gives at least one piece, none holding the separator |
| Text.JoinSplit | ai_tuner/rcd_handler.py:86 | The pieces of `split('\n')` joined again give back the text |
| Text.Indent | ai_tuner/rcd_updater.py:210 | The indentation is the leading whitespace of the key part |
| Text.Words | ai_tuner/matcher.py:101 | `split()` gives non-empty words without whitespace |
| Text.WordsOfSpaceFree | ai_tuner/matcher.py:118-119 | A name without whitespace is a single word |
| Text.SortStrings | ai_tuner/driver_table_editor.py:161 | `sorted()` returns an ascending permutation |

## Left out

- File access is not modelled: reading with the encoding fallback, `readlines`, `os.walk` and the search folders, writing files, `shutil.copy2` and the timestamped backup folder. Each file arrives as its text or `None`. In `update_rcd_files` the outcome of locating and rewriting each row's file is a parameter.
- `backup_rcd_file` is modelled only through its file-name sanitiser. A failed backup does not change the counts.
- The Tk widgets, tooltips, dialogs, status labels, background threads and logging are not modelled. `gui.py`, `main.py`, `processor.py`, `csv_writer.py`, `file_finder.py`, `debug_logger.py` and `debug_analyzer.py` are not part of this model.
- The DataFrame is a map from (variable, driver) to cell text. The float formatting of cells and the `str()` of NaN or numeric values are not modelled. Cell values are strings throughout.
- The regular-expression engine is not modelled. The four rules are hand-written scanners with `re.findall`'s non-overlapping, resume-after-match behaviour.
- Matcher.Basename: paths follow Windows' rules (the tool's platform). A UNC share root such as `\\server\share`, whose whole text is a drive, is not modelled as a drive; it cannot be the path of a `.car` file.
- Text.Lower: only ASCII letters are lower-cased, and `\d` and `isalnum` are ASCII. Python maps the whole Unicode range. Whitespace is Python's full `isspace` set.
- DriverTableViewer.Export: the sheet is modelled as its drivers and columns, without the cell values.
- DriverTableEditor.Editor.ShowTable: the table rebuild is modelled as a replacement of the cell map. Widget creation and per-cell change callbacks are not modelled.
- CarHandler.MatchAt: states only where a match ends; what each rule captures is stated through the worked examples (`JaneQuoted`, `JaneUnterminated`, `JaneBare`, `JaneDriverName`).
- Matcher.MakeRow: states only the `Driver` field; the other fields are stated by `Matcher.MakeRowFields`.
