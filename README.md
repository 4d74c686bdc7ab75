# BIDS file-name planner

`BIDS_conversion.py` converts DICOM sessions to NIfTI with an external
converter. It then rearranges the converter's output into a BIDS layout,
`<root>/sub-<id>/<session>/{anat,func,dwi,misc}/`. This project models the part
of the script that decides names:

- which folder every converted file goes to, and which files are renamed
  (`organizeFiles`);
- the extension a renamed image keeps (`checkGz` on `os.path.splitext`);
- the run numbers and names of diffusion images (`checkdwi`);
- the labels and names of functional images (`checkTask`);
- the subject id read from each matched DICOM path, and the conversion job
  each path becomes (the script's top level and `fullBids`).

Every filesystem effect becomes a value. A move is a `Move(source, folder,
dest)`, a rename is a `Rename(source, dest)` of names inside one folder, and a
conversion is a `Job(source, subName, session)`. Each loop of the script is a
Dafny `method` with the same loop, and each is proved equal to a plan function.
Lemmas about the plan functions then state what the script promises, and where
its names collide. Python's string, integer and path built-ins are written out
as needed, in modules `PyStr`, `PyReplace`, `PyInt` and `PyPath`. `str.split`,
`str.find`, `str.replace`, `list.sort` on strings, `int()`, `str()` and
`os.path.splitext` are each modelled with the edge cases the script can reach.
A Python exception becomes the `Err` case of a `Result`.

Modules: `Wrappers` and `SeqFacts` (`wrappers.dfy`), `PyStr`, `PyReplace`
(`replace.dfy`, `str.replace`), `PyInt`,
`PyPath`, `Naming` (the BIDS entity names), `ScanKinds` (`classify.dfy`),
`Organize`, `Diffusion` (`dwi.dfy`), `TaskLabels` (`task.dfy`) and `Subject`.

## Behaviour worth noting

- `checkdwi` keeps the gaps between tokens: tokens 5, 6, 7, 9 become runs 1, 2,
  3, 5, which are not contiguous (`Diffusion.RunNumbersKeepGaps`).
- A functional file moved by `organizeFiles` keeps its whole name, with its
  `fcMRI` part.
- The run text of a task scan is the part after the first `bold`, cut at the
  next `bold` and then at the first dot, with `(MB4iPAT2)`, `task`, `_` and `-`
  deleted. `bold` itself is cut off, not deleted.
- Any name whose `splitext` extension is `.gz` gets `.nii.gz`, whatever comes
  before the `.gz`.

## Model

| member | source | states |
|---|---|---|
| PyPath.CheckGz | BIDS_conversion.py:44-49 | An extension other than `.gz` is returned unchanged, and the result is `.nii.gz` exactly when the extension was `.gz` or `.nii.gz` |
| PyPath.SplitExt | BIDS_conversion.py:70 | `os.path.splitext`: root plus extension is the path; the extension is non-empty exactly when the basename's last dot follows some non-dot of the basename, and then it runs from that dot; it holds no further dot and no `/` |
| PyPath.NiftiExtOfName | BIDS_conversion.py:44-49 | For a file name, the kept extension is `.nii.gz` exactly when the name ends in `.gz` after a non-dot; otherwise it is the `splitext` extension; it is empty or starts with a dot |
| PyPath.NiftiExt | BIDS_conversion.py:70 | `checkGz(os.path.splitext(f))`, the extension every renamed image keeps (also lines 87 and 107 with 116-128); stated by `NiftiExtOfName` |
| PyPath.LastIndexOf | BIDS_conversion.py:70 | The last index of the character, or -1, and no later index holds it |
| PyStr.Find | BIDS_conversion.py:59 | `str.find`: -1 exactly when the pattern does not occur, otherwise an occurrence with none before it |
| PyStr.OccurrenceFound | BIDS_conversion.py:59 | Any occurrence makes `find` succeed, at or before that occurrence |
| PyStr.Split | BIDS_conversion.py:60 | `str.split` yields at least one piece, exactly one when the separator does not occur, and no piece holds the separator |
| PyStr.SecondField | BIDS_conversion.py:60 | `s.split(sep)[1]` exists exactly when the separator occurs; it holds no separator and is the text after the first separator cut at the next one |
| PyStr.BeforeFirst | BIDS_conversion.py:62 | `s.split(sep)[0]` is a prefix of `s` without the separator, ended by the separator or the end of `s` |
| PyStr.FirstPieceAtFind | BIDS_conversion.py:62 | The first piece of `s.split(sep)` is the text before the first occurrence `find` reports; `split(sep)[0]` is the whole string exactly when `find` gives -1, and otherwise ends where `find` points, also for a separator that overlaps itself |
| PyStr.JoinSplit | BIDS_conversion.py:60 | Joining the pieces of a split with the same separator gives back the string |
| PyStr.SplitJoin | BIDS_conversion.py:170 | Splitting the join of pieces free of a one-character separator gives back the pieces |
| PyReplace.Replace | BIDS_conversion.py:62 | `str.replace` leaves a string without the pattern unchanged; with the pattern present it gives the text before the first occurrence, the replacement, then `replace` of the text after that occurrence, so `(MB4iPAT2)`, `task`, `_` and `-` are replaced one occurrence at a time from the left |
| PyReplace.DeleteKeepsChars | BIDS_conversion.py:62 | Deleting a pattern never introduces a character |
| PyReplace.DeleteCharRemovesAll | BIDS_conversion.py:62 | Deleting a one-character pattern leaves none of that character |
| PyStr.LexLeTotal | BIDS_conversion.py:54 | String order compares any two names |
| PyStr.LexLeAntisymmetric | BIDS_conversion.py:54 | Names ordered both ways are equal |
| PyStr.LexLeCommon | BIDS_conversion.py:54 | A common prefix keeps the order of what follows it |
| PyStr.SortNames | BIDS_conversion.py:54 | `files.sort()` returns a sorted permutation of the names |
| PyStr.SortNamesOfSorted | BIDS_conversion.py:54 | Sorting a sorted listing leaves it unchanged |
| PyStr.SortNamesMembers | BIDS_conversion.py:54 | Sorting keeps exactly the names it was given |
| PyInt.NatToString | BIDS_conversion.py:90 | `str(n)` is decimal digits whose value is `n`, with no leading zero |
| PyInt.IntToString | BIDS_conversion.py:60 | `str(i)` for any integer: non-empty, and starting with `-` exactly when `i` is negative. A generalisation: the script only prints counts and run numbers, which the model prints with `NatToString`, and no other member uses it |
| PyInt.ParseInt | BIDS_conversion.py:84 | `int(s)` succeeds exactly when the stripped text is decimal digits with an optional sign, and then returns the digits' value, negated after `-` |
| PyInt.Strip | BIDS_conversion.py:84 | The white space `int()` ignores: the result is a slice of the text with only white space before and after it, and neither starts nor ends with white space |
| PyInt.ParseIntOfIntToString | BIDS_conversion.py:84 | `int(str(i)) == i` for every integer, the round trip that pins `ParseInt`'s value against an independent printer. A generalisation: the script never reads back text it printed, and no other member uses it |
| PyInt.NatToStringInjective | BIDS_conversion.py:60 | Different counts print differently |
| Naming.EntityNameInjective | BIDS_conversion.py:75 | Two entity names differing only in value and extension are equal exactly when both are, for values without `_` |
| Naming.EntityName | BIDS_conversion.py:75 | `<sub>_<ses>_<key>-<value>_<suffix><ext>`, the shape shared by the task (line 75), dwi (line 90) and anatomical (lines 116-128) names; stated by `EntityNameInjective` |
| ScanKinds.Classify | BIDS_conversion.py:113-134 | The `if`/`elif` chain on `n.find(...)`; what it decides is stated by `ClassifySpec` and `ClassifyIsFirstMatch` |
| ScanKinds.ClassifySpec | BIDS_conversion.py:113-134 | An anatomical tag only when its pattern occurs; MPRAGE wins over everything; functional only when no anatomical pattern occurs; miscellaneous exactly when no pattern occurs |
| ScanKinds.ClassifyIsFirstMatch | BIDS_conversion.py:113-134 | The `if`/`elif` chain equals the first matching rule of the ordered table |
| ScanKinds.FirstMatchIsEarliest | BIDS_conversion.py:113-134 | The earliest rule whose pattern occurs decides |
| ScanKinds.FirstMatchNone | BIDS_conversion.py:132-134 | With no pattern present the file is miscellaneous |
| ScanKinds.TagNameDetermines | BIDS_conversion.py:116-128 | No `acq-` label followed by any text reads as another label |
| Organize.AnatName | BIDS_conversion.py:116-128 | `<sub>_<ses>_acq-<tag>_T1w<ext>` for the four anatomical tags; stated by `RouteSpec` and `AnatNamesCollideIff` |
| Organize.Route | BIDS_conversion.py:113-134 | The move of one file; stated by `RouteSpec` |
| Organize.Plan | BIDS_conversion.py:105-134 | One move per listed file, in listing order; partition stated by `PlanPartitionsListing` |
| Organize.OrganizeFiles | BIDS_conversion.py:105-134 | The loop produces exactly the per-file moves of the plan, in listing order |
| Organize.RouteSpec | BIDS_conversion.py:113-134 | Each file keeps its name unless anatomical; anatomical files go to `anat/` renamed by tag and kept extension; functional to `func/`; none to `dwi/` |
| Organize.PlanPartitionsListing | BIDS_conversion.py:97-134 | Every listed file lands in exactly one of `anat/`, `func/`, `misc/`, and `dwi/` stays empty |
| Organize.MovedIntoPartition | BIDS_conversion.py:105-134 | The files moved into the four folders together are the files moved |
| Organize.MovedIntoUnused | BIDS_conversion.py:97 | A folder no move names receives nothing |
| Organize.AnatNamesCollideIff | BIDS_conversion.py:116-128 | Two anatomical files get the same new name exactly when tag and kept extension agree |
| Diffusion.RunToken | BIDS_conversion.py:84 | `int(f.split('_')[1])`: fails with `NoRunField` exactly when there is no second field, with `RunNotInteger` exactly when that field is not an integer, and otherwise returns the field's integer value |
| Diffusion.Tokens | BIDS_conversion.py:83-84 | The token or error of each file, in order; the first loop's outcome is stated by `ReadRuns` and `DwiPlanFailsIff` |
| Diffusion.Min | BIDS_conversion.py:85 | `min` is an element no larger than any element |
| Diffusion.RunNumbers | BIDS_conversion.py:85-88 | Runs are at least 1, some run is 1, and every run is its token shifted by one common offset |
| Diffusion.DwiName | BIDS_conversion.py:90 | `<sub>_<ses>_run-<run>_dwi<ext>`; stated by `DwiNameInjective` |
| Diffusion.DwiRenames | BIDS_conversion.py:86-91 | One rename per sorted file, to its run number and kept extension; stated by `RenameRuns`, `DwiRenamesEveryFile` and `DwiRenamesCollideIff` |
| Diffusion.DwiPlan | BIDS_conversion.py:79-91 | The renames of `checkdwi` or its error; stated by `DwiPlanFailsIff`, `DwiRenamesEveryFile` and `DwiNamesCollideIff` |
| Diffusion.ReadRuns | BIDS_conversion.py:82-84 | The first loop reads every token, or stops at the first unreadable file |
| Diffusion.RenameRuns | BIDS_conversion.py:86-91 | The second loop renames each file to its run number and kept extension |
| Diffusion.CheckDwi | BIDS_conversion.py:79-91 | `checkdwi` performs exactly the renames of the plan, or the error that stops it |
| Diffusion.DwiPlanFailsIff | BIDS_conversion.py:79-91 | `checkdwi` fails exactly when the folder is empty or some file's token is unreadable |
| Diffusion.DwiRenamesEveryFile | BIDS_conversion.py:86-91 | Every file of the folder is renamed exactly once |
| Diffusion.DwiNameInjective | BIDS_conversion.py:90 | Dwi names are equal exactly when run and extension are |
| Diffusion.DwiRenamesCollideIff | BIDS_conversion.py:86-91 | Two renames collide exactly when run number and kept extension agree |
| Diffusion.DwiNamesCollideIff | BIDS_conversion.py:79-91 | Two files get the same name exactly when their tokens and kept extensions agree |
| Diffusion.RunNumbersKeepGaps | BIDS_conversion.py:85-88 | Tokens 5, 6, 7, 9 become runs 1, 2, 3, 5 |
| TaskLabels.IsRest | BIDS_conversion.py:59 | `f.find('rest') != -1`, the test of lines 59 and 73; stated by `IsRestOf` |
| TaskLabels.ScanKey | BIDS_conversion.py:60 | The key exists exactly when the name holds `_`, and holds no `_` |
| TaskLabels.RunText | BIDS_conversion.py:62 | The run text exists exactly when the name holds `bold` |
| TaskLabels.Counter | BIDS_conversion.py:60 | `kind + str(len(m))`; stated safe by `CounterSafe` |
| TaskLabels.Step | BIDS_conversion.py:59-66 | One iteration of the first loop; stated by `StepFails`, `StepCovers` and `StepKeepsSafe` |
| TaskLabels.Pass | BIDS_conversion.py:58-66 | The first loop from empty dictionaries; stated by `PassFailsIff`, `PassCovers`, `PassSafe` and `PassLastWrite` |
| TaskLabels.Lookup | BIDS_conversion.py:75 | `task[kind][f.split('_')[1]]`; stated by `PassCovers` and `LookupSafe` |
| TaskLabels.TaskName | BIDS_conversion.py:75 | `<sub>_<ses>_task-<label>_bold<ext>`; stated by `TaskNameInjective` |
| TaskLabels.TaskRenames | BIDS_conversion.py:69-77 | One rename per sorted file, by its key's label and kept extension; stated by `RenameTasks`, `RenameAt`, `TaskRenamesEveryFile` and `TaskNamesCollideIff` |
| TaskLabels.TaskPlan | BIDS_conversion.py:51-77 | The renames of `checkTask` or its error; stated by `TaskPlanFailsIff`, `TaskRenamesEveryFile` and `TaskNamesCollideIff` |
| TaskLabels.ReadLabels | BIDS_conversion.py:55-66 | The first loop builds exactly the two dictionaries of the first pass, or stops with its error |
| TaskLabels.RenameTasks | BIDS_conversion.py:69-77 | The second loop renames each file by its key's label and kept extension |
| TaskLabels.RenameAt | BIDS_conversion.py:70-75 | The rename of file `i` looks its key up in `rest` or `task` by the `rest` test |
| TaskLabels.CheckTask | BIDS_conversion.py:51-77 | `checkTask` performs exactly the renames of the plan, or the error that stops its first pass |
| TaskLabels.PassStops | BIDS_conversion.py:58-66 | Once the first pass fails, later files do not matter |
| TaskLabels.StepFails | BIDS_conversion.py:59-66 | One iteration fails exactly when the file is unreadable, with that error |
| TaskLabels.PassFailsIff | BIDS_conversion.py:58-66 | The first pass fails exactly when some file is unreadable, with the error of the first one |
| TaskLabels.ScanErrorOf | BIDS_conversion.py:59-66 | A file is unreadable exactly when it lacks its key field, or is a task file without `bold`; that case reports `bold` first |
| TaskLabels.TaskPlanFailsIff | BIDS_conversion.py:51-66 | `checkTask` fails exactly when some file of the folder is unreadable |
| TaskLabels.TaskRenamesEveryFile | BIDS_conversion.py:69-77 | Every file of the folder is renamed exactly once |
| TaskLabels.StepCovers | BIDS_conversion.py:59-66 | An iteration labels its file's key and keeps earlier keys labelled |
| TaskLabels.PassCovers | BIDS_conversion.py:58-75 | After the first pass every file's key has a label, so the second pass raises no KeyError |
| TaskLabels.CounterSafe | BIDS_conversion.py:60-64 | `rest<n>` and `task<n>` hold no `_`, `-` or `.` |
| TaskLabels.RunTextSafe | BIDS_conversion.py:62 | A non-empty run text holds no `_`, `-` or `.` |
| TaskLabels.StepKeepsSafe | BIDS_conversion.py:59-66 | An iteration keeps every label non-empty and free of `_`, `-` and `.` |
| TaskLabels.PassSafe | BIDS_conversion.py:58-66 | The first pass gives only non-empty labels free of `_`, `-` and `.` |
| TaskLabels.LabelsSafe | BIDS_conversion.py:58-66 | Labels built from any listing are non-empty and free of `_`, `-` and `.` |
| TaskLabels.LookupSafe | BIDS_conversion.py:75 | A looked-up label is non-empty and free of `_`, `-` and `.` |
| TaskLabels.TaskNameInjective | BIDS_conversion.py:75 | Task names are equal exactly when label and extension are |
| TaskLabels.TaskNamesCollideIff | BIDS_conversion.py:69-77 | Two files get the same name exactly when their keys' labels and their kept extensions agree |
| TaskLabels.PassLastWrite | BIDS_conversion.py:58-66 | For every scan sequence, a key's final label is the one its last scan of that kind wrote, computed from the dictionaries just before that scan |
| TaskLabels.PassRelabels | BIDS_conversion.py:58-60 | Resting-state keys 1, 1, 2 end with labels `rest1` and `rest1` |
| TaskLabels.ScanKeyOf | BIDS_conversion.py:60 | The key of `<a>_<k>_<t>` is `k` |
| TaskLabels.IsRestOf | BIDS_conversion.py:59 | A name holding `rest` is a resting-state scan |
| TaskLabels.GzipKeepsNiftiExt | BIDS_conversion.py:70 | A name ending in `.gz` after a non-dot keeps `.nii.gz` |
| TaskLabels.SidecarFirst | BIDS_conversion.py:54 | The `.json` sidecar sorts before its image |
| TaskLabels.KeyOrder | BIDS_conversion.py:54 | Key `1` sorts before key `2` |
| TaskLabels.CollidingListingSorted | BIDS_conversion.py:54 | The three-file listing is already sorted |
| TaskLabels.RestFileKey | BIDS_conversion.py:59-60 | `<a>_<k>_rest<t>` is resting-state with key `k` |
| TaskLabels.CollidingListingKeys | BIDS_conversion.py:59-60 | The three files are resting-state with keys 1, 1, 2 |
| TaskLabels.GzipSuffix | BIDS_conversion.py:70 | A name ending in a gzip tail keeps `.nii.gz` |
| TaskLabels.CollidingListingExts | BIDS_conversion.py:70 | Both images keep `.nii.gz` |
| TaskLabels.TaskPlanOfSorted | BIDS_conversion.py:51-77 | On a sorted listing whose pass succeeds, the plan is the renames by those labels |
| TaskLabels.RelabelledPlan | BIDS_conversion.py:51-77 | Any sorted resting-state listing with keys 1, 1, 2 renames its second and third files to `task-rest1` |
| TaskLabels.RestLabelsCollideAsWritten | BIDS_conversion.py:59-60 | As written, `a_1_rest.json`, `a_1_rest.nii.gz`, `a_2_rest.nii.gz` rename both images to the same `task-rest1` name |
| TaskLabels.PassFirstSeenAgrees | BIDS_conversion.py:58-66 | The corrected pass fails where the pass as written fails, with the same error, and labels the same keys |
| TaskLabels.StepsAgree | BIDS_conversion.py:59-66 | One corrected iteration agrees with one as-written iteration on failure and on keys |
| TaskLabels.PassFirstSeenCovers | BIDS_conversion.py:58-75 | After the corrected pass every file's key has a label |
| TaskLabels.NumberedSafe | BIDS_conversion.py:60 | A `rest<n>` label is non-empty and free of `_`, `-` and `.` |
| TaskLabels.FreshLabel | BIDS_conversion.py:60 | A new key gets a label no earlier key has |
| TaskLabels.PassFirstSeenDistinct | BIDS_conversion.py:58-60 | With the correction, distinct resting-state keys get distinct labels |
| TaskLabels.TaskRenamesRestDistinct | BIDS_conversion.py:69-77 | Renames from distinct labels keep resting-state files with different keys apart |
| TaskLabels.RestNamesDistinctFirstSeen | BIDS_conversion.py:51-77 | With the correction, resting-state files with different keys are never renamed to the same name |
| Subject.SubjectId | BIDS_conversion.py:170 | The id exists exactly when the path has 7 segments and the 7th holds `_`; otherwise the matching error; the id holds no `/` or `_` |
| Subject.IdHasNoSeparators | BIDS_conversion.py:170 | The field read from a segment holds neither separator |
| Subject.SecondFieldOf | BIDS_conversion.py:170 | `<head>_<id><tail>` has `id` as its second field |
| Subject.SubjectIdOfSegments | BIDS_conversion.py:170 | A path joined from segments yields the id placed in its 7th segment |
| Subject.SubjectIdOfMatch | BIDS_conversion.py:162-170 | Under the glob template the id is the second `_`-field of the subject folder, and there is none when that folder's name has no `_` |
| Subject.SubjectName | BIDS_conversion.py:146 | The name is `sub-` followed by the id |
| Subject.SubjectNameInjective | BIDS_conversion.py:146 | Different ids give different subject names; an id without `_` gives a name without `_` |
| Subject.Ids | BIDS_conversion.py:168-171 | The id, or the error, of each matched path in glob order; stated by `CollectIds` and `ScriptPlanFailsIff` |
| Subject.CollectIds | BIDS_conversion.py:166-171 | The loop collects the id of every path, or stops at the first unreadable path |
| Subject.Jobs | BIDS_conversion.py:173-175 | One job per path, paired with its id's subject name and session `ses-1`; stated by `RunJobs` and `ScriptPlanJobs` |
| Subject.RunJobs | BIDS_conversion.py:173-175 | The loop starts one job per path, with its id's subject name and session `ses-1` |
| Subject.Script | BIDS_conversion.py:164-175 | The top level starts exactly the jobs of the plan, or fails before any |
| Subject.ScriptPlan | BIDS_conversion.py:164-175 | The jobs of the top level, or the error of its first path without an id; stated by `ScriptPlanFailsIff` and `ScriptPlanJobs` |
| Subject.ScriptPlanFailsIff | BIDS_conversion.py:166-171 | No job starts exactly when some path has no id, reporting the first such path |
| Subject.ScriptPlanJobs | BIDS_conversion.py:173-175 | Job `i` converts path `i` for session `ses-1` of the subject its id names |
| Subject.SessionDir | BIDS_conversion.py:96 | The session folder is the output root, the subject name, `/`, the session |
| Subject.SessionDirInjective | BIDS_conversion.py:96 | Session folders coincide exactly when the subject names do |
| Subject.JobsShareFolderIff | BIDS_conversion.py:145-175 | Two jobs write into the same session folder exactly when their paths yield the same id |
| Wrappers.AllOkSpec | BIDS_conversion.py:168-171 | A loop that stops at its first error succeeds exactly when every item does, and otherwise reports the first failure |
| Wrappers.AllOkOfItems | BIDS_conversion.py:83-84 | Such a loop fails exactly when some item fails |

## Left out

- The DICOM conversion (`convert`, the `Dcm2niix` call) is not modelled. A conversion is a `Job` value that records its source folder, subject name and session.
- Filesystem effects are values, not performed: `os.makedirs`, `shutil.move`, `os.rename`, `next(os.walk(...))`, `glob`. The listing is a parameter in the order `os.walk` gives it. Moves and renames are returned as sequences in the order the script performs them. What a rename over an existing file does to the disk is out of scope; the collision lemmas say when two renames share a destination.
- `organizeFiles` raising `FileExistsError` at BIDS_conversion.py:97 when its folders already exist is not modelled. That happens on a re-run, or for a second DICOM folder of the same subject (`Subject.JobsShareFolderIff` says when two jobs share a folder). The plan is computed as if the folders were new.
- Printing is left out.
- `checkTask` and `checkdwi` are modelled although the script never calls them (their calls are commented out). Each takes the folder listing directly.
- In `checkdwi`'s second loop, each file's token is read again. The model uses the tokens of the first loop, which are the same values.
- `int()` accepts only ASCII digits in the model, with Python's white space around them. Python also accepts other Unicode digits and `_` between digits. No `_` can reach it, because the token comes from `split('_')`.
- String order is code-point order. `list.sort` is modelled as a sort into that order. Python's sort is stable, but equal names are identical, so stability is not observable.
- `fullBids` iterates over a one-entry dictionary. The model keeps that single conversion per job.
- `TaskLabels.CheckTask`: models the numbering as written. The corrected first-seen numbering is `TaskLabels.PassFirstSeen`; no part of the script uses it.

## Findings

| source | as written | input that shows it | evidently intended | confidence | as-written member | corrected member |
|---|---|---|---|---|---|---|
| BIDS_conversion.py:59-60 | A resting-state key is relabelled `rest<len>` every time it is seen. A key seen twice (an image and its `.json` sidecar) gets `rest0` and raises the count to 1, then is rewritten to `rest1`. The next key also gets `rest1`. | folder `a_1_rest.json`, `a_1_rest.nii.gz`, `a_2_rest.nii.gz`: keys 1 and 2 both get `rest1`, so both images are renamed to `<sub>_<ses>_task-rest1_bold.nii.gz` and the second rename replaces the first | each key keeps the label it got first, so different keys get different labels | not executed; medium | TaskLabels.RestLabelsCollideAsWritten | TaskLabels.RestNamesDistinctFirstSeen |
