# mkv-submerge, modelled in Dafny

mkv-submerge walks a directory tree of Matroska containers and does one of three
things per file: `run` merges a sidecar subtitle file (`<stem>.<lang>.srt`) into
the container as a new subtitle track, unless the container already carries a
subtitle in that language; `export` looks for a language from a priority list,
either as an existing sidecar or as an embedded track to extract; `to-srt`
converts `.ass` subtitle files into `.srt` files beside them. Every per-file job
updates a shared set of four counters (`ProcessingStats`).

This project models the engine behind those commands and proves what it promises:

- `LanguageUtils` (language_utils.py): the 29-entry alias table and the
  matching rule. The rule is shown to be equality of "canonical languages"
  (the primary code of a code's alias list, or the code itself), and from that
  symmetric and transitive; the alias lists are pairwise disjoint.
- `MkvOperations` (mkv_operations.py): probing subtitle languages, finding the
  sidecar file (exact name first, then the least pattern candidate in natural
  order), computing the output path (mirroring the tree under an output
  directory), the replace step and the temp-file protocol around the merge.
- `AssOperations` (ass_operations.py): converting one `.ass` file, with its
  skip, dry-run, error and cleanup paths.
- `Cli` (cli.py): the per-file jobs of `run` and `export`, the sequential loops
  of all three commands, parsing the `--languages` priority list, and resolving
  options against the configuration file, including the exit with status 2.
- `Stats` (stats.py): the counters and the accounting every loop keeps: each
  file adds one to `total`, and each file whose job did not raise adds one to
  exactly one outcome counter.
- Support modules: `Text` (Python's `str.lower`, `strip`, `split`), `Paths` (the
  parts of pathlib used), `Files` (the filesystem as a map of files plus a set of
  directories; each call is a pure function saying whether it raised and what the
  state is after, and the class `FileSystem` performs it in place), `Wrappers`
  (`Option`).

The container library (pymkv/mkvmerge), the subtitle converter (pyasstosrt) and
the natural sort (natsort) are not modelled as code. They are oracles given as
parameters:
- the probe result of a container (its tracks, or `None` when opening it raised);
- a `MuxOutcome` per container: setup raised, the merge raised leaving some
  residue at the temp path, or the merge wrote a result;
- the converter's output per `.ass` file (`None` when any step raised);
- whether a container has an embedded track in a language;
- the extraction of a container's track in a language: `None` when extracting or
  copying failed, or the file extension its codec maps to and the data written;
- a total order `natLe` standing for the natural order.

Where the project's own description of the tool and its code disagree, the model
follows the code:
- In the sequential loops (`workers == 1`) nothing catches an exception. A job
  that raises (a failed merge without `--ignore-mux-errors`, a `mkdir` or
  replace that raises) ends the whole command. Only pool mode isolates jobs.
  `Cli.RunMergeSequential` states this: only the last outcome can be `Raised`.
- The `mkdir` of the output directory that `run` performs before any job is not
  modelled (see "Left out").
- A dry run of `run` still calls `compute_output_path`, which creates the output
  directories. It writes no file (`Cli.DryRunWritesNoFile`).
- Only `.srt` sidecars are looked for, not a list of subtitle extensions.
- The replace step uses `Path.replace` only. There is no copy-and-delete fallback.
- A failed merge in place without `--ignore-mux-errors` leaves the temp file
  beside the container (`MkvOperations.InPlaceFailureRaises`).
- With the flag set, a temp file can still be left behind. Opening the container
  and building the subtitle track (mkv_operations.py:133-135) happen outside the
  `try`. When they raise, the job raises even with the flag, and the empty temp
  file created at mkv_operations.py:121-123 stays beside the container
  (`MkvOperations.InPlaceSetupFailureLeavesTemp`). Only a failure of the merge
  itself is ignored. In that case no temp file remains: the container is
  replaced by whatever the merge left, or the move raises and the container is
  kept (`MkvOperations.InPlaceIgnoredFailure`).
- `mux_with_subtitle` only ever writes straight to a separate output or replaces
  the container in place. The "unlink the existing output, then move" branch of
  `handle_file_operations` is never taken from it (`MkvOperations.ProtocolNeverUnlinks`).

## Model

| member | source | states |
|---|---|---|
| Text.Lower | src/language_utils.py:38-39 | `str.lower()` keeps the length, maps each character by itself, and leaves no upper-case letter |
| Text.LowerIdempotent | src/language_utils.py:38-39 | lower-casing twice is lower-casing once |
| Text.Strip | src/cli.py:392 | `strip()` is a middle slice with only whitespace cut from either end, and the result starts and ends with no whitespace |
| Text.StripUnpadded | src/cli.py:392 | a string with no whitespace at either end is its own `strip()` |
| Text.Split | src/cli.py:392 | `split(",")` yields at least one piece, no piece holds the separator, and joining the pieces gives the string back |
| Text.SplitJoinBy | src/cli.py:392 | splitting a joined list of separator-free pieces gives the pieces back |
| Paths.Child | src/mkv_operations.py:61-62 | `dir / name` has parent `dir` and name `name` |
| Paths.LastIndexOf | src/mkv_operations.py:35 | `rfind`: -1 or an index holding the character, with none after it |
| Paths.Stem | src/mkv_operations.py:41 | stem followed by suffix is the name |
| Paths.WithSuffix | src/mkv_operations.py:35 | `with_suffix` keeps the directory and replaces the name's suffix |
| Paths.RelativeTo | src/mkv_operations.py:58-61 | `relative_to` succeeds exactly when the root is a prefix of the path, and root joined with the result is the path |
| Files.FileSystem.Unlink | src/mkv_operations.py:95 | `unlink` removes a file, and raises without change for a missing path or a directory |
| Files.FileSystem.Replace | src/mkv_operations.py:98 | `replace` moves a file onto the destination, overwriting a file there; it raises without change when the source is no file or the destination is a directory |
| Files.FileSystem.MakeDirs | src/mkv_operations.py:63 | `mkdir(parents=True, exist_ok=True)` adds the directory and its ancestors, and raises without change when one of them is a file |
| Files.FileSystem.Write | src/mkv_operations.py:88 | the merge writing the whole temp file |
| Files.FileSystem.Leave | src/mkv_operations.py:137-139 | a failed merge leaves its residue at the temp path, or nothing |
| Files.FileSystem.CreateTemp | src/mkv_operations.py:122-123 | the temp file is a new, empty file in the given directory, under a name no entry used |
| Stats.ProcessingStats.constructor | src/stats.py:6-11 | fresh counters are all zero |
| Stats.ProcessingStats.Count | src/cli.py:113-132 | one more in the counter an outcome names, and no other change |
| Stats.Settle | src/cli.py:113-132 | the counter update once a job has an outcome: one more in the counter the outcome names, none for a raising job (properties stated through `Record` and `ProcessingStats.Count`) |
| Stats.Record | src/cli.py:105-132 | a job adds one to `total`, and one to the counter its outcome names and to no other; a raising job adds to no outcome |
| Stats.RecordAll | src/cli.py:212-225 | the counters after a run of jobs in order: each job's `Record` applied in turn (properties in `RecordAllAccounting`) |
| Stats.RecordAllAccounting | src/cli.py:212-225 | after a run, `total` grew by the number of jobs, and the outcome counters by the number of jobs that did not raise |
| Stats.CleanRunBalances | src/cli.py:212-225 | from zero with no job raising, total = files = processed + skipped (has language) + skipped (no SRT) |
| LanguageUtils.AliasesIndexed | src/language_utils.py:1-31 | each alias list is exactly the set of codes the reverse index sends to its primary code |
| LanguageUtils.AliasIndex | src/language_utils.py:1-31 | a code is in the list of primary code `k` exactly when the reverse index sends it to `k` |
| LanguageUtils.PrimaryCodeIsKey | src/language_utils.py:1-31 | the reverse index only answers with primary codes |
| LanguageUtils.KeysInOwnList | src/language_utils.py:1-31 | every primary code is one of its own aliases |
| LanguageUtils.AliasListsDisjoint | src/language_utils.py:1-31 | no code is in the alias lists of two languages |
| LanguageUtils.KeyIndexedUnderItself | src/language_utils.py:1-31 | a primary code is indexed under itself |
| LanguageUtils.CanonicalNonEmpty | src/language_utils.py:1-31 | only the empty code has the empty canonical language |
| LanguageUtils.IsLanguageMatch | src/language_utils.py:34-47 | `is_language_match`, branch by branch: empty track code, equal lower-cased codes, primary-code lookup, shared alias list (characterised in `MatchCharacterization`) |
| LanguageUtils.HasLanguageInSet | src/language_utils.py:50-51 | `has_language_in_set`: some code in the set matches (characterised in `HasLanguageCharacterization`) |
| LanguageUtils.SharedListIff | src/language_utils.py:47 | two codes share an alias list exactly when they have the same primary code |
| LanguageUtils.MatchCharacterization | src/language_utils.py:34-47 | a match holds exactly when the track code is non-empty and both lower-cased codes have the same canonical language |
| LanguageUtils.EmptyNeverMatches | src/language_utils.py:35-36 | an empty track code never matches; an empty requested code matches nothing |
| LanguageUtils.MatchCaseInsensitive | src/language_utils.py:38-39 | the result depends only on the lower-cased codes |
| LanguageUtils.MatchReflexive | src/language_utils.py:41-42 | a code matches itself exactly when it is non-empty, known to the table or not |
| LanguageUtils.MatchPrimaryKey | src/language_utils.py:44-45 | for a primary code, a match is exactly membership of the track code in its alias list |
| LanguageUtils.MatchSymmetric | src/language_utils.py:34-47 | the match is symmetric |
| LanguageUtils.MatchTransitive | src/language_utils.py:34-47 | the match is transitive |
| LanguageUtils.PrimaryCodeExamples | src/language_utils.py:44-45 | "ru" matches "rus" and not "eng" |
| LanguageUtils.AliasExamples | src/language_utils.py:47 | "rus" matches "ru" through the shared alias list |
| LanguageUtils.CaseExamples | src/language_utils.py:38-47 | "RUS" matches "Russian" |
| LanguageUtils.UnknownCodeExamples | src/language_utils.py:41-47 | an unknown code matches itself in any case, and no listed language |
| LanguageUtils.NothingInEmptySet | src/language_utils.py:50-51 | no language is in an empty set |
| LanguageUtils.HasLanguageCharacterization | src/language_utils.py:50-51 | `has_language_in_set` holds exactly when the requested canonical language is among those of the set's non-empty codes |
| MkvOperations.SubtitleLanguages | src/mkv_operations.py:14-19 | every reported language is non-empty and lower case, and every subtitle track with a language contributes its lower-cased code |
| MkvOperations.SubtitleLanguagesSound | src/mkv_operations.py:14-19 | every reported language comes from a subtitle track with that lower-cased language |
| MkvOperations.ProbeSubtitleLanguages | src/mkv_operations.py:9-25 | the loop collects the subtitle languages of the probed tracks; a failed probe yields the empty set |
| MkvOperations.LeastExists | src/mkv_operations.py:44 | a finite non-empty set of candidates has a first element under a total order |
| MkvOperations.Least | src/mkv_operations.py:44 | `natsorted(candidates)[0]` is a candidate no later than any other |
| MkvOperations.ExactSidecar | src/mkv_operations.py:35 | the exact sidecar sits beside the container and is named `<stem>.<lang>.srt` |
| MkvOperations.MatchesPatternIff | src/mkv_operations.py:41-43 | a name fits `<stem>.*.<lang>.srt` exactly when it is stem, dot, any string, dot, lang, `.srt` |
| MkvOperations.Candidates | src/mkv_operations.py:41-43 | the glob yields exactly the existing entries beside the container that fit the pattern |
| MkvOperations.FindSrtFile | src/mkv_operations.py:28-51 | `find_srt_file`: empty language, exact sidecar, least pattern candidate in natural order, or nothing (its contract is `FindSrtFileSpec`) |
| MkvOperations.FindSrtFileSpec | src/mkv_operations.py:28-51 | empty language gives nothing; an existing exact sidecar wins; otherwise the first pattern candidate in natural order; nothing only when neither exists |
| MkvOperations.ExactIsNotACandidate | src/mkv_operations.py:35-43 | the exact sidecar never fits the pattern, so the two strategies never overlap |
| MkvOperations.FindSrtFileCaseInsensitive | src/mkv_operations.py:31 | the lookup depends only on the lower-cased language |
| MkvOperations.OutputPath | src/mkv_operations.py:54-62 | no output directory means the container itself; otherwise a path under the output directory that mirrors the container's place under the root, or just its name when it is outside the root |
| MkvOperations.OutputKeepsName | src/mkv_operations.py:58-62 | under an output directory the file keeps its name |
| MkvOperations.ComputeOutputPath | src/mkv_operations.py:54-64 | returns that path, and with an output directory creates the target's directory (raising when an ancestor is a file) |
| MkvOperations.FileOperations | src/mkv_operations.py:92-104 | the effect of `handle_file_operations`: unlink and move for three distinct paths, replace in place, nothing when the temp path is the output (properties in the three lemmas below) |
| MkvOperations.HandleFileOperations | src/mkv_operations.py:92-104 | the replace step call by call, with `tmp != output != mkv` as a chained comparison |
| MkvOperations.DirectWriteMovesNothing | src/mkv_operations.py:92-104 | when the temp path is the output nothing moves |
| MkvOperations.InPlaceReplace | src/mkv_operations.py:101-102 | in place, the container takes the temp file's contents and the temp file is gone; the move fails with no change exactly when the temp file is missing or the container is a directory |
| MkvOperations.SeparateOutputReplace | src/mkv_operations.py:93-98 | with three distinct paths, an existing output is overwritten by the temp file and nothing else changes |
| MkvOperations.MuxProtocol | src/mkv_operations.py:107-146 | the effect of `mux_with_subtitle` per merge outcome: a setup failure raises after the temp file exists, a merge failure raises unless ignored, and otherwise the replace step runs (properties in the `InPlace*` and `SeparateOutput*` lemmas) |
| MkvOperations.MuxWithSubtitle | src/mkv_operations.py:107-146 | the temp path is fresh beside the container in place and the output otherwise; the filesystem and the raise follow the protocol for each merge outcome |
| MkvOperations.ProtocolNeverUnlinks | src/mkv_operations.py:121-129 | the unlink-then-move branch of the replace step is never reached from the merge |
| MkvOperations.InPlaceSuccess | src/mkv_operations.py:121-146 | a successful merge in place replaces the container by the merged data and leaves no temp file |
| MkvOperations.InPlaceIgnoredFailure | src/mkv_operations.py:137-146 | a failed merge in place with errors ignored replaces the container by the residue, or raises keeping the container when there is none; no temp file remains |
| MkvOperations.InPlaceFailureRaises | src/mkv_operations.py:121-144 | a failed merge in place without ignoring errors raises, leaves the container untouched and the temp file behind |
| MkvOperations.InPlaceSetupFailureLeavesTemp | src/mkv_operations.py:121-135 | a setup failure in place raises even with errors ignored, and leaves the empty temp file beside the unchanged container |
| MkvOperations.SeparateOutputKeepsContainer | src/mkv_operations.py:126-146 | writing to a separate output never changes the container; a successful merge just writes the output |
| AssOperations.SrtOutput | src/ass_operations.py:22 | the SRT output sits beside the ASS file, named `<stem>.srt` |
| AssOperations.SrtOutputIsAnotherFile | src/ass_operations.py:22 | the SRT output of every name `rglob("*.ass")` yields (cli.py:306) is a different path, the bare name `.ass` (no suffix, output `.ass.srt`) included |
| AssOperations.AssJob | src/ass_operations.py:18-54 | `convert_ass_to_srt` as an outcome and a new filesystem: existing SRT, dry run, conversion error, conversion with optional cleanup (properties in the `AssJob*` lemmas) |
| AssOperations.AssJobNeverRaises | src/ass_operations.py:37-54 | every conversion error is caught; the job always ends in an outcome counter |
| AssOperations.AssJobOutcome | src/ass_operations.py:24-54 | skipped (has language) exactly when the SRT exists; processed exactly when it does not and it is a dry run or the conversion (and the unlink, with cleanup) went through |
| AssOperations.AssJobLeavesAlone | src/ass_operations.py:24-35 | an existing SRT, a dry run or a failed conversion change nothing |
| AssOperations.AssJobConverts | src/ass_operations.py:37-50 | a conversion writes the SRT, removes the ASS file exactly with cleanup, and changes nothing else |
| AssOperations.AssDeletedOnlyAfterConversion | src/ass_operations.py:45-46 | the ASS file disappears only with cleanup, after its SRT was written |
| AssOperations.ConvertAssToSrt | src/ass_operations.py:9-54 | the job on the filesystem and the counters: one outcome, recorded once |
| Cli.MergeStep | src/cli.py:123-131 | the end of `process_single_mkv` as an outcome and a new filesystem: output path (its `mkdir` may raise), dry-run stop, merge protocol |
| Cli.SidecarStep | src/cli.py:116-131 | no sidecar means skipped (no SRT) with nothing changed, otherwise `MergeStep` |
| Cli.MergeJob | src/cli.py:105-132 | `process_single_mkv` as an outcome and a new filesystem: language already present, then `SidecarStep` (properties in `MergeJobOutcome` and the lemmas below) |
| Cli.PerformMergeStep | src/cli.py:123-131 | computing the output path (raising when `mkdir` raises), the dry-run stop, and the merge; processed exactly when the merge protocol returns normally |
| Cli.PerformSidecarStep | src/cli.py:116-131 | no sidecar means skipped (no SRT) with no change; otherwise the merge step |
| Cli.ProcessSingleMkv | src/cli.py:93-132 | the `run` job on the filesystem and the counters, following `MergeJob` |
| Cli.MergeJobOutcome | src/cli.py:109-132 | skipped (has language) exactly when the probed set has the language to set; skipped (no SRT) exactly when not and no sidecar is found |
| Cli.ProbeFailureNeverSkipsForLanguage | src/cli.py:109-110 | a container that cannot be probed is never skipped for having the language |
| Cli.SkippedJobChangesNothing | src/cli.py:109-121 | a skipped file leaves the filesystem as it was |
| Cli.DryRunWritesNoFile | src/cli.py:123-129 | a dry run writes no file, and may only add directories |
| Cli.MergeJobInPlace | src/cli.py:93-132 | with no output directory and a successful merge, only the container changes, to the merged data |
| Cli.MergeStepKeepsSourceWithOutputDir | src/cli.py:123-131 | with a separate output path the container is never changed |
| Cli.ExportOutcome | src/cli.py:58-90 | the outcome of `process_single_mkv_export`: languages tried in order, a sidecar skips, an embedded track processes, none found skips (properties in the three lemmas below) |
| Cli.ExportNeverRaises | src/cli.py:58-90 | an export job never raises, given that the track lookup and extraction calls do not raise |
| Cli.ExportNotFoundIff | src/cli.py:58-90 | an export job is skipped as not found exactly when no language in the priority list has a sidecar or an embedded track |
| Cli.ExportFirstHitDecides | src/cli.py:58-86 | the first language that hits decides the outcome: a sidecar means skipped (has language), an embedded track processed |
| Cli.ExtractTarget | src/cli.py:84 | the sidecar an extraction writes is `<containerStem>.<lang><ext>` beside the container |
| Cli.ExportJob | src/cli.py:58-90 | the export job on the filesystem: languages tried in order; a sidecar skips with no change; an embedded track is processed and, except on a dry run, extracted; none found skips with no change (properties in the lemmas below) |
| Cli.ExportJobOutcome | src/cli.py:58-90 | the job's outcome is `ExportOutcome`'s, and the filesystem is unchanged unless the job processed a track outside a dry run |
| Cli.ExportJobFirstHit | src/cli.py:58-86 | the first language that hits decides the whole job: skipped with no change for a sidecar, otherwise processed with that language's extraction (none on a dry run) |
| Cli.ExportJobFrom | src/cli.py:58-90 | one step of the priority loop: language `i` decides, or the job goes on from language `i + 1` |
| Cli.SrtExtractionIsExactSidecar | src/cli.py:84 | an `.srt` extraction writes the exact sidecar name `find_srt_file` tries first (mkv_operations.py:35) |
| Cli.ExportRerunSkips | src/cli.py:58-90 | after an export that extracted `.srt` sidecars, exporting the same container again skips it as having the language |
| Cli.ExtractSubtitleFromMkv | src/cli.py:84 | the filesystem after the call is `Extracted`: unchanged on a failed extraction or a directory at the target, otherwise the target file holds the extracted data |
| Cli.ExportByPriority | src/cli.py:58-90 | the loop over the priority list has exactly `ExportJob`'s outcome and effect |
| Cli.ProcessSingleMkvExport | src/cli.py:47-90 | the outcome and new filesystem are `ExportJob`'s, and the counters are `Record` of the outcome |
| Cli.RunMergeSequential | src/cli.py:212-225 | job `i` is `MergeJob` on file `i`, run on the filesystem the previous job left, from the initial state to the final one; every job that reaches the merge wrote through a valid temp path (`TempsChosen` with `MergeTempAt`: fresh beside the container in place, the output otherwise); the first that raises ends the loop; the counters are the record of all jobs run; from zero with none raising, total = files = settled outcomes |
| Cli.MergeTraceAt | src/cli.py:212-225 | in a `run` trace, outcome `i` and state `i + 1` are what `MergeJob` gives on file `i` from state `i`, and when that job reaches the merge its temp path is valid: a fresh name beside the container in place (mkv_operations.py:121-123), the output otherwise |
| Cli.RunExportSequential | src/cli.py:405-413 | job `i` is `ExportJob` on file `i`, run on the filesystem the previous jobs left (their extracted sidecars included), from the initial state to the final one; no job raises; from zero, total = files = settled outcomes |
| Cli.ExportTraceAt | src/cli.py:405-413 | in an `export` trace, outcome `i` and state `i + 1` are what `ExportJob` gives on file `i` from state `i`, and outcome `i` is `ExportOutcome` on state `i` |
| Cli.RunConvertSequential | src/cli.py:309-319 | job `i` is `AssJob` on file `i`, run on the filesystem the previous job left, for every file, from the initial state to the final one; none raises; from zero, total = files = settled outcomes |
| Cli.AssTraceAt | src/cli.py:309-319 | in a `to-srt` trace, outcome `i` and state `i + 1` are what `AssJob` gives on file `i` from state `i` |
| Cli.CleanItems | src/cli.py:392 | at most as many items, each non-empty and lower case (contents in the lemmas below) |
| Cli.CleanItemsAppend | src/cli.py:392 | cleaning works item by item, in order: cleaning `a + b` is cleaning `a` followed by cleaning `b` |
| Cli.CleanItemsSingle | src/cli.py:392 | one item cleans to its stripped, lower-cased form, or to nothing when blank |
| Cli.CleanItemsKeepsItems | src/cli.py:392 | every non-blank item is in the result, stripped and lower-cased |
| Cli.CleanItemsFromItems | src/cli.py:392 | every entry of the result is some non-blank item, stripped and lower-cased |
| Cli.CleanItemsEmptyIff | src/cli.py:392-396 | cleaning leaves nothing exactly when every item is blank |
| Cli.CleanItemsHaveNoComma | src/cli.py:392 | cleaned items stay free of commas |
| Cli.ParseLanguagePriority | src/cli.py:392 | no more codes than comma-separated items, each non-empty, lower case and comma-free |
| Cli.ParsePriorityContents | src/cli.py:392 | the parsed list holds every non-blank comma-separated item stripped and lower-cased, and nothing else |
| Cli.ParsePriorityEmptyIff | src/cli.py:392-396 | the list is rejected exactly when every comma-separated item is blank |
| Cli.CleanItemsOfPlainCodes | src/cli.py:392 | trimmed lower-case codes survive cleaning unchanged |
| Cli.ParsePriorityOfJoined | src/cli.py:392 | parsing a comma-joined list of such codes gives the list back, in order |
| Cli.StringOption | src/cli.py:165-176 | the command line wins; otherwise the configuration value is taken exactly when it is a string (non-empty where the source tests truthiness), and nothing else is |
| Cli.FlagOption | src/cli.py:177-182 | a flag is set on the command line or by a configuration value `true` |
| Cli.NormalizeWorkers | src/cli.py:183-185 | the count stays in 1..8; a value other than 1 on the command line stands; at 1 an int in 1..8 from the configuration is taken, anything else gives 1 |
| Cli.ResolveRunArgs | src/cli.py:155-206 | exit with code 2 exactly when the root, the check language or the set language is unresolved; otherwise each value comes from the command line or, when absent there, from the configuration string, both languages lower-cased; an empty output directory means none; flags and workers as `FlagOption` and `NormalizeWorkers` |
| Cli.ResolveExportArgs | src/cli.py:371-396 | exit with code 2 unless a root and a language list with a non-blank item resolve; the root comes from the command line or the configuration string; the priority list is the parse of the command-line list or, when absent, of the configuration string |
| Cli.ResolveConvertArgs | src/cli.py:282-292 | exit with code 2 exactly when no root comes from the command line or a non-empty string in the configuration; otherwise the root is that value |

## Left out

- Console output, logging and the `verbose` option: they do not change files or counters.
- Pool mode (`workers > 1`) and concurrency: the thread pool, completion order and the exception catching at the pool boundary are not modelled. Only the sequential loops are. The worker count is still resolved.
- `find_subtitle_track_in_mkv` and `extract_subtitle_from_mkv` (used by `export`) are not part of this model; both call into the container library. The first is the oracle `hasTrack`. The second is the oracle `extract` and its effect `Cli.Extracted`. The sidecar name `<containerStem>.<lang><ext>` and the overwrite of an existing file follow the tool's documented extraction protocol. The codec-to-extension table is inside the oracle. Both calls are taken not to raise. So `ExportOutcome` has no `Raised` case, and `Cli.ExportNeverRaises` holds because of that choice; in the source, an exception from either call would end a sequential `export`.
- Cli.Extracted: a directory at the sidecar's name is taken to make the copy fail with no change. A copy onto a directory would instead put the file inside it.
- Cli.RunMergeSequential: the probe result and merge outcome of each container are fixed per path (`containers`) for the whole run. When the output directory lies under the root and a file written by an earlier job is also in the list, the source probes and merges the rewritten file; the model uses the oracle's answer for that path.
- `create_subtitle_track`, `MKVFile` and `perform_mux_operation` are not modelled beyond what they do to the files. An exception from them is the `SetupFailed` or `MuxFailed` merge outcome. The track name and language set on the new track are not modelled.
- Reading the configuration file (config.py) is not part of this model. The `Config` map stands for what it returns.
- The natural sort is an abstract total order. Ties between distinct paths, and the actual comparison of numeric runs, are not modelled.
- `natsorted(root.rglob(...))` enumerating the files: the loops take the list of files as a parameter.
- MkvOperations.FindSrtFile: the glob pattern is matched with the stem and language taken literally, so glob metacharacters in a file name are not interpreted. Matching is case-sensitive, as on a POSIX filesystem.
- Files.FileSystem.CreateTemp: creating the temp file is assumed to succeed. A temp name is any fresh name in the container's directory; the `.mkv` suffix `NamedTemporaryFile` adds is not modelled.
- AssOperations.AssJob: the converter is assumed to write exactly `<stem>.srt` beside the ASS file when it succeeds, and nothing when it raises. The effect and duplicate-removal options only change the converted text, which the oracle provides.
- The `mkdir` of the output directory in `run` (cli.py:202-203) is not modelled. It runs once, before any job. So the model misses two things. First, the output directory exists after `run` even when no file reaches `compute_output_path` (no files, or all skipped). Second, when that `mkdir` raises, `run` stops before any file is counted, while the model runs and counts the jobs.
- `with_suffix` raising for a language code that contains a path separator is not modelled. Codes are taken as plain names.
- Cli.NormalizeWorkers: a boolean `workers` value in the configuration (an int in Python) gives `True`, which counts as 1 worker. The model gives 1 directly.
- Text.Lower: only ASCII letters are case-mapped. Python also lower-cases other Unicode letters.
- `--version` and the typer option validation (the 1..8 range check, the root's existence) happen before the commands run. The model takes them as preconditions.
