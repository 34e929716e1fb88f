# Subtitle simplifier: a Dafny model

This project models two parts of a small video service.

The first part is the subtitle pipeline of `video_processor_v1.py`. It decides
whether a video carries Traditional-Chinese subtitles. When it does and no
Simplified track exists, it extracts the first traditional track and converts it
to Simplified Chinese. It then remuxes the video with only its video and audio
streams plus the new subtitle. Finally it either writes the result next to the
original under a suffixed name, or replaces the original in place. In the second
mode a backup copy can be taken first. Stale temporary files are swept at the
start of every run, and the run's own temporary files are removed at its end.

The second part is the job server of `api_server.py`:

- the request checks of `/process` (name, path characters, extension, file search, conflict);
- the worker that merges the request's overrides into the server settings, checks the file size, calls the pipeline, records the outcome in the status registry and may send an e-mail;
- the read-only status views (`get_status`, `get_all_status`, `get_queue_info`, `get_batch_status`);
- the batch conversion: its file list, its request check and its loop with the processed / skipped / error counters.

Modules follow the program:

- `Text`: Python string helpers (`strip`, `lower`, `rfind`, `os.path.splitext`, `os.path.join`).
- `Classifier`: the Han-character test, the SRT sample filter, and the per-stream traditional and simplified tests.
- `Analysis`: the probe and its byte-order-mark retry, the per-stream tag policy, the stream loop, and the asset decision.
- `Remux`: derived file names and the `-map` list.
- `Pipeline`: `process_single_video` over a map-based filesystem, including the sweep.
- `Config`: JSON values, the override merge, and the e-mail gate.
- `Registry`: the status registry and its views.
- `Jobs`: the file checks, the file search, `/process` and its worker.
- `Batch`: the batch file list, `batch_convert`, and the batch worker.

Things the program reads from the outside world are parameters of the model:

- The files on disk are a map from path to content. The video directory is a `Tree`: the paths that exist and the `os.walk` listing.
- Every external tool, and every file operation whose failure changes the outcome, is an oracle in `Pipeline.Toolkit`. This covers the probe output, the JSON decoder, the lines read back from a sample extraction, the zhconv mapping, the extraction result, the backup copy and whether a failed copy leaves a file, the second probe, the remux exit code and whether a failed remux leaves a file, and the remove and the move of the replace step. The removals whose failures the program catches and ignores always succeed in the model (see "Left out").
- The clock and file modification times are explicit integers.
- File sizes are a function returning `None` when the size probe raises.
- The worker's pipeline call and the SMTP session are functions of their inputs.

## Model

| member | source | states |
|---|---|---|
| Text.Strip | video_processor_v1.py:104 | the stripped text is a piece of the input with only white space before and after it; it is empty exactly when the input is all white space, and otherwise starts and ends with a non-space |
| Text.StripAround | video_processor_v1.py:104 | stripping removes exactly the white space around a piece that starts and ends with a non-space |
| Text.StripIdempotent | video_processor_v1.py:133 | stripping a stripped sample changes nothing, so the length test of the classifier sees the same text whichever way it is stripped |
| Text.StripOfTrimmed | video_processor_v1.py:104 | a line that already starts and ends with a non-space is kept as it is by the filter's strip |
| Text.Lower | api_server.py:81 | every capital A-Z becomes its small letter, 32 code points down, every other character is kept, and no capital is left (a second lowercasing changes nothing: Jobs.LowerIdempotent) |
| Text.LastIndexOf | api_server.py:81 | the index returned is the last occurrence of the character, -1 exactly when it does not occur |
| Text.AfterLastDot | api_server.py:81 | `rsplit('.', 1)[-1]` holds no dot and is the text after the last dot of the name |
| Text.SplitExt | api_server.py:162 | the two parts concatenate to the path; the extension is non-empty exactly when the last dot lies after the last slash and some character other than a dot precedes it in the last component, and it is then everything from that dot on |
| Text.Join | api_server.py:151 | an absolute second part replaces the first; otherwise the result is the first part followed by the second, with one slash between them exactly when the first part is non-empty and does not already end in a slash |
| Classifier.HanOnly | video_processor_v1.py:46-49 | the Han projection keeps exactly the Han characters: every character it keeps is Han and comes from the text, every Han character of the text is kept, and text of Han characters only is kept whole (order: Classifier.HanOnlyAppend) |
| Classifier.HanOnlyAppend | video_processor_v1.py:46-49 | the Han projection of a concatenation is the concatenation of the projections |
| Classifier.HanOnlyOfNonHan | video_processor_v1.py:46-48 | text with no Han character has an empty projection |
| Classifier.ContainsTraditional | video_processor_v1.py:40-55 | blank text is never traditional; otherwise the text is traditional exactly when its Han characters exist and the zh-cn mapping changes them |
| Classifier.NonHanTextIrrelevant | video_processor_v1.py:46-55 | inserting Han-free text anywhere never changes the traditional verdict |
| Classifier.Keep | video_processor_v1.py:104-111 | one line read contributes at most one kept line |
| Classifier.TextLinesAppend | video_processor_v1.py:103-112 | the filter works line by line, so filtering a concatenation concatenates the kept lines in file order |
| Classifier.TextLinesAreText | video_processor_v1.py:104-111 | every kept line is stripped, non-empty, not a number, holds no `-->`, and matches neither timestamp pattern |
| Classifier.TextLinesStep | video_processor_v1.py:103-112 | reading one more line extends the kept lines by exactly that line's contribution |
| Classifier.ReadOneLine | video_processor_v1.py:104-112 | a line is appended, stripped, exactly when its stripped form passes all five tests |
| Classifier.StopEarly | video_processor_v1.py:113-114 | stopping after any line leaves a prefix of the whole file's kept lines |
| Classifier.Render | video_processor_v1.py:111 | the sample text is empty exactly when no line was kept |
| Classifier.ExtractSampleText | video_processor_v1.py:100-116 | the loop keeps the filter's first lines in file order, as many as `sample_lines` asks for but at least one, and returns them each followed by a newline |
| Classifier.IsTraditionalSubtitle | video_processor_v1.py:129-139 | a sample under 30 characters after stripping is never traditional; otherwise the verdict is the Han-character test |
| Classifier.HasSimplifiedSubtitle | video_processor_v1.py:141-150 | a sample under 30 characters is never simplified; otherwise it is simplified exactly when it is not traditional |
| Classifier.OneHanCharacterSuffices | video_processor_v1.py:133-136 | the 30-character threshold counts every character, so one traditional character plus 29 Latin letters is traditional |
| Analysis.ProbeStreams | video_processor_v1.py:168-184 | a failed or blank probe yields nothing; output that decodes is decoded as is; output that does not is decoded once more after stripping white space and one leading byte-order mark |
| Analysis.BomRetry | video_processor_v1.py:177-184 | output made of white space, a byte-order mark, a body ending in a non-space and white space, which the decoder rejects, is decoded as the body alone |
| Analysis.SubtitleStreams | video_processor_v1.py:187-193 | the kept streams are all subtitles, and none are kept exactly when the probe lists no subtitle stream |
| Analysis.SubtitleStreamsExact | video_processor_v1.py:187-193 | every subtitle stream of the probe is kept, and every kept stream comes from the probe |
| Analysis.SubtitleStreamsOfSubtitles | video_processor_v1.py:187-193 | a probe of subtitle streams only is kept whole |
| Analysis.SubtitleStreamsAppend | video_processor_v1.py:187-193 | selection keeps probe order: the subtitle streams of a concatenation are those of the first part followed by those of the second |
| Analysis.StreamVerdict | video_processor_v1.py:199-218 | a traditional tag decides at once; any other tag, `zh`/`zho`/`chi`/`chs` included, gives the same verdict as the content tests alone |
| Analysis.Verdicts | video_processor_v1.py:199-222 | one verdict per subtitle stream: a stream with a traditional tag is traditional, and any other stream gets the content verdict of its own sample |
| Analysis.VerdictsAreLocal | video_processor_v1.py:199-222 | a stream's verdict depends only on its own tag and sample: two runs that agree on a position agree on its verdict |
| Analysis.ScanStreams | video_processor_v1.py:196-222 | the loop lists no more positions than it visits |
| Analysis.ScanFindsSimplified | video_processor_v1.py:196-218 | the loop's flag is set exactly when some stream's verdict is simplified |
| Analysis.ScanListsOnlyTraditional | video_processor_v1.py:197-214 | every listed position is a traditional stream's |
| Analysis.ScanListsEveryTraditional | video_processor_v1.py:197-214 | every traditional stream is listed |
| Analysis.ScanListsInOrder | video_processor_v1.py:197-214 | positions are listed in strictly increasing order |
| Analysis.ScanListsLowestFirst | video_processor_v1.py:197-214 | the first listed position is the lowest traditional one |
| Analysis.DecidePolicy | video_processor_v1.py:294-313 | no streams means skip; a simplified stream means skip; otherwise convert exactly when some stream is traditional, choosing the lowest such position |
| Analysis.SelectStream | video_processor_v1.py:152-228 | a failed probe skips as having no subtitles; otherwise the asset is converted exactly when no stream is simplified and one is traditional, at the lowest traditional position |
| Remux.Decorate | video_processor_v1.py:355-378 | a derived name is the video name lengthened by exactly its marker |
| Remux.DecorateKeepsStemAndExtension | video_processor_v1.py:355-378 | the marker goes between the stem and the extension, both kept unchanged |
| Remux.DerivedNamesDistinct | video_processor_v1.py:361-378 | the backup and temporary output names differ from the video and from each other, and the suffixed name is the video itself exactly when the suffix is empty |
| Remux.PlanOutput | video_processor_v1.py:358-379 | in replace mode the result lands on the video after a remux into another name; otherwise the remux writes straight to the target, which is the video only for an empty suffix |
| Remux.StreamMaps | video_processor_v1.py:400-402 | one `0:i` map per video or audio stream, by probe index, in increasing order |
| Remux.RemuxMaps | video_processor_v1.py:386-408 | a stream of the probe is mapped exactly when it is video or audio, never a subtitle, in probe order; the converted subtitle comes once, last |
| Pipeline.SweepOrphans | video_processor_v1.py:12-38 | the sweep only removes files and leaves every other file's content alone, and it removes a file exactly when it is a stale temporary-pattern file of the working directory |
| Pipeline.SweepIdempotent | video_processor_v1.py:12-38 | a second sweep at the same moment removes nothing more |
| Pipeline.SweepSparesFreshFiles | video_processor_v1.py:25-29 | a file younger than an hour, or not in the working directory, survives the sweep |
| Pipeline.StaleTempOutputSwept | video_processor_v1.py:20-29 | a stale leftover temporary output of any video with an extension matches `*_temp_output.*` and is swept |
| Pipeline.PrepareSubtitle | video_processor_v1.py:319-350 | a subtitle is in hand exactly when the extraction exits 0 and leaves a non-blank file whose conversion is non-empty; only the two per-run subtitle names change |
| Pipeline.PlaceOutput | video_processor_v1.py:355-384 | suffix mode proceeds exactly when the output does not yet exist; replace mode fails only on a failed backup copy, which may leave a partial file at the backup name, and copies only when a backup is asked for and absent |
| Pipeline.PartialBackupBlocksCopy | video_processor_v1.py:358-371 | a failed copy that leaves a file fails the run, and a later run finds that file, takes no copy and goes on with it as the only backup |
| Pipeline.Rebuild | video_processor_v1.py:386-429 | an undecodable second probe stops the run untouched; otherwise the remux runs with the probe's maps and tag `chi`, succeeds exactly on exit code 0, and writes the remuxed video or leaves a partial file |
| Pipeline.Replace | video_processor_v1.py:432-448 | the step succeeds exactly when remove and move both do; the temporary output never remains; the original is gone exactly when the remove succeeded and the move failed; no other path changes |
| Pipeline.Cleanup | video_processor_v1.py:456-467 | the `finally` removes both per-run subtitle files, and the temporary output in replace mode once named, and nothing else |
| Pipeline.ProcessSingleVideo | video_processor_v1.py:260-467 | a missing video ends the run at once with nothing changed; otherwise no per-run subtitle file outlives the run |
| Pipeline.SkipTouchesNothing | video_processor_v1.py:294-308 | a skipped asset takes no action, and only the sweep and the end-of-run cleanup touch the files |
| Pipeline.ProduceOk | video_processor_v1.py:355-451 | from the placement on, the run succeeds exactly when the placement succeeds, the second probe decodes, the remux exits 0, and in replace mode the remove and the move succeed |
| Pipeline.ProduceOutput | video_processor_v1.py:355-451 | a successful placement and remux leaves at the target a remux of the original with the given subtitle, the probe's maps and tag `chi` |
| Pipeline.AttemptOk | video_processor_v1.py:290-451 | an attempt succeeds exactly when the asset is to be converted, the subtitle is prepared, and the placement-to-replace conditions hold |
| Pipeline.SuccessConditions | video_processor_v1.py:260-467 | a run succeeds exactly when the video is chosen for conversion, the subtitle converts to non-empty text, the output can be placed, the second probe decodes, the remux exits 0, and in replace mode remove and move succeed |
| Pipeline.SuccessOutput | video_processor_v1.py:260-467 | after a successful run the target holds the original remuxed with the simplified extracted text, the second probe's maps and tag `chi` |
| Pipeline.ProduceFrame | video_processor_v1.py:355-451 | from the placement on only the video, its backup and the remux output can change; the video is lost only when the remove succeeded and the move failed |
| Pipeline.PrepareKeepsVideoNames | video_processor_v1.py:319-350 | the subtitle preparation leaves the video, its backup and its suffixed output as they were |
| Pipeline.AttemptKeepsOriginal | video_processor_v1.py:290-451 | within one attempt the video disappears exactly on the remove-then-failed-move path, and a failed attempt or suffix mode leaves it unchanged |
| Pipeline.CleanupSparesVideo | video_processor_v1.py:456-467 | the cleanup never removes or changes the video |
| Pipeline.OriginalSurvives | video_processor_v1.py:260-467 | the original is lost exactly on the remove-then-failed-move path, and is unchanged by any failed run and by every suffix-mode run |
| Pipeline.MoveFailureLosesBoth | video_processor_v1.py:432-448 | when the remove succeeds and the move fails, the run fails and neither the original nor the remuxed output remains; only a requested backup is left |
| Pipeline.ProduceSteps | video_processor_v1.py:358-448 | from the placement on, the original is removed only right after a successful remux into the temporary output, and only in replace mode |
| Pipeline.RemuxThenReplaceSteps | video_processor_v1.py:411-438 | a successful remux into the temporary output followed by the replace step removes the original only right after that remux |
| Pipeline.PlaceSteps | video_processor_v1.py:358-379 | the placement takes no removal action |
| Pipeline.RebuildSteps | video_processor_v1.py:386-429 | the remux step takes no removal action |
| Pipeline.ReplaceFollowsRemux | video_processor_v1.py:424-438 | each shape of the replace step, placed after a successful remux into the temporary output, puts the removal right after that remux |
| Pipeline.RemoveFollowsRemuxAppend | video_processor_v1.py:411-438 | the ordering of removal after remux survives concatenating two action sequences that each keep it |
| Pipeline.RemoveFollowsRemuxCons | video_processor_v1.py:320-338 | an action other than a removal, such as the extraction, can come first without breaking the ordering |
| Pipeline.AttemptSteps | video_processor_v1.py:290-451 | within one attempt the original is removed only right after a successful remux into the temporary output |
| Pipeline.RemoveFollowsRemux | video_processor_v1.py:260-467 | in every run the original is removed only right after a successful remux into the temporary output, and only in replace mode |
| Pipeline.ExistingOutputKept | video_processor_v1.py:381-384 | in suffix mode an existing output stops the run before any remux and is left as it was |
| Pipeline.FailedRemuxLeftovers | video_processor_v1.py:411-467 | a failed suffix-mode remux leaves its partial output at the suffixed name; in replace mode the temporary output never outlives the run |
| Pipeline.NothingElseChanges | video_processor_v1.py:260-467 | every path other than the video, the per-run subtitle files and the derived names ends as it began, unless the sweep took it |
| Pipeline.SweptVideoIsLost | video_processor_v1.py:12-38 | a stale video in the working directory whose name matches a temporary pattern is deleted by the sweep, and the run fails with no action |
| Config.AsNumber | api_server.py:216 | only integers and booleans compare with the integer size: an integer as itself, `True` as 1 and `False` as 0; any other value makes the comparison raise |
| Config.UpdatePairs | api_server.py:190 | `dict.update` from a sequence succeeds exactly when every item is a two-character string or a two-element list with a string first, and keeps every existing key |
| Config.UpdateWith | api_server.py:190 | a dict argument adds its keys to the base and its values win, while the other base values are kept; a list succeeds exactly when every item is a pair; an empty string changes nothing; `None`, a number or a boolean raises; no base key is ever lost |
| Config.StringUpdateRaises | api_server.py:190 | a non-empty string is never a valid `dict.update` argument |
| Config.MergeOverrides | api_server.py:180-196 | a missing override keeps the settings; a non-dict raises; every non-SMTP override key replaces the server value; the SMTP block is merged key by key and raises when either side cannot be merged |
| Config.SmtpMergeKeepsOtherKeys | api_server.py:187-191 | overriding one SMTP key keeps every other key of the server's SMTP block |
| Config.MergeExtraKey | api_server.py:193-196 | adding a non-SMTP override key puts exactly that value under the key and changes nothing else |
| Config.EmailSent | api_server.py:87-107 | a message goes out only for a completed job with the completion message, an SMTP dict in the settings and a truthy enable flag, and only when delivery succeeds |
| Config.BatchPrecheckAgrees | api_server.py:532-534 | on an SMTP dict, the batch loop's pre-check agrees with the gate for a completed file |
| Jobs.IsAllowedFile | api_server.py:77-85 | a name without a dot is allowed; a name with a dot is allowed exactly when the lowercased text after its last dot equals some configured extension without its first character (case: Jobs.AllowedIgnoresCase; last extension only: Jobs.LastExtensionDecides) |
| Jobs.AllowedByLastExtension | api_server.py:77-85 | any stem followed by a dot and a dot-free extension whose lowercase is a configured extension without its first character is allowed |
| Jobs.IsUnsafeName | api_server.py:282 | a name is refused as unsafe exactly when it holds two dots in a row, a slash or a backslash somewhere |
| Jobs.HasDoubleDot | api_server.py:282 | `".." in name` holds exactly when two dots stand next to each other at some position |
| Jobs.AllowedIgnoresCase | api_server.py:77-85 | the extension test gives the same answer for a name and its lowercased form |
| Jobs.AfterLastDotOfLower | api_server.py:81 | lowercasing neither adds nor removes a dot, and commutes with taking the last extension |
| Jobs.CapitalExtensionAllowed | api_server.py:77-85 | with the default extensions, `Movie.MKV` is allowed |
| Jobs.LastExtensionDecides | api_server.py:80-82 | only the last extension counts: `clip.mkv.txt` is refused |
| Jobs.CapitalConfiguredExtensionAdmitsNothing | api_server.py:80-82 | a configured extension written in capitals admits no file with that extension in any case |
| Jobs.FirstWhere | api_server.py:156-172 | the position found is the first that satisfies the test, or the length when none does |
| Jobs.ExactSearch | api_server.py:156-158 | the exact pass finds nothing exactly when no directory lists the name, and otherwise joins the name to the first directory that does |
| Jobs.FirstLooseDirectory | api_server.py:165-172 | the loose pass stops at the first directory with a loosely matching file |
| Jobs.FirstLooseFile | api_server.py:166-172 | within a directory the loose pass takes the first matching file in listing order |
| Jobs.LooseSearch | api_server.py:160-172 | the loose pass finds nothing exactly when no file matches in stem and allowed extension, and otherwise returns the first match in walk order |
| Jobs.FindVideoFile | api_server.py:146-174 | an existing direct path wins; otherwise the exact pass, then the loose pass; nothing is found exactly when all three fail |
| Jobs.SubmitVideo | api_server.py:257-319 | a request is accepted exactly when the body is a dict with a string name that passes every check and has no running job, and refused with 409 exactly when such a name does have one; an accepted name holds no path separator |
| Jobs.RunFound | api_server.py:207-247 | the worker writes a running entry and then one final entry; the pipeline is called with the merged options exactly when the size is known and within the merged `max_file_size` |
| Jobs.RunFoundReadsOnly | api_server.py:207-247 | the worker reads only the pipeline options, the size limit and the SMTP block of the merged settings |
| Jobs.RunWorker | api_server.py:176-255 | a failed merge or a missing file writes one error entry and calls nothing; the last entry is final and follows the pipeline's result; a notification implies a completed job and a delivered message |
| Jobs.FinishedJobHasNoDuration | api_server.py:200-253 | a single job's final entry is written whole, without a start time, so its status report carries no duration |
| Jobs.FinishedJobCanBeResubmitted | api_server.py:301-304 | a name whose entry is no longer running is accepted again |
| Jobs.BatchKeyIsAJobName | api_server.py:275-304 | `batch_convert` passes every request check when a file of that stem exists and no batch is running |
| Jobs.BatchKeyPassesNameChecks | api_server.py:77-85 | `batch_convert` is neither an unsafe name nor a refused extension |
| Jobs.JobReplacesBatchEntry | api_server.py:200-253 | a job named `batch_convert` replaces the batch entry, after which the batch status has no counters and 0 percent progress |
| Jobs.RunningJobRefusesDuplicates | api_server.py:300-304 | while a job for a name runs, no request for that name is accepted |
| Jobs.SizeLimitOverrideIgnored | api_server.py:214-216 | an override of `max_file_size_mb` changes nothing about the worker's run |
| Jobs.SizeLimitOverrideApplies | api_server.py:193-222 | an override of `max_file_size` to 0 turns away a one-byte file with an error before the pipeline runs |
| Registry.Finished | api_server.py:200-204 | a final entry carries its status, message and end time, and reports no duration and zero progress |
| Registry.Duration | api_server.py:331-333 | a duration is reported exactly when the entry has a start time |
| Registry.DurationStableOnceFinished | api_server.py:331-333 | a finished entry reports the same duration at any time; a running one's duration grows with the time of asking |
| Registry.GetStatus | api_server.py:321-338 | an unknown key gives 404; otherwise the reply is the entry, with a duration exactly when it has a start time: end minus start once it has ended, the time of asking minus start while it runs |
| Registry.Progress | api_server.py:625-629 | progress is 0 without a positive total, and otherwise the counted share of the total in percent |
| Registry.ProgressBounded | api_server.py:625-629 | progress is never negative, and stays at most 100 exactly when the counters do not exceed the total |
| Registry.ProgressComplete | api_server.py:625-629 | counters that account for every file give exactly 100 percent |
| Registry.GetBatchStatus | api_server.py:607-631 | no batch entry gives 404; otherwise the entry, its duration as for a single job, and a progress that is never negative, is 0 without a positive total, and is at most 100 while the counters do not exceed the total |
| Registry.CountsPartition | api_server.py:340-354 | the per-status counts add up to the number of entries |
| Registry.StatusCounts | api_server.py:344-347 | a status appears in the counts exactly when some entry has it, with the number of such entries |
| Registry.GetAllStatus | api_server.py:340-354 | `total_files` is the number of entries, and the status counts add up to it |
| Registry.GetQueueInfo | api_server.py:356-367 | processing plus pending is every entry, pending counts every non-processing status, and free slots are not clamped at zero |
| Batch.Candidates | api_server.py:415-418 | every file of the walk becomes a candidate with its joined path, and every candidate is such a file |
| Batch.CandidatesAppend | api_server.py:415-418 | the walk is listed directory by directory: the candidates of a concatenated walk are those of the first part followed by those of the second |
| Batch.Filter | api_server.py:418-434 | the filter keeps exactly the files with an allowed name and a known size within the limit, with that size |
| Batch.FilterAppend | api_server.py:415-434 | the filter works file by file, so it keeps the order of the walk |
| Batch.EligibleFiles | api_server.py:409-436 | every listed file comes from the walk, is allowed and is within the server's `max_file_size`; every such file of the walk is listed; a limit that does not compare lists nothing |
| Batch.EligibleFilesAppend | api_server.py:409-436 | the list keeps the order of the walk: that of a concatenated walk is the list of the first part followed by that of the second |
| Batch.ExtensionlessFileIsEligible | api_server.py:418-434 | a file with no dot in its name is eligible like any video |
| Batch.Mark | api_server.py:494-498 | marking the current file changes only the batch entry's file and message |
| Batch.FileEntry | api_server.py:514-546 | a converted file is completed, a returned false is skipped, and an exception is an error |
| Batch.Bump | api_server.py:514-546 | a conversion raises `processed`, a returned false `skipped` and an exception `errors`, each by one, and the other two counters are kept |
| Batch.FileStep | api_server.py:491-546 | each file is counted exactly once; a file with a running entry is skipped untouched; any other file raises the counter of its outcome and its entry records that outcome; a notification goes out only for a converted, delivered file with notifications on |
| Batch.FileStepAsWritten | api_server.py:491-546 | as written, each file raises the counters by one or two |
| Batch.AsWrittenCountsTwice | api_server.py:514-546 | with a non-dict SMTP block, a file the pipeline returned for is counted twice and recorded as an error |
| Batch.StepsAgreeOnDictSmtp | api_server.py:514-546 | with an SMTP dict or none, the as-written step and the corrected step agree |
| Batch.AsWrittenProgressOverflows | api_server.py:514-556 | with `smtp_settings` null and one converted file, the batch as written reports 200 percent progress |
| Batch.BatchLoop | api_server.py:491-546 | the loop counts one file per iteration, keeps the batch running, and leaves every key not named by a file untouched |
| Batch.NotifiedAccountedFor | api_server.py:514-534 | the loop only appends to the notified names, and each one belongs to a converted file whose message was delivered |
| Batch.NotifiedExtends | api_server.py:514-534 | one notification step followed by the rest of the loop stays accounted for |
| Batch.LoopCountsOutcomes | api_server.py:491-546 | when no file of a stretch has a running entry or the batch's name, each counter rises by the number of files with its outcome: conversions, returned falses, exceptions |
| Batch.FinalEntry | api_server.py:548-556 | the final update completes the entry with the counters and end time, keeping its start time |
| Batch.RunFiles | api_server.py:475-556 | a batch over a non-empty list ends completed, with a total equal to the list length and counters that add up to it |
| Batch.BatchCountsOutcomes | api_server.py:475-556 | when no file of the batch has a running entry or the batch's name, the final `processed_files`, `skipped_files` and `error_files` are the numbers of converted, returned-false and raising files |
| Batch.RunBatch | api_server.py:438-566 | a failed merge ends in an error entry; an empty list ends completed with zero counts; a run ends completed with counts adding to the total; no entry other than the files' own and the batch's changes |
| Batch.FinishedBatchReport | api_server.py:607-631 | a batch that reaches its end reports 100 percent and the time from start to end |
| Batch.UnstartedBatchReport | api_server.py:462-472 | a batch that fails on its settings or finds no file reports 0 percent and no duration |
| Batch.BatchBusyWhileRunning | api_server.py:578-582 | while the loop runs, every further batch request is refused as busy or fails on its body |
| Batch.FileNamedLikeBatchKeySkipped | api_server.py:501-504 | a file named `batch_convert` is always skipped, because the batch's own running entry has that name |
| Batch.SubmitBatch | api_server.py:568-605 | a request is accepted exactly when its body is empty or a dict, no batch runs and files exist; 409 exactly when a batch runs; 500 exactly for a non-dict body; accepted totals are the list length |
| Batch.AcceptedTotalIsBatchTotal | api_server.py:584-600 | for the corrected worker, and as long as the request and the worker see one file list, the total a request is accepted with is the total the batch then counts to |
| Batch.BatchLoopAsWritten | api_server.py:491-546 | as written, the loop counts each file once or twice, keeps the batch running and keeps its counters and times |
| Batch.LoopsAgreeOnDictSmtp | api_server.py:491-546 | with an SMTP dict or none, the loop as written is the corrected loop |
| Batch.RunFilesAsWritten | api_server.py:475-556 | as written, a batch over a non-empty list ends completed with a total equal to the list length and counters adding up to between one and two times it |
| Batch.RunBatchAsWritten | api_server.py:438-566 | as written, a failed merge ends in an error entry, an empty list ends completed with zero counts, and a run ends completed with counters adding up to between one and two times the total |
| Batch.RunsAgreeOnDictSmtp | api_server.py:438-566 | with an SMTP dict or none in the server settings, the batch as written is the corrected batch |

## Left out

- Subprocesses (ffprobe, ffmpeg), file I/O and the clock are oracles or parameters. Their exit codes, outputs and success flags are inputs of the model.
- JSON decoding of the probe output is the `parse` oracle. The JSON request bodies and settings are `Config.Value` trees with integer numbers only.
- The zhconv conversion is the `simplify` oracle, a function on strings.
- Sample extraction (`extract_sample_subtitle_text`): the ffmpeg run, its temporary `temp_sample_*` file and its removal are not modelled. The lines read back are the `samples` oracle per stream position. An extraction that fails reads as no lines.
- Analysis.StreamVerdict: one stream's sample is a single value, where the program runs up to three separate extractions of the same stream (video_processor_v1.py:205, :213, :217), each a new ffmpeg run with its own timeout. The model assumes they read back the same lines; if they disagree, a stream tagged `zh`, `zho`, `chi` or `chs` gets one more chance to be judged simplified than an untagged stream, and the claim that the tag changes nothing no longer holds.
- Analysis.Verdicts: "the content verdict of its own sample" rests on the same assumption that the repeated extractions of one stream agree.
- Exceptions inside one stream's analysis are not modelled separately. Their effect, the stream counting as neither simplified nor traditional, is the `Inconclusive` verdict of an empty sample.
- `convert_traditional_to_simplified` reads the file with `errors='ignore'`. The model's decoded text stands for what that read returns. Its file-size test on the input is folded into the non-blank test, because a zero-byte file decodes to the empty string.
- The per-run temporary names are built from a millisecond timestamp and a random number. They are a parameter (`TempNames`), required not to collide with the video's derived names.
- `os.path.isfile` on the video is folded into the existence test: a path in the filesystem map is a file.
- Pipeline.Rebuild: the second probe's exit code is not looked at by the source either. Only whether its output decodes matters.
- The `glob` patterns `temp_*_*.srt` are modelled as prefix-and-suffix matches on names in the working directory. Hidden files are not matched, as `glob` does not match them.
- Threads and the worker pool are left out. Each worker and each batch run is a function from the registry it starts on. Interleavings of concurrent workers, including two batch starts racing past the 409 check, are not modelled.
- Jobs.RunWorker: `found` is the worker's own `find_video_file` result, a parameter because the directory may change between the request and the run. `Jobs.FindVideoFile` over a `Tree` is what it stands for.
- Batch.RunBatch: the file list is the worker's own `get_eligible_video_files` result, passed in. `Batch.EligibleFiles` models that call.
- Times are whole seconds. Durations are differences of integers, with no floating point. All per-file entries of one batch carry one end time.
- Registry.Progress: the exact percentage, where api_server.py:627 rounds it to one decimal. The durations are rounded to two decimals at api_server.py:334 and api_server.py:620, which changes nothing on whole seconds.
- Pipeline.SweepOrphans: a removal or modification-time probe that raises is caught and ignored (video_processor_v1.py:26-32); the model's sweep always removes a stale match.
- Pipeline.Cleanup: a removal in the `finally` that raises is logged and ignored (video_processor_v1.py:462-467); the model's cleanup always removes the file.
- Pipeline.Replace: after a failed replacement the temporary output is removed, and a failure of that removal is ignored (video_processor_v1.py:443-447); the model's removal always succeeds.
- Pipeline.ProcessSingleVideo: its promise that no per-run subtitle file outlives the run rests on the cleanup removals succeeding, as above.
- Pipeline.FailedRemuxLeftovers: its promise that the replace-mode temporary output never outlives the run rests on the cleanup removals succeeding, as above.
- Batch.FileStep: models the corrected step, whose e-mail pre-check reads a non-dict SMTP block as disabled; the step as written is Batch.FileStepAsWritten (see "Findings").
- Batch.BatchLoop: the loop over the corrected step; Batch.BatchLoopAsWritten is the loop as written, equal to it with an SMTP dict or none (Batch.LoopsAgreeOnDictSmtp).
- Batch.RunFiles: the batch over the corrected loop; Batch.RunFilesAsWritten is the batch as written.
- Batch.RunBatch: the worker over the corrected loop; Batch.RunBatchAsWritten is the worker as written, equal to it with an SMTP dict or none in the server settings (Batch.RunsAgreeOnDictSmtp).
- Batch.AcceptedTotalIsBatchTotal: holds for the corrected worker only, and only when the request's walk (api_server.py:585) and the worker's own walk (api_server.py:460) list the same files; as written, a non-dict SMTP block lets the counters reach twice the total (Batch.AsWrittenProgressOverflows), and the directory may change between the two walks.
- Batch.FinishedBatchReport: holds for the corrected worker; as written, a non-dict SMTP block can push the report past 100 percent (Batch.AsWrittenProgressOverflows).
- Config.UpdatePairs: `dict.update` also accepts items whose first element is not a string, and any two-element iterable such as a tuple, a two-key dict or a two-byte string; the model rejects them because its settings maps have string keys only, and because a Dafny map has no key order from which to take a two-key dict's pair. JSON bodies can carry such items, for example `[[1, "x"]]` or `[{"a": 1, "b": 2}]`, and there the program's merge succeeds where the model's raises.
- Text.SplitExt: POSIX `os.path.splitext` only; on Windows `ntpath` also splits at backslashes and drive letters.
- Text.Join: POSIX `os.path.join` only; on Windows `ntpath` also treats backslashes and drive letters as separators and roots.
- Text.Lower: only ASCII letters are lowercased. Text.IsDigit accepts ASCII digits only, where `str.isdigit` and `\d` also accept other Unicode digits.
- The messages of registry entries are kinds (`Note`), not the formatted Chinese strings. The e-mail gate's completion message is kept exactly.
- The SMTP session (message building, login, send and its failures) is the `delivered` flag. A failure there is caught inside `send_email_notification` and changes nothing else.
- Config loading (`load_config`), its start-up post-processing other than `max_file_size`, the `/` index page, `list_video_files`, `/health` and the command-line entry point of the pipeline are not part of this model.
- The pipeline's `print` output and every log line are left out.

## Findings

| source | as written | input that shows it | evidently intended | confidence | as-written member | corrected member |
|---|---|---|---|---|---|---|
| api_server.py:532 | the batch loop's e-mail pre-check `current_config.get('smtp_settings', {}).get(...)` runs inside the per-file `try`, after `processed_count` or `skipped_count` has been raised and the file's entry written; when `smtp_settings` is present but not a dict it raises, the handler raises `error_count` as well and overwrites the entry with an error | `smtp_settings: null` in the server settings and a batch of one file that converts: the batch ends with processed 1 and errors 1 out of a total of 1, and reports 200 percent progress | the pre-check does not raise; each file is counted once and its entry keeps its outcome | not executed | Batch.RunBatchAsWritten (with Batch.FileStepAsWritten; exhibited by Batch.AsWrittenCountsTwice and Batch.AsWrittenProgressOverflows) | Batch.RunBatch (with Batch.FileStep; proved by Batch.FinishedBatchReport; agreement by Batch.RunsAgreeOnDictSmtp) |
