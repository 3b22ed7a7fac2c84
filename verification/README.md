# STLC-Manager: a Dafny model of the pipeline core

STLC-Manager walks a user through the software test life cycle. The
frontend has three parts:

- a catalogue of twelve stages, from code review to test closure;
- upload of documents, each tagged with a document type;
- selection of stages and running them as a pipeline, after checking that
  every selected stage has a file of each document type it needs.

The Python backends review code and draft test plans with a language model.
Before they call the model, they normalise whitespace, count tokens, pick a
chunk size and retry failed calls.

This project models that logic as pure functions over immutable data and
proves what it promises.

- **Catalogue** (`registry.dfy`): the twelve stages with their ids, names,
  input types and output type. Lemmas cover the shape of the catalogue.
- **Session** (`session.dfy`): the state the top-level component keeps and
  its handlers:
  - file upload per stage, prompt update and stage selection;
  - readiness validation and its "X is missing: a, b" message;
  - the run loop, where each stage goes to running and then to completed
    or error, and the first failure ends the run.
- **Toggles** (`toggles.dfy`): the insertion-ordered toggle. It is shared by
  the stage selection and the file-to-stage mapping.
- **Upload component** (`file_upload.dfy`):
  - the fixed type menu and the drop guard;
  - the file checkbox and the mapping chips;
  - the files a stage sees through the mapping, fed into the session's
    validation.
- **Tab view** (`tab_panel.dfy`):
  - the selection checkbox, which also switches the tab;
  - the prompt editor and the displayed-prompt fallback;
  - the pipeline list with its numbering and status labels;
  - the footer button's guard and its disabled rule.
- **Catalogue and menu together** (`readiness.dfy`): only four stages can
  ever pass validation. A second lemma shows that the run order and the
  display order differ.
- **Simulated executor** (`simulation.dfy`): the executor the frontend
  wires in. It resolves with a canned report.
- **Tokenisation and chunk size** (`words.dfy`): `str.split()`,
  `count_tokens`, `sanitize_text` and `determine_chunk_size`. Both Python
  backends define these identically.
- **Chunker** (`text_splitter.dfy`): the fixed-stride chunker, as a
  while-loop method with its round trip.
- **Code-review service** (`code_review.dfy`): `process_code_review` and
  `run_step`, with the chat model, the splitter and file reading as
  parameters.
- **Document service** (`stlc_backend.dfy`): extension dispatch,
  `retry_invoke` (also as a while-loop method) and the `/upload` handler.
  The handler covers the model check, aggregation, the blank check, the
  token warning, truncation and the model call.
- **Helpers**:
  - `wrappers.dfy`, `strings.dfy` and `sequences.dfy` for options, joining,
    splitting, decimal rendering and subsequences;
  - `paths.dfy` for `os.path.basename`, `splitext` and `lower`;
  - `http.dfy` for `HTTPException` and its text.

Where the code and its documentation disagree, the model follows the code:

- **Run order.** Stages run in the order they were selected
  (frontend/src/App.jsx line 110). The pipeline tab lists them in catalogue
  order (frontend/src/components/TabPanel.jsx lines 181-183), while the
  help text says they "execute in the order shown".
  `Readiness.DisplayOrderIsNotRunOrder` exhibits a case.
- **"Run Process" on a stage tab runs the whole pipeline.** It calls
  `onRun(processId, files)`, but `handleProcessRun` takes no arguments.
  See `TabPanel.StageRunIsPipelineRun`.
- **Two file models.** The session keeps files per stage. The upload
  component keeps one list of files and a file-to-stage mapping.
  - `FileUpload.ProcessFilesFromMapping` derives the per-stage table from
    the mapping.
  - `FileUpload.MappedValidationEmptyIff` states what validation means
    for that table.
  - The tab view passes the upload component props it does not declare
    (`onFilesSelected`, `existingFiles`). The component's own props are
    modelled.
  - As wired (frontend/src/components/TabPanel.jsx lines 239-245), the
    component's `onFileUpload` is undefined. So a drop with a type
    selected throws at frontend/src/components/FileUpload.jsx line 34,
    and `handleFileUpload` (frontend/src/App.jsx line 15) is never reached
    from the tab view. Its `(processId, fileInfo)` arguments do not match
    the component's `(acceptedFiles, selectedFileType)` call either.
    `Session.HandleFileUpload` models the handler as written, for any
    caller that does reach it.
- **Only four stages can pass validation.** Validation matches document
  types exactly, and the menu offers eight types. So only code review,
  requirement analysis, test-case optimisation and environment setup can
  have every input supplied. See `Readiness.OnlyFourStagesCanBeReady` and
  `Readiness.FourStagesCanBeReady`.
- **Unknown stage ids.** An unknown selected id makes validation throw a
  `TypeError`, because it reads `.inputs` of `undefined`. The run handler
  catches it, so the output becomes the error notice. `ValidatePipeline`
  returns `None` for this case. The loop's `if (process)` check can
  therefore never skip a stage: validation has already thrown.
- **Chunker arguments.** `split_text_into_chunks` does not check its
  arguments. With `overlap >= chunk_size` and non-empty text (for example
  `("ab", 2, 2)`), `start` never advances and the loop never ends.
  `TextSplitter.NoProgressWithoutStride` shows that the loop guard stays
  true. `TextSplitter.SplitTextIntoChunks` therefore requires that the
  text is empty or that `overlap < chunk_size`. The defaults, 1000 and
  100, meet that condition.

## Model

| member | source | states |
|---|---|---|
| Registry.FindIn | frontend/src/App.jsx:45 | `find` returns the first entry with the requested id, and returns nothing exactly when no entry has it |
| Registry.Find | frontend/src/App.jsx:45 | a lookup in the catalogue succeeds exactly for the catalogue's ids and returns the entry with that id |
| Registry.RegistryIdsDistinct | frontend/src/data/processes.js:1-134 | the catalogue has twelve stages with pairwise distinct ids |
| Registry.StageInputsWellFormed | frontend/src/data/processes.js:1-134 | every stage needs at least one input, lists no input twice and has a non-empty output type |
| Registry.OutputsDistinct | frontend/src/data/processes.js:1-134 | no two stages produce the same output type |
| Registry.RegistryIsDependencyOrdered | frontend/src/data/processes.js:1-134 | each input is a base document or the output of an earlier stage |
| Registry.CodeReviewInputs | frontend/src/data/processes.js:2-12 | code review needs exactly source code and the technical design document, in that order |
| Toggles.Without | frontend/src/components/FileUpload.jsx:130 | `filter(p => p !== x)` drops every occurrence of x and keeps exactly the other members |
| Toggles.WithoutAppend | frontend/src/components/FileUpload.jsx:130 | filtering distributes over concatenation |
| Toggles.WithoutKeepsNoDup | frontend/src/components/FileUpload.jsx:130 | filtering keeps a duplicate-free list duplicate-free |
| Toggles.Toggle | frontend/src/components/FileUpload.jsx:128-131 | the toggled id is present exactly when it was absent; other ids keep their membership; an absent id is appended at the end |
| Toggles.ToggleKeepsOthersInOrder | frontend/src/components/FileUpload.jsx:128-131 | toggling keeps the relative order of all other ids |
| Toggles.ToggleTwiceAbsent | frontend/src/components/FileUpload.jsx:128-131 | toggling an absent id twice restores the list exactly |
| Toggles.ToggleTwicePresent | frontend/src/App.jsx:29-39 | toggling a present id twice restores the members, with the id moved to the end of the insertion order |
| Toggles.ToggleKeepsNoDup | frontend/src/App.jsx:29-39 | toggling keeps the selection duplicate-free, as a `Set` is |
| Toggles.ToggleSet | frontend/src/components/FileUpload.jsx:95-104 | the unordered toggle flips the one id and leaves every other id alone |
| Toggles.ToggleSetTwice | frontend/src/components/FileUpload.jsx:95-104 | toggling the same id twice restores the set |
| Session.HandleFileUpload | frontend/src/App.jsx:15-20 | the file is appended at the end of that stage's list; other stages' lists and all other state are unchanged |
| Session.HandlePromptUpdate | frontend/src/App.jsx:22-27 | the stage's prompt becomes the new text; no other prompt or state changes |
| Session.PromptUpdateIdempotent | frontend/src/App.jsx:22-27 | saving the same prompt twice equals saving it once |
| Session.HandleProcessSelect | frontend/src/App.jsx:29-39 | selection flips the id's membership, leaves other ids alone, appends a new id last and changes nothing else |
| Session.SelectKeepsNoDup | frontend/src/App.jsx:29-39 | the selection never holds an id twice |
| Session.SelectTwice | frontend/src/App.jsx:29-39 | selecting and deselecting restores the state for an unselected id, and the selected set in every case |
| Session.MissingInputs | frontend/src/App.jsx:48-50 | the missing types are exactly the inputs that no file has as its type, in input order |
| Session.MissingEmptyIffReady | frontend/src/App.jsx:48-50 | nothing is missing exactly when every input has a file of that exact type |
| Session.ValidatePipeline | frontend/src/App.jsx:41-61 | validation throws exactly when a selected id is unknown; otherwise every entry names a selected stage with a non-empty missing list, and every selected stage that is not ready has its entry |
| Session.ValidationEmptyIff | frontend/src/App.jsx:41-61 | the report is empty exactly when every selected stage is known and has, for each input, a file of that type |
| Session.ValidationFollowsSelectionOrder | frontend/src/App.jsx:44-58 | report entries keep the selection order |
| Session.ReadyAfterAppend | frontend/src/App.jsx:46-50 | adding a file never makes a ready stage unready |
| Session.UploadKeepsReadiness | frontend/src/App.jsx:15-20 | after an upload, validation that passed still passes |
| Session.MissingLines | frontend/src/App.jsx:102-104 | one message line per report entry, in report order: line k is "<name> is missing: <a, b>" for entry k |
| Session.ErrorMessage | frontend/src/App.jsx:102-104 | splitting the message at newlines gives back the lines "<name> is missing: <a, b>", one per entry, in order |
| Session.RunStages | frontend/src/App.jsx:110-117 | stages are dispatched in selection order; the run stops right after the first failure; all stages before the last dispatched one succeeded; every stage logs running and then its terminal status |
| Session.RunStagesUntouched | frontend/src/App.jsx:63-94 | stages never dispatched keep their previous status |
| Session.RunStagesFinal | frontend/src/App.jsx:81-93 | dispatched stages end completed, except the failing one, which ends in error |
| Session.RunStagesOutput | frontend/src/App.jsx:110-125 | the output ends as the error notice after a failure, else as the last dispatched stage's report, else unchanged |
| Session.HandleProcessRun | frontend/src/App.jsx:96-126 | the handler changes no selection, files, prompts or tab; a non-empty report sets the message and runs nothing; a validation that throws clears the message, shows the error notice and runs nothing; a stage runs only after validation passes, in selection order |
| Session.RunIsLoop | frontend/src/App.jsx:110-117 | once validation passes, the outcome is exactly the loop's outcome |
| Session.RunLeavesNothingRunning | frontend/src/App.jsx:63-94 | no stage is left running by a run |
| Session.RunAllSucceed | frontend/src/App.jsx:110-117 | when all stages succeed, all run in order, all end completed, and the output is the last one's report |
| Session.RunStagesFailsAt | frontend/src/App.jsx:87-93 | the loop is left at the first failing stage, and exactly the stages up to it are dispatched |
| Session.RunStopsAtFirstFailure | frontend/src/App.jsx:87-125 | after a failure, earlier stages are completed, the failing one is in error, later ones keep their status, and the output is the error notice |
| Simulation.SimulatedReportHeading | frontend/src/App.jsx:75 | the simulated report opens with "# <name> Results" |
| Simulation.SimulatedExecute | frontend/src/App.jsx:71-79 | the simulated execution always resolves |
| Simulation.SimulatedRunCompletes | frontend/src/App.jsx:110-116 | with the simulated executor, a validated run completes every selected stage, and the output is the last stage's report |
| FileUpload.FileTypesDistinct | frontend/src/components/FileUpload.jsx:5-14 | the menu offers eight distinct types |
| FileUpload.OnDrop | frontend/src/components/FileUpload.jsx:29-35 | a drop uploads exactly when a type is chosen, passing all dropped files with that type; otherwise it alerts |
| FileUpload.DropTypeIsListed | frontend/src/components/FileUpload.jsx:29-35 | every upload carries a type from the menu |
| FileUpload.ToggleSelectedFile | frontend/src/components/FileUpload.jsx:95-104 | the checkbox flips the file id's membership and no other |
| FileUpload.ToggleSelectedFileTwice | frontend/src/components/FileUpload.jsx:95-104 | checking and unchecking restores the selection |
| FileUpload.ToggleMapping | frontend/src/components/FileUpload.jsx:127-132 | the chip removes the stage if present, else appends it; only that file's list changes |
| FileUpload.ToggleMappingKeepsOrder | frontend/src/components/FileUpload.jsx:127-131 | the file's other stages keep their relative order |
| FileUpload.ToggleMappingTwice | frontend/src/components/FileUpload.jsx:127-132 | two clicks restore a list without the stage; a duplicate-free list stays duplicate-free |
| FileUpload.FilesForStage | frontend/src/components/FileUpload.jsx:124-137 | every file mapped to the stage appears in the stage's derived file list |
| FileUpload.OnlyMappedListed | frontend/src/components/FileUpload.jsx:124-137 | every entry of a stage's derived list comes from a file mapped to that stage |
| FileUpload.ListedInUploadOrder | frontend/src/components/FileUpload.jsx:124-137 | a stage's derived list keeps the order of the central file list |
| FileUpload.ProcessFilesFromMapping | frontend/src/components/FileUpload.jsx:124-137 | the table has an entry for exactly the given stages; each entry lists every file mapped to that stage and no other, in upload order |
| FileUpload.MappedSuppliedIff | frontend/src/components/FileUpload.jsx:127-132 | a type is supplied to a stage exactly when some file mapped to it has that type |
| FileUpload.ReadyViaMapping | frontend/src/components/FileUpload.jsx:127-132 | a stage is ready on the derived files exactly when each input is the type of a file mapped to it |
| FileUpload.MappedValidationEmptyIff | frontend/src/App.jsx:41-61 | validation on mapping-derived files passes exactly when each selected stage is known and its inputs are supplied by files mapped to it |
| TabPanel.HandleProcessToggle | frontend/src/components/TabPanel.jsx:29-32 | the checkbox toggles the stage and switches to its tab; nothing else changes |
| TabPanel.HandleEditPrompt | frontend/src/components/TabPanel.jsx:34-37 | edit mode starts with the stored prompt, or "", as draft; the session is untouched |
| TabPanel.HandleSavePrompt | frontend/src/components/TabPanel.jsx:39-42 | saving stores the draft for that stage only and leaves edit mode; nothing else in the session, the draft and the outputs are unchanged |
| TabPanel.CancelEdit | frontend/src/components/TabPanel.jsx:263-264 | cancel leaves edit mode; the session, the draft and the outputs are unchanged |
| TabPanel.DisplayedPrompt | frontend/src/components/TabPanel.jsx:275 | the displayed prompt is the custom prompt if non-empty, else the default prompt if non-empty, else "No prompt set" |
| TabPanel.EditThenSaveKeepsDisplay | frontend/src/components/TabPanel.jsx:34-42 | editing and saving without typing keeps the displayed prompt |
| TabPanel.SelectedStages | frontend/src/components/TabPanel.jsx:181-182 | the list holds exactly the selected catalogue stages, in catalogue order |
| TabPanel.Number | frontend/src/components/TabPanel.jsx:183-187 | rows are numbered consecutively |
| TabPanel.PipelineView | frontend/src/components/TabPanel.jsx:181-187 | the pipeline rows are the selected stages in catalogue order, numbered from 1 |
| TabPanel.StatusLabel | frontend/src/components/TabPanel.jsx:196 | the label is the stored status, and "Pending" exactly when none is stored |
| TabPanel.InitialLabelsPending | frontend/src/components/TabPanel.jsx:196 | before any run, every row reads Pending |
| TabPanel.FooterClick | frontend/src/components/TabPanel.jsx:299-316 | a stage tab without files alerts and runs nothing; otherwise the click runs the whole pipeline; on a stage tab it also records "Output for <id>" and announces the start |
| TabPanel.RunDisabledIff | frontend/src/components/TabPanel.jsx:299-317 | on a stage tab the button is disabled exactly when a click would raise the upload alert; on the pipeline tab a disabled button guards a run that starts no stage |
| TabPanel.EnabledStageButtonPassesGuard | frontend/src/components/TabPanel.jsx:300-317 | an enabled button on a stage tab never hits the upload alert |
| TabPanel.StartedIsNotUploadAlert | frontend/src/components/TabPanel.jsx:305-310 | the start message and the upload alert never coincide |
| TabPanel.StageRunIsPipelineRun | frontend/src/components/TabPanel.jsx:44-48 | "Run Process" on a stage tab dispatches the same stages as "Start Pipeline" |
| Readiness.FourStagesUploadable | frontend/src/components/FileUpload.jsx:5-14 | the four stages need only types the menu offers |
| Readiness.OtherStagesNotUploadable | frontend/src/components/FileUpload.jsx:5-14 | each other stage needs a type the menu lacks |
| Readiness.UploadableStages | frontend/src/components/FileUpload.jsx:5-14 | a stage's inputs are all on the menu exactly for the four stages |
| Readiness.OnlyFourStagesCanBeReady | frontend/src/App.jsx:48-50 | with menu-typed files, only the four stages can be ready |
| Readiness.FourStagesCanBeReady | frontend/src/App.jsx:48-50 | each of the four can be made ready with menu-typed files |
| Readiness.DisplayOrderIsNotRunOrder | frontend/src/App.jsx:110-111 | a selection that runs requirement analysis first still lists code review first |
| Words.WordLen | backend/stlc/code_review.py:26 | the length of the leading run of non-whitespace characters |
| Words.SplitWords | backend/stlc/code_review.py:26 | `str.split()` yields non-empty words without whitespace |
| Words.CountTokens | backend/stlc/code_review.py:22-26 | the token count equals the number of maximal non-whitespace runs, counted by an independent scanner, and is zero exactly for whitespace-only text |
| Words.WordsAreRuns | backend/stlc/code_review.py:26 | `str.split()` yields one word per maximal non-whitespace run |
| Words.SplitWordsAppend | backend/stlc/code_review.py:26 | splitting at a whitespace seam splits each side separately |
| Words.SplitWordsOfJoin | backend/stlc/code_review.py:41-45 | joining words with single spaces and splitting gives the words back |
| Words.JoinWordsNormalized | backend/stlc/code_review.py:41-45 | words joined by single spaces are in normal form |
| Words.Sanitize | backend/stlc/code_review.py:41-45 | sanitised text has no leading or trailing whitespace and single spaces between words, and has the same words as the input, so the same token count |
| Words.NormalizedIsFixpoint | backend/stlc/code_review.py:41-45 | text in normal form is left unchanged by sanitising |
| Words.SanitizeIdempotent | backend/stlc/code_review.py:41-45 | sanitising twice equals sanitising once |
| Words.SplitWordsEmptyIff | backend/stlc/code_review.py:26 | there are no words exactly when the text is whitespace only |
| Words.SanitizeEmptyIff | backend/stlc/code_review.py:41-45 | sanitised text is empty exactly when the input is whitespace only |
| Words.SanitizedBlankIff | backend/stlc/code_review.py:96-97 | sanitised text is blank exactly when the original is |
| Words.ChunkSizeForTokens | backend/stlc/code_review.py:28-39 | the base size up to 4096 tokens; beyond that, base·4096/tokens truncated toward zero when that is above the minimum, and the minimum exactly when the truncated quotient is at most the minimum; within [min, base] when min ≤ base |
| Words.DetermineChunkSize | backend/stlc/code_review.py:28-39 | the base size while the text has at most 4096 tokens; beyond that, never below the minimum and otherwise the floor of base·4096/tokens; within [min, base] when 0 ≤ min ≤ base |
| Words.ChunkSizeAntitone | backend/stlc/code_review.py:28-39 | more tokens never give a larger chunk size |
| TextSplitter.SliceBound | backend/utils/text_splitter.py:14 | a Python slice bound is clamped into the sequence |
| TextSplitter.PySlice | backend/utils/text_splitter.py:14 | a Python slice is never longer than its source |
| TextSplitter.SplitTextIntoChunks | backend/utils/text_splitter.py:8-16 | empty text gives no chunks; otherwise ceil(len/step) chunks, chunk k being the slice from k·step |
| TextSplitter.NoProgressWithoutStride | backend/utils/text_splitter.py:12-15 | with overlap ≥ chunk size, the loop guard holds forever on non-empty text |
| TextSplitter.NumChunksBounds | backend/utils/text_splitter.py:12-15 | ceil(len/step) strides reach the end, and one fewer does not |
| TextSplitter.ChunkIsSlice | backend/utils/text_splitter.py:13-14 | chunk k is text[k·step : min(k·step + size, len)], and no longer than the chunk size |
| TextSplitter.FirstChunkIsPrefix | backend/utils/text_splitter.py:12-15 | the first chunk is a prefix of the text |
| TextSplitter.NumChunksCovers | backend/utils/text_splitter.py:12-15 | the last chunk starts inside the text, and the next would start past its end |
| TextSplitter.LastChunkReachesEnd | backend/utils/text_splitter.py:12-15 | with 0 ≤ overlap < size, the last chunk ends at the end of the text |
| TextSplitter.InnerChunkTake | backend/utils/text_splitter.py:12-15 | an inner chunk cut back to the stride is the text between two chunk starts |
| TextSplitter.ChunksReassemble | backend/utils/text_splitter.py:12-15 | round trip: the stride prefixes of all chunks but the last, then the last chunk, concatenate to the text |
| CodeReview.ServiceChunkSize | backend/stlc/code_review.py:102 | the service's chunk size lies in [500, 1000], and is 1000 up to the token limit |
| CodeReview.ReviewChunksFrom | backend/stlc/code_review.py:108-111 | succeeds exactly when every chat call does; then gives one "Chunk i/n Review:" entry per chunk, in order; otherwise gives that file's 500 |
| CodeReview.ReviewFile | backend/stlc/code_review.py:88-116 | an unreadable file gives the 400 naming it; a blank one is skipped; the file's turn succeeds exactly when it is readable and, if reviewable, every chat call on its chunks returns; a reviewable one gives an entry under its base name |
| CodeReview.ReviewFileText | backend/stlc/code_review.py:102-116 | a reviewable file's entry is its labelled chunk reviews joined by blank lines |
| CodeReview.Kept | backend/stlc/code_review.py:96-99 | the files that get entries are exactly the reviewable ones, each as often as uploaded, in upload order |
| CodeReview.ReviewAll | backend/stlc/code_review.py:88-116 | the loop succeeds exactly when every file's turn does; then one entry per reviewable file, in order, each the entry its turn makes and named after it; an unreadable file always fails the request |
| CodeReview.KeptSucceed | backend/stlc/code_review.py:88-116 | when every turn succeeds, every file that gets an entry had all its chat calls return |
| CodeReview.ProcessCodeReview | backend/stlc/code_review.py:73-121 | no files gives a 400; success exactly when there are files, every turn succeeds and some file is reviewable; then one entry per reviewable file in order, each its turn's entry; an unreadable file fails the request; errors are 400 or 500 |
| CodeReview.ProcessCodeReviewEntries | backend/stlc/code_review.py:88-121 | with every file readable, every chat call returning and some file reviewable, the request succeeds and entry k is the k-th reviewable file's base name with its labelled chunk reviews joined by blank lines |
| CodeReview.BlankUploadsSkipped | backend/stlc/code_review.py:96-99 | whitespace-only files produce no entries |
| CodeReview.BlankUploadsRejected | backend/stlc/code_review.py:118-119 | uploads that are all blank get the "nothing reviewed" 400 |
| CodeReview.ReviewPaths | backend/stlc/code_review.py:133-164 | succeeds exactly when every file can be read and reviewed, giving one entry per path with its base name and reply; failures are 500s |
| CodeReview.ReviewAllFirstFailure | backend/stlc/code_review.py:88-111 | the upload loop fails with the error of the first file whose turn raises: its read error when it cannot be read, otherwise its chat error |
| CodeReview.ProcessCodeReviewFirstFailure | backend/stlc/code_review.py:73-111 | the request fails with the first failing file's error, whatever the later files hold |
| CodeReview.ReviewPathsFirstFailure | backend/stlc/code_review.py:162-164 | the loop fails with the error of the first failing file |
| CodeReview.RunStep | backend/stlc/code_review.py:123-173 | a missing or empty file list gives the wrapped 400 as a 500; otherwise success means every file was reviewed, one entry per path; every error is a 500 |
| CodeReview.RunStepFirstFailure | backend/stlc/code_review.py:171-173 | the 500 wraps the first failing file's error text |
| Http.ErrorText | backend/stlc/code_review.py:173 | the exception text ends with the detail |
| Http.ErrorTextStatus | backend/stlc/code_review.py:173 | the status can be read back from the exception text |
| Paths.Basename | backend/stlc/code_review.py:114 | the base name is the suffix after the last '/' and contains no '/' |
| Paths.BasenameOfName | backend/stlc/code_review.py:114 | a name without '/' is its own base name |
| Paths.BasenameAfterSlash | backend/stlc/code_review.py:156 | the base name of dir/name is name |
| Paths.LastIndexOf | ornek_backend/backend.py:96 | the position of the last occurrence, or -1 |
| Paths.Extension | ornek_backend/backend.py:96 | the extension is a dotted suffix of the path with no further dot or '/' |
| Paths.ExtensionOfDotted | ornek_backend/backend.py:96 | a name with a stem has its last dotted suffix as its extension |
| Paths.ExtensionOfLeadingDots | ornek_backend/backend.py:96 | a name with only dots before its last dot (".pdf", "..pdf") has no extension |
| Paths.ExtensionWithoutDot | ornek_backend/backend.py:96 | a name without a dot has no extension |
| Paths.LowerChar | ornek_backend/backend.py:96 | lower-casing leaves no ASCII capital and leaves other characters alone |
| Paths.Lower | ornek_backend/backend.py:96 | lower-casing maps each character, keeping the length |
| Paths.LowerIdempotent | ornek_backend/backend.py:96 | lower-casing twice equals lower-casing once |
| Paths.LowerOfLower | ornek_backend/backend.py:96 | text without capitals is unchanged by lower-casing |
| Paths.LowerUpperExtensions | ornek_backend/backend.py:96 | ".PDF", ".Docx" and ".TXT" lower-case to ".pdf", ".docx" and ".txt" |
| StlcBackend.ExtractText | ornek_backend/backend.py:91-107 | .pdf, .docx and .txt pick their extractor; anything else yields "" |
| StlcBackend.KindOfDotted | ornek_backend/backend.py:96-104 | only the part after the last dot decides, regardless of letter case |
| StlcBackend.ExtensionKinds | ornek_backend/backend.py:96-107 | upper- and mixed-case spellings are recognised, and ".doc" is not |
| StlcBackend.NoDotNoText | ornek_backend/backend.py:105-107 | a name without a dot yields no text |
| StlcBackend.RetryFromSpec | ornek_backend/backend.py:142-151 | from any attempt on, at most `retries` calls; the first success is returned; otherwise the last exception |
| StlcBackend.Retry | ornek_backend/backend.py:137-151 | at most `retries` calls; the calls before the returned success all failed; when all fail, the last exception is raised (nothing when retries ≤ 0) |
| StlcBackend.RetryFindsSuccess | ornek_backend/backend.py:143-146 | a success within the allowed attempts is always returned |
| StlcBackend.RetryFirstSuccess | ornek_backend/backend.py:143-146 | the first success at index j is returned after j + 1 calls |
| StlcBackend.RetryInvoke | ornek_backend/backend.py:137-151 | the loop computes the retry outcome: the first success with the number of calls, earlier attempts failed |
| StlcBackend.Aggregate | ornek_backend/backend.py:183-188 | the aggregated text holds exactly the files' words, in order, and ends in whitespace when non-empty |
| StlcBackend.AllWordsEmptyIff | ornek_backend/backend.py:183-190 | there are no words exactly when every file is blank |
| StlcBackend.AggregateBlankIff | ornek_backend/backend.py:183-192 | the aggregate is blank exactly when every file's text is |
| StlcBackend.AllWordsCount | ornek_backend/backend.py:195 | the number of words is the sum of the per-file token counts |
| StlcBackend.AggregateTokens | ornek_backend/backend.py:195 | the total token count is the sum over the files |
| StlcBackend.TokenWarning | ornek_backend/backend.py:195-199 | the warning is non-empty exactly when the total exceeds 4096 |
| StlcBackend.CombinedPromptTokens | ornek_backend/backend.py:226-227 | the combined prompt's tokens are the sum of its three parts' |
| StlcBackend.Truncate | ornek_backend/backend.py:226-232 | a prompt that fits leaves the text unchanged; an oversize one keeps the leading `allowed` words in normal form; a negative budget drops words from the end |
| StlcBackend.TruncatedPromptFits | ornek_backend/backend.py:226-232 | with room for the system message, the prompt sent never exceeds the 4096-token limit; after truncation it has at most the limit minus the 50-token buffer plus the closing sentence's tokens |
| StlcBackend.Texts | ornek_backend/backend.py:185-186 | one extracted text per file, in order |
| StlcBackend.UploadDocuments | ornek_backend/backend.py:179-262 | a wrong model name gives a 400; blank text gives a 400; success implies a system message and non-blank text, with a warning exactly when tokens exceed 4096; errors are 400 or 500 |
| StlcBackend.Respond | ornek_backend/backend.py:195-262 | a missing system message gives a 400; success carries the token warning; errors are 400 or 500 |
| StlcBackend.RespondAnswered | ornek_backend/backend.py:251-262 | past the checks, the reply is the first successful model answer |
| StlcBackend.UploadAnswered | ornek_backend/backend.py:179-262 | a request passing every check is answered with the first successful model reply and the token warning |
| StlcBackend.UploadModelFails | ornek_backend/backend.py:251-256 | three failed model attempts end in the 500 |

## Left out

- HTTP transport is left out: FastAPI routing, uvicorn and the axios clients. Handlers are functions from inputs to a response or an `HttpError`.
- The language model, the embedding model and the vector store are parameters, because they are foreign code. This covers ollama `chat`, `ChatOpenAI`, the HuggingFace embeddings and the Chroma search.
- The langchain `RecursiveCharacterTextSplitter` is a parameter. The model passes it the chunk size and the overlap `Words.ChunkOverlap` (100), but its output is not modelled.
- PDF, DOCX and UTF-8 extraction are parameters. Only the extension dispatch is modelled.
- Reading `system_message.txt` is an `Option` parameter.
- Reading files in `run_step` and decoding uploads in `process_code_review` are parameters.
- The wording of the prompts sent to the chat model is left out, since it only reaches the foreign call.
- Log messages are not modelled.
- MongoDB access and the always-true validation stub are left out, as I/O and as a no-op.
- The `/models` listing endpoint is left out: it returns a constant.
- The artifact deletion handler is left out: it is only invoked, and its code is not shown.
- Rendering, CSS and markdown are left out, as are the `details` text of catalogue entries (display only) and the output panel.
- Timers are left out: the two-second `setTimeout`, ISO timestamps and `time.sleep` in the retry loop. An executor outcome is a parameter `exec`, and the simulated executor is one choice of it.
- Asynchronous interleaving of React state updates is not modelled: each handler is applied atomically.
- The output object's `status` and `timestamp` fields are left out. The output is the report's content or the fixed error notice.
- `retry_invoke`'s `timeout` argument is left out, because the function never uses it.
- Words.IsSpace: covers the characters Python's `str.isspace` accepts in the Basic Multilingual Plane. Other scripts' case rules and normalisation are out of scope.
- Paths.Lower: lower-cases ASCII letters only, not all of Python's Unicode case mapping. It is applied only to extensions.
- Words.ChunkSizeForTokens: uses exact integer arithmetic for `int(base / (tokens / 4096))`. Float rounding could differ only when the exact quotient lies within one rounding step of an integer.
- Words.ChunkSizeAntitone: requires 0 ≤ min ≤ base, which both services' defaults (500, 1000) meet. For other arguments the source makes no promise.
- StlcBackend.UploadDocuments: the reply is a string. The `hasattr(response, "content")` fallback to `str(response)` is folded into the model attempt's result.
- CodeReview.RunStep: `str(e)` of an `HTTPException` is taken to be "<status>: <detail>". The text of other exceptions is the message carried by the read or chat parameter.
- FileUpload.FilesForStage: the upload component's props do not match what the tab view passes. The derived per-stage table is a modelling bridge between the two file models, not code the source runs.
- TabPanel.FooterClick: the stage ids, the catalogue and the upload alerts are modelled. The browser alert dialogs themselves are return values.
