/** The pipeline session kept by the top-level component
    (frontend/src/App.jsx): the selected stages in insertion order, the files
    and custom prompts per stage, per-stage run status, the last output, the
    active tab and the last validation message, together with the handlers
    that change them. Every handler is a function from the old state to the
    new one. */
module Session {
  import opened Wrappers
  import opened Strings
  import opened Sequences
  import opened Toggles
  import opened Registry

  /** An uploaded file as the session sees it: a display name and the
      document type chosen for it. */
  datatype FileInfo = FileInfo(name: string, fileType: string)

  /** The statuses a stage can be given; a stage with no entry shows as
      pending. */
  datatype Status = Running | Completed | Errored

  /** The string stored in `pipelineStatus`. */
  function StatusText(s: Status): string {
    match s
    case Running => "running"
    case Completed => "completed"
    case Errored => "error"
  }

  /** What the output panel shows: nothing yet, a stage's report, or the
      fixed error notice set when a run throws. */
  datatype Output = NoOutput | Report(content: string) | ErrorNotice

  const ErrorNoticeText: string := "An error occurred while executing the process. Please try again."

  datatype State = State(
    selected: seq<StageId>,
    files: map<StageId, seq<FileInfo>>,
    prompts: map<StageId, string>,
    output: Output,
    status: map<StageId, Status>,
    activeTab: string,
    validationError: Option<string>)

  /** The state on first render. */
  const Initial: State := State([], map[], map[], NoOutput, map[], "pipeline", None)

  /** The catalogue has an entry with this id. The session functions take
      the catalogue as a parameter `cat`; the application passes
      `Registry.Processes`. */
  predicate Listed(cat: seq<Stage>, id: StageId) {
    FindIn(cat, id).Some?
  }

  /** `processFiles[id] || []`. */
  function FilesOf(files: map<StageId, seq<FileInfo>>, id: StageId): seq<FileInfo> {
    if id in files then files[id] else []
  }

  /** The entry for `id` is the same in both maps (present with equal value,
      or absent from both). */
  predicate SameEntry<V(==)>(m1: map<StageId, V>, m2: map<StageId, V>, id: StageId) {
    (id in m1 <==> id in m2) && (id in m1 ==> m1[id] == m2[id])
  }

  // ---------------------------------------------------------------------
  // Handlers

  /** `handleFileUpload(processId, fileInfo)`: appends the file to that
      stage's list and touches nothing else. */
  function HandleFileUpload(st: State, id: StageId, f: FileInfo): (r: State)
    ensures FilesOf(r.files, id) == FilesOf(st.files, id) + [f]
    ensures forall q :: q != id ==> SameEntry(r.files, st.files, q)
    ensures r == st.(files := r.files)
  {
    st.(files := st.files[id := FilesOf(st.files, id) + [f]])
  }

  /** `handlePromptUpdate(processId, newPrompt)`: overwrites that stage's
      prompt and touches nothing else. */
  function HandlePromptUpdate(st: State, id: StageId, prompt: string): (r: State)
    ensures id in r.prompts && r.prompts[id] == prompt
    ensures forall q :: q != id ==> SameEntry(r.prompts, st.prompts, q)
    ensures r == st.(prompts := r.prompts)
  {
    st.(prompts := st.prompts[id := prompt])
  }

  /** Saving the same prompt twice is the same as saving it once. */
  lemma PromptUpdateIdempotent(st: State, id: StageId, prompt: string)
    ensures HandlePromptUpdate(HandlePromptUpdate(st, id, prompt), id, prompt)
         == HandlePromptUpdate(st, id, prompt)
  {
  }

  /** `handleProcessSelect(processId)`: toggles membership of the id in the
      insertion-ordered selection. */
  function HandleProcessSelect(st: State, id: StageId): (r: State)
    ensures id in r.selected <==> id !in st.selected
    ensures forall q :: q != id ==> (q in r.selected <==> q in st.selected)
    ensures id !in st.selected ==> r.selected == st.selected + [id]
    ensures r == st.(selected := r.selected)
  {
    st.(selected := Toggle(st.selected, id))
  }

  /** The selection never holds an id twice. */
  lemma SelectKeepsNoDup(st: State, id: StageId)
    requires NoDup(st.selected)
    ensures NoDup(HandleProcessSelect(st, id).selected)
  {
    ToggleKeepsNoDup(st.selected, id);
  }

  /** Selecting and deselecting restores the selection: exactly when the id
      was not selected, and up to insertion order when it was. */
  lemma SelectTwice(st: State, id: StageId)
    ensures id !in st.selected ==> HandleProcessSelect(HandleProcessSelect(st, id), id) == st
    ensures forall q :: q in HandleProcessSelect(HandleProcessSelect(st, id), id).selected <==> q in st.selected
  {
    if id !in st.selected {
      ToggleTwiceAbsent(st.selected, id);
    }
  }

  // ---------------------------------------------------------------------
  // Readiness validation

  /** One entry of the validation report: a stage name and its missing
      input types. */
  datatype Missing = Missing(process: string, inputs: seq<string>)

  /** Some file has exactly this type (case-sensitive, no substitution). */
  predicate Supplied(files: seq<FileInfo>, tag: string) {
    exists i :: 0 <= i < |files| && files[i].fileType == tag
  }

  /** Every required input of the stage has a file of that type. */
  predicate Ready(stage: Stage, files: seq<FileInfo>) {
    forall a :: 0 <= a < |stage.inputs| ==> Supplied(files, stage.inputs[a])
  }

  /** `process.inputs.filter(input => !files.some(file => file.type === input))`. */
  function MissingInputs(inputs: seq<string>, files: seq<FileInfo>): (r: seq<string>)
    ensures forall t :: t in r <==> t in inputs && !Supplied(files, t)
    ensures IsSubsequence(r, inputs)
  {
    if |inputs| == 0 then []
    else
      var rest := MissingInputs(inputs[1..], files);
      if Supplied(files, inputs[0]) then
        SubsequenceOfTail(rest, inputs[0], inputs[1..]);
        assert [inputs[0]] + inputs[1..] == inputs;
        rest
      else
        SubsequenceCons(inputs[0], rest, inputs[1..]);
        assert [inputs[0]] + inputs[1..] == inputs;
        [inputs[0]] + rest
  }

  lemma MissingEmptyIffReady(stage: Stage, files: seq<FileInfo>)
    ensures MissingInputs(stage.inputs, files) == [] <==> Ready(stage, files)
  {
    var m := MissingInputs(stage.inputs, files);
    if m != [] {
      assert m[0] in m;
    }
  }

  /** The report entry a known stage would get. */
  function Deficiency(cat: seq<Stage>, files: map<StageId, seq<FileInfo>>, id: StageId): Missing
    requires Listed(cat, id)
  {
    var p := FindIn(cat, id).value;
    Missing(p.name, MissingInputs(p.inputs, FilesOf(files, id)))
  }

  /** The selected stage ids that name catalogue entries. */
  predicate AllKnown(cat: seq<Stage>, ids: seq<StageId>) {
    forall i :: 0 <= i < |ids| ==> Listed(cat, ids[i])
  }

  lemma AllKnownStep(cat: seq<Stage>, ids: seq<StageId>)
    requires |ids| > 0
    ensures AllKnown(cat, ids) <==> Listed(cat, ids[0]) && AllKnown(cat, ids[1..])
  {
    assert forall i :: 0 < i < |ids| ==> ids[i] == ids[1..][i - 1];
  }

  /** Every entry lacks something and is the entry of some selected stage. */
  predicate EntriesOf(ds: seq<Missing>, cat: seq<Stage>, files: map<StageId, seq<FileInfo>>, selected: seq<StageId>)
    requires AllKnown(cat, selected)
  {
    forall d :: d in ds ==> |d.inputs| > 0 && exists i :: 0 <= i < |selected| && d == Deficiency(cat, files, selected[i])
  }

  /** Every selected stage that is not ready has its entry among `ds`. */
  predicate CoversUnready(ds: seq<Missing>, cat: seq<Stage>, files: map<StageId, seq<FileInfo>>, selected: seq<StageId>)
    requires AllKnown(cat, selected)
  {
    forall i :: 0 <= i < |selected| && !Ready(FindIn(cat, selected[i]).value, FilesOf(files, selected[i])) ==>
      Deficiency(cat, files, selected[i]) in ds
  }

  /** The report for a known first stage followed by a report for the rest. */
  lemma ValidateCons(cat: seq<Stage>, files: map<StageId, seq<FileInfo>>, selected: seq<StageId>, rest: seq<Missing>)
    requires |selected| > 0 && AllKnown(cat, selected)
    requires AllKnown(cat, selected[1..]) && |rest| <= |selected| - 1
    requires EntriesOf(rest, cat, files, selected[1..]) && CoversUnready(rest, cat, files, selected[1..])
    ensures var d := Deficiency(cat, files, selected[0]);
      var ds := (if |d.inputs| > 0 then [d] else []) + rest;
      |ds| <= |selected| && EntriesOf(ds, cat, files, selected) && CoversUnready(ds, cat, files, selected)
  {
    var d := Deficiency(cat, files, selected[0]);
    var ds := (if |d.inputs| > 0 then [d] else []) + rest;
    MissingEmptyIffReady(FindIn(cat, selected[0]).value, FilesOf(files, selected[0]));
    forall e | e in ds
      ensures |e.inputs| > 0 && exists i :: 0 <= i < |selected| && e == Deficiency(cat, files, selected[i])
    {
      if e in rest {
        var j :| 0 <= j < |selected[1..]| && e == Deficiency(cat, files, selected[1..][j]);
        assert selected[1..][j] == selected[j + 1];
      }
    }
    forall i | 0 <= i < |selected| && !Ready(FindIn(cat, selected[i]).value, FilesOf(files, selected[i]))
      ensures Deficiency(cat, files, selected[i]) in ds
    {
      if i > 0 {
        assert selected[1..][i - 1] == selected[i];
      }
    }
  }

  /** `validatePipeline()`. `None` stands for the `TypeError` thrown when a
      selected id has no catalogue entry (`process.inputs` of `undefined`). */
  function ValidatePipeline(cat: seq<Stage>, selected: seq<StageId>, files: map<StageId, seq<FileInfo>>): (r: Option<seq<Missing>>)
    ensures r.None? <==> !AllKnown(cat, selected)
    ensures r.Some? ==> AllKnown(cat, selected) && |r.value| <= |selected|
    ensures r.Some? ==> EntriesOf(r.value, cat, files, selected) && CoversUnready(r.value, cat, files, selected)
  {
    if |selected| == 0 then Some([])
    else
      var id := selected[0];
      var rest := ValidatePipeline(cat, selected[1..], files);
      AllKnownStep(cat, selected);
      match FindIn(cat, id)
      case None => None
      case Some(p) =>
        if rest.None? then None
        else
          ValidateCons(cat, files, selected, rest.value);
          var m := MissingInputs(p.inputs, FilesOf(files, id));
          Some((if |m| > 0 then [Missing(p.name, m)] else []) + rest.value)
  }

  /** Every selected stage is in the catalogue and has, for each required
      input, a file of that type. */
  predicate AllReady(cat: seq<Stage>, selected: seq<StageId>, files: map<StageId, seq<FileInfo>>) {
    AllKnown(cat, selected) &&
    forall i :: 0 <= i < |selected| ==> Ready(FindIn(cat, selected[i]).value, FilesOf(files, selected[i]))
  }

  /** The validation report is empty exactly when every selected stage is
      known and has, for every required input, a file of that type. */
  lemma ValidationEmptyIff(cat: seq<Stage>, selected: seq<StageId>, files: map<StageId, seq<FileInfo>>)
    ensures ValidatePipeline(cat, selected, files) == Some([]) <==> AllReady(cat, selected, files)
  {
    var r := ValidatePipeline(cat, selected, files);
    if r.Some? && r.value != [] {
      var d := r.value[0];
      assert d in r.value;
      var i :| 0 <= i < |selected| && d == Deficiency(cat, files, selected[i]);
      MissingEmptyIffReady(FindIn(cat, selected[i]).value, FilesOf(files, selected[i]));
    }
  }

  /** Every stage's would-be report entry, in selection order. */
  function Reports(cat: seq<Stage>, selected: seq<StageId>, files: map<StageId, seq<FileInfo>>): seq<Missing>
    requires AllKnown(cat, selected)
  {
    if |selected| == 0 then []
    else [Deficiency(cat, files, selected[0])] + Reports(cat, selected[1..], files)
  }

  /** One step of validation: the first stage contributes its entry when
      it lacks something, followed by the entries of the rest. */
  lemma ValidateStep(cat: seq<Stage>, selected: seq<StageId>, files: map<StageId, seq<FileInfo>>)
    requires |selected| > 0 && AllKnown(cat, selected)
    ensures ValidatePipeline(cat, selected, files).value ==
      (if |Deficiency(cat, files, selected[0]).inputs| > 0 then [Deficiency(cat, files, selected[0])] else [])
      + ValidatePipeline(cat, selected[1..], files).value
    ensures AllKnown(cat, selected[1..])
  {
    assert AllKnown(cat, selected[1..]) by {
      forall i | 0 <= i < |selected[1..]| ensures Listed(cat, selected[1..][i]) {
        assert selected[1..][i] == selected[i + 1];
      }
    }
  }

  /** Report entries keep selection order. */
  lemma {:induction false} ValidationFollowsSelectionOrder(cat: seq<Stage>, selected: seq<StageId>, files: map<StageId, seq<FileInfo>>)
    requires AllKnown(cat, selected)
    ensures IsSubsequence(ValidatePipeline(cat, selected, files).value, Reports(cat, selected, files))
  {
    if |selected| > 0 {
      ValidateStep(cat, selected, files);
      ValidationFollowsSelectionOrder(cat, selected[1..], files);
      var rest := ValidatePipeline(cat, selected[1..], files).value;
      var d := Deficiency(cat, files, selected[0]);
      var reports := Reports(cat, selected[1..], files);
      assert Reports(cat, selected, files) == [d] + reports;
      if |d.inputs| > 0 {
        SubsequenceCons(d, rest, reports);
      } else {
        assert ValidatePipeline(cat, selected, files).value == rest;
        SubsequenceOfTail(rest, d, reports);
      }
    }
  }

  /** Uploading a file never adds a report entry: validation that passed
      still passes. */
  lemma UploadKeepsReadiness(cat: seq<Stage>, st: State, id: StageId, f: FileInfo)
    requires ValidatePipeline(cat, st.selected, st.files) == Some([])
    ensures ValidatePipeline(cat, st.selected, HandleFileUpload(st, id, f).files) == Some([])
  {
    var r := HandleFileUpload(st, id, f);
    assert AllReady(cat, st.selected, st.files) by {
      ValidationEmptyIff(cat, st.selected, st.files);
    }
    assert AllReady(cat, st.selected, r.files) by {
      forall i | 0 <= i < |st.selected|
        ensures Ready(FindIn(cat, st.selected[i]).value, FilesOf(r.files, st.selected[i]))
      {
        var q := st.selected[i];
        if q == id {
          ReadyAfterAppend(FindIn(cat, q).value, FilesOf(st.files, q), f);
        } else {
          assert FilesOf(r.files, q) == FilesOf(st.files, q);
        }
      }
    }
    ValidationEmptyIff(cat, st.selected, r.files);
  }

  /** A stage that is ready stays ready when a file is added. */
  lemma ReadyAfterAppend(stage: Stage, files: seq<FileInfo>, f: FileInfo)
    requires Ready(stage, files)
    ensures Ready(stage, files + [f])
  {
    forall a | 0 <= a < |stage.inputs| ensures Supplied(files + [f], stage.inputs[a]) {
      var k :| 0 <= k < |files| && files[k].fileType == stage.inputs[a];
      assert (files + [f])[k] == files[k];
    }
  }

  // ---------------------------------------------------------------------
  // The validation message

  /** `${process} is missing: ${inputs.join(', ')}`. */
  function MissingLine(m: Missing): string {
    m.process + " is missing: " + Join(m.inputs, ", ")
  }

  /** One line per report entry, in report order. */
  function MissingLines(ms: seq<Missing>): (r: seq<string>)
    ensures |r| == |ms|
    ensures forall k :: 0 <= k < |ms| ==> r[k] == MissingLine(ms[k])
  {
    if |ms| == 0 then [] else [MissingLine(ms[0])] + MissingLines(ms[1..])
  }

  /** The lines joined with newlines. When names and input types have no
      newline, splitting the message at newlines gives back one line per
      report entry, in order. */
  function ErrorMessage(ms: seq<Missing>): (r: string)
    ensures |ms| > 0 && (forall k :: 0 <= k < |ms| ==> SingleLine(ms[k])) ==>
      Split(r, '\n') == MissingLines(ms)
  {
    LinesSplitBack(ms);
    Join(MissingLines(ms), "\n")
  }

  /** The lemma behind `ErrorMessage`: newline-free lines split back. */
  lemma LinesSplitBack(ms: seq<Missing>)
    ensures |ms| > 0 && (forall k :: 0 <= k < |ms| ==> SingleLine(ms[k])) ==>
      Split(Join(MissingLines(ms), "\n"), '\n') == MissingLines(ms)
  {
    if |ms| > 0 && (forall k :: 0 <= k < |ms| ==> SingleLine(ms[k])) {
      MissingLinesNoNewline(ms);
      SplitJoin(MissingLines(ms), '\n');
    }
  }

  predicate NoNewline(s: string) {
    '\n' !in s
  }

  /** Neither the stage name nor any input type contains a newline. */
  predicate SingleLine(m: Missing) {
    NoNewline(m.process) && forall a :: 0 <= a < |m.inputs| ==> NoNewline(m.inputs[a])
  }

  lemma {:induction false} JoinNoNewline(parts: seq<string>, sep: string)
    requires NoNewline(sep)
    requires forall i :: 0 <= i < |parts| ==> NoNewline(parts[i])
    ensures NoNewline(Join(parts, sep))
    decreases |parts|
  {
    if |parts| > 1 {
      JoinNoNewline(parts[1..], sep);
    }
  }

  lemma {:induction false} MissingLinesNoNewline(ms: seq<Missing>)
    requires forall k :: 0 <= k < |ms| ==> SingleLine(ms[k])
    ensures forall k :: 0 <= k < |MissingLines(ms)| ==> NoNewline(MissingLines(ms)[k])
    decreases |ms|
  {
    if |ms| > 0 {
      MissingLinesNoNewline(ms[1..]);
      JoinNoNewline(ms[0].inputs, ", ");
    }
  }

  // ---------------------------------------------------------------------
  // Running the pipeline

  /** What a stage's executor reports: the awaited promise resolves with a
      report or rejects. */
  datatype ExecResult = Succeeded(content: string) | Failed(reason: string)

  /** One `setPipelineStatus` call. */
  datatype StatusEvent = StatusEvent(id: StageId, status: Status)

  /** The effect of the run loop: final statuses and output, the stages
      dispatched in order, every status write in order, and whether the
      loop was left by an exception. */
  datatype RunTrace = RunTrace(
    status: map<StageId, Status>,
    output: Output,
    dispatched: seq<StageId>,
    log: seq<StatusEvent>,
    failed: bool)

  function Last(ids: seq<StageId>): StageId
    requires |ids| > 0
  {
    ids[|ids| - 1]
  }

  /** The status writes of a run that dispatched `ds`: each stage goes to
      running and then to completed, except the final one of a failed run,
      which goes to error. */
  function ExpectedLog(ds: seq<StageId>, failed: bool): seq<StatusEvent> {
    if |ds| == 0 then []
    else
      var terminal := if |ds| == 1 && failed then Errored else Completed;
      [StatusEvent(ds[0], Running), StatusEvent(ds[0], terminal)] + ExpectedLog(ds[1..], failed)
  }

  /** `for (const processId of selectedProcessList)` with `executeProcess`
      inlined: stages run one at a time in the given order; each is set to
      running, then to completed (and its report becomes the output) or to
      error (and the loop is left, the output becoming the error notice).
      Validation has already established that every id has a catalogue
      entry. The dispatched stages are a prefix of `ids`, all of them unless
      one failed, in which case the failing one is the last dispatched and
      all before it succeeded. */
  function RunStages(ids: seq<StageId>, status: map<StageId, Status>, output: Output,
                     exec: StageId -> ExecResult): (r: RunTrace)
    ensures |r.dispatched| <= |ids|
    ensures r.dispatched == ids[..|r.dispatched|]
    ensures !r.failed ==> r.dispatched == ids
    ensures r.failed ==> |r.dispatched| > 0 && exec(Last(r.dispatched)).Failed?
    ensures forall j :: 0 <= j < |r.dispatched| - 1 ==> exec(r.dispatched[j]).Succeeded?
    ensures !r.failed ==> forall j :: 0 <= j < |r.dispatched| ==> exec(r.dispatched[j]).Succeeded?
    ensures r.log == ExpectedLog(r.dispatched, r.failed)
  {
    if |ids| == 0 then RunTrace(status, output, [], [], false)
    else
      var id := ids[0];
      match exec(id)
      case Failed(_) =>
        RunTrace(status[id := Errored], ErrorNotice, [id],
                 [StatusEvent(id, Running), StatusEvent(id, Errored)], true)
      case Succeeded(content) =>
        var rest := RunStages(ids[1..], status[id := Completed], Report(content), exec);
        assert ([id] + rest.dispatched)[1..] == rest.dispatched;
        RunTrace(rest.status, rest.output, [id] + rest.dispatched,
                 [StatusEvent(id, Running), StatusEvent(id, Completed)] + rest.log, rest.failed)
  }

  /** The status a dispatched stage ends with: error for the stage that
      failed, completed for every other. */
  function FinalStatus(r: RunTrace, q: StageId): Status
    requires q in r.dispatched
  {
    if r.failed && q == Last(r.dispatched) then Errored else Completed
  }

  /** Stages that were not dispatched keep their status. */
  lemma {:induction false} RunStagesUntouched(ids: seq<StageId>, status: map<StageId, Status>,
                                             output: Output, exec: StageId -> ExecResult)
    ensures forall q :: q !in RunStages(ids, status, output, exec).dispatched ==>
      SameEntry(RunStages(ids, status, output, exec).status, status, q)
    decreases |ids|
  {
    if |ids| > 0 && exec(ids[0]).Succeeded? {
      var id := ids[0];
      var st1 := status[id := Completed];
      RunStagesUntouched(ids[1..], st1, Report(exec(id).content), exec);
      var rest := RunStages(ids[1..], st1, Report(exec(id).content), exec);
      var r := RunStages(ids, status, output, exec);
      assert r.dispatched == [id] + rest.dispatched && r.status == rest.status;
      forall q | q !in r.dispatched ensures SameEntry(r.status, status, q) {
        assert q != id && q !in rest.dispatched;
      }
    }
  }

  /** Dispatched stages end completed, except the failing one, which ends
      in error. */
  lemma {:induction false} RunStagesFinal(ids: seq<StageId>, status: map<StageId, Status>,
                                         output: Output, exec: StageId -> ExecResult)
    ensures forall q :: q in RunStages(ids, status, output, exec).dispatched ==>
      q in RunStages(ids, status, output, exec).status &&
      RunStages(ids, status, output, exec).status[q] == FinalStatus(RunStages(ids, status, output, exec), q)
    decreases |ids|
  {
    if |ids| > 0 && exec(ids[0]).Succeeded? {
      var id := ids[0];
      var st1 := status[id := Completed];
      RunStagesUntouched(ids[1..], st1, Report(exec(id).content), exec);
      RunStagesFinal(ids[1..], st1, Report(exec(id).content), exec);
      var rest := RunStages(ids[1..], st1, Report(exec(id).content), exec);
      var r := RunStages(ids, status, output, exec);
      assert r.dispatched == [id] + rest.dispatched && r.status == rest.status && r.failed == rest.failed;
      forall q | q in r.dispatched ensures q in r.status && r.status[q] == FinalStatus(r, q) {
        if q in rest.dispatched {
          assert FinalStatus(r, q) == FinalStatus(rest, q);
        } else {
          assert SameEntry(rest.status, st1, q);
          assert !rest.failed || Last(rest.dispatched) in rest.dispatched;
        }
      }
    }
  }

  /** The output after the loop: the error notice if a stage failed,
      otherwise the report of the last stage run, or the old output when
      nothing ran. */
  lemma {:induction false} RunStagesOutput(ids: seq<StageId>, status: map<StageId, Status>,
                                          output: Output, exec: StageId -> ExecResult)
    ensures var r := RunStages(ids, status, output, exec);
      r.output == (if r.failed then ErrorNotice
                   else if |r.dispatched| == 0 then output
                   else Report(exec(Last(r.dispatched)).content))
    decreases |ids|
  {
    if |ids| > 0 {
      if exec(ids[0]).Succeeded? {
        RunStagesOutput(ids[1..], status[ids[0] := Completed], Report(exec(ids[0]).content), exec);
      }
    }
  }

  /** The result of pressing the run button. */
  datatype RunOutcome = RunOutcome(state: State, dispatched: seq<StageId>, log: seq<StatusEvent>)

  /** `handleProcessRun()`: clear the message, validate, and either show
      the message and stop, or run the selection in selection order. An
      exception from validation or from a stage ends in the error notice. */
  function HandleProcessRun(cat: seq<Stage>, st: State, exec: StageId -> ExecResult): (r: RunOutcome)
    ensures r.state.selected == st.selected && r.state.files == st.files
    ensures r.state.prompts == st.prompts && r.state.activeTab == st.activeTab
    ensures r.dispatched != [] ==> ValidatePipeline(cat, st.selected, st.files) == Some([])
    ensures ValidatePipeline(cat, st.selected, st.files).Some? && ValidatePipeline(cat, st.selected, st.files).value != [] ==>
      r.dispatched == [] && r.log == [] &&
      r.state == st.(validationError := Some(ErrorMessage(ValidatePipeline(cat, st.selected, st.files).value)))
    ensures ValidatePipeline(cat, st.selected, st.files) == Some([]) ==> r.state.validationError == None
    ensures ValidatePipeline(cat, st.selected, st.files).None? ==>
      r.dispatched == [] && r.log == [] && r.state == st.(validationError := None, output := ErrorNotice)
    ensures |r.dispatched| <= |st.selected|
    ensures r.dispatched == st.selected[..|r.dispatched|]
  {
    var cleared := st.(validationError := None);
    match ValidatePipeline(cat, st.selected, st.files)
    case None => RunOutcome(cleared.(output := ErrorNotice), [], [])
    case Some(ms) =>
      if |ms| > 0 then
        RunOutcome(cleared.(validationError := Some(ErrorMessage(ms))), [], [])
      else
        var t := RunStages(st.selected, st.status, st.output, exec);
        RunOutcome(cleared.(status := t.status, output := t.output), t.dispatched, t.log)
  }

  /** Once validation passes, the outcome is the loop's trace. */
  lemma RunIsLoop(cat: seq<Stage>, st: State, exec: StageId -> ExecResult)
    requires ValidatePipeline(cat, st.selected, st.files) == Some([])
    ensures HandleProcessRun(cat, st, exec).dispatched == RunStages(st.selected, st.status, st.output, exec).dispatched
    ensures HandleProcessRun(cat, st, exec).log == RunStages(st.selected, st.status, st.output, exec).log
    ensures HandleProcessRun(cat, st, exec).state.status == RunStages(st.selected, st.status, st.output, exec).status
    ensures HandleProcessRun(cat, st, exec).state.output == RunStages(st.selected, st.status, st.output, exec).output
  {
  }

  /** A run never leaves a stage running that was not running before. */
  lemma RunLeavesNothingRunning(cat: seq<Stage>, st: State, exec: StageId -> ExecResult)
    ensures forall id :: (id in HandleProcessRun(cat, st, exec).state.status &&
      HandleProcessRun(cat, st, exec).state.status[id] == Running) ==>
      (id in st.status && st.status[id] == Running)
  {
    RunStagesUntouched(st.selected, st.status, st.output, exec);
    RunStagesFinal(st.selected, st.status, st.output, exec);
  }

  /** When every selected stage succeeds, all of them run in selection
      order, all end completed, and the output is the last stage's report. */
  lemma RunAllSucceed(cat: seq<Stage>, st: State, exec: StageId -> ExecResult)
    requires ValidatePipeline(cat, st.selected, st.files) == Some([])
    requires forall j :: 0 <= j < |st.selected| ==> exec(st.selected[j]).Succeeded?
    ensures var r := HandleProcessRun(cat, st, exec);
      && r.dispatched == st.selected
      && r.log == ExpectedLog(st.selected, false)
      && (forall j :: 0 <= j < |st.selected| ==>
            st.selected[j] in r.state.status && r.state.status[st.selected[j]] == Completed)
      && r.state.output == (if |st.selected| == 0 then st.output
                            else Report(exec(Last(st.selected)).content))
  {
    var t := RunStages(st.selected, st.status, st.output, exec);
    RunIsLoop(cat, st, exec);
    assert !t.failed;
    RunStagesFinal(st.selected, st.status, st.output, exec);
    RunStagesOutput(st.selected, st.status, st.output, exec);
  }

  /** The loop is left at the first failing stage: exactly the stages up
      to and including it are dispatched. */
  lemma {:induction false} RunStagesFailsAt(ids: seq<StageId>, status: map<StageId, Status>,
                                           output: Output, exec: StageId -> ExecResult, k: nat)
    requires k < |ids| && exec(ids[k]).Failed?
    requires forall j :: 0 <= j < k ==> exec(ids[j]).Succeeded?
    ensures RunStages(ids, status, output, exec).failed
    ensures RunStages(ids, status, output, exec).dispatched == ids[..k + 1]
    decreases k
  {
    if k > 0 {
      var id := ids[0];
      RunStagesFailsAt(ids[1..], status[id := Completed], Report(exec(id).content), exec, k - 1);
      assert [id] + ids[1..][..k] == ids[..k + 1];
    }
  }

  /** A failing stage stops the run: the stages before it completed, it is
      in error, later stages are never dispatched and keep whatever status
      they had, and the output is the error notice. */
  lemma RunStopsAtFirstFailure(cat: seq<Stage>, st: State, exec: StageId -> ExecResult, k: nat)
    requires ValidatePipeline(cat, st.selected, st.files) == Some([])
    requires NoDup(st.selected)
    requires k < |st.selected| && exec(st.selected[k]).Failed?
    requires forall j :: 0 <= j < k ==> exec(st.selected[j]).Succeeded?
    ensures HandleProcessRun(cat, st, exec).dispatched == st.selected[..k + 1]
    ensures HandleProcessRun(cat, st, exec).log == ExpectedLog(st.selected[..k + 1], true)
    ensures forall j :: 0 <= j < k ==>
      (st.selected[j] in HandleProcessRun(cat, st, exec).state.status &&
       HandleProcessRun(cat, st, exec).state.status[st.selected[j]] == Completed)
    ensures st.selected[k] in HandleProcessRun(cat, st, exec).state.status &&
      HandleProcessRun(cat, st, exec).state.status[st.selected[k]] == Errored
    ensures forall j :: k < j < |st.selected| ==>
      SameEntry(HandleProcessRun(cat, st, exec).state.status, st.status, st.selected[j])
    ensures HandleProcessRun(cat, st, exec).state.output == ErrorNotice
  {
    var t := RunStages(st.selected, st.status, st.output, exec);
    RunIsLoop(cat, st, exec);
    RunStagesFailsAt(st.selected, st.status, st.output, exec, k);
    RunStagesUntouched(st.selected, st.status, st.output, exec);
    RunStagesFinal(st.selected, st.status, st.output, exec);
    RunStagesOutput(st.selected, st.status, st.output, exec);
    assert Last(t.dispatched) == st.selected[k];
    forall j | k < j < |st.selected|
      ensures st.selected[j] !in t.dispatched
    {
      forall i | 0 <= i <= k ensures t.dispatched[i] != st.selected[j] {
        assert t.dispatched[i] == st.selected[i];
      }
    }
    forall j | 0 <= j < k
      ensures st.selected[j] in t.dispatched && FinalStatus(t, st.selected[j]) == Completed
    {
      assert t.dispatched[j] == st.selected[j];
    }
  }
}
