/** The tabbed view (frontend/src/components/TabPanel.jsx): selection
    checkboxes on the stage tabs, the prompt editor, the pipeline list with
    status labels, and the footer run button with its guard and disabled
    rule. Its own state (the prompt being edited, the draft text, and the
    per-tab outputs) sits next to the session state it drives. */
module TabPanel {
  import opened Wrappers
  import opened Sequences
  import opened Toggles
  import opened Registry
  import opened Session

  /** The session plus the view's own state. */
  datatype Ui = Ui(
    app: State,
    editingPrompt: Option<StageId>,
    tempPrompt: string,
    outputs: map<StageId, string>)

  const PipelineTab: string := "pipeline"

  /** A stage tab's checkbox: toggle the stage and switch to its tab. */
  function HandleProcessToggle(ui: Ui, id: StageId): (r: Ui)
    ensures r.app.activeTab == id
    ensures id in r.app.selected <==> id !in ui.app.selected
    ensures forall q :: q != id ==> (q in r.app.selected <==> q in ui.app.selected)
    ensures r.app == ui.app.(selected := r.app.selected, activeTab := id)
    ensures r == ui.(app := r.app)
  {
    ui.(app := HandleProcessSelect(ui.app, id).(activeTab := id))
  }

  /** `processPrompts[id] || ''`. */
  function StoredPrompt(prompts: map<StageId, string>, id: StageId): string {
    if id in prompts then prompts[id] else ""
  }

  /** The Edit button: start editing with the stored prompt as draft. */
  function HandleEditPrompt(ui: Ui, id: StageId): (r: Ui)
    ensures r.editingPrompt == Some(id)
    ensures r.tempPrompt == StoredPrompt(ui.app.prompts, id)
    ensures r.app == ui.app && r.outputs == ui.outputs
  {
    ui.(editingPrompt := Some(id), tempPrompt := StoredPrompt(ui.app.prompts, id))
  }

  /** The Save button: store the draft and leave edit mode. */
  function HandleSavePrompt(ui: Ui, id: StageId): (r: Ui)
    ensures r.editingPrompt == None
    ensures id in r.app.prompts && r.app.prompts[id] == ui.tempPrompt
    ensures forall q :: q != id ==> SameEntry(r.app.prompts, ui.app.prompts, q)
    ensures r.app == ui.app.(prompts := r.app.prompts)
    ensures r.tempPrompt == ui.tempPrompt && r.outputs == ui.outputs
  {
    ui.(app := HandlePromptUpdate(ui.app, id, ui.tempPrompt), editingPrompt := None)
  }

  /** The Cancel button: leave edit mode without touching the prompts. */
  function CancelEdit(ui: Ui): (r: Ui)
    ensures r.editingPrompt == None
    ensures r.app == ui.app
    ensures r.tempPrompt == ui.tempPrompt && r.outputs == ui.outputs
  {
    ui.(editingPrompt := None)
  }

  const NoPromptText: string := "No prompt set"

  /** The prompt shown for a stage:
      `processPrompts[id] || process.defaultPrompt || 'No prompt set'`.
      An empty string is falsy, so an empty custom prompt falls through. */
  function DisplayedPrompt(prompts: map<StageId, string>, stage: Stage): (r: string)
    ensures r != ""
    ensures StoredPrompt(prompts, stage.id) != "" ==> r == prompts[stage.id]
    ensures StoredPrompt(prompts, stage.id) == "" && stage.defaultPrompt.Some? && stage.defaultPrompt.value != "" ==>
      r == stage.defaultPrompt.value
    ensures StoredPrompt(prompts, stage.id) == "" && (stage.defaultPrompt.None? || stage.defaultPrompt.value == "") ==>
      r == NoPromptText
  {
    if StoredPrompt(prompts, stage.id) != "" then prompts[stage.id]
    else if stage.defaultPrompt.Some? && stage.defaultPrompt.value != "" then stage.defaultPrompt.value
    else NoPromptText
  }

  /** Opening the editor and saving without typing leaves the displayed
      prompt as it was. */
  lemma EditThenSaveKeepsDisplay(ui: Ui, id: StageId, stage: Stage)
    requires stage.id == id
    ensures DisplayedPrompt(HandleSavePrompt(HandleEditPrompt(ui, id), id).app.prompts, stage)
         == DisplayedPrompt(ui.app.prompts, stage)
  {
  }

  /** The catalogue stages whose id is selected, in catalogue order. */
  function SelectedStages(cat: seq<Stage>, selected: seq<StageId>): (r: seq<Stage>)
    ensures forall k :: 0 <= k < |r| ==> r[k] in cat && r[k].id in selected
    ensures forall i :: 0 <= i < |cat| && cat[i].id in selected ==> cat[i] in r
    ensures IsSubsequence(r, cat)
  {
    if |cat| == 0 then []
    else
      var rest := SelectedStages(cat[1..], selected);
      assert forall i :: 1 <= i < |cat| ==> cat[i] == cat[1..][i - 1];
      assert [cat[0]] + cat[1..] == cat;
      if cat[0].id in selected then
        SubsequenceCons(cat[0], rest, cat[1..]);
        [cat[0]] + rest
      else
        SubsequenceOfTail(rest, cat[0], cat[1..]);
        rest
  }

  /** One row of the pipeline list: its number and its stage. */
  datatype Row = Row(number: nat, stage: Stage)

  function Number(stages: seq<Stage>, from: nat): (r: seq<Row>)
    ensures |r| == |stages|
    ensures forall k :: 0 <= k < |r| ==> r[k] == Row(from + k, stages[k])
  {
    if |stages| == 0 then [] else [Row(from, stages[0])] + Number(stages[1..], from + 1)
  }

  /** The pipeline tab's list:
      `processes.filter(p => selectedProcesses.has(p.id)).map((p, index) => …index + 1…)`. */
  function PipelineView(cat: seq<Stage>, selected: seq<StageId>): (r: seq<Row>)
    ensures |r| == |SelectedStages(cat, selected)|
    ensures forall k :: 0 <= k < |r| ==> r[k].number == k + 1 && r[k].stage == SelectedStages(cat, selected)[k]
  {
    Number(SelectedStages(cat, selected), 1)
  }

  /** `pipelineStatus[process.id] || 'Pending'`. */
  function StatusLabel(status: map<StageId, Status>, id: StageId): (r: string)
    ensures r == "Pending" <==> id !in status
    ensures id in status ==> r == StatusText(status[id])
  {
    if id in status then StatusText(status[id]) else "Pending"
  }

  /** Before any run no stage has a status, so every row reads Pending. */
  lemma InitialLabelsPending(id: StageId)
    ensures StatusLabel(Initial.status, id) == "Pending"
  {
  }

  /** The footer button's `disabled` rule. */
  predicate RunDisabled(ui: Ui) {
    if ui.app.activeTab == PipelineTab then |ui.app.selected| == 0
    else |FilesOf(ui.app.files, ui.app.activeTab)| == 0
  }

  const UploadFirstAlert: string := "Please upload files before running the process"

  /** What a footer click does: an optional alert, and the run it starts, if
      any, with the resulting view state. */
  datatype Click = Click(ui: Ui, alert: Option<string>, run: Option<RunOutcome>)

  /** The footer button's click handler. On a stage tab it refuses when the
      stage has no files; otherwise it records "Output for <id>" for that tab
      and calls `onRun`, which is `handleProcessRun` and ignores its
      arguments, so the whole selected pipeline runs. On the pipeline tab it
      calls `onRun()` directly. */
  function FooterClick(cat: seq<Stage>, ui: Ui, exec: StageId -> ExecResult): (r: Click)
    ensures ui.app.activeTab != PipelineTab && |FilesOf(ui.app.files, ui.app.activeTab)| == 0 ==>
      r == Click(ui, Some(UploadFirstAlert), None)
    ensures r.run.Some? ==> r.run.value == HandleProcessRun(cat, ui.app, exec) && r.ui.app == r.run.value.state
    ensures ui.app.activeTab == PipelineTab ==> r.run.Some? && r.alert.None?
    ensures ui.app.activeTab != PipelineTab && |FilesOf(ui.app.files, ui.app.activeTab)| > 0 ==>
      (r.run.Some? <==> Listed(cat, ui.app.activeTab))
    ensures r.run.Some? && ui.app.activeTab != PipelineTab ==>
      r.alert == Some(FindIn(cat, ui.app.activeTab).value.name + " is started") &&
      ui.app.activeTab in r.ui.outputs && r.ui.outputs[ui.app.activeTab] == "Output for " + ui.app.activeTab
  {
    var tab := ui.app.activeTab;
    if tab != PipelineTab then
      if |FilesOf(ui.app.files, tab)| == 0 then Click(ui, Some(UploadFirstAlert), None)
      else
        match FindIn(cat, tab)
        case None => Click(ui, None, None)
        case Some(p) =>
          var outputs := ui.outputs[p.id := "Output for " + p.id];
          var run := HandleProcessRun(cat, ui.app, exec);
          Click(ui.(app := run.state, outputs := outputs), Some(p.name + " is started"), Some(run))
    else
      var run := HandleProcessRun(cat, ui.app, exec);
      Click(ui.(app := run.state), None, Some(run))
  }

  /** An enabled button on a stage tab never shows the upload alert: the
      disabled rule and the click guard agree. */
  lemma EnabledStageButtonPassesGuard(cat: seq<Stage>, ui: Ui, exec: StageId -> ExecResult)
    requires ui.app.activeTab != PipelineTab && !RunDisabled(ui)
    ensures FooterClick(cat, ui, exec).alert != Some(UploadFirstAlert)
  {
    if Listed(cat, ui.app.activeTab) {
      StartedIsNotUploadAlert(FindIn(cat, ui.app.activeTab).value.name);
    }
  }

  /** The `disabled` rule against the click handler: on a stage tab the
      button is disabled exactly when a click would raise the upload alert,
      and on the pipeline tab a disabled button guards a run that would
      start no stage. */
  lemma RunDisabledIff(cat: seq<Stage>, ui: Ui, exec: StageId -> ExecResult)
    ensures ui.app.activeTab != PipelineTab ==>
      (RunDisabled(ui) <==> FooterClick(cat, ui, exec).alert == Some(UploadFirstAlert))
    ensures ui.app.activeTab == PipelineTab && RunDisabled(ui) ==>
      FooterClick(cat, ui, exec).run.Some? && FooterClick(cat, ui, exec).run.value.dispatched == []
  {
    if ui.app.activeTab != PipelineTab && !RunDisabled(ui) {
      EnabledStageButtonPassesGuard(cat, ui, exec);
    }
  }

  /** The two alerts of a stage tab never coincide: one ends in "started",
      the other in "process". */
  lemma StartedIsNotUploadAlert(name: string)
    ensures name + " is started" != UploadFirstAlert
  {
    var started := name + " is started";
    assert started[|started| - 1] == 'd';
    assert UploadFirstAlert[|UploadFirstAlert| - 1] == 's';
  }

  /** "Run Process" on a stage tab dispatches exactly what "Start Pipeline"
      dispatches: every selected stage, not only the one on the tab. */
  lemma StageRunIsPipelineRun(cat: seq<Stage>, ui: Ui, exec: StageId -> ExecResult)
    requires ui.app.activeTab != PipelineTab
    requires FooterClick(cat, ui, exec).run.Some?
    ensures FooterClick(cat, ui, exec).run.value.dispatched
         == FooterClick(cat, ui.(app := ui.app.(activeTab := PipelineTab)), exec).run.value.dispatched
  {
  }
}
