/** Facts that only hold for the concrete catalogue (frontend/src/data/processes.js)
    together with the upload menu (frontend/src/components/FileUpload.jsx)
    and the session's validation and run loop (frontend/src/App.jsx). */
module Readiness {
  import opened Wrappers
  import opened Registry
  import opened Session
  import opened FileUpload
  import opened TabPanel

  /** Every file carries a type the upload menu offers. */
  predicate MenuTyped(files: seq<FileInfo>) {
    forall k :: 0 <= k < |files| ==> files[k].fileType in FileTypes
  }

  /** Every input of the stage is a type the menu offers. */
  predicate Uploadable(stage: Stage) {
    forall a :: 0 <= a < |stage.inputs| ==> stage.inputs[a] in FileTypes
  }

  /** The four stages whose inputs can all be uploaded. */
  const ValidatableIds: set<StageId> :=
    {"code-review", "requirement-analysis", "test-case-optimization", "environment-setup"}

  /** The four stages need only document types the menu offers. */
  lemma FourStagesUploadable()
    ensures forall i :: 0 <= i < |Processes| && Processes[i].id in ValidatableIds ==> Uploadable(Processes[i])
  {
    forall i | 0 <= i < |Processes| && Processes[i].id in ValidatableIds
      ensures Uploadable(Processes[i])
    {
      assert i == 0 || i == 1 || i == 6 || i == 8;
    }
  }

  /** For each stage, the position of an input the menu lacks, or -1 when
      the menu offers them all. */
  const Blocking: seq<int> := [-1, -1, 0, 0, 0, 0, -1, 0, -1, 1, 0, 0]

  /** Every other stage needs a document type the menu lacks. */
  lemma OtherStagesNotUploadable()
    ensures forall i :: 0 <= i < |Processes| && Processes[i].id !in ValidatableIds ==> !Uploadable(Processes[i])
  {
    forall i | 0 <= i < |Processes| && Processes[i].id !in ValidatableIds
      ensures !Uploadable(Processes[i])
    {
      var a := Blocking[i];
      assert 0 <= a < |Processes[i].inputs| && Processes[i].inputs[a] !in FileTypes;
    }
  }

  /** A catalogue stage's inputs are all on the menu exactly for the four
      stages above. */
  lemma UploadableStages()
    ensures forall i :: 0 <= i < |Processes| ==> (Uploadable(Processes[i]) <==> Processes[i].id in ValidatableIds)
  {
    FourStagesUploadable();
    OtherStagesNotUploadable();
  }

  /** With files uploaded through the menu, a catalogue stage can be ready
      only if it is one of the four. */
  lemma OnlyFourStagesCanBeReady(i: nat, files: seq<FileInfo>)
    requires i < |Processes|
    requires MenuTyped(files)
    requires Ready(Processes[i], files)
    ensures Processes[i].id in ValidatableIds
  {
    UploadableStages();
    forall a | 0 <= a < |Processes[i].inputs| ensures Processes[i].inputs[a] in FileTypes {
      var k :| 0 <= k < |files| && files[k].fileType == Processes[i].inputs[a];
    }
  }

  /** Each of the four can indeed be made ready: one file per input type. */
  lemma FourStagesCanBeReady(i: nat)
    requires i < |Processes| && Processes[i].id in ValidatableIds
    ensures var files := seq(|Processes[i].inputs|, a requires 0 <= a < |Processes[i].inputs| => FileInfo("f", Processes[i].inputs[a]));
      MenuTyped(files) && Ready(Processes[i], files)
  {
    UploadableStages();
    var files := seq(|Processes[i].inputs|, a requires 0 <= a < |Processes[i].inputs| => FileInfo("f", Processes[i].inputs[a]));
    forall a | 0 <= a < |Processes[i].inputs| ensures Supplied(files, Processes[i].inputs[a]) {
      assert files[a].fileType == Processes[i].inputs[a];
    }
  }

  /** The pipeline list shows stages in catalogue order while the run goes
      in selection order: selecting requirement analysis before code review
      lists code review first but runs requirement analysis first. */
  lemma DisplayOrderIsNotRunOrder(st: State, exec: StageId -> ExecResult)
    requires st.selected == ["requirement-analysis", "code-review"]
    requires ValidatePipeline(Processes, st.selected, st.files) == Some([])
    requires forall j :: 0 <= j < |st.selected| ==> exec(st.selected[j]).Succeeded?
    ensures HandleProcessRun(Processes, st, exec).dispatched[0] == "requirement-analysis"
    ensures |PipelineView(Processes, st.selected)| > 0
    ensures PipelineView(Processes, st.selected)[0].stage.id == "code-review"
  {
    RunAllSucceed(Processes, st, exec);
    var code := Processes[0];
    assert code.id == "code-review" && code.id in st.selected;
    assert SelectedStages(Processes, st.selected) == [code] + SelectedStages(Processes[1..], st.selected);
  }
}
