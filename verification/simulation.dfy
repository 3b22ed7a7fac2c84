/** The executor the frontend actually wires in (frontend/src/App.jsx):
    instead of calling a backend it waits on a timer and resolves with a
    canned markdown report naming the stage and its file count. */
module Simulation {
  import opened Wrappers
  import opened Strings
  import opened Registry
  import opened Session

  /** The lines of the markdown report the simulated execution resolves
      with; the template literal joins them with newlines. */
  function ReportLines(name: string, fileCount: nat): seq<string> {
    ["# " + name + " Results", "",
     "## Overview", "Process completed successfully", "",
     "## Details", "- Analyzed " + NatToString(fileCount) + " files",
     "- Generated test artifacts", "- Validated requirements", "",
     "## Next Steps", "1. Review generated artifacts", "2. Proceed to next phase",
     "3. Update documentation"]
  }

  function SimulatedReport(name: string, fileCount: nat): string {
    Join(ReportLines(name, fileCount), "\n")
  }

  /** The report opens with the stage's heading line. */
  lemma SimulatedReportHeading(name: string, fileCount: nat)
    ensures |SimulatedReport(name, fileCount)| > |name| + 10
    ensures SimulatedReport(name, fileCount)[..|name| + 11] == "# " + name + " Results\n"
  {
    var ls := ReportLines(name, fileCount);
    assert Join(ls, "\n") == ls[0] + "\n" + Join(ls[1..], "\n");
    var head := ls[0] + "\n";
    assert |head| == |name| + 11;
    assert (head + Join(ls[1..], "\n"))[..|head|] == head;
  }

  /** The frontend's executor: a timer that always resolves with a report
      naming the stage and its file count. */
  function SimulatedExecute(cat: seq<Stage>, files: map<StageId, seq<FileInfo>>, id: StageId): (r: ExecResult)
    ensures r.Succeeded?
  {
    Succeeded(SimulatedReport(if Listed(cat, id) then FindIn(cat, id).value.name else "", |FilesOf(files, id)|))
  }

  /** With the simulated executor a validated run always completes every
      selected stage. */
  lemma SimulatedRunCompletes(cat: seq<Stage>, st: State)
    requires ValidatePipeline(cat, st.selected, st.files) == Some([])
    ensures var r := HandleProcessRun(cat, st, (id => SimulatedExecute(cat, st.files, id)));
      && r.dispatched == st.selected
      && (forall j :: 0 <= j < |st.selected| ==>
            st.selected[j] in r.state.status && r.state.status[st.selected[j]] == Completed)
      && (|st.selected| > 0 ==>
            r.state.output == Report(SimulatedReport(FindIn(cat, Last(st.selected)).value.name,
                                                     |FilesOf(st.files, Last(st.selected))|)))
  {
    RunAllSucceed(cat, st, (id => SimulatedExecute(cat, st.files, id)));
    RunStagesOutput(st.selected, st.status, st.output, (id => SimulatedExecute(cat, st.files, id)));
  }
}
