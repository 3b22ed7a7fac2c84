/** The static catalogue of pipeline stages (frontend/src/data/processes.js):
    twelve stages of the software test life cycle, each naming the document
    types it needs and the one document type it produces. */
module Registry {
  import opened Wrappers

  type StageId = string

  /** One catalogue entry. The entries' `details` (descriptive sentences
      shown on the stage tab) are display text and are not modelled.
      `defaultPrompt` is read by the prompt view but no catalogue entry sets
      it, so it is `None` throughout. */
  datatype Stage = Stage(
    id: StageId,
    name: string,
    inputs: seq<string>,
    output: string,
    defaultPrompt: Option<string>)

  const Processes: seq<Stage> := [
    Stage("code-review", "Code Review",
      ["Source Code", "Technical Design Document"],
      "Code Review Report", None),
    Stage("requirement-analysis", "Requirement Analysis",
      ["Requirement Document", "Technical Design Document"],
      "Requirements Analysis Report", None),
    Stage("test-planning", "Test Planning",
      ["Requirements Analysis Report", "Code Review Report"],
      "Test Plan", None),
    Stage("test-scenario-generation", "Test Scenario Generation",
      ["Requirements Analysis Report", "Test Plan"],
      "Test Scenarios", None),
    Stage("test-scenario-optimization", "Test Scenario Optimization",
      ["Test Scenarios"],
      "Optimized Test Scenarios", None),
    Stage("test-case-generation", "Test Case Generation",
      ["Optimized Test Scenarios", "Requirements Analysis Report"],
      "Test Cases", None),
    Stage("test-case-optimization", "Test Case Optimization",
      ["Test Cases"],
      "Optimized Test Cases", None),
    Stage("test-code-generation", "Test Code Generation",
      ["Optimized Test Cases", "Source Code"],
      "Test Scripts", None),
    Stage("environment-setup", "Environment Setup",
      ["Test Scripts", "Technical Design Document"],
      "Environment Setup Report", None),
    Stage("test-execution", "Test Execution",
      ["Test Scripts", "Environment Setup Report", "Optimized Test Cases"],
      "Test Execution Results", None),
    Stage("test-reporting", "Test Reporting",
      ["Test Execution Results"],
      "Test Report", None),
    Stage("test-closure", "Test Closure",
      ["Test Report", "Test Execution Results"],
      "Test Closure Report", None)
  ]

  /** Document types a user supplies directly rather than a stage producing. */
  const BaseDocuments: set<string> :=
    {"Source Code", "Technical Design Document", "Requirement Document"}

  /** True when some catalogue entry has this id. */
  predicate IsStageId(id: StageId) {
    exists i :: 0 <= i < |Processes| && Processes[i].id == id
  }

  /** No entry of `ps` before index `i` has the id `id`. */
  predicate NoIdBefore(ps: seq<Stage>, id: StageId, i: nat) {
    forall j :: 0 <= j < i && j < |ps| ==> ps[j].id != id
  }

  /** First entry of `ps` whose id is `id` (JavaScript `Array.prototype.find`). */
  function FindIn(ps: seq<Stage>, id: StageId): (r: Option<Stage>)
    ensures r.Some? ==> r.value in ps && r.value.id == id
    ensures r.None? <==> forall i :: 0 <= i < |ps| ==> ps[i].id != id
    ensures forall i :: 0 <= i < |ps| && ps[i].id == id && NoIdBefore(ps, id, i) ==> r == Some(ps[i])
  {
    if |ps| == 0 then None
    else if ps[0].id == id then Some(ps[0])
    else FindIn(ps[1..], id)
  }

  /** `processes.find(p => p.id === id)`. */
  function Find(id: StageId): (r: Option<Stage>)
    ensures r.Some? <==> IsStageId(id)
    ensures r.Some? ==> r.value in Processes && r.value.id == id
  {
    FindIn(Processes, id)
  }

  /** The catalogue has twelve entries and no two share an id. */
  lemma RegistryIdsDistinct()
    ensures |Processes| == 12
    ensures forall i, j :: 0 <= i < j < |Processes| ==> Processes[i].id != Processes[j].id
  {
  }

  /** Every stage needs at least one input, never lists one twice, and
      produces a single non-empty output tag. */
  lemma StageInputsWellFormed()
    ensures forall i :: 0 <= i < |Processes| ==>
      |Processes[i].inputs| > 0 && |Processes[i].output| > 0
    ensures forall i, a, b :: 0 <= i < |Processes| && 0 <= a < b < |Processes[i].inputs| ==>
      Processes[i].inputs[a] != Processes[i].inputs[b]
  {
  }

  /** No two stages produce the same output tag. */
  lemma OutputsDistinct()
    ensures forall i, j :: 0 <= i < j < |Processes| ==> Processes[i].output != Processes[j].output
  {
  }

  /** For each stage and each of its inputs, the index of the stage that
      produces that input, or -1 for a document the user supplies. */
  const Producers: seq<seq<int>> := [
    [-1, -1], [-1, -1], [1, 0], [1, 2], [3], [4, 1],
    [5], [6, -1], [7, -1], [7, 8, 6], [9], [10, 9]
  ]

  /** Catalogue order is a dependency order: every input is a base document
      or the output of an earlier stage. */
  lemma RegistryIsDependencyOrdered()
    ensures forall i, a :: 0 <= i < |Processes| && 0 <= a < |Processes[i].inputs| ==>
      Processes[i].inputs[a] in BaseDocuments ||
      exists j :: 0 <= j < i && Processes[j].output == Processes[i].inputs[a]
  {
    forall i, a | 0 <= i < |Processes| && 0 <= a < |Processes[i].inputs|
      ensures Processes[i].inputs[a] in BaseDocuments ||
        exists j :: 0 <= j < i && Processes[j].output == Processes[i].inputs[a]
    {
      assert |Producers[i]| == |Processes[i].inputs|;
      var j := Producers[i][a];
      if j < 0 {
        assert Processes[i].inputs[a] in BaseDocuments;
      } else {
        assert 0 <= j < i && Processes[j].output == Processes[i].inputs[a];
      }
    }
  }

  /** The code review stage needs exactly source code and the technical
      design document, in that order. */
  lemma CodeReviewInputs()
    ensures Find("code-review").Some?
    ensures Find("code-review").value.inputs == ["Source Code", "Technical Design Document"]
    ensures Find("code-review").value.name == "Code Review"
  {
  }
}
