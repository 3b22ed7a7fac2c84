/** The upload component (frontend/src/components/FileUpload.jsx): a fixed
    menu of document types, a drop guard that insists on a chosen type, a
    checkbox selection of files, and a per-file list of associated stages.
    Unlike the session, which keeps files per stage, this component keeps
    one central list of files and a mapping from file id to stage ids; the
    files a stage sees are derived from that mapping. */
module FileUpload {
  import opened Wrappers
  import opened Toggles
  import opened Registry
  import opened Session
  import opened Sequences

  /** `FILE_TYPES`: the only document types the menu offers. */
  const FileTypes: seq<string> := [
    "Technical Design Document",
    "Requirement Document",
    "Source Code",
    "Test Cases",
    "Test Scripts",
    "Test Data",
    "Configuration Files",
    "Previous Process Output"
  ]

  /** The menu offers eight distinct types. */
  lemma FileTypesDistinct()
    ensures |FileTypes| == 8
    ensures forall i, j :: 0 <= i < j < |FileTypes| ==> FileTypes[i] != FileTypes[j]
  {
  }

  /** A value the type menu can hold: the empty placeholder or one of the
      listed types. */
  predicate Choosable(t: string) {
    t == "" || t in FileTypes
  }

  /** What a drop does: raise the alert, or hand every dropped file to the
      upload callback with the chosen type. */
  datatype DropOutcome = Alerted(message: string) | Uploaded(files: seq<string>, fileType: string)

  const SelectTypeAlert: string := "Please select a file type before uploading"

  /** The dropzone's `onDrop`. An empty type (the placeholder) is falsy and
      blocks the upload. */
  function OnDrop(selectedType: string, accepted: seq<string>): (r: DropOutcome)
    ensures r.Uploaded? <==> selectedType != ""
    ensures r.Uploaded? ==> r.files == accepted && r.fileType == selectedType
    ensures r.Alerted? ==> r.message == SelectTypeAlert
  {
    if selectedType == "" then Alerted(SelectTypeAlert) else Uploaded(accepted, selectedType)
  }

  /** A drop that goes through carries one of the menu's types. */
  lemma DropTypeIsListed(selectedType: string, accepted: seq<string>)
    requires Choosable(selectedType)
    requires OnDrop(selectedType, accepted).Uploaded?
    ensures OnDrop(selectedType, accepted).fileType in FileTypes
  {
  }

  /** The file checkbox: toggles the file id in `selectedFileIds`. */
  function ToggleSelectedFile(selected: set<Id>, fileId: Id): (r: set<Id>)
    ensures fileId in r <==> fileId !in selected
    ensures forall y :: y != fileId ==> (y in r <==> y in selected)
  {
    ToggleSet(selected, fileId)
  }

  /** Checking and unchecking a file restores the selection. */
  lemma ToggleSelectedFileTwice(selected: set<Id>, fileId: Id)
    ensures ToggleSelectedFile(ToggleSelectedFile(selected, fileId), fileId) == selected
  {
    ToggleSetTwice(selected, fileId);
  }

  /** `fileProcessMappings[file.id] || []`. */
  function StagesOf(m: map<Id, seq<Id>>, fileId: Id): seq<Id> {
    if fileId in m then m[fileId] else []
  }

  /** A stage chip's click: toggles the stage in that file's list and passes
      the new list to `onFileProcessMapping`, which stores it under the
      file id. */
  function ToggleMapping(m: map<Id, seq<Id>>, fileId: Id, stageId: Id): (r: map<Id, seq<Id>>)
    ensures fileId in r
    ensures stageId in r[fileId] <==> stageId !in StagesOf(m, fileId)
    ensures stageId in StagesOf(m, fileId) ==> stageId !in r[fileId]
    ensures stageId !in StagesOf(m, fileId) ==> r[fileId] == StagesOf(m, fileId) + [stageId]
    ensures forall y :: y != stageId ==> (y in r[fileId] <==> y in StagesOf(m, fileId))
    ensures forall f :: f != fileId ==> SameEntry(r, m, f)
  {
    m[fileId := Toggle(StagesOf(m, fileId), stageId)]
  }

  /** The other stages of the file keep their relative order. */
  lemma ToggleMappingKeepsOrder(m: map<Id, seq<Id>>, fileId: Id, stageId: Id)
    ensures Without(ToggleMapping(m, fileId, stageId)[fileId], stageId) == Without(StagesOf(m, fileId), stageId)
  {
    ToggleKeepsOthersInOrder(StagesOf(m, fileId), stageId);
  }

  /** From a list without the stage, two clicks give back the list; a list
      without duplicates keeps none. */
  lemma ToggleMappingTwice(m: map<Id, seq<Id>>, fileId: Id, stageId: Id)
    ensures stageId !in StagesOf(m, fileId) ==>
      ToggleMapping(ToggleMapping(m, fileId, stageId), fileId, stageId)[fileId] == StagesOf(m, fileId)
    ensures NoDup(StagesOf(m, fileId)) ==> NoDup(ToggleMapping(m, fileId, stageId)[fileId])
  {
    if stageId !in StagesOf(m, fileId) {
      ToggleTwiceAbsent(StagesOf(m, fileId), stageId);
    }
    if NoDup(StagesOf(m, fileId)) {
      ToggleKeepsNoDup(StagesOf(m, fileId), stageId);
    }
  }

  /** An entry of `managedFiles`. */
  datatype ManagedFile = ManagedFile(id: Id, name: string, fileType: string)

  /** The file as the session's validation sees it. */
  function Info(f: ManagedFile): FileInfo {
    FileInfo(f.name, f.fileType)
  }

  /** The mapping associates the file with the stage. */
  predicate MappedTo(f: ManagedFile, m: map<Id, seq<Id>>, stageId: Id) {
    stageId in StagesOf(m, f.id)
  }

  /** The central list as the session's validation sees it. */
  function Infos(files: seq<ManagedFile>): (r: seq<FileInfo>)
    ensures |r| == |files|
    ensures forall i :: 0 <= i < |files| ==> r[i] == Info(files[i])
  {
    if |files| == 0 then [] else [Info(files[0])] + Infos(files[1..])
  }

  /** The entry is that of some file mapped to the stage. */
  predicate FromMapped(x: FileInfo, files: seq<ManagedFile>, m: map<Id, seq<Id>>, stageId: Id) {
    exists i :: 0 <= i < |files| && MappedTo(files[i], m, stageId) && Info(files[i]) == x
  }

  /** A stage's file list as the mapping determines it: every file the
      mapping associates with the stage is listed, nothing else is, and
      the list keeps upload order. */
  predicate ListsMapped(list: seq<FileInfo>, files: seq<ManagedFile>, m: map<Id, seq<Id>>, stageId: Id) {
    (forall i :: 0 <= i < |files| && MappedTo(files[i], m, stageId) ==> Info(files[i]) in list) &&
    (forall k :: 0 <= k < |list| ==> FromMapped(list[k], files, m, stageId)) &&
    IsSubsequence(list, Infos(files))
  }

  /** The files associated with a stage through the mapping, in upload
      order. */
  function FilesForStage(files: seq<ManagedFile>, m: map<Id, seq<Id>>, stageId: Id): (r: seq<FileInfo>)
    ensures |r| <= |files|
    ensures forall i :: 0 <= i < |files| && MappedTo(files[i], m, stageId) ==> Info(files[i]) in r
  {
    if |files| == 0 then []
    else
      var rest := FilesForStage(files[1..], m, stageId);
      assert forall i :: 1 <= i < |files| ==> files[i] == files[1..][i - 1];
      (if MappedTo(files[0], m, stageId) then [Info(files[0])] else []) + rest
  }

  lemma FromMappedTail(x: FileInfo, files: seq<ManagedFile>, m: map<Id, seq<Id>>, stageId: Id)
    requires |files| > 0 && FromMapped(x, files[1..], m, stageId)
    ensures FromMapped(x, files, m, stageId)
  {
    var j :| 0 <= j < |files[1..]| && MappedTo(files[1..][j], m, stageId) && Info(files[1..][j]) == x;
    assert files[j + 1] == files[1..][j];
  }

  /** Only files mapped to the stage are listed. */
  lemma {:induction false} OnlyMappedListed(files: seq<ManagedFile>, m: map<Id, seq<Id>>, stageId: Id)
    ensures forall k :: 0 <= k < |FilesForStage(files, m, stageId)| ==>
      FromMapped(FilesForStage(files, m, stageId)[k], files, m, stageId)
    decreases |files|
  {
    if |files| > 0 {
      OnlyMappedListed(files[1..], m, stageId);
      var rest := FilesForStage(files[1..], m, stageId);
      var r := FilesForStage(files, m, stageId);
      var d := if MappedTo(files[0], m, stageId) then 1 else 0;
      assert r == (if d == 1 then [Info(files[0])] else []) + rest;
      forall k | 0 <= k < |r| ensures FromMapped(r[k], files, m, stageId) {
        if k < d {
          assert MappedTo(files[0], m, stageId) && Info(files[0]) == r[k];
        } else {
          assert r[k] == rest[k - d];
          FromMappedTail(r[k], files, m, stageId);
        }
      }
    }
  }

  /** The list keeps upload order. */
  lemma {:induction false} ListedInUploadOrder(files: seq<ManagedFile>, m: map<Id, seq<Id>>, stageId: Id)
    ensures IsSubsequence(FilesForStage(files, m, stageId), Infos(files))
    decreases |files|
  {
    if |files| > 0 {
      ListedInUploadOrder(files[1..], m, stageId);
      var rest := FilesForStage(files[1..], m, stageId);
      assert Infos(files) == [Info(files[0])] + Infos(files[1..]);
      if MappedTo(files[0], m, stageId) {
        SubsequenceCons(Info(files[0]), rest, Infos(files[1..]));
      } else {
        assert FilesForStage(files, m, stageId) == rest;
        SubsequenceOfTail(rest, Info(files[0]), Infos(files[1..]));
      }
    }
  }

  /** The per-stage file table the session's validation consumes, built
      from the central list and the mapping for the given stages: one
      entry per given stage, listing exactly the files mapped to it in
      upload order. */
  function ProcessFilesFromMapping(files: seq<ManagedFile>, m: map<Id, seq<Id>>, stages: seq<StageId>): (r: map<StageId, seq<FileInfo>>)
    ensures r.Keys == set s | s in stages
    ensures forall s :: s in stages ==> ListsMapped(r[s], files, m, s)
  {
    var r := map s | s in stages :: FilesForStage(files, m, s);
    forall s | s in stages ensures ListsMapped(r[s], files, m, s) {
      OnlyMappedListed(files, m, s);
      ListedInUploadOrder(files, m, s);
    }
    r
  }

  /** Some file associated with the stage has this type. */
  predicate SuppliedVia(files: seq<ManagedFile>, m: map<Id, seq<Id>>, stageId: Id, tag: string) {
    exists i :: 0 <= i < |files| && MappedTo(files[i], m, stageId) && files[i].fileType == tag
  }

  lemma SuppliedAppend(a: seq<FileInfo>, b: seq<FileInfo>, tag: string)
    ensures Supplied(a + b, tag) <==> Supplied(a, tag) || Supplied(b, tag)
  {
    if Supplied(a + b, tag) {
      var k :| 0 <= k < |a + b| && (a + b)[k].fileType == tag;
      if k >= |a| {
        assert b[k - |a|].fileType == tag;
      }
    }
    if Supplied(b, tag) {
      var k :| 0 <= k < |b| && b[k].fileType == tag;
      assert (a + b)[k + |a|] == b[k];
    }
    if Supplied(a, tag) {
      var k :| 0 <= k < |a| && a[k].fileType == tag;
      assert (a + b)[k] == a[k];
    }
  }

  /** A stage's input is supplied through the mapping exactly when some
      file of that type is associated with the stage. */
  lemma {:induction false} MappedSuppliedIff(files: seq<ManagedFile>, m: map<Id, seq<Id>>, stageId: Id, tag: string)
    ensures Supplied(FilesForStage(files, m, stageId), tag) <==> SuppliedVia(files, m, stageId, tag)
    decreases |files|
  {
    if |files| > 0 {
      var head := if MappedTo(files[0], m, stageId) then [Info(files[0])] else [];
      var rest := FilesForStage(files[1..], m, stageId);
      MappedSuppliedIff(files[1..], m, stageId, tag);
      SuppliedAppend(head, rest, tag);
      assert FilesForStage(files, m, stageId) == head + rest;
      if SuppliedVia(files[1..], m, stageId, tag) {
        var i :| 0 <= i < |files[1..]| && MappedTo(files[1..][i], m, stageId) && files[1..][i].fileType == tag;
        assert files[i + 1] == files[1..][i];
      }
      if SuppliedVia(files, m, stageId, tag) {
        var i :| 0 <= i < |files| && MappedTo(files[i], m, stageId) && files[i].fileType == tag;
        if i > 0 {
          assert files[1..][i - 1] == files[i];
        } else {
          assert head[0].fileType == tag;
        }
      }
      if Supplied(head, tag) {
        assert MappedTo(files[0], m, stageId) && files[0].fileType == tag;
      }
    }
  }

  /** Every input of the stage is supplied by an associated file. */
  predicate StageSuppliedVia(stage: Stage, files: seq<ManagedFile>, m: map<Id, seq<Id>>, stageId: Id) {
    forall a :: 0 <= a < |stage.inputs| ==> SuppliedVia(files, m, stageId, stage.inputs[a])
  }

  lemma ReadyViaMapping(stage: Stage, files: seq<ManagedFile>, m: map<Id, seq<Id>>, stageId: Id)
    ensures Ready(stage, FilesForStage(files, m, stageId)) <==> StageSuppliedVia(stage, files, m, stageId)
  {
    forall a | 0 <= a < |stage.inputs| {
      MappedSuppliedIff(files, m, stageId, stage.inputs[a]);
    }
  }

  /** Validating the selection against the mapping-derived files passes
      exactly when every selected stage is known and each of its inputs is
      the type of some file associated with that stage. */
  lemma MappedValidationEmptyIff(cat: seq<Stage>, selected: seq<StageId>, files: seq<ManagedFile>, m: map<Id, seq<Id>>)
    ensures ValidatePipeline(cat, selected, ProcessFilesFromMapping(files, m, selected)) == Some([]) <==>
      AllKnown(cat, selected) &&
      forall n :: 0 <= n < |selected| ==> StageSuppliedVia(FindIn(cat, selected[n]).value, files, m, selected[n])
  {
    var pf := ProcessFilesFromMapping(files, m, selected);
    ValidationEmptyIff(cat, selected, pf);
    if AllKnown(cat, selected) {
      forall n | 0 <= n < |selected|
        ensures Ready(FindIn(cat, selected[n]).value, FilesOf(pf, selected[n])) <==>
          StageSuppliedVia(FindIn(cat, selected[n]).value, files, m, selected[n])
      {
        assert selected[n] in selected;
        ReadyViaMapping(FindIn(cat, selected[n]).value, files, m, selected[n]);
      }
    }
  }
}
