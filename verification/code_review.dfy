/** The code-review service of backend/stlc/code_review.py.

    `process_code_review` takes uploaded files, decodes and sanitises each
    one, skips files with no content, splits the rest into chunks, has every
    chunk reviewed, and labels and joins the reviews per file.
    `run_step` is the pipeline's variant: it reviews whole files named by
    path.

    The chat model, the langchain splitter and file reading are parameters.
    The splitter is `split(text, chunkSize, overlap)`, called with the
    overlap `ChunkOverlap`. The chunk reviewer is `review(fileName, chunk, index, total)`
    and yields `None` when the chat call raises. */
module CodeReview {
  import opened Wrappers
  import opened Strings
  import opened Sequences
  import opened Words
  import opened Paths
  import opened Http

  /** An uploaded file: its name, and either its UTF-8 text or the message
      of the decoding error. */
  datatype Upload = Upload(filename: string, content: Result<string, string>)

  /** One entry of `code_reviews`. */
  datatype FileReview = FileReview(fileName: string, reviews: string)

  const NoFilesDetail: string := "Hiçbir dosya yüklenmedi."
  const NothingReviewedDetail: string := "Hiçbir geçerli kod içeriği incelenemedi."

  /** The 400 raised when a file cannot be read or decoded. */
  function ReadError(name: string, message: string): HttpError {
    HttpError(400, "Error reading file " + name + ": " + message)
  }

  /** The 500 raised when the chat call for a chunk fails. */
  function ReviewError(name: string): HttpError {
    HttpError(500, "Error during review API call for " + name)
  }

  /** `f"Chunk {idx+1}/{total_chunks} Review:\n"`. */
  function ChunkLabel(index: nat, total: nat): string {
    "Chunk " + NatToString(index + 1) + "/" + NatToString(total) + " Review:\n"
  }

  /** The chunk size the service uses: `determine_chunk_size` with the
      default base 1000 and minimum 500. */
  function ServiceChunkSize(code: string): (n: nat)
    ensures MinChunkSize <= n <= BaseChunkSize
    ensures CountTokens(code) <= LlmTokenLimit ==> n == BaseChunkSize
  {
    DetermineChunkSize(code, BaseChunkSize, MinChunkSize)
  }

  /** The labelled reviews of `chunks[i..]`. The first failing chat call
      ends the loop with its error. */
  function ReviewChunksFrom(name: string, chunks: seq<string>, i: nat,
                            review: (string, string, nat, nat) -> Option<string>): (r: Result<seq<string>, HttpError>)
    requires i <= |chunks|
    ensures r.Ok? <==> forall k :: i <= k < |chunks| ==> review(name, chunks[k], k, |chunks|).Some?
    ensures r.Ok? ==> |r.value| == |chunks| - i
    ensures r.Ok? ==> forall k :: i <= k < |chunks| ==>
      r.value[k - i] == ChunkLabel(k, |chunks|) + review(name, chunks[k], k, |chunks|).value
    ensures r.Err? ==> r.error == ReviewError(name)
    decreases |chunks| - i
  {
    if i == |chunks| then Ok([])
    else
      match review(name, chunks[i], i, |chunks|)
      case None => Err(ReviewError(name))
      case Some(text) =>
        match ReviewChunksFrom(name, chunks, i + 1, review)
        case Err(e) => Err(e)
        case Ok(rest) => Ok([ChunkLabel(i, |chunks|) + text] + rest)
  }

  /** A file that gets a review entry: readable, and not whitespace only. */
  predicate Reviewable(f: Upload) {
    f.content.Ok? && !AllSpace(f.content.value)
  }

  /** The chunks the splitter makes of a readable file's sanitised text. */
  function Chunks(f: Upload, split: (string, nat, nat) -> seq<string>): seq<string>
    requires f.content.Ok?
  {
    var code := Sanitize(f.content.value);
    split(code, ServiceChunkSize(code), ChunkOverlap)
  }

  /** Every chat call on the file's chunks returns. */
  predicate ChunksReviewed(f: Upload, split: (string, nat, nat) -> seq<string>,
                           review: (string, string, nat, nat) -> Option<string>)
    requires f.content.Ok?
  {
    var chunks := Chunks(f, split);
    forall k :: 0 <= k < |chunks| ==> review(f.filename, chunks[k], k, |chunks|).Some?
  }

  /** The file's turn of the upload loop raises nothing: it can be read,
      and when it is reviewed every chat call returns. */
  predicate FileSucceeds(f: Upload, split: (string, nat, nat) -> seq<string>,
                         review: (string, string, nat, nat) -> Option<string>) {
    f.content.Ok? && (Reviewable(f) ==> ChunksReviewed(f, split, review))
  }

  /** The `reviews` text of a file: one labelled review per chunk, in chunk
      order, separated by a blank line. */
  function LabelledReviews(f: Upload, split: (string, nat, nat) -> seq<string>,
                           review: (string, string, nat, nat) -> Option<string>): string
    requires f.content.Ok? && ChunksReviewed(f, split, review)
  {
    var chunks := Chunks(f, split);
    Join(seq(|chunks|, k requires 0 <= k < |chunks| =>
           ChunkLabel(k, |chunks|) + review(f.filename, chunks[k], k, |chunks|).value), "\n\n")
  }

  /** One iteration of the upload loop: the file's review entry, `None`
      when its sanitised content is empty and the file is skipped, or the
      error that ends the request. */
  function ReviewFile(f: Upload, split: (string, nat, nat) -> seq<string>,
                      review: (string, string, nat, nat) -> Option<string>): (r: Result<Option<FileReview>, HttpError>)
    ensures f.content.Err? ==> r == Err(ReadError(f.filename, f.content.error))
    ensures f.content.Ok? && AllSpace(f.content.value) ==> r == Ok(None)
    ensures r.Ok? <==> FileSucceeds(f, split, review)
    ensures r.Ok? ==> (r.value.Some? <==> Reviewable(f))
    ensures r.Ok? && r.value.Some? ==> r.value.value.fileName == Basename(f.filename)
    ensures r.Err? ==> r.error == ReviewError(f.filename) || f.content.Err?
  {
    match f.content
    case Err(message) => Err(ReadError(f.filename, message))
    case Ok(text) =>
      var code := Sanitize(text);
      SanitizedBlankIff(text);
      if AllSpace(code) then Ok(None)
      else
        var chunks := split(code, ServiceChunkSize(code), ChunkOverlap);
        match ReviewChunksFrom(f.filename, chunks, 0, review)
        case Err(e) => Err(e)
        case Ok(reviews) => Ok(Some(FileReview(Basename(f.filename), Join(reviews, "\n\n"))))
  }

  /** The entry of a reviewable file whose every chat call succeeds: its
      base name and its labelled reviews. */
  lemma ReviewFileText(f: Upload, split: (string, nat, nat) -> seq<string>,
                       review: (string, string, nat, nat) -> Option<string>)
    requires Reviewable(f) && ChunksReviewed(f, split, review)
    ensures ReviewFile(f, split, review) == Ok(Some(FileReview(Basename(f.filename), LabelledReviews(f, split, review))))
  {
    SanitizedBlankIff(f.content.value);
    var chunks := Chunks(f, split);
    var rs := ReviewChunksFrom(f.filename, chunks, 0, review);
    assert rs.value == seq(|chunks|, k requires 0 <= k < |chunks| =>
      ChunkLabel(k, |chunks|) + review(f.filename, chunks[k], k, |chunks|).value);
  }

  /** The files that get an entry, in upload order: exactly the reviewable
      ones, each as often as it was uploaded. */
  function Kept(files: seq<Upload>): (r: seq<Upload>)
    ensures IsSubsequence(r, files)
    ensures forall k :: 0 <= k < |r| ==> Reviewable(r[k])
    ensures forall k :: 0 <= k < |files| && Reviewable(files[k]) ==> files[k] in r
    ensures CountsReviewable(r, files)
  {
    if |files| == 0 then []
    else
      var rest := Kept(files[1..]);
      assert [files[0]] + files[1..] == files;
      if Reviewable(files[0]) then
        SubsequenceCons(files[0], rest, files[1..]);
        CountsCons(files, rest);
        CountedIn(files, [files[0]] + rest);
        [files[0]] + rest
      else
        SubsequenceOfTail(rest, files[0], files[1..]);
        CountsSkip(files, rest);
        CountedIn(files, rest);
        rest
  }

  /** `kept` holds each reviewable file as often as `files` does, and
      nothing else. */
  ghost predicate CountsReviewable(kept: seq<Upload>, files: seq<Upload>) {
    forall f :: multiset(kept)[f] == (if Reviewable(f) then multiset(files)[f] else 0)
  }

  lemma CountsCons(files: seq<Upload>, rest: seq<Upload>)
    requires |files| > 0 && Reviewable(files[0]) && CountsReviewable(rest, files[1..])
    ensures CountsReviewable([files[0]] + rest, files)
  {
    assert files == [files[0]] + files[1..];
    assert multiset(files) == multiset([files[0]]) + multiset(files[1..]);
    assert multiset([files[0]] + rest) == multiset([files[0]]) + multiset(rest);
  }

  lemma CountsSkip(files: seq<Upload>, rest: seq<Upload>)
    requires |files| > 0 && !Reviewable(files[0]) && CountsReviewable(rest, files[1..])
    ensures CountsReviewable(rest, files)
  {
    assert files == [files[0]] + files[1..];
    assert multiset(files) == multiset([files[0]]) + multiset(files[1..]);
  }

  lemma CountedIn(files: seq<Upload>, kept: seq<Upload>)
    requires CountsReviewable(kept, files)
    ensures forall k :: 0 <= k < |files| && Reviewable(files[k]) ==> files[k] in kept
  {
    forall k | 0 <= k < |files| && Reviewable(files[k]) ensures files[k] in kept {
      assert multiset(files)[files[k]] > 0;
      assert multiset(kept)[files[k]] > 0;
    }
  }

  /** Some file cannot be read. */
  predicate SomeUnreadable(files: seq<Upload>) {
    exists k :: 0 <= k < |files| && files[k].content.Err?
  }

  lemma KeptStep(files: seq<Upload>)
    requires |files| > 0
    ensures Kept(files) == (if Reviewable(files[0]) then [files[0]] else []) + Kept(files[1..])
  {
  }

  /** Every file's turn of the loop raises nothing. */
  predicate AllSucceed(files: seq<Upload>, split: (string, nat, nat) -> seq<string>,
                       review: (string, string, nat, nat) -> Option<string>) {
    forall k :: 0 <= k < |files| ==> FileSucceeds(files[k], split, review)
  }

  lemma AllSucceedStep(files: seq<Upload>, split: (string, nat, nat) -> seq<string>,
                       review: (string, string, nat, nat) -> Option<string>)
    requires |files| > 0
    ensures AllSucceed(files, split, review) <==>
      FileSucceeds(files[0], split, review) && AllSucceed(files[1..], split, review)
    ensures AllSucceed(files, split, review) ==> !SomeUnreadable(files)
  {
    assert forall k :: 0 < k < |files| ==> files[k] == files[1..][k - 1];
  }

  /** The entries are named after the files, one for one and in order. */
  predicate NamedAfter(entries: seq<FileReview>, files: seq<Upload>) {
    |entries| == |files| &&
    forall k :: 0 <= k < |entries| ==> entries[k].fileName == Basename(files[k].filename)
  }

  /** The entries are, one for one and in order, what the loop body makes
      of the files. */
  predicate EntriesFor(entries: seq<FileReview>, kept: seq<Upload>, split: (string, nat, nat) -> seq<string>,
                       review: (string, string, nat, nat) -> Option<string>) {
    |entries| == |kept| &&
    forall k :: 0 <= k < |kept| ==> ReviewFile(kept[k], split, review) == Ok(Some(entries[k]))
  }

  lemma EntriesNamed(entries: seq<FileReview>, kept: seq<Upload>, split: (string, nat, nat) -> seq<string>,
                     review: (string, string, nat, nat) -> Option<string>)
    requires EntriesFor(entries, kept, split, review)
    ensures NamedAfter(entries, kept)
  {
    forall k | 0 <= k < |kept| ensures entries[k].fileName == Basename(kept[k].filename) {
      assert ReviewFile(kept[k], split, review) == Ok(Some(entries[k]));
    }
  }

  lemma EntriesForCons(entry: Option<FileReview>, f: Upload, rest: seq<FileReview>, kept: seq<Upload>,
                       split: (string, nat, nat) -> seq<string>, review: (string, string, nat, nat) -> Option<string>)
    requires ReviewFile(f, split, review) == Ok(entry)
    requires EntriesFor(rest, kept, split, review)
    ensures EntriesFor((if entry.Some? then [entry.value] else []) + rest,
                       (if Reviewable(f) then [f] else []) + kept, split, review)
  {
    var es := (if entry.Some? then [entry.value] else []) + rest;
    var ks := (if Reviewable(f) then [f] else []) + kept;
    if entry.Some? {
      assert ks == [f] + kept && es == [entry.value] + rest;
      forall k | 0 <= k < |ks| ensures ReviewFile(ks[k], split, review) == Ok(Some(es[k])) {
        if k > 0 {
          assert ks[k] == kept[k - 1] && es[k] == rest[k - 1];
        }
      }
    } else {
      assert ks == kept && es == rest;
    }
  }

  /** Every file that gets an entry is one whose turn raises nothing. */
  lemma KeptSucceed(files: seq<Upload>, split: (string, nat, nat) -> seq<string>,
                    review: (string, string, nat, nat) -> Option<string>)
    requires AllSucceed(files, split, review)
    ensures forall k :: 0 <= k < |Kept(files)| ==> Reviewable(Kept(files)[k]) && ChunksReviewed(Kept(files)[k], split, review)
  {
    var kept := Kept(files);
    forall k | 0 <= k < |kept| ensures Reviewable(kept[k]) && ChunksReviewed(kept[k], split, review) {
      var f := kept[k];
      assert multiset(kept)[f] > 0;
      assert CountsReviewable(kept, files);
      assert f in files;
      var i :| 0 <= i < |files| && files[i] == f;
      assert FileSucceeds(files[i], split, review);
    }
  }

  /** The loop over the uploads: one entry per reviewable file, in upload
      order, each the loop body's entry for that file; the first error
      ends the loop. */
  function ReviewAll(files: seq<Upload>, split: (string, nat, nat) -> seq<string>,
                     review: (string, string, nat, nat) -> Option<string>): (r: Result<seq<FileReview>, HttpError>)
    ensures r.Ok? <==> AllSucceed(files, split, review)
    ensures r.Ok? ==> EntriesFor(r.value, Kept(files), split, review)
    ensures r.Ok? ==> NamedAfter(r.value, Kept(files))
    ensures SomeUnreadable(files) ==> r.Err?
    ensures r.Err? ==> r.error.status == 400 || r.error.status == 500
  {
    if |files| == 0 then Ok([])
    else
      AllSucceedStep(files, split, review);
      match ReviewFile(files[0], split, review)
      case Err(e) => Err(e)
      case Ok(entry) =>
        match ReviewAll(files[1..], split, review)
        case Err(e) => Err(e)
        case Ok(rest) =>
          KeptStep(files);
          EntriesForCons(entry, files[0], rest, Kept(files[1..]), split, review);
          var entries := (if entry.Some? then [entry.value] else []) + rest;
          EntriesNamed(entries, Kept(files), split, review);
          Ok(entries)
  }

  /** The error a failing file raises: the read error when it cannot be
      read, otherwise the chat error for that file. */
  function FileError(f: Upload): HttpError {
    match f.content
    case Err(message) => ReadError(f.filename, message)
    case Ok(_) => ReviewError(f.filename)
  }

  /** The loop stops at the first file whose turn raises, with that file's
      error; the later files are never read or reviewed. */
  lemma {:induction false} ReviewAllFirstFailure(files: seq<Upload>, split: (string, nat, nat) -> seq<string>,
                                                 review: (string, string, nat, nat) -> Option<string>, k: nat)
    requires k < |files| && !FileSucceeds(files[k], split, review)
    requires forall j :: 0 <= j < k ==> FileSucceeds(files[j], split, review)
    ensures ReviewAll(files, split, review) == Err(FileError(files[k]))
    decreases k
  {
    if k == 0 {
      FailingFileError(files[0], split, review);
    } else {
      assert forall j :: 0 <= j < k - 1 ==> files[1..][j] == files[j + 1];
      ReviewAllFirstFailure(files[1..], split, review, k - 1);
      ReviewAllPassesError(files, split, review);
    }
  }

  /** A failing file's turn raises `FileError`. */
  lemma FailingFileError(f: Upload, split: (string, nat, nat) -> seq<string>,
                         review: (string, string, nat, nat) -> Option<string>)
    requires !FileSucceeds(f, split, review)
    ensures ReviewFile(f, split, review) == Err(FileError(f))
  {
  }

  /** A file whose turn raises nothing passes the later files' error on. */
  lemma ReviewAllPassesError(files: seq<Upload>, split: (string, nat, nat) -> seq<string>,
                             review: (string, string, nat, nat) -> Option<string>)
    requires |files| > 0 && FileSucceeds(files[0], split, review)
    requires ReviewAll(files[1..], split, review).Err?
    ensures ReviewAll(files, split, review) == ReviewAll(files[1..], split, review)
  {
  }

  /** `process_code_review(files)`. */
  function ProcessCodeReview(files: seq<Upload>, split: (string, nat, nat) -> seq<string>,
                             review: (string, string, nat, nat) -> Option<string>): (r: Result<seq<FileReview>, HttpError>)
    ensures |files| == 0 ==> r == Err(HttpError(400, NoFilesDetail))
    ensures r.Ok? <==> |files| > 0 && AllSucceed(files, split, review) && |Kept(files)| > 0
    ensures r.Ok? ==> |r.value| > 0 && EntriesFor(r.value, Kept(files), split, review)
    ensures r.Ok? ==> NamedAfter(r.value, Kept(files))
    ensures SomeUnreadable(files) ==> r.Err?
    ensures r.Err? ==> r.error.status == 400 || r.error.status == 500
  {
    if |files| == 0 then Err(HttpError(400, NoFilesDetail))
    else
      match ReviewAll(files, split, review)
      case Err(e) => Err(e)
      case Ok(reviews) =>
        if |reviews| == 0 then Err(HttpError(400, NothingReviewedDetail)) else Ok(reviews)
  }

  /** When a file fails, the request fails with the first failing file's
      error, whatever the files after it hold. */
  lemma ProcessCodeReviewFirstFailure(files: seq<Upload>, split: (string, nat, nat) -> seq<string>,
                                      review: (string, string, nat, nat) -> Option<string>, k: nat)
    requires k < |files| && !FileSucceeds(files[k], split, review)
    requires forall j :: 0 <= j < k ==> FileSucceeds(files[j], split, review)
    ensures ProcessCodeReview(files, split, review) == Err(FileError(files[k]))
  {
    ReviewAllFirstFailure(files, split, review, k);
  }

  /** Entry k is the k-th file's base name with its labelled chunk
      reviews, one entry per file. */
  predicate LabelledEntries(entries: seq<FileReview>, kept: seq<Upload>, split: (string, nat, nat) -> seq<string>,
                            review: (string, string, nat, nat) -> Option<string>) {
    |entries| == |kept| &&
    forall k :: 0 <= k < |kept| ==>
      kept[k].content.Ok? && ChunksReviewed(kept[k], split, review) &&
      entries[k] == FileReview(Basename(kept[k].filename), LabelledReviews(kept[k], split, review))
  }

  /** When every file can be read, every chat call returns and some file
      has content, the request succeeds with one entry per reviewable file,
      in upload order: its base name and its labelled chunk reviews joined
      by a blank line. */
  lemma ProcessCodeReviewEntries(files: seq<Upload>, split: (string, nat, nat) -> seq<string>,
                                 review: (string, string, nat, nat) -> Option<string>)
    requires |files| > 0 && AllSucceed(files, split, review) && |Kept(files)| > 0
    ensures ProcessCodeReview(files, split, review).Ok?
    ensures LabelledEntries(ProcessCodeReview(files, split, review).value, Kept(files), split, review)
  {
    var r := ProcessCodeReview(files, split, review);
    KeptSucceed(files, split, review);
    EntriesLabelled(r.value, Kept(files), split, review);
  }

  lemma EntriesLabelled(entries: seq<FileReview>, kept: seq<Upload>, split: (string, nat, nat) -> seq<string>,
                        review: (string, string, nat, nat) -> Option<string>)
    requires EntriesFor(entries, kept, split, review)
    requires forall k :: 0 <= k < |kept| ==> Reviewable(kept[k]) && ChunksReviewed(kept[k], split, review)
    ensures LabelledEntries(entries, kept, split, review)
  {
    forall k | 0 <= k < |kept|
      ensures entries[k] == FileReview(Basename(kept[k].filename), LabelledReviews(kept[k], split, review))
    {
      EntryIsLabelled(kept[k], entries[k], split, review);
    }
  }

  /** The entry the loop body makes of a reviewable file whose chat calls
      all return is its labelled reviews. */
  lemma EntryIsLabelled(f: Upload, e: FileReview, split: (string, nat, nat) -> seq<string>,
                        review: (string, string, nat, nat) -> Option<string>)
    requires Reviewable(f) && ChunksReviewed(f, split, review)
    requires ReviewFile(f, split, review) == Ok(Some(e))
    ensures e == FileReview(Basename(f.filename), LabelledReviews(f, split, review))
  {
    ReviewFileText(f, split, review);
  }

  /** Uploads that are all readable but hold only whitespace are rejected
      with the "nothing could be reviewed" 400. */
  lemma {:induction false} BlankUploadsRejected(files: seq<Upload>, split: (string, nat, nat) -> seq<string>,
                                                review: (string, string, nat, nat) -> Option<string>)
    requires |files| > 0
    requires forall k :: 0 <= k < |files| ==> files[k].content.Ok? && AllSpace(files[k].content.value)
    ensures ProcessCodeReview(files, split, review) == Err(HttpError(400, NothingReviewedDetail))
  {
    BlankUploadsSkipped(files, split, review);
  }

  lemma {:induction false} BlankUploadsSkipped(files: seq<Upload>, split: (string, nat, nat) -> seq<string>,
                                               review: (string, string, nat, nat) -> Option<string>)
    requires forall k :: 0 <= k < |files| ==> files[k].content.Ok? && AllSpace(files[k].content.value)
    ensures ReviewAll(files, split, review) == Ok([])
    decreases |files|
  {
    if |files| > 0 {
      assert forall k :: 0 < k < |files| ==> files[k] == files[1..][k - 1];
      BlankUploadsSkipped(files[1..], split, review);
    }
  }

  // ---------------------------------------------------------------------
  // run_step

  /** One entry of `reviews`. */
  datatype StepReview = StepReview(fileName: string, review: string)

  /** The review of the file at `path` succeeds: it can be read and the
      chat call on its text returns. */
  predicate PathReviewed(path: string, read: string -> Result<string, string>,
                         chat: string -> Result<string, string>) {
    read(path).Ok? && chat(read(path).value).Ok?
  }

  /** The 500 raised inside the loop when reading or reviewing `path` fails. */
  function PathError(path: string, read: string -> Result<string, string>,
                     chat: string -> Result<string, string>): HttpError
    requires !PathReviewed(path, read, chat)
  {
    var message := if read(path).Err? then read(path).error else chat(read(path).value).error;
    HttpError(500, "Error processing file " + Basename(path) + ": " + message)
  }

  /** Every path's review succeeds. */
  predicate AllReviewed(paths: seq<string>, read: string -> Result<string, string>,
                        chat: string -> Result<string, string>) {
    forall k :: 0 <= k < |paths| ==> PathReviewed(paths[k], read, chat)
  }

  /** The entries are, path by path, the base name and the chat reply. */
  predicate ReviewedAs(entries: seq<StepReview>, paths: seq<string>, read: string -> Result<string, string>,
                       chat: string -> Result<string, string>)
    requires AllReviewed(paths, read, chat)
  {
    |entries| == |paths| && forall k :: 0 <= k < |paths| ==>
      entries[k] == StepReview(Basename(paths[k]), chat(read(paths[k]).value).value)
  }

  lemma AllReviewedStep(paths: seq<string>, read: string -> Result<string, string>,
                        chat: string -> Result<string, string>)
    requires |paths| > 0
    ensures AllReviewed(paths, read, chat) <==> PathReviewed(paths[0], read, chat) && AllReviewed(paths[1..], read, chat)
  {
    assert forall k :: 0 < k < |paths| ==> paths[k] == paths[1..][k - 1];
  }

  lemma ReviewedAsCons(paths: seq<string>, rest: seq<StepReview>, read: string -> Result<string, string>,
                       chat: string -> Result<string, string>)
    requires |paths| > 0 && AllReviewed(paths, read, chat)
    requires AllReviewed(paths[1..], read, chat) && ReviewedAs(rest, paths[1..], read, chat)
    ensures ReviewedAs([StepReview(Basename(paths[0]), chat(read(paths[0]).value).value)] + rest, paths, read, chat)
  {
    var entries := [StepReview(Basename(paths[0]), chat(read(paths[0]).value).value)] + rest;
    forall k | 0 < k < |paths|
      ensures entries[k] == StepReview(Basename(paths[k]), chat(read(paths[k]).value).value)
    {
      assert entries[k] == rest[k - 1];
      assert paths[1..][k - 1] == paths[k];
    }
  }

  /** The loop of `run_step` over `data["files"]`. */
  function ReviewPaths(paths: seq<string>, read: string -> Result<string, string>,
                       chat: string -> Result<string, string>): (r: Result<seq<StepReview>, HttpError>)
    ensures r.Ok? <==> AllReviewed(paths, read, chat)
    ensures r.Ok? ==> ReviewedAs(r.value, paths, read, chat)
    ensures r.Err? ==> r.error.status == 500
  {
    if |paths| == 0 then Ok([])
    else
      var p := paths[0];
      AllReviewedStep(paths, read, chat);
      if !PathReviewed(p, read, chat) then Err(PathError(p, read, chat))
      else
        match ReviewPaths(paths[1..], read, chat)
        case Err(e) => Err(e)
        case Ok(rest) =>
          ReviewedAsCons(paths, rest, read, chat);
          Ok([StepReview(Basename(p), chat(read(p).value).value)] + rest)
  }

  /** The loop stops at the first file that fails, with that file's error. */
  lemma {:induction false} ReviewPathsFirstFailure(paths: seq<string>, read: string -> Result<string, string>,
                                                   chat: string -> Result<string, string>, k: nat)
    requires k < |paths| && !PathReviewed(paths[k], read, chat)
    requires forall j :: 0 <= j < k ==> PathReviewed(paths[j], read, chat)
    ensures ReviewPaths(paths, read, chat) == Err(PathError(paths[k], read, chat))
    decreases k
  {
    if k > 0 {
      assert forall j :: 0 <= j < k - 1 ==> paths[1..][j] == paths[j + 1];
      ReviewPathsFirstFailure(paths[1..], read, chat, k - 1);
    }
  }

  const NoPathsDetail: string := "No files provided"

  /** `run_step(data)`, with `data.get("files")` as `files`. Every error,
      the "no files" 400 included, is caught by the outer handler and
      raised again as a 500 whose detail is the caught exception's text. */
  function RunStep(files: Option<seq<string>>, read: string -> Result<string, string>,
                   chat: string -> Result<string, string>): (r: Result<seq<StepReview>, HttpError>)
    ensures r.Err? ==> r.error.status == 500
    ensures files.None? || files == Some([]) ==> r == Err(HttpError(500, ErrorText(HttpError(400, NoPathsDetail))))
    ensures r.Ok? ==> files.Some? && |r.value| == |files.value| > 0
    ensures files.Some? && |files.value| > 0 ==> (r.Ok? <==> AllReviewed(files.value, read, chat))
    ensures r.Ok? ==> AllReviewed(files.value, read, chat) && ReviewedAs(r.value, files.value, read, chat)
  {
    var inner := if files.None? || |files.value| == 0 then Err(HttpError(400, NoPathsDetail))
                 else ReviewPaths(files.value, read, chat);
    match inner
    case Ok(reviews) => Ok(reviews)
    case Err(e) => Err(HttpError(500, ErrorText(e)))
  }

  /** When a file fails, the 500 names the first failing file, wrapped in
      the outer handler's text. */
  lemma RunStepFirstFailure(paths: seq<string>, read: string -> Result<string, string>,
                            chat: string -> Result<string, string>, k: nat)
    requires k < |paths| && !PathReviewed(paths[k], read, chat)
    requires forall j :: 0 <= j < k ==> PathReviewed(paths[j], read, chat)
    ensures RunStep(Some(paths), read, chat) == Err(HttpError(500, ErrorText(PathError(paths[k], read, chat))))
  {
    ReviewPathsFirstFailure(paths, read, chat, k);
    RunStepWrapsError(paths, read, chat, PathError(paths[k], read, chat));
  }

  /** An error of the loop reaches the caller as a 500 carrying its text. */
  lemma RunStepWrapsError(paths: seq<string>, read: string -> Result<string, string>,
                          chat: string -> Result<string, string>, e: HttpError)
    requires |paths| > 0 && ReviewPaths(paths, read, chat) == Err(e)
    ensures RunStep(Some(paths), read, chat) == Err(HttpError(500, ErrorText(e)))
  {
  }
}
