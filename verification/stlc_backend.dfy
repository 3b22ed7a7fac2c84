/** The document service of ornek_backend/backend.py: extension dispatch
    for text extraction, the retry wrapper around the language-model call,
    and the `/upload` handler's checks, aggregation and prompt truncation.

    The PDF, DOCX and UTF-8 extractors are parameters. So are the system
    message file, the retrieval step and each model attempt. Retrieval
    covers splitting, embedding and the similarity search; it gives back
    the contents of the relevant chunks. */
module StlcBackend {
  import opened Wrappers
  import opened Strings
  import opened Words
  import opened Paths
  import opened Http
  import TextSplitter

  const ModelIdentifier: string := "llama-3.2-3b-instruct"

  type Bytes = seq<bv8>

  // ---------------------------------------------------------------------
  // Text extraction

  /** Which extractor `extract_text` picks. */
  datatype DocKind = Pdf | Docx | Txt | Unsupported

  /** The extractor for a lower-cased extension. */
  function ExtensionKind(ext: string): DocKind {
    if ext == ".pdf" then Pdf
    else if ext == ".docx" then Docx
    else if ext == ".txt" then Txt
    else Unsupported
  }

  /** Dispatch on `os.path.splitext(filename)[1].lower()`. */
  function KindOf(filename: string): DocKind {
    ExtensionKind(Lower(Extension(filename)))
  }

  /** The three format readers (`pdf_to_text`, `docx_to_text`,
      `txt_to_text`); each already turns its own failure into "". */
  datatype Extractors = Extractors(pdf: Bytes -> string, docx: Bytes -> string, txt: Bytes -> string)

  datatype Doc = Doc(filename: string, content: Bytes)

  /** `extract_text(upload_file)`. */
  function ExtractText(d: Doc, x: Extractors): (r: string)
    ensures KindOf(d.filename) == Unsupported ==> r == ""
    ensures KindOf(d.filename) == Pdf ==> r == x.pdf(d.content)
    ensures KindOf(d.filename) == Docx ==> r == x.docx(d.content)
    ensures KindOf(d.filename) == Txt ==> r == x.txt(d.content)
  {
    match KindOf(d.filename)
    case Pdf => x.pdf(d.content)
    case Docx => x.docx(d.content)
    case Txt => x.txt(d.content)
    case Unsupported => ""
  }

  /** Only what follows the last dot decides, and its letter case does not
      matter. */
  lemma KindOfDotted(stem: string, ext: string)
    requires '/' !in stem && '/' !in ext && '.' !in ext && HasStem(stem, |stem|)
    ensures KindOf(stem + "." + ext) == ExtensionKind(Lower("." + ext))
  {
    ExtensionOfDotted(stem, ext);
  }

  /** Upper- and mixed-case spellings are recognised; other extensions are
      not. */
  lemma ExtensionKinds()
    ensures ExtensionKind(Lower(".PDF")) == Pdf && ExtensionKind(Lower(".pdf")) == Pdf
    ensures ExtensionKind(Lower(".Docx")) == Docx && ExtensionKind(Lower(".TXT")) == Txt
    ensures ExtensionKind(Lower(".doc")) == Unsupported
  {
    LowerUpperExtensions();
    LowerOfLower(".pdf");
    LowerOfLower(".doc");
  }

  /** A name without a dot yields no text. */
  lemma NoDotNoText(name: string, x: Extractors, content: Bytes)
    requires '/' !in name && '.' !in name
    ensures ExtractText(Doc(name, content), x) == ""
  {
    ExtensionWithoutDot(name);
  }

  // ---------------------------------------------------------------------
  // retry_invoke

  /** How `retry_invoke` ends: the first successful attempt's value, or the
      last attempt's exception. `Raised(None, 0)` is `raise None` when no
      attempt is made (`retries <= 0`), which Python reports as a
      `TypeError`. `calls` counts the attempts made. */
  datatype RetryOutcome = Returned(value: string, calls: nat) | Raised(error: Option<string>, calls: nat)

  /** Attempts from number `i` on, `last` being the exception caught in
      the attempt before. */
  function RetryFrom(attempt: nat -> Result<string, string>, retries: int, i: nat, last: Option<string>): RetryOutcome
    decreases retries - i
  {
    if i >= retries then Raised(last, i)
    else
      match attempt(i)
      case Ok(v) => Returned(v, i + 1)
      case Err(e) => RetryFrom(attempt, retries, i + 1, Some(e))
  }

  /** `retry_invoke(chain, inputs, retries)`, where `attempt(i)` is the
      outcome of the i-th `chain.invoke(inputs)`: at most `retries` calls;
      the first success is returned at once, so every earlier call failed;
      when every attempt fails the last exception is raised. */
  function Retry(attempt: nat -> Result<string, string>, retries: int): (r: RetryOutcome)
    ensures r.calls <= Max(retries, 0)
    ensures r.Returned? ==> r.calls >= 1 && attempt(r.calls - 1) == Ok(r.value)
    ensures forall j :: 0 <= j < r.calls - 1 ==> attempt(j).Err?
    ensures r.Raised? ==>
      (forall j :: 0 <= j < Max(retries, 0) ==> attempt(j).Err?) &&
      r.error == (if retries <= 0 then None else Some(attempt(retries - 1).error))
  {
    RetryFromSpec(attempt, retries, 0, None);
    RetryFrom(attempt, retries, 0, None)
  }

  lemma {:induction false} RetryFromSpec(attempt: nat -> Result<string, string>, retries: int, i: nat, last: Option<string>)
    requires forall j :: 0 <= j < i ==> attempt(j).Err?
    requires i > 0 ==> i <= retries && last == Some(attempt(i - 1).error)
    requires i == 0 ==> last == None
    ensures RetryFrom(attempt, retries, i, last).calls <= Max(retries, 0)
    ensures RetryFrom(attempt, retries, i, last).Returned? ==>
      RetryFrom(attempt, retries, i, last).calls >= 1 &&
      attempt(RetryFrom(attempt, retries, i, last).calls - 1) == Ok(RetryFrom(attempt, retries, i, last).value)
    ensures forall j :: 0 <= j < RetryFrom(attempt, retries, i, last).calls - 1 ==> attempt(j).Err?
    ensures RetryFrom(attempt, retries, i, last).Raised? ==>
      RetryFrom(attempt, retries, i, last).calls == Max(retries, 0) &&
      (forall j :: 0 <= j < Max(retries, 0) ==> attempt(j).Err?) &&
      RetryFrom(attempt, retries, i, last).error == (if retries <= 0 then None else Some(attempt(retries - 1).error))
    decreases retries - i
  {
    if i < retries && attempt(i).Err? {
      RetryFromSpec(attempt, retries, i + 1, Some(attempt(i).error));
    }
  }

  /** A success within the allowed attempts is always found. */
  lemma RetryFindsSuccess(attempt: nat -> Result<string, string>, retries: int, j: nat)
    requires j < retries && attempt(j).Ok?
    ensures Retry(attempt, retries).Returned?
    ensures Retry(attempt, retries).calls <= j + 1
  {
  }

  /** The first success, at index `j`, is what `retry_invoke` returns,
      after `j + 1` calls. */
  lemma RetryFirstSuccess(attempt: nat -> Result<string, string>, retries: int, j: nat)
    requires j < retries && attempt(j).Ok?
    requires forall i :: 0 <= i < j ==> attempt(i).Err?
    ensures Retry(attempt, retries) == Returned(attempt(j).value, j + 1)
  {
    RetryFindsSuccess(attempt, retries, j);
  }

  /** The loop as written: `for attempt in range(retries)`, returning the
      first success and remembering the last exception. */
  method RetryInvoke(attempt: nat -> Result<string, string>, retries: int) returns (r: RetryOutcome)
    ensures r == Retry(attempt, retries)
    ensures r.calls <= Max(retries, 0)
    ensures r.Returned? ==> r.calls >= 1 && attempt(r.calls - 1) == Ok(r.value)
    ensures forall j :: 0 <= j < r.calls - 1 ==> attempt(j).Err?
  {
    var last: Option<string> := None;
    var i: nat := 0;
    while i < retries
      invariant i <= Max(retries, 0)
      invariant forall j :: 0 <= j < i ==> attempt(j).Err?
      invariant i > 0 ==> last == Some(attempt(i - 1).error)
      invariant i == 0 ==> last == None
      invariant RetryFrom(attempt, retries, i, last) == Retry(attempt, retries)
      decreases retries - i
    {
      match attempt(i)
      case Ok(v) =>
        return Returned(v, i + 1);
      case Err(e) =>
        last := Some(e);
      i := i + 1;
    }
    r := Raised(last, i);
  }

  // ---------------------------------------------------------------------
  // /upload

  /** `aggregated_text`: each file's sanitised text followed by a blank
      line, in upload order. It keeps every word of every file, in order,
      and adds none. */
  function Aggregate(texts: seq<string>): (r: string)
    ensures SplitWords(r) == AllWords(texts)
    ensures |r| > 0 ==> IsSpace(r[|r| - 1])
  {
    if |texts| == 0 then ""
    else
      var a := Aggregate(texts[..|texts| - 1]);
      var s := Sanitize(texts[|texts| - 1]);
      BlankLineHasNoWords();
      SplitWordsAppend(a, s + "\n\n");
      SplitWordsAppend(s, "\n\n");
      a + (s + "\n\n")
  }

  /** The words of all texts, in order. */
  function AllWords(texts: seq<string>): seq<string> {
    if |texts| == 0 then [] else AllWords(texts[..|texts| - 1]) + SplitWords(texts[|texts| - 1])
  }

  lemma BlankLineHasNoWords()
    ensures SplitWords("\n\n") == []
    ensures IsSpace('\n')
  {
    assert "\n\n"[1..] == "\n";
    assert "\n"[1..] == "";
  }

  /** Only whitespace in every file. */
  predicate AllBlank(texts: seq<string>) {
    forall k :: 0 <= k < |texts| ==> AllSpace(texts[k])
  }

  lemma {:induction false} AllWordsEmptyIff(texts: seq<string>)
    ensures AllWords(texts) == [] <==> AllBlank(texts)
    decreases |texts|
  {
    if |texts| > 0 {
      var init := texts[..|texts| - 1];
      AllWordsEmptyIff(init);
      SplitWordsEmptyIff(texts[|texts| - 1]);
      assert AllBlank(texts) <==> AllBlank(init) && AllSpace(texts[|texts| - 1]) by {
        assert forall k :: 0 <= k < |init| ==> init[k] == texts[k];
      }
    }
  }

  /** `not aggregated_text.strip()` holds exactly when every file's text
      is whitespace only. */
  lemma AggregateBlankIff(texts: seq<string>)
    ensures AllSpace(Aggregate(texts)) <==> AllBlank(texts)
  {
    AllWordsEmptyIff(texts);
    SplitWordsEmptyIff(Aggregate(texts));
  }

  /** Sum of the files' token counts. */
  function TokenSum(texts: seq<string>): nat {
    if |texts| == 0 then 0 else TokenSum(texts[..|texts| - 1]) + CountTokens(texts[|texts| - 1])
  }

  lemma {:induction false} AllWordsCount(texts: seq<string>)
    ensures |AllWords(texts)| == TokenSum(texts)
    decreases |texts|
  {
    if |texts| > 0 {
      AllWordsCount(texts[..|texts| - 1]);
    }
  }

  /** The total token count is the sum over the files. */
  lemma AggregateTokens(texts: seq<string>)
    ensures CountTokens(Aggregate(texts)) == TokenSum(texts)
  {
    AllWordsCount(texts);
  }

  /** The warning for a total token count. */
  function TokenWarning(total: nat): (w: string)
    ensures w != "" <==> total > LlmTokenLimit
  {
    if total > LlmTokenLimit then
      "Uploaded documents' token count (" + NatToString(total) + ") exceeds the processing limit ("
        + NatToString(LlmTokenLimit) + "). Some content may be truncated."
    else ""
  }

  const PromptTail: string := "Based on these documents, create a detailed test plan."

  /** `combined_prompt`. */
  function CombinedPrompt(system: string, retrieved: string): string {
    system + "\n\n" + retrieved + "\n\n" + PromptTail
  }

  /** The combined prompt has the words of its three parts. */
  lemma CombinedPromptTokens(system: string, retrieved: string)
    ensures CountTokens(CombinedPrompt(system, retrieved))
      == CountTokens(system) + CountTokens(retrieved) + CountTokens(PromptTail)
  {
    BlankLineHasNoWords();
    var a := system + "\n\n";
    SplitWordsAppend(system, "\n\n");
    var b := a + retrieved;
    SplitWordsAppend(a, retrieved);
    var c := b + "\n\n";
    SplitWordsAppend(b, "\n\n");
    SplitWordsAppend(c, PromptTail);
  }

  /** The retrieved text after the length check: unchanged when the
      combined prompt fits; otherwise its leading words, as many as the
      budget `allowed` leaves (Python slice semantics, so a negative budget
      drops that many words from the end), joined by single spaces. */
  function Truncate(system: string, retrieved: string): (r: string)
    ensures CountTokens(CombinedPrompt(system, retrieved)) <= LlmTokenLimit ==> r == retrieved
    ensures CountTokens(CombinedPrompt(system, retrieved)) > LlmTokenLimit ==>
      var allowed := LlmTokenLimit - CountTokens(system) - 50;
      var n := CountTokens(retrieved);
      var kept := if allowed >= 0 then (if allowed < n then allowed else n)
                  else (if n + allowed > 0 then n + allowed else 0);
      SplitWords(r) == SplitWords(retrieved)[..kept] && Normalized(r)
  {
    if CountTokens(CombinedPrompt(system, retrieved)) > LlmTokenLimit then
      var allowed := LlmTokenLimit - CountTokens(system) - 50;
      var words := SplitWords(retrieved);
      var cut := words[..TextSplitter.SliceBound(allowed, |words|)];
      assert forall k :: 0 <= k < |cut| ==> IsWord(cut[k]) by {
        assert forall k :: 0 <= k < |cut| ==> cut[k] == words[k];
      }
      SplitWordsOfJoin(cut);
      JoinWordsNormalized(cut);
      Join(cut, " ")
    else retrieved
  }

  /** With room for the system message, the prompt sent never has more
      tokens than the limit; when the check truncated the text, it has at
      most the limit minus the 50-token buffer plus the closing sentence. */
  lemma TruncatedPromptFits(system: string, retrieved: string)
    requires CountTokens(system) + 50 <= LlmTokenLimit
    ensures CountTokens(CombinedPrompt(system, Truncate(system, retrieved))) <= LlmTokenLimit
    ensures CountTokens(CombinedPrompt(system, retrieved)) > LlmTokenLimit ==>
      CountTokens(CombinedPrompt(system, Truncate(system, retrieved))) <= LlmTokenLimit - 50 + CountTokens(PromptTail)
  {
    if CountTokens(CombinedPrompt(system, retrieved)) > LlmTokenLimit {
      CombinedPromptTokens(system, Truncate(system, retrieved));
      RunStartsAtMostHalf(PromptTail, false);
    }
  }

  datatype UploadResponse = UploadResponse(result: string, warning: string)

  /** The handler's collaborators: the extractors, the stripped content of
      system_message.txt (`None` when the file is missing), retrieval (split
      with a chunk size and an overlap, embed, take the best matches) for a
      text, and the outcome of the i-th model call for a
      system message and retrieved text. */
  datatype Services = Services(
    extract: Extractors,
    systemMessage: Option<string>,
    retrieve: (string, nat, nat) -> seq<string>,
    llm: (string, string, nat) -> Result<string, string>)

  const BadModelDetail: string := "Geçersiz model adı. Mevcut model: llama-3.2-3b-instruct"
  const NoTextDetail: string := "Yüklenen dosyalardan geçerli metin çıkarılamadı."
  const NoSystemDetail: string := "system_message.txt dosyası bulunamadı."
  const LlmFailedDetail: string := "LLM çağrısı sırasında hata meydana geldi."

  /** The `retries` argument of the model call. */
  const LlmRetries: int := 3

  /** The extracted text of every file, in upload order. */
  function Texts(docs: seq<Doc>, x: Extractors): (r: seq<string>)
    ensures |r| == |docs|
    ensures forall k :: 0 <= k < |docs| ==> r[k] == ExtractText(docs[k], x)
  {
    seq(|docs|, k requires 0 <= k < |docs| => ExtractText(docs[k], x))
  }

  /** The text the model is asked about: the retrieved chunks joined by
      blank lines, truncated to the token budget. */
  function PromptText(aggregated: string, system: string, sv: Services): string {
    Truncate(system, Join(sv.retrieve(aggregated, DetermineChunkSize(aggregated, BaseChunkSize, MinChunkSize), ChunkOverlap), "\n\n"))
  }

  /** The i-th `chain.invoke` with the system message and that text. */
  function Attempts(sv: Services, system: string, text: string): nat -> Result<string, string> {
    (i: nat) => sv.llm(system, text, i)
  }

  /** `upload_documents(files, model_name)`. */
  function UploadDocuments(docs: seq<Doc>, modelName: string, sv: Services): (r: Result<UploadResponse, HttpError>)
    ensures modelName != ModelIdentifier ==> r == Err(HttpError(400, BadModelDetail))
    ensures modelName == ModelIdentifier && AllBlank(Texts(docs, sv.extract)) ==> r == Err(HttpError(400, NoTextDetail))
    ensures r.Ok? ==> sv.systemMessage.Some? && !AllBlank(Texts(docs, sv.extract))
    ensures r.Ok? ==> (r.value.warning != "" <==> TokenSum(Texts(docs, sv.extract)) > LlmTokenLimit)
    ensures r.Err? ==> r.error.status == 400 || r.error.status == 500
  {
    if modelName != ModelIdentifier then Err(HttpError(400, BadModelDetail))
    else
      var texts := Texts(docs, sv.extract);
      var aggregated := Aggregate(texts);
      AggregateBlankIff(texts);
      AggregateTokens(texts);
      if AllSpace(aggregated) then Err(HttpError(400, NoTextDetail))
      else Respond(aggregated, sv)
  }

  /** The handler after the blank-text check: the token warning, the
      system message, retrieval, truncation and the model call. */
  function Respond(aggregated: string, sv: Services): (r: Result<UploadResponse, HttpError>)
    ensures sv.systemMessage.None? ==> r == Err(HttpError(400, NoSystemDetail))
    ensures r.Ok? ==> sv.systemMessage.Some? && r.value.warning == TokenWarning(CountTokens(aggregated))
    ensures r.Err? ==> r.error.status == 400 || r.error.status == 500
  {
    match sv.systemMessage
    case None => Err(HttpError(400, NoSystemDetail))
    case Some(system) =>
      match Retry(Attempts(sv, system, PromptText(aggregated, system, sv)), LlmRetries)
      case Raised(_, _) => Err(HttpError(500, LlmFailedDetail))
      case Returned(v, _) => Ok(UploadResponse(v, TokenWarning(CountTokens(aggregated))))
  }

  /** Past the checks, the reply is the first successful model answer. */
  lemma RespondAnswered(aggregated: string, sv: Services, j: nat)
    requires sv.systemMessage.Some? && j < LlmRetries
    requires forall i :: 0 <= i < j ==>
      sv.llm(sv.systemMessage.value, PromptText(aggregated, sv.systemMessage.value, sv), i).Err?
    requires sv.llm(sv.systemMessage.value, PromptText(aggregated, sv.systemMessage.value, sv), j).Ok?
    ensures Respond(aggregated, sv) == Ok(UploadResponse(
      sv.llm(sv.systemMessage.value, PromptText(aggregated, sv.systemMessage.value, sv), j).value,
      TokenWarning(CountTokens(aggregated))))
  {
    var system := sv.systemMessage.value;
    var text := PromptText(aggregated, system, sv);
    var attempt := Attempts(sv, system, text);
    assert forall i :: 0 <= i < j ==> attempt(i).Err? by {
      forall i | 0 <= i < j ensures attempt(i).Err? {
        assert attempt(i) == sv.llm(system, text, i);
      }
    }
    assert attempt(j) == sv.llm(system, text, j);
    RetryFirstSuccess(attempt, LlmRetries, j);
  }

  /** A request that passes every check is answered with the first
      successful model reply, alongside the token warning. */
  lemma UploadAnswered(docs: seq<Doc>, sv: Services, j: nat)
    requires sv.systemMessage.Some? && !AllBlank(Texts(docs, sv.extract))
    requires j < LlmRetries
    requires forall i :: 0 <= i < j ==>
      sv.llm(sv.systemMessage.value, PromptText(Aggregate(Texts(docs, sv.extract)), sv.systemMessage.value, sv), i).Err?
    requires sv.llm(sv.systemMessage.value, PromptText(Aggregate(Texts(docs, sv.extract)), sv.systemMessage.value, sv), j).Ok?
    ensures UploadDocuments(docs, ModelIdentifier, sv) == Ok(UploadResponse(
      sv.llm(sv.systemMessage.value, PromptText(Aggregate(Texts(docs, sv.extract)), sv.systemMessage.value, sv), j).value,
      TokenWarning(TokenSum(Texts(docs, sv.extract)))))
  {
    var texts := Texts(docs, sv.extract);
    AggregateBlankIff(texts);
    AggregateTokens(texts);
    RespondAnswered(Aggregate(texts), sv, j);
  }

  /** When all three model attempts fail the request ends in a 500. */
  lemma UploadModelFails(docs: seq<Doc>, sv: Services)
    requires sv.systemMessage.Some? && !AllBlank(Texts(docs, sv.extract))
    requires forall i :: 0 <= i < LlmRetries ==>
      sv.llm(sv.systemMessage.value, PromptText(Aggregate(Texts(docs, sv.extract)), sv.systemMessage.value, sv), i).Err?
    ensures UploadDocuments(docs, ModelIdentifier, sv) == Err(HttpError(500, LlmFailedDetail))
  {
    var texts := Texts(docs, sv.extract);
    var system := sv.systemMessage.value;
    var attempt := Attempts(sv, system, PromptText(Aggregate(texts), system, sv));
    AggregateBlankIff(texts);
  }
}
