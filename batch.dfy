/**
 * The work of handleFileUpload: size and count checks around parseCSV, then
 * the texts sent to the remote classifier in chunks of five, one result per
 * text appended in input order. The classifier itself is outside the model:
 * `call(k, text)` is whatever the request for the k-th text came back with.
 */
module Batch {
  import opened Common
  import CsvInput

  const MaxFileSize: nat := 5 * 1024 * 1024
  const MaxTexts: nat := 100
  const ChunkSize: nat := 5

  /** One {label, score} entry of the classifier's answer (`label` is a keyword in Dafny, hence `name`). */
  datatype Score = Score(name: string, score: real)

  /**
   * What one classification request came to: the scores of the answer's
   * first list, best first (result[0][0] is `top`), or the message of the
   * error thrown on the way (a non-ok HTTP status, a network failure, a body
   * of the wrong shape).
   */
  datatype ApiReply = Reply(top: Score, others: seq<Score>) | Failed(message: string)

  /** One entry of the batch results. */
  datatype BatchResult = BatchResult(text: string, sentiment: Score, allScores: seq<Score>, error: Option<string>)

  /** Why an upload produced no results. */
  datatype UploadError = FileTooLarge | BadCsv(reason: CsvInput.CsvError) | NoValidText | TooManyTexts

  /** The message shown for each rejection. */
  function Message(e: UploadError): string
  {
    match e
    case FileTooLarge => "File size must be less than 5MB"
    case BadCsv(MissingTextColumn) => "CSV must contain a column named \"text\", \"content\", or \"message\""
    case BadCsv(NoHeaderLine) => "Cannot read properties of undefined (reading 'split')"
    case NoValidText => "No valid text found in CSV file"
    case TooManyTexts => "Maximum 100 texts allowed per batch"
  }

  /** The score recorded for a text whose request failed. */
  const ErrorScore := Score("ERROR", 0.0)

  /**
   * The record kept for one text: its reply's scores, or, when the request
   * failed, the fixed ERROR score with no scores and the error message.
   */
  function ResultFor(text: string, reply: ApiReply): (r: BatchResult)
    ensures r.text == text
    ensures r.error.Some? <==> reply.Failed?
    ensures r.allScores == [] <==> reply.Failed?
    ensures r.allScores != [] ==> r.sentiment == r.allScores[0]
    ensures r.allScores == [] ==> r.sentiment == ErrorScore
    ensures reply.Reply? ==> r.sentiment == reply.top && r.allScores == [reply.top] + reply.others && r.error == None
    ensures reply.Failed? ==> r.error == Some(reply.message)
  {
    match reply
    case Reply(top, others) => BatchResult(text, top, [top] + others, None)
    case Failed(message) => BatchResult(text, ErrorScore, [], Some(message))
  }

  /**
   * The outcome of an upload: a rejection, checked in the order the handler
   * checks, or the result for each parsed text at its own position.
   */
  function Expected(fileSize: nat, csv: string, call: (nat, string) -> ApiReply): Result<seq<BatchResult>, UploadError>
  {
    if fileSize > MaxFileSize then Err(FileTooLarge)
    else match CsvInput.ParseCsv(csv)
      case Err(e) => Err(BadCsv(e))
      case Ok(texts) =>
        if |texts| == 0 then Err(NoValidText)
        else if |texts| > MaxTexts then Err(TooManyTexts)
        else Ok(ResultsFor(texts, call))
  }

  /** The result for each text, each from the reply to its own request. */
  function ResultsFor(texts: seq<string>, call: (nat, string) -> ApiReply): (r: seq<BatchResult>)
    ensures |r| == |texts|
    ensures forall k :: 0 <= k < |texts| ==> r[k] == ResultFor(texts[k], call(k, texts[k]))
  {
    seq(|texts|, k requires 0 <= k < |texts| => ResultFor(texts[k], call(k, texts[k])))
  }

  /** An upload is rejected exactly for an oversized file, a CSV parseCSV refuses, or a text count outside 1..100. */
  lemma ExpectedRejects(fileSize: nat, csv: string, call: (nat, string) -> ApiReply)
    ensures Expected(fileSize, csv, call).Err? <==>
      fileSize > MaxFileSize
      || CsvInput.ParseCsv(csv).Err?
      || |CsvInput.ParseCsv(csv).value| == 0
      || |CsvInput.ParseCsv(csv).value| > MaxTexts
    ensures fileSize > MaxFileSize ==> Expected(fileSize, csv, call) == Err(FileTooLarge)
  {
  }

  /**
   * An accepted upload has one result per text, in input order, carrying that
   * text; a failed request leaves an ERROR record in its place and every
   * other text still gets its own result.
   */
  lemma ExpectedCovers(fileSize: nat, csv: string, call: (nat, string) -> ApiReply)
    requires Expected(fileSize, csv, call).Ok?
    ensures CsvInput.ParseCsv(csv).Ok?
    ensures
      var texts, results := CsvInput.ParseCsv(csv).value, Expected(fileSize, csv, call).value;
      && 1 <= |results| == |texts| <= MaxTexts
      && Texts(results) == texts
      && (forall k :: 0 <= k < |texts| && call(k, texts[k]).Failed? ==>
            results[k].sentiment == ErrorScore && results[k].allScores == []
            && results[k].error == Some(call(k, texts[k]).message))
      && (forall k :: 0 <= k < |texts| && call(k, texts[k]).Reply? ==>
            results[k].sentiment == call(k, texts[k]).top && results[k].error == None)
  {
  }

  /** The texts of the results, in order. */
  function Texts(results: seq<BatchResult>): (r: seq<string>)
    ensures |r| == |results|
  {
    seq(|results|, k requires 0 <= k < |results| => results[k].text)
  }

  /** The number of chunks a batch of n texts is sent in. */
  function ChunkCount(n: nat): nat
  {
    (n + ChunkSize - 1) / ChunkSize
  }

  /** The positions [lo, hi) of the j-th chunk of a batch of n texts. */
  function Chunk(j: nat, n: nat): (nat, nat)
  {
    (ChunkSize * j, Min(ChunkSize * j + ChunkSize, n))
  }

  /**
   * The chunks of a batch cover every position exactly once, each chunk
   * holding between one and five texts.
   */
  lemma {:induction false} ChunksPartition(n: nat, k: nat)
    requires k < n
    ensures var j := k / ChunkSize; j < ChunkCount(n) && Chunk(j, n).0 <= k < Chunk(j, n).1
    ensures forall j :: 0 <= j < ChunkCount(n) && Chunk(j, n).0 <= k < Chunk(j, n).1 ==> j == k / ChunkSize
    ensures forall j :: 0 <= j < ChunkCount(n) ==> 1 <= Chunk(j, n).1 - Chunk(j, n).0 <= ChunkSize
  {
  }

  /**
   * The loop of handleFileUpload: the texts taken five at a time, the
   * replies of each chunk appended to the results. `chunks` records the
   * positions each round sent.
   */
  method ClassifyInChunks(texts: seq<string>, call: (nat, string) -> ApiReply)
    returns (results: seq<BatchResult>, ghost chunks: seq<(nat, nat)>)
    ensures |results| == |texts|
    ensures forall k :: 0 <= k < |texts| ==> results[k] == ResultFor(texts[k], call(k, texts[k]))
    ensures |chunks| == ChunkCount(|texts|)
    ensures forall j :: 0 <= j < |chunks| ==> chunks[j] == Chunk(j, |texts|)
  {
    var n := |texts|;
    results, chunks := [], [];
    var i := 0;
    while i < n
      invariant i == ChunkSize * |chunks| && i < n + ChunkSize
      invariant |results| == Min(i, n)
      invariant forall k :: 0 <= k < |results| ==> results[k] == ResultFor(texts[k], call(k, texts[k]))
      invariant forall j :: 0 <= j < |chunks| ==> chunks[j] == Chunk(j, n)
    {
      var hi := Min(i + ChunkSize, n);
      var batch := texts[i..hi];
      var batchResults := seq(|batch|, j requires 0 <= j < |batch| => ResultFor(batch[j], call(i + j, batch[j])));
      results := results + batchResults;
      chunks := chunks + [(i, hi)];
      i := i + ChunkSize;
    }
  }

  /**
   * handleFileUpload's work: the checks in the handler's order, then the
   * chunked loop. No request is sent when the upload is rejected.
   */
  method RunBatch(fileSize: nat, csv: string, call: (nat, string) -> ApiReply)
    returns (r: Result<seq<BatchResult>, UploadError>, ghost chunks: seq<(nat, nat)>)
    ensures r == Expected(fileSize, csv, call)
    ensures r.Err? ==> chunks == []
    ensures r.Ok? ==> |chunks| == ChunkCount(|r.value|)
    ensures r.Ok? ==> forall j :: 0 <= j < |chunks| ==> chunks[j] == Chunk(j, |r.value|)
  {
    chunks := [];
    if fileSize > MaxFileSize {
      r := Err(FileTooLarge);
      return;
    }
    var parsed := CsvInput.ParseCsv(csv);
    if parsed.Err? {
      r := Err(BadCsv(parsed.error));
      return;
    }
    var texts := parsed.value;
    if |texts| == 0 {
      r := Err(NoValidText);
      return;
    }
    if |texts| > MaxTexts {
      r := Err(TooManyTexts);
      return;
    }
    var results;
    results, chunks := ClassifyInChunks(texts, call);
    assert results == ResultsFor(texts, call);
    r := Ok(results);
  }
}
