/**
 * The state the App component keeps for batches and history, and the
 * handlers that update it: handleFileUpload, saveToHistory and clearHistory.
 */
module App {
  import opened Common
  import opened Batch
  import History

  class AppState {
    var batchResults: seq<BatchResult>
    var error: Option<string>
    var isBatchProcessing: bool
    var analysisHistory: seq<History.HistoryItem>

    /** The initial state; savedHistory is the list local storage held, or [] when it held none. */
    constructor (savedHistory: seq<History.HistoryItem>)
      ensures batchResults == [] && error == None && !isBatchProcessing
      ensures analysisHistory == savedHistory
    {
      batchResults, error, isBatchProcessing := [], None, false;
      analysisHistory := savedHistory;
    }

    /**
     * handleFileUpload. An oversized file only sets the error message and
     * leaves the previous results on screen; any other upload clears them,
     * ends with processing switched off, and shows either the new results or
     * the message of the error that stopped it.
     */
    method HandleFileUpload(fileSize: nat, csv: string, call: (nat, string) -> ApiReply)
      modifies this
      ensures analysisHistory == old(analysisHistory)
      ensures fileSize > MaxFileSize ==>
        && batchResults == old(batchResults)
        && isBatchProcessing == old(isBatchProcessing)
        && error == Some(Message(FileTooLarge))
      ensures fileSize <= MaxFileSize ==>
        && !isBatchProcessing
        && match Expected(fileSize, csv, call)
           case Ok(results) => batchResults == results && error == None
           case Err(e) => batchResults == [] && error == Some(Message(e))
    {
      if fileSize > MaxFileSize {
        error := Some(Message(FileTooLarge));
        return;
      }
      isBatchProcessing := true;
      error := None;
      batchResults := [];
      var outcome;
      ghost var chunks;
      outcome, chunks := RunBatch(fileSize, csv, call);
      match outcome {
        case Ok(results) =>
          batchResults := results;
        case Err(e) =>
          error := Some(Message(e));
      }
      isBatchProcessing := false;
    }

    /** saveToHistory: the new item goes to the front; at most 50 entries are kept. */
    method SaveToHistory(text: string, results: seq<Score>, timestamp: int)
      modifies this`analysisHistory
      ensures analysisHistory == History.Saved(old(analysisHistory), History.MakeItem(text, results, timestamp))
      ensures |old(analysisHistory)| <= History.MaxEntries ==> |analysisHistory| <= History.MaxEntries
    {
      var item := History.MakeItem(text, results, timestamp);
      analysisHistory := History.Saved(analysisHistory, item);
    }

    /** clearHistory. */
    method ClearHistory()
      modifies this`analysisHistory
      ensures analysisHistory == []
    {
      analysisHistory := [];
    }
  }
}
