# Sentiment analyzer: the batch pipeline of `App.jsx`, modelled in Dafny

The application is a React page that sends text to a hosted sentiment
classifier and shows the labels that come back. Its logic lives in
`src/App.jsx` and has five parts:

1. `parseCSV` reads an uploaded CSV file. It drops blank lines and takes the
   first header that mentions `text`, `content` or `message`. It returns that
   column's non-empty cells, trimmed and with one leading and one trailing double quote removed where
   present.
2. `handleFileUpload` checks the file. The file must be at most 5 MB, the
   CSV must parse, and there must be between 1 and 100 texts. It then sends
   the texts to the classifier five at a time and appends one result per text
   in input order. A request that fails leaves an `ERROR` record and does not
   stop the batch.
3. `saveToHistory` puts a new analysis at the front of the history and keeps
   at most 50 entries. `clearHistory` empties the history.
4. `downloadBatchResults` writes the results as CSV. The text field is quoted,
   and each inner double quote is doubled (RFC 4180, section 2, rule 7).
5. `getSentimentColor` and `getSentimentBg` are a three-way classifier over
   labels. A label is positive if it mentions "positive" in any letter case.
   Otherwise it is negative if it mentions "negative". Otherwise it is neutral.

The application does no scoring of its own. Every label and score comes from
the remote model.
`parseCSV` throws unless some header mentions `text`, `content` or
`message`; there is no fallback column.

Modules:

- **`JsString`** (`jsstring.dfy`): the JavaScript string and array operations
  the code uses, as functions on `seq<char>`: `trim`, `toLowerCase`,
  `includes`, `split`, `join` and `filter`. Lemmas state what
  each one means.
- **`CsvInput`** (`csv_input.dfy`): `parseCSV` as a pure function that
  returns a `Result`. The error cases are modelled, not excluded.
- **`Batch`** (`batch.dfy`): handleFileUpload's work.
  - The classifier is a parameter `call: (nat, string) -> ApiReply`:
    `call(k, text)` is whatever the request for the k-th text returned.
  - `Expected` is the specification of an upload's outcome.
  - `RunBatch` and `ClassifyInChunks` are the imperative checks and the
    chunked loop. Each is proved against `Expected`.
- **`History`** (`history.dfy`): the bounded history list.
- **`CsvExport`** (`csv_export.dfy`): the exported file, with a reader for
  quoted fields that undoes the escaping.
- **`SentimentStyle`** (`sentiment_style.dfy`): the colour and background
  classifier.
- **`App`** (`app.dfy`): the component state that these handlers update, as a
  class.

## Model

| member | source | states |
|---|---|---|
| JsString.TrimSpec | src/App.jsx:45-46 | trim() removes exactly a whitespace run at each end. The result is a contiguous part of the input that neither starts nor ends with whitespace. It is empty exactly when the input is all whitespace, which is the blank-line test of line 45. |
| JsString.TrimKeepsChars | src/App.jsx:58 | trim() introduces no characters. |
| JsString.LowerIdempotent | src/App.jsx:215 | Lower-casing twice is the same as lower-casing once. |
| JsString.ContainsIffOccurs | src/App.jsx:48-50 | includes(p) holds exactly when p occurs at some position, in both directions. |
| JsString.ContainsInfix | src/App.jsx:216 | A string includes every piece it was built around. |
| JsString.Split | src/App.jsx:57 | split(sep) yields at least one piece, and no piece contains the separator. |
| JsString.SplitKeepsChars | src/App.jsx:57 | Every piece of a split is made of characters of the split string. |
| JsString.JoinSplit | src/App.jsx:45 | Splitting on a separator loses nothing: joining the pieces with it gives the original string. |
| JsString.SplitJoin | src/App.jsx:143-151 | Joining separator-free pieces and splitting again gives back exactly those pieces. |
| JsString.Filter | src/App.jsx:59 | filter's result is no longer than its input and holds only accepted elements of the input. |
| JsString.FilterSelects | src/App.jsx:45 | filter's result is the input's subsequence at strictly increasing positions ix. Every accepted position is among them. |
| CsvInput.NonBlankLines | src/App.jsx:45 | There are no more kept lines than lines in the file. None holds a line feed, and none is blank after trimming. |
| CsvInput.FindTextColumn | src/App.jsx:48-50 | findIndex over `Headers`, the header cells trimmed and lower-cased (line 46): the result is the first header that mentions text, content or message. It is None exactly when no header does. |
| CsvInput.StripQuotesUnwraps | src/App.jsx:58 | Removing a field's surrounding quotes gives the field back. |
| CsvInput.StripQuotesCases | src/App.jsx:58 | The regex drops a quote at the front and one at the end when both are there, only the one present when there is one, and nothing otherwise. A lone quote or `""` becomes empty. At most two characters are removed. |
| CsvInput.StripQuotesOneSided | src/App.jsx:57-58 | The halves the naive comma split makes of a quoted field, such as `"hello` and ` world"`, each lose their single quote and nothing else. |
| CsvInput.CellOf | src/App.jsx:56-58 | A line with too few columns gives "". A cell never contains a comma and uses only characters of its line. |
| CsvInput.ParseCsv | src/App.jsx:44-60 | The result is a NoHeaderLine error exactly when every line is blank. It is a missing-column error exactly when no header cell names a text column. Otherwise there are at most (non-blank lines − 1) texts, each non-empty and without a comma or line feed. |
| CsvInput.ParseCsvSelects | src/App.jsx:56-59 | The j-th text is the cell of data line ix[j] in the chosen column. Lines are taken in file order, and every data line with a non-empty cell contributes it. |
| Batch.ResultFor | src/App.jsx:104-121 | A result always carries its own text. A successful reply gives its top score as the sentiment, its whole score list as allScores, and no error. A failed request gives sentiment ERROR/0, no scores and the error's message. |
| Batch.ExpectedRejects | src/App.jsx:63-83 | An upload is rejected exactly when the file exceeds 5 MB, parseCSV throws, or the text count is 0 or over 100. An oversized file is always rejected as such. |
| Batch.ExpectedCovers | src/App.jsx:85-131 | An accepted upload has 1 to 100 results, one per text, in input order, each carrying its text. A failed request yields an ERROR record with its message, and a successful one yields its top score. |
| Batch.ChunksPartition | src/App.jsx:88-89 | The slices i..i+5 cover every position exactly once, and each holds 1 to 5 texts. |
| Batch.ClassifyInChunks | src/App.jsx:85-131 | The `i += 5` loop yields, at every position k, the result for text k and its own reply. Its ghost log has ⌈n/5⌉ entries, and entry j is positions 5j up to min(5j+5, n). |
| Batch.RunBatch | src/App.jsx:63-139 | The handler's work equals `Expected` for every input. Its ghost log is empty for a rejected upload and is the chunk layout for an accepted one. A rejection does not depend on `call` (ExpectedRejects). |
| History.Saved | src/App.jsx:38 | The new item comes first, followed by the old entries in order. The length is min(old + 1, 50). |
| History.SavedAllKeepsNewest | src/App.jsx:38 | After any series of saves the history is the saved items newest first, then the older history, cut to 50. |
| CsvExport.EscapeKeepsChars | src/App.jsx:146 | Escaping adds only quote characters. |
| CsvExport.Quote | src/App.jsx:146 | The text field starts and ends with a double quote. |
| CsvExport.ReadEscapedInverts | src/App.jsx:146 | Reading an escaped text up to its closing quote, undoubling quotes, gives the text and the untouched remainder. |
| CsvExport.QuoteRoundTrip | src/App.jsx:146 | Reading a quoted field gives back the original text, provided what follows does not start with a quote. |
| CsvExport.Row | src/App.jsx:145-150 | A row is the quoted text followed by `,label,percent,"all scores"`. |
| CsvExport.RowTextReadsBack | src/App.jsx:145-150 | The first field of every exported row reads back as that result's text. |
| CsvExport.RowIsOneLine | src/App.jsx:145-150 | A row holds no line feed when its text, labels and percentages hold none. |
| CsvExport.ExportLines | src/App.jsx:143-151 | The exported file splits on line feeds into exactly the header followed by one row per result, in order. |
| SentimentStyle.MentionsIffContains | src/App.jsx:215-216 | includes on the lower-cased label holds exactly when the word occurs in the label, ignoring letter case. |
| SentimentStyle.ToneSpec | src/App.jsx:214-233 | The label gets exactly one tone. It is positive exactly when "positive" is mentioned, even alongside "negative". It is negative exactly when only "negative" is mentioned, and neutral when neither is. Colour and background always name the same tone. |
| SentimentStyle.PositiveWins | src/App.jsx:216 | Any label containing "positive" in any case is shown as positive. |
| SentimentStyle.CaseDoesNotMatter | src/App.jsx:215 | Lower-casing a label first does not change how it is shown. |
| SentimentStyle.ErrorIsNeutral | src/App.jsx:117 | The label of the ERROR score that a failed request leaves is shown in the neutral colours. |
| App.AppState.constructor | src/App.jsx:10-17 | The page starts with no results, no error, processing off and the stored history. |
| App.AppState.HandleFileUpload | src/App.jsx:63-139 | An oversized file only sets its message and keeps the results shown. Any other upload ends with processing off and either the new results and no error, or no results and the message of the error that stopped it. The history is untouched. The messages are those of `Batch.Message` (lines 53, 65, 78 and 82). |
| App.AppState.SaveToHistory | src/App.jsx:30-41 | The history becomes `Saved(old history, item)`, so a bound of 50 is preserved. |
| App.AppState.ClearHistory | src/App.jsx:254-257 | The history becomes empty. |

## Left out

- The HTTP request to the hosted model, the API token and the response JSON are not modelled. The parameter `call` stands for them, and `ApiReply.Failed` covers every way a request can throw: a non-ok status, a network error, or a body of the wrong shape.
- A classifier answer whose first list is empty is not modelled: `ApiReply.Reply` always has a top score. In the code such an answer gives an undefined sentiment and no error.
- Batch.ClassifyInChunks: the five requests of a chunk are concurrent in the code (`Promise.all`) and sequential in the model. Results are placed by position either way, so the outcome is the same.
- The one-second pause between chunks is timing only and is not modelled.
- App.AppState.HandleFileUpload: only the final state is stated. The intermediate state, with processing on and results cleared, is not observable without concurrency.
- The NoHeaderLine message is the V8 engine's TypeError text. With no non-blank line, `lines[0]` is undefined, and reading its `split` throws (line 46). Other engines word the message differently.
- `file.text()` decoding is not modelled; the file arrives as a string. JavaScript strings are UTF-16 code units, while Dafny characters are Unicode scalar values.
- JsString.ToLower: only ASCII letters change. The code's `toLowerCase` also maps non-ASCII letters.
- `Math.round(score * 100) + '%'` is the parameter `percent`, and scores are reals rather than IEEE doubles.
- `Date.now()` becomes the `timestamp` parameter of SaveToHistory.
- The localStorage read, write and remove, and the JSON encoding of the history, are left out. The constructor takes the stored list as `savedHistory`.
- The Blob, object URL and file name of the download are left out; only the file's content is modelled.
- `analyzeSentiment` (lines 162-212), the single-text request, is left out apart from the `saveToHistory` call it makes.
- `getSentimentIcon` and `getAllSentimentColors` return JSX and annotated copies. They use the same rule as `SentimentStyle.ToneOf` and are not modelled separately.
- `handleSampleClick`, `handleSelectFromHistory`, the rendering, and the files under `src/components/` and `src/routes/` are UI and are not modelled.
