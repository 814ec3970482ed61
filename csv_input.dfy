/**
 * parseCSV: the texts of an uploaded CSV file, one per non-blank data line,
 * taken from the first column whose header mentions "text", "content" or
 * "message". The split is naive: a comma inside quotes still separates cells.
 */
module CsvInput {
  import opened Common
  import opened JsString

  /** Why parseCSV throws. */
  datatype CsvError =
    | NoHeaderLine       // no non-blank line at all: reading lines[0] throws a TypeError
    | MissingTextColumn  // no header cell names a text column

  predicate IsNonBlank(line: string)
  {
    Trim(line) != ""
  }

  predicate IsNonEmpty(text: string)
  {
    text != ""
  }

  /** The lines of the file (split on line feeds) that are not all whitespace, in file order. */
  function NonBlankLines(csv: string): (r: seq<string>)
    ensures |r| <= |Split(csv, '\n')|
    ensures forall line :: line in r ==> Trim(line) != "" && '\n' !in line
  {
    Filter(IsNonBlank, Split(csv, '\n'))
  }

  /** The header cells, each trimmed and lower-cased. */
  function Headers(headerLine: string): (r: seq<string>)
    ensures |r| == |Split(headerLine, ',')|
  {
    var cells := Split(headerLine, ',');
    seq(|cells|, i requires 0 <= i < |cells| => ToLower(Trim(cells[i])))
  }

  predicate IsTextHeader(header: string)
  {
    Contains(header, "text") || Contains(header, "content") || Contains(header, "message")
  }

  /** findIndex over the headers: the position of the first text-column header, if there is one. */
  function FindTextColumn(headers: seq<string>): (r: Option<nat>)
    ensures r.Some? ==> r.value < |headers| && IsTextHeader(headers[r.value])
    ensures r.Some? ==> forall j :: 0 <= j < r.value ==> !IsTextHeader(headers[j])
    ensures r.None? <==> forall j :: 0 <= j < |headers| ==> !IsTextHeader(headers[j])
  {
    if headers == [] then None
    else if IsTextHeader(headers[0]) then Some(0)
    else match FindTextColumn(headers[1..])
      case None =>
        assert forall j :: 1 <= j < |headers| ==> headers[j] == headers[1..][j - 1];
        None
      case Some(i) =>
        assert forall j :: 1 <= j <= i ==> headers[j] == headers[1..][j - 1];
        Some(i + 1)
  }

  /** .replace(/^"|"$/g, ''): drops one double quote at the front and one at the end, where present. */
  function StripQuotes(t: string): (r: string)
    ensures forall c :: c in r ==> c in t
  {
    var u := if |t| > 0 && t[0] == '"' then t[1..] else t;
    if |u| > 0 && u[|u| - 1] == '"' then u[..|u| - 1] else u
  }

  /** A field written between quotes comes back as it was. */
  lemma StripQuotesUnwraps(s: string)
    ensures StripQuotes("\"" + s + "\"") == s
  {
  }

  /**
   * What the regex removes, case by case: a quote at the front and one at
   * the end when both are there, only the one present when there is one
   * (the naive comma split leaves `"hello` and ` world"` from `"hello, world"`),
   * nothing when there is none. So at most one character goes at each end.
   */
  lemma StripQuotesCases(t: string)
    ensures |t| >= 2 && t[0] == '"' && t[|t| - 1] == '"' ==> StripQuotes(t) == t[1..|t| - 1]
    ensures |t| >= 1 && t[0] == '"' && !(|t| >= 2 && t[|t| - 1] == '"') ==> StripQuotes(t) == t[1..]
    ensures |t| >= 1 && t[0] != '"' && t[|t| - 1] == '"' ==> StripQuotes(t) == t[..|t| - 1]
    ensures (t == [] || (t[0] != '"' && t[|t| - 1] != '"')) ==> StripQuotes(t) == t
    ensures StripQuotes("\"") == "" && StripQuotes("\"\"") == ""
    ensures |t| <= |StripQuotes(t)| + 2
  {
  }

  /** The pieces the naive split makes of a quoted field holding a comma lose their one quote each. */
  lemma StripQuotesOneSided(s: string)
    ensures StripQuotes("\"" + s) == (if s != [] && s[|s| - 1] == '"' then s[..|s| - 1] else s)
    ensures s == [] || s[0] != '"' ==> StripQuotes(s + "\"") == s
  {
  }

  /**
   * The cell of one data line in the chosen column, trimmed and unquoted.
   * A line with too few columns gives "" (columns[i] is undefined there).
   */
  function CellOf(line: string, column: nat): (r: string)
    ensures column >= |Split(line, ',')| ==> r == ""
    ensures ',' !in r
    ensures forall c :: c in r ==> c in line
  {
    var cols := Split(line, ',');
    if column < |cols| then
      var cell := cols[column];
      SplitKeepsChars(line, ',', column);
      TrimKeepsChars(cell);
      StripQuotes(Trim(cell))
    else ""
  }

  function Cells(dataLines: seq<string>, column: nat): (r: seq<string>)
    ensures |r| == |dataLines|
    ensures forall i :: 0 <= i < |r| ==> r[i] == CellOf(dataLines[i], column)
  {
    seq(|dataLines|, i requires 0 <= i < |dataLines| => CellOf(dataLines[i], column))
  }

  /**
   * parseCSV: the first non-blank line is the header; an error when there is
   * no such line or no header names a text column; otherwise the non-empty
   * cells of the remaining non-blank lines in the first text column.
   */
  function ParseCsv(csv: string): (r: Result<seq<string>, CsvError>)
    ensures r == Err(NoHeaderLine) <==> NonBlankLines(csv) == []
    ensures r == Err(MissingTextColumn) <==>
      NonBlankLines(csv) != [] &&
      forall j :: 0 <= j < |Headers(NonBlankLines(csv)[0])| ==> !IsTextHeader(Headers(NonBlankLines(csv)[0])[j])
    ensures r.Ok? ==> NonBlankLines(csv) != [] && FindTextColumn(Headers(NonBlankLines(csv)[0])).Some?
    ensures r.Ok? ==> |r.value| <= |NonBlankLines(csv)| - 1
    ensures r.Ok? ==> forall t :: t in r.value ==> t != "" && ',' !in t && '\n' !in t
  {
    var lines := NonBlankLines(csv);
    if lines == [] then Err(NoHeaderLine)
    else match FindTextColumn(Headers(lines[0]))
      case None => Err(MissingTextColumn)
      case Some(column) =>
        var cells := Cells(lines[1..], column);
        assert forall t :: t in cells ==> '\n' !in t by {
          forall t | t in cells ensures '\n' !in t {
            var i :| 0 <= i < |cells| && cells[i] == t;
            assert lines[1..][i] in lines;
          }
        }
        Ok(Filter(IsNonEmpty, cells))
  }

  /**
   * What parseCSV returns, line by line: the j-th text is the cell of data
   * line ix[j] (the non-blank lines after the header, counted from 0) in the
   * first text column, the lines are taken in file order, and every data
   * line whose cell is non-empty contributes its cell.
   */
  lemma ParseCsvSelects(csv: string) returns (ix: seq<nat>)
    requires ParseCsv(csv).Ok?
    ensures
      var lines, texts := NonBlankLines(csv), ParseCsv(csv).value;
      var data, column := lines[1..], FindTextColumn(Headers(lines[0])).value;
      && |ix| == |texts|
      && (forall j :: 0 <= j < |ix| ==> ix[j] < |data| && texts[j] == CellOf(data[ix[j]], column))
      && (forall j, k :: 0 <= j < k < |ix| ==> ix[j] < ix[k])
      && (forall i :: 0 <= i < |data| && CellOf(data[i], column) != "" ==> i in ix)
  {
    var lines := NonBlankLines(csv);
    var data, column := lines[1..], FindTextColumn(Headers(lines[0])).value;
    var cells := Cells(data, column);
    assert ParseCsv(csv).value == Filter(IsNonEmpty, cells);
    var keep := IsNonEmpty;
    ix := FilterSelects(keep, cells);
    forall i | 0 <= i < |data| && CellOf(data[i], column) != ""
      ensures i in ix
    {
      assert keep(cells[i]);
    }
  }
}
