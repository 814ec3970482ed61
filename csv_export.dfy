/**
 * downloadBatchResults, content part: a header line and one line per batch
 * result, joined by line feeds. The text field is written as a quoted field
 * with every inner double quote doubled (RFC 4180, section 2, rule 7), so a
 * reader that undoubles the quotes gets the text back.
 */
module CsvExport {
  import opened Common
  import opened JsString
  import opened Batch

  const HeaderLine := "Text,Sentiment,Confidence,All Scores"

  /** .replace(/"/g, '""'): every double quote doubled. */
  function Escape(t: string): (r: string)
    ensures |r| >= |t|
  {
    if t == [] then []
    else (if t[0] == '"' then "\"\"" else [t[0]]) + Escape(t[1..])
  }

  /** Escaping adds quote characters and nothing else. */
  lemma {:induction false} EscapeKeepsChars(t: string, c: char)
    requires c != '"' && c !in t
    ensures c !in Escape(t)
  {
    if t != [] {
      EscapeKeepsChars(t[1..], c);
    }
  }

  /** `"${text.replace(/"/g, '""')}"`: the quoted text field. */
  function Quote(t: string): (r: string)
    ensures |r| >= 2 && r[0] == '"' && r[|r| - 1] == '"'
  {
    "\"" + Escape(t) + "\""
  }

  /**
   * A reader for the inside of a quoted field, up to its closing quote: a
   * doubled quote stands for one quote. Gives the field's text and what
   * follows the closing quote, or None when the field is never closed.
   */
  function ReadEscaped(s: string): Option<(string, string)>
  {
    if s == [] then None
    else if s[0] == '"' then
      if |s| >= 2 && s[1] == '"' then
        match ReadEscaped(s[2..])
        case None => None
        case Some((t, rest)) => Some(("\"" + t, rest))
      else Some(("", s[1..]))
    else
      match ReadEscaped(s[1..])
      case None => None
      case Some((t, rest)) => Some(([s[0]] + t, rest))
  }

  /** A reader for a quoted field at the front of s. */
  function ReadQuoted(s: string): Option<(string, string)>
  {
    if |s| > 0 && s[0] == '"' then ReadEscaped(s[1..]) else None
  }

  /** A doubled quote reads as one quote, and reading goes on after it. */
  lemma ReadDoubledQuote(tail: string, t: string, rest: string)
    requires ReadEscaped(tail) == Some((t, rest))
    ensures ReadEscaped("\"\"" + tail) == Some(("\"" + t, rest))
  {
  }

  /** Any other character reads as itself, and reading goes on after it. */
  lemma ReadPlainChar(c: char, tail: string, t: string, rest: string)
    requires c != '"' && ReadEscaped(tail) == Some((t, rest))
    ensures ReadEscaped([c] + tail) == Some(([c] + t, rest))
  {
  }

  /** Escaping works character by character: an escaped text followed by its closing quote, taken apart at the front. */
  lemma EscapeFront(t: string, rest: string)
    requires t != []
    ensures Escape(t) + "\"" + rest == (if t[0] == '"' then "\"\"" else [t[0]]) + (Escape(t[1..]) + "\"" + rest)
  {
  }

  /** One reading step over an escaped text that starts with a quote. */
  lemma ReadEscapedQuoteStep(t: string, rest: string)
    requires t != [] && t[0] == '"'
    requires ReadEscaped(Escape(t[1..]) + "\"" + rest) == Some((t[1..], rest))
    ensures ReadEscaped(Escape(t) + "\"" + rest) == Some((t, rest))
  {
    EscapeFront(t, rest);
    ReadDoubledQuote(Escape(t[1..]) + "\"" + rest, t[1..], rest);
    assert "\"" + t[1..] == t;
  }

  /** One reading step over an escaped text that starts with any other character. */
  lemma ReadEscapedPlainStep(t: string, rest: string)
    requires t != [] && t[0] != '"'
    requires ReadEscaped(Escape(t[1..]) + "\"" + rest) == Some((t[1..], rest))
    ensures ReadEscaped(Escape(t) + "\"" + rest) == Some((t, rest))
  {
    EscapeFront(t, rest);
    ReadPlainChar(t[0], Escape(t[1..]) + "\"" + rest, t[1..], rest);
    assert [t[0]] + t[1..] == t;
  }

  /** Reading an escaped text up to the quote that closes it gives the text back. */
  lemma {:induction false} ReadEscapedInverts(t: string, rest: string)
    requires rest == [] || rest[0] != '"'
    ensures ReadEscaped(Escape(t) + "\"" + rest) == Some((t, rest))
  {
    if t == [] {
      assert Escape(t) + "\"" + rest == "\"" + rest;
      assert ("\"" + rest)[1..] == rest;
    } else if t[0] == '"' {
      ReadEscapedInverts(t[1..], rest);
      ReadEscapedQuoteStep(t, rest);
    } else {
      ReadEscapedInverts(t[1..], rest);
      ReadEscapedPlainStep(t, rest);
    }
  }

  /**
   * Quoting round-trips: reading the quoted field back gives the original
   * text and leaves what follows it untouched, provided what follows does
   * not itself start with a quote (in a row it is the ',' before the next field).
   */
  lemma QuoteRoundTrip(t: string, rest: string)
    requires rest == [] || rest[0] != '"'
    ensures ReadQuoted(Quote(t) + rest) == Some((t, rest))
  {
    ReadEscapedInverts(t, rest);
    assert (Quote(t) + rest)[1..] == Escape(t) + "\"" + rest;
  }

  /**
   * The "All Scores" field: each score as "label: percent" joined by "; ",
   * between quotes. `percent` renders Math.round(score * 100) + '%'.
   */
  function ScoresField(scores: seq<Score>, percent: real -> string): string
  {
    "\"" + Join(seq(|scores|, i requires 0 <= i < |scores| => scores[i].name + ": " + percent(scores[i].score)), "; ") + "\""
  }

  /** The rest of the row after its text field. */
  function RowTail(item: BatchResult, percent: real -> string): string
  {
    "," + item.sentiment.name + "," + percent(item.sentiment.score) + "," + ScoresField(item.allScores, percent)
  }

  /** One exported line: the quoted text, the top label, its percentage and the quoted list of all scores. */
  function Row(item: BatchResult, percent: real -> string): (r: string)
    ensures r == Quote(item.text) + RowTail(item, percent)
  {
    var fields := [Quote(item.text), item.sentiment.name, percent(item.sentiment.score), ScoresField(item.allScores, percent)];
    assert fields[1..][1..][1..] == [fields[3]];
    assert Join(fields[1..][1..], ",") == fields[2] + "," + fields[3];
    assert Join(fields[1..], ",") == fields[1] + "," + (fields[2] + "," + fields[3]);
    assert Join(fields, ",") == fields[0] + "," + (fields[1] + "," + (fields[2] + "," + fields[3]));
    Join(fields, ",")
  }

  /** A row starts with its text as a quoted field, which reads back as the text itself. */
  lemma RowTextReadsBack(item: BatchResult, percent: real -> string)
    ensures ReadQuoted(Row(item, percent)) == Some((item.text, RowTail(item, percent)))
  {
    QuoteRoundTrip(item.text, RowTail(item, percent));
  }

  function Rows(items: seq<BatchResult>, percent: real -> string): (r: seq<string>)
    ensures |r| == |items|
  {
    seq(|items|, i requires 0 <= i < |items| => Row(items[i], percent))
  }

  /** The whole exported file. */
  function ExportCsv(items: seq<BatchResult>, percent: real -> string): string
  {
    Join([HeaderLine] + Rows(items, percent), "\n")
  }

  /** Nothing of the result but its text may hold a line feed. */
  ghost predicate OneLine(item: BatchResult, percent: real -> string)
  {
    && '\n' !in item.text
    && '\n' !in item.sentiment.name
    && (forall i :: 0 <= i < |item.allScores| ==> '\n' !in item.allScores[i].name)
    && (forall x :: '\n' !in percent(x))
  }

  lemma RowIsOneLine(item: BatchResult, percent: real -> string)
    requires OneLine(item, percent)
    ensures '\n' !in Row(item, percent)
  {
    EscapeKeepsChars(item.text, '\n');
    var scores := item.allScores;
    var parts := seq(|scores|, i requires 0 <= i < |scores| => scores[i].name + ": " + percent(scores[i].score));
    JoinAvoids(parts, "; ", '\n');
    var pieces := [Quote(item.text), item.sentiment.name, percent(item.sentiment.score), ScoresField(scores, percent)];
    JoinAvoids(pieces, ",", '\n');
  }

  lemma HeaderIsOneLine()
    ensures '\n' !in HeaderLine
  {
  }

  lemma RowsAreOneLine(items: seq<BatchResult>, percent: real -> string)
    requires forall i :: 0 <= i < |items| ==> OneLine(items[i], percent)
    ensures forall i :: 0 <= i < |items| ==> '\n' !in Rows(items, percent)[i]
  {
    forall i | 0 <= i < |items|
      ensures '\n' !in Rows(items, percent)[i]
    {
      RowIsOneLine(items[i], percent);
    }
  }

  /**
   * When no text, label or percentage holds a line feed (texts read by
   * parseCSV never do), the exported file splits back into the header and
   * exactly one line per result, in order.
   */
  lemma ExportLines(items: seq<BatchResult>, percent: real -> string)
    requires forall i :: 0 <= i < |items| ==> OneLine(items[i], percent)
    ensures Split(ExportCsv(items, percent), '\n') == [HeaderLine] + Rows(items, percent)
  {
    var rows := Rows(items, percent);
    RowsAreOneLine(items, percent);
    var lines := [HeaderLine] + rows;
    HeaderIsOneLine();
    assert forall i :: 0 < i < |lines| ==> lines[i] == rows[i - 1];
    SplitJoin(lines, '\n');
  }
}
