/**
 * saveToHistory, list part: the newest analysis goes to the front and only
 * the 50 most recent are kept.
 */
module History {
  import opened Common
  import Batch

  const MaxEntries: nat := 50

  /** One saved analysis; the timestamp is the clock reading at save time. */
  datatype HistoryItem = HistoryItem(
    text: string,
    allResults: seq<Batch.Score>,
    topSentiment: Option<Batch.Score>,  // results[0], undefined for an empty answer
    timestamp: int)

  /** The item saveToHistory builds from a text and the scores of its answer. */
  function MakeItem(text: string, results: seq<Batch.Score>, timestamp: int): HistoryItem
  {
    HistoryItem(text, results, if results == [] then None else Some(results[0]), timestamp)
  }

  /**
   * [item, ...history.slice(0, 49)]: the new item first, then the first (at
   * most 49) old entries in their order; so at most 50 entries in all.
   */
  function Saved<T>(history: seq<T>, item: T): (r: seq<T>)
    ensures |r| == Min(|history| + 1, MaxEntries)
    ensures r[0] == item
    ensures r[1..] == history[..|r| - 1]
  {
    [item] + history[..Min(|history|, MaxEntries - 1)]
  }

  /** The history after saving each of items in turn. */
  function SavedAll<T>(history: seq<T>, items: seq<T>): seq<T>
    decreases |items|
  {
    if items == [] then history else SavedAll(Saved(history, items[0]), items[1..])
  }

  function Reversed<T>(s: seq<T>): (r: seq<T>)
    ensures |r| == |s|
  {
    if s == [] then [] else Reversed(s[1..]) + [s[0]]
  }

  /**
   * After any sequence of saves the history is the most recent 50 items,
   * newest first: the saved items in reverse order followed by the older
   * history, cut to 50 (so never more than 50 entries).
   */
  lemma {:induction false} SavedAllKeepsNewest<T>(history: seq<T>, items: seq<T>)
    requires |history| <= MaxEntries
    decreases |items|
    ensures SavedAll(history, items) == (Reversed(items) + history)[..Min(|items| + |history|, MaxEntries)]
  {
    if items == [] {
      assert Reversed(items) + history == history;
      assert history[..|history|] == history;
    } else {
      var a, rest := items[0], items[1..];
      var saved := Saved(history, a);
      SavedAllKeepsNewest(saved, rest);
      var x, y := Reversed(rest), [a] + history;
      assert Reversed(items) + history == x + y;
      assert saved == y[..Min(|y|, MaxEntries)];
      var k := Min(|rest| + |saved|, MaxEntries);
      assert k == Min(|items| + |history|, MaxEntries);
      assert (x + saved)[..k] == (x + y)[..k];
    }
  }
}
