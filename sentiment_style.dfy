/**
 * getSentimentColor and getSentimentBg: a label is shown green when it
 * mentions "positive" in any letter case, otherwise red when it mentions
 * "negative", otherwise yellow.
 */
module SentimentStyle {
  import opened JsString
  import Batch

  /** The three ways a label is shown. */
  datatype Tone = Positive | Negative | Neutral

  /** The shared test: includes('positive') on the lower-cased label first, then includes('negative'). */
  function ToneOf(name: string): Tone
  {
    var normalized := ToLower(name);
    if Contains(normalized, "positive") then Positive
    else if Contains(normalized, "negative") then Negative
    else Neutral
  }

  /** getSentimentColor. */
  function Color(name: string): string
  {
    match ToneOf(name)
    case Positive => "text-green-600"
    case Negative => "text-red-600"
    case Neutral => "text-yellow-600"
  }

  /** getSentimentBg. */
  function Background(name: string): string
  {
    match ToneOf(name)
    case Positive => "bg-green-50 border-green-200"
    case Negative => "bg-red-50 border-red-200"
    case Neutral => "bg-yellow-50 border-yellow-200"
  }

  /** word occurs in the label at position i when its letters are read in lower case. */
  predicate MentionsAt(name: string, word: string, i: int)
  {
    0 <= i <= |name| - |word| && ToLower(name[i..i + |word|]) == word
  }

  /** The label mentions word somewhere, ignoring the case of its letters. */
  ghost predicate Mentions(name: string, word: string)
  {
    exists i :: MentionsAt(name, word, i)
  }

  lemma MentionsIffContains(name: string, word: string)
    ensures Mentions(name, word) <==> Contains(ToLower(name), word)
  {
    var lower := ToLower(name);
    ContainsIffOccurs(lower, word);
    forall i | 0 <= i <= |name| - |word|
      ensures OccursAt(lower, word, i) <==> MentionsAt(name, word, i)
    {
      assert lower[i..i + |word|] == ToLower(name[i..i + |word|]);
    }
    if Contains(lower, word) {
      var i :| OccursAt(lower, word, i);
      assert MentionsAt(name, word, i);
    }
    if Mentions(name, word) {
      var i :| MentionsAt(name, word, i);
      assert OccursAt(lower, word, i);
    }
  }

  /**
   * The classifier is total and picks exactly one tone: positive whenever
   * "positive" is mentioned (even alongside "negative"), negative when only
   * "negative" is, neutral otherwise; colour and background follow the tone.
   */
  lemma ToneSpec(name: string)
    ensures ToneOf(name) == Positive <==> Mentions(name, "positive")
    ensures ToneOf(name) == Negative <==> !Mentions(name, "positive") && Mentions(name, "negative")
    ensures ToneOf(name) == Neutral <==> !Mentions(name, "positive") && !Mentions(name, "negative")
    ensures Color(name) == "text-green-600" <==> Background(name) == "bg-green-50 border-green-200"
    ensures Color(name) == "text-green-600" <==> ToneOf(name) == Positive
    ensures Color(name) == "text-red-600" <==> Background(name) == "bg-red-50 border-red-200"
    ensures Color(name) == "text-red-600" <==> ToneOf(name) == Negative
    ensures Color(name) == "text-yellow-600" <==> Background(name) == "bg-yellow-50 border-yellow-200"
    ensures Color(name) == "text-yellow-600" <==> ToneOf(name) == Neutral
  {
    MentionsIffContains(name, "positive");
    MentionsIffContains(name, "negative");
  }

  /** Any label built around "positive", in any case, is positive, whatever else it says. */
  lemma PositiveWins(before: string, word: string, after: string)
    requires ToLower(word) == "positive"
    ensures ToneOf(before + word + after) == Positive
  {
    var name := before + word + after;
    assert name[|before|..|before| + |word|] == word;
    assert MentionsAt(name, "positive", |before|);
    ToneSpec(name);
  }

  /** Lower-casing a label first does not change how it is shown. */
  lemma CaseDoesNotMatter(name: string)
    ensures ToneOf(ToLower(name)) == ToneOf(name)
  {
    LowerIdempotent(name);
  }

  /** The ERROR score a failed request leaves is shown as neutral. */
  lemma ErrorIsNeutral()
    ensures ToneOf(Batch.ErrorScore.name) == Neutral
  {
  }
}
