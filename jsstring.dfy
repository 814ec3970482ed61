/**
 * The JavaScript string and array operations the application relies on, with
 * strings as sequences of characters: String.prototype.trim, toLowerCase,
 * includes, split on a one-character separator, and Array.prototype.join and
 * filter.
 */
module JsString {

  /** The characters ECMAScript counts as WhiteSpace or LineTerminator: exactly what trim() removes. */
  predicate IsWhitespace(c: char)
  {
    c == '\t' || c == '\n' || c == '\U{000B}' || c == '\U{000C}' || c == '\r' || c == ' '
    || c == '\U{00A0}' || c == '\U{1680}' || '\U{2000}' <= c <= '\U{200A}'
    || c == '\U{2028}' || c == '\U{2029}' || c == '\U{202F}' || c == '\U{205F}'
    || c == '\U{3000}' || c == '\U{FEFF}'
  }

  /** The number of whitespace characters at the front of s. */
  function LeadingSpace(s: string): (n: nat)
    ensures n <= |s|
    ensures forall i :: 0 <= i < n ==> IsWhitespace(s[i])
    ensures n == |s| || !IsWhitespace(s[n])
  {
    if |s| > 0 && IsWhitespace(s[0]) then 1 + LeadingSpace(s[1..]) else 0
  }

  /** The number of whitespace characters at the end of s. */
  function TrailingSpace(s: string): (n: nat)
    ensures n <= |s|
    ensures forall i :: |s| - n <= i < |s| ==> IsWhitespace(s[i])
    ensures n == |s| || !IsWhitespace(s[|s| - 1 - n])
  {
    if |s| > 0 && IsWhitespace(s[|s| - 1]) then 1 + TrailingSpace(s[..|s| - 1]) else 0
  }

  /** String.prototype.trim: s without the whitespace at either end. */
  function Trim(s: string): string
  {
    var t := s[LeadingSpace(s)..];
    t[..|t| - TrailingSpace(t)]
  }

  /**
   * What trim() gives: s with a run of whitespace removed at each end; the
   * result neither starts nor ends with whitespace, and it is empty exactly
   * when s is all whitespace (the "falsy after trim" test).
   */
  lemma TrimSpec(s: string)
    ensures LeadingSpace(s) + |Trim(s)| <= |s|
    ensures Trim(s) == s[LeadingSpace(s) .. LeadingSpace(s) + |Trim(s)|]
    ensures forall i :: LeadingSpace(s) + |Trim(s)| <= i < |s| ==> IsWhitespace(s[i])
    ensures Trim(s) != [] ==> !IsWhitespace(Trim(s)[0]) && !IsWhitespace(Trim(s)[|Trim(s)| - 1])
    ensures Trim(s) == [] <==> forall i :: 0 <= i < |s| ==> IsWhitespace(s[i])
  {
  }

  /** trim() keeps only characters of its argument. */
  lemma TrimKeepsChars(s: string)
    ensures forall c :: c in Trim(s) ==> c in s
  {
  }

  /** toLowerCase on one character; only the ASCII letters A-Z change. */
  function LowerChar(c: char): char
  {
    if 'A' <= c <= 'Z' then (c as int + 32) as char else c
  }

  function ToLower(s: string): (r: string)
    ensures |r| == |s|
  {
    seq(|s|, i requires 0 <= i < |s| => LowerChar(s[i]))
  }

  /** Lower-casing twice is lower-casing once. */
  lemma LowerIdempotent(s: string)
    ensures ToLower(ToLower(s)) == ToLower(s)
  {
    assert forall i :: 0 <= i < |s| ==> ToLower(ToLower(s))[i] == ToLower(s)[i];
  }

  predicate StartsWith(s: string, p: string)
  {
    |p| <= |s| && s[..|p|] == p
  }

  /** String.prototype.includes: p occurs in s, checked from the front. */
  predicate Contains(s: string, p: string)
  {
    StartsWith(s, p) || (|s| > 0 && Contains(s[1..], p))
  }

  /** p occurs in s starting at position i. */
  predicate OccursAt(s: string, p: string, i: int)
  {
    0 <= i <= |s| - |p| && s[i..i + |p|] == p
  }

  /** includes agrees with the direct definition "p occurs at some position of s". */
  lemma {:induction false} ContainsIffOccurs(s: string, p: string)
    ensures Contains(s, p) <==> exists i :: OccursAt(s, p, i)
  {
    if StartsWith(s, p) {
      assert OccursAt(s, p, 0);
    } else if |s| > 0 {
      ContainsIffOccurs(s[1..], p);
      if Contains(s[1..], p) {
        var i :| OccursAt(s[1..], p, i);
        assert s[1..][i..i + |p|] == s[i + 1..i + 1 + |p|];
        assert OccursAt(s, p, i + 1);
      }
      if exists i :: OccursAt(s, p, i) {
        var i :| OccursAt(s, p, i);
        assert i != 0;
        assert s[1..][i - 1..i - 1 + |p|] == s[i..i + |p|];
        assert OccursAt(s[1..], p, i - 1);
      }
    }
  }

  /** A string includes every piece it was built around. */
  lemma {:induction false} ContainsInfix(a: string, p: string, b: string)
    ensures Contains(a + p + b, p)
  {
    if a == [] {
      assert (a + p + b)[..|p|] == p;
    } else {
      ContainsInfix(a[1..], p, b);
      assert (a + p + b)[1..] == a[1..] + p + b;
    }
  }

  /** String.prototype.split with a one-character separator: the pieces between separators, in order. */
  function Split(s: string, sep: char): (r: seq<string>)
    ensures |r| >= 1
    ensures forall p :: p in r ==> sep !in p
  {
    if |s| == 0 then [""]
    else if s[0] == sep then [""] + Split(s[1..], sep)
    else
      var rest := Split(s[1..], sep);
      [[s[0]] + rest[0]] + rest[1..]
  }

  /** Every piece of a split is made of characters of the split string. */
  lemma {:induction false} SplitKeepsChars(s: string, sep: char, k: nat)
    requires k < |Split(s, sep)|
    ensures forall c :: c in Split(s, sep)[k] ==> c in s
  {
    if |s| > 0 {
      var rest := Split(s[1..], sep);
      if s[0] == sep {
        if k > 0 {
          SplitKeepsChars(s[1..], sep, k - 1);
        }
      } else if k == 0 {
        SplitKeepsChars(s[1..], sep, 0);
      } else {
        SplitKeepsChars(s[1..], sep, k);
      }
    }
  }

  /** Array.prototype.join: the pieces in order with sep between consecutive ones. */
  function Join(pieces: seq<string>, sep: string): string
  {
    if |pieces| == 0 then ""
    else if |pieces| == 1 then pieces[0]
    else pieces[0] + sep + Join(pieces[1..], sep)
  }

  /** A character in none of the pieces and not in the separator is not in their join. */
  lemma {:induction false} JoinAvoids(pieces: seq<string>, sep: string, c: char)
    requires c !in sep
    requires forall i :: 0 <= i < |pieces| ==> c !in pieces[i]
    ensures c !in Join(pieces, sep)
  {
    if |pieces| > 1 {
      JoinAvoids(pieces[1..], sep, c);
    }
  }

  /** Splitting loses nothing: joining the pieces back gives the original string. */
  lemma {:induction false} JoinSplit(s: string, sep: char)
    ensures Join(Split(s, sep), [sep]) == s
  {
    if |s| > 0 {
      var rest := Split(s[1..], sep);
      JoinSplit(s[1..], sep);
      if s[0] == sep {
        assert Split(s, sep) == [""] + rest;
        assert ([""] + rest)[1..] == rest;
      } else {
        assert Split(s, sep) == [[s[0]] + rest[0]] + rest[1..];
        if |rest| > 1 {
          assert ([[s[0]] + rest[0]] + rest[1..])[1..] == rest[1..];
        }
      }
    }
  }

  lemma {:induction false} SplitWhole(p: string, sep: char)
    requires sep !in p
    ensures Split(p, sep) == [p]
  {
    if |p| > 0 {
      SplitWhole(p[1..], sep);
      assert [p[0]] + p[1..] == p;
    }
  }

  lemma {:induction false} SplitThrough(p: string, sep: char, rest: string)
    requires sep !in p
    ensures Split(p + [sep] + rest, sep) == [p] + Split(rest, sep)
  {
    if |p| == 0 {
      assert p + [sep] + rest == [sep] + rest;
      assert ([sep] + rest)[1..] == rest;
    } else {
      SplitThrough(p[1..], sep, rest);
      assert (p + [sep] + rest)[1..] == p[1..] + [sep] + rest;
      assert [p[0]] + p[1..] == p;
    }
  }

  /** Joining pieces free of the separator and splitting again gives back the same pieces. */
  lemma {:induction false} SplitJoin(pieces: seq<string>, sep: char)
    requires |pieces| >= 1
    requires forall i :: 0 <= i < |pieces| ==> sep !in pieces[i]
    ensures Split(Join(pieces, [sep]), sep) == pieces
  {
    if |pieces| == 1 {
      SplitWhole(pieces[0], sep);
    } else {
      SplitJoin(pieces[1..], sep);
      SplitThrough(pieces[0], sep, Join(pieces[1..], [sep]));
      assert [pieces[0]] + pieces[1..] == pieces;
    }
  }

  /** Array.prototype.filter: the elements that keep accepts, in their original order. */
  function Filter<T>(keep: T -> bool, s: seq<T>): (r: seq<T>)
    ensures |r| <= |s|
    ensures forall x :: x in r ==> x in s && keep(x)
  {
    if s == [] then []
    else if keep(s[0]) then [s[0]] + Filter(keep, s[1..])
    else Filter(keep, s[1..])
  }

  /** The positions of s whose elements keep accepts, in increasing order. */
  function Selected<T>(keep: T -> bool, s: seq<T>): (ix: seq<nat>)
    ensures |ix| <= |s|
    ensures forall j :: 0 <= j < |ix| ==> ix[j] < |s|
  {
    if s == [] then []
    else if keep(s[0]) then [0] + Shift(Selected(keep, s[1..]))
    else Shift(Selected(keep, s[1..]))
  }

  lemma {:induction false} SelectedPicks<T>(keep: T -> bool, s: seq<T>)
    ensures |Selected(keep, s)| == |Filter(keep, s)|
    ensures forall j :: 0 <= j < |Selected(keep, s)| ==> Filter(keep, s)[j] == s[Selected(keep, s)[j]]
  {
    if s != [] {
      SelectedPicks(keep, s[1..]);
      var sub, f, g := Selected(keep, s[1..]), Filter(keep, s), Filter(keep, s[1..]);
      forall j | 0 <= j < |sub|
        ensures g[j] == s[sub[j] + 1]
      {
        assert g[j] == s[1..][sub[j]];
      }
    }
  }

  lemma {:induction false} SelectedIncreasing<T>(keep: T -> bool, s: seq<T>)
    ensures forall j, k :: 0 <= j < k < |Selected(keep, s)| ==> Selected(keep, s)[j] < Selected(keep, s)[k]
  {
    if s != [] {
      SelectedIncreasing(keep, s[1..]);
    }
  }

  /** Every position whose element keep accepts is among the selected ones. */
  lemma {:induction false} SelectedComplete<T>(keep: T -> bool, s: seq<T>, i: nat)
    requires i < |s| && keep(s[i])
    ensures i in Selected(keep, s)
  {
    if i == 0 {
      assert Selected(keep, s)[0] == 0;
    } else {
      var sub := Selected(keep, s[1..]);
      assert s[1..][i - 1] == s[i];
      SelectedComplete(keep, s[1..], i - 1);
      ShiftHas(sub, i - 1);
      var head: seq<nat> := if keep(s[0]) then [0] else [];
      assert Selected(keep, s) == head + Shift(sub);
    }
  }

  /**
   * filter keeps order and drops only what keep rejects: its result is the
   * subsequence of s at the strictly increasing positions ix, and every
   * accepted position is among them.
   */
  lemma FilterSelects<T>(keep: T -> bool, s: seq<T>) returns (ix: seq<nat>)
    ensures |ix| == |Filter(keep, s)|
    ensures forall j :: 0 <= j < |ix| ==> ix[j] < |s| && Filter(keep, s)[j] == s[ix[j]]
    ensures forall j, k :: 0 <= j < k < |ix| ==> ix[j] < ix[k]
    ensures forall i :: 0 <= i < |s| && keep(s[i]) ==> i in ix
  {
    ix := Selected(keep, s);
    SelectedPicks(keep, s);
    SelectedIncreasing(keep, s);
    forall i | 0 <= i < |s| && keep(s[i])
      ensures i in ix
    {
      SelectedComplete(keep, s, i);
    }
  }

  /** Every position moved one place to the right. */
  function Shift(ix: seq<nat>): (r: seq<nat>)
    ensures |r| == |ix|
    ensures forall j :: 0 <= j < |ix| ==> r[j] == ix[j] + 1
  {
    if ix == [] then [] else [ix[0] + 1] + Shift(ix[1..])
  }

  lemma ShiftHas(ix: seq<nat>, i: nat)
    requires i in ix
    ensures i + 1 in Shift(ix)
  {
  }
}
