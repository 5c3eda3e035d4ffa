/** The importance heuristic of `app/memory/scoring.py`: the share of a fixed
    keyword list that occurs, case-insensitively, somewhere in a text. The
    score is always k/8 for a whole k, so it is exact as a `real`. */
module Scoring {
  import opened Text

  const Keywords: seq<string> :=
    ["urgent", "asap", "important", "call", "meeting", "deadline", "fail", "alert"]

  predicate Distinct(words: seq<string>) {
    forall i, j :: 0 <= i < j < |words| ==> words[i] != words[j]
  }

  /** How many of `words` occur in `lowered`; each word counts at most once,
      however often it occurs. */
  function KeywordHits(words: seq<string>, lowered: string): (n: nat)
    ensures n <= |words|
  {
    if words == [] then 0
    else (if Contains(lowered, words[0]) then 1 else 0) + KeywordHits(words[1..], lowered)
  }

  /** The words of `words` that occur in `lowered`, as a set. */
  function MatchedWords(words: seq<string>, lowered: string): set<string> {
    set w | w in words && Contains(lowered, w)
  }

  function Min(x: real, y: real): real {
    if x <= y then x else y
  }

  /** `score_importance(text)`. The clamp to 1.0 is kept as written; the second
      postcondition shows it never takes effect. */
  function ScoreImportance(text: string): (r: real)
    ensures 0.0 <= r <= 1.0
    ensures r == KeywordHits(Keywords, Lower(text)) as real / 8.0
  {
    var score := KeywordHits(Keywords, Lower(text));
    Min(score as real / |Keywords| as real, 1.0)
  }

  /** Over a list without repeats, the hit count is the number of distinct
      words found. */
  lemma {:induction false} HitsCountMatchedWords(words: seq<string>, lowered: string)
    requires Distinct(words)
    ensures KeywordHits(words, lowered) == |MatchedWords(words, lowered)|
  {
    if words != [] {
      var rest := words[1..];
      assert Distinct(rest);
      HitsCountMatchedWords(rest, lowered);
      var head := if Contains(lowered, words[0]) then {words[0]} else {};
      assert MatchedWords(words, lowered) == head + MatchedWords(rest, lowered);
      assert words[0] !in MatchedWords(rest, lowered);
    }
  }

  lemma KeywordsDistinct()
    ensures Distinct(Keywords)
  {
  }

  /** The score is the number of distinct keywords found in the lower-cased
      text, divided by eight. */
  lemma ScoreCountsDistinctKeywords(text: string)
    ensures ScoreImportance(text) == |MatchedWords(Keywords, Lower(text))| as real / 8.0
  {
    KeywordsDistinct();
    HitsCountMatchedWords(Keywords, Lower(text));
  }

  /** If every word found in `t` is also found in `t'`, `t'` has at least as
      many hits. */
  lemma {:induction false} HitsMonotone(words: seq<string>, t: string, t': string)
    requires forall w | w in words :: Contains(t, w) ==> Contains(t', w)
    ensures KeywordHits(words, t) <= KeywordHits(words, t')
  {
    if words != [] {
      HitsMonotone(words[1..], t, t');
    }
  }

  /** Scoring ignores case: lower-casing first changes nothing. */
  lemma ScoreCaseInsensitive(text: string)
    ensures ScoreImportance(Lower(text)) == ScoreImportance(text)
  {
    LowerIdempotent(text);
  }

  /** Extending a text on either side never lowers its score. */
  lemma ScoreMonotone(a: string, t: string, b: string)
    ensures ScoreImportance(t) <= ScoreImportance(a + t + b)
  {
    LowerConcat(a, t);
    LowerConcat(a + t, b);
    forall w | w in Keywords && Contains(Lower(t), w)
      ensures Contains(Lower(a + t + b), w)
    {
      ContainsExtend(Lower(a), Lower(t), Lower(b), w);
    }
    HitsMonotone(Keywords, Lower(t), Lower(a + t + b));
  }

  /** The same for any text found inside another: a substring never scores
      higher than the text around it. */
  lemma ScoreMonotoneSubstring(t: string, t': string)
    requires Contains(t', t)
    ensures ScoreImportance(t) <= ScoreImportance(t')
  {
    ContainsIffOccurs(t', t);
    var i :| OccursAt(t', t, i);
    assert t' == t'[..i] + t + t'[i + |t|..];
    ScoreMonotone(t'[..i], t, t'[i + |t|..]);
  }

  /** No hit among `words` gives a count of zero. */
  lemma {:induction false} HitsNone(words: seq<string>, lowered: string)
    requires forall w | w in words :: !Contains(lowered, w)
    ensures KeywordHits(words, lowered) == 0
  {
    if words != [] {
      HitsNone(words[1..], lowered);
    }
  }

  /** A text that contains no keyword scores zero. */
  lemma ScoreWithoutKeywords(text: string)
    requires forall w | w in Keywords :: !Contains(Lower(text), w)
    ensures ScoreImportance(text) == 0.0
  {
    HitsNone(Keywords, Lower(text));
  }

  /** The empty text scores zero. */
  lemma ScoreEmpty()
    ensures ScoreImportance("") == 0.0
  {
    forall w | w in Keywords
      ensures !Contains(Lower(""), w)
    {
      assert |w| > 0;
    }
    ScoreWithoutKeywords("");
  }
}
