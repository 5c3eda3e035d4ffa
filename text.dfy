/** String helpers the memory subsystem relies on: ASCII case folding (the
    part of Python's `str.lower` this model covers) and Python's substring
    test `needle in hay`. */
module Text {

  /** Lower-cases one ASCII letter; every other character is left alone. */
  function LowerChar(c: char): char {
    if 'A' <= c <= 'Z' then (c as int + 32) as char else c
  }

  /** `s.lower()`, restricted to ASCII case folding. */
  function Lower(s: string): (r: string)
    ensures |r| == |s|
    ensures forall i | 0 <= i < |r| :: !('A' <= r[i] <= 'Z')
    ensures forall i | 0 <= i < |s| && !('A' <= s[i] <= 'Z') :: r[i] == s[i]
  {
    seq(|s|, i requires 0 <= i < |s| => LowerChar(s[i]))
  }

  lemma LowerIdempotent(s: string)
    ensures Lower(Lower(s)) == Lower(s)
  {
  }

  lemma LowerConcat(a: string, b: string)
    ensures Lower(a + b) == Lower(a) + Lower(b)
  {
    assert forall i | 0 <= i < |a + b| :: Lower(a + b)[i] == (Lower(a) + Lower(b))[i];
  }

  predicate IsPrefix(p: string, s: string) {
    |p| <= |s| && s[..|p|] == p
  }

  /** Python's `needle in hay`: true when `needle` occurs as a contiguous
      substring of `hay`; the empty needle occurs in every string. */
  predicate Contains(hay: string, needle: string)
    ensures Contains(hay, needle) ==> |needle| <= |hay|
    ensures needle == [] ==> Contains(hay, needle)
    decreases |hay|
  {
    IsPrefix(needle, hay) || (|hay| > 0 && Contains(hay[1..], needle))
  }

  /** `needle` occurs in `hay` starting at index `i`. */
  predicate OccursAt(hay: string, needle: string, i: int) {
    0 <= i && i + |needle| <= |hay| && hay[i..i + |needle|] == needle
  }

  /** The recursive search finds exactly the occurrences there are. */
  lemma {:induction false} ContainsIffOccurs(hay: string, needle: string)
    ensures Contains(hay, needle) <==> exists i :: OccursAt(hay, needle, i)
    decreases |hay|
  {
    if IsPrefix(needle, hay) {
      assert OccursAt(hay, needle, 0);
    } else if |hay| == 0 {
    } else {
      var tail := hay[1..];
      ContainsIffOccurs(tail, needle);
      if Contains(tail, needle) {
        var i :| OccursAt(tail, needle, i);
        assert hay[i + 1..i + 1 + |needle|] == tail[i..i + |needle|];
        assert OccursAt(hay, needle, i + 1);
      }
      if exists i :: OccursAt(hay, needle, i) {
        var i :| OccursAt(hay, needle, i);
        if i != 0 {
          assert tail[i - 1..i - 1 + |needle|] == hay[i..i + |needle|];
          assert OccursAt(tail, needle, i - 1);
        }
      }
    }
  }

  /** A substring of `x` is a substring of any extension `a + x + b`. */
  lemma ContainsExtend(a: string, x: string, b: string, needle: string)
    requires Contains(x, needle)
    ensures Contains(a + x + b, needle)
  {
    ContainsIffOccurs(x, needle);
    var i :| OccursAt(x, needle, i);
    var big := a + x + b;
    assert big[|a| + i..|a| + i + |needle|] == x[i..i + |needle|];
    assert OccursAt(big, needle, |a| + i);
    ContainsIffOccurs(big, needle);
  }

  /** A witness index is enough to establish `Contains`. */
  lemma ContainsAt(hay: string, needle: string, i: int)
    requires OccursAt(hay, needle, i)
    ensures Contains(hay, needle)
  {
    ContainsIffOccurs(hay, needle);
  }

  /** Every character of a substring occurs in the text it is found in. */
  lemma ContainsChars(hay: string, needle: string)
    requires Contains(hay, needle)
    ensures forall j | 0 <= j < |needle| :: needle[j] in hay
  {
    ContainsIffOccurs(hay, needle);
    var i :| OccursAt(hay, needle, i);
    forall j | 0 <= j < |needle|
      ensures needle[j] in hay
    {
      assert needle[j] == hay[i + j];
    }
  }

  /** A needle with a character the text lacks is not found in it. */
  lemma NotContainsMissingChar(hay: string, needle: string, j: int)
    requires 0 <= j < |needle| && needle[j] !in hay
    ensures !Contains(hay, needle)
  {
    if Contains(hay, needle) {
      ContainsChars(hay, needle);
    }
  }

  /** A text written as `a + w + b` contains `w`. */
  lemma ContainsMiddle(hay: string, a: string, w: string, b: string)
    requires hay == a + w + b
    ensures Contains(hay, w)
  {
    assert IsPrefix(w, w);
    ContainsExtend(a, w, b, w);
  }
}
