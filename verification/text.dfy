/** The two string operations every marker test in the engine is built from:
    upper-casing (Python's `str.upper`) and substring containment (Python's
    `in` on two strings). */
module Text {

  /** Upper-case of one character. ASCII letters and the lower-case letters of
      the Latin-1 block (U+00E0 to U+00FE, except the division sign U+00F7)
      move to their capitals; every other character is left as it is. */
  function UpperChar(c: char): char
  {
    if 'a' <= c <= 'z' then (c as int - 32) as char
    else if '\U{00E0}' <= c <= '\U{00FE}' && c != '\U{00F7}' then (c as int - 32) as char
    else c
  }

  /** Upper-case of a string, character by character. */
  function Upper(s: string): (r: string)
    ensures |r| == |s|
    ensures forall i :: 0 <= i < |s| ==> r[i] == UpperChar(s[i])
  {
    if |s| == 0 then "" else [UpperChar(s[0])] + Upper(s[1..])
  }

  /** Upper-casing a character twice is the same as upper-casing it once. */
  lemma UpperCharIdempotent(c: char)
    ensures UpperChar(UpperChar(c)) == UpperChar(c)
  {
  }

  /** Upper-casing a string twice is the same as upper-casing it once. */
  lemma UpperIdempotent(s: string)
    ensures Upper(Upper(s)) == Upper(s)
  {
    var u := Upper(s);
    forall i | 0 <= i < |s|
      ensures Upper(u)[i] == u[i]
    {
      UpperCharIdempotent(s[i]);
    }
  }

  /** The two accented letters the markers use have the expected capitals. */
  lemma AccentedCapitals()
    ensures UpperChar('ê') == 'Ê'
    ensures UpperChar('ó') == 'Ó'
    ensures Upper("sachê") == "SACHÊ"
    ensures Upper("sólido") == "SÓLIDO"
  {
  }

  predicate StartsWith(s: string, p: string)
  {
    |p| <= |s| && s[..|p|] == p
  }

  /** Computable containment test: `p` is a prefix of some suffix of `s`. */
  predicate Contains(s: string, p: string)
    decreases |s|
  {
    StartsWith(s, p) || (|s| > 0 && Contains(s[1..], p))
  }

  /** Declarative reading of containment: some slice of `s` equals `p`. */
  ghost predicate HasSlice(s: string, p: string)
  {
    exists i, j | 0 <= i <= j <= |s| :: s[i..j] == p
  }

  /** A slice of the tail is a slice of the whole string. */
  lemma SliceOfTail(s: string, p: string)
    requires |s| > 0 && HasSlice(s[1..], p)
    ensures HasSlice(s, p)
  {
    var i, j :| 0 <= i <= j <= |s[1..]| && s[1..][i..j] == p;
    assert s[i + 1..j + 1] == p;
  }

  /** A slice that is not a prefix is a slice of the tail. */
  lemma SliceNotAtStart(s: string, p: string)
    requires HasSlice(s, p) && !StartsWith(s, p)
    ensures |s| > 0 && HasSlice(s[1..], p)
  {
    var i, j :| 0 <= i <= j <= |s| && s[i..j] == p;
    assert i > 0;
    assert s[1..][i - 1..j - 1] == p;
  }

  /** The computable test agrees with the declarative one, in both directions. */
  lemma {:induction false} ContainsIsSubstring(s: string, p: string)
    ensures Contains(s, p) <==> HasSlice(s, p)
    decreases |s|
  {
    if StartsWith(s, p) {
      assert s[0..|p|] == p;
    } else if |s| > 0 {
      ContainsIsSubstring(s[1..], p);
      if HasSlice(s[1..], p) {
        SliceOfTail(s, p);
      }
      if HasSlice(s, p) {
        SliceNotAtStart(s, p);
      }
    } else if HasSlice(s, p) {
      SliceNotAtStart(s, p);
    }
  }

  /** Upper-casing distributes over concatenation. */
  lemma UpperConcat(a: string, b: string)
    ensures Upper(a + b) == Upper(a) + Upper(b)
  {
    var u := Upper(a + b);
    forall i | 0 <= i < |a + b|
      ensures u[i] == (Upper(a) + Upper(b))[i]
    {
      if i < |a| {
        assert (a + b)[i] == a[i];
      } else {
        assert (a + b)[i] == b[i - |a|];
      }
    }
  }

  /** A piece whose upper-case form is `p`, written in any case and anywhere in
      a string, makes the upper-cased string contain `p`. */
  lemma UpperContains(prefix: string, piece: string, suffix: string, p: string)
    requires Upper(piece) == p
    ensures Contains(Upper(prefix + piece + suffix), p)
  {
    UpperConcat(prefix + piece, suffix);
    UpperConcat(prefix, piece);
    var u := Upper(prefix + piece + suffix);
    assert u == Upper(prefix) + p + Upper(suffix);
    assert u[|prefix|..|prefix| + |p|] == p;
    ContainsIsSubstring(u, p);
  }

  /** A string no longer than `p` contains `p` only by being `p`. */
  lemma ContainsShort(s: string, p: string)
    requires |s| <= |p|
    ensures Contains(s, p) <==> s == p
  {
    ContainsIsSubstring(s, p);
    if Contains(s, p) {
      var i, j :| 0 <= i <= j <= |s| && s[i..j] == p;
      assert s[0..|s|] == s;
    } else {
      assert s[0..|s|] == s;
    }
  }
}
