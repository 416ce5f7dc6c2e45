/**
 The small part of Python's `str` that the blog validator relies on:
 `str.isspace` on one character and `str.strip()` with no argument.
 */
module PyStr {

  /** Python's whitespace set (the characters for which `c.isspace()` is true). */
  predicate IsSpace(c: char) {
    || '\t' <= c <= '\r'                 // tab, line feed, vertical tab, form feed, carriage return
    || '\U{1C}' <= c <= '\U{1F}'         // file, group, record and unit separators
    || c == ' '
    || c == '\U{85}'                     // next line
    || c == '\U{A0}'                     // no-break space
    || c == '\U{1680}'
    || '\U{2000}' <= c <= '\U{200A}'
    || c == '\U{2028}' || c == '\U{2029}'
    || c == '\U{202F}' || c == '\U{205F}'
    || c == '\U{3000}'
  }

  /** Every character of `s` is whitespace (vacuously true of the empty string). */
  predicate AllSpace(s: string) {
    forall i :: 0 <= i < |s| ==> IsSpace(s[i])
  }

  /** `s.lstrip()`: the suffix left after dropping the leading whitespace. */
  function StripLeading(s: string): (r: string)
    ensures |r| <= |s|
  {
    if |s| > 0 && IsSpace(s[0]) then StripLeading(s[1..]) else s
  }

  /** `s.rstrip()`: the prefix left after dropping the trailing whitespace. */
  function StripTrailing(s: string): (r: string)
    ensures |r| <= |s|
  {
    if |s| > 0 && IsSpace(s[|s| - 1]) then StripTrailing(s[..|s| - 1]) else s
  }

  /** `s.strip()`: whitespace removed from both ends. */
  function Strip(s: string): (r: string)
    ensures |r| <= |s|
  {
    StripTrailing(StripLeading(s))
  }

  /** `lstrip()` drops a whitespace prefix and stops at the first non-whitespace character. */
  lemma {:induction false} StripLeadingShape(s: string)
    ensures var r := StripLeading(s);
      && r == s[|s| - |r|..]
      && AllSpace(s[..|s| - |r|])
      && (r == [] || !IsSpace(r[0]))
  {
    if |s| > 0 && IsSpace(s[0]) {
      StripLeadingShape(s[1..]);
      var r := StripLeading(s);
      assert s[1..][..|s| - 1 - |r|] == s[1..|s| - |r|];
    }
  }

  /** `rstrip()` drops a whitespace suffix and stops at the last non-whitespace character. */
  lemma {:induction false} StripTrailingShape(s: string)
    ensures var r := StripTrailing(s);
      && r == s[..|r|]
      && AllSpace(s[|r|..])
      && (r == [] || !IsSpace(r[|r| - 1]))
  {
    if |s| > 0 && IsSpace(s[|s| - 1]) {
      StripTrailingShape(s[..|s| - 1]);
      var r := StripTrailing(s);
      assert s[..|s| - 1][|r|..] == s[|r|..|s| - 1];
    }
  }

  /**
   `strip()` keeps one contiguous slice of `s`: everything before and after it is
   whitespace, and the slice, when not empty, starts and ends with a non-whitespace character.
   */
  lemma StripShape(s: string)
    ensures var r, i := Strip(s), |s| - |StripLeading(s)|;
      && i + |r| <= |s|
      && r == s[i..i + |r|]
      && AllSpace(s[..i]) && AllSpace(s[i + |r|..])
      && (r == [] || (!IsSpace(r[0]) && !IsSpace(r[|r| - 1])))
  {
    var t := StripLeading(s);
    StripLeadingShape(s);
    StripTrailingShape(t);
    var r, i := Strip(s), |s| - |t|;
    assert s[i + |r|..] == t[|r|..];
  }

  /** A string made only of whitespace has nothing left after `lstrip()`. */
  lemma {:induction false} StripLeadingAllSpace(s: string)
    ensures AllSpace(s) ==> StripLeading(s) == []
  {
    if |s| > 0 {
      StripLeadingAllSpace(s[1..]);
    }
  }

  /** `s.strip() == ""` holds exactly when the string is empty or all whitespace. */
  lemma StripEmptyIffAllSpace(s: string)
    ensures Strip(s) == [] <==> AllSpace(s)
  {
    StripLeadingAllSpace(s);
    var t := StripLeading(s);
    StripLeadingShape(s);
    StripTrailingShape(t);
    if Strip(s) == [] {
      // the trailing pass removed all of t, so t is whitespace; since t cannot start
      // with whitespace it is empty, and then the leading pass removed all of s
      assert t[|Strip(s)|..] == t;
      assert s[..|s| - |t|] == s;
    }
  }
}
