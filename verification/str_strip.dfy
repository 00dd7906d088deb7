/**
  Python's `str.strip()` with no argument, applied by `generate_question` to
  the model's reply before it is parsed: leading and trailing whitespace is
  removed, where whitespace is every code point for which `str.isspace()`
  holds.
 */
module StrStrip {
  import opened StrSplit

  /** The code points Python's `str.isspace()` accepts. */
  predicate IsSpace(c: char)
  {
    var n := c as int;
    || 0x09 <= n <= 0x0D
    || 0x1C <= n <= 0x20
    || n == 0x85 || n == 0xA0 || n == 0x1680
    || 0x2000 <= n <= 0x200A
    || n == 0x2028 || n == 0x2029 || n == 0x202F || n == 0x205F || n == 0x3000
  }

  /** Length of the whitespace run at the start of `s`. */
  function LeadingSpaces(s: string): (n: nat)
    ensures n <= |s|
    ensures forall k :: 0 <= k < n ==> IsSpace(s[k])
    ensures n < |s| ==> !IsSpace(s[n])
  {
    if |s| == 0 || !IsSpace(s[0]) then 0 else 1 + LeadingSpaces(s[1..])
  }

  /** Length of the whitespace run at the end of `s`. */
  function TrailingSpaces(s: string): (n: nat)
    ensures n <= |s|
    ensures forall k :: |s| - n <= k < |s| ==> IsSpace(s[k])
    ensures n < |s| ==> !IsSpace(s[|s| - 1 - n])
  {
    if |s| == 0 || !IsSpace(s[|s| - 1]) then 0 else 1 + TrailingSpaces(s[..|s| - 1])
  }

  /** `s.strip()`: the part of `s` between its leading and its trailing whitespace. */
  function Strip(s: string): (r: string)
    ensures LeadingSpaces(s) + |r| <= |s|
    ensures r == s[LeadingSpaces(s)..LeadingSpaces(s) + |r|]
    ensures forall k :: LeadingSpaces(s) + |r| <= k < |s| ==> IsSpace(s[k])
    ensures |r| > 0 ==> !IsSpace(r[0]) && !IsSpace(r[|r| - 1])
  {
    var i := LeadingSpaces(s);
    if i == |s| then "" else s[i..|s| - TrailingSpaces(s)]
  }

  lemma {:induction false} SpacesHaveNoComma(s: string)
    requires forall k :: 0 <= k < |s| ==> IsSpace(s[k])
    ensures CommaCount(s) == 0
    decreases |s|
  {
    if |s| > 0 {
      assert IsSpace(s[0]);
      SpacesHaveNoComma(s[1..]);
    }
  }

  /** Stripping never removes a separator, so it cannot change whether a reply is accepted. */
  lemma {:induction false} StripKeepsCommas(s: string)
    ensures CommaCount(Strip(s)) == CommaCount(s)
  {
    var i := LeadingSpaces(s);
    var r := Strip(s);
    var j := i + |r|;
    assert s == s[..i] + (r + s[j..]);
    SpacesHaveNoComma(s[..i]);
    SpacesHaveNoComma(s[j..]);
    CommaCountAppend(s[..i], r + s[j..]);
    CommaCountAppend(r, s[j..]);
  }

  /** Stripping twice is stripping once. */
  lemma {:induction false} StripIdempotent(s: string)
    ensures Strip(Strip(s)) == Strip(s)
  {
    var r := Strip(s);
    if |r| > 0 {
      assert LeadingSpaces(r) == 0;
      assert TrailingSpaces(r) == 0;
      assert r[0..|r|] == r;
    }
  }
}
