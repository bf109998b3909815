/** Python's `str.strip()` with no argument, as the line logger applies it to each line. */
module Text {

  /** Python's `str.isspace()` for a single character: the ASCII whitespace and
      separator characters and the Unicode space separators. */
  predicate IsSpace(c: char)
  {
    ('\t' <= c <= '\r') || ('\U{1C}' <= c <= '\U{1F}') || c == ' '
    || c == '\U{85}' || c == '\U{A0}' || c == '\U{1680}'
    || ('\U{2000}' <= c <= '\U{200A}') || c == '\U{2028}' || c == '\U{2029}'
    || c == '\U{202F}' || c == '\U{205F}' || c == '\U{3000}'
  }

  /** Some entries of the table: the ASCII whitespace, the line and paragraph separators
      and the ideographic space are whitespace; the zero-width space and letters are not. */
  lemma WhitespaceTable()
    ensures IsSpace(' ') && IsSpace('\t') && IsSpace('\n') && IsSpace('\r')
    ensures IsSpace('\U{0B}') && IsSpace('\U{0C}') && IsSpace('\U{85}') && IsSpace('\U{A0}')
    ensures IsSpace('\U{2028}') && IsSpace('\U{2029}') && IsSpace('\U{3000}')
    ensures !IsSpace('\U{200B}') && !IsSpace('\U{FEFF}') && !IsSpace('a') && !IsSpace('[')
  {
  }

  predicate AllSpace(s: string)
  {
    forall k :: 0 <= k < |s| ==> IsSpace(s[k])
  }

  /** No whitespace at either end. */
  predicate Trimmed(s: string)
  {
    s == [] || (!IsSpace(s[0]) && !IsSpace(s[|s| - 1]))
  }

  /** The length of the longest all-whitespace prefix. */
  function LeadingSpaces(s: string): (n: nat)
    ensures n <= |s| && AllSpace(s[..n])
    ensures n < |s| ==> !IsSpace(s[n])
  {
    if s == [] || !IsSpace(s[0]) then 0
    else
      var m := LeadingSpaces(s[1..]);
      assert forall k :: 1 <= k < m + 1 ==> s[k] == s[1..][..m][k - 1];
      m + 1
  }

  /** The length of the longest all-whitespace suffix. */
  function TrailingSpaces(s: string): (n: nat)
    ensures n <= |s| && AllSpace(s[|s| - n..])
    ensures n < |s| ==> !IsSpace(s[|s| - 1 - n])
  {
    if s == [] || !IsSpace(s[|s| - 1]) then 0
    else
      var init := s[..|s| - 1];
      var m := TrailingSpaces(init);
      assert forall k :: |s| - 1 - m <= k < |s| - 1 ==> s[k] == init[|init| - m..][k - (|s| - 1 - m)];
      m + 1
  }

  lemma SpaceSuffix(s: string, b: nat)
    requires b <= |s| && AllSpace(s[b..])
    ensures forall k :: b <= k < |s| ==> IsSpace(s[k])
  {
    forall k | b <= k < |s| ensures IsSpace(s[k]) { assert s[k] == s[b..][k - b]; }
  }

  /** `s.strip()`: `s` without its leading and trailing whitespace. */
  function Strip(s: string): (r: string)
    ensures Trimmed(r)
    ensures r == [] <==> AllSpace(s)
  {
    var a := LeadingSpaces(s);
    if a == |s| then
      assert s[..a] == s;
      []
    else
      var b := |s| - TrailingSpaces(s);
      SpaceSuffix(s, b);
      assert a < b;
      s[a..b]
  }

  /** Where `s.strip()` sits inside `s`: at `i`, with only whitespace before and after it. */
  lemma StripPosition(s: string) returns (i: nat)
    ensures i + |Strip(s)| <= |s| && s[i..i + |Strip(s)|] == Strip(s)
    ensures forall k :: 0 <= k < i ==> IsSpace(s[k])
    ensures forall k :: i + |Strip(s)| <= k < |s| ==> IsSpace(s[k])
  {
    var a := LeadingSpaces(s);
    var n := TrailingSpaces(s);
    forall k | 0 <= k < a ensures IsSpace(s[k]) { assert s[k] == s[..a][k]; }
    SpaceSuffix(s, |s| - n);
    i := if a == |s| then 0 else a;
  }

  /** `strip` is determined by its contract: whitespace around a trimmed string is
      exactly what it removes. */
  lemma StripUnique(pre: string, t: string, post: string)
    requires AllSpace(pre) && AllSpace(post) && Trimmed(t)
    ensures Strip(pre + t + post) == t
  {
    var s := pre + t + post;
    assert forall k :: 0 <= k < |pre| ==> s[k] == pre[k];
    assert forall k :: |pre| <= k < |pre| + |t| ==> s[k] == t[k - |pre|];
    assert forall k :: |pre| + |t| <= k < |s| ==> s[k] == post[k - |pre| - |t|];
    if t == [] {
      assert AllSpace(s);
    } else {
      assert !IsSpace(s[|pre|]) && !IsSpace(s[|pre| + |t| - 1]);
      var i := StripPosition(s);
      var r := Strip(s);
      var j := i + |r|;
      assert r != [] && r[0] == s[i] && r[|r| - 1] == s[j - 1];
      assert i == |pre| && j == |pre| + |t|;
      assert s[|pre|..|pre| + |t|] == t;
    }
  }

  /** Stripping twice is stripping once. */
  lemma StripIdempotent(s: string)
    ensures Strip(Strip(s)) == Strip(s)
  {
    var r := Strip(s);
    assert [] + r + [] == r;
    StripUnique([], r, []);
  }
}
