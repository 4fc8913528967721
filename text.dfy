/** Python's `str.strip()` with no argument, and the city prompt built on it. */
module Text {
  import opened Wrappers

  /** The characters for which Python's `str.isspace()` holds. */
  predicate IsSpace(c: char) {
    ('\U{9}' <= c <= '\U{D}') || ('\U{1C}' <= c <= '\U{20}') || c == '\U{85}' || c == '\U{A0}'
    || c == '\U{1680}' || ('\U{2000}' <= c <= '\U{200A}') || c == '\U{2028}' || c == '\U{2029}'
    || c == '\U{202F}' || c == '\U{205F}' || c == '\U{3000}'
  }

  predicate AllSpace(s: string) {
    forall i :: 0 <= i < |s| ==> IsSpace(s[i])
  }

  /** A string with no white space at either end. */
  predicate Stripped(s: string) {
    s == [] || (!IsSpace(s[0]) && !IsSpace(s[|s| - 1]))
  }

  /** The first index at or after `i` that does not hold white space (`|s|` if none). */
  function SkipForward(s: string, i: nat): (k: nat)
    requires i <= |s|
    ensures i <= k <= |s|
    ensures forall m :: i <= m < k ==> IsSpace(s[m])
    ensures k == |s| || !IsSpace(s[k])
    decreases |s| - i
  {
    if i == |s| || !IsSpace(s[i]) then i else SkipForward(s, i + 1)
  }

  /** The least index `k >= lo` with only white space in `s[k..j]`. */
  function SkipBackward(s: string, lo: nat, j: nat): (k: nat)
    requires lo <= j <= |s|
    ensures lo <= k <= j
    ensures forall m :: k <= m < j ==> IsSpace(s[m])
    ensures k == lo || !IsSpace(s[k - 1])
    decreases j - lo
  {
    if j == lo || !IsSpace(s[j - 1]) then j else SkipBackward(s, lo, j - 1)
  }

  /** Python's `s.strip()`: the slice between the first and the last character that is not white space. */
  function Strip(s: string): (r: string)
    ensures |r| <= |s|
    ensures Stripped(r)
    ensures r == [] <==> AllSpace(s)
  {
    var i := SkipForward(s, 0);
    var j := SkipBackward(s, i, |s|);
    assert i < j ==> !IsSpace(s[j - 1]);
    s[i..j]
  }

  /** Every string is its stripped form framed by white space. */
  lemma StripFrame(s: string) returns (pre: string, post: string)
    ensures AllSpace(pre) && AllSpace(post)
    ensures s == pre + Strip(s) + post
  {
    var i := SkipForward(s, 0);
    var j := SkipBackward(s, i, |s|);
    pre, post := s[..i], s[j..];
    assert s == s[..i] + s[i..j] + s[j..];
  }

  /** White space around a stripped core is all that Strip removes, so the frame of StripFrame is unique. */
  lemma StripPadded(pre: string, core: string, post: string)
    requires AllSpace(pre) && AllSpace(post) && Stripped(core)
    ensures Strip(pre + core + post) == core
  {
    var s := pre + core + post;
    var i := SkipForward(s, 0);
    var j := SkipBackward(s, i, |s|);
    if core == [] {
      forall m | 0 <= m < |s| ensures IsSpace(s[m]) {
        if m < |pre| { assert s[m] == pre[m]; } else { assert s[m] == post[m - |pre|]; }
      }
    } else {
      assert s[|pre|] == core[0];
      assert forall m :: 0 <= m < |pre| ==> s[m] == pre[m];
      assert i == |pre|;
      assert s[|pre| + |core| - 1] == core[|core| - 1];
      assert forall m :: |pre| + |core| <= m < |s| ==> s[m] == post[m - |pre| - |core|];
      assert j == |pre| + |core|;
      assert s[i..j] == core;
    }
  }

  /** Stripping twice is stripping once. */
  lemma StripIdempotent(s: string)
    ensures Strip(Strip(s)) == Strip(s)
  {
    var r := Strip(s);
    assert [] + r + [] == r;
    StripPadded([], r, []);
  }

  /** `prompt_city_name`: the typed line stripped, or nothing when that leaves the empty string. */
  function PromptCityName(line: string): (r: Option<string>)
    ensures r.None? <==> AllSpace(line)
    ensures r.Some? ==> r.value != [] && Stripped(r.value) && r.value == Strip(line)
  {
    var city := Strip(line);
    if city == [] then None else Some(city)
  }
}
