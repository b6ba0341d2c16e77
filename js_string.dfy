/** String primitives the search endpoint and the design registry rely on:
    `toLowerCase`, `toUpperCase` of one character, `trim` and `includes`,
    over strings as sequences of characters. Case mapping is ASCII only;
    `trim` removes exactly the characters ECMAScript counts as white space
    or line terminators. */
module JsString {

  /** `toLowerCase` restricted to ASCII: 'A'..'Z' become 'a'..'z'. */
  function LowerChar(c: char): (d: char)
    ensures 'A' <= c <= 'Z' ==> 'a' <= d <= 'z' && d as int - c as int == 32
    ensures !('A' <= c <= 'Z') ==> d == c
  {
    if 'A' <= c <= 'Z' then (c as int + 32) as char else c
  }

  /** `toUpperCase` restricted to ASCII: 'a'..'z' become 'A'..'Z'. */
  function UpperChar(c: char): (d: char)
    ensures 'a' <= c <= 'z' ==> 'A' <= d <= 'Z' && c as int - d as int == 32
    ensures !('a' <= c <= 'z') ==> d == c
  {
    if 'a' <= c <= 'z' then (c as int - 32) as char else c
  }

  /** `s.toLowerCase()`, character by character. */
  function Lower(s: string): (r: string)
    ensures |r| == |s|
    ensures forall i :: 0 <= i < |s| ==> r[i] == LowerChar(s[i])
    ensures forall i :: 0 <= i < |r| ==> !('A' <= r[i] <= 'Z')
  {
    if s == [] then [] else [LowerChar(s[0])] + Lower(s[1..])
  }

  /** Lower-casing twice is lower-casing once. */
  lemma {:induction false} LowerIdempotent(s: string)
    ensures Lower(Lower(s)) == Lower(s)
  {
    if s != [] {
      LowerIdempotent(s[1..]);
      assert Lower(s)[1..] == Lower(s[1..]);
    }
  }

  /** The characters `String.prototype.trim` removes: the ECMAScript
      WhiteSpace code points (tab, VT, FF, space, NBSP, BOM and the
      space separators) and the LineTerminator code points. */
  predicate IsSpace(c: char)
    ensures IsSpace(c) ==> LowerChar(c) == c && UpperChar(c) == c
  {
    || c == '\t' || c == '\n' || c == '\U{000B}' || c == '\U{000C}' || c == '\r'
    || c == ' ' || c == '\U{00A0}' || c == '\U{1680}'
    || ('\U{2000}' <= c <= '\U{200A}')
    || c == '\U{2028}' || c == '\U{2029}' || c == '\U{202F}' || c == '\U{205F}'
    || c == '\U{3000}' || c == '\U{FEFF}'
  }

  /** Lower-casing neither creates nor removes white space. */
  lemma LowerKeepsSpace(c: char)
    ensures IsSpace(LowerChar(c)) <==> IsSpace(c)
  {
  }

  predicate AllSpace(s: string)
  {
    forall i :: 0 <= i < |s| ==> IsSpace(s[i])
  }

  /** Removes leading white space: the result is the longest suffix of `s`
      that does not start with white space. */
  function TrimStart(s: string): (r: string)
    ensures |r| <= |s| && r == s[|s| - |r|..]
    ensures AllSpace(s[..|s| - |r|])
    ensures r != [] ==> !IsSpace(r[0])
  {
    if s != [] && IsSpace(s[0]) then TrimStart(s[1..]) else s
  }

  /** Removes trailing white space: the result is the longest prefix of `s`
      that does not end with white space. */
  function TrimEnd(s: string): (r: string)
    ensures |r| <= |s| && r == s[..|r|]
    ensures AllSpace(s[|r|..])
    ensures r != [] ==> !IsSpace(r[|r| - 1])
  {
    if s != [] && IsSpace(s[|s| - 1]) then TrimEnd(s[..|s| - 1]) else s
  }

  /** `r` is the slice of `s` at offset `k`, with only white space
      before and after it. */
  predicate SpaceFramed(s: string, r: string, k: int)
  {
    && 0 <= k <= |s| - |r| && r == s[k..k + |r|]
    && AllSpace(s[..k]) && AllSpace(s[k + |r|..])
  }

  /** `s.trim()`: the slice of `s` left after removing white space at both
      ends. It is empty exactly when `s` is nothing but white space. */
  function Trim(s: string): (r: string)
    ensures |r| <= |s|
    ensures r == [] <==> AllSpace(s)
    ensures r != [] ==> !IsSpace(r[0]) && !IsSpace(r[|r| - 1])
    ensures exists k :: SpaceFramed(s, r, k)
  {
    var t := TrimStart(s);
    var r := TrimEnd(t);
    TrimSlice(s, t, r);
    r
  }

  lemma TrimSlice(s: string, t: string, r: string)
    requires t == TrimStart(s) && r == TrimEnd(t)
    ensures SpaceFramed(s, r, |s| - |t|)
    ensures r == [] <==> AllSpace(s)
  {
    var k := |s| - |t|;
    SliceOfSuffix(s, t, r, k);
    assert s[k + |r|..] == t[|r|..];
    if r == [] {
      AllSpaceConcat(s[..k], t);
      assert s == s[..k] + t;
    }
  }

  lemma SliceOfSuffix(s: string, t: string, r: string, k: nat)
    requires k <= |s| && t == s[k..] && |r| <= |t| && r == t[..|r|]
    ensures r == s[k..k + |r|] && t[|r|..] == s[k + |r|..]
  {
  }

  lemma AllSpaceConcat(a: string, b: string)
    requires AllSpace(a) && AllSpace(b)
    ensures AllSpace(a + b)
  {
    forall i | 0 <= i < |a + b| ensures IsSpace((a + b)[i]) {
      if i < |a| { assert (a + b)[i] == a[i]; } else { assert (a + b)[i] == b[i - |a|]; }
    }
  }

  /** Lower-casing and trimming commute, so `q.toLowerCase().trim()` is
      the lower-cased form of `q.trim()`. */
  lemma {:induction false} TrimLowerCommute(s: string)
    ensures Trim(Lower(s)) == Lower(Trim(s))
  {
    TrimStartLower(s);
    TrimEndLower(TrimStart(s));
  }

  lemma {:induction false} TrimStartLower(s: string)
    ensures TrimStart(Lower(s)) == Lower(TrimStart(s))
  {
    if s != [] {
      LowerKeepsSpace(s[0]);
      assert Lower(s)[1..] == Lower(s[1..]);
      TrimStartLower(s[1..]);
    }
  }

  lemma {:induction false} TrimEndLower(s: string)
    ensures TrimEnd(Lower(s)) == Lower(TrimEnd(s))
  {
    if s != [] {
      LowerKeepsSpace(s[|s| - 1]);
      LowerPrefix(s, |s| - 1);
      TrimEndLower(s[..|s| - 1]);
    }
  }

  lemma LowerPrefix(s: string, n: nat)
    requires n <= |s|
    ensures Lower(s)[..n] == Lower(s[..n])
  {
  }

  /** `pat` occurs in `text` starting at index `k`. */
  predicate OccursAt(text: string, pat: string, k: int)
  {
    0 <= k && k + |pat| <= |text| && text[k..k + |pat|] == pat
  }

  /** `pat` occurs somewhere in `text`. */
  ghost predicate Occurs(text: string, pat: string)
  {
    exists k :: OccursAt(text, pat, k)
  }

  /** `text.includes(pat)`: a left-to-right scan that stops at the first
      occurrence. It succeeds exactly when `pat` occurs somewhere in
      `text`; in particular the empty string is found in every string. */
  function Includes(text: string, pat: string): (r: bool)
    ensures r <==> Occurs(text, pat)
    decreases |text|
  {
    if |pat| > |text| then false
    else if text[..|pat|] == pat then
      assert OccursAt(text, pat, 0);
      true
    else
      IncludesShift(text, pat);
      Includes(text[1..], pat)
  }

  /** When `pat` does not start `text`, its occurrences in `text` are those
      in `text[1..]`, shifted by one. */
  lemma IncludesShift(text: string, pat: string)
    requires |pat| <= |text| && text[..|pat|] != pat
    ensures Occurs(text, pat) <==> Occurs(text[1..], pat)
  {
    forall k | OccursAt(text[1..], pat, k) ensures OccursAt(text, pat, k + 1) {
      assert text[1..][k..k + |pat|] == text[k + 1..k + 1 + |pat|];
    }
    forall k | OccursAt(text, pat, k) ensures OccursAt(text[1..], pat, k - 1) {
      assert k != 0;
      assert text[1..][k - 1..k - 1 + |pat|] == text[k..k + |pat|];
    }
  }
}
