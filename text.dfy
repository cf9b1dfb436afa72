/**
 The JavaScript string operations the feed handlers rely on: `trim` (used as a
 blank-input test), `toLowerCase` (used by the user search) and `includes`
 (substring test).
 */
module Text {

  /** The code points ECMAScript's `String.prototype.trim` strips: the
      WhiteSpace set (TAB, VT, FF, SP, NBSP, ZWNBSP and category Zs) and the
      LineTerminator set (LF, CR, LS, PS). */
  predicate IsJsWhitespace(c: char)
  {
    var n := c as int;
    n == 0x09 || n == 0x0A || n == 0x0B || n == 0x0C || n == 0x0D
    || n == 0x20 || n == 0xA0 || n == 0x1680 || (0x2000 <= n <= 0x200A)
    || n == 0x2028 || n == 0x2029 || n == 0x202F || n == 0x205F
    || n == 0x3000 || n == 0xFEFF
  }

  /** Drops the leading whitespace: the result is the longest suffix of `s`
      that does not start with whitespace. */
  function TrimStart(s: string): (r: string)
    ensures |r| <= |s| && r == s[|s| - |r|..]
    ensures forall i :: 0 <= i < |s| - |r| ==> IsJsWhitespace(s[i])
    ensures r != [] ==> !IsJsWhitespace(r[0])
  {
    if s != [] && IsJsWhitespace(s[0]) then TrimStart(s[1..]) else s
  }

  /** Drops the trailing whitespace: the result is the longest prefix of `s`
      that does not end with whitespace. */
  function TrimEnd(s: string): (r: string)
    ensures |r| <= |s| && r == s[..|r|]
    ensures forall i :: |r| <= i < |s| ==> IsJsWhitespace(s[i])
    ensures r != [] ==> !IsJsWhitespace(r[|r| - 1])
  {
    if s != [] && IsJsWhitespace(s[|s| - 1]) then TrimEnd(s[..|s| - 1]) else s
  }

  /** `s.trim()`: no whitespace is left at either end, and the result is
      empty exactly when every character of `s` is whitespace. */
  function Trim(s: string): (r: string)
    ensures |r| <= |s|
    ensures r != [] ==> !IsJsWhitespace(r[0]) && !IsJsWhitespace(r[|r| - 1])
    ensures r == [] <==> forall i :: 0 <= i < |s| ==> IsJsWhitespace(s[i])
  {
    TrimBothEnds(s);
    TrimEnd(TrimStart(s))
  }

  /** Trimming the start and then the end leaves no whitespace at either end,
      and nothing at all exactly when `s` is all whitespace. */
  lemma TrimBothEnds(s: string)
    ensures var r := TrimEnd(TrimStart(s));
      (r != [] ==> !IsJsWhitespace(r[0]) && !IsJsWhitespace(r[|r| - 1]))
      && (r == [] <==> forall i :: 0 <= i < |s| ==> IsJsWhitespace(s[i]))
  {
    var t := TrimStart(s);
    var r := TrimEnd(t);
    if r != [] {
      assert r[0] == t[0];
    }
    if r == [] {
      assert forall i :: 0 <= i < |t| ==> IsJsWhitespace(t[i]);
    }
  }

  /** `!s.trim()`, JavaScript treating the empty string as false: every
      character of `s` is whitespace, so in particular `""` is blank. */
  predicate IsBlank(s: string): (b: bool)
    ensures b <==> forall i :: 0 <= i < |s| ==> IsJsWhitespace(s[i])
  {
    Trim(s) == ""
  }

  /** The upper-case letters `toLowerCase` is modelled on: ASCII A-Z, the
      Cyrillic А-Я (U+0410-U+042F) and Ѐ-Џ (U+0400-U+040F). */
  predicate IsCapital(c: char)
  {
    ('A' <= c <= 'Z') || ('\U{0400}' <= c <= '\U{042F}')
  }

  /** One character of `toLowerCase`: capitals become their small letter,
      everything else is kept. */
  function LowerChar(c: char): (d: char)
    ensures !IsCapital(d)
    ensures !IsCapital(c) ==> d == c
    ensures IsCapital(c) ==> d != c
    ensures ('A' <= c <= 'Z') <==> ('a' <= d <= 'z' && d != c)
    ensures ('A' <= c <= 'Z' || '\U{0410}' <= c <= '\U{042F}') ==> d as int == c as int + 0x20
    ensures '\U{0400}' <= c <= '\U{040F}' ==> d as int == c as int + 0x50
  {
    if 'A' <= c <= 'Z' then (c as int + 0x20) as char
    else if '\U{0410}' <= c <= '\U{042F}' then (c as int + 0x20) as char
    else if '\U{0400}' <= c <= '\U{040F}' then (c as int + 0x50) as char
    else c
  }

  /** `s.toLowerCase()`, character by character: same length, each character
      lowered by `LowerChar` in place, so no capital is left, capitals are
      changed and every other character is kept. */
  function Lower(s: string): (r: string)
    ensures |r| == |s|
    ensures forall i :: 0 <= i < |s| ==> r[i] == LowerChar(s[i])
    ensures forall i :: 0 <= i < |s| ==> !IsCapital(r[i])
    ensures forall i :: 0 <= i < |s| ==> (r[i] == s[i] <==> !IsCapital(s[i]))
  {
    seq(|s|, i requires 0 <= i < |s| => LowerChar(s[i]))
  }

  /** Lowering is idempotent. */
  lemma LowerIdempotent(s: string)
    ensures Lower(Lower(s)) == Lower(s)
  {
  }

  /** `n` occurs in `h` starting at position `i`. */
  predicate OccursAt(h: string, n: string, i: int)
  {
    0 <= i && i + |n| <= |h| && h[i..i + |n|] == n
  }

  /** The meaning of `h.includes(n)`: `n` occurs somewhere in `h`. */
  ghost predicate ContainsSubstring(h: string, n: string)
  {
    exists i :: OccursAt(h, n, i)
  }

  /** One step of the scan: `n` occurs in `h` exactly when it is a prefix of
      `h` or occurs in the rest of `h`. */
  lemma {:induction false} ContainsStep(h: string, n: string)
    requires h != []
    ensures ContainsSubstring(h, n) <==> (|n| <= |h| && h[..|n|] == n) || ContainsSubstring(h[1..], n)
  {
    if ContainsSubstring(h, n) && !(|n| <= |h| && h[..|n|] == n) {
      var i :| OccursAt(h, n, i);
      assert i != 0;
      assert h[1..][i - 1..i - 1 + |n|] == h[i..i + |n|];
      assert OccursAt(h[1..], n, i - 1);
    }
    if |n| <= |h| && h[..|n|] == n {
      assert OccursAt(h, n, 0);
    }
    if ContainsSubstring(h[1..], n) {
      var i :| OccursAt(h[1..], n, i);
      assert h[1..][i..i + |n|] == h[i + 1..i + 1 + |n|];
      assert OccursAt(h, n, i + 1);
    }
  }

  /** `h.includes(n)`, by scanning the start positions of `h` left to right;
      true exactly when `n` occurs somewhere in `h`. */
  function Includes(h: string, n: string): (b: bool)
    ensures b <==> ContainsSubstring(h, n)
    decreases |h|
  {
    if |n| <= |h| && h[..|n|] == n then assert OccursAt(h, n, 0); true
    else if h == [] then false
    else ContainsStep(h, n); Includes(h[1..], n)
  }

  /** Every string includes the empty string. */
  lemma IncludesEmpty(h: string)
    ensures Includes(h, "")
  {
    assert h[..0] == "";
  }

  /** Whatever `h` includes starts with a character of `h`. */
  lemma IncludesFirstChar(h: string, n: string)
    requires |n| > 0 && Includes(h, n)
    ensures n[0] in h
  {
    var i :| OccursAt(h, n, i);
    assert h[i] == h[i..i + |n|][0];
  }
}
