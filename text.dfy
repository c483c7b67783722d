/**
 * String primitives the TypeScript server and the Kotlin client rely on,
 * over `string` = `seq<char>` (one char per Unicode code point).
 */
module Text {

  /** The code points `String.prototype.trim` removes: ECMAScript WhiteSpace and LineTerminator. */
  predicate IsJsSpace(c: char) {
    var n := c as int;
    n == 0x09 || n == 0x0A || n == 0x0B || n == 0x0C || n == 0x0D || n == 0x20 || n == 0xA0 ||
    n == 0x1680 || (0x2000 <= n <= 0x200A) || n == 0x2028 || n == 0x2029 || n == 0x202F ||
    n == 0x205F || n == 0x3000 || n == 0xFEFF
  }

  /** Kotlin's `Char.isWhitespace()`: Java whitespace or a Unicode space separator. */
  predicate IsKotlinSpace(c: char) {
    var n := c as int;
    (0x09 <= n <= 0x0D) || (0x1C <= n <= 0x20) || n == 0xA0 || n == 0x1680 ||
    (0x2000 <= n <= 0x200A) || n == 0x2028 || n == 0x2029 || n == 0x202F || n == 0x205F || n == 0x3000
  }

  /** Kotlin's `isBlank()`: empty or whitespace only. */
  predicate IsBlank(s: string) {
    forall i :: 0 <= i < |s| ==> IsKotlinSpace(s[i])
  }

  /** Number of leading JavaScript whitespace characters. */
  function LeadingSpaces(s: string): (n: nat)
    ensures n <= |s|
    ensures forall i :: 0 <= i < n ==> IsJsSpace(s[i])
    ensures n < |s| ==> !IsJsSpace(s[n])
  {
    if s != [] && IsJsSpace(s[0]) then 1 + LeadingSpaces(s[1..]) else 0
  }

  /** Number of trailing JavaScript whitespace characters. */
  function TrailingSpaces(s: string): (n: nat)
    ensures n <= |s|
    ensures forall i :: |s| - n <= i < |s| ==> IsJsSpace(s[i])
    ensures n < |s| ==> !IsJsSpace(s[|s| - 1 - n])
  {
    if s != [] && IsJsSpace(s[|s| - 1]) then 1 + TrailingSpaces(s[..|s| - 1]) else 0
  }

  /** `String.prototype.trim`. */
  function Trim(s: string): (r: string)
    ensures |r| <= |s|
    ensures r == [] || (!IsJsSpace(r[0]) && !IsJsSpace(r[|r| - 1]))
    ensures LeadingSpaces(s) + |r| <= |s| && r == s[LeadingSpaces(s)..LeadingSpaces(s) + |r|]
    ensures forall i :: LeadingSpaces(s) + |r| <= i < |s| ==> IsJsSpace(s[i])
  {
    var t := s[LeadingSpaces(s)..];
    t[..|t| - TrailingSpaces(t)]
  }

  /** A string with no surrounding whitespace is its own trim. */
  lemma TrimUnchanged(s: string)
    requires s == [] || (!IsJsSpace(s[0]) && !IsJsSpace(s[|s| - 1]))
    ensures Trim(s) == s
  {
    assert LeadingSpaces(s) == 0;
    assert TrailingSpaces(s) == 0;
  }

  /** `trim` is idempotent. */
  lemma TrimIdempotent(s: string)
    ensures Trim(Trim(s)) == Trim(s)
  {
    TrimUnchanged(Trim(s));
  }

  /**
   * Trimming `x + suffix`, where `x` has a non-space at `k` and `suffix` ends
   * in a non-space, only strips the front of `x`.
   */
  lemma TrimKeepsSuffix(x: string, k: nat, suffix: string)
    requires k < |x| && !IsJsSpace(x[k])
    requires suffix != [] && !IsJsSpace(suffix[|suffix| - 1])
    ensures EndsWith(Trim(x + suffix), suffix)
  {
    var s := x + suffix;
    var lead := LeadingSpaces(s);
    assert s[k] == x[k];
    assert lead <= k;
    var r := Trim(s);
    assert s[|s| - 1] == suffix[|suffix| - 1];
    assert |r| == |s| - lead;
    assert r == s[lead..];
    assert r[|r| - |suffix|..] == suffix;
  }

  predicate EndsWith(s: string, suffix: string) {
    |suffix| <= |s| && s[|s| - |suffix|..] == suffix
  }

  /** ASCII case folding; characters outside A-Z are unchanged. */
  function LowerChar(c: char): char {
    if 'A' <= c <= 'Z' then (c as int + 32) as char else c
  }

  /** `toLowerCase()` / `lowercase()`, restricted to ASCII letters. */
  function Lower(s: string): (r: string)
    ensures |r| == |s|
    ensures forall i :: 0 <= i < |s| ==> r[i] == LowerChar(s[i])
  {
    seq(|s|, i requires 0 <= i < |s| => LowerChar(s[i]))
  }

  predicate StartsWith(s: string, prefix: string) {
    |prefix| <= |s| && s[..|prefix|] == prefix
  }

  /** `includes`: `w` occurs in `s` at some offset. */
  predicate Contains(s: string, w: string) {
    exists k :: 0 <= k <= |s| && StartsWith(s[k..], w)
  }

  lemma ContainsAt(s: string, w: string, k: nat)
    requires k + |w| <= |s| && s[k..k + |w|] == w
    ensures Contains(s, w)
  {
    assert StartsWith(s[k..], w) by {
      assert s[k..][..|w|] == s[k..k + |w|];
    }
  }

  /** Every occurrence has an offset. */
  lemma ContainsOffset(s: string, w: string) returns (k: nat)
    requires Contains(s, w)
    ensures k + |w| <= |s| && s[k..k + |w|] == w
  {
    k :| 0 <= k <= |s| && StartsWith(s[k..], w);
    assert s[k..][..|w|] == s[k..k + |w|];
  }

  /** `w` cannot occur in `s` if one of its characters does not. */
  lemma MissingChar(s: string, w: string, c: char)
    requires c in w && c !in s
    ensures !Contains(s, w)
  {
    if Contains(s, w) {
      var k := ContainsOffset(s, w);
    }
  }

  lemma ContainsSuffixOf(s: string, w: string)
    ensures Contains(s + w, w)
  {
    ContainsAt(s + w, w, |s|);
  }

  lemma ContainsPrefixOf(w: string, s: string)
    ensures Contains(w + s, w)
  {
    ContainsAt(w + s, w, 0);
  }

  /** An occurrence in `s` survives appending `t`. */
  lemma ContainsBefore(s: string, t: string, w: string)
    requires Contains(s, w)
    ensures Contains(s + t, w)
  {
    var k := ContainsOffset(s, w);
    assert (s + t)[k..k + |w|] == s[k..k + |w|];
    ContainsAt(s + t, w, k);
  }

  /** An occurrence in `s` survives prepending `t`. */
  lemma ContainsAfter(t: string, s: string, w: string)
    requires Contains(s, w)
    ensures Contains(t + s, w)
  {
    var k := ContainsOffset(s, w);
    assert (t + s)[|t| + k..|t| + k + |w|] == s[k..k + |w|];
    ContainsAt(t + s, w, |t| + k);
  }

  /** An occurrence inside `s` survives concatenation on either side. */
  lemma ContainsInside(a: string, s: string, b: string, w: string)
    requires Contains(s, w)
    ensures Contains(a + s + b, w)
  {
    var k := ContainsOffset(s, w);
    assert (a + s + b)[|a| + k..|a| + k + |w|] == s[k..k + |w|];
    ContainsAt(a + s + b, w, |a| + k);
  }

  /**
   * Trimming never cuts through a word that starts and ends with
   * non-whitespace characters.
   */
  lemma TrimKeepsWord(s: string, w: string)
    requires Contains(s, w) && |w| > 0
    requires !IsJsSpace(w[0]) && !IsJsSpace(w[|w| - 1])
    ensures Contains(Trim(s), w)
  {
    var k := ContainsOffset(s, w);
    var lead := LeadingSpaces(s);
    var r := Trim(s);
    assert !IsJsSpace(s[k]) by { assert s[k] == s[k..k + |w|][0]; }
    assert lead <= k;
    assert !IsJsSpace(s[k + |w| - 1]) by { assert s[k + |w| - 1] == s[k..k + |w|][|w| - 1]; }
    assert k + |w| <= lead + |r|;
    var j := k - lead;
    assert r[j..j + |w|] == s[k..k + |w|] by {
      assert r == s[lead..lead + |r|];
      var rw, sw := r[j..j + |w|], s[k..k + |w|];
      forall t | 0 <= t < |w| ensures rw[t] == sw[t] {
        assert rw[t] == r[j + t] && sw[t] == s[k + t];
        assert r[j + t] == s[lead..lead + |r|][j + t] == s[k + t];
      }
    }
    ContainsAt(r, w, j);
  }

  /** `replace(/\\/g, '/')`: every occurrence of `from` replaced by `to`. */
  function ReplaceChar(s: string, from: char, to: char): (r: string)
    ensures |r| == |s|
    ensures forall i :: 0 <= i < |s| ==> r[i] == (if s[i] == from then to else s[i])
  {
    seq(|s|, i requires 0 <= i < |s| => if s[i] == from then to else s[i])
  }

  /** `Array.prototype.join`. */
  function Join(parts: seq<string>, sep: string): string {
    if parts == [] then ""
    else if |parts| == 1 then parts[0]
    else parts[0] + sep + Join(parts[1..], sep)
  }

  /** Every part occurs in the joined text. */
  lemma {:induction false} JoinContains(parts: seq<string>, sep: string, i: nat)
    requires i < |parts|
    ensures Contains(Join(parts, sep), parts[i])
  {
    if |parts| == 1 {
      ContainsAt(parts[0], parts[0], 0);
    } else if i == 0 {
      ContainsPrefixOf(parts[0], sep + Join(parts[1..], sep));
      assert parts[0] + (sep + Join(parts[1..], sep)) == Join(parts, sep);
    } else {
      JoinContains(parts[1..], sep, i - 1);
      ContainsAfter(parts[0] + sep, Join(parts[1..], sep), parts[i]);
    }
  }
}
