/**
 * The JavaScript string operations the rule page relies on: `trim`,
 * `toLowerCase`, `includes`, and `.length` counted in UTF-16 code units.
 * `startsWith` is Dafny's prefix relation `p <= s` and needs no definition.
 */
module JsStrings {

  /** ECMAScript WhiteSpace and LineTerminator: what `trim` strips and what `parseInt` skips. */
  predicate IsWhiteSpace(c: char) {
    || c == '\t' || c == '\n' || c == '\U{000B}' || c == '\U{000C}' || c == '\r'
    || c == ' ' || c == '\U{00A0}' || c == '\U{1680}'
    || ('\U{2000}' <= c <= '\U{200A}')
    || c == '\U{2028}' || c == '\U{2029}' || c == '\U{202F}' || c == '\U{205F}'
    || c == '\U{3000}' || c == '\U{FEFF}'
  }

  predicate AllWhiteSpace(s: string) {
    forall i :: 0 <= i < |s| ==> IsWhiteSpace(s[i])
  }

  /** Drops the leading white space: the result is the suffix of `s` that starts at its first other character. */
  function TrimStart(s: string): (r: string)
    ensures |r| <= |s| && r == s[|s| - |r|..]
    ensures forall i :: 0 <= i < |s| - |r| ==> IsWhiteSpace(s[i])
    ensures r == [] || !IsWhiteSpace(r[0])
  {
    if s != [] && IsWhiteSpace(s[0]) then TrimStart(s[1..]) else s
  }

  /** Drops the trailing white space: the result is the prefix of `s` that ends at its last other character. */
  function TrimEnd(s: string): (r: string)
    ensures |r| <= |s| && r == s[..|r|]
    ensures forall i :: |r| <= i < |s| ==> IsWhiteSpace(s[i])
    ensures r == [] || !IsWhiteSpace(r[|r| - 1])
  {
    if s != [] && IsWhiteSpace(s[|s| - 1]) then TrimEnd(s[..|s| - 1]) else s
  }

  /**
   * `String.prototype.trim`: the slice of `s` left once TrimStart and TrimEnd
   * have dropped the white space at both ends. It is empty exactly when `s`
   * holds nothing but white space.
   */
  function Trim(s: string): (r: string)
    ensures |r| <= |s|
    ensures r == [] <==> AllWhiteSpace(s)
    ensures r != [] ==> !IsWhiteSpace(r[0]) && !IsWhiteSpace(r[|r| - 1])
    ensures MiddleOf(s, |s| - |TrimStart(s)|, r)
  {
    TrimStartEmpty(s);
    TrimMiddle(s);
    TrimEndKeepsStart(TrimStart(s));
    TrimEnd(TrimStart(s))
  }

  lemma TrimMiddle(s: string)
    ensures MiddleOf(s, |s| - |TrimStart(s)|, TrimEnd(TrimStart(s)))
  {
    var t := TrimStart(s);
    MiddleSlice(s, t, TrimEnd(t), |s| - |t|);
  }

  /** `r` is the slice of `s` at offset `k`, with only white space before and after it. */
  predicate MiddleOf(s: string, k: int, r: string) {
    && 0 <= k && k + |r| <= |s| && r == s[k..k + |r|]
    && AllWhiteSpace(s[..k]) && AllWhiteSpace(s[k + |r|..])
  }

  /** Leading white space up to `k`, then `r`, then trailing white space: `r` is the slice in between. */
  lemma MiddleSlice(s: string, t: string, r: string, k: int)
    requires 0 <= k <= |s| && t == s[k..]
    requires |r| <= |t| && r == t[..|r|]
    requires forall i :: 0 <= i < k ==> IsWhiteSpace(s[i])
    requires forall i :: |r| <= i < |t| ==> IsWhiteSpace(t[i])
    ensures MiddleOf(s, k, r)
  {
    var tail := s[k + |r|..];
    forall i | 0 <= i < |tail| ensures IsWhiteSpace(tail[i]) {
      assert tail[i] == t[|r| + i];
    }
  }

  lemma TrimStartEmpty(s: string)
    ensures TrimStart(s) == [] <==> AllWhiteSpace(s)
  {
    var t := TrimStart(s);
    if t == [] {
      assert s[..|s|] == s;
    } else {
      assert t[0] == s[|s| - |t|];
    }
  }

  lemma TrimEndKeepsStart(t: string)
    requires t == [] || !IsWhiteSpace(t[0])
    ensures TrimEnd(t) == [] <==> t == []
    ensures TrimEnd(t) != [] ==> !IsWhiteSpace(TrimEnd(t)[0])
  {
  }

  /** ASCII case mapping; every other character is its own lower case. */
  function LowerChar(c: char): (l: char)
    ensures 'A' <= c <= 'Z' ==> l as int == c as int + 32
    ensures !('A' <= c <= 'Z') ==> l == c
  {
    if 'A' <= c <= 'Z' then (c as int + 32) as char else c
  }

  /** `String.prototype.toLowerCase`, character by character. */
  function Lower(s: string): (r: string)
    ensures |r| == |s|
    ensures forall i :: 0 <= i < |s| ==> r[i] == LowerChar(s[i])
  {
    if s == [] then [] else [LowerChar(s[0])] + Lower(s[1..])
  }

  /** The number of UTF-16 code units that encode `c`. */
  function CodeUnitsOf(c: char): nat {
    if c as int > 0xFFFF then 2 else 1
  }

  /** `.length` of a JavaScript string: UTF-16 code units, two for a character outside the BMP. */
  function CodeUnits(s: string): (n: nat)
    ensures |s| <= n <= 2 * |s|
    ensures (forall i :: 0 <= i < |s| ==> s[i] as int <= 0xFFFF) ==> n == |s|
  {
    if s == [] then 0 else CodeUnitsOf(s[0]) + CodeUnits(s[1..])
  }

  /** Lower-casing keeps the length: the length filter may be read on the raw text. */
  lemma {:induction false} LowerKeepsCodeUnits(s: string)
    ensures CodeUnits(Lower(s)) == CodeUnits(s)
  {
    if s != [] {
      assert Lower(s)[1..] == Lower(s[1..]);
      LowerKeepsCodeUnits(s[1..]);
    }
  }

  /** `String.prototype.includes`: `sub` occurs in `s` at some position. */
  function Includes(s: string, sub: string): (b: bool)
    ensures b <==> exists i :: 0 <= i <= |s| && sub <= s[i..]
  {
    if sub <= s then
      assert sub <= s[0..];
      true
    else if s == [] then
      false
    else
      var b := Includes(s[1..], sub);
      assert forall i :: 1 <= i <= |s| ==> s[i..] == s[1..][i - 1..];
      b
  }
}
