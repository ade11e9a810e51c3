/**
 * `parseInt(string)` with no radix argument, as the length filter calls it:
 * skip leading white space, read an optional sign, switch to base 16 after a
 * `0x`/`0X` prefix, then read the longest run of digits; no digit gives NaN,
 * written `None` here. JavaScript's results are doubles; integers are exact
 * here, which matters only beyond 2^53, far above any string length.
 */
module JsParseInt {
  import opened Wrappers
  import opened JsStrings

  type Radix = r: nat | r == 10 || r == 16 witness 10

  predicate IsDecimalDigit(c: char) {
    '0' <= c <= '9'
  }

  predicate IsDigitIn(c: char, radix: Radix) {
    IsDecimalDigit(c) || (radix == 16 && ('a' <= c <= 'f' || 'A' <= c <= 'F'))
  }

  function DigitValue(c: char): (v: nat)
    ensures IsDecimalDigit(c) ==> v == c as int - '0' as int
  {
    if 'a' <= c <= 'f' then c as int - 'a' as int + 10
    else if 'A' <= c <= 'F' then c as int - 'A' as int + 10
    else if IsDecimalDigit(c) then c as int - '0' as int
    else 0
  }

  predicate AllDigitsIn(s: string, radix: Radix) {
    forall i :: 0 <= i < |s| ==> IsDigitIn(s[i], radix)
  }

  /** The longest prefix of `t` made of digits of `radix`. */
  function DigitPrefix(t: string, radix: Radix): (p: string)
    ensures p <= t && AllDigitsIn(p, radix)
    ensures |p| == |t| || !IsDigitIn(t[|p|], radix)
  {
    if t != [] && IsDigitIn(t[0], radix) then [t[0]] + DigitPrefix(t[1..], radix) else []
  }

  /** The number the digits `ds` denote in `radix`, most significant first. */
  function DigitsValue(ds: string, radix: Radix): nat
  {
    if ds == [] then 0 else DigitsValue(ds[..|ds| - 1], radix) * radix + DigitValue(ds[|ds| - 1])
  }

  /** `parseInt` once white space and sign are gone: an optional `0x` prefix, then digits. */
  function ParseMagnitude(unsigned: string): Option<nat>
  {
    var hex := |unsigned| >= 2 && unsigned[0] == '0' && (unsigned[1] == 'x' || unsigned[1] == 'X');
    var radix: Radix := if hex then 16 else 10;
    var digits := DigitPrefix(if hex then unsigned[2..] else unsigned, radix);
    if digits == [] then None else Some(DigitsValue(digits, radix))
  }

  /** `parseInt` once leading white space is gone: an optional sign, then the magnitude. */
  function ParseSigned(t: string): Option<int>
  {
    var negative := t != [] && t[0] == '-';
    var unsigned := if t != [] && (t[0] == '+' || t[0] == '-') then t[1..] else t;
    match ParseMagnitude(unsigned)
    case None => None
    case Some(m) => var v: int := if negative then -(m as int) else m; Some(v)
  }

  /**
   * `parseInt(s)`: blank input is NaN, and a negative result needs a `-` as
   * the first character after the white space.
   */
  function ParseInt(s: string): (r: Option<int>)
    ensures AllWhiteSpace(s) ==> r == None
    ensures r.Some? && r.value < 0 ==> TrimStart(s) != [] && TrimStart(s)[0] == '-'
  {
    TrimStartEmpty(s);
    ParseSigned(TrimStart(s))
  }

  /** The decimal numeral of `n`, with no leading zero. */
  function ShowNat(n: nat): (s: string)
    ensures s != [] && AllDigitsIn(s, 10)
    ensures s[0] == '0' ==> n == 0 && s == "0"
  {
    if n < 10 then [(n + '0' as int) as char]
    else ShowNat(n / 10) + [(n % 10 + '0' as int) as char]
  }

  /** The decimal numeral of `n`, with a `-` in front when it is negative. */
  function Show(n: int): string {
    if n < 0 then "-" + ShowNat(-n) else ShowNat(n)
  }

  lemma {:induction false} ShowNatValue(n: nat)
    ensures DigitsValue(ShowNat(n), 10) == n
  {
    var s := ShowNat(n);
    if n >= 10 {
      ShowNatValue(n / 10);
      assert s[..|s| - 1] == ShowNat(n / 10);
    }
  }

  lemma {:induction false} DigitPrefixStopsAt(p: string, rest: string, radix: Radix)
    requires AllDigitsIn(p, radix)
    requires rest == [] || !IsDigitIn(rest[0], radix)
    ensures DigitPrefix(p + rest, radix) == p
  {
    if p != [] {
      assert (p + rest)[1..] == p[1..] + rest;
      DigitPrefixStopsAt(p[1..], rest, radix);
    } else {
      assert p + rest == rest;
    }
  }

  lemma {:induction false} TrimStartSkips(ws: string, t: string)
    requires AllWhiteSpace(ws)
    requires t == [] || !IsWhiteSpace(t[0])
    ensures TrimStart(ws + t) == t
  {
    if ws != [] {
      assert (ws + t)[1..] == ws[1..] + t;
      TrimStartSkips(ws[1..], t);
    } else {
      assert ws + t == t;
    }
  }

  /**
   * A numeral after white space is read up to the first character that is not
   * a digit, so `parseInt("5w")` is 5. A `0` followed by `x` would switch to
   * base 16, so that one case is excluded.
   */
  lemma ParseMagnitudeOfNumeral(m: nat, rest: string)
    requires rest == [] || !IsDecimalDigit(rest[0])
    requires m == 0 && rest != [] ==> rest[0] != 'x' && rest[0] != 'X'
    ensures ParseMagnitude(ShowNat(m) + rest) == Some(m)
  {
    var numeral := ShowNat(m);
    var unsigned := numeral + rest;
    assert unsigned[0] == numeral[0];
    if |numeral| >= 2 {
      assert unsigned[1] == numeral[1];
    }
    DigitPrefixStopsAt(numeral, rest, 10);
    ShowNatValue(m);
  }

  lemma ParseIntReadsLeadingNumeral(ws: string, n: int, rest: string)
    requires AllWhiteSpace(ws)
    requires rest == [] || !IsDecimalDigit(rest[0])
    requires n == 0 && rest != [] ==> rest[0] != 'x' && rest[0] != 'X'
    ensures ParseInt(ws + Show(n) + rest) == Some(n)
  {
    var m := if n < 0 then -n else n;
    var numeral := ShowNat(m);
    var unsigned := numeral + rest;
    var signed := if n < 0 then "-" + unsigned else unsigned;
    assert Show(n) == if n < 0 then "-" + numeral else numeral;
    assert ws + Show(n) + rest == ws + signed;
    TrimStartSkips(ws, signed);
    ParseSignedNumeral(n < 0, unsigned);
    ParseMagnitudeOfNumeral(m, rest);
  }

  lemma ParseSignedNumeral(negative: bool, unsigned: string)
    requires unsigned != [] && IsDecimalDigit(unsigned[0])
    ensures ParseSigned(if negative then "-" + unsigned else unsigned) == match ParseMagnitude(unsigned)
      case None => None
      case Some(m) => Some(if negative then -(m as int) else m)
  {
    if negative {
      assert ("-" + unsigned)[1..] == unsigned;
    }
  }

  lemma ParseIntShow(n: int)
    ensures ParseInt(Show(n)) == Some(n)
  {
    var numeral := Show(n);
    assert "" + numeral + "" == numeral;
    ParseIntReadsLeadingNumeral("", n, "");
  }

  /** Input that does not start (after white space) with a sign or a digit is NaN. */
  lemma ParseIntNoNumeral(ws: string, rest: string)
    requires AllWhiteSpace(ws)
    requires rest != [] && !IsWhiteSpace(rest[0]) && !IsDecimalDigit(rest[0])
    requires rest[0] != '+' && rest[0] != '-'
    ensures ParseInt(ws + rest) == None
  {
    TrimStartSkips(ws, rest);
  }
}
