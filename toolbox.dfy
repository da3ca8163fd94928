/** Stand-ins for the parts of the toolbox library the codec uses: `Maybe`,
    the fixed-point `Decimal` with its parsing and formatting, and the
    formatting of a 32-bit integer. The library's own implementation is
    not part of this model: the stand-in accepts and writes the number
    syntax the codec documents, `-?[0-9]+(\.[0-9]+)?`, and treats a number
    written without a fractional part as an integer. */
module Toolbox {
  datatype Maybe<T> = None | Some(value: T)

  predicate IsDigit(c: char) {
    '0' <= c <= '9'
  }

  /** A non-empty run of decimal digits. */
  predicate Digits(s: seq<char>) {
    |s| > 0 && forall i :: 0 <= i < |s| ==> IsDigit(s[i])
  }

  /** A decimal number as written: its sign, the digits before the point,
      and the digits after it (none for an integer). */
  datatype Decimal = Decimal(negative: bool, whole: seq<char>, fraction: seq<char>)

  /** The decimals that text can denote. */
  predicate WellFormed(d: Decimal) {
    Digits(d.whole) && (d.fraction == [] || Digits(d.fraction))
  }

  /** Decimal::isInteger(): the number has no fractional digits. */
  predicate IsInteger(d: Decimal) {
    d.fraction == []
  }

  /** The value of a run of digits. */
  function DigitsValue(s: seq<char>): (n: nat)
    requires forall i :: 0 <= i < |s| ==> IsDigit(s[i])
    decreases |s|
  {
    if s == [] then 0 else 10 * DigitsValue(s[..|s| - 1]) + DigitValue(s[|s| - 1])
  }

  function DigitValue(c: char): (n: nat)
    requires IsDigit(c)
    ensures n < 10
  {
    c as int - '0' as int
  }

  /** Decimal::integer(): the integral part, truncated toward zero. */
  function Integer(d: Decimal): (n: int)
    requires WellFormed(d)
    ensures d.negative ==> n <= 0
    ensures !d.negative ==> n >= 0
  {
    if d.negative then -(DigitsValue(d.whole) as int) else DigitsValue(d.whole)
  }

  /** Decimal::toString() */
  function ToString(d: Decimal): (s: seq<char>)
    ensures |s| >= |d.whole|
  {
    (if d.negative then "-" else "") + d.whole + (if d.fraction == [] then "" else "." + d.fraction)
  }

  /** The position of the first '.' in `s`, or |s|. */
  function PointAt(s: seq<char>): (k: nat)
    ensures k <= |s| && (k < |s| ==> s[k] == '.')
    ensures forall i :: 0 <= i < k ==> s[i] != '.'
    decreases |s|
  {
    if s == [] || s[0] == '.' then 0 else 1 + PointAt(s[1..])
  }

  /** The unsigned part of a number: digits, and optionally a '.' followed
      by digits. */
  function Unsigned(t: seq<char>): (r: Maybe<(seq<char>, seq<char>)>)
    ensures r.Some? ==> Digits(r.value.0) && (r.value.1 == [] || Digits(r.value.1))
  {
    var k := PointAt(t);
    if k == |t| then (if Digits(t) then Some((t, [])) else None)
    else if Digits(t[..k]) && Digits(t[k + 1..]) then Some((t[..k], t[k + 1..]))
    else None
  }

  /** The text of the unsigned part of a decimal. */
  function UnsignedText(whole: seq<char>, fraction: seq<char>): seq<char> {
    whole + (if fraction == [] then "" else "." + fraction)
  }

  /** Decimal::fromString(text): an optional '-', digits, and optionally a
      '.' followed by digits; anything else has no value. */
  function FromString(s: seq<char>): (r: Maybe<Decimal>)
    ensures r.Some? ==> WellFormed(r.value)
  {
    var negative := |s| > 0 && s[0] == '-';
    match Unsigned(if negative then s[1..] else s)
    case None => None
    case Some(parts) => Some(Decimal(negative, parts.0, parts.1))
  }

  /** Reading back the unsigned text gives its parts. */
  lemma {:induction false} UnsignedOfText(whole: seq<char>, fraction: seq<char>)
    requires Digits(whole) && (fraction == [] || Digits(fraction))
    ensures Unsigned(UnsignedText(whole, fraction)) == Some((whole, fraction))
  {
    var t := UnsignedText(whole, fraction);
    PointAfter(whole, if fraction == [] then "" else "." + fraction);
    if fraction == [] {
      assert t == whole;
    } else {
      assert t[..|whole|] == whole;
      assert t[|whole| + 1..] == fraction;
    }
  }

  /** Text that reads as unsigned parts is their text. */
  lemma {:induction false} TextOfUnsigned(t: seq<char>)
    requires Unsigned(t).Some?
    ensures UnsignedText(Unsigned(t).value.0, Unsigned(t).value.1) == t
  {
    var k := PointAt(t);
    if k < |t| {
      assert t == t[..k] + "." + t[k + 1..];
    }
  }

  /** Reading back the text of a decimal gives the decimal. */
  lemma {:induction false} FromStringToString(d: Decimal)
    requires WellFormed(d)
    ensures FromString(ToString(d)) == Some(d)
  {
    UnsignedOfText(d.whole, d.fraction);
    SignOfText(d);
  }

  /** The text of a decimal starts with '-' exactly when it is negative,
      and the unsigned text follows the sign. */
  lemma {:induction false} SignOfText(d: Decimal)
    requires WellFormed(d)
    ensures var s := ToString(d);
            && (|s| > 0 && s[0] == '-') == d.negative
            && (if d.negative then s[1..] else s) == UnsignedText(d.whole, d.fraction)
  {
    var t := UnsignedText(d.whole, d.fraction);
    assert ToString(d) == (if d.negative then "-" else "") + t;
    assert t[0] == d.whole[0];
  }

  /** The point of digits followed by text that starts with a point, or is
      empty, is where the digits end. */
  lemma {:induction false} PointAfter(w: seq<char>, rest: seq<char>)
    requires Digits(w) && (rest == [] || rest[0] == '.')
    ensures PointAt(w + rest) == |w|
  {
    var s := w + rest;
    assert forall i :: 0 <= i < |w| ==> s[i] == w[i];
    assert |rest| > 0 ==> s[|w|] == rest[0];
  }

  /** Text the parser accepts is exactly the text of the decimal it gives. */
  lemma {:induction false} ToStringFromString(s: seq<char>)
    requires FromString(s).Some?
    ensures ToString(FromString(s).value) == s
  {
    var negative := |s| > 0 && s[0] == '-';
    var t := if negative then s[1..] else s;
    TextOfUnsigned(t);
    assert (if negative then "-" else "") + t == s by {
      if negative {
        assert s == [s[0]] + s[1..];
      }
    }
  }

  // ---------------------------------------------------------------------
  // Integer formatting: snprintf with "%i".

  /** The decimal digits of `n`, most significant first, without leading
      zeros (one "0" for zero). */
  function NatDigits(n: nat): (s: seq<char>)
    ensures Digits(s)
    decreases n
  {
    if n < 10 then [('0' as int + n) as char]
    else NatDigits(n / 10) + [('0' as int + n % 10) as char]
  }

  /** The digits are worth the number they were made from. */
  lemma {:induction false} NatDigitsValue(n: nat)
    ensures DigitsValue(NatDigits(n)) == n
    decreases n
  {
    var s := NatDigits(n);
    if n >= 10 {
      NatDigitsValue(n / 10);
      assert s[..|s| - 1] == NatDigits(n / 10);
    }
  }

  /** "%i": a minus sign for a negative number, then the digits of its
      magnitude. */
  function FormatInt(n: int): (s: seq<char>)
    ensures |s| > 0
  {
    if n < 0 then "-" + NatDigits(-n) else NatDigits(n)
  }

  /** A formatted integer reads back as an integral decimal worth the
      number. */
  lemma {:induction false} FormatIntReads(n: int)
    ensures var r := FromString(FormatInt(n));
            r.Some? && IsInteger(r.value) && Integer(r.value) == n
  {
    var digits := NatDigits(if n < 0 then -n else n);
    var d := Decimal(n < 0, digits, []);
    assert ToString(d) == FormatInt(n);
    FromStringToString(d);
    NatDigitsValue(if n < 0 then -n else n);
  }

  /** 10 to the power `k`. */
  function Pow10(k: nat): (r: nat)
    ensures r >= 1
  {
    if k == 0 then 1 else 10 * Pow10(k - 1)
  }

  /** A number below 10^k has at most k digits. */
  lemma {:induction false} NatDigitsLength(n: nat, k: nat)
    requires n < Pow10(k)
    ensures |NatDigits(n)| <= if k == 0 then 1 else k
    decreases k
  {
    if n >= 10 {
      assert k >= 2;
      NatDigitsLength(n / 10, k - 1);
    }
  }
}
