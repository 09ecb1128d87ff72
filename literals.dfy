/**
 * The text forms accepted by Rust's `FromStr` for the primitive types the
 * parser deals with: `bool`, the fixed-width integers, `f32`/`f64` and
 * `String`.  They decide both how a value "looks" when it is bound to an
 * option and whether a later typed retrieval succeeds.
 */
module Literals {
  import opened Wrappers

  predicate IsDigit(c: char) { '0' <= c <= '9' }

  predicate IsSign(c: char) { c == '+' || c == '-' }

  predicate AllDigits(s: string) {
    forall i :: 0 <= i < |s| ==> IsDigit(s[i])
  }

  /** Position of the first occurrence of `c` in `s`. */
  function IndexOf(s: string, c: char): (r: Option<nat>)
    ensures r.Some? ==> r.value < |s| && s[r.value] == c && c !in s[..r.value]
    ensures r.None? ==> c !in s
  {
    if s == [] then None
    else if s[0] == c then Some(0)
    else
      match IndexOf(s[1..], c)
      case None => None
      case Some(k) => assert s[..k + 1] == [s[0]] + s[1..][..k]; Some(k + 1)
  }

  predicate StartsWith(s: string, prefix: string) {
    |prefix| <= |s| && s[..|prefix|] == prefix
  }

  /** ASCII lower-casing; every other character is left alone. */
  function ToLower(s: string): (r: string)
    ensures |r| == |s|
    ensures forall i :: 0 <= i < |s| ==> r[i] == if 'A' <= s[i] <= 'Z' then (s[i] as int + 32) as char else s[i]
  {
    if s == [] then []
    else
      var c := s[0];
      [if 'A' <= c <= 'Z' then (c as int + 32) as char else c] + ToLower(s[1..])
  }

  /** Value of a non-empty run of decimal digits (leading zeros allowed). */
  function DigitsValue(s: string): nat
    requires AllDigits(s)
  {
    if s == [] then 0
    else DigitsValue(s[..|s| - 1]) * 10 + (s[|s| - 1] as int - '0' as int)
  }

  /** Digits of an optionally signed integer; an unsigned type does not accept '-'. */
  function IntegerValue(s: string, signed: bool): Option<int> {
    if s == [] || (|s| == 1 && IsSign(s[0])) then None
    else
      var neg := signed && s[0] == '-';
      var digits := if s[0] == '+' || neg then s[1..] else s;
      if AllDigits(digits) then
        var n: int := DigitsValue(digits);
        Some(if neg then -n else n)
      else None
  }

  datatype Width = W8 | W16 | W32 | W64 | W128

  /** 2 to the number of bits of the width. */
  function Modulus(w: Width): nat {
    match w
    case W8 => 0x100
    case W16 => 0x1_0000
    case W32 => 0x1_0000_0000
    case W64 => 0x1_0000_0000_0000_0000
    case W128 => 0x1_0000_0000_0000_0000_0000_0000_0000_0000
  }

  predicate InRange(v: int, signed: bool, w: Width) {
    if signed then -(Modulus(w) / 2) <= v < Modulus(w) / 2 else 0 <= v < Modulus(w)
  }

  /** Exponent part after 'e': optional sign, then at least one digit. */
  predicate IsExponent(x: string) {
    var d := if |x| > 0 && IsSign(x[0]) then x[1..] else x;
    d != [] && AllDigits(d)
  }

  /** Digits with at most one '.', and at least one digit in all. */
  predicate IsMantissa(m: string) {
    match IndexOf(m, '.')
    case None => m != [] && AllDigits(m)
    case Some(p) => |m| > 1 && AllDigits(m[..p]) && AllDigits(m[p + 1..])
  }

  predicate IsDecimal(b: string) {
    match IndexOf(b, 'e')
    case None => IsMantissa(b)
    case Some(p) => IsMantissa(b[..p]) && IsExponent(b[p + 1..])
  }

  /**
   * The grammar Rust documents for `f64::from_str` (and `f32`), checked on the
   * lower-cased text: Sign? ('inf' | 'infinity' | 'nan' | Number), where
   * Number is digits with an optional '.' and an optional exponent.
   * Out-of-range magnitudes still parse (to infinity or zero).
   */
  predicate IsFloatText(s: string) {
    var t := ToLower(s);
    var body := if |t| > 0 && IsSign(t[0]) then t[1..] else t;
    body == "inf" || body == "infinity" || body == "nan" || IsDecimal(body)
  }

  /** The primitive target types of a typed read, as `FromStr` implementors. */
  datatype Target =
    | BoolTarget
    | IntTarget(signed: bool, width: Width)
    | F32Target
    | F64Target
    | StringTarget

  /**
   * `text.parse::<T>()` succeeds.  Every text parses as a `String`, and no
   * other target accepts the empty text.
   */
  predicate Parses(t: Target, text: string)
    ensures t == StringTarget ==> Parses(t, text)
    ensures t != StringTarget && Parses(t, text) ==> text != []
  {
    match t
    case BoolTarget => text == "true" || text == "false"
    case IntTarget(signed, w) =>
      var v := IntegerValue(text, signed);
      v.Some? && InRange(v.value, signed, w)
    case F32Target => IsFloatText(text)
    case F64Target => IsFloatText(text)
    case StringTarget => true
  }

  /** `add_value`'s first attempt, `parse::<bool>()`. */
  predicate LooksBool(text: string)
  {
    Parses(BoolTarget, text)
  }

  /** `add_value`'s second attempt, `parse::<i128>()`. */
  predicate LooksInteger(text: string)
  {
    Parses(IntTarget(true, W128), text)
  }

  /** `add_value`'s third attempt, `parse::<f64>()`: `f32` accepts the same texts. */
  predicate LooksFloat(text: string)
    ensures LooksFloat(text) <==> Parses(F32Target, text)
  {
    Parses(F64Target, text)
  }

  lemma {:induction false} ToLowerKeeps(s: string)
    requires forall i :: 0 <= i < |s| ==> !('A' <= s[i] <= 'Z')
    ensures ToLower(s) == s
  {
    if s != [] {
      ToLowerKeeps(s[1..]);
    }
  }

  lemma {:induction false} DigitsAreMantissa(d: string)
    requires d != [] && AllDigits(d)
    ensures IndexOf(d, 'e') == None && IsDecimal(d)
  {
  }

  /** Every text an `i128` accepts is also accepted by `f64`. */
  lemma IntegerTextIsFloatText(text: string)
    requires LooksInteger(text)
    ensures LooksFloat(text)
  {
    var neg := text[0] == '-';
    var digits := if text[0] == '+' || neg then text[1..] else text;
    ToLowerKeeps(text);
    DigitsAreMantissa(digits);
  }

  /** "true" and "false" are no numbers, so `add_value`'s first attempt never shadows a later one. */
  lemma BoolTextIsNoNumber(text: string)
    requires LooksBool(text)
    ensures !LooksInteger(text) && !LooksFloat(text)
  {
    if text == "true" {
      WordIsNoNumber(text, 3);
    } else {
      WordIsNoNumber(text, 4);
    }
  }

  /**
   * A lower-case word other than "inf", "infinity" and "nan", whose only 'e'
   * is its last character, at position `e`, is neither an integer nor a
   * float text.
   */
  lemma WordIsNoNumber(w: string, e: nat)
    requires 0 < e && e + 1 == |w| && w[e] == 'e' && 'e' !in w[..e] && '.' !in w[..e]
    requires forall i :: 0 <= i < |w| ==> 'a' <= w[i] <= 'z'
    requires w != "inf" && w != "infinity" && w != "nan"
    ensures !LooksInteger(w) && !LooksFloat(w)
  {
    assert !IsDigit(w[0]) && !IsSign(w[0]);
    assert IntegerValue(w, true) == None;
    ToLowerKeeps(w);
    assert !IsDecimal(w) by {
      WordIsNoDecimal(w, e);
    }
  }

  /** The decimal grammar refuses such a word: the mantissa before its 'e' starts with a letter. */
  lemma WordIsNoDecimal(w: string, e: nat)
    requires 0 < e && e + 1 == |w| && w[e] == 'e' && 'e' !in w[..e] && '.' !in w[..e]
    requires !IsDigit(w[0])
    ensures !IsDecimal(w)
  {
    var m := w[..e];
    assert w[e] in w;
    assert IndexOf(w, 'e') == Some(e);
    assert IndexOf(m, '.') == None;
    assert !IsDigit(m[0]);
  }

  /**
   * Every text a signed integer type accepts, and every text an unsigned
   * type narrower than 128 bits accepts, is accepted by `i128`.
   */
  lemma IntegerTextIsWideText(text: string, signed: bool, w: Width)
    requires Parses(IntTarget(signed, w), text)
    requires signed || w != W128
    ensures LooksInteger(text)
  {
  }
}
