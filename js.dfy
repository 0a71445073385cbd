/** JavaScript values, characters and strings as the worker sees them.
    Strings are Dafny strings (sequences of Unicode scalar values); where the
    worker measures or cuts a string (`.length`, `.substring`) it does so in
    UTF-16 code units, which `Utf16` makes explicit. */
module Js {

  datatype Option<+T> = None | Some(value: T) {
    predicate IsFailure() { None? }
    function PropagateFailure<U>(): Option<U> requires None? { None }
    function Extract(): T requires Some? { value }
  }

  /** The values that reach the validators and the template literals: numbers are
      integral (JavaScript numbers beyond 2^53 are not modelled); an object is
      described by the names of its own fields whose values are truthy. */
  datatype JsValue =
    | Undefined
    | Null
    | Bool(b: bool)
    | Num(n: int)
    | Str(s: string)
    | Obj(truthyFields: set<string>)

  /** JavaScript truthiness (`if (v)`, `!v`). */
  predicate Truthy(v: JsValue) {
    match v
    case Undefined => false
    case Null => false
    case Bool(b) => b
    case Num(n) => n != 0
    case Str(s) => s != ""
    case Obj(_) => true
  }

  /** `a || b` on two values. */
  function Or(a: JsValue, b: JsValue): (r: JsValue)
    ensures Truthy(r) <==> Truthy(a) || Truthy(b)
  {
    if Truthy(a) then a else b
  }

  /** How `${v}` renders a value (and `v.toString()` for the values that have one). */
  function Show(v: JsValue): string {
    match v
    case Undefined => "undefined"
    case Null => "null"
    case Bool(b) => if b then "true" else "false"
    case Num(n) => IntText(n)
    case Str(s) => s
    case Obj(_) => "[object Object]"
  }

  // ---------------------------------------------------------------- characters

  /** `\d` */
  predicate IsDigit(c: char) { '0' <= c <= '9' }

  /** `\w`, that is `[A-Za-z0-9_]` */
  predicate IsWordChar(c: char) {
    ('A' <= c <= 'Z') || ('a' <= c <= 'z') || IsDigit(c) || c == '_'
  }

  /** `[a-f0-9]` */
  predicate IsLowerHex(c: char) { IsDigit(c) || ('a' <= c <= 'f') }

  predicate AllDigits(s: string) { forall i :: 0 <= i < |s| ==> IsDigit(s[i]) }

  /** `/^\d+$/.test(s)` */
  predicate IsDigits(s: string) { |s| > 0 && AllDigits(s) }

  /** `/^-?\d+$/.test(s)` */
  predicate IsIntegerText(s: string) {
    IsDigits(s) || (|s| > 1 && s[0] == '-' && IsDigits(s[1..]))
  }

  predicate AllWordChars(s: string) { forall i :: 0 <= i < |s| ==> IsWordChar(s[i]) }

  /** `s.startsWith(w)` */
  predicate StartsWith(s: string, w: string) { |w| <= |s| && s[..|w|] == w }

  /** `s.includes(w)`: some position of `s` starts an occurrence of `w`. */
  predicate Includes(s: string, w: string)
    decreases |s|
  {
    StartsWith(s, w) || (s != [] && Includes(s[1..], w))
  }

  // ---------------------------------------------------------------- numbers

  function DigitChar(d: nat): (c: char)
    requires d < 10
    ensures IsDigit(c)
  {
    ('0' as int + d) as char
  }

  /** The decimal rendering of a natural number, as `String(n)` gives it. */
  function Decimal(n: nat): (r: string)
    ensures IsDigits(r)
    ensures r[0] == '0' ==> n == 0
  {
    if n < 10 then [DigitChar(n)] else Decimal(n / 10) + [DigitChar(n % 10)]
  }

  /** `parseInt` of a string of decimal digits. */
  function DigitsValue(s: string): nat
    requires AllDigits(s)
  {
    if s == [] then 0 else DigitsValue(s[..|s| - 1]) * 10 + (s[|s| - 1] as int - '0' as int)
  }

  lemma {:induction false} DecimalRoundTrip(n: nat)
    ensures DigitsValue(Decimal(n)) == n
  {
    if n >= 10 {
      var s := Decimal(n);
      assert s[..|s| - 1] == Decimal(n / 10);
      DecimalRoundTrip(n / 10);
    }
  }

  /** The rendering of an integer: a minus sign before the digits of a negative one. */
  function IntText(n: int): (r: string)
    ensures IsIntegerText(r)
    ensures IsDigits(r) <==> n >= 0
  {
    if n < 0 then
      assert ("-" + Decimal(-n))[1..] == Decimal(-n);
      "-" + Decimal(-n)
    else Decimal(n)
  }

  // ---------------------------------------------------------------- UTF-16

  /** A UTF-16 code unit. */
  newtype Unit = x: int | 0 <= x < 0x1_0000

  /** The UTF-16 encoding of one scalar value: one unit, or a surrogate pair. */
  function Encode(c: char): (u: seq<Unit>)
    ensures |u| == (if c as int < 0x1_0000 then 1 else 2)
  {
    if c as int < 0x1_0000 then [c as int as Unit]
    else
      var v := c as int - 0x1_0000;
      [(0xD800 + v / 0x400) as Unit, (0xDC00 + v % 0x400) as Unit]
  }

  /** The UTF-16 code units of a string, the sequence JavaScript indexes. */
  function Utf16(s: string): (u: seq<Unit>)
    ensures |u| >= |s|
  {
    if s == [] then [] else Encode(s[0]) + Utf16(s[1..])
  }

  /** `s.length` in JavaScript. */
  function Utf16Length(s: string): nat { |Utf16(s)| }

  lemma {:induction false} Utf16Append(a: string, b: string)
    ensures Utf16(a + b) == Utf16(a) + Utf16(b)
  {
    if a != [] {
      assert (a + b)[0] == a[0] && (a + b)[1..] == a[1..] + b;
      Utf16Append(a[1..], b);
    } else {
      assert a + b == b;
    }
  }

  /** Regrouping appends, stated once so that the solver need not compare long lists
      element by element. */
  lemma AppendAssoc<T>(a: seq<T>, b: seq<T>, c: seq<T>)
    ensures a + b + c == a + (b + c)
  {
  }
}
