/**
 * The JavaScript values that occur in an occurrence record's properties,
 * with the coercions the viewer applies to them: truthiness, `||`,
 * `String(v)`, strict equality and `parseInt(v) || 0`.
 */
module JsValues {
  import opened Wrappers
  import opened Text

  /**
   * A property value. `Num` holds the integers the records carry (ids,
   * object ids); `NegInfinity` is `-Infinity`, which `Math.max()` yields
   * over no arguments.
   */
  datatype Value = Undefined | Null | Num(n: int) | Str(s: string) | NegInfinity

  /** A record's properties: a plain JavaScript object from key to value. */
  type Props = map<string, Value>

  /** `p[k]`: a missing key reads as `undefined`. */
  function Get(p: Props, k: string): Value {
    if k in p then p[k] else Undefined
  }

  /** JavaScript truthiness: `undefined`, `null`, `0` and `""` are falsy. */
  predicate Truthy(v: Value) {
    match v
    case Undefined => false
    case Null => false
    case Num(n) => n != 0
    case Str(s) => s != ""
    case NegInfinity => true
  }

  /** `a || b`: `a` when it is truthy, else `b`. */
  function Or(a: Value, b: Value): (r: Value)
    ensures Truthy(a) ==> r == a
    ensures !Truthy(a) ==> r == b
  {
    if Truthy(a) then a else b
  }

  /** `String(v)`. */
  function JsString(v: Value): string {
    match v
    case Undefined => "undefined"
    case Null => "null"
    case Num(n) => IntToDecimal(n)
    case Str(s) => s
    case NegInfinity => "-Infinity"
  }

  /** The text form of a string-valued property; any other value counts as absent. */
  function TextOf(v: Value): Option<string> {
    if v.Str? then Some(v.s) else None
  }

  // ---------------------------------------------------------------------
  // parseInt without a radix

  predicate IsHexDigit(c: char) {
    IsDigit(c) || 'a' <= c <= 'f' || 'A' <= c <= 'F'
  }

  function HexDigitValue(c: char): (d: nat)
    requires IsHexDigit(c)
    ensures d < 16
  {
    if IsDigit(c) then DigitValue(c)
    else if 'a' <= c <= 'f' then c as int - 'a' as int + 10
    else c as int - 'A' as int + 10
  }

  function HexRun(s: string, i: nat): (n: nat)
    requires i <= |s|
    decreases |s| - i
    ensures i + n <= |s|
  {
    if i < |s| && IsHexDigit(s[i]) then 1 + HexRun(s, i + 1) else 0
  }

  function HexValue(s: string): nat
    requires forall i :: 0 <= i < |s| ==> IsHexDigit(s[i])
  {
    if s == [] then 0 else HexValue(s[..|s| - 1]) * 16 + HexDigitValue(s[|s| - 1])
  }

  /** The magnitude `parseInt` reads after the sign: a `0x` prefix selects base 16. */
  function UnsignedPrefix(t: string): Option<nat> {
    if |t| >= 2 && t[0] == '0' && (t[1] == 'x' || t[1] == 'X') then
      var n := HexRun(t, 2);
      if n == 0 then None
      else
        HexPrefixDigits(t, 2);
        Some(HexValue(t[2..2 + n]))
    else
      var n := DigitRun(t, 0);
      if n == 0 then None else Some(DigitsValue(t[..n]))
  }

  lemma {:induction false} HexPrefixDigits(t: string, i: nat)
    requires i <= |t|
    decreases |t| - i
    ensures forall k :: i <= k < i + HexRun(t, i) ==> IsHexDigit(t[k])
  {
    if i < |t| && IsHexDigit(t[i]) {
      HexPrefixDigits(t, i + 1);
    }
  }

  /** `parseInt(s)`: `None` is NaN. */
  function ParseIntText(s: string): Option<int> {
    var t := TrimStart(s);
    var negative := |t| > 0 && t[0] == '-';
    var rest := if |t| > 0 && (t[0] == '-' || t[0] == '+') then t[1..] else t;
    match UnsignedPrefix(rest)
    case None => None
    case Some(m) => Some(if negative then -(m as int) else m as int)
  }

  /** `parseInt(v) || 0`: the numeric id of a record, 0 when it has none. */
  function IdNumber(v: Value): int {
    ParseIntText(JsString(v)).GetOr(0)
  }

  /** A numeric id is read back as itself. */
  lemma IdNumberOfNum(n: int)
    ensures IdNumber(Num(n)) == n
  {
    ParseIntOfDecimal(n);
  }

  /** `parseInt(String(n)) == n` for every integer `n`. */
  lemma ParseIntOfDecimal(n: int)
    ensures ParseIntText(IntToDecimal(n)) == Some(n)
  {
    var m: nat := if n < 0 then -n else n;
    var d := NatToDecimal(m);
    UnsignedOfDecimal(m);
    if n < 0 {
      assert TrimStart(IntToDecimal(n)) == "-" + d;
      assert ("-" + d)[1..] == d;
    } else {
      assert TrimStart(d) == d;
    }
  }

  /** The digits of a natural number are read back as that number. */
  lemma UnsignedOfDecimal(m: nat)
    ensures UnsignedPrefix(NatToDecimal(m)) == Some(m)
  {
    var d := NatToDecimal(m);
    DecimalRoundTrip(m);
    DigitRunAll(d, 0);
    assert d[..|d|] == d;
    assert |d| >= 2 ==> IsDigit(d[1]);
  }

  lemma {:induction false} DigitRunAll(s: string, i: nat)
    requires i <= |s| && AllDigits(s)
    decreases |s| - i
    ensures DigitRun(s, i) == |s| - i
  {
    if i < |s| {
      DigitRunAll(s, i + 1);
    }
  }
}
