/** JSON values as Python's `json` module delivers them. */
module Json {
  /** A binary64 number: an odd significand times a power of two, or zero as `Finite(0, 0)`, or one of the others. */
  datatype Double = Finite(significand: int, exponent: int) | NegativeZero | Infinite(negative: bool) | NaN

  predicate IsDouble(d: Double) {
    d.Finite? ==>
      if d.significand == 0 then d.exponent == 0
      else
        && d.significand % 2 == 1 && -1074 <= d.exponent < 1024
        && Magnitude(d.significand) < 0x20_0000_0000_0000 && Magnitude(d.significand) < Power(1024 - d.exponent)
  }

  function Magnitude(i: int): nat {
    if i < 0 then -i else i
  }

  type Float = d: Double | IsDouble(d) witness Finite(0, 0)

  function Power(n: nat): nat {
    if n == 0 then 1 else 2 * Power(n - 1)
  }

  datatype Json =
    | Null
    | Bool(b: bool)
    | Int(i: int)
    | Float(d: Float)
    | Str(s: string)
    | List(items: seq<Json>)
    | Obj(fields: map<string, Json>)

  /** `mapping.get(key)`: an absent key reads as null. */
  function Get(fields: map<string, Json>, key: string): Json {
    if key in fields then fields[key] else Null
  }

  /** `value == n` for a Python int `n`: booleans and floats compare by numeric value. */
  predicate EqualsInt(value: Json, n: nat) {
    match value
    case Int(i) => i == n
    case Float(Finite(m, e)) => e >= 0 && m * Power(e) == n
    case Float(NegativeZero) => n == 0
    case Bool(b) => (if b then 1 else 0) == n
    case _ => false
  }

  /** A value equals the number when it is that integer, the boolean for it, or the float of the same value. */
  lemma EqualsIntExactly(value: Json, n: nat)
    ensures EqualsInt(value, n) <==>
            || value == Int(n) || (n == 0 && value == Bool(false)) || (n == 1 && value == Bool(true))
            || (n == 0 && value == Float(NegativeZero))
            || exists m, e: nat :: IsDouble(Finite(m, e)) && value == Float(Finite(m, e)) && m * Power(e) == n
  {
    if value.Float? && value.d.Finite? && value.d.exponent >= 0 {
      var m, e: nat := value.d.significand, value.d.exponent;
      assert IsDouble(Finite(m, e));
    }
  }

  /** No two finite floats have the same value; both are taken in units of the smallest. */
  lemma FloatsDiffer(a: Float, b: Float)
    requires a.Finite? && b.Finite?
    requires a.significand * Power(a.exponent + 1074) == b.significand * Power(b.exponent + 1074)
    ensures a == b
  {
    NotZero(a.significand, a.exponent + 1074);
    NotZero(b.significand, b.exponent + 1074);
    if a.significand != 0 && b.significand != 0 {
      OddsDiffer(a.significand, a.exponent + 1074, b.significand, b.exponent + 1074);
    }
  }

  lemma {:induction false} NotZero(a: int, n: nat)
    ensures a * Power(n) == 0 <==> a == 0
  {
    Halves(a, n);
    if n > 0 {
      NotZero(a, n - 1);
    }
  }

  lemma Halves(a: int, n: nat)
    ensures if n == 0 then a * Power(n) == a else a * Power(n) == 2 * (a * Power(n - 1))
  {
  }

  lemma {:induction false} OddsDiffer(a: int, i: nat, b: int, j: nat)
    requires a % 2 == 1 && b % 2 == 1 && a * Power(i) == b * Power(j)
    ensures a == b && i == j
  {
    Halves(a, i);
    Halves(b, j);
    if i > 0 && j > 0 {
      OddsDiffer(a, i - 1, b, j - 1);
    }
  }
}
