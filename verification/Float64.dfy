/**
 * The number codec of the Postgres repository: `hashable-f64` tuples in the
 * float8 and float4 layouts, and integers on their way to and from JSON.
 *
 * A double is its sign and the real it stands for; the formats are those of
 * section 3.4 of IEEE 754-2019. Arithmetic goes through a rounding function
 * about which one thing is assumed: a representable result is returned as is.
 */
module Float64 {
  import opened Text
  import Numerals

  const TWO23 := 0x80_0000
  const TWO31 := 0x8000_0000
  const TWO32 := 0x1_0000_0000
  const TWO52 := 0x10_0000_0000_0000
  const TWO53 := 0x20_0000_0000_0000
  const TWO63 := 0x8000_0000_0000_0000
  const TWO64 := 0x1_0000_0000_0000_0000

  // ----- powers of two -----

  function Pow2(e: int): (r: real)
    ensures r > 0.0
    decreases if e < 0 then -e else e
  {
    if e == 0 then 1.0 else if e > 0 then 2.0 * Pow2(e - 1) else Pow2(e + 1) / 2.0
  }

  lemma Pow2Next(e: int)
    ensures Pow2(e + 1) == 2.0 * Pow2(e)
  {
  }

  /** The exact product of two reals. */
  function Product(x: real, y: real): real { x * y }

  lemma Doubled(x: real, y: real)
    ensures Product(x, 2.0 * y) == 2.0 * Product(x, y)
  {
  }

  lemma {:induction false} Pow2Sum(a: int, b: int)
    ensures Pow2(a + b) == Product(Pow2(a), Pow2(b))
    decreases if b < 0 then -b else b
  {
    assert Pow2(0) == 1.0;
    hide Pow2;
    if b == 0 {
    } else {
      hide Product;
      if b > 0 {
        Pow2Sum(a, b - 1);
        Pow2Step(a, b - 1);
      } else {
        Pow2Sum(a, b + 1);
        Pow2Step(a, b);
      }
    }
  }

  /** Raising the second exponent by one doubles both sides. */
  lemma Pow2Step(a: int, b: int)
    ensures Pow2(a + (b + 1)) == Product(Pow2(a), Pow2(b + 1)) <==> Pow2(a + b) == Product(Pow2(a), Pow2(b))
  {
    Pow2Next(a + b);
    Pow2Next(b);
    hide Pow2, Product;
    assert a + (b + 1) == a + b + 1;
    Doubled(Pow2(a), Pow2(b));
  }

  lemma {:induction false} Pow2Grows(a: int, b: int)
    requires a <= b
    ensures Pow2(a) <= Pow2(b)
    decreases b - a
  {
    if a < b {
      Pow2Grows(a, b - 1);
      Pow2Next(b - 1);
    }
  }

  /** An integer scaled by a power of two. */
  function Scaled(m: nat, e: int): (r: real)
    ensures r >= 0.0
  {
    Product(m as real, Pow2(e))
  }

  lemma Associate(x: real, y: real, z: real)
    ensures Product(Product(x, y), z) == Product(x, Product(y, z))
  {
  }

  lemma ScaledShift(m: nat, a: int, k: int)
    ensures Product(Scaled(m, a), Pow2(k)) == Scaled(m, a + k)
  {
    hide Pow2, Product;
    Pow2Sum(a, k);
    Associate(m as real, Pow2(a), Pow2(k));
  }

  lemma ScaledHalf(m: nat, a: int)
    ensures Scaled(2 * m, a) == Scaled(m, a + 1)
  {
    Pow2Next(a);
    hide Pow2;
    Doubled(m as real, Pow2(a));
    Associate(2.0, m as real, Pow2(a));
    assert (2 * m) as real == Product(2.0, m as real);
  }

  lemma ScaledZero(m: nat)
    ensures Scaled(m, 0) == m as real && Scaled(1, m) == Pow2(m)
  {
  }

  lemma Below(m: nat, m': nat, p: real)
    requires m < m' && p > 0.0
    ensures Product(m as real, p) < Product(m' as real, p)
  {
  }

  /** A larger significand makes a larger value, and equal values at one scale have one significand. */
  lemma ScaledBelow(m: nat, m': nat, e: int)
    ensures m < m' <==> Scaled(m, e) < Scaled(m', e)
    ensures m == m' <==> Scaled(m, e) == Scaled(m', e)
  {
    if m < m' {
      Below(m, m', Pow2(e));
    } else if m' < m {
      Below(m', m, Pow2(e));
    }
  }

  // ----- doubles -----

  datatype Double = Finite(negative: bool, magnitude: real) | Infinite(negative: bool) | NaN

  type Rounding = (bool, real) -> Double

  /** A 53-bit integer scaled by a power of two the format reaches. */
  ghost predicate Fits(m: real, f: nat, e: int) {
    f < TWO53 && -1074 <= e <= 971 && m == Scaled(f, e)
  }

  ghost predicate Representable(m: real) { exists f: nat, e: int :: Fits(m, f, e) }

  /** Every IEEE rounding mode returns a representable result unchanged. */
  ghost predicate Exact(round: Rounding) {
    forall negative: bool, m: real :: Representable(m) ==> round(negative, m) == Finite(negative, m)
  }

  function FromInteger(round: Rounding, v: int): Double {
    round(v < 0, if v < 0 then (-v) as real else v as real)
  }

  function Times(round: Rounding, x: Double, y: Double): Double {
    if x.NaN? || y.NaN? then NaN
    else if x.Finite? && y.Finite? then round(x.negative != y.negative, Product(x.magnitude, y.magnitude))
    else if (x.Finite? && x.magnitude == 0.0) || (y.Finite? && y.magnitude == 0.0) then NaN
    else Infinite(x.negative != y.negative)
  }

  /** `2 ** k`. */
  function Power(round: Rounding, k: int): Double { round(false, Pow2(k)) }

  predicate AtLeast(x: Double, bound: nat) {
    match x
    case Finite(negative, magnitude) => !negative && magnitude >= bound as real
    case Infinite(negative) => !negative
    case NaN => false
  }

  predicate Equals(x: Double, v: nat) { x.Finite? && (!x.negative || v == 0) && x.magnitude == v as real }

  // ----- bit patterns -----

  /** Sign, biased exponent and fraction of a binary64 bit pattern. */
  function Value(raw: nat): Double
    requires raw < TWO64
  {
    var negative := raw / TWO63 == 1;
    var biased := raw / TWO52 % 2048;
    var fraction := raw % TWO52;
    if biased == 2047 then if fraction == 0 then Infinite(negative) else NaN
    else if biased == 0 then Finite(negative, Scaled(fraction, -1074))
    else Finite(negative, Scaled(TWO52 + fraction, biased - 1075))
  }

  function Value32(raw: nat): Double
    requires raw < TWO32
  {
    var negative := raw / TWO31 == 1;
    var biased := raw / TWO23 % 256;
    var fraction := raw % TWO23;
    if biased == 255 then if fraction == 0 then Infinite(negative) else NaN
    else if biased == 0 then Finite(negative, Scaled(fraction, -149))
    else Finite(negative, Scaled(TWO23 + fraction, biased - 150))
  }

  datatype Tuple = Tuple(mantissa: nat, exponent: int, sign: int)

  /** `hashableF64`, from the bits `setFloat64` stores. */
  function Encode(raw: nat): Tuple
    requires raw < TWO64
  {
    var sign := if raw / TWO63 == 0 then 1 else -1;
    var biased := raw / TWO52 % 2048;
    var fraction := raw % TWO52;
    var mantissa := if biased == 0 then 2 * fraction else fraction + TWO52;
    Tuple(mantissa, biased - (1023 + 52), sign)
  }

  /** The tuple a host makes of a float4: the same decoding in the f32 layout. */
  function Encode32(raw: nat): Tuple
    requires raw < TWO32
  {
    var sign := if raw / TWO31 == 0 then 1 else -1;
    var biased := raw / TWO23 % 256;
    var fraction := raw % TWO23;
    var mantissa := if biased == 0 then 2 * fraction else fraction + TWO23;
    Tuple(mantissa, biased - (127 + 23), sign)
  }

  datatype Cell = Number(value: Double) | Word(text: string)

  const F64_SPECIAL_EXPONENT := 2047 - 1075
  const F32_SPECIAL_EXPONENT := 255 - 150

  predicate Special(exponent: int, mantissa: Double) {
    || (exponent == F64_SPECIAL_EXPONENT && AtLeast(mantissa, TWO52))
    || (exponent == F32_SPECIAL_EXPONENT && AtLeast(mantissa, TWO23) && !AtLeast(mantissa, 2 * TWO23))
  }

  /** `hashableF64Number` on a well-formed tuple. */
  function Decode(round: Rounding, t: Tuple): Cell {
    var mantissa := FromInteger(round, t.mantissa);
    var sign := FromInteger(round, if t.sign < 0 then -1 else 1);
    if Special(t.exponent, mantissa) then
      var hidden := if t.exponent == F64_SPECIAL_EXPONENT then TWO52 else TWO23;
      if !Equals(mantissa, hidden) then Word("NaN")
      else if t.sign < 0 then Word("-Infinity") else Word("Infinity")
    else if t.exponent < -1000 then
      Number(Times(round, Times(round, Times(round, sign, mantissa), Power(round, t.exponent + 600)),
        Power(round, -600)))
    else
      Number(Times(round, Times(round, sign, mantissa), Power(round, t.exponent)))
  }

  /** PostgreSQL's text for the values JSON has no number for. */
  function SpecialText(x: Double): string
    requires !x.Finite?
  {
    if x.NaN? then "NaN" else if x.negative then "-Infinity" else "Infinity"
  }

  /** What a cell holding the double `x` must read as. */
  function CellOf(x: Double): Cell {
    if x.Finite? then Number(x) else Word(SpecialText(x))
  }

  // ----- exactness of each step -----

  lemma FitsExactly(round: Rounding, negative: bool, f: nat, e: int)
    requires Exact(round) && f < TWO53 && -1074 <= e <= 971
    ensures round(negative, Scaled(f, e)) == Finite(negative, Scaled(f, e))
  {
    hide Scaled;
    assert Fits(Scaled(f, e), f, e);
    assert Representable(Scaled(f, e));
  }

  lemma ExactInteger(round: Rounding, v: int)
    requires Exact(round) && -TWO53 < v < TWO53
    ensures FromInteger(round, v) == Finite(v < 0, if v < 0 then (-v) as real else v as real)
  {
    hide Scaled, Exact;
    var m: nat := if v < 0 then -v else v;
    FitsExactly(round, v < 0, m, 0);
    ScaledZero(m);
  }

  lemma ExactPower(round: Rounding, k: int)
    requires Exact(round) && -1074 <= k <= 971
    ensures Power(round, k) == Finite(false, Pow2(k))
  {
    FitsExactly(round, false, 1, k);
    assert Scaled(1, k) == Pow2(k) by { ScaledShift(1, 0, k); ScaledZero(1); }
  }

  /** Scaling a 53-bit integer stays exact while the exponent is in range. */
  lemma ExactScale(round: Rounding, negative: bool, m: nat, a: int, k: int)
    requires Exact(round) && m < TWO53 && -1074 <= k <= 971 && -1074 <= a + k <= 971
    ensures Times(round, Finite(negative, Scaled(m, a)), Power(round, k)) == Finite(negative, Scaled(m, a + k))
  {
    ExactPower(round, k);
    ScaledShift(m, a, k);
    FitsExactly(round, negative, m, a + k);
    hide Scaled, Pow2, Power, Exact, Product;
  }

  lemma Signed(round: Rounding, m: nat, negative: bool)
    requires Exact(round) && m < TWO53
    ensures Times(round, FromInteger(round, if negative then -1 else 1), FromInteger(round, m)) ==
      Finite(negative, Scaled(m, 0))
  {
    ExactInteger(round, m);
    ExactInteger(round, if negative then -1 else 1);
    ScaledZero(m);
    FitsExactly(round, negative, m, 0);
    hide Scaled, FromInteger, Exact;
    assert 1.0 * m as real == m as real;
  }

  /** A tuple in range that is not special decodes to the real it stands for. */
  lemma DecodeExact(round: Rounding, t: Tuple)
    requires Exact(round) && t.mantissa < TWO53 && -1074 <= t.exponent <= 971
    requires !Special(t.exponent, FromInteger(round, t.mantissa))
    ensures Decode(round, t) == Number(Finite(t.sign < 0, Scaled(t.mantissa, t.exponent)))
  {
    hide Scaled, Times, Power, Pow2, FromInteger, Exact, Special;
    Signed(round, t.mantissa, t.sign < 0);
    if t.exponent < -1000 {
      ExactScale(round, t.sign < 0, t.mantissa, 0, t.exponent + 600);
      ExactScale(round, t.sign < 0, t.mantissa, t.exponent + 600, -600);
    } else {
      ExactScale(round, t.sign < 0, t.mantissa, 0, t.exponent);
    }
  }

  /** The one exponent below the format's range, reached by subnormals only: their mantissa is even. */
  lemma DecodeSubnormal(round: Rounding, t: Tuple, half: nat)
    requires Exact(round) && half < TWO52 && t.mantissa == 2 * half && t.exponent == -1075
    ensures Decode(round, t) == Number(Finite(t.sign < 0, Scaled(half, -1074)))
  {
    hide Scaled, Times, Power, Pow2, FromInteger, Exact;
    Signed(round, t.mantissa, t.sign < 0);
    ExactScale(round, t.sign < 0, t.mantissa, 0, -475);
    ScaledHalf(half, -475);
    ExactScale(round, t.sign < 0, half, -474, -600);
  }

  // ----- main results -----

  /** Every float8, special or not, reads back as itself. */
  lemma RoundTrip(round: Rounding, raw: nat)
    requires Exact(round) && raw < TWO64
    ensures Decode(round, Encode(raw)) == CellOf(Value(raw))
  {
    hide Scaled, Times, Power, Pow2, Exact, FromInteger;
    var t := Encode(raw);
    var biased := raw / TWO52 % 2048;
    var fraction := raw % TWO52;
    ExactInteger(round, t.mantissa);
    if biased == 0 {
      DecodeSubnormal(round, t, fraction);
    } else if biased < 2047 {
      DecodeExact(round, t);
    }
  }

  /** So does every float4, through the same function. */
  lemma RoundTrip32(round: Rounding, raw: nat)
    requires Exact(round) && raw < TWO32
    ensures Decode(round, Encode32(raw)) == CellOf(Value32(raw))
  {
    hide Scaled, Times, Power, Pow2, Exact, FromInteger;
    var t := Encode32(raw);
    var biased := raw / TWO23 % 256;
    var fraction := raw % TWO23;
    ExactInteger(round, t.mantissa);
    if biased == 0 {
      DecodeExact(round, t);
      ScaledHalf(fraction, -150);
    } else if biased < 255 {
      DecodeExact(round, t);
    }
  }

  /** No finite tuple of either layout is taken for a special value, and no special one for a number. */
  lemma SpecialExactly(round: Rounding, raw: nat, raw32: nat)
    requires Exact(round) && raw < TWO64 && raw32 < TWO32
    ensures Decode(round, Encode(raw)).Word? <==> !Value(raw).Finite?
    ensures Decode(round, Encode32(raw32)).Word? <==> !Value32(raw32).Finite?
  {
    RoundTrip(round, raw);
    RoundTrip32(round, raw32);
  }

  // ----- one tuple per value -----

  /** Significand and exponent the value of a finite pattern is built from. */
  function Significand(raw: nat): nat
    requires raw < TWO64
  {
    if raw / TWO52 % 2048 == 0 then raw % TWO52 else TWO52 + raw % TWO52
  }

  function Scale(raw: nat): int
    requires raw < TWO64
  {
    if raw / TWO52 % 2048 == 0 then -1074 else raw / TWO52 % 2048 - 1075
  }

  /** A larger exponent goes with a normal significand, so it is a larger value. */
  lemma LargerScale(m: nat, e: int, m': nat, e': int)
    requires m < TWO53 && TWO52 <= m' && e < e'
    ensures Scaled(m, e) < Scaled(m', e')
  {
    ScaledBelow(m, TWO53, e);
    ScaledHalf(TWO52, e);
    Pow2Grows(e + 1, e');
    assert Scaled(TWO52, e + 1) <= Scaled(TWO52, e');
    ScaledBelow(m', TWO52, e');
  }

  /** Finite bit patterns that stand for the same double, sign of zero included, are the same pattern. */
  lemma ValueInjective(a: nat, b: nat)
    requires a < TWO64 && b < TWO64 && Value(a).Finite? && Value(a) == Value(b)
    ensures a == b
  {
    hide Scaled;
    var ma, ea, mb, eb := Significand(a), Scale(a), Significand(b), Scale(b);
    assert Scaled(ma, ea) == Scaled(mb, eb);
    if ea < eb {
      LargerScale(ma, ea, mb, eb);
    } else if eb < ea {
      LargerScale(mb, eb, ma, ea);
    }
    ScaledBelow(ma, mb, ea);
    SameBits(a, b);
  }

  lemma SameBits(a: nat, b: nat)
    requires a < TWO64 && b < TWO64
    requires (a / TWO63 == 1) == (b / TWO63 == 1)
    requires Significand(a) == Significand(b) && Scale(a) == Scale(b)
    ensures a == b
  {
    assert a / TWO63 == b / TWO63;
    var x, y := a / TWO52, b / TWO52;
    assert x % 2048 == y % 2048 && a % TWO52 == b % TWO52;
    assert x / 2048 == a / TWO63 && y / 2048 == b / TWO63;
  }

  /** Two finite doubles that read back alike had the same bits: the codec loses nothing. */
  lemma CodecInjective(round: Rounding, a: nat, b: nat)
    requires Exact(round) && a < TWO64 && b < TWO64 && Value(a).Finite?
    ensures Decode(round, Encode(a)) == Decode(round, Encode(b)) <==> a == b
  {
    hide Decode, Encode, Exact, Scaled;
    RoundTrip(round, a);
    RoundTrip(round, b);
    if Value(a) == Value(b) {
      ValueInjective(a, b);
    }
  }

  /** Why two steps: the single factor `2 ** -1075` is not a double. */
  lemma OneStepUnderflows()
    ensures !Representable(Pow2(-1075))
  {
    if Representable(Pow2(-1075)) {
      var f: nat, e: int :| Fits(Pow2(-1075), f, e);
      ScaledShift(f, e, 1075);
      Pow2Sum(-1075, 1075);
      assert Scaled(f, e + 1075) == 1.0;
      ScaledHalf(f, e + 1074);
      NotOne(f, e + 1074);
      assert false;
    }
  }

  lemma {:induction false} NotOne(f: nat, e: nat)
    ensures Scaled(2 * f, e) != 1.0
    decreases e
  {
    if e == 0 {
      ScaledZero(2 * f);
      assert (2 * f) as real != 1.0;
    } else {
      ScaledHalf(2 * f, e - 1);
      NotOne(2 * f, e - 1);
    }
  }

  // ----- integers -----

  const INT4_MIN := -0x8000_0000
  const INT4_MAX := 0x7FFF_FFFF
  const MAX_SAFE := TWO53 - 1

  /** The integer a finite double is, if it is one. */
  function IntegerOf(x: Double): Option<int> {
    if x.Finite? && x.magnitude == x.magnitude.Floor as real then
      Some(if x.negative then -x.magnitude.Floor else x.magnitude.Floor)
    else None
  }

  predicate IsSafeInteger(x: Double) {
    IntegerOf(x).Some? && -MAX_SAFE <= IntegerOf(x).value <= MAX_SAFE
  }

  datatype JsonInteger = JsonNumber(number: Double) | JsonText(text: string)

  /** `jsonInt` on a bigint. */
  function JsonInt(round: Rounding, v: int): JsonInteger {
    var asNumber := FromInteger(round, v);
    if IsSafeInteger(asNumber) && IntegerOf(asNumber) == Some(v) then JsonNumber(asNumber)
    else JsonText(Numerals.IntText(v))
  }

  function ReadInteger(j: JsonInteger): Option<int> {
    match j
    case JsonNumber(number) => IntegerOf(number)
    case JsonText(text) => Numerals.FromIntText(text)
  }

  /** Nothing is lost, and a number is used exactly up to the safe bound. */
  lemma JsonIntExact(round: Rounding, v: int)
    requires Exact(round)
    ensures ReadInteger(JsonInt(round, v)) == Some(v)
    ensures JsonInt(round, v).JsonNumber? <==> -MAX_SAFE <= v <= MAX_SAFE
  {
    Numerals.IntRoundTrip(v);
    if -MAX_SAFE <= v <= MAX_SAFE {
      ExactInteger(round, v);
      var m: nat := if v < 0 then -v else v;
      assert (m as real).Floor == m;
    }
  }

  datatype Parameter = Int4(int4: int) | Int8(int8: int) | Numeric(text: string) | NotFinite | NotExact

  /** `inferNumber`; `text` is the number's own string conversion. */
  function InferNumber(x: Double, text: string): Parameter {
    if !x.Finite? then NotFinite
    else match IntegerOf(x)
      case Some(v) =>
        if INT4_MIN <= v <= INT4_MAX then Int4(v)
        else if IsSafeInteger(x) then Int8(v) else NotExact
      case None => Numeric(text)
  }

  function IntegerParameter(p: Parameter): Option<int> {
    match p
    case Int4(v) => Some(v)
    case Int8(v) => Some(v)
    case _ => None
  }

  /**
   * An integral double sent as a parameter comes back from an integer column as the same number, up to the sign of
   * zero.
   */
  lemma IntegerParameterReturns(round: Rounding, x: Double, text: string, v: int)
    requires Exact(round) && (x.Finite? ==> x.magnitude >= 0.0) && IntegerOf(x) == Some(v)
    ensures IntegerParameter(InferNumber(x, text)) == (if -MAX_SAFE <= v <= MAX_SAFE then Some(v) else None)
    ensures InferNumber(x, text).Int4? <==> -TWO31 <= v < TWO31
    ensures -MAX_SAFE <= v <= MAX_SAFE && v != 0 ==> JsonInt(round, v) == JsonNumber(x)
  {
    if -MAX_SAFE <= v <= MAX_SAFE {
      JsonIntExact(round, v);
      ExactInteger(round, v);
    }
  }
}
