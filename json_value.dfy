/**
 * The slice of `serde_json` and of Rust's `f64` that the order-by helpers
 * touch.  An `f64` is carried as its IEEE 754 binary64 bit pattern: no
 * arithmetic is done on it, but its finiteness decides what
 * `Value::from(f64)` produces, and `f64::MAX` and `f64::MIN` are concrete
 * patterns.
 */
module Json {
  import opened Wrappers

  /** The bit pattern of an IEEE 754 binary64 number. */
  newtype f64 = b: int | 0 <= b < 0x1_0000_0000_0000_0000

  const TWO_52: nat := 0x10_0000_0000_0000
  const TWO_53: nat := 0x20_0000_0000_0000
  const TWO_63: nat := 0x8000_0000_0000_0000
  const TWO_64: nat := 0x1_0000_0000_0000_0000

  /** `f64::MAX`, the largest finite value, and `f64::MIN`, its negation. */
  const F64_MAX: f64 := 0x7FEF_FFFF_FFFF_FFFF
  const F64_MIN: f64 := 0xFFEF_FFFF_FFFF_FFFF

  function SignBit(f: f64): bool {
    f as int >= TWO_63
  }

  function ExponentField(f: f64): (e: nat)
    ensures e < 2048
  {
    (f as int / TWO_52) % 2048
  }

  function FractionField(f: f64): (m: nat)
    ensures m < TWO_52
  {
    f as int % TWO_52
  }

  /** Neither an infinity nor a NaN: the exponent field is not all ones. */
  predicate IsFinite(f: f64) {
    ExponentField(f) != 2047
  }

  /** The pattern with the given sign, exponent field and fraction field. */
  function Compose(negative: bool, exponent: nat, fraction: nat): (f: f64)
    requires exponent < 2048 && fraction < TWO_52
    ensures SignBit(f) == negative
    ensures ExponentField(f) == exponent && FractionField(f) == fraction
  {
    ((if negative then TWO_63 else 0) + exponent * TWO_52 + fraction) as f64
  }

  lemma MaxAndMinAreFinite()
    ensures IsFinite(F64_MAX) && IsFinite(F64_MIN)
    ensures !SignBit(F64_MAX) && SignBit(F64_MIN)
    ensures ExponentField(F64_MAX) == ExponentField(F64_MIN) == 2046
    ensures FractionField(F64_MAX) == FractionField(F64_MIN) == TWO_52 - 1
  {
  }

  function Pow2(n: nat): (r: nat)
    ensures r >= 1
  {
    if n == 0 then 1 else 2 * Pow2(n - 1)
  }

  lemma {:induction false} Pow2Add(m: nat, n: nat)
    ensures Pow2(m + n) == Pow2(m) * Pow2(n)
  {
    if n > 0 {
      Pow2Add(m, n - 1);
    }
  }

  lemma Pow2Constants()
    ensures Pow2(52) == TWO_52 && Pow2(53) == TWO_53 && Pow2(63) == TWO_63 && Pow2(64) == TWO_64
  {
    assert Pow2(2) == 4;
    assert Pow2(4) == 16 by { Pow2Add(2, 2); }
    assert Pow2(8) == 0x100 by { Pow2Add(4, 4); }
    assert Pow2(16) == 0x1_0000 by { Pow2Add(8, 8); }
    assert Pow2(32) == 0x1_0000_0000 by { Pow2Add(16, 16); }
    assert Pow2(48) == 0x1_0000_0000_0000 by { Pow2Add(32, 16); }
    assert Pow2(52) == TWO_52 by { Pow2Add(48, 4); }
    assert Pow2(53) == TWO_53 by { Pow2Add(52, 1); }
    assert Pow2(64) == TWO_64 by { Pow2Add(32, 32); }
    assert Pow2(63) == TWO_63 by { Pow2Add(48, 8); Pow2Add(56, 4); Pow2Add(60, 2); Pow2Add(62, 1); }
  }

  /** The position of the highest set bit of `a`. */
  function Log2(a: nat): (e: nat)
    requires a >= 1
    ensures Pow2(e) <= a < Pow2(e + 1)
  {
    if a == 1 then 0 else 1 + Log2(a / 2)
  }

  lemma {:induction false} Pow2Monotonic(m: nat, n: nat)
    requires m <= n
    ensures Pow2(m) <= Pow2(n)
  {
    if m < n {
      Pow2Monotonic(m, n - 1);
    }
  }

  lemma DivBounds(a: nat, s: nat, lo: nat, hi: nat)
    requires s > 0 && lo * s <= a < hi * s
    ensures lo <= a / s < hi
  {
    var q := a / s;
    assert a == q * s + a % s;
    if q < lo {
      MulMonotone(q, lo - 1, s);
      assert false;
    }
    if q >= hi {
      MulMonotone(hi, q, s);
      assert false;
    }
  }

  lemma MulMonotone(x: nat, y: nat, s: nat)
    requires x <= y
    ensures x * s <= y * s
  {
  }

  /**
   * Rust's `as f64` on an integer of the given sign and magnitude (at most
   * `2^64 - 1`): the nearest binary64 value, ties to an even significand.
   * The result is always finite and carries the integer's sign; integers
   * below `2^53` are converted exactly.
   */
  function IntegerToF64(negative: bool, magnitude: nat): (f: f64)
    requires magnitude < TWO_64
    requires magnitude == 0 ==> !negative
    ensures IsFinite(f) && SignBit(f) == negative
    ensures magnitude == 0 ==> f == 0
    ensures 0 < magnitude < TWO_53 ==>
      1023 <= ExponentField(f) <= 1075 &&
      TWO_52 + FractionField(f) == magnitude * Pow2(1075 - ExponentField(f))
  {
    if magnitude == 0 then 0
    else
      var e := Log2(magnitude);
      assert e < 64 by {
        if e >= 64 {
          Pow2Monotonic(64, e);
          Pow2Constants();
          assert false;
        }
      }
      if e <= 52 then ExactToF64(negative, magnitude, e)
      else
        assert magnitude >= TWO_53 by {
          Pow2Monotonic(53, e);
          Pow2Constants();
        }
        RoundedToF64(negative, magnitude, e)
  }

  /** A magnitude with at most 53 significant bits: its significand is the magnitude shifted up. */
  function ExactToF64(negative: bool, magnitude: nat, e: nat): (f: f64)
    requires e <= 52 && Pow2(e) <= magnitude < Pow2(e + 1)
    ensures IsFinite(f) && SignBit(f) == negative
    ensures ExponentField(f) == e + 1023
    ensures TWO_52 + FractionField(f) == magnitude * Pow2(52 - e)
  {
    ShiftedSignificand(magnitude, e);
    Compose(negative, e + 1023, magnitude * Pow2(52 - e) - TWO_52)
  }

  lemma ShiftedSignificand(magnitude: nat, e: nat)
    requires e <= 52 && Pow2(e) <= magnitude < Pow2(e + 1)
    ensures TWO_52 <= magnitude * Pow2(52 - e) < TWO_53
  {
    ShiftedBounds(magnitude, Pow2(e), Pow2(52 - e));
    Pow2Add(52 - e, e);
    Pow2Add(52 - e, e + 1);
    Pow2Constants();
  }

  lemma ShiftedBounds(magnitude: nat, low: nat, scale: nat)
    requires low <= magnitude < 2 * low && scale >= 1
    ensures scale * low <= magnitude * scale < scale * (2 * low)
  {
    MulMonotone(low, magnitude, scale);
    MulMonotone(magnitude + 1, 2 * low, scale);
  }

  /**
   * A magnitude with more than 53 significant bits: the top 53 bits,
   * rounded to nearest with ties to even on the bits shifted out; a
   * carry out of the significand bumps the exponent.
   */
  function RoundedToF64(negative: bool, magnitude: nat, e: nat): (f: f64)
    requires 52 < e < 64 && Pow2(e) <= magnitude < Pow2(e + 1)
    ensures IsFinite(f) && SignBit(f) == negative
  {
    var shift: nat := e - 52;
    TruncatedSignificand(magnitude, e);
    var q := magnitude / Pow2(shift);
    var rem := magnitude % Pow2(shift);
    var half := Pow2(shift - 1);
    var m := if rem > half || (rem == half && q % 2 == 1) then q + 1 else q;
    if m == TWO_53 then Compose(negative, e + 1024, 0)
    else Compose(negative, e + 1023, m - TWO_52)
  }

  lemma TruncatedSignificand(magnitude: nat, e: nat)
    requires 52 < e && Pow2(e) <= magnitude < Pow2(e + 1)
    ensures TWO_52 <= magnitude / Pow2(e - 52) < TWO_53
  {
    Pow2Constants();
    Pow2Add(52, e - 52);
    Pow2Add(53, e - 52);
    DivBounds(magnitude, Pow2(e - 52), TWO_52, TWO_53);
  }

  /** A JSON number as `serde_json` stores it: a non-negative or a negative 64-bit integer, or a finite float. */
  datatype RawNumber = PosInt(u: nat) | NegInt(i: int) | Float(f: f64)
  {
    predicate Valid() {
      match this
      case PosInt(u) => u < TWO_64
      case NegInt(i) => -(TWO_63 as int) <= i < 0
      case Float(f) => IsFinite(f)
    }
  }
  type Number = n: RawNumber | n.Valid() witness PosInt(0)

  datatype Value =
    | Null
    | Bool(b: bool)
    | Num(n: Number)
    | Str(s: string)
    | Array(items: seq<Value>)
    | Object(fields: map<string, Value>)

  /** `Value::from(f64)`: a number when the float is finite, `Null` otherwise. */
  function FromF64(f: f64): (v: Value)
    ensures v.Num? <==> IsFinite(f)
    ensures v.Num? ==> v.n == Float(f)
    ensures !v.Num? ==> v == Null
  {
    if IsFinite(f) then Num(Float(f)) else Null
  }

  /** `Value::as_f64`: every number converts (integers by `as f64`), nothing else does. */
  function AsF64(v: Value): (r: Option<f64>)
    ensures r.Some? <==> v.Num?
    ensures r.Some? ==> IsFinite(r.value)
    ensures v.Num? && v.n.Float? ==> r == Some(v.n.f)
  {
    match v
    case Num(n) =>
      (match n
       case PosInt(u) => Some(IntegerToF64(false, u))
       case NegInt(i) => Some(IntegerToF64(true, -i))
       case Float(f) => Some(f))
    case _ => None
  }

  /** A finite float survives the trip through a JSON value; a non-finite one is lost. */
  lemma AsF64OfFromF64(f: f64)
    ensures IsFinite(f) ==> AsF64(FromF64(f)) == Some(f)
    ensures !IsFinite(f) ==> AsF64(FromF64(f)) == None
  {
  }
}
