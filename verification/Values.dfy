/** The value encoding of values.go: what goes into the BLOB column `v`, and the
    order that comparing those BLOBs byte by byte puts on values. */
module Values {
  import opened Prelude

  const TWO52: int := 0x10_0000_0000_0000
  const TWO51: int := 0x8_0000_0000_0000
  const TWO63: int := 0x8000_0000_0000_0000
  const TWO64: int := 0x1_0000_0000_0000_0000

  type u64 = n: int | 0 <= n < TWO64
  type i64 = n: int | -TWO63 <= n < TWO63

  // ---------------------------------------------------------------------
  // Big-endian words
  // ---------------------------------------------------------------------

  function Pow256(k: nat): (p: nat)
    ensures p >= 1
  {
    if k == 0 then 1 else 256 * Pow256(k - 1)
  }

  /** The low k bytes of n, most significant first. */
  function BigEndian(n: nat, k: nat): (b: Bytes)
    ensures |b| == k
  {
    if k == 0 then [] else BigEndian(n / 256, k - 1) + [n % 256]
  }

  function FromBigEndian(b: Bytes): (n: nat)
    ensures n < Pow256(|b|)
  {
    if b == [] then 0 else 256 * FromBigEndian(b[..|b| - 1]) + b[|b| - 1]
  }

  lemma {:induction false} BigEndianInverse(n: nat, k: nat)
    requires n < Pow256(k)
    ensures FromBigEndian(BigEndian(n, k)) == n
  {
    if k > 0 {
      assert BigEndian(n, k)[..k - 1] == BigEndian(n / 256, k - 1);
      BigEndianInverse(n / 256, k - 1);
    }
  }

  lemma {:induction false} FromBigEndianInverse(b: Bytes)
    ensures BigEndian(FromBigEndian(b), |b|) == b
  {
    if b != [] {
      FromBigEndianInverse(b[..|b| - 1]);
      var n, q, x := FromBigEndian(b), FromBigEndian(b[..|b| - 1]), b[|b| - 1];
      assert n / 256 == q && n % 256 == x;
      assert b == b[..|b| - 1] + [x];
    }
  }

  lemma {:induction false} Pow256Of8()
    ensures Pow256(8) == TWO64
  {
    assert Pow256(4) == 0x1_0000_0000;
    assert Pow256(8) == 256 * 256 * 256 * 256 * Pow256(4);
  }

  // ---------------------------------------------------------------------
  // Byte order: how SQLite compares BLOBs (memcmp, then length)
  // ---------------------------------------------------------------------

  predicate LexLess(a: Bytes, b: Bytes) {
    if b == [] then false
    else if a == [] then true
    else a[0] < b[0] || (a[0] == b[0] && LexLess(a[1..], b[1..]))
  }

  predicate LexLeq(a: Bytes, b: Bytes) {
    a == b || LexLess(a, b)
  }

  lemma {:induction false} LexLessSnoc(a: Bytes, x: byte, b: Bytes, y: byte)
    requires |a| == |b|
    ensures LexLess(a + [x], b + [y]) <==> LexLess(a, b) || (a == b && x < y)
  {
    if a != [] {
      assert (a + [x])[1..] == a[1..] + [x] && (b + [y])[1..] == b[1..] + [y];
      LexLessSnoc(a[1..], x, b[1..], y);
      assert a == [a[0]] + a[1..] && b == [b[0]] + b[1..];
    }
  }

  /** Byte order on words of one width is the order of the numbers they spell. */
  lemma {:induction false} BigEndianOrder(n: nat, m: nat, k: nat)
    requires n < Pow256(k) && m < Pow256(k)
    ensures LexLess(BigEndian(n, k), BigEndian(m, k)) <==> n < m
    ensures BigEndian(n, k) == BigEndian(m, k) <==> n == m
  {
    BigEndianInverse(n, k);
    BigEndianInverse(m, k);
    if k > 0 {
      BigEndianOrder(n / 256, m / 256, k - 1);
      LexLessSnoc(BigEndian(n / 256, k - 1), n % 256, BigEndian(m / 256, k - 1), m % 256);
    }
  }

  // ---------------------------------------------------------------------
  // int64
  // ---------------------------------------------------------------------

  /** The two's complement word uint64(n). */
  function ToWord(n: i64): u64 {
    if n < 0 then n + TWO64 else n
  }

  function FromWord(w: u64): i64 {
    if w >= TWO63 then w - TWO64 else w
  }

  function EncodeInt(n: i64): (b: Bytes)
    ensures |b| == 8
  {
    BigEndian(ToWord(n), 8)
  }

  /** Reads the first eight bytes, as binary.BigEndian.Uint64 does. */
  function DecodeInt(b: Bytes): i64
    requires |b| >= 8
  {
    Pow256Of8();
    FromWord(FromBigEndian(b[..8]))
  }

  lemma {:induction false} IntRoundTrip(n: i64)
    ensures DecodeInt(EncodeInt(n)) == n
  {
    Pow256Of8();
    BigEndianInverse(ToWord(n), 8);
    assert EncodeInt(n)[..8] == EncodeInt(n);
  }

  lemma {:induction false} IntRoundTripBytes(b: Bytes)
    requires |b| == 8
    ensures EncodeInt(DecodeInt(b)) == b
  {
    Pow256Of8();
    FromBigEndianInverse(b);
    assert b[..8] == b;
    assert ToWord(DecodeInt(b)) == FromBigEndian(b);
  }

  /** Byte order agrees with integer order on a pair exactly when the two have the
      same sign: every negative integer is encoded above every non-negative one. */
  lemma {:induction false} IntOrderExactlyWithinASign(x: i64, y: i64)
    ensures (LexLess(EncodeInt(x), EncodeInt(y)) <==> x < y) <==> ((x < 0) == (y < 0))
  {
    Pow256Of8();
    BigEndianOrder(ToWord(x), ToWord(y), 8);
  }

  // ---------------------------------------------------------------------
  // float64, given as its 64-bit IEEE 754 pattern
  // ---------------------------------------------------------------------

  predicate Negative(x: u64) { x >= TWO63 }

  /** x ^ (1 << 63) */
  function FlipSign(x: u64): u64 {
    if x >= TWO63 then x - TWO63 else x + TWO63
  }

  /** ^x */
  function FlipAll(x: u64): u64 {
    TWO64 - 1 - x
  }

  function SortableBits(x: u64): u64 {
    if Negative(x) then FlipAll(x) else FlipSign(x)
  }

  function EncodeFloat(x: u64): (b: Bytes)
    ensures |b| == 8
  {
    BigEndian(SortableBits(x), 8)
  }

  function DecodeFloat(b: Bytes): u64
    requires |b| >= 8
  {
    Pow256Of8();
    var bits := FromBigEndian(b[..8]);
    if Negative(bits) then FlipSign(bits) else FlipAll(bits)
  }

  lemma {:induction false} FloatRoundTrip(x: u64)
    ensures DecodeFloat(EncodeFloat(x)) == x
  {
    Pow256Of8();
    BigEndianInverse(SortableBits(x), 8);
    assert EncodeFloat(x)[..8] == EncodeFloat(x);
  }

  lemma {:induction false} FloatRoundTripBytes(b: Bytes)
    requires |b| == 8
    ensures EncodeFloat(DecodeFloat(b)) == b
  {
    Pow256Of8();
    FromBigEndianInverse(b);
    assert b[..8] == b;
    assert SortableBits(DecodeFloat(b)) == FromBigEndian(b);
  }

  // The fields of a binary64 datum, section 3.4 of IEEE 754-2008.
  function Exponent(x: u64): (e: nat)
    ensures e < 2048
  {
    (x % TWO63) / TWO52
  }

  function Fraction(x: u64): (f: nat)
    ensures f < TWO52
  {
    x % TWO52
  }

  predicate IsNaN(x: u64) { Exponent(x) == 2047 && Fraction(x) != 0 }
  predicate IsInfinite(x: u64) { Exponent(x) == 2047 && Fraction(x) == 0 }
  predicate IsZero(x: u64) { Exponent(x) == 0 && Fraction(x) == 0 }

  function Pow2(k: nat): (p: nat)
    ensures p >= 1
  {
    if k == 0 then 1 else 2 * Pow2(k - 1)
  }

  /** |x| * 2^1074 for a finite x: an integer, so no rounding is involved. */
  function Magnitude(x: u64): nat {
    if Exponent(x) == 0 then Fraction(x) else (TWO52 + Fraction(x)) * Pow2(Exponent(x) - 1)
  }

  /** x * 2^1074 for a finite x. */
  function Scaled(x: u64): int {
    var m: int := Magnitude(x); if Negative(x) then -m else m
  }

  /** The numeric order on data that are not NaN; infinities are the extremes. */
  predicate NumLess(x: u64, y: u64) {
    if IsInfinite(x) then Negative(x) && x != y
    else if IsInfinite(y) then !Negative(y)
    else Scaled(x) < Scaled(y)
  }

  /** Numeric equality on data that are not NaN: the two zeros are equal. */
  predicate NumEqual(x: u64, y: u64) {
    if IsInfinite(x) || IsInfinite(y) then x == y else Scaled(x) == Scaled(y)
  }

  // Signalling NaNs, whose leading fraction bit is clear, come before quiet ones;
  // after that the payload decides.
  predicate Quiet(x: u64) { Fraction(x) >= TWO51 }
  predicate NaNLeq(x: u64, y: u64) {
    if Quiet(x) != Quiet(y) then Quiet(y) else Fraction(x) % TWO51 <= Fraction(y) % TWO51
  }

  /** The predicate totalOrder of section 5.10 of IEEE 754-2008. */
  predicate TotalOrder(x: u64, y: u64) {
    if !IsNaN(x) && !IsNaN(y) then
      NumLess(x, y) || (NumEqual(x, y) && (Negative(x) || !Negative(y)))
    else if !IsNaN(x) then !Negative(y)
    else if !IsNaN(y) then Negative(x)
    else if Negative(x) != Negative(y) then Negative(x)
    else if Negative(x) then NaNLeq(y, x)
    else NaNLeq(x, y)
  }

  lemma {:induction false} Pow2Monotone(j: nat, k: nat)
    requires j <= k
    ensures Pow2(j) <= Pow2(k)
    decreases k
  {
    if j < k {
      Pow2Monotone(j, k - 1);
    }
  }

  lemma {:induction false} MulOrder(f: int, g: int, p: int)
    requires p >= 1
    ensures f < g <==> f * p < g * p
  {
    assert g * p - f * p == (g - f) * p;
    if f < g {
      assert (g - f) * p >= 1 * 1;
    } else {
      assert (f - g) * p >= 0;
    }
  }

  lemma {:induction false} ScaleStep(f: int, g: int, j: nat, k: nat)
    requires 0 <= f < 2 * TWO52 && TWO52 <= g && j < k
    ensures f * Pow2(j) < g * Pow2(k)
  {
    Pow2Monotone(j + 1, k);
    var p, q := Pow2(j), Pow2(k);
    MulOrder(f, 2 * TWO52, p);
    MulOrder(g, TWO52, q);
    assert 2 * TWO52 * p == TWO52 * (2 * p);
    assert TWO52 * (2 * p) <= TWO52 * q;
  }

  lemma {:induction false} MagnitudeStep(x: u64, y: u64)
    requires Exponent(x) < Exponent(y)
    ensures Magnitude(x) < Magnitude(y)
  {
    if Exponent(x) > 0 {
      ScaleStep(TWO52 + Fraction(x), TWO52 + Fraction(y), Exponent(x) - 1, Exponent(y) - 1);
    } else {
      var g, q := TWO52 + Fraction(y), Pow2(Exponent(y) - 1);
      assert g * 1 <= g * q;
    }
  }

  lemma {:induction false} MagnitudeWithin(x: u64, y: u64)
    requires Exponent(x) == Exponent(y)
    ensures Magnitude(x) < Magnitude(y) <==> Fraction(x) < Fraction(y)
    ensures Magnitude(x) == Magnitude(y) <==> Fraction(x) == Fraction(y)
  {
    if Exponent(x) > 0 {
      MulOrder(TWO52 + Fraction(x), TWO52 + Fraction(y), Pow2(Exponent(x) - 1));
      MulOrder(TWO52 + Fraction(y), TWO52 + Fraction(x), Pow2(Exponent(x) - 1));
    }
  }

  // The low 63 bits of an infinity.
  const INF: int := 2047 * TWO52

  lemma {:induction false} Fields(x: u64)
    ensures x % TWO63 == Exponent(x) * TWO52 + Fraction(x)
    ensures x == (if Negative(x) then TWO63 else 0) + x % TWO63
    ensures IsNaN(x) <==> x % TWO63 > INF
    ensures IsInfinite(x) <==> x % TWO63 == INF
    ensures IsZero(x) <==> x % TWO63 == 0
  {
  }

  /** Magnitudes are ordered as the low 63 bits are. */
  lemma {:induction false} MagnitudeOrder(x: u64, y: u64)
    ensures Magnitude(x) < Magnitude(y) <==> x % TWO63 < y % TWO63
    ensures Magnitude(x) == Magnitude(y) <==> x % TWO63 == y % TWO63
  {
    Fields(x);
    Fields(y);
    if Exponent(x) < Exponent(y) {
      MagnitudeStep(x, y);
    } else if Exponent(y) < Exponent(x) {
      MagnitudeStep(y, x);
    } else {
      MagnitudeWithin(x, y);
    }
  }

  lemma {:induction false} MagnitudeOfZero(x: u64)
    ensures Magnitude(x) == 0 <==> x % TWO63 == 0
  {
    assert Magnitude(0) == 0;
    hide Magnitude;
    MagnitudeOrder(x, 0);
  }

  lemma {:induction false} NaNOrder(x: u64, y: u64)
    requires IsNaN(x) && IsNaN(y)
    ensures NaNLeq(x, y) <==> x % TWO63 <= y % TWO63
  {
    Fields(x);
    Fields(y);
  }

  lemma {:induction false} NumOrder(x: u64, y: u64)
    requires !IsNaN(x) && !IsNaN(y)
    ensures NumLess(x, y) <==> if Negative(x) then if Negative(y) then y % TWO63 < x % TWO63
            else x % TWO63 + y % TWO63 > 0
                               else !Negative(y) && x % TWO63 < y % TWO63
    ensures NumEqual(x, y) <==> x == y || (IsZero(x) && IsZero(y))
  {
    Fields(x);
    Fields(y);
    MagnitudeOrder(x, y);
    MagnitudeOfZero(x);
    MagnitudeOfZero(y);
  }

  lemma {:induction false} SortableOrder(x: u64, y: u64)
    ensures SortableBits(x) <= SortableBits(y) <==>
      if Negative(x) then !Negative(y) || y % TWO63 <= x % TWO63 else !Negative(y) && x % TWO63 <= y % TWO63
  {
    Fields(x);
    Fields(y);
  }

  /** Byte order of encoded floats is totalOrder, on all pairs of 64-bit patterns. */
  lemma {:induction false} FloatOrderIsTotalOrder(x: u64, y: u64)
    ensures LexLeq(EncodeFloat(x), EncodeFloat(y)) <==> TotalOrder(x, y)
  {
    Pow256Of8();
    BigEndianOrder(SortableBits(x), SortableBits(y), 8);
    SortableOrder(x, y);
    Fields(x);
    Fields(y);
    if IsNaN(x) && IsNaN(y) {
      NaNOrder(x, y);
      NaNOrder(y, x);
    } else if !IsNaN(x) && !IsNaN(y) {
      NumOrder(x, y);
    }
  }

  // ---------------------------------------------------------------------
  // Values and their types
  // ---------------------------------------------------------------------

  datatype ValueType = TInt | TString | TFloat | TBool | TRef | TBytes | TInst

  /** A Go value. VInst is a time.Time, known only to the millisecond; VNil stands
      for nil and for every Go type the store does not accept. */
  datatype Value =
    | VInt(n: i64)
    | VString(s: Bytes)
    | VFloat(bits: u64)
    | VBool(b: bool)
    | VBytes(bs: Bytes)
    | VInst(ms: i64)
    | VNil

  datatype EncodeError = TypeMismatch | ShortBuffer

  function EncodeValue(v: Value, t: ValueType): Result<Bytes, EncodeError> {
    match t
    case TInt => if v.VInt? then Ok(EncodeInt(v.n)) else Err(TypeMismatch)
    case TRef => if v.VInt? then Ok(EncodeInt(v.n)) else Err(TypeMismatch)
    case TString => if v.VString? then Ok(v.s) else Err(TypeMismatch)
    case TFloat => if v.VFloat? then Ok(EncodeFloat(v.bits)) else Err(TypeMismatch)
    case TBool => if v.VBool? then Ok(if v.b then [1] else [0]) else Err(TypeMismatch)
    case TBytes => if v.VBytes? then Ok(v.bs) else Err(TypeMismatch)
    case TInst => if v.VInst? then Ok(EncodeInt(v.ms)) else Err(TypeMismatch)
  }

  function DecodeValue(b: Bytes, t: ValueType): Result<Value, EncodeError> {
    match t
    case TInt => if |b| < 8 then Err(ShortBuffer) else Ok(VInt(DecodeInt(b)))
    case TRef => if |b| < 8 then Err(ShortBuffer) else Ok(VInt(DecodeInt(b)))
    case TString => Ok(VString(b))
    case TFloat => if |b| < 8 then Err(ShortBuffer) else Ok(VFloat(DecodeFloat(b)))
    case TBool => if |b| < 1 then Err(ShortBuffer) else Ok(VBool(b[0] != 0))
    case TBytes => Ok(VBytes(b))
    case TInst => if |b| < 8 then Err(ShortBuffer) else Ok(VInst(DecodeInt(b)))
  }

  /** The byte strings that some value of type t encodes to. */
  predicate WellFormed(b: Bytes, t: ValueType) {
    match t
    case TInt | TRef | TFloat | TInst => |b| == 8
    case TBool => b == [0] || b == [1]
    case TString | TBytes => true
  }

  /** The number that eight bytes spell, the first byte counting most. */
  function EightBytes(b: Bytes): nat
    requires |b| >= 8
  {
    b[0] as int * 0x100_0000_0000_0000 + b[1] as int * 0x1_0000_0000_0000 + b[2] as int * 0x100_0000_0000
    + b[3] as int * 0x1_0000_0000 + b[4] as int * 0x100_0000 + b[5] as int * 0x1_0000 + b[6] as int * 0x100
      + b[7] as int
  }

  lemma {:induction false} SpelledSnoc(b: Bytes, k: nat)
    requires k < |b|
    ensures FromBigEndian(b[..k + 1]) == FromBigEndian(b[..k]) * 256 + b[k] as int
  {
    assert b[..k + 1][..k] == b[..k];
  }

  lemma {:induction false} WordSpells(n: nat)
    requires n < TWO64
    ensures |BigEndian(n, 8)| == 8 && EightBytes(BigEndian(n, 8)) == n
  {
    Pow256Of8();
    BigEndianInverse(n, 8);
    var b := BigEndian(n, 8);
    assert b[..8] == b;
    hide BigEndian, FromBigEndian, Pow256;
    FourSpell(b);
    SpelledSnoc(b, 4);
    SpelledSnoc(b, 5);
    SpelledSnoc(b, 6);
    SpelledSnoc(b, 7);
  }

  lemma {:induction false} FourSpell(b: Bytes)
    requires |b| >= 4
    ensures FromBigEndian(b[..4])
            == b[0] as int * 0x100_0000 + b[1] as int * 0x1_0000 + b[2] as int * 0x100 + b[3] as int
  {
    assert FromBigEndian(b[..0]) == 0;
    hide FromBigEndian, Pow256;
    SpelledSnoc(b, 0);
    SpelledSnoc(b, 1);
    SpelledSnoc(b, 2);
    SpelledSnoc(b, 3);
  }

  /** Which values encode under a type, and to which bytes; floats are told by their
      order. */
  lemma {:induction false} EncodingIs(v: Value, t: ValueType)
    ensures EncodeValue(v, t).Ok? <==>
            || (v.VInt? && (t == TInt || t == TRef)) || (v.VString? && t == TString) || (v.VFloat? && t == TFloat)
            || (v.VBool? && t == TBool) || (v.VBytes? && t == TBytes) || (v.VInst? && t == TInst)
    ensures EncodeValue(v, t).Ok? ==>
              var b := EncodeValue(v, t).value;
              match v
              case VInt(n) => |b| == 8 && EightBytes(b) == if n < 0 then n + 0x1_0000_0000_0000_0000 else n
              case VInst(ms) => |b| == 8 && EightBytes(b) == if ms < 0 then ms + 0x1_0000_0000_0000_0000 else ms
              case VString(s) => b == s
              case VBytes(bs) => b == bs
              case VBool(x) => b == if x then [1] else [0]
              case _ => true
  {
    match v
    case VInt(n) => WordSpells(ToWord(n));
    case VInst(n) => WordSpells(ToWord(n));
    case _ =>
    hide BigEndian, EightBytes;
  }

  /** Decoding ignores what stands behind the bytes it needs, and any byte but 0 is true. */
  lemma {:induction false} DecodingIs(b: Bytes, t: ValueType)
    ensures DecodeValue(b, t).Err? <==>
            (|b| < 8 && (t == TInt || t == TRef || t == TFloat || t == TInst)) || (b == [] && t == TBool)
    ensures |b| >= 8 && (t == TInt || t == TRef || t == TFloat || t == TInst)
            ==> DecodeValue(b, t) == DecodeValue(b[..8], t)
    ensures b != [] && t == TBool ==> DecodeValue(b, t) == Ok(VBool(b[0] != 0))
  {
    if |b| >= 8 {
      assert b[..8][..8] == b[..8];
    }
    hide DecodeInt, DecodeFloat;
    if |b| >= 8 {
      SameFirstEight(b);
    }
  }

  lemma {:induction false} SameFirstEight(b: Bytes)
    requires |b| >= 8
    ensures DecodeInt(b) == DecodeInt(b[..8]) && DecodeFloat(b) == DecodeFloat(b[..8])
  {
    assert b[..8][..8] == b[..8];
    hide FromBigEndian;
  }

  /** Decoding undoes encoding, and only well-formed bytes are ever written. */
  lemma {:induction false} ValueRoundTrip(v: Value, t: ValueType)
    requires EncodeValue(v, t).Ok?
    ensures DecodeValue(EncodeValue(v, t).value, t) == Ok(v)
    ensures WellFormed(EncodeValue(v, t).value, t)
  {
    match v
    case VInt(n) => IntRoundTrip(n);
    case VInst(n) => IntRoundTrip(n);
    case VFloat(x) => FloatRoundTrip(x);
    case _ =>
  }

  /** Encoding undoes decoding exactly on well-formed bytes; on longer buffers
      decodeValue ignores the tail, so there it cannot. */
  lemma {:induction false} DecodeRoundTripExactly(b: Bytes, t: ValueType)
    requires DecodeValue(b, t).Ok?
    ensures EncodeValue(DecodeValue(b, t).value, t) == Ok(b) <==> WellFormed(b, t)
  {
    if WellFormed(b, t) {
      match t
      case TInt | TRef | TInst => IntRoundTripBytes(b);
      case TFloat => FloatRoundTripBytes(b);
      case _ =>
    }
  }

  // ---------------------------------------------------------------------
  // The statements of values.go that fill a buffer
  // ---------------------------------------------------------------------

  method PutUint64(b: array<byte>, n: u64)
    requires b.Length == 8
    modifies b
    ensures b[..] == BigEndian(n, 8)
  {
    var word := BigEndian(n, 8);
    forall i | 0 <= i < 8 {
      b[i] := word[i];
    }
  }

  method EncodeFloat64(f: u64) returns (b: array<byte>)
    ensures fresh(b) && b[..] == EncodeFloat(f)
  {
    var bits := f;
    if Negative(bits) {
      bits := FlipAll(bits);
    } else {
      bits := FlipSign(bits);
    }
    b := new byte[8](_ => 0);
    PutUint64(b, bits);
  }
}
