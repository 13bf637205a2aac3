/** Integers of any width at any bit offset: reading, writing, the overflow
    checks, and one operation of BITFIELD.  Widths are 1 to 63 bits. */
module Bitfield {
  import opened Basics
  import opened BitString

  lemma {:induction false} Pow2Grows(m: nat, n: nat)
    requires m <= n
    ensures Pow2(m) <= Pow2(n) && Pow2(n) % Pow2(m) == 0
  {
    if m < n {
      Pow2Grows(m, n - 1);
      EvenMultiple(Pow2(n - 1), Pow2(m));
    } else {
      SelfMod(Pow2(m));
    }
  }

  lemma SelfMod(m: nat)
    requires m >= 1
    ensures m % m == 0
  {
  }

  lemma EvenMultiple(x: nat, m: nat)
    requires m >= 1 && x % m == 0
    ensures (2 * x) % m == 0
  {
    var k := x / m;
    assert x == m * k;
    MultipleMod(2 * k, m);
    assert 2 * x == m * (2 * k);
  }

  lemma {:induction false} MultipleMod(k: nat, m: nat)
    requires m >= 1
    ensures (m * k) % m == 0
    decreases k
  {
    if k > 0 {
      MultipleMod(k - 1, m);
      assert m * k == m * (k - 1) + m;
      AddMod(m * (k - 1), m);
    }
  }

  lemma AddMod(x: int, m: nat)
    requires m >= 1
    ensures (x + m) % m == x % m
  {
    var q, r := x / m, x % m;
    assert x + m == m * (q + 1) + r;
    UniqueMod(x + m, q + 1, r, m);
  }

  /** A quotient and a remainder in range are the quotient and the remainder. */
  lemma UniqueMod(x: int, q: int, r: int, m: nat)
    requires m >= 1 && x == m * q + r && 0 <= r < m
    ensures x % m == r && x / m == q
  {
    var q', r' := x / m, x % m;
    assert x == m * q' + r';
    Distribute(m, q, -q');
    Distribute(m, q', -q);
    if q > q' {
      Scaled(m, q - q');
    } else if q < q' {
      Scaled(m, q' - q);
    }
  }

  lemma Distribute(m: int, a: int, b: int)
    ensures m * (a + b) == m * a + m * b && m * -b == -(m * b)
  {
  }

  lemma Regroup(n: int, m: int, q: int)
    ensures n * m * q == m * (n * q)
  {
  }

  lemma ModMultiple(x: int, m: nat, n: nat)
    requires m >= 1 && n >= 1 && n * m >= 1
    ensures x % (n * m) % m == x % m
  {
    var u := n * m;
    var q, r := x / u, x % u;
    var q', r' := r / m, r % m;
    assert x == u * q + r && r == m * q' + r';
    Regroup(n, m, q);
    Distribute(m, n * q, q');
    UniqueMod(x, n * q + q', r', m);
  }

  lemma Scaled(m: nat, d: nat)
    requires d >= 1
    ensures m * d >= m
  {
    assert m * d == m + m * (d - 1);
  }

  // ----- single bits --------------------------------------------------------------------------

  predicate ValueBit(value: nat, k: nat) { value / Pow2(k) % 2 == 1 }

  function SetBitIn(b: bv8, r: nat, v: bool): bv8
    requires r < 8
  {
    if v then b | BitMask(r) else b & !BitMask(r)
  }

  lemma SetBitInByte(b: bv8, r: nat, v: bool, q: nat)
    requires r < 8 && q < 8
    ensures ByteBit(SetBitIn(b, r, v), q) == if q == r then v else ByteBit(b, q)
  {
  }

  lemma SetBitInBytes(s: Bytes, i: nat, v: bool, j: nat)
    requires i < 8 * |s|
    ensures Bit(s[i / 8 := SetBitIn(s[i / 8], i % 8, v)], j) == if j == i then v else Bit(s, j)
  {
    SetBitInByte(s[i / 8], i % 8, v, j % 8);
    hide ByteBit;
    hide SetBitIn;
    assert j == 8 * (j / 8) + j % 8 && i == 8 * (i / 8) + i % 8;
  }

  // ----- reading and writing ---------------------------------------------------------------------

  /** The number written in `bits` bits from `offset` on, most significant bit first. */
  function Field(s: Bytes, offset: nat, bits: nat): (r: nat)
    ensures r < Pow2(bits)
  {
    if bits == 0 then 0 else 2 * Field(s, offset, bits - 1) + One(Bit(s, offset + bits - 1))
  }

  /** getUnsignedBitfield */
  method GetUnsigned(p: Bytes, offset: nat, bits: nat) returns (value: nat)
    requires offset + bits <= 8 * |p|
    ensures value == Field(p, offset, bits)
  {
    hide ByteBit;
    value := 0;
    for j := 0 to bits
      invariant value == Field(p, offset, j)
    {
      var byte, bit := (offset + j) / 8, (offset + j) % 8;
      value := 2 * value + One(ByteBit(p[byte], bit));
    }
  }

  /** The first n bits of the field hold the leading bits of the value; nothing else differs. */
  ghost predicate Written(s: Bytes, before: Bytes, offset: nat, n: nat, bits: nat, value: nat)
    requires n <= bits
  {
    && |s| == |before|
    && (forall i: nat | offset <= i < offset + n :: Bit(s, i) == ValueBit(value, offset + bits - 1 - i))
    && (forall i: nat | i < offset || offset + n <= i :: Bit(s, i) == Bit(before, i))
  }

  /** setUnsignedBitfield: bit by bit, most significant first. */
  method SetUnsigned(p: array<bv8>, offset: nat, bits: nat, value: nat)
    requires offset + bits <= 8 * p.Length
    modifies p
    ensures Written(p[..], old(p[..]), offset, bits, bits, value)
  {
    hide Bit;
    hide ByteBit;
    hide SetBitIn;
    hide ValueBit;
    for j := 0 to bits
      invariant Written(p[..], old(p[..]), offset, j, bits, value)
    {
      var bitval := ValueBit(value, bits - 1 - j);
      var byte, bit := (offset + j) / 8, (offset + j) % 8;
      ghost var before := p[..];
      p[byte] := SetBitIn(p[byte], bit, bitval);
      assert p[..] == before[byte := SetBitIn(before[byte], bit, bitval)];
      forall i: nat
        ensures Bit(p[..], i) == if i == offset + j then bitval else Bit(before, i)
      {
        SetBitInBytes(before, offset + j, bitval, i);
      }
    }
  }

  lemma LastBit(value: nat, n: nat)
    requires n >= 1
    ensures value % Pow2(n) == 2 * (value / 2 % Pow2(n - 1)) + value % 2
  {
    var m := Pow2(n - 1);
    var q, r := value / 2 / m, value / 2 % m;
    assert value == 2 * (value / 2) + value % 2;
    assert value / 2 == m * q + r;
    assert value == (2 * m) * q + (2 * r + value % 2);
    UniqueMod(value, q, 2 * r + value % 2, 2 * m);
  }

  lemma HalfBit(value: nat, k: nat)
    ensures ValueBit(value / 2, k) == ValueBit(value, k + 1)
  {
    var m := Pow2(k);
    var q, r := value / 2 / m, value / 2 % m;
    assert value == 2 * (value / 2) + value % 2;
    assert value / 2 == m * q + r;
    assert value == (2 * m) * q + (2 * r + value % 2);
    UniqueMod(value, q, 2 * r + value % 2, 2 * m);
  }

  /** Bits that spell a value spell it modulo the width. */
  lemma {:induction false} FieldSpells(s: Bytes, offset: nat, bits: nat, value: nat)
    requires forall i | offset <= i < offset + bits :: Bit(s, i) == ValueBit(value, offset + bits - 1 - i)
    ensures Field(s, offset, bits) == value % Pow2(bits)
    decreases bits
  {
    hide Bit;
    if bits > 0 {
      forall i | offset <= i < offset + (bits - 1)
        ensures Bit(s, i) == ValueBit(value / 2, offset + (bits - 1) - 1 - i)
      {
        HalfBit(value, offset + (bits - 1) - 1 - i);
      }
      FieldSpells(s, offset, bits - 1, value / 2);
      LastBit(value, bits);
      assert Pow2(0) == 1 && value / 1 == value;
      assert Bit(s, offset + bits - 1) == ValueBit(value, 0);
    }
  }

  lemma {:induction false} FieldDepends(s: Bytes, t: Bytes, offset: nat, from: nat, bits: nat)
    requires forall i: nat | offset <= i < offset + bits :: Bit(s, i) == Bit(t, from + (i - offset))
    ensures Field(s, offset, bits) == Field(t, from, bits)
    decreases bits
  {
    hide Bit;
    if bits > 0 {
      FieldDepends(s, t, offset, from, bits - 1);
      assert Bit(s, offset + bits - 1) == Bit(t, from + (offset + bits - 1 - offset));
    }
  }

  // ----- signed numbers ----------------------------------------------------------------------------

  const U64: nat := 0x1_0000_0000_0000_0000
  const MAX64: int := 0x7fff_ffff_ffff_ffff

  predicate Int64(x: int) { -MAX64 - 1 <= x <= MAX64 }

  predicate Width(bits: nat) { 1 <= bits <= 63 }

  function Max(bits: nat): int
    requires bits >= 1
  {
    Pow2(bits - 1) - 1
  }

  function Min(bits: nat): int
    requires bits >= 1
  {
    0 - Pow2(bits - 1)
  }

  /** The number two's complement gives `bits` bits. */
  function Signed(u: nat, bits: nat): int
    requires bits >= 1
  {
    if u >= Pow2(bits - 1) then u - Pow2(bits) else u
  }

  /** The number in the range of the width that is congruent to x. */
  function Wrapped(x: int, bits: nat): int
    requires bits >= 1
  {
    Signed(x % Pow2(bits), bits)
  }

  /** getSignedBitfield: sign extension of the unsigned number. */
  method GetSigned(p: Bytes, offset: nat, bits: nat) returns (value: int)
    requires offset + bits <= 8 * |p| && Width(bits)
    ensures value == Signed(Field(p, offset, bits), bits)
  {
    value := GetUnsigned(p, offset, bits);
    if value >= Pow2(bits - 1) {
      value := value - Pow2(bits);
    }
  }

  /** setSignedBitfield: the cast to unsigned adds 2^64 to a negative value. */
  method SetSigned(p: array<bv8>, offset: nat, bits: nat, value: int)
    requires offset + bits <= 8 * p.Length && Int64(value)
    modifies p
    ensures Written(p[..], old(p[..]), offset, bits, bits, value % U64)
  {
    SetUnsigned(p, offset, bits, value % U64);
  }

  lemma Pow2Eight()
    ensures Pow2(1) == 2 && Pow2(8) == 256
  {
    assert Pow2(4) == 16;
  }

  lemma SixtyFour()
    ensures Pow2(64) == U64 && Pow2(63) == MAX64 + 1
  {
    Pow2Eight();
    hide Pow2;
    Pow2Add(8, 8);
    Pow2Add(16, 16);
    Pow2Add(32, 32);
    Pow2Add(1, 63);
  }

  lemma {:induction false} Pow2Add(a: nat, b: nat)
    ensures Pow2(a + b) == Pow2(a) * Pow2(b)
  {
    if b > 0 {
      Pow2Add(a, b - 1);
      assert Pow2(a) * (2 * Pow2(b - 1)) == 2 * (Pow2(a) * Pow2(b - 1));
    }
  }

  /** Reducing modulo 2^64 first does not matter for a smaller width. */
  lemma ModMod(x: int, bits: nat)
    requires bits <= 64
    ensures x % U64 % Pow2(bits) == x % Pow2(bits)
  {
    SixtyFour();
    Pow2Add(64 - bits, bits);
    ModMultiple(x, Pow2(bits), Pow2(64 - bits));
  }

  /** Reading back what was written: the value reduced to the width. */
  lemma GetAfterSet(s: Bytes, before: Bytes, offset: nat, bits: nat, value: nat)
    requires Written(s, before, offset, bits, bits, value)
    ensures Field(s, offset, bits) == value % Pow2(bits)
    ensures forall i: nat | i < offset || offset + bits <= i :: Bit(s, i) == Bit(before, i)
  {
    hide Bit;
    hide ValueBit;
    FieldSpells(s, offset, bits, value);
  }

  lemma GetAfterSetSigned(s: Bytes, before: Bytes, offset: nat, bits: nat, value: int)
    requires Width(bits) && Written(s, before, offset, bits, bits, value % U64)
    ensures Signed(Field(s, offset, bits), bits) == Wrapped(value, bits)
    ensures Min(bits) <= value <= Max(bits) ==> Signed(Field(s, offset, bits), bits) == value
  {
    hide Bit;
    hide ValueBit;
    FieldSpells(s, offset, bits, value % U64);
    ModMod(value, bits);
    if Min(bits) <= value <= Max(bits) {
      InRangeWraps(value, bits);
    }
  }

  lemma InRangeWraps(value: int, bits: nat)
    requires bits >= 1 && Min(bits) <= value <= Max(bits)
    ensures Wrapped(value, bits) == value
  {
    var m := Pow2(bits);
    if value >= 0 {
      UniqueMod(value, 0, value, m);
    } else {
      UniqueMod(value, -1, value + m, m);
    }
  }

  /** A wrapped number is in range and congruent. */
  lemma WrappedIs(x: int, bits: nat)
    requires bits >= 1
    ensures Min(bits) <= Wrapped(x, bits) <= Max(bits)
    ensures (x - Wrapped(x, bits)) % Pow2(bits) == 0
  {
    var m := Pow2(bits);
    var q, r := x / m, x % m;
    assert x == m * q + r;
    Distribute(m, q, 1);
    UniqueMod(m * q, q, 0, m);
    UniqueMod(m * (q + 1), q + 1, 0, m);
  }

  // ----- the overflow checks -----------------------------------------------------------------------

  datatype Policy = Wrap | Sat | Fail

  /** The sign of the overflow and the value to store instead. */
  datatype Check = Fits | Over(sign: int, limit: Option<int>)

  function ToInt64(x: int): int {
    var u := x % U64;
    if u > MAX64 then u - U64 else u
  }

  lemma ToInt64Same(x: int)
    requires Int64(x)
    ensures ToInt64(x) == x
  {
    if x >= 0 {
      UniqueMod(x, 0, x, U64);
    } else {
      UniqueMod(x, -1, x + U64, U64);
    }
  }

  /** The low `bits` bits of a 64 bit word. */
  function LowBits(x: int, bits: nat): int {
    x % U64 % Pow2(bits)
  }

  /** checkUnsignedBitfieldOverflow */
  function CheckUnsigned(value: nat, incr: int, bits: nat, policy: Policy): Check
    requires Width(bits)
  {
    var max := Pow2(bits) - 1;
    var maxincr, minincr := ToInt64(max - value), ToInt64(0 - value);
    var wrapped := Some(LowBits(value + incr, bits));
    if value > max || (incr > 0 && incr > maxincr) then
      Over(1, match policy case Wrap => wrapped case Sat => Some(max) case Fail => None)
    else if incr < 0 && incr < minincr then
      match policy case Wrap => Over(1, wrapped) case Sat => Over(-1, Some(0)) case Fail => Over(-1, None)
    else Fits
  }

  /** checkSignedBitfieldOverflow; the differences are computed in 64 bits. */
  function CheckSigned(value: int, incr: int, bits: nat, policy: Policy): Check
    requires Width(bits)
  {
    var max, min := Max(bits), Min(bits);
    var maxincr, minincr := ToInt64(max - value), ToInt64(min - value);
    var wrapped := Some(Signed((value % U64 + incr % U64) % U64 % Pow2(bits), bits));
    if value > max || incr > maxincr || (value >= 0 && incr > 0 && incr > maxincr) then
      Over(1, match policy case Wrap => wrapped case Sat => Some(max) case Fail => None)
    else if value < min || incr < minincr || (value < 0 && incr < 0 && incr < minincr) then
      match policy case Wrap => Over(1, wrapped) case Sat => Over(-1, Some(min)) case Fail => Over(-1, None)
    else Fits
  }

  lemma WidthsFit(bits: nat)
    requires Width(bits)
    ensures Pow2(bits) <= MAX64 + 1 && Pow2(bits) == 2 * Pow2(bits - 1)
  {
    SixtyFour();
    Pow2Grows(bits, 63);
  }

  lemma LowBitsExact(x: int, bits: nat)
    requires bits <= 64
    ensures LowBits(x, bits) == x % Pow2(bits)
  {
    ModMod(x, bits);
  }

  /** For a current value in range the check fires exactly when the sum leaves
      the range; WRAP gives the congruent value, SAT the nearest bound. */
  lemma UnsignedCheckExact(value: nat, incr: int, bits: nat, policy: Policy)
    requires Width(bits) && value < Pow2(bits) && Int64(incr)
    ensures var c, max := CheckUnsigned(value, incr, bits, policy), Pow2(bits) - 1;
      && (c.Fits? <==> 0 <= value + incr <= max)
      && (c.Over? ==> c.limit == match policy
                                 case Wrap => Some((value + incr) % Pow2(bits))
                                 case Sat => Some(if value + incr > max then max else 0)
                                 case Fail => None)
  {
    hide ToInt64, Pow2, LowBits;
    WidthsFit(bits);
    ToInt64Same(Pow2(bits) - 1 - value);
    ToInt64Same(0 - value);
    LowBitsExact(value + incr, bits);
  }

  /** A value to be SET is checked with increment zero. */
  lemma UnsignedSetExact(value: nat, bits: nat, policy: Policy)
    requires Width(bits) && value < U64
    ensures var c := CheckUnsigned(value, 0, bits, policy);
      && (c.Fits? <==> value < Pow2(bits))
      && (c.Over? && policy == Wrap ==> c.limit == Some(value % Pow2(bits)))
      && (c.Over? && policy == Sat ==> c.limit == Some(Pow2(bits) - 1))
      && (c.Over? && policy == Fail ==> c.limit == None)
  {
    hide Pow2, LowBits;
    LowBitsExact(value, bits);
  }

  lemma SumMod(value: int, incr: int, bits: nat)
    requires bits <= 64
    ensures (value % U64 + incr % U64) % U64 % Pow2(bits) == (value + incr) % Pow2(bits)
  {
    var a, b := value / U64, incr / U64;
    var r := (value % U64 + incr % U64) % U64;
    var c := (value % U64 + incr % U64) / U64;
    assert value + incr == U64 * (a + b + c) + r;
    UniqueMod(value + incr, a + b + c, r, U64);
    ModMod(value + incr, bits);
  }

  lemma SignedCheckExact(value: int, incr: int, bits: nat, policy: Policy)
    requires Width(bits) && Min(bits) <= value <= Max(bits) && Int64(incr)
    ensures var c := CheckSigned(value, incr, bits, policy);
      && (c.Fits? <==> Min(bits) <= value + incr <= Max(bits))
      && (c.Over? ==> c.limit == match policy
                                 case Wrap => Some(Wrapped(value + incr, bits))
                                 case Sat => Some(if value + incr > Max(bits) then Max(bits) else Min(bits))
                                 case Fail => None)
  {
    WidthsFit(bits);
    ToInt64Same(Max(bits) - value);
    ToInt64Same(Min(bits) - value);
    SumMod(value, incr, bits);
  }

  /** A signed value to be SET: it fits exactly when it is in range, and SAT
      clamps it, except that a value so small that the distance to the maximum
      does not fit 64 bits is clamped to the wrong end. */
  lemma SignedSetExact(value: int, bits: nat)
    requires Width(bits) && Int64(value)
    ensures CheckSigned(value, 0, bits, Sat).Fits? <==> Min(bits) <= value <= Max(bits)
    ensures value > Max(bits) ==> CheckSigned(value, 0, bits, Sat) == Over(1, Some(Max(bits)))
    ensures value < Min(bits) ==>
      (CheckSigned(value, 0, bits, Sat) == Over(-1, Some(Min(bits))) <==> Max(bits) - value <= MAX64)
    ensures Max(bits) - value > MAX64 ==>
      value < Min(bits) && CheckSigned(value, 0, bits, Sat) == Over(1, Some(Max(bits)))
  {
    WidthsFit(bits);
    if value <= Max(bits) {
      var d := Max(bits) - value;
      if d <= MAX64 {
        ToInt64Same(d);
      } else {
        UniqueMod(d, 0, d, U64);
      }
      if value >= Min(bits) {
        ToInt64Same(Min(bits) - value);
      }
    }
  }

  /** The smallest 64-bit value saturates a signed byte at 127. */
  lemma SignedSetWrongEnd()
    ensures CheckSigned(-MAX64 - 1, 0, 8, Sat) == Over(1, Some(127)) && Min(8) == -128
  {
    assert Pow2(7) == 128 by { assert Pow2(3) == 8; assert Pow2(5) == 32; }
    var d := Max(8) - (-MAX64 - 1);
    UniqueMod(d, 0, d, U64);
  }

  // ----- BITFIELD -------------------------------------------------------------------------------------

  /** Nine bytes of the zero-padded string. */
  function Window(s: Bytes, byte: nat): (r: Bytes)
    ensures |r| == 9 && forall i | 0 <= i < 9 :: r[i] == if byte + i < |s| then s[byte + i] else 0
  {
    seq(9, i requires 0 <= i < 9 => if byte + i < |s| then s[byte + i] else 0)
  }

  lemma ZeroByte(r: nat)
    requires r < 8
    ensures !ByteBit(0, r)
  {
  }

  lemma WindowBit(s: Bytes, byte: nat, i: nat)
    requires i < 72
    ensures Bit(Window(s, byte), i) == Bit(s, 8 * byte + i)
  {
    hide ByteBit;
    ZeroByte(i % 8);
    assert (8 * byte + i) / 8 == byte + i / 8 && (8 * byte + i) % 8 == i % 8;
  }

  /** GET: a missing key and bytes after the end read as zeros. */
  method GetField(src: Option<Bytes>, signed: bool, offset: nat, bits: nat) returns (value: int)
    requires Width(bits)
    ensures var s := if src.Some? then src.value else [];
      value == if signed then Signed(Field(s, offset, bits), bits) else Field(s, offset, bits)
  {
    hide Bit;
    hide Field;
    ghost var s := if src.Some? then src.value else [];
    var byte := offset / 8;
    var buf: Bytes := seq(9, _ => 0);
    for i := 0 to 9
      invariant |buf| == 9 && forall k | 0 <= k < 9 :: buf[k] == if k < i && byte + k < |s| then s[byte + k] else 0
    {
      if src.None? || i + byte >= |src.value| {
        break;
      }
      buf := buf[i := src.value[i + byte]];
    }
    assert buf == Window(s, byte);
    forall i: nat | offset <= i < offset + bits
      ensures Bit(s, i) == Bit(buf, offset - 8 * byte + (i - offset))
    {
      WindowBit(s, byte, i - 8 * byte);
    }
    FieldDepends(s, buf, offset, offset - 8 * byte, bits);
    if signed {
      value := GetSigned(buf, offset - 8 * byte, bits);
    } else {
      value := GetUnsigned(buf, offset - 8 * byte, bits);
    }
  }

  datatype FieldOp = FieldOp(signed: bool, offset: nat, bits: nat, increment: bool, operand: int, policy: Policy)

  predicate Legal(op: FieldOp) { Width(op.bits) && Int64(op.operand) }

  function Read(s: Bytes, op: FieldOp): int
    requires Width(op.bits)
  {
    if op.signed then Signed(Field(s, op.offset, op.bits), op.bits) else Field(s, op.offset, op.bits)
  }

  /** The value SET or INCRBY asks for, before any overflow handling. */
  function Wanted(op: FieldOp, current: int): int {
    if op.increment then current + op.operand else op.operand
  }

  predicate InRange(op: FieldOp, x: int)
    requires Width(op.bits)
  {
    if op.signed then Min(op.bits) <= x <= Max(op.bits) else 0 <= x < Pow2(op.bits)
  }

  function Top(op: FieldOp): int
    requires Width(op.bits)
  {
    if op.signed then Max(op.bits) else Pow2(op.bits) - 1
  }

  function Bottom(op: FieldOp): int
    requires Width(op.bits)
  {
    if op.signed then Min(op.bits) else 0
  }

  /** What the field should hold afterwards: the value, the congruent one, or
      the nearest bound; None when the operation is refused. */
  function Intended(op: FieldOp, current: int): Option<int>
    requires Width(op.bits)
  {
    var x := Wanted(op, current);
    if InRange(op, x) then Some(x)
    else match op.policy
      case Wrap => Some(if op.signed then Wrapped(x, op.bits) else x % Pow2(op.bits))
      case Sat => Some(if x > Top(op) then Top(op) else Bottom(op))
      case Fail => None
  }

  /** The check the code makes for an operation on a field that holds `current`. */
  function CheckFor(op: FieldOp, current: int): Check
    requires Width(op.bits) && (op.signed || current >= 0)
  {
    if op.signed then (if op.increment then CheckSigned(current, op.operand, op.bits, op.policy)
      else CheckSigned(op.operand, 0, op.bits, op.policy))
    else if op.increment then CheckUnsigned(current, op.operand, op.bits, op.policy)
    else CheckUnsigned(op.operand % U64, 0, op.bits, op.policy)
  }

  /** What the code stores: the value it wants, or what the check says instead. */
  function Stored(op: FieldOp, current: int): Option<int>
    requires Width(op.bits) && (op.signed || current >= 0)
  {
    var c := CheckFor(op, current);
    if c.Over? then c.limit else Some(Wanted(op, current))
  }

  lemma LimitMissing(op: FieldOp, current: int)
    requires Width(op.bits) && (op.signed || current >= 0)
    ensures var c := CheckFor(op, current); c.Over? ==> (c.limit.None? <==> op.policy == Fail)
  {
    hide Pow2, ToInt64, LowBits, Signed;
  }

  /** SET under SAT of a negative value to an unsigned field, or to a signed field
      if the distance from the value to the maximum does not fit 64 bits. */
  predicate SaturatesWrongWay(op: FieldOp)
    requires Width(op.bits)
  {
    && op.policy == Sat && !op.increment
    && (if op.signed then Max(op.bits) - op.operand > MAX64 else op.operand < 0)
  }

  lemma SignedStored(op: FieldOp, current: int)
    requires Legal(op) && op.signed && InRange(op, current)
    ensures Stored(op, current) == if SaturatesWrongWay(op) then Some(Top(op)) else Intended(op, current)
  {
    hide CheckSigned, CheckUnsigned, Pow2;
    if op.increment {
      SignedCheckExact(current, op.operand, op.bits, op.policy);
    } else if SaturatesWrongWay(op) {
      SignedSetExact(op.operand, op.bits);
    } else {
      SignedSetAny(op.operand, op.bits, op.policy);
    }
  }

  lemma UnsignedStored(op: FieldOp, current: int)
    requires Legal(op) && !op.signed && InRange(op, current)
    ensures Stored(op, current) == if SaturatesWrongWay(op) then Some(Top(op)) else Intended(op, current)
  {
    hide CheckSigned, CheckUnsigned, Pow2;
    if op.increment {
      UnsignedCheckExact(current, op.operand, op.bits, op.policy);
    } else {
      UnsignedSetExact(op.operand % U64, op.bits, op.policy);
      CastRange(op.operand, op.bits);
      ModMod(op.operand, op.bits);
    }
  }

  lemma StoredIs(op: FieldOp, current: int)
    requires Legal(op) && InRange(op, current)
    ensures Stored(op, current) == if SaturatesWrongWay(op) then Some(Top(op)) else Intended(op, current)
  {
    hide Stored, SaturatesWrongWay, Intended, Top;
    if op.signed {
      SignedStored(op, current);
    } else {
      UnsignedStored(op, current);
    }
  }

  /** What the code stores is what WRAP, SAT and FAIL promise if and only if it
      is not one of those SETs, which end at the maximum instead of the minimum. */
  lemma StoredIsIntendedExactly(op: FieldOp, current: int)
    requires Legal(op) && InRange(op, current)
    ensures Stored(op, current) == Intended(op, current) <==> !SaturatesWrongWay(op)
    ensures SaturatesWrongWay(op) ==> Stored(op, current) == Some(Top(op)) && Intended(op, current) == Some(Bottom(op))
  {
    hide Stored;
    StoredIs(op, current);
    WidthsFit(op.bits);
    hide Pow2;
  }

  /** -1 stored in an unsigned byte under SAT gives 255, not 0. */
  lemma UnsignedSetWrongEnd(current: int)
    requires 0 <= current < 256
    ensures var op := FieldOp(false, 0, 8, false, -1, Sat);
      Stored(op, current) == Some(255) && Intended(op, current) == Some(0)
  {
    Pow2Eight();
    StoredIsIntendedExactly(FieldOp(false, 0, 8, false, -1, Sat), current);
  }

  lemma CastRange(x: int, bits: nat)
    requires Int64(x) && Width(bits)
    ensures x % U64 < Pow2(bits) <==> 0 <= x < Pow2(bits)
    ensures 0 <= x ==> x % U64 == x
  {
    WidthsFit(bits);
    hide Pow2;
    if x >= 0 {
      UniqueMod(x, 0, x, U64);
    } else {
      UniqueMod(x, -1, x + U64, U64);
    }
  }

  lemma SignedSetAny(value: int, bits: nat, policy: Policy)
    requires Width(bits) && Int64(value) && (policy == Sat ==> Max(bits) - value <= MAX64)
    ensures var c := CheckSigned(value, 0, bits, policy);
      && (c.Fits? <==> Min(bits) <= value <= Max(bits))
      && (c.Over? ==> c.limit == match policy
                                 case Wrap => Some(Wrapped(value, bits))
                                 case Sat => Some(if value > Max(bits) then Max(bits) else Min(bits))
                                 case Fail => None)
  {
    hide Pow2;
    SumMod(value, 0, bits);
    SignedSetExact(value, bits);
  }

  /** SET and INCRBY: fetch, check, store. */
  method Execute(p: array<bv8>, op: FieldOp) returns (reply: Option<int>)
    requires Legal(op) && op.offset + op.bits <= 8 * p.Length
    modifies p
    ensures var current := old(Read(p[..], op));
      && (Stored(op, current).None? ==> reply.None? && p[..] == old(p[..]))
      && (Stored(op, current).Some? ==>
        && reply == Some(if op.increment then Stored(op, current).value else current)
        && Read(p[..], op) == Stored(op, current).value
        && forall i: nat | i < op.offset || op.offset + op.bits <= i :: Bit(p[..], i) == old(Bit(p[..], i)))
  {
    hide Bit;
    hide Field;
    hide CheckFor;
    hide Written;
    var current: int := GetUnsigned(p[..], op.offset, op.bits);
    if op.signed {
      current := GetSigned(p[..], op.offset, op.bits);
    }
    ReadInRange(p[..], op);
    StoredInRange(op, current);
    LimitMissing(op, current);
    var check := CheckFor(op, current);
    if check.Over? && op.policy == Fail {
      return None;
    }
    var newval := if check.Over? then check.limit.value else Wanted(op, current);
    ghost var before := p[..];
    if op.signed {
      StoredIsInt64(op, newval);
      SetSigned(p, op.offset, op.bits, newval);
      GetAfterSetSigned(p[..], before, op.offset, op.bits, newval);
    } else {
      SetUnsigned(p, op.offset, op.bits, newval);
      GetAfterSet(p[..], before, op.offset, op.bits, newval);
      UniqueMod(newval, 0, newval, Pow2(op.bits));
    }
    OutsideKept(p[..], before, op.offset, op.bits, if op.signed then newval % U64 else newval);
    return Some(if op.increment then newval else current);
  }

  lemma ReadInRange(s: Bytes, op: FieldOp)
    requires Width(op.bits)
    ensures InRange(op, Read(s, op))
  {
    hide Bit;
    assert Pow2(op.bits) == 2 * Pow2(op.bits - 1);
  }

  lemma StoredInRange(op: FieldOp, current: int)
    requires Legal(op) && InRange(op, current)
    ensures Stored(op, current).Some? ==> InRange(op, Stored(op, current).value)
    ensures Stored(op, current).None? <==> op.policy == Fail && !InRange(op, Wanted(op, current))
    ensures InRange(op, Wanted(op, current)) ==> Stored(op, current) == Some(Wanted(op, current))
  {
    hide Stored;
    StoredIs(op, current);
    WidthsFit(op.bits);
    hide Pow2;
    if op.signed {
      WrappedIs(Wanted(op, current), op.bits);
    }
  }

  lemma StoredIsInt64(op: FieldOp, x: int)
    requires Width(op.bits) && op.signed && InRange(op, x)
    ensures Int64(x)
  {
    WidthsFit(op.bits);
    hide Pow2;
  }

  lemma OutsideKept(s: Bytes, before: Bytes, offset: nat, bits: nat, value: nat)
    requires Written(s, before, offset, bits, bits, value)
    ensures forall i: nat | i < offset || offset + bits <= i :: Bit(s, i) == Bit(before, i)
  {
  }
}
