/** CRC-64 (Jones polynomial, reflected): the bit-by-bit reference, the generated
    tables, and the two forms that take eight bytes at a time. */
module Crc64 {
  import opened Word64

  const POLY: bv64 := 0xad93d23594c935a9

  // ----- bit reversal -------------------------------------------------------------

  function Reflect(x0: bv64): bv64 {
    var x1 := ((x0 >> 1) & 0x5555555555555555) | ((x0 & 0x5555555555555555) << 1);
    var x2 := ((x1 >> 2) & 0x3333333333333333) | ((x1 & 0x3333333333333333) << 2);
    var x4 := ((x2 >> 4) & 0x0f0f0f0f0f0f0f0f) | ((x2 & 0x0f0f0f0f0f0f0f0f) << 4);
    var x8 := ((x4 >> 8) & 0x00ff00ff00ff00ff) | ((x4 & 0x00ff00ff00ff00ff) << 8);
    var x16 := ((x8 >> 16) & 0x0000ffff0000ffff) | ((x8 & 0x0000ffff0000ffff) << 16);
    (x16 >> 32) | (x16 << 32)
  }

  lemma ReflectXor(x: bv64, y: bv64)
    ensures Reflect(Xor(x, y)) == Xor(Reflect(x), Reflect(y))
  {
  }

  lemma ReflectLeft(x: bv64)
    ensures Reflect(Left(x)) == Right(Reflect(x))
  {
    hide Reflect;
    ReflectShift(x);
  }

  lemma ReflectShift(x: bv64)
    ensures Reflect(x << 1) == Reflect(x) >> 1
  {
  }

  lemma ReflectTop(x: bv64)
    ensures LowBit(Reflect(x)) == TopBit(x)
  {
  }

  lemma ReflectLow(x: bv64)
    ensures Reflect(x) == Xor(Right(Reflect(Right(x))), ToTop(LowBit(x)))
  {
  }

  lemma SevenLefts(x: bv64)
    ensures Left(Left(Left(Left(Left(Left(Left(x))))))) == Left7(x)
  {
  }

  lemma Shl7(x: bv64, n: nat)
    ensures Shl(x, n + 7) == Shl(Left7(x), n)
  {
    hide Left;
    hide Left7;
    SevenLefts(x);
    var x2 := Left(Left(x));
    var x4 := Left(Left(x2));
    var x6 := Left(Left(x4));
    assert Shl(x, n + 7) == Shl(Left(x), n + 6) == Shl(x2, n + 5);
    assert Shl(x2, n + 5) == Shl(Left(x2), n + 4) == Shl(x4, n + 3);
    assert Shl(x4, n + 3) == Shl(Left(x4), n + 2) == Shl(x6, n + 1);
    assert Shl(x6, n + 1) == Shl(Left(x6), n);
  }

  lemma NineLeft7s(x: bv64)
    ensures Left7(Left7(Left7(Left7(Left7(Left7(Left7(Left7(Left7(x))))))))) == ToTop(x)
  {
  }

  lemma Shl63(x: bv64)
    ensures Shl(x, 63) == ToTop(x)
  {
    hide *;
    Shl7(x, 56);
    var a := Left7(x);
    Shl7(a, 49);
    var b := Left7(a);
    Shl7(b, 42);
    var c := Left7(b);
    Shl7(c, 35);
    var d := Left7(c);
    Shl7(d, 28);
    var e := Left7(d);
    Shl7(e, 21);
    var f := Left7(e);
    Shl7(f, 14);
    var g := Left7(f);
    Shl7(g, 7);
    var h := Left7(g);
    Shl7(h, 0);
    NineLeft7s(x);
    assert Shl(Left7(h), 0) == Left7(h) by { ShlNone(Left7(h)); }
  }

  predicate OneBit(x: bv64) { x & (x - 1) == 0 }

  lemma DoubleOneBit(x: bv64)
    requires OneBit(x)
    ensures OneBit(Left(x)) && (TopBit(x) != 0 ==> Left(x) == 0)
  {
  }

  lemma SmallOneBit(b: bv64)
    requires b < 2
    ensures OneBit(b) && Left(0) == 0 && (b == 1 ==> ToTop(b) != 0) && TopBit(b) == 0 && TopBit(0) == 0
  {
  }

  /** One bit shifted stays one bit, and reaches the top only after 63 places. */
  lemma {:induction false} ShlOneBit(b: bv64, m: nat)
    requires b < 2
    ensures OneBit(Shl(b, m))
  {
    hide OneBit;
    hide Left;
    hide TopBit;
    SmallOneBit(b);
    ShlNone(b);
    if m > 0 {
      ShlOneBit(b, m - 1);
      ShlLast(b, m - 1);
      DoubleOneBit(Shl(b, m - 1));
    }
  }

  lemma {:induction false} ZeroStays(b: bv64, m: nat, n: nat)
    requires m <= n && Shl(b, m) == 0
    ensures Shl(b, n) == 0
    decreases n
  {
    hide Left;
    if m < n {
      ZeroStays(b, m, n - 1);
      ShlLast(b, n - 1);
      SmallOneBit(0);
    }
  }

  lemma {:induction false} ZeroShl(m: nat)
    ensures Shl(0, m) == 0
  {
    ShlNone(0);
    ZeroStays(0, 0, m);
  }

  lemma TopIsClear(b: bv64, m: nat)
    requires b < 2 && m <= 62
    ensures TopBit(Shl(b, m)) == 0
  {
    hide Left;
    hide OneBit;
    hide TopBit;
    hide ToTop;
    hide Shl;
    SmallOneBit(b);
    if b == 0 {
      ZeroShl(m);
    } else if TopBit(Shl(b, m)) != 0 {
      ShlOneBit(b, m);
      DoubleOneBit(Shl(b, m));
      ShlLast(b, m);
      ZeroStays(b, m + 1, 63);
      Shl63(b);
      BitIsOne(b);
      assert false;
    }
  }

  lemma BitIsOne(b: bv64)
    requires b < 2 && b != 0
    ensures b == 1
  {
  }

  lemma UndoLeft(y: bv64)
    requires TopBit(y) == 0
    ensures Right(Left(y)) == y
  {
  }

  lemma {:induction false} BitAcross(b: bv64, i: nat)
    requires b < 2 && i <= 63
    ensures Shr(ToTop(b), i) == Shl(b, 63 - i)
  {
    hide Left;
    hide Right;
    hide ToTop;
    hide TopBit;
    if i == 0 {
      Shl63(b);
    } else {
      BitAcross(b, i - 1);
      ShrLast(ToTop(b), i - 1);
      ShlLast(b, 63 - i);
      TopIsClear(b, 63 - i);
      UndoLeft(Shl(b, 63 - i));
    }
  }

  lemma LowBitSmall(x: bv64)
    ensures LowBit(x) < 2
  {
  }

  /** What the loop of crc_reflect keeps: `ret` holds the low bits in reverse, and the rest is still to come. */
  lemma ReflectStep(ret: bv64, rem: bv64, i: nat)
    requires 1 <= i <= 63
    ensures Xor(Shl(ret, 64 - i), Shr(Reflect(rem), i)) ==
            Xor(Shl(Xor(Left(ret), LowBit(rem)), 63 - i), Shr(Reflect(Right(rem)), i + 1))
  {
    hide *;
    var b := LowBit(rem);
    LowBitSmall(rem);
    ShlXor(Left(ret), b, 63 - i);
    ReflectLow(rem);
    var r := Reflect(Right(rem));
    ShrXor(Right(r), ToTop(b), i);
    BitAcross(b, i);
    ShiftOnce(ret, r, i);
    XorSwap(Shl(Left(ret), 63 - i), Shr(Right(r), i), Shl(b, 63 - i));
  }

  lemma ShiftOnce(x: bv64, y: bv64, i: nat)
    requires 1 <= i <= 63
    ensures Shl(x, 64 - i) == Shl(Left(x), 63 - i) && Shr(y, i + 1) == Shr(Right(y), i)
  {
    hide Left;
    hide Right;
  }

  lemma ReflectStart(data: bv64)
    ensures Reflect(data) == Xor(Shl(LowBit(data), 63), Shr(Reflect(Right(data)), 1))
  {
    hide Left;
    hide Right;
    hide Xor;
    hide Reflect;
    hide LowBit;
    hide ToTop;
    Shl63(LowBit(data));
    ReflectLow(data);
    var r := Reflect(Right(data));
    assert Shr(r, 1) == Shr(Right(r), 0) == Right(r);
    XorSwap(0, Right(r), ToTop(LowBit(data)));
    XorZero(Right(r), ToTop(LowBit(data)));
  }

  lemma OrIsXor(ret: bv64, d: bv64)
    ensures (ret << 1) | (d & 1) == Xor(Left(ret), LowBit(d))
  {
  }

  /** crc_reflect on 64 bits. */
  method CrcReflect(data: bv64) returns (ret: bv64)
    ensures ret == Reflect(data)
  {
    hide *;
    var d := data;
    ret := d & 1;
    ReflectStart(data);
    LowBitIs(data);
    for i := 1 to 64
      invariant Reflect(data) == Xor(Shl(ret, 64 - i), Shr(Reflect(Right(d)), i))
    {
      ReflectStep(ret, Right(d), i);
      RightIs(d);
      d := d >> 1;
      OrIsXor(ret, d);
      ret := (ret << 1) | (d & 1);
    }
    Shr64(Reflect(Right(d)));
    ShlNone(ret);
    XorZero(ret, 0);
  }

  lemma LowBitIs(x: bv64)
    ensures LowBit(x) == x & 1
  {
  }

  lemma RightIs(x: bv64)
    ensures Right(x) == x >> 1
  {
  }

  // ----- the bit-by-bit form -----------------------------------------------------------

  /** The polynomial with its bits reversed. */
  const REFLECTED: bv64 := 0x95ac9329ac4bc9b5

  lemma ReflectedPoly()
    ensures Reflect(POLY) == REFLECTED && Reflect(0) == 0
  {
  }

  /** One step of polynomial division on the reversed register. */
  function Divide(y: bv64): bv64 {
    Xor(Right(y), if y & 1 == 1 then REFLECTED else 0)
  }

  function Divide8(y: bv64): bv64 {
    Divide(Divide(Divide(Divide(Divide(Divide(Divide(Divide(y))))))))
  }

  /** The CRC of a byte string: bytes go in at the low end, eight division steps each. */
  function Crc(crc: bv64, s: seq<bv8>): bv64 {
    if s == [] then crc else Divide8(Xor(Crc(crc, s[..|s| - 1]), Wide(s[|s| - 1])))
  }

  lemma {:induction false} CrcConcat(crc: bv64, a: seq<bv8>, b: seq<bv8>)
    ensures Crc(crc, a + b) == Crc(Crc(crc, a), b)
  {
    hide Divide8;
    hide Xor;
    hide Wide;
    if b == [] {
      assert a + b == a;
    } else {
      assert (a + b)[..|a + b| - 1] == a + b[..|b| - 1];
      CrcConcat(crc, a, b[..|b| - 1]);
    }
  }

  function Times(k: nat, y: bv64): bv64 {
    if k == 0 then y else Divide(Times(k - 1, y))
  }

  lemma Times8(y: bv64)
    ensures Times(8, y) == Divide8(y)
  {
    hide Divide;
    assert Times(1, y) == Divide(Times(0, y)) == Divide(y);
    assert Times(2, y) == Divide(Divide(y));
    assert Times(4, y) == Divide(Divide(Times(2, y)));
    assert Times(6, y) == Divide(Divide(Times(4, y)));
  }

  /** The bit at mask `i` of a byte is the low bit of what is left of the byte. */
  predicate Stage(k: nat, i: bv8, c: bv8, left: bv8) {
    || (k == 0 && i == 1 && left == c)
    || (k == 1 && i == 2 && left == c >> 1)
    || (k == 2 && i == 4 && left == c >> 2)
    || (k == 3 && i == 8 && left == c >> 3)
    || (k == 4 && i == 16 && left == c >> 4)
    || (k == 5 && i == 32 && left == c >> 5)
    || (k == 6 && i == 64 && left == c >> 6)
    || (k == 7 && i == 128 && left == c >> 7)
    || (k == 8 && i == 0 && left == 0)
  }

  lemma NextStage(k: nat, i: bv8, c: bv8, left: bv8)
    requires Stage(k, i, c, left) && i != 0
    ensures k < 8 && Stage(k + 1, i << 1, c, left >> 1)
    ensures (c & i != 0) <==> left & 1 == 1
  {
  }

  lemma LastStage(k: nat, i: bv8, c: bv8, left: bv8)
    requires Stage(k, i, c, left) && i == 0
    ensures k == 8 && Wide(left) == 0
  {
  }

  lemma WideBits(left: bv8)
    ensures Wide(left >> 1) == Right(Wide(left)) && (Wide(left) & 1 == 1 <==> left & 1 == 1)
  {
  }

  lemma LowOfXor(y: bv64, z: bv64)
    ensures (Xor(y, z) & 1 == 1) <==> ((y & 1 == 1) != (z & 1 == 1))
  {
  }

  lemma DivideIs(y: bv64)
    ensures Divide(y) == Xor(Right(y), if y & 1 == 1 then REFLECTED else 0)
  {
  }

  /** Undoing the bits of the byte that are still to come. */
  lemma DivideBit(y: bv64, left: bv64, bit: bool)
    requires bit <==> (Xor(y, left) & 1 == 1) != (left & 1 == 1)
    ensures Xor(Divide(y), Right(left)) == Xor(Right(Xor(y, left)), if bit then REFLECTED else 0)
  {
    hide *;
    LowOfXor(y, left);
    DivideIs(y);
    RightXor(y, left);
    var p := if bit then REFLECTED else 0;
    assert bit <==> y & 1 == 1;
    XorTurn(Right(y), p, Right(left));
  }

  lemma ReflectBit(crc: bv64, bit: bool)
    ensures Reflect(if bit then (crc << 1) ^ POLY else crc << 1) ==
      Xor(Right(Reflect(crc)), if bit then REFLECTED else 0)
    ensures (crc & 0x8000000000000000 != 0) <==> Reflect(crc) & 1 == 1
  {
    ReflectedPoly();
    ReflectLeft(crc);
    ReflectTop(crc);
    TopMask(crc);
    hide Reflect;
    XorIs(Left(crc), POLY);
    ReflectXor(Left(crc), POLY);
    XorZero(Right(Reflect(crc)), 0);
  }

  lemma TopMask(x: bv64)
    ensures (x & 0x8000000000000000 != 0) <==> TopBit(x) == 1
  {
  }

  lemma XorIs(x: bv64, y: bv64)
    ensures Xor(x, y) == x ^ y && Left(x) == x << 1
  {
  }

  /** The loop over the bits of one byte. */
  method CrcByte(start: bv64, c: bv8) returns (crc: bv64)
    ensures Reflect(crc) == Divide8(Xor(Reflect(start), Wide(c)))
  {
    hide Reflect;
    hide Xor;
    hide Right;
    hide Wide;
    hide Divide;
    hide Stage;
    crc := start;
    var i: bv8 := 1;
    ghost var k, left := 0, c;
    ghost var y := Xor(Reflect(start), Wide(c));
    FirstStage(Reflect(start), c);
    while i & 0xff != 0
      invariant Stage(k, i, c, left)
      invariant Reflect(crc) == Xor(Times(k, y), Wide(left))
      decreases 8 - k
    {
      MaskIs(i);
      NextStage(k, i, c, left);
      WideBits(left);
      var bit := crc & 0x8000000000000000 != 0;
      if c & i != 0 {
        bit := !bit;
      }
      ReflectBit(crc, bit);
      DivideBit(Times(k, y), Wide(left), bit);
      crc := crc << 1;
      if bit {
        crc := crc ^ POLY;
      }
      i := i << 1;
      left := left >> 1;
      k := k + 1;
    }
    MaskIs(i);
    LastStage(k, i, c, left);
    XorZero(Times(8, y), 0);
    Times8(y);
  }

  lemma FirstStage(r: bv64, c: bv8)
    ensures Stage(0, 1, c, c) && r == Xor(Xor(r, Wide(c)), Wide(c))
  {
  }

  lemma MaskIs(i: bv8)
    ensures i & 0xff == i
  {
  }

  /** _crc64, the reference. */
  method BitwiseCrc(start: bv64, data: seq<bv8>) returns (r: bv64)
    ensures r == Crc(Reflect(start), data)
    ensures start == 0 ==> r == Crc(0, data)
  {
    ReflectedPoly();
    hide Reflect;
    hide Xor;
    hide Wide;
    hide Divide8;
    var crc := start;
    for offset := 0 to |data|
      invariant Reflect(crc) == Crc(Reflect(start), data[..offset])
    {
      crc := CrcByte(crc, data[offset]);
      assert data[..offset + 1][..offset] == data[..offset];
    }
    assert data[..|data|] == data;
    r := CrcReflect(crc);
  }

  // ----- the tables ---------------------------------------------------------------------

  lemma DivideXor(x: bv64, y: bv64)
    ensures Divide(Xor(x, y)) == Xor(Divide(x), Divide(y))
  {
    hide *;
    DivideIs(x);
    DivideIs(y);
    DivideIs(Xor(x, y));
    RightXor(x, y);
    LowOfXor(x, y);
    var p := if x & 1 == 1 then REFLECTED else 0;
    var q := if y & 1 == 1 then REFLECTED else 0;
    XorZero(REFLECTED, 0);
    XorZero(0, 0);
    assert Xor(p, q) == if Xor(x, y) & 1 == 1 then REFLECTED else 0;
    XorPairs(Right(x), p, Right(y), q);
  }

  lemma XorPairs(a: bv64, p: bv64, b: bv64, q: bv64)
    ensures Xor(Xor(a, p), Xor(b, q)) == Xor(Xor(a, b), Xor(p, q))
  {
    hide Xor;
    XorSwap(Xor(a, p), b, q);   // (a+p)+(b+q) == ((a+p)+q)+b
    XorSwap(a, p, q);           // a+(p+q) == (a+q)+p
    XorTurn(a, p, q);           // (a+p)+q == (a+q)+p
    XorTurn(a, Xor(p, q), b);   // (a+(p+q))+b == (a+b)+(p+q)
  }

  lemma Divide8Xor(x: bv64, y: bv64)
    ensures Divide8(Xor(x, y)) == Xor(Divide8(x), Divide8(y))
  {
    hide Divide;
    hide Xor;
    DivideXor(x, y);
    var x1, y1 := Divide(x), Divide(y);
    DivideXor(x1, y1);
    var x2, y2 := Divide(x1), Divide(y1);
    DivideXor(x2, y2);
    var x3, y3 := Divide(x2), Divide(y2);
    DivideXor(x3, y3);
    var x4, y4 := Divide(x3), Divide(y3);
    DivideXor(x4, y4);
    var x5, y5 := Divide(x4), Divide(y4);
    DivideXor(x5, y5);
    var x6, y6 := Divide(x5), Divide(y5);
    DivideXor(x6, y6);
    DivideXor(Divide(x6), Divide(y6));
  }

  predicate Short(x: bv64) { x >> 56 == 0 }

  lemma DivideLeft(w: bv64)
    requires TopBit(w) == 0
    ensures Divide(Left(w)) == w
  {
  }

  lemma EightLefts(v: bv64)
    requires Short(v)
    ensures Left(Left(Left(Left(Left(Left(Left(Left(v)))))))) == Left8(v)
    ensures TopBit(v) == 0 && TopBit(Left(v)) == 0 && TopBit(Left(Left(v))) == 0 && TopBit(Left(Left(Left(v)))) == 0
    ensures var w := Left(Left(Left(Left(v))));
      TopBit(w) == 0 && TopBit(Left(w)) == 0 && TopBit(Left(Left(w))) == 0 && TopBit(Left(Left(Left(w)))) == 0
  {
  }

  /** Dividing eight times a word that was shifted by eight only undoes the shift. */
  lemma Divide8Left8(v: bv64)
    requires Short(v)
    ensures Divide8(Left8(v)) == v
  {
    hide Divide;
    hide Left;
    hide TopBit;
    EightLefts(v);
    var v1 := Left(v);
    var v2 := Left(v1);
    var v3 := Left(v2);
    var v4 := Left(v3);
    var v5 := Left(v4);
    var v6 := Left(v5);
    var v7 := Left(v6);
    DivideLeft(v7);
    DivideLeft(v6);
    DivideLeft(v5);
    DivideLeft(v4);
    DivideLeft(v3);
    DivideLeft(v2);
    DivideLeft(v1);
    DivideLeft(v);
  }

  lemma SplitByte(y: bv64)
    ensures y == Xor(Low8(y), Left8(Right8(y))) && Short(Right8(y))
  {
  }

  /** One byte step: the low byte is looked up, the rest only moves. */
  lemma Divide8Split(y: bv64)
    ensures Divide8(y) == Xor(Divide8(Low8(y)), Right8(y))
  {
    hide *;
    SplitByte(y);
    Divide8Xor(Low8(y), Left8(Right8(y)));
    Divide8Left8(Right8(y));
  }

  /** What entry n of row k of the table should be: 8(k+1) division steps. */
  function Entry(k: nat, y: bv64): bv64 {
    if k == 0 then Divide8(y) else Divide8(Entry(k - 1, y))
  }

  function ByteOf(n: nat): bv64
    requires n < 256
  {
    Wide(n as bv8)
  }

  function Index(x: bv64): (n: nat)
    ensures n < 256
  {
    LowByte(x) as int
  }

  function LowByte(x: bv64): bv8 { (x & 0xff) as bv8 }

  lemma WideLowByte(x: bv64)
    ensures Wide(LowByte(x)) == Low8(x)
  {
  }

  lemma ByteThere(b: bv8)
    ensures 0 <= b as int < 256 && (b as int) as bv8 == b
  {
  }

  lemma ByteOfIndex(x: bv64)
    ensures ByteOf(Index(x)) == Low8(x)
  {
    hide LowByte;
    hide Wide;
    hide Low8;
    ByteThere(LowByte(x));
    WideLowByte(x);
  }

  ghost predicate IsTable(table: array2<bv64>)
    reads table
  {
    && table.Length0 == 8 && table.Length1 == 256
    && forall k, n | 0 <= k < 8 && 0 <= n < 256 :: table[k, n] == Entry(k, ByteOf(n))
  }

  lemma CrcOfByte(n: nat)
    requires n < 256
    ensures Crc(Reflect(0), [n as bv8]) == Entry(0, ByteOf(n))
  {
    ReflectedPoly();
    hide Reflect;
    hide Divide8;
    var s := [n as bv8];
    assert s[..0] == [];
    hide Xor;
    XorZero(Wide(n as bv8), 0);
  }

  lemma EntryNext(k: nat, crc: bv64, y: bv64)
    requires crc == Entry(k, y)
    ensures Entry(k + 1, y) == Xor(Entry(0, Low8(crc)), Right8(crc))
  {
    hide Divide8;
    hide Xor;
    hide Low8;
    hide Right8;
    Divide8Split(crc);
  }

  /** An `int` below 256 in memory. */
  function IntBytes(n: nat, bigEndian: bool): (bytes: seq<bv8>)
    requires n < 256
    ensures |bytes| == 4
  {
    if bigEndian then [0, 0, 0, n as bv8] else [n as bv8, 0, 0, 0]
  }

  /** The byte the generator divides: the first one of the loop variable. */
  function FirstByte(n: nat, bigEndian: bool): bv64
    requires n < 256
  {
    Wide(IntBytes(n, bigEndian)[0])
  }

  lemma FirstByteIs(n: nat, bigEndian: bool)
    requires n < 256
    ensures FirstByte(n, bigEndian) == if bigEndian then 0 else ByteOf(n)
  {
  }

  lemma {:induction false} EntryOfZero(k: nat)
    ensures Entry(k, 0) == 0
  {
    if k > 0 {
      EntryOfZero(k - 1);
    }
    DivideZero();
    hide Divide8;
  }

  lemma DivideOne()
    ensures Divide8(1) != 0
  {
    var a := Divide(Divide(Divide(Divide(1))));
    assert a != 0;
    assert Divide(Divide(Divide(Divide(a)))) != 0;
  }

  lemma DivideZero()
    ensures Divide8(0) == 0
  {
    assert Divide(0) == 0;
  }

  /** The entries the generator has made: column n of the first `k` rows. */
  ghost predicate Made(table: array2<bv64>, k: nat, n: nat, bigEndian: bool)
    requires k <= 8 && n < 256 && table.Length0 == 8 && table.Length1 == 256
    reads table
  {
    forall j | 0 <= j < k :: table[j, n] == Entry(j, FirstByte(n, bigEndian))
  }

  /** A table entry on the rest of the register. */
  function Mix(e: bv64, crc: bv64): bv64 { e ^ (crc >> 8) }

  lemma NextLittle(e: bv64, crc: bv64, k: nat, n: nat)
    requires n < 256 && crc == Entry(k, ByteOf(n)) && e == Entry(0, ByteOf(Index(crc)))
    ensures Mix(e, crc) == Entry(k + 1, ByteOf(n))
  {
    hide Entry, ByteOf, Index, Xor, Low8, Right8;
    EntryNext(k, crc, ByteOf(n));
    ByteOfIndex(crc);
    LookupIs(e, crc);
  }

  lemma NextBig(e: bv64, crc: bv64, k: nat)
    requires crc == Entry(k, 0) && e == Entry(0, 0)
    ensures Mix(e, crc) == Entry(k + 1, 0)
  {
    EntryOfZero(k);
    EntryOfZero(k + 1);
    EntryOfZero(0);
    hide Entry;
  }

  lemma NextEntry(table: array2<bv64>, k: nat, n: nat, bigEndian: bool, crc: bv64)
    requires n < 256 && table.Length0 == 8 && table.Length1 == 256
    requires crc == Entry(k, FirstByte(n, bigEndian)) && Made(table, 1, Index(crc), bigEndian)
    ensures Mix(table[0, Index(crc)], crc) == Entry(k + 1, FirstByte(n, bigEndian))
  {
    hide Entry, ByteOf, Index, FirstByte, Mix;
    FirstByteIs(n, bigEndian);
    FirstByteIs(Index(crc), bigEndian);
    if bigEndian {
      NextBig(table[0, Index(crc)], crc, k);
    } else {
      NextLittle(table[0, Index(crc)], crc, k, n);
    }
  }

  /** The inner loop of the table generator. */
  method FillColumn(table: array2<bv64>, n: nat, bigEndian: bool)
    requires table.Length0 == 8 && table.Length1 == 256 && n < 256
    requires forall m | 0 <= m < 256 :: Made(table, 1, m, bigEndian)
    modifies table
    ensures forall k, m | 0 <= k < 8 && 0 <= m < 256 && m != n :: table[k, m] == old(table[k, m])
    ensures table[0, n] == old(table[0, n]) && Made(table, 8, n, bigEndian)
  {
    hide Entry, FirstByte, Index, Mix;
    assert Made(table, 1, n, bigEndian);
    var crc := table[0, n];
    for k := 1 to 8
      invariant crc == Entry(k - 1, FirstByte(n, bigEndian))
      invariant forall m | 0 <= m < 256 :: table[0, m] == old(table[0, m])
      invariant forall j, m | 0 <= j < 8 && 0 <= m < 256 && m != n :: table[j, m] == old(table[j, m])
      invariant Made(table, k, n, bigEndian)
    {
      assert old(Made(table, 1, Index(crc), bigEndian));
      NextEntry(table, k - 1, n, bigEndian, crc);
      crc := Mix(table[0, Index(crc)], crc);
      table[k, n] := crc;
    }
  }

  lemma FirstOf(n: nat, bigEndian: bool)
    requires n < 256
    ensures var b := IntBytes(n, bigEndian)[0]; (b as nat) as bv8 == b && ByteOf(b as nat) == FirstByte(n, bigEndian)
  {
  }

  lemma FirstRow(table: array2<bv64>, bigEndian: bool)
    requires table.Length0 == 8 && table.Length1 == 256
    requires forall m | 0 <= m < 256 :: table[0, m] == Entry(0, FirstByte(m, bigEndian))
    ensures forall m | 0 <= m < 256 :: Made(table, 1, m, bigEndian)
  {
    hide Entry, FirstByte;
  }

  lemma MadeLess(table: array2<bv64>, n: nat, bigEndian: bool)
    requires n < 256 && table.Length0 == 8 && table.Length1 == 256 && Made(table, 8, n, bigEndian)
    ensures Made(table, 1, n, bigEndian)
  {
    hide Entry, FirstByte;
  }

  lemma MadeIs(table: array2<bv64>, bigEndian: bool)
    requires table.Length0 == 8 && table.Length1 == 256 && forall n | 0 <= n < 256 :: Made(table, 8, n, bigEndian)
    ensures forall k, n | 0 <= k < 8 && 0 <= n < 256 :: table[k, n] == if bigEndian then 0 else Entry(k, ByteOf(n))
  {
    hide Entry, FirstByte, ByteOf;
    forall k, n | 0 <= k < 8 && 0 <= n < 256
      ensures table[k, n] == if bigEndian then 0 else Entry(k, ByteOf(n))
    {
      assert Made(table, 8, n, bigEndian);
      FirstByteIs(n, bigEndian);
      EntryOfZero(k);
    }
  }

  /** crcspeed64little_init, with the bit-by-bit form as the CRC function. */
  method InitTable(table: array2<bv64>, bigEndian: bool)
    requires table.Length0 == 8 && table.Length1 == 256
    modifies table
    ensures forall n | 0 <= n < 256 :: Made(table, 8, n, bigEndian)
  {
    hide Entry, FirstByte, Reflect, Crc;
    for n := 0 to 256
      invariant forall m | 0 <= m < n :: table[0, m] == Entry(0, FirstByte(m, bigEndian))
    {
      var bytes := IntBytes(n, bigEndian);
      CrcOfByte(bytes[0] as nat);
      FirstOf(n, bigEndian);
      table[0, n] := BitwiseCrc(0, [bytes[0]]);
    }
    FirstRow(table, bigEndian);
    for n := 0 to 256
      invariant forall m | 0 <= m < 256 :: Made(table, 1, m, bigEndian)
      invariant forall m | 0 <= m < n :: Made(table, 8, m, bigEndian)
    {
      label Before:
      FillColumn(table, n, bigEndian);
      forall m | 0 <= m < 256
        ensures Made(table, 1, m, bigEndian) && (m < n ==> Made(table, 8, m, bigEndian))
      {
        if m == n {
          MadeLess(table, n, bigEndian);
        } else {
          assert old@Before(Made(table, 1, m, bigEndian));
          assert m < n ==> old@Before(Made(table, 8, m, bigEndian));
        }
      }
    }
  }

  lemma LookupIs(e: bv64, crc: bv64)
    ensures Xor(e, Right8(crc)) == e ^ (crc >> 8)
  {
  }

  // ----- eight bytes at a time --------------------------------------------------------------

  /** Divide8, n times. */
  function Rounds(n: nat, y: bv64): bv64
    decreases n
  {
    if n == 0 then y else Rounds(n - 1, Divide8(y))
  }

  lemma {:induction false} RoundsXor(n: nat, x: bv64, y: bv64)
    ensures Rounds(n, Xor(x, y)) == Xor(Rounds(n, x), Rounds(n, y))
    decreases n
  {
    hide Divide8;
    hide Xor;
    if n > 0 {
      Divide8Xor(x, y);
      RoundsXor(n - 1, Divide8(x), Divide8(y));
    }
  }

  lemma {:induction false} RoundsEntry(n: nat, y: bv64)
    ensures Rounds(n + 1, y) == Entry(n, y)
    decreases n
  {
    hide Divide8;
    RoundsLast(n, y);
    if n > 0 {
      RoundsEntry(n - 1, y);
    }
  }

  lemma {:induction false} RoundsLast(n: nat, y: bv64)
    ensures Rounds(n + 1, y) == Divide8(Rounds(n, y))
    decreases n
  {
    hide Divide8;
    if n > 0 {
      RoundsLast(n - 1, Divide8(y));
    } else {
      assert Rounds(0, Divide8(y)) == Divide8(y);
    }
  }

  /** The word whose bytes, lowest first, are `s`. */
  function Pack(s: seq<bv8>): bv64 {
    if s == [] then 0 else Xor(Wide(s[0]), Left8(Pack(s[1..])))
  }

  function Widen(m: bv64): bv64 { (m << 8) | 0xff }

  function Mask(n: nat): bv64 {
    if n == 0 then 0 else Widen(Mask(n - 1))
  }

  predicate Within(p: bv64, m: bv64) { p & m == p }

  lemma MaskGrows(m: bv64, b: bv8, p: bv64)
    requires Within(p, m)
    ensures Within(Xor(Wide(b), Left8(p)), Widen(m))
  {
  }

  lemma {:induction false} PackFits(s: seq<bv8>)
    ensures Within(Pack(s), Mask(|s|))
  {
    if s == [] {
      assert Within(0, 0);
    } else {
      hide Xor;
      hide Wide;
      hide Left8;
      hide Widen;
      hide Within;
      PackFits(s[1..]);
      MaskGrows(Mask(|s| - 1), s[0], Pack(s[1..]));
    }
  }

  lemma SevenMasks()
    ensures Widen(0) == 0xff && Widen(0xff) == 0xffff && Widen(0xffff) == 0xffffff && Widen(0xffffff) == 0xffffffff
    ensures Widen(0xffffffff) == 0xffffffffff && Widen(0xffffffffff) == 0xffffffffffff &&
      Widen(0xffffffffffff) == 0xffffffffffffff
  {
  }

  lemma MaskShort(n: nat)
    requires n <= 7
    ensures Mask(n) in {0, 0xff, 0xffff, 0xffffff, 0xffffffff, 0xffffffffff, 0xffffffffffff, 0xffffffffffffff}
  {
    SevenMasks();
    hide Widen;
    assert Mask(0) == 0;
    assert Mask(1) == Widen(Mask(0));
    assert Mask(2) == Widen(Mask(1));
    assert Mask(3) == Widen(Mask(2));
    assert Mask(4) == Widen(Mask(3));
    assert Mask(5) == Widen(Mask(4));
    assert Mask(6) == Widen(Mask(5));
    assert Mask(7) == Widen(Mask(6));
  }

  lemma MaskedShort(p: bv64, m: bv64)
    requires Within(p, m)
    requires m in {0, 0xff, 0xffff, 0xffffff, 0xffffffff, 0xffffffffff, 0xffffffffffff, 0xffffffffffffff}
    ensures Short(p)
  {
  }

  lemma PackShort(s: seq<bv8>)
    requires |s| <= 7
    ensures Short(Pack(s))
  {
    hide *;
    PackFits(s);
    MaskShort(|s|);
    MaskedShort(Pack(s), Mask(|s|));
  }

  /** Feeding up to eight bytes one by one is the same as feeding them as one word. */
  lemma {:induction false} CrcOfWord(crc: bv64, s: seq<bv8>)
    requires |s| <= 8
    ensures Crc(crc, s) == Rounds(|s|, Xor(crc, Pack(s)))
    decreases |s|
  {
    hide Divide8;
    hide Xor;
    hide Wide;
    hide Left8;
    hide Short;
    if s == [] {
      XorZero(crc, 0);
    } else {
      var b, rest := s[0], s[1..];
      var x, p := Xor(crc, Wide(b)), Pack(rest);
      assert s == [b] + rest;
      CrcConcat(crc, [b], rest);
      assert [b][..0] == [];
      assert Crc(crc, [b]) == Divide8(x);
      CrcOfWord(Divide8(x), rest);
      PackShort(rest);
      Divide8Xor(x, Left8(p));
      Divide8Left8(p);
      XorAssoc(crc, Wide(b), Left8(p));
    }
  }

  /** A division of a whole word, byte by byte from the table. */
  function Slices(n: nat, y: bv64): bv64
    decreases n
  {
    if n == 0 then y else Xor(Entry(n - 1, Low8(y)), Slices(n - 1, Right8(y)))
  }

  lemma {:induction false} RoundsSliced(n: nat, y: bv64)
    ensures Rounds(n, y) == Slices(n, y)
    decreases n
  {
    hide Divide8;
    hide Xor;
    hide Low8;
    hide Right8;
    hide Entry;
    if n > 0 {
      Divide8Split(y);
      RoundsXor(n - 1, Divide8(Low8(y)), Right8(y));
      RoundsEntry(n - 1, Low8(y));
      RoundsSliced(n - 1, Right8(y));
    }
  }

  lemma LookupEntry(table: array2<bv64>, k: nat, y: bv64)
    requires IsTable(table) && k < 8
    ensures table[k, Index(y)] == Entry(k, Low8(y))
  {
    ByteOfIndex(y);
    hide Entry;
    hide ByteOf;
    hide Index;
    hide Low8;
  }

  lemma Shift16(y: bv64) ensures y >> 16 == Right8(y >> 8) { }
  lemma Shift24(y: bv64) ensures y >> 24 == Right8(y >> 16) { }
  lemma Shift32(y: bv64) ensures y >> 32 == Right8(y >> 24) { }
  lemma Shift40(y: bv64) ensures y >> 40 == Right8(y >> 32) { }
  lemma Shift48(y: bv64) ensures y >> 48 == Right8(y >> 40) { }
  lemma Shift56(y: bv64) ensures y >> 56 == Right8(y >> 48) { }
  lemma Shift64(y: bv64) ensures Right8(y >> 56) == 0 { }

  lemma SlicesFlat(y: bv64, y1: bv64, y2: bv64, y3: bv64, y4: bv64, y5: bv64, y6: bv64, y7: bv64)
    requires y1 == Right8(y) && y2 == Right8(y1) && y3 == Right8(y2) && y4 == Right8(y3)
    requires y5 == Right8(y4) && y6 == Right8(y5) && y7 == Right8(y6) && Right8(y7) == 0
    ensures Slices(8, y) ==
      Xor(Xor(Xor(Xor(Xor(Xor(Xor(Entry(7, Low8(y)), Entry(6, Low8(y1))), Entry(5, Low8(y2))), Entry(4, Low8(y3))),
      Entry(3, Low8(y4))), Entry(2, Low8(y5))), Entry(1, Low8(y6))), Entry(0, Low8(y7)))
  {
    hide *;
    SliceOnce(8, y);
    SliceOnce(7, y1);
    SliceOnce(6, y2);
    SliceOnce(5, y3);
    SliceOnce(4, y4);
    SliceOnce(3, y5);
    SliceOnce(2, y6);
    SliceOnce(1, y7);
    XorFlat(Entry(7, Low8(y)), Entry(6, Low8(y1)), Entry(5, Low8(y2)), Entry(4, Low8(y3)),
            Entry(3, Low8(y4)), Entry(2, Low8(y5)), Entry(1, Low8(y6)), Entry(0, Low8(y7)));
  }

  lemma SliceOnce(n: nat, y: bv64)
    requires n >= 1
    ensures Slices(n, y) == Xor(Entry(n - 1, Low8(y)), Slices(n - 1, Right8(y))) && Slices(0, 0) == 0
  {
    hide Xor;
    hide Low8;
    hide Right8;
    hide Entry;
  }

  /** The eight lookups. */
  function SliceBy8(table: array2<bv64>, y: bv64): bv64
    requires table.Length0 == 8 && table.Length1 == 256
    reads table
  {
    Lookups(table, y, y >> 8, y >> 16, y >> 24, y >> 32, y >> 40, y >> 48, y >> 56)
  }

  function Lookups(table: array2<bv64>, y: bv64, y1: bv64, y2: bv64, y3: bv64, y4: bv64, y5: bv64, y6: bv64,
      y7: bv64): bv64
    requires table.Length0 == 8 && table.Length1 == 256
    reads table
  {
    Xor(Xor(Xor(Xor(Xor(Xor(Xor(table[7, Index(y)], table[6, Index(y1)]), table[5, Index(y2)]), table[4, Index(y3)]),
    table[3, Index(y4)]), table[2, Index(y5)]), table[1, Index(y6)]), table[0, Index(y7)])
  }

  lemma LookupsAreSlices(table: array2<bv64>, y: bv64, y1: bv64, y2: bv64, y3: bv64, y4: bv64, y5: bv64, y6: bv64,
      y7: bv64)
    requires IsTable(table)
    ensures Lookups(table, y, y1, y2, y3, y4, y5, y6, y7) ==
      Xor(Xor(Xor(Xor(Xor(Xor(Xor(Entry(7, Low8(y)), Entry(6, Low8(y1))), Entry(5, Low8(y2))), Entry(4, Low8(y3))),
      Entry(3, Low8(y4))), Entry(2, Low8(y5))), Entry(1, Low8(y6))), Entry(0, Low8(y7)))
  {
    LookupEntry(table, 7, y);
    LookupEntry(table, 6, y1);
    LookupEntry(table, 5, y2);
    LookupEntry(table, 4, y3);
    LookupEntry(table, 3, y4);
    LookupEntry(table, 2, y5);
    LookupEntry(table, 1, y6);
    LookupEntry(table, 0, y7);
    hide Xor;
    hide Low8;
    hide Entry;
    hide Index;
    hide ByteOf;
  }

  /** They divide a whole word. */
  lemma SliceBy8Divides(table: array2<bv64>, y: bv64)
    requires IsTable(table)
    ensures SliceBy8(table, y) == Rounds(8, y)
  {
    hide Lookups;
    hide Rounds;
    hide Slices;
    hide Xor;
    hide Entry;
    hide Low8;
    Shift16(y);
    Shift24(y);
    Shift32(y);
    Shift40(y);
    Shift48(y);
    Shift56(y);
    Shift64(y);
    RoundsSliced(8, y);
    LookupsAreSlices(table, y, y >> 8, y >> 16, y >> 24, y >> 32, y >> 40, y >> 48, y >> 56);
    SlicesFlat(y, y >> 8, y >> 16, y >> 24, y >> 32, y >> 40, y >> 48, y >> 56);
  }

  lemma XorFlat(a: bv64, b: bv64, c: bv64, d: bv64, e: bv64, f: bv64, g: bv64, h: bv64)
    ensures Xor(Xor(Xor(Xor(Xor(Xor(Xor(a, b), c), d), e), f), g), h) ==
            Xor(a, Xor(b, Xor(c, Xor(d, Xor(e, Xor(f, Xor(g, Xor(h, 0))))))))
  {
    hide Xor;
    XorAssoc(a, b, Xor(c, Xor(d, Xor(e, Xor(f, Xor(g, Xor(h, 0)))))));
    var ab := Xor(a, b);
    XorAssoc(ab, c, Xor(d, Xor(e, Xor(f, Xor(g, Xor(h, 0))))));
    var abc := Xor(ab, c);
    XorAssoc(abc, d, Xor(e, Xor(f, Xor(g, Xor(h, 0)))));
    var abcd := Xor(abc, d);
    XorAssoc(abcd, e, Xor(f, Xor(g, Xor(h, 0))));
    var abcde := Xor(abcd, e);
    XorAssoc(abcde, f, Xor(g, Xor(h, 0)));
    var abcdef := Xor(abcde, f);
    XorAssoc(abcdef, g, Xor(h, 0));
    XorZero(h, 0);
  }

  /** Loading eight bytes on a little-endian machine. */
  function LoadLittle(b: seq<bv8>): bv64
    requires |b| == 8
  {
    Join(b[0], b[1], b[2], b[3], b[4], b[5], b[6], b[7])
  }

  lemma JoinBits(b0: bv8, b1: bv8, b2: bv8, b3: bv8, b4: bv8, b5: bv8, b6: bv8, b7: bv8)
    ensures Join(b0, b1, b2, b3, b4, b5, b6, b7) ==
            Xor(Wide(b0), Left8(Xor(Wide(b1), Left8(Xor(Wide(b2), Left8(Xor(Wide(b3), Left8(Xor(Wide(b4), Left8(
            Xor(Wide(b5), Left8(Xor(Wide(b6), Left8(Xor(Wide(b7), Left8(0))))))))))))))))
  {
  }

  lemma PackUnrolled(b: seq<bv8>)
    requires |b| == 8
    ensures Pack(b) ==
            Xor(Wide(b[0]), Left8(Xor(Wide(b[1]),
              Left8(Xor(Wide(b[2]), Left8(Xor(Wide(b[3]), Left8(Xor(Wide(b[4]), Left8(
            Xor(Wide(b[5]), Left8(Xor(Wide(b[6]), Left8(Xor(Wide(b[7]), Left8(0))))))))))))))))
  {
    hide Xor;
    hide Wide;
    hide Left8;
    assert Pack(b[8..]) == 0;
    assert b[7..][1..] == b[8..];
    assert b[6..][1..] == b[7..];
    assert b[5..][1..] == b[6..];
    assert b[4..][1..] == b[5..];
    assert b[3..][1..] == b[4..];
    assert b[2..][1..] == b[3..];
    assert b[1..][1..] == b[2..];
    assert Pack(b[6..]) == Xor(Wide(b[6]), Left8(Pack(b[7..])));
    assert Pack(b[4..]) == Xor(Wide(b[4]), Left8(Pack(b[5..])));
    assert Pack(b[2..]) == Xor(Wide(b[2]), Left8(Pack(b[3..])));
  }

  lemma LoadIsPack(b: seq<bv8>)
    requires |b| == 8
    ensures LoadLittle(b) == Pack(b)
  {
    PackUnrolled(b);
    hide Pack;
    hide Xor;
    hide Wide;
    hide Left8;
    hide Join;
    JoinBits(b[0], b[1], b[2], b[3], b[4], b[5], b[6], b[7]);
  }

  // ----- the fast form, little-endian ------------------------------------------------------

  lemma ByteStep(table: array2<bv64>, crc: bv64, b: bv8)
    requires IsTable(table)
    ensures table.Length0 == 8 && table.Length1 == 256
    ensures Divide8(Xor(crc, Wide(b))) == Xor(table[0, Index(Xor(crc, Wide(b)))], Right8(crc))
  {
    assert table.Length0 == 8 && table.Length1 == 256;
    hide *;
    var y := Xor(crc, Wide(b));
    LookupEntry(table, 0, y);
    Divide8Split(y);
    ByteOutOfTheWay(crc, b);
    EntryZero(Low8(y));
  }

  lemma EntryZero(y: bv64)
    ensures Entry(0, y) == Divide8(y)
  {
    hide Divide8;
  }

  lemma ByteOutOfTheWay(crc: bv64, b: bv8)
    ensures Right8(Xor(crc, Wide(b))) == Right8(crc)
  {
  }

  /** One byte more. */
  lemma CrcByteMore(crc: bv64, s: seq<bv8>, i: nat)
    requires i < |s|
    ensures Crc(crc, s[..i + 1]) == Divide8(Xor(Crc(crc, s[..i]), Wide(s[i])))
  {
    hide Divide8;
    hide Xor;
    hide Wide;
    assert s[..i + 1][..i] == s[..i];
  }

  /** Eight bytes more. */
  lemma CrcWordMore(crc: bv64, s: seq<bv8>, i: nat)
    requires i + 8 <= |s|
    ensures Crc(crc, s[..i + 8]) == Rounds(8, Xor(Crc(crc, s[..i]), LoadLittle(s[i..i + 8])))
  {
    hide Divide8;
    hide Xor;
    hide Wide;
    hide LoadLittle;
    hide Rounds;
    assert s[..i + 8] == s[..i] + s[i..i + 8];
    CrcConcat(crc, s[..i], s[i..i + 8]);
    CrcOfWord(Crc(crc, s[..i]), s[i..i + 8]);
    LoadIsPack(s[i..i + 8]);
  }

  method ByteLittle(table: array2<bv64>, crc: bv64, b: bv8) returns (r: bv64)
    requires IsTable(table)
    ensures r == Divide8(Xor(crc, Wide(b)))
  {
    ByteStep(table, crc, b);
    hide *;
    r := Xor(table[0, Index(Xor(crc, Wide(b)))], Right8(crc));
  }

  method WordLittle(table: array2<bv64>, crc: bv64, bytes: seq<bv8>) returns (r: bv64)
    requires IsTable(table) && |bytes| == 8
    ensures r == Rounds(8, Xor(crc, LoadLittle(bytes)))
  {
    var w := Xor(crc, LoadLittle(bytes));
    SliceBy8Divides(table, w);
    assert table.Length0 == 8 && table.Length1 == 256;
    hide *;
    r := SliceBy8(table, w);
  }

  /** crcspeed64little, for a buffer that starts at any address. */
  method CrcSpeedLittle(table: array2<bv64>, start: bv64, buf: seq<bv8>, address: nat) returns (crc: bv64)
    requires IsTable(table)
    ensures crc == Crc(start, buf)
  {
    hide *;
    crc := start;
    var next, len := 0, |buf|;
    CrcNone(start, buf);
    while len > 0 && (address + next) % 8 != 0
      invariant 0 <= next && 0 <= len && next + len == |buf| && crc == Crc(start, buf[..next])
    {
      CrcByteMore(start, buf, next);
      crc := ByteLittle(table, crc, buf[next]);
      next, len := next + 1, len - 1;
    }
    while len >= 8
      invariant 0 <= next && 0 <= len && next + len == |buf| && crc == Crc(start, buf[..next])
    {
      CrcWordMore(start, buf, next);
      crc := WordLittle(table, crc, buf[next..next + 8]);
      next, len := next + 8, len - 8;
    }
    while len > 0
      invariant 0 <= next && 0 <= len && next + len == |buf| && crc == Crc(start, buf[..next])
    {
      CrcByteMore(start, buf, next);
      crc := ByteLittle(table, crc, buf[next]);
      next, len := next + 1, len - 1;
    }
    assert buf[..next] == buf;
  }

  lemma CrcNone(start: bv64, buf: seq<bv8>)
    ensures Crc(start, buf[..0]) == start
  {
  }

  // ----- the fast form, big-endian ----------------------------------------------------------

  /** Reverse the bytes of a word. */
  function Rev8(a0: bv64): bv64 {
    var a1 := ((a0 >> 8) & 0x00ff00ff00ff00ff) | ((a0 & 0x00ff00ff00ff00ff) << 8);
    var a2 := ((a1 >> 16) & 0x0000ffff0000ffff) | ((a1 & 0x0000ffff0000ffff) << 16);
    (a2 >> 32) | (a2 << 32)
  }

  lemma Rev8Twice(x: bv64) ensures Rev8(Rev8(x)) == x { }
  lemma Rev8Xor(x: bv64, y: bv64) ensures Rev8(Xor(x, y)) == Xor(Rev8(x), Rev8(y)) { }
  lemma Rev8Shift(x: bv64) ensures Rev8(x >> 8) == Rev8(x) << 8 { }
  lemma Rev8Right(x: bv64) ensures Rev8(Right8(x)) == Left8(Rev8(x)) { hide Rev8; Rev8Shift(x); }
  lemma Rev8Top(x: bv64, b: bv8) ensures Low8(Xor(x, Wide(b))) == Low8(Xor(Rev8(x) >> 56, Wide(b))) { }
  lemma Swapped0(y: bv64) ensures Low8(Rev8(y)) == Low8(y >> 56) { }
  lemma Swapped8(y: bv64) ensures Low8(Rev8(y) >> 8) == Low8(y >> 48) { }
  lemma Swapped16(y: bv64) ensures Low8(Rev8(y) >> 16) == Low8(y >> 40) { }
  lemma Swapped24(y: bv64) ensures Low8(Rev8(y) >> 24) == Low8(y >> 32) { }
  lemma Swapped32(y: bv64) ensures Low8(Rev8(y) >> 32) == Low8(y >> 24) { }
  lemma Swapped40(y: bv64) ensures Low8(Rev8(y) >> 40) == Low8(y >> 16) { }
  lemma Swapped48(y: bv64) ensures Low8(Rev8(y) >> 48) == Low8(y >> 8) { }
  lemma Swapped56(y: bv64) ensures Low8(Rev8(y) >> 56) == Low8(y) { }

  ghost predicate IsBigTable(table: array2<bv64>)
    reads table
  {
    && table.Length0 == 8 && table.Length1 == 256
    && forall k, n | 0 <= k < 8 && 0 <= n < 256 :: table[k, n] == Rev8(Entry(k, ByteOf(n)))
  }

  method ReverseRow(table: array2<bv64>, k: nat)
    requires k < 8 && table.Length0 == 8 && table.Length1 == 256
    modifies table
    ensures forall j, n | 0 <= j < 8 && 0 <= n < 256 ::
      table[j, n] == if j == k then Rev8(old(table[j, n])) else old(table[j, n])
  {
    hide Rev8;
    for n := 0 to 256
      invariant forall j, m | 0 <= j < 8 && 0 <= m < 256 ::
        table[j, m] == if j == k && m < n then Rev8(old(table[j, m])) else old(table[j, m])
    {
      table[k, n] := Rev8(table[k, n]);
    }
  }

  /** The loops of crcspeed64big_init. */
  method ReverseTable(table: array2<bv64>)
    requires table.Length0 == 8 && table.Length1 == 256
    modifies table
    ensures forall k, n | 0 <= k < 8 && 0 <= n < 256 :: table[k, n] == Rev8(old(table[k, n]))
    ensures old(IsTable(table)) ==> IsBigTable(table)
  {
    hide Entry, ByteOf, Rev8;
    for k := 0 to 8
      invariant forall j, n | 0 <= j < 8 && 0 <= n < 256 ::
        table[j, n] == if j < k then Rev8(old(table[j, n])) else old(table[j, n])
    {
      ReverseRow(table, k);
    }
  }

  /** The tables that the form for the machine's byte order needs. */
  ghost predicate IsNativeTable(table: array2<bv64>, bigEndian: bool)
    reads table
  {
    if bigEndian then IsBigTable(table) else IsTable(table)
  }

  /** crcspeed64native_init: the tables are right exactly on a little-endian
      machine; on a big-endian one the generator divides the top byte of its loop
      variable, and all entries are zero. */
  method InitNative(table: array2<bv64>, bigEndian: bool)
    requires table.Length0 == 8 && table.Length1 == 256
    modifies table
    ensures IsNativeTable(table, bigEndian) <==> !bigEndian
    ensures bigEndian ==> forall k, n | 0 <= k < 8 && 0 <= n < 256 :: table[k, n] == 0
  {
    hide Entry, ByteOf, Rev8, FirstByte, Made, IsBigTable;
    InitTable(table, bigEndian);
    MadeIs(table, bigEndian);
    if bigEndian {
      Rev8Zero();
      ReverseTable(table);
      ZeroIsWrong(table);
    }
  }

  lemma ZeroIsWrong(table: array2<bv64>)
    requires table.Length0 == 8 && table.Length1 == 256 && table[0, 1] == 0
    ensures !IsBigTable(table)
  {
    hide Entry, Rev8, ByteOf;
    EntryOfOne();
    Rev8Zero();
    Rev8Twice(Entry(0, ByteOf(1)));
  }

  lemma EntryOfOne()
    ensures Entry(0, ByteOf(1)) != 0
  {
    DivideOne();
    hide Divide8;
    assert ByteOf(1) == 1;
  }

  lemma Rev8Zero() ensures Rev8(0) == 0 { }

  lemma BigEntry(table: array2<bv64>, k: nat, x: bv64)
    requires IsBigTable(table) && k < 8
    ensures table[k, Index(x)] == Rev8(Entry(k, Low8(x)))
  {
    ByteOfIndex(x);
    hide Entry;
    hide ByteOf;
    hide Index;
    hide Low8;
    hide Rev8;
  }

  method ByteBig(table: array2<bv64>, crc: bv64, b: bv8, ghost little: bv64) returns (r: bv64)
    requires IsBigTable(table) && crc == Rev8(little)
    ensures r == Rev8(Divide8(Xor(little, Wide(b))))
  {
    assert table.Length0 == 8 && table.Length1 == 256;
    hide *;
    ghost var y := Xor(little, Wide(b));
    Divide8Split(y);
    ByteOutOfTheWay(little, b);
    Rev8Xor(Divide8(Low8(y)), Right8(little));
    Rev8Right(little);
    Rev8Top(little, b);
    EntryZero(Low8(y));
    BigEntry(table, 0, Xor(crc >> 56, Wide(b)));
    r := Xor(table[0, Index(Xor(crc >> 56, Wide(b)))], Left8(crc));
  }

  /** Loading eight bytes on a big-endian machine. */
  function LoadBig(b: seq<bv8>): bv64
    requires |b| == 8
  {
    Join(b[7], b[6], b[5], b[4], b[3], b[2], b[1], b[0])
  }

  lemma JoinReversed(b0: bv8, b1: bv8, b2: bv8, b3: bv8, b4: bv8, b5: bv8, b6: bv8, b7: bv8)
    ensures Join(b7, b6, b5, b4, b3, b2, b1, b0) == Rev8(Join(b0, b1, b2, b3, b4, b5, b6, b7))
  {
  }

  lemma LoadBigIs(b: seq<bv8>)
    requires |b| == 8
    ensures LoadBig(b) == Rev8(LoadLittle(b))
  {
    hide Rev8;
    hide Join;
    JoinReversed(b[0], b[1], b[2], b[3], b[4], b[5], b[6], b[7]);
  }

  function BigLookups(table: array2<bv64>, w: bv64, w1: bv64, w2: bv64, w3: bv64, w4: bv64, w5: bv64, w6: bv64,
      w7: bv64): bv64
    requires table.Length0 == 8 && table.Length1 == 256
    reads table
  {
    Xor(Xor(Xor(Xor(Xor(Xor(Xor(table[0, Index(w)], table[1, Index(w1)]), table[2, Index(w2)]), table[3, Index(w3)]),
    table[4, Index(w4)]), table[5, Index(w5)]), table[6, Index(w6)]), table[7, Index(w7)])
  }

  lemma BigLookupsAre(table: array2<bv64>, w: bv64, w1: bv64, w2: bv64, w3: bv64, w4: bv64, w5: bv64, w6: bv64,
      w7: bv64)
    requires IsBigTable(table)
    ensures BigLookups(table, w, w1, w2, w3, w4, w5, w6, w7) ==
      Xor(Xor(Xor(Xor(Xor(Xor(Xor(Rev8(Entry(0, Low8(w))), Rev8(Entry(1, Low8(w1)))), Rev8(Entry(2, Low8(w2)))),
        Rev8(Entry(3, Low8(w3)))),
      Rev8(Entry(4, Low8(w4)))), Rev8(Entry(5, Low8(w5)))), Rev8(Entry(6, Low8(w6)))), Rev8(Entry(7, Low8(w7))))
  {
    BigEntry(table, 0, w);
    BigEntry(table, 1, w1);
    BigEntry(table, 2, w2);
    BigEntry(table, 3, w3);
    BigEntry(table, 4, w4);
    BigEntry(table, 5, w5);
    BigEntry(table, 6, w6);
    BigEntry(table, 7, w7);
    hide Xor;
    hide Low8;
    hide Entry;
    hide Index;
    hide ByteOf;
    hide Rev8;
  }

  lemma XorBackwards(a: bv64, b: bv64, c: bv64, d: bv64, e: bv64, f: bv64, g: bv64, h: bv64)
    ensures Xor(Xor(Xor(Xor(Xor(Xor(Xor(h, g), f), e), d), c), b), a) ==
            Xor(Xor(Xor(Xor(Xor(Xor(Xor(a, b), c), d), e), f), g), h)
  {
    XorFlat(a, b, c, d, e, f, g, h);
    hide Xor;
    XorZero(h, 0);
    XorZero(h, g);
    var hg := Xor(h, g);
    XorZero(hg, f);
    var hgf := Xor(hg, f);
    XorZero(hgf, e);
    var hgfe := Xor(hgf, e);
    XorZero(hgfe, d);
    var hgfed := Xor(hgfe, d);
    XorZero(hgfed, c);
    var hgfedc := Xor(hgfed, c);
    XorZero(hgfedc, b);
    XorZero(Xor(hgfedc, b), a);
  }

  lemma Rev8Chain(a: bv64, b: bv64, c: bv64, d: bv64, e: bv64, f: bv64, g: bv64, h: bv64)
    ensures Rev8(Xor(Xor(Xor(Xor(Xor(Xor(Xor(a, b), c), d), e), f), g), h)) ==
            Xor(Xor(Xor(Xor(Xor(Xor(Xor(Rev8(a), Rev8(b)), Rev8(c)), Rev8(d)), Rev8(e)), Rev8(f)), Rev8(g)), Rev8(h))
  {
    hide *;
    Rev8Xor(a, b);
    var ab := Xor(a, b);
    Rev8Xor(ab, c);
    var abc := Xor(ab, c);
    Rev8Xor(abc, d);
    var abcd := Xor(abc, d);
    Rev8Xor(abcd, e);
    var abcde := Xor(abcd, e);
    Rev8Xor(abcde, f);
    var abcdef := Xor(abcde, f);
    Rev8Xor(abcdef, g);
    Rev8Xor(Xor(abcdef, g), h);
  }

  lemma SlicesOfWord(y: bv64)
    ensures Rounds(8, y) ==
      Xor(Xor(Xor(Xor(Xor(Xor(Xor(Entry(7, Low8(y)), Entry(6, Low8(y >> 8))), Entry(5, Low8(y >> 16))),
        Entry(4, Low8(y >> 24))),
      Entry(3, Low8(y >> 32))), Entry(2, Low8(y >> 40))), Entry(1, Low8(y >> 48))), Entry(0, Low8(y >> 56)))
  {
    hide Rounds;
    hide Slices;
    hide Xor;
    hide Entry;
    hide Low8;
    Shift16(y);
    Shift24(y);
    Shift32(y);
    Shift40(y);
    Shift48(y);
    Shift56(y);
    Shift64(y);
    RoundsSliced(8, y);
    SlicesFlat(y, y >> 8, y >> 16, y >> 24, y >> 32, y >> 40, y >> 48, y >> 56);
  }

  lemma BigLookupsReversed(table: array2<bv64>, w0: bv64, w1: bv64, w2: bv64, w3: bv64, w4: bv64, w5: bv64, w6: bv64,
      w7: bv64,
                           y0: bv64, y1: bv64, y2: bv64, y3: bv64, y4: bv64, y5: bv64, y6: bv64, y7: bv64)
    requires IsBigTable(table)
    requires Low8(w0) == Low8(y7) && Low8(w1) == Low8(y6) && Low8(w2) == Low8(y5) && Low8(w3) == Low8(y4)
    requires Low8(w4) == Low8(y3) && Low8(w5) == Low8(y2) && Low8(w6) == Low8(y1) && Low8(w7) == Low8(y0)
    ensures BigLookups(table, w0, w1, w2, w3, w4, w5, w6, w7) ==
      Rev8(Xor(Xor(Xor(Xor(Xor(Xor(Xor(Entry(7, Low8(y0)), Entry(6, Low8(y1))), Entry(5, Low8(y2))),
        Entry(4, Low8(y3))),
      Entry(3, Low8(y4))), Entry(2, Low8(y5))), Entry(1, Low8(y6))), Entry(0, Low8(y7))))
  {
    hide *;
    BigLookupsAre(table, w0, w1, w2, w3, w4, w5, w6, w7);
    var a, b, c, d := Entry(7, Low8(y0)), Entry(6, Low8(y1)), Entry(5, Low8(y2)), Entry(4, Low8(y3));
    var e, f, g, h := Entry(3, Low8(y4)), Entry(2, Low8(y5)), Entry(1, Low8(y6)), Entry(0, Low8(y7));
    Rev8Chain(a, b, c, d, e, f, g, h);
    XorBackwards(Rev8(a), Rev8(b), Rev8(c), Rev8(d), Rev8(e), Rev8(f), Rev8(g), Rev8(h));
  }

  lemma BigDivides(table: array2<bv64>, w: bv64, y: bv64)
    requires IsBigTable(table) && w == Rev8(y)
    ensures BigLookups(table, w, w >> 8, w >> 16, w >> 24, w >> 32, w >> 40, w >> 48, w >> 56) == Rev8(Rounds(8, y))
  {
    assert table.Length0 == 8 && table.Length1 == 256;
    hide *;
    Swapped0(y);
    Swapped8(y);
    Swapped16(y);
    Swapped24(y);
    Swapped32(y);
    Swapped40(y);
    Swapped48(y);
    Swapped56(y);
    SlicesOfWord(y);
    BigLookupsReversed(table, w, w >> 8, w >> 16, w >> 24, w >> 32, w >> 40, w >> 48, w >> 56,
                       y, y >> 8, y >> 16, y >> 24, y >> 32, y >> 40, y >> 48, y >> 56);
  }

  method WordBig(table: array2<bv64>, crc: bv64, bytes: seq<bv8>, ghost little: bv64) returns (r: bv64)
    requires IsBigTable(table) && |bytes| == 8 && crc == Rev8(little)
    ensures r == Rev8(Rounds(8, Xor(little, LoadLittle(bytes))))
  {
    var w := Xor(crc, LoadBig(bytes));
    LoadBigIs(bytes);
    Rev8Xor(little, LoadLittle(bytes));
    assert table.Length0 == 8 && table.Length1 == 256;
    hide *;
    BigDivides(table, w, Xor(little, LoadLittle(bytes)));
    r := BigLookups(table, w, w >> 8, w >> 16, w >> 24, w >> 32, w >> 40, w >> 48, w >> 56);
  }

  /** crcspeed64big computes the same CRC from byte-reversed tables. */
  method CrcSpeedBig(table: array2<bv64>, start: bv64, buf: seq<bv8>, address: nat) returns (r: bv64)
    requires IsBigTable(table)
    ensures r == Crc(start, buf)
  {
    hide *;
    var crc := Rev8(start);
    var next, len := 0, |buf|;
    CrcNone(start, buf);
    while len > 0 && (address + next) % 8 != 0
      invariant 0 <= next && 0 <= len && next + len == |buf| && crc == Rev8(Crc(start, buf[..next]))
    {
      CrcByteMore(start, buf, next);
      crc := ByteBig(table, crc, buf[next], Crc(start, buf[..next]));
      next, len := next + 1, len - 1;
    }
    while len >= 8
      invariant 0 <= next && 0 <= len && next + len == |buf| && crc == Rev8(Crc(start, buf[..next]))
    {
      CrcWordMore(start, buf, next);
      crc := WordBig(table, crc, buf[next..next + 8], Crc(start, buf[..next]));
      next, len := next + 8, len - 8;
    }
    while len > 0
      invariant 0 <= next && 0 <= len && next + len == |buf| && crc == Rev8(Crc(start, buf[..next]))
    {
      CrcByteMore(start, buf, next);
      crc := ByteBig(table, crc, buf[next], Crc(start, buf[..next]));
      next, len := next + 1, len - 1;
    }
    assert buf[..next] == buf;
    Rev8Twice(Crc(start, buf));
    r := Rev8(crc);
  }
}
