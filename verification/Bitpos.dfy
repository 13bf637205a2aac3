/** redisBitpos: the first bit of a given value, skipping whole words. */
module Bitpos {
  import opened Word64
  import opened BitString

  /** Eight bytes, the first one most significant. */
  function BigWord(s: Bytes): bv64
    requires |s| == 8
  {
    Join(s[7], s[6], s[5], s[4], s[3], s[2], s[1], s[0])
  }

  /** The same bytes as the machine loads them. */
  function MachineWord(s: Bytes): bv64
    requires |s| == 8
  {
    Join(s[0], s[1], s[2], s[3], s[4], s[5], s[6], s[7])
  }

  lemma JoinZero(b0: bv8, b1: bv8, b2: bv8, b3: bv8, b4: bv8, b5: bv8, b6: bv8, b7: bv8)
    ensures Join(b0, b1, b2, b3, b4, b5, b6, b7) == 0 <==>
            b0 == 0 && b1 == 0 && b2 == 0 && b3 == 0 && b4 == 0 && b5 == 0 && b6 == 0 && b7 == 0
  {
  }

  lemma JoinFull(b0: bv8, b1: bv8, b2: bv8, b3: bv8, b4: bv8, b5: bv8, b6: bv8, b7: bv8)
    ensures Join(b0, b1, b2, b3, b4, b5, b6, b7) == 0xffff_ffff_ffff_ffff <==>
            b0 == 0xff && b1 == 0xff && b2 == 0xff && b3 == 0xff && b4 == 0xff && b5 == 0xff && b6 == 0xff && b7 == 0xff
  {
  }

  function Skip(bit: bool): bv8 { if bit then 0 else 0xff }

  lemma WordSkips(s: Bytes, bit: bool)
    requires |s| == 8
    ensures MachineWord(s) == (if bit then 0 else 0xffff_ffff_ffff_ffff) <==> forall i | 0 <= i < 8 :: s[i] == Skip(bit)
  {
    hide Join;
    JoinZero(s[0], s[1], s[2], s[3], s[4], s[5], s[6], s[7]);
    JoinFull(s[0], s[1], s[2], s[3], s[4], s[5], s[6], s[7]);
  }

  /** A byte to skip holds no bit of the wanted value. */
  lemma SkippedByte(bit: bool, r: nat)
    requires r < 8
    ensures ByteBit(Skip(bit), r) != bit
  {
  }

  lemma ByteHasBit(b: bv8, bit: bool)
    requires b != Skip(bit)
    ensures exists r | 0 <= r < 8 :: ByteBit(b, r) == bit
  {
    if ByteBit(b, 0) != bit && ByteBit(b, 1) != bit && ByteBit(b, 2) != bit && ByteBit(b, 3) != bit {
      assert ByteBit(b, 4) == bit || ByteBit(b, 5) == bit || ByteBit(b, 6) == bit || ByteBit(b, 7) == bit;
    }
  }

  // ----- bits of a word -------------------------------------------------------------------

  lemma ShiftMask(m: bv64, w: bv64)
    ensures (Right(m) & w != 0) <==> (m & Left(w) != 0)
  {
  }

  predicate Meets(m: bv64, w: bv64) { m & w != 0 }

  lemma MeetsShift(m: bv64, w: bv64)
    ensures Meets(Right(m), w) <==> Meets(m, Left(w))
  {
    ShiftMask(m, w);
  }

  lemma {:induction false} MaskSees(m: bv64, w: bv64, t: nat)
    ensures Meets(Shr(m, t), w) <==> Meets(m, Shl(w, t))
    decreases t
  {
    hide Meets;
    hide Right;
    hide Left;
    if t > 0 {
      MaskSees(Right(m), w, t - 1);
      MeetsShift(m, Shl(w, t - 1));
      ShlLast(w, t - 1);
    }
  }

  const TOP: bv64 := 0x8000_0000_0000_0000

  /** The first byte of a word, bit by bit. */
  lemma FirstBit0(b0: bv8, b1: bv8, b2: bv8, b3: bv8, b4: bv8, b5: bv8, b6: bv8, b7: bv8)
    ensures Meets(TOP, Join(b7, b6, b5, b4, b3, b2, b1, b0)) <==> ByteBit(b0, 0)
  {
  }

  lemma FirstBit1(b0: bv8, b1: bv8, b2: bv8, b3: bv8, b4: bv8, b5: bv8, b6: bv8, b7: bv8)
    ensures Meets(TOP, Left(Join(b7, b6, b5, b4, b3, b2, b1, b0))) <==> ByteBit(b0, 1)
  {
  }

  lemma FirstBit2(b0: bv8, b1: bv8, b2: bv8, b3: bv8, b4: bv8, b5: bv8, b6: bv8, b7: bv8)
    ensures Meets(TOP, Left(Left(Join(b7, b6, b5, b4, b3, b2, b1, b0)))) <==> ByteBit(b0, 2)
  {
  }

  lemma FirstBit3(b0: bv8, b1: bv8, b2: bv8, b3: bv8, b4: bv8, b5: bv8, b6: bv8, b7: bv8)
    ensures Meets(TOP, Left(Left(Left(Join(b7, b6, b5, b4, b3, b2, b1, b0))))) <==> ByteBit(b0, 3)
  {
  }

  lemma FirstBit4(b0: bv8, b1: bv8, b2: bv8, b3: bv8, b4: bv8, b5: bv8, b6: bv8, b7: bv8)
    ensures Meets(TOP, Left(Left(Left(Left(Join(b7, b6, b5, b4, b3, b2, b1, b0)))))) <==> ByteBit(b0, 4)
  {
  }

  lemma FirstBit5(b0: bv8, b1: bv8, b2: bv8, b3: bv8, b4: bv8, b5: bv8, b6: bv8, b7: bv8)
    ensures Meets(TOP, Left(Left(Left(Left(Left(Join(b7, b6, b5, b4, b3, b2, b1, b0))))))) <==> ByteBit(b0, 5)
  {
  }

  lemma FirstBit6(b0: bv8, b1: bv8, b2: bv8, b3: bv8, b4: bv8, b5: bv8, b6: bv8, b7: bv8)
    ensures Meets(TOP, Left(Left(Left(Left(Left(Left(Join(b7, b6, b5, b4, b3, b2, b1, b0)))))))) <==> ByteBit(b0, 6)
  {
  }

  lemma FirstBit7(b0: bv8, b1: bv8, b2: bv8, b3: bv8, b4: bv8, b5: bv8, b6: bv8, b7: bv8)
    ensures Meets(TOP, Left(Left(Left(Left(Left(Left(Left(Join(b7, b6, b5, b4, b3, b2, b1, b0))))))))) <==>
      ByteBit(b0, 7)
  {
  }

  lemma NextByte(b0: bv8, b1: bv8, b2: bv8, b3: bv8, b4: bv8, b5: bv8, b6: bv8, b7: bv8)
    ensures Left8(Join(b7, b6, b5, b4, b3, b2, b1, b0)) == Join(0, b7, b6, b5, b4, b3, b2, b1)
  {
  }

  lemma EightLefts(w: bv64)
    ensures Left(Left(Left(Left(Left(Left(Left(Left(w)))))))) == Left8(w)
  {
  }

  lemma ShlFew(w: bv64)
    ensures Shl(w, 0) == w && Shl(w, 1) == Left(w) && Shl(w, 2) == Left(Left(w)) && Shl(w, 3) == Left(Left(Left(w))) &&
      Shl(w, 4) == Left(Left(Left(Left(w))))
  {
    hide Left;
    assert Shl(w, 1) == Shl(Left(w), 0);
    assert Shl(w, 2) == Shl(Left(w), 1) == Shl(Left(Left(w)), 0);
    ShlLast(w, 2);
    ShlLast(w, 3);
  }

  lemma ShlMore(w: bv64)
    ensures Shl(w, 5) == Left(Left(Left(Left(Left(w))))) && Shl(w, 6) == Left(Left(Left(Left(Left(Left(w)))))) &&
      Shl(w, 7) == Left(Left(Left(Left(Left(Left(Left(w))))))) && Shl(w, 8) == Left8(w)
  {
    hide *;
    ShlFew(w);
    ShlLast(w, 4);
    ShlLast(w, 5);
    ShlLast(w, 6);
    ShlLast(w, 7);
    EightLefts(w);
  }

  lemma {:induction false} ShlAdd(w: bv64, a: nat, b: nat)
    ensures Shl(w, a + b) == Shl(Shl(w, a), b)
    decreases a
  {
    hide Left;
    if a > 0 {
      ShlAdd(Left(w), a - 1, b);
    }
  }

  lemma BigWordIs(s: Bytes)
    requires |s| == 8
    ensures BigWord(s) == Join(s[7], s[6], s[5], s[4], s[3], s[2], s[1], s[0])
  {
  }

  lemma FirstByteBit0(s: Bytes)
    requires |s| == 8
    ensures Meets(TOP, Shl(BigWord(s), 0)) <==> ByteBit(s[0], 0)
  {
    hide *;
    BigWordIs(s);
    FirstBit0(s[0], s[1], s[2], s[3], s[4], s[5], s[6], s[7]);
    ShlFew(BigWord(s));
  }

  lemma FirstByteBit1(s: Bytes)
    requires |s| == 8
    ensures Meets(TOP, Shl(BigWord(s), 1)) <==> ByteBit(s[0], 1)
  {
    hide *;
    BigWordIs(s);
    FirstBit1(s[0], s[1], s[2], s[3], s[4], s[5], s[6], s[7]);
    ShlFew(BigWord(s));
  }

  lemma FirstByteBit2(s: Bytes)
    requires |s| == 8
    ensures Meets(TOP, Shl(BigWord(s), 2)) <==> ByteBit(s[0], 2)
  {
    hide *;
    BigWordIs(s);
    FirstBit2(s[0], s[1], s[2], s[3], s[4], s[5], s[6], s[7]);
    ShlFew(BigWord(s));
  }

  lemma FirstByteBit3(s: Bytes)
    requires |s| == 8
    ensures Meets(TOP, Shl(BigWord(s), 3)) <==> ByteBit(s[0], 3)
  {
    hide *;
    BigWordIs(s);
    FirstBit3(s[0], s[1], s[2], s[3], s[4], s[5], s[6], s[7]);
    ShlFew(BigWord(s));
  }

  lemma FirstByteBit4(s: Bytes)
    requires |s| == 8
    ensures Meets(TOP, Shl(BigWord(s), 4)) <==> ByteBit(s[0], 4)
  {
    hide *;
    BigWordIs(s);
    FirstBit4(s[0], s[1], s[2], s[3], s[4], s[5], s[6], s[7]);
    ShlFew(BigWord(s));
  }

  lemma FirstByteBit5(s: Bytes)
    requires |s| == 8
    ensures Meets(TOP, Shl(BigWord(s), 5)) <==> ByteBit(s[0], 5)
  {
    hide *;
    BigWordIs(s);
    FirstBit5(s[0], s[1], s[2], s[3], s[4], s[5], s[6], s[7]);
    ShlMore(BigWord(s));
  }

  lemma FirstByteBit6(s: Bytes)
    requires |s| == 8
    ensures Meets(TOP, Shl(BigWord(s), 6)) <==> ByteBit(s[0], 6)
  {
    hide *;
    BigWordIs(s);
    FirstBit6(s[0], s[1], s[2], s[3], s[4], s[5], s[6], s[7]);
    ShlMore(BigWord(s));
  }

  lemma FirstByteBit7(s: Bytes)
    requires |s| == 8
    ensures Meets(TOP, Shl(BigWord(s), 7)) <==> ByteBit(s[0], 7)
  {
    hide *;
    BigWordIs(s);
    FirstBit7(s[0], s[1], s[2], s[3], s[4], s[5], s[6], s[7]);
    ShlMore(BigWord(s));
  }

  lemma FirstByteBit(s: Bytes, r: nat)
    requires |s| == 8 && r < 8
    ensures Meets(TOP, Shl(BigWord(s), r)) <==> ByteBit(s[0], r)
  {
    hide *;
    if r == 0 { FirstByteBit0(s); } else if r == 1 { FirstByteBit1(s); } else if r == 2 { FirstByteBit2(s); }
    else if r == 3 { FirstByteBit3(s); } else if r == 4 { FirstByteBit4(s); } else if r == 5 { FirstByteBit5(s); }
    else if r == 6 { FirstByteBit6(s); } else { FirstByteBit7(s); }
  }

  /** Bit t of a word is bit t of its bytes. */
  lemma {:induction false} WordBit(s: Bytes, t: nat)
    requires |s| == 8 && t < 64
    ensures Meets(TOP, Shl(BigWord(s), t)) <==> ByteBit(s[t / 8], t % 8)
    decreases t
  {
    hide Join;
    hide Meets;
    hide ByteBit;
    hide Shl;
    hide Left8;
    if t < 8 {
      FirstByteBit(s, t);
    } else {
      var next := s[1..] + [0];
      NextByte(s[0], s[1], s[2], s[3], s[4], s[5], s[6], s[7]);
      assert Left8(BigWord(s)) == BigWord(next);
      ShlMore(BigWord(s));
      ShlAdd(BigWord(s), 8, t - 8);
      WordBit(next, t - 8);
      assert (t - 8) / 8 == t / 8 - 1 && (t - 8) % 8 == t % 8;
    }
  }

  // ----- the search -------------------------------------------------------------------------

  /** Eight bytes of the zero-padded string. */
  function Window(s: Bytes, p: nat): (r: Bytes)
    ensures |r| == 8 && forall i | 0 <= i < 8 :: r[i] == if p + i < |s| then s[p + i] else 0
  {
    seq(8, i requires 0 <= i < 8 => if p + i < |s| then s[p + i] else 0)
  }

  lemma ZeroByte(r: nat)
    requires r < 8
    ensures !ByteBit(0, r)
  {
  }

  lemma WindowBit(s: Bytes, p: nat, t: nat)
    requires t < 64
    ensures ByteBit(Window(s, p)[t / 8], t % 8) == Bit(s, 8 * p + t)
  {
    hide ByteBit;
    assert (8 * p + t) / 8 == p + t / 8 && (8 * p + t) % 8 == t % 8;
    ZeroByte(t % 8);
  }

  lemma LoadMore(b0: bv8, b1: bv8, b2: bv8, b3: bv8, b4: bv8, b5: bv8, b6: bv8, b7: bv8, b: bv8)
    ensures (Join(b7, b6, b5, b4, b3, b2, b1, b0) << 8) | Wide(b) == Join(b, b7, b6, b5, b4, b3, b2, b1)
  {
  }

  function Padding(n: nat): (r: Bytes)
    ensures |r| == n && forall i | 0 <= i < n :: r[i] == 0
  {
    seq(n, _ => 0)
  }

  lemma LoadStep(x: Bytes, b: bv8)
    requires |x| == 8
    ensures (BigWord(x) << 8) | Wide(b) == BigWord(x[1..] + [b])
  {
    var y := x[1..] + [b];
    assert y[0] == x[1] && y[1] == x[2] && y[2] == x[3] && y[3] == x[4] && y[4] == x[5] && y[5] == x[6] &&
      y[6] == x[7] && y[7] == b;
    hide *;
    BigWordIs(x);
    BigWordIs(y);
    LoadMore(x[0], x[1], x[2], x[3], x[4], x[5], x[6], x[7], b);
  }

  lemma OrZero(w: bv64)
    ensures w | Wide(0) == w
  {
  }

  /** Loading up to eight bytes, the first as the most significant one. */
  method LoadWord(s: Bytes, p: nat) returns (word: bv64)
    ensures word == BigWord(Window(s, p))
  {
    hide BigWord;
    hide Wide;
    word := 0;
    ghost var w := Window(s, p);
    NoBytes();
    assert Padding(8) + w[..0] == Padding(8);
    for j := 0 to 8
      invariant word == BigWord(Padding(8 - j) + w[..j])
    {
      ghost var x := Padding(8 - j) + w[..j];
      LoadStep(x, w[j]);
      assert Padding(7 - j) + w[..j + 1] == x[1..] + [w[j]];
      word := word << 8;
      OrZero(word);
      if p + j < |s| {
        word := word | Wide(s[p + j]);
      }
    }
    assert Padding(0) + w[..8] == w;
  }

  lemma NoBytes()
    ensures BigWord(Padding(8)) == 0
  {
  }

  /** Nothing before byte p is of the wanted value. */
  ghost predicate Skipped(s: Bytes, bit: bool, p: nat)
    requires p <= |s|
  {
    forall i | 0 <= i < p :: s[i] == Skip(bit)
  }

  lemma SkippedBits(s: Bytes, bit: bool, p: nat, i: nat)
    requires p <= |s| && Skipped(s, bit, p) && i < 8 * p
    ensures Bit(s, i) != bit
  {
    SkippedByte(bit, i % 8);
  }

  /** What redisBitpos promises of its result. */
  ghost predicate IsFirst(s: Bytes, bit: bool, pos: int) {
    if pos == -1 then bit && forall i: nat :: !Bit(s, i)
    else pos >= 0 && Bit(s, pos) == bit && forall i: nat | i < pos :: Bit(s, i) != bit
  }

  /** The last part: the bits of one word, from the most significant one. */
  method ScanWord(s: Bytes, bit: bool, p: nat, word: bv64) returns (pos: int, panicked: bool)
    requires p <= |s| && Skipped(s, bit, p) && word == BigWord(Window(s, p))
    requires exists i | 8 * p <= i < 8 * p + 64 :: Bit(s, i) == bit
    ensures !panicked && IsFirst(s, bit, pos)
  {
    hide Bit;
    hide Shl;
    hide Shr;
    hide BigWord;
    hide Meets;
    var one, t := TOP, 0;
    ShrStart();
    while one != 0
      invariant 0 <= t <= 64 && one == Shr(TOP, t)
      invariant forall i | 8 * p <= i < 8 * p + t :: Bit(s, i) != bit
      decreases 64 - t
    {
      Shr64(TOP);
      assert t < 64;
      MaskSees(TOP, word, t);
      WordBit(Window(s, p), t);
      WindowBit(s, p, t);
      MeetsIs(one, word);
      if (one & word != 0) == bit {
        forall i: nat | i < 8 * p + t
          ensures Bit(s, i) != bit
        {
          if i < 8 * p {
            SkippedBits(s, bit, p, i);
          }
        }
        return 8 * p + t, false;
      }
      ShrLast(TOP, t);
      RightIs(one);
      one := one >> 1;
      t := t + 1;
    }
    AllShifted(t);
    return 0, true;
  }

  lemma ShrStart()
    ensures Shr(TOP, 0) == TOP
  {
  }

  lemma MeetsIs(m: bv64, w: bv64)
    ensures Meets(m, w) <==> m & w != 0
  {
  }

  lemma RightIs(x: bv64)
    ensures Right(x) == x >> 1
  {
  }

  /** The mask is gone only after 64 shifts. */
  lemma {:induction false} AllShifted(t: nat)
    requires t <= 64 && Shr(TOP, t) == 0
    ensures t == 64
  {
    hide Shr;
    hide Shl;
    hide BigWord;
    if t < 64 {
      var full: Bytes := seq(8, _ => 0xff);
      MaskSees(TOP, BigWord(full), t);
      WordBit(full, t);
      SkippedByte(false, t % 8);
      assert false;
    }
  }

  lemma {:induction false} WordIsZero(s: Bytes, p: nat)
    ensures BigWord(Window(s, p)) == 0 <==> forall i | 0 <= i < 8 :: Window(s, p)[i] == 0
  {
    var w := Window(s, p);
    JoinZero(w[7], w[6], w[5], w[4], w[3], w[2], w[1], w[0]);
    hide Join;
  }

  /** Some bit of the window is of the wanted value. */
  lemma WindowHasBit(s: Bytes, bit: bool, p: nat)
    requires exists k | 0 <= k < 8 :: Window(s, p)[k] != Skip(bit)
    ensures exists i | 8 * p <= i < 8 * p + 64 :: Bit(s, i) == bit
  {
    hide ByteBit;
    hide Skip;
    var k :| 0 <= k < 8 && Window(s, p)[k] != Skip(bit);
    ByteHasBit(Window(s, p)[k], bit);
    var r :| 0 <= r < 8 && ByteBit(Window(s, p)[k], r) == bit;
    Position(k, r);
    WindowBit(s, p, 8 * k + r);
    assert Bit(s, 8 * p + (8 * k + r)) == bit;
  }

  /** No byte of the string and no byte of the padding holds a one. */
  lemma NoOnes(s: Bytes, p: nat, i: nat)
    requires p <= |s| <= p + 8 && Skipped(s, true, p) && forall k | 0 <= k < 8 :: Window(s, p)[k] == 0
    ensures !Bit(s, i)
  {
    if i / 8 < |s| {
      assert s[i / 8] == 0 by {
        if i / 8 >= p {
          assert Window(s, p)[i / 8 - p] == 0;
        }
      }
      ZeroByte(i % 8);
    }
  }

  /** One of the next eight bytes is not to be skipped. */
  ghost predicate Stops(s: Bytes, bit: bool, p: nat) {
    exists i | p <= i < p + 8 && i < |s| :: s[i] != Skip(bit)
  }

  lemma SkipIs()
    ensures Skip(true) == 0 && Skip(false) == 0xff
  {
  }

  lemma NotStopped(s: Bytes, p: nat)
    requires forall k | 0 <= k < 8 :: Window(s, p)[k] == 0
    ensures !Stops(s, true, p)
  {
    forall i | p <= i < p + 8 && i < |s|
      ensures s[i] == Skip(true)
    {
      assert Window(s, p)[i - p] == s[i];
    }
  }

  lemma NothingFound(s: Bytes, p: nat)
    requires p <= |s| && Skipped(s, true, p) && forall k | 0 <= k < 8 :: Window(s, p)[k] == 0
    requires |s| < p + 8 || Stops(s, true, p)
    ensures IsFirst(s, true, -1)
  {
    NotStopped(s, p);
    forall i: nat
      ensures !Bit(s, i)
    {
      NoOnes(s, p, i);
    }
  }

  /** Either a byte stopped the search, or the padding is in the window. */
  lemma SomethingLeft(s: Bytes, bit: bool, p: nat)
    requires p <= |s| && (bit ==> exists k | 0 <= k < 8 :: Window(s, p)[k] != 0)
    requires |s| < p + 8 || Stops(s, bit, p)
    ensures exists k | 0 <= k < 8 :: Window(s, p)[k] != Skip(bit)
  {
    if Stops(s, bit, p) {
      var i :| p <= i < p + 8 && i < |s| && s[i] != Skip(bit);
      assert Window(s, p)[i - p] == s[i];
    } else if !bit {
      assert Window(s, p)[|s| - p] == 0;
    }
  }

  /** redisBitpos, for a string that starts at any address. */
  method RedisBitpos(s: Bytes, bit: bool, address: nat) returns (pos: int, panicked: bool)
    ensures !panicked && IsFirst(s, bit, pos)
  {
    hide IsFirst;
    hide MachineWord;
    hide BigWord;
    hide Skip;
    var p, count, found := 0, |s|, false;
    while (address + p) % 8 != 0 && count > 0
      invariant 0 <= p && 0 <= count && p + count == |s| && Skipped(s, bit, p) && !found
      decreases count
    {
      if s[p] != Skip(bit) {
        found := true;
        break;
      }
      p, count := p + 1, count - 1;
    }
    if !found {
      while count >= 8
        invariant 0 <= p && 0 <= count && p + count == |s| && Skipped(s, bit, p)
        decreases count
      {
        WordSkips(s[p..p + 8], bit);
        if MachineWord(s[p..p + 8]) != (if bit then 0 else 0xffff_ffff_ffff_ffff) {
          ghost var k :| 0 <= k < 8 && s[p..p + 8][k] != Skip(bit);
          assert s[p + k] != Skip(bit);
          break;
        }
        assert forall i | p <= i < p + 8 :: s[i] == s[p..p + 8][i - p];
        p, count := p + 8, count - 8;
      }
    }
    assert count < 8 || Stops(s, bit, p);
    var word := LoadWord(s, p);
    WordIsZero(s, p);
    SkipIs();
    if bit && word == 0 {
      NothingFound(s, p);
      return -1, false;
    }
    SomethingLeft(s, bit, p);
    WindowHasBit(s, bit, p);
    pos, panicked := ScanWord(s, bit, p, word);
  }
}
