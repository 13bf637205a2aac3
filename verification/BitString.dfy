/** Strings as sequences of bits: bit 0 is the most significant bit of the first byte,
    and the string is followed by zeros without end. */
module BitString {

  type Bytes = seq<bv8>

  function BitMask(r: nat): bv8
    requires r < 8
  {
    if r == 0 then 0x80 else if r == 1 then 0x40 else if r == 2 then 0x20 else if r == 3 then 0x10
    else if r == 4 then 0x08 else if r == 5 then 0x04 else if r == 6 then 0x02 else 0x01
  }

  predicate ByteBit(b: bv8, r: nat)
    requires r < 8
  {
    b & BitMask(r) != 0
  }

  predicate Bit(s: Bytes, i: nat) {
    i / 8 < |s| && ByteBit(s[i / 8], i % 8)
  }

  function One(b: bool): nat { if b then 1 else 0 }

  /** The number of one bits among the first n. */
  function Ones(s: Bytes, n: nat): nat {
    if n == 0 then 0 else Ones(s, n - 1) + One(Bit(s, n - 1))
  }

  /** The number of one bits of a byte; bitsinbyte in the source. */
  function PopByte(b: bv8): nat {
    One(ByteBit(b, 0)) + One(ByteBit(b, 1)) + One(ByteBit(b, 2)) + One(ByteBit(b, 3)) +
    One(ByteBit(b, 4)) + One(ByteBit(b, 5)) + One(ByteBit(b, 6)) + One(ByteBit(b, 7))
  }

  function PopBytes(s: Bytes): nat {
    if s == [] then 0 else PopBytes(s[..|s| - 1]) + PopByte(s[|s| - 1])
  }

  lemma {:induction false} OnesOfPrefix(s: Bytes, t: Bytes, n: nat)
    requires n <= 8 * |s| && s <= t
    ensures Ones(s, n) == Ones(t, n)
  {
    if n > 0 {
      OnesOfPrefix(s, t, n - 1);
      assert (n - 1) / 8 < |s|;
    }
  }

  lemma Position(q: nat, r: nat)
    requires r < 8
    ensures (8 * q + r) / 8 == q && (8 * q + r) % 8 == r
  {
  }

  /** Counting byte by byte counts the one bits. */
  lemma {:induction false} PopBytesCounts(s: Bytes)
    ensures PopBytes(s) == Ones(s, 8 * |s|)
  {
    hide PopByte;
    if s == [] {
      assert Ones(s, 0) == 0;
    } else {
      hide Ones;
      var init, n := s[..|s| - 1], 8 * (|s| - 1);
      PopBytesCounts(init);
      OnesOfPrefix(init, s, n);
      LastEight(s, n);
    }
  }

  lemma BitAt(s: Bytes, q: nat, r: nat)
    requires q < |s| && r < 8
    ensures Bit(s, 8 * q + r) == ByteBit(s[q], r)
  {
    Position(q, r);
    hide ByteBit;
  }

  lemma OnesNext(s: Bytes, q: nat, r: nat)
    requires q < |s| && r < 8
    ensures Ones(s, 8 * q + r + 1) == Ones(s, 8 * q + r) + One(ByteBit(s[q], r))
  {
    BitAt(s, q, r);
    hide ByteBit;
    hide Bit;
  }

  lemma LastEight(s: Bytes, n: nat)
    requires s != [] && n == 8 * (|s| - 1)
    ensures Ones(s, n + 8) == Ones(s, n) + PopByte(s[|s| - 1])
  {
    hide Ones;
    hide ByteBit;
    hide One;
    var q := |s| - 1;
    OnesNext(s, q, 0);
    OnesNext(s, q, 1);
    OnesNext(s, q, 2);
    OnesNext(s, q, 3);
    OnesNext(s, q, 4);
    OnesNext(s, q, 5);
    OnesNext(s, q, 6);
    OnesNext(s, q, 7);
  }

  lemma {:induction false} PopBytesConcat(a: Bytes, b: Bytes)
    ensures PopBytes(a + b) == PopBytes(a) + PopBytes(b)
  {
    hide PopByte;
    if b == [] {
      assert a + b == a;
    } else {
      assert (a + b)[..|a + b| - 1] == a + b[..|b| - 1];
      PopBytesConcat(a, b[..|b| - 1]);
    }
  }
}
