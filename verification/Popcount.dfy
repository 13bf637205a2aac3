/** redisPopcount: seven 32-bit words at a time with additions inside the words. */
module Popcount {
  import opened BitString

  const WORD: nat := 0x1_0000_0000

  /** A 32-bit word loaded from four bytes. */
  function Load4(b0: bv8, b1: bv8, b2: bv8, b3: bv8): bv32 {
    (b0 as bv32) | ((b1 as bv32) << 8) | ((b2 as bv32) << 16) | ((b3 as bv32) << 24)
  }

  function Lane(x: bv32, k: nat): bv8
    requires k < 4
  {
    if k == 0 then (x & 0xff) as bv8 else if k == 1 then ((x >> 8) & 0xff) as bv8
    else if k == 2 then ((x >> 16) & 0xff) as bv8 else (x >> 24) as bv8
  }

  /** The unsigned value of a word, from its bytes. */
  function Value(x: bv32): nat {
    Lane(x, 0) as int + 0x100 * (Lane(x, 1) as int) + 0x1_0000 * (Lane(x, 2) as int) + 0x100_0000 * (Lane(x, 3) as int)
  }

  /** Each byte of a word replaced by its number of one bits. */
  function Swar(x: bv32): bv32 {
    var a := x - ((x >> 1) & 0x55555555);
    var b := (a & 0x33333333) + ((a >> 2) & 0x33333333);
    (b + (b >> 4)) & 0x0F0F0F0F
  }

  function Sum8(b: bv32): bv32 {
    (b & 1) + ((b >> 1) & 1) + ((b >> 2) & 1) + ((b >> 3) & 1) + ((b >> 4) & 1) + ((b >> 5) & 1) + ((b >> 6) & 1) +
      ((b >> 7) & 1)
  }

  lemma SwarLane0(x: bv32) ensures Swar(x) & 0xff == Sum8(x & 0xff) { }
  lemma SwarLane1(x: bv32) ensures (Swar(x) >> 8) & 0xff == Sum8((x >> 8) & 0xff) { }
  lemma SwarLane2(x: bv32) ensures (Swar(x) >> 16) & 0xff == Sum8((x >> 16) & 0xff) { }
  lemma SwarLane3(x: bv32) ensures Swar(x) >> 24 == Sum8(x >> 24) { }

  lemma LoadLanes(b0: bv8, b1: bv8, b2: bv8, b3: bv8)
    ensures var x := Load4(b0, b1, b2, b3);
      && x & 0xff == b0 as bv32 && (x >> 8) & 0xff == b1 as bv32
      && (x >> 16) & 0xff == b2 as bv32 && x >> 24 == b3 as bv32
  {
  }

  lemma Sum8Counts(b: bv8)
    ensures Sum8(b as bv32) < 256 && (Sum8(b as bv32) as bv8) as int == PopByte(b)
  {
  }

  /** A byte that holds the count of another one. */
  lemma LaneCounts(lane: bv8, sum: bv32, b: bv8)
    requires sum == Sum8(b as bv32) && (lane as bv32) == sum
    ensures lane as int == PopByte(b)
  {
    Sum8Counts(b);
    hide Sum8;
    hide PopByte;
    assert lane == sum as bv8;
  }

  lemma WideLane(x: bv32)
    ensures (Lane(x, 0) as bv32) == x & 0xff && (Lane(x, 1) as bv32) == (x >> 8) & 0xff
    ensures (Lane(x, 2) as bv32) == (x >> 16) & 0xff && (Lane(x, 3) as bv32) == x >> 24
  {
  }

  lemma Count0(x: bv32, b: bv8)
    requires x & 0xff == b as bv32
    ensures Lane(Swar(x), 0) as int == PopByte(b)
  {
    hide *;
    SwarLane0(x);
    WideLane(Swar(x));
    LaneCounts(Lane(Swar(x), 0), Sum8(x & 0xff), b);
  }

  lemma Count1(x: bv32, b: bv8)
    requires (x >> 8) & 0xff == b as bv32
    ensures Lane(Swar(x), 1) as int == PopByte(b)
  {
    hide *;
    SwarLane1(x);
    WideLane(Swar(x));
    LaneCounts(Lane(Swar(x), 1), Sum8((x >> 8) & 0xff), b);
  }

  lemma Count2(x: bv32, b: bv8)
    requires (x >> 16) & 0xff == b as bv32
    ensures Lane(Swar(x), 2) as int == PopByte(b)
  {
    hide *;
    SwarLane2(x);
    WideLane(Swar(x));
    LaneCounts(Lane(Swar(x), 2), Sum8((x >> 16) & 0xff), b);
  }

  lemma Count3(x: bv32, b: bv8)
    requires x >> 24 == b as bv32
    ensures Lane(Swar(x), 3) as int == PopByte(b)
  {
    hide *;
    SwarLane3(x);
    WideLane(Swar(x));
    LaneCounts(Lane(Swar(x), 3), Sum8(x >> 24), b);
  }

  /** Four bytes, counted inside a word. */
  lemma SwarValue(b0: bv8, b1: bv8, b2: bv8, b3: bv8)
    ensures Value(Swar(Load4(b0, b1, b2, b3))) ==
            PopByte(b0) + 0x100 * PopByte(b1) + 0x1_0000 * PopByte(b2) + 0x100_0000 * PopByte(b3)
  {
    hide Swar;
    hide Load4;
    hide Lane;
    hide PopByte;
    var x := Load4(b0, b1, b2, b3);
    LoadLanes(b0, b1, b2, b3);
    Count0(x, b0);
    Count1(x, b1);
    Count2(x, b2);
    Count3(x, b3);
  }

  /** Multiplying by 0x01010101 collects the four bytes in the top byte. */
  lemma TopByteSum(a0: nat, a1: nat, a2: nat, a3: nat)
    requires a0 <= 56 && a1 <= 56 && a2 <= 56 && a3 <= 56
    ensures (a0 + 0x100 * a1 + 0x1_0000 * a2 + 0x100_0000 * a3) * 0x01010101 % WORD / 0x100_0000 == a0 + a1 + a2 + a3
  {
    var x := (a0 + 0x100 * a1 + 0x1_0000 * a2 + 0x100_0000 * a3) * 0x01010101;
    var low := a0 + 0x100 * (a0 + a1) + 0x1_0000 * (a0 + a1 + a2);
    var high := (a1 + a2 + a3) + 0x100 * (a2 + a3) + 0x1_0000 * a3;
    var sum := a0 + a1 + a2 + a3;
    assert x == low + 0x100_0000 * sum + WORD * high;
    DivWord(x, low + 0x100_0000 * sum, high);
    DivTop(low + 0x100_0000 * sum, low, sum);
  }

  lemma DivWord(x: nat, r: nat, q: nat)
    requires r < WORD && x == r + WORD * q
    ensures x % WORD == r
  {
  }

  lemma DivTop(x: nat, r: nat, q: nat)
    requires r < 0x100_0000 && x == r + 0x100_0000 * q
    ensures x / 0x100_0000 == q
  {
  }

  lemma PopByteBound(b: bv8)
    ensures PopByte(b) <= 8
  {
  }

  function Word(s: Bytes, i: nat): bv32
    requires 4 * i + 4 <= |s|
  {
    Load4(s[4 * i], s[4 * i + 1], s[4 * i + 2], s[4 * i + 3])
  }

  /** The value of word i once its bytes are counted. */
  function Counted(s: Bytes, i: nat): nat
    requires 4 * i + 4 <= |s|
  {
    Value(Swar(Word(s, i)))
  }

  /** The counts of the bytes at place k of the first n words. */
  function LaneSum(s: Bytes, k: nat, n: nat): nat
    requires k < 4 && 4 * n <= |s|
  {
    if n == 0 then 0 else LaneSum(s, k, n - 1) + PopByte(s[4 * n - 4 + k])
  }

  function WordSum(s: Bytes, n: nat): nat
    requires 4 * n <= |s|
  {
    if n == 0 then 0 else WordSum(s, n - 1) + Counted(s, n - 1)
  }

  lemma CountedIs(s: Bytes, i: nat)
    requires 4 * i + 4 <= |s|
    ensures Counted(s, i) ==
      PopByte(s[4 * i]) + 0x100 * PopByte(s[4 * i + 1]) + 0x1_0000 * PopByte(s[4 * i + 2]) +
      0x100_0000 * PopByte(s[4 * i + 3])
  {
    hide Value;
    hide Swar;
    hide Load4;
    hide PopByte;
    SwarValue(s[4 * i], s[4 * i + 1], s[4 * i + 2], s[4 * i + 3]);
  }

  lemma {:induction false} WordsAreLanes(s: Bytes, n: nat)
    requires 4 * n <= |s|
    ensures WordSum(s, n) ==
      LaneSum(s, 0, n) + 0x100 * LaneSum(s, 1, n) + 0x1_0000 * LaneSum(s, 2, n) + 0x100_0000 * LaneSum(s, 3, n)
  {
    hide Counted;
    hide PopByte;
    if n > 0 {
      WordsAreLanes(s, n - 1);
      CountedIs(s, n - 1);
    }
  }

  lemma {:induction false} LaneBound(s: Bytes, k: nat, n: nat)
    requires k < 4 && 4 * n <= |s|
    ensures LaneSum(s, k, n) <= 8 * n
  {
    hide PopByte;
    if n > 0 {
      LaneBound(s, k, n - 1);
      PopByteBound(s[4 * n - 4 + k]);
    }
  }

  lemma OneMore(s: Bytes, m: nat)
    requires m < |s|
    ensures PopBytes(s[..m + 1]) == PopBytes(s[..m]) + PopByte(s[m])
  {
    hide PopByte;
    assert s[..m + 1][..m] == s[..m];
  }

  lemma FourMore(s: Bytes, n: nat)
    requires 4 * n + 4 <= |s|
    ensures PopBytes(s[..4 * n + 4]) ==
            PopBytes(s[..4 * n]) + PopByte(s[4 * n]) + PopByte(s[4 * n + 1]) + PopByte(s[4 * n + 2]) +
              PopByte(s[4 * n + 3])
  {
    hide PopByte, PopBytes;
    var m := 4 * n;
    OneMore(s, m);
    OneMore(s, m + 1);
    OneMore(s, m + 2);
    OneMore(s, m + 3);
  }

  lemma LaneMore(s: Bytes, k: nat, n: nat)
    requires k < 4 && n > 0 && 4 * n <= |s|
    ensures LaneSum(s, k, n) == LaneSum(s, k, n - 1) + PopByte(s[4 * (n - 1) + k])
  {
    hide PopByte;
  }

  lemma {:induction false} LanesCount(s: Bytes, n: nat)
    requires 4 * n <= |s|
    ensures PopBytes(s[..4 * n]) == LaneSum(s, 0, n) + LaneSum(s, 1, n) + LaneSum(s, 2, n) + LaneSum(s, 3, n)
  {
    hide PopByte, PopBytes, LaneSum;
    if n == 0 {
      NoLanes(s);
    } else {
      LanesCount(s, n - 1);
      FourMore(s, n - 1);
      LaneMore(s, 0, n);
      LaneMore(s, 1, n);
      LaneMore(s, 2, n);
      LaneMore(s, 3, n);
    }
  }

  lemma NoLanes(s: Bytes)
    ensures PopBytes(s[..0]) == 0 && forall k: nat | k < 4 :: LaneSum(s, k, 0) == 0
  {
  }

  lemma SevenSum(s: Bytes)
    requires |s| == 28
    ensures WordSum(s, 7) ==
            Counted(s, 0) + Counted(s, 1) + Counted(s, 2) + Counted(s, 3) + Counted(s, 4) + Counted(s, 5) +
              Counted(s, 6)
  {
    hide Counted;
    assert WordSum(s, 1) == Counted(s, 0);
    assert WordSum(s, 3) == WordSum(s, 1) + Counted(s, 1) + Counted(s, 2);
    assert WordSum(s, 5) == WordSum(s, 3) + Counted(s, 3) + Counted(s, 4);
  }

  /** One turn of the fast loop: 28 bytes; all sums are of 32-bit words. */
  method CountSeven(s: Bytes) returns (bits: nat)
    requires |s| == 28
    ensures bits == PopBytes(s)
  {
    hide Counted;
    hide PopBytes;
    hide LaneSum;
    hide WordSum;
    SevenSum(s);
    WordsAreLanes(s, 7);
    LaneBound(s, 0, 7);
    LaneBound(s, 1, 7);
    LaneBound(s, 2, 7);
    LaneBound(s, 3, 7);
    var sum := Counted(s, 0) + Counted(s, 1) + Counted(s, 2) + Counted(s, 3) + Counted(s, 4) + Counted(s, 5) +
      Counted(s, 6);
    SmallSum(sum, LaneSum(s, 0, 7), LaneSum(s, 1, 7), LaneSum(s, 2, 7), LaneSum(s, 3, 7));
    bits := sum % WORD * 0x01010101 % WORD / 0x100_0000;
    LanesCount(s, 7);
    assert s[..28] == s;
  }

  lemma SmallSum(sum: nat, a0: nat, a1: nat, a2: nat, a3: nat)
    requires a0 <= 56 && a1 <= 56 && a2 <= 56 && a3 <= 56
    requires sum == a0 + 0x100 * a1 + 0x1_0000 * a2 + 0x100_0000 * a3
    ensures sum % WORD * 0x01010101 % WORD / 0x100_0000 == a0 + a1 + a2 + a3
  {
    DivWord(sum, sum, 0);
    TopByteSum(a0, a1, a2, a3);
  }

  /** redisPopcount, for a string that starts at any address. */
  method RedisPopcount(s: Bytes, address: nat) returns (bits: nat)
    ensures bits == Ones(s, 8 * |s|)
  {
    hide PopByte;
    hide Ones;
    bits := 0;
    var p, count := 0, |s|;
    while (address + p) % 4 != 0 && count > 0
      invariant 0 <= p && 0 <= count && p + count == |s| && bits == PopBytes(s[..p])
      decreases count
    {
      assert s[..p + 1][..p] == s[..p];
      bits := bits + PopByte(s[p]);
      p, count := p + 1, count - 1;
    }
    while count >= 28
      invariant 0 <= p && 0 <= count && p + count == |s| && bits == PopBytes(s[..p])
    {
      assert s[..p + 28] == s[..p] + s[p..p + 28];
      PopBytesConcat(s[..p], s[p..p + 28]);
      var more := CountSeven(s[p..p + 28]);
      bits := bits + more;
      p, count := p + 28, count - 28;
    }
    while count > 0
      invariant 0 <= p && 0 <= count && p + count == |s| && bits == PopBytes(s[..p])
      decreases count
    {
      assert s[..p + 1][..p] == s[..p];
      bits := bits + PopByte(s[p]);
      p, count := p + 1, count - 1;
    }
    assert s[..p] == s;
    PopBytesCounts(s);
  }
}
