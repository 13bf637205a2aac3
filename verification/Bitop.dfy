/** BITOP: the byte-by-byte loop and the fast path that works on four 64-bit words at a time. */
module Bitop {
  import opened Basics
  import opened BitString
  import opened Word64

  datatype Op = And | Or | Exclusive | Not

  /** A NOT of several keys is refused; otherwise the stored string. */
  datatype Reply = SyntaxError | Stored(bytes: Bytes)

  function ByteOp(op: Op, a: bv8, b: bv8): bv8 {
    match op
    case And => a & b
    case Or => a | b
    case Exclusive => a ^ b
    case Not => !a
  }

  function WordOp(op: Op, a: bv64, b: bv64): bv64 {
    match op
    case And => a & b
    case Or => a | b
    case Exclusive => a ^ b
    case Not => !a
  }

  /** Byte j of a string followed by zeros. */
  function At(s: Bytes, j: nat): bv8 { if j < |s| then s[j] else 0 }

  /** What byte j of the result should be, from the first n sources. */
  function Folded(op: Op, srcs: seq<Bytes>, n: nat, j: nat): bv8
    requires 1 <= n <= |srcs|
  {
    if n == 1 then (if op == Not then !At(srcs[0], j) else At(srcs[0], j))
    else ByteOp(op, Folded(op, srcs, n - 1, j), At(srcs[n - 1], j))
  }

  // ----- words ------------------------------------------------------------------------------

  function Byte0(w: bv64): bv8 { (w & 0xff) as bv8 }
  function Byte1(w: bv64): bv8 { ((w >> 8) & 0xff) as bv8 }
  function Byte2(w: bv64): bv8 { ((w >> 16) & 0xff) as bv8 }
  function Byte3(w: bv64): bv8 { ((w >> 24) & 0xff) as bv8 }
  function Byte4(w: bv64): bv8 { ((w >> 32) & 0xff) as bv8 }
  function Byte5(w: bv64): bv8 { ((w >> 40) & 0xff) as bv8 }
  function Byte6(w: bv64): bv8 { ((w >> 48) & 0xff) as bv8 }
  function Byte7(w: bv64): bv8 { ((w >> 56) & 0xff) as bv8 }

  function Word(s: Bytes, pos: nat): bv64
    requires pos + 8 <= |s|
  {
    Join(s[pos], s[pos + 1], s[pos + 2], s[pos + 3], s[pos + 4], s[pos + 5], s[pos + 6], s[pos + 7])
  }

  /** Writing a word over eight bytes. */
  function Store(s: Bytes, pos: nat, w: bv64): (r: Bytes)
    requires pos + 8 <= |s|
    ensures |r| == |s|
  {
    s[..pos] + [Byte0(w), Byte1(w), Byte2(w), Byte3(w), Byte4(w), Byte5(w), Byte6(w), Byte7(w)] + s[pos + 8..]
  }

  lemma JoinByte0(a0: bv8, a1: bv8, a2: bv8, a3: bv8, a4: bv8, a5: bv8, a6: bv8, a7: bv8)
    ensures Byte0(Join(a0, a1, a2, a3, a4, a5, a6, a7)) == a0
  {
  }

  lemma JoinByte1(a0: bv8, a1: bv8, a2: bv8, a3: bv8, a4: bv8, a5: bv8, a6: bv8, a7: bv8)
    ensures Byte1(Join(a0, a1, a2, a3, a4, a5, a6, a7)) == a1
  {
  }

  lemma JoinByte2(a0: bv8, a1: bv8, a2: bv8, a3: bv8, a4: bv8, a5: bv8, a6: bv8, a7: bv8)
    ensures Byte2(Join(a0, a1, a2, a3, a4, a5, a6, a7)) == a2
  {
  }

  lemma JoinByte3(a0: bv8, a1: bv8, a2: bv8, a3: bv8, a4: bv8, a5: bv8, a6: bv8, a7: bv8)
    ensures Byte3(Join(a0, a1, a2, a3, a4, a5, a6, a7)) == a3
  {
  }

  lemma JoinByte4(a0: bv8, a1: bv8, a2: bv8, a3: bv8, a4: bv8, a5: bv8, a6: bv8, a7: bv8)
    ensures Byte4(Join(a0, a1, a2, a3, a4, a5, a6, a7)) == a4
  {
  }

  lemma JoinByte5(a0: bv8, a1: bv8, a2: bv8, a3: bv8, a4: bv8, a5: bv8, a6: bv8, a7: bv8)
    ensures Byte5(Join(a0, a1, a2, a3, a4, a5, a6, a7)) == a5
  {
  }

  lemma JoinByte6(a0: bv8, a1: bv8, a2: bv8, a3: bv8, a4: bv8, a5: bv8, a6: bv8, a7: bv8)
    ensures Byte6(Join(a0, a1, a2, a3, a4, a5, a6, a7)) == a6
  {
  }

  lemma JoinByte7(a0: bv8, a1: bv8, a2: bv8, a3: bv8, a4: bv8, a5: bv8, a6: bv8, a7: bv8)
    ensures Byte7(Join(a0, a1, a2, a3, a4, a5, a6, a7)) == a7
  {
  }

  lemma JoinAnd(a0: bv8, a1: bv8, a2: bv8, a3: bv8, a4: bv8, a5: bv8, a6: bv8, a7: bv8, b0: bv8, b1: bv8, b2: bv8,
      b3: bv8, b4: bv8, b5: bv8, b6: bv8, b7: bv8)
    ensures WordOp(And, Join(a0, a1, a2, a3, a4, a5, a6, a7), Join(b0, b1, b2, b3, b4, b5, b6, b7)) ==
            Join(ByteOp(And, a0, b0), ByteOp(And, a1, b1), ByteOp(And, a2, b2), ByteOp(And, a3, b3),
              ByteOp(And, a4, b4), ByteOp(And, a5, b5), ByteOp(And, a6, b6), ByteOp(And, a7, b7))
  {
  }

  lemma JoinOr(a0: bv8, a1: bv8, a2: bv8, a3: bv8, a4: bv8, a5: bv8, a6: bv8, a7: bv8, b0: bv8, b1: bv8, b2: bv8,
      b3: bv8, b4: bv8, b5: bv8, b6: bv8, b7: bv8)
    ensures WordOp(Or, Join(a0, a1, a2, a3, a4, a5, a6, a7), Join(b0, b1, b2, b3, b4, b5, b6, b7)) ==
            Join(ByteOp(Or, a0, b0), ByteOp(Or, a1, b1), ByteOp(Or, a2, b2), ByteOp(Or, a3, b3), ByteOp(Or, a4, b4),
              ByteOp(Or, a5, b5), ByteOp(Or, a6, b6), ByteOp(Or, a7, b7))
  {
  }

  lemma JoinExclusive(a0: bv8, a1: bv8, a2: bv8, a3: bv8, a4: bv8, a5: bv8, a6: bv8, a7: bv8, b0: bv8, b1: bv8,
      b2: bv8, b3: bv8, b4: bv8, b5: bv8, b6: bv8, b7: bv8)
    ensures WordOp(Exclusive, Join(a0, a1, a2, a3, a4, a5, a6, a7), Join(b0, b1, b2, b3, b4, b5, b6, b7)) ==
            Join(ByteOp(Exclusive, a0, b0), ByteOp(Exclusive, a1, b1), ByteOp(Exclusive, a2, b2),
              ByteOp(Exclusive, a3, b3), ByteOp(Exclusive, a4, b4), ByteOp(Exclusive, a5, b5),
              ByteOp(Exclusive, a6, b6), ByteOp(Exclusive, a7, b7))
  {
  }

  lemma NotIsXor(x: bv64, y: bv64) ensures WordOp(Not, x, y) == WordOp(Exclusive, x, 0xffff_ffff_ffff_ffff) { }
  lemma ByteNotIsXor(a: bv8, b: bv8) ensures ByteOp(Not, a, b) == ByteOp(Exclusive, a, 0xff) { }
  lemma FullWord() ensures Join(0xff, 0xff, 0xff, 0xff, 0xff, 0xff, 0xff, 0xff) == 0xffff_ffff_ffff_ffff { }

  lemma JoinNot(a0: bv8, a1: bv8, a2: bv8, a3: bv8, a4: bv8, a5: bv8, a6: bv8, a7: bv8, b0: bv8, b1: bv8, b2: bv8,
      b3: bv8, b4: bv8, b5: bv8, b6: bv8, b7: bv8)
    ensures WordOp(Not, Join(a0, a1, a2, a3, a4, a5, a6, a7), Join(b0, b1, b2, b3, b4, b5, b6, b7)) ==
            Join(ByteOp(Not, a0, b0), ByteOp(Not, a1, b1), ByteOp(Not, a2, b2), ByteOp(Not, a3, b3),
              ByteOp(Not, a4, b4), ByteOp(Not, a5, b5), ByteOp(Not, a6, b6), ByteOp(Not, a7, b7))
  {
    hide *;
    NotIsXor(Join(a0, a1, a2, a3, a4, a5, a6, a7), Join(b0, b1, b2, b3, b4, b5, b6, b7));
    FullWord();
    JoinExclusive(a0, a1, a2, a3, a4, a5, a6, a7, 0xff, 0xff, 0xff, 0xff, 0xff, 0xff, 0xff, 0xff);
    ByteNotIsXor(a0, b0);
    ByteNotIsXor(a1, b1);
    ByteNotIsXor(a2, b2);
    ByteNotIsXor(a3, b3);
    ByteNotIsXor(a4, b4);
    ByteNotIsXor(a5, b5);
    ByteNotIsXor(a6, b6);
    ByteNotIsXor(a7, b7);
  }

  /** A word operation is eight byte operations. */
  lemma OpBytes(op: Op, a0: bv8, a1: bv8, a2: bv8, a3: bv8, a4: bv8, a5: bv8, a6: bv8, a7: bv8, b0: bv8, b1: bv8,
      b2: bv8, b3: bv8, b4: bv8, b5: bv8, b6: bv8, b7: bv8)
    ensures WordOp(op, Join(a0, a1, a2, a3, a4, a5, a6, a7), Join(b0, b1, b2, b3, b4, b5, b6, b7)) ==
            Join(ByteOp(op, a0, b0), ByteOp(op, a1, b1), ByteOp(op, a2, b2), ByteOp(op, a3, b3), ByteOp(op, a4, b4),
              ByteOp(op, a5, b5), ByteOp(op, a6, b6), ByteOp(op, a7, b7))
  {
    hide *;
    match op
    case And => JoinAnd(a0, a1, a2, a3, a4, a5, a6, a7, b0, b1, b2, b3, b4, b5, b6, b7);
    case Or => JoinOr(a0, a1, a2, a3, a4, a5, a6, a7, b0, b1, b2, b3, b4, b5, b6, b7);
    case Exclusive => JoinExclusive(a0, a1, a2, a3, a4, a5, a6, a7, b0, b1, b2, b3, b4, b5, b6, b7);
    case Not => JoinNot(a0, a1, a2, a3, a4, a5, a6, a7, b0, b1, b2, b3, b4, b5, b6, b7);
  }

  lemma JoinedBytes(a0: bv8, a1: bv8, a2: bv8, a3: bv8, a4: bv8, a5: bv8, a6: bv8, a7: bv8)
    ensures var w := Join(a0, a1, a2, a3, a4, a5, a6, a7);
      [Byte0(w), Byte1(w), Byte2(w), Byte3(w), Byte4(w), Byte5(w), Byte6(w), Byte7(w)] ==
        [a0, a1, a2, a3, a4, a5, a6, a7]
  {
    hide *;
    JoinByte0(a0, a1, a2, a3, a4, a5, a6, a7);
    JoinByte1(a0, a1, a2, a3, a4, a5, a6, a7);
    JoinByte2(a0, a1, a2, a3, a4, a5, a6, a7);
    JoinByte3(a0, a1, a2, a3, a4, a5, a6, a7);
    JoinByte4(a0, a1, a2, a3, a4, a5, a6, a7);
    JoinByte5(a0, a1, a2, a3, a4, a5, a6, a7);
    JoinByte6(a0, a1, a2, a3, a4, a5, a6, a7);
    JoinByte7(a0, a1, a2, a3, a4, a5, a6, a7);
  }

  lemma WordStep(op: Op, res: Bytes, src: Bytes, pos: nat)
    requires pos + 8 <= |res| && pos + 8 <= |src|
    ensures var r := Store(res, pos, WordOp(op, Word(res, pos), Word(src, pos)));
      forall x | 0 <= x < |res| :: r[x] == if pos <= x < pos + 8 then ByteOp(op, res[x], src[x]) else res[x]
  {
    hide Join;
    hide WordOp;
    hide ByteOp;
    hide Byte0;
    hide Byte1;
    hide Byte2;
    hide Byte3;
    hide Byte4;
    hide Byte5;
    hide Byte6;
    hide Byte7;
    OpBytes(op, res[pos], res[pos + 1], res[pos + 2], res[pos + 3], res[pos + 4], res[pos + 5], res[pos + 6],
      res[pos + 7],
            src[pos], src[pos + 1], src[pos + 2], src[pos + 3], src[pos + 4], src[pos + 5], src[pos + 6], src[pos + 7]);
    JoinedBytes(ByteOp(op, res[pos], src[pos]), ByteOp(op, res[pos + 1], src[pos + 1]),
      ByteOp(op, res[pos + 2], src[pos + 2]),
                ByteOp(op, res[pos + 3], src[pos + 3]), ByteOp(op, res[pos + 4], src[pos + 4]),
                  ByteOp(op, res[pos + 5], src[pos + 5]),
                ByteOp(op, res[pos + 6], src[pos + 6]), ByteOp(op, res[pos + 7], src[pos + 7]));
  }

  /** Four words of the result combined with four words of a source. */
  method BlockStep(op: Op, res: Bytes, src: Bytes, pos: nat) returns (r: Bytes)
    requires pos + 32 <= |res| && pos + 32 <= |src|
    ensures |r| == |res|
    ensures forall x | 0 <= x < |res| :: r[x] == if pos <= x < pos + 32 then ByteOp(op, res[x], src[x]) else res[x]
  {
    hide Word;
    hide Store;
    hide WordOp;
    hide ByteOp;
    r := res;
    for k := 0 to 4
      invariant |r| == |res|
      invariant forall x | 0 <= x < |res| :: r[x] == if pos <= x < pos + 8 * k then ByteOp(op, res[x], src[x])
        else res[x]
    {
      WordStep(op, r, src, pos + 8 * k);
      r := Store(r, pos + 8 * k, WordOp(op, Word(r, pos + 8 * k), Word(src, pos + 8 * k)));
    }
  }

  // ----- the command --------------------------------------------------------------------------

  ghost predicate LongEnough(srcs: seq<Bytes>, n: nat) {
    forall i | 0 <= i < |srcs| :: n <= |srcs[i]|
  }

  /** One block of the fast path: all sources after the first. */
  method Block(op: Op, srcs: seq<Bytes>, res: Bytes, pos: nat) returns (r: Bytes)
    requires srcs != [] && LongEnough(srcs, pos + 32) && pos + 32 <= |res| && (op == Not ==> |srcs| == 1)
    requires forall x | pos <= x < pos + 32 :: res[x] == srcs[0][x]
    ensures |r| == |res|
    ensures forall x | 0 <= x < |res| :: r[x] == if pos <= x < pos + 32 then Folded(op, srcs, |srcs|, x) else res[x]
  {
    hide ByteOp;
    r := res;
    if op == Not {
      r := BlockStep(op, r, srcs[0], pos);
      NotByte();
      return;
    }
    for i := 1 to |srcs|
      invariant |r| == |res|
      invariant forall x | 0 <= x < |res| :: r[x] == if pos <= x < pos + 32 then Folded(op, srcs, i, x) else res[x]
    {
      r := BlockStep(op, r, srcs[i], pos);
    }
  }

  lemma NotByte()
    ensures forall a: bv8, b: bv8 :: ByteOp(Not, a, b) == !a
  {
  }

  /** The fast path: blocks of 32 bytes while every source has that many left. */
  method FastPath(op: Op, srcs: seq<Bytes>, maxlen: nat, minlen: nat) returns (res: Bytes, j: nat)
    requires srcs != [] && LongEnough(srcs, minlen) && minlen <= maxlen && (op == Not ==> |srcs| == 1)
    ensures |res| == maxlen && j <= maxlen
    ensures forall x | 0 <= x < j :: res[x] == Folded(op, srcs, |srcs|, x)
  {
    hide Folded;
    res := srcs[0][..minlen] + seq(maxlen - minlen, _ => 0);
    var left := minlen;
    j := 0;
    while left >= 32
      invariant left + j == minlen && |res| == maxlen
      invariant forall x | 0 <= x < j :: res[x] == Folded(op, srcs, |srcs|, x)
      invariant forall x | j <= x < minlen :: res[x] == srcs[0][x]
      decreases left
    {
      res := Block(op, srcs, res, j);
      j, left := j + 32, left - 32;
    }
  }

  /** The byte-by-byte loop, from byte j on. */
  method SlowPath(op: Op, srcs: seq<Bytes>, start: Bytes, from: nat) returns (res: Bytes)
    requires srcs != [] && from <= |start| && (op == Not ==> |srcs| == 1)
    requires forall x | 0 <= x < from :: start[x] == Folded(op, srcs, |srcs|, x)
    ensures |res| == |start| && forall x | 0 <= x < |res| :: res[x] == Folded(op, srcs, |srcs|, x)
  {
    res := start;
    for j := from to |start|
      invariant |res| == |start| && forall x | 0 <= x < j :: res[x] == Folded(op, srcs, |srcs|, x)
    {
      var output := FoldByte(op, srcs, j);
      res := res[j := output];
    }
  }

  method FoldByte(op: Op, srcs: seq<Bytes>, j: nat) returns (output: bv8)
    requires srcs != [] && (op == Not ==> |srcs| == 1)
    ensures output == Folded(op, srcs, |srcs|, j)
  {
    output := if |srcs[0]| <= j then 0 else srcs[0][j];
    if op == Not {
      output := !output;
    }
    for i := 1 to |srcs|
      invariant output == Folded(op, srcs, i, j)
    {
      var byte := if |srcs[i]| <= j then 0 else srcs[i][j];
      output := ByteOp(op, output, byte);
    }
  }

  function Contents(key: Option<Bytes>): Bytes { if key.None? then [] else key.value }

  function Sources(keys: seq<Option<Bytes>>): (r: seq<Bytes>)
    ensures |r| == |keys| && forall i | 0 <= i < |keys| :: r[i] == Contents(keys[i])
  {
    seq(|keys|, i requires 0 <= i < |keys| => Contents(keys[i]))
  }

  /** The greatest and the least length; a missing key counts as an empty string. */
  method Lengths(keys: seq<Option<Bytes>>) returns (maxlen: nat, minlen: nat)
    requires keys != []
    ensures forall i | 0 <= i < |keys| :: minlen <= |Contents(keys[i])| <= maxlen
    ensures exists i | 0 <= i < |keys| :: |Contents(keys[i])| == maxlen
    ensures exists i | 0 <= i < |keys| :: |Contents(keys[i])| == minlen
  {
    maxlen, minlen := 0, 0;
    for j := 0 to |keys|
      invariant forall i | 0 <= i < j :: minlen <= |Contents(keys[i])| <= maxlen
      invariant j > 0 ==> exists i | 0 <= i < j :: |Contents(keys[i])| == maxlen
      invariant j > 0 ==> exists i | 0 <= i < j :: |Contents(keys[i])| == minlen
      invariant j == 0 ==> maxlen == 0
    {
      if keys[j].None? {
        minlen := 0;
        assert |Contents(keys[j])| == 0;
        continue;
      }
      var len := |keys[j].value|;
      assert Contents(keys[j]) == keys[j].value;
      if len > maxlen {
        maxlen := len;
      }
      if j == 0 || len < minlen {
        minlen := len;
      }
    }
  }

  // ----- bit by bit -----------------------------------------------------------------------------

  /** How many of the strings have bit i, each followed by zeros. */
  function Having(srcs: seq<Bytes>, i: nat): (n: nat)
    ensures n <= |srcs|
  {
    if srcs == [] then 0 else Having(srcs[..|srcs| - 1], i) + One(Bit(srcs[|srcs| - 1], i))
  }

  /** What bit i of the result should be. */
  predicate Wanted(op: Op, srcs: seq<Bytes>, i: nat)
    requires srcs != []
  {
    match op
    case And => forall k | 0 <= k < |srcs| :: Bit(srcs[k], i)
    case Or => exists k | 0 <= k < |srcs| :: Bit(srcs[k], i)
    case Exclusive => Having(srcs, i) % 2 == 1
    case Not => !Bit(srcs[0], i)
  }

  lemma AndBit(a: bv8, b: bv8, r: nat)
    requires r < 8
    ensures ByteBit(a & b, r) <==> ByteBit(a, r) && ByteBit(b, r)
  {
  }

  lemma OrBit(a: bv8, b: bv8, r: nat)
    requires r < 8
    ensures ByteBit(a | b, r) <==> ByteBit(a, r) || ByteBit(b, r)
  {
  }

  lemma NotBit(a: bv8, r: nat)
    requires r < 8
    ensures ByteBit(!a, r) <==> !ByteBit(a, r)
  {
  }

  lemma ExclusiveParts(a: bv8, b: bv8)
    ensures a ^ b == (a | b) & !(a & b)
  {
  }

  lemma ExclusiveBit(a: bv8, b: bv8, r: nat)
    requires r < 8
    ensures ByteBit(a ^ b, r) <==> ByteBit(a, r) != ByteBit(b, r)
  {
    hide ByteBit;
    ExclusiveParts(a, b);
    AndBit(a | b, !(a & b), r);
    OrBit(a, b, r);
    NotBit(a & b, r);
    AndBit(a, b, r);
  }

  lemma ByteOpBit(op: Op, a: bv8, b: bv8, r: nat)
    requires r < 8
    ensures ByteBit(ByteOp(op, a, b), r) <==>
      match op
      case And => ByteBit(a, r) && ByteBit(b, r)
      case Or => ByteBit(a, r) || ByteBit(b, r)
      case Exclusive => ByteBit(a, r) != ByteBit(b, r)
      case Not => !ByteBit(a, r)
  {
    hide ByteBit;
    match op
    case And => AndBit(a, b, r);
    case Or => OrBit(a, b, r);
    case Exclusive => ExclusiveBit(a, b, r);
    case Not => NotBit(a, r);
  }

  lemma {:induction false} FoldedBit(op: Op, srcs: seq<Bytes>, n: nat, i: nat)
    requires 1 <= n <= |srcs| && (op == Not ==> n == 1)
    ensures ByteBit(Folded(op, srcs, n, i / 8), i % 8) <==> Wanted(op, srcs[..n], i)
    decreases n
  {
    hide ByteBit, ByteOp;
    var last := srcs[n - 1];
    AtBit(last, i);
    assert srcs[..n][..n - 1] == srcs[..n - 1] && srcs[..n] == srcs[..n - 1] + [last];
    if n == 1 {
      assert Having(srcs[..0], i) == 0;
      assert srcs[..1][0] == last;
      ByteOpBit(Not, At(last, i / 8), 0, i % 8);
      NotByte();
    } else {
      FoldedBit(op, srcs, n - 1, i);
      ByteOpBit(op, Folded(op, srcs, n - 1, i / 8), At(last, i / 8), i % 8);
      OneMore(op, srcs[..n - 1], last, i);
    }
  }

  lemma OneMore(op: Op, srcs: seq<Bytes>, last: Bytes, i: nat)
    requires srcs != [] && op != Not
    ensures Wanted(op, srcs + [last], i) <==>
      match op
      case And => Wanted(op, srcs, i) && Bit(last, i)
      case Or => Wanted(op, srcs, i) || Bit(last, i)
      case _ => Wanted(op, srcs, i) != Bit(last, i)
  {
    hide Bit;
    var all := srcs + [last];
    assert all[..|all| - 1] == srcs && all[|srcs|] == last;
    assert forall k | 0 <= k < |srcs| :: all[k] == srcs[k];
  }

  lemma AtBit(s: Bytes, i: nat)
    ensures ByteBit(At(s, i / 8), i % 8) <==> Bit(s, i)
  {
  }

  /** BITOP: whichever path is taken, byte j of the result combines byte j of all
      sources, so bit i is set exactly if it is in all of them, in some, in an
      odd number, or not in the only one. */
  method BitOp(op: Op, keys: seq<Option<Bytes>>) returns (reply: Reply)
    requires keys != []
    ensures reply == SyntaxError <==> op == Not && |keys| != 1
    ensures reply.Stored? ==>
      && (forall i | 0 <= i < |keys| :: |Contents(keys[i])| <= |reply.bytes|)
      && (exists i | 0 <= i < |keys| :: |Contents(keys[i])| == |reply.bytes|)
      && (forall x | 0 <= x < |reply.bytes| :: reply.bytes[x] == Folded(op, Sources(keys), |keys|, x))
      && forall i | 0 <= i < 8 * |reply.bytes| :: Bit(reply.bytes, i) <==> Wanted(op, Sources(keys), i)
  {
    if op == Not && |keys| != 1 {
      return SyntaxError;
    }
    hide Folded;
    hide Contents;
    var srcs := Sources(keys);
    var maxlen, minlen := Lengths(keys);
    var res, j := seq(maxlen, _ => 0), 0;
    if minlen >= 32 && |keys| <= 16 {
      res, j := FastPath(op, srcs, maxlen, minlen);
    }
    res := SlowPath(op, srcs, res, j);
    forall i | 0 <= i < 8 * |res|
      ensures Bit(res, i) <==> Wanted(op, srcs, i)
    {
      FoldedBit(op, srcs, |srcs|, i);
      assert srcs[..|srcs|] == srcs;
    }
    return Stored(res);
  }
}
