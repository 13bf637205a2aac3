/** 64-bit words.  The operators are functions here, so that proofs by induction
    can leave them abstract. */
module Word64 {
  function Xor(x: bv64, y: bv64): bv64 { x ^ y }

  function Left(x: bv64): bv64 { x << 1 }

  function Right(x: bv64): bv64 { x >> 1 }

  function Left7(x: bv64): bv64 { x << 7 }

  function Right7(x: bv64): bv64 { x >> 7 }

  function LowBit(x: bv64): bv64 { x & 1 }

  function ToTop(x: bv64): bv64 { x << 63 }

  function TopBit(x: bv64): bv64 { x >> 63 }

  function Left8(x: bv64): bv64 { x << 8 }

  function Right8(x: bv64): bv64 { x >> 8 }

  function Low8(x: bv64): bv64 { x & 0xff }

  function Wide(b: bv8): bv64 { b as bv64 }

  /** Eight bytes as a word, the first one lowest. */
  function Join(b0: bv8, b1: bv8, b2: bv8, b3: bv8, b4: bv8, b5: bv8, b6: bv8, b7: bv8): bv64 {
    Wide(b0) | (Wide(b1) << 8) | (Wide(b2) << 16) | (Wide(b3) << 24) |
    (Wide(b4) << 32) | (Wide(b5) << 40) | (Wide(b6) << 48) | (Wide(b7) << 56)
  }

  lemma LeftXor(x: bv64, y: bv64)
    ensures Left(Xor(x, y)) == Xor(Left(x), Left(y))
  {
  }

  lemma RightXor(x: bv64, y: bv64)
    ensures Right(Xor(x, y)) == Xor(Right(x), Right(y))
  {
  }

  lemma XorSwap(x: bv64, y: bv64, z: bv64)
    ensures Xor(x, Xor(y, z)) == Xor(Xor(x, z), y)
  {
    hide Xor;
    XorOf(y, z);
    XorOf(x, y ^ z);
    XorOf(x, z);
    XorOf(x ^ z, y);
    XorSwapWords(x, y, z);
  }

  lemma XorOf(x: bv64, y: bv64)
    ensures Xor(x, y) == x ^ y
  {
  }

  lemma XorSwapWords(x: bv64, y: bv64, z: bv64)
    ensures x ^ (y ^ z) == (x ^ z) ^ y
  {
  }

  lemma XorZero(x: bv64, y: bv64)
    ensures Xor(x, y) == Xor(y, x) && Xor(0, x) == x && Xor(x, 0) == x && Xor(x, x) == 0
  {
  }

  lemma XorTurn(x: bv64, y: bv64, z: bv64)
    ensures Xor(Xor(x, y), z) == Xor(Xor(x, z), y)
  {
    hide Xor;
    XorSwap(x, y, z);
    XorSwap(x, z, y);
    XorZero(y, z);
  }

  lemma XorAssoc(x: bv64, y: bv64, z: bv64)
    ensures Xor(Xor(x, y), z) == Xor(x, Xor(y, z))
  {
    hide Xor;
    XorSwap(x, y, z);
    XorTurn(x, y, z);
  }

  function Shl(x: bv64, n: nat): bv64
    decreases n
  {
    if n == 0 then x else Shl(Left(x), n - 1)
  }

  function Shr(x: bv64, n: nat): bv64
    decreases n
  {
    if n == 0 then x else Shr(Right(x), n - 1)
  }

  lemma {:induction false} ShlXor(x: bv64, y: bv64, n: nat)
    ensures Shl(Xor(x, y), n) == Xor(Shl(x, n), Shl(y, n))
    decreases n
  {
    hide Left;
    hide Xor;
    if n > 0 {
      LeftXor(x, y);
      ShlXor(Left(x), Left(y), n - 1);
    }
  }

  lemma {:induction false} ShrXor(x: bv64, y: bv64, n: nat)
    ensures Shr(Xor(x, y), n) == Xor(Shr(x, n), Shr(y, n))
    decreases n
  {
    hide Right;
    hide Xor;
    if n > 0 {
      RightXor(x, y);
      ShrXor(Right(x), Right(y), n - 1);
    }
  }

  lemma {:induction false} ShlLast(x: bv64, n: nat)
    ensures Shl(x, n + 1) == Left(Shl(x, n))
    decreases n
  {
    hide Left;
    if n > 0 {
      ShlLast(Left(x), n - 1);
    } else {
      assert Shl(Left(x), 0) == Left(x);
    }
  }

  lemma {:induction false} ShrLast(x: bv64, n: nat)
    ensures Shr(x, n + 1) == Right(Shr(x, n))
    decreases n
  {
    hide Right;
    if n > 0 {
      ShrLast(Right(x), n - 1);
    } else {
      assert Shr(Right(x), 0) == Right(x);
    }
  }

  lemma ShlNone(x: bv64)
    ensures Shl(x, 0) == x
  {
  }

  lemma SevenRights(x: bv64)
    ensures Right(Right(Right(Right(Right(Right(Right(x))))))) == Right7(x)
  {
  }

  lemma Shr7(x: bv64, n: nat)
    ensures Shr(x, n + 7) == Shr(Right7(x), n)
  {
    hide Right;
    hide Right7;
    SevenRights(x);
    var x2 := Right(Right(x));
    var x4 := Right(Right(x2));
    var x6 := Right(Right(x4));
    assert Shr(x, n + 7) == Shr(Right(x), n + 6) == Shr(x2, n + 5);
    assert Shr(x2, n + 5) == Shr(Right(x2), n + 4) == Shr(x4, n + 3);
    assert Shr(x4, n + 3) == Shr(Right(x4), n + 2) == Shr(x6, n + 1);
    assert Shr(x6, n + 1) == Shr(Right(x6), n);
  }

  lemma ShrOne(x: bv64)
    ensures Shr(x, 1) == Right(x)
  {
    hide Right;
    assert Shr(Right(x), 0) == Right(x);
  }

  lemma AllGone(x: bv64)
    ensures Right(Right7(Right7(Right7(Right7(Right7(Right7(Right7(Right7(Right7(x)))))))))) == 0
  {
  }

  lemma Shr64(x: bv64)
    ensures Shr(x, 64) == 0
  {
    hide *;
    Shr7(x, 57);
    var a := Right7(x);
    Shr7(a, 50);
    var b := Right7(a);
    Shr7(b, 43);
    var c := Right7(b);
    Shr7(c, 36);
    var d := Right7(c);
    Shr7(d, 29);
    var e := Right7(d);
    Shr7(e, 22);
    var f := Right7(e);
    Shr7(f, 15);
    var g := Right7(f);
    Shr7(g, 8);
    var h := Right7(g);
    Shr7(h, 1);
    AllGone(x);
    ShrOne(Right7(h));
  }
}
