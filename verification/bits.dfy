/** 64-bit words and their bitwise exclusive or, the operation Zobrist hashing
    is built from (`uint64_t` and `^=` in src/boxworld_base.cpp). */
module Bits {

  /** 2^64. */
  const WordModulus: nat := 0x1_0000_0000_0000_0000

  /** An unsigned 64-bit value. */
  type Word = x: nat | x < WordModulus

  /** Bitwise exclusive or of two naturals, least significant bit first. */
  function Xor(a: nat, b: nat): nat
    decreases a + b
  {
    if a == 0 then b
    else if b == 0 then a
    else 2 * Xor(a / 2, b / 2) + (if a % 2 == b % 2 then 0 else 1)
  }

  function Pow2(k: nat): (p: nat)
    ensures p >= 1
  {
    if k == 0 then 1 else 2 * Pow2(k - 1)
  }

  /** The low bit of an exclusive or is the exclusive or of the low bits, and
      the remaining bits are the exclusive or of the remaining bits. */
  lemma XorBits(a: nat, b: nat)
    ensures Xor(a, b) / 2 == Xor(a / 2, b / 2)
    ensures Xor(a, b) % 2 == (if a % 2 == b % 2 then 0 else 1)
  {
  }

  /** A natural is determined by its low bit and the rest. */
  lemma SameBits(x: nat, y: nat)
    requires x / 2 == y / 2 && x % 2 == y % 2
    ensures x == y
  {
  }

  lemma {:induction false} XorComm(a: nat, b: nat)
    ensures Xor(a, b) == Xor(b, a)
    decreases a + b
  {
    if a != 0 && b != 0 {
      XorBits(a, b);
      XorBits(b, a);
      XorComm(a / 2, b / 2);
      SameBits(Xor(a, b), Xor(b, a));
    }
  }

  lemma {:induction false} XorSelf(a: nat)
    ensures Xor(a, a) == 0
    decreases a
  {
    if a != 0 {
      XorBits(a, a);
      XorSelf(a / 2);
      SameBits(Xor(a, a), 0);
    }
  }

  lemma {:induction false} XorAssoc(a: nat, b: nat, c: nat)
    ensures Xor(Xor(a, b), c) == Xor(a, Xor(b, c))
    decreases a + b + c
  {
    if a != 0 && b != 0 && c != 0 {
      var ab, bc := Xor(a, b), Xor(b, c);
      XorBits(a, b);
      XorBits(b, c);
      XorBits(ab, c);
      XorBits(a, bc);
      XorAssoc(a / 2, b / 2, c / 2);
      SameBits(Xor(ab, c), Xor(a, bc));
    }
  }

  /** The exclusive or of two k-bit numbers is a k-bit number. */
  lemma {:induction false} XorBound(a: nat, b: nat, k: nat)
    requires a < Pow2(k) && b < Pow2(k)
    ensures Xor(a, b) < Pow2(k)
    decreases k
  {
    if a != 0 && b != 0 {
      XorBits(a, b);
      XorBound(a / 2, b / 2, k - 1);
    }
  }

  lemma {:induction false} Pow2Add(a: nat, b: nat)
    ensures Pow2(a + b) == Pow2(a) * Pow2(b)
    decreases a
  {
    if a > 0 {
      Pow2Add(a - 1, b);
    }
  }

  lemma WordModulusIsPow2()
    ensures Pow2(64) == WordModulus
  {
    assert Pow2(2) == 4;
    Pow2Add(2, 2);
    assert Pow2(4) == 0x10;
    Pow2Add(4, 4);
    assert Pow2(8) == 0x100;
    Pow2Add(8, 8);
    assert Pow2(16) == 0x1_0000;
    Pow2Add(16, 16);
    assert Pow2(32) == 0x1_0000_0000;
    Pow2Add(32, 32);
  }

  /** `^` on `uint64_t`. */
  function XorW(a: Word, b: Word): Word {
    WordModulusIsPow2();
    XorBound(a, b, 64);
    Xor(a, b)
  }

  // ---------------------------------------------------------------------------
  // Word-level algebra: each identity a hash update relies on.

  lemma XorWZero(a: Word)
    ensures XorW(a, 0) == a && XorW(0, a) == a
  {
  }

  lemma XorWComm(a: Word, b: Word)
    ensures XorW(a, b) == XorW(b, a)
  {
    XorComm(a, b);
  }

  lemma XorWAssoc(a: Word, b: Word, c: Word)
    ensures XorW(XorW(a, b), c) == XorW(a, XorW(b, c))
  {
    XorAssoc(a, b, c);
  }

  /** XOR-ing the same word twice undoes it. */
  lemma XorWCancel(a: Word, b: Word)
    ensures XorW(XorW(a, b), b) == a
  {
    XorAssoc(a, b, b);
    XorSelf(b);
  }

  /** Two words XOR-ed onto a value can be applied in either order. */
  lemma XorWSwap(x: Word, p: Word, q: Word)
    ensures XorW(XorW(x, p), q) == XorW(XorW(x, q), p)
  {
    XorWAssoc(x, p, q);
    XorWComm(p, q);
    XorWAssoc(x, q, p);
  }

  /** A word XOR-ed on after two others can be moved in front of them. */
  lemma XorWRotate(x: Word, p: Word, q: Word, r: Word)
    ensures XorW(XorW(XorW(x, p), q), r) == XorW(XorW(XorW(x, r), p), q)
  {
    XorWSwap(XorW(x, p), q, r);
    XorWSwap(x, p, r);
  }
}
