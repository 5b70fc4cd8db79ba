/** Zobrist hashing of a state: every cell contributes the table entry of the
    element it holds, Empty included, and a held item contributes its inventory
    entry (src/boxworld_base.cpp, reset and the mutators). */
module Zobrist {
  import opened Definitions
  import opened Wrappers
  import opened Bits
  import opened States
  import Arith

  /** The board-table entry of element `e` at cell `i`, found at
      `code(e) * rows * cols + i`. */
  function Z(c: Config, e: Element, i: nat): Word
    requires ConfigOk(c) && i < Flat(c)
  {
    Arith.FlatBound(ElementCode(e), NumElements, i, Flat(c));
    c.zBoard[ElementCode(e) * Flat(c) + i]
  }

  /** XOR of the entries of the first `n` cells of `b`, in cell order. */
  function BoardHash(c: Config, b: seq<Element>, n: nat): Word
    requires ConfigOk(c) && |b| == Flat(c) && n <= |b|
  {
    if n == 0 then 0 else XorW(BoardHash(c, b, n - 1), Z(c, b[n - 1], n - 1))
  }

  /** The inventory entry of a held colour; nothing held contributes nothing. */
  function InventoryHash(c: Config, inv: Option<Element>): Word
    requires ConfigOk(c) && (inv.Some? ==> IsColour(inv.value))
  {
    match inv
    case None => 0
    case Some(e) =>
      ElementCodeRoundTrip(e);
      c.zInv[ElementCode(e)]
  }

  /** The hash a board and an inventory should carry. */
  function FullHash(c: Config, b: seq<Element>, inv: Option<Element>): Word
    requires ConfigOk(c) && |b| == Flat(c) && (inv.Some? ==> IsColour(inv.value))
  {
    XorW(BoardHash(c, b, |b|), InventoryHash(c, inv))
  }

  /** The stored hash is the hash of the stored board and inventory. */
  predicate HashConsistent(c: Config, s: State) {
    && ConfigOk(c)
    && |s.board| == Flat(c)
    && (s.inventory.Some? ==> IsColour(s.inventory.value))
    && s.hash == FullHash(c, s.board, s.inventory)
  }

  /** Changing cells at or beyond `n` leaves the hash of the first `n` cells alone. */
  lemma {:induction false} BoardHashPrefixFrame(c: Config, b: seq<Element>, i: nat, e: Element, n: nat)
    requires ConfigOk(c) && |b| == Flat(c) && n <= i < |b|
    ensures BoardHash(c, b[i := e], n) == BoardHash(c, b, n)
    decreases n
  {
    if n > 0 {
      BoardHashPrefixFrame(c, b, i, e, n - 1);
      assert b[i := e][n - 1] == b[n - 1];
    }
  }

  /** Rewriting cell `i` XORs its old entry out of the hash and the new one in:
      the update rule every mutator follows. */
  lemma {:induction false} BoardHashUpdate(c: Config, b: seq<Element>, i: nat, e: Element, n: nat)
    requires ConfigOk(c) && |b| == Flat(c) && i < n <= |b|
    ensures BoardHash(c, b[i := e], n) == XorW(XorW(BoardHash(c, b, n), Z(c, b[i], i)), Z(c, e, i))
    decreases n
  {
    var b' := b[i := e];
    var m := n - 1;
    var zOld, zNew := Z(c, b[i], i), Z(c, e, i);
    assert b'[m] == if m == i then e else b[m];
    if m == i {
      BoardHashPrefixFrame(c, b, i, e, m);
      XorWCancel(BoardHash(c, b, m), zOld);
    } else {
      BoardHashUpdate(c, b, i, e, m);
      XorWRotate(BoardHash(c, b, m), zOld, zNew, Z(c, b[m], m));
    }
  }

  /** The whole-board form of the update rule. */
  lemma CellUpdate(c: Config, b: seq<Element>, i: nat, e: Element)
    requires ConfigOk(c) && |b| == Flat(c) && i < |b|
    ensures BoardHash(c, b[i := e], |b|) == XorW(XorW(BoardHash(c, b, |b|), Z(c, b[i], i)), Z(c, e, i))
  {
    var n := |b|;
    BoardHashUpdate(c, b, i, e, n);
  }

  /** Games that compare equal and share a configuration carry equal hashes
      when both are consistent: the hash is a function of exactly what
      operator== compares. */
  lemma EqualGamesEqualHashes(g1: Game, g2: Game)
    requires GameEqual(g1, g2) && g1.config == g2.config
    requires HashConsistent(g1.config, g1.state) && HashConsistent(g2.config, g2.state)
    ensures g1.state.hash == g2.state.hash
  {
  }
}
