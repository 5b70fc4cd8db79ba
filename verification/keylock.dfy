/** Classification of colour cells into bare keys and locks by their left and
    right neighbours (src/boxworld_base.cpp, InitKeyLockIndices). */
module KeyLock {
  import opened Definitions
  import opened Geometry

  /** The cell one step from `idx` in direction `a` exists and holds a colour.
      The source spells this `InBounds && !IsAgent && !IsEmpty`, where IsAgent
      and IsEmpty each repeat the bounds test. */
  predicate ColourNeighbour(rows: nat, cols: nat, b: seq<Element>, idx: nat, a: Action)
    requires 0 < cols && |b| == rows * cols && idx < |b|
  {
    InBounds(rows, cols, idx, a) && IsColour(b[Neighbour(rows, cols, idx, a)])
  }

  /** A colour cell with no colour cell on either side in its row. */
  predicate IsBareKey(rows: nat, cols: nat, b: seq<Element>, idx: nat)
    requires 0 < cols && |b| == rows * cols && idx < |b|
  {
    IsColour(b[idx]) && !ColourNeighbour(rows, cols, b, idx, Left) && !ColourNeighbour(rows, cols, b, idx, Right)
  }

  /** A colour cell whose left neighbour is a colour cell: the lock of a
      key|lock pair, the key to its left being the box contents. */
  predicate IsLock(rows: nat, cols: nat, b: seq<Element>, idx: nat)
    requires 0 < cols && |b| == rows * cols && idx < |b|
  {
    IsColour(b[idx]) && ColourNeighbour(rows, cols, b, idx, Left)
  }

  /** No colour cell has colour cells on both sides: colour cells come alone or
      in horizontal key|lock pairs, as the level generator places them. */
  predicate NoColourTriple(rows: nat, cols: nat, b: seq<Element>)
    requires 0 < cols && |b| == rows * cols
  {
    forall i :: 0 <= i < |b| && IsLock(rows, cols, b, i) ==> !ColourNeighbour(rows, cols, b, i, Right)
  }

  /** The classification loop: one pass over the board filling the two sets. */
  method InitKeyLockIndices(rows: nat, cols: nat, b: seq<Element>) returns (keys: set<nat>, locks: set<nat>)
    requires 0 < cols && |b| == rows * cols
    ensures forall k: nat :: k in keys <==> k < |b| && IsBareKey(rows, cols, b, k)
    ensures forall l: nat :: l in locks <==> l < |b| && IsLock(rows, cols, b, l)
  {
    keys, locks := {}, {};
    var idx := 0;
    while idx < |b|
      invariant idx <= |b|
      invariant forall k: nat :: k in keys <==> k < idx && IsBareKey(rows, cols, b, k)
      invariant forall l: nat :: l in locks <==> l < idx && IsLock(rows, cols, b, l)
    {
      var isColour := b[idx] != Empty && b[idx] != Agent;
      var isLeftColour := ColourNeighbour(rows, cols, b, idx, Left);
      var isRightColour := ColourNeighbour(rows, cols, b, idx, Right);
      var isSingleKey := isColour && !isLeftColour && !isRightColour;
      var isLock := isColour && isLeftColour;
      if isSingleKey {
        keys := keys + {idx};
      }
      if isLock {
        locks := locks + {idx};
      }
      idx := idx + 1;
    }
  }

  /** A cell is never both a bare key and a lock (the source asserts this). */
  lemma KeysAndLocksDisjoint(rows: nat, cols: nat, b: seq<Element>, idx: nat)
    requires 0 < cols && |b| == rows * cols && idx < |b|
    ensures !(IsBareKey(rows, cols, b, idx) && IsLock(rows, cols, b, idx))
  {
  }

  /** A lock is never in column 0, and the key to its left is a colour cell
      that is not itself a bare key; without a colour triple it is not a lock
      either. */
  lemma LockNeighbourhood(rows: nat, cols: nat, b: seq<Element>, l: nat)
    requires 0 < cols && |b| == rows * cols && l < |b|
    requires IsLock(rows, cols, b, l)
    ensures 0 < l && l % cols != 0
    ensures IsColour(b[l - 1])
    ensures !IsBareKey(rows, cols, b, l - 1)
    ensures NoColourTriple(rows, cols, b) ==> !IsLock(rows, cols, b, l - 1)
  {
    InBoundsNoWrap(rows, cols, l, Left);
    var k := l - 1;
    NeighbourRoundTrip(rows, cols, l, Left);
    assert InBounds(rows, cols, k, Right) && Neighbour(rows, cols, k, Right) == l;
    assert ColourNeighbour(rows, cols, b, k, Right);
  }

  // ---------------------------------------------------------------------------
  // Clearing colour cells

  /** `b2` is `b` with the colour cells of `cleared` made non-colour; no other
      cell changes between colour and non-colour. */
  predicate ClearedOnly(b: seq<Element>, b2: seq<Element>, cleared: set<nat>) {
    && |b2| == |b|
    && forall i :: 0 <= i < |b| ==> (IsColour(b2[i]) <==> IsColour(b[i]) && i !in cleared)
  }

  /** A colour cell directly left or right of a cleared cell is cleared too. */
  predicate IsolatedClearing(rows: nat, cols: nat, b: seq<Element>, cleared: set<nat>)
    requires 0 < cols && |b| == rows * cols
  {
    forall j :: j in cleared && j < |b| ==>
      && (ColourNeighbour(rows, cols, b, j, Left) ==> Neighbour(rows, cols, j, Left) in cleared)
      && (ColourNeighbour(rows, cols, b, j, Right) ==> Neighbour(rows, cols, j, Right) in cleared)
  }

  /** A colour cell that survives an isolated clearing sees the same colour
      cells beside it as before. */
  lemma SideUnchanged(rows: nat, cols: nat, b: seq<Element>, b2: seq<Element>, cleared: set<nat>, i: nat, d: Action)
    requires 0 < cols && |b| == rows * cols && i < |b|
    requires ClearedOnly(b, b2, cleared) && IsolatedClearing(rows, cols, b, cleared)
    requires IsColour(b2[i]) && (d == Left || d == Right)
    ensures ColourNeighbour(rows, cols, b2, i, d) == ColourNeighbour(rows, cols, b, i, d)
  {
    if InBounds(rows, cols, i, d) {
      var j := Neighbour(rows, cols, i, d);
      if j in cleared {
        NeighbourRoundTrip(rows, cols, i, d);
        assert Neighbour(rows, cols, j, Opposite(d)) == i;
        assert ColourNeighbour(rows, cols, b, j, Opposite(d));
        assert false;
      }
    }
  }

  /** Clearing colour cells whose colour neighbours in the row are cleared with
      them reclassifies no other cell, and keeps a board free of colour
      triples. */
  lemma ClearingKeepsClassification(rows: nat, cols: nat, b: seq<Element>, b2: seq<Element>, cleared: set<nat>)
    requires 0 < cols && |b| == rows * cols
    requires ClearedOnly(b, b2, cleared) && IsolatedClearing(rows, cols, b, cleared)
    ensures forall i :: 0 <= i < |b| ==>
      (IsBareKey(rows, cols, b2, i) <==> IsBareKey(rows, cols, b, i) && i !in cleared)
    ensures forall i :: 0 <= i < |b| ==>
      (IsLock(rows, cols, b2, i) <==> IsLock(rows, cols, b, i) && i !in cleared)
    ensures NoColourTriple(rows, cols, b) ==> NoColourTriple(rows, cols, b2)
  {
    forall i | 0 <= i < |b| && IsColour(b2[i])
      ensures ColourNeighbour(rows, cols, b2, i, Left) == ColourNeighbour(rows, cols, b, i, Left)
      ensures ColourNeighbour(rows, cols, b2, i, Right) == ColourNeighbour(rows, cols, b, i, Right)
    {
      SideUnchanged(rows, cols, b, b2, cleared, i, Left);
      SideUnchanged(rows, cols, b, b2, cleared, i, Right);
    }
  }
}
