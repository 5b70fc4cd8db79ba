/** The transition engine: the mutators that keep the hash up to date and the
    move function built from them (src/boxworld_base.cpp, apply_action,
    MoveAgent, AddToInventory, RemoveFromInventory, RemoveLock, HasKey,
    is_solution, legal_actions, get_reward_signal). */
module Engine {
  import opened Definitions
  import opened Wrappers
  import opened Bits
  import opened Geometry
  import opened States
  import opened Zobrist

  // ---------------------------------------------------------------------------
  // Mutators

  /** The board shape the mutators index into. */
  predicate Shaped(c: Config, s: State) {
    ConfigOk(c) && |s.board| == Flat(c) && s.agentIdx < Flat(c)
  }

  /** The cell the agent steps onto. */
  function Target(c: Config, s: State, a: Action): (t: nat)
    requires Shaped(c, s) && InBounds(c.rows, c.cols, s.agentIdx, a)
    ensures t < Flat(c) && t != s.agentIdx
  {
    Neighbour(c.rows, c.cols, s.agentIdx, a)
  }

  /** MoveAgent: the agent cell becomes Empty and the target cell holds the
      agent; the hash drops (Agent, old) and (Empty, new) and gains
      (Agent, new) and (Empty, old). */
  function MoveAgent(c: Config, s: State, a: Action): (r: State)
    requires Shaped(c, s) && InBounds(c.rows, c.cols, s.agentIdx, a)
    ensures Shaped(c, r) && r.agentIdx == Target(c, s, a)
    ensures r.board[r.agentIdx] == Agent && r.board[s.agentIdx] == Empty
    ensures forall i :: 0 <= i < |s.board| && i != s.agentIdx && i != r.agentIdx ==> r.board[i] == s.board[i]
    ensures r.inventory == s.inventory && r.keyIndices == s.keyIndices && r.lockIndices == s.lockIndices
    ensures r.rewardIndex == s.rewardIndex && r.rewardColour == s.rewardColour
  {
    var idxOld := s.agentIdx;
    var idxNew := Target(c, s, a);
    var h := XorW(XorW(s.hash, Z(c, Agent, idxOld)), Z(c, Empty, idxNew));
    s.(agentIdx := idxNew,
       board := s.board[idxOld := Empty][idxNew := Agent],
       hash := XorW(XorW(h, Z(c, Agent, idxNew)), Z(c, Empty, idxOld)))
  }

  /** AddToInventory: the item at `i` moves into the (empty) inventory and the
      cell becomes Empty. The source asserts the inventory is empty; the item
      must be a colour for the inventory table to have an entry for it. */
  function AddToInventory(c: Config, s: State, i: nat): (r: State)
    requires ConfigOk(c) && |s.board| == Flat(c) && i < Flat(c)
    requires s.inventory.None? && IsColour(s.board[i])
    ensures |r.board| == |s.board| && r.inventory == Some(s.board[i]) && r.board[i] == Empty
    ensures forall j :: 0 <= j < |s.board| && j != i ==> r.board[j] == s.board[j]
    ensures r.agentIdx == s.agentIdx && r.keyIndices == s.keyIndices && r.lockIndices == s.lockIndices
    ensures r.rewardIndex == s.rewardIndex && r.rewardColour == s.rewardColour
  {
    var el := s.board[i];
    ElementCodeRoundTrip(el);
    var h := XorW(XorW(s.hash, Z(c, el, i)), c.zInv[ElementCode(el)]);
    s.(inventory := Some(el),
       board := s.board[i := Empty],
       hash := XorW(h, Z(c, Empty, i)))
  }

  /** RemoveFromInventory: the held colour is dropped and its entry XOR-ed out. */
  function RemoveFromInventory(c: Config, s: State): (r: State)
    requires ConfigOk(c) && s.inventory.Some? && IsColour(s.inventory.value)
    ensures r.inventory.None?
    ensures r.board == s.board && r.agentIdx == s.agentIdx
    ensures r.keyIndices == s.keyIndices && r.lockIndices == s.lockIndices
    ensures r.rewardIndex == s.rewardIndex && r.rewardColour == s.rewardColour
  {
    ElementCodeRoundTrip(s.inventory.value);
    s.(hash := XorW(s.hash, c.zInv[ElementCode(s.inventory.value)]), inventory := None)
  }

  /** RemoveLock: the cell at `i` becomes Empty. */
  function RemoveLock(c: Config, s: State, i: nat): (r: State)
    requires ConfigOk(c) && |s.board| == Flat(c) && i < Flat(c)
    ensures |r.board| == |s.board| && r.board[i] == Empty
    ensures forall j :: 0 <= j < |s.board| && j != i ==> r.board[j] == s.board[j]
    ensures r.inventory == s.inventory && r.agentIdx == s.agentIdx
    ensures r.keyIndices == s.keyIndices && r.lockIndices == s.lockIndices
    ensures r.rewardIndex == s.rewardIndex && r.rewardColour == s.rewardColour
  {
    s.(board := s.board[i := Empty],
       hash := XorW(XorW(s.hash, Z(c, s.board[i], i)), Z(c, Empty, i)))
  }

  /** HasKey: the held item is the colour of the cell at `i` (for a lock, the
      lock's own colour). */
  predicate HasKey(s: State, i: nat)
    requires i < |s.board|
  {
    s.inventory == Some(s.board[i])
  }

  // ---------------------------------------------------------------------------
  // The two rewarding branches of apply_action

  /** The key branch: the bare key at the target goes into the inventory, the
      agent steps onto its cell, and both reward signals are set. */
  function CollectKey(c: Config, s: State, t: nat, a: Action): (r: State)
    requires Valid(c, s) && InBounds(c.rows, c.cols, s.agentIdx, a)
    requires t == Target(c, s, a) && t in s.keyIndices && s.inventory.None?
    ensures Shaped(c, r)
    ensures r.agentIdx == t && r.board[t] == Agent && r.board[s.agentIdx] == Empty
    ensures forall i :: 0 <= i < |s.board| && i != s.agentIdx && i != t ==> r.board[i] == s.board[i]
    ensures r.inventory == Some(s.board[t])
    ensures r.keyIndices == s.keyIndices - {t} && r.lockIndices == s.lockIndices
    ensures r.rewardColour == ElementCode(s.board[t]) + 1 && r.rewardIndex == t + 1
  {
    var s1 := s.(rewardColour := ElementCode(s.board[t]) + 1, keyIndices := s.keyIndices - {t});
    var s2 := AddToInventory(c, s1, t);
    var s3 := MoveAgent(c, s2, a);
    s3.(rewardIndex := s3.agentIdx + 1)
  }

  /** The cell holding a lock's contents, to its left. */
  function ContentsOf(c: Config, s: State, l: nat): (k: nat)
    requires Valid(c, s) && l in s.lockIndices
    ensures k == l - 1 && k < Flat(c) && IsColour(s.board[k])
  {
    InBoundsNoWrap(c.rows, c.cols, l, Left);
    Neighbour(c.rows, c.cols, l, Left)
  }

  /** The lock branch: the held key is consumed, the lock cell and the cell to
      its left are cleared, the colour that was to its left is now held, the
      agent steps onto the lock cell, and both reward signals are set. */
  function OpenLock(c: Config, s: State, t: nat, a: Action): (r: State)
    requires Valid(c, s) && InBounds(c.rows, c.cols, s.agentIdx, a)
    requires t == Target(c, s, a) && t in s.lockIndices && HasKey(s, t)
    ensures Shaped(c, r)
    ensures r.agentIdx == t && r.board[t] == Agent && r.board[s.agentIdx] == Empty && r.board[t - 1] == Empty
    ensures forall i :: 0 <= i < |s.board| && i != s.agentIdx && i != t && i != t - 1 ==> r.board[i] == s.board[i]
    ensures r.inventory == Some(s.board[t - 1])
    ensures r.lockIndices == s.lockIndices - {t} && r.keyIndices == s.keyIndices
    ensures r.rewardColour == ElementCode(s.board[t]) + 1 && r.rewardIndex == t + 1
  {
    var s1 := s.(lockIndices := s.lockIndices - {t});
    var s2 := s1.(rewardColour := ElementCode(s1.board[t]) + 1);
    var s3 := RemoveFromInventory(c, s2);
    var s4 := RemoveLock(c, s3, t);
    var k := ContentsOf(c, s, t);
    var s5 := AddToInventory(c, s4, k);
    var s6 := MoveAgent(c, s5, a);
    s6.(rewardIndex := s6.agentIdx + 1)
  }

  // ---------------------------------------------------------------------------
  // apply_action

  /** AddToInventory's assertion, lifted to apply_action: stepping onto a bare
      key needs an empty inventory. */
  predicate PickupAllowed(c: Config, s: State, a: Action)
    requires Shaped(c, s)
  {
    InBounds(c.rows, c.cols, s.agentIdx, a) && Target(c, s, a) in s.keyIndices ==> s.inventory.None?
  }

  /** apply_action. Both reward signals are cleared; an off-board move stops
      there. Onto an Empty cell the agent moves, and the key and lock tests
      then still run against the target index computed before the move (they
      find nothing, since an Empty cell is in neither set). A bare key is
      collected; a lock whose colour is held is opened. */
  function ApplyAction(c: Config, s: State, a: Action): (r: State)
    requires Valid(c, s) && PickupAllowed(c, s, a)
    ensures Shaped(c, r)
    ensures r.keyIndices <= s.keyIndices && r.lockIndices <= s.lockIndices
    ensures r.rewardIndex == 0 || r.rewardIndex == r.agentIdx + 1
  {
    var s0 := s.(rewardColour := 0, rewardIndex := 0);
    if !InBounds(c.rows, c.cols, s.agentIdx, a) then s0
    else
      var t := Target(c, s0, a);
      var s1 := if s0.board[t] == Empty then MoveAgent(c, s0, a) else s0;
      var s2 := if t in s1.keyIndices then CollectKey(c, s1, t, a) else s1;
      if t in s2.lockIndices && HasKey(s2, t) then OpenLock(c, s2, t, a) else s2
  }

  /** is_solution: the goal colour is held. */
  predicate IsSolution(s: State) {
    s.inventory == Some(ColourGoal)
  }

  /** legal_actions: every action, whatever the state. */
  function LegalActions(): (acts: seq<Action>)
    ensures |acts| == NumActions
    ensures forall a: Action :: acts[ActionCode(a)] == a
    ensures forall i :: 0 <= i < |acts| ==> ActionCode(acts[i]) == i
  {
    [Up, Right, Down, Left]
  }

  /** get_reward_signal: the colour signal or the index signal of the last move. */
  function GetRewardSignal(s: State, useColour: bool): nat {
    if useColour then s.rewardColour else s.rewardIndex
  }
}
