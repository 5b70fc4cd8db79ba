/** The behaviour of one apply_action call, branch by branch, and the
    invariants every call keeps (src/boxworld_base.cpp, apply_action). */
module StepProperties {
  import opened Definitions
  import opened Wrappers
  import opened Geometry
  import opened KeyLock
  import opened States
  import opened Zobrist
  import opened Engine
  import opened EngineProperties

  /** A state with both reward signals cleared: what apply_action starts from. */
  function Cleared(s: State): (r: State)
    ensures r.rewardIndex == 0 && r.rewardColour == 0
    ensures r.board == s.board && r.agentIdx == s.agentIdx && r.inventory == s.inventory
    ensures r.keyIndices == s.keyIndices && r.lockIndices == s.lockIndices && r.hash == s.hash
  {
    s.(rewardIndex := 0, rewardColour := 0)
  }

  // ---------------------------------------------------------------------------
  // The four outcomes

  /** A move off the board, or onto a colour cell that is neither a bare key
      nor a lock whose colour is held, changes nothing but the reward signals. */
  lemma BlockedMove(c: Config, s: State, a: Action)
    requires Valid(c, s) && PickupAllowed(c, s, a)
    requires InBounds(c.rows, c.cols, s.agentIdx, a) ==>
      var t := Target(c, s, a);
      s.board[t] != Empty && t !in s.keyIndices && !(t in s.lockIndices && HasKey(s, t))
    ensures ApplyAction(c, s, a) == Cleared(s)
  {
  }

  /** Onto an Empty cell the agent moves and nothing else changes. */
  lemma StepOntoEmpty(c: Config, s: State, a: Action)
    requires Valid(c, s) && InBounds(c.rows, c.cols, s.agentIdx, a)
    requires s.board[Target(c, s, a)] == Empty
    ensures PickupAllowed(c, s, a)
    ensures var r, t := ApplyAction(c, s, a), Target(c, s, a);
      && r.agentIdx == t
      && r.board == s.board[s.agentIdx := Empty][t := Agent]
      && r.inventory == s.inventory
      && r.keyIndices == s.keyIndices && r.lockIndices == s.lockIndices
      && r.rewardIndex == 0 && r.rewardColour == 0
  {
  }

  /** Onto a bare key with nothing held: the key's colour is taken, the key
      leaves the key set, the agent stands where the key was, and the rewards
      name the key's cell and colour. */
  lemma PickUpKey(c: Config, s: State, a: Action)
    requires Valid(c, s) && InBounds(c.rows, c.cols, s.agentIdx, a)
    requires Target(c, s, a) in s.keyIndices && s.inventory.None?
    ensures PickupAllowed(c, s, a)
    ensures var r, t := ApplyAction(c, s, a), Target(c, s, a);
      && r.agentIdx == t
      && r.board == s.board[s.agentIdx := Empty][t := Agent]
      && r.inventory == Some(s.board[t])
      && r.keyIndices == s.keyIndices - {t} && r.lockIndices == s.lockIndices
      && r.rewardColour == ElementCode(s.board[t]) + 1 && r.rewardIndex == t + 1
  {
    var t := Target(c, s, a);
    assert KeyWellPlaced(c, s, t);
    var r := ApplyAction(c, s, a);
    assert r == CollectKey(c, Cleared(s), t, a);
    assert r.board == s.board[s.agentIdx := Empty][t := Agent];
  }

  /** Onto a lock whose colour is held: the key is spent, the lock and the box
      contents to its left are cleared, the contents' colour is taken, the lock
      leaves the lock set, the agent stands where the lock was, and the
      rewards name the lock's cell and colour. */
  lemma OpenLockStep(c: Config, s: State, a: Action)
    requires Valid(c, s) && InBounds(c.rows, c.cols, s.agentIdx, a)
    requires Target(c, s, a) in s.lockIndices && HasKey(s, Target(c, s, a))
    ensures PickupAllowed(c, s, a)
    ensures 0 < Target(c, s, a)
    ensures var r, t := ApplyAction(c, s, a), Target(c, s, a);
      && r.agentIdx == t
      && r.board == s.board[s.agentIdx := Empty][t - 1 := Empty][t := Agent]
      && r.inventory == Some(s.board[t - 1])
      && r.lockIndices == s.lockIndices - {t} && r.keyIndices == s.keyIndices
      && r.rewardColour == ElementCode(s.board[t]) + 1 && r.rewardIndex == t + 1
  {
    var t := Target(c, s, a);
    assert LockWellPlaced(c, s, t);
    var r := ApplyAction(c, s, a);
    assert r == OpenLock(c, Cleared(s), t, a);
    assert r.board == s.board[s.agentIdx := Empty][t - 1 := Empty][t := Agent];
  }

  // ---------------------------------------------------------------------------
  // The rules as a case table

  /** The game's rules for one move, stated outcome by outcome and without the
      fall-through of the source: `r` is what moving `a` from `s` leads to.
      The hash is left to HashConsistent. */
  predicate FollowsRules(c: Config, s: State, a: Action, r: State)
    requires Valid(c, s)
  {
    if !InBounds(c.rows, c.cols, s.agentIdx, a) then r == Cleared(s)
    else
      var o, t := s.agentIdx, Target(c, s, a);
      if s.board[t] == Empty then
        && r.agentIdx == t && r.board == s.board[o := Empty][t := Agent]
        && r.inventory == s.inventory
        && r.keyIndices == s.keyIndices && r.lockIndices == s.lockIndices
        && r.rewardIndex == 0 && r.rewardColour == 0
      else if t in s.keyIndices then
        && s.inventory.None?
        && r.agentIdx == t && r.board == s.board[o := Empty][t := Agent]
        && r.inventory == Some(s.board[t])
        && r.keyIndices == s.keyIndices - {t} && r.lockIndices == s.lockIndices
        && r.rewardIndex == t + 1 && r.rewardColour == ElementCode(s.board[t]) + 1
      else if t in s.lockIndices && HasKey(s, t) then
        && 0 < t
        && r.agentIdx == t && r.board == s.board[o := Empty][t - 1 := Empty][t := Agent]
        && r.inventory == Some(s.board[t - 1])
        && r.keyIndices == s.keyIndices && r.lockIndices == s.lockIndices - {t}
        && r.rewardIndex == t + 1 && r.rewardColour == ElementCode(s.board[t]) + 1
      else r == Cleared(s)
  }

  /** apply_action, fall-through and all, obeys the rules. */
  lemma ApplyActionFollowsRules(c: Config, s: State, a: Action)
    requires Valid(c, s) && PickupAllowed(c, s, a)
    ensures FollowsRules(c, s, a, ApplyAction(c, s, a))
  {
    if InBounds(c.rows, c.cols, s.agentIdx, a) {
      var t := Target(c, s, a);
      if s.board[t] == Empty {
        StepOntoEmpty(c, s, a);
      } else if t in s.keyIndices {
        PickUpKey(c, s, a);
      } else if t in s.lockIndices && HasKey(s, t) {
        OpenLockStep(c, s, a);
      } else {
        BlockedMove(c, s, a);
      }
    }
  }

  // ---------------------------------------------------------------------------
  // Invariants of the rules

  /** Validity after a plain move, from the move's effects alone. */
  lemma MovedValid(c: Config, s: State, r: State, t: nat)
    requires Valid(c, s) && Shaped(c, r) && t < |s.board| && s.board[t] == Empty
    requires r.agentIdx == t && r.board == s.board[s.agentIdx := Empty][t := Agent]
    requires r.inventory == s.inventory
    requires r.keyIndices == s.keyIndices && r.lockIndices == s.lockIndices
    ensures Valid(c, r)
  {
    forall k | k in r.keyIndices
      ensures KeyWellPlaced(c, r, k)
    {
      assert KeyWellPlaced(c, s, k);
    }
    forall l | l in r.lockIndices
      ensures LockWellPlaced(c, r, l)
    {
      assert LockWellPlaced(c, s, l);
    }
  }

  lemma RulesKeepValid(c: Config, s: State, a: Action, r: State)
    requires Valid(c, s) && FollowsRules(c, s, a, r)
    ensures Valid(c, r)
  {
    if InBounds(c.rows, c.cols, s.agentIdx, a) {
      var t := Target(c, s, a);
      if s.board[t] == Empty {
        MovedValid(c, s, r, t);
      } else if t in s.keyIndices {
        KeyCollectedValid(c, s, r, t);
      } else if t in s.lockIndices && HasKey(s, t) {
        LockOpenedValid(c, s, r, t);
      }
    }
  }

  lemma RulesKeepAgentUnique(c: Config, s: State, a: Action, r: State)
    requires Valid(c, s) && FollowsRules(c, s, a, r)
    requires AgentUnique(s)
    ensures AgentUnique(r)
  {
  }

  lemma RulesShrinkIndexSets(c: Config, s: State, a: Action, r: State)
    requires Valid(c, s) && FollowsRules(c, s, a, r)
    ensures r.keyIndices <= s.keyIndices && r.lockIndices <= s.lockIndices
    ensures forall k :: k in s.keyIndices && k !in r.keyIndices ==>
      InBounds(c.rows, c.cols, s.agentIdx, a) && k == Target(c, s, a) && s.inventory.None?
    ensures forall l :: l in s.lockIndices && l !in r.lockIndices ==>
      InBounds(c.rows, c.cols, s.agentIdx, a) && l == Target(c, s, a) && HasKey(s, l)
  {
  }

  lemma RulesRewardSignals(c: Config, s: State, a: Action, r: State)
    requires Valid(c, s) && FollowsRules(c, s, a, r)
    ensures GetRewardSignal(r, true) == 0 <==> GetRewardSignal(r, false) == 0
    ensures GetRewardSignal(r, false) != 0 <==> r.keyIndices != s.keyIndices || r.lockIndices != s.lockIndices
    ensures GetRewardSignal(r, false) != 0 ==> GetRewardSignal(r, false) == r.agentIdx + 1
  {
    if InBounds(c.rows, c.cols, s.agentIdx, a) {
      var t := Target(c, s, a);
      if s.board[t] != Empty && t in s.keyIndices {
        assert t !in r.keyIndices;
      } else if s.board[t] != Empty && t in s.lockIndices && HasKey(s, t) {
        assert t !in r.lockIndices;
      }
    }
  }

  /** A plain move turns an Agent cell Empty and an Empty cell Agent, so no
      colour cell changes and the classification stays as it was. */
  lemma MovedClassified(c: Config, s: State, r: State, t: nat)
    requires Valid(c, s) && Valid(c, r) && Classified(c, s)
    requires t < |s.board| && s.board[t] == Empty
    requires r.board == s.board[s.agentIdx := Empty][t := Agent]
    requires r.keyIndices == s.keyIndices && r.lockIndices == s.lockIndices
    ensures Classified(c, r)
  {
    ClearingKeepsClassification(c.rows, c.cols, s.board, r.board, {});
  }

  /** Collecting a bare key clears only its cell, whose row neighbours are not
      colour cells, so every other cell keeps its class and the key set loses
      exactly the collected key. */
  lemma KeyCollectedClassified(c: Config, s: State, r: State, t: nat)
    requires Valid(c, s) && Valid(c, r) && Classified(c, s)
    requires t in s.keyIndices
    requires r.board == s.board[s.agentIdx := Empty][t := Agent]
    requires r.keyIndices == s.keyIndices - {t} && r.lockIndices == s.lockIndices
    ensures Classified(c, r)
  {
    var rows, cols, b := c.rows, c.cols, s.board;
    assert IsBareKey(rows, cols, b, t);
    assert !IsLock(rows, cols, b, t);
    ClearingKeepsClassification(rows, cols, b, r.board, {t});
  }

  /** Opening a lock clears the lock and the box contents to its left. With no
      colour triple neither has another colour cell beside it in the row, so
      every other cell keeps its class and the lock set loses exactly the
      opened lock. */
  lemma LockOpenedClassified(c: Config, s: State, r: State, t: nat)
    requires Valid(c, s) && Valid(c, r) && Classified(c, s)
    requires t in s.lockIndices && 0 < t
    requires r.board == s.board[s.agentIdx := Empty][t - 1 := Empty][t := Agent]
    requires r.keyIndices == s.keyIndices && r.lockIndices == s.lockIndices - {t}
    ensures Classified(c, r)
  {
    var rows, cols, b := c.rows, c.cols, s.board;
    assert IsLock(rows, cols, b, t);
    LockNeighbourhood(rows, cols, b, t);
    InBoundsNoWrap(rows, cols, t, Left);
    NeighbourRoundTrip(rows, cols, t, Left);
    assert Neighbour(rows, cols, t - 1, Right) == t;
    assert !ColourNeighbour(rows, cols, b, t - 1, Left);
    assert !IsBareKey(rows, cols, b, t);
    ClearingKeepsClassification(rows, cols, b, r.board, {t - 1, t});
  }

  /** Every rule outcome keeps the index sets equal to the classification of
      the board. */
  lemma RulesKeepClassified(c: Config, s: State, a: Action, r: State)
    requires Valid(c, s) && FollowsRules(c, s, a, r) && Classified(c, s)
    ensures Valid(c, r) && Classified(c, r)
  {
    RulesKeepValid(c, s, a, r);
    if InBounds(c.rows, c.cols, s.agentIdx, a) {
      var t := Target(c, s, a);
      if s.board[t] == Empty {
        MovedClassified(c, s, r, t);
      } else if t in s.keyIndices {
        KeyCollectedClassified(c, s, r, t);
      } else if t in s.lockIndices && HasKey(s, t) {
        LockOpenedClassified(c, s, r, t);
      }
    }
  }

  // ---------------------------------------------------------------------------
  // Invariants of a step

  /** A valid state stays valid. */
  lemma ApplyActionKeepsValid(c: Config, s: State, a: Action)
    requires Valid(c, s) && PickupAllowed(c, s, a)
    ensures Valid(c, ApplyAction(c, s, a))
  {
    ApplyActionFollowsRules(c, s, a);
    RulesKeepValid(c, s, a, ApplyAction(c, s, a));
  }

  /** The key and lock sets never diverge from the board: if they are the
      bare keys and the locks of the board before a step, they are those of
      the board after it, which stays free of colour triples. */
  lemma ApplyActionKeepsClassified(c: Config, s: State, a: Action)
    requires Valid(c, s) && PickupAllowed(c, s, a) && Classified(c, s)
    ensures Valid(c, ApplyAction(c, s, a)) && Classified(c, ApplyAction(c, s, a))
  {
    ApplyActionFollowsRules(c, s, a);
    RulesKeepClassified(c, s, a, ApplyAction(c, s, a));
  }

  lemma StepOntoEmptyKeepsHash(c: Config, s: State, a: Action)
    requires Valid(c, s) && HashConsistent(c, s) && InBounds(c.rows, c.cols, s.agentIdx, a)
    requires s.board[Target(c, s, a)] == Empty
    ensures PickupAllowed(c, s, a) && HashConsistent(c, ApplyAction(c, s, a))
  {
    StepOntoEmpty(c, s, a);
    MoveAgentKeepsHash(c, Cleared(s), a);
  }

  lemma PickUpKeyKeepsHash(c: Config, s: State, a: Action)
    requires Valid(c, s) && HashConsistent(c, s) && InBounds(c.rows, c.cols, s.agentIdx, a)
    requires Target(c, s, a) in s.keyIndices && s.inventory.None?
    ensures PickupAllowed(c, s, a) && HashConsistent(c, ApplyAction(c, s, a))
  {
    var t := Target(c, s, a);
    assert KeyWellPlaced(c, s, t);
    CollectKeyKeepsHash(c, Cleared(s), t, a);
  }

  lemma OpenLockStepKeepsHash(c: Config, s: State, a: Action)
    requires Valid(c, s) && HashConsistent(c, s) && InBounds(c.rows, c.cols, s.agentIdx, a)
    requires Target(c, s, a) in s.lockIndices && HasKey(s, Target(c, s, a))
    ensures PickupAllowed(c, s, a) && HashConsistent(c, ApplyAction(c, s, a))
  {
    var t := Target(c, s, a);
    assert LockWellPlaced(c, s, t);
    OpenLockKeepsHash(c, Cleared(s), t, a);
  }

  /** The incremental hash stays the hash of the board and inventory. */
  lemma ApplyActionKeepsHash(c: Config, s: State, a: Action)
    requires Valid(c, s) && PickupAllowed(c, s, a)
    requires HashConsistent(c, s)
    ensures HashConsistent(c, ApplyAction(c, s, a))
  {
    if InBounds(c.rows, c.cols, s.agentIdx, a) {
      var t := Target(c, s, a);
      if s.board[t] == Empty {
        StepOntoEmptyKeepsHash(c, s, a);
      } else if t in s.keyIndices {
        PickUpKeyKeepsHash(c, s, a);
      } else if t in s.lockIndices && HasKey(s, t) {
        OpenLockStepKeepsHash(c, s, a);
      } else {
        BlockedMove(c, s, a);
      }
    } else {
      BlockedMove(c, s, a);
    }
  }

  /** Exactly one cell holds the agent, before and after. */
  lemma ApplyActionKeepsAgentUnique(c: Config, s: State, a: Action)
    requires Valid(c, s) && PickupAllowed(c, s, a)
    requires AgentUnique(s)
    ensures AgentUnique(ApplyAction(c, s, a))
  {
    ApplyActionFollowsRules(c, s, a);
    RulesKeepAgentUnique(c, s, a, ApplyAction(c, s, a));
  }

  /** No step adds to either index set; a key leaves its set only when the
      agent steps onto it with nothing held, and a lock only when the agent
      steps onto it holding its colour. */
  lemma IndexSetsOnlyShrink(c: Config, s: State, a: Action)
    requires Valid(c, s) && PickupAllowed(c, s, a)
    ensures var r := ApplyAction(c, s, a);
      && r.keyIndices <= s.keyIndices && r.lockIndices <= s.lockIndices
      && (forall k :: k in s.keyIndices && k !in r.keyIndices ==>
            InBounds(c.rows, c.cols, s.agentIdx, a) && k == Target(c, s, a) && s.inventory.None?)
      && (forall l :: l in s.lockIndices && l !in r.lockIndices ==>
            InBounds(c.rows, c.cols, s.agentIdx, a) && l == Target(c, s, a) && HasKey(s, l))
  {
    ApplyActionFollowsRules(c, s, a);
    RulesShrinkIndexSets(c, s, a, ApplyAction(c, s, a));
  }

  /** The two reward signals are zero together, and they are non-zero exactly
      when the step collected a key or opened a lock; then the index signal
      names the cell the agent now stands on. */
  lemma RewardSignals(c: Config, s: State, a: Action)
    requires Valid(c, s) && PickupAllowed(c, s, a)
    ensures var r := ApplyAction(c, s, a);
      && (GetRewardSignal(r, true) == 0 <==> GetRewardSignal(r, false) == 0)
      && (GetRewardSignal(r, false) != 0 <==> r.keyIndices != s.keyIndices || r.lockIndices != s.lockIndices)
      && (GetRewardSignal(r, false) != 0 ==> GetRewardSignal(r, false) == r.agentIdx + 1)
  {
    ApplyActionFollowsRules(c, s, a);
    RulesRewardSignals(c, s, a, ApplyAction(c, s, a));
  }

  /** Once the goal colour is held it stays held, on a level where no lock has
      the goal colour (the goal is only ever box contents). */
  lemma SolvedIsStable(c: Config, s: State, a: Action)
    requires Valid(c, s) && PickupAllowed(c, s, a)
    requires forall l :: l in s.lockIndices ==> s.board[l] != ColourGoal
    requires IsSolution(s)
    ensures IsSolution(ApplyAction(c, s, a))
  {
    ApplyActionFollowsRules(c, s, a);
  }

  /** A step onto an Empty cell followed by the opposite step restores the
      state exactly, hash included, apart from the cleared reward signals. */
  lemma StepThereAndBack(c: Config, s: State, a: Action)
    requires Valid(c, s) && HashConsistent(c, s)
    requires InBounds(c.rows, c.cols, s.agentIdx, a) && s.board[Target(c, s, a)] == Empty
    ensures PickupAllowed(c, s, a)
    ensures var r := ApplyAction(c, s, a);
      Valid(c, r) && PickupAllowed(c, r, Opposite(a)) && ApplyAction(c, r, Opposite(a)) == Cleared(s)
  {
    var o, t := s.agentIdx, Target(c, s, a);
    StepOntoEmpty(c, s, a);
    ApplyActionKeepsValid(c, s, a);
    ApplyActionKeepsHash(c, s, a);
    var r := ApplyAction(c, s, a);
    NeighbourRoundTrip(c.rows, c.cols, o, a);
    assert InBounds(c.rows, c.cols, r.agentIdx, Opposite(a)) && Target(c, r, Opposite(a)) == o;
    StepOntoEmpty(c, r, Opposite(a));
    ApplyActionKeepsHash(c, r, Opposite(a));
    var r2 := ApplyAction(c, r, Opposite(a));
    assert r2.board == s.board;
  }
}
