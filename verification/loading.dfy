/** Loading a level: reset parses the board string, classifies keys and locks,
    draws the Zobrist tables and computes the initial hash
    (src/boxworld_base.cpp, reset). */
module Loading {
  import opened Definitions
  import opened Wrappers
  import opened Bits
  import opened States
  import opened Zobrist
  import opened KeyLock
  import opened BoardParser

  /** The two tables drawn from the generator's output stream `draws`: first
      one entry per element code and cell, code major, then one per holdable
      colour. */
  function Tables(rows: nat, cols: nat, draws: nat -> Word): (c: Config)
    ensures c.rows == rows && c.cols == cols
    ensures |c.zBoard| == NumElements * (rows * cols) && |c.zInv| == NumColours
    ensures forall i :: 0 <= i < |c.zBoard| ==> c.zBoard[i] == draws(i)
    ensures forall i :: 0 <= i < |c.zInv| ==> c.zInv[i] == draws(|c.zBoard| + i)
  {
    var n := NumElements * (rows * cols);
    Config(rows, cols,
           seq(n, i requires 0 <= i => draws(i)),
           seq(NumColours, i requires 0 <= i => draws(n + i)))
  }

  /** A game freshly loaded from a parsed board: the tables of `draws`, the
      parsed board and agent index, nothing held, no reward, and the key and
      lock sets of the classification. */
  ghost predicate LoadedFrom(p: ParsedBoard, draws: nat -> Word, g: Game)
    requires 0 < p.cols && |p.board| == p.rows * p.cols
  {
    && g.config == Tables(p.rows, p.cols, draws)
    && g.state.board == p.board
    && g.state.agentIdx == p.agentIdx
    && g.state.inventory.None?
    && g.state.rewardIndex == 0 && g.state.rewardColour == 0
    && (forall k: nat :: k in g.state.keyIndices <==> k < |p.board| && IsBareKey(p.rows, p.cols, p.board, k))
    && (forall l: nat :: l in g.state.lockIndices <==> l < |p.board| && IsLock(p.rows, p.cols, p.board, l))
  }

  /** reset: a parse failure is reported as is; otherwise the loaded game
      carries a hash equal to the hash of its board, with nothing held. */
  method Reset(boardStr: string, draws: nat -> Word) returns (res: Result<Game, ParseError>)
    ensures ParseBoard(boardStr).Failure? ==> res == Failure(ParseBoard(boardStr).error)
    ensures ParseBoard(boardStr).Success? ==>
      && res.Success?
      && LoadedFrom(ParseBoard(boardStr).value, draws, res.value)
      && HashConsistent(res.value.config, res.value.state)
  {
    var parsed := ParseBoard(boardStr);
    if parsed.Failure? {
      return Failure(parsed.error);
    }
    var p := parsed.value;
    var keys, locks := InitKeyLockIndices(p.rows, p.cols, p.board);
    var c := Tables(p.rows, p.cols, draws);
    var flat := p.rows * p.cols;
    var hash := FreshState.hash;
    var i := 0;
    while i < flat
      invariant i <= flat
      invariant hash == BoardHash(c, p.board, i)
    {
      hash := XorW(hash, Z(c, p.board[i], i));
      i := i + 1;
    }
    XorWZero(hash);
    var s := FreshState.(hash := hash, agentIdx := p.agentIdx, board := p.board,
                         keyIndices := keys, lockIndices := locks);
    return Success(Game(c, s));
  }

  /** A loaded level with an agent and without three colour cells in a row
      satisfies the step invariant. */
  lemma LoadedValid(p: ParsedBoard, draws: nat -> Word, g: Game)
    requires 0 < p.rows && 0 < p.cols && |p.board| == p.rows * p.cols
    requires p.agentIdx == LastIndexOf(p.board, Agent) && Agent in p.board
    requires NoColourTriple(p.rows, p.cols, p.board)
    requires LoadedFrom(p, draws, g)
    ensures Valid(g.config, g.state)
  {
    var c, s := g.config, g.state;
    forall l | l in s.lockIndices
      ensures LockWellPlaced(c, s, l)
    {
      LockNeighbourhood(p.rows, p.cols, p.board, l);
    }
    forall k | k in s.keyIndices
      ensures k !in s.lockIndices
    {
      KeysAndLocksDisjoint(p.rows, p.cols, p.board, k);
    }
  }

  /** A loaded level without three colour cells in a row starts with its key
      and lock sets equal to the classification of its board, which every
      step then keeps (StepProperties.ApplyActionKeepsClassified). */
  lemma LoadedClassified(p: ParsedBoard, draws: nat -> Word, g: Game)
    requires 0 < p.cols && |p.board| == p.rows * p.cols
    requires NoColourTriple(p.rows, p.cols, p.board)
    requires LoadedFrom(p, draws, g)
    ensures |g.state.board| == Flat(g.config) && 0 < g.config.cols
    ensures Classified(g.config, g.state)
  {
  }

  /** A loaded level with exactly one agent cell has it at the agent index. */
  lemma LoadedAgentUnique(p: ParsedBoard, draws: nat -> Word, g: Game)
    requires 0 < p.cols && |p.board| == p.rows * p.cols
    requires p.agentIdx == LastIndexOf(p.board, Agent) && Agent in p.board
    requires forall i, j :: 0 <= i < j < |p.board| && p.board[i] == Agent ==> p.board[j] != Agent
    requires LoadedFrom(p, draws, g)
    ensures AgentUnique(g.state)
  {
  }
}
