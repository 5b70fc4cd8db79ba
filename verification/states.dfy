/** The state of a BoxWorld game: the shared, immutable part (dimensions and
    Zobrist tables) and the per-state part (src/boxworld_base.h, SharedStateInfo
    and LocalState). */
module States {
  import opened Definitions
  import opened Wrappers
  import opened Bits
  import opened KeyLock

  /** What the engine reads of SharedStateInfo once a board is loaded: the
      dimensions, the board table (one entry per element code and cell, code
      major) and the inventory table (one entry per holdable colour). */
  datatype Config = Config(rows: nat, cols: nat, zBoard: seq<Word>, zInv: seq<Word>)

  /** The number of cells, `rows * cols`. */
  function Flat(c: Config): nat {
    c.rows * c.cols
  }

  /** Positive dimensions and tables as large as reset draws them. */
  predicate ConfigOk(c: Config) {
    && 0 < c.rows && 0 < c.cols
    && |c.zBoard| == NumElements * Flat(c)
    && |c.zInv| >= NumColours
  }

  /** LocalState. The two reward signals are unsigned counters; they only ever
      hold a cell index or a colour code plus one. */
  datatype State = State(
    hash: Word,
    rewardIndex: nat,
    rewardColour: nat,
    agentIdx: nat,
    board: seq<Element>,
    inventory: Option<Element>,
    keyIndices: set<nat>,
    lockIndices: set<nat>)

  /** A default-constructed LocalState, which reset starts from. */
  const FreshState: State := State(0, 0, 0, 0, [], None, {}, {})

  /** A loaded game: the shared configuration and the current local state. */
  datatype Game = Game(config: Config, state: State)

  /** The comparison `BoxWorldGameState::operator==`: agent index, inventory and
      board of the local states, rows and cols of the shared ones. Hash, reward
      signals and the index sets take no part. */
  predicate GameEqual(g1: Game, g2: Game) {
    && g1.state.agentIdx == g2.state.agentIdx
    && g1.state.inventory == g2.state.inventory
    && g1.state.board == g2.state.board
    && g1.config.rows == g2.config.rows
    && g1.config.cols == g2.config.cols
  }

  /** What a step needs of a key index: a colour cell inside the board. That
      it is a bare key of the current board is `Classified`. */
  predicate KeyWellPlaced(c: Config, s: State, k: nat)
    requires |s.board| == Flat(c)
  {
    k < Flat(c) && IsColour(s.board[k])
  }

  /** The right half of a key|lock pair: a colour cell whose left neighbour in
      the same row is a colour cell that belongs to neither index set. */
  predicate LockWellPlaced(c: Config, s: State, l: nat)
    requires |s.board| == Flat(c) && 0 < c.cols
  {
    && 0 < l < Flat(c)
    && l % c.cols != 0
    && IsColour(s.board[l])
    && IsColour(s.board[l - 1])
    && l - 1 !in s.keyIndices
    && l - 1 !in s.lockIndices
  }

  /** The invariant every state of a well-formed level satisfies: the board fits
      the configuration, the agent stands on its own index, a held item is a
      colour, and the index sets point at bare keys and at locks with their
      contents beside them. */
  predicate Valid(c: Config, s: State) {
    && ConfigOk(c)
    && |s.board| == Flat(c)
    && s.agentIdx < Flat(c)
    && s.board[s.agentIdx] == Agent
    && (s.inventory.Some? ==> IsColour(s.inventory.value))
    && (forall k :: k in s.keyIndices ==> KeyWellPlaced(c, s, k))
    && (forall l :: l in s.lockIndices ==> LockWellPlaced(c, s, l))
    && s.keyIndices !! s.lockIndices
  }

  /** The index sets are exactly the classification of the current board: the
      key set holds the bare keys and the lock set the locks, on a board with
      no three colour cells side by side. */
  ghost predicate Classified(c: Config, s: State)
    requires 0 < c.cols && |s.board| == Flat(c)
  {
    && NoColourTriple(c.rows, c.cols, s.board)
    && (forall k: nat :: k in s.keyIndices <==> k < |s.board| && IsBareKey(c.rows, c.cols, s.board, k))
    && (forall l: nat :: l in s.lockIndices <==> l < |s.board| && IsLock(c.rows, c.cols, s.board, l))
  }

  /** Exactly one cell holds the agent, the one at the agent index. */
  predicate AgentUnique(s: State) {
    && s.agentIdx < |s.board|
    && forall i :: 0 <= i < |s.board| ==> (s.board[i] == Agent <==> i == s.agentIdx)
  }
}
