/** The observation encoding: channel-major planes of rows*cols cells, one
    board channel per non-Empty element and one inventory channel per holdable
    colour (src/boxworld_base.cpp, get_observation, get_observation_environment,
    observation_shape, observation_shape_environment). Values are 0 and 1. */
module Observation {
  import opened Definitions
  import opened Wrappers
  import opened States
  import opened Arith

  /** Board channels 0..13: every element but Empty. */
  const BoardChannels: nat := NumElements - 1

  /** The value of channel `ch` at cell `i`: a board channel is 1 where the
      cell holds that element; an inventory channel is 1 everywhere when that
      colour is held. */
  function Plane(s: State, ch: nat, i: nat): (v: nat)
    requires i < |s.board|
    ensures v <= 1
  {
    if ch < BoardChannels then
      if s.board[i] != Empty && ElementCode(s.board[i]) == ch then 1 else 0
    else
      if s.inventory.Some? && ElementCode(s.inventory.value) + BoardChannels == ch then 1 else 0
  }

  /** `channels` planes of `flat` cells, channel major. */
  function Encoded(s: State, channels: nat, flat: nat): (obs: seq<nat>)
    requires |s.board| == flat
    ensures |obs| == channels * flat
  {
    seq(channels * flat, k requires 0 <= k < channels * flat => PlaneAt(s, channels, flat, k))
  }

  /** Entry `k` of `channels` planes of `flat` cells: channel k / flat, cell k % flat. */
  function PlaneAt(s: State, channels: nat, flat: nat, k: nat): nat
    requires |s.board| == flat && k < channels * flat
  {
    FactorPositive(k, channels, flat);
    Plane(s, k / flat, k % flat)
  }

  // ---------------------------------------------------------------------------
  // The encoders

  /** Channel `ch`, cell `j` of a vector of `channels` planes of `flat` cells. */
  function Get(obs: seq<nat>, channels: nat, flat: nat, ch: nat, j: nat): nat
    requires |obs| == channels * flat && ch < channels && j < flat
  {
    FlatBound(ch, channels, j, flat);
    obs[ch * flat + j]
  }

  /** A vector whose every (channel, cell) entry is the encoding's. */
  lemma EncodedFromCells(s: State, obs: seq<nat>, channels: nat, flat: nat)
    requires |s.board| == flat && |obs| == channels * flat
    requires forall ch, j :: 0 <= ch < channels && 0 <= j < flat ==> Get(obs, channels, flat, ch, j) == Plane(s, ch, j)
    ensures obs == Encoded(s, channels, flat)
  {
    var enc := Encoded(s, channels, flat);
    forall k | 0 <= k < |obs|
      ensures obs[k] == enc[k]
    {
      FlatOfDivMod(k, flat);
      var ch, j := k / flat, k % flat;
      if ch >= channels {
        MulMonotone(channels, ch, flat);
      }
      assert Get(obs, channels, flat, ch, j) == Plane(s, ch, j);
    }
  }

  /** The board part of a vector of `channels` planes, the rest still zero,
      after the first `upto` cells have been written. */
  ghost predicate BoardFilled(s: State, obs: seq<nat>, channels: nat, flat: nat, upto: nat)
    requires |s.board| == flat && |obs| == channels * flat
  {
    forall ch, j :: 0 <= ch < channels && 0 <= j < flat ==>
      Get(obs, channels, flat, ch, j) == (if j < upto && ch < BoardChannels then Plane(s, ch, j) else 0)
  }

  /** The loop both encoders share: a zero vector, then a 1 at
      `code * flat + i` for every non-Empty cell `i`. */
  method FillBoard(s: State, channels: nat, flat: nat) returns (obs: seq<nat>)
    requires BoardChannels <= channels && |s.board| == flat
    ensures |obs| == channels * flat
    ensures BoardFilled(s, obs, channels, flat, flat)
  {
    obs := seq(channels * flat, _ => 0);
    forall ch, j | 0 <= ch < channels && 0 <= j < flat
      ensures Get(obs, channels, flat, ch, j) == 0
    {
      FlatBound(ch, channels, j, flat);
    }
    var i := 0;
    while i < flat
      invariant i <= flat && |obs| == channels * flat
      invariant BoardFilled(s, obs, channels, flat, i)
    {
      var el := s.board[i];
      if el != Empty {
        var code := ElementCode(el);
        FlatBound(code, channels, i, flat);
        var idx := code * flat + i;
        var prev := obs;
        obs := obs[idx := 1];
        forall ch, j | 0 <= ch < channels && 0 <= j < flat
          ensures Get(obs, channels, flat, ch, j) == (if j < i + 1 && ch < BoardChannels then Plane(s, ch, j) else 0)
        {
          FlatBound(ch, channels, j, flat);
          if ch * flat + j == idx {
            FlatInjective(ch, j, code, i, flat);
          } else {
            assert Get(obs, channels, flat, ch, j) == Get(prev, channels, flat, ch, j);
          }
        }
      } else {
        forall ch, j | 0 <= ch < channels && 0 <= j < flat
          ensures Get(obs, channels, flat, ch, j) == (if j < i + 1 && ch < BoardChannels then Plane(s, ch, j) else 0)
        {
        }
      }
      i := i + 1;
    }
  }

  /** get_observation: the board planes, then the held colour's plane filled
      with ones. */
  method GetObservation(c: Config, s: State) returns (obs: seq<nat>)
    requires |s.board| == Flat(c)
    requires s.inventory.Some? ==> IsColour(s.inventory.value)
    ensures obs == Encoded(s, NumChannels, Flat(c))
  {
    var flat := Flat(c);
    obs := FillBoard(s, NumChannels, flat);
    if s.inventory.Some? {
      ElementCodeRoundTrip(s.inventory.value);
      var held := ElementCode(s.inventory.value) + BoardChannels;
      var j := 0;
      while j < flat
        invariant j <= flat && |obs| == NumChannels * flat
        invariant forall ch, i :: 0 <= ch < NumChannels && 0 <= i < flat ==>
          Get(obs, NumChannels, flat, ch, i) ==
            (if ch < BoardChannels then Plane(s, ch, i) else if ch == held && i < j then 1 else 0)
      {
        FlatBound(held, NumChannels, j, flat);
        var idx := held * flat + j;
        var prev := obs;
        obs := obs[idx := 1];
        forall ch, i | 0 <= ch < NumChannels && 0 <= i < flat
          ensures Get(obs, NumChannels, flat, ch, i) ==
            (if ch < BoardChannels then Plane(s, ch, i) else if ch == held && i < j + 1 then 1 else 0)
        {
          FlatBound(ch, NumChannels, i, flat);
          if ch * flat + i == idx {
            FlatInjective(ch, i, held, j, flat);
          } else {
            assert Get(obs, NumChannels, flat, ch, i) == Get(prev, NumChannels, flat, ch, i);
          }
        }
        j := j + 1;
      }
    }
    EncodedFromCells(s, obs, NumChannels, flat);
  }

  /** get_observation_environment: the board planes alone. */
  method GetObservationEnvironment(c: Config, s: State) returns (obs: seq<nat>)
    requires |s.board| == Flat(c)
    ensures obs == Encoded(s, BoardChannels, Flat(c))
  {
    var flat := Flat(c);
    obs := FillBoard(s, BoardChannels, flat);
    EncodedFromCells(s, obs, BoardChannels, flat);
  }

  // ---------------------------------------------------------------------------
  // What the encoding means

  /** Channel `ch`, cell `i` of the encoding sits at `ch * flat + i`. */
  lemma EncodedAt(s: State, channels: nat, flat: nat, ch: nat, i: nat)
    requires |s.board| == flat && ch < channels && i < flat
    ensures 0 <= ch * flat + i < channels * flat
    ensures Encoded(s, channels, flat)[ch * flat + i] == Plane(s, ch, i)
  {
    FlatBound(ch, channels, i, flat);
    DivModOfFlat(ch, flat, i);
  }

  /** A board channel is 1 exactly where the cell holds its element. */
  lemma BoardChannelMarksElement(s: State, e: Element, i: nat)
    requires i < |s.board| && e != Empty
    ensures ElementCode(e) < BoardChannels
    ensures Plane(s, ElementCode(e), i) == 1 <==> s.board[i] == e
  {
    ElementCodeRoundTrip(e);
    ElementCodeRoundTrip(s.board[i]);
    if s.board[i] != Empty && ElementCode(s.board[i]) == ElementCode(e) {
      ElementCodeInjective(s.board[i], e);
    }
  }

  /** An inventory channel is all ones when its colour is held and all zeros
      otherwise. */
  lemma InventoryChannelMarksHeld(s: State, col: Element, i: nat)
    requires i < |s.board| && IsColour(col)
    requires s.inventory.Some? ==> IsColour(s.inventory.value)
    ensures BoardChannels <= ElementCode(col) + BoardChannels < NumChannels
    ensures Plane(s, ElementCode(col) + BoardChannels, i) == 1 <==> s.inventory == Some(col)
  {
    ElementCodeRoundTrip(col);
    if s.inventory.Some? && ElementCode(s.inventory.value) == ElementCode(col) {
      ElementCodeInjective(s.inventory.value, col);
    }
  }

  /** At most one board channel is set per cell, and none for an Empty cell. */
  lemma BoardChannelsOneHot(s: State, i: nat, ch1: nat, ch2: nat)
    requires i < |s.board| && ch1 < BoardChannels && ch2 < BoardChannels
    requires Plane(s, ch1, i) == 1 && Plane(s, ch2, i) == 1
    ensures ch1 == ch2 && s.board[i] != Empty
  {
  }

  /** The environment observation is the first BoardChannels planes of the
      full observation. */
  lemma EnvironmentIsPrefix(s: State, flat: nat)
    requires |s.board| == flat
    ensures BoardChannels * flat <= NumChannels * flat
    ensures Encoded(s, BoardChannels, flat) == Encoded(s, NumChannels, flat)[..BoardChannels * flat]
  {
    MulMonotone(BoardChannels, NumChannels, flat);
  }

  // ---------------------------------------------------------------------------
  // Shapes

  /** The flat position of element (x, y, z) of a row-major array of shape `shape`. */
  function ViewIndex(shape: seq<nat>, x: nat, y: nat, z: nat): nat
    requires |shape| == 3
  {
    (x * shape[1] + y) * shape[2] + z
  }

  /** observation_shape as written: channels, then cols, then rows. */
  function ObservationShapeAsWritten(c: Config): (shape: seq<nat>)
    ensures |shape| == 3 && shape[0] * shape[1] * shape[2] == NumChannels * Flat(c)
  {
    [NumChannels, c.cols, c.rows]
  }

  /** observation_shape as documented (channels, height, width): channels,
      then rows, then cols. */
  function ObservationShape(c: Config): (shape: seq<nat>)
    ensures |shape| == 3 && shape[0] * shape[1] * shape[2] == NumChannels * Flat(c)
  {
    [NumChannels, c.rows, c.cols]
  }

  /** observation_shape_environment as written: board channels, then cols,
      then rows. */
  function ObservationShapeEnvironmentAsWritten(c: Config): (shape: seq<nat>)
    ensures |shape| == 3 && shape[0] * shape[1] * shape[2] == BoardChannels * Flat(c)
  {
    [BoardChannels, c.cols, c.rows]
  }

  /** observation_shape_environment as documented. */
  function ObservationShapeEnvironment(c: Config): (shape: seq<nat>)
    ensures |shape| == 3 && shape[0] * shape[1] * shape[2] == BoardChannels * Flat(c)
  {
    [BoardChannels, c.rows, c.cols]
  }

  /** Viewed with the documented shape, element (channel, row, col) is the
      entry the encoder wrote for the cell at that row and column. */
  lemma ShapeAddressesCells(c: Config, ch: nat, row: nat, col: nat)
    requires row < c.rows && col < c.cols
    ensures ViewIndex(ObservationShape(c), ch, row, col) == ch * Flat(c) + (row * c.cols + col)
    ensures ViewIndex(ObservationShapeEnvironment(c), ch, row, col) == ch * Flat(c) + (row * c.cols + col)
  {
    assert (ch * c.rows + row) * c.cols == ch * (c.rows * c.cols) + row * c.cols;
  }

  /** Viewed with either shape as written, a 2-row, 3-column board puts the
      cell at row 0, column 2 where the view's height index 1, width index 0 is. */
  lemma AsWrittenShapeMisplacesCells()
    ensures var c := Config(2, 3, [], []);
      && ViewIndex(ObservationShapeAsWritten(c), 0, 1, 0) == 0 * Flat(c) + (0 * c.cols + 2)
      && ViewIndex(ObservationShapeAsWritten(c), 0, 1, 0) != 0 * Flat(c) + (1 * c.cols + 0)
    ensures var c := Config(2, 3, [], []);
      && ViewIndex(ObservationShapeEnvironmentAsWritten(c), 0, 1, 0) == 0 * Flat(c) + (0 * c.cols + 2)
      && ViewIndex(ObservationShapeEnvironmentAsWritten(c), 0, 1, 0) != 0 * Flat(c) + (1 * c.cols + 0)
  {
  }
}
