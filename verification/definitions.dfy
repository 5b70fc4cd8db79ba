/** The element and action vocabularies of the board (src/definitions.h). */
module Definitions {

  /** Index of one of the twelve ordinary key/lock colours. */
  type ColourIndex = i: nat | i < 12

  /** What one board cell (or the inventory) holds. The declaration order is the
      wire-format order: Colour(0..11) have codes 0..11, then the goal colour,
      the agent marker and the empty cell. */
  datatype Element = Colour(index: ColourIndex) | ColourGoal | Agent | Empty

  /** The number of element codes. */
  const NumElements: nat := 15
  /** The number of elements the inventory can hold: twelve colours and the goal. */
  const NumColours: nat := 13
  /** Board channels (every element except Empty) followed by one channel per held colour. */
  const NumChannels: nat := NumElements - 1 + NumColours

  /** The four moves, in code order. */
  datatype Action = Up | Right | Down | Left

  const NumActions: nat := 4

  /** The integer an element is stored as. */
  function ElementCode(e: Element): (n: nat)
    ensures n < NumElements
    ensures e.Colour? <==> n < 12
    ensures e.Colour? ==> n == e.index
  {
    match e
    case Colour(i) => i
    case ColourGoal => 12
    case Agent => 13
    case Empty => 14
  }

  /** `static_cast<Element>(n)` for a code that names an element. */
  function ElementOfCode(n: nat): (e: Element)
    requires n < NumElements
    ensures ElementCode(e) == n
  {
    if n < 12 then Colour(n)
    else if n == 12 then ColourGoal
    else if n == 13 then Agent
    else Empty
  }

  /** A key or lock colour: every element except the agent and the empty cell.
      These are exactly the elements the inventory may hold. */
  predicate IsColour(e: Element) {
    e != Agent && e != Empty
  }

  lemma ElementCodeRoundTrip(e: Element)
    ensures ElementOfCode(ElementCode(e)) == e
    ensures IsColour(e) <==> ElementCode(e) < NumColours
  {
  }

  /** Distinct elements have distinct codes. */
  lemma ElementCodeInjective(e1: Element, e2: Element)
    requires ElementCode(e1) == ElementCode(e2)
    ensures e1 == e2
  {
    ElementCodeRoundTrip(e1);
    ElementCodeRoundTrip(e2);
  }

  function ActionCode(a: Action): (n: nat)
    ensures n < NumActions
  {
    match a
    case Up => 0
    case Right => 1
    case Down => 2
    case Left => 3
  }

  /** Column offset of an action (the first component of the offset table). */
  function DCol(a: Action): int {
    match a
    case Up => 0
    case Right => 1
    case Down => 0
    case Left => -1
  }

  /** Row offset of an action (the second component of the offset table). */
  function DRow(a: Action): int {
    match a
    case Up => -1
    case Right => 0
    case Down => 1
    case Left => 0
  }

  /** The action that undoes a move. */
  function Opposite(a: Action): (b: Action)
    ensures DCol(b) == -DCol(a) && DRow(b) == -DRow(a)
    ensures b != a
  {
    match a
    case Up => Down
    case Right => Left
    case Down => Up
    case Left => Right
  }

  /** Every action moves exactly one step along exactly one axis. */
  lemma OffsetIsUnitStep(a: Action)
    ensures (DCol(a) == 0) != (DRow(a) == 0)
    ensures -1 <= DCol(a) <= 1 && -1 <= DRow(a) <= 1
  {
  }
}
