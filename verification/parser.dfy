/** The board wire format `rows|cols|e0|e1|...` and its parser
    (src/boxworld_base.cpp, ParseBoard). Tokens are cut at '|' the way repeated
    `std::getline` cuts them and converted the way `std::stoi` converts them. */
module BoardParser {
  import opened Definitions
  import opened Wrappers
  import Arith

  /** The exceptions ParseBoard can throw. The first three are its own
      `std::invalid_argument`s, the next two come from `std::stoi`, and the
      last is thrown only by the corrected parser. */
  datatype ParseError =
    | TooFewTokens          // fewer than two tokens
    | DimensionMismatch     // token count differs from rows * cols + 2
    | UnknownElement        // element code out of range
    | InvalidNumber         // std::stoi found no digits
    | NumberOutOfRange      // std::stoi value outside 32-bit int
    | NonPositiveDimension  // rows or cols below 1 (corrected parser only)

  const IntMin: int := -0x8000_0000
  const IntMax: int := 0x7fff_ffff
  /** 2^64: `std::size_t` arithmetic wraps modulo this. */
  const SizeModulus: int := 0x1_0000_0000_0000_0000

  /** Conversion of an int to `std::size_t`. */
  function SizeT(x: int): (r: nat)
    ensures r < SizeModulus
    ensures 0 <= x < SizeModulus ==> r == x
  {
    x % SizeModulus
  }

  // ---------------------------------------------------------------------------
  // Splitting on '|'

  /** Every piece between delimiters, including an empty last piece. */
  function SplitAll(s: string): (r: seq<string>)
    ensures |r| >= 1
    ensures forall i :: 0 <= i < |r| ==> '|' !in r[i]
    decreases |s|
  {
    if |s| == 0 then [""]
    else
      var rest := SplitAll(s[1..]);
      if s[0] == '|' then [""] + rest else [[s[0]] + rest[0]] + rest[1..]
  }

  /** The tokens repeated `std::getline(ss, segment, '|')` extracts: a final
      empty piece (the string is empty or ends in '|') is not extracted. */
  function Split(s: string): (r: seq<string>)
    ensures forall i :: 0 <= i < |r| ==> '|' !in r[i]
  {
    var parts := SplitAll(s);
    if parts[|parts| - 1] == "" then parts[..|parts| - 1] else parts
  }

  /** Tokens joined with '|' between them. */
  function Join(toks: seq<string>): string
    requires |toks| > 0
  {
    if |toks| == 1 then toks[0] else toks[0] + "|" + Join(toks[1..])
  }

  // ---------------------------------------------------------------------------
  // std::stoi

  /** The characters `isspace` accepts in the C locale. */
  predicate IsSpace(ch: char) {
    ch == ' ' || ch == '\t' || ch == '\n' || ch == '\U{000B}' || ch == '\U{000C}' || ch == '\r'
  }

  predicate IsDigit(ch: char) {
    '0' <= ch <= '9'
  }

  predicate AllDigits(s: string) {
    forall i :: 0 <= i < |s| ==> IsDigit(s[i])
  }

  function SkipSpace(s: string): (r: string)
    ensures |r| > 0 ==> !IsSpace(r[0])
  {
    if |s| > 0 && IsSpace(s[0]) then SkipSpace(s[1..]) else s
  }

  /** The longest prefix of decimal digits. */
  function DigitRun(s: string): (r: string)
    ensures AllDigits(r)
  {
    if |s| > 0 && IsDigit(s[0]) then [s[0]] + DigitRun(s[1..]) else []
  }

  /** The number a digit string denotes, most significant digit first. */
  function DigitsValue(ds: string): nat
    requires AllDigits(ds)
  {
    if |ds| == 0 then 0
    else DigitsValue(ds[..|ds| - 1]) * 10 + (ds[|ds| - 1] - '0') as nat
  }

  /** `std::stoi(tok)`: leading white space, an optional sign and the longest
      run of digits after it; no digits is `std::invalid_argument`, a value
      outside the 32-bit range is `std::out_of_range`. */
  function StoI(tok: string): (r: Result<int, ParseError>)
    ensures r.Success? ==> IntMin <= r.value <= IntMax
  {
    var t := SkipSpace(tok);
    var negative := |t| > 0 && t[0] == '-';
    var unsigned := if |t| > 0 && (t[0] == '-' || t[0] == '+') then t[1..] else t;
    var ds := DigitRun(unsigned);
    if |ds| == 0 then Failure(InvalidNumber)
    else
      var v: int := if negative then -(DigitsValue(ds) as int) else DigitsValue(ds);
      if v < IntMin || IntMax < v then Failure(NumberOutOfRange) else Success(v)
  }

  /** The token count ParseBoard demands, `static_cast<size_t>(rows * cols) + 2`
      evaluated in `std::size_t`. */
  function ExpectedTokens(rows: int, cols: int): nat {
    SizeT(SizeT(rows * cols) + 2)
  }

  // ---------------------------------------------------------------------------
  // Cells and the agent

  /** Converts the cell tokens in order, stopping at the first token that is
      not a number or whose code, as a `std::size_t`, exceeds `maxCode`. */
  function ParseCodes(toks: seq<string>, maxCode: nat): (r: Result<seq<nat>, ParseError>)
    requires maxCode <= NumElements
    ensures r.Success? ==> |r.value| == |toks|
    ensures r.Success? ==> forall i :: 0 <= i < |r.value| ==> r.value[i] <= maxCode
    ensures r.Success? ==> forall i :: 0 <= i < |toks| ==> StoI(toks[i]) == Success(r.value[i] as int)
  {
    if |toks| == 0 then Success([])
    else
      var v :- StoI(toks[0]);
      if SizeT(v) > maxCode then Failure(UnknownElement)
      else
        assert 0 <= v;
        var rest :- ParseCodes(toks[1..], maxCode);
        assert forall i :: 1 <= i < |toks| ==> toks[i] == toks[1..][i - 1];
        Success([SizeT(v)] + rest)
  }

  /** The position of the last occurrence of `x`, or 0 when there is none: the
      parser overwrites the agent index at every agent token and the fresh
      state starts with index 0. */
  function LastIndexOf<T(==)>(s: seq<T>, x: T): (r: nat)
    ensures x in s ==> r < |s| && s[r] == x && forall j :: r < j < |s| ==> s[j] != x
    ensures x !in s ==> r == 0
  {
    if |s| == 0 then 0
    else if s[|s| - 1] == x then |s| - 1
    else LastIndexOf(s[..|s| - 1], x)
  }

  // ---------------------------------------------------------------------------
  // The parser as written

  /** What ParseBoard stores, before any element conversion: dimensions as
      parsed ints and cell codes as parsed. */
  datatype RawBoard = RawBoard(rows: int, cols: int, codes: seq<nat>, agentIdx: nat)

  /** ParseBoard as written, from the board string. */
  function ParseBoardAsWritten(s: string): (r: Result<RawBoard, ParseError>)
    ensures |Split(s)| < 2 ==> r == Failure(TooFewTokens)
    ensures r.Success? ==> |Split(s)| == ExpectedTokens(r.value.rows, r.value.cols)
    ensures r.Success? ==> forall i :: 0 <= i < |r.value.codes| ==> r.value.codes[i] <= NumElements
  {
    ParseTokensAsWritten(Split(s))
  }

  /** ParseBoard as written, after splitting: no check that rows and cols are
      positive, and the element-code guard is `el_idx > kNumElements`, so
      code 15 passes. */
  function ParseTokensAsWritten(toks: seq<string>): (r: Result<RawBoard, ParseError>)
    ensures |toks| < 2 ==> r == Failure(TooFewTokens)
    ensures r.Success? ==> |toks| == ExpectedTokens(r.value.rows, r.value.cols)
    ensures r.Success? ==> |r.value.codes| + 2 == |toks|
    ensures r.Success? ==> forall i :: 0 <= i < |r.value.codes| ==> r.value.codes[i] <= NumElements
  {
    if |toks| < 2 then Failure(TooFewTokens)
    else
      var rows :- StoI(toks[0]);
      var cols :- StoI(toks[1]);
      if |toks| != ExpectedTokens(rows, cols) then Failure(DimensionMismatch)
      else
        var codes :- ParseCodes(toks[2..], NumElements);
        Success(RawBoard(rows, cols, codes, LastIndexOf(codes, ElementCode(Agent))))
  }

  // ---------------------------------------------------------------------------
  // The corrected parser, used by the rest of the model

  /** A successfully parsed board. */
  datatype ParsedBoard = ParsedBoard(rows: nat, cols: nat, board: seq<Element>, agentIdx: nat)

  /** The board string's tokens and what ParseBoard keeps of them. */
  predicate ParsedFrom(toks: seq<string>, p: ParsedBoard) {
    && |toks| == |p.board| + 2
    && StoI(toks[0]) == Success(p.rows as int)
    && StoI(toks[1]) == Success(p.cols as int)
    && forall i :: 0 <= i < |p.board| ==> StoI(toks[i + 2]) == Success(ElementCode(p.board[i]) as int)
  }

  /** ParseBoard with the two guards it evidently intends, from the board string. */
  function ParseBoard(s: string): (r: Result<ParsedBoard, ParseError>)
    ensures |Split(s)| < 2 ==> r == Failure(TooFewTokens)
    ensures r.Success? ==> 1 <= r.value.rows && 1 <= r.value.cols
    ensures r.Success? ==> |r.value.board| == r.value.rows * r.value.cols
    ensures r.Success? ==> ParsedFrom(Split(s), r.value)
    ensures r.Success? ==> r.value.agentIdx == LastIndexOf(r.value.board, Agent)
  {
    ParseTokens(Split(s))
  }

  /** ParseBoard after splitting, with the two guards it evidently intends:
      rows and cols must be positive, and an element code must name an element
      (be below kNumElements). */
  function ParseTokens(toks: seq<string>): (r: Result<ParsedBoard, ParseError>)
    ensures |toks| < 2 ==> r == Failure(TooFewTokens)
    ensures r.Success? ==> 1 <= r.value.rows && 1 <= r.value.cols
    ensures r.Success? ==> |r.value.board| == r.value.rows * r.value.cols
    ensures r.Success? ==> ParsedFrom(toks, r.value)
    ensures r.Success? ==> r.value.agentIdx == LastIndexOf(r.value.board, Agent)
  {
    if |toks| < 2 then Failure(TooFewTokens)
    else
      var rows :- StoI(toks[0]);
      var cols :- StoI(toks[1]);
      if rows < 1 || cols < 1 then Failure(NonPositiveDimension)
      else if |toks| != ExpectedTokens(rows, cols) then Failure(DimensionMismatch)
      else
        var codes :- ParseCodes(toks[2..], NumElements - 1);
        SizeOfPositiveProduct(rows, cols);
        Success(BoardOfCodes(rows, cols, codes))
  }

  /** The parsed board for cell codes that all name elements. */
  function BoardOfCodes(rows: nat, cols: nat, codes: seq<nat>): (p: ParsedBoard)
    requires forall i :: 0 <= i < |codes| ==> codes[i] < NumElements
    ensures p.rows == rows && p.cols == cols && |p.board| == |codes|
    ensures forall i :: 0 <= i < |codes| ==> ElementCode(p.board[i]) == codes[i]
    ensures p.agentIdx == LastIndexOf(p.board, Agent)
  {
    var board := seq(|codes|, i requires 0 <= i < |codes| => ElementOfCode(codes[i]));
    CodesToElements(codes, board);
    ParsedBoard(rows, cols, board, LastIndexOf(codes, ElementCode(Agent)))
  }

  /** The code sequence and the element sequence have their last agent at the same place. */
  lemma CodesToElements(codes: seq<nat>, board: seq<Element>)
    requires |codes| == |board|
    requires forall i :: 0 <= i < |codes| ==> codes[i] < NumElements && board[i] == ElementOfCode(codes[i])
    ensures LastIndexOf(codes, ElementCode(Agent)) == LastIndexOf(board, Agent)
  {
    forall i | 0 <= i < |codes|
      ensures codes[i] == ElementCode(Agent) <==> board[i] == Agent
    {
      ElementCodeRoundTrip(board[i]);
    }
    var a := ElementCode(Agent);
    if a in codes {
      var k :| 0 <= k < |codes| && codes[k] == a;
      assert board[k] == Agent;
    }
    if Agent in board {
      var k :| 0 <= k < |board| && board[k] == Agent;
      assert codes[k] == a;
    }
  }

  /** For positive 32-bit dimensions the size_t arithmetic of the count check is exact. */
  lemma SizeOfPositiveProduct(rows: int, cols: int)
    requires 1 <= rows <= IntMax && 1 <= cols <= IntMax
    ensures ExpectedTokens(rows, cols) == rows * cols + 2
  {
    var p := rows * cols;
    Arith.MulMonotone(1, rows, cols);
    Arith.MulMonotone(rows, IntMax, cols);
    Arith.MulMonotone(cols, IntMax, IntMax);
    assert 0 < p <= IntMax * IntMax;
    assert SizeT(p) == p;
  }
}
