/** The board formatter of the level generator (scripts/generate_levelset.py:
    every number zero-padded to two digits, joined with '|'), the round trip
    through the parser, and the parser's behaviour on concrete board strings. */
module ParserProperties {
  import opened Definitions
  import opened Wrappers
  import opened BoardParser

  // ---------------------------------------------------------------------------
  // Formatting

  function DigitChar(d: nat): (ch: char)
    requires d < 10
    ensures IsDigit(ch) && (ch - '0') as nat == d
  {
    ('0' as int + d) as char
  }

  /** Decimal digits of `n`, without leading zeros. */
  function NatToString(n: nat): (s: string)
    ensures |s| > 0 && AllDigits(s)
  {
    if n < 10 then [DigitChar(n)] else NatToString(n / 10) + [DigitChar(n % 10)]
  }

  /** `"{:0>2}".format(n)`: at least two digits, padded with '0' on the left. */
  function FormatNumber(n: nat): (s: string)
    ensures |s| > 0 && AllDigits(s)
  {
    var d := NatToString(n);
    if |d| < 2 then "0" + d else d
  }

  /** The board string of a level: rows, cols, then the cell codes in row-major order. */
  function FormatBoard(rows: nat, cols: nat, board: seq<Element>): string {
    Join([FormatNumber(rows), FormatNumber(cols)] + FormatCells(board))
  }

  function FormatCells(board: seq<Element>): (toks: seq<string>)
    ensures |toks| == |board|
  {
    seq(|board|, i requires 0 <= i < |board| => FormatNumber(ElementCode(board[i])))
  }

  // ---------------------------------------------------------------------------
  // Splitting undoes joining

  lemma {:induction false} SplitAllPlain(t: string)
    requires '|' !in t
    ensures SplitAll(t) == [t]
    decreases |t|
  {
    if |t| > 0 {
      assert t[0] in t;
      assert forall ch :: ch in t[1..] ==> ch in t;
      SplitAllPlain(t[1..]);
      assert [t[0]] + t[1..] == t;
    }
  }

  lemma {:induction false} SplitAllConcat(t: string, rest: string)
    requires '|' !in t
    ensures SplitAll(t + "|" + rest) == [t] + SplitAll(rest)
    decreases |t|
  {
    if |t| == 0 {
      assert t + "|" + rest == "|" + rest;
      assert ("|" + rest)[1..] == rest;
    } else {
      assert t[0] in t;
      assert forall ch :: ch in t[1..] ==> ch in t;
      SplitAllConcat(t[1..], rest);
      assert (t + "|" + rest)[1..] == t[1..] + "|" + rest;
      assert [t[0]] + t[1..] == t;
    }
  }

  lemma {:induction false} SplitAllJoin(toks: seq<string>)
    requires |toks| > 0
    requires forall i :: 0 <= i < |toks| ==> '|' !in toks[i]
    ensures SplitAll(Join(toks)) == toks
    decreases |toks|
  {
    if |toks| == 1 {
      SplitAllPlain(toks[0]);
    } else {
      SplitAllConcat(toks[0], Join(toks[1..]));
      SplitAllJoin(toks[1..]);
    }
  }

  /** Joining every piece SplitAll cuts gives the string back, so no character
      is lost or added by the split. */
  lemma {:induction false} JoinSplitAll(s: string)
    ensures Join(SplitAll(s)) == s
    decreases |s|
  {
    if |s| > 0 {
      var rest := SplitAll(s[1..]);
      JoinSplitAll(s[1..]);
      var r := SplitAll(s);
      if s[0] == '|' {
        assert r[1..] == rest;
        assert s == "|" + s[1..];
      } else {
        assert r[1..] == rest[1..];
        assert s == [s[0]] + s[1..];
        if |rest| > 1 {
          assert Join(rest) == rest[0] + "|" + Join(rest[1..]);
        }
      }
    }
  }

  /** Tokens without '|' whose last one is not empty come back from Split
      exactly as they were joined. */
  lemma SplitJoin(toks: seq<string>)
    requires |toks| > 0 && toks[|toks| - 1] != ""
    requires forall i :: 0 <= i < |toks| ==> '|' !in toks[i]
    ensures Split(Join(toks)) == toks
  {
    SplitAllJoin(toks);
  }

  // ---------------------------------------------------------------------------
  // std::stoi undoes the decimal formatting

  lemma {:induction false} NatToStringValue(n: nat)
    ensures DigitsValue(NatToString(n)) == n
    decreases n
  {
    if n >= 10 {
      NatToStringValue(n / 10);
      var s := NatToString(n);
      assert s[..|s| - 1] == NatToString(n / 10);
    }
  }

  lemma {:induction false} LeadingZeroValue(s: string)
    requires AllDigits(s)
    ensures DigitsValue("0" + s) == DigitsValue(s)
    decreases |s|
  {
    if |s| > 0 {
      var z := "0" + s;
      assert z[..|z| - 1] == "0" + s[..|s| - 1];
      LeadingZeroValue(s[..|s| - 1]);
    }
  }

  lemma {:induction false} DigitRunOfDigits(s: string)
    requires AllDigits(s)
    ensures DigitRun(s) == s
    decreases |s|
  {
    if |s| > 0 {
      DigitRunOfDigits(s[1..]);
    }
  }

  lemma FormatNumberValue(n: nat)
    ensures DigitsValue(FormatNumber(n)) == n
    ensures '|' !in FormatNumber(n)
  {
    NatToStringValue(n);
    var d := NatToString(n);
    if |d| < 2 {
      LeadingZeroValue(d);
    }
  }

  /** std::stoi reads a plain digit string as the number it denotes. */
  lemma StoIOfDigits(s: string)
    requires |s| > 0 && AllDigits(s) && DigitsValue(s) <= IntMax
    ensures StoI(s) == Success(DigitsValue(s) as int)
  {
    DigitRunOfDigits(s);
    var t := SkipSpace(s);
    assert t == s by {
      assert IsDigit(s[0]);
    }
    assert t[0] != '-' && t[0] != '+' by {
      assert IsDigit(s[0]);
    }
  }

  /** std::stoi reads back every formatted number that fits in an int. */
  lemma StoIFormatNumber(n: nat)
    requires n <= IntMax
    ensures StoI(FormatNumber(n)) == Success(n as int)
  {
    FormatNumberValue(n);
    StoIOfDigits(FormatNumber(n));
  }

  /** A first token in range followed by a successful rest converts to their concatenation. */
  lemma ParseCodesCons(toks: seq<string>, maxCode: nat, v: int, rest: seq<nat>)
    requires |toks| > 0 && maxCode <= NumElements
    requires StoI(toks[0]) == Success(v) && 0 <= v <= maxCode
    requires ParseCodes(toks[1..], maxCode) == Success(rest)
    ensures ParseCodes(toks, maxCode) == Success([v as nat] + rest)
  {
  }

  function CodesOf(board: seq<Element>): (codes: seq<nat>)
    ensures |codes| == |board|
    ensures forall i :: 0 <= i < |board| ==> codes[i] == ElementCode(board[i])
  {
    seq(|board|, i requires 0 <= i < |board| => ElementCode(board[i]))
  }

  /** Formatting and code extraction both go cell by cell. */
  lemma CellsCons(board: seq<Element>)
    requires |board| > 0
    ensures FormatCells(board)[0] == FormatNumber(ElementCode(board[0]))
    ensures FormatCells(board)[1..] == FormatCells(board[1..])
    ensures CodesOf(board) == [ElementCode(board[0])] + CodesOf(board[1..])
  {
    assert FormatCells(board)[1..] == FormatCells(board[1..]);
    assert CodesOf(board) == [ElementCode(board[0])] + CodesOf(board[1..]);
  }

  lemma {:induction false} ParseFormattedCells(board: seq<Element>)
    ensures ParseCodes(FormatCells(board), NumElements - 1) == Success(CodesOf(board))
    decreases |board|
  {
    if |board| > 0 {
      CellsCons(board);
      StoIFormatNumber(ElementCode(board[0]));
      ParseFormattedCells(board[1..]);
      ParseCodesCons(FormatCells(board), NumElements - 1, ElementCode(board[0]), CodesOf(board[1..]));
    }
  }

  /** The successful path of the parser, step by step. */
  lemma ParseTokensSuccess(toks: seq<string>, rows: nat, cols: nat, codes: seq<nat>)
    requires |toks| >= 2
    requires 1 <= rows <= IntMax && 1 <= cols <= IntMax
    requires StoI(toks[0]) == Success(rows as int)
    requires StoI(toks[1]) == Success(cols as int)
    requires |toks| == ExpectedTokens(rows, cols)
    requires ParseCodes(toks[2..], NumElements - 1) == Success(codes)
    ensures ParseTokens(toks) == Success(BoardOfCodes(rows, cols, codes))
  {
  }

  /** Cell conversion stops with UnknownElement at a first token out of range. */
  lemma ParseCodesFirstOutOfRange(toks: seq<string>, maxCode: nat, v: int)
    requires |toks| > 0 && maxCode <= NumElements
    requires StoI(toks[0]) == Success(v) && SizeT(v) > maxCode
    ensures ParseCodes(toks, maxCode) == Failure(UnknownElement)
  {
  }

  /** A failure later in the cell tokens is the failure of the whole conversion. */
  lemma ParseCodesFailsLater(toks: seq<string>, maxCode: nat, v: int, e: ParseError)
    requires |toks| > 0 && maxCode <= NumElements
    requires StoI(toks[0]) == Success(v) && 0 <= v <= maxCode
    requires ParseCodes(toks[1..], maxCode) == Failure(e)
    ensures ParseCodes(toks, maxCode) == Failure(e)
  {
  }

  /** With valid dimensions, the parser fails exactly as the cell conversion does. */
  lemma ParseTokensCellFailure(toks: seq<string>, rows: int, cols: int, e: ParseError)
    requires |toks| >= 2
    requires StoI(toks[0]) == Success(rows) && StoI(toks[1]) == Success(cols)
    requires 1 <= rows && 1 <= cols && |toks| == ExpectedTokens(rows, cols)
    requires ParseCodes(toks[2..], NumElements - 1) == Failure(e)
    ensures ParseTokens(toks) == Failure(e)
  {
  }

  /** The tokens of a formatted board contain no delimiter. */
  lemma FormattedTokensPlain(rows: nat, cols: nat, board: seq<Element>, toks: seq<string>)
    requires toks == [FormatNumber(rows), FormatNumber(cols)] + FormatCells(board)
    ensures forall i :: 0 <= i < |toks| ==> '|' !in toks[i]
  {
    forall i | 0 <= i < |toks|
      ensures '|' !in toks[i]
    {
      if i >= 2 {
        FormatNumberValue(ElementCode(board[i - 2]));
      } else if i == 0 {
        FormatNumberValue(rows);
      } else {
        FormatNumberValue(cols);
      }
    }
  }

  /** The formatted tokens parse back to the board. */
  lemma ParseFormattedTokens(rows: nat, cols: nat, board: seq<Element>, toks: seq<string>)
    requires 1 <= rows <= IntMax && 1 <= cols <= IntMax
    requires |board| == rows * cols
    requires toks == [FormatNumber(rows), FormatNumber(cols)] + FormatCells(board)
    ensures ParseTokens(toks) == Success(ParsedBoard(rows, cols, board, LastIndexOf(board, Agent)))
  {
    assert StoI(toks[0]) == Success(rows as int) by {
      StoIFormatNumber(rows);
    }
    assert StoI(toks[1]) == Success(cols as int) by {
      StoIFormatNumber(cols);
    }
    assert |toks| == ExpectedTokens(rows, cols) by {
      SizeOfPositiveProduct(rows, cols);
    }
    var codes := CodesOf(board);
    assert ParseCodes(toks[2..], NumElements - 1) == Success(codes) by {
      assert toks[2..] == FormatCells(board);
      ParseFormattedCells(board);
    }
    ParseTokensSuccess(toks, rows, cols, codes);
    BoardOfCodesOf(rows, cols, board);
  }

  /** Converting the codes of a board back gives the board itself. */
  lemma BoardOfCodesOf(rows: nat, cols: nat, board: seq<Element>)
    ensures BoardOfCodes(rows, cols, CodesOf(board)) == ParsedBoard(rows, cols, board, LastIndexOf(board, Agent))
  {
    var p := BoardOfCodes(rows, cols, CodesOf(board));
    assert p.board == board by {
      forall i | 0 <= i < |board|
        ensures p.board[i] == board[i]
      {
        ElementCodeInjective(p.board[i], board[i]);
      }
    }
  }

  /** Parsing a formatted board gives the board back, with the agent at its
      last Agent cell. */
  lemma ParseFormatRoundTrip(rows: nat, cols: nat, board: seq<Element>)
    requires 1 <= rows <= IntMax && 1 <= cols <= IntMax
    requires |board| == rows * cols
    ensures ParseBoard(FormatBoard(rows, cols, board))
         == Success(ParsedBoard(rows, cols, board, LastIndexOf(board, Agent)))
  {
    var toks := [FormatNumber(rows), FormatNumber(cols)] + FormatCells(board);
    FormattedTokensPlain(rows, cols, board, toks);
    SplitJoin(toks);
    ParseFormattedTokens(rows, cols, board, toks);
  }
}

/** The parser on concrete board strings: the default parameters, and the
    inputs on which the parser as written and the corrected parser differ. */
module ParserExamples {
  import opened Definitions
  import opened Wrappers
  import opened BoardParser
  import opened ParserProperties

  /** The pieces between the '|' separators of the default board string
      "3|3|00|20|19|20|20|20|18|00|20". */
  const DefaultBoardTokens: seq<string> := ["3", "3", "00", "20", "19", "20", "20", "20", "18", "00", "20"]

  lemma StoIDigit(a: char)
    requires IsDigit(a)
    ensures StoI([a]) == Success((a - '0') as int)
  {
    assert DigitsValue([a]) == (a - '0') as nat by {
      assert [a][..0] == [];
    }
    StoIOfDigits([a]);
  }

  lemma StoITwoDigits(a: char, b: char)
    requires IsDigit(a) && IsDigit(b)
    ensures StoI([a, b]) == Success((a - '0') as int * 10 + (b - '0') as int)
  {
    assert DigitsValue([a]) == (a - '0') as nat by {
      assert [a][..0] == [];
    }
    assert DigitsValue([a, b]) == (a - '0') as nat * 10 + (b - '0') as nat by {
      assert [a, b][..1] == [a];
    }
    StoIOfDigits([a, b]);
  }

  /** A minus sign in front of one digit negates its value. */
  lemma StoINegativeDigit(a: char)
    requires IsDigit(a)
    ensures StoI(['-', a]) == Success(-((a - '0') as int))
  {
    var t := ['-', a];
    assert !IsSpace(t[0]);
    assert SkipSpace(t) == t;
    assert t[1..] == [a];
    assert DigitsValue([a]) == (a - '0') as nat by {
      assert [a][..0] == [];
    }
    DigitRunOfDigits([a]);
  }

  /** The parser as written on tokens whose counts and codes pass its checks. */
  lemma ParseTokensAsWrittenSuccess(toks: seq<string>, rows: int, cols: int, codes: seq<nat>)
    requires |toks| >= 2
    requires StoI(toks[0]) == Success(rows) && StoI(toks[1]) == Success(cols)
    requires |toks| == ExpectedTokens(rows, cols)
    requires ParseCodes(toks[2..], NumElements) == Success(codes)
    ensures ParseTokensAsWritten(toks) == Success(RawBoard(rows, cols, codes, LastIndexOf(codes, ElementCode(Agent))))
  {
  }

  /** The default board holds codes 18 to 20, which name no element: both the
      parser as written and the corrected parser reject it with "Unknown
      element type.". */
  lemma DefaultBoardRejected()
    ensures ParseTokens(DefaultBoardTokens) == Failure(UnknownElement)
    ensures ParseTokensAsWritten(DefaultBoardTokens) == Failure(UnknownElement)
  {
    StoIDigit('3');
    StoITwoDigits('0', '0');
    StoITwoDigits('2', '0');
    var cells := DefaultBoardTokens[2..];
    assert cells[1..][0] == "20";
    ParseCodesFirstOutOfRange(cells[1..], NumElements - 1, 20);
    ParseCodesFailsLater(cells, NumElements - 1, 0, UnknownElement);
    ParseTokensCellFailure(DefaultBoardTokens, 3, 3, UnknownElement);
    ParseCodesFirstOutOfRange(cells[1..], NumElements, 20);
    ParseCodesFailsLater(cells, NumElements, 0, UnknownElement);
  }

  /** As written, the guard `el_idx > kNumElements` lets code 15 through,
      although no element has it: "1|1|15" parses. */
  lemma AsWrittenAcceptsCode15()
    ensures ParseBoardAsWritten("1|1|15") == Success(RawBoard(1, 1, [15], 0))
  {
    var toks := ["1", "1", "15"];
    assert Join(toks) == "1|1|15";
    SplitJoin(toks);
    StoIDigit('1');
    StoITwoDigits('1', '5');
    assert toks[2..][1..] == [];
    ParseCodesCons(toks[2..], NumElements, 15, []);
    assert [15 as nat] + [] == [15];
    ParseTokensAsWrittenSuccess(toks, 1, 1, [15]);
  }

  /** The corrected parser rejects "1|1|15". */
  lemma CorrectedRejectsCode15()
    ensures ParseBoard("1|1|15") == Failure(UnknownElement)
  {
    var toks := ["1", "1", "15"];
    assert Join(toks) == "1|1|15";
    SplitJoin(toks);
    StoIDigit('1');
    StoITwoDigits('1', '5');
    ParseCodesFirstOutOfRange(toks[2..], NumElements - 1, 15);
    ParseTokensCellFailure(toks, 1, 1, UnknownElement);
  }

  /** As written, "3|0" passes: two tokens match 3 * 0 + 2, giving an empty
      board with zero columns, on which every later `index % cols` divides by
      zero. */
  lemma AsWrittenAcceptsZeroColumns()
    ensures ParseBoardAsWritten("3|0") == Success(RawBoard(3, 0, [], 0))
  {
    var toks := ["3", "0"];
    assert Join(toks) == "3|0";
    SplitJoin(toks);
    StoIDigit('3');
    StoIDigit('0');
    ParseTokensAsWrittenSuccess(toks, 3, 0, []);
  }

  /** As written, negative dimensions whose product is positive pass:
      "-1|-2|13|14" is a board of two cells with rows -1 and cols -2. */
  lemma AsWrittenAcceptsNegativeDimensions()
    ensures ParseBoardAsWritten("-1|-2|13|14") == Success(RawBoard(-1, -2, [13, 14], 0))
  {
    var toks := ["-1", "-2", "13", "14"];
    assert Join(toks) == "-1|-2|13|14";
    SplitJoin(toks);
    StoINegativeDigit('1');
    StoINegativeDigit('2');
    StoITwoDigits('1', '3');
    StoITwoDigits('1', '4');
    var cells := toks[2..];
    assert cells[1..][1..] == [];
    ParseCodesCons(cells[1..], NumElements, 14, []);
    assert [14 as nat] + [] == [14];
    ParseCodesCons(cells, NumElements, 13, [14]);
    assert [13 as nat] + [14] == [13, 14];
    ParseTokensAsWrittenSuccess(toks, -1, -2, [13, 14]);
  }

  /** The corrected parser rejects both boards with non-positive dimensions. */
  lemma CorrectedRejectsNonPositiveDimensions()
    ensures ParseBoard("3|0") == Failure(NonPositiveDimension)
    ensures ParseBoard("-1|-2|13|14") == Failure(NonPositiveDimension)
  {
    var zeroCols, negative := ["3", "0"], ["-1", "-2", "13", "14"];
    assert Join(zeroCols) == "3|0";
    SplitJoin(zeroCols);
    assert Join(negative) == "-1|-2|13|14";
    SplitJoin(negative);
    StoIDigit('3');
    StoIDigit('0');
    StoINegativeDigit('1');
    StoINegativeDigit('2');
  }
}
