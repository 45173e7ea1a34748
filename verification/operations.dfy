/**
  The command language of the calculator: the closed set of operations and
  the total parser from one input line to an operation or a parse error,
  plus the canonical rendering of an operation.

  The parser reads a keyword up to the first space and matches it without
  regard to ASCII case; row tokens are lower-cased, stripped of every `r`,
  and read as a `usize`. Reading a scaler is a floating-point library call,
  so it is a parameter `parseScalar`; likewise `showScalar` renders one.
 */
module Operations {
  import opened Common
  import opened Text

  datatype Operation =
    | SwapRows(lhs: Usize, rhs: Usize)
    | Multiply(row: Usize, scaler: real)
    | ReplaceWithMultiple(scaler: real, fromRow: Usize, toRow: Usize)
    | ShowHelp

  /**
    The parser's error messages, one tag per message template, carrying the
    text the template interpolates. `NotUsize` is the swap branch's
    "to `usize`" message, which names the normalised row token; `NotParsed`
    is the message shared by a bad scaler and a bad row token in the `m`
    and `r` branches, which names the token as typed.
   */
  datatype ParseError =
    | Incomplete(lowered: string)
    | MissingRowPair(rest: string)
    | MissingScalerAndRow(rest: string)
    | MissingScalerAndRows(rest: string)
    | MissingRowIndices(rows: string)
    | NotUsize(token: string)
    | NotParsed(token: string)
    | InvalidOperation(op: string)

  type ScalerParser = string -> Option<real>

  /** A row token: lower-cased, every `r` deleted, then read as a `usize`. */
  function ParseRow(token: string): (r: Option<Usize>)
    ensures r.Some? ==> forall i :: 0 <= i < |token| ==>
      IsDigit(token[i]) || token[i] == '+' || token[i] == 'r' || token[i] == 'R'
  {
    NormalizeKeeps(token);
    ParseUsize(Normalize(token))
  }

  /** The operands of `s`: two row tokens split at the first space. */
  function ParseSwap(rest: string): (r: Result<Operation, ParseError>)
    ensures r.Ok? ==> r.value.SwapRows?
  {
    match SplitOnce(rest, ' ')
    case None => Err(MissingRowPair(rest))
    case Some((lhs, rhs)) =>
      var (l, r) := (Normalize(lhs), Normalize(rhs));
      match ParseUsize(l)
      case None => Err(NotUsize(l))
      case Some(a) =>
        match ParseUsize(r)
        case None => Err(NotUsize(r))
        case Some(b) => Ok(SwapRows(a, b))
  }

  /** The operands of `m`: a scaler token, then a row token. */
  function ParseMultiply(rest: string, parseScalar: ScalerParser): (r: Result<Operation, ParseError>)
    ensures r.Ok? ==> r.value.Multiply?
  {
    match SplitOnce(rest, ' ')
    case None => Err(MissingScalerAndRow(rest))
    case Some((scaler, row)) =>
      match parseScalar(scaler)
      case None => Err(NotParsed(scaler))
      case Some(k) =>
        match ParseRow(row)
        case None => Err(NotParsed(row))
        case Some(i) => Ok(Multiply(i, k))
  }

  /** The operands of `r`: a scaler token, then the source row, then the target row. */
  function ParseReplace(rest: string, parseScalar: ScalerParser): (r: Result<Operation, ParseError>)
    ensures r.Ok? ==> r.value.ReplaceWithMultiple?
  {
    match SplitOnce(rest, ' ')
    case None => Err(MissingScalerAndRows(rest))
    case Some((scaler, rows)) =>
      match SplitOnce(rows, ' ')
      case None => Err(MissingRowIndices(rows))
      case Some((fromRow, toRow)) =>
        match parseScalar(scaler)
        case None => Err(NotParsed(scaler))
        case Some(k) =>
          match ParseRow(fromRow)
          case None => Err(NotParsed(fromRow))
          case Some(f) =>
            match ParseRow(toRow)
            case None => Err(NotParsed(toRow))
            case Some(t) => Ok(ReplaceWithMultiple(k, f, t))
  }

  /** Selects the operation by its keyword, compared after lower-casing. */
  function Dispatch(op: string, rest: string, parseScalar: ScalerParser): (r: Result<Operation, ParseError>)
    ensures r.Ok? && r.value.SwapRows? ==> Lower(op) == "s" && r == ParseSwap(rest)
    ensures r.Ok? && r.value.Multiply? ==> Lower(op) == "m" && r == ParseMultiply(rest, parseScalar)
    ensures r.Ok? && r.value.ReplaceWithMultiple? ==> Lower(op) == "r" && r == ParseReplace(rest, parseScalar)
  {
    var keyword := Lower(op);
    if keyword == "h" || keyword == "help" then Ok(ShowHelp)
    else if keyword == "s" then ParseSwap(rest)
    else if keyword == "m" then ParseMultiply(rest, parseScalar)
    else if keyword == "r" then ParseReplace(rest, parseScalar)
    else Err(InvalidOperation(op))
  }

  /** `TryFrom<&str> for Operations`. Total: every line gives an operation or an error. */
  function TryFrom(line: string, parseScalar: ScalerParser): (r: Result<Operation, ParseError>)
    ensures ' ' !in line ==> (r.Ok? <==> Lower(line) == "h" || Lower(line) == "help")
    ensures r.Ok? && !r.value.ShowHelp? ==> ' ' in line
    ensures r.Err? && r.error.Incomplete? ==> ' ' !in line && r.error.lowered == Lower(line)
  {
    match SplitOnce(line, ' ')
    case Some((op, rest)) => Dispatch(op, rest, parseScalar)
    case None =>
      var lowered := Lower(line);
      if lowered == "h" || lowered == "help" then Dispatch(line, "", parseScalar)
      else Err(Incomplete(lowered))
  }

  /** `Display for Operations`. */
  function Render(op: Operation, showScalar: real -> string): (r: string)
    ensures op.ShowHelp? <==> ' ' !in r
  {
    match op
    case SwapRows(lhs, rhs) => "R" + Dec(lhs) + " <-> R" + Dec(rhs)
    case Multiply(row, scaler) => showScalar(scaler) + " * R" + Dec(row) + " -> R" + Dec(row)
    case ReplaceWithMultiple(scaler, fromRow, toRow) =>
      showScalar(scaler) + " * R" + Dec(fromRow) + " + R" + Dec(toRow) + " -> R" + Dec(toRow)
    case ShowHelp => "ShowHelp"
  }

  // ---------------------------------------------------------------------------
  // Properties of the parser

  /** A row token that parses holds no space. */
  lemma RowTokenHasNoSpace(token: string)
    requires ParseRow(token).Some?
    ensures ' ' !in token
  {
  }

  /** The operations other than help are only read from a line holding a space, through its keyword. */
  lemma TryFromKeyword(line: string, parseScalar: ScalerParser)
    requires TryFrom(line, parseScalar).Ok? && !TryFrom(line, parseScalar).value.ShowHelp?
    ensures SplitOnce(line, ' ').Some?
    ensures TryFrom(line, parseScalar) ==
      Dispatch(SplitOnce(line, ' ').value.0, SplitOnce(line, ' ').value.1, parseScalar)
  {
  }

  /** A line without a space is accepted only as `h` or `help`, in any case. */
  lemma NoSpaceLine(line: string, parseScalar: ScalerParser)
    requires ' ' !in line
    ensures TryFrom(line, parseScalar).Ok? <==> Lower(line) == "h" || Lower(line) == "help"
    ensures TryFrom(line, parseScalar).Ok? ==> TryFrom(line, parseScalar).value == ShowHelp
    ensures TryFrom(line, parseScalar).Err? ==> TryFrom(line, parseScalar).error == Incomplete(Lower(line))
  {
  }

  /**
    With a space present, the keyword before the first space alone decides:
    `h`/`help` mean help whatever follows, and a keyword outside
    `h`, `help`, `s`, `m`, `r` is rejected by name.
   */
  lemma KeywordDecides(keyword: string, rest: string, parseScalar: ScalerParser)
    requires ' ' !in keyword
    ensures Lower(keyword) == "h" || Lower(keyword) == "help" ==>
      TryFrom(keyword + " " + rest, parseScalar) == Ok(ShowHelp)
    ensures Lower(keyword) !in {"h", "help", "s", "m", "r"} ==>
      TryFrom(keyword + " " + rest, parseScalar) == Err(InvalidOperation(keyword))
  {
    SplitOnceAt(keyword, ' ', rest);
  }

  /** `s` followed by two tokens: a swap exactly when both tokens read as rows. */
  lemma SwapLineParses(keyword: string, lhs: string, rhs: string, parseScalar: ScalerParser)
    requires ' ' !in keyword && ' ' !in lhs && Lower(keyword) == "s"
    ensures TryFrom(keyword + " " + lhs + " " + rhs, parseScalar).Ok? <==>
      ParseRow(lhs).Some? && ParseRow(rhs).Some?
    ensures ParseRow(lhs).Some? && ParseRow(rhs).Some? ==>
      TryFrom(keyword + " " + lhs + " " + rhs, parseScalar) == Ok(SwapRows(ParseRow(lhs).value, ParseRow(rhs).value))
  {
    JoinRight3(keyword, lhs, rhs);
    SplitOnceAt(keyword, ' ', lhs + [' '] + rhs);
    SplitOnceAt(lhs, ' ', rhs);
  }

  /** Every line read as a swap is `s`, a row token, a space and a row token. */
  lemma SwapLineShape(line: string, parseScalar: ScalerParser) returns (keyword: string, lhs: string, rhs: string)
    requires TryFrom(line, parseScalar).Ok? && TryFrom(line, parseScalar).value.SwapRows?
    ensures line == keyword + " " + lhs + " " + rhs
    ensures ' ' !in keyword && ' ' !in lhs && ' ' !in rhs && Lower(keyword) == "s"
    ensures ParseRow(lhs) == Some(TryFrom(line, parseScalar).value.lhs)
    ensures ParseRow(rhs) == Some(TryFrom(line, parseScalar).value.rhs)
  {
    TryFromKeyword(line, parseScalar);
    var rest;
    keyword, rest := SplitOnce(line, ' ').value.0, SplitOnce(line, ' ').value.1;
    assert TryFrom(line, parseScalar) == ParseSwap(rest);
    lhs, rhs := SplitOnce(rest, ' ').value.0, SplitOnce(rest, ' ').value.1;
    RowTokenHasNoSpace(rhs);
    JoinRight3(keyword, lhs, rhs);
  }

  /** Decimal renderings of two rows, with or without `R` prefixes, parse back to the swap. */
  lemma SwapRoundTrip(a: Usize, b: Usize, parseScalar: ScalerParser)
    ensures TryFrom("s " + Dec(a) + " " + Dec(b), parseScalar) == Ok(SwapRows(a, b))
    ensures TryFrom("S R" + Dec(a) + " R" + Dec(b), parseScalar) == Ok(SwapRows(a, b))
  {
    SwapRoundTripBare(a, b, parseScalar);
    SwapRoundTripPrefixed(a, b, parseScalar);
  }

  lemma SwapRoundTripBare(a: Usize, b: Usize, parseScalar: ScalerParser)
    ensures TryFrom("s " + Dec(a) + " " + Dec(b), parseScalar) == Ok(SwapRows(a, b))
  {
    DecIsRowToken(a);
    DecIsRowToken(b);
    assert Lower("s") == "s";
    SwapLineParses("s", Dec(a), Dec(b), parseScalar);
    SwapLiteral(Dec(a), Dec(b));
  }

  lemma SwapRoundTripPrefixed(a: Usize, b: Usize, parseScalar: ScalerParser)
    ensures TryFrom("S R" + Dec(a) + " R" + Dec(b), parseScalar) == Ok(SwapRows(a, b))
  {
    PrefixedDecIsRowToken(a);
    PrefixedDecIsRowToken(b);
    assert Lower("S") == "s";
    SwapLineParses("S", "R" + Dec(a), "R" + Dec(b), parseScalar);
    SwapLiteral(Dec(a), Dec(b));
  }

  lemma SwapLiteral(x: string, y: string)
    ensures "s " + x + " " + y == "s" + " " + x + " " + y
    ensures "S R" + x + " R" + y == "S" + " " + ("R" + x) + " " + ("R" + y)
  {
  }

  /** A decimal rendering is a space-free row token for its value. */
  lemma DecIsRowToken(n: Usize)
    ensures ParseRow(Dec(n)) == Some(n)
    ensures ' ' !in Dec(n)
  {
    ParseDec(n);
    NormalizeDigits(Dec(n));
  }

  /** So is a decimal rendering behind an `R`. */
  lemma PrefixedDecIsRowToken(n: Usize)
    ensures ParseRow("R" + Dec(n)) == Some(n)
    ensures ' ' !in "R" + Dec(n)
  {
    ParseDec(n);
    NormalizeDropsPrefix(Dec(n));
  }

  /** `m` followed by a scaler token and a row token. */
  lemma MultiplyLineParses(keyword: string, scaler: string, row: string, parseScalar: ScalerParser)
    requires ' ' !in keyword && ' ' !in scaler && Lower(keyword) == "m"
    ensures TryFrom(keyword + " " + scaler + " " + row, parseScalar).Ok? <==>
      parseScalar(scaler).Some? && ParseRow(row).Some?
    ensures parseScalar(scaler).Some? && ParseRow(row).Some? ==>
      TryFrom(keyword + " " + scaler + " " + row, parseScalar) ==
        Ok(Multiply(ParseRow(row).value, parseScalar(scaler).value))
  {
    JoinRight3(keyword, scaler, row);
    SplitOnceAt(keyword, ' ', scaler + [' '] + row);
    SplitOnceAt(scaler, ' ', row);
  }

  /** Every line read as a multiplication is `m`, a scaler token, a space and a row token. */
  lemma MultiplyLineShape(line: string, parseScalar: ScalerParser) returns (keyword: string, scaler: string, row: string)
    requires TryFrom(line, parseScalar).Ok? && TryFrom(line, parseScalar).value.Multiply?
    ensures line == keyword + " " + scaler + " " + row
    ensures ' ' !in keyword && ' ' !in scaler && ' ' !in row && Lower(keyword) == "m"
    ensures parseScalar(scaler) == Some(TryFrom(line, parseScalar).value.scaler)
    ensures ParseRow(row) == Some(TryFrom(line, parseScalar).value.row)
  {
    TryFromKeyword(line, parseScalar);
    var rest;
    keyword, rest := SplitOnce(line, ' ').value.0, SplitOnce(line, ' ').value.1;
    assert TryFrom(line, parseScalar) == ParseMultiply(rest, parseScalar);
    scaler, row := SplitOnce(rest, ' ').value.0, SplitOnce(rest, ' ').value.1;
    RowTokenHasNoSpace(row);
    JoinRight3(keyword, scaler, row);
  }

  /** `r` followed by a scaler token and two row tokens, each read from its own token. */
  lemma ReplaceLineParses(keyword: string, scaler: string, fromRow: string, toRow: string, parseScalar: ScalerParser)
    requires ' ' !in keyword && ' ' !in scaler && ' ' !in fromRow && Lower(keyword) == "r"
    ensures TryFrom(keyword + " " + scaler + " " + fromRow + " " + toRow, parseScalar).Ok? <==>
      parseScalar(scaler).Some? && ParseRow(fromRow).Some? && ParseRow(toRow).Some?
    ensures parseScalar(scaler).Some? && ParseRow(fromRow).Some? && ParseRow(toRow).Some? ==>
      TryFrom(keyword + " " + scaler + " " + fromRow + " " + toRow, parseScalar) ==
        Ok(ReplaceWithMultiple(parseScalar(scaler).value, ParseRow(fromRow).value, ParseRow(toRow).value))
  {
    var rows := fromRow + [' '] + toRow;
    JoinRight4(keyword, scaler, fromRow, toRow);
    SplitOnceAt(keyword, ' ', scaler + [' '] + rows);
    SplitOnceAt(scaler, ' ', rows);
    SplitOnceAt(fromRow, ' ', toRow);
  }

  /** Every line read as a row replacement is `r` and three space-separated tokens. */
  lemma ReplaceLineShape(line: string, parseScalar: ScalerParser)
    returns (keyword: string, scaler: string, fromRow: string, toRow: string)
    requires TryFrom(line, parseScalar).Ok? && TryFrom(line, parseScalar).value.ReplaceWithMultiple?
    ensures line == keyword + " " + scaler + " " + fromRow + " " + toRow
    ensures ' ' !in keyword && ' ' !in scaler && ' ' !in fromRow && ' ' !in toRow && Lower(keyword) == "r"
    ensures parseScalar(scaler) == Some(TryFrom(line, parseScalar).value.scaler)
    ensures ParseRow(fromRow) == Some(TryFrom(line, parseScalar).value.fromRow)
    ensures ParseRow(toRow) == Some(TryFrom(line, parseScalar).value.toRow)
  {
    TryFromKeyword(line, parseScalar);
    var rest, rows;
    keyword, rest := SplitOnce(line, ' ').value.0, SplitOnce(line, ' ').value.1;
    assert TryFrom(line, parseScalar) == ParseReplace(rest, parseScalar);
    scaler, rows := SplitOnce(rest, ' ').value.0, SplitOnce(rest, ' ').value.1;
    fromRow, toRow := SplitOnce(rows, ' ').value.0, SplitOnce(rows, ' ').value.1;
    RowTokenHasNoSpace(toRow);
    JoinRight4(keyword, scaler, fromRow, toRow);
  }

  /** Different swaps render differently. */
  lemma RenderSwapInjective(a: Usize, b: Usize, c: Usize, d: Usize, showScalar: real -> string)
    requires Render(SwapRows(a, b), showScalar) == Render(SwapRows(c, d), showScalar)
    ensures a == c && b == d
  {
    RenderSwapSplits(a, b, showScalar);
    RenderSwapSplits(c, d, showScalar);
    DecInjective(a, c);
    DecInjective(b, d);
  }

  /** A rendered swap splits at its first space into the left operand and the rest. */
  lemma RenderSwapSplits(a: Usize, b: Usize, showScalar: real -> string)
    ensures SplitOnce(Render(SwapRows(a, b), showScalar), ' ') == Some(("R" + Dec(a), "<-> R" + Dec(b)))
    ensures Dec(a) == ("R" + Dec(a))[1..] && Dec(b) == ("<-> R" + Dec(b))[5..]
  {
    assert ' ' !in "R" + Dec(a);
    assert Render(SwapRows(a, b), showScalar) == ("R" + Dec(a)) + [' '] + ("<-> R" + Dec(b));
    SplitOnceAt("R" + Dec(a), ' ', "<-> R" + Dec(b));
  }

  /**
    A rendered swap does not read back as a swap: its first word `R<lhs>` is
    taken as the keyword, and no keyword starts with `r` followed by a digit.
   */
  lemma RenderSwapNotReparsed(a: Usize, b: Usize, showScalar: real -> string, parseScalar: ScalerParser)
    ensures TryFrom(Render(SwapRows(a, b), showScalar), parseScalar) == Err(InvalidOperation("R" + Dec(a)))
  {
    var line, keyword := Render(SwapRows(a, b), showScalar), "R" + Dec(a);
    RenderSwapSplits(a, b, showScalar);
    LowerConcat("R", Dec(a));
    assert Lower("R") == "r";
    var lowered := Lower(keyword);
    assert |lowered| > 1 && lowered[0] == 'r';
    assert lowered != "h" && lowered != "help" && lowered != "s" && lowered != "m" && lowered != "r";
    assert TryFrom(line, parseScalar) == Dispatch(keyword, "<-> R" + Dec(b), parseScalar);
  }

  /** Row tokens lose every `r` whatever its place: `s r<a>r <b>` is the swap of rows `a` and `b`. */
  lemma SwapWrappedRoundTrip(a: Usize, b: Usize, parseScalar: ScalerParser)
    ensures TryFrom("s r" + Dec(a) + "r " + Dec(b), parseScalar) == Ok(SwapRows(a, b))
  {
    var token := "r" + Dec(a) + "r";
    NormalizeWrapped(Dec(a));
    ParseDec(a);
    DecIsRowToken(b);
    assert ' ' !in token;
    assert Lower("s") == "s";
    SwapLineParses("s", token, Dec(b), parseScalar);
    WrappedLiteral(Dec(a), Dec(b));
  }

  lemma WrappedLiteral(x: string, y: string)
    ensures "s r" + x + "r " + y == "s" + " " + ("r" + x + "r") + " " + y
  {
  }

  /**
    A swap with a row token that is not a number is rejected, naming the
    normal form of the first such token.
   */
  lemma SwapBadToken(keyword: string, lhs: string, rhs: string, parseScalar: ScalerParser)
    requires ' ' !in keyword && ' ' !in lhs && Lower(keyword) == "s"
    ensures ParseRow(lhs).None? ==>
      TryFrom(keyword + " " + lhs + " " + rhs, parseScalar) == Err(NotUsize(Normalize(lhs)))
    ensures ParseRow(lhs).Some? && ParseRow(rhs).None? ==>
      TryFrom(keyword + " " + lhs + " " + rhs, parseScalar) == Err(NotUsize(Normalize(rhs)))
  {
    JoinRight3(keyword, lhs, rhs);
    SplitOnceAt(keyword, ' ', lhs + [' '] + rhs);
    SplitOnceAt(lhs, ' ', rhs);
  }

  /**
    A token holding a letter other than `r` or `R` is not a row token: the
    letter survives normalisation, lower-cased, and no number holds it.
   */
  lemma LetterToken(token: string, i: nat)
    requires i < |token| && IsLetter(token[i]) && token[i] != 'r' && token[i] != 'R'
    ensures LowerChar(token[i]) in Normalize(token)
    ensures ParseRow(token) == None
  {
    NormalizeKeeps(token);
  }

  /** `s` with a single operand token lacks the second space and is rejected. */
  lemma SwapMissingToken(keyword: string, operand: string, parseScalar: ScalerParser)
    requires ' ' !in keyword && ' ' !in operand && Lower(keyword) == "s"
    ensures TryFrom(keyword + " " + operand, parseScalar) == Err(MissingRowPair(operand))
  {
    SplitOnceAt(keyword, ' ', operand);
  }

  /** `s` with three operand tokens is rejected: the last "token" still holds a space. */
  lemma SwapExtraToken(keyword: string, a: string, b: string, c: string, parseScalar: ScalerParser)
    requires ' ' !in keyword && ' ' !in a && Lower(keyword) == "s"
    ensures TryFrom(keyword + " " + a + " " + b + " " + c, parseScalar).Err?
  {
    JoinRight4(keyword, a, b, c);
    assert keyword + " " + a + " " + b + " " + c == keyword + " " + a + " " + (b + " " + c);
    SwapLineParses(keyword, a, b + " " + c, parseScalar);
    if ParseRow(b + " " + c).Some? {
      RowTokenHasNoSpace(b + " " + c);
    }
  }

  /** `m` with a single operand token is rejected. */
  lemma MultiplyMissingToken(keyword: string, operand: string, parseScalar: ScalerParser)
    requires ' ' !in keyword && ' ' !in operand && Lower(keyword) == "m"
    ensures TryFrom(keyword + " " + operand, parseScalar) == Err(MissingScalerAndRow(operand))
  {
    SplitOnceAt(keyword, ' ', operand);
  }

  /** `r` with one or two operand tokens is rejected. */
  lemma ReplaceMissingTokens(keyword: string, scaler: string, row: string, parseScalar: ScalerParser)
    requires ' ' !in keyword && ' ' !in scaler && ' ' !in row && Lower(keyword) == "r"
    ensures TryFrom(keyword + " " + scaler, parseScalar) == Err(MissingScalerAndRows(scaler))
    ensures TryFrom(keyword + " " + scaler + " " + row, parseScalar) == Err(MissingRowIndices(row))
  {
    SplitOnceAt(keyword, ' ', scaler);
    JoinRight3(keyword, scaler, row);
    SplitOnceAt(keyword, ' ', scaler + [' '] + row);
    SplitOnceAt(scaler, ' ', row);
  }

  /**
    `m` with a scaler and a row token: a scaler that does not parse is
    reported first, then a row token that does not, each as typed.
   */
  lemma MultiplyBadToken(keyword: string, scaler: string, row: string, parseScalar: ScalerParser)
    requires ' ' !in keyword && ' ' !in scaler && Lower(keyword) == "m"
    ensures parseScalar(scaler).None? ==>
      TryFrom(keyword + " " + scaler + " " + row, parseScalar) == Err(NotParsed(scaler))
    ensures parseScalar(scaler).Some? && ParseRow(row).None? ==>
      TryFrom(keyword + " " + scaler + " " + row, parseScalar) == Err(NotParsed(row))
  {
    var rest := scaler + [' '] + row;
    JoinRight3(keyword, scaler, row);
    SplitOnceAt(keyword, ' ', rest);
    SplitOnceAt(scaler, ' ', row);
    assert TryFrom(keyword + " " + scaler + " " + row, parseScalar) == ParseMultiply(rest, parseScalar);
  }

  /**
    `r` with a scaler and two row tokens: the scaler is checked first, then
    the source row, then the target row; the first that does not parse is
    reported as typed.
   */
  lemma ReplaceBadToken(keyword: string, scaler: string, fromRow: string, toRow: string, parseScalar: ScalerParser)
    requires ' ' !in keyword && ' ' !in scaler && ' ' !in fromRow && Lower(keyword) == "r"
    ensures parseScalar(scaler).None? ==>
      TryFrom(keyword + " " + scaler + " " + fromRow + " " + toRow, parseScalar) == Err(NotParsed(scaler))
    ensures parseScalar(scaler).Some? && ParseRow(fromRow).None? ==>
      TryFrom(keyword + " " + scaler + " " + fromRow + " " + toRow, parseScalar) == Err(NotParsed(fromRow))
    ensures parseScalar(scaler).Some? && ParseRow(fromRow).Some? && ParseRow(toRow).None? ==>
      TryFrom(keyword + " " + scaler + " " + fromRow + " " + toRow, parseScalar) == Err(NotParsed(toRow))
  {
    var rows := fromRow + [' '] + toRow;
    JoinRight4(keyword, scaler, fromRow, toRow);
    SplitOnceAt(keyword, ' ', scaler + [' '] + rows);
    SplitOnceAt(scaler, ' ', rows);
    SplitOnceAt(fromRow, ' ', toRow);
  }
}
