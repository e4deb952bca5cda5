/** The operator tokenizer and the single-token recognisers of the expression parser
    (compiler/parse/src/expr.rs, `chomp_ops`, `operator_help`, `unary_negate`,
    `equals_with_indent_help`, `colon_with_indent`, `backpassing_with_indent`). */
module Operators {
  import opened Numeric
  import opened Wrappers
  import opened Ast
  import opened ParserState

  /** `BINOP_CHAR_SET`: the bytes an operator may be made of. */
  const BinopCharSet: seq<u8> :=
    ['+' as u8, '-' as u8, '/' as u8, '*' as u8, '=' as u8, '.' as u8, '<' as u8, '>' as u8,
     ':' as u8, '&' as u8, '|' as u8, '^' as u8, '?' as u8, '%' as u8, '!' as u8]

  predicate IsOperatorByte(b: u8) {
    b in BinopCharSet
  }

  /** The length of the run of operator bytes that starts the input. */
  function OperatorRun(bytes: seq<u8>): (n: nat)
    ensures n <= |bytes|
  {
    if bytes == [] || !IsOperatorByte(bytes[0]) then 0 else 1 + OperatorRun(bytes[1..])
  }

  /** `n` is the length of the longest prefix of `bytes` made only of operator bytes. */
  predicate IsLongestOperatorPrefix(bytes: seq<u8>, n: nat) {
    && n <= |bytes|
    && (forall i | 0 <= i < n :: IsOperatorByte(bytes[i]))
    && (n < |bytes| ==> !IsOperatorByte(bytes[n]))
  }

  /** `OperatorRun` measures exactly the longest operator prefix, and no other length does. */
  lemma {:induction false} OperatorRunIsLongestPrefix(bytes: seq<u8>, n: nat)
    ensures IsLongestOperatorPrefix(bytes, OperatorRun(bytes))
    ensures IsLongestOperatorPrefix(bytes, n) ==> n == OperatorRun(bytes)
  {
    if bytes != [] && IsOperatorByte(bytes[0]) {
      OperatorRunIsLongestPrefix(bytes[1..], if n == 0 then 0 else n - 1);
      if IsLongestOperatorPrefix(bytes, n) {
        assert n != 0;
        assert IsLongestOperatorPrefix(bytes[1..], n - 1) by {
          forall i | 0 <= i < n - 1 ensures IsOperatorByte(bytes[1..][i]) {
            assert bytes[1..][i] == bytes[i + 1];
          }
        }
      }
    }
  }

  /** `chomp_ops`: count the leading operator bytes. */
  method ChompOps(bytes: seq<u8>) returns (chomped: nat)
    ensures IsLongestOperatorPrefix(bytes, chomped)
    ensures chomped == OperatorRun(bytes)
  {
    chomped := 0;
    while chomped < |bytes|
      invariant chomped <= |bytes|
      invariant forall i | 0 <= i < chomped :: IsOperatorByte(bytes[i])
    {
      if !IsOperatorByte(bytes[chomped]) {
        OperatorRunIsLongestPrefix(bytes, chomped);
        return;
      }
      chomped := chomped + 1;
    }
    OperatorRunIsLongestPrefix(bytes, chomped);
  }

  /** How each operator is written: the reference table the tokenizer must agree with. */
  function Spelling(op: BinOp): (s: seq<u8>)
    ensures 1 <= |s| <= 2
  {
    match op
    case Plus => ['+' as u8]
    case Minus => ['-' as u8]
    case Star => ['*' as u8]
    case Slash => ['/' as u8]
    case Percent => ['%' as u8]
    case Caret => ['^' as u8]
    case GreaterThan => ['>' as u8]
    case LessThan => ['<' as u8]
    case Assignment => ['=' as u8]
    case HasType => [':' as u8]
    case Pizza => ['|' as u8, '>' as u8]
    case Equals => ['=' as u8, '=' as u8]
    case NotEquals => ['!' as u8, '=' as u8]
    case GreaterThanOrEq => ['>' as u8, '=' as u8]
    case LessThanOrEq => ['<' as u8, '=' as u8]
    case And => ['&' as u8, '&' as u8]
    case Or => ['|' as u8, '|' as u8]
    case DoubleSlash => ['/' as u8, '/' as u8]
    case DoublePercent => ['%' as u8, '%' as u8]
    case Backpassing => ['<' as u8, '-' as u8]
  }

  /** The two operator runs left to other parsers without consuming them: `.` (field
      access) and `->` (the arrow of lambdas and `when` branches). */
  predicate IsReservedRun(run: seq<u8>) {
    run == ['.' as u8] || run == ['-' as u8, '>' as u8]
  }

  /** The operators spelled with one byte (`.` is not one of them). */
  function OneByteOperator(b: u8): Option<BinOp> {
    if b == '+' as u8 then Some(Plus)
    else if b == '-' as u8 then Some(Minus)
    else if b == '*' as u8 then Some(Star)
    else if b == '/' as u8 then Some(Slash)
    else if b == '%' as u8 then Some(Percent)
    else if b == '^' as u8 then Some(Caret)
    else if b == '>' as u8 then Some(GreaterThan)
    else if b == '<' as u8 then Some(LessThan)
    else if b == '=' as u8 then Some(Assignment)
    else if b == ':' as u8 then Some(HasType)
    else None
  }

  /** The operators spelled with two bytes (`->` is not one of them). */
  function TwoByteOperator(b0: u8, b1: u8): Option<BinOp> {
    if b0 == '|' as u8 && b1 == '>' as u8 then Some(Pizza)
    else if b0 == '=' as u8 && b1 == '=' as u8 then Some(BinOp.Equals)
    else if b0 == '!' as u8 && b1 == '=' as u8 then Some(NotEquals)
    else if b0 == '>' as u8 && b1 == '=' as u8 then Some(GreaterThanOrEq)
    else if b0 == '<' as u8 && b1 == '=' as u8 then Some(LessThanOrEq)
    else if b0 == '&' as u8 && b1 == '&' as u8 then Some(And)
    else if b0 == '|' as u8 && b1 == '|' as u8 then Some(Or)
    else if b0 == '/' as u8 && b1 == '/' as u8 then Some(DoubleSlash)
    else if b0 == '%' as u8 && b1 == '%' as u8 then Some(DoublePercent)
    else if b0 == '<' as u8 && b1 == '-' as u8 then Some(BinOp.Backpassing)
    else None
  }

  /** The one-byte table is exactly the one-byte part of the spelling table. */
  lemma OneByteOperatorSpells(b: u8, op: BinOp)
    ensures OneByteOperator(b) == Some(op) <==> Spelling(op) == [b]
  {
    match op
    case Plus =>
    case Minus =>
    case Star =>
    case Slash =>
    case Percent =>
    case Caret =>
    case GreaterThan =>
    case LessThan =>
    case Assignment =>
    case HasType =>
    case _ => assert |Spelling(op)| == 2;
  }

  /** The two-byte table is exactly the two-byte part of the spelling table. */
  lemma TwoByteOperatorSpells(b0: u8, b1: u8, op: BinOp)
    ensures TwoByteOperator(b0, b1) == Some(op) <==> Spelling(op) == [b0, b1]
  {
    match op
    case Pizza =>
    case Equals =>
    case NotEquals =>
    case GreaterThanOrEq =>
    case LessThanOrEq =>
    case And =>
    case Or =>
    case DoubleSlash =>
    case DoublePercent =>
    case Backpassing =>
    case _ => assert |Spelling(op)| == 1;
  }

  /** `operator_help` instantiated as `operator` does, with `EExpr::Start` for "no operator
      here" and `EExpr::BadOperator` for a run that is no operator. */
  function OperatorHelp(state: State): (r: ParseResult<BinOp, EExpr>)
    ensures r.Success? ==> r.progress == MadeProgress
    ensures r.Failure? ==> r.state == state
  {
    var bytes := state.bytes;
    var chomped := OperatorRun(bytes);
    if chomped == 0 then
      Failure(NoProgress, Start(state.line, state.column), state)
    else if chomped == 1 then
      if bytes[0] == '.' as u8 then
        Failure(NoProgress, BadOperator(['.' as u8], state.line, state.column), state)
      else
        match OneByteOperator(bytes[0])
        case Some(op) => Success(MadeProgress, op, Advance(state, 1))
        case None => Failure(MadeProgress, BadOperator(bytes[0..1], state.line, state.column), state)
    else if chomped == 2 then
      if bytes[0] == '-' as u8 && bytes[1] == '>' as u8 then
        Failure(NoProgress, BadOperator(['-' as u8, '>' as u8], state.line, state.column), state)
      else
        match TwoByteOperator(bytes[0], bytes[1])
        case Some(op) => Success(MadeProgress, op, Advance(state, 2))
        case None => Failure(MadeProgress, BadOperator(bytes[0..2], state.line, state.column), state)
    else
      Failure(MadeProgress, BadOperator(bytes[0..chomped], state.line, state.column), state)
  }

  /** A token is the spelling of the operator it yields, and exactly that spelling is
      consumed: every operator run is consumed whole or not at all. */
  lemma OperatorHelpYieldsSpelling(state: State)
    requires OperatorHelp(state).Success?
    ensures var run := state.bytes[..OperatorRun(state.bytes)];
      && Spelling(OperatorHelp(state).value) == run
      && OperatorHelp(state).state == Advance(state, |run|)
  {
    var run := state.bytes[..OperatorRun(state.bytes)];
    var op := OperatorHelp(state).value;
    if |run| == 1 {
      assert run == [state.bytes[0]];
      OneByteOperatorSpells(state.bytes[0], op);
    } else {
      assert run == [state.bytes[0], state.bytes[1]];
      TwoByteOperatorSpells(state.bytes[0], state.bytes[1], op);
    }
  }

  /** A failure carries the run it refused, and consumed nothing; it reports progress
      exactly when the run is neither empty nor one of the reserved runs `.` and `->`.
      An empty run, `.` and `->` always fail without progress, and a run of three or
      more bytes is always refused with progress. */
  lemma OperatorHelpFailure(state: State)
    ensures var run := state.bytes[..OperatorRun(state.bytes)];
      var r := OperatorHelp(state);
      && (r.Failure? ==> (r.progress == NoProgress <==> run == [] || IsReservedRun(run)))
      && (r.Failure? && run == [] ==> r.error == Start(state.line, state.column))
      && (r.Failure? && run != [] ==> r.error == BadOperator(run, state.line, state.column))
      && (|run| >= 3 ==> r == Failure(MadeProgress, BadOperator(run, state.line, state.column), state))
    ensures var run := state.bytes[..OperatorRun(state.bytes)];
      run == [] || IsReservedRun(run) ==>
        OperatorHelp(state) == Failure(NoProgress, if run == [] then Start(state.line, state.column)
                                                   else BadOperator(run, state.line, state.column), state)
  {
    var run := state.bytes[..OperatorRun(state.bytes)];
    if |run| == 1 {
      assert run == [state.bytes[0]];
    } else if |run| == 2 {
      assert run == [state.bytes[0], state.bytes[1]];
    }
  }

  /** Every spelling is a run of one or two operator bytes, and neither reserved run. */
  lemma SpellingIsOperatorRun(op: BinOp)
    ensures 1 <= |Spelling(op)| <= 2
    ensures forall i | 0 <= i < |Spelling(op)| :: IsOperatorByte(Spelling(op)[i])
    ensures !IsReservedRun(Spelling(op))
  {
  }

  /** Conversely to `OperatorHelpYieldsSpelling`: an input whose operator run is the
      spelling of `op` is tokenized as `op`, consuming exactly that spelling. */
  lemma OperatorHelpAcceptsEverySpelling(state: State, op: BinOp)
    requires state.bytes[..OperatorRun(state.bytes)] == Spelling(op)
    ensures OperatorHelp(state) == Success(MadeProgress, op, Advance(state, |Spelling(op)|))
  {
    SpellingIsOperatorRun(op);
    var run := state.bytes[..OperatorRun(state.bytes)];
    if |run| == 1 {
      assert run == [state.bytes[0]];
      OneByteOperatorSpells(state.bytes[0], op);
      assert state.bytes[0] != '.' as u8 && OneByteOperator(state.bytes[0]) == Some(op);
    } else {
      assert run == [state.bytes[0], state.bytes[1]];
      TwoByteOperatorSpells(state.bytes[0], state.bytes[1], op);
      assert TwoByteOperator(state.bytes[0], state.bytes[1]) == Some(op);
    }
  }

  predicate IsAsciiWhitespace(b: u8) {
    b == ' ' as u8 || b == '\t' as u8 || b == '\n' as u8 || b == 0x0C || b == '\r' as u8
  }

  predicate IsAsciiDigit(b: u8) {
    '0' as u8 <= b <= '9' as u8
  }

  /** `unary_negate`: a `-` starts a prefix negation unless the byte after it is
      whitespace, a comment start `#` or a digit (a digit belongs to a negative literal). */
  function UnaryNegate(state: State): (r: ParseResult<(), EExpr>)
    ensures r.Success? <==>
      && |state.bytes| >= 1 && state.bytes[0] == '-' as u8
      && (|state.bytes| == 1 || !(IsAsciiWhitespace(state.bytes[1]) || state.bytes[1] == '#' as u8
                                  || IsAsciiDigit(state.bytes[1])))
    ensures r.Success? ==> r.progress == MadeProgress && r.state == Advance(state, 1)
    ensures r.Failure? ==> r == Failure(NoProgress, UnaryNot(state.line, state.column), state)
  {
    var followedByWhitespace :=
      |state.bytes| >= 2 &&
      (IsAsciiWhitespace(state.bytes[1]) || state.bytes[1] == '#' as u8 || IsAsciiDigit(state.bytes[1]));
    if |state.bytes| >= 1 && state.bytes[0] == '-' as u8 && !followedByWhitespace then
      Success(MadeProgress, (), state.(bytes := state.bytes[1..], column := WrappingAdd(state.column, 1)))
    else
      Failure(NoProgress, UnaryNot(state.line, state.column), state)
  }

  /** A prefix `-` that is also a complete operator run is consumed the same way by
      `unary_negate` and by the operator tokenizer. */
  lemma UnaryNegateAgreesWithOperator(state: State)
    requires UnaryNegate(state).Success?
    requires OperatorRun(state.bytes) == 1
    ensures OperatorHelp(state) == Success(MadeProgress, Minus, UnaryNegate(state).state)
  {
    OperatorHelpAcceptsEverySpelling(state, Minus);
  }

  /** `equals_with_indent_help`: a lone `=` (not `==`); yields the indentation column. */
  function EqualsWithIndent(state: State): (r: ParseResult<u16, EExpr>)
    ensures r.Success? <==> |state.bytes| >= 1 && state.bytes[0] == '=' as u8
                            && !(|state.bytes| >= 2 && state.bytes[1] == '=' as u8)
    ensures r.Success? ==> r == Success(MadeProgress, state.indentCol, Advance(state, 1))
    ensures r.Failure? ==> r == Failure(NoProgress, EExpr.Equals(state.line, state.column), state)
  {
    var good := |state.bytes| >= 1 && state.bytes[0] == '=' as u8
                && !(|state.bytes| >= 2 && state.bytes[1] == '=' as u8);
    if good then Success(MadeProgress, state.indentCol, Advance(state, 1))
    else Failure(NoProgress, EExpr.Equals(state.line, state.column), state)
  }

  /** `colon_with_indent`: a lone `:`; `::` is refused without consuming anything. */
  function ColonWithIndent(state: State): (r: ParseResult<u16, EExpr>)
    ensures r.Success? <==> |state.bytes| >= 1 && state.bytes[0] == ':' as u8
                            && !(|state.bytes| >= 2 && state.bytes[1] == ':' as u8)
    ensures r.Success? ==> r == Success(MadeProgress, state.indentCol, Advance(state, 1))
    ensures r.Failure? ==> r.progress == NoProgress && r.state == state
    ensures r.Failure? && |state.bytes| >= 2 && state.bytes[0] == ':' as u8 ==>
      r.error == DoubleColon(state.line, state.column)
    ensures !(|state.bytes| >= 1 && state.bytes[0] == ':' as u8) ==>
      r == Failure(NoProgress, Colon(state.line, state.column), state)
  {
    if |state.bytes| >= 1 && state.bytes[0] == ':' as u8 then
      if |state.bytes| >= 2 && state.bytes[1] == ':' as u8 then
        Failure(NoProgress, DoubleColon(state.line, state.column), state)
      else
        Success(MadeProgress, state.indentCol, Advance(state, 1))
    else
      Failure(NoProgress, Colon(state.line, state.column), state)
  }

  /** `backpassing_with_indent`: the two bytes `<-`. */
  function BackpassingWithIndent(state: State): (r: ParseResult<u16, EExpr>)
    ensures r.Success? <==> |state.bytes| >= 2 && state.bytes[..2] == ['<' as u8, '-' as u8]
    ensures r.Success? ==> r == Success(MadeProgress, state.indentCol, Advance(state, 2))
    ensures r.Failure? ==> r == Failure(NoProgress, BackpassArrow(state.line, state.column), state)
  {
    if |state.bytes| >= 2 && state.bytes[0] == '<' as u8 && state.bytes[1] == '-' as u8 then
      Success(MadeProgress, state.indentCol, Advance(state, 2))
    else
      Failure(NoProgress, BackpassArrow(state.line, state.column), state)
  }

  /** Where the tokenizer reads `=`, `:` or `<-`, the matching definition recogniser
      accepts too and leaves the parser in the same state. */
  lemma RecognisersAgreeWithOperator(state: State)
    ensures OperatorHelp(state).Success? && OperatorHelp(state).value == Assignment ==>
      EqualsWithIndent(state) == Success(MadeProgress, state.indentCol, OperatorHelp(state).state)
    ensures OperatorHelp(state).Success? && OperatorHelp(state).value == HasType ==>
      ColonWithIndent(state) == Success(MadeProgress, state.indentCol, OperatorHelp(state).state)
    ensures OperatorHelp(state).Success? && OperatorHelp(state).value == BinOp.Backpassing ==>
      BackpassingWithIndent(state) == Success(MadeProgress, state.indentCol, OperatorHelp(state).state)
  {
    var run := state.bytes[..OperatorRun(state.bytes)];
    if OperatorHelp(state).Success? {
      OperatorHelpYieldsSpelling(state);
      assert state.bytes[0] == run[0];
      if |run| == 1 && |state.bytes| >= 2 {
        OperatorRunIsLongestPrefix(state.bytes, 1);
      }
      if |run| == 2 {
        assert state.bytes[1] == run[1];
      }
    }
  }
}
