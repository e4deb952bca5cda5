/** Folding a parsed chain `t0 a1 … op1 t1 … opn tn` into one expression: the state the
    expression parser carries between terms (`ExprState`), the calls built from juxtaposed
    arguments (`to_call`), the operator fold (`parse_expr_final`), and the decision
    `parse_expr_operator` takes when it meets an operator. */
module OperatorChain {
  import opened Numeric
  import opened Wrappers
  import opened Regions
  import opened Ast
  import opened ParserState
  import opened Reinterpret

  /** A left operand waiting for its right-hand side, with the operator between them. */
  type OperatorEntry = (Located<Expr>, Located<BinOp>)

  /** `to_call`: a term followed by juxtaposed arguments. With no arguments the term is
      returned unchanged; otherwise it is one application of the term to all the arguments,
      in order, written with spaces, spanning from the term to the last argument. */
  function ToCall(arguments: seq<Located<Expr>>, expr: Located<Expr>): (r: Located<Expr>)
    ensures arguments == [] ==> r == expr
    ensures arguments != [] ==>
      && r.value == Expr.Apply(expr, arguments, Space)
      && r.region == SpanAcross(expr.region, arguments[|arguments| - 1].region)
  {
    if arguments == [] then expr
    else Located(SpanAcross(expr.region, arguments[|arguments| - 1].region), Expr.Apply(expr, arguments, Space))
  }

  /** The callee and arguments of a call written with spaces; any other expression is a
      callee without arguments. */
  function CallParts(e: Located<Expr>): (Located<Expr>, seq<Located<Expr>>) {
    if e.value.Apply? && e.value.calledVia == Space then (e.value.callee, e.value.args) else (e, [])
  }

  /** `to_call` loses nothing: its callee and arguments can be read back. */
  lemma ToCallRoundTrip(arguments: seq<Located<Expr>>, expr: Located<Expr>)
    requires arguments != [] || !(expr.value.Apply? && expr.value.calledVia == Space)
    ensures CallParts(ToCall(arguments, expr)) == (expr, arguments)
  {
  }

  /** The operator fold: `[(l1, o1), …, (ln, on)]` over `call` is
      `l1 o1 (l2 o2 (… (ln on call)))`, nested to the right in the order the operators
      were met, whatever the operators are. */
  function FoldOperators(operators: seq<OperatorEntry>, call: Located<Expr>): Located<Expr>
    decreases |operators|
  {
    if operators == [] then call
    else
      var rest := FoldOperators(operators[1..], call);
      Located(SpanAcross(operators[0].0.region, rest.region), Expr.BinOp(operators[0].0, operators[0].1, rest))
  }

  /** The right spine of nested binary operations: its left operands and operators from
      the top down, and the expression at its bottom. */
  function Spine(e: Located<Expr>): (seq<OperatorEntry>, Located<Expr>)
    decreases e
  {
    if e.value.BinOp? then
      var below := Spine(e.value.right);
      ([(e.value.left, e.value.binOp)] + below.0, below.1)
    else ([], e)
  }

  /** The fold can be undone: the spine of a folded chain lists exactly the folded
      operators in order, with the final call at the bottom. */
  lemma {:induction false} FoldSpineRoundTrip(operators: seq<OperatorEntry>, call: Located<Expr>)
    requires !call.value.BinOp?
    ensures Spine(FoldOperators(operators, call)) == (operators, call)
    decreases |operators|
  {
    if operators != [] {
      FoldSpineRoundTrip(operators[1..], call);
      assert [operators[0]] + operators[1..] == operators;
    }
  }

  /** Folding one more operator at the end is folding it around the call first; this is
      what lets the reversed loop of `parse_expr_final` build the fold from the inside. */
  lemma {:induction false} FoldSnoc(operators: seq<OperatorEntry>, entry: OperatorEntry, call: Located<Expr>)
    ensures FoldOperators(operators + [entry], call) ==
      FoldOperators(operators, Located(SpanAcross(entry.0.region, call.region), Expr.BinOp(entry.0, entry.1, call)))
    decreases |operators|
  {
    if operators != [] {
      assert (operators + [entry])[1..] == operators[1..] + [entry];
      FoldSnoc(operators[1..], entry, call);
    }
  }

  /** There is no precedence: `a * b + c` groups as `a * (b + c)` and `a + b * c` as
      `a + (b * c)`, in both cases the first operator met at the top. */
  lemma FoldHasNoPrecedence(a: Located<Expr>, b: Located<Expr>, c: Located<Expr>, o1: Located<BinOp>, o2: Located<BinOp>)
    ensures var e := FoldOperators([(a, o1), (b, o2)], c);
      && e.value.BinOp? && e.value.left == a && e.value.binOp == o1
      && e.value.right.value == Expr.BinOp(b, o2, c)
  {
    assert [(a, o1), (b, o2)][1..] == [(b, o2)];
    assert [(b, o2)][1..] == [];
    assert FoldOperators([(b, o2)], c).value == Expr.BinOp(b, o2, c);
  }

  /** `term` with `spaces` in front, or `term` itself when there are none: how the
      chain attaches the spaces that precede a term or an argument. */
  function SpacedBefore(spaces: Spaces, term: Located<Expr>): Located<Expr> {
    if spaces == [] then term else term.value.WithSpacesBefore(spaces, term.region)
  }

  /** The state of a chain being parsed: the `ExprState` record as a value. */
  datatype Chain = Chain(
    operators: seq<OperatorEntry>,
    arguments: seq<Located<Expr>>,
    expr: Located<Expr>,
    spacesAfter: Spaces,
    initial: State,
    end: Position)
  {
    /** The expression the chain stands for if it ends here. */
    function Final(): Located<Expr> {
      FoldOperators(operators, ToCall(arguments, expr))
    }

    /** `ExprState::consume_spaces`: pending spaces are attached behind the last argument,
        or behind the term when there are no arguments. Positions and operators stay. */
    function WithSpacesConsumed(): (c: Chain)
      ensures c.spacesAfter == []
      ensures c.operators == operators && c.initial == initial && c.end == end
      ensures |c.arguments| == |arguments| && ToCall(c.arguments, c.expr).region == ToCall(arguments, expr).region
      ensures spacesAfter == [] ==> c == this
      ensures spacesAfter != [] && arguments != [] ==>
        && c.expr == expr
        && c.arguments[..|arguments| - 1] == arguments[..|arguments| - 1]
        && c.arguments[|arguments| - 1] == Located(arguments[|arguments| - 1].region,
                                                   Expr.SpaceAfter(arguments[|arguments| - 1].value, spacesAfter))
      ensures spacesAfter != [] && arguments == [] ==>
        c.arguments == [] && c.expr == Located(expr.region, Expr.SpaceAfter(expr.value, spacesAfter))
    {
      if spacesAfter == [] then this
      else if arguments != [] then
        var last := arguments[|arguments| - 1];
        this.(arguments := arguments[..|arguments| - 1] + [last.value.WithSpacesAfter(spacesAfter, last.region)],
              spacesAfter := [])
      else
        this.(expr := expr.value.WithSpacesAfter(spacesAfter, expr.region), spacesAfter := [])
    }

    /** The `parse_expr_end` step after a further argument `arg` (positions and spaces
        as found behind it): pending spaces go in front of `arg`, which joins the
        arguments. */
    function WithArgument(arg: Located<Expr>, newInitial: State, newEnd: Position, newSpaces: Spaces): Chain {
      this.(arguments := arguments + [SpacedBefore(spacesAfter, arg)], initial := newInitial, end := newEnd, spacesAfter := newSpaces)
    }

    /** The step after `op` and its right operand `term`: the call built so far is pushed
        with `op`, and `term` (behind the operator's spaces) starts a new call. */
    function WithOperator(op: Located<BinOp>, term: Located<Expr>, spacesAfterOp: Spaces,
                          newInitial: State, newEnd: Position, newSpaces: Spaces): Chain {
      this.(operators := operators + [(ToCall(arguments, expr), op)], arguments := [], expr := SpacedBefore(spacesAfterOp, term),
            initial := newInitial, end := newEnd, spacesAfter := newSpaces)
    }

    /** The step on reading an operator, in `parse_expr_end`: pending spaces are consumed,
        and the state just before the operator becomes the point to roll back to. */
    function WithOperatorRead(beforeOp: State): Chain {
      WithSpacesConsumed().(initial := beforeOp)
    }

    /** The step after a `-` glued to the term behind it: the negated term becomes an
        argument. */
    function WithNegatedTerm(op: Located<BinOp>, negated: Located<Expr>,
                             newInitial: State, newEnd: Position, newSpaces: Spaces): Chain
      requires CanNegate(initial, negated.value)
    {
      var arg := NumericNegate(initial, op, negated, spacesAfter);
      this.(initial := newInitial, arguments := arguments + [arg], spacesAfter := newSpaces, end := newEnd)
    }
  }

  /** Consuming spaces twice is consuming them once. */
  lemma ConsumeSpacesIdempotent(c: Chain)
    ensures c.WithSpacesConsumed().WithSpacesConsumed() == c.WithSpacesConsumed()
  {
  }

  /** Attaching pending spaces does not change whether the call is a pattern, and with no
      arguments the pattern simply carries the spaces behind it. */
  lemma ConsumeSpacesKeepsPattern(c: Chain)
    ensures var d := c.WithSpacesConsumed();
      ExprToPattern(ToCall(d.arguments, d.expr).value).Ok? <==> ExprToPattern(ToCall(c.arguments, c.expr).value).Ok?
    ensures c.spacesAfter != [] && c.arguments == [] && ExprToPattern(c.expr.value).Ok? ==>
      ExprToPattern(c.WithSpacesConsumed().expr.value) == Ok(Pattern.SpaceAfter(ExprToPattern(c.expr.value).value, c.spacesAfter))
  {
    var d := c.WithSpacesConsumed();
    if c.spacesAfter != [] && c.arguments != [] {
      ApplyConversion(c.expr, c.arguments, Space);
      ApplyConversion(d.expr, d.arguments, Space);
      SpacedLastArgumentKeepsPatterns(c.arguments, d.arguments, c.spacesAfter);
    }
  }

  /** Wrapping the last argument in trailing spaces keeps every argument a pattern or not. */
  lemma SpacedLastArgumentKeepsPatterns(arguments: seq<Located<Expr>>, spaced: seq<Located<Expr>>, spaces: Spaces)
    requires arguments != [] && |spaced| == |arguments|
    requires spaced[..|arguments| - 1] == arguments[..|arguments| - 1]
    requires spaced[|arguments| - 1].value == Expr.SpaceAfter(arguments[|arguments| - 1].value, spaces)
    ensures ArgumentsArePatterns(spaced) <==> ArgumentsArePatterns(arguments)
  {
    var n := |arguments|;
    forall i | 0 <= i < n - 1 ensures spaced[i] == arguments[i] {
      assert spaced[i] == spaced[..n - 1][i];
    }
  }

  /** The chain's final expression after an operator step: the old final expression with
      its innermost call replaced by `call op term`, where `term` carries the spaces that
      followed the operator in front (and keeps its own region). */
  lemma {:induction false} WithOperatorExtendsFinal(c: Chain, op: Located<BinOp>, term: Located<Expr>, spacesAfterOp: Spaces,
                                                    newInitial: State, newEnd: Position, newSpaces: Spaces)
    ensures var d := c.WithOperator(op, term, spacesAfterOp, newInitial, newEnd, newSpaces);
      var call := ToCall(c.arguments, c.expr);
      var right := Located(term.region, if spacesAfterOp == [] then term.value else Expr.SpaceBefore(term.value, spacesAfterOp));
      d.Final() == FoldOperators(c.operators, Located(SpanAcross(call.region, term.region), Expr.BinOp(call, op, right)))
  {
    var right := SpacedBefore(spacesAfterOp, term);
    FoldSnoc(c.operators, (ToCall(c.arguments, c.expr), op), right);
  }

  /** After an argument step the innermost call has gained exactly that argument, last,
      with the spaces that were pending in front of it; the spaces found behind it are
      pending next. */
  lemma WithArgumentExtendsCall(c: Chain, arg: Located<Expr>, newInitial: State, newEnd: Position, newSpaces: Spaces)
    ensures var d := c.WithArgument(arg, newInitial, newEnd, newSpaces);
      var spaced := Located(arg.region, if c.spacesAfter == [] then arg.value else Expr.SpaceBefore(arg.value, c.spacesAfter));
      && d.operators == c.operators && d.spacesAfter == newSpaces
      && CallParts(ToCall(d.arguments, d.expr)) == (c.expr, c.arguments + [spaced])
  {
  }

  /** `parse_expr_final`: the chain's expression once no further term or operator follows. */
  method ParseExprFinal(chain: Chain, state: State) returns (r: ParseResult<Expr, EExpr>)
    ensures r == Success(MadeProgress, chain.Final().value, state)
  {
    var expr := ToCall(chain.arguments, chain.expr);
    ghost var call := expr;
    var operators := chain.operators;
    var i := |operators|;
    assert operators[..i] == operators;
    while i > 0
      invariant 0 <= i <= |operators|
      invariant FoldOperators(operators[..i], expr) == FoldOperators(operators, call)
    {
      i := i - 1;
      var (leftArg, op) := operators[i];
      assert operators[..i + 1] == operators[..i] + [(leftArg, op)];
      FoldSnoc(operators[..i], (leftArg, op), expr);
      expr := Located(SpanAcross(leftArg.region, expr.region), Expr.BinOp(leftArg, op, expr));
    }
    r := Success(MadeProgress, expr.value, state);
  }

  /** The end of `parse_expr_end` when no operator follows: the parser rolls back to the
      state before the spaces it tried, and yields the call, folded with any pending
      operators by the same loop as `parse_expr_final`. */
  method FinishChain(chain: Chain) returns (r: ParseResult<Expr, EExpr>)
    ensures r == Success(MadeProgress, chain.Final().value, chain.initial)
  {
    if chain.operators == [] {
      var expr := ToCall(chain.arguments, chain.expr);
      r := Success(MadeProgress, expr.value, chain.initial);
    } else {
      r := ParseExprFinal(chain, chain.initial);
    }
  }

  /** `ExprState`, updated in place as the chain is parsed. */
  class ExprState {
    var operators: seq<OperatorEntry>
    var arguments: seq<Located<Expr>>
    var expr: Located<Expr>
    var spacesAfter: Spaces
    var initial: State
    var end: Position

    function Value(): Chain
      reads this
    {
      Chain(operators, arguments, expr, spacesAfter, initial, end)
    }

    /** The state `parse_expr_operator_chain` starts with after the first term. */
    constructor (expr: Located<Expr>, spacesBeforeOp: Spaces, initial: State, end: Position)
      ensures Value() == Chain([], [], expr, spacesBeforeOp, initial, end)
    {
      this.operators := [];
      this.arguments := [];
      this.expr := expr;
      this.spacesAfter := spacesBeforeOp;
      this.initial := initial;
      this.end := end;
    }

    /** `ExprState::consume_spaces`. */
    method ConsumeSpaces()
      modifies this
      ensures Value() == old(Value()).WithSpacesConsumed()
    {
      if spacesAfter != [] {
        if arguments != [] {
          var last := arguments[|arguments| - 1];
          arguments := arguments[..|arguments| - 1];
          arguments := arguments + [last.value.WithSpacesAfter(spacesAfter, last.region)];
        } else {
          var region := expr.region;
          expr := expr.value.WithSpacesAfter(spacesAfter, region);
        }
        spacesAfter := [];
      }
    }

    /** An operator has been read, in `parse_expr_end`. */
    method ReadOperator(beforeOp: State)
      modifies this
      ensures Value() == old(Value()).WithOperatorRead(beforeOp)
    {
      ConsumeSpaces();
      initial := beforeOp;
    }

    /** A further argument, from `parse_expr_end`. */
    method PushArgument(arg: Located<Expr>, newInitial: State, newEnd: Position, newSpaces: Spaces)
      modifies this
      ensures Value() == old(Value()).WithArgument(arg, newInitial, newEnd, newSpaces)
    {
      var spaced := arg;
      if spacesAfter != [] {
        spaced := arg.value.WithSpacesBefore(spacesAfter, arg.region);
        spacesAfter := [];
      }
      initial := newInitial;
      arguments := arguments + [spaced];
      end := newEnd;
      spacesAfter := newSpaces;
    }

    /** An ordinary operator and its right operand, from `parse_expr_operator`. */
    method PushOperator(op: Located<BinOp>, term: Located<Expr>, spacesAfterOp: Spaces,
                        newInitial: State, newEnd: Position, newSpaces: Spaces)
      modifies this
      ensures Value() == old(Value()).WithOperator(op, term, spacesAfterOp, newInitial, newEnd, newSpaces)
    {
      initial := newInitial;
      var spaced := term;
      if spacesAfterOp != [] {
        spaced := term.value.WithSpacesBefore(spacesAfterOp, term.region);
      }
      var args := arguments;
      arguments := [];
      var call := ToCall(args, expr);
      operators := operators + [(call, op)];
      expr := spaced;
      end := newEnd;
      spacesAfter := newSpaces;
    }

    /** A `-` glued to the following term, from `parse_expr_operator`. */
    method PushNegatedTerm(op: Located<BinOp>, negated: Located<Expr>,
                           newInitial: State, newEnd: Position, newSpaces: Spaces)
      requires CanNegate(initial, negated.value)
      modifies this
      ensures Value() == old(Value()).WithNegatedTerm(op, negated, newInitial, newEnd, newSpaces)
    {
      var arg := NumericNegate(initial, op, negated, spacesAfter);
      initial := newInitial;
      arguments := arguments + [arg];
      spacesAfter := newSpaces;
      end := newEnd;
    }
  }

  // ---------------------------------------------------------------------------------------
  // `numeric_negate_expression`

  predicate IsNumberLiteral(e: Expr) {
    e.Num? || e.Float? || e.NonBase10Int?
  }

  /** The precondition of `numeric_negate_expression`: the input still starts with the
      `-`, and holds the literal's text behind it. */
  predicate CanNegate(state: State, e: Expr) {
    && |state.bytes| >= 1 && state.bytes[0] == '-' as u8
    && (IsNumberLiteral(e) ==> |e.text| + 1 <= |state.bytes|)
  }

  /** A `-` glued to a number literal becomes part of its text (one byte more, read from
      the input at the `-`), flipping only a non-decimal integer's sign flag, so that the
      literal's range is checked with its sign; any other term is negated. */
  function NegatedTerm(state: State, op: Located<BinOp>, expr: Located<Expr>): (r: Expr)
    requires CanNegate(state, expr.value)
    ensures IsNumberLiteral(expr.value) ==>
      && IsNumberLiteral(r)
      && r.Num? == expr.value.Num? && r.Float? == expr.value.Float?
      && r.text == state.bytes[..|expr.value.text| + 1]
      && |r.text| == |expr.value.text| + 1 && r.text[0] == '-' as u8
    ensures expr.value.NonBase10Int? ==> r.base == expr.value.base && r.isNegative == !expr.value.isNegative
    ensures !IsNumberLiteral(expr.value) ==> r == Expr.UnaryOp(expr, Located(op.region, Negate))
  {
    match expr.value
    case Num(text) => Num(state.bytes[..|text| + 1])
    case Float(text) => Float(state.bytes[..|text| + 1])
    case NonBase10Int(text, base, isNegative) => NonBase10Int(state.bytes[..|text| + 1], base, !isNegative)
    case _ => Expr.UnaryOp(expr, Located(op.region, Negate))
  }

  /** `numeric_negate_expression`: the negated term starts one column further left, at
      the `-`, and carries the pending spaces in front when there are any. */
  function NumericNegate(state: State, op: Located<BinOp>, expr: Located<Expr>, spaces: Spaces): (r: Located<Expr>)
    requires CanNegate(state, expr.value)
    ensures r.region == expr.region.(startCol := WrappingSub(expr.region.startCol, 1))
    ensures expr.region.startCol > 0 ==> r.region.startCol as int == expr.region.startCol as int - 1
    ensures r.value == if spaces == [] then NegatedTerm(state, op, expr) else Expr.SpaceBefore(NegatedTerm(state, op, expr), spaces)
  {
    var region := expr.region.(startCol := WrappingSub(expr.region.startCol, 1));
    var negated := Located(region, NegatedTerm(state, op, expr));
    SpacedBefore(spaces, negated)
  }

  /** When the input at the `-` is the `-` followed by the literal's own text, the new
      text is exactly that text with a leading `-`. */
  lemma NegatedLiteralText(state: State, op: Located<BinOp>, expr: Located<Expr>)
    requires CanNegate(state, expr.value) && IsNumberLiteral(expr.value)
    requires state.bytes[1..|expr.value.text| + 1] == expr.value.text
    ensures NegatedTerm(state, op, expr).text == ['-' as u8] + expr.value.text
  {
    var t := NegatedTerm(state, op, expr).text;
    assert t == [t[0]] + t[1..];
  }

  /** A negative literal can still be read as a pattern; a negated expression cannot. */
  lemma NegationAndPatterns(state: State, op: Located<BinOp>, expr: Located<Expr>)
    requires CanNegate(state, expr.value)
    ensures ExprToPattern(NegatedTerm(state, op, expr)).Ok? <==> IsNumberLiteral(expr.value)
  {
  }

  /** Reading the operator is what makes a glued negative literal negatable: once the
      state before a `-` followed by a literal's text is the roll-back point, the literal
      can be negated, and its negation is `-` followed by that text. */
  lemma OperatorReadEnablesNegation(c: Chain, beforeOp: State, op: Located<BinOp>, literal: Located<Expr>)
    requires IsNumberLiteral(literal.value)
    requires |beforeOp.bytes| > |literal.value.text| && beforeOp.bytes[0] == '-' as u8
    requires beforeOp.bytes[1..|literal.value.text| + 1] == literal.value.text
    ensures var d := c.WithOperatorRead(beforeOp);
      && d.spacesAfter == [] && d.initial == beforeOp
      && CanNegate(d.initial, literal.value)
      && NegatedTerm(d.initial, op, literal).text == ['-' as u8] + literal.value.text
  {
    NegatedLiteralText(beforeOp, op, literal);
  }

  // ---------------------------------------------------------------------------------------
  // The decision of `parse_expr_operator`

  /** What `parse_expr_operator` does next once it has read an operator and the spaces
      behind it. */
  datatype OperatorStep =
    /** parse a negated term and take it as the next argument */
    | NegativeTerm
    /** parse the right operand and push the operator */
    | PushOperand
    /** fail, having consumed input, at the state behind the operator's spaces */
    | Fail(progress: Progress, error: EExpr, state: State)
    /** the chain was the pattern of `pattern = body`; parse the body at `bodyIndent` */
    | BeginBody(pattern: Located<Pattern>, callRegion: Region, bodyIndent: u16)
    /** the chain was `Name vars… :`; parse the aliased type at `typeIndent` */
    | BeginAlias(name: Located<string>, vars: seq<Located<Pattern>>, typeIndent: u16)
    /** the chain was the pattern of `pattern : type`; parse the type at `typeIndent` */
    | BeginAnnotation(pattern: Located<Pattern>, callRegion: Region, typeIndent: u16)
    /** a type alias's argument is no pattern: the source panics */
    | Panic

  /** A `-` is a prefix negation when a gap separates it from what precedes it and none
      separates it from what follows (`newStart` is where the parser stands after the
      spaces behind the operator). */
  predicate IsNegativeGap(chain: Chain, op: Located<BinOp>, newStart: Position) {
    op.value == Minus && chain.end != op.region.Start() && op.region.End() == newStart
  }

  /** Every argument of the chain reads as a pattern. */
  predicate ArgumentsArePatterns(arguments: seq<Located<Expr>>) {
    forall i | 0 <= i < |arguments| :: ExprToPattern(arguments[i].value).Ok?
  }

  function ArgumentRegions(arguments: seq<Located<Expr>>): seq<Region> {
    seq(|arguments|, i requires 0 <= i < |arguments| => arguments[i].region)
  }

  /** The decision table of `parse_expr_operator`, given the chain, the operator and the
      state `after` the spaces that follow the operator. */
  function OperatorDecision(chain: Chain, op: Located<BinOp>, after: State): (step: OperatorStep)
    ensures step.NegativeTerm? <==> IsNegativeGap(chain, op, after.Position())
    ensures step.PushOperand? <==> !IsNegativeGap(chain, op, after.Position()) && op.value != Assignment && op.value != HasType
    ensures step.Fail? ==> step.progress == MadeProgress && step.state == after
    ensures step.Panic? ==> op.value == HasType
  {
    if IsNegativeGap(chain, op, after.Position()) then NegativeTerm
    else if op.value == Assignment then
      if chain.operators != [] then
        Fail(MadeProgress, BadOperator(['=' as u8], op.region.startLine, op.region.startCol), after)
      else if chain.arguments != [] then
        Fail(MadeProgress, ElmStyleFunction(AcrossAll(ArgumentRegions(chain.arguments)), op.region.startLine, op.region.startCol), after)
      else
        var consumed := chain.WithSpacesConsumed();
        var exprRegion := consumed.expr.region;
        var indentedMore := WrappingAdd(consumed.expr.region.startCol, 1);
        var call := ToCall(consumed.arguments, consumed.expr);
        match ExprToPattern(call.value)
        case Ok(good) => BeginBody(Located(exprRegion, good), call.region, indentedMore)
        case Err(_) => Fail(MadeProgress, BadOperator(['=' as u8], op.region.startLine, op.region.startCol), after)
    else if op.value == HasType then
      var exprRegion := chain.expr.region;
      var indentedMore := WrappingAdd(chain.expr.region.startCol, 1);
      var consumed := chain.WithSpacesConsumed();
      if consumed.expr.value.GlobalTag? then
        if ArgumentsArePatterns(consumed.arguments) then
          var vars := seq(|consumed.arguments|, i requires 0 <= i < |consumed.arguments| =>
                            Located(consumed.arguments[i].region, ExprToPattern(consumed.arguments[i].value).value));
          BeginAlias(Located(consumed.expr.region, consumed.expr.value.name), vars, indentedMore)
        else Panic
      else
        var call := ToCall(consumed.arguments, consumed.expr);
        match ExprToPattern(call.value)
        case Ok(good) => BeginAnnotation(Located(exprRegion, good), call.region, indentedMore)
        case Err(_) => Fail(MadeProgress, BadOperator([':' as u8], op.region.startLine, op.region.startCol), after)
    else PushOperand
  }

  /** On `=` the checks come in this order: pending operators, then arguments (an
      Elm-style function definition, reported over the arguments), then whether the term
      is a pattern; the definition's pattern keeps the term's region and any pending
      spaces, and its body is parsed one column to the right of the term. */
  lemma EqualsDecision(chain: Chain, op: Located<BinOp>, after: State)
    requires op.value == Assignment
    ensures var step := OperatorDecision(chain, op, after);
      var errorAt := (op.region.startLine, op.region.startCol);
      && (chain.operators != [] ==>
            step == Fail(MadeProgress, BadOperator(['=' as u8], errorAt.0, errorAt.1), after))
      && (chain.operators == [] && chain.arguments != [] ==>
            step == Fail(MadeProgress, ElmStyleFunction(AcrossAll(ArgumentRegions(chain.arguments)), errorAt.0, errorAt.1), after))
      && (chain.operators == [] && chain.arguments == [] ==>
            && (step.Fail? <==> ExprToPattern(chain.expr.value).Err?)
            && (step.Fail? ==> step == Fail(MadeProgress, BadOperator(['=' as u8], errorAt.0, errorAt.1), after))
            && (ExprToPattern(chain.expr.value).Ok? ==>
                  var p := ExprToPattern(chain.expr.value).value;
                  step == BeginBody(Located(chain.expr.region, if chain.spacesAfter == [] then p else Pattern.SpaceAfter(p, chain.spacesAfter)),
                                    chain.expr.region, WrappingAdd(chain.expr.region.startCol, 1))))
  {
  }

  /** The term is the head of a type alias: an uppercase tag still visible after the
      pending spaces are attached. */
  predicate IsAliasHead(chain: Chain) {
    chain.WithSpacesConsumed().expr.value.GlobalTag?
  }

  /** On `:` an uppercase head makes a type alias named by the tag, whose variables are
      its arguments read as patterns, in order and with their regions; the source panics
      when one of them is no pattern. */
  lemma ColonAliasDecision(chain: Chain, op: Located<BinOp>, after: State)
    requires op.value == HasType && IsAliasHead(chain)
    ensures var step := OperatorDecision(chain, op, after);
      var arguments := chain.WithSpacesConsumed().arguments;
      && (step.Panic? <==> !ArgumentsArePatterns(arguments))
      && (!step.Panic? ==>
            && step.BeginAlias?
            && step.name == Located(chain.expr.region, chain.expr.value.name)
            && |step.vars| == |chain.arguments|
            && forall i | 0 <= i < |arguments| ::
                 step.vars[i] == Located(arguments[i].region, ExprToPattern(arguments[i].value).value))
  {
  }

  /** On `:` any other chain must read as a pattern, which is then annotated, keeping the
      term's region; otherwise the `:` is a bad operator. */
  lemma ColonAnnotationDecision(chain: Chain, op: Located<BinOp>, after: State)
    requires op.value == HasType && !IsAliasHead(chain)
    ensures var step := OperatorDecision(chain, op, after);
      var consumed := chain.WithSpacesConsumed();
      var call := ToCall(consumed.arguments, consumed.expr);
      && (step.Fail? <==> ExprToPattern(call.value).Err?)
      && (step.Fail? ==> step == Fail(MadeProgress, BadOperator([':' as u8], op.region.startLine, op.region.startCol), after))
      && (!step.Fail? ==>
            step == BeginAnnotation(Located(chain.expr.region, ExprToPattern(call.value).value), call.region,
                                    WrappingAdd(chain.expr.region.startCol, 1)))
  {
  }

  /** Pending operators are not looked at on `:` (the source only asserts, in debug
      builds, that there are none). */
  lemma ColonIgnoresPendingOperators(chain: Chain, op: Located<BinOp>, after: State, pending: seq<OperatorEntry>)
    requires op.value == HasType
    ensures OperatorDecision(chain.(operators := pending), op, after) == OperatorDecision(chain, op, after)
  {
    var other := chain.(operators := pending);
    assert IsNegativeGap(other, op, after.Position()) == IsNegativeGap(chain, op, after.Position());
    assert other.WithSpacesConsumed().expr == chain.WithSpacesConsumed().expr;
    assert other.WithSpacesConsumed().arguments == chain.WithSpacesConsumed().arguments;
  }

  /** `Foo (a + b) : T` reaches the panic: the alias argument `a + b` is no pattern. */
  lemma AliasWithNonPatternArgumentPanics(r: Region, a: Located<Expr>, o: Located<BinOp>, b: Located<Expr>,
                                          op: Located<BinOp>, s: State, after: State)
    requires op.value == HasType
    ensures var arg := Located(r, Expr.ParensAround(Expr.BinOp(a, o, b)));
      var chain := Chain([], [arg], Located(r, Expr.GlobalTag("Foo")), [], s, r.End());
      OperatorDecision(chain, op, after) == Panic
  {
    var arg := Located(r, Expr.ParensAround(Expr.BinOp(a, o, b)));
    var chain := Chain([], [arg], Located(r, Expr.GlobalTag("Foo")), [], s, r.End());
    assert !ArgumentsArePatterns(chain.arguments) by {
      assert ExprToPattern(chain.arguments[0].value).Err?;
    }
  }

  // The definitions the decided steps build once the body or type has been parsed.

  /** `pattern = body`, the body carrying the spaces that followed the `=`. */
  function BodyDef(pattern: Located<Pattern>, callRegion: Region, spacesAfterOp: Spaces, body: Located<Expr>): (d: Located<Def>)
    ensures d.value.Body? && d.value.pattern == pattern && d.value.body.region == body.region
    ensures d.value.body.value == if spacesAfterOp == [] then body.value else Expr.SpaceBefore(body.value, spacesAfterOp)
    ensures d.region == SpanAcross(callRegion, body.region)
  {
    var spaced := if spacesAfterOp == [] then body else body.value.WithSpacesBefore(spacesAfterOp, body.region);
    Located(SpanAcross(callRegion, spaced.region), Def.Body(pattern, spaced))
  }

  /** `pattern : type`, the type carrying the spaces that followed the `:`. */
  function AnnotationDef(pattern: Located<Pattern>, callRegion: Region, spacesAfterOp: Spaces,
                         ann: Located<TypeAnnotation>): (d: Located<Def>)
    ensures d.value.Annotation? && d.value.pattern == pattern && d.value.ann.region == ann.region
    ensures d.value.ann.value == if spacesAfterOp == [] then ann.value else TypeAnnotation.SpaceBefore(ann.value, spacesAfterOp)
    ensures d.region == SpanAcross(callRegion, ann.region)
  {
    var spaced := if spacesAfterOp == [] then ann else ann.value.WithSpacesBefore(spacesAfterOp, ann.region);
    Located(SpanAcross(callRegion, spaced.region), Annotation(pattern, spaced))
  }

  /** `Name vars… : type`. */
  function AliasDef(name: Located<string>, vars: seq<Located<Pattern>>, ann: Located<TypeAnnotation>): (d: Located<Def>)
    ensures d.value == Alias(name, vars, ann) && d.region == SpanAcross(name.region, ann.region)
  {
    Located(SpanAcross(name.region, ann.region), Alias(name, vars, ann))
  }

  /** The operator path agrees with `annotation_or_alias` on the aliases it builds and on
      annotations of identifiers and record destructures. */
  lemma ColonAgreesWithAnnotationOrAlias(chain: Chain, op: Located<BinOp>, after: State, ann: Located<TypeAnnotation>)
    requires op.value == HasType
    ensures var step := OperatorDecision(chain, op, after);
      && (step.BeginAlias? && step.vars == [] ==>
            AliasDef(step.name, step.vars, ann).value == AnnotationOrAlias(Pattern.GlobalTag(step.name.value), step.name.region, ann))
      && (step.BeginAlias? && step.vars != [] ==>
            forall r :: AliasDef(step.name, step.vars, ann).value ==
              AnnotationOrAlias(Pattern.Apply(Located(step.name.region, Pattern.GlobalTag(step.name.value)), step.vars), r, ann))
      && (step.BeginAnnotation? && (step.pattern.value.Identifier? || step.pattern.value.RecordDestructure?) ==>
            AnnotationDef(step.pattern, step.callRegion, [], ann).value == AnnotationOrAlias(step.pattern.value, step.pattern.region, ann))
  {
  }

  /** `f a b = …` is refused as an Elm-style function definition. */
  lemma ElmStyleDefinitionIsRefused(f: Located<Expr>, a: Located<Expr>, b: Located<Expr>, op: Located<BinOp>,
                                    s: State, e: Position, after: State)
    requires op.value == Assignment
    ensures OperatorDecision(Chain([], [a, b], f, [], s, e), op, after) ==
      Fail(MadeProgress, ElmStyleFunction(AcrossAll([a.region, b.region]), op.region.startLine, op.region.startCol), after)
  {
    assert ArgumentRegions([a, b]) == [a.region, b.region];
  }
}
