# A model of the roc expression parser's decision core

This project models the small decision and tree-building functions inside roc's expression parser (`compiler/parse/src/expr.rs`) and proves properties about them. The combinator machinery that drives those functions is not modelled.

The model covers five parts:

- **The operator tokenizer.** `chomp_ops` measures the run of operator bytes. `operator_help` turns that run into a `BinOp`, or fails with or without progress. The single-token recognisers for `=`, `:` and `<-` are modelled, and so is `unary_negate`, which decides whether a `-` is a prefix negation.
- **Chain folding.** Juxtaposed arguments become one call (`to_call`). Pending `(left operand, operator)` pairs fold to the right without precedence (`parse_expr_final`, and the same loop in `parse_expr_end`). The parser's `ExprState` record is a class. Its in-place updates are methods: `consume_spaces`, the step on reading an operator (spaces consumed, roll-back point moved to just before the operator), pushing an argument, pushing an operator, and pushing a negated term. The decision `parse_expr_operator` takes on reading an operator is a function over a value snapshot of that state. It covers:
  - the minus-gap test;
  - the `=` checks;
  - the `:` alias/annotation split.
- **Expressions read as patterns.** `expr_to_pattern_help` and `assigned_expr_field_to_pattern` are modelled with an inverse on their image. `annotation_or_alias` classifies a pattern. The left-nested field-access chains of `ident_to_expr` and `helper_help` are modelled.
- **Definitions.** `append_body_definition` fuses an annotation with the body that follows it, or appends a new body. `check_def_indent` is modelled too.
- **Indentation and negation.** This part covers `when::alternatives_indented_correctly` and `numeric_negate_expression`.

Integers keep the source's widths. Lines are `u32`; columns and indentations are `u16`. Every `u16` addition or subtraction in the modelled code uses release-build wrap-around (`Numeric.WrappingAdd`, `Numeric.WrappingSub`).

Files:

| file | module | contents |
|---|---|---|
| `numeric.dfy` | `Numeric` | machine integer types, wrapping `u16` arithmetic |
| `wrappers.dfy` | `Wrappers` | `Option`, `Result` |
| `region.dfy` | `Regions` | positions, regions, `Located`, stand-ins for `span_across`/`across_all` |
| `ast.dfy` | `Ast` | `Expr`, `Pattern`, `Def`, `AssignedField`, `BinOp`, `Ident`, … |
| `parser_state.dfy` | `ParserState` | the parser cursor `State`, `Progress`, `ParseResult`, `EExpr` |
| `operators.dfy` | `Operators` | tokenizer and recognisers |
| `reinterpret.dfy` | `Reinterpret` | expression → pattern, `annotation_or_alias`, access chains |
| `chain.dfy` | `OperatorChain` | `to_call`, the fold, `ExprState`, the operator decision, negation |
| `defs.dfy` | `Definitions` | `DefState`, `append_body_definition`, `check_def_indent` |
| `when.dfy` | `WhenBranches` | `alternatives_indented_correctly` |

## Model

| member | source | states |
|---|---|---|
| ParserState.Advance | compiler/parse/src/expr.rs:2871-2877 | consuming `width` bytes drops exactly those bytes, keeps line and indentation, and moves the column right by `width`, wrapping around in 16 bits (and exactly `column + width` when that fits) |
| Operators.OperatorRun | compiler/parse/src/expr.rs:2934-2945 | the operator run is never longer than the input |
| Operators.OperatorRunIsLongestPrefix | compiler/parse/src/expr.rs:2934-2945 | the run is the longest prefix of bytes from `BINOP_CHAR_SET`; the byte after it, if any, is not an operator byte; no other length has this property |
| Operators.ChompOps | compiler/parse/src/expr.rs:2934-2945 | the counting loop returns the length of the longest operator-byte prefix |
| Operators.OneByteOperatorSpells | compiler/parse/src/expr.rs:2890-2906 | the one-byte match yields `op` exactly when `op` is spelled by that single byte (`+ - * / % ^ > < = :`; not `.`) |
| Operators.TwoByteOperatorSpells | compiler/parse/src/expr.rs:2908-2927 | the two-byte match yields `op` exactly when `op` is spelled by those two bytes (`\|> == != >= <= && \|\| // %% <-`; not `->`) |
| Operators.OperatorHelp | compiler/parse/src/expr.rs:2859-2932 | a recognised operator reports progress; every failure leaves the state untouched |
| Operators.OperatorHelpYieldsSpelling | compiler/parse/src/expr.rs:2871-2927 | a recognised operator is spelled by exactly the whole operator run, and exactly that many bytes are consumed (bytes drop, column rises by the width) |
| Operators.OperatorHelpFailure | compiler/parse/src/expr.rs:2886-2931 | an empty run always fails without progress with `Start`; `.` and `->` always fail without progress with a `BadOperator` carrying the run; every other refused run, including every run of three or more bytes, fails with progress and a `BadOperator` carrying exactly the chomped bytes |
| Operators.SpellingIsOperatorRun | compiler/parse/src/expr.rs:2850 | every operator is spelled by one or two bytes of `BINOP_CHAR_SET` and is neither `.` nor `->` |
| Operators.OperatorHelpAcceptsEverySpelling | compiler/parse/src/expr.rs:2886-2931 | an operator run that spells `op` is tokenized as `op`, consuming exactly its spelling (the converse of `OperatorHelpYieldsSpelling`) |
| Operators.UnaryNegate | compiler/parse/src/expr.rs:381-421 | succeeds, consuming exactly one byte, iff the input starts with `-` and the next byte is absent or is not whitespace, `#` or a digit; otherwise fails without progress with `UnaryNot` |
| Operators.UnaryNegateAgreesWithOperator | compiler/parse/src/expr.rs:381-421 | a prefix `-` that is a whole operator run reaches the same state as the tokenizer's `Minus` |
| Operators.EqualsWithIndent | compiler/parse/src/expr.rs:2451-2466 | succeeds iff the input starts with `=` but not `==`, consuming one byte and yielding the indentation column; else fails without progress with `Equals` |
| Operators.ColonWithIndent | compiler/parse/src/expr.rs:2468-2487 | succeeds iff the input starts with `:` but not `::`, consuming one byte; `::` fails without progress with `DoubleColon`; input that does not start with `:` fails without progress with `Colon` at the state's position |
| Operators.BackpassingWithIndent | compiler/parse/src/expr.rs:2489-2503 | succeeds iff the input starts with `<-`, consuming two bytes; else fails without progress with `BackpassArrow` |
| Operators.RecognisersAgreeWithOperator | compiler/parse/src/expr.rs:2451-2503 | where the tokenizer reads `=`, `:` or `<-`, the matching recogniser accepts and reaches the same state |
| Reinterpret.ExprToPattern | compiler/parse/src/expr.rs:1140-1231 | the conversion itself; what it promises is stated by `ConversionImage`, `PatternRoundTrip`, `ApplyConversion`, `RecordConversion` and `ConversionCases` below |
| Reinterpret.FieldToPattern | compiler/parse/src/expr.rs:1282-1328 | the field conversion itself; what it promises is stated by `FieldConversionImage`, `FieldRoundTrip` and `RecordConversion` below |
| Reinterpret.PatternRoundTrip | compiler/parse/src/expr.rs:1140-1231 | every pattern in the conversion's image is converted back from the expression `PatternToExpr` writes for it |
| Reinterpret.FieldRoundTrip | compiler/parse/src/expr.rs:1282-1328 | the same for record-field patterns and `PatternToField` |
| Reinterpret.ConversionImage | compiler/parse/src/expr.rs:1140-1231 | every converted expression lands in the image `IsExprPattern`; with the round trip, the image is exactly the set of convertible patterns |
| Reinterpret.FieldConversionImage | compiler/parse/src/expr.rs:1282-1328 | every converted field lands in `IsFieldPattern` |
| Reinterpret.ApplyConversion | compiler/parse/src/expr.rs:1151-1167 | an application converts iff its callee and every argument do; the pattern keeps argument count, order and regions, and the callee's region |
| Reinterpret.RecordConversion | compiler/parse/src/expr.rs:1183-1197 | a record converts iff it has no update and every field converts; the destructure has one pattern per field, with the field's region; a label-only field becomes an identifier |
| Reinterpret.ConversionCases | compiler/parse/src/expr.rs:1141-1230 | `BinOp`, `If`, `When`, `Closure`, `UnaryOp`, `Access`, accessors, `List`, record updates, `Defs`, backpassing and the malformed closure fail; a variable becomes an identifier, qualified iff a module is named; parentheses and nesting are transparent |
| Reinterpret.AnnotationOrAlias | compiler/parse/src/expr.rs:1488-1576 | the classification itself; what it promises is stated by `AnnotationOrAliasSeesThroughSpaces`, `AnnotationOrAliasClassifies` and `AnnotationOrAliasKeepsSpaces` below |
| Reinterpret.AnnotationOrAliasSeesThroughSpaces | compiler/parse/src/expr.rs:1524-1532 | spaces and nesting around a pattern do not change how `annotation_or_alias` classifies it |
| Reinterpret.AnnotationOrAliasClassifies | compiler/parse/src/expr.rs:1488-1576 | an uppercase tag gives an alias named at the pattern's region; an applied tag gives an alias named at the tag's own region, with the arguments as variables; an identifier or record destructure gives an annotation; every other pattern gives not-yet-implemented |
| Reinterpret.AnnotationOrAliasKeepsSpaces | compiler/parse/src/expr.rs:1524-1531 | the spaces around the pattern reappear in the same order around the definition |
| Reinterpret.ConvertedPatternIsNoField | compiler/parse/src/expr.rs:1572-1574 | no converted expression reaches the `unreachable!` of `annotation_or_alias` |
| Reinterpret.AccessChainRoundTrip | compiler/parse/src/expr.rs:2522-2527 | an access chain can be split back into its base and its fields, in order |
| Reinterpret.AccessChainIsNoPattern | compiler/parse/src/expr.rs:1213 | a chain with at least one field access is not a pattern |
| Reinterpret.WrapAccesses | compiler/parse/src/expr.rs:2522-2527 | the loop nests the fields to the left, first field innermost (`(foo.bar).baz`) |
| Reinterpret.ApplyAccesses | compiler/parse/src/expr.rs:183-197 | the accesses after a parenthesized expression nest to the left and keep its region |
| Reinterpret.IdentToExpr | compiler/parse/src/expr.rs:2505-2535 | tags, accessor functions and malformed identifiers map one to one; `m.x.f1…fn` is variable `x` of module `m` with the accesses `f1…fn` in order |
| OperatorChain.ToCall | compiler/parse/src/expr.rs:520-540 | no arguments: the term unchanged; otherwise one application of the term to all arguments in order, called via space, spanning term to last argument |
| OperatorChain.ToCallRoundTrip | compiler/parse/src/expr.rs:520-540 | `to_call` loses nothing: callee and arguments can be read back |
| OperatorChain.FoldOperators | compiler/parse/src/expr.rs:511-515 | the operator fold itself; what it promises is stated by `FoldSpineRoundTrip`, `FoldSnoc` and `FoldHasNoPrecedence` below, and `ParseExprFinal` is proved equal to it |
| OperatorChain.FoldSpineRoundTrip | compiler/parse/src/expr.rs:511-515 | the fold is right-nested in encounter order: its right spine lists exactly the folded operators, with the call at the bottom |
| OperatorChain.FoldSnoc | compiler/parse/src/expr.rs:511-515 | folding one more operator last equals folding it around the call first |
| OperatorChain.FoldHasNoPrecedence | compiler/parse/src/expr.rs:511-515 | `a * b + c` and `a + b * c` both nest under the first operator: no precedence is applied |
| OperatorChain.Chain.WithSpacesConsumed | compiler/parse/src/expr.rs:475-495 | pending spaces go behind the last argument, or behind the term when there are none; nothing else changes, and the call's region is unchanged |
| OperatorChain.ConsumeSpacesIdempotent | compiler/parse/src/expr.rs:475-495 | consuming spaces twice is consuming them once |
| OperatorChain.ConsumeSpacesKeepsPattern | compiler/parse/src/expr.rs:475-495 | attaching spaces does not change whether the call is a pattern; with no arguments the pattern carries the spaces behind it |
| OperatorChain.WithOperatorExtendsFinal | compiler/parse/src/expr.rs:994-1031 | after an operator step, the chain's final expression is the old one with its innermost call replaced by `call op term`, for any spaces after the operator: the operand carries them in front (none: the operand itself) and keeps its region |
| OperatorChain.WithArgumentExtendsCall | compiler/parse/src/expr.rs:1055-1081 | after an argument step, the innermost call has gained exactly that argument, last, carrying the previously pending spaces in front (none: the argument itself); the spaces behind it are pending next; operators are untouched |
| OperatorChain.ParseExprFinal | compiler/parse/src/expr.rs:498-518 | the reversed loop yields the right fold of all pending operators over the final call, with progress |
| OperatorChain.FinishChain | compiler/parse/src/expr.rs:1096-1123 | with no further operator the parser rolls back to `initial` and yields the same fold (the plain call if no operators are pending) |
| OperatorChain.ExprState.constructor | compiler/parse/src/expr.rs:451-458 | the state after the first term: no operators, no arguments, the spaces before the operator pending |
| OperatorChain.ExprState.ConsumeSpaces | compiler/parse/src/expr.rs:475-495 | the in-place update produces `WithSpacesConsumed` of the old state |
| OperatorChain.ExprState.PushArgument | compiler/parse/src/expr.rs:1055-1081 | the in-place update produces `WithArgument` of the old state: pending spaces in front of the argument, which joins last |
| OperatorChain.ExprState.PushOperator | compiler/parse/src/expr.rs:994-1031 | the in-place update produces `WithOperator`: the call so far is pushed with the operator; the operand starts a new call |
| OperatorChain.ExprState.ReadOperator | compiler/parse/src/expr.rs:1085-1093 | the in-place update on reading an operator produces `WithOperatorRead` of the old state: pending spaces consumed, and the roll-back point is the state just before the operator |
| OperatorChain.OperatorReadEnablesNegation | compiler/parse/src/expr.rs:1086-1092 | after reading a `-` that is followed by a literal's text, the roll-back point makes the literal negatable (`numeric_negate_expression`'s slicing is in bounds) and its negation is `-` followed by that text |
| OperatorChain.ExprState.PushNegatedTerm | compiler/parse/src/expr.rs:784-810 | the in-place update produces `WithNegatedTerm`: the numerically negated term becomes the next argument |
| OperatorChain.NegatedTerm | compiler/parse/src/expr.rs:551-584 | a number literal keeps its kind and gets text one byte longer, starting with `-`, read from the input; only a non-decimal integer flips its sign flag and keeps its base; any other term is wrapped in `UnaryOp(Negate)` at the operator's region |
| OperatorChain.NumericNegate | compiler/parse/src/expr.rs:542-596 | the region's start column decreases by one (wrapping); the pending spaces go in front iff there are any |
| OperatorChain.NegatedLiteralText | compiler/parse/src/expr.rs:560-581 | when the input is `-` followed by the literal's text, the new text is exactly `-` + text |
| OperatorChain.NegationAndPatterns | compiler/parse/src/expr.rs:551-584 | a negated term is a pattern iff it was a number literal |
| OperatorChain.OperatorDecision | compiler/parse/src/expr.rs:767-1039 | a negative term iff the operator is `-` with a gap before it and none after it; an ordinary operand iff it is neither that, `=` nor `:`; every failure reports progress and returns the state after the operator's spaces; only `:` can panic |
| OperatorChain.EqualsDecision | compiler/parse/src/expr.rs:812-888 | on `=`: pending operators give `BadOperator("=")`; otherwise arguments give `ElmStyleFunction` over the arguments' regions; otherwise a non-pattern gives `BadOperator("=")`; otherwise a body definition begins, with the pattern at the term's region and the body indented one column more |
| OperatorChain.ColonAliasDecision | compiler/parse/src/expr.rs:896-933 | on `:` after an uppercase tag: a type alias named by the tag, whose variables are the arguments as patterns, in order with their regions; a panic iff an argument is no pattern |
| OperatorChain.ColonAnnotationDecision | compiler/parse/src/expr.rs:935-982 | on `:` after anything else: an annotation of the call as a pattern at the term's region, or `BadOperator(":")` iff the call is no pattern |
| OperatorChain.ColonIgnoresPendingOperators | compiler/parse/src/expr.rs:890-891 | the `:` decision does not depend on pending operators |
| OperatorChain.AliasWithNonPatternArgumentPanics | compiler/parse/src/expr.rs:903-911 | `Foo (a + b) :` reaches the panic |
| OperatorChain.ElmStyleDefinitionIsRefused | compiler/parse/src/expr.rs:822-831 | `f a b =` fails with `ElmStyleFunction` over `Region::across_all` of the two arguments' regions, at the state after the spaces |
| OperatorChain.BodyDef | compiler/parse/src/expr.rs:852-862 | the body definition keeps the pattern and carries the spaces after `=` in front of the body; it spans from the call to the body |
| OperatorChain.AnnotationDef | compiler/parse/src/expr.rs:958-969 | the annotation keeps the pattern and carries the spaces after `:` in front of the type; it spans from the call to the type |
| OperatorChain.AliasDef | compiler/parse/src/expr.rs:924-932 | the alias spans from its name to its type |
| OperatorChain.ColonAgreesWithAnnotationOrAlias | compiler/parse/src/expr.rs:896-982 | the aliases the `:` operator builds, and its annotations of identifiers and record destructures, are those `annotation_or_alias` builds |
| Definitions.CommentOf | compiler/parse/src/expr.rs:617-621 | a comment is carried iff the first space is a line or doc comment, and it is that comment's text |
| Definitions.MergeBody | compiler/parse/src/expr.rs:598-654 | the definitions after `append_body_definition`; what it promises is stated by `MergeFusesAnnotation`, `MergeAppendsBody` and `MergeIgnoresPatternNames` below, and `DefState.AppendBodyDefinition` is proved equal to it |
| Definitions.MergeFusesAnnotation | compiler/parse/src/expr.rs:607-632 | with at most one space after an annotation, the annotation is replaced by the annotated body: same length, earlier definitions unchanged, comment kept |
| Definitions.MergeAppendsBody | compiler/parse/src/expr.rs:636-654 | otherwise one body is appended after all the definitions, behind spaces iff there are any |
| Definitions.MergeIgnoresPatternNames | compiler/parse/src/expr.rs:607-632 | `x : Int` followed by `y = …` fuses: the patterns are not compared |
| Definitions.DefState.constructor | compiler/parse/src/expr.rs:880-883 | a block starts with the one definition just parsed and no pending spaces |
| Definitions.DefState.AppendBodyDefinition | compiler/parse/src/expr.rs:598-654 | the pop/push update produces `MergeBody` of the old definitions and leaves the pending spaces alone |
| Definitions.CheckDefIndent | compiler/parse/src/expr.rs:1578-1593 | accepts iff `min_indent <= def_start_column <= special_token_indent`, returning the state unchanged; else `IndentDefBody` at the state's position without progress |
| Definitions.CheckDefIndentMonotone | compiler/parse/src/expr.rs:1578-1593 | loosening either bound keeps an accepted definition accepted |
| WhenBranches.AlternativesIndentedCorrectly | compiler/parse/src/expr.rs:2078-2095 | `Ok` iff the first alternative starts at the indentation and no later one starts left of it; a misplaced first alternative reports `indent - column` in wrapping 16-bit arithmetic; otherwise the earliest later offender reports how far left it is |
| WhenBranches.FirstUnderIndentedIsUnique | compiler/parse/src/expr.rs:2085-2089 | the earliest offender is unique, so the reported distance is determined |
| WhenBranches.MisalignmentIsNonZero | compiler/parse/src/expr.rs:2078-2095 | a misalignment is never reported as zero, even when the subtraction wraps |

## Left out

- The combinator driver is not modelled. This covers `space0_e`, `one_of!`, `loc!`, `specialize`, and the recursive control flow of `parse_expr_end`, `parse_expr_operator`, `parse_defs_end` and the other definition parsers. Their decision rules are kept: `OperatorDecision` and the `ExprState` steps. The terms, bodies, types and spaces those parsers read are parameters.
- Foreign components are not part of this model. These are the literal lexers, the identifier lexer, `crate::pattern`, `type_annotation::located_help` and the `crate::blankspace` helpers. `Region::span_across` and `Region::across_all` (roc_region) get plausible stand-in bodies, and no property relies on them.
- `advance_without_indenting_e` is modelled on its success path only (`ParserState.Advance`). Its error for an over-long line is not modelled.
- Operators.RecognisersAgreeWithOperator: the recognisers for `=`, `:` and `<-` step with `advance_without_indenting_e`, which fails when the column would pass 0xFFFF. The tokenizer's `good!` adds the width without that check. The lemma's agreement rests on `Advance` leaving the error out. When the column is within the operator's width of 0xFFFF, the source's two paths part.
- All 16-bit column arithmetic wraps around, as in a release build. A debug build panics instead. This applies to:
  - `column += width`;
  - `start_col + 1` and `start_col - 1`;
  - `original_indent - col`.
- The `todo!()` that follows an operator with no operand is not modelled. `PushOperand` only says that an operand is parsed next.
- Failed source checks are modelled as follows:
  - The `panic!()` in the type-alias branch is the `Panic` step, and `Foo (a + b) : T` reaches it.
  - The `panic!` on an `Ident::Access` without parts is a precondition of `IdentToExpr`.
  - The `split_first().unwrap()` of `alternatives_indented_correctly` is its precondition `patterns != []`. Its only caller passes the patterns of `branch_alternatives`, which come from `sep_by1` and so are never empty.
  - The `unreachable!` in `annotation_or_alias` is a precondition of `AnnotationOrAlias`. No converted expression violates it (`ConvertedPatternIsNoField`).
  - `numeric_negate_expression`'s `debug_assert_eq!` and its slice bounds are the precondition `CanNegate`.
- The `debug_assert!` of the `:` arm is not enforced: pending operators are ignored (`ColonIgnoresPendingOperators`), as in a release build. The `dbg!` calls are output only and are left out.
- Arena allocation is not modelled. Unchecked UTF-8 reinterpretation becomes byte-sequence slicing. Literal texts are bytes.
- `to_call`'s unused spaces parameter and `parse_expr_final`'s unused indentation parameter are dropped.
- The error payload of a malformed identifier and a record's trailing comments are dropped. Neither is read by the modelled code.
- Operators.OperatorHelp: the function's own contract states only progress on success and an unchanged state on failure. Its four outcomes are stated by `OperatorHelpYieldsSpelling`, `OperatorHelpFailure` and `OperatorHelpAcceptsEverySpelling`.
- Operators.OperatorHelp: the one-byte and two-byte matches are written as the lookup functions `OneByteOperator` and `TwoByteOperator`. `.` and `->` are matched before the lookup. The arms are disjoint, so the order of the cases does not matter.
- Reinterpret.PatternRoundTrip: the round trip runs in one direction only, pattern to expression to pattern, for every pattern the conversion can produce. The other direction, expression to pattern to expression, does not hold, because the conversion forgets several things. Among others, it forgets the regions of record field names, `ParensAround` and `Nested` around a sub-pattern, and the `CalledVia` of an `Apply`. It also forgets whether a field's trailing spaces were the field's own or a `SpaceAfter` wrapper around it. So an expression cannot be rebuilt exactly from its pattern.
- OperatorChain.OperatorDecision: its own contract covers the negative-term and operand cases. The `=` and `:` tables are stated by `EqualsDecision`, `ColonAliasDecision` and `ColonAnnotationDecision`.
- `when::branches`, `if_expr_help` and their push loops are not modelled. They belong to the combinator driver.
- `tests/test_parse.rs` is not modelled. It targets an older API of the parser and exercises literal lexing.
