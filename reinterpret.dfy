/** Reading an already-parsed expression again as a pattern, once a following `=` or `:`
    shows it was the left-hand side of a definition (`expr_to_pattern_help`,
    `assigned_expr_field_to_pattern`, `annotation_or_alias`), and building identifier
    expressions with their field-access chains (`ident_to_expr`, `helper_help`). */
module Reinterpret {
  import opened Wrappers
  import opened Regions
  import opened Ast

  /** `expr_to_pattern_help`: the pattern an expression spells, or `Err(())` when the
      expression could not have been written as a pattern. */
  function ExprToPattern(e: Expr): Result<Pattern, ()> {
    match e
    case Var(moduleName, ident) =>
      if moduleName == "" then Ok(Pattern.Identifier(ident)) else Ok(Pattern.QualifiedIdentifier(moduleName, ident))
    case GlobalTag(name) => Ok(Pattern.GlobalTag(name))
    case PrivateTag(name) => Ok(Pattern.PrivateTag(name))
    case Apply(callee, args, _) =>
      if ExprToPattern(callee.value).Ok? && forall i | 0 <= i < |args| :: ExprToPattern(args[i].value).Ok? then
        Ok(Pattern.Apply(Located(callee.region, ExprToPattern(callee.value).value),
                         seq(|args|, i requires 0 <= i < |args| => Located(args[i].region, ExprToPattern(args[i].value).value))))
      else Err(())
    case SpaceBefore(inner, spaces) =>
      if ExprToPattern(inner).Ok? then Ok(Pattern.SpaceBefore(ExprToPattern(inner).value, spaces)) else Err(())
    case SpaceAfter(inner, spaces) =>
      if ExprToPattern(inner).Ok? then Ok(Pattern.SpaceAfter(ExprToPattern(inner).value, spaces)) else Err(())
    case ParensAround(inner) => ExprToPattern(inner)
    case Nested(inner) => ExprToPattern(inner)
    case Record(update, fields) =>
      if update.None? && forall i | 0 <= i < |fields| :: FieldToPattern(fields[i].value).Ok? then
        Ok(Pattern.RecordDestructure(
             seq(|fields|, i requires 0 <= i < |fields| => Located(fields[i].region, FieldToPattern(fields[i].value).value))))
      else Err(())
    case Float(text) => Ok(Pattern.FloatLiteral(text))
    case Num(text) => Ok(Pattern.NumLiteral(text))
    case NonBase10Int(text, base, isNegative) => Ok(Pattern.NonBase10Literal(text, base, isNegative))
    case Str(literal) => Ok(Pattern.StrLiteral(literal))
    case MalformedIdent(ident) => Ok(Pattern.Malformed(ident))
    // these would not have parsed as patterns
    case AccessorFunction(_) => Err(())
    case Access(_, _) => Err(())
    case List(_) => Err(())
    case Closure(_, _) => Err(())
    case Backpassing(_, _, _) => Err(())
    case BinOp(_, _, _) => Err(())
    case Defs(_, _) => Err(())
    case If(_, _) => Err(())
    case When(_, _) => Err(())
    case MalformedClosure => Err(())
    case PrecedenceConflict => Err(())
    case UnaryOp(_, _) => Err(())
  }

  /** `assigned_expr_field_to_pattern_help` (and `assigned_expr_field_to_pattern`, which is
      the same function): a record field as a destructuring pattern. */
  function FieldToPattern(f: AssignedField): Result<Pattern, ()> {
    match f
    case RequiredValue(name, spaces, value) =>
      if ExprToPattern(value.value).Ok? then
        var field := Pattern.RequiredField(name.value, Located(value.region, ExprToPattern(value.value).value));
        if spaces == [] then Ok(field) else Ok(Pattern.SpaceAfter(field, spaces))
      else Err(())
    case OptionalValue(name, spaces, value) =>
      var field := Pattern.OptionalField(name.value, value);
      if spaces == [] then Ok(field) else Ok(Pattern.SpaceAfter(field, spaces))
    case LabelOnly(name) => Ok(Pattern.Identifier(name.value))
    case SpaceBefore(inner, spaces) =>
      if FieldToPattern(inner).Ok? then Ok(Pattern.SpaceBefore(FieldToPattern(inner).value, spaces)) else Err(())
    case SpaceAfter(inner, spaces) =>
      if FieldToPattern(inner).Ok? then Ok(Pattern.SpaceAfter(FieldToPattern(inner).value, spaces)) else Err(())
    case Malformed(source) => Ok(Pattern.Malformed(source))
  }

  // ---------------------------------------------------------------------------------------
  // The patterns the conversion can produce, and the expressions that spell them

  /** A pattern that some expression converts to. */
  predicate IsExprPattern(p: Pattern) {
    match p
    case Identifier(_) => true
    case QualifiedIdentifier(moduleName, _) => moduleName != ""
    case GlobalTag(_) => true
    case PrivateTag(_) => true
    case Apply(callee, args) =>
      IsExprPattern(callee.value) && forall i | 0 <= i < |args| :: IsExprPattern(args[i].value)
    case RecordDestructure(fields) => forall i | 0 <= i < |fields| :: IsFieldPattern(fields[i].value)
    case SpaceBefore(inner, _) => IsExprPattern(inner)
    case SpaceAfter(inner, _) => IsExprPattern(inner)
    case NumLiteral(_) => true
    case NonBase10Literal(_, _, _) => true
    case FloatLiteral(_) => true
    case StrLiteral(_) => true
    case Malformed(_) => true
    case _ => false
  }

  /** A pattern that some record field converts to. */
  predicate IsFieldPattern(p: Pattern) {
    match p
    case Identifier(_) => true
    case RequiredField(_, pattern) => IsExprPattern(pattern.value)
    case OptionalField(_, _) => true
    case SpaceBefore(inner, _) => IsFieldPattern(inner)
    case SpaceAfter(inner, _) => IsFieldPattern(inner)
    case Malformed(_) => true
    case _ => false
  }

  /** The region given to field names when a pattern is written back as an expression;
      the conversion forgets a field name's region, so any region serves. */
  const NameRegion := Region(0, 0, 0, 0)

  /** An expression that spells `p`. */
  function PatternToExpr(p: Pattern): Expr
    requires IsExprPattern(p)
  {
    match p
    case Identifier(ident) => Var("", ident)
    case QualifiedIdentifier(moduleName, ident) => Var(moduleName, ident)
    case GlobalTag(name) => Expr.GlobalTag(name)
    case PrivateTag(name) => Expr.PrivateTag(name)
    case Apply(callee, args) =>
      Expr.Apply(Located(callee.region, PatternToExpr(callee.value)),
                 seq(|args|, i requires 0 <= i < |args| => Located(args[i].region, PatternToExpr(args[i].value))),
                 Space)
    case RecordDestructure(fields) =>
      Record(None, seq(|fields|, i requires 0 <= i < |fields| => Located(fields[i].region, PatternToField(fields[i].value))))
    case SpaceBefore(inner, spaces) => Expr.SpaceBefore(PatternToExpr(inner), spaces)
    case SpaceAfter(inner, spaces) => Expr.SpaceAfter(PatternToExpr(inner), spaces)
    case NumLiteral(text) => Num(text)
    case NonBase10Literal(text, base, isNegative) => NonBase10Int(text, base, isNegative)
    case FloatLiteral(text) => Float(text)
    case StrLiteral(literal) => Str(literal)
    case Malformed(source) => Expr.MalformedIdent(source)
  }

  /** A record field that spells the field pattern `p`. */
  function PatternToField(p: Pattern): AssignedField
    requires IsFieldPattern(p)
  {
    match p
    case Identifier(ident) => LabelOnly(Located(NameRegion, ident))
    case RequiredField(fieldName, pattern) =>
      RequiredValue(Located(NameRegion, fieldName), [], Located(pattern.region, PatternToExpr(pattern.value)))
    case OptionalField(fieldName, default) => OptionalValue(Located(NameRegion, fieldName), [], default)
    case SpaceBefore(inner, spaces) => AssignedField.SpaceBefore(PatternToField(inner), spaces)
    case SpaceAfter(inner, spaces) => AssignedField.SpaceAfter(PatternToField(inner), spaces)
    case Malformed(source) => AssignedField.Malformed(source)
  }

  /** Every pattern of the image is spelled back by `PatternToExpr`: converting that
      expression yields the very same pattern. */
  lemma {:induction false} PatternRoundTrip(p: Pattern)
    requires IsExprPattern(p)
    ensures ExprToPattern(PatternToExpr(p)) == Ok(p)
    decreases p, 1
  {
    match p
    case Apply(callee, args) =>
      PatternRoundTrip(callee.value);
      var e := PatternToExpr(p);
      forall i | 0 <= i < |args| ensures ExprToPattern(e.args[i].value) == Ok(args[i].value) {
        PatternRoundTrip(args[i].value);
      }
      assert ExprToPattern(e).value.args == args;
    case RecordDestructure(fields) =>
      var e := PatternToExpr(p);
      forall i | 0 <= i < |fields| ensures FieldToPattern(e.fields[i].value) == Ok(fields[i].value) {
        FieldRoundTrip(fields[i].value);
      }
      assert ExprToPattern(e).value.fields == fields;
    case SpaceBefore(inner, _) => PatternRoundTrip(inner);
    case SpaceAfter(inner, _) => PatternRoundTrip(inner);
    case _ =>
  }

  lemma {:induction false} FieldRoundTrip(p: Pattern)
    requires IsFieldPattern(p)
    ensures FieldToPattern(PatternToField(p)) == Ok(p)
    decreases p, 0
  {
    match p
    case RequiredField(_, pattern) => PatternRoundTrip(pattern.value);
    case SpaceBefore(inner, _) => FieldRoundTrip(inner);
    case SpaceAfter(inner, _) => FieldRoundTrip(inner);
    case _ =>
  }

  /** Conversely, everything the conversion produces lies in the image: together with
      `PatternRoundTrip`, `IsExprPattern` is exactly the set of patterns an expression
      can be read as. */
  lemma {:induction false} ConversionImage(e: Expr)
    requires ExprToPattern(e).Ok?
    ensures IsExprPattern(ExprToPattern(e).value)
  {
    match e
    case Apply(callee, args, _) =>
      ConversionImage(callee.value);
      forall i | 0 <= i < |args| ensures IsExprPattern(ExprToPattern(args[i].value).value) {
        ConversionImage(args[i].value);
      }
    case Record(_, fields) =>
      forall i | 0 <= i < |fields| ensures IsFieldPattern(FieldToPattern(fields[i].value).value) {
        FieldConversionImage(fields[i].value);
      }
    case SpaceBefore(inner, _) => ConversionImage(inner);
    case SpaceAfter(inner, _) => ConversionImage(inner);
    case ParensAround(inner) => ConversionImage(inner);
    case Nested(inner) => ConversionImage(inner);
    case _ =>
  }

  lemma {:induction false} FieldConversionImage(f: AssignedField)
    requires FieldToPattern(f).Ok?
    ensures IsFieldPattern(FieldToPattern(f).value)
  {
    match f
    case RequiredValue(_, _, value) => ConversionImage(value.value);
    case SpaceBefore(inner, _) => FieldConversionImage(inner);
    case SpaceAfter(inner, _) => FieldConversionImage(inner);
    case _ =>
  }

  /** An application is a pattern exactly when its callee and every argument are; the
      pattern keeps the arguments' number, order and regions, and the callee's region. */
  lemma ApplyConversion(callee: Located<Expr>, args: seq<Located<Expr>>, via: CalledVia)
    ensures ExprToPattern(Expr.Apply(callee, args, via)).Ok? <==>
      ExprToPattern(callee.value).Ok? && forall i | 0 <= i < |args| :: ExprToPattern(args[i].value).Ok?
    ensures ExprToPattern(Expr.Apply(callee, args, via)).Ok? ==>
      var p := ExprToPattern(Expr.Apply(callee, args, via)).value;
      && p.Apply?
      && p.callee == Located(callee.region, ExprToPattern(callee.value).value)
      && |p.args| == |args|
      && forall i | 0 <= i < |args| :: p.args[i] == Located(args[i].region, ExprToPattern(args[i].value).value)
  {
  }

  /** A record without an update destructures into one pattern per field, in order; a
      field given by its label alone binds that label, and a record update never converts. */
  lemma RecordConversion(update: Option<Located<Expr>>, fields: seq<Located<AssignedField>>)
    ensures ExprToPattern(Record(update, fields)).Ok? <==>
      update.None? && forall i | 0 <= i < |fields| :: FieldToPattern(fields[i].value).Ok?
    ensures ExprToPattern(Record(update, fields)).Ok? ==>
      var p := ExprToPattern(Record(update, fields)).value;
      && p.RecordDestructure?
      && |p.fields| == |fields|
      && (forall i | 0 <= i < |fields| :: p.fields[i].region == fields[i].region)
      && (forall i | 0 <= i < |fields| :: fields[i].value.LabelOnly? ==>
            p.fields[i].value == Pattern.Identifier(fields[i].value.name.value))
  {
  }

  /** The expressions that cannot be read as a pattern. */
  predicate NeverAPattern(e: Expr) {
    || e.BinOp? || e.If? || e.When? || e.Closure? || e.UnaryOp? || e.Access? || e.AccessorFunction?
    || e.List? || e.Defs? || e.Backpassing? || e.MalformedClosure? || e.PrecedenceConflict?
    || (e.Record? && e.update.Some?)
  }

  /** Which expressions convert: variables become identifiers (qualified exactly when a
      module is named), parentheses are transparent, and the excluded shapes fail. */
  lemma ConversionCases(e: Expr)
    ensures NeverAPattern(e) ==> ExprToPattern(e) == Err(())
    ensures e.Var? && e.moduleName == "" ==> ExprToPattern(e) == Ok(Pattern.Identifier(e.ident))
    ensures e.Var? && e.moduleName != "" ==> ExprToPattern(e) == Ok(Pattern.QualifiedIdentifier(e.moduleName, e.ident))
    ensures e.ParensAround? || e.Nested? ==> ExprToPattern(e) == ExprToPattern(e.inner)
  {
  }

  // ---------------------------------------------------------------------------------------
  // `annotation_or_alias`

  /** A pattern that is a record field, possibly under spaces or nesting: such a pattern
      only ever occurs inside a record destructure. */
  predicate IsFieldAtTop(p: Pattern) {
    match p
    case RequiredField(_, _) => true
    case OptionalField(_, _) => true
    case SpaceBefore(inner, _) => IsFieldAtTop(inner)
    case SpaceAfter(inner, _) => IsFieldAtTop(inner)
    case Nested(inner) => IsFieldAtTop(inner)
    case _ => false
  }

  /** The messages of the definitions `annotation_or_alias` does not support yet. */
  const InvalidApplyMessage: string := "TODO gracefully handle invalid Apply in type annotation"
  const PrivateTagMessage: string := "TODO gracefully handle trying to use a private tag as an annotation."
  const QualifiedIdentifierMessage: string := "TODO gracefully handle trying to annotate a qualified identifier, e.g. `Foo.bar : ...`"
  const LiteralMessage: string := "TODO gracefully handle trying to annotate a litera"
  const UnderscoreMessage: string := "TODO gracefully handle trying to give a type annotation to an undrscore"
  const MalformedMessage: string := "TODO translate a malformed pattern into a malformed annotation"

  /** `annotation_or_alias`: the definition a `pattern : annotation` stands for. An
      uppercase tag, applied or not, introduces a type alias; an identifier or a record
      destructure is an annotation; anything else is not yet supported. */
  function AnnotationOrAlias(pattern: Pattern, patternRegion: Region, ann: Located<TypeAnnotation>): Def
    requires !IsFieldAtTop(pattern)
  {
    match pattern
    case GlobalTag(name) => Alias(Located(patternRegion, name), [], ann)
    case Apply(callee, vars) =>
      // the name's region is the tag's own: the source binds `pattern_region` afresh here
      if callee.value.GlobalTag? then Alias(Located(callee.region, callee.value.name), vars, ann)
      else NotYetImplemented(InvalidApplyMessage)
    case SpaceAfter(inner, spaces) => Def.SpaceAfter(AnnotationOrAlias(inner, patternRegion, ann), spaces)
    case SpaceBefore(inner, spaces) => Def.SpaceBefore(AnnotationOrAlias(inner, patternRegion, ann), spaces)
    case Nested(inner) => AnnotationOrAlias(inner, patternRegion, ann)
    case PrivateTag(_) => NotYetImplemented(PrivateTagMessage)
    case QualifiedIdentifier(_, _) =>
      NotYetImplemented(QualifiedIdentifierMessage)
    case NumLiteral(_) => NotYetImplemented(LiteralMessage)
    case NonBase10Literal(_, _, _) => NotYetImplemented(LiteralMessage)
    case FloatLiteral(_) => NotYetImplemented(LiteralMessage)
    case StrLiteral(_) => NotYetImplemented(LiteralMessage)
    case Underscore(_) => NotYetImplemented(UnderscoreMessage)
    case Malformed(_) => NotYetImplemented(MalformedMessage)
    case MalformedIdent(_) => NotYetImplemented(MalformedMessage)
    case Identifier(ident) => Annotation(Located(patternRegion, Pattern.Identifier(ident)), ann)
    case RecordDestructure(fields) => Annotation(Located(patternRegion, Pattern.RecordDestructure(fields)), ann)
  }

  /** A pattern without its spaces and nesting. */
  function PatternCore(p: Pattern): Pattern {
    match p
    case SpaceBefore(inner, _) => PatternCore(inner)
    case SpaceAfter(inner, _) => PatternCore(inner)
    case Nested(inner) => PatternCore(inner)
    case _ => p
  }

  /** A definition without its spaces. */
  function DefCore(d: Def): Def {
    match d
    case SpaceBefore(inner, _) => DefCore(inner)
    case SpaceAfter(inner, _) => DefCore(inner)
    case _ => d
  }

  /** A wrapper of spaces in front of or behind a node. */
  datatype SpaceWrap = Before(spaces: Spaces) | After(spaces: Spaces)

  /** The spaces around a pattern, outermost first (nesting carries none). */
  function PatternSpaces(p: Pattern): seq<SpaceWrap> {
    match p
    case SpaceBefore(inner, spaces) => [Before(spaces)] + PatternSpaces(inner)
    case SpaceAfter(inner, spaces) => [After(spaces)] + PatternSpaces(inner)
    case Nested(inner) => PatternSpaces(inner)
    case _ => []
  }

  /** The spaces around a definition, outermost first. */
  function DefSpaces(d: Def): seq<SpaceWrap> {
    match d
    case SpaceBefore(inner, spaces) => [Before(spaces)] + DefSpaces(inner)
    case SpaceAfter(inner, spaces) => [After(spaces)] + DefSpaces(inner)
    case _ => []
  }

  /** Spaces and nesting do not change what a pattern is classified as. */
  lemma {:induction false} AnnotationOrAliasSeesThroughSpaces(pattern: Pattern, patternRegion: Region, ann: Located<TypeAnnotation>)
    requires !IsFieldAtTop(pattern)
    ensures !IsFieldAtTop(PatternCore(pattern))
    ensures DefCore(AnnotationOrAlias(pattern, patternRegion, ann)) == AnnotationOrAlias(PatternCore(pattern), patternRegion, ann)
  {
    match pattern
    case SpaceBefore(inner, _) => AnnotationOrAliasSeesThroughSpaces(inner, patternRegion, ann);
    case SpaceAfter(inner, _) => AnnotationOrAliasSeesThroughSpaces(inner, patternRegion, ann);
    case Nested(inner) => AnnotationOrAliasSeesThroughSpaces(inner, patternRegion, ann);
    case _ =>
  }

  /** The classification `annotation_or_alias` makes, read through spaces and nesting. */
  lemma AnnotationOrAliasClassifies(pattern: Pattern, patternRegion: Region, ann: Located<TypeAnnotation>)
    requires !IsFieldAtTop(pattern)
    ensures var core := PatternCore(pattern);
      var d := DefCore(AnnotationOrAlias(pattern, patternRegion, ann));
      && (core.GlobalTag? ==> d == Alias(Located(patternRegion, core.name), [], ann))
      && (core.Apply? && core.callee.value.GlobalTag? ==>
            d == Alias(Located(core.callee.region, core.callee.value.name), core.args, ann))
      && (core.Identifier? || core.RecordDestructure? ==> d == Annotation(Located(patternRegion, core), ann))
      && (!(core.GlobalTag? || (core.Apply? && core.callee.value.GlobalTag?) || core.Identifier? || core.RecordDestructure?) ==>
            d.NotYetImplemented?)
  {
    AnnotationOrAliasSeesThroughSpaces(pattern, patternRegion, ann);
    var core := PatternCore(pattern);
    CoreIsUnwrapped(pattern);
    assert !core.SpaceBefore? && !core.SpaceAfter? && !core.Nested?;
  }

  lemma {:induction false} CoreIsUnwrapped(p: Pattern)
    ensures !PatternCore(p).SpaceBefore? && !PatternCore(p).SpaceAfter? && !PatternCore(p).Nested?
  {
    match p
    case SpaceBefore(inner, _) => CoreIsUnwrapped(inner);
    case SpaceAfter(inner, _) => CoreIsUnwrapped(inner);
    case Nested(inner) => CoreIsUnwrapped(inner);
    case _ =>
  }

  /** The pattern's spaces reappear, in the same order, around the definition. */
  lemma {:induction false} AnnotationOrAliasKeepsSpaces(pattern: Pattern, patternRegion: Region, ann: Located<TypeAnnotation>)
    requires !IsFieldAtTop(pattern)
    ensures DefSpaces(AnnotationOrAlias(pattern, patternRegion, ann)) == PatternSpaces(pattern)
  {
    match pattern
    case SpaceBefore(inner, _) => AnnotationOrAliasKeepsSpaces(inner, patternRegion, ann);
    case SpaceAfter(inner, _) => AnnotationOrAliasKeepsSpaces(inner, patternRegion, ann);
    case Nested(inner) => AnnotationOrAliasKeepsSpaces(inner, patternRegion, ann);
    case _ =>
  }

  /** A converted expression never trips the `unreachable!` of `annotation_or_alias`:
      record fields only appear inside a record destructure. */
  lemma {:induction false} ConvertedPatternIsNoField(e: Expr)
    requires ExprToPattern(e).Ok?
    ensures !IsFieldAtTop(ExprToPattern(e).value)
  {
    match e
    case SpaceBefore(inner, _) => ConvertedPatternIsNoField(inner);
    case SpaceAfter(inner, _) => ConvertedPatternIsNoField(inner);
    case ParensAround(inner) => ConvertedPatternIsNoField(inner);
    case Nested(inner) => ConvertedPatternIsNoField(inner);
    case _ =>
  }

  // ---------------------------------------------------------------------------------------
  // Field-access chains: `ident_to_expr` and the loop of `helper_help`

  /** `base.f1.f2…fn`, nested to the left as if written `((base.f1).f2)…`. */
  function AccessChain(base: Expr, fields: seq<string>): Expr
    decreases |fields|
  {
    if fields == [] then base else Expr.Access(AccessChain(base, fields[..|fields| - 1]), fields[|fields| - 1])
  }

  /** The base and the accessed fields of an access chain. */
  function AccessParts(e: Expr): (Expr, seq<string>) {
    if e.Access? then (AccessParts(e.record).0, AccessParts(e.record).1 + [e.field]) else (e, [])
  }

  /** Splitting an access chain gives back its base and its fields, in order. */
  lemma {:induction false} AccessChainRoundTrip(base: Expr, fields: seq<string>)
    requires !base.Access?
    ensures AccessParts(AccessChain(base, fields)) == (base, fields)
    decreases |fields|
  {
    if fields != [] {
      AccessChainRoundTrip(base, fields[..|fields| - 1]);
      assert fields[..|fields| - 1] + [fields[|fields| - 1]] == fields;
    }
  }

  /** A chain with at least one access is no pattern. */
  lemma AccessChainIsNoPattern(base: Expr, fields: seq<string>)
    requires fields != []
    ensures ExprToPattern(AccessChain(base, fields)) == Err(())
  {
  }

  /** Wrap `value` in one `Access` per field, first field innermost. */
  method WrapAccesses(value: Expr, fields: seq<string>) returns (answer: Expr)
    ensures answer == AccessChain(value, fields)
  {
    answer := value;
    var i := 0;
    while i < |fields|
      invariant 0 <= i <= |fields|
      invariant answer == AccessChain(value, fields[..i])
    {
      assert fields[..i + 1][..i] == fields[..i];
      answer := Expr.Access(answer, fields[i]);
      i := i + 1;
    }
    assert fields[..i] == fields;
  }

  /** The loop of `helper_help`: apply the accesses that followed a parenthesized
      expression, keeping the expression's region. */
  method ApplyAccesses(locExpr: Located<Expr>, accesses: seq<string>) returns (r: Located<Expr>)
    ensures r.region == locExpr.region
    ensures !locExpr.value.Access? ==> AccessParts(r.value) == (locExpr.value, accesses)
    ensures r.value == AccessChain(locExpr.value, accesses)
  {
    var value := WrapAccesses(locExpr.value, accesses);
    r := Located(locExpr.region, value);
    if !locExpr.value.Access? {
      AccessChainRoundTrip(locExpr.value, accesses);
    }
  }

  /** `ident_to_expr`: the expression an identifier denotes. A qualified or plain
      variable `m.x.f1…fn` is the variable `x` of module `m` followed by the accesses. */
  method IdentToExpr(src: Ident) returns (e: Expr)
    requires src.Access? ==> src.parts != []
    ensures src.GlobalTag? ==> e == Expr.GlobalTag(src.name)
    ensures src.PrivateTag? ==> e == Expr.PrivateTag(src.name)
    ensures src.AccessorFunction? ==> e == Expr.AccessorFunction(src.field)
    ensures src.Malformed? ==> e == Expr.MalformedIdent(src.source)
    ensures src.Access? ==> AccessParts(e) == (Var(src.moduleName, src.parts[0]), src.parts[1..])
    ensures src.Access? ==> e == AccessChain(Var(src.moduleName, src.parts[0]), src.parts[1..])
  {
    match src
    case GlobalTag(name) => e := Expr.GlobalTag(name);
    case PrivateTag(name) => e := Expr.PrivateTag(name);
    case Access(moduleName, parts) =>
      e := WrapAccesses(Var(moduleName, parts[0]), parts[1..]);
      AccessChainRoundTrip(Var(moduleName, parts[0]), parts[1..]);
    case AccessorFunction(field) => e := Expr.AccessorFunction(field);
    case Malformed(source) => e := Expr.MalformedIdent(source);
  }
}
