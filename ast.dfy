/** The syntax tree the parser builds (`crate::ast`, trimmed to what the parser core
    touches). Every child is a plain immutable value: the arena that owns the nodes in the
    source is not modelled. */
module Ast {
  import opened Numeric
  import opened Wrappers
  import opened Regions

  /** One piece of the whitespace between tokens. */
  datatype CommentOrNewline = Newline | LineComment(text: string) | DocComment(text: string)

  type Spaces = seq<CommentOrNewline>

  /** The binary operators the tokenizer produces (`roc_module::operator::BinOp`). */
  datatype BinOp =
    | Plus | Minus | Star | Slash | Percent | Caret | GreaterThan | LessThan
    | Assignment | HasType
    | Pizza | Equals | NotEquals | GreaterThanOrEq | LessThanOrEq | And | Or
    | DoubleSlash | DoublePercent | Backpassing

  datatype UnaryOp = Negate | Not

  /** How a function application was written. */
  datatype CalledVia = Space | ViaBinOp(binOp: BinOp) | ViaUnaryOp(unOp: UnaryOp)

  /** The base of a non-decimal integer literal. */
  datatype Base = Hex | Octal | Binary | Decimal

  /** The text of a type annotation; its grammar belongs to the type-annotation parser. */
  datatype TypeAnnotation = Type(text: string) | SpaceBefore(inner: TypeAnnotation, spaces: Spaces)
  {
    function WithSpacesBefore(spaces: Spaces, region: Region): Located<TypeAnnotation> {
      Located(region, TypeAnnotation.SpaceBefore(this, spaces))
    }
  }

  datatype WhenBranch = WhenBranch(patterns: seq<Located<Pattern>>, value: Located<Expr>, guard: Option<Located<Expr>>)

  datatype Expr =
    // literals keep the exact bytes of their source text
    | Float(text: seq<u8>)
    | Num(text: seq<u8>)
    | NonBase10Int(text: seq<u8>, base: Base, isNegative: bool)
    | Str(literal: string)
    // `rec.field` and `.field`
    | Access(record: Expr, field: string)
    | AccessorFunction(field: string)
    | List(items: seq<Located<Expr>>)
    | Record(update: Option<Located<Expr>>, fields: seq<Located<AssignedField>>)
    | Var(moduleName: string, ident: string)
    | GlobalTag(name: string)
    | PrivateTag(name: string)
    | Closure(params: seq<Located<Pattern>>, body: Located<Expr>)
    | Defs(defs: seq<Located<Def>>, final: Located<Expr>)
    | Backpassing(patterns: seq<Located<Pattern>>, producer: Located<Expr>, continuation: Located<Expr>)
    | BinOp(left: Located<Expr>, binOp: Located<BinOp>, right: Located<Expr>)
    | UnaryOp(operand: Located<Expr>, unOp: Located<UnaryOp>)
    | If(branches: seq<(Located<Expr>, Located<Expr>)>, elseBranch: Located<Expr>)
    | When(condition: Located<Expr>, whenBranches: seq<WhenBranch>)
    | Apply(callee: Located<Expr>, args: seq<Located<Expr>>, calledVia: CalledVia)
    // whitespace and comments ride on the node they follow or precede
    | SpaceBefore(inner: Expr, spaces: Spaces)
    | SpaceAfter(inner: Expr, spaces: Spaces)
    | ParensAround(inner: Expr)
    | Nested(inner: Expr)
    | MalformedIdent(ident: string)
    | MalformedClosure
    | PrecedenceConflict
  {
    /** `Spaceable::with_spaces_before`. */
    function WithSpacesBefore(spaces: Spaces, region: Region): Located<Expr> {
      Located(region, Expr.SpaceBefore(this, spaces))
    }

    /** `Spaceable::with_spaces_after`. */
    function WithSpacesAfter(spaces: Spaces, region: Region): Located<Expr> {
      Located(region, Expr.SpaceAfter(this, spaces))
    }
  }

  /** A field of a record literal. */
  datatype AssignedField =
    | RequiredValue(name: Located<string>, spaces: Spaces, value: Located<Expr>)
    | OptionalValue(name: Located<string>, spaces: Spaces, value: Located<Expr>)
    | LabelOnly(name: Located<string>)
    | SpaceBefore(inner: AssignedField, spaces: Spaces)
    | SpaceAfter(inner: AssignedField, spaces: Spaces)
    | Malformed(source: string)

  datatype Pattern =
    | Identifier(ident: string)
    | GlobalTag(name: string)
    | PrivateTag(name: string)
    | Apply(callee: Located<Pattern>, args: seq<Located<Pattern>>)
    | RecordDestructure(fields: seq<Located<Pattern>>)
    // only inside a record destructure
    | RequiredField(fieldName: string, pattern: Located<Pattern>)
    | OptionalField(fieldName: string, default: Located<Expr>)
    | Nested(inner: Pattern)
    | NumLiteral(text: seq<u8>)
    | NonBase10Literal(text: seq<u8>, base: Base, isNegative: bool)
    | FloatLiteral(text: seq<u8>)
    | StrLiteral(literal: string)
    | Underscore(name: string)
    | SpaceBefore(inner: Pattern, spaces: Spaces)
    | SpaceAfter(inner: Pattern, spaces: Spaces)
    | Malformed(source: string)
    | MalformedIdent(source: string)
    | QualifiedIdentifier(moduleName: string, ident: string)

  datatype Def =
    | Annotation(pattern: Located<Pattern>, ann: Located<TypeAnnotation>)
    | Alias(name: Located<string>, vars: seq<Located<Pattern>>, ann: Located<TypeAnnotation>)
    | Body(pattern: Located<Pattern>, body: Located<Expr>)
    | AnnotatedBody(annPattern: Located<Pattern>, annType: Located<TypeAnnotation>, comment: Option<string>,
                    bodyPattern: Located<Pattern>, bodyExpr: Located<Expr>)
    | SpaceBefore(inner: Def, spaces: Spaces)
    | SpaceAfter(inner: Def, spaces: Spaces)
    | NotYetImplemented(message: string)
  {
    /** `Spaceable::with_spaces_before`. */
    function WithSpacesBefore(spaces: Spaces, region: Region): Located<Def> {
      Located(region, Def.SpaceBefore(this, spaces))
    }
  }

  /** What the identifier lexer (`crate::ident`) hands to the expression parser. */
  datatype Ident =
    | GlobalTag(name: string)
    | PrivateTag(name: string)
    | Access(moduleName: string, parts: seq<string>)
    | AccessorFunction(field: string)
    | Malformed(source: string)
}
