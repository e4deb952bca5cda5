/** The parser's cursor and its three-valued result (`crate::parser`, of which only these
    shapes are part of this model). */
module ParserState {
  import opened Numeric
  import opened Regions

  /** The remaining input, the current line and column, and the column at which the
      current line's indentation ended. */
  datatype State = State(bytes: seq<u8>, line: u32, column: u16, indentCol: u16) {
    function Position(): Position { Regions.Position(line, column) }
  }

  /** Whether a parser consumed input before it succeeded or failed. */
  datatype Progress = MadeProgress | NoProgress

  datatype ParseResult<+T, +E> =
    | Success(progress: Progress, value: T, state: State)
    | Failure(progress: Progress, error: E, state: State)

  /** The expression parser's errors, trimmed to those raised by the modelled code. */
  datatype EExpr =
    | Start(line: u32, col: u16)
    | BadOperator(op: seq<u8>, line: u32, col: u16)
    | Equals(line: u32, col: u16)
    | Colon(line: u32, col: u16)
    | DoubleColon(line: u32, col: u16)
    | BackpassArrow(line: u32, col: u16)
    | UnaryNot(line: u32, col: u16)
    | ElmStyleFunction(args: Region, line: u32, col: u16)
    | IndentDefBody(line: u32, col: u16)
    | MalformedPattern(line: u32, col: u16)

  /** Consume `width` bytes of the current line: the `good!` step of the operator
      tokenizer, and `advance_without_indenting_e` on its success path. */
  function Advance(state: State, width: nat): (r: State)
    requires width <= |state.bytes|
    requires width < 0x1_0000
    ensures r.bytes == state.bytes[width..]
    ensures r.line == state.line && r.indentCol == state.indentCol
    ensures r.column == WrappingAdd(state.column, width as u16)
    ensures state.column as int + width < 0x1_0000 ==> r.column as int == state.column as int + width
  {
    state.(bytes := state.bytes[width..], column := WrappingAdd(state.column, width as u16))
  }
}
