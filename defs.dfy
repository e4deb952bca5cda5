/** The list of definitions a `defs` block builds (`DefState`, `append_body_definition`)
    and the indentation guard on a definition's body (`check_def_indent`). */
module Definitions {
  import opened Numeric
  import opened Wrappers
  import opened Regions
  import opened Ast
  import opened ParserState

  /** The comment `append_body_definition` carries from the line between an annotation
      and its body: the text of a line or doc comment that comes first. */
  function CommentOf(spaces: Spaces): (c: Option<string>)
    ensures c.Some? <==> spaces != [] && (spaces[0].LineComment? || spaces[0].DocComment?)
    ensures c.Some? ==> c.value == spaces[0].text
  {
    if spaces == [] then None
    else match spaces[0]
      case LineComment(s) => Some(s)
      case DocComment(s) => Some(s)
      case Newline => None
  }

  /** Whether a new body fuses with the definition before it: at most one space between
      them and an annotation last. The two patterns are not compared. */
  predicate Fuses(defs: seq<Located<Def>>, spaces: Spaces) {
    |spaces| <= 1 && defs != [] && defs[|defs| - 1].value.Annotation?
  }

  /** The definitions after `append_body_definition`. */
  function MergeBody(defs: seq<Located<Def>>, spaces: Spaces, pattern: Located<Pattern>, body: Located<Expr>): seq<Located<Def>> {
    var region := SpanAcross(pattern.region, body.region);
    if Fuses(defs, spaces) then
      var ann := defs[|defs| - 1].value;
      defs[..|defs| - 1] + [Located(region, AnnotatedBody(ann.pattern, ann.ann, CommentOf(spaces), pattern, body))]
    else if spaces == [] then
      defs + [Located(region, Def.Body(pattern, body))]
    else
      defs + [Def.Body(pattern, body).WithSpacesBefore(spaces, region)]
  }

  /** The annotation directly before a body is replaced by the annotated body: the count
      stays, the definitions before it stay, and the comment between the two is kept. */
  lemma MergeFusesAnnotation(defs: seq<Located<Def>>, spaces: Spaces, pattern: Located<Pattern>, body: Located<Expr>)
    requires Fuses(defs, spaces)
    ensures var r := MergeBody(defs, spaces, pattern, body);
      var n := |defs|;
      && |r| == n
      && r[..n - 1] == defs[..n - 1]
      && r[n - 1].region == SpanAcross(pattern.region, body.region)
      && r[n - 1].value == AnnotatedBody(defs[n - 1].value.pattern, defs[n - 1].value.ann, CommentOf(spaces), pattern, body)
  {
  }

  /** Otherwise a new body is appended after all the definitions, behind the spaces that
      preceded it exactly when there were any. */
  lemma MergeAppendsBody(defs: seq<Located<Def>>, spaces: Spaces, pattern: Located<Pattern>, body: Located<Expr>)
    requires !Fuses(defs, spaces)
    ensures var r := MergeBody(defs, spaces, pattern, body);
      && |r| == |defs| + 1
      && r[..|defs|] == defs
      && r[|defs|].region == SpanAcross(pattern.region, body.region)
      && (r[|defs|].value.SpaceBefore? <==> spaces != [])
      && r[|defs|].value == if spaces == [] then Def.Body(pattern, body) else Def.SpaceBefore(Def.Body(pattern, body), spaces)
  {
  }

  /** An annotation fuses with the body that follows even when it annotates another name:
      `x : Int` then `y = 1` gives one annotated body for `x` with the body of `y`. */
  lemma MergeIgnoresPatternNames(annRegion: Region, ann: Located<TypeAnnotation>, x: Located<Pattern>, y: Located<Pattern>,
                                 body: Located<Expr>)
    requires x.value == Pattern.Identifier("x") && y.value == Pattern.Identifier("y")
    ensures MergeBody([Located(annRegion, Annotation(x, ann))], [Newline], y, body) ==
      [Located(SpanAcross(y.region, body.region), AnnotatedBody(x, ann, None, y, body))]
  {
    assert Fuses([Located(annRegion, Annotation(x, ann))], [Newline]);
  }

  /** `DefState`: the definitions parsed so far and the spaces behind the last one. */
  class DefState {
    var defs: seq<Located<Def>>
    var spacesAfter: Spaces

    /** The state a `=` or `:` definition starts a block with. */
    constructor (first: Located<Def>)
      ensures defs == [first] && spacesAfter == []
    {
      defs := [first];
      spacesAfter := [];
    }

    /** `append_body_definition`: pop the last definition; fuse it with the new body if it
        is an annotation at most one space away, else put it back and push the body. */
    method AppendBodyDefinition(spaces: Spaces, pattern: Located<Pattern>, body: Located<Expr>)
      modifies this
      ensures defs == MergeBody(old(defs), spaces, pattern, body)
      ensures spacesAfter == old(spacesAfter)
    {
      var region := SpanAcross(pattern.region, body.region);
      if |spaces| <= 1 {
        var last: Option<Located<Def>> := None;
        if defs != [] {
          last := Some(defs[|defs| - 1]);
          defs := defs[..|defs| - 1];
        }
        if last.Some? && last.value.value.Annotation? {
          var comment: Option<string> := None;
          if spaces != [] {
            match spaces[0]
            case LineComment(s) => comment := Some(s);
            case DocComment(s) => comment := Some(s);
            case Newline =>
          }
          var ann := last.value.value;
          defs := defs + [Located(region, AnnotatedBody(ann.pattern, ann.ann, comment, pattern, body))];
          return;
        } else if last.Some? {
          assert defs + [last.value] == old(defs);
          defs := defs + [last.value];
        }
      }
      var locDef := Located(region, Def.Body(pattern, body));
      if spaces != [] {
        locDef := locDef.value.WithSpacesBefore(spaces, locDef.region);
      }
      defs := defs + [locDef];
    }
  }

  /** `check_def_indent`: a definition's body may start neither left of the minimum
      indentation nor right of the column of its `=`, `:` or `<-`. */
  function CheckDefIndent(minIndent: u16, defStartColumn: u16, specialTokenIndent: u16, state: State)
    : (r: Result<State, (Progress, EExpr, State)>)
    ensures r.Ok? <==> minIndent <= defStartColumn <= specialTokenIndent
    ensures r.Ok? ==> r.value == state
    ensures r.Err? ==> r.error == (NoProgress, IndentDefBody(state.line, state.column), state)
  {
    if defStartColumn < minIndent || specialTokenIndent < defStartColumn then
      Err((NoProgress, IndentDefBody(state.line, state.column), state))
    else Ok(state)
  }

  /** Loosening either bound keeps an accepted definition accepted. */
  lemma CheckDefIndentMonotone(minIndent: u16, looserMin: u16, defStartColumn: u16, specialTokenIndent: u16,
                               looserToken: u16, state: State)
    requires looserMin <= minIndent && specialTokenIndent <= looserToken
    requires CheckDefIndent(minIndent, defStartColumn, specialTokenIndent, state).Ok?
    ensures CheckDefIndent(looserMin, defStartColumn, looserToken, state).Ok?
  {
  }
}
