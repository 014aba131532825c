/** `ExpressionMatcher`: normalises the expression text, compiles it through
    the rewriter, and applies the resulting predicate to collections. */
module Matcher {
  import opened Wrappers
  import opened PyAst
  import opened Predicates
  import opened Transformer
  import opened TransformerFacts

  /** A compiled matcher: the normalised expression text and the rewritten
      tree. It never changes after construction. */
  datatype ExpressionMatcher = ExpressionMatcher(expression: string, ast: Pred)
  {
    /** `__call__` (through the `matches` closure): the value of the
        compiled tree with `items` bound. */
    function Matches(items: Items): (b: bool)
    {
      Eval(ast, items)
    }

    /** `__repr__`: the class name and the normalised expression in single
        quotes, with no escaping. */
    function Repr(): (s: string)
      ensures |s| == |expression| + 21
      ensures s[..19] == "ExpressionMatcher('" && s[|s| - 2..] == "')"
      ensures s[19..|s| - 2] == expression
    {
      "ExpressionMatcher('" + expression + "')"
    }
  }

  const Anything := "anything()"

  /** No expression, or the empty one, means "match everything". */
  function Normalize(expression: Option<string>): (text: string)
    ensures text != ""
    ensures text == Anything <==> expression.None? || expression.value == "" || expression.value == Anything
    ensures expression.Some? && expression.value != "" ==> text == expression.value
  {
    if expression.None? || expression.value == "" then Anything else expression.value
  }

  /** Normalising twice changes nothing. */
  lemma NormalizeIdempotent(expression: Option<string>)
    ensures Normalize(Some(Normalize(expression))) == Normalize(expression)
  {
  }

  /** Python's `ast.parse(text, mode="eval")`, which is not part of this
      model: it either gives the tree of the text or raises a `SyntaxError`. */
  type Parser = string -> Result<Node, SynErr>

  /** `ExpressionMatcher.__init__`: normalise, parse, rewrite. Construction
      succeeds exactly when the parse succeeds and its tree lies in the
      accepted subset; the matcher then keeps the normalised text and the
      tree that mirrors the parsed one; a rewrite error carries the
      normalised text. */
  function New(expression: Option<string>, parse: Parser): (r: Result<ExpressionMatcher, SynErr>)
    ensures r.Ok? <==> parse(Normalize(expression)).Ok? && Accepted(parse(Normalize(expression)).value)
    ensures r.Ok? ==> r.value.expression == Normalize(expression)
    ensures r.Ok? ==> Mirrors(parse(Normalize(expression)).value, r.value.ast)
    ensures parse(Normalize(expression)).Err? ==> r == Err(parse(Normalize(expression)).error)
    ensures r.Err? && parse(Normalize(expression)).Ok? ==>
      var text := Normalize(expression);
      r.error.text == text && Some(r.error) == FirstReject(text, Visited(text, parse(text).value))
  {
    var text := Normalize(expression);
    match parse(text)
    case Err(e) => Err(e)
    case Ok(tree) =>
      RewriteSucceedsIffAccepted(text, tree);
      RewriteReportsFirstRejected(text, tree);
      match Rewrite(text, tree)
      case Err(e) => Err(e)
      case Ok(p) =>
        RewriteMirrors(text, tree, p);
        Ok(ExpressionMatcher(text, p))
  }

  /** No expression and the empty expression both compile as `anything()`:
      the tree is `True`, every collection matches, and the repr shows
      `anything()`. */
  lemma NoExpressionMatchesEverything(parse: Parser, cpos: Pos, fpos: Pos)
    requires parse(Anything) == Ok(Expression(Call(cpos, Name(fpos, "anything", Load), [], [])))
    ensures New(None, parse) == New(Some(""), parse) == New(Some(Anything), parse)
    ensures New(None, parse) == Ok(ExpressionMatcher(Anything, True))
    ensures New(None, parse).value.Repr() == "ExpressionMatcher('anything()')"
    ensures forall items :: New(None, parse).value.Matches(items)
  {
    var call := Call(cpos, Name(fpos, "anything", Load), [], []);
    ZeroArgumentBuiltins(Anything, cpos, fpos, Load);
    assert Rewrite(Anything, Expression(call)) == Rewrite(Anything, call);
  }

  /** Compiling the text a matcher keeps gives the same matcher again. */
  lemma RecompileSource(expression: Option<string>, parse: Parser)
    requires New(expression, parse).Ok?
    ensures New(Some(New(expression, parse).value.expression), parse) == New(expression, parse)
  {
  }

  /** The repr text determines the normalised expression. */
  lemma ReprDeterminesSource(m1: ExpressionMatcher, m2: ExpressionMatcher)
    requires m1.Repr() == m2.Repr()
    ensures m1.expression == m2.expression
  {
    var r := m1.Repr();
    assert |m1.expression| == |m2.expression|;
    assert m1.expression == r[19..|r| - 2] == m2.expression;
  }
}
