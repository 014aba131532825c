/** The examples documented on `ExpressionMatcher`, with the trees Python's
    parser gives for them (positions included), as lemmas about `New`,
    `Matches` and `Repr`. */
module Doctests {
  import opened Wrappers
  import opened PyAst
  import opened Predicates
  import opened Transformer
  import opened TransformerFacts
  import opened Matcher

  /** A position on line 1 from column `start` up to column `end`. */
  function Span(start: nat, end: nat): (pos: Pos)
  {
    Pos(1, start, Some(1), Some(end))
  }

  function Ident(start: nat, id: string): (n: Node)
  {
    Name(Span(start, start + |id|), id, Load)
  }

  /** `foo and bar` */
  const FooAndBarTree := Expression(BoolOp(Span(0, 11), AndOp, [Ident(0, "foo"), Ident(8, "bar")]))

  /** `foo or empty()` */
  const FooOrEmptyTree :=
    Expression(BoolOp(Span(0, 14), OrOp, [Ident(0, "foo"), Call(Span(7, 14), Ident(7, "empty"), [], [])]))

  /** `foo + 1` */
  const FooPlusOneTree := Expression(BinOp(Span(0, 7), Ident(0, "foo"), Add, Constant(Span(6, 7), IntConst(1))))

  /** `foo()` */
  const FooCallTree := Expression(Call(Span(0, 5), Ident(0, "foo"), [], []))

  /** `empty(1)` */
  const EmptyOneTree := Expression(Call(Span(0, 8), Ident(0, "empty"), [Constant(Span(6, 7), IntConst(1))], []))

  /** `foo and bar` compiles to `'foo' in items and 'bar' in items`, and its
      repr shows the text. */
  lemma FooAndBarCompiles(parse: Parser)
    requires parse("foo and bar") == Ok(FooAndBarTree)
    ensures New(Some("foo and bar"), parse) == Ok(ExpressionMatcher("foo and bar", And([In("foo"), In("bar")])))
    ensures New(Some("foo and bar"), parse).value.Repr() == "ExpressionMatcher('foo and bar')"
  {
    var text, tree := "foo and bar", FooAndBarTree;
    LeavesBecomeMembershipTests(text, Span(0, 3), "foo", NoneConst, 0);
    LeavesBecomeMembershipTests(text, Span(8, 11), "bar", NoneConst, 0);
    RewriteAllPointwise(text, tree.body.values, [In("foo"), In("bar")]);
    assert Rewrite(text, tree.body) == Ok(And([In("foo"), In("bar")]));
    assert Rewrite(text, tree) == Rewrite(text, tree.body);
  }

  /** ... which is false on `[]` and on `{"foo"}`, and true on
      `["foo", "bar"]` and, by substring containment, on the text
      `"foobarbaz"`. */
  lemma FooAndBarMatches()
    ensures var m := ExpressionMatcher("foo and bar", And([In("foo"), In("bar")]));
      !m.Matches(ListItems([])) && !m.Matches(SetItems({"foo"})) &&
      m.Matches(ListItems(["foo", "bar"])) && m.Matches(TextItems("foobarbaz"))
  {
    var ps := [In("foo"), In("bar")];
    assert !Eval(ps[0], ListItems([]));
    assert !Eval(ps[1], SetItems({"foo"}));
    assert IsSubstring("foo", "foobarbaz");
    assert IsSubstring("bar", "foobarbaz") by {
      assert "bar" <= "foobarbaz"[1..][1..][1..];
    }
  }

  /** `foo or empty()` compiles to `'foo' in items or not items`. */
  lemma FooOrEmptyCompiles(parse: Parser)
    requires parse("foo or empty()") == Ok(FooOrEmptyTree)
    ensures New(Some("foo or empty()"), parse) == Ok(ExpressionMatcher("foo or empty()", Or([In("foo"), Empty])))
  {
    var text, tree := "foo or empty()", FooOrEmptyTree;
    LeavesBecomeMembershipTests(text, Span(0, 3), "foo", NoneConst, 0);
    ZeroArgumentBuiltins(text, Span(7, 14), Span(7, 12), Load);
    RewriteAllPointwise(text, tree.body.values, [In("foo"), Empty]);
    assert Rewrite(text, tree.body) == Ok(Or([In("foo"), Empty]));
    assert Rewrite(text, tree) == Rewrite(text, tree.body);
  }

  /** ... which is true on `{"foo"}` and on `[]`, and false on `["bar"]`. */
  lemma FooOrEmptyMatches()
    ensures var m := ExpressionMatcher("foo or empty()", Or([In("foo"), Empty]));
      m.Matches(SetItems({"foo"})) && m.Matches(ListItems([])) && !m.Matches(ListItems(["bar"]))
  {
    var ps := [In("foo"), Empty];
    assert Eval(ps[0], SetItems({"foo"}));
    assert Eval(ps[1], ListItems([]));
    assert !Eval(ps[0], ListItems(["bar"])) && !Eval(ps[1], ListItems(["bar"]));
  }

  /** `foo + 1` is an unsupported operation at column 4, just after the
      identifier `foo`. */
  lemma FooPlusOne(parse: Parser)
    requires parse("foo + 1") == Ok(FooPlusOneTree)
    ensures New(Some("foo + 1"), parse) == Err(SynErr("invalid syntax, unsupported operation", 1, 4, "foo + 1"))
  {
  }

  /** `foo()` is an unknown function at column 1, the start of the call. */
  lemma FooCall(parse: Parser)
    requires parse("foo()") == Ok(FooCallTree)
    ensures New(Some("foo()"), parse) == Err(SynErr("invalid syntax, unknown function", 1, 1, "foo()"))
  {
  }

  /** The message `empty()` gets when it is given an argument. */
  lemma EmptyArgumentMessage()
    ensures NoArgumentsAccepted("empty") == "invalid syntax, empty() does not accept any argument"
  {
    var a, b, c := "invalid syntax, ", "empty", "() does not accept any argument";
    assert a + b == "invalid syntax, empty";
    assert (a + b) + c == "invalid syntax, empty() does not accept any argument";
  }

  /** `empty(1)` is rejected at column 6, where its argument list starts. */
  lemma EmptyOne(parse: Parser)
    requires parse("empty(1)") == Ok(EmptyOneTree)
    ensures New(Some("empty(1)"), parse) ==
      Err(SynErr("invalid syntax, empty() does not accept any argument", 1, 6, "empty(1)"))
  {
    var call := EmptyOneTree.body;
    ArgumentsRejected("empty(1)", call.pos, call.func.pos, "empty", Load, call.args, []);
    EmptyArgumentMessage();
    assert OrElse(call.func.pos.endColOffset, call.pos.colOffset) == 5;
    assert Rewrite("empty(1)", EmptyOneTree) == Rewrite("empty(1)", call);
  }

  /** Nodes the table has no arm for are reported at `col_offset + 2`:
      `a < b` (a comparison, as the right operand of `and`), `-x` and `f.g()`. */
  lemma CatchAllColumns()
    ensures Rewrite("x and a < b", Expression(BoolOp(Span(0, 11), AndOp, [Ident(0, "x"), Other(Span(6, 11), "Compare")])))
      == Err(SynErr("invalid syntax", 1, 8, "x and a < b"))
    ensures Rewrite("-x", Expression(UnaryOp(Span(0, 2), USub, Ident(1, "x"))))
      == Err(SynErr("invalid syntax", 1, 2, "-x"))
    ensures Rewrite("f.g()", Expression(Call(Span(0, 5), Other(Span(0, 3), "Attribute"), [], [])))
      == Err(SynErr("invalid syntax", 1, 2, "f.g()"))
  {
    var values := [Ident(0, "x"), Other(Span(6, 11), "Compare")];
    LeftmostSiblingErrorWins("x and a < b", values, 1);
  }
}
