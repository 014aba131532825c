/** What the rewrite of `Transformer` promises, each stated against a
    definition of its own: the accepted subset, the shape of the result,
    pre-order error reporting, and the error of every rejecting arm. */
module TransformerFacts {
  import opened Wrappers
  import opened PyAst
  import opened Predicates
  import opened Transformer

  /* ---------------------------------------------------------------- */
  /* Children are rewritten one by one, in order                       */
  /* ---------------------------------------------------------------- */

  /** A list of children rewrites to `ps` exactly when it has as many
      elements as `ps` and each child rewrites to the element at its
      position. */
  lemma {:induction false} RewriteAllPointwise(expression: string, ns: seq<Node>, ps: seq<Pred>)
    ensures RewriteAll(expression, ns) == Ok(ps) <==>
      |ps| == |ns| && forall i :: 0 <= i < |ns| ==> Rewrite(expression, ns[i]) == Ok(ps[i])
  {
    if ns != [] && ps != [] {
      RewriteAllPointwise(expression, ns[1..], ps[1..]);
      if |ps| == |ns| && forall i :: 0 <= i < |ns| ==> Rewrite(expression, ns[i]) == Ok(ps[i]) {
        assert Rewrite(expression, ns[0]) == Ok(ps[0]);
        assert forall i :: 0 <= i < |ns[1..]| ==> Rewrite(expression, ns[1..][i]) == Ok(ps[1..][i]) by {
          forall i | 0 <= i < |ns[1..]| ensures Rewrite(expression, ns[1..][i]) == Ok(ps[1..][i]) {
            assert ns[1..][i] == ns[i + 1] && ps[1..][i] == ps[i + 1];
          }
        }
        assert [ps[0]] + ps[1..] == ps;
      }
      if RewriteAll(expression, ns) == Ok(ps) {
        assert Rewrite(expression, ns[0]) == Ok(ps[0]);
        assert RewriteAll(expression, ns[1..]) == Ok(ps[1..]);
        forall i | 0 <= i < |ns| ensures Rewrite(expression, ns[i]) == Ok(ps[i]) {
          if i > 0 {
            assert ns[1..][i - 1] == ns[i] && ps[1..][i - 1] == ps[i];
          }
        }
      }
    }
  }

  /** A list of children rewrites without error exactly when every child does. */
  lemma {:induction false} RewriteAllSucceeds(expression: string, ns: seq<Node>)
    ensures RewriteAll(expression, ns).Ok? <==> forall i :: 0 <= i < |ns| ==> Rewrite(expression, ns[i]).Ok?
  {
    if ns != [] {
      RewriteAllSucceeds(expression, ns[1..]);
      assert forall i :: 1 <= i < |ns| ==> ns[i] == ns[1..][i - 1];
    }
  }

  /** Among siblings, the leftmost child that fails decides the error. */
  lemma {:induction false} LeftmostSiblingErrorWins(expression: string, ns: seq<Node>, i: nat)
    requires i < |ns|
    requires forall j :: 0 <= j < i ==> Rewrite(expression, ns[j]).Ok?
    requires Rewrite(expression, ns[i]).Err?
    ensures RewriteAll(expression, ns) == Err(Rewrite(expression, ns[i]).error)
  {
    if i > 0 {
      assert forall j :: 0 <= j < i - 1 ==> ns[1..][j] == ns[j + 1];
      LeftmostSiblingErrorWins(expression, ns[1..], i - 1);
    }
  }

  /* ---------------------------------------------------------------- */
  /* The accepted subset                                               */
  /* ---------------------------------------------------------------- */

  /** The restricted grammar, written as a grammar: a loaded identifier, a
      constant, `empty()` or `anything()` with no argument of any kind, or
      `and`, `or`, `not` and the root wrapper over accepted expressions. */
  predicate Accepted(n: Node)
  {
    match n
    case Expression(body) => Accepted(body)
    case BoolOp(_, _, values) => forall i :: 0 <= i < |values| ==> Accepted(values[i])
    case UnaryOp(_, uop, operand) => uop == NotOp && Accepted(operand)
    case Name(_, _, ctx) => ctx == Load
    case Constant(_, _) => true
    case Call(_, func, args, keywords) =>
      func.Name? && (func.id == "empty" || func.id == "anything") && args == [] && keywords == []
    case BinOp(_, _, _, _) => false
    case Other(_, _) => false
  }

  /** The rewrite succeeds exactly on the accepted subset. */
  lemma {:induction false} RewriteSucceedsIffAccepted(expression: string, n: Node)
    ensures Rewrite(expression, n).Ok? <==> Accepted(n)
    decreases Size(n)
  {
    match n
    case Expression(body) => RewriteSucceedsIffAccepted(expression, body);
    case BoolOp(_, _, values) =>
      RewriteAllSucceeds(expression, values);
      forall i | 0 <= i < |values| ensures Rewrite(expression, values[i]).Ok? <==> Accepted(values[i]) {
        SizeOfElement(values, i);
        RewriteSucceedsIffAccepted(expression, values[i]);
      }
    case UnaryOp(_, _, operand) => RewriteSucceedsIffAccepted(expression, operand);
    case _ =>
  }

  /* ---------------------------------------------------------------- */
  /* Shape of the result                                               */
  /* ---------------------------------------------------------------- */

  /** `p` is the predicate tree for `n`: leaves become the matching test,
      the root wrapper disappears, and each `and`, `or` and `not` becomes the
      same operator over exactly as many children, in the same order. */
  predicate Mirrors(n: Node, p: Pred)
  {
    match n
    case Expression(body) => Mirrors(body, p)
    case BoolOp(_, op, values) =>
      (op == AndOp && p.And? && |p.conjuncts| == |values| &&
        forall i :: 0 <= i < |values| ==> Mirrors(values[i], p.conjuncts[i]))
      || (op == OrOp && p.Or? && |p.disjuncts| == |values| &&
        forall i :: 0 <= i < |values| ==> Mirrors(values[i], p.disjuncts[i]))
    case UnaryOp(_, uop, operand) => uop == NotOp && p.Not? && Mirrors(operand, p.operand)
    case Name(_, id, ctx) => ctx == Load && p == In(id)
    case Constant(_, value) => p == In(ConstText(value))
    case Call(_, func, args, keywords) =>
      func.Name? && args == [] && keywords == [] &&
      ((func.id == "empty" && p == Empty) || (func.id == "anything" && p == True))
    case BinOp(_, _, _, _) => false
    case Other(_, _) => false
  }

  /** The rewrite produces exactly the tree that mirrors its input. */
  lemma {:induction false} RewriteMirrors(expression: string, n: Node, p: Pred)
    ensures Rewrite(expression, n) == Ok(p) <==> Mirrors(n, p)
    decreases Size(n)
  {
    match n
    case Expression(body) => RewriteMirrors(expression, body, p);
    case BoolOp(_, op, values) =>
      var ps := if p.And? then p.conjuncts else if p.Or? then p.disjuncts else [];
      RewriteAllPointwise(expression, values, ps);
      if |ps| == |values| {
        forall i | 0 <= i < |values| ensures Rewrite(expression, values[i]) == Ok(ps[i]) <==> Mirrors(values[i], ps[i]) {
          SizeOfElement(values, i);
          RewriteMirrors(expression, values[i], ps[i]);
        }
      }
    case UnaryOp(_, _, operand) =>
      if p.Not? {
        RewriteMirrors(expression, operand, p.operand);
      }
    case _ =>
  }

  /* ---------------------------------------------------------------- */
  /* Pre-order error reporting                                         */
  /* ---------------------------------------------------------------- */

  /** The nodes the rewriter classifies, in the order it classifies them:
      a node, then (only if it is kept) the nodes under each of its
      children, left to right. */
  function Visited(expression: string, n: Node): (vs: seq<Node>)
    ensures vs != [] && vs[0] == n
    decreases Size(n), 0
  {
    [n] + (if Visit(expression, n).Descend? then VisitedAll(expression, Children(n)) else [])
  }

  function VisitedAll(expression: string, ns: seq<Node>): (vs: seq<Node>)
    decreases SizeAll(ns), 1
  {
    if ns == [] then [] else Visited(expression, ns[0]) + VisitedAll(expression, ns[1..])
  }

  /** The error of the first rejected node of a list, if any. */
  function FirstReject(expression: string, vs: seq<Node>): (e: Option<SynErr>)
  {
    if vs == [] then None
    else match Visit(expression, vs[0])
      case Reject(e) => Some(e)
      case _ => FirstReject(expression, vs[1..])
  }

  /** `k` is the position of the first rejected node of `vs`. */
  ghost predicate IsFirstRejected(expression: string, vs: seq<Node>, k: nat)
  {
    k < |vs| && Visit(expression, vs[k]).Reject? &&
    forall j :: 0 <= j < k ==> !Visit(expression, vs[j]).Reject?
  }

  /** `FirstReject` finds the earliest rejected node. */
  lemma {:induction false} FirstRejectFindsEarliest(expression: string, vs: seq<Node>)
    ensures FirstReject(expression, vs).None? <==> forall j :: 0 <= j < |vs| ==> !Visit(expression, vs[j]).Reject?
    ensures FirstReject(expression, vs).Some? ==>
      exists k: nat :: IsFirstRejected(expression, vs, k) && FirstReject(expression, vs) == Some(Visit(expression, vs[k]).error)
  {
    if vs != [] && !Visit(expression, vs[0]).Reject? {
      FirstRejectFindsEarliest(expression, vs[1..]);
      assert forall j :: 1 <= j < |vs| ==> vs[j] == vs[1..][j - 1];
      if FirstReject(expression, vs).Some? {
        var k: nat :| IsFirstRejected(expression, vs[1..], k) && FirstReject(expression, vs[1..]) == Some(Visit(expression, vs[1..][k]).error);
        assert IsFirstRejected(expression, vs, k + 1);
      }
    } else if vs != [] {
      assert IsFirstRejected(expression, vs, 0);
    }
  }

  lemma {:induction false} FirstRejectConcat(expression: string, xs: seq<Node>, ys: seq<Node>)
    ensures FirstReject(expression, xs + ys) ==
      if FirstReject(expression, xs).Some? then FirstReject(expression, xs) else FirstReject(expression, ys)
  {
    if xs != [] {
      assert (xs + ys)[0] == xs[0] && (xs + ys)[1..] == xs[1..] + ys;
      FirstRejectConcat(expression, xs[1..], ys);
    } else {
      assert xs + ys == ys;
    }
  }

  /** The error a result carries, if any. */
  function ErrorOf<T>(r: Result<T, SynErr>): (e: Option<SynErr>)
  {
    if r.Err? then Some(r.error) else None
  }

  /** The rewrite fails exactly when some classified node is rejected, and
      then with the error of the first such node in pre-order: a rejected
      node's error wins over anything below it, and among siblings the
      leftmost error wins. */
  lemma {:induction false} RewriteReportsFirstRejected(expression: string, n: Node)
    ensures ErrorOf(Rewrite(expression, n)) == FirstReject(expression, Visited(expression, n))
    decreases Size(n), 0
  {
    var vs := Visited(expression, n);
    if Visit(expression, n).Descend? {
      assert vs[1..] == VisitedAll(expression, Children(n));
      RewriteAllReportsFirstRejected(expression, Children(n));
      match n
      case Expression(body) =>
        assert VisitedAll(expression, [body]) == Visited(expression, body) + VisitedAll(expression, []);
        RewriteReportsFirstRejected(expression, body);
      case BoolOp(_, _, _) =>
      case UnaryOp(_, _, operand) =>
        assert VisitedAll(expression, [operand]) == Visited(expression, operand) + VisitedAll(expression, []);
        RewriteReportsFirstRejected(expression, operand);
    }
  }

  lemma {:induction false} RewriteAllReportsFirstRejected(expression: string, ns: seq<Node>)
    ensures ErrorOf(RewriteAll(expression, ns)) == FirstReject(expression, VisitedAll(expression, ns))
    decreases SizeAll(ns), 1
  {
    if ns != [] {
      RewriteReportsFirstRejected(expression, ns[0]);
      RewriteAllReportsFirstRejected(expression, ns[1..]);
      FirstRejectConcat(expression, Visited(expression, ns[0]), VisitedAll(expression, ns[1..]));
    }
  }

  /** The same, spelled out: the rewrite fails iff some classified node is
      rejected, and its error is that of the earliest one. */
  lemma PreOrderErrors(expression: string, n: Node)
    ensures Rewrite(expression, n).Err? <==>
      exists k: nat :: IsFirstRejected(expression, Visited(expression, n), k)
    ensures forall k: nat :: IsFirstRejected(expression, Visited(expression, n), k) ==>
      Rewrite(expression, n) == Err(Visit(expression, Visited(expression, n)[k]).error)
  {
    var vs := Visited(expression, n);
    RewriteReportsFirstRejected(expression, n);
    FirstRejectFindsEarliest(expression, vs);
    forall k: nat | IsFirstRejected(expression, vs, k)
      ensures Rewrite(expression, n) == Err(Visit(expression, vs[k]).error)
    {
      var k': nat :| IsFirstRejected(expression, vs, k') && FirstReject(expression, vs) == Some(Visit(expression, vs[k']).error);
      assert k == k';
    }
  }

  /* ---------------------------------------------------------------- */
  /* Arm by arm                                                        */
  /* ---------------------------------------------------------------- */

  /** An identifier `x` becomes the test `x in items`; a constant becomes the
      test for its `str()`, so the number `n` tests for its decimal text, from
      which `n` can be read back. */
  lemma LeavesBecomeMembershipTests(expression: string, pos: Pos, id: string, v: ConstValue, n: nat)
    ensures Rewrite(expression, Name(pos, id, Load)) == Ok(In(id))
    ensures Rewrite(expression, Constant(pos, v)) == Ok(In(ConstText(v)))
    ensures var r := Rewrite(expression, Constant(pos, IntConst(n)));
      r.Ok? && r.value.In? && DecimalValue(r.value.key) == n
  {
    DecimalRoundTrip(n);
  }

  /** `empty()` and `anything()` with no positional and no keyword argument
      become the emptiness test and the constant `True`. */
  lemma ZeroArgumentBuiltins(expression: string, pos: Pos, fpos: Pos, ctx: Ctx)
    ensures Rewrite(expression, Call(pos, Name(fpos, "empty", ctx), [], [])) == Ok(Empty)
    ensures Rewrite(expression, Call(pos, Name(fpos, "anything", ctx), [], [])) == Ok(True)
  {
  }

  /** `empty` or `anything` called with any argument is rejected at the end of
      the function name, plus one for the 1-based column. */
  lemma ArgumentsRejected(expression: string, pos: Pos, fpos: Pos, func: string, ctx: Ctx,
                          args: seq<Node>, keywords: seq<Keyword>)
    requires func == "empty" || func == "anything"
    requires args != [] || keywords != []
    ensures Rewrite(expression, Call(pos, Name(fpos, func, ctx), args, keywords)) ==
      Err(SynErr("invalid syntax, " + func + "() does not accept any argument",
                 OrElse(fpos.endLineno, pos.lineno), OrElse(fpos.endColOffset, pos.colOffset) + 1,
                 expression))
  {
  }

  /** The argument check comes before the unknown-function arm, so a call to
      `empty` or `anything` is never reported as an unknown function. */
  lemma BuiltinsNeverUnknown(expression: string, pos: Pos, fpos: Pos, func: string, ctx: Ctx,
                             args: seq<Node>, keywords: seq<Keyword>)
    requires func == "empty" || func == "anything"
    ensures var r := Rewrite(expression, Call(pos, Name(fpos, func, ctx), args, keywords));
      r.Err? ==> r.error.msg != UnknownFunction
  {
    assert NoArgumentsAccepted(func)[16] != UnknownFunction[16];
  }

  /** A call on any other bare name is an unknown function, reported at the
      start of the call. */
  lemma UnknownFunctionRejected(expression: string, pos: Pos, fpos: Pos, func: string, ctx: Ctx,
                                args: seq<Node>, keywords: seq<Keyword>)
    requires func != "empty" && func != "anything"
    ensures Rewrite(expression, Call(pos, Name(fpos, func, ctx), args, keywords)) ==
      Err(SynErr("invalid syntax, unknown function", pos.lineno, pos.colOffset + 1, expression))
  {
  }

  /** A binary operation on an identifier is reported just after the
      identifier: its end offset, plus one for the 1-based column. */
  lemma UnsupportedOperationRejected(expression: string, pos: Pos, lpos: Pos, id: string, ctx: Ctx,
                                     op: BinOperator, right: Node)
    ensures Rewrite(expression, BinOp(pos, Name(lpos, id, ctx), op, right)) ==
      Err(SynErr("invalid syntax, unsupported operation",
                 OrElse(lpos.endLineno, pos.lineno), OrElse(lpos.endColOffset, pos.colOffset) + 1,
                 expression))
  {
  }

  /** The nodes no arm before the last one takes: every kind without an arm
      of its own, a unary operator other than `not`, a binary operation whose
      left operand is not an identifier, a call on anything but a bare name,
      and an identifier that is not loaded. */
  predicate FallsThrough(n: Node)
  {
    n.Other? || (n.UnaryOp? && n.uop != NotOp) || (n.BinOp? && !n.left.Name?) ||
    (n.Call? && !n.func.Name?) || (n.Name? && n.ctx != Load)
  }

  /** The catch-all takes exactly those nodes, and reports them with plain
      "invalid syntax" at `col_offset + 2`: one added by the arm and one by
      `Transformer.error`. */
  lemma CatchAllRejected(expression: string, n: Node)
    requires !n.Expression?
    ensures Visit(expression, n) == CatchAll(expression, n.pos) <==> FallsThrough(n)
    ensures FallsThrough(n) ==>
      Rewrite(expression, n) == Err(SynErr("invalid syntax", n.pos.lineno, n.pos.colOffset + 2, expression))
  {
    if n.Call? && n.func.Name? && !(n.func.id in {"empty", "anything"} && n.args == [] && n.keywords == []) {
      assert |NoArgumentsAccepted(n.func.id)| > |InvalidSyntax|;
      assert |UnknownFunction| > |InvalidSyntax|;
    }
    if n.BinOp? && n.left.Name? {
      assert |UnsupportedOperation| > |InvalidSyntax|;
    }
  }

  /* ---------------------------------------------------------------- */
  /* De Morgan through the rewrite                                     */
  /* ---------------------------------------------------------------- */

  /** For two accepted operands, `not (a or b)` and `(not a) and (not b)`
      both rewrite, and the results agree on every collection. */
  lemma DeMorganRewrite(expression: string, a: Node, b: Node, pn: Pos, po: Pos, pa: Pos, pb: Pos, pc: Pos)
    requires Rewrite(expression, a).Ok? && Rewrite(expression, b).Ok?
    ensures var lhs := Rewrite(expression, UnaryOp(pn, NotOp, BoolOp(po, OrOp, [a, b])));
      var rhs := Rewrite(expression, BoolOp(pc, AndOp, [UnaryOp(pa, NotOp, a), UnaryOp(pb, NotOp, b)]));
      lhs.Ok? && rhs.Ok? && forall items :: Eval(lhs.value, items) == Eval(rhs.value, items)
  {
    var qa, qb := Rewrite(expression, a).value, Rewrite(expression, b).value;
    RewriteAllPointwise(expression, [a, b], [qa, qb]);
    RewriteAllPointwise(expression, [UnaryOp(pa, NotOp, a), UnaryOp(pb, NotOp, b)], [Not(qa), Not(qb)]);
    assert NegateAll([qa, qb]) == [Not(qa), Not(qb)];
    forall items {
      DeMorgan([qa, qb], items);
    }
  }
}
