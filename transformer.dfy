/** `ExpressionMatcher.Transformer`: the rewrite of a parsed expression tree
    into a predicate tree, with the column-accurate syntax errors it raises
    for everything outside the accepted subset. */
module Transformer {
  import opened Wrappers
  import opened PyAst
  import opened Predicates

  /** The `SyntaxError` the rewriter raises: message, 1-based line, 1-based
      column and the (normalised) expression text. */
  datatype SynErr = SynErr(msg: string, lineno: nat, offset: nat, text: string)

  /** `Transformer.error`: turns a 0-based column into the 1-based one a
      `SyntaxError` carries. */
  function Error(expression: string, msg: string, lineno: nat, colOffset: nat): (e: SynErr)
    ensures e.offset >= 1 && e.offset - 1 == colOffset
    ensures e.msg == msg && e.lineno == lineno && e.text == expression
  {
    SynErr(msg, lineno, colOffset + 1, expression)
  }

  const InvalidSyntax := "invalid syntax"
  const UnknownFunction := "invalid syntax, unknown function"
  const UnsupportedOperation := "invalid syntax, unsupported operation"

  function NoArgumentsAccepted(func: string): (msg: string)
  {
    "invalid syntax, " + func + "() does not accept any argument"
  }

  /** What the pattern table decides for one node, before any child is
      looked at: replace it by a predicate leaf, keep it and descend into its
      children, or reject it. */
  datatype Step = Replace(pred: Pred) | Descend | Reject(error: SynErr)

  /** The catch-all arm: the source adds one to the column and `error` adds
      another, so the reported column is `col_offset + 2`. */
  function CatchAll(expression: string, pos: Pos): (step: Step)
    ensures step.Reject? && step.error.offset == pos.colOffset + 2
  {
    Reject(Error(expression, InvalidSyntax, pos.lineno, pos.colOffset + 1))
  }

  /** The first-match pattern table of `generic_visit`, arm by arm. */
  function Visit(expression: string, n: Node): (step: Step)
    ensures step.Descend? <==> n.Expression? || n.BoolOp? || (n.UnaryOp? && n.uop == NotOp)
    ensures step.Replace? <==>
      (n.Name? && n.ctx == Load) || n.Constant? ||
      (n.Call? && n.func.Name? && n.func.id in {"empty", "anything"} && n.args == [] && n.keywords == [])
    ensures step.Reject? ==> step.error.text == expression && step.error.offset >= 1
  {
    match n
    case Name(pos, id, ctx) =>
      if ctx == Load then Replace(In(id)) else CatchAll(expression, pos)
    case Constant(_, value) =>
      Replace(In(ConstText(value)))
    case Call(pos, func, args, keywords) =>
      if func.Name? && func.id == "empty" && args == [] && keywords == [] then
        Replace(Empty)
      else if func.Name? && func.id == "anything" && args == [] && keywords == [] then
        Replace(True)
      else if func.Name? && (func.id == "empty" || func.id == "anything") then
        // points at the argument list, just after the function name
        Reject(Error(expression, NoArgumentsAccepted(func.id),
                     OrElse(func.pos.endLineno, pos.lineno),
                     OrElse(func.pos.endColOffset, pos.colOffset)))
      else if func.Name? then
        Reject(Error(expression, UnknownFunction, pos.lineno, pos.colOffset))
      else
        CatchAll(expression, pos)
    case Expression(_) =>
      Descend
    case BoolOp(_, _, _) =>
      Descend
    case UnaryOp(pos, uop, _) =>
      if uop == NotOp then Descend else CatchAll(expression, pos)
    case BinOp(pos, left, _, _) =>
      if left.Name? then
        // points at the operator, just after the left operand
        Reject(Error(expression, UnsupportedOperation,
                     OrElse(left.pos.endLineno, pos.lineno),
                     OrElse(left.pos.endColOffset, pos.colOffset)))
      else
        CatchAll(expression, pos)
    case Other(pos, _) =>
      CatchAll(expression, pos)
  }

  /** `generic_visit` on a whole tree: each node is classified first, and
      only a kept node has its children rewritten, left to right; the first
      error raised ends the rewrite. */
  function Rewrite(expression: string, n: Node): (r: Result<Pred, SynErr>)
    ensures r.Err? ==> r.error.text == expression && r.error.offset >= 1
    decreases Size(n), 0
  {
    match Visit(expression, n)
    case Replace(p) => Ok(p)
    case Reject(e) => Err(e)
    case Descend =>
      match n
      case Expression(body) => Rewrite(expression, body)
      case BoolOp(_, op, values) =>
        (match RewriteAll(expression, values)
         case Ok(ps) => Ok(if op == AndOp then And(ps) else Or(ps))
         case Err(e) => Err(e))
      case UnaryOp(_, _, operand) =>
        (match Rewrite(expression, operand)
         case Ok(q) => Ok(Not(q))
         case Err(e) => Err(e))
      case _ => assert false; Ok(True)
  }

  /** The children of a list field, visited in order. */
  function RewriteAll(expression: string, ns: seq<Node>): (r: Result<seq<Pred>, SynErr>)
    ensures r.Ok? ==> |r.value| == |ns|
    ensures r.Err? ==> r.error.text == expression && r.error.offset >= 1
    decreases SizeAll(ns), 1
  {
    if ns == [] then Ok([])
    else
      match Rewrite(expression, ns[0])
      case Err(e) => Err(e)
      case Ok(p) =>
        match RewriteAll(expression, ns[1..])
        case Err(e) => Err(e)
        case Ok(ps) => Ok([p] + ps)
  }
}
