/** The part of Python's `ast` module that the rewriter distinguishes, for a
    tree parsed in `eval` mode, together with Python's `str()` of the constant
    values the model keeps. */
module PyAst {
  import opened Wrappers

  /** Source position of a node: `lineno` and `end_lineno` are 1-based,
      `col_offset` and `end_col_offset` are 0-based. The end attributes are
      optional in Python's `ast`, so they are optional here. */
  datatype Pos = Pos(lineno: nat, colOffset: nat, endLineno: Option<nat>, endColOffset: Option<nat>)

  /** Expression context of a `Name`. */
  datatype Ctx = Load | Store | Del

  datatype BoolOperator = AndOp | OrOp

  datatype UnaryOperator = NotOp | Invert | UAdd | USub

  datatype BinOperator =
    | Add | Sub | Mult | MatMult | Div | Mod | Pow
    | LShift | RShift | BitOr | BitXor | BitAnd | FloorDiv

  /** The constant values kept by the model. */
  datatype ConstValue =
    | StrConst(s: string)
    | IntConst(n: nat)
    | BoolConst(b: bool)
    | NoneConst
    | EllipsisConst

  /** A keyword argument `arg=value` (`arg` is absent for `**value`). */
  datatype Keyword = Keyword(arg: Option<string>, value: Node)

  /** A node of the parsed tree. `Other` stands for every node kind the
      rewriter has no case of its own for (comparisons, attributes,
      subscripts, lambdas, conditional expressions, ...); `kind` is its
      class name and plays no part in the rewrite. */
  datatype Node =
    | Expression(body: Node)
    | BoolOp(pos: Pos, op: BoolOperator, values: seq<Node>)
    | UnaryOp(pos: Pos, uop: UnaryOperator, operand: Node)
    | Name(pos: Pos, id: string, ctx: Ctx)
    | Constant(pos: Pos, value: ConstValue)
    | Call(pos: Pos, func: Node, args: seq<Node>, keywords: seq<Keyword>)
    | BinOp(pos: Pos, left: Node, bop: BinOperator, right: Node)
    | Other(pos: Pos, kind: string)

  /** A measure for recursion through a node and the list of its children. */
  function Size(n: Node): (r: nat)
    ensures r >= 1
  {
    match n
    case Expression(body) => 1 + Size(body)
    case BoolOp(_, _, values) => 1 + SizeAll(values)
    case UnaryOp(_, _, operand) => 1 + Size(operand)
    case _ => 1
  }

  function SizeAll(ns: seq<Node>): (r: nat)
    ensures ns != [] ==> r >= Size(ns[0]) && r > SizeAll(ns[1..])
  {
    if ns == [] then 0 else Size(ns[0]) + SizeAll(ns[1..])
  }

  /** Every element of a child list is no bigger than the whole list. */
  lemma {:induction false} SizeOfElement(ns: seq<Node>, i: nat)
    requires i < |ns|
    ensures Size(ns[i]) <= SizeAll(ns)
  {
    if i > 0 {
      SizeOfElement(ns[1..], i - 1);
    }
  }

  /** The expression children of the three node kinds that have any the
      rewriter can reach, in field order: `Expression.body`, `BoolOp.values`,
      `UnaryOp.operand`. (Their operator fields `And()`, `Or()`, `Not()` are
      nodes too in Python, but visiting them can neither fail nor change
      anything.) */
  function Children(n: Node): (cs: seq<Node>)
    ensures SizeAll(cs) < Size(n)
  {
    match n
    case Expression(body) =>
      assert SizeAll([body]) == Size(body) + SizeAll([body][1..]);
      [body]
    case BoolOp(_, _, values) => values
    case UnaryOp(_, _, operand) =>
      assert SizeAll([operand]) == Size(operand) + SizeAll([operand][1..]);
      [operand]
    case _ => []
  }

  /** Decimal digit characters. */
  function DigitChar(d: nat): (c: char)
    requires d < 10
    ensures '0' <= c <= '9' && c as int - '0' as int == d
  {
    "0123456789"[d]
  }

  /** Python's `str()` of a non-negative `int`: its decimal digits, most
      significant first, with no leading zero. */
  function DecimalText(n: nat): (s: string)
    ensures |s| >= 1
    ensures forall i :: 0 <= i < |s| ==> '0' <= s[i] <= '9'
    ensures s[0] == '0' ==> n == 0 && s == "0"
  {
    if n < 10 then [DigitChar(n)] else DecimalText(n / 10) + [DigitChar(n % 10)]
  }

  /** The value of a string of decimal digits (the inverse of `DecimalText`). */
  function DecimalValue(s: string): (v: nat)
  {
    if s == [] then 0
    else
      var d := s[|s| - 1] as int - '0' as int;
      DecimalValue(s[..|s| - 1]) * 10 + (if 0 <= d < 10 then d else 0)
  }

  /** `DecimalText` loses nothing: reading the digits back gives the number. */
  lemma {:induction false} DecimalRoundTrip(n: nat)
    ensures DecimalValue(DecimalText(n)) == n
  {
    var s := DecimalText(n);
    if n >= 10 {
      DecimalRoundTrip(n / 10);
      assert s[..|s| - 1] == DecimalText(n / 10);
    }
  }

  /** Two different numbers never have the same `str()`. */
  lemma DecimalTextInjective(a: nat, b: nat)
    requires DecimalText(a) == DecimalText(b)
    ensures a == b
  {
    DecimalRoundTrip(a);
    DecimalRoundTrip(b);
  }

  /** Python's `str(value)` for the constants the model keeps. */
  function ConstText(v: ConstValue): (s: string)
    ensures v.IntConst? ==> s != [] && DecimalValue(s) == v.n && (s[0] == '0' ==> s == "0")
  {
    match v
    case StrConst(s) => s
    case IntConst(n) => DecimalRoundTrip(n); DecimalText(n)
    case BoolConst(b) => if b then "True" else "False"
    case NoneConst => "None"
    case EllipsisConst => "Ellipsis"
  }
}
