# ExpressionMatcher, modelled in Dafny

`ExpressionMatcher` (match.py) compiles a small boolean filter language —
identifiers, string and number literals, `and`, `or`, `not`, and the two
zero-argument pseudo-functions `empty()` and `anything()` — into a predicate
over a collection of items, and rejects everything else with a
`SyntaxError` whose column points at the offending spot.

The model follows the source's structure:

- `PyAst` (py_ast.dfy): the parsed tree the rewriter receives, one
  constructor per node kind the pattern table distinguishes (`Expression`,
  `BoolOp`, `UnaryOp`, `Name`, `Constant`, `Call`, `BinOp`, and `Other` for
  every other kind). Every kind except the root `Expression` carries its
  `lineno`, `col_offset` and optional `end_lineno`/`end_col_offset`; the
  root has no position, as in Python's `ast.Expression`. The module also
  gives Python's `str()` of the kept constants.
- `Predicates` (predicates.dfy): the six-variant predicate tree (`In`, `Not`,
  `And`, `Or`, `Empty`, `True`) and `Eval`, its meaning on the three
  collection kinds: a list or a set (exact membership) or a string (substring
  containment, as Python's `in` does on text).
- `Transformer` (transformer.dfy): `Transformer.error` and
  `generic_visit` — `Visit` is the first-match pattern table, arm by arm,
  and `Rewrite`/`RewriteAll` the traversal: classify a node first, and only
  for a kept node (`Expression`, `and`/`or`, `not`) rewrite its children left
  to right, stopping at the first error.
- `TransformerFacts` (transformer_facts.dfy): the properties of the rewrite,
  each against a definition of its own: `Accepted` (the restricted grammar),
  `Mirrors` (the shape of the result), `Visited`/`FirstReject` (pre-order
  error reporting), and one lemma per rejecting arm.
- `Matcher` (matcher.dfy): `__init__` (normalisation of `None`/`""` to
  `anything()`, parse, rewrite), `__call__`, `__repr__`.
- `Doctests` (doctests.dfy): the documented examples, on the trees Python's
  parser gives for them.

The rewritten tree is a `Pred` rather than a Python tree that is then
compiled and run by `eval`: `In(k)` stands for `'k' in items`, `Empty` for
`not items`, `True` for the constant `True`. As every leaf of that tree is a
`bool`, Python's `and`/`or` return booleans there and mean "all"/"any", which
is what `Eval` states. Because `Pred` has just these six constructors, a
successful rewrite can contain nothing else, and the root `Expression`
wrapper disappears into its body.

Python's parser (`ast.parse`) is passed to `Matcher.New` as a function
parameter of type `Parser`; the doctest lemmas require of it only the tree
for the one text they mention.

## Model

| member | source | states |
|---|---|---|
| `TransformerFacts.RewriteSucceedsIffAccepted` | match.py:22-76 | the rewrite succeeds exactly on the restricted grammar: loaded identifiers, constants, `empty()`/`anything()` with no positional and no keyword argument, and `and`/`or`/`not`/root over accepted expressions |
| `TransformerFacts.RewriteMirrors` | match.py:26-53 | the rewrite yields `p` iff `p` mirrors the input: identifier `x` to `In(x)`, constant `v` to `In(str(v))`, `empty()` to `Empty`, `anything()` to `True`, and each `and`/`or`/`not` kept with the same number and order of children |
| `TransformerFacts.RewriteAllPointwise` | match.py:76 | a list of children rewrites to `ps` iff it has as many elements and each child rewrites to the element at its position |
| `TransformerFacts.RewriteAllSucceeds` | match.py:76 | a list of children rewrites iff every child does |
| `TransformerFacts.LeftmostSiblingErrorWins` | match.py:76 | among siblings the leftmost failing child's error is the one raised |
| `TransformerFacts.RewriteReportsFirstRejected` | match.py:25-76 | the rewrite's error (or its absence) is that of the first rejected node in the pre-order list of nodes the rewriter classifies, which does not enter rejected nodes |
| `TransformerFacts.RewriteAllReportsFirstRejected` | match.py:76 | the same for a list of children |
| `TransformerFacts.FirstRejectFindsEarliest` | match.py:25 | `FirstReject` is empty iff no node of the list is rejected, and otherwise is the error of the earliest rejected node |
| `TransformerFacts.FirstRejectConcat` | match.py:76 | the first rejection of two concatenated lists is the first list's if it has one, else the second's |
| `TransformerFacts.PreOrderErrors` | match.py:25-76 | the rewrite fails iff some classified node is rejected, and then with the error of the earliest such node |
| `TransformerFacts.LeavesBecomeMembershipTests` | match.py:26-37 | identifier `x` becomes `In(x)`; constant `v` becomes `In(str(v))`; an integer's key is its decimal text, from which the value reads back |
| `TransformerFacts.ZeroArgumentBuiltins` | match.py:38-44 | `empty()` becomes `Empty` and `anything()` becomes `True` when there are no arguments and no keywords |
| `TransformerFacts.ArgumentsRejected` | match.py:54-60 | `empty`/`anything` with any argument or keyword fail with "invalid syntax, <name>() does not accept any argument" at the name's end offset plus one (falling back to the call's own position as Python's `or` does) |
| `TransformerFacts.BuiltinsNeverUnknown` | match.py:38-66 | a call to `empty` or `anything` is never reported as an unknown function |
| `TransformerFacts.UnknownFunctionRejected` | match.py:61-66 | a call on any other bare name fails with "invalid syntax, unknown function" at `col_offset + 1` |
| `TransformerFacts.UnsupportedOperationRejected` | match.py:67-73 | a binary operation whose left operand is an identifier fails with "invalid syntax, unsupported operation" at the identifier's end offset plus one |
| `TransformerFacts.CatchAllRejected` | match.py:74-75 | the catch-all takes exactly the nodes with no earlier arm (other kinds, unary minus/plus/invert, binary operations on a non-identifier, calls on a non-name, non-loaded names) and reports "invalid syntax" at `col_offset + 2` |
| `TransformerFacts.DeMorganRewrite` | match.py:45-53 | for accepted `a`, `b`, `not (a or b)` and `(not a) and (not b)` both compile and agree on every collection |
| `Transformer.Error` | match.py:16-20 | the raised error keeps message, line and text, and turns the 0-based offset into a 1-based column (offset plus one, never 0) |
| `Transformer.CatchAll` | match.py:74-75 | the catch-all rejects at `col_offset + 2` (see `TransformerFacts.CatchAllRejected`) |
| `Transformer.Visit` | match.py:25-75 | the pattern table keeps exactly the root, `and`/`or` and `not`; replaces exactly loaded names, constants and argument-free `empty()`/`anything()`; rejects everything else with an error carrying the expression and a 1-based column (leaf results in `TransformerFacts.RewriteMirrors`, errors in the per-arm lemmas) |
| `Transformer.Rewrite` | match.py:22-76 | every error carries the expression and a 1-based column; what it accepts, produces and reports is stated by `TransformerFacts.RewriteSucceedsIffAccepted`, `RewriteMirrors` and `PreOrderErrors` |
| `Transformer.RewriteAll` | match.py:76 | a successful rewrite of a child list has one result per child; errors carry the expression and a 1-based column (pointwise form in `TransformerFacts.RewriteAllPointwise`) |
| `PyAst.ConstText` | match.py:32-37 | `str()` of an integer constant is its decimal text, which reads back to the value and has no leading zero |
| `Predicates.IsSubstring` | match.py:134-135 | the empty key is in every text, and a contained key is no longer than the text (exact meaning in `Predicates.IsSubstringCorrect`) |
| `Predicates.Contains` | match.py:116-118 | `key in items`: on text, some slice equals the key; on a list, some element equals it; on a set, set membership |
| `Predicates.Eval` | match.py:116-118 | the value of the compiled tree, total on every collection; its meaning is stated by `Predicates.EvalLeaves`, `DeMorgan` and `EvalDependsOnlyOnMembership` |
| `Matcher.ExpressionMatcher.Matches` | match.py:124-144 | `__call__` is `Eval` of the kept tree; its documented results are `Doctests.FooAndBarMatches` and `FooOrEmptyMatches` |
| `Matcher.ExpressionMatcher.Repr` | match.py:156 | the repr is `ExpressionMatcher('` + the normalised text + `')`, the text embedded verbatim |
| `Wrappers.OrElse` | match.py:58-59 | Python's `x or d` on an optional offset: the fallback is taken when the offset is missing or 0 |
| `PyAst.DecimalText` | match.py:34 | `str()` of a non-negative integer is a non-empty string of digits with no leading zero |
| `PyAst.DecimalRoundTrip` | match.py:34 | reading the decimal text back gives the number |
| `PyAst.DecimalTextInjective` | match.py:34 | different numbers test for different keys |
| `Predicates.IsSubstringCorrect` | match.py:134-135 | the substring scan behind `key in text` holds iff `key` occurs at some position of `text` |
| `Predicates.EvalLeaves` | match.py:116-118 | `In(k)` is exact membership on a list or set and substring containment on text; `Empty` holds iff the length is 0; `True` always holds |
| `Predicates.DeMorgan` | match.py:116-118 | `not (or ...)` agrees with `and` of the negations, and dually |
| `Predicates.EvalDependsOnlyOnMembership` | match.py:116-118 | two collections agreeing on membership and emptiness agree on every predicate |
| `Matcher.Normalize` | match.py:109-110 | the normalised text is never empty; it is `anything()` iff the input was `None`, `""` or `anything()`, and the input itself otherwise |
| `Matcher.NormalizeIdempotent` | match.py:109-110 | normalising twice changes nothing |
| `Matcher.New` | match.py:109-122 | construction succeeds iff the parse succeeds and its tree is accepted; the matcher keeps the normalised text and the mirroring tree; a parse error is passed through unchanged; a rewrite error is the error of the first rejected node in pre-order (message, line, column) and carries the normalised text |
| `Matcher.NoExpressionMatchesEverything` | match.py:151-156 | `None` and `""` compile like `anything()`, to `True`; every collection matches; repr is `ExpressionMatcher('anything()')` |
| `Matcher.RecompileSource` | match.py:120-122 | compiling the text a matcher keeps gives the same matcher again |
| `Matcher.ReprDeterminesSource` | match.py:146-156 | two matchers with the same repr have the same expression text |
| `Doctests.FooAndBarCompiles` | match.py:81-82 | `foo and bar` compiles to `And([In("foo"), In("bar")])` and its repr is `ExpressionMatcher('foo and bar')` |
| `Doctests.FooAndBarMatches` | match.py:127-135 | that predicate is false on `[]` and `{"foo"}`, true on `["foo","bar"]` and `"foobarbaz"` |
| `Doctests.FooOrEmptyCompiles` | match.py:83-84 | `foo or empty()` compiles to `Or([In("foo"), Empty])` |
| `Doctests.FooOrEmptyMatches` | match.py:136-142 | that predicate is true on `{"foo"}` and `[]`, false on `["bar"]` |
| `Doctests.FooPlusOne` | match.py:87-93 | `foo + 1` fails with "invalid syntax, unsupported operation" at line 1, column 4 |
| `Doctests.FooCall` | match.py:94-100 | `foo()` fails with "invalid syntax, unknown function" at line 1, column 1 |
| `Doctests.EmptyArgumentMessage` | match.py:57 | the argument message for `empty` is "invalid syntax, empty() does not accept any argument" |
| `Doctests.EmptyOne` | match.py:101-107 | `empty(1)` fails with "invalid syntax, empty() does not accept any argument" at line 1, column 6 |
| `Doctests.CatchAllColumns` | match.py:74-75 | a comparison at offset 6 is reported at column 8; `-x` and `f.g()` at column 2 |

## Left out

- `ast.parse` (match.py:111) is not part of this model: the full Python grammar belongs to a foreign library. `Matcher.New` takes it as a parameter, and the doctest lemmas require only the tree it returns for their text; its own `SyntaxError`s are passed through unchanged.
- `ast.fix_missing_locations`, `compile` and `eval` (match.py:113-118) are Python code-object machinery; their effect is stated directly as `Predicates.Eval` on the predicate tree.
- The command-line block (match.py:159-163) only reads `sys.argv`, prints and exits.
- `SyntaxError` caret rendering and tracebacks: only message, line, column and text are modelled.
- Constants other than strings, non-negative integers, `True`, `False`, `None` and `...`: floats, complex numbers and bytes depend on Python's `repr` rules. Negative numbers never reach the constant arm: they are a unary minus, which the catch-all rejects.
- Python's `in` and truthiness on arbitrary objects: only lists, sets and strings of strings are modelled.
- Transformer.Rewrite: does not model Python's recursion limit. `NodeTransformer` recurses through about three Python frames per nesting level (match.py:76), so a deeply nested input such as 400 stacked `not`s can raise `RecursionError`, where `Rewrite` returns a result.
- PyAst.DecimalText: does not model the limit on integer-to-decimal conversion of recent Python versions (4300 digits by default), at which `str(value)` (match.py:34) raises `ValueError` on a huge literal, where `DecimalText` returns the digits.
- Offsets are taken as given numbers; Python counts `col_offset` in UTF-8 bytes, which the model does not re-derive.
- The operator child nodes `And()`, `Or()` and `Not()` that `NodeTransformer` also visits: their arm can only keep them, so they are not nodes of the model.
- A `BoolOp` with fewer than two values, which Python's parser never produces (and `compile` would refuse), is accepted by the model, where an empty `and` holds and an empty `or` does not.
