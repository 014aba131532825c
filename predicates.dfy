/** The rewritten predicate tree and its evaluation against a collection of
    items. In the source the rewritten tree is compiled and run by `eval`
    with the name `items` bound; here its meaning is stated directly. */
module Predicates {

  /** The six node kinds a successful rewrite can produce:
      `In(key)` is the Python test `key in items`, `Empty` is `not items`,
      `True` is the constant `True`; `Not`, `And` and `Or` are the kept
      `not`, `and` and `or`. */
  datatype Pred =
    | In(key: string)
    | Not(operand: Pred)
    | And(conjuncts: seq<Pred>)
    | Or(disjuncts: seq<Pred>)
    | Empty
    | True

  /** The collections the predicate can be applied to, each with its own
      Python `in`: exact element membership for a list or a set, substring
      containment for a string. */
  datatype Items =
    | ListItems(elems: seq<string>)
    | SetItems(members: set<string>)
    | TextItems(text: string)

  /** Python's `len(items)`; `not items` holds exactly when it is 0. */
  function Len(items: Items): (n: nat)
  {
    match items
    case ListItems(s) => |s|
    case SetItems(s) => |s|
    case TextItems(t) => |t|
  }

  /** Python's `key in text` on two strings, scanning start positions left
      to right. */
  function IsSubstring(key: string, text: string): (b: bool)
    ensures key == [] ==> b
    ensures b ==> |key| <= |text|
    decreases |text|
  {
    key <= text || (text != [] && IsSubstring(key, text[1..]))
  }

  /** Substring containment as a plain existential: some slice of `text`
      equals `key`. */
  ghost predicate OccursAt(key: string, text: string, i: nat)
  {
    i + |key| <= |text| && text[i..i + |key|] == key
  }

  /** The scan finds `key` exactly when it occurs at some position. */
  lemma {:induction false} IsSubstringCorrect(key: string, text: string)
    ensures IsSubstring(key, text) <==> exists i: nat :: OccursAt(key, text, i)
    decreases |text|
  {
    if key <= text {
      assert OccursAt(key, text, 0);
    } else if text != [] {
      IsSubstringCorrect(key, text[1..]);
      if exists i: nat :: OccursAt(key, text[1..], i) {
        var i: nat :| OccursAt(key, text[1..], i);
        assert text[i + 1..i + 1 + |key|] == text[1..][i..i + |key|];
        assert OccursAt(key, text, i + 1);
      }
      if exists i: nat :: OccursAt(key, text, i) {
        var i: nat :| OccursAt(key, text, i);
        assert i != 0;
        assert text[1..][i - 1..i - 1 + |key|] == text[i..i + |key|];
        assert OccursAt(key, text[1..], i - 1);
      }
    }
  }

  /** Python's `key in items` for the three collection kinds. */
  function Contains(items: Items, key: string): (b: bool)
    ensures items.TextItems? ==> (b <==> exists i: nat :: OccursAt(key, items.text, i))
    ensures items.ListItems? ==> (b <==> exists i :: 0 <= i < |items.elems| && items.elems[i] == key)
  {
    match items
    case ListItems(s) => key in s
    case SetItems(s) => key in s
    case TextItems(t) => IsSubstringCorrect(key, t); IsSubstring(key, t)
  }

  /** The value of the compiled expression with `items` bound. It is total:
      evaluation never fails. */
  function Eval(p: Pred, items: Items): (b: bool)
  {
    match p
    case In(key) => Contains(items, key)
    case Not(q) => !Eval(q, items)
    case And(ps) => forall i :: 0 <= i < |ps| ==> Eval(ps[i], items)
    case Or(ps) => exists i :: 0 <= i < |ps| && Eval(ps[i], items)
    case Empty => Len(items) == 0
    case True => true
  }

  /** The leaves: membership is exact on lists and sets and substring
      containment on text; `Empty` tests for length 0; `True` always holds. */
  lemma EvalLeaves(key: string, items: Items)
    ensures Eval(In(key), items) <==>
      match items
      case ListItems(s) => exists i :: 0 <= i < |s| && s[i] == key
      case SetItems(s) => key in s
      case TextItems(t) => exists i: nat :: OccursAt(key, t, i)
    ensures Eval(Empty, items) <==> Len(items) == 0
    ensures Eval(True, items)
  {
    if items.TextItems? {
      IsSubstringCorrect(key, items.text);
    }
  }

  /** Negating every operand of an `or` gives the negation of the `or`. */
  function NegateAll(ps: seq<Pred>): (qs: seq<Pred>)
    ensures |qs| == |ps|
    ensures forall i :: 0 <= i < |ps| ==> qs[i] == Not(ps[i])
  {
    if ps == [] then [] else [Not(ps[0])] + NegateAll(ps[1..])
  }

  /** De Morgan: `not (a or b or ...)` agrees with `(not a) and (not b) and
      ...` on every collection, and dually for `and`. */
  lemma DeMorgan(ps: seq<Pred>, items: Items)
    ensures Eval(Not(Or(ps)), items) == Eval(And(NegateAll(ps)), items)
    ensures Eval(Not(And(ps)), items) == Eval(Or(NegateAll(ps)), items)
  {
    var qs := NegateAll(ps);
    assert forall i :: 0 <= i < |ps| ==> Eval(qs[i], items) == !Eval(ps[i], items);
  }

  /** Evaluation depends on the collection only through membership and
      length: two collections that agree on those agree on every predicate. */
  lemma {:induction false} EvalDependsOnlyOnMembership(p: Pred, a: Items, b: Items)
    requires Len(a) == 0 <==> Len(b) == 0
    requires forall k :: Contains(a, k) == Contains(b, k)
    ensures Eval(p, a) == Eval(p, b)
  {
    match p
    case In(_) =>
    case Not(q) => EvalDependsOnlyOnMembership(q, a, b);
    case And(ps) =>
      forall i | 0 <= i < |ps| ensures Eval(ps[i], a) == Eval(ps[i], b) {
        EvalDependsOnlyOnMembership(ps[i], a, b);
      }
    case Or(ps) =>
      forall i | 0 <= i < |ps| ensures Eval(ps[i], a) == Eval(ps[i], b) {
        EvalDependsOnlyOnMembership(ps[i], a, b);
      }
    case Empty =>
    case True =>
  }
}
