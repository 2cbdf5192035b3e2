// The expression trees the parser builds.

module Syntax {
  import opened Values

  datatype UnaryOp = Minus | Bang | Plus

  /** `&&` and `and`, `||` and `or`, `!` and `not` are spellings of one operator each. */
  datatype InfixOp = Or | And | Coalesce | MatchesOp | InOp | Arith(op: BinOp)

  datatype Entry = Entry(key: string, value: Expr)

  /** Literal nodes (number, string, bool, nil, regex) are Const. `optional` marks the `?.` forms.
      Conditional is `c ? t : f` and `if c t else f`; only an `if` may lack its else. */
  datatype Expr =
    | Const(c: Values.Const)
    | Var(name: string)
    | Unary(uop: UnaryOp, operand: Expr)
    | Infix(bop: InfixOp, left: Expr, right: Expr)
    | Member(target: Expr, member: string, optional: bool)
    | IndexE(target: Expr, index: Expr, optional: bool)
    | SliceE(target: Expr, low: Option<Expr>, high: Option<Expr>)
    | ListE(elements: seq<Expr>)
    | MapE(entries: seq<Entry>)
    | Lambda(params: seq<string>, body: Expr)
    | Let(name: string, value: Expr, body: Expr)
    | Conditional(cond: Expr, whenTrue: Expr, orElse: Option<Expr>)
    | Call(callee: Expr, args: seq<Expr>)

  // ----- A size that every sub-expression and operand list decreases -----

  function Size(e: Expr): nat
    ensures Size(e) > 0
  {
    match e
    case Const(_) | Var(_) => 1
    case Unary(_, a) => 1 + Size(a)
    case Infix(_, l, r) => 2 + Size(l) + Size(r)
    case Member(t, _, _) => 1 + Size(t)
    case IndexE(t, i, _) => 1 + Size(t) + Size(i)
    case SliceE(t, lo, hi) => 1 + Size(t) + OptSize(lo) + OptSize(hi)
    case ListE(es) => 1 + SizeAll(es)
    case MapE(entries) => 1 + SizeEntries(entries)
    case Lambda(_, b) => 1 + Size(b)
    case Let(_, v, b) => 1 + Size(v) + Size(b)
    case Conditional(c, t, f) => 1 + Size(c) + Size(t) + OptSize(f)
    case Call(f, args) => 1 + Size(f) + SizeAll(args)
  }

  function OptSize(o: Option<Expr>): nat { if o.None? then 1 else Size(o.value) }

  function SizeAll(es: seq<Expr>): nat {
    if es == [] then 0 else Size(es[0]) + SizeAll(es[1..])
  }

  function SizeEntries(es: seq<Entry>): nat {
    if es == [] then 0 else 1 + Size(es[0].value) + SizeEntries(es[1..])
  }

  // ----- The eight ways a node is evaluated and compiled -----

  /** Strict: evaluate the operands left to right, then run one opcode. Branch: a condition that
      must be a bool, then one of two arms; besides the two conditional nodes this covers
      `l || r` (the arms are true and r) and `l && r` (the arms are r and false). */
  datatype Form =
    | Constant(c: Values.Const)
    | Name(x: string)
    | Closure(params: seq<string>, body: Expr)
    | Binding(x: string, value: Expr, body: Expr)
    | Branch(cond: Expr, yes: Expr, no: Expr)
    | Fallback(left: Expr, right: Expr)
    | Invoke(operands: Operands)
    | Strict(op: Operator, operands: Operands)

  datatype Operands =
    | One(a: Expr)
    | Two(a: Expr, b: Expr)
    | Three(a: Expr, b: Expr, c: Expr)
    | Many(es: seq<Expr>)
    | Pairs(entries: seq<Entry>)
    | Callee(f: Expr, args: seq<Expr>)

  /** An absent slice bound or else arm is nil; a string literal right of `matches` is a regex
      literal; unary plus has no effect of its own. */
  function FormOf(e: Expr): Form {
    match e
    case Const(c) => Constant(c)
    case Var(x) => Name(x)
    case Unary(o, a) => if o.Plus? then FormOf(a) else Strict(if o.Minus? then Neg else Not, One(a))
    case Infix(o, l, r) =>
      (match o
       case Or => Branch(l, Const(CBool(true)), r)
       case And => Branch(l, r, Const(CBool(false)))
       case Coalesce => Fallback(l, r)
       case MatchesOp => Strict(Matches, Two(l, PatternOf(r)))
       case InOp => Strict(In, Two(l, r))
       case Arith(op) => Strict(Bin(op), Two(l, r)))
    case Member(t, n, opt) => Strict(if opt then OptAccess(n) else Access(n), One(t))
    case IndexE(t, i, opt) => Strict(if opt then OptIndex else Index, Two(t, i))
    case SliceE(t, lo, hi) => Strict(Slice, Three(t, OrNil(lo), OrNil(hi)))
    case ListE(es) => Strict(MakeList(|es|), Many(es))
    case MapE(es) => Strict(MakeMap(|es|), Pairs(es))
    case Lambda(ps, b) => Closure(ps, b)
    case Let(x, v, b) => Binding(x, v, b)
    case Conditional(c, t, f) => Branch(c, t, OrNil(f))
    case Call(f, args) => Invoke(Callee(f, args))
  }

  /** The operand expressions in evaluation order. */
  function ListOf(o: Operands): seq<Expr> {
    match o
    case One(a) => [a]
    case Two(a, b) => [a, b]
    case Three(a, b, c) => [a, b, c]
    case Many(es) => es
    case Pairs(es) => Interleave(es)
    case Callee(f, args) => [f] + args
  }

  function OpCount(o: Operands): nat {
    match o
    case One(_) => 1
    case Two(_, _) => 2
    case Three(_, _, _) => 3
    case Many(es) => |es|
    case Pairs(es) => 2 * |es|
    case Callee(_, args) => 1 + |args|
  }

  function OpSize(o: Operands): nat {
    match o
    case One(a) => Size(a)
    case Two(a, b) => Size(a) + Size(b)
    case Three(a, b, c) => Size(a) + Size(b) + Size(c)
    case Many(es) => SizeAll(es)
    case Pairs(es) => SizeEntries(es)
    case Callee(f, args) => Size(f) + SizeAll(args)
  }

  function FormSize(f: Form): nat {
    match f
    case Constant(_) | Name(_) => 0
    case Closure(_, b) => Size(b)
    case Binding(_, v, b) => Size(v) + Size(b)
    case Branch(c, y, z) => Size(c) + Size(y) + Size(z)
    case Fallback(l, r) => Size(l) + Size(r)
    case Invoke(o) => OpSize(o)
    case Strict(_, o) => OpSize(o)
  }

  predicate FormFits(f: Form) {
    match f
    case Invoke(o) => OpCount(o) > 0
    case Strict(op, o) => OpCount(o) == Arity(op)
    case _ => true
  }

  lemma FormSmaller(e: Expr)
    ensures FormSize(FormOf(e)) < Size(e) && FormFits(FormOf(e))
  {
  }

  lemma ListSize(o: Operands)
    ensures |ListOf(o)| == OpCount(o) && SizeAll(ListOf(o)) == OpSize(o)
  {
    match o
    case One(a) => SizeCons(a, []);
    case Two(a, b) =>
      SizeCons(b, []);
      SizeCons(a, [b]);
      assert [a, b] == [a] + [b];
    case Three(a, b, c) =>
      SizeCons(c, []);
      SizeCons(b, [c]);
      SizeCons(a, [b] + [c]);
      assert [a, b, c] == [a] + ([b] + [c]);
    case Callee(f, args) => SizeCons(f, args);
    case _ =>
  }

  lemma SizeCons(e: Expr, es: seq<Expr>)
    ensures SizeAll([e] + es) == Size(e) + SizeAll(es)
  {
    assert ([e] + es)[1..] == es;
  }

  function OrNil(o: Option<Expr>): (e: Expr)
    ensures Size(e) == OptSize(o)
  {
    if o.Some? then o.value else Const(CNil)
  }

  function PatternOf(r: Expr): (e: Expr)
    ensures Size(e) == Size(r)
  {
    if r.Const? && r.c.CStr? then Const(CRegex(r.c.s)) else r
  }

  /** key, value, key, value, ... */
  function Interleave(es: seq<Entry>): (r: seq<Expr>)
    ensures |r| == 2 * |es|
    ensures SizeAll(r) == SizeEntries(es)
  {
    if es == [] then [] else
    var rest := Interleave(es[1..]);
    var r := [Const(CStr(es[0].key)), es[0].value] + rest;
    assert r[1..] == [es[0].value] + rest;
    assert r[1..][1..] == rest;
    r
  }

  /** A lambda literal occurs somewhere in e. */
  predicate HasLambda(e: Expr)
    decreases Size(e), 1
  {
    FormSmaller(e);
    HasLambdaForm(FormOf(e))
  }

  predicate HasLambdaForm(f: Form)
    decreases FormSize(f), 4
  {
    match f
    case Constant(_) | Name(_) => false
    case Closure(_, _) => true
    case Binding(_, v, b) => HasLambda(v) || HasLambda(b)
    case Branch(c, y, n) => HasLambda(c) || HasLambda(y) || HasLambda(n)
    case Fallback(l, r) => HasLambda(l) || HasLambda(r)
    case Invoke(o) => HasLambdaOp(o)
    case Strict(_, o) => HasLambdaOp(o)
  }

  predicate HasLambdaOp(o: Operands)
    decreases OpSize(o), 3
  {
    ListSize(o);
    HasLambdas(ListOf(o))
  }

  predicate HasLambdas(es: seq<Expr>)
    decreases SizeAll(es), 2
  {
    es != [] && (HasLambda(es[0]) || HasLambdas(es[1..]))
  }
}
