// What the folding pass looks for, and that it finds all of it and touches nothing else.

module FoldComplete {
  import opened Values
  import opened Syntax
  import Fold

  predicate IsComparison(op: BinOp) { op in [Eq, Ne, Lt, Gt, Le, Ge] }

  /** Literals that an arithmetic or comparison operator combines the same way on every Machine, without error. */
  predicate Combines(fo: FloatOps, op: BinOp, l: Values.Const, r: Values.Const) {
    match (l, r)
    case (CInt(_), CInt(b)) => if op in [Div, Mod] then b != 0 else if op == Pow then b >= 0 else true
    case (CFloat(_), CFloat(b)) => op in [Div, Mod] ==> !fo.isZero(b)
    case (CStr(_), CStr(_)) => op == Add || IsComparison(op)
    case (CBool(_), CBool(_)) => op == Eq || op == Ne
    case _ => false
  }

  /** An operator on literals that can be worked out at compile time. */
  predicate Redex(fo: FloatOps, e: Expr) {
    match e
    case Unary(op, Const(c)) => if op == Bang then c.CBool? else c.CInt? || c.CFloat?
    case Infix(Arith(op), Const(l), Const(r)) => Combines(fo, op, l, r)
    case _ => false
  }

  /** Somewhere in e, in lambda bodies and map values too, there is one. */
  predicate HasRedex(fo: FloatOps, e: Expr) {
    Redex(fo, e) ||
    match e
    case Const(_) | Var(_) => false
    case Unary(_, a) => HasRedex(fo, a)
    case Infix(_, l, r) => HasRedex(fo, l) || HasRedex(fo, r)
    case Member(t, _, _) => HasRedex(fo, t)
    case IndexE(t, i, _) => HasRedex(fo, t) || HasRedex(fo, i)
    case SliceE(t, lo, hi) => HasRedex(fo, t) || (lo.Some? && HasRedex(fo, lo.value)) ||
      (hi.Some? && HasRedex(fo, hi.value))
    case ListE(es) => exists i :: 0 <= i < |es| && HasRedex(fo, es[i])
    case MapE(es) => exists i :: 0 <= i < |es| && HasRedex(fo, es[i].value)
    case Lambda(_, b) => HasRedex(fo, b)
    case Let(_, v, b) => HasRedex(fo, v) || HasRedex(fo, b)
    case Conditional(c, y, n) => HasRedex(fo, c) || HasRedex(fo, y) || (n.Some? && HasRedex(fo, n.value))
    case Call(f, args) => HasRedex(fo, f) || exists i :: 0 <= i < |args| && HasRedex(fo, args[i])
  }

  lemma {:induction false} FoldsUnary(fo: FloatOps, e: Expr)
    requires e.Unary?
    ensures Fold.FoldConstants(fo, e) == e <==> !HasRedex(fo, e)
    decreases e, 0
  {
    FoldsExactlyRedexes(fo, e.operand);
  }

  lemma {:induction false} FoldsInfix(fo: FloatOps, e: Expr)
    requires e.Infix?
    ensures Fold.FoldConstants(fo, e) == e <==> !HasRedex(fo, e)
    decreases e, 0
  {
    FoldsExactlyRedexes(fo, e.left);
    FoldsExactlyRedexes(fo, e.right);
  }

  /** The pass leaves an expression as it is exactly when there is nothing in it to work out. */
  lemma {:induction false} FoldsExactlyRedexes(fo: FloatOps, e: Expr)
    ensures Fold.FoldConstants(fo, e) == e <==> !HasRedex(fo, e)
    decreases e, 1
  {
    match e
    case Const(_) | Var(_) =>
    case Unary(_, _) => FoldsUnary(fo, e);
    case Infix(_, _, _) => FoldsInfix(fo, e);
    case Member(t, _, _) => FoldsExactlyRedexes(fo, t);
    case IndexE(t, i, _) =>
      FoldsExactlyRedexes(fo, t);
      FoldsExactlyRedexes(fo, i);
    case SliceE(t, lo, hi) =>
      FoldsExactlyRedexes(fo, t);
      FoldsOption(fo, lo);
      FoldsOption(fo, hi);
    case ListE(es) => FoldsAll(fo, es);
    case MapE(es) => FoldsEntries(fo, es);
    case Lambda(_, b) => FoldsExactlyRedexes(fo, b);
    case Let(_, v, b) =>
      FoldsExactlyRedexes(fo, v);
      FoldsExactlyRedexes(fo, b);
    case Conditional(c, y, n) =>
      FoldsExactlyRedexes(fo, c);
      FoldsExactlyRedexes(fo, y);
      FoldsOption(fo, n);
    case Call(f, args) =>
      FoldsExactlyRedexes(fo, f);
      FoldsAll(fo, args);
  }

  lemma {:induction false} FoldsOption(fo: FloatOps, o: Option<Expr>)
    ensures Fold.FoldOption(fo, false, o) == o <==> !(o.Some? && HasRedex(fo, o.value))
    decreases o
  {
    if o.Some? { FoldsExactlyRedexes(fo, o.value); }
  }

  lemma {:induction false} FoldsAll(fo: FloatOps, es: seq<Expr>)
    ensures Fold.FoldAll(fo, false, es) == es <==> !exists i :: 0 <= i < |es| && HasRedex(fo, es[i])
    decreases es
  {
    var r := Fold.FoldAll(fo, false, es);
    forall i | 0 <= i < |es| ensures r[i] == es[i] <==> !HasRedex(fo, es[i]) {
      FoldsExactlyRedexes(fo, es[i]);
    }
  }

  lemma {:induction false} FoldsEntries(fo: FloatOps, es: seq<Entry>)
    ensures Fold.FoldEntries(fo, false, es) == es <==> !exists i :: 0 <= i < |es| && HasRedex(fo, es[i].value)
    decreases es
  {
    var r := Fold.FoldEntries(fo, false, es);
    forall i | 0 <= i < |es| ensures r[i] == es[i] <==> !HasRedex(fo, es[i].value) {
      FoldsExactlyRedexes(fo, es[i].value);
    }
  }

  /** One pass works out everything there is to work out, what only folding makes foldable included. */
  lemma NothingLeft(fo: FloatOps, e: Expr)
    ensures !HasRedex(fo, Fold.FoldConstants(fo, e))
  {
    Fold.FoldTwice(fo, false, e);
    FoldsExactlyRedexes(fo, Fold.FoldConstants(fo, e));
  }
}
