// Which expressions the compiler accepts, told on the syntax.

module Rejections {
  import opened Values
  import opened Syntax
  import opened CompilerSpec

  /** Every regex literal is a valid pattern, and so is every string right of `matches`; no literal of
      another kind stands there, nor a list, a map or a lambda. */
  predicate GoodPatterns(valid: string -> bool, e: Expr) {
    match e
    case Const(c) => c.CRegex? ==> valid(c.pattern)
    case Var(_) => true
    case Unary(_, a) => GoodPatterns(valid, a)
    case Infix(MatchesOp, l, Const(CStr(p))) => GoodPatterns(valid, l) && valid(p)
    case Infix(MatchesOp, l, Const(CRegex(p))) => GoodPatterns(valid, l) && valid(p)
    case Infix(MatchesOp, l, Const(_)) => false
    case Infix(MatchesOp, l, ListE(_)) => false
    case Infix(MatchesOp, l, MapE(_)) => false
    case Infix(MatchesOp, l, Lambda(_, _)) => false
    case Infix(_, l, r) => GoodPatterns(valid, l) && GoodPatterns(valid, r)
    case Member(t, _, _) => GoodPatterns(valid, t)
    case IndexE(t, i, _) => GoodPatterns(valid, t) && GoodPatterns(valid, i)
    case SliceE(t, lo, hi) =>
      GoodPatterns(valid, t) && (lo.Some? ==> GoodPatterns(valid, lo.value)) &&
        (hi.Some? ==> GoodPatterns(valid, hi.value))
    case ListE(es) => forall i :: 0 <= i < |es| ==> GoodPatterns(valid, es[i])
    case MapE(es) => forall i :: 0 <= i < |es| ==> GoodPatterns(valid, es[i].value)
    case Lambda(_, b) => GoodPatterns(valid, b)
    case Let(_, v, b) => GoodPatterns(valid, v) && GoodPatterns(valid, b)
    case Conditional(c, y, n) => GoodPatterns(valid, c) && GoodPatterns(valid, y) &&
      (n.Some? ==> GoodPatterns(valid, n.value))
    case Call(f, args) => GoodPatterns(valid, f) && forall i :: 0 <= i < |args| ==> GoodPatterns(valid, args[i])
  }

  /** Literals that the compiler supplies itself. */
  lemma SuppliedAccepted(valid: string -> bool, c: Values.Const)
    requires !c.CRegex?
    ensures Problem(valid, Const(c)).None?
  {
    FormSmaller(Const(c));
  }

  lemma FormAccepted(valid: string -> bool, e: Expr)
    requires !e.Unary? && !(e.Infix? && e.bop.MatchesOp?)
    ensures Problem(valid, e) == ProblemForm(valid, FormOf(e))
  {
    FormSmaller(e);
  }

  lemma {:induction false} AllAccepted(valid: string -> bool, es: seq<Expr>)
    ensures Problems(valid, es).None? <==> forall i :: 0 <= i < |es| ==> Problem(valid, es[i]).None?
  {
    if es != [] {
      AllAccepted(valid, es[1..]);
      assert forall i :: 0 < i < |es| ==> es[i] == es[1..][i - 1];
    }
  }

  lemma OperandsAccepted(valid: string -> bool, o: Operands)
    ensures ProblemOp(valid, o).None? <==> forall i :: 0 <= i < |ListOf(o)| ==> Problem(valid, ListOf(o)[i]).None?
  {
    AllAccepted(valid, ListOf(o));
  }

  lemma OneAccepted(valid: string -> bool, a: Expr)
    ensures ProblemOp(valid, One(a)).None? <==> Problem(valid, a).None?
  {
    OperandsAccepted(valid, One(a));
    assert ListOf(One(a))[0] == a;
  }

  lemma TwoAccepted(valid: string -> bool, a: Expr, b: Expr)
    ensures ProblemOp(valid, Two(a, b)).None? <==> Problem(valid, a).None? && Problem(valid, b).None?
  {
    TwoProblems(valid, a, b);
  }

  lemma ThreeAccepted(valid: string -> bool, a: Expr, b: Expr, c: Expr)
    ensures ProblemOp(valid, Three(a, b, c)).None? <==>
      Problem(valid, a).None? && Problem(valid, b).None? && Problem(valid, c).None?
  {
    OperandsAccepted(valid, Three(a, b, c));
    var es := ListOf(Three(a, b, c));
    assert es[0] == a && es[1] == b && es[2] == c;
  }

  lemma CalleeAccepted(valid: string -> bool, f: Expr, args: seq<Expr>)
    ensures ProblemOp(valid, Callee(f, args)).None? <==>
      Problem(valid, f).None? && forall i :: 0 <= i < |args| ==> Problem(valid, args[i]).None?
  {
    OperandsAccepted(valid, Callee(f, args));
    var es := [f] + args;
    assert forall i :: 0 <= i < |args| ==> es[i + 1] == args[i];
    assert forall i :: 0 < i < |es| ==> es[i] == args[i - 1];
  }

  lemma {:induction false} EntriesAccepted(valid: string -> bool, es: seq<Entry>)
    ensures Problems(valid, Interleave(es)).None? <==> forall i :: 0 <= i < |es| ==> Problem(valid, es[i].value).None?
  {
    if es != [] {
      EntriesAccepted(valid, es[1..]);
      SuppliedAccepted(valid, CStr(es[0].key));
      var all := Interleave(es);
      assert all[0] == Const(CStr(es[0].key)) && all[1..][0] == es[0].value && all[1..][1..] == Interleave(es[1..]);
      assert forall i :: 0 < i < |es| ==> es[i] == es[1..][i - 1];
    }
  }

  lemma OptionAccepted(valid: string -> bool, o: Option<Expr>)
    ensures Problem(valid, OrNil(o)).None? <==> (o.Some? ==> Problem(valid, o.value).None?)
  {
    SuppliedAccepted(valid, CNil);
  }

  /** The compiler accepts exactly the expressions whose patterns are good. */
  lemma {:induction false} AcceptedExactly(valid: string -> bool, e: Expr)
    ensures Problem(valid, e).None? <==> GoodPatterns(valid, e)
    decreases e, 1
  {
    if e.Infix? {
      InfixAccepted(valid, e);
    } else if !e.Unary? {
      FormAccepted(valid, e);
    }
    match e
    case Const(_) | Var(_) =>
    case Unary(_, a) => AcceptedExactly(valid, a);
    case Infix(_, _, _) =>
    case Member(t, _, _) =>
      OneAccepted(valid, t);
      AcceptedExactly(valid, t);
    case IndexE(t, i, _) =>
      TwoAccepted(valid, t, i);
      AcceptedExactly(valid, t);
      AcceptedExactly(valid, i);
    case SliceE(t, lo, hi) =>
      ThreeAccepted(valid, t, OrNil(lo), OrNil(hi));
      AcceptedExactly(valid, t);
      OptionExactly(valid, lo);
      OptionExactly(valid, hi);
    case ListE(es) =>
      OperandsAccepted(valid, Many(es));
      forall i | 0 <= i < |es| ensures Problem(valid, es[i]).None? <==> GoodPatterns(valid, es[i]) {
        AcceptedExactly(valid, es[i]);
      }
    case MapE(es) =>
      EntriesAccepted(valid, es);
      forall i | 0 <= i < |es| ensures Problem(valid, es[i].value).None? <==> GoodPatterns(valid, es[i].value) {
        AcceptedExactly(valid, es[i].value);
      }
    case Lambda(_, b) => AcceptedExactly(valid, b);
    case Let(_, v, b) =>
      TwoAccepted(valid, v, b);
      AcceptedExactly(valid, v);
      AcceptedExactly(valid, b);
    case Conditional(c, y, n) =>
      ThreeAccepted(valid, c, y, OrNil(n));
      AcceptedExactly(valid, c);
      AcceptedExactly(valid, y);
      OptionExactly(valid, n);
    case Call(f, args) =>
      CalleeAccepted(valid, f, args);
      AcceptedExactly(valid, f);
      forall i | 0 <= i < |args| ensures Problem(valid, args[i]).None? <==> GoodPatterns(valid, args[i]) {
        AcceptedExactly(valid, args[i]);
      }
  }

  lemma {:induction false} OptionExactly(valid: string -> bool, o: Option<Expr>)
    ensures Problem(valid, OrNil(o)).None? <==> (o.Some? ==> GoodPatterns(valid, o.value))
    decreases o
  {
    OptionAccepted(valid, o);
    if o.Some? { AcceptedExactly(valid, o.value); }
  }

  lemma {:induction false} InfixAccepted(valid: string -> bool, e: Expr)
    requires e.Infix?
    ensures Problem(valid, e).None? <==> GoodPatterns(valid, e)
    decreases e, 0
  {
    var Infix(op, l, r) := e;
    AcceptedExactly(valid, l);
    AcceptedExactly(valid, r);
    SuppliedAccepted(valid, CBool(true));
    SuppliedAccepted(valid, CBool(false));
    if op.MatchesOp? {
      MatchesNode(valid, l, r, [], 0);
      TwoAccepted(valid, l, PatternOf(r));
      if r.Const? && r.c.CStr? { AcceptedExactly(valid, r); FormAccepted(valid, Const(CRegex(r.c.s))); }
    } else {
      FormAccepted(valid, e);
      TwoAccepted(valid, l, r);
      ThreeAccepted(valid, l, Const(CBool(true)), r);
      ThreeAccepted(valid, l, r, Const(CBool(false)));
    }
  }
}
