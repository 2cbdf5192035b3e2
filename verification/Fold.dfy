// Constant folding, and why a folded program means what the original means on every Machine.

module Fold {
  import opened Values
  import opened Int64
  import opened Mapping
  import opened Syntax
  import opened CompilerSpec
  import opened Semantics
  import opened Compiled
  import opened Machine
  import opened Trampoline
  import opened Correctness

  // ----- The folder's own literal arithmetic -----

  function FoldUnary(fo: FloatOps, op: UnaryOp, a: Expr): Option<Values.Const> {
    if !a.Const? then None else
    match (op, a.c)
    case (Minus, CInt(i)) => Some(CInt(Wrap(0 - i)))
    case (Minus, CFloat(f)) => Some(CFloat(fo.negate(f)))
    case (Bang, CBool(b)) => Some(CBool(!b))
    case (Plus, CInt(_)) => Some(a.c)
    case (Plus, CFloat(_)) => Some(a.c)
    case _ => None
  }

  function FoldBinary(fo: FloatOps, op: BinOp, l: Expr, r: Expr): Option<Values.Const> {
    if !l.Const? || !r.Const? then None
    else if IsCompare(op) then FoldCompare(fo, op, l.c, r.c)
    else FoldArith(fo, op, l.c, r.c)
  }

  function FoldArith(fo: FloatOps, op: BinOp, l: Values.Const, r: Values.Const): Option<Values.Const> {
    match (l, r)
    case (CInt(a), CInt(b)) => FoldIntArith(op, a, b)
    case (CFloat(a), CFloat(b)) =>
      if (op.Div? || op.Mod?) && fo.isZero(b) then None else Some(CFloat(fo.arith(op, a, b)))
    case (CStr(a), CStr(b)) => if op.Add? then Some(CStr(a + b)) else None
    case _ => None
  }

  function FoldIntArith(op: BinOp, a: int64, b: int64): Option<Values.Const> {
    match op
    case Add => Some(CInt(Wrap(a + b)))
    case Sub => Some(CInt(Wrap(a - b)))
    case Mul => Some(CInt(Wrap(a * b)))
    case Div => if b == 0 then None else Some(CInt(Wrap(Quo(a, b))))
    case Mod => if b == 0 then None else Some(CInt(Wrap(Rem(a, b))))
    case Pow => if b < 0 then None else Some(CInt(Wrap(Int64.Pow(a, b))))
    case _ => None
  }

  function FoldCompare(fo: FloatOps, op: BinOp, l: Values.Const, r: Values.Const): Option<Values.Const>
    requires IsCompare(op)
  {
    match (l, r)
    case (CInt(a), CInt(b)) => Some(CBool(IntCompare(op, a, b)))
    case (CFloat(a), CFloat(b)) => Some(CBool(fo.compare(op, a, b)))
    case (CStr(a), CStr(b)) => Some(CBool(StringCompare(op, a, b)))
    case (CBool(a), CBool(b)) => if op.Eq? then Some(CBool(a == b)) else if op.Ne? then Some(CBool(a != b)) else None
    case _ => None
  }

  function StringCompare(op: BinOp, a: string, b: string): bool
    requires IsCompare(op)
  {
    match op
    case Eq => a == b
    case Ne => a != b
    case Lt => StrLess(a, b)
    case Gt => StrLess(b, a)
    case Le => !StrLess(b, a)
    case Ge => !StrLess(a, b)
  }

  /** Two literals are folded exactly when the default handlers would combine them without error
      and without consulting the Machine's coercion setting, and then to the same value. */
  lemma FoldMatchesHandlers(fo: FloatOps, op: BinOp, l: Values.Const, r: Values.Const)
    ensures FoldBinary(fo, op, Const(l), Const(r)) ==
      if SameCoreType(l, r) && CoreOp(fo, op, l, r).Ok? then Some(CoreOp(fo, op, l, r).v) else None
  {
  }

  // ----- The pass -----

  /** With keep false, the pass as it is. With keep true, a right operand of `matches` that is not
      a literal is left alone when folding would make it one; everything else is the same. */
  function FoldAs(fo: FloatOps, keep: bool, e: Expr): Expr {
    match e
    case Const(_) | Var(_) => e
    case Unary(op, a) =>
      var a' := FoldAs(fo, keep, a);
      (match FoldUnary(fo, op, a')
       case Some(c) => Const(c)
       case None => Unary(op, a'))
    case Infix(op, l, r) =>
      var l', r' := FoldAs(fo, keep, l), FoldAs(fo, keep, r);
      if op.Arith? then
        (match FoldBinary(fo, op.op, l', r')
         case Some(c) => Const(c)
         case None => Infix(op, l', r'))
      else Infix(op, l', if keep && op.MatchesOp? && r'.Const? then r else r')
    case Member(t, n, opt) => Member(FoldAs(fo, keep, t), n, opt)
    case IndexE(t, i, opt) => IndexE(FoldAs(fo, keep, t), FoldAs(fo, keep, i), opt)
    case SliceE(t, lo, hi) => SliceE(FoldAs(fo, keep, t), FoldOption(fo, keep, lo), FoldOption(fo, keep, hi))
    case ListE(es) => ListE(FoldAll(fo, keep, es))
    case MapE(es) => MapE(FoldEntries(fo, keep, es))
    case Lambda(ps, b) => Lambda(ps, FoldAs(fo, keep, b))
    case Let(x, v, b) => Let(x, FoldAs(fo, keep, v), FoldAs(fo, keep, b))
    case Conditional(c, t, f) => Conditional(FoldAs(fo, keep, c), FoldAs(fo, keep, t), FoldOption(fo, keep, f))
    case Call(f, args) => Call(FoldAs(fo, keep, f), FoldAll(fo, keep, args))
  }

  function FoldOption(fo: FloatOps, keep: bool, o: Option<Expr>): Option<Expr> {
    match o
    case Some(e) => Some(FoldAs(fo, keep, e))
    case None => None
  }

  function FoldAll(fo: FloatOps, keep: bool, es: seq<Expr>): seq<Expr> {
    seq(|es|, i requires 0 <= i < |es| => FoldAs(fo, keep, es[i]))
  }

  /** Keys are plain text, so only the values are folded. */
  function FoldEntries(fo: FloatOps, keep: bool, es: seq<Entry>): seq<Entry> {
    seq(|es|, i requires 0 <= i < |es| => Entry(es[i].key, FoldAs(fo, keep, es[i].value)))
  }

  function FoldConstants(fo: FloatOps, e: Expr): Expr { FoldAs(fo, false, e) }

  /** No right operand of `matches` becomes a literal only by folding. */
  predicate Settled(fo: FloatOps, e: Expr) {
    match e
    case Const(_) | Var(_) => true
    case Unary(_, a) => Settled(fo, a)
    case Infix(op, l, r) =>
      && Settled(fo, l) && Settled(fo, r)
      && (op.MatchesOp? && FoldConstants(fo, r).Const? ==> r.Const?)
    case Member(t, _, _) => Settled(fo, t)
    case IndexE(t, i, _) => Settled(fo, t) && Settled(fo, i)
    case SliceE(t, lo, hi) => Settled(fo, t) && (lo.Some? ==> Settled(fo, lo.value)) &&
      (hi.Some? ==> Settled(fo, hi.value))
    case ListE(es) => forall i :: 0 <= i < |es| ==> Settled(fo, es[i])
    case MapE(es) => forall i :: 0 <= i < |es| ==> Settled(fo, es[i].value)
    case Lambda(_, b) => Settled(fo, b)
    case Let(_, v, b) => Settled(fo, v) && Settled(fo, b)
    case Conditional(c, t, f) => Settled(fo, c) && Settled(fo, t) && (f.Some? ==> Settled(fo, f.value))
    case Call(f, args) => Settled(fo, f) && forall i :: 0 <= i < |args| ==> Settled(fo, args[i])
  }

  lemma {:induction false} SameLiterals(fo: FloatOps, e: Expr)
    requires FoldAs(fo, false, e).Const? || FoldAs(fo, true, e).Const?
    ensures FoldAs(fo, true, e) == FoldConstants(fo, e) && Settled(fo, e)
  {
    match e
    case Unary(op, a) =>
      SameLiterals(fo, a);
    case Infix(op, l, r) =>
      SameLiterals(fo, l);
      SameLiterals(fo, r);
    case _ =>
  }

  /** The two modes differ exactly on the expressions that are not settled. */
  lemma {:induction false} SettledSame(fo: FloatOps, e: Expr)
    ensures Settled(fo, e) <==> FoldAs(fo, true, e) == FoldConstants(fo, e)
  {
    if FoldConstants(fo, e).Const? || FoldAs(fo, true, e).Const? {
      SameLiterals(fo, e);
    } else {
      match e
      case Var(_) =>
      case Unary(_, a) => SettledSame(fo, a);
      case Infix(op, l, r) =>
        SettledSame(fo, l);
        SettledSame(fo, r);
        if FoldConstants(fo, r).Const? || FoldAs(fo, true, r).Const? { SameLiterals(fo, r); }
      case Member(t, _, _) => SettledSame(fo, t);
      case IndexE(t, i, _) => SettledSame(fo, t); SettledSame(fo, i);
      case SliceE(t, lo, hi) =>
        SettledSame(fo, t);
        SettledOption(fo, lo);
        SettledOption(fo, hi);
      case ListE(es) => SettledAll(fo, es);
      case MapE(es) => SettledEntries(fo, es);
      case Lambda(_, b) => SettledSame(fo, b);
      case Let(_, v, b) => SettledSame(fo, v); SettledSame(fo, b);
      case Conditional(c, t, f) =>
        SettledSame(fo, c);
        SettledSame(fo, t);
        SettledOption(fo, f);
      case Call(f, args) => SettledSame(fo, f); SettledAll(fo, args);
    }
  }

  lemma {:induction false} SettledOption(fo: FloatOps, o: Option<Expr>)
    ensures (o.Some? ==> Settled(fo, o.value)) <==> FoldOption(fo, true, o) == FoldOption(fo, false, o)
  {
    if o.Some? { SettledSame(fo, o.value); }
  }

  lemma {:induction false} SettledAll(fo: FloatOps, es: seq<Expr>)
    ensures (forall i :: 0 <= i < |es| ==> Settled(fo, es[i])) <==> FoldAll(fo, true, es) == FoldAll(fo, false, es)
  {
    var a, b := FoldAll(fo, true, es), FoldAll(fo, false, es);
    forall i | 0 <= i < |es| ensures Settled(fo, es[i]) <==> a[i] == b[i] {
      SettledSame(fo, es[i]);
    }
  }

  lemma {:induction false} SettledEntries(fo: FloatOps, es: seq<Entry>)
    ensures (forall i :: 0 <= i < |es| ==> Settled(fo, es[i].value)) <==>
        FoldEntries(fo, true, es) == FoldEntries(fo, false, es)
  {
    var a, b := FoldEntries(fo, true, es), FoldEntries(fo, false, es);
    forall i | 0 <= i < |es| ensures Settled(fo, es[i].value) <==> a[i] == b[i] {
      SettledSame(fo, es[i].value);
    }
  }

  // ----- Folding preserves meaning -----

  /** Folding the lambda inside every closure. */
  function K(fo: FloatOps): Mapper<Lam, Lam> {
    Mapper((f: Lam, names: Names) => Lam(f.params, FoldAs(fo, true, f.body)), (f: Lam, n: string) => true)
  }

  function KScopes(fo: FloatOps, sc: Scopes<Lam>): Scopes<Lam> { MapScopes(K(fo), n => true, sc) }

  function KLocals(fo: FloatOps, env: Env): Env { MapLocals(K(fo), env) }

  /** What folds to a literal has that literal as its value, wherever it is evaluated. */
  lemma {:induction false} LiteralValue(fo: FloatOps, keep: bool, h: Host<Lam>, limit: nat, e: Expr, sc: Scopes<Lam>,
      env: Env, d: nat)
    requires FoldAs(fo, keep, e).Const? && h.float == fo
    ensures Eval(h, limit, e, sc, env, d) == Ok(Lit(FoldAs(fo, keep, e).c))
    decreases e
  {
    FormSmaller(e);
    match e
    case Const(c) =>
    case Unary(op, a) =>
      LiteralValue(fo, keep, h, limit, a, sc, env, d);
      if op.Plus? { PlusTransparent(h, limit, a, sc, env, d); } else { EvalOne(h, limit, a, sc, env, d); }
    case Infix(op, l, r) =>
      LiteralValue(fo, keep, h, limit, l, sc, env, d);
      LiteralValue(fo, keep, h, limit, r, sc, env, d);
      EvalTwo(h, limit, l, r, sc, env, d);
      FoldMatchesHandlers(fo, op.op, FoldAs(fo, keep, l).c, FoldAs(fo, keep, r).c);
  }

  lemma PlusTransparent(h: Host<Lam>, limit: nat, a: Expr, sc: Scopes<Lam>, env: Env, d: nat)
    ensures Eval(h, limit, Unary(Plus, a), sc, env, d) == Eval(h, limit, a, sc, env, d)
  {
    FormSmaller(a);
    FormSmaller(Unary(Plus, a));
  }

  lemma EvalOne(h: Host<Lam>, limit: nat, a: Expr, sc: Scopes<Lam>, env: Env, d: nat)
    ensures EvalOps(h, limit, One(a), sc, env, d) ==
      match Eval(h, limit, a, sc, env, d)
      case Ok(v) => Ok([v])
      case Err(e) => Err(e)
  {
    ListSize(One(a));
    var o := Eval(h, limit, a, sc, env, d);
    assert EvalAll(h, limit, [a][1..], sc, env, d) == Ok([]);
    if o.Ok? { assert [o.v] + [] == [o.v]; }
  }

  lemma EvalTwo(h: Host<Lam>, limit: nat, a: Expr, b: Expr, sc: Scopes<Lam>, env: Env, d: nat)
    ensures EvalOps(h, limit, Two(a, b), sc, env, d) ==
      match Eval(h, limit, a, sc, env, d)
      case Err(e) => Err(e)
      case Ok(v) =>
        match Eval(h, limit, b, sc, env, d)
        case Err(e) => Err(e)
        case Ok(w) => Ok([v, w])
  {
    ListSize(Two(a, b));
    ListSize(One(b));
    EvalOne(h, limit, b, sc, env, d);
    assert [a, b][1..] == [b];
    var o, w := Eval(h, limit, a, sc, env, d), Eval(h, limit, b, sc, env, d);
    if o.Ok? && w.Ok? { assert [o.v] + [w.v] == [o.v, w.v]; }
  }

  function FormFold(fo: FloatOps, keep: bool, f: Form): Form {
    match f
    case Constant(_) | Name(_) => f
    case Closure(ps, b) => Closure(ps, FoldAs(fo, keep, b))
    case Binding(x, v, b) => Binding(x, FoldAs(fo, keep, v), FoldAs(fo, keep, b))
    case Branch(c, y, n) => Branch(FoldAs(fo, keep, c), FoldAs(fo, keep, y), FoldAs(fo, keep, n))
    case Fallback(l, r) => Fallback(FoldAs(fo, keep, l), FoldAs(fo, keep, r))
    case Invoke(o) => Invoke(OpsFold(fo, keep, o))
    case Strict(op, o) => Strict(op, OpsFold(fo, keep, o))
  }

  function OpsFold(fo: FloatOps, keep: bool, o: Operands): Operands {
    match o
    case One(a) => One(FoldAs(fo, keep, a))
    case Two(a, b) => Two(FoldAs(fo, keep, a), FoldAs(fo, keep, b))
    case Three(a, b, c) => Three(FoldAs(fo, keep, a), FoldAs(fo, keep, b), FoldAs(fo, keep, c))
    case Many(es) => Many(FoldAll(fo, keep, es))
    case Pairs(es) => Pairs(FoldEntries(fo, keep, es))
    case Callee(f, args) => Callee(FoldAs(fo, keep, f), FoldAll(fo, keep, args))
  }

  lemma OpsFoldList(fo: FloatOps, keep: bool, o: Operands)
    ensures ListOf(OpsFold(fo, keep, o)) == FoldAll(fo, keep, ListOf(o)) && OpCount(OpsFold(fo, keep, o)) == OpCount(o)
  {
    if o.Pairs? { InterleaveFold(fo, keep, o.entries); }
  }

  lemma {:induction false} InterleaveFold(fo: FloatOps, keep: bool, es: seq<Entry>)
    ensures Interleave(FoldEntries(fo, keep, es)) == FoldAll(fo, keep, Interleave(es))
  {
    if es != [] {
      InterleaveFold(fo, keep, es[1..]);
      assert FoldEntries(fo, keep, es)[1..] == FoldEntries(fo, keep, es[1..]);
      FoldAllTwo(fo, keep, Const(CStr(es[0].key)), es[0].value, Interleave(es[1..]));
    }
  }

  lemma FoldAllTwo(fo: FloatOps, keep: bool, a: Expr, b: Expr, rest: seq<Expr>)
    ensures FoldAll(fo, keep, [a, b] + rest) == [FoldAs(fo, keep, a), FoldAs(fo, keep, b)] + FoldAll(fo, keep, rest)
  {
  }

  /** Apart from literals, unary plus and `matches`, a folded node is evaluated as the same form. */
  lemma FormOfFold(fo: FloatOps, keep: bool, e: Expr)
    requires !FoldAs(fo, keep, e).Const? && !(e.Unary? && e.uop.Plus?) && !(e.Infix? && e.bop.MatchesOp?)
    ensures FormOf(FoldAs(fo, keep, e)) == FormFold(fo, keep, FormOf(e))
  {
  }

  lemma {:induction false} LookupBindsMap(m: Mapper<Lam, Lam>, binds: seq<Bind<Lam>>, mapped: seq<Bind<Lam>>, x: string)
    requires |mapped| == |binds| && forall i :: 0 <= i < |binds| ==>
        mapped[i] == Bind(binds[i].name, Map(m, binds[i].value))
    ensures LookupBinds(mapped, x) == MapOption(m, LookupBinds(binds, x))
  {
    if binds != [] { LookupBindsMap(m, binds[..|binds| - 1], mapped[..|mapped| - 1], x); }
  }

  lemma {:induction false} LookupMap(m: Mapper<Lam, Lam>, env: Env, x: string)
    ensures Lookup(MapLocals(m, env), x) == MapOption(m, Lookup(env, x))
  {
    if env.Frame? {
      LookupBindsMap(m, env.binds, MapLocals(m, env).binds, x);
      LookupMap(m, env.parent, x);
    }
  }

  lemma FoldedClosure(fo: FloatOps, f: Lam, sc: Scopes<Lam>, env: Env)
    ensures Map(K(fo), Clo(f, sc, env)) == Clo(Lam(f.params, FoldAs(fo, true, f.body)), KScopes(fo, sc),
        KLocals(fo, env))
  {
    ScopesKeep(K(fo), n => K(fo).keep(f, n), n => true, sc);
  }

  lemma FoldedFrame(fo: FloatOps, params: seq<string>, args: seq<Val>, env: Env)
    requires |params| == |args|
    ensures KLocals(fo, Frame(env, BindAll(params, args))) ==
        Frame(KLocals(fo, env), BindAll(params, MapSeq(K(fo), args)))
  {
    assert KLocals(fo, Frame(env, BindAll(params, args))).binds == BindAll(params, MapSeq(K(fo), args));
  }

  lemma FoldedBind(fo: FloatOps, x: string, v: Val, env: Env)
    ensures KLocals(fo, Frame(env, [Bind(x, v)])) == Frame(KLocals(fo, env), [Bind(x, Map(K(fo), v))])
  {
    assert KLocals(fo, Frame(env, [Bind(x, v)])).binds == [Bind(x, Map(K(fo), v))];
  }

  /** Folding e and the closures of its environment folds the closures of its result and changes
      nothing else: not the value, not the error, whatever the Machine and the depth. */
  lemma {:induction false} FoldRuns(hs: Host<Lam>, hk: Host<Lam>, limit: nat, e: Expr, sc: Scopes<Lam>, env: Env,
      d: nat, o: Outcome<Val>)
    requires Natural(K(hs.float), hs, hk) && o == Eval(hs, limit, e, sc, env, d)
    ensures Eval(hk, limit, FoldAs(hs.float, true, e), KScopes(hs.float, sc), KLocals(hs.float, env), d) ==
        MapOutcome(K(hs.float), o)
    decreases limit - d, Size(e), 1
  {
    var fo := hs.float;
    var e' := FoldAs(fo, true, e);
    if e'.Const? {
      LiteralValue(fo, true, hs, limit, e, sc, env, d);
      LiteralValue(fo, true, hk, limit, e', KScopes(fo, sc), KLocals(fo, env), d);
    } else if e.Unary? && e.uop.Plus? {
      PlusTransparent(hs, limit, e.operand, sc, env, d);
      PlusTransparent(hk, limit, FoldAs(fo, true, e.operand), KScopes(fo, sc), KLocals(fo, env), d);
      FoldRuns(hs, hk, limit, e.operand, sc, env, d, o);
    } else if e.Infix? && e.bop.MatchesOp? {
      MatchesFold(hs, hk, limit, e, sc, env, d, o);
    } else {
      FormSmaller(e);
      FormSmaller(e');
      FormOfFold(fo, true, e);
      FormFoldRuns(hs, hk, limit, FormOf(e), FormOf(e'), sc, env, d, o);
    }
  }

  lemma {:induction false} MatchesFold(hs: Host<Lam>, hk: Host<Lam>, limit: nat, e: Expr, sc: Scopes<Lam>, env: Env,
      d: nat, o: Outcome<Val>)
    requires Natural(K(hs.float), hs, hk) && o == Eval(hs, limit, e, sc, env, d)
    requires e.Infix? && e.bop.MatchesOp?
    ensures Eval(hk, limit, FoldAs(hs.float, true, e), KScopes(hs.float, sc), KLocals(hs.float, env), d) ==
        MapOutcome(K(hs.float), o)
    decreases limit - d, Size(e), 0
  {
    var fo := hs.float;
    var l, r := e.left, PatternOf(e.right);
    var e' := FoldAs(fo, true, e);
    var sc', env' := KScopes(fo, sc), KLocals(fo, env);
    var ol, or := Eval(hs, limit, l, sc, env, d), Eval(hs, limit, r, sc, env, d);
    FoldRuns(hs, hk, limit, l, sc, env, d, ol);
    FoldRuns(hs, hk, limit, r, sc, env, d, or);
    if FoldAs(fo, true, e.right).Const? {
      LiteralValue(fo, true, hs, limit, r, sc, env, d);
      LiteralValue(fo, true, hk, limit, r, sc', env', d);
    }
    assert Eval(hk, limit, PatternOf(e'.right), sc', env', d) == MapOutcome(K(fo), or);
    EvalTwo(hs, limit, l, r, sc, env, d);
    EvalTwo(hk, limit, e'.left, PatternOf(e'.right), sc', env', d);
    MatchesForm(hs, limit, e, sc, env, d);
    MatchesForm(hk, limit, e', sc', env', d);
    if ol.Ok? && or.Ok? {
      OperateNatural(K(fo), hs, hk, Matches, [ol.v, or.v]);
      assert MapSeq(K(fo), [ol.v, or.v]) == [Map(K(fo), ol.v), Map(K(fo), or.v)];
    }
  }

  lemma MatchesForm(h: Host<Lam>, limit: nat, e: Expr, sc: Scopes<Lam>, env: Env, d: nat)
    requires e.Infix? && e.bop.MatchesOp?
    ensures Eval(h, limit, e, sc, env, d) ==
      match EvalOps(h, limit, Two(e.left, PatternOf(e.right)), sc, env, d)
      case Err(err) => Err(err)
      case Ok(vs) => Operate(h, Matches, vs)
  {
    FormSmaller(e);
    assert FormOf(e) == Strict(Matches, Two(e.left, PatternOf(e.right)));
  }

  lemma {:induction false} FormFoldRuns(hs: Host<Lam>, hk: Host<Lam>, limit: nat, f: Form, f': Form, sc: Scopes<Lam>,
      env: Env, d: nat, o: Outcome<Val>)
    requires Natural(K(hs.float), hs, hk) && FormFits(f) && FormFits(f')
    requires f' == FormFold(hs.float, true, f) && o == EvalForm(hs, limit, f, sc, env, d)
    ensures EvalForm(hk, limit, f', KScopes(hs.float, sc), KLocals(hs.float, env), d) == MapOutcome(K(hs.float), o)
    decreases limit - d, FormSize(f), 5
  {
    match f
    case Constant(_) =>
    case Name(x) =>
      LookupMap(K(hs.float), env, x);
      LoadNatural(K(hs.float), hs, hk, n => true, sc, x);
    case Closure(ps, b) => FoldedClosure(hs.float, Lam(ps, b), sc, env);
    case Binding(_, _, _) => BindingFold(hs, hk, limit, f, f', sc, env, d, o);
    case Branch(_, _, _) => BranchFold(hs, hk, limit, f, f', sc, env, d, o);
    case Fallback(_, _) => FallbackFold(hs, hk, limit, f, f', sc, env, d, o);
    case Invoke(ops) =>
      var vs := EvalOps(hs, limit, ops, sc, env, d);
      OpsFoldRun(hs, hk, limit, ops, sc, env, d, vs);
      if vs.Ok? {
        ApplyFold(hs, hk, limit, vs.v[0], vs.v[1..], d);
        assert MapSeq(K(hs.float), vs.v)[1..] == MapSeq(K(hs.float), vs.v[1..]);
      }
    case Strict(op, ops) =>
      var vs := EvalOps(hs, limit, ops, sc, env, d);
      OpsFoldRun(hs, hk, limit, ops, sc, env, d, vs);
      if vs.Ok? { OperateNatural(K(hs.float), hs, hk, op, vs.v); }
  }

  lemma {:induction false} BindingFold(hs: Host<Lam>, hk: Host<Lam>, limit: nat, f: Form, f': Form, sc: Scopes<Lam>,
      env: Env, d: nat, o: Outcome<Val>)
    requires Natural(K(hs.float), hs, hk) && f.Binding?
    requires f' == FormFold(hs.float, true, f) && o == EvalForm(hs, limit, f, sc, env, d)
    ensures EvalForm(hk, limit, f', KScopes(hs.float, sc), KLocals(hs.float, env), d) == MapOutcome(K(hs.float), o)
    decreases limit - d, FormSize(f), 4
  {
    var v := Eval(hs, limit, f.value, sc, env, d);
    FoldRuns(hs, hk, limit, f.value, sc, env, d, v);
    if v.Ok? && d < limit {
      FoldedBind(hs.float, f.x, v.v, env);
      FoldRuns(hs, hk, limit, f.body, sc, Frame(env, [Bind(f.x, v.v)]), d + 1, o);
    }
  }

  lemma {:induction false} BranchFold(hs: Host<Lam>, hk: Host<Lam>, limit: nat, f: Form, f': Form, sc: Scopes<Lam>,
      env: Env, d: nat, o: Outcome<Val>)
    requires Natural(K(hs.float), hs, hk) && f.Branch?
    requires f' == FormFold(hs.float, true, f) && o == EvalForm(hs, limit, f, sc, env, d)
    ensures EvalForm(hk, limit, f', KScopes(hs.float, sc), KLocals(hs.float, env), d) == MapOutcome(K(hs.float), o)
    decreases limit - d, FormSize(f), 4
  {
    var c := Eval(hs, limit, f.cond, sc, env, d);
    FoldRuns(hs, hk, limit, f.cond, sc, env, d, c);
    assert Condition(MapOutcome(K(hs.float), c)) == Condition(c);
    if Condition(c).Ok? {
      if Condition(c).v {
        FoldRuns(hs, hk, limit, f.yes, sc, env, d, o);
      } else {
        FoldRuns(hs, hk, limit, f.no, sc, env, d, o);
      }
    }
  }

  lemma {:induction false} FallbackFold(hs: Host<Lam>, hk: Host<Lam>, limit: nat, f: Form, f': Form, sc: Scopes<Lam>,
      env: Env, d: nat, o: Outcome<Val>)
    requires Natural(K(hs.float), hs, hk) && f.Fallback?
    requires f' == FormFold(hs.float, true, f) && o == EvalForm(hs, limit, f, sc, env, d)
    ensures EvalForm(hk, limit, f', KScopes(hs.float, sc), KLocals(hs.float, env), d) == MapOutcome(K(hs.float), o)
    decreases limit - d, FormSize(f), 4
  {
    if d < limit {
      var l := Eval(hs, limit, f.left, sc, env, d + 1);
      FoldRuns(hs, hk, limit, f.left, sc, env, d + 1, l);
      if l.Err? || IsNil(hs, l.v) { FoldRuns(hs, hk, limit, f.right, sc, env, d, o); }
    }
  }

  lemma {:induction false} ApplyFold(hs: Host<Lam>, hk: Host<Lam>, limit: nat, callee: Val, args: seq<Val>, d: nat)
    requires Natural(K(hs.float), hs, hk)
    ensures Apply(hk, limit, Map(K(hs.float), callee), MapSeq(K(hs.float), args), d) ==
        MapOutcome(K(hs.float), Apply(hs, limit, callee, args, d))
    decreases limit - d, 0, 0
  {
    if !callee.Clo? {
      Answer(K(hs.float), hs, hk, Calling(callee, args));
    } else {
      FoldedClosure(hs.float, callee.fn, callee.scopes, callee.locals);
      if |callee.fn.params| == |args| && d < limit {
        var env := Frame(callee.locals, BindAll(callee.fn.params, args));
        FoldedFrame(hs.float, callee.fn.params, args, callee.locals);
        FoldRuns(hs, hk, limit, callee.fn.body, callee.scopes, env, d + 1,
          Eval(hs, limit, callee.fn.body, callee.scopes, env, d + 1));
      }
    }
  }

  lemma {:induction false} OpsFoldRun(hs: Host<Lam>, hk: Host<Lam>, limit: nat, ops: Operands, sc: Scopes<Lam>,
      env: Env, d: nat, o: Outcome<seq<Val>>)
    requires Natural(K(hs.float), hs, hk) && o == EvalOps(hs, limit, ops, sc, env, d)
    ensures EvalOps(hk, limit, OpsFold(hs.float, true, ops), KScopes(hs.float, sc), KLocals(hs.float, env), d) ==
        MapOutcomes(K(hs.float), o)
    decreases limit - d, OpSize(ops), 3
  {
    ListSize(ops);
    ListSize(OpsFold(hs.float, true, ops));
    OpsFoldList(hs.float, true, ops);
    AllFoldRun(hs, hk, limit, ListOf(ops), sc, env, d, o);
  }

  lemma MapSeqCons(m: Mapper<Lam, Lam>, v: Val, vs: seq<Val>)
    ensures MapSeq(m, [v] + vs) == [Map(m, v)] + MapSeq(m, vs)
  {
  }

  lemma {:induction false} AllFoldRun(hs: Host<Lam>, hk: Host<Lam>, limit: nat, es: seq<Expr>, sc: Scopes<Lam>,
      env: Env, d: nat, o: Outcome<seq<Val>>)
    requires Natural(K(hs.float), hs, hk) && o == EvalAll(hs, limit, es, sc, env, d)
    ensures EvalAll(hk, limit, FoldAll(hs.float, true, es), KScopes(hs.float, sc), KLocals(hs.float, env), d) ==
        MapOutcomes(K(hs.float), o)
    decreases limit - d, SizeAll(es), 2
  {
    if es == [] {
      assert FoldAll(hs.float, true, es) == [] && MapSeq(K(hs.float), []) == [];
    } else {
      var v := Eval(hs, limit, es[0], sc, env, d);
      var es' := FoldAll(hs.float, true, es);
      FoldRuns(hs, hk, limit, es[0], sc, env, d, v);
      assert es'[0] == FoldAs(hs.float, true, es[0]) && es'[1..] == FoldAll(hs.float, true, es[1..]);
      if v.Ok? {
        var vs := EvalAll(hs, limit, es[1..], sc, env, d);
        AllFoldRun(hs, hk, limit, es[1..], sc, env, d, vs);
        if vs.Ok? { MapSeqCons(K(hs.float), v.v, vs.v); }
      }
    }
  }

  /** The pass itself preserves meaning on every settled expression. */
  lemma FoldingPreservesMeaning(hs: Host<Lam>, hk: Host<Lam>, limit: nat, e: Expr, sc: Scopes<Lam>, env: Env, d: nat)
    requires Natural(K(hs.float), hs, hk) && Settled(hs.float, e)
    ensures Eval(hk, limit, FoldConstants(hs.float, e), KScopes(hs.float, sc), KLocals(hs.float, env), d) ==
      MapOutcome(K(hs.float), Eval(hs, limit, e, sc, env, d))
  {
    SettledSame(hs.float, e);
    FoldRuns(hs, hk, limit, e, sc, env, d, Eval(hs, limit, e, sc, env, d));
  }

  /** When the right operand of a `matches` becomes a literal only by folding, the outcome of the two
      trees differs unless the literal is not a string or the left operand fails first. */
  lemma LatePatternOutcome(hs: Host<Lam>, hk: Host<Lam>, limit: nat, l: Expr, r: Expr, sc: Scopes<Lam>, env: Env,
      d: nat)
    requires Natural(K(hs.float), hs, hk) && Settled(hs.float, l)
    requires !r.Const? && FoldConstants(hs.float, r).Const?
    ensures
      var e := Infix(MatchesOp, l, r);
      var folded := Eval(hk, limit, FoldConstants(hs.float, e), KScopes(hs.float, sc), KLocals(hs.float, env), d);
      folded == MapOutcome(K(hs.float), Eval(hs, limit, e, sc, env, d)) <==>
        !FoldConstants(hs.float, r).c.CStr? || Eval(hs, limit, l, sc, env, d).Err?
  {
    var fo := hs.float;
    var e := Infix(MatchesOp, l, r);
    var sc', env' := KScopes(fo, sc), KLocals(fo, env);
    var e' := FoldConstants(fo, e);
    LiteralNeverRegex(fo, r);
    FoldingPreservesMeaning(hs, hk, limit, l, sc, env, d);
    LiteralValue(fo, false, hs, limit, r, sc, env, d);
    EvalTwo(hs, limit, l, PatternOf(r), sc, env, d);
    MatchesForm(hs, limit, e, sc, env, d);
    ConstantValue(hk, limit, PatternOf(e'.right).c, sc', env', d);
    EvalTwo(hk, limit, e'.left, PatternOf(e'.right), sc', env', d);
    MatchesForm(hk, limit, e', sc', env', d);
  }

  lemma ConstantValue(h: Host<Lam>, limit: nat, c: Values.Const, sc: Scopes<Lam>, env: Env, d: nat)
    ensures Eval(h, limit, Const(c), sc, env, d) == Ok(Lit(c))
  {
    FormSmaller(Const(c));
  }

  lemma {:induction false} LiteralNeverRegex(fo: FloatOps, e: Expr)
    requires !e.Const? && FoldConstants(fo, e).Const?
    ensures !FoldConstants(fo, e).c.CRegex?
  {
  }

  /** "abc" matches ("a" + "b") fails on every Machine; folded, it is a match against the regex ab. */
  lemma LatePatternExample(hs: Host<Lam>, hk: Host<Lam>, limit: nat)
    requires Natural(K(hs.float), hs, hk)
    ensures
      var e := Infix(MatchesOp, Const(CStr("abc")), Infix(Arith(Add), Const(CStr("a")), Const(CStr("b"))));
      && !Settled(hs.float, e)
      && Eval(hs, limit, e, NoScope, Root, 0) == Err(NotRegex)
      && Eval(hk, limit, FoldConstants(hs.float, e), NoScope, Root, 0) == Ok(Truth(hs.regexMatch("ab", "abc")))
  {
    var l, r := Const(CStr("abc")), Infix(Arith(Add), Const(CStr("a")), Const(CStr("b")));
    var e := Infix(MatchesOp, l, r);
    assert "a" + "b" == "ab";
    assert FoldConstants(hs.float, r.left) == r.left && FoldConstants(hs.float, r.right) == r.right;
    assert FoldConstants(hs.float, r) == Const(CStr("ab"));
    LiteralValue(hs.float, false, hs, limit, r, NoScope, Root, 0);
    ConstantValue(hs, limit, CStr("abc"), NoScope, Root, 0);
    ConstantValue(hk, limit, CStr("abc"), NoScope, Root, 0);
    ConstantValue(hk, limit, CRegex("ab"), NoScope, Root, 0);
    EvalTwo(hs, limit, l, r, NoScope, Root, 0);
    EvalTwo(hk, limit, l, Const(CRegex("ab")), NoScope, Root, 0);
    assert FoldConstants(hs.float, l) == l;
    assert FoldConstants(hs.float, e) == Infix(MatchesOp, l, Const(CStr("ab")));
    MatchesForm(hs, limit, e, NoScope, Root, 0);
    MatchesForm(hk, limit, Infix(MatchesOp, l, Const(CStr("ab"))), NoScope, Root, 0);
  }

  /** A folded program is its own folding, so closures that come from compiled programs are not
      changed by folding them again. */
  lemma {:induction false} FoldTwice(fo: FloatOps, keep: bool, e: Expr)
    ensures FoldAs(fo, keep, FoldAs(fo, keep, e)) == FoldAs(fo, keep, e)
  {
    match e
    case Const(_) | Var(_) =>
    case Unary(_, a) => FoldTwice(fo, keep, a);
    case Infix(op, l, r) => FoldTwice(fo, keep, l); FoldTwice(fo, keep, r);
    case Member(t, _, _) => FoldTwice(fo, keep, t);
    case IndexE(t, i, _) => FoldTwice(fo, keep, t); FoldTwice(fo, keep, i);
    case SliceE(t, lo, hi) => FoldTwice(fo, keep, t); FoldTwiceOption(fo, keep, lo); FoldTwiceOption(fo, keep, hi);
    case ListE(es) => FoldTwiceAll(fo, keep, es);
    case MapE(es) => FoldTwiceEntries(fo, keep, es);
    case Lambda(_, b) => FoldTwice(fo, keep, b);
    case Let(_, v, b) => FoldTwice(fo, keep, v); FoldTwice(fo, keep, b);
    case Conditional(c, t, f) => FoldTwice(fo, keep, c); FoldTwice(fo, keep, t); FoldTwiceOption(fo, keep, f);
    case Call(f, args) => FoldTwice(fo, keep, f); FoldTwiceAll(fo, keep, args);
  }

  lemma {:induction false} FoldTwiceOption(fo: FloatOps, keep: bool, o: Option<Expr>)
    ensures FoldOption(fo, keep, FoldOption(fo, keep, o)) == FoldOption(fo, keep, o)
  {
    if o.Some? { FoldTwice(fo, keep, o.value); }
  }

  lemma {:induction false} FoldTwiceAll(fo: FloatOps, keep: bool, es: seq<Expr>)
    ensures FoldAll(fo, keep, FoldAll(fo, keep, es)) == FoldAll(fo, keep, es)
  {
    forall i | 0 <= i < |es| ensures FoldAll(fo, keep, FoldAll(fo, keep, es))[i] == FoldAll(fo, keep, es)[i] {
      FoldTwice(fo, keep, es[i]);
    }
  }

  lemma {:induction false} FoldTwiceEntries(fo: FloatOps, keep: bool, es: seq<Entry>)
    ensures FoldEntries(fo, keep, FoldEntries(fo, keep, es)) == FoldEntries(fo, keep, es)
  {
    forall i | 0 <= i < |es| ensures FoldEntries(fo, keep, FoldEntries(fo, keep, es))[i] ==
      FoldEntries(fo, keep, es)[i] {
      FoldTwice(fo, keep, es[i].value);
    }
  }

  // ----- Folding and compile-time failures -----

  lemma {:induction false} LiteralNoProblem(fo: FloatOps, keep: bool, valid: string -> bool, e: Expr)
    requires FoldAs(fo, keep, e).Const? && !FoldAs(fo, keep, e).c.CRegex?
    ensures Problem(valid, e) == None
  {
    FormSmaller(e);
    match e
    case Const(_) =>
    case Unary(_, a) => LiteralNoProblem(fo, keep, valid, a);
    case Infix(op, l, r) =>
      LiteralNoProblem(fo, keep, valid, l);
      LiteralNoProblem(fo, keep, valid, r);
      TwoProblems(valid, l, r);
      assert ProblemForm(valid, FormOf(e)) == ProblemOp(valid, Two(l, r));
  }

  /** Folding neither causes nor hides a compile-time failure in a settled expression. */
  lemma FoldKeepsProblems(fo: FloatOps, valid: string -> bool, e: Expr)
    requires Settled(fo, e)
    ensures Problem(valid, FoldConstants(fo, e)) == Problem(valid, e)
  {
    SettledSame(fo, e);
    FoldProblem(fo, valid, e);
  }

  lemma {:induction false} FoldProblem(fo: FloatOps, valid: string -> bool, e: Expr)
    ensures Problem(valid, FoldAs(fo, true, e)) == Problem(valid, e)
    decreases Size(e), 1
  {
    var e' := FoldAs(fo, true, e);
    FormSmaller(e);
    FormSmaller(e');
    if e.Const? {
    } else if e'.Const? {
      LiteralNoProblem(fo, true, valid, e);
    } else if e.Unary? {
      FoldProblem(fo, valid, e.operand);
    } else if e.Infix? && e.bop.MatchesOp? {
      FoldProblem(fo, valid, e.left);
      FoldProblem(fo, valid, PatternOf(e.right));
      MatchesNode(valid, e.left, e.right, [], 0);
      MatchesNode(valid, e'.left, e'.right, [], 0);
      TwoProblems(valid, e.left, PatternOf(e.right));
      TwoProblems(valid, e'.left, PatternOf(e'.right));
    } else {
      FormOfFold(fo, true, e);
      FoldFormProblem(fo, valid, FormOf(e));
    }
  }

  lemma {:induction false} FoldFormProblem(fo: FloatOps, valid: string -> bool, f: Form)
    ensures ProblemForm(valid, FormFold(fo, true, f)) == ProblemForm(valid, f)
    decreases FormSize(f), 4
  {
    match f
    case Constant(_) | Name(_) =>
    case Closure(_, b) => FoldProblem(fo, valid, b);
    case Binding(_, v, b) => FoldOpProblem(fo, valid, Two(v, b));
    case Branch(c, y, n) => FoldOpProblem(fo, valid, Three(c, y, n));
    case Fallback(l, r) => FoldOpProblem(fo, valid, Two(l, r));
    case Invoke(o) => FoldOpProblem(fo, valid, o);
    case Strict(_, o) => FoldOpProblem(fo, valid, o);
  }

  lemma {:induction false} FoldOpProblem(fo: FloatOps, valid: string -> bool, o: Operands)
    ensures ProblemOp(valid, OpsFold(fo, true, o)) == ProblemOp(valid, o)
    decreases OpSize(o), 3
  {
    ListSize(o);
    OpsFoldList(fo, true, o);
    FoldAllProblems(fo, valid, ListOf(o));
  }

  lemma {:induction false} FoldAllProblems(fo: FloatOps, valid: string -> bool, es: seq<Expr>)
    ensures Problems(valid, FoldAll(fo, true, es)) == Problems(valid, es)
    decreases SizeAll(es), 2
  {
    if es != [] {
      FoldProblem(fo, valid, es[0]);
      FoldAllProblems(fo, valid, es[1..]);
      assert FoldAll(fo, true, es)[1..] == FoldAll(fo, true, es[1..]);
    }
  }

  /** Both at once: what becomes of an expression that is compiled and then evaluated. */
  datatype Fate = Rejected(problem: CompileError) | Evaluated(o: Outcome<Val>)

  function FateOf(valid: string -> bool, h: Host<Lam>, limit: nat, e: Expr, sc: Scopes<Lam>, env: Env, d: nat): Fate {
    match Problem(valid, e)
    case Some(p) => Rejected(p)
    case None => Evaluated(Eval(h, limit, e, sc, env, d))
  }

  /** What the compiler has against a literal, other than a regex, right of `matches`. */
  function PatternProblem(valid: string -> bool, c: Values.Const): Option<CompileError> {
    if !c.CStr? then Some(BadPattern) else if !valid(c.s) then Some(BadRegex(c.s)) else None
  }

  function FoldedFate(fo: FloatOps, f: Fate): Fate {
    match f
    case Rejected(p) => Rejected(p)
    case Evaluated(o) => Evaluated(MapOutcome(K(fo), o))
  }

  lemma {:induction false} LateProblems(fo: FloatOps, valid: string -> bool, l: Expr, r: Expr)
    requires !r.Const? && FoldConstants(fo, r).Const? && Settled(fo, l)
    ensures Problem(valid, Infix(MatchesOp, l, r)) == Problem(valid, l)
    ensures
      var own := PatternProblem(valid, FoldConstants(fo, r).c);
      Problem(valid, FoldConstants(fo, Infix(MatchesOp, l, r))) == if own.Some? then own else Problem(valid, l)
  {
    var l', c := FoldConstants(fo, l), FoldConstants(fo, r).c;
    LiteralNeverRegex(fo, r);
    LiteralNoProblem(fo, false, valid, r);
    FoldKeepsProblems(fo, valid, l);
    MatchesNode(valid, l, r, [], 0);
    MatchesNode(valid, l', Const(c), [], 0);
    TwoProblems(valid, l, r);
    TwoProblems(valid, l', PatternOf(Const(c)));
  }

  /** Where folding does matter, exactly: a right operand of `matches` that becomes a literal only by
      folding leaves the fate of the expression as it was if and only if that literal is a valid
      pattern and the left operand fails, when compiled or when run; or if both are rejected alike. */
  lemma LatePatternChangesMeaning(valid: string -> bool, hs: Host<Lam>, hk: Host<Lam>, limit: nat, l: Expr, r: Expr,
      sc: Scopes<Lam>, env: Env, d: nat)
    requires Natural(K(hs.float), hs, hk) && Settled(hs.float, l)
    requires !r.Const? && FoldConstants(hs.float, r).Const?
    ensures
      var e, own := Infix(MatchesOp, l, r), PatternProblem(valid, FoldConstants(hs.float, r).c);
      FateOf(valid, hk, limit, FoldConstants(hs.float, e), KScopes(hs.float, sc), KLocals(hs.float, env), d) ==
        FoldedFate(hs.float, FateOf(valid, hs, limit, e, sc, env, d)) <==>
        if Problem(valid, l).Some? then own.None? || own == Problem(valid, l)
        else own.None? && Eval(hs, limit, l, sc, env, d).Err?
  {
    LateProblems(hs.float, valid, l, r);
    LatePatternOutcome(hs, hk, limit, l, r, sc, env, d);
  }

  // ----- Exactly when a folded program is accepted -----

  /** Every right operand of `matches` that becomes a literal only by folding becomes a valid pattern. */
  predicate LatePatternsValid(fo: FloatOps, valid: string -> bool, e: Expr)
    decreases Size(e), 1
  {
    if e.Unary? then LatePatternsValid(fo, valid, e.operand)
    else
      FormSmaller(e);
      && (e.Infix? && e.bop.MatchesOp? && IsLate(fo, e.right) ==>
        PatternProblem(valid, FoldConstants(fo, e.right).c).None?)
      && LateForm(fo, valid, FormOf(e))
  }

  predicate IsLate(fo: FloatOps, r: Expr) { !r.Const? && FoldConstants(fo, r).Const? }

  predicate LateForm(fo: FloatOps, valid: string -> bool, f: Form)
    decreases FormSize(f), 4
  {
    match f
    case Constant(_) | Name(_) => true
    case Closure(_, b) => LatePatternsValid(fo, valid, b)
    case Binding(_, v, b) => LateOps(fo, valid, Two(v, b))
    case Branch(c, y, n) => LateOps(fo, valid, Three(c, y, n))
    case Fallback(l, r) => LateOps(fo, valid, Two(l, r))
    case Invoke(o) => LateOps(fo, valid, o)
    case Strict(_, o) => LateOps(fo, valid, o)
  }

  predicate LateOps(fo: FloatOps, valid: string -> bool, o: Operands)
    decreases OpSize(o), 3
  {
    ListSize(o);
    LateAll(fo, valid, ListOf(o))
  }

  predicate LateAll(fo: FloatOps, valid: string -> bool, es: seq<Expr>)
    decreases SizeAll(es), 2
  {
    es == [] || (LatePatternsValid(fo, valid, es[0]) && LateAll(fo, valid, es[1..]))
  }

  predicate Accepted(valid: string -> bool, e: Expr) { Problem(valid, e).None? }

  lemma TwoLate(fo: FloatOps, valid: string -> bool, a: Expr, b: Expr)
    ensures LateOps(fo, valid, Two(a, b)) <==> LatePatternsValid(fo, valid, a) && LatePatternsValid(fo, valid, b)
  {
    assert [a, b][1..] == [b] && [b][1..] == [];
    assert LateAll(fo, valid, [b]) == LatePatternsValid(fo, valid, b);
  }

  /** What folds to a literal has no patterns in it at all. */
  lemma {:induction false} LiteralNoPatterns(fo: FloatOps, valid: string -> bool, e: Expr)
    requires FoldConstants(fo, e).Const?
    ensures LatePatternsValid(fo, valid, e)
  {
    FormSmaller(e);
    match e
    case Const(_) =>
    case Unary(_, a) => LiteralNoPatterns(fo, valid, a);
    case Infix(op, l, r) =>
      LiteralNoPatterns(fo, valid, l);
      LiteralNoPatterns(fo, valid, r);
      TwoLate(fo, valid, l, r);
      assert LateForm(fo, valid, FormOf(e)) == LateOps(fo, valid, Two(l, r));
  }

  /** The compiler accepts a folded expression exactly when it accepts it unfolded and folding makes
      no literal right of `matches` that is not a valid pattern. */
  lemma {:induction false} FoldAccepted(fo: FloatOps, valid: string -> bool, e: Expr)
    ensures Accepted(valid, FoldConstants(fo, e)) <==> Accepted(valid, e) && LatePatternsValid(fo, valid, e)
    decreases Size(e), 1
  {
    var e' := FoldConstants(fo, e);
    FormSmaller(e);
    FormSmaller(e');
    if e.Const? {
    } else if e'.Const? {
      LiteralNeverRegex(fo, e);
      LiteralNoProblem(fo, false, valid, e);
      LiteralNoPatterns(fo, valid, e);
      assert Problem(valid, e') == ProblemForm(valid, Constant(e'.c));
    } else if e.Unary? {
      FoldAccepted(fo, valid, e.operand);
    } else if e.Infix? && e.bop.MatchesOp? {
      FoldMatchesAccepted(fo, valid, e.left, e.right);
    } else {
      FormOfFold(fo, false, e);
      FoldFormAccepted(fo, valid, FormOf(e));
    }
  }

  lemma {:induction false} FoldMatchesAccepted(fo: FloatOps, valid: string -> bool, l: Expr, r: Expr)
    ensures
      var e := Infix(MatchesOp, l, r);
      Accepted(valid, FoldConstants(fo, e)) <==> Accepted(valid, e) && LatePatternsValid(fo, valid, e)
    decreases Size(l) + Size(r), 4
  {
    var e, l', r' := Infix(MatchesOp, l, r), FoldConstants(fo, l), FoldConstants(fo, r);
    FoldAccepted(fo, valid, l);
    FoldAccepted(fo, valid, r);
    FoldAccepted(fo, valid, PatternOf(r));
    MatchesNode(valid, l, r, [], 0);
    MatchesNode(valid, l', r', [], 0);
    TwoProblems(valid, l, PatternOf(r));
    TwoProblems(valid, l', PatternOf(r'));
    TwoLate(fo, valid, l, PatternOf(r));
    assert LateForm(fo, valid, FormOf(e)) == LateOps(fo, valid, Two(l, PatternOf(r)));
    if IsLate(fo, r) {
      LiteralNeverRegex(fo, r);
      LiteralNoProblem(fo, false, valid, r);
      LiteralNoPatterns(fo, valid, r);
      ConstantProblem(valid, PatternOf(r').c);
    } else if !r.Const? {
      assert NeverPattern(r') == NeverPattern(r);
    }
  }

  lemma ConstantProblem(valid: string -> bool, c: Values.Const)
    ensures Problem(valid, Const(c)) == if c.CRegex? && !valid(c.pattern) then Some(BadRegex(c.pattern)) else None
  {
    FormSmaller(Const(c));
    assert ProblemForm(valid, Constant(c)) == Problem(valid, Const(c));
  }

  lemma {:induction false} FoldFormAccepted(fo: FloatOps, valid: string -> bool, f: Form)
    ensures ProblemForm(valid, FormFold(fo, false, f)).None? <==> ProblemForm(valid, f).None? && LateForm(fo, valid, f)
    decreases FormSize(f), 4
  {
    match f
    case Constant(_) | Name(_) =>
    case Closure(_, b) => FoldAccepted(fo, valid, b);
    case Binding(_, v, b) => FoldOpsAccepted(fo, valid, Two(v, b));
    case Branch(c, y, n) => FoldOpsAccepted(fo, valid, Three(c, y, n));
    case Fallback(l, r) => FoldOpsAccepted(fo, valid, Two(l, r));
    case Invoke(o) => FoldOpsAccepted(fo, valid, o);
    case Strict(_, o) => FoldOpsAccepted(fo, valid, o);
  }

  lemma {:induction false} FoldOpsAccepted(fo: FloatOps, valid: string -> bool, o: Operands)
    ensures ProblemOp(valid, OpsFold(fo, false, o)).None? <==> ProblemOp(valid, o).None? && LateOps(fo, valid, o)
    decreases OpSize(o), 3
  {
    ListSize(o);
    OpsFoldList(fo, false, o);
    FoldAllAccepted(fo, valid, ListOf(o));
  }

  lemma {:induction false} FoldAllAccepted(fo: FloatOps, valid: string -> bool, es: seq<Expr>)
    ensures Problems(valid, FoldAll(fo, false, es)).None? <==> Problems(valid, es).None? && LateAll(fo, valid, es)
    decreases SizeAll(es), 2
  {
    if es != [] {
      FoldAccepted(fo, valid, es[0]);
      FoldAllAccepted(fo, valid, es[1..]);
      assert FoldAll(fo, false, es)[1..] == FoldAll(fo, false, es[1..]);
    }
  }

  function LateRejected(op: Expr): Expr { Infix(Coalesce, Infix(MatchesOp, Const(CStr("abc")), op), Const(CInt(5))) }

  /** ("abc" matches (1 + 2)) ?? 5 compiles and gives 5 as written; folded, it is rejected. */
  lemma LateRejectionExample(valid: string -> bool, hs: Host<Lam>, limit: nat)
    requires limit > 0
    ensures
      var sum := Infix(Arith(Add), Const(CInt(1)), Const(CInt(2)));
      && FateOf(valid, hs, limit, LateRejected(sum), NoScope, Root, 0) == Evaluated(Ok(Lit(CInt(5))))
      && FoldConstants(hs.float, LateRejected(sum)) == LateRejected(Const(CInt(3)))
      && Problem(valid, LateRejected(Const(CInt(3)))) == Some(BadPattern)
  {
    var l, sum, five := Const(CStr("abc")), Infix(Arith(Add), Const(CInt(1)), Const(CInt(2))), Const(CInt(5));
    var fo := hs.float;
    assert FoldConstants(fo, sum.left) == sum.left && FoldConstants(fo, sum.right) == sum.right;
    assert FoldConstants(fo, sum) == Const(CInt(3));
    assert FoldConstants(fo, l) == l && FoldConstants(fo, five) == five;
    assert FoldConstants(fo, Infix(MatchesOp, l, sum)) == Infix(MatchesOp, l, Const(CInt(3)));
    LateProblems(fo, valid, l, sum);
    ConstantProblem(valid, l.c);
    ConstantProblem(valid, five.c);
    CoalesceProblem(valid, Infix(MatchesOp, l, sum), five);
    CoalesceProblem(valid, Infix(MatchesOp, l, Const(CInt(3))), five);
    LateRejectedValue(hs, limit, sum);
  }

  lemma LateRejectedValue(hs: Host<Lam>, limit: nat, sum: Expr)
    requires limit > 0 && !sum.Const? && FoldConstants(hs.float, sum) == Const(CInt(3))
    ensures Eval(hs, limit, LateRejected(sum), NoScope, Root, 0) == Ok(Lit(CInt(5)))
  {
    var l := Const(CStr("abc"));
    LiteralValue(hs.float, false, hs, limit, sum, NoScope, Root, 1);
    ConstantValue(hs, limit, CStr("abc"), NoScope, Root, 1);
    ConstantValue(hs, limit, CInt(5), NoScope, Root, 0);
    EvalTwo(hs, limit, l, sum, NoScope, Root, 1);
    MatchesForm(hs, limit, Infix(MatchesOp, l, sum), NoScope, Root, 1);
    FormSmaller(LateRejected(sum));
  }

  lemma CoalesceProblem(valid: string -> bool, l: Expr, r: Expr)
    ensures Problem(valid, Infix(Coalesce, l, r)) ==
        if Problem(valid, l).Some? then Problem(valid, l) else Problem(valid, r)
  {
    TwoProblems(valid, l, r);
    FormSmaller(Infix(Coalesce, l, r));
    assert ProblemForm(valid, FormOf(Infix(Coalesce, l, r))) == ProblemOp(valid, Two(l, r));
  }

  // ----- The whole pipeline -----

  /** What a run of the compiled, folded program returns is what the expression as written means:
      on every Machine, in every environment, at every depth. */
  lemma FoldedProgramRuns(hs: Host<Lam>, hk: Host<Lam>, m: Config, e: Expr, sc: Scopes<Lam>, stack: seq<V>,
      frames: seq<Activation>)
    returns (n: nat)
    requires Natural(K(hs.float), hs, hk) && Natural(T(), hk, m.host) && Settled(hs.float, e)
    ensures n > 0
    ensures Iter(m, |frames|, n, Start(Code(FoldConstants(hs.float, e), [], 0), TScopes(KScopes(hs.float, sc)),
        Bottom, stack, frames)) ==
      Finish(stack, frames, MapOutcome(K(hs.float), Eval(hs, m.limit, e, sc, Root, |frames|)))
  {
    FoldingPreservesMeaning(hs, hk, m.limit, e, sc, Root, |frames|);
    n := ProgramRuns(hk, m, FoldConstants(hs.float, e), KScopes(hs.float, sc), stack, frames);
  }
}
