// What each construct of the language evaluates to, told construct by construct on the values of
// its parts: names, bindings, calls, conditions, nil, members, indexes, slices, lists and maps.

module Laws {
  import opened Int64
  import opened Values
  import opened Syntax
  import opened Semantics
  import Fold

  /** Where an expression is evaluated: the Machine, the scopes, the bindings, the suspended activations. */
  datatype Setting = Setting(h: Host<Lam>, limit: nat, sc: Scopes<Lam>, env: Env, d: nat)

  function Result(s: Setting, e: Expr): Outcome<Val> { Eval(s.h, s.limit, e, s.sc, s.env, s.d) }

  /** Nil, or a host value that is a typed nil. */
  predicate Nothing(s: Setting, v: Val) {
    v == Lit(CNil) || (v.HostV? && s.h.isNil(v.id))
  }

  predicate Gives(s: Setting, e: Expr, v: Val) { Result(s, e) == Ok(v) }

  predicate Fails(s: Setting, e: Expr, err: Error) { Result(s, e) == Err(err) }

  /** e asks the Machine's surroundings the question q and gives the answer. */
  predicate Asks(s: Setting, e: Expr, q: Question<Lam>) { Result(s, e) == s.h.ask(q) }

  function Int(i: int64): Val { Lit(CInt(i)) }

  function Text(t: string): Val { Lit(CStr(t)) }

  /** An expression is evaluated by its form. */
  lemma Opened(s: Setting, e: Expr)
    ensures FormFits(FormOf(e)) && Result(s, e) == EvalForm(s.h, s.limit, FormOf(e), s.sc, s.env, s.d)
  {
    FormSmaller(e);
  }

  function Results(s: Setting, es: seq<Expr>): Outcome<seq<Val>> { EvalAll(s.h, s.limit, es, s.sc, s.env, s.d) }

  /** Operands are evaluated from left to right, up to the first that fails. */
  lemma ResultsCons(s: Setting, e: Expr, rest: seq<Expr>)
    ensures Results(s, []) == Ok([])
    ensures Result(s, e).Err? ==> Results(s, [e] + rest) == Err(Result(s, e).e)
    ensures Result(s, e).Ok? && Results(s, rest).Err? ==> Results(s, [e] + rest) == Err(Results(s, rest).e)
    ensures Result(s, e).Ok? && Results(s, rest).Ok? ==>
        Results(s, [e] + rest) == Ok([Result(s, e).v] + Results(s, rest).v)
  {
    assert ([e] + rest)[1..] == rest;
  }

  lemma StrictForm(s: Setting, e: Expr)
    requires FormOf(e).Strict?
    ensures OpCount(FormOf(e).operands) == Arity(FormOf(e).op)
    ensures Result(s, e) == (match Results(s, ListOf(FormOf(e).operands))
                             case Err(err) => Err(err)
                             case Ok(vs) => Operate(s.h, FormOf(e).op, vs))
  {
    Opened(s, e);
    ListSize(FormOf(e).operands);
  }

  // ----- Operands -----

  lemma StrictOne(s: Setting, e: Expr, op: Operator, a: Expr)
    requires FormOf(e) == Strict(op, One(a)) && Arity(op) == 1
    ensures Result(s, a).Err? ==> Fails(s, e, Result(s, a).e)
    ensures Result(s, a).Ok? ==> Result(s, e) == Operate(s.h, op, [Result(s, a).v])
  {
    Opened(s, e);
    Fold.EvalOne(s.h, s.limit, a, s.sc, s.env, s.d);
  }

  lemma StrictTwo(s: Setting, e: Expr, op: Operator, a: Expr, b: Expr)
    requires FormOf(e) == Strict(op, Two(a, b)) && Arity(op) == 2
    ensures Result(s, a).Err? ==> Fails(s, e, Result(s, a).e)
    ensures Result(s, a).Ok? && Result(s, b).Err? ==> Fails(s, e, Result(s, b).e)
    ensures Result(s, a).Ok? && Result(s, b).Ok? ==>
      Result(s, e) == Operate(s.h, op, [Result(s, a).v, Result(s, b).v])
  {
    Opened(s, e);
    Fold.EvalTwo(s.h, s.limit, a, b, s.sc, s.env, s.d);
  }

  lemma StrictThree(s: Setting, e: Expr, op: Operator, a: Expr, b: Expr, c: Expr)
    requires FormOf(e) == Strict(op, Three(a, b, c)) && Arity(op) == 3
    ensures Result(s, a).Err? ==> Fails(s, e, Result(s, a).e)
    ensures Result(s, a).Ok? && Result(s, b).Err? ==> Fails(s, e, Result(s, b).e)
    ensures Result(s, a).Ok? && Result(s, b).Ok? && Result(s, c).Err? ==> Fails(s, e, Result(s, c).e)
    ensures Result(s, a).Ok? && Result(s, b).Ok? && Result(s, c).Ok? ==>
      Result(s, e) == Operate(s.h, op, [Result(s, a).v, Result(s, b).v, Result(s, c).v])
  {
    StrictForm(s, e);
    ResultsCons(s, a, [b] + [c]);
    ResultsCons(s, b, [c]);
    ResultsCons(s, c, []);
    assert [a, b, c] == [a] + ([b] + [c]) && [c] == [c] + [];
    var x, y, z := Result(s, a), Result(s, b), Result(s, c);
    if x.Ok? && y.Ok? && z.Ok? { assert [x.v] + ([y.v] + ([z.v] + [])) == [x.v, y.v, z.v]; }
  }

  /** Every one of these evaluates. */
  predicate AllGive(s: Setting, es: seq<Expr>, vs: seq<Val>) {
    |es| == |vs| && forall i :: 0 <= i < |es| ==> Gives(s, es[i], vs[i])
  }

  lemma {:induction false} EvalsAll(s: Setting, es: seq<Expr>, vs: seq<Val>)
    requires AllGive(s, es, vs)
    ensures Results(s, es) == Ok(vs)
  {
    if es != [] {
      assert Gives(s, es[0], vs[0]);
      forall i | 0 <= i < |es| - 1 ensures Gives(s, es[1..][i], vs[1..][i]) {
        assert Gives(s, es[i + 1], vs[i + 1]);
      }
      EvalsAll(s, es[1..], vs[1..]);
      ResultsCons(s, es[0], es[1..]);
      assert es == [es[0]] + es[1..] && vs == [vs[0]] + vs[1..];
    }
  }

  /** The k-th is the first of these that fails. */
  predicate FailsFirst(s: Setting, es: seq<Expr>, k: nat, err: Error) {
    k < |es| && Fails(s, es[k], err) && forall i :: 0 <= i < k ==> Result(s, es[i]).Ok?
  }

  lemma {:induction false} EvalsUpTo(s: Setting, es: seq<Expr>, k: nat, err: Error)
    requires FailsFirst(s, es, k, err)
    ensures Results(s, es) == Err(err)
  {
    ResultsCons(s, es[0], es[1..]);
    assert es == [es[0]] + es[1..];
    if k > 0 {
      assert Result(s, es[0]).Ok?;
      forall i | 0 <= i < k - 1 ensures Result(s, es[1..][i]).Ok? {
        assert Result(s, es[i + 1]).Ok?;
      }
      assert FailsFirst(s, es[1..], k - 1, err);
      EvalsUpTo(s, es[1..], k - 1, err);
    }
  }

  // ----- Literals and names -----

  /** A literal is its value, and a lambda remembers where it was written. */
  lemma LiteralLaw(s: Setting, c: Values.Const, ps: seq<string>, b: Expr)
    ensures Gives(s, Const(c), Lit(c))
    ensures Gives(s, Lambda(ps, b), Clo(Lam(ps, b), s.sc, s.env))
  {
    Opened(s, Const(c));
    Opened(s, Lambda(ps, b));
  }

  lemma NameValue(s: Setting, x: string)
    ensures Result(s, Var(x)) ==
      (match Lookup(s.env, x) case Some(v) => Ok(v) case None => LoadName(s.h, s.sc, x))
  {
    Opened(s, Var(x));
  }

  /** The last binding of the innermost frame is seen first, then those before it, then the frames around. */
  lemma BoundName(s: Setting, x: string, env: Env, binds: seq<Bind<Lam>>, y: string, v: Val)
    requires s.env == Frame(env, binds + [Bind(y, v)])
    ensures x == y ==> Gives(s, Var(x), v)
    ensures x != y ==> Result(s, Var(x)) == Result(s.(env := Frame(env, binds)), Var(x))
    ensures Result(s.(env := Frame(env, [])), Var(x)) == Result(s.(env := env), Var(x))
  {
    var all := binds + [Bind(y, v)];
    assert all[..|all| - 1] == binds;
    NameValue(s, x);
    NameValue(s.(env := Frame(env, binds)), x);
    NameValue(s.(env := Frame(env, [])), x);
    NameValue(s.(env := env), x);
  }

  /** A name bound nowhere is looked up in the caller's scopes, innermost first, and then outside. */
  lemma FreeName(s: Setting, x: string, m: map<string, Val>, outer: Scopes<Lam>)
    requires s.env == Root
    ensures s.sc == Layer(m, outer) && x in m ==> Gives(s, Var(x), m[x])
    ensures s.sc == Layer(m, outer) && x !in m ==> Result(s, Var(x)) == Result(s.(sc := outer), Var(x))
    ensures s.sc == NoScope ==> Asks(s, Var(x), Global(x))
  {
    NameValue(s, x);
    NameValue(s.(sc := outer), x);
  }

  // ----- let -----

  function Inside(s: Setting, binds: seq<Bind<Lam>>): Setting {
    s.(env := Frame(s.env, binds), d := s.d + 1)
  }

  /** The value comes first; then the body sees it under its name, one activation further in. */
  lemma LetLaw(s: Setting, x: string, v: Expr, b: Expr)
    ensures Result(s, v).Err? ==> Fails(s, Let(x, v, b), Result(s, v).e)
    ensures Result(s, v).Ok? && s.d >= s.limit ==> Fails(s, Let(x, v, b), DepthExceeded)
    ensures Result(s, v).Ok? && s.d < s.limit ==>
      Result(s, Let(x, v, b)) == Result(Inside(s, [Bind(x, Result(s, v).v)]), b)
  {
    Opened(s, Let(x, v, b));
  }

  /** `let x = v; x` is v, and every other name means what it meant outside. */
  lemma LetNames(s: Setting, x: string, v: Expr, y: string)
    requires Result(s, v).Ok? && s.d < s.limit
    ensures Result(s, Let(x, v, Var(x))) == Result(s, v)
    ensures y != x ==> Result(s, Let(x, v, Var(y))) == Result(s, Var(y))
  {
    var inside := Inside(s, [Bind(x, Result(s, v).v)]);
    LetLaw(s, x, v, Var(x));
    LetLaw(s, x, v, Var(y));
    assert [] + [Bind(x, Result(s, v).v)] == [Bind(x, Result(s, v).v)];
    BoundName(inside, x, s.env, [], x, Result(s, v).v);
    BoundName(inside, y, s.env, [], x, Result(s, v).v);
    NameValue(s, y);
    NameValue(inside.(env := Frame(s.env, [])), y);
  }

  // ----- Calls -----

  lemma CallOperands(s: Setting, f: Expr, args: seq<Expr>)
    ensures Result(s, Call(f, args)) ==
      match Results(s, [f] + args)
      case Err(err) => Err(err)
      case Ok(vs) => Apply(s.h, s.limit, vs[0], vs[1..], s.d)
  {
    Opened(s, Call(f, args));
    ListSize(Callee(f, args));
  }

  /** The function comes first, then the arguments from left to right; the first failure is the call's. */
  lemma CallOrder(s: Setting, f: Expr, args: seq<Expr>, k: nat, err: Error)
    ensures Fails(s, f, err) ==> Fails(s, Call(f, args), err)
    ensures Result(s, f).Ok? && FailsFirst(s, args, k, err) ==> Fails(s, Call(f, args), err)
  {
    CallOperands(s, f, args);
    var all := [f] + args;
    if Fails(s, f, err) { EvalsUpTo(s, all, 0, err); }
    if Result(s, f).Ok? && FailsFirst(s, args, k, err) {
      forall i | 0 <= i < k + 1 ensures Result(s, all[i]).Ok? {
        if i > 0 { assert Result(s, args[i - 1]).Ok?; }
      }
      EvalsUpTo(s, all, k + 1, err);
    }
  }

  lemma Applies(s: Setting, f: Expr, args: seq<Expr>, fv: Val, vs: seq<Val>)
    requires Gives(s, f, fv) && AllGive(s, args, vs)
    ensures Result(s, Call(f, args)) == Apply(s.h, s.limit, fv, vs, s.d)
  {
    CallOperands(s, f, args);
    var all := [f] + args;
    forall i | 0 <= i < |all| ensures Gives(s, all[i], ([fv] + vs)[i]) {
      if i > 0 { assert Gives(s, args[i - 1], vs[i - 1]); }
    }
    EvalsAll(s, all, [fv] + vs);
  }

  /** binds pairs the parameters with the arguments, in order. */
  predicate Paired(binds: seq<Bind<Lam>>, ps: seq<string>, vs: seq<Val>) {
    |binds| == |ps| == |vs| && forall i :: 0 <= i < |ps| ==> binds[i] == Bind(ps[i], vs[i])
  }

  /** A closure's body is evaluated where its lambda was written, with its parameters bound on top. */
  lemma ClosureCall(s: Setting, f: Expr, args: seq<Expr>, ps: seq<string>, b: Expr, sc: Scopes<Lam>, env: Env,
      vs: seq<Val>, binds: seq<Bind<Lam>>)
    requires Gives(s, f, Clo(Lam(ps, b), sc, env)) && AllGive(s, args, vs)
    ensures |ps| != |args| ==> Fails(s, Call(f, args), ArgCount(|ps|, |args|))
    ensures |ps| == |args| && s.d >= s.limit ==> Fails(s, Call(f, args), DepthExceeded)
    ensures s.d < s.limit && Paired(binds, ps, vs) ==>
      Result(s, Call(f, args)) == Result(Setting(s.h, s.limit, sc, Frame(env, binds), s.d + 1), b)
  {
    Applies(s, f, args, Clo(Lam(ps, b), sc, env), vs);
    if Paired(binds, ps, vs) { assert BindAll(ps, vs) == binds; }
  }

  /** Anything else that is called is the host's to call. */
  lemma HostCall(s: Setting, f: Expr, args: seq<Expr>, fv: Val, vs: seq<Val>)
    requires Gives(s, f, fv) && !fv.Clo? && AllGive(s, args, vs)
    ensures Asks(s, Call(f, args), Calling(fv, vs))
  {
    Applies(s, f, args, fv, vs);
  }

  // ----- Conditions -----

  /** A conditional takes one arm and leaves the other alone; a missing else is nil. */
  lemma ConditionalLaw(s: Setting, c: Expr, y: Expr, n: Option<Expr>, v: Val)
    ensures Result(s, c).Err? ==> Fails(s, Conditional(c, y, n), Result(s, c).e)
    ensures Gives(s, c, v) && !(v.Lit? && v.c.CBool?) ==> Fails(s, Conditional(c, y, n), NotBool)
    ensures Gives(s, c, Lit(CBool(true))) ==> Result(s, Conditional(c, y, n)) == Result(s, y)
    ensures Gives(s, c, Lit(CBool(false))) && n.Some? ==> Result(s, Conditional(c, y, n)) == Result(s, n.value)
    ensures Gives(s, c, Lit(CBool(false))) && n.None? ==> Gives(s, Conditional(c, y, n), Lit(CNil))
  {
    Opened(s, Conditional(c, y, n));
    Opened(s, Const(CNil));
  }

  /** `||` and `&&` stop at a left operand that decides; otherwise the right one is the result, bool or not. */
  lemma LogicalLaw(s: Setting, l: Expr, r: Expr, v: Val)
    ensures Result(s, l).Err? ==>
      Fails(s, Infix(Or, l, r), Result(s, l).e) && Fails(s, Infix(And, l, r), Result(s, l).e)
    ensures Gives(s, l, v) && !(v.Lit? && v.c.CBool?) ==>
      Fails(s, Infix(Or, l, r), NotBool) && Fails(s, Infix(And, l, r), NotBool)
    ensures Gives(s, l, Lit(CBool(true))) ==>
      Gives(s, Infix(Or, l, r), Lit(CBool(true))) && Result(s, Infix(And, l, r)) == Result(s, r)
    ensures Gives(s, l, Lit(CBool(false))) ==>
      Result(s, Infix(Or, l, r)) == Result(s, r) && Gives(s, Infix(And, l, r), Lit(CBool(false)))
  {
    Opened(s, Infix(Or, l, r));
    Opened(s, Infix(And, l, r));
    Opened(s, Const(CBool(true)));
    Opened(s, Const(CBool(false)));
  }

  /** `l ?? r` is l one activation further in, unless that fails or is nil; then it is r. */
  lemma CoalesceLaw(s: Setting, l: Expr, r: Expr, v: Val)
    ensures s.d >= s.limit ==> Fails(s, Infix(Coalesce, l, r), DepthExceeded)
    ensures s.d < s.limit && Gives(s.(d := s.d + 1), l, v) && !Nothing(s, v) ==> Gives(s, Infix(Coalesce, l, r), v)
    ensures s.d < s.limit && Gives(s.(d := s.d + 1), l, v) && Nothing(s, v) ==>
      Result(s, Infix(Coalesce, l, r)) == Result(s, r)
    ensures s.d < s.limit && Result(s.(d := s.d + 1), l).Err? ==> Result(s, Infix(Coalesce, l, r)) == Result(s, r)
  {
    Opened(s, Infix(Coalesce, l, r));
  }

  // ----- Members -----

  /** `t.n` and `t?.n` differ only where t is nil: `?.` gives nil, `.` asks the host for a member of it. */
  lemma MemberLaw(s: Setting, t: Expr, n: string, v: Val)
    ensures Result(s, t).Err? ==>
      Fails(s, Member(t, n, false), Result(s, t).e) && Fails(s, Member(t, n, true), Result(s, t).e)
    ensures Gives(s, t, v) && Nothing(s, v) ==>
      Asks(s, Member(t, n, false), MemberOf(v, n)) && Gives(s, Member(t, n, true), Lit(CNil))
    ensures Gives(s, t, v) && !Nothing(s, v) && !v.MapV? ==>
      Asks(s, Member(t, n, false), MemberOf(v, n)) && Asks(s, Member(t, n, true), MemberOf(v, n))
  {
    StrictOne(s, Member(t, n, false), Access(n), t);
    StrictOne(s, Member(t, n, true), OptAccess(n), t);
  }

  /** A member of a map is the value under that key. */
  lemma MapMember(s: Setting, t: Expr, n: string, m: map<string, Val>, opt: bool)
    requires Gives(s, t, MapV(m))
    ensures n in m ==> Gives(s, Member(t, n, opt), m[n])
    ensures n !in m ==> Fails(s, Member(t, n, opt), KeyNotFound(n))
  {
    StrictOne(s, Member(t, n, opt), if opt then OptAccess(n) else Access(n), t);
  }

  // ----- Indexes -----

  lemma IndexOperate(s: Setting, t: Expr, i: Expr, opt: bool)
    ensures Result(s, t).Err? ==> Fails(s, IndexE(t, i, opt), Result(s, t).e)
    ensures Result(s, t).Ok? && Result(s, i).Err? ==> Fails(s, IndexE(t, i, opt), Result(s, i).e)
    ensures Result(s, t).Ok? && Result(s, i).Ok? ==>
      Result(s, IndexE(t, i, opt)) == Operate(s.h, if opt then OptIndex else Index, [Result(s, t).v, Result(s, i).v])
  {
    StrictTwo(s, IndexE(t, i, opt), if opt then OptIndex else Index, t, i);
  }

  predicate Indexable(v: Val) { v.ListV? || v.MapV? || (v.Lit? && v.c.CStr?) }

  /** The target comes before the index. A nil target gives nil under `?.[i]`, once the index has been
      evaluated; what else is neither list, map nor string, or is indexed by a host value, is the host's. */
  lemma IndexLaw(s: Setting, t: Expr, i: Expr, v: Val, w: Val, opt: bool)
    ensures Result(s, t).Err? ==> Fails(s, IndexE(t, i, opt), Result(s, t).e)
    ensures Result(s, t).Ok? && Result(s, i).Err? ==> Fails(s, IndexE(t, i, opt), Result(s, i).e)
    ensures Gives(s, t, v) && Gives(s, i, w) && Nothing(s, v) && opt ==> Gives(s, IndexE(t, i, opt), Lit(CNil))
    ensures Gives(s, t, v) && Gives(s, i, w) && !(Nothing(s, v) && opt) && (w.HostV? || !Indexable(v)) ==>
      Asks(s, IndexE(t, i, opt), ItemOf(v, w))
  {
    IndexOperate(s, t, i, opt);
  }

  /** An element of a list by its position, counted from 0. */
  lemma ListIndex(s: Setting, t: Expr, i: Expr, xs: seq<Val>, w: Val, opt: bool)
    requires Gives(s, t, ListV(xs)) && Gives(s, i, w) && !w.HostV?
    ensures w.Lit? && w.c.CInt? && 0 <= w.c.i < |xs| ==> Gives(s, IndexE(t, i, opt), xs[w.c.i])
    ensures w.Lit? && w.c.CInt? && !(0 <= w.c.i < |xs|) ==> Fails(s, IndexE(t, i, opt), OutOfRange)
    ensures !(w.Lit? && w.c.CInt?) ==> Fails(s, IndexE(t, i, opt), IndexNotInteger)
  {
    IndexOperate(s, t, i, opt);
  }

  /** A value of a map by its key. */
  lemma MapIndex(s: Setting, t: Expr, i: Expr, m: map<string, Val>, w: Val, opt: bool)
    requires Gives(s, t, MapV(m)) && Gives(s, i, w) && !w.HostV?
    ensures w.Lit? && w.c.CStr? && w.c.s in m ==> Gives(s, IndexE(t, i, opt), m[w.c.s])
    ensures w.Lit? && w.c.CStr? && w.c.s !in m ==> Fails(s, IndexE(t, i, opt), KeyNotFound(w.c.s))
    ensures !(w.Lit? && w.c.CStr?) ==> Fails(s, IndexE(t, i, opt), KeyNotString)
  {
    IndexOperate(s, t, i, opt);
  }

  /** One character of a string, as a string. */
  lemma StringIndex(s: Setting, t: Expr, i: Expr, str: string, w: Val, opt: bool)
    requires Gives(s, t, Text(str)) && Gives(s, i, w) && !w.HostV?
    ensures w.Lit? && w.c.CInt? && 0 <= w.c.i < |str| ==> Gives(s, IndexE(t, i, opt), Text(str[w.c.i..w.c.i + 1]))
    ensures w.Lit? && w.c.CInt? && !(0 <= w.c.i < |str|) ==> Fails(s, IndexE(t, i, opt), OutOfRange)
    ensures !(w.Lit? && w.c.CInt?) ==> Fails(s, IndexE(t, i, opt), IndexNotInteger)
  {
    IndexOperate(s, t, i, opt);
    if w.Lit? && w.c.CInt? && 0 <= w.c.i < |str| { assert str[w.c.i..w.c.i + 1] == [str[w.c.i]]; }
  }

  // ----- Lists -----

  lemma ListOperate(s: Setting, es: seq<Expr>)
    ensures Result(s, ListE(es)) ==
      match Results(s, es)
      case Err(err) => Err(err)
      case Ok(vs) => Ok(ListV(vs))
  {
    Opened(s, ListE(es));
    ListSize(Many(es));
  }

  /** A list literal holds its elements' values in order; its first failing element is its failure. */
  lemma ListLaw(s: Setting, es: seq<Expr>, vs: seq<Val>, k: nat, err: Error)
    ensures AllGive(s, es, vs) ==> Gives(s, ListE(es), ListV(vs))
    ensures FailsFirst(s, es, k, err) ==> Fails(s, ListE(es), err)
  {
    ListOperate(s, es);
    if AllGive(s, es, vs) { EvalsAll(s, es, vs); }
    if FailsFirst(s, es, k, err) { EvalsUpTo(s, es, k, err); }
  }

  /** `[e0, e1, ...][i]` is what the i-th element evaluates to, and no other integer is an index. */
  lemma ElementLaw(s: Setting, es: seq<Expr>, vs: seq<Val>, i: Expr, k: int64, opt: bool)
    requires AllGive(s, es, vs) && Gives(s, i, Int(k))
    ensures 0 <= k < |es| ==> Result(s, IndexE(ListE(es), i, opt)) == Result(s, es[k])
    ensures !(0 <= k < |es|) ==> Fails(s, IndexE(ListE(es), i, opt), OutOfRange)
  {
    ListLaw(s, es, vs, 0, NotBool);
    ListIndex(s, ListE(es), i, vs, Int(k), opt);
    if 0 <= k < |es| { assert Gives(s, es[k], vs[k]); }
  }

  // ----- Maps -----

  /** Every entry's value evaluates. */
  predicate EntriesGive(s: Setting, es: seq<Entry>, vs: seq<Val>) {
    |es| == |vs| && forall i :: 0 <= i < |es| ==> Gives(s, es[i].value, vs[i])
  }

  /** m holds, under each key written, the value of the first entry with that key, and nothing else. */
  ghost predicate HoldsFirst(m: map<string, Val>, es: seq<Entry>, vs: seq<Val>)
    requires |es| == |vs|
  {
    && (forall i {:trigger es[i]} :: 0 <= i < |es| ==> es[i].key in m)
    && (forall x <- m :: exists i :: 0 <= i < |es| && es[i].key == x)
    && (forall i {:trigger vs[i]} :: 0 <= i < |es| && (forall j :: 0 <= j < i ==> es[j].key != es[i].key) ==>
        m[es[i].key] == vs[i])
  }

  lemma HoldsFirstCons(m: map<string, Val>, es: seq<Entry>, vs: seq<Val>)
    requires es != [] && |es| == |vs| && HoldsFirst(m, es[1..], vs[1..])
    ensures HoldsFirst(m[es[0].key := vs[0]], es, vs)
  {
    var m' := m[es[0].key := vs[0]];
    forall i | 0 <= i < |es| ensures es[i].key in m' {
      if i > 0 { assert es[i] == es[1..][i - 1]; }
    }
    forall x | x in m' ensures exists i :: 0 <= i < |es| && es[i].key == x {
      if x != es[0].key {
        var i :| 0 <= i < |es[1..]| && es[1..][i].key == x;
        assert es[i + 1].key == x;
      }
    }
    forall i | 0 <= i < |es| && (forall j :: 0 <= j < i ==> es[j].key != es[i].key) ensures m'[es[i].key] == vs[i] {
      if i > 0 {
        assert es[0].key != es[i].key;
        assert es[1..][i - 1] == es[i] && vs[1..][i - 1] == vs[i];
        forall j | 0 <= j < i - 1 ensures es[1..][j].key != es[1..][i - 1].key {
          assert es[j + 1].key != es[i].key;
        }
      }
    }
  }

  /** The values kvs of keys and values side by side build such a map. */
  ghost predicate Builds(kvs: seq<Val>, es: seq<Entry>, vs: seq<Val>)
    requires |es| == |vs|
  {
    |kvs| == 2 * |es| && BuildMap(kvs).Ok? && HoldsFirst(BuildMap(kvs).v, es, vs)
  }

  lemma BuildsCons(kvs: seq<Val>, es: seq<Entry>, vs: seq<Val>, rest: seq<Val>)
    requires es != [] && |es| == |vs| && Builds(rest, es[1..], vs[1..])
    requires kvs == [Text(es[0].key), vs[0]] + rest
    ensures Builds(kvs, es, vs)
  {
    assert kvs[2..] == rest;
    HoldsFirstCons(BuildMap(rest).v, es, vs);
  }

  lemma {:induction false} EntriesEval(s: Setting, es: seq<Entry>, vs: seq<Val>) returns (kvs: seq<Val>)
    requires EntriesGive(s, es, vs)
    ensures Results(s, Interleave(es)) == Ok(kvs) && Builds(kvs, es, vs)
  {
    if es == [] {
      kvs := [];
    } else {
      assert Gives(s, es[0].value, vs[0]);
      forall i | 0 <= i < |es| - 1 ensures Gives(s, es[1..][i].value, vs[1..][i]) {
        assert Gives(s, es[i + 1].value, vs[i + 1]);
      }
      var rest := EntriesEval(s, es[1..], vs[1..]);
      kvs := [Text(es[0].key), vs[0]] + rest;
      PairEvals(s, Const(CStr(es[0].key)), es[0].value, Interleave(es[1..]), Text(es[0].key), vs[0], rest);
      BuildsCons(kvs, es, vs, rest);
    }
  }

  lemma PairEvals(s: Setting, a: Expr, b: Expr, rest: seq<Expr>, v: Val, w: Val, vs: seq<Val>)
    requires Gives(s, b, w) && v.Lit? && a == Const(v.c)
    requires Results(s, rest) == Ok(vs)
    ensures Results(s, [a, b] + rest) == Ok([v, w] + vs)
  {
    Opened(s, a);
    ResultsCons(s, a, [b] + rest);
    ResultsCons(s, b, rest);
    assert [a, b] + rest == [a] + ([b] + rest);
    assert [v] + ([w] + vs) == [v, w] + vs;
  }

  lemma MakesMap(s: Setting, es: seq<Entry>, kvs: seq<Val>, m: map<string, Val>)
    requires Results(s, Interleave(es)) == Ok(kvs) && |kvs| == 2 * |es| && BuildMap(kvs) == Ok(m)
    ensures Gives(s, MapE(es), MapV(m))
  {
    StrictForm(s, MapE(es));
  }

  lemma MapValue(s: Setting, es: seq<Entry>, vs: seq<Val>) returns (m: map<string, Val>)
    requires EntriesGive(s, es, vs)
    ensures Gives(s, MapE(es), MapV(m)) && HoldsFirst(m, es, vs)
  {
    var kvs := EntriesEval(s, es, vs);
    m := BuildMap(kvs).v;
    MakesMap(s, es, kvs, m);
  }

  /** A member, or a string index, of a map literal is what its first entry with that key evaluates to. */
  lemma MapLaw(s: Setting, es: seq<Entry>, vs: seq<Val>, k: nat, i: Expr, opt: bool)
    requires EntriesGive(s, es, vs) && k < |es| && forall j :: 0 <= j < k ==> es[j].key != es[k].key
    ensures Result(s, Member(MapE(es), es[k].key, opt)) == Result(s, es[k].value)
    ensures Gives(s, i, Text(es[k].key)) ==> Result(s, IndexE(MapE(es), i, opt)) == Result(s, es[k].value)
  {
    var m := MapValue(s, es, vs);
    assert m[es[k].key] == vs[k] && Gives(s, es[k].value, vs[k]);
    MapMember(s, MapE(es), es[k].key, m, opt);
    if Gives(s, i, Text(es[k].key)) { MapIndex(s, MapE(es), i, m, Text(es[k].key), opt); }
  }

  /** No other name is a member or an index of it. */
  lemma MapAbsent(s: Setting, es: seq<Entry>, vs: seq<Val>, x: string, i: Expr, opt: bool)
    requires EntriesGive(s, es, vs) && forall j :: 0 <= j < |es| ==> es[j].key != x
    ensures Fails(s, Member(MapE(es), x, opt), KeyNotFound(x))
    ensures Gives(s, i, Text(x)) ==> Fails(s, IndexE(MapE(es), i, opt), KeyNotFound(x))
  {
    var m := MapValue(s, es, vs);
    MapMember(s, MapE(es), x, m, opt);
    if Gives(s, i, Text(x)) { MapIndex(s, MapE(es), i, m, Text(x), opt); }
  }

  lemma {:induction false} EntryFailsEval(s: Setting, es: seq<Entry>, k: nat, err: Error)
    requires k < |es| && Fails(s, es[k].value, err)
    requires forall j :: 0 <= j < k ==> Result(s, es[j].value).Ok?
    ensures Results(s, Interleave(es)) == Err(err)
  {
    var key, rest := Const(CStr(es[0].key)), Interleave(es[1..]);
    Opened(s, key);
    ResultsCons(s, key, [es[0].value] + rest);
    ResultsCons(s, es[0].value, rest);
    assert Interleave(es) == [key] + ([es[0].value] + rest);
    if k > 0 {
      assert Result(s, es[0].value).Ok?;
      forall j | 0 <= j < k - 1 ensures Result(s, es[1..][j].value).Ok? {
        assert Result(s, es[j + 1].value).Ok?;
      }
      EntryFailsEval(s, es[1..], k - 1, err);
    }
  }

  /** The first entry that fails is the failure of a map literal. */
  lemma MapFails(s: Setting, es: seq<Entry>, k: nat, err: Error)
    requires k < |es| && Fails(s, es[k].value, err)
    requires forall j :: 0 <= j < k ==> Result(s, es[j].value).Ok?
    ensures Fails(s, MapE(es), err)
  {
    StrictForm(s, MapE(es));
    EntryFailsEval(s, es, k, err);
  }

  // ----- Slices -----

  /** A slice bound as written: an integer, or nothing at all where it is left out or is nil. */
  predicate BoundIs(s: Setting, o: Option<Expr>, default: int, b: int) {
    (o.None? && b == default)
    || (o.Some? && Gives(s, o.value, Lit(CNil)) && b == default)
    || (o.Some? && -TWO_63 <= b < TWO_63 && Gives(s, o.value, Int(b)))
  }

  lemma BoundValue(s: Setting, o: Option<Expr>, default: int, b: int)
    requires BoundIs(s, o, default, b)
    ensures Result(s, OrNil(o)).Ok? && !Result(s, OrNil(o)).v.HostV? && Bound(Result(s, OrNil(o)).v, default) == Ok(b)
  {
    Opened(s, Const(CNil));
  }

  lemma SliceOperate(s: Setting, t: Expr, lo: Option<Expr>, hi: Option<Expr>, len: nat, a: int, b: int)
    requires Result(s, t).Ok? && BoundIs(s, lo, 0, a) && BoundIs(s, hi, len, b)
    ensures Result(s, OrNil(lo)).Ok? && Result(s, OrNil(hi)).Ok?
    ensures Result(s, SliceE(t, lo, hi)) ==
      Operate(s.h, Slice, [Result(s, t).v, Result(s, OrNil(lo)).v, Result(s, OrNil(hi)).v])
    ensures !Result(s, OrNil(lo)).v.HostV? && !Result(s, OrNil(hi)).v.HostV?
    ensures SliceBounds(Result(s, OrNil(lo)).v, Result(s, OrNil(hi)).v, len) ==
      if 0 <= a <= b <= len then Ok((a, b)) else Err(OutOfRange)
  {
    BoundValue(s, lo, 0, a);
    BoundValue(s, hi, len, b);
    StrictThree(s, SliceE(t, lo, hi), Slice, t, OrNil(lo), OrNil(hi));
  }

  /** `xs[lo:hi]` holds the elements from lo up to but not including hi; bounds outside the list, or crossed,
      are an error. */
  lemma ListSlice(s: Setting, t: Expr, lo: Option<Expr>, hi: Option<Expr>, xs: seq<Val>, a: int, b: int)
    requires Gives(s, t, ListV(xs)) && BoundIs(s, lo, 0, a) && BoundIs(s, hi, |xs|, b)
    ensures 0 <= a <= b <= |xs| ==> Gives(s, SliceE(t, lo, hi), ListV(xs[a..b]))
    ensures !(0 <= a <= b <= |xs|) ==> Fails(s, SliceE(t, lo, hi), OutOfRange)
  {
    SliceOperate(s, t, lo, hi, |xs|, a, b);
  }

  lemma StringSlice(s: Setting, t: Expr, lo: Option<Expr>, hi: Option<Expr>, str: string, a: int, b: int)
    requires Gives(s, t, Text(str)) && BoundIs(s, lo, 0, a) && BoundIs(s, hi, |str|, b)
    ensures 0 <= a <= b <= |str| ==> Gives(s, SliceE(t, lo, hi), Text(str[a..b]))
    ensures !(0 <= a <= b <= |str|) ==> Fails(s, SliceE(t, lo, hi), OutOfRange)
  {
    SliceOperate(s, t, lo, hi, |str|, a, b);
  }

  /** `xs[lo:hi][i]` is `xs[lo + i]`, wherever i is inside the slice, and out of range elsewhere. */
  lemma IndexOfSlice(s: Setting, t: Expr, lo: Option<Expr>, hi: Option<Expr>, xs: seq<Val>, a: nat, b: nat,
      i: Expr, k: int64, j: Expr)
    requires Gives(s, t, ListV(xs)) && BoundIs(s, lo, 0, a) && BoundIs(s, hi, |xs|, b) && a <= b <= |xs|
    requires Gives(s, i, Int(k))
    ensures 0 <= k < b - a && a + k < TWO_63 && Gives(s, j, Int(a + k)) ==>
      Result(s, IndexE(SliceE(t, lo, hi), i, false)) == Result(s, IndexE(t, j, false))
    ensures !(0 <= k < b - a) ==> Fails(s, IndexE(SliceE(t, lo, hi), i, false), OutOfRange)
  {
    ListSlice(s, t, lo, hi, xs, a, b);
    ListIndex(s, SliceE(t, lo, hi), i, xs[a..b], Int(k), false);
    if 0 <= k < b - a && a + k < TWO_63 && Gives(s, j, Int(a + k)) { ListIndex(s, t, j, xs, Int(a + k), false); }
  }

  predicate HostSlice(v: Val, a: Val, b: Val) {
    a.HostV? || b.HostV? || !(v.ListV? || (v.Lit? && v.c.CStr?))
  }

  predicate NoBound(v: Val) { !(v.Lit? && (v.c.CInt? || v.c.CNil?)) }

  /** The target comes first, then the low bound, then the high one. */
  lemma SliceOrder(s: Setting, t: Expr, lo: Expr, hi: Expr, v: Val, a: Val, err: Error)
    ensures Fails(s, t, err) ==> Fails(s, SliceE(t, Some(lo), Some(hi)), err)
    ensures Gives(s, t, v) && Fails(s, lo, err) ==> Fails(s, SliceE(t, Some(lo), Some(hi)), err)
    ensures Gives(s, t, v) && Gives(s, lo, a) && Fails(s, hi, err) ==> Fails(s, SliceE(t, Some(lo), Some(hi)), err)
  {
    StrictThree(s, SliceE(t, Some(lo), Some(hi)), Slice, t, lo, hi);
  }

  /** A host value as target or bound makes the slice the host's; of lists and strings, a bound that is
      neither an integer nor nil is refused. */
  lemma SliceRefusal(s: Setting, t: Expr, lo: Expr, hi: Expr, v: Val, a: Val, b: Val)
    requires Gives(s, t, v) && Gives(s, lo, a) && Gives(s, hi, b)
    ensures HostSlice(v, a, b) ==> Asks(s, SliceE(t, Some(lo), Some(hi)), PartOf(v, a, b))
    ensures !HostSlice(v, a, b) && (NoBound(a) || NoBound(b)) ==>
      Fails(s, SliceE(t, Some(lo), Some(hi)), IndexNotInteger)
  {
    StrictThree(s, SliceE(t, Some(lo), Some(hi)), Slice, t, lo, hi);
  }
}
