// Points of the language's meaning that its evaluator leaves implicit, and hosts that satisfy the
// conditions the theorems put on them.

module Meaning {
  import opened Values
  import opened Mapping
  import opened Syntax
  import opened Semantics
  import Fold
  import SheetCells

  /** `||` and `&&` check only their left operand; the right one is the result as it stands. */
  lemma LogicalOperators(h: Host<Lam>, limit: nat, l: Expr, r: Expr, sc: Scopes<Lam>, env: Env, d: nat)
    ensures
      var left := Condition(Eval(h, limit, l, sc, env, d));
      && Eval(h, limit, Infix(Or, l, r), sc, env, d) ==
         (if left.Err? then Err(left.e) else if left.v then Ok(Truth(true)) else Eval(h, limit, r, sc, env, d))
      && Eval(h, limit, Infix(And, l, r), sc, env, d) ==
         (if left.Err? then Err(left.e) else if left.v then Eval(h, limit, r, sc, env, d) else Ok(Truth(false)))
  {
    FormSmaller(Infix(Or, l, r));
    FormSmaller(Infix(And, l, r));
    Fold.ConstantValue(h, limit, CBool(true), sc, env, d);
    Fold.ConstantValue(h, limit, CBool(false), sc, env, d);
  }

  /** A conditional whose condition is false and that has no else gives nil. */
  lemma MissingElse(h: Host<Lam>, limit: nat, c: Expr, t: Expr, sc: Scopes<Lam>, env: Env, d: nat)
    requires Eval(h, limit, c, sc, env, d) == Ok(Truth(false))
    ensures Eval(h, limit, Conditional(c, t, None), sc, env, d) == Ok(Lit(CNil))
  {
    FormSmaller(Conditional(c, t, None));
    Fold.ConstantValue(h, limit, CNil, sc, env, d);
  }

  /** `??` catches every error of its left operand, that of suspending one activation too many
      included, and then its right operand is evaluated as if the left had not been there. */
  lemma CoalesceCatches(h: Host<Lam>, limit: nat, l: Expr, r: Expr, sc: Scopes<Lam>, env: Env, d: nat)
    requires d < limit
    ensures
      var left := Eval(h, limit, l, sc, env, d + 1);
      Eval(h, limit, Infix(Coalesce, l, r), sc, env, d) ==
        if left.Ok? && !IsNil(h, left.v) then left else Eval(h, limit, r, sc, env, d)
  {
    FormSmaller(Infix(Coalesce, l, r));
  }

  /** At the limit a let fails after its value has been evaluated, and an enclosing `??` one
      activation further out turns that failure into its right operand. */
  lemma DepthErrorCaught(h: Host<Lam>, limit: nat, x: string, v: Expr, b: Expr, r: Expr, sc: Scopes<Lam>, env: Env,
      d: nat)
    requires d + 1 == limit
    ensures Eval(h, limit, Let(x, v, b), sc, env, d + 1).Err?
    ensures Eval(h, limit, Infix(Coalesce, Let(x, v, b), r), sc, env, d) == Eval(h, limit, r, sc, env, d)
  {
    FormSmaller(Let(x, v, b));
    CoalesceCatches(h, limit, Let(x, v, b), r, sc, env, d);
  }

  /** Of several entries with one key a map literal keeps the first. */
  lemma {:induction false} FirstEntryWins(kvs: seq<Val>, i: nat)
    requires |kvs| % 2 == 0 && BuildMap(kvs).Ok? && 2 * i < |kvs|
    requires forall j :: 0 <= j < i ==> kvs[2 * j] != kvs[2 * i]
    ensures kvs[2 * i].Lit? && kvs[2 * i].c.CStr? && kvs[2 * i].c.s in BuildMap(kvs).v
    ensures BuildMap(kvs).v[kvs[2 * i].c.s] == kvs[2 * i + 1]
  {
    if i > 0 {
      var rest := kvs[2..];
      forall j | 0 <= j < i - 1 ensures rest[2 * j] != rest[2 * (i - 1)] {
        assert rest[2 * j] == kvs[2 * (j + 1)];
      }
      FirstEntryWins(rest, i - 1);
      assert kvs[2 * 0] != kvs[2 * i];
    }
  }

  /** Of several parameters with one name the last is the one the body sees. */
  lemma LastParameterWins(params: seq<string>, args: seq<Val>, env: Env, i: nat)
    requires |params| == |args| && i < |params|
    requires forall j :: i < j < |params| ==> params[j] != params[i]
    ensures Lookup(Frame(env, BindAll(params, args)), params[i]) == Some(args[i])
  {
    LastBindWins(BindAll(params, args), i);
  }

  lemma {:induction false} LastBindWins(binds: seq<Bind<Lam>>, i: nat)
    requires i < |binds| && forall j :: i < j < |binds| ==> binds[j].name != binds[i].name
    ensures LookupBinds(binds, binds[i].name) == Some(binds[i].value)
  {
    if i < |binds| - 1 { LastBindWins(binds[..|binds| - 1], i); }
  }

  // ----- A host -----

  /** A host with one builtin, `id`, which hands back its argument, closures included. */
  function Echo<F>(float: FloatOps, regexMatch: (string, string) -> bool): Host<F> {
    Host(float, regexMatch, (id: int) => false, (q: Question<F>) =>
      match q
      case Global(n) => if n == "id" then Ok(HostV(1)) else Err(Undefined(n))
      case Calling(f, args) => if f == HostV(1) && |args| == 1 then Ok(args[0]) else Err(Unsupported)
      case _ => Err(Unsupported))
  }

  /** It cannot look inside closures, so its two instances at any two kinds of code agree. */
  lemma EchoNatural<F(!new), G(!new)>(m: Mapper<F, G>, float: FloatOps, regexMatch: (string, string) -> bool)
    ensures Natural(m, Echo<F>(float, regexMatch), Echo<G>(float, regexMatch))
  {
    var a, b := Echo<F>(float, regexMatch), Echo<G>(float, regexMatch);
    forall q ensures b.ask(MapQuestion(m, q)) == MapOutcome(m, a.ask(q)) {
    }
  }

  /** And it never comes by a handle it was not given, apart from its builtin's own. */
  lemma EchoDiscreet(float: FloatOps, regexMatch: (string, string) -> bool, handle: int)
    requires handle != 1
    ensures SheetCells.Discreet((r: map<string, Val>) => Echo(float, regexMatch), handle)
  {
  }
}
