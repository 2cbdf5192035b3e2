// The meaning of an expression: a lexically scoped evaluator that walks the tree. It knows
// nothing of instructions, addresses, stacks or frames.

module Semantics {
  import opened Values
  import opened Syntax

  /** What a closure carries here: the source of its lambda. */
  datatype Lam = Lam(params: seq<string>, body: Expr)

  type Val = Value<Lam>
  type Env = Locals<Lam>

  /** The innermost frame binding name wins; within a frame, the last binding does. */
  function Lookup(env: Env, name: string): Option<Val> {
    match env
    case Root => None
    case Frame(parent, binds) =>
      match LookupBinds(binds, name)
      case Some(v) => Some(v)
      case None => Lookup(parent, name)
  }

  function LookupBinds(binds: seq<Bind<Lam>>, name: string): Option<Val> {
    if binds == [] then None
    else if binds[|binds| - 1].name == name then Some(binds[|binds| - 1].value)
    else LookupBinds(binds[..|binds| - 1], name)
  }

  function BindAll<F>(params: seq<string>, args: seq<Value<F>>): seq<Bind<F>>
    requires |params| == |args|
  {
    seq(|params|, i requires 0 <= i < |params| => Bind(params[i], args[i]))
  }

  /** d counts the suspended activations: entering a let body, the left of `??` or a lambda body
      suspends one more, and fails once `limit` are suspended. The failure is an ordinary error
      of the enclosing expression, so an enclosing `??` may catch it. */
  function Eval(h: Host<Lam>, limit: nat, e: Expr, sc: Scopes<Lam>, env: Env, d: nat): Outcome<Val>
    decreases limit - d, Size(e), 1
  {
    FormSmaller(e);
    EvalForm(h, limit, FormOf(e), sc, env, d)
  }

  function EvalForm(h: Host<Lam>, limit: nat, f: Form, sc: Scopes<Lam>, env: Env, d: nat): Outcome<Val>
    requires FormFits(f)
    decreases limit - d, FormSize(f), 4
  {
    match f
    case Constant(c) => Ok(Lit(c))
    case Name(x) =>
      (match Lookup(env, x)
       case Some(v) => Ok(v)
       case None => LoadName(h, sc, x))
    case Closure(ps, b) => Ok(Clo(Lam(ps, b), sc, env))
    case Binding(x, v, b) =>
      (match Eval(h, limit, v, sc, env, d)
       case Err(err) => Err(err)
       case Ok(val) =>
         if d >= limit then Err(DepthExceeded)
         else Eval(h, limit, b, sc, Frame(env, [Bind(x, val)]), d + 1))
    case Branch(c, yes, no) =>
      (match Condition(Eval(h, limit, c, sc, env, d))
       case Err(err) => Err(err)
       case Ok(b) => if b then Eval(h, limit, yes, sc, env, d) else Eval(h, limit, no, sc, env, d))
    case Fallback(l, r) =>
      if d >= limit then Err(DepthExceeded) else
      (match Eval(h, limit, l, sc, env, d + 1)
       case Ok(v) => if IsNil(h, v) then Eval(h, limit, r, sc, env, d) else Ok(v)
       case Err(_) => Eval(h, limit, r, sc, env, d))
    case Invoke(o) =>
      (match EvalOps(h, limit, o, sc, env, d)
       case Err(err) => Err(err)
       case Ok(vs) => Apply(h, limit, vs[0], vs[1..], d))
    case Strict(op, o) =>
      match EvalOps(h, limit, o, sc, env, d)
      case Err(err) => Err(err)
      case Ok(vs) => Operate(h, op, vs)
  }

  /** A lambda's body sees the environment of its creation, extended by its parameters. */
  function Apply(h: Host<Lam>, limit: nat, callee: Val, args: seq<Val>, d: nat): Outcome<Val>
    decreases limit - d, 0, 0
  {
    if !callee.Clo? then h.ask(Calling(callee, args))
    else if |callee.fn.params| != |args| then Err(ArgCount(|callee.fn.params|, |args|))
    else if d >= limit then Err(DepthExceeded)
    else Eval(h, limit, callee.fn.body, callee.scopes, Frame(callee.locals, BindAll(callee.fn.params, args)), d + 1)
  }

  function EvalOps(h: Host<Lam>, limit: nat, o: Operands, sc: Scopes<Lam>, env: Env, d: nat): (r: Outcome<seq<Val>>)
    ensures r.Ok? ==> |r.v| == OpCount(o)
    decreases limit - d, OpSize(o), 3
  {
    ListSize(o);
    EvalAll(h, limit, ListOf(o), sc, env, d)
  }

  /** A condition, or the left of `||` and `&&`, must be a bool. */
  function Condition(o: Outcome<Val>): Outcome<bool> {
    match o
    case Ok(Lit(CBool(b))) => Ok(b)
    case Ok(_) => Err(NotBool)
    case Err(err) => Err(err)
  }

  function EvalAll(h: Host<Lam>, limit: nat, es: seq<Expr>, sc: Scopes<Lam>, env: Env, d: nat): (r: Outcome<seq<Val>>)
    ensures r.Ok? ==> |r.v| == |es|
    decreases limit - d, SizeAll(es), 2
  {
    if es == [] then Ok([]) else
    match Eval(h, limit, es[0], sc, env, d)
    case Err(err) => Err(err)
    case Ok(v) =>
      match EvalAll(h, limit, es[1..], sc, env, d)
      case Err(err) => Err(err)
      case Ok(vs) => Ok([v] + vs)
  }
}
