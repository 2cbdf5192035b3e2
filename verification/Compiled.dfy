// Emitted code computes what the expression means.

module Compiled {
  import opened Values
  import opened Mapping
  import opened Syntax
  import opened Bytecode
  import opened CompilerSpec
  import opened Machine
  import opened Semantics

  /** Compiling the lambda inside every closure. */
  function T(): Mapper<Lam, Proto> {
    Mapper((f: Lam, names: Names) => ProtoOf(f.params, f.body, names), (f: Lam, n: string) => true)
  }

  function TScopes(sc: Scopes<Lam>): Scopes<Proto> { MapScopes(T(), n => true, sc) }

  function TLocals(env: Env): Locals<Proto> { MapLocals(T(), env) }

  function TV(v: Val): V { Map(T(), v) }

  lemma {:induction false} ScopesKeep<F, G>(m: Mapper<F, G>, k: string -> bool, k': string -> bool, sc: Scopes<F>)
    requires forall n :: k(n) == k'(n)
    ensures MapScopes(m, k, sc) == MapScopes(m, k', sc)
  {
    match sc
    case NoScope =>
    case Layer(inner, outer) => ScopesKeep(m, k, k', outer);
  }

  lemma ClosureCompiles(f: Lam, sc: Scopes<Lam>, env: Env)
    ensures TV(Clo(f, sc, env)) == Clo(ProtoOf(f.params, f.body, NamesOf(env)), TScopes(sc), TLocals(env))
  {
    ScopesKeep(T(), n => T().keep(f, n), n => true, sc);
  }

  // ----- Addresses -----

  function LocalAt<F>(l: Locals<F>, depth: nat, slot: nat): Option<Value<F>> {
    match l
    case Root => None
    case Frame(parent, binds) =>
      if depth > 0 then LocalAt(parent, depth - 1, slot)
      else if slot < |binds| then Some(binds[slot].value) else None
  }

  lemma {:induction false} LookupSlot(binds: seq<Bind<Lam>>, x: string)
    ensures match ResolveSlot(BindNames(binds), x)
            case None => LookupBinds(binds, x) == None
            case Some(j) => LookupBinds(binds, x) == Some(binds[j].value)
  {
    if binds != [] && binds[|binds| - 1].name != x {
      LookupSlot(binds[..|binds| - 1], x);
      assert BindNames(binds)[..|binds| - 1] == BindNames(binds[..|binds| - 1]);
    }
  }

  /** The address resolved at compile time is where the reference scoping rule finds the name. */
  lemma {:induction false} LookupAddress(env: Env, x: string)
    ensures match Resolve(NamesOf(env), x)
            case None => Lookup(env, x) == None
            case Some(a) => Lookup(env, x).Some? && Lookup(env, x) == LocalAt(env, a.depth, a.slot)
  {
    match env
    case Root =>
    case Frame(parent, binds) =>
      LookupSlot(binds, x);
      LookupAddress(parent, x);
      assert NamesOf(env)[..|NamesOf(env)| - 1] == NamesOf(parent);
  }

  lemma {:induction false} LocalAtMap<F, G>(m: Mapper<F, G>, l: Locals<F>, depth: nat, slot: nat)
    ensures LocalAt(MapLocals(m, l), depth, slot) == MapOption(m, LocalAt(l, depth, slot))
  {
    if l.Frame? && depth > 0 { LocalAtMap(m, l.parent, depth - 1, slot); }
  }

  // ----- What an active chain currently holds -----

  /** Reading chain against this stack and buffer gives the frames of l. */
  ghost predicate Sees(chain: Chain, stack: seq<V>, reuse: seq<V>, l: Locals<Proto>) {
    match chain
    case Bottom => l.Root?
    case Link(parent, slots) =>
      l.Frame? && Sees(parent, stack, reuse, l.parent) &&
      match slots
      case Own(binds) => binds == l.binds
      case View(names, from) =>
        && from + |names| <= |stack| && |l.binds| == |names|
        && forall i :: 0 <= i < |names| ==> l.binds[i] == Bind(names[i], stack[from + i])
      case Reused(names) =>
        && |names| == |reuse| && |l.binds| == |names|
        && forall i :: 0 <= i < |names| ==> l.binds[i] == Bind(names[i], reuse[i])
  }

  /** Every stack slot chain reads lies below height h. */
  ghost predicate Below(chain: Chain, h: nat) {
    match chain
    case Bottom => true
    case Link(parent, slots) => Below(parent, h) && (slots.View? ==> slots.from + |slots.names| <= h)
  }

  lemma {:induction false} SeesPrefix(chain: Chain, stack: seq<V>, stack': seq<V>, h: nat, reuse: seq<V>,
      l: Locals<Proto>)
    requires Sees(chain, stack, reuse, l) && Below(chain, h)
    requires h <= |stack| && h <= |stack'| && stack[..h] == stack'[..h]
    ensures Sees(chain, stack', reuse, l)
  {
    match chain
    case Bottom =>
    case Link(parent, slots) =>
      SeesPrefix(parent, stack, stack', h, reuse, l.parent);
      if slots.View? {
        forall j | 0 <= j < h ensures stack'[j] == stack[j] {
          assert stack[..h][j] == stack'[..h][j];
        }
      }
  }

  lemma {:induction false} BelowHigher(chain: Chain, h: nat, h': nat)
    requires Below(chain, h) && h <= h'
    ensures Below(chain, h')
  {
    if chain.Link? { BelowHigher(chain.parent, h, h'); }
  }

  lemma {:induction false} EmbedSees(l: Locals<Proto>, stack: seq<V>, reuse: seq<V>, h: nat)
    ensures Sees(Embed(l), stack, reuse, l) && Below(Embed(l), h) && Capture(Embed(l)) == Some(l)
  {
    if l.Frame? { EmbedSees(l.parent, stack, reuse, h); }
  }

  lemma {:induction false} CaptureSees(chain: Chain, stack: seq<V>, reuse: seq<V>, l: Locals<Proto>)
    requires Sees(chain, stack, reuse, l) && Capture(chain).Some?
    ensures Capture(chain).value == l
  {
    if chain.Link? { CaptureSees(chain.parent, stack, reuse, l.parent); }
  }

  lemma {:induction false} ReadSees(chain: Chain, depth: nat, slot: nat, stack: seq<V>, reuse: seq<V>, l: Locals<Proto>)
    requires Sees(chain, stack, reuse, l) && LocalAt(l, depth, slot).Some?
    ensures ReadLocal(chain, depth, slot, stack, reuse) == LocalAt(l, depth, slot)
  {
    if depth > 0 { ReadSees(chain.parent, depth - 1, slot, stack, reuse, l.parent); }
  }

  // ----- The correctness of emitted code -----

  /** The activation can run code compiled under env: it sees env's frames, and if a lambda
      literal lies ahead, none of them is borrowed from the stack or from a reused buffer. */
  ghost predicate Ready(m: Config, a: Act, sc: Scopes<Lam>, env: Env, stack: seq<V>, lambdas: bool) {
    && a.floor <= |stack|
    && a.sc == TScopes(sc)
    && Sees(a.chain, stack, m.reuse, TLocals(env))
    && Below(a.chain, a.floor)
    && (lambdas ==> Capture(a.chain).Some?)
  }

  ghost predicate Holds(a: Act, at: nat, code: seq<Instr>) {
    at + |code| <= |a.code| && a.code[at..at + |code|] == code
  }

  /** Going on at pc with the value pushed, or failing. */
  function Then(m: Config, a: Act, pc: nat, stack: seq<V>, o: Outcome<Val>): Result {
    match o
    case Ok(v) => Exec(m, a, pc, stack + [TV(v)])
    case Err(e) => Raised(e)
  }

  function ThenAll(m: Config, a: Act, pc: nat, stack: seq<V>, o: Outcome<seq<Val>>): Result {
    match o
    case Ok(vs) => Exec(m, a, pc, stack + MapSeq(T(), vs))
    case Err(e) => Raised(e)
  }

  /** An activation that ends with the value on top of the stack it started with, or fails. */
  function Ends(stack: seq<V>, o: Outcome<Val>): Result {
    match o
    case Ok(v) => Done(stack + [TV(v)])
    case Err(e) => Raised(e)
  }

  lemma HoldsSplit(a: Act, at: nat, c: seq<Instr>, d: seq<Instr>)
    requires Holds(a, at, c + d)
    ensures Holds(a, at, c) && Holds(a, at + |c|, d)
  {
    var s := a.code[at..at + |c + d|];
    assert s[..|c|] == c && s[|c|..] == d;
    assert a.code[at..at + |c|] == s[..|c|];
    assert a.code[at + |c|..at + |c| + |d|] == s[|c|..];
  }

  lemma HoldsOne(a: Act, at: nat, i: Instr)
    requires Holds(a, at, [i])
    ensures at < |a.code| && a.code[at] == i
  {
    assert a.code[at..at + 1][0] == i;
  }

  lemma ReadyGrows(m: Config, a: Act, sc: Scopes<Lam>, env: Env, stack: seq<V>, more: seq<V>, lambdas: bool,
      lambdas': bool)
    requires Ready(m, a, sc, env, stack, lambdas) && (lambdas' ==> lambdas)
    ensures Ready(m, a, sc, env, stack + more, lambdas')
  {
    assert (stack + more)[..a.floor] == stack[..a.floor];
    SeesPrefix(a.chain, stack, stack + more, a.floor, m.reuse, TLocals(env));
  }

  lemma ReadyFor(m: Config, a: Act, sc: Scopes<Lam>, env: Env, stack: seq<V>, lambdas: bool, lambdas': bool)
    requires Ready(m, a, sc, env, stack, lambdas) && (lambdas' ==> lambdas)
    ensures Ready(m, a, sc, env, stack, lambdas')
  {
  }

  /** A plain instruction that pops what was just pushed. */
  lemma PlainStep(m: Config, a: Act, pc: nat, stack: seq<V>, args: seq<V>, i: Instr)
    requires pc < |a.code| && a.code[pc] == i && IsPlain(i) && |args| == Pops(i) && a.floor <= |stack|
    ensures Exec(m, a, pc, stack + args) ==
      match Plain(m, a.sc, a.chain, stack + args, i, args)
      case Push(v) => Exec(m, a, pc + 1, stack + [v])
      case Fail(e) => Raised(e)
      case Fault => Stuck
  {
    assert Taken(stack + args, Pops(i)) == args;
    assert Keep(stack + args, Pops(i)) == stack;
  }

  lemma ConstantRuns(m: Config, a: Act, at: nat, stack: seq<V>, c: Values.Const)
    requires Holds(a, at, [Bytecode.Push(c)]) && a.floor <= |stack|
    ensures Exec(m, a, at, stack) == Exec(m, a, at + 1, stack + [Lit(c)])
  {
    HoldsOne(a, at, Bytecode.Push(c));
    assert stack + [] == stack;
    PlainStep(m, a, at, stack, [], Bytecode.Push(c));
  }

  lemma NameRuns(hs: Host<Lam>, m: Config, x: string, sc: Scopes<Lam>, env: Env, a: Act, at: nat, stack: seq<V>)
    requires Natural(T(), hs, m.host) && Ready(m, a, sc, env, stack, false)
    requires Holds(a, at, [LoadCode(NamesOf(env), x)])
    ensures Exec(m, a, at, stack) ==
      Then(m, a, at + 1, stack, match Lookup(env, x) case Some(v) => Ok(v) case None => LoadName(hs, sc, x))
  {
    var i := LoadCode(NamesOf(env), x);
    HoldsOne(a, at, i);
    assert stack + [] == stack;
    PlainStep(m, a, at, stack, [], i);
    LookupAddress(env, x);
    match Resolve(NamesOf(env), x)
    case None => LoadNatural(T(), hs, m.host, n => true, sc, x);
    case Some(ad) =>
      LocalAtMap(T(), env, ad.depth, ad.slot);
      ReadSees(a.chain, ad.depth, ad.slot, stack, m.reuse, TLocals(env));
  }

  lemma LambdaRuns(m: Config, ps: seq<string>, b: Expr, sc: Scopes<Lam>, env: Env, a: Act, at: nat, stack: seq<V>)
    requires Ready(m, a, sc, env, stack, true)
    requires Holds(a, at, [MakeClosure(ProtoOf(ps, b, NamesOf(env)))])
    ensures Exec(m, a, at, stack) == Exec(m, a, at + 1, stack + [TV(Clo(Lam(ps, b), sc, env))])
  {
    var i := MakeClosure(ProtoOf(ps, b, NamesOf(env)));
    HoldsOne(a, at, i);
    assert stack + [] == stack;
    PlainStep(m, a, at, stack, [], i);
    CaptureSees(a.chain, stack, m.reuse, TLocals(env));
    ClosureCompiles(Lam(ps, b), sc, env);
  }

  /** Running the code emitted for e, wherever it sits and whatever the stack holds, pushes
      exactly e's value or fails with exactly e's error. */
  lemma {:induction false} CodeRuns(hs: Host<Lam>, m: Config, e: Expr, sc: Scopes<Lam>, env: Env, a: Act, at: nat,
      stack: seq<V>, code: seq<Instr>, o: Outcome<Val>)
    requires Natural(T(), hs, m.host)
    requires code == Code(e, NamesOf(env), at) && Holds(a, at, code)
    requires Ready(m, a, sc, env, stack, HasLambda(e))
    requires o == Eval(hs, m.limit, e, sc, env, a.d)
    ensures Exec(m, a, at, stack) == Then(m, a, at + |code|, stack, o)
    decreases m.limit - a.d, Size(e), 1
  {
    FormSmaller(e);
    FormRuns(hs, m, FormOf(e), sc, env, a, at, stack, code, o);
  }

  lemma {:induction false} FormRuns(hs: Host<Lam>, m: Config, f: Form, sc: Scopes<Lam>, env: Env, a: Act, at: nat,
      stack: seq<V>, code: seq<Instr>, o: Outcome<Val>)
    requires Natural(T(), hs, m.host) && FormFits(f)
    requires code == FormCode(f, NamesOf(env), at) && Holds(a, at, code)
    requires Ready(m, a, sc, env, stack, HasLambdaForm(f))
    requires o == EvalForm(hs, m.limit, f, sc, env, a.d)
    ensures Exec(m, a, at, stack) == Then(m, a, at + |code|, stack, o)
    decreases m.limit - a.d, FormSize(f), 5
  {
    match f
    case Constant(c) => ConstantRuns(m, a, at, stack, c);
    case Name(x) => NameRuns(hs, m, x, sc, env, a, at, stack);
    case Closure(ps, b) => LambdaRuns(m, ps, b, sc, env, a, at, stack);
    case Binding(_, _, _) => BindingRuns(hs, m, f, sc, env, a, at, stack, code, o);
    case Branch(_, _, _) => ConditionalRuns(hs, m, f, sc, env, a, at, stack, code, o);
    case Fallback(_, _) => FallbackRuns(hs, m, f, sc, env, a, at, stack, code, o);
    case Invoke(_) => InvokeRuns(hs, m, f, sc, env, a, at, stack, code, o);
    case Strict(_, _) => StrictRuns(hs, m, f, sc, env, a, at, stack, code, o);
  }

  lemma {:induction false} BindingRuns(hs: Host<Lam>, m: Config, f: Form, sc: Scopes<Lam>, env: Env, a: Act, at: nat,
      stack: seq<V>, code: seq<Instr>, o: Outcome<Val>)
    requires Natural(T(), hs, m.host) && FormFits(f)
    requires code == FormCode(f, NamesOf(env), at) && Holds(a, at, code)
    requires Ready(m, a, sc, env, stack, HasLambdaForm(f))
    requires o == EvalForm(hs, m.limit, f, sc, env, a.d)
    requires f.Binding?
    ensures Exec(m, a, at, stack) == Then(m, a, at + |code|, stack, o)
    decreases m.limit - a.d, FormSize(f), 4
  {
    var Binding(x, v, b) := f;
    var cv := Code(v, NamesOf(env), at);
    var cb := Code(b, NamesOf(env) + [[x]], 0);
    var i, pc := Bytecode.Let(x, cb), at + |cv|;
    HoldsSplit(a, at, cv, [i]);
    HoldsOne(a, pc, i);
    ReadyFor(m, a, sc, env, stack, HasLambdaForm(f), HasLambda(v));
    var ov := Eval(hs, m.limit, v, sc, env, a.d);
    CodeRuns(hs, m, v, sc, env, a, at, stack, cv, ov);
    if ov.Ok? {
      if a.d < m.limit { LetBodyRuns(hs, m, x, b, sc, env, a, stack, ov.v, cb, HasLambdaForm(f), o); }
      LetJoins(m, a, pc, at + |code|, stack, TV(ov.v), x, cb, o);
    }
  }

  lemma {:induction false} LetBodyRuns(hs: Host<Lam>, m: Config, x: string, b: Expr, sc: Scopes<Lam>, env: Env, a: Act,
      stack: seq<V>, v: Val, cb: seq<Instr>, lambdas: bool, o: Outcome<Val>)
    requires Natural(T(), hs, m.host) && a.d < m.limit
    requires cb == Code(b, NamesOf(env) + [[x]], 0) && Ready(m, a, sc, env, stack, lambdas) &&
        (HasLambda(b) ==> lambdas)
    requires o == Eval(hs, m.limit, b, sc, Frame(env, [Bind(x, v)]), a.d + 1)
    ensures Exec(m, LetAct(a, x, cb, stack + [TV(v)]), 0, stack) == Ends(stack, o)
    decreases m.limit - a.d, Size(b), 3
  {
    var a' := LetAct(a, x, cb, stack + [TV(v)]);
    LetReady(m, a, sc, env, stack, x, v, cb, lambdas);
    ReadyFor(m, a', sc, Frame(env, [Bind(x, v)]), stack, lambdas, HasLambda(b));
    assert a'.code[0..|cb|] == cb;
    CodeRuns(hs, m, b, sc, Frame(env, [Bind(x, v)]), a', 0, stack, cb, o);
  }

  lemma LetJoins(m: Config, a: Act, pc: nat, end: nat, stack: seq<V>, v: V, x: string, body: seq<Instr>,
      o: Outcome<Val>)
    requires pc < |a.code| && a.code[pc] == Bytecode.Let(x, body) && a.floor <= |stack| && end == pc + 1
    requires a.d < m.limit ==> Exec(m, LetAct(a, x, body, stack + [v]), 0, stack) == Ends(stack, o)
    requires a.d >= m.limit ==> o == Err(DepthExceeded)
    ensures Exec(m, a, pc, stack + [v]) == Then(m, a, end, stack, o)
  {
    LetRuns(m, a, pc, stack, v, x, body);
  }

  lemma LetRuns(m: Config, a: Act, pc: nat, stack: seq<V>, v: V, x: string, body: seq<Instr>)
    requires pc < |a.code| && a.code[pc] == Bytecode.Let(x, body) && a.floor <= |stack|
    ensures Exec(m, a, pc, stack + [v]) ==
      if a.d >= m.limit then Raised(DepthExceeded)
      else match Exec(m, LetAct(a, x, body, stack + [v]), 0, stack)
           case Done(st) => Exec(m, a, pc + 1, st)
           case r => r
  {
    assert Keep(stack + [v], 1) == stack;
  }

  lemma LetReady(m: Config, a: Act, sc: Scopes<Lam>, env: Env, stack: seq<V>, x: string, v: Val, body: seq<Instr>,
      lambdas: bool)
    requires Ready(m, a, sc, env, stack, lambdas)
    ensures
      var env' := Frame(env, [Bind(x, v)]);
      && Ready(m, LetAct(a, x, body, stack + [TV(v)]), sc, env', stack, lambdas)
      && NamesOf(env') == NamesOf(env) + [[x]]
  {
    var env' := Frame(env, [Bind(x, v)]);
    assert BindNames(env'.binds) == [x];
    assert TLocals(env').binds == [Bind(x, TV(v))];
    BelowHigher(a.chain, a.floor, |stack|);
  }

  lemma {:induction false} ConditionalRuns(hs: Host<Lam>, m: Config, f: Form, sc: Scopes<Lam>, env: Env, a: Act,
      at: nat, stack: seq<V>, code: seq<Instr>, o: Outcome<Val>)
    requires Natural(T(), hs, m.host) && FormFits(f)
    requires code == FormCode(f, NamesOf(env), at) && Holds(a, at, code)
    requires Ready(m, a, sc, env, stack, HasLambdaForm(f))
    requires o == EvalForm(hs, m.limit, f, sc, env, a.d)
    requires f.Branch?
    ensures Exec(m, a, at, stack) == Then(m, a, at + |code|, stack, o)
    decreases m.limit - a.d, FormSize(f), 4
  {
    var Branch(c, yes, no) := f;
    var cc := Code(c, NamesOf(env), at);
    var ay := at + |cc| + 1;
    var cy := Code(yes, NamesOf(env), ay);
    var an := at + |cc| + |cy| + 2;
    var cn := Code(no, NamesOf(env), an);
    BranchHolds(a, at, cc, cy, cn, ay, an, at + |code|, code);
    BranchRuns(hs, m, f, sc, env, a, at, ay, an, at + |code|, stack, cc, cy, cn, HasLambdaForm(f), o);
  }

  lemma {:induction false} BranchRuns(hs: Host<Lam>, m: Config, f: Form, sc: Scopes<Lam>, env: Env, a: Act,
      at: nat, ay: nat, an: nat, end: nat, stack: seq<V>, cc: seq<Instr>, cy: seq<Instr>, cn: seq<Instr>,
      lambdas: bool, o: Outcome<Val>)
    requires Natural(T(), hs, m.host) && f.Branch?
    requires cc == Code(f.cond, NamesOf(env), at) && cy == Code(f.yes, NamesOf(env), ay) &&
        cn == Code(f.no, NamesOf(env), an)
    requires Holds(a, at, cc) && Holds(a, ay, cy) && Holds(a, an, cn)
    requires BranchShape(a, at, ay, an, end) && at + |cc| == ay - 1 && ay + |cy| == an - 1 && an + |cn| == end
    requires Ready(m, a, sc, env, stack, lambdas) &&
        (HasLambda(f.cond) || HasLambda(f.yes) || HasLambda(f.no) ==> lambdas)
    requires o == EvalForm(hs, m.limit, f, sc, env, a.d)
    ensures Exec(m, a, at, stack) == Then(m, a, end, stack, o)
    decreases m.limit - a.d, FormSize(f), 3
  {
    var oc := Eval(hs, m.limit, f.cond, sc, env, a.d);
    ReadyFor(m, a, sc, env, stack, lambdas, HasLambda(f.cond));
    CodeRuns(hs, m, f.cond, sc, env, a, at, stack, cc, oc);
    if Condition(oc) == Ok(true) {
      ReadyFor(m, a, sc, env, stack, lambdas, HasLambda(f.yes));
      CodeRuns(hs, m, f.yes, sc, env, a, ay, stack, cy, o);
    } else if Condition(oc).Ok? {
      ReadyFor(m, a, sc, env, stack, lambdas, HasLambda(f.no));
      CodeRuns(hs, m, f.no, sc, env, a, an, stack, cn, o);
    }
    BranchJoins(m, a, at, ay, an, end, stack, oc, o);
  }

  /** With the parts of a conditional running as their outcomes say, so does the whole; o is the
      outcome of the arm that is taken, or the failure of the condition. */
  lemma BranchJoins(m: Config, a: Act, at: nat, ay: nat, an: nat, end: nat, stack: seq<V>, oc: Outcome<Val>,
      o: Outcome<Val>)
    requires BranchShape(a, at, ay, an, end) && a.floor <= |stack|
    requires Exec(m, a, at, stack) == Then(m, a, ay - 1, stack, oc)
    requires Condition(oc) == Ok(true) ==> Exec(m, a, ay, stack) == Then(m, a, an - 1, stack, o)
    requires Condition(oc) == Ok(false) ==> Exec(m, a, an, stack) == Then(m, a, end, stack, o)
    requires Condition(oc).Err? ==> o == Err(Condition(oc).e)
    ensures Exec(m, a, at, stack) == Then(m, a, end, stack, o)
  {
    if oc.Ok? { BranchJumps(m, a, at, ay, an, end, stack, TV(oc.v)); }
    if o.Ok? { BranchEnds(m, a, at, ay, an, end, stack + [TV(o.v)]); }
  }

  /** The jump before ay goes to an when the condition is false, the one before an to the end. */
  ghost predicate BranchShape(a: Act, at: nat, ay: nat, an: nat, end: nat) {
    && at < ay < an <= end <= |a.code|
    && a.code[ay - 1] == JumpIfFalse(an)
    && a.code[an - 1] == Jump(end)
  }

  lemma BranchHolds(a: Act, at: nat, cc: seq<Instr>, cy: seq<Instr>, cn: seq<Instr>, ay: nat, an: nat, end: nat,
      code: seq<Instr>)
    requires code == BranchCode(at, cc, cy, cn) && Holds(a, at, code)
    requires ay == at + |cc| + 1 && an == at + |cc| + |cy| + 2 && end == at + |code|
    ensures Holds(a, at, cc) && Holds(a, ay, cy) && Holds(a, an, cn)
    ensures BranchShape(a, at, ay, an, end) && an + |cn| == end
  {
    var j := [JumpIfFalse(at + |cc| + |cy| + 2)];
    var k := [Jump(at + |cc| + |cy| + 2 + |cn|)];
    HoldsSplit(a, at, cc + j + cy + k, cn);
    HoldsSplit(a, at, cc + j + cy, k);
    HoldsSplit(a, at, cc + j, cy);
    HoldsSplit(a, at, cc, j);
    HoldsOne(a, at + |cc|, j[0]);
    HoldsOne(a, at + |cc| + |cy| + 1, k[0]);
  }

  lemma BranchJumps(m: Config, a: Act, at: nat, ay: nat, an: nat, end: nat, stack: seq<V>, v: V)
    requires BranchShape(a, at, ay, an, end) && a.floor <= |stack|
    ensures Exec(m, a, ay - 1, stack + [v]) ==
      if v == Truth(true) then Exec(m, a, ay, stack) else if v ==
        Truth(false) then Exec(m, a, an, stack) else Raised(NotBool)
  {
    assert Keep(stack + [v], 1) == stack;
  }

  lemma BranchEnds(m: Config, a: Act, at: nat, ay: nat, an: nat, end: nat, stack: seq<V>)
    requires BranchShape(a, at, ay, an, end)
    ensures Exec(m, a, an - 1, stack) == Exec(m, a, end, stack)
  {
  }

  lemma {:induction false} FallbackRuns(hs: Host<Lam>, m: Config, f: Form, sc: Scopes<Lam>, env: Env, a: Act, at: nat,
      stack: seq<V>, code: seq<Instr>, o: Outcome<Val>)
    requires Natural(T(), hs, m.host) && FormFits(f)
    requires code == FormCode(f, NamesOf(env), at) && Holds(a, at, code)
    requires Ready(m, a, sc, env, stack, HasLambdaForm(f))
    requires o == EvalForm(hs, m.limit, f, sc, env, a.d)
    requires f.Fallback?
    ensures Exec(m, a, at, stack) == Then(m, a, at + |code|, stack, o)
    decreases m.limit - a.d, FormSize(f), 4
  {
    var Fallback(l, r) := f;
    var pc := at + 1;
    var cl, cr := Code(l, NamesOf(env), 0), Code(r, NamesOf(env), pc);
    var end := at + |code|;
    var i := Bytecode.Coalesce(cl, at + 1 + |cr|);
    assert i == Bytecode.Coalesce(cl, end);
    HoldsSplit(a, at, [i], cr);
    HoldsOne(a, at, i);
    ReadyFor(m, a, sc, env, stack, HasLambdaForm(f), HasLambda(r));
    CodeRuns(hs, m, r, sc, env, a, pc, stack, cr, Eval(hs, m.limit, r, sc, env, a.d));
    if a.d < m.limit {
      var ol := Eval(hs, m.limit, l, sc, env, a.d + 1);
      LeftRuns(hs, m, l, sc, env, a, stack, cl, HasLambdaForm(f), ol);
      CoalesceJoins(hs, m, a, at, stack, cl, end, ol);
    }
  }

  lemma {:induction false} LeftRuns(hs: Host<Lam>, m: Config, l: Expr, sc: Scopes<Lam>, env: Env, a: Act,
      stack: seq<V>, cl: seq<Instr>, lambdas: bool, o: Outcome<Val>)
    requires Natural(T(), hs, m.host) && a.d < m.limit
    requires cl == Code(l, NamesOf(env), 0) && Ready(m, a, sc, env, stack, lambdas) && (HasLambda(l) ==> lambdas)
    requires o == Eval(hs, m.limit, l, sc, env, a.d + 1)
    ensures Exec(m, LeftAct(a, cl, stack), 0, stack) == Ends(stack, o)
    decreases m.limit - a.d, Size(l), 3
  {
    ReadyFor(m, a, sc, env, stack, lambdas, HasLambda(l));
    LeftReady(m, a, sc, env, stack, cl, HasLambda(l));
    CodeRuns(hs, m, l, sc, env, LeftAct(a, cl, stack), 0, stack, cl, o);
  }

  lemma LeftReady(m: Config, a: Act, sc: Scopes<Lam>, env: Env, stack: seq<V>, left: seq<Instr>, lambdas: bool)
    requires Ready(m, a, sc, env, stack, lambdas)
    ensures Ready(m, LeftAct(a, left, stack), sc, env, stack, lambdas) && Holds(LeftAct(a, left, stack), 0, left)
  {
    BelowHigher(a.chain, a.floor, |stack|);
    assert left[0..|left|] == left;
  }

  /** `??` in isolation: whatever the left operand did, the right one starts from the very stack,
      bindings and scopes that were there before it; a left value that is not nil skips it. */
  lemma CoalesceJoins(hs: Host<Lam>, m: Config, a: Act, at: nat, stack: seq<V>, left: seq<Instr>, end: nat,
      ol: Outcome<Val>)
    requires at < end <= |a.code| && a.code[at] == Bytecode.Coalesce(left, end) && a.d < m.limit
    requires m.host.isNil == hs.isNil
    requires Exec(m, LeftAct(a, left, stack), 0, stack) == Ends(stack, ol)
    ensures Exec(m, a, at, stack) ==
      match ol
      case Ok(v) => if IsNil(hs, v) then Exec(m, a, at + 1, stack) else Exec(m, a, end, stack + [TV(v)])
      case Err(_) => Exec(m, a, at + 1, stack)
  {
    if ol.Ok? {
      var st := stack + [TV(ol.v)];
      assert Exec(m, LeftAct(a, left, stack), 0, stack) == Done(st);
      assert Keep(st, 1) == stack;
    }
  }

  lemma {:induction false} StrictRuns(hs: Host<Lam>, m: Config, f: Form, sc: Scopes<Lam>, env: Env, a: Act, at: nat,
      stack: seq<V>, code: seq<Instr>, o: Outcome<Val>)
    requires Natural(T(), hs, m.host) && FormFits(f)
    requires code == FormCode(f, NamesOf(env), at) && Holds(a, at, code)
    requires Ready(m, a, sc, env, stack, HasLambdaForm(f))
    requires o == EvalForm(hs, m.limit, f, sc, env, a.d)
    requires f.Strict?
    ensures Exec(m, a, at, stack) == Then(m, a, at + |code|, stack, o)
    decreases m.limit - a.d, FormSize(f), 4
  {
    var Strict(op, ops) := f;
    var co := CodeOps(ops, NamesOf(env), at);
    HoldsSplit(a, at, co, [Do(op)]);
    HoldsOne(a, at + |co|, Do(op));
    StrictEnds(hs, m, op, ops, sc, env, a, at, at + |co|, at + |code|, stack, co,
      EvalOps(hs, m.limit, ops, sc, env, a.d));
  }

  lemma {:induction false} StrictEnds(hs: Host<Lam>, m: Config, op: Operator, ops: Operands, sc: Scopes<Lam>, env: Env,
      a: Act, at: nat, pc: nat, end: nat, stack: seq<V>, co: seq<Instr>, vs: Outcome<seq<Val>>)
    requires Natural(T(), hs, m.host) && OpCount(ops) == Arity(op)
    requires co == CodeOps(ops, NamesOf(env), at) && Holds(a, at, co) && pc == at + |co| && end == pc + 1
    requires pc < |a.code| && a.code[pc] == Do(op)
    requires Ready(m, a, sc, env, stack, HasLambdaOp(ops)) && vs == EvalOps(hs, m.limit, ops, sc, env, a.d)
    ensures vs.Err? ==> Exec(m, a, at, stack) == Raised(vs.e)
    ensures vs.Ok? ==> Exec(m, a, at, stack) == Then(m, a, end, stack, Operate(hs, op, vs.v))
    decreases m.limit - a.d, OpSize(ops), 3, 1
  {
    OpsRun(hs, m, ops, sc, env, a, at, stack, co, vs);
    if vs.Ok? { StrictJoins(hs, m, a, pc, end, stack, op, vs.v); }
  }

  lemma StrictJoins(hs: Host<Lam>, m: Config, a: Act, pc: nat, end: nat, stack: seq<V>, op: Operator, vs: seq<Val>)
    requires Natural(T(), hs, m.host) && |vs| == Arity(op) && a.floor <= |stack|
    requires pc < |a.code| && a.code[pc] == Do(op) && end == pc + 1
    ensures Exec(m, a, pc, stack + MapSeq(T(), vs)) == Then(m, a, end, stack, Operate(hs, op, vs))
  {
    PlainStep(m, a, pc, stack, MapSeq(T(), vs), Do(op));
    OperateNatural(T(), hs, m.host, op, vs);
  }

  lemma {:induction false} OpsRun(hs: Host<Lam>, m: Config, ops: Operands, sc: Scopes<Lam>, env: Env, a: Act, at: nat,
      stack: seq<V>, code: seq<Instr>, o: Outcome<seq<Val>>)
    requires Natural(T(), hs, m.host)
    requires code == CodeOps(ops, NamesOf(env), at) && Holds(a, at, code)
    requires Ready(m, a, sc, env, stack, HasLambdaOp(ops))
    requires o == EvalOps(hs, m.limit, ops, sc, env, a.d)
    ensures Exec(m, a, at, stack) == ThenAll(m, a, at + |code|, stack, o)
    decreases m.limit - a.d, OpSize(ops), 3, 0
  {
    ListSize(ops);
    AllRun(hs, m, ListOf(ops), sc, env, a, at, stack, code, o);
  }

  lemma {:induction false} AllRun(hs: Host<Lam>, m: Config, es: seq<Expr>, sc: Scopes<Lam>, env: Env, a: Act, at: nat,
      stack: seq<V>, code: seq<Instr>, o: Outcome<seq<Val>>)
    requires Natural(T(), hs, m.host)
    requires code == CodeAll(es, NamesOf(env), at) && Holds(a, at, code)
    requires Ready(m, a, sc, env, stack, HasLambdas(es))
    requires o == EvalAll(hs, m.limit, es, sc, env, a.d)
    ensures Exec(m, a, at, stack) == ThenAll(m, a, at + |code|, stack, o)
    decreases m.limit - a.d, SizeAll(es), 2
  {
    if es == [] {
      assert stack + MapSeq(T(), []) == stack;
    } else {
      var c := Code(es[0], NamesOf(env), at);
      var pc := at + |c|;
      var rest := CodeAll(es[1..], NamesOf(env), pc);
      HoldsSplit(a, at, c, rest);
      ReadyFor(m, a, sc, env, stack, HasLambdas(es), HasLambda(es[0]));
      var o1 := Eval(hs, m.limit, es[0], sc, env, a.d);
      CodeRuns(hs, m, es[0], sc, env, a, at, stack, c, o1);
      if o1.Ok? {
        var os := EvalAll(hs, m.limit, es[1..], sc, env, a.d);
        ReadyGrows(m, a, sc, env, stack, [TV(o1.v)], HasLambdas(es), HasLambdas(es[1..]));
        AllRun(hs, m, es[1..], sc, env, a, pc, stack + [TV(o1.v)], rest, os);
        AllJoins(m, a, at + |code|, stack, o1.v, os);
      }
    }
  }

  lemma AllJoins(m: Config, a: Act, pc: nat, stack: seq<V>, v: Val, os: Outcome<seq<Val>>)
    ensures ThenAll(m, a, pc, stack + [TV(v)], os) ==
      if os.Err? then Raised(os.e) else ThenAll(m, a, pc, stack, Ok([v] + os.v))
  {
    if os.Ok? {
      assert MapSeq(T(), [v] + os.v) == [TV(v)] + MapSeq(T(), os.v);
      assert stack + ([TV(v)] + MapSeq(T(), os.v)) == stack + [TV(v)] + MapSeq(T(), os.v);
    }
  }

  lemma {:induction false} InvokeRuns(hs: Host<Lam>, m: Config, f: Form, sc: Scopes<Lam>, env: Env, a: Act, at: nat,
      stack: seq<V>, code: seq<Instr>, o: Outcome<Val>)
    requires Natural(T(), hs, m.host) && FormFits(f)
    requires code == FormCode(f, NamesOf(env), at) && Holds(a, at, code)
    requires Ready(m, a, sc, env, stack, HasLambdaForm(f))
    requires o == EvalForm(hs, m.limit, f, sc, env, a.d)
    requires f.Invoke?
    ensures Exec(m, a, at, stack) == Then(m, a, at + |code|, stack, o)
    decreases m.limit - a.d, FormSize(f), 4
  {
    var Invoke(ops) := f;
    var co := CodeOps(ops, NamesOf(env), at);
    var i := Bytecode.Call(OpCount(ops) - 1);
    HoldsSplit(a, at, co, [i]);
    HoldsOne(a, at + |co|, i);
    InvokeEnds(hs, m, ops, sc, env, a, at, at + |co|, at + |code|, stack, co, EvalOps(hs, m.limit, ops, sc, env, a.d));
  }

  lemma {:induction false} InvokeEnds(hs: Host<Lam>, m: Config, ops: Operands, sc: Scopes<Lam>, env: Env, a: Act,
      at: nat, pc: nat, end: nat, stack: seq<V>, co: seq<Instr>, vs: Outcome<seq<Val>>)
    requires Natural(T(), hs, m.host) && OpCount(ops) > 0
    requires co == CodeOps(ops, NamesOf(env), at) && Holds(a, at, co) && pc == at + |co| && end == pc + 1
    requires pc < |a.code| && a.code[pc] == Bytecode.Call(OpCount(ops) - 1)
    requires Ready(m, a, sc, env, stack, HasLambdaOp(ops)) && vs == EvalOps(hs, m.limit, ops, sc, env, a.d)
    ensures vs.Err? ==> Exec(m, a, at, stack) == Raised(vs.e)
    ensures vs.Ok? ==> Exec(m, a, at, stack) == Then(m, a, end, stack, Apply(hs, m.limit, vs.v[0], vs.v[1..], a.d))
    decreases m.limit - a.d, OpSize(ops), 3, 1
  {
    OpsRun(hs, m, ops, sc, env, a, at, stack, co, vs);
    if vs.Ok? { CallRuns(hs, m, vs.v, a, pc, stack); }
  }

  lemma {:induction false} CallRuns(hs: Host<Lam>, m: Config, vs: seq<Val>, a: Act, pc: nat, stack: seq<V>)
    requires Natural(T(), hs, m.host)
    requires |vs| > 0 && pc < |a.code| && a.code[pc] == Bytecode.Call(|vs| - 1) && a.floor <= |stack|
    ensures Exec(m, a, pc, stack + MapSeq(T(), vs)) ==
      Then(m, a, pc + 1, stack, Apply(hs, m.limit, vs[0], vs[1..], a.d))
    decreases m.limit - a.d, 0, 1
  {
    var n := |vs| - 1;
    var callee, vals := vs[0], vs[1..];
    var st := stack + MapSeq(T(), vs);
    var args := MapSeq(T(), vals);
    assert Taken(st, n) == args && st[|st| - 1 - n] == TV(callee) && Keep(st, n + 1) == stack;
    if callee.Clo? {
      ClosureCompiles(callee.fn, callee.scopes, callee.locals);
      if |callee.fn.params| == n && a.d < m.limit {
        if Flattens(m, TV(callee)) {
          BodyRuns(hs, m, callee, vals, FlatAct(a, TV(callee), n, st), st);
          FlatReturns(m, a, pc, n, stack, st, Apply(hs, m.limit, callee, vals, a.d));
        } else {
          BodyRuns(hs, m, callee, vals, CallAct(a, TV(callee), args, st), stack);
        }
      }
    } else {
      var q := Calling(callee, vals);
      assert m.host.ask(MapQuestion(T(), q)) == MapOutcome(T(), hs.ask(q));
    }
  }

  /** Compacting a flattened call's result onto the callee's slot leaves what a plain call leaves. */
  lemma FlatReturns(m: Config, a: Act, pc: nat, n: nat, stack: seq<V>, st: seq<V>, o: Outcome<Val>)
    requires pc < |a.code| && a.code[pc] == Bytecode.Call(n) && n < |st| && Keep(st, n + 1) == stack &&
        a.floor <= |stack|
    requires Calls(st[|st| - 1 - n], Taken(st, n)) && a.d < m.limit && Flattens(m, st[|st| - 1 - n])
    requires Exec(m, FlatAct(a, st[|st| - 1 - n], n, st), 0, st) == Ends(st, o)
    ensures Exec(m, a, pc, st) == Then(m, a, pc + 1, stack, o)
  {
    if o.Ok? {
      assert (st + [TV(o.v)])[..|st|] == st;
    }
  }

  /** A lambda's body, run in any kind of frame, leaves its value above the stack it started with. */
  lemma {:induction false} BodyRuns(hs: Host<Lam>, m: Config, callee: Val, vals: seq<Val>, a: Act, stack: seq<V>)
    requires Natural(T(), hs, m.host)
    requires callee.Clo? && |callee.fn.params| == |vals|
    requires BodyAct(m, callee, vals, a, stack)
    ensures Exec(m, a, 0, stack) ==
      Ends(stack, Eval(hs, m.limit, callee.fn.body, callee.scopes,
        Frame(callee.locals, BindAll(callee.fn.params, vals)), a.d))
    decreases m.limit - a.d, Size(callee.fn.body), 2
  {
    var env := Frame(callee.locals, BindAll(callee.fn.params, vals));
    BodyReady(m, callee, vals, a, stack);
    CodeRuns(hs, m, callee.fn.body, callee.scopes, env, a, 0, stack, a.code,
      Eval(hs, m.limit, callee.fn.body, callee.scopes, env, a.d));
  }

  /** a is about to run callee's body on vals, its frame being fresh, or borrowed if the body
      contains no closure literal. */
  ghost predicate BodyAct(m: Config, callee: Val, vals: seq<Val>, a: Act, stack: seq<V>)
    requires callee.Clo? && |callee.fn.params| == |vals|
  {
    var proto := ProtoOf(callee.fn.params, callee.fn.body, NamesOf(callee.locals));
    && a.floor == |stack| && a.sc == TScopes(callee.scopes) && a.code == proto.code
    && a.chain.Link? && a.chain.parent == Embed(TLocals(callee.locals))
    && (a.chain.slots == Own(BindAll(proto.params, MapSeq(T(), vals))) ||
        (proto.noEscape && Borrows(a.chain.slots, proto.params, MapSeq(T(), vals), stack, m.reuse)))
  }

  /** slots reads args from the top of the stack or from the reused buffer. */
  ghost predicate Borrows(slots: Slots, params: seq<string>, args: seq<V>, stack: seq<V>, reuse: seq<V>) {
    && |params| == |args|
    && ((|args| <= |stack| && slots == View(params, |stack| - |args|) && stack[|stack| - |args|..] == args) ||
        (slots == Reused(params) && reuse == args))
  }

  lemma BodyReady(m: Config, callee: Val, vals: seq<Val>, a: Act, stack: seq<V>)
    requires callee.Clo? && |callee.fn.params| == |vals|
    requires BodyAct(m, callee, vals, a, stack)
    ensures
      var env := Frame(callee.locals, BindAll(callee.fn.params, vals));
      && Ready(m, a, callee.scopes, env, stack, HasLambda(callee.fn.body))
      && a.code == Code(callee.fn.body, NamesOf(env), 0)
      && Holds(a, 0, a.code)
  {
    var env := Frame(callee.locals, BindAll(callee.fn.params, vals));
    assert BindNames(env.binds) == callee.fn.params;
    ClosureLiterals(callee.fn.body, NamesOf(env), 0);
    EmbedSees(TLocals(callee.locals), stack, m.reuse, a.floor);
    assert TLocals(env).binds == BindAll(callee.fn.params, MapSeq(T(), vals));
  }
}
