// The whole pipeline: what a run of the loop on emitted code returns, where it leaves the
// machine, and that its two shortcuts cannot be observed.

module Correctness {
  import opened Values
  import opened Mapping
  import opened Syntax
  import opened CompilerSpec
  import opened Machine
  import opened Semantics
  import opened Compiled
  import opened Trampoline

  /** A run that ended with outcome o and put the machine back as it was, except that a value is
      left on the stack for the caller to pop. */
  function Finish(stack: seq<V>, frames: seq<Activation>, o: Outcome<Val>): Next {
    match o
    case Ok(v) => Returned(stack + [TV(v)], frames)
    case Err(e) => Failed(e, stack, frames)
  }

  lemma RunEnds(m: Config, a: Act, stack: seq<V>, frames: seq<Activation>, o: Outcome<Val>) returns (n: nat)
    requires a.floor == |stack| && a.d == |frames|
    requires Exec(m, a, 0, stack) == Ends(stack, o)
    ensures n > 0 && Iter(m, |frames|, n, Start(a.code, a.sc, a.chain, stack, frames)) == Finish(stack, frames, o)
  {
    var s0 := Start(a.code, a.sc, a.chain, stack, frames);
    var k, s := Simulates(m, a, 0, stack, s0.cur, frames, |frames|);
    IterAdd(m, |frames|, k, 1, s0, s);
    IterOne(m, |frames|, s);
    assert s.error.Some? ==> s.stack[..|stack|] == stack[..|stack|] == stack;
    n := k + 1;
  }

  /** Every run of an emitted program ends, never panics, returns exactly the expression's value
      or error, and leaves the stack and the frames it found. */
  lemma ProgramRuns(hs: Host<Lam>, m: Config, e: Expr, sc: Scopes<Lam>, stack: seq<V>, frames: seq<Activation>)
    returns (n: nat)
    requires Natural(T(), hs, m.host)
    ensures n > 0 && Iter(m, |frames|, n, Start(Code(e, [], 0), TScopes(sc), Bottom, stack, frames)) ==
      Finish(stack, frames, Eval(hs, m.limit, e, sc, Root, |frames|))
  {
    var code := Code(e, [], 0);
    var a := Act(code, TScopes(sc), Bottom, |stack|, |frames|);
    var o := Eval(hs, m.limit, e, sc, Root, |frames|);
    assert a.code[0..|code|] == code;
    CodeRuns(hs, m, e, sc, Root, a, 0, stack, code, o);
    n := RunEnds(m, a, stack, frames, o);
  }

  /** What calling a value from outside the loop gives, with d activations suspended. */
  function Called(h: Host<Lam>, limit: nat, callee: Val, args: seq<Val>, d: nat): Outcome<Val> {
    if !callee.Clo? then h.ask(Calling(callee, args))
    else if |callee.fn.params| != |args| then Err(ArgCount(|callee.fn.params|, |args|))
    else Eval(h, limit, callee.fn.body, callee.scopes, Frame(callee.locals, BindAll(callee.fn.params, args)), d)
  }

  /** A lambda's body, run from outside the loop in a fresh frame or in a borrowed one. */
  lemma BodyEnds(hs: Host<Lam>, m: Config, callee: Val, vals: seq<Val>, a: Act, stack: seq<V>, frames: seq<Activation>)
    returns (n: nat)
    requires Natural(T(), hs, m.host)
    requires callee.Clo? && |callee.fn.params| == |vals| && a.d == |frames|
    requires BodyAct(m, callee, vals, a, stack)
    ensures n > 0 && Iter(m, |frames|, n, Start(a.code, a.sc, a.chain, stack, frames)) ==
      Finish(stack, frames, Called(hs, m.limit, callee, vals, |frames|))
  {
    BodyRuns(hs, m, callee, vals, a, stack);
    n := RunEnds(m, a, stack, frames, Called(hs, m.limit, callee, vals, |frames|));
  }

  lemma {:induction false} IterFinal(m: Config, bottom: nat, n: nat, k: nat, s: State)
    requires !Iter(m, bottom, n, s).More? && n <= k
    ensures Iter(m, bottom, k, s) == Iter(m, bottom, n, s)
  {
    var r := Step(m, bottom, s);
    if n > 0 && r.More? { IterFinal(m, bottom, n - 1, k - 1, r.s); }
  }

  /** Keeping a NoEscape closure's arguments on the operand stack cannot be observed: a machine
      that does and one that allocates a frame for every call end every program alike. */
  lemma FlatteningUnobservable(hs: Host<Lam>, m: Config, m': Config, e: Expr, sc: Scopes<Lam>, stack: seq<V>,
      frames: seq<Activation>)
    returns (n: nat)
    requires Natural(T(), hs, m.host) && m' == m.(flat := !m.flat)
    ensures
      var s := Start(Code(e, [], 0), TScopes(sc), Bottom, stack, frames);
      && !Iter(m, |frames|, n, s).More? && !Iter(m, |frames|, n, s).Panic?
      && Iter(m', |frames|, n, s) == Iter(m, |frames|, n, s)
  {
    var k := ProgramRuns(hs, m, e, sc, stack, frames);
    var l := ProgramRuns(hs, m', e, sc, stack, frames);
    n := k + l;
    IterFinal(m, |frames|, k, n, Start(Code(e, [], 0), TScopes(sc), Bottom, stack, frames));
    IterFinal(m', |frames|, l, n, Start(Code(e, [], 0), TScopes(sc), Bottom, stack, frames));
  }

  /** A NoEscape closure called in a frame whose values are a buffer that later calls overwrite
      gives what it gives in a frame of its own. */
  lemma ReuseUnobservable(hs: Host<Lam>, m: Config, callee: Val, vals: seq<Val>, stack: seq<V>, frames: seq<Activation>)
    returns (n: nat)
    requires Natural(T(), hs, m.host)
    requires callee.Clo? && |callee.fn.params| == |vals|
    requires TV(callee).fn.noEscape && m.reuse == MapSeq(T(), vals)
    ensures
      var p := TV(callee).fn;
      var own := Link(Embed(TLocals(callee.locals)), Own(BindAll(p.params, MapSeq(T(), vals))));
      var reused := Link(Embed(TLocals(callee.locals)), Reused(p.params));
      && Iter(m, |frames|, n, Start(p.code, TScopes(callee.scopes), reused, stack, frames)) ==
         Iter(m, |frames|, n, Start(p.code, TScopes(callee.scopes), own, stack, frames)) ==
         Finish(stack, frames, Called(hs, m.limit, callee, vals, |frames|))
  {
    ClosureCompiles(callee.fn, callee.scopes, callee.locals);
    var p := TV(callee).fn;
    var own := Act(p.code, TScopes(callee.scopes),
      Link(Embed(TLocals(callee.locals)), Own(BindAll(p.params, MapSeq(T(), vals)))), |stack|, |frames|);
    var reused := own.(chain := Link(Embed(TLocals(callee.locals)), Reused(p.params)));
    var k := BodyEnds(hs, m, callee, vals, own, stack, frames);
    var l := BodyEnds(hs, m, callee, vals, reused, stack, frames);
    n := k + l;
    IterFinal(m, |frames|, k, n, Start(p.code, TScopes(callee.scopes), own.chain, stack, frames));
    IterFinal(m, |frames|, l, n, Start(p.code, TScopes(callee.scopes), reused.chain, stack, frames));
  }

  // ----- `??` -----

  /** Where a `??` goes on whose left operand means o. */
  function Resumption(h: Host<Lam>, cur: Activation, stack: seq<V>, frames: seq<Activation>, end: nat,
      o: Outcome<Val>): State {
    match o
    case Ok(v) =>
      if IsNil(h, v) then State(cur.(pc := cur.pc + 1), stack, frames, None)
      else State(cur.(pc := end), stack + [TV(v)], frames, None)
    case Err(_) => State(cur.(pc := cur.pc + 1), stack, frames, None)
  }

  /** `??` in emitted code, wherever in a run the loop comes to it: if the left operand means an
      error, raised at any depth of lets, calls and inner `??`, or nil, the right operand starts with
      the stack, the bindings, the scopes and the saved frames as they were at the `??`; if it means
      anything else, that value is pushed on them and the right operand skipped. */
  lemma CoalesceIsolation(hs: Host<Lam>, m: Config, l: Expr, end: nat, sc: Scopes<Lam>, env: Env, a: Act, pc: nat,
      stack: seq<V>, cur: Activation, frames: seq<Activation>, bottom: nat)
    returns (n: nat)
    requires Natural(T(), hs, m.host) && Ready(m, a, sc, env, stack, HasLambda(l))
    requires Plays(a, pc, stack, cur, frames, bottom) && |frames| < m.limit
    requires pc < |a.code| && a.code[pc] == Bytecode.Coalesce(Code(l, NamesOf(env), 0), end)
    ensures Iter(m, bottom, n, State(cur, stack, frames, None)) ==
      More(Resumption(hs, cur, stack, frames, end, Eval(hs, m.limit, l, sc, env, |frames| + 1)))
  {
    var left := Code(l, NamesOf(env), 0);
    var a' := LeftAct(a, left, stack);
    var o := Eval(hs, m.limit, l, sc, env, |frames| + 1);
    LeftReady(m, a, sc, env, stack, left, HasLambda(l));
    CodeRuns(hs, m, l, sc, env, a', 0, stack, left, o);
    n := CoalesceIsolates(m, a, pc, stack, cur, frames, bottom, left, end);
  }

  // ----- The frame stack -----

  /** No step suspends more than `limit` activations or discards one that was there before the run. */
  lemma StepBounds(m: Config, bottom: nat, s: State)
    requires bottom <= |s.frames| <= m.limit
    ensures match Step(m, bottom, s)
            case More(s') => bottom <= |s'.frames| <= m.limit && s'.frames[..bottom] == s.frames[..bottom]
            case Returned(_, fs) => fs == s.frames && |fs| == bottom
            case Failed(_, _, fs) => fs == s.frames && |fs| == bottom
            case Panic => true
  {
  }

  lemma {:induction false} RunBounds(m: Config, bottom: nat, n: nat, s: State)
    requires bottom <= |s.frames| <= m.limit
    ensures match Iter(m, bottom, n, s)
            case More(s') => bottom <= |s'.frames| <= m.limit && s'.frames[..bottom] == s.frames[..bottom]
            case Returned(_, fs) => fs == s.frames[..bottom]
            case Failed(_, _, fs) => fs == s.frames[..bottom]
            case Panic => true
  {
    StepBounds(m, bottom, s);
    if n > 0 && Step(m, bottom, s).More? { RunBounds(m, bottom, n - 1, Step(m, bottom, s).s); }
  }
}
