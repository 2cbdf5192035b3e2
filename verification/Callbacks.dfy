// Hosts whose builtins call closures back, as map, filter and reduce do: the closures run on the
// same machine, and in a sheet they read the results map as it is when they are called.

module Callbacks {
  import opened Values
  import opened Mapping
  import opened Syntax
  import opened CompilerSpec
  import opened Bytecode
  import opened Machine
  import opened Semantics
  import opened Compiled
  import opened Correctness
  import opened SheetRefs
  import opened SheetCells
  import SheetRun

  /** The builtin `call`, which applies its first argument to the others. */
  const CALL := 2

  predicate IsCallback<F>(q: Question<F>) { q.Calling? && q.f == HostV(CALL) && |q.args| > 0 }

  /** inner with `call`, for evaluation: what a callback gives is what its closure means, in the
      surroundings and with the results map as they are. */
  function WithCall(inner: Hosts<Lam>, handle: int, limit: nat, depth: nat): Hosts<Lam> {
    (r: map<string, Val>) =>
      inner(r).(ask := (q: Question<Lam>) =>
        if q == Global("call") then Ok(HostV(CALL))
        else if IsCallback(q) then Called(SheetHost(inner, handle, r), limit, q.args[0], q.args[1..], depth)
        else inner(r).ask(q))
  }

  /** inner with `call`, for the machine: a callback runs its closure's code. */
  function WithCallOnVm(inner: Hosts<Proto>, handle: int, limit: nat, depth: nat, flat: bool): Hosts<Proto> {
    (r: map<string, V>) =>
      inner(r).(ask := (q: Question<Proto>) =>
        if q == Global("call") then Ok(HostV(CALL))
        else if IsCallback(q) then RunCallback(Config(SheetHost(inner, handle, r), limit, flat, []), q.args[0],
          q.args[1..], depth)
        else inner(r).ask(q))
  }

  function RunCallback(m: Config, callee: V, args: seq<V>, depth: nat): Outcome<V> {
    if !Calls(callee, args) then CallOther(m.host, callee, args)
    else
      match Exec(m, CallbackAct(callee, args, depth), 0, [])
      case Done(stack) => if stack == [] then Err(Unsupported) else Ok(stack[|stack| - 1])
      case Raised(e) => Err(e)
      case Stuck => Err(Unsupported)
  }

  function CallbackAct(callee: V, args: seq<V>, depth: nat): Act
    requires Calls(callee, args)
  {
    Act(callee.fn.code, callee.scopes, Link(Embed(callee.locals), Own(BindAll(callee.fn.params, args))), 0, depth)
  }

  // ----- Such a host satisfies what is asked of hosts -----

  lemma CalledMatters(z: Zone, h: Hosts<Lam>, r: map<string, Val>, r': map<string, Val>, limit: nat, callee: Val,
      args: seq<Val>, d: nat)
    requires Discreet(h, z.handle) && z.fo == h(map[]).float && Agreed(z, r, r') && Good(z, callee) && GoodAll(z, args)
    ensures Alike(z, Called(SheetHost(h, z.handle, r), limit, callee, args, d),
        Called(SheetHost(h, z.handle, r'), limit, callee, args, d))
  {
    if !callee.Clo? {
      RoomTwins(z, h, r, r');
      AskGood(z, SheetHost(h, z.handle, r), SheetHost(h, z.handle, r'), Calling(callee, args));
    } else if |callee.fn.params| == |args| {
      var env := Frame(callee.locals, BindAll(callee.fn.params, args));
      assert BindNames(env.binds) == callee.fn.params;
      OnlyCellsMatter(z, h, r, r', limit, callee.fn.body, callee.scopes, env, d,
        Eval(SheetHost(h, z.handle, r), limit, callee.fn.body, callee.scopes, env, d));
    }
  }

  /** Called back or not, a closure that can read certain cells only cannot tell what else is in the
      results map: a discreet host stays discreet when it learns to call closures back. */
  lemma WithCallDiscreet(inner: Hosts<Lam>, handle: int, limit: nat, depth: nat)
    requires Discreet(inner, handle) && handle != CALL
    ensures Discreet(WithCall(inner, handle, limit, depth), handle)
  {
    var outer := WithCall(inner, handle, limit, depth);
    forall z: Zone, r: map<string, Val>, r': map<string, Val> |
      z.fo == outer(map[]).float && z.handle == handle && Agreed(z, r, r')
      ensures Twins(z, outer(r), outer(r'))
    {
      assert Twins(z, inner(r), inner(r'));
      forall q: Question<Lam> | GoodQuestion(z, q)
        ensures outer(r').ask(q) == outer(r).ask(q) && GoodOutcome(z, outer(r).ask(q))
      {
        if IsCallback(q) { CalledMatters(z, inner, r, r', limit, q.args[0], q.args[1..], depth); }
      }
    }
  }

  /** On the machine the same callback gives the compiled form of the same result. */
  lemma CallbackRuns(hs: Host<Lam>, m: Config, callee: Val, args: seq<Val>, depth: nat)
    requires Natural(T(), hs, m.host)
    ensures RunCallback(m, TV(callee), MapSeq(T(), args), depth) ==
        MapOutcome(T(), Called(hs, m.limit, callee, args, depth))
  {
    if callee.Clo? {
      ClosureCompiles(callee.fn, callee.scopes, callee.locals);
      if |callee.fn.params| == |args| {
        var a := CallbackAct(TV(callee), MapSeq(T(), args), depth);
        BodyRuns(hs, m, callee, args, a, []);
      }
    } else {
      Answer(T(), hs, m.host, Calling(callee, args));
    }
  }

  lemma WithCallNatural(hs: Hosts<Lam>, hp: Hosts<Proto>, handle: int, limit: nat, depth: nat, flat: bool)
    requires SheetRun.NaturalHosts(hs, hp)
    ensures SheetRun.NaturalHosts(WithCall(hs, handle, limit, depth), WithCallOnVm(hp, handle, limit, depth, flat))
  {
    var ohs, ohp := WithCall(hs, handle, limit, depth), WithCallOnVm(hp, handle, limit, depth, flat);
    forall r: map<string, Val> ensures Natural(T(), ohs(r), ohp(MapEntries(T(), r))) {
      var r' := MapEntries(T(), r);
      var m := Config(SheetHost(hp, handle, r'), limit, flat, []);
      SheetRun.SheetHostNatural(hs, hp, handle, r);
      assert Natural(T(), hs(r), hp(r'));
      forall q ensures ohp(r').ask(MapQuestion(T(), q)) == MapOutcome(T(), ohs(r).ask(q)) {
        Answer(T(), hs(r), hp(r'), q);
        if IsCallback(q) {
          assert MapSeq(T(), q.args)[1..] == MapSeq(T(), q.args[1..]);
          CallbackRuns(SheetHost(hs, handle, r), m, q.args[0], q.args[1..], depth);
        }
      }
    }
  }

  /** Callbacks that call back, nested any number of times. */
  function Reentrant(n: nat, base: Hosts<Lam>, handle: int, limit: nat, depth: nat): Hosts<Lam> {
    if n == 0 then base else WithCall(Reentrant(n - 1, base, handle, limit, depth), handle, limit, depth)
  }

  lemma {:induction false} ReentrantDiscreet(n: nat, base: Hosts<Lam>, handle: int, limit: nat, depth: nat)
    requires Discreet(base, handle) && handle != CALL
    ensures Discreet(Reentrant(n, base, handle, limit, depth), handle)
  {
    if n > 0 {
      ReentrantDiscreet(n - 1, base, handle, limit, depth);
      WithCallDiscreet(Reentrant(n - 1, base, handle, limit, depth), handle, limit, depth);
    }
  }

  /** x => namespace.n, without the x, as created in a cell. */
  function Reader(z: Zone, n: string, env: Scopes<Lam>): Val {
    Clo(Lam([], Member(Var(z.ns), n, false)), Layer(map[z.ns := HostV(z.handle)], env), Root)
  }

  lemma NothingBound(ns: string)
    ensures Unshadowed([[]], ns)
  {
    var names: Names := [[]];
    assert names[..0] == [] && ResolveSlot(names[0], ns).None? && Resolve(names[..0], ns).None?;
  }

  lemma ReaderValue(z: Zone, h: Hosts<Lam>, r: map<string, Val>, limit: nat, n: string, env: Scopes<Lam>, d: nat)
    requires !h(r).isNil(z.handle) && z.fo == h(r).float && n in r
    ensures Called(SheetHost(h, z.handle, r), limit, Reader(z, n, env), [], d) == Ok(r[n])
  {
    var v := Reader(z, n, env);
    var locals: Env := Frame(Root, BindAll([], []));
    FormSmaller(v.fn.body);
    NothingBound(z.ns);
    assert BindNames(locals.binds) == [] && NamesOf(locals) == [[]];
    CellReadValue(z, h, r, limit, FormOf(v.fn.body), v.scopes, locals, d);
  }

  /** A closure over the namespace, called back by a builtin, reads the cell as it is by then. */
  lemma CallbackReads(z: Zone, inner: Hosts<Lam>, r: map<string, Val>, limit: nat, depth: nat, n: string,
      env: Scopes<Lam>, d: nat)
    requires !inner(r).isNil(z.handle) && z.fo == inner(r).float && z.handle != CALL && n in r
    ensures Apply(SheetHost(WithCall(inner, z.handle, limit, depth), z.handle, r), limit, HostV(CALL),
        [Reader(z, n, env)], d) == Ok(r[n])
  {
    var q := Question.Calling(HostV(CALL), [Reader(z, n, env)]);
    assert IsCallback(q) && q.args[1..] == [];
    ReaderValue(z, inner, r, limit, n, env, depth);
  }
}
