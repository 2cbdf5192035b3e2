// The engine itself: Machine with its operand stack and frame stack, and the call surfaces on it.

module Pump {
  import opened Values
  import opened Mapping
  import opened Syntax
  import opened Bytecode
  import opened CompilerSpec
  import opened Machine
  import opened Semantics
  import opened Compiled
  import opened Trampoline
  import opened Correctness

  class Vm {
    /** Everything outside the machine; what host values refer to may change between runs. */
    var host: Host<Proto>
    const limit: nat
    const flat: bool
    var stack: seq<V>
    var frames: seq<Activation>

    constructor (host: Host<Proto>, limit: nat, flat: bool)
      ensures this.host == host && this.limit == limit && this.flat == flat
      ensures stack == [] && frames == []
    {
      this.host, this.limit, this.flat := host, limit, flat;
      stack, frames := [], [];
    }

    /** The configuration in force while a ReusableCall with this buffer is served. */
    function Serving(reuse: seq<V>): Config
      reads this`host
    {
      Config(host, limit, flat, reuse)
    }

    method Push(v: V)
      modifies this`stack
      ensures stack == old(stack) + [v]
    {
      stack := stack + [v];
    }

    method Pop() returns (v: V)
      requires stack != []
      modifies this`stack
      ensures stack == Keep(old(stack), 1) && v == old(stack)[|old(stack)| - 1]
    {
      v := stack[|stack| - 1];
      stack := stack[..|stack| - 1];
    }

    method SaveContinuation(a: Activation) returns (ok: bool)
      modifies this`frames
      ensures ok == (|old(frames)| < limit)
      ensures frames == if ok then old(frames) + [a] else old(frames)
    {
      ok := |frames| < limit;
      if ok { frames := frames + [a]; }
    }

    function State(cur: Activation, error: Option<Error>): State
      reads this
    {
      Trampoline.State(cur, stack, frames, error)
    }

    function Over(err: Option<Error>): Next
      reads this
    {
      if err.Some? then Failed(err.value, stack, frames) else Returned(stack, frames)
    }

    /** Suspend `from` and switch to `to`, or report that too many are suspended already. */
    method Switch(ghost reuse: seq<V>, from: Activation, to: Activation)
      returns (cur: Activation, failure: Option<Error>)
      modifies this`frames
      ensures State(cur, failure) == Save(Serving(reuse), old(State(from, None)), to)
    {
      var saved := SaveContinuation(from);
      if saved { cur, failure := to, None; } else { cur, failure := from, Some(DepthExceeded); }
    }

    method ExecuteLet(ghost reuse: seq<V>, c: Activation, name: string, body: seq<Instr>)
      returns (cur: Activation, failure: Option<Error>)
      requires stack != []
      modifies this`frames, this`stack
      ensures old(Execute(Serving(reuse), State(c, None), Bytecode.Let(name, body))) == More(State(cur, failure))
    {
      var suspended := c.(pc := c.pc + 1);
      var val := Pop();
      var bodyLocals := Link(c.chain, Own([Bind(name, val)]));
      cur, failure := Switch(reuse, suspended, Activation(body, c.sc, bodyLocals, 0, None, |stack|, false));
    }

    method ExecuteCoalesce(ghost reuse: seq<V>, c: Activation, left: seq<Instr>, jumpEnd: nat)
      returns (cur: Activation, failure: Option<Error>)
      modifies this`frames
      ensures old(Execute(Serving(reuse), State(c, None), Bytecode.Coalesce(left, jumpEnd))) ==
          More(State(cur, failure))
    {
      cur, failure := Switch(reuse, c.(pc := c.pc + 1),
        Activation(left, c.sc, c.chain, 0, Some(jumpEnd), |stack|, false));
    }

    method ExecuteJumpIfFalse(ghost reuse: seq<V>, c: Activation, target: nat)
      returns (cur: Activation, failure: Option<Error>)
      requires stack != []
      modifies this`stack
      ensures old(Execute(Serving(reuse), State(c, None), JumpIfFalse(target))) == More(State(cur, failure))
    {
      cur, failure := c.(pc := c.pc + 1), None;
      var cond := Pop();
      if !(cond.Lit? && cond.c.CBool?) {
        failure := Some(NotBool);
      } else if !cond.c.b {
        cur := cur.(pc := target);
      }
    }

    method ExecuteCall(ghost reuse: seq<V>, c: Activation, argCount: nat)
      returns (cur: Activation, failure: Option<Error>)
      requires argCount < |stack|
      modifies this`frames, this`stack
      ensures old(Execute(Serving(reuse), State(c, None), Bytecode.Call(argCount))) == More(State(cur, failure))
    {
      cur, failure := c.(pc := c.pc + 1), None;
      var calleeIdx := |stack| - 1 - argCount;
      var callee := stack[calleeIdx];
      if callee.Clo? && flat && callee.fn.noEscape && |callee.fn.params| == argCount {
        // The arguments stay where they are and the frame reads them there.
        var newLocals := Link(Embed(callee.locals), View(callee.fn.params, calleeIdx + 1));
        cur, failure := Switch(reuse, cur, Activation(callee.fn.code, callee.scopes, newLocals, 0, None, calleeIdx,
          true));
        return;
      }
      var args := stack[calleeIdx + 1..];
      stack := stack[..calleeIdx];
      if callee.Clo? && |args| == |callee.fn.params| {
        var newLocals := Link(Embed(callee.locals), Own(BindAll(callee.fn.params, args)));
        cur, failure := Switch(reuse, cur, Activation(callee.fn.code, callee.scopes, newLocals, 0, None, |stack|,
          false));
        return;
      }
      var res := CallOther(host, callee, args);
      if res.Ok? { Push(res.v); } else { failure := Some(res.e); }
    }

    method ExecutePlain(reuse: seq<V>, c: Activation, i: Instr) returns (cur: Activation, failure: Option<Error>)
      requires IsPlain(i) && !Execute(Serving(reuse), State(c, None), i).Panic?
      modifies this`stack
      ensures old(Execute(Serving(reuse), State(c, None), i)) == More(State(cur, failure))
    {
      cur, failure := c.(pc := c.pc + 1), None;
      var args := stack[|stack| - Pops(i)..];
      var pushed := Plain(Serving(reuse), c.sc, c.chain, stack, i, args);
      stack := stack[..|stack| - Pops(i)];
      if pushed.Push? { Push(pushed.v); } else { failure := Some(pushed.e); }
    }

    method ExecuteInstruction(reuse: seq<V>, c: Activation, i: Instr) returns (cur: Activation, failure: Option<Error>)
      requires !Execute(Serving(reuse), State(c, None), i).Panic?
      modifies this`frames, this`stack
      ensures old(Execute(Serving(reuse), State(c, None), i)) == More(State(cur, failure))
    {
      match i
      case Jump(target) => cur, failure := c.(pc := target), None;
      case JumpIfFalse(target) => cur, failure := ExecuteJumpIfFalse(reuse, c, target);
      case Let(name, body) => cur, failure := ExecuteLet(reuse, c, name, body);
      case Coalesce(left, jumpEnd) => cur, failure := ExecuteCoalesce(reuse, c, left, jumpEnd);
      case Call(argCount) => cur, failure := ExecuteCall(reuse, c, argCount);
      case _ => cur, failure := ExecutePlain(reuse, c, i);
    }

    method PopFrame() returns (f: Activation)
      requires frames != []
      modifies this`frames
      ensures f == old(frames)[|old(frames)| - 1] && frames == old(frames)[..|old(frames)| - 1]
    {
      f := frames[|frames| - 1];
      frames := frames[..|frames| - 1];
    }

    /** The active sequence ran off its end: settle its result, then resume what it interrupted. */
    method CompleteActive(ghost reuse: seq<V>, bottom: nat, c: Activation) returns (done: bool, cur: Activation)
      requires !Complete(Serving(reuse), bottom, State(c, None)).Panic?
      modifies this`frames, this`stack
      ensures done ==> old(Complete(Serving(reuse), bottom, State(c, None))) == Returned(stack, frames)
      ensures !done ==> old(Complete(Serving(reuse), bottom, State(c, None))) == More(State(cur, None))
    {
      var skipRight, jumpEnd := false, 0;
      if c.coalesce.Some? {
        if IsNil(host, stack[|stack| - 1]) {
          var _ := Pop();
        } else {
          skipRight, jumpEnd := true, c.coalesce.value;
        }
      } else if c.flat {
        stack := stack[..c.base] + [stack[|stack| - 1]];
      }
      cur := c;
      done := |frames| == bottom;
      if !done {
        cur := PopFrame();
        if skipRight { cur := cur.(pc := jumpEnd); }
      }
    }

    /** Discard sequences until one is the left of a `??`, whose enclosing sequence then resumes,
        or until nothing of this run is left. */
    method UnwindToCatch(m: Config, bottom: nat, c: Activation, e: Error, ghost n: nat)
      returns (caught: bool, cur: Activation, ghost left: nat)
      requires m.host == host && m.limit == limit && m.flat == flat
      requires Halts(m, bottom, n, State(c, Some(e)))
      modifies this`frames, this`stack
      ensures !caught ==> old(Iter(m, bottom, n, State(c, Some(e)))) == Failed(e, stack, frames)
      ensures caught ==> left < n
      ensures caught ==> Iter(m, bottom, left, State(cur, None)) == old(Iter(m, bottom, n, State(c, Some(e))))
      ensures |old(frames)| >= bottom && !caught ==> forall k: nat :: !Nearest(bottom, old(frames), c, k)
      ensures |old(frames)| >= bottom && caught ==>
        exists k: nat :: Nearest(bottom, old(frames), c, k) && State(cur, None) == old(Caught(State(c, Some(e)), k))
    {
      ghost var start, end := State(c, Some(e)), Iter(m, bottom, n, State(c, Some(e)));
      ghost var k := 0;
      cur, left := c, n;
      while true
        invariant left <= n && Iter(m, bottom, left, State(cur, Some(e))) == end
        invariant Unwound(m, bottom, start, k, State(cur, Some(e)))
        decreases left
      {
        left := left - 1;
        UnwindsOnce(m, bottom, start, k, State(cur, Some(e)));
        stack := stack[..cur.base];
        caught := cur.coalesce.Some?;
        if |frames| == bottom { return false, cur, left; }
        cur := PopFrame();
        k := k + 1;
        if caught { return; }
      }
    }

    /** One turn of the loop, up to the unwinding of an error. */
    method Turn(reuse: seq<V>, bottom: nat, c: Activation) returns (done: bool, cur: Activation, failure: Option<Error>)
      requires !Step(Serving(reuse), bottom, State(c, None)).Panic?
      modifies this`frames, this`stack
      ensures done ==> failure.None? && old(Step(Serving(reuse), bottom, State(c, None))) == Returned(stack, frames)
      ensures !done ==> old(Step(Serving(reuse), bottom, State(c, None))) == More(State(cur, failure))
    {
      done, failure := false, None;
      if c.pc >= |c.code| {
        done, cur := CompleteActive(reuse, bottom, c);
      } else {
        cur, failure := ExecuteInstruction(reuse, c, c.code[c.pc]);
      }
    }

    /** One turn of the loop together with the unwinding of the error it may raise. */
    method Round(reuse: seq<V>, bottom: nat, c: Activation, ghost n: nat)
      returns (done: bool, err: Option<Error>, cur: Activation, ghost left: nat)
      requires Halts(Serving(reuse), bottom, n, State(c, None))
      modifies this`frames, this`stack
      ensures done ==> old(Iter(Serving(reuse), bottom, n, State(c, None))) == Over(err)
      ensures !done ==> left < n
      ensures !done ==>
        Iter(Serving(reuse), bottom, left, State(cur, None)) == old(Iter(Serving(reuse), bottom, n, State(c, None)))
    {
      Advance(Serving(reuse), bottom, n, State(c, None));
      left := n - 1;
      done, cur, err := Turn(reuse, bottom, c);
      if err.Some? {
        var caught;
        caught, cur, left := UnwindToCatch(Serving(reuse), bottom, cur, err.value, left);
        done := !caught;
      }
    }

    /** Execute from the start of code until the frame stack is back at the height it has now.
        n bounds the number of iterations; every emitted program has such a bound. */
    method Pump(reuse: seq<V>, code: seq<Instr>, sc: Scopes<Proto>, chain: Chain, ghost n: nat)
      returns (err: Option<Error>)
      requires Halts(Serving(reuse), |frames|, n, Start(code, sc, chain, stack, frames))
      modifies this`frames, this`stack
      ensures old(Iter(Serving(reuse), |frames|, n, Start(code, sc, chain, stack, frames))) == Over(err)
    {
      var bottom := |frames|;
      var cur := Activation(code, sc, chain, 0, None, |stack|, false);
      ghost var left := n;
      ghost var end := Iter(Serving(reuse), bottom, n, State(cur, None));
      while true
        invariant Iter(Serving(reuse), bottom, left, State(cur, None)) == end
        decreases left
      {
        var done;
        done, err, cur, left := Round(reuse, bottom, cur, left);
        if done { return; }
      }
    }

    // ----- Entry points -----

    /** Evaluate a sequence and give its result, which the emitted code is known to leave on top
        of an otherwise untouched stack. o is what the reference semantics says it computes. */
    method RunFrame(reuse: seq<V>, code: seq<Instr>, sc: Scopes<Proto>, chain: Chain, ghost n: nat,
        ghost o: Outcome<Val>) returns (r: Outcome<V>)
      requires Iter(Serving(reuse), |frames|, n, Start(code, sc, chain, stack, frames)) == Finish(stack, frames, o)
      modifies this`frames, this`stack
      ensures r == MapOutcome(T(), o) && stack == old(stack) && frames == old(frames)
    {
      var err := Pump(reuse, code, sc, chain, n);
      if err.Some? { return Err(err.value); }
      if stack == [] { return Ok(Lit(CNil)); }
      var v := Pop();
      return Ok(v);
    }

    /** Run a compiled program against sc: exactly the value or error of the expression it was
        compiled from, on a machine left exactly as it was found, ready to be run again. */
    method RunScopes(program: seq<Instr>, sc: Scopes<Proto>, ghost hs: Host<Lam>, ghost e: Expr,
        ghost source: Scopes<Lam>) returns (r: Outcome<V>)
      requires Natural(T(), hs, host)
      requires program == Code(e, [], 0) && sc == TScopes(source)
      modifies this`frames, this`stack
      ensures r == MapOutcome(T(), Eval(hs, limit, e, source, Root, |old(frames)|))
      ensures stack == old(stack) && frames == old(frames)
    {
      ghost var n := ProgramRuns(hs, Serving([]), e, source, stack, frames);
      r := RunFrame([], program, sc, Bottom, n, Eval(hs, limit, e, source, Root, |frames|));
    }

    /** Call any value from outside the loop, in a frame of its own. */
    method CallFunction(callee: V, args: seq<V>, ghost hs: Host<Lam>, ghost f: Val, ghost xs: seq<Val>)
      returns (r: Outcome<V>)
      requires Natural(T(), hs, host) && callee == TV(f) && args == MapSeq(T(), xs)
      modifies this`frames, this`stack
      ensures r == MapOutcome(T(), Called(hs, limit, f, xs, |old(frames)|))
      ensures stack == old(stack) && frames == old(frames)
    {
      if !callee.Clo? {
        Answer(T(), hs, host, Calling(f, xs));
        return host.ask(Calling(callee, args));
      }
      ClosureCompiles(f.fn, f.scopes, f.locals);
      if |args| != |callee.fn.params| { return Err(ArgCount(|callee.fn.params|, |args|)); }
      var chain := Link(Embed(callee.locals), Own(BindAll(callee.fn.params, args)));
      ghost var n := BodyEnds(hs, Serving([]), f, xs, Act(callee.fn.code, callee.scopes, chain, |stack|, |frames|),
        stack, frames);
      r := RunFrame([], callee.fn.code, callee.scopes, chain, n, Called(hs, limit, f, xs, |frames|));
    }
  }

  /** Calls one callee many times in a row. A NoEscape closure is run in a single frame whose
      values every call overwrites; anything else is called the ordinary way. */
  class ReusableCall {
    const mc: Vm
    const fn: V
    const fastPath: bool
    var buf: seq<V>
    var values: seq<V>

    constructor (mc: Vm, fn: V)
      ensures this.mc == mc && this.fn == fn && fastPath == (fn.Clo? && fn.fn.noEscape)
      ensures fastPath ==> |values| == |fn.fn.params|
    {
      this.mc, this.fn := mc, fn;
      fastPath := fn.Clo? && fn.fn.noEscape;
      buf := [];
      values := if fn.Clo? then seq(|fn.fn.params|, _ => Lit(CNil)) else [];
    }

    ghost predicate Valid()
      reads this
    {
      fastPath == (fn.Clo? && fn.fn.noEscape) && (fastPath ==> |values| == |fn.fn.params|)
    }

    /** The same outcome as a call in a fresh frame, whatever earlier calls left in the buffer. */
    method CallReusing(args: seq<V>, ghost hs: Host<Lam>, ghost f: Val, ghost xs: seq<Val>) returns (r: Outcome<V>)
      requires Valid() && Natural(T(), hs, mc.host) && fn == TV(f) && args == MapSeq(T(), xs)
      modifies this`values, mc`frames, mc`stack
      ensures Valid()
      ensures r == MapOutcome(T(), Called(hs, mc.limit, f, xs, |old(mc.frames)|))
      ensures mc.stack == old(mc.stack) && mc.frames == old(mc.frames)
    {
      if !fastPath || |args| != |fn.fn.params| {
        r := mc.CallFunction(fn, args, hs, f, xs);
        return;
      }
      values := args + values[|args|..];
      assert values == args;
      ClosureCompiles(f.fn, f.scopes, f.locals);
      var chain := Link(Embed(fn.locals), Reused(fn.fn.params));
      ghost var n := BodyEnds(hs, mc.Serving(values), f, xs,
        Act(fn.fn.code, fn.scopes, chain, |mc.stack|, |mc.frames|), mc.stack, mc.frames);
      r := mc.RunFrame(values, fn.fn.code, fn.scopes, chain, n, Called(hs, mc.limit, f, xs, |mc.frames|));
    }

    method Call1(a: V, ghost hs: Host<Lam>, ghost f: Val, ghost x: Val) returns (r: Outcome<V>)
      requires Valid() && Natural(T(), hs, mc.host) && fn == TV(f) && a == TV(x)
      modifies this`buf, this`values, mc`frames, mc`stack
      ensures Valid()
      ensures r == MapOutcome(T(), Called(hs, mc.limit, f, [x], |old(mc.frames)|))
      ensures mc.stack == old(mc.stack) && mc.frames == old(mc.frames)
    {
      if |buf| != 1 { buf := [Lit(CNil)]; }
      buf := buf[0 := a];
      assert buf == MapSeq(T(), [x]);
      r := CallReusing(buf, hs, f, [x]);
    }

    method Call2(a: V, b: V, ghost hs: Host<Lam>, ghost f: Val, ghost x: Val, ghost y: Val) returns (r: Outcome<V>)
      requires Valid() && Natural(T(), hs, mc.host) && fn == TV(f) && a == TV(x) && b == TV(y)
      modifies this`buf, this`values, mc`frames, mc`stack
      ensures Valid()
      ensures r == MapOutcome(T(), Called(hs, mc.limit, f, [x, y], |old(mc.frames)|))
      ensures mc.stack == old(mc.stack) && mc.frames == old(mc.frames)
    {
      if |buf| != 2 { buf := [Lit(CNil), Lit(CNil)]; }
      buf := buf[0 := a][1 := b];
      assert buf == MapSeq(T(), [x, y]);
      r := CallReusing(buf, hs, f, [x, y]);
    }

    method Call3(a: V, b: V, c: V, ghost hs: Host<Lam>, ghost f: Val, ghost x: Val, ghost y: Val, ghost z: Val)
      returns (r: Outcome<V>)
      requires Valid() && Natural(T(), hs, mc.host) && fn == TV(f) && a == TV(x) && b == TV(y) && c == TV(z)
      modifies this`buf, this`values, mc`frames, mc`stack
      ensures Valid()
      ensures r == MapOutcome(T(), Called(hs, mc.limit, f, [x, y, z], |old(mc.frames)|))
      ensures mc.stack == old(mc.stack) && mc.frames == old(mc.frames)
    {
      if |buf| != 3 { buf := [Lit(CNil), Lit(CNil), Lit(CNil)]; }
      buf := buf[0 := a][1 := b][2 := c];
      assert buf == MapSeq(T(), [x, y, z]);
      r := CallReusing(buf, hs, f, [x, y, z]);
    }
  }

  /** Calling f on each element of xs in turn, each call independent of the others, stopping at
      the first that fails. */
  function EachCalled(hs: Host<Lam>, limit: nat, f: Val, xs: seq<Val>, d: nat): Outcome<seq<Val>> {
    if xs == [] then Ok([]) else
    match EachCalled(hs, limit, f, xs[..|xs| - 1], d)
    case Err(e) => Err(e)
    case Ok(vs) =>
      match Called(hs, limit, f, [xs[|xs| - 1]], d)
      case Err(e) => Err(e)
      case Ok(v) => Ok(vs + [v])
  }

  lemma {:induction false} EachCalledFails(hs: Host<Lam>, limit: nat, f: Val, xs: seq<Val>, d: nat, k: nat)
    requires k <= |xs| && EachCalled(hs, limit, f, xs[..k], d).Err?
    ensures EachCalled(hs, limit, f, xs, d) == EachCalled(hs, limit, f, xs[..k], d)
  {
    if k == |xs| {
      assert xs[..k] == xs;
    } else {
      assert xs[..|xs| - 1][..k] == xs[..k];
      EachCalledFails(hs, limit, f, xs[..|xs| - 1], d, k);
    }
  }

  /** `map` over a list: every element goes through one ReusableCall, and the results collected
      are those of independent calls, none disturbed by the calls made after it. */
  method MapList(mc: Vm, fn: V, list: seq<V>, ghost hs: Host<Lam>, ghost f: Val, ghost xs: seq<Val>)
    returns (r: Outcome<V>)
    requires Natural(T(), hs, mc.host) && fn == TV(f) && list == MapSeq(T(), xs)
    modifies mc`frames, mc`stack
    ensures r == MapOutcome(T(), ListOutcome(EachCalled(hs, mc.limit, f, xs, |old(mc.frames)|)))
    ensures mc.stack == old(mc.stack) && mc.frames == old(mc.frames)
  {
    var call := new ReusableCall(mc, fn);
    var out := [];
    ghost var vs := [];
    ghost var d := |mc.frames|;
    for i := 0 to |list|
      invariant call.Valid() && call.mc == mc && call.fn == fn && fresh(call)
      invariant mc.stack == old(mc.stack) && mc.frames == old(mc.frames)
      invariant EachCalled(hs, mc.limit, f, xs[..i], d) == Ok(vs) && out == MapSeq(T(), vs)
    {
      var res := call.Call1(list[i], hs, f, xs[i]);
      assert xs[..i + 1][..i] == xs[..i];
      if res.Err? {
        EachCalledFails(hs, mc.limit, f, xs, d, i + 1);
        return Err(res.e);
      }
      vs := vs + [Called(hs, mc.limit, f, [xs[i]], d).v];
      out := out + [res.v];
    }
    assert xs[..|list|] == xs;
    return Ok(ListV(out));
  }

  function ListOutcome(o: Outcome<seq<Val>>): Outcome<Val> {
    match o
    case Ok(vs) => Ok(ListV(vs))
    case Err(e) => Err(e)
  }

  /** Within n steps the run is over, without a panic. */
  ghost predicate Halts(m: Config, bottom: nat, n: nat, s: State) {
    Iter(m, bottom, n, s).Returned? || Iter(m, bottom, n, s).Failed?
  }

  lemma Advance(m: Config, bottom: nat, n: nat, s: State)
    requires Halts(m, bottom, n, s)
    ensures n > 0 && !Step(m, bottom, s).Panic?
    ensures Step(m, bottom, s).More? ==> Iter(m, bottom, n - 1, Step(m, bottom, s).s) == Iter(m, bottom, n, s)
    ensures !Step(m, bottom, s).More? ==> Step(m, bottom, s) == Iter(m, bottom, n, s)
  {
  }
}
