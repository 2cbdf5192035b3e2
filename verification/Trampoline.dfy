// The machine as it runs: one loop, the active sequence in local variables, everything that is
// suspended on an explicit stack of frames, errors unwound frame by frame to the nearest `??`.

module Trampoline {
  import opened Values
  import opened Bytecode
  import opened Machine
  import Semantics

  /** One sequence of instructions in progress. coalesce is the jump target of the `??` whose left
      operand this is; base is the height an error truncates the stack to; flat marks a flattened
      call, whose base is the slot of the callee. */
  datatype Activation = Activation(
    code: seq<Instr>, sc: Scopes<Proto>, chain: Chain, pc: nat, coalesce: Option<nat>, base: nat, flat: bool)

  /** error is set while an error is on its way to whatever catches it. */
  datatype State = State(cur: Activation, stack: seq<V>, frames: seq<Activation>, error: Option<Error>)

  datatype Next =
    | More(s: State)
    | Returned(stack: seq<V>, frames: seq<Activation>)
    | Failed(e: Error, stack: seq<V>, frames: seq<Activation>)
    | Panic

  function Start(code: seq<Instr>, sc: Scopes<Proto>, chain: Chain, stack: seq<V>, frames: seq<Activation>): State {
    State(Activation(code, sc, chain, 0, None, |stack|, false), stack, frames, None)
  }

  /** One iteration; bottom is the number of frames that were there when this run began. */
  function Step(m: Config, bottom: nat, s: State): Next {
    if s.error.Some? then Unwind(bottom, s)
    else if s.cur.pc >= |s.cur.code| then Complete(m, bottom, s)
    else Execute(m, s, s.cur.code[s.cur.pc])
  }

  /** Truncate to the active sequence's base and resume what it interrupted, which carries on
      normally if the sequence was the left of a `??` and keeps unwinding otherwise. */
  function Unwind(bottom: nat, s: State): Next
    requires s.error.Some?
  {
    if s.cur.base > |s.stack| then Panic else
    var stack := s.stack[..s.cur.base];
    if |s.frames| == bottom then Failed(s.error.value, stack, s.frames)
    else if s.frames == [] then Panic
    else
      var top := |s.frames| - 1;
      More(State(s.frames[top], stack, s.frames[..top], if s.cur.coalesce.Some? then None else s.error))
  }

  /** The active sequence has ended with its result on top of the stack. */
  function Complete(m: Config, bottom: nat, s: State): Next {
    var nilLeft := s.cur.coalesce.Some? && s.stack != [] && IsNil(m.host, s.stack[|s.stack| - 1]);
    if (s.cur.coalesce.Some? || s.cur.flat) && s.stack == [] then Panic
    else if s.cur.coalesce.None? && s.cur.flat && s.cur.base >= |s.stack| then Panic
    else
      var stack :=
        if nilLeft then Keep(s.stack, 1)
        else if s.cur.coalesce.None? && s.cur.flat then s.stack[..s.cur.base] + [s.stack[|s.stack| - 1]]
        else s.stack;
      if |s.frames| == bottom then Returned(stack, s.frames)
      else if s.frames == [] then Panic
      else
        var top := |s.frames| - 1;
        var resumed := s.frames[top];
        More(State(if s.cur.coalesce.Some? && !nilLeft then resumed.(pc := s.cur.coalesce.value) else resumed,
                   stack, s.frames[..top], None))
  }

  function Execute(m: Config, s: State, i: Instr): Next {
    var cur := s.cur.(pc := s.cur.pc + 1);
    var s' := s.(cur := cur);
    if IsPlain(i) then
      if |s.stack| < Pops(i) then Panic else
      match Plain(m, cur.sc, cur.chain, s.stack, i, Taken(s.stack, Pops(i)))
      case Push(v) => More(s'.(stack := Keep(s.stack, Pops(i)) + [v]))
      case Fail(e) => More(s'.(stack := Keep(s.stack, Pops(i)), error := Some(e)))
      case Fault => Panic
    else
      match i
      case Jump(t) => More(s'.(cur := cur.(pc := t)))
      case JumpIfFalse(t) =>
        if s.stack == [] then Panic else
        (match s.stack[|s.stack| - 1]
         case Lit(CBool(b)) => More(s'.(stack := Keep(s.stack, 1), cur := if b then cur else cur.(pc := t)))
         case _ => More(s'.(stack := Keep(s.stack, 1), error := Some(NotBool))))
      case Let(x, body) =>
        if s.stack == [] then Panic else
        var frame := Link(cur.chain, Own([Bind(x, s.stack[|s.stack| - 1])]));
        var stack := Keep(s.stack, 1);
        More(Save(m, s'.(stack := stack), Activation(body, cur.sc, frame, 0, None, |stack|, false)))
      case Coalesce(left, end) =>
        More(Save(m, s', Activation(left, cur.sc, cur.chain, 0, Some(end), |s.stack|, false)))
      case Call(n) =>
        if |s.stack| < n + 1 then Panic else
        var callee, args := s.stack[|s.stack| - 1 - n], Taken(s.stack, n);
        if !Calls(callee, args) then
          (match CallOther(m.host, callee, args)
           case Ok(v) => More(s'.(stack := Keep(s.stack, n + 1) + [v]))
           case Err(e) => More(s'.(stack := Keep(s.stack, n + 1), error := Some(e))))
        else if Flattens(m, callee) then
          var frame := Link(Embed(callee.locals), View(callee.fn.params, |s.stack| - n));
          More(Save(m, s', Activation(callee.fn.code, callee.scopes, frame, 0, None, |s.stack| - 1 - n, true)))
        else
          var frame := Link(Embed(callee.locals), Own(Semantics.BindAll(callee.fn.params, args)));
          var stack := Keep(s.stack, n + 1);
          More(Save(m, s'.(stack := stack), Activation(callee.fn.code, callee.scopes, frame, 0, None, |stack|, false)))
  }

  /** Suspend the active sequence and switch to another, unless too many are suspended already. */
  function Save(m: Config, s: State, to: Activation): State {
    if |s.frames| >= m.limit then s.(error := Some(DepthExceeded))
    else State(to, s.stack, s.frames + [s.cur], None)
  }

  function Iter(m: Config, bottom: nat, n: nat, s: State): Next {
    Repeat(Stepper(m, bottom), n, s)
  }

  function Stepper(m: Config, bottom: nat): State -> Next { s => Step(m, bottom, s) }

  function Repeat(step: State -> Next, n: nat, s: State): Next {
    if n == 0 then More(s) else
    match step(s)
    case More(s') => Repeat(step, n - 1, s')
    case r => r
  }

  lemma {:induction false} RepeatAdd(step: State -> Next, n: nat, k: nat, s: State, s': State)
    requires Repeat(step, n, s) == More(s')
    ensures Repeat(step, n + k, s) == Repeat(step, k, s')
  {
    if n > 0 { RepeatAdd(step, n - 1, k, step(s).s, s'); }
  }

  lemma IterAdd(m: Config, bottom: nat, n: nat, k: nat, s: State, s': State)
    requires Iter(m, bottom, n, s) == More(s')
    ensures Iter(m, bottom, n + k, s) == Iter(m, bottom, k, s')
  {
    RepeatAdd(Stepper(m, bottom), n, k, s, s');
  }

  lemma IterOne(m: Config, bottom: nat, s: State)
    ensures Iter(m, bottom, 1, s) == Step(m, bottom, s)
  {
    var r := Step(m, bottom, s);
    if r.More? { assert Iter(m, bottom, 0, r.s) == r; }
  }

  // ----- The trampoline does what the recursion does -----

  /** cur, at pc and above `frames`, is activation a. */
  ghost predicate Plays(a: Act, pc: nat, stack: seq<V>, cur: Activation, frames: seq<Activation>, bottom: nat) {
    && cur.code == a.code && cur.sc == a.sc && cur.chain == a.chain && cur.pc == pc <= |a.code|
    && cur.base <= a.floor <= |stack|
    && a.d == |frames| >= bottom
  }

  ghost predicate Agree(h: nat, stack: seq<V>, stack': seq<V>) {
    h <= |stack| && h <= |stack'| && stack[..h] == stack'[..h]
  }

  /** s is where an activation that behaves as r ends up: just past its code with the stack r
      says, or with r's error raised and everything below the floor intact. */
  ghost predicate Lands(a: Act, stack: seq<V>, cur: Activation, frames: seq<Activation>, r: Result, s: State) {
    match r
    case Done(st) =>
      s == State(cur.(pc := |a.code|), st, frames, None) && Agree(a.floor, stack, st)
    case Raised(e) =>
      && s.error == Some(e) && s.frames == frames && s.cur == cur.(pc := s.cur.pc)
      && Agree(a.floor, stack, s.stack)
    case Stuck => false
  }

  lemma AgreeTrans(h: nat, a: seq<V>, b: seq<V>, c: seq<V>)
    requires Agree(h, a, b) && Agree(h, b, c)
    ensures Agree(h, a, c)
  {
  }

  lemma AgreeLower(h: nat, h': nat, a: seq<V>, b: seq<V>)
    requires Agree(h, a, b) && h' <= h
    ensures Agree(h', a, b)
  {
    assert a[..h'] == a[..h][..h'] && b[..h'] == b[..h][..h'];
  }

  lemma Prepend(m: Config, bottom: nat, s: State, s1: State, n: nat, s2: State)
    requires Step(m, bottom, s) == More(s1) && Iter(m, bottom, n, s1) == More(s2)
    ensures Iter(m, bottom, n + 1, s) == More(s2)
  {
  }

  lemma Append(m: Config, bottom: nat, s: State, n: nat, s1: State, s2: State)
    requires Iter(m, bottom, n, s) == More(s1) && Step(m, bottom, s1) == More(s2)
    ensures Iter(m, bottom, n + 1, s) == More(s2)
  {
    IterAdd(m, bottom, n, 1, s, s1);
    IterOne(m, bottom, s1);
  }

  lemma LandsFrom(a: Act, stack: seq<V>, stack': seq<V>, cur: Activation, cur': Activation, frames: seq<Activation>,
      r: Result, s: State)
    requires Lands(a, stack', cur', frames, r, s) && Agree(a.floor, stack, stack') && cur' == cur.(pc := cur'.pc)
    ensures Lands(a, stack, cur, frames, r, s)
  {
  }

  /** From any point of an activation that Exec does not find stuck, the loop reaches the point
      where the activation has ended as Exec says. */
  lemma {:induction false} Simulates(m: Config, a: Act, pc: nat, stack: seq<V>, cur: Activation,
      frames: seq<Activation>, bottom: nat)
    returns (n: nat, s: State)
    requires Plays(a, pc, stack, cur, frames, bottom)
    requires Exec(m, a, pc, stack) != Stuck
    ensures Iter(m, bottom, n, State(cur, stack, frames, None)) == More(s)
    ensures Lands(a, stack, cur, frames, Exec(m, a, pc, stack), s)
    decreases m.limit - a.d, |a.code| - pc, 3
  {
    if pc >= |a.code| {
      n, s := 0, State(cur, stack, frames, None);
    } else {
      var i := a.code[pc];
      var s0 := State(cur, stack, frames, None);
      if IsPlain(i) {
        n, s := PlainSimulates(m, a, pc, stack, cur, frames, bottom, i);
      } else {
        match i
        case Jump(t) => n, s := GoesOn(m, a, pc, stack, cur, frames, bottom, t, stack);
        case JumpIfFalse(t) => n, s := BranchSimulates(m, a, pc, stack, cur, frames, bottom, t);
        case Let(x, body) => n, s := LetSimulates(m, a, pc, stack, cur, frames, bottom, x, body);
        case Coalesce(left, end) => n, s := CoalesceSimulates(m, a, pc, stack, cur, frames, bottom, left, end);
        case Call(k) => n, s := CallSimulates(m, a, pc, stack, cur, frames, bottom, k);
      }
    }
  }

  /** One step that stays in the activation, then the rest of it. */
  lemma {:induction false} GoesOn(m: Config, a: Act, pc: nat, stack: seq<V>, cur: Activation, frames: seq<Activation>,
      bottom: nat, pc': nat, stack': seq<V>)
    returns (n: nat, s: State)
    requires Plays(a, pc, stack, cur, frames, bottom) && pc < pc' <= |a.code| && Agree(a.floor, stack, stack')
    requires Step(m, bottom, State(cur, stack, frames, None)) == More(State(cur.(pc := pc'), stack', frames, None))
    requires Exec(m, a, pc, stack) == Exec(m, a, pc', stack') != Stuck
    ensures Iter(m, bottom, n, State(cur, stack, frames, None)) == More(s)
    ensures Lands(a, stack, cur, frames, Exec(m, a, pc, stack), s)
    decreases m.limit - a.d, |a.code| - pc, 0
  {
    var cur' := cur.(pc := pc');
    var k, s2 := Simulates(m, a, pc', stack', cur', frames, bottom);
    Prepend(m, bottom, State(cur, stack, frames, None), State(cur', stack', frames, None), k, s2);
    LandsFrom(a, stack, stack', cur, cur', frames, Exec(m, a, pc, stack), s2);
    n, s := k + 1, s2;
  }

  /** One step that raises an error in the activation. */
  lemma Raises(m: Config, a: Act, pc: nat, stack: seq<V>, cur: Activation, frames: seq<Activation>, bottom: nat,
      e: Error, stack': seq<V>)
    returns (n: nat, s: State)
    requires Plays(a, pc, stack, cur, frames, bottom) && Agree(a.floor, stack, stack')
    requires Step(m, bottom, State(cur, stack, frames, None)) ==
        More(State(cur.(pc := pc + 1), stack', frames, Some(e)))
    requires Exec(m, a, pc, stack) == Raised(e)
    ensures Iter(m, bottom, n, State(cur, stack, frames, None)) == More(s)
    ensures Lands(a, stack, cur, frames, Exec(m, a, pc, stack), s)
  {
    n, s := 1, State(cur.(pc := pc + 1), stack', frames, Some(e));
    IterOne(m, bottom, State(cur, stack, frames, None));
  }

  lemma KeepAgrees(floor: nat, stack: seq<V>, n: nat, more: seq<V>)
    requires floor + n <= |stack|
    ensures Agree(floor, stack, Keep(stack, n) + more)
    ensures Agree(floor, stack, Keep(stack, n))
  {
    assert (Keep(stack, n) + more)[..floor] == stack[..floor];
    assert Keep(stack, n)[..floor] == stack[..floor];
  }

  lemma {:induction false} PlainSimulates(m: Config, a: Act, pc: nat, stack: seq<V>, cur: Activation,
      frames: seq<Activation>, bottom: nat, i: Instr)
    returns (n: nat, s: State)
    requires Plays(a, pc, stack, cur, frames, bottom)
    requires pc < |a.code| && a.code[pc] == i && IsPlain(i)
    requires Exec(m, a, pc, stack) != Stuck
    ensures Iter(m, bottom, n, State(cur, stack, frames, None)) == More(s)
    ensures Lands(a, stack, cur, frames, Exec(m, a, pc, stack), s)
    decreases m.limit - a.d, |a.code| - pc, 2
  {
    var r := Plain(m, a.sc, a.chain, stack, i, Taken(stack, Pops(i)));
    KeepAgrees(a.floor, stack, Pops(i), if r.Push? then [r.v] else []);
    if r.Push? {
      n, s := GoesOn(m, a, pc, stack, cur, frames, bottom, pc + 1, Keep(stack, Pops(i)) + [r.v]);
    } else {
      n, s := Raises(m, a, pc, stack, cur, frames, bottom, r.e, Keep(stack, Pops(i)));
    }
  }

  lemma {:induction false} BranchSimulates(m: Config, a: Act, pc: nat, stack: seq<V>, cur: Activation,
      frames: seq<Activation>, bottom: nat, t: nat)
    returns (n: nat, s: State)
    requires Plays(a, pc, stack, cur, frames, bottom)
    requires pc < |a.code| && a.code[pc] == JumpIfFalse(t)
    requires Exec(m, a, pc, stack) != Stuck
    ensures Iter(m, bottom, n, State(cur, stack, frames, None)) == More(s)
    ensures Lands(a, stack, cur, frames, Exec(m, a, pc, stack), s)
    decreases m.limit - a.d, |a.code| - pc, 2
  {
    KeepAgrees(a.floor, stack, 1, []);
    var v := stack[|stack| - 1];
    if v.Lit? && v.c.CBool? {
      n, s := GoesOn(m, a, pc, stack, cur, frames, bottom, if v.c.b then pc + 1 else t, Keep(stack, 1));
    } else {
      n, s := Raises(m, a, pc, stack, cur, frames, bottom, NotBool, Keep(stack, 1));
    }
  }

  /** Enter a nested sequence, run it to its end, and take the step that resumes this one. */
  lemma {:induction false} Nested(m: Config, a: Act, pc: nat, stack: seq<V>, cur: Activation, frames: seq<Activation>,
      bottom: nat,
      a': Act, stack': seq<V>, to: Activation)
    returns (n: nat, s: State)
    requires Plays(a, pc, stack, cur, frames, bottom) && pc < |a.code| && a.d < m.limit
    requires Step(m, bottom, State(cur, stack, frames, None)) ==
        More(State(to, stack', frames + [cur.(pc := pc + 1)], None))
    requires Plays(a', 0, stack', to, frames + [cur.(pc := pc + 1)], bottom)
    requires Exec(m, a', 0, stack') != Stuck
    ensures Iter(m, bottom, n, State(cur, stack, frames, None)) == More(s)
    ensures Lands(a', stack', to, frames + [cur.(pc := pc + 1)], Exec(m, a', 0, stack'), s)
    decreases m.limit - a.d, |a.code| - pc, 0
  {
    var k, s2 := Simulates(m, a', 0, stack', to, frames + [cur.(pc := pc + 1)], bottom);
    Prepend(m, bottom, State(cur, stack, frames, None), State(to, stack', frames + [cur.(pc := pc + 1)], None), k, s2);
    n, s := k + 1, s2;
  }

  /** After a nested sequence has been left and this one resumed at pc', the rest of it. */
  lemma {:induction false} Resumes(m: Config, a: Act, pc: nat, stack: seq<V>, cur: Activation,
      frames: seq<Activation>, bottom: nat,
      k: nat, s1: State, pc': nat, stack': seq<V>)
    returns (n: nat, s: State)
    requires Plays(a, pc, stack, cur, frames, bottom) && pc < pc' <= |a.code| && Agree(a.floor, stack, stack')
    requires Iter(m, bottom, k, State(cur, stack, frames, None)) == More(s1)
    requires Step(m, bottom, s1) == More(State(cur.(pc := pc'), stack', frames, None))
    requires Exec(m, a, pc, stack) == Exec(m, a, pc', stack') != Stuck
    ensures Iter(m, bottom, n, State(cur, stack, frames, None)) == More(s)
    ensures Lands(a, stack, cur, frames, Exec(m, a, pc, stack), s)
    decreases m.limit - a.d, |a.code| - pc, 0
  {
    var cur' := cur.(pc := pc');
    var s0 := State(cur, stack, frames, None);
    Append(m, bottom, s0, k, s1, State(cur', stack', frames, None));
    var l, s2 := Simulates(m, a, pc', stack', cur', frames, bottom);
    IterAdd(m, bottom, k + 1, l, s0, State(cur', stack', frames, None));
    LandsFrom(a, stack, stack', cur, cur', frames, Exec(m, a, pc, stack), s2);
    n, s := k + 1 + l, s2;
  }

  /** An error leaves a nested sequence and goes on unwinding in this one. */
  lemma Unwinds(m: Config, a: Act, pc: nat, stack: seq<V>, cur: Activation, frames: seq<Activation>, bottom: nat,
      k: nat, s1: State, e: Error)
    returns (n: nat, s: State)
    requires Plays(a, pc, stack, cur, frames, bottom)
    requires Iter(m, bottom, k, State(cur, stack, frames, None)) == More(s1)
    requires s1.error == Some(e) && s1.frames == frames + [cur.(pc := pc + 1)] && s1.cur.coalesce.None?
    requires a.floor <= s1.cur.base && Agree(s1.cur.base, stack, s1.stack)
    requires Exec(m, a, pc, stack) == Raised(e)
    ensures Iter(m, bottom, n, State(cur, stack, frames, None)) == More(s)
    ensures Lands(a, stack, cur, frames, Exec(m, a, pc, stack), s)
  {
    s := State(cur.(pc := pc + 1), s1.stack[..s1.cur.base], frames, Some(e));
    assert s1.frames[..|s1.frames| - 1] == frames;
    AgreeLower(s1.cur.base, a.floor, stack, s1.stack);
    assert s.stack[..a.floor] == s1.stack[..a.floor];
    Append(m, bottom, State(cur, stack, frames, None), k, s1, s);
    n := k + 1;
  }

  lemma {:induction false} LetSimulates(m: Config, a: Act, pc: nat, stack: seq<V>, cur: Activation,
      frames: seq<Activation>, bottom: nat, x: string, body: seq<Instr>)
    returns (n: nat, s: State)
    requires Plays(a, pc, stack, cur, frames, bottom)
    requires pc < |a.code| && a.code[pc] == Let(x, body)
    requires Exec(m, a, pc, stack) != Stuck
    ensures Iter(m, bottom, n, State(cur, stack, frames, None)) == More(s)
    ensures Lands(a, stack, cur, frames, Exec(m, a, pc, stack), s)
    decreases m.limit - a.d, |a.code| - pc, 2
  {
    var st := Keep(stack, 1);
    KeepAgrees(a.floor, stack, 1, []);
    if a.d >= m.limit {
      n, s := Raises(m, a, pc, stack, cur, frames, bottom, DepthExceeded, st);
    } else {
      var a' := LetAct(a, x, body, stack);
      var to := Activation(body, a.sc, a'.chain, 0, None, |st|, false);
      var k, s1 := Nested(m, a, pc, stack, cur, frames, bottom, a', st, to);
      var r := Exec(m, a', 0, st);
      if r.Done? {
        AgreeLower(|st|, a.floor, st, r.stack);
        AgreeTrans(a.floor, stack, st, r.stack);
        assert s1.frames[..|s1.frames| - 1] == frames;
        n, s := Resumes(m, a, pc, stack, cur, frames, bottom, k, s1, pc + 1, r.stack);
      } else {
        assert stack[..|st|] == st[..|st|];
        n, s := Unwinds(m, a, pc, stack, cur, frames, bottom, k, s1, r.e);
      }
    }
  }

  lemma {:induction false} CoalesceSimulates(m: Config, a: Act, pc: nat, stack: seq<V>, cur: Activation,
      frames: seq<Activation>, bottom: nat, left: seq<Instr>, end: nat)
    returns (n: nat, s: State)
    requires Plays(a, pc, stack, cur, frames, bottom)
    requires pc < |a.code| && a.code[pc] == Coalesce(left, end)
    requires Exec(m, a, pc, stack) != Stuck
    ensures Iter(m, bottom, n, State(cur, stack, frames, None)) == More(s)
    ensures Lands(a, stack, cur, frames, Exec(m, a, pc, stack), s)
    decreases m.limit - a.d, |a.code| - pc, 2
  {
    if a.d >= m.limit {
      n, s := Raises(m, a, pc, stack, cur, frames, bottom, DepthExceeded, stack);
    } else {
      var a' := LeftAct(a, left, stack);
      var to := Activation(left, a.sc, a.chain, 0, Some(end), |stack|, false);
      var k, s1 := Nested(m, a, pc, stack, cur, frames, bottom, a', stack, to);
      var r := Exec(m, a', 0, stack);
      assert s1.frames[..|s1.frames| - 1] == frames;
      if r.Done? {
        AgreeLower(|stack|, a.floor, stack, r.stack);
        if IsNil(m.host, r.stack[|r.stack| - 1]) {
          KeepAgrees(a.floor, r.stack, 1, []);
          AgreeTrans(a.floor, stack, r.stack, Keep(r.stack, 1));
          n, s := Resumes(m, a, pc, stack, cur, frames, bottom, k, s1, pc + 1, Keep(r.stack, 1));
        } else {
          n, s := Resumes(m, a, pc, stack, cur, frames, bottom, k, s1, end, r.stack);
        }
      } else {
        assert s1.stack[..|stack|] == stack;
        n, s := Resumes(m, a, pc, stack, cur, frames, bottom, k, s1, pc + 1, stack);
      }
    }
  }

  lemma {:induction false} CallSimulates(m: Config, a: Act, pc: nat, stack: seq<V>, cur: Activation,
      frames: seq<Activation>, bottom: nat, c: nat)
    returns (n: nat, s: State)
    requires Plays(a, pc, stack, cur, frames, bottom)
    requires pc < |a.code| && a.code[pc] == Call(c)
    requires Exec(m, a, pc, stack) != Stuck
    ensures Iter(m, bottom, n, State(cur, stack, frames, None)) == More(s)
    ensures Lands(a, stack, cur, frames, Exec(m, a, pc, stack), s)
    decreases m.limit - a.d, |a.code| - pc, 2
  {
    var callee, args := stack[|stack| - 1 - c], Taken(stack, c);
    var below := Keep(stack, c + 1);
    KeepAgrees(a.floor, stack, c + 1, []);
    if !Calls(callee, args) {
      var o := CallOther(m.host, callee, args);
      if o.Ok? {
        KeepAgrees(a.floor, stack, c + 1, [o.v]);
        n, s := GoesOn(m, a, pc, stack, cur, frames, bottom, pc + 1, below + [o.v]);
      } else {
        n, s := Raises(m, a, pc, stack, cur, frames, bottom, o.e, below);
      }
    } else if a.d >= m.limit {
      n, s := Raises(m, a, pc, stack, cur, frames, bottom, DepthExceeded, if Flattens(m, callee) then stack else below);
    } else if Flattens(m, callee) {
      n, s := FlatSimulates(m, a, pc, stack, cur, frames, bottom, c, callee);
    } else {
      var a' := CallAct(a, callee, args, stack);
      var to := Activation(callee.fn.code, callee.scopes, a'.chain, 0, None, |below|, false);
      var k, s1 := Nested(m, a, pc, stack, cur, frames, bottom, a', below, to);
      var r := Exec(m, a', 0, below);
      if r.Done? {
        AgreeLower(|below|, a.floor, below, r.stack);
        AgreeTrans(a.floor, stack, below, r.stack);
        assert s1.frames[..|s1.frames| - 1] == frames;
        n, s := Resumes(m, a, pc, stack, cur, frames, bottom, k, s1, pc + 1, r.stack);
      } else {
        assert stack[..|below|] == below[..|below|];
        n, s := Unwinds(m, a, pc, stack, cur, frames, bottom, k, s1, r.e);
      }
    }
  }

  lemma {:induction false} FlatSimulates(m: Config, a: Act, pc: nat, stack: seq<V>, cur: Activation,
      frames: seq<Activation>, bottom: nat, c: nat, callee: V)
    returns (n: nat, s: State)
    requires Plays(a, pc, stack, cur, frames, bottom)
    requires pc < |a.code| && a.code[pc] == Call(c) && a.floor + c + 1 <= |stack| && callee == stack[|stack| - 1 - c]
    requires Calls(callee, Taken(stack, c)) && Flattens(m, callee) && a.d < m.limit
    requires Exec(m, a, pc, stack) != Stuck
    ensures Iter(m, bottom, n, State(cur, stack, frames, None)) == More(s)
    ensures Lands(a, stack, cur, frames, Exec(m, a, pc, stack), s)
    decreases m.limit - a.d, |a.code| - pc, 1
  {
    var a' := FlatAct(a, callee, c, stack);
    var base := |stack| - 1 - c;
    var to := Activation(callee.fn.code, callee.scopes, a'.chain, 0, None, base, true);
    var k, s1 := Nested(m, a, pc, stack, cur, frames, bottom, a', stack, to);
    var r := Exec(m, a', 0, stack);
    assert s1.frames[..|s1.frames| - 1] == frames;
    if r.Done? {
      var stack' := Keep(r.stack[..|stack|], c + 1) + [r.stack[|r.stack| - 1]];
      assert r.stack[..|stack|] == stack;
      assert r.stack[..base] == Keep(stack, c + 1);
      KeepAgrees(a.floor, stack, c + 1, [r.stack[|r.stack| - 1]]);
      n, s := Resumes(m, a, pc, stack, cur, frames, bottom, k, s1, pc + 1, stack');
    } else {
      AgreeLower(|stack|, base, stack, s1.stack);
      n, s := Unwinds(m, a, pc, stack, cur, frames, bottom, k, s1, r.e);
    }
  }

  // ----- What a `??` catches, and what it resumes with -----

  /** Where a `??` goes on once its left operand has ended as r: at its right operand, with the
      stack it found, if the left failed or gave nil; past it, with the left's value, otherwise. */
  function AfterLeft(m: Config, cur: Activation, stack: seq<V>, frames: seq<Activation>, end: nat, r: Result): State
    requires r.Done? ==> |r.stack| > 0
  {
    if r.Done? && !IsNil(m.host, r.stack[|r.stack| - 1]) then
      State(cur.(pc := end), stack + [r.stack[|r.stack| - 1]], frames, None)
    else State(cur.(pc := cur.pc + 1), stack, frames, None)
  }

  /** Isolation, for the loop: from a `??` about to run its left operand, in any activation on any
      frames, the loop comes to the state that AfterLeft says. Stack, bindings, scopes and saved frames
      are those it found, however deep the left operand's calls, lets and inner `??` went. */
  lemma CoalesceIsolates(m: Config, a: Act, pc: nat, stack: seq<V>, cur: Activation, frames: seq<Activation>,
      bottom: nat, left: seq<Instr>, end: nat)
    returns (n: nat)
    requires Plays(a, pc, stack, cur, frames, bottom)
    requires pc < |a.code| && a.code[pc] == Coalesce(left, end) && a.d < m.limit
    requires !Exec(m, LeftAct(a, left, stack), 0, stack).Stuck?
    requires var r := Exec(m, LeftAct(a, left, stack), 0, stack); r.Done? ==> |r.stack| == |stack| + 1
    ensures Iter(m, bottom, n, State(cur, stack, frames, None)) ==
      More(AfterLeft(m, cur, stack, frames, end, Exec(m, LeftAct(a, left, stack), 0, stack)))
  {
    var to := Activation(left, a.sc, a.chain, 0, Some(end), |stack|, false);
    var r := Exec(m, LeftAct(a, left, stack), 0, stack);
    var k, s1 := Nested(m, a, pc, stack, cur, frames, bottom, LeftAct(a, left, stack), stack, to);
    assert s1.frames[..|s1.frames| - 1] == frames && s1.stack[..|stack|] == stack;
    if r.Done? { assert r.stack == stack + [r.stack[|stack|]] && Keep(r.stack, 1) == stack; }
    Append(m, bottom, State(cur, stack, frames, None), k, s1, AfterLeft(m, cur, stack, frames, end, r));
    n := k + 1;
  }

  /** The activation j levels below the active one. */
  function Level(frames: seq<Activation>, cur: Activation, j: nat): Activation
    requires j <= |frames|
  {
    if j == 0 then cur else frames[|frames| - j]
  }

  /** The activation k - 1 levels down, among those of this run, is the nearest that is the left
      operand of a `??`; what it interrupted is k levels down. */
  ghost predicate Nearest(bottom: nat, frames: seq<Activation>, cur: Activation, k: nat) {
    && 0 < k && bottom + k <= |frames|
    && Level(frames, cur, k - 1).coalesce.Some?
    && forall j :: 0 <= j < k - 1 ==> Level(frames, cur, j).coalesce.None?
  }

  lemma NearestBelow(bottom: nat, frames: seq<Activation>, cur: Activation, k: nat)
    requires |frames| > bottom && cur.coalesce.None?
    ensures Nearest(bottom, frames, cur, k + 1) <==>
        k > 0 && Nearest(bottom, frames[..|frames| - 1], frames[|frames| - 1], k)
  {
    var fs, c := frames[..|frames| - 1], frames[|frames| - 1];
    forall j | 0 <= j <= |fs| ensures Level(frames, cur, j + 1) == Level(fs, c, j) {}
    if k > 0 && Nearest(bottom, fs, c, k) {
      forall j | 0 <= j < k ensures Level(frames, cur, j).coalesce.None? {
        if j > 0 { assert Level(frames, cur, j) == Level(fs, c, j - 1); }
      }
    }
    if Nearest(bottom, frames, cur, k + 1) {
      forall j | 0 <= j < k - 1 ensures Level(fs, c, j).coalesce.None? {
        assert Level(fs, c, j) == Level(frames, cur, j + 1);
      }
    }
  }

  /** An error unwinds, in k steps, to the nearest enclosing `??` and no further: what that `??`
      interrupted resumes with the stack cut to where the `??` found it and the frames below it. */
  lemma {:induction false} UnwindsToNearest(m: Config, bottom: nat, s: State, k: nat)
    requires s.error.Some? && !Iter(m, bottom, k, s).Panic? && Nearest(bottom, s.frames, s.cur, k)
    ensures Level(s.frames, s.cur, k - 1).base <= |s.stack|
    ensures Iter(m, bottom, k, s) == More(Caught(s, k))
    decreases k
  {
    IterOne(m, bottom, s);
    var r := Step(m, bottom, s);
    if k > 1 {
      assert Level(s.frames, s.cur, 0).coalesce.None?;
      NearestBelow(bottom, s.frames, s.cur, k - 1);
      UnwindsToNearest(m, bottom, r.s, k - 1);
      assert Level(r.s.frames, r.s.cur, k - 2) == Level(s.frames, s.cur, k - 1);
      assert r.s.frames[..|s.frames| - k] == s.frames[..|s.frames| - k];
    }
  }

  /** The state in which the sequence k levels down resumes when the one above it has caught. */
  function Caught(s: State, k: nat): State
    requires 0 < k <= |s.frames|
  {
    var base := Level(s.frames, s.cur, k - 1).base;
    State(s.frames[|s.frames| - k], if base <= |s.stack| then s.stack[..base] else s.stack,
      s.frames[..|s.frames| - k], None)
  }

  /** And where no `??` encloses it, it ends the run, with the stack cut to where the run began. */
  lemma {:induction false} UncaughtFails(m: Config, bottom: nat, s: State)
    requires s.error.Some? && bottom <= |s.frames| && !Iter(m, bottom, |s.frames| - bottom + 1, s).Panic?
    requires forall k: nat :: !Nearest(bottom, s.frames, s.cur, k)
    ensures
      var root := Level(s.frames, s.cur, |s.frames| - bottom);
      && root.base <= |s.stack|
      && Iter(m, bottom, |s.frames| - bottom + 1, s) == Failed(s.error.value, s.stack[..root.base], s.frames[..bottom])
    decreases |s.frames|
  {
    IterOne(m, bottom, s);
    var r := Step(m, bottom, s);
    if |s.frames| > bottom {
      assert !Nearest(bottom, s.frames, s.cur, 1) && Level(s.frames, s.cur, 0) == s.cur;
      forall k: nat ensures !Nearest(bottom, r.s.frames, r.s.cur, k) {
        NearestBelow(bottom, s.frames, s.cur, k);
        assert !Nearest(bottom, s.frames, s.cur, k + 1);
      }
      UncaughtFails(m, bottom, r.s);
      assert Level(r.s.frames, r.s.cur, |r.s.frames| - bottom) == Level(s.frames, s.cur, |s.frames| - bottom);
      assert r.s.frames[..bottom] == s.frames[..bottom];
    } else {
      assert s.frames[..bottom] == s.frames;
    }
  }

  /** After k steps of unwinding from start without meeting the left of a `??`. */
  ghost predicate Unwound(m: Config, bottom: nat, start: State, k: nat, s: State) {
    && start.error.Some? && Iter(m, bottom, k, start) == More(s)
    && (bottom <= |start.frames| ==>
          && bottom + k <= |start.frames| && s.cur == Level(start.frames, start.cur, k) &&
            s.frames == start.frames[..|start.frames| - k]
          && forall j :: 0 <= j < k ==> Level(start.frames, start.cur, j).coalesce.None?)
  }

  /** The next step of it catches the error, ends the run, or goes on. */
  lemma UnwindsOnce(m: Config, bottom: nat, start: State, k: nat, s: State)
    requires Unwound(m, bottom, start, k, s) && s.error.Some? && !Step(m, bottom, s).Panic?
    ensures Step(m, bottom, s).More? && s.cur.coalesce.None? ==> Unwound(m, bottom, start, k + 1, Step(m, bottom, s).s)
    ensures bottom <= |start.frames| && Step(m, bottom, s).More? && s.cur.coalesce.Some? ==>
      Nearest(bottom, start.frames, start.cur, k + 1) && Step(m, bottom, s).s == Caught(start, k + 1)
    ensures bottom <= |start.frames| && !Step(m, bottom, s).More? ==>
        forall i: nat :: !Nearest(bottom, start.frames, start.cur, i)
  {
    var r := Step(m, bottom, s);
    IterAdd(m, bottom, k, 1, start, s);
    IterOne(m, bottom, s);
    if bottom <= |start.frames| {
      if r.More? && s.cur.coalesce.Some? {
        UnwindsToNearest(m, bottom, start, k + 1);
      } else if r.More? {
        assert r.s.frames == start.frames[..|start.frames| - (k + 1)];
      } else {
        forall i: nat ensures !Nearest(bottom, start.frames, start.cur, i) {
          if 0 < i && bottom + i <= |start.frames| { assert Level(start.frames, start.cur, i - 1).coalesce.None?; }
        }
      }
    }
  }
}
