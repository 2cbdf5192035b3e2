// The virtual machine, twice: Exec is the recursion a naive interpreter would use, Step is one
// iteration of the trampoline that keeps suspended activations on an explicit frame stack.

module Machine {
  import opened Values
  import opened Bytecode
  import Semantics

  type V = Value<Proto>

  /** Where an active frame's bindings live: in a values slice of its own, in the operand stack
      itself (the flattened call), or in the buffer a ReusableCall overwrites on every call. */
  datatype Slots =
    | Own(binds: seq<Bind<Proto>>)
    | View(names: seq<string>, from: nat)
    | Reused(names: seq<string>)

  datatype Chain = Bottom | Link(parent: Chain, slots: Slots)

  /** flat: calls of NoEscape closures are flattened. reuse: the buffer of the ReusableCall being
      served, if any. limit: the number of activations that may be suspended. */
  datatype Config = Config(host: Host<Proto>, limit: nat, flat: bool, reuse: seq<V>)

  function Embed(l: Locals<Proto>): Chain {
    match l
    case Root => Bottom
    case Frame(parent, binds) => Link(Embed(parent), Own(binds))
  }

  /** The frames a closure created now would hold on to. Only frames with values of their own
      outlive the call that made them; capturing any other would leave the closure reading
      stack slots or buffers that are soon overwritten. */
  function Capture(c: Chain): Option<Locals<Proto>> {
    match c
    case Bottom => Some(Root)
    case Link(parent, slots) =>
      match Capture(parent)
      case None => None
      case Some(l) => if slots.Own? then Some(Frame(l, slots.binds)) else None
  }

  function SlotAt(s: Slots, slot: nat, stack: seq<V>, reuse: seq<V>): Option<V> {
    match s
    case Own(binds) => if slot < |binds| then Some(binds[slot].value) else None
    case View(names, from) => if slot < |names| && from + slot < |stack| then Some(stack[from + slot]) else None
    case Reused(names) => if slot < |names| && slot < |reuse| then Some(reuse[slot]) else None
  }

  function ReadLocal(c: Chain, depth: nat, slot: nat, stack: seq<V>, reuse: seq<V>): Option<V> {
    match c
    case Bottom => None
    case Link(parent, slots) =>
      if depth == 0 then SlotAt(slots, slot, stack, reuse) else ReadLocal(parent, depth - 1, slot, stack, reuse)
  }

  // ----- Instructions that stay within one activation and always go on to the next one -----

  datatype Pushed = Push(v: V) | Fail(e: Error) | Fault

  predicate IsPlain(i: Instr) {
    i.Push? || i.Load? || i.LoadLocal? || i.Do? || i.MakeClosure?
  }

  function Pops(i: Instr): nat { if i.Do? then Arity(i.op) else 0 }

  /** What a plain instruction pushes after popping args. Fault stands for a run-time panic. */
  function Plain(m: Config, sc: Scopes<Proto>, chain: Chain, stack: seq<V>, i: Instr, args: seq<V>): Pushed
    requires IsPlain(i) && |args| == Pops(i)
  {
    match i
    case Push(c) => Pushed.Push(Lit(c))
    case Load(x) => FromOutcome(LoadName(m.host, sc, x))
    case LoadLocal(depth, slot) =>
      (match ReadLocal(chain, depth, slot, stack, m.reuse)
       case Some(v) => Pushed.Push(v)
       case None => Fault)
    case Do(op) => FromOutcome(Operate(m.host, op, args))
    case MakeClosure(p) =>
      match Capture(chain)
      case Some(l) => Pushed.Push(Clo(p, sc, l))
      case None => Fault
  }

  function FromOutcome(o: Outcome<V>): Pushed {
    match o
    case Ok(v) => Pushed.Push(v)
    case Err(e) => Fail(e)
  }

  function Keep(stack: seq<V>, n: nat): seq<V>
    requires n <= |stack|
  {
    stack[..|stack| - n]
  }

  function Taken(stack: seq<V>, n: nat): seq<V>
    requires n <= |stack|
  {
    stack[|stack| - n..]
  }

  predicate Calls(callee: V, args: seq<V>) {
    callee.Clo? && |callee.fn.params| == |args|
  }

  /** Every callee that is not a closure taking this many arguments. */
  function CallOther(h: Host<Proto>, callee: V, args: seq<V>): Outcome<V>
    requires !Calls(callee, args)
  {
    if callee.Clo? then Err(ArgCount(|callee.fn.params|, |args|)) else h.ask(Calling(callee, args))
  }

  // ----- The recursive machine -----

  /** One activation: its code and bindings, the stack height it must not pop below, and the
      number of activations suspended beneath it. */
  datatype Act = Act(code: seq<Instr>, sc: Scopes<Proto>, chain: Chain, floor: nat, d: nat)

  /** Exec stops with Stuck on everything the trampoline would panic on, and also on a pop below
      the activation's own floor and on a jump that is not forward. */
  datatype Result = Done(stack: seq<V>) | Raised(e: Error) | Stuck

  function Exec(m: Config, a: Act, pc: nat, stack: seq<V>): Result
    decreases m.limit - a.d, |a.code| - pc, 1
  {
    if pc >= |a.code| then Done(stack) else ExecInstr(m, a, pc, stack, a.code[pc])
  }

  function ExecInstr(m: Config, a: Act, pc: nat, stack: seq<V>, i: Instr): Result
    requires pc < |a.code|
    decreases m.limit - a.d, |a.code| - pc, 0
  {
    if IsPlain(i) then
      if |stack| < a.floor + Pops(i) then Stuck else
      match Plain(m, a.sc, a.chain, stack, i, Taken(stack, Pops(i)))
      case Push(v) => Exec(m, a, pc + 1, Keep(stack, Pops(i)) + [v])
      case Fail(e) => Raised(e)
      case Fault => Stuck
    else
      match i
      case Jump(t) => if pc < t <= |a.code| then Exec(m, a, t, stack) else Stuck
      case JumpIfFalse(t) =>
        if |stack| <= a.floor then Stuck else
        (match stack[|stack| - 1]
         case Lit(CBool(b)) =>
           if b then Exec(m, a, pc + 1, Keep(stack, 1))
           else if pc < t <= |a.code| then Exec(m, a, t, Keep(stack, 1)) else Stuck
         case _ => Raised(NotBool))
      case Let(x, body) =>
        if |stack| <= a.floor then Stuck
        else if a.d >= m.limit then Raised(DepthExceeded)
        else
          (match Exec(m, LetAct(a, x, body, stack), 0, Keep(stack, 1))
           case Done(st) => Exec(m, a, pc + 1, st)
           case r => r)
      case Coalesce(left, end) =>
        if a.d >= m.limit then Raised(DepthExceeded)
        else
          (match Exec(m, LeftAct(a, left, stack), 0, stack)
           case Done(st) =>
             if |st| <= |stack| then Stuck
             else if IsNil(m.host, st[|st| - 1]) then Exec(m, a, pc + 1, Keep(st, 1))
             else if pc < end <= |a.code| then Exec(m, a, end, st) else Stuck
           case Raised(_) => Exec(m, a, pc + 1, stack)
           case Stuck => Stuck)
      case Call(n) =>
        if |stack| < a.floor + n + 1 then Stuck else
        var callee, args := stack[|stack| - 1 - n], Taken(stack, n);
        if !Calls(callee, args) then
          (match CallOther(m.host, callee, args)
           case Ok(v) => Exec(m, a, pc + 1, Keep(stack, n + 1) + [v])
           case Err(e) => Raised(e))
        else if a.d >= m.limit then Raised(DepthExceeded)
        else if Flattens(m, callee) then
          (match Exec(m, FlatAct(a, callee, n, stack), 0, stack)
           case Done(st) =>
             if |st| <= |stack| then Stuck
             else Exec(m, a, pc + 1, Keep(st[..|stack|], n + 1) + [st[|st| - 1]])
           case r => r)
        else
          (match Exec(m, CallAct(a, callee, args, stack), 0, Keep(stack, n + 1))
           case Done(st) => Exec(m, a, pc + 1, st)
           case r => r)
  }

  predicate Flattens(m: Config, callee: V)
    requires callee.Clo?
  {
    m.flat && callee.fn.noEscape
  }

  function LetAct(a: Act, x: string, body: seq<Instr>, stack: seq<V>): Act
    requires stack != []
  {
    Act(body, a.sc, Link(a.chain, Own([Bind(x, stack[|stack| - 1])])), |stack| - 1, a.d + 1)
  }

  function LeftAct(a: Act, left: seq<Instr>, stack: seq<V>): Act {
    Act(left, a.sc, a.chain, |stack|, a.d + 1)
  }

  /** The arguments stay where the caller pushed them. */
  function FlatAct(a: Act, callee: V, n: nat, stack: seq<V>): Act
    requires callee.Clo? && n < |stack|
  {
    Act(callee.fn.code, callee.scopes, Link(Embed(callee.locals), View(callee.fn.params, |stack| - n)), |stack|,
      a.d + 1)
  }

  function CallAct(a: Act, callee: V, args: seq<V>, stack: seq<V>): Act
    requires Calls(callee, args) && |args| < |stack|
  {
    Act(callee.fn.code, callee.scopes, Link(Embed(callee.locals), Own(Semantics.BindAll(callee.fn.params, args))),
        |stack| - |args| - 1, a.d + 1)
  }
}
