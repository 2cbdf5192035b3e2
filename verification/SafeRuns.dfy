// The trampoline keeps the run-time stack and frames in step with the static judgment on code, in
// the active sequence and in every suspended one, so that no run underflows, overruns or panics.

module SafeRuns {
  import opened Values
  import opened Mapping
  import opened Syntax
  import opened Bytecode
  import opened CompilerSpec
  import opened Machine
  import opened Trampoline
  import opened StackSafety
  import Loads = Names
  import Semantics

  // ----- Strict opcodes and lookups hand on only safe values -----

  lemma {:induction false} InListSafe(h: Host<Proto>, a: V, xs: seq<V>)
    requires SafeHost(h) && SafeV(a) && SafeAll(xs)
    ensures SafeOutcome(InList(h, a, xs))
  {
    if xs != [] { InListSafe(h, a, xs[1..]); }
  }

  lemma {:induction false} BuildMapSafe(kvs: seq<V>)
    requires |kvs| % 2 == 0 && SafeAll(kvs)
    ensures BuildMap(kvs).Ok? ==> SafeV(MapV(BuildMap(kvs).v))
  {
    if kvs != [] { BuildMapSafe(kvs[2..]); }
  }

  lemma AskSafe(h: Host<Proto>, q: Question<Proto>)
    requires SafeHost(h) && SafeQuestion(q)
    ensures SafeOutcome(h.ask(q))
  {
  }

  lemma SliceSafe(h: Host<Proto>, t: V, lo: V, hi: V)
    requires SafeHost(h) && SafeV(t) && SafeV(lo) && SafeV(hi)
    ensures SafeOutcome(SliceValue(h, t, lo, hi))
  {
    AskSafe(h, PartOf(t, lo, hi));
  }

  lemma ItemSafe(h: Host<Proto>, t: V, i: V, name: string)
    requires SafeHost(h) && SafeV(t) && SafeV(i)
    ensures SafeOutcome(IndexValue(h, t, i)) && SafeOutcome(AccessMember(h, t, name))
  {
    AskSafe(h, ItemOf(t, i));
    AskSafe(h, MemberOf(t, name));
  }

  lemma CombineSafe(h: Host<Proto>, op: BinOp, a: V, b: V)
    requires SafeHost(h) && SafeV(a) && SafeV(b)
    ensures SafeOutcome(Binary(h, op, a, b)) && SafeOutcome(InValue(h, a, b)) && SafeOutcome(Negate(h, a))
  {
    AskSafe(h, Combining(op, a, b));
    AskSafe(h, Contains(a, b));
    AskSafe(h, Negating(a));
    if b.ListV? { InListSafe(h, a, b.xs); }
  }

  lemma OperateSafe(h: Host<Proto>, op: Operator, a: seq<V>)
    requires SafeHost(h) && SafeAll(a) && |a| == Arity(op)
    ensures SafeOutcome(Operate(h, op, a))
  {
    match op
    case Bin(o) => CombineSafe(h, o, a[0], a[1]);
    case In => CombineSafe(h, Eq, a[0], a[1]);
    case Neg => CombineSafe(h, Eq, a[0], a[0]);
    case Access(n) => ItemSafe(h, a[0], a[0], n);
    case OptAccess(n) => ItemSafe(h, a[0], a[0], n);
    case Index => ItemSafe(h, a[0], a[1], "");
    case OptIndex => ItemSafe(h, a[0], a[1], "");
    case Slice => SliceSafe(h, a[0], a[1], a[2]);
    case MakeMap(_) => BuildMapSafe(a);
    case _ =>
  }

  lemma {:induction false} LoadSafe(h: Host<Proto>, sc: Scopes<Proto>, x: string)
    requires SafeHost(h) && SafeScopes(sc)
    ensures SafeOutcome(LoadName(h, sc, x))
    decreases sc
  {
    match sc
    case NoScope => AskSafe(h, Global(x));
    case Layer(inner, outer) => if x !in inner { LoadSafe(h, outer, x); }
  }

  // ----- The run-time chain has the shape of the compile-time names -----

  function SlotNames(s: Slots): seq<string> {
    match s
    case Own(binds) => BindNames(binds)
    case View(names, _) => names
    case Reused(names) => names
  }

  function ChainNames(c: Chain): Names {
    match c
    case Bottom => []
    case Link(parent, slots) => ChainNames(parent) + [SlotNames(slots)]
  }

  /** Frames of its own hold safe values; a view lies below height h; a buffer is large enough. */
  ghost predicate SafeChain(m: Config, c: Chain, h: nat) {
    match c
    case Bottom => true
    case Link(parent, slots) => SafeChain(m, parent, h) && SafeSlots(m, slots, h)
  }

  ghost predicate SafeSlots(m: Config, slots: Slots, h: nat) {
    match slots
    case Own(binds) => forall i :: 0 <= i < |binds| ==> SafeV(binds[i].value)
    case View(names, from) => from + |names| <= h
    case Reused(names) => |names| <= |m.reuse|
  }

  lemma {:induction false} ChainHigher(m: Config, c: Chain, h: nat, h': nat)
    requires SafeChain(m, c, h) && h <= h'
    ensures SafeChain(m, c, h')
  {
    if c.Link? { ChainHigher(m, c.parent, h, h'); }
  }

  lemma {:induction false} EmbedSafe(m: Config, l: Locals<Proto>, h: nat)
    requires SafeLocals(l)
    ensures SafeChain(m, Embed(l), h) && ChainNames(Embed(l)) == NamesOf(l) && Capture(Embed(l)) == Some(l)
  {
    if l.Frame? { EmbedSafe(m, l.parent, h); }
  }

  lemma {:induction false} CaptureSafe(m: Config, c: Chain, h: nat)
    requires SafeChain(m, c, h) && Capture(c).Some?
    ensures SafeLocals(Capture(c).value) && NamesOf(Capture(c).value) == ChainNames(c)
  {
    if c.Link? { CaptureSafe(m, c.parent, h); }
  }

  lemma {:induction false} ReadSafe(m: Config, c: Chain, h: nat, depth: nat, slot: nat, stack: seq<V>)
    requires SafeChain(m, c, h) && h <= |stack| && SafeAll(stack) && SafeAll(m.reuse)
    requires depth < |ChainNames(c)| && slot < |ChainNames(c)[|ChainNames(c)| - 1 - depth]|
    ensures ReadLocal(c, depth, slot, stack, m.reuse).Some?
    ensures SafeV(ReadLocal(c, depth, slot, stack, m.reuse).value)
  {
    if depth > 0 {
      var outer := ChainNames(c.parent);
      assert ChainNames(c)[|ChainNames(c)| - 1 - depth] == outer[|outer| - 1 - (depth - 1)];
      ReadSafe(m, c.parent, h, depth - 1, slot, stack);
    }
  }

  // ----- What holds between any two steps -----

  /** The height below which the sequence never pops. A flattened call leaves the callee and the
      arguments, which its bindings view, on the stack above its base. */
  function Floor(a: Activation): nat {
    a.base + if a.flat && a.chain.Link? then 1 + |SlotNames(a.chain.slots)| else 0
  }

  ghost predicate SafeAct(m: Config, a: Activation) {
    && SafeScopes(a.sc)
    && SafeChain(m, a.chain, Floor(a))
    && Fits(a.code, ChainNames(a.chain))
    && (ContainsClosureLiteral(a.code) ==> Capture(a.chain).Some?)
    && (a.flat ==> a.coalesce.None?)
  }

  /** The stack height with which instruction pc of the sequence is to be reached. */
  ghost predicate Expects(a: Activation, pc: nat, size: nat) {
    exists hs: seq<nat> :: Flows(a.code, 0, hs) && Reaches(a, pc, size, hs)
  }

  predicate Reaches(a: Activation, pc: nat, size: nat, hs: seq<nat>) {
    |hs| == |a.code| + 1 && hs[|a.code|] == 1 && pc <= |a.code| && size == Floor(a) + hs[pc]
  }

  /** Sequence p is suspended directly below c, and whichever way c ends, p resumes at a height it
      expects: with c's result, or, past the left of a `??`, with it at the jump's target and
      without anything at the right operand. */
  ghost predicate Waits(p: Activation, c: Activation) {
    && Floor(p) <= c.base
    && match c.coalesce
       case None => Expects(p, p.pc, c.base + 1)
       case Some(t) => Expects(p, p.pc, c.base) && Expects(p, t, c.base + 1)
  }

  ghost predicate Suspended(m: Config, bottom: nat, floor: nat, frames: seq<Activation>, c: Activation)
    decreases |frames|
  {
    if |frames| <= bottom then |frames| == bottom && c.coalesce.None? && !c.flat && c.base == floor
    else
      var p := frames[|frames| - 1];
      SafeAct(m, p) && Waits(p, c) && Suspended(m, bottom, floor, frames[..|frames| - 1], p)
  }

  /** A run that began above `frames` and the stack `below`. */
  ghost predicate Inv(m: Config, frames: seq<Activation>, below: seq<V>, s: State) {
    && Held(m, frames, below, s.frames, s.cur, s.stack)
    && (if s.error.Some? then s.cur.base <= |s.stack| else Expects(s.cur, s.cur.pc, |s.stack|))
  }

  ghost predicate Held(m: Config, frames: seq<Activation>, below: seq<V>, fs: seq<Activation>, c: Activation,
      stack: seq<V>) {
    && SafeAct(m, c)
    && Suspended(m, |frames|, |below|, fs, c) && frames <= fs
    && SafeAll(stack) && below <= stack
  }

  lemma {:induction false} BaseAbove(m: Config, bottom: nat, floor: nat, frames: seq<Activation>, c: Activation)
    requires Suspended(m, bottom, floor, frames, c)
    ensures floor <= c.base && |frames| >= bottom
    decreases |frames|
  {
    if |frames| > bottom {
      BaseAbove(m, bottom, floor, frames[..|frames| - 1], frames[|frames| - 1]);
    }
  }

  lemma Prefix(below: seq<V>, stack: seq<V>, n: nat)
    requires below <= stack && |below| <= n <= |stack| && SafeAll(stack)
    ensures below <= stack[..n] && SafeAll(stack[..n])
  {
  }

  /** Pushing a safe value on what is left of the stack. */
  lemma Pushes(below: seq<V>, stack: seq<V>, n: nat, v: V)
    requires below <= stack && |below| <= n <= |stack| && SafeAll(stack) && SafeV(v)
    ensures below <= stack[..n] + [v] && SafeAll(stack[..n] + [v])
  {
    Prefix(below, stack, n);
  }

  lemma {:induction false} HoldsAt(code: seq<Instr>, pc: nat)
    requires pc < |code| && HoldsClosureLiteral(code[pc])
    ensures ContainsClosureLiteral(code)
  {
    if pc > 0 { HoldsAt(code[1..], pc - 1); }
  }

  /** How a step may leave the run. */
  ghost predicate Kept(m: Config, frames: seq<Activation>, below: seq<V>, r: Next) {
    match r
    case More(s) => Inv(m, frames, below, s)
    case Returned(stack, fs) => |stack| == |below| + 1 && below <= stack && SafeAll(stack) && fs == frames
    case Failed(_, stack, fs) => stack == below && fs == frames
    case Panic => false
  }

  /** The run is about to execute instruction s.cur.pc, at the heights hs. */
  ghost predicate At(m: Config, frames: seq<Activation>, below: seq<V>, s: State, hs: seq<nat>) {
    && Inv(m, frames, below, s) && s.error.None?
    && s.cur.pc < |s.cur.code|
    && Flows(s.cur.code, 0, hs) && Reaches(s.cur, s.cur.pc, |s.stack|, hs)
    && SafeHost(m.host) && SafeAll(m.reuse)
  }

  // ----- Every step keeps it -----

  lemma HeldCut(m: Config, frames: seq<Activation>, below: seq<V>, s: State, pc: nat, n: nat)
    requires Inv(m, frames, below, s) && |below| <= n <= |s.stack|
    ensures Held(m, frames, below, s.frames, s.cur.(pc := pc), s.stack[..n])
  {
    Prefix(below, s.stack, n);
  }

  /** The sequence goes on at pc, with height n of its stack left and perhaps a value pushed. */
  lemma GoesOn(m: Config, frames: seq<Activation>, below: seq<V>, s: State, hs: seq<nat>, pc: nat, n: nat,
      v: Option<V>, r: Next)
    requires At(m, frames, below, s, hs)
    requires Floor(s.cur) <= n <= |s.stack| && (v.Some? ==> SafeV(v.value))
    requires pc <= |s.cur.code| && Floor(s.cur) + hs[pc] == n + if v.Some? then 1 else 0
    requires r == More(s.(cur := s.cur.(pc := pc), stack := s.stack[..n] + if v.Some? then [v.value] else []))
    ensures Kept(m, frames, below, r)
  {
    BaseAbove(m, |frames|, |below|, s.frames, s.cur);
    var stack := s.stack[..n] + if v.Some? then [v.value] else [];
    if v.Some? { Pushes(below, s.stack, n, v.value); } else { Prefix(below, s.stack, n); assert stack == s.stack[..n]; }
    var cur := s.cur.(pc := pc);
    assert Reaches(cur, pc, |stack|, hs);
  }

  /** An instruction fails with height n of the stack left. */
  lemma Raises(m: Config, frames: seq<Activation>, below: seq<V>, s: State, hs: seq<nat>, pc: nat, n: nat, e: Error,
      r: Next)
    requires At(m, frames, below, s, hs) && Floor(s.cur) <= n <= |s.stack|
    requires r == More(s.(cur := s.cur.(pc := pc), stack := s.stack[..n], error := Some(e)))
    ensures Kept(m, frames, below, r)
  {
    BaseAbove(m, |frames|, |below|, s.frames, s.cur);
    Prefix(below, s.stack, n);
  }

  lemma PlainSafe(m: Config, frames: seq<Activation>, below: seq<V>, s: State, hs: seq<nat>, i: Instr, args: seq<V>)
    requires At(m, frames, below, s, hs) && i == s.cur.code[s.cur.pc] && IsPlain(i)
    requires |args| == Pops(i) && SafeAll(args)
    ensures
      var r := Plain(m, s.cur.sc, s.cur.chain, s.stack, i, args);
      !r.Fault? && (r.Push? ==> SafeV(r.v))
  {
    var names := ChainNames(s.cur.chain);
    assert InstrFits(i, names);
    match i
    case Push(_) =>
    case Load(x) => LoadSafe(m.host, s.cur.sc, x);
    case LoadLocal(d, k) => ReadSafe(m, s.cur.chain, Floor(s.cur), d, k, s.stack);
    case Do(op) => OperateSafe(m.host, op, args);
    case MakeClosure(p) =>
      HoldsAt(s.cur.code, s.cur.pc);
      CaptureSafe(m, s.cur.chain, Floor(s.cur));
  }

  lemma PlainKept(m: Config, frames: seq<Activation>, below: seq<V>, s: State, hs: seq<nat>, i: Instr)
    requires At(m, frames, below, s, hs) && i == s.cur.code[s.cur.pc] && IsPlain(i)
    ensures Kept(m, frames, below, Execute(m, s, i))
  {
    assert Moves(i, 0, s.cur.pc, hs);
    var n := |s.stack| - Pops(i);
    var args := Taken(s.stack, Pops(i));
    PlainSafe(m, frames, below, s, hs, i, args);
    var r := Plain(m, s.cur.sc, s.cur.chain, s.stack, i, args);
    if r.Push? { GoesOn(m, frames, below, s, hs, s.cur.pc + 1, n, Some(r.v), Execute(m, s, i)); }
    else { Raises(m, frames, below, s, hs, s.cur.pc + 1, n, r.e, Execute(m, s, i)); }
  }

  lemma JumpKept(m: Config, frames: seq<Activation>, below: seq<V>, s: State, hs: seq<nat>, i: Instr)
    requires At(m, frames, below, s, hs) && i == s.cur.code[s.cur.pc] && (i.Jump? || i.JumpIfFalse?)
    ensures Kept(m, frames, below, Execute(m, s, i))
  {
    assert Moves(i, 0, s.cur.pc, hs);
    var n := |s.stack|;
    if i.Jump? {
      assert s.stack[..n] + [] == s.stack;
      GoesOn(m, frames, below, s, hs, i.target, n, None, Execute(m, s, i));
    } else if !(s.stack[n - 1].Lit? && s.stack[n - 1].c.CBool?) {
      Raises(m, frames, below, s, hs, s.cur.pc + 1, n - 1, NotBool, Execute(m, s, i));
    } else {
      assert s.stack[..n - 1] + [] == s.stack[..n - 1];
      GoesOn(m, frames, below, s, hs, if s.stack[n - 1].c.b then s.cur.pc + 1 else i.target, n - 1, None,
        Execute(m, s, i));
    }
  }

  /** Suspending a sequence and switching to another that it waits for. */
  lemma SaveKept(m: Config, frames: seq<Activation>, below: seq<V>, s: State, to: Activation, r: Next)
    requires r == More(Save(m, s, to))
    requires Held(m, frames, below, s.frames, s.cur, s.stack) && s.cur.base <= |s.stack|
    requires SafeAct(m, to) && Waits(s.cur, to) && to.pc == 0 && Expects(to, 0, |s.stack|)
    ensures Kept(m, frames, below, r)
  {
    BaseAbove(m, |frames|, |below|, s.frames, s.cur);
    var fs := s.frames + [s.cur];
    assert fs[..|fs| - 1] == s.frames;
  }

  /** A safe stream starts at the height of its activation's floor. */
  lemma Starts(to: Activation, names: Names)
    requires Safe(to.code, names)
    ensures Expects(to, 0, Floor(to))
  {
    var hs: seq<nat> :| Flows(to.code, 0, hs) && hs[0] == 0 && hs[|to.code|] == 1;
    assert Reaches(to, 0, Floor(to), hs);
  }

  /** After a call or a let, the caller waits for the result where the callee's base is. */
  lemma ResultAwaited(m: Config, frames: seq<Activation>, below: seq<V>, s: State, hs: seq<nat>, to: Activation)
    requires At(m, frames, below, s, hs) && to.coalesce.None?
    requires Floor(s.cur) <= to.base && Floor(s.cur) + hs[s.cur.pc + 1] == to.base + 1
    ensures |below| <= to.base && Waits(s.cur.(pc := s.cur.pc + 1), to)
  {
    BaseAbove(m, |frames|, |below|, s.frames, s.cur);
    assert Reaches(s.cur.(pc := s.cur.pc + 1), s.cur.pc + 1, to.base + 1, hs);
  }

  /** A safe closure's body, with its arguments in a frame of its own or in a borrowed one. */
  lemma CalleeSafe(m: Config, callee: V, slots: Slots, base: nat, flat: bool, to: Activation)
    requires SafeV(callee) && callee.Clo? && to == Loads.Body(callee, slots, base, flat)
    requires SlotNames(slots) == callee.fn.params && SafeSlots(m, slots, Floor(to)) &&
        (slots.Own? || callee.fn.noEscape)
    ensures SafeAct(m, to) && Expects(to, 0, Floor(to))
  {
    EmbedSafe(m, callee.locals, Floor(to));
    Starts(to, ChainNames(to.chain));
  }

  lemma BoundSafe(m: Config, params: seq<string>, args: seq<V>, h: nat)
    requires |params| == |args| && SafeAll(args)
    ensures SlotNames(Own(Semantics.BindAll(params, args))) == params &&
        SafeSlots(m, Own(Semantics.BindAll(params, args)), h)
  {
    assert BindNames(Semantics.BindAll(params, args)) == params;
  }

  lemma TakenSafe(stack: seq<V>, n: nat)
    requires n <= |stack| && SafeAll(stack)
    ensures SafeAll(Taken(stack, n))
  {
  }

  lemma LetSafe(m: Config, a: Activation, x: string, body: seq<Instr>, v: V, to: Activation)
    requires SafeAct(m, a) && Safe(body, ChainNames(a.chain) + [[x]]) && SafeV(v) && Floor(a) <= to.base
    requires ContainsClosureLiteral(body) ==> Capture(a.chain).Some?
    requires to == Activation(body, a.sc, Link(a.chain, Own([Bind(x, v)])), 0, None, to.base, false)
    ensures SafeAct(m, to) && Expects(to, 0, to.base)
  {
    ChainHigher(m, a.chain, Floor(a), to.base);
    assert BindNames(to.chain.slots.binds) == [x];
    Starts(to, ChainNames(to.chain));
  }

  lemma LetKept(m: Config, frames: seq<Activation>, below: seq<V>, s: State, hs: seq<nat>, x: string, body: seq<Instr>)
    requires At(m, frames, below, s, hs) && s.cur.code[s.cur.pc] == Bytecode.Let(x, body)
    ensures Kept(m, frames, below, Execute(m, s, Bytecode.Let(x, body)))
  {
    var i, cur, n := Bytecode.Let(x, body), s.cur.(pc := s.cur.pc + 1), |s.stack| - 1;
    assert Moves(i, 0, s.cur.pc, hs) && InstrFits(i, ChainNames(cur.chain));
    var chain := Link(cur.chain, Own([Bind(x, s.stack[n])]));
    var stack := Keep(s.stack, 1);
    var to := Activation(body, cur.sc, chain, 0, None, n, false);
    ResultAwaited(m, frames, below, s, hs, to);
    HeldCut(m, frames, below, s, cur.pc, n);
    if ContainsClosureLiteral(body) { HoldsAt(s.cur.code, s.cur.pc); }
    LetSafe(m, s.cur, x, body, s.stack[n], to);
    Loads.LetSwitches(m, s, x, body);
    SaveKept(m, frames, below, s.(cur := cur, stack := stack), to, Execute(m, s, i));
  }

  lemma CoalesceKept(m: Config, frames: seq<Activation>, below: seq<V>, s: State, hs: seq<nat>, left: seq<Instr>,
      end: nat)
    requires At(m, frames, below, s, hs) && s.cur.code[s.cur.pc] == Bytecode.Coalesce(left, end)
    ensures Kept(m, frames, below, Execute(m, s, Bytecode.Coalesce(left, end)))
  {
    var i, cur, n := Bytecode.Coalesce(left, end), s.cur.(pc := s.cur.pc + 1), |s.stack|;
    assert Moves(i, 0, s.cur.pc, hs) && InstrFits(i, ChainNames(cur.chain));
    var to := Activation(left, cur.sc, cur.chain, 0, Some(end), n, false);
    ChainHigher(m, cur.chain, Floor(cur), n);
    if ContainsClosureLiteral(left) { HoldsAt(s.cur.code, s.cur.pc); }
    Starts(to, ChainNames(cur.chain));
    assert Reaches(cur, cur.pc, n, hs) && Reaches(cur, end, n + 1, hs);
    SaveKept(m, frames, below, s.(cur := cur), to, Execute(m, s, i));
  }

  lemma CallKept(m: Config, frames: seq<Activation>, below: seq<V>, s: State, hs: seq<nat>, k: nat)
    requires At(m, frames, below, s, hs) && s.cur.code[s.cur.pc] == Bytecode.Call(k)
    ensures Kept(m, frames, below, Execute(m, s, Bytecode.Call(k)))
  {
    assert Moves(Bytecode.Call(k), 0, s.cur.pc, hs);
    var callee, args := s.stack[|s.stack| - 1 - k], Taken(s.stack, k);
    if !Calls(callee, args) { OtherKept(m, frames, below, s, hs, k, callee, args); }
    else if Flattens(m, callee) { FlatKept(m, frames, below, s, hs, k, callee); }
    else { FreshKept(m, frames, below, s, hs, k, callee, args); }
  }

  lemma OtherKept(m: Config, frames: seq<Activation>, below: seq<V>, s: State, hs: seq<nat>, k: nat, callee: V,
      args: seq<V>)
    requires At(m, frames, below, s, hs) && s.cur.code[s.cur.pc] == Bytecode.Call(k) && |s.stack| >= k + 1
    requires callee == s.stack[|s.stack| - 1 - k] && args == Taken(s.stack, k) && !Calls(callee, args)
    ensures Kept(m, frames, below, Execute(m, s, Bytecode.Call(k)))
  {
    assert Moves(Bytecode.Call(k), 0, s.cur.pc, hs);
    TakenSafe(s.stack, k);
    AskSafe(m.host, Calling(callee, args));
    Loads.OtherCallGoesOn(m, s, k, callee, args);
    var r, n := CallOther(m.host, callee, args), |s.stack| - 1 - k;
    if r.Ok? { GoesOn(m, frames, below, s, hs, s.cur.pc + 1, n, Some(r.v), Execute(m, s, Bytecode.Call(k))); }
    else { Raises(m, frames, below, s, hs, s.cur.pc + 1, n, r.e, Execute(m, s, Bytecode.Call(k))); }
  }

  lemma FlatKept(m: Config, frames: seq<Activation>, below: seq<V>, s: State, hs: seq<nat>, k: nat, callee: V)
    requires At(m, frames, below, s, hs) && s.cur.code[s.cur.pc] == Bytecode.Call(k) && |s.stack| >= k + 1
    requires callee == s.stack[|s.stack| - 1 - k] && Calls(callee, Taken(s.stack, k)) && Flattens(m, callee)
    ensures Kept(m, frames, below, Execute(m, s, Bytecode.Call(k)))
  {
    assert Moves(Bytecode.Call(k), 0, s.cur.pc, hs);
    var cur, n := s.cur.(pc := s.cur.pc + 1), |s.stack| - 1 - k;
    var to := Loads.Body(callee, View(callee.fn.params, |s.stack| - k), n, true);
    CalleeSafe(m, callee, View(callee.fn.params, |s.stack| - k), n, true, to);
    ResultAwaited(m, frames, below, s, hs, to);
    Loads.FlatCallSwitches(m, s, k, callee);
    SaveKept(m, frames, below, s.(cur := cur), to, Execute(m, s, Bytecode.Call(k)));
  }

  lemma FreshKept(m: Config, frames: seq<Activation>, below: seq<V>, s: State, hs: seq<nat>, k: nat, callee: V,
      args: seq<V>)
    requires At(m, frames, below, s, hs) && s.cur.code[s.cur.pc] == Bytecode.Call(k) && |s.stack| >= k + 1
    requires callee == s.stack[|s.stack| - 1 - k] && args == Taken(s.stack, k) && Calls(callee, args) &&
        !Flattens(m, callee)
    ensures Kept(m, frames, below, Execute(m, s, Bytecode.Call(k)))
  {
    assert Moves(Bytecode.Call(k), 0, s.cur.pc, hs);
    var cur, n, stack := s.cur.(pc := s.cur.pc + 1), |s.stack| - 1 - k, Keep(s.stack, k + 1);
    var slots := Own(Semantics.BindAll(callee.fn.params, args));
    var to := Loads.Body(callee, slots, n, false);
    ResultAwaited(m, frames, below, s, hs, to);
    HeldCut(m, frames, below, s, cur.pc, n);
    TakenSafe(s.stack, k);
    BoundSafe(m, callee.fn.params, args, n);
    CalleeSafe(m, callee, slots, n, false, to);
    Loads.FreshCallSwitches(m, s, k, callee, args, stack);
    SaveKept(m, frames, below, s.(cur := cur, stack := stack), to, Execute(m, s, Bytecode.Call(k)));
  }

  lemma UnwindKept(m: Config, frames: seq<Activation>, below: seq<V>, s: State)
    requires Inv(m, frames, below, s) && s.error.Some?
    ensures Kept(m, frames, below, Unwind(|frames|, s))
  {
    BaseAbove(m, |frames|, |below|, s.frames, s.cur);
    Prefix(below, s.stack, s.cur.base);
  }

  /** What was suspended below c resumes at pc, on a stack of a height it expects there. */
  lemma Resumes(m: Config, frames: seq<Activation>, below: seq<V>, fs: seq<Activation>, c: Activation, pc: nat,
      stack: seq<V>)
    requires Suspended(m, |frames|, |below|, fs, c) && frames <= fs && |fs| > |frames|
    requires SafeAll(stack) && below <= stack && Expects(fs[|fs| - 1], pc, |stack|)
    ensures Inv(m, frames, below, State(fs[|fs| - 1].(pc := pc), stack, fs[..|fs| - 1], None))
  {
    var p := fs[|fs| - 1];
    var hs: seq<nat> :| Flows(p.code, 0, hs) && Reaches(p, pc, |stack|, hs);
    assert Reaches(p.(pc := pc), pc, |stack|, hs);
    assert Suspended(m, |frames|, |below|, fs[..|fs| - 1], p);
    PcApart(m, |frames|, |below|, fs[..|fs| - 1], p, pc);
  }

  lemma PcApart(m: Config, bottom: nat, floor: nat, fs: seq<Activation>, c: Activation, pc: nat)
    requires Suspended(m, bottom, floor, fs, c)
    ensures Suspended(m, bottom, floor, fs, c.(pc := pc))
  {
  }

  lemma CompleteKept(m: Config, frames: seq<Activation>, below: seq<V>, s: State)
    requires Inv(m, frames, below, s) && s.error.None? && s.cur.pc >= |s.cur.code|
    ensures Kept(m, frames, below, Complete(m, |frames|, s))
  {
    BaseAbove(m, |frames|, |below|, s.frames, s.cur);
    EndsHigher(s.cur, s.cur.pc, |s.stack|);
    if s.cur.coalesce.Some? { LeftKept(m, frames, below, s); } else { ResultKept(m, frames, below, s); }
  }

  /** At its end a sequence has exactly its result above its floor. */
  lemma EndsHigher(a: Activation, pc: nat, size: nat)
    requires Expects(a, pc, size) && pc >= |a.code|
    ensures size == Floor(a) + 1
  {
  }

  lemma LeftKept(m: Config, frames: seq<Activation>, below: seq<V>, s: State)
    requires Inv(m, frames, below, s) && s.error.None? && s.cur.pc >= |s.cur.code|
    requires s.cur.coalesce.Some? && |s.stack| == Floor(s.cur) + 1 && |below| <= s.cur.base
    ensures Kept(m, frames, below, Complete(m, |frames|, s))
  {
    var p := s.frames[|s.frames| - 1];
    Prefix(below, s.stack, s.cur.base);
    Resumes(m, frames, below, s.frames, s.cur, p.pc, Keep(s.stack, 1));
    Resumes(m, frames, below, s.frames, s.cur, s.cur.coalesce.value, s.stack);
  }

  lemma ResultKept(m: Config, frames: seq<Activation>, below: seq<V>, s: State)
    requires Inv(m, frames, below, s) && s.error.None? && s.cur.pc >= |s.cur.code|
    requires s.cur.coalesce.None? && |s.stack| == Floor(s.cur) + 1 && |below| <= s.cur.base
    ensures Kept(m, frames, below, Complete(m, |frames|, s))
  {
    var n := |s.stack| - 1;
    Pushes(below, s.stack, s.cur.base, s.stack[n]);
    var stack := if s.cur.flat then s.stack[..s.cur.base] + [s.stack[n]] else s.stack;
    if |s.frames| > |frames| {
      Resumes(m, frames, below, s.frames, s.cur, s.frames[|s.frames| - 1].pc, stack);
    }
  }

  /** One step from a state of a run leaves a state of the run, or ends it with exactly one value
      more than it found or with what it found. It never panics. */
  lemma StepKept(m: Config, frames: seq<Activation>, below: seq<V>, s: State)
    requires Inv(m, frames, below, s) && SafeHost(m.host) && SafeAll(m.reuse)
    ensures Kept(m, frames, below, Step(m, |frames|, s))
  {
    if s.error.Some? { UnwindKept(m, frames, below, s); }
    else if s.cur.pc >= |s.cur.code| { CompleteKept(m, frames, below, s); }
    else {
      var hs: seq<nat> :| Flows(s.cur.code, 0, hs) && Reaches(s.cur, s.cur.pc, |s.stack|, hs);
      ExecuteKept(m, frames, below, s, hs, s.cur.code[s.cur.pc]);
    }
  }

  lemma ExecuteKept(m: Config, frames: seq<Activation>, below: seq<V>, s: State, hs: seq<nat>, i: Instr)
    requires At(m, frames, below, s, hs) && i == s.cur.code[s.cur.pc]
    ensures Kept(m, frames, below, Execute(m, s, i))
  {
    if IsPlain(i) { PlainKept(m, frames, below, s, hs, i); }
    else if i.Jump? || i.JumpIfFalse? { JumpKept(m, frames, below, s, hs, i); }
    else if i.Let? { LetKept(m, frames, below, s, hs, i.name, i.body); }
    else if i.Coalesce? { CoalesceKept(m, frames, below, s, hs, i.left, i.jumpEnd); }
    else { CallKept(m, frames, below, s, hs, i.argCount); }
  }

  lemma {:induction false} RunKept(m: Config, frames: seq<Activation>, below: seq<V>, n: nat, s: State)
    requires Inv(m, frames, below, s) && SafeHost(m.host) && SafeAll(m.reuse)
    ensures Kept(m, frames, below, Iter(m, |frames|, n, s))
  {
    if n > 0 {
      StepKept(m, frames, below, s);
      var r := Step(m, |frames|, s);
      if r.More? { RunKept(m, frames, below, n - 1, r.s); }
    }
  }

  // ----- Errors -----

  /** In a run of emitted code an error always finds the nearest enclosing `??`: what that `??`
      interrupted resumes at its right operand, with the stack as the `??` found it. */
  lemma ErrorCaught(m: Config, frames: seq<Activation>, below: seq<V>, s: State, k: nat)
    requires Inv(m, frames, below, s) && SafeHost(m.host) && SafeAll(m.reuse)
    requires s.error.Some? && Nearest(|frames|, s.frames, s.cur, k)
    ensures Level(s.frames, s.cur, k - 1).base <= |s.stack|
    ensures Iter(m, |frames|, k, s) == More(Caught(s, k)) && Inv(m, frames, below, Caught(s, k))
  {
    RunKept(m, frames, below, k, s);
    UnwindsToNearest(m, |frames|, s, k);
  }

  /** Or, if there is none, the run fails with it and leaves everything as it found it. */
  lemma ErrorUncaught(m: Config, frames: seq<Activation>, below: seq<V>, s: State)
    requires Inv(m, frames, below, s) && SafeHost(m.host) && SafeAll(m.reuse)
    requires s.error.Some? && forall k: nat :: !Nearest(|frames|, s.frames, s.cur, k)
    ensures Iter(m, |frames|, |s.frames| - |frames| + 1, s) == Failed(s.error.value, below, frames)
  {
    BaseAbove(m, |frames|, |below|, s.frames, s.cur);
    RunKept(m, frames, below, |s.frames| - |frames| + 1, s);
    UncaughtFails(m, |frames|, s);
  }

  // ----- Every run -----

  /** Emitted code, started anywhere on any machine: after any number of steps the run is in such a
      state, or it has ended and left the stack and the frames as it found them, with its result on
      top if it has one. */
  lemma ProgramSafe(m: Config, e: Expr, sc: Scopes<Proto>, stack: seq<V>, frames: seq<Activation>, n: nat)
    requires SafeHost(m.host) && SafeAll(m.reuse) && SafeScopes(sc) && SafeAll(stack)
    ensures Kept(m, frames, stack, Iter(m, |frames|, n, Start(Code(e, [], 0), sc, Bottom, stack, frames)))
  {
    var s := Start(Code(e, [], 0), sc, Bottom, stack, frames);
    CodeSafe(e, []);
    Starts(s.cur, []);
    RunKept(m, frames, stack, n, s);
  }

  /** And so is a closure's body that the host starts, in a frame of its own or in a reused one. */
  lemma ClosureSafe(m: Config, callee: V, slots: Slots, stack: seq<V>, frames: seq<Activation>, n: nat)
    requires SafeHost(m.host) && SafeAll(m.reuse) && SafeV(callee) && callee.Clo? && SafeAll(stack)
    requires SlotNames(slots) == callee.fn.params && !slots.View?
    requires SafeSlots(m, slots, |stack|) && (slots.Own? || callee.fn.noEscape)
    ensures Kept(m, frames, stack,
      Iter(m, |frames|, n, Start(callee.fn.code, callee.scopes, Link(Embed(callee.locals), slots), stack, frames)))
  {
    var s := Start(callee.fn.code, callee.scopes, Link(Embed(callee.locals), slots), stack, frames);
    CalleeSafe(m, callee, slots, |stack|, false, s.cur);
    RunKept(m, frames, stack, n, s);
  }

  /** In every such state, an address about to be read is that of the innermost frame binding its
      name, at the last slot there, in a run-time chain with exactly the names bound where the code
      was compiled; and there is a value at it. */
  lemma AddressSound(m: Config, frames: seq<Activation>, below: seq<V>, s: State, depth: nat, slot: nat)
    requires Inv(m, frames, below, s) && s.error.None? && SafeAll(m.reuse)
    requires s.cur.pc < |s.cur.code| && s.cur.code[s.cur.pc] == LoadLocal(depth, slot)
    ensures Innermost(ChainNames(s.cur.chain), depth, slot)
    ensures ReadLocal(s.cur.chain, depth, slot, s.stack, m.reuse).Some?
  {
    assert InstrFits(s.cur.code[s.cur.pc], ChainNames(s.cur.chain));
    assert Floor(s.cur) <= |s.stack|;
    ReadSafe(m, s.cur.chain, Floor(s.cur), depth, slot, s.stack);
  }

  lemma {:induction false} SuspendedAt(m: Config, bottom: nat, floor: nat, fs: seq<Activation>, c: Activation, k: nat)
    requires Suspended(m, bottom, floor, fs, c) && bottom <= k < |fs|
    ensures SafeAct(m, fs[k]) && floor <= fs[k].base <= Floor(fs[k]) <= c.base
    decreases |fs|
  {
    var top := |fs| - 1;
    var p, rest := fs[top], fs[..top];
    assert SafeAct(m, p) && Waits(p, c) && Suspended(m, bottom, floor, rest, p);
    if k < top {
      SuspendedAt(m, bottom, floor, rest, p, k);
    } else {
      BaseAbove(m, bottom, floor, rest, p);
    }
  }

  /** The same holds in every suspended sequence, at the height at which it will resume. */
  lemma SuspendedSound(m: Config, frames: seq<Activation>, below: seq<V>, fs: seq<Activation>, c: Activation, k: nat,
      pc: nat)
    requires Suspended(m, |frames|, |below|, fs, c) && |frames| <= k < |fs|
    requires pc < |fs[k].code| && fs[k].code[pc].LoadLocal?
    ensures Innermost(ChainNames(fs[k].chain), fs[k].code[pc].depth, fs[k].code[pc].slot)
    ensures |below| <= fs[k].base <= Floor(fs[k]) <= c.base
  {
    SuspendedAt(m, |frames|, |below|, fs, c, k);
    assert InstrFits(fs[k].code[pc], ChainNames(fs[k].chain));
  }
}
