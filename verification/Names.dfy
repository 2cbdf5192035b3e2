// The names a program reports are the only ones whose values can influence a run of it.

module Names {
  import opened Values
  import opened Ordering
  import opened Mapping
  import opened Bytecode
  import opened Machine
  import opened Trampoline
  import Compiled
  import Semantics

  // ----- Collecting the names -----

  class NameCollector {
    var seen: set<string>

    constructor ()
      ensures seen == {}
    {
      seen := {};
    }

    /** Add every name loaded by code, or by any stream nested in it. */
    method Collect(code: seq<Instr>)
      modifies this
      ensures seen == old(seen) + LoadedNames(code)
      decreases code
    {
      for i := 0 to |code|
        invariant seen == old(seen) + LoadedNames(code[..i])
      {
        CollectFrom(code[i]);
        NamesLast(code[..i], code[i]);
        assert code[..i + 1] == code[..i] + [code[i]];
      }
      assert code[..|code|] == code;
    }

    method CollectFrom(i: Instr)
      modifies this
      ensures seen == old(seen) + NamesIn(i)
      decreases i
    {
      match i
      case Load(name) => seen := seen + {name};
      case MakeClosure(proto) => Collect(proto.code);
      case Let(_, body) => Collect(body);
      case Coalesce(left, _) => Collect(left);
      case _ =>
    }
  }

  lemma {:induction false} NamesLast(code: seq<Instr>, i: Instr)
    ensures LoadedNames(code + [i]) == LoadedNames(code) + NamesIn(i)
  {
    if code == [] {
      assert [i][1..] == [] && code + [i] == [i];
    } else {
      NamesLast(code[1..], i);
      assert (code + [i])[1..] == code[1..] + [i];
    }
  }

  /** Program.Names: the collected names, each once, in ascending order. */
  method ProgramNames(program: seq<Instr>) returns (names: seq<string>)
    ensures Ascending(names)
    ensures forall x :: x in names <==> x in LoadedNames(program)
  {
    var collector := new NameCollector();
    collector.Collect(program);
    names := SortNames(collector.seen);
  }

  // ----- What a run can see of its environment -----

  /** Closures reduced to the captured names their code can still load. */
  function R(): Mapper<Proto, Proto> {
    Mapper((p: Proto, names: seq<seq<string>>) => p, (p: Proto, n: string) => n in LoadedNames(p.code))
  }

  function Loaded(code: seq<Instr>, sc: Scopes<Proto>): Scopes<Proto> {
    MapScopes(R(), n => n in LoadedNames(code), sc)
  }

  /** The two environments agree, absence included, on every name code can load. */
  ghost predicate Agreeing(code: seq<Instr>, sc: Scopes<Proto>, sc': Scopes<Proto>) {
    Loaded(code, sc) == Loaded(code, sc')
  }

  function S(stack: seq<V>): seq<V> { MapSeq(R(), stack) }

  function MapSlots(s: Slots): Slots {
    match s
    case Own(binds) => Own(seq(|binds|, i requires 0 <= i < |binds| => Bind(binds[i].name, Map(R(), binds[i].value))))
    case _ => s
  }

  function MapChain(c: Chain): Chain {
    match c
    case Bottom => Bottom
    case Link(parent, slots) => Link(MapChain(parent), MapSlots(slots))
  }

  function RAct(a: Activation): Activation {
    a.(sc := Loaded(a.code, a.sc), chain := MapChain(a.chain))
  }

  function RFrames(fs: seq<Activation>): seq<Activation> {
    seq(|fs|, i requires 0 <= i < |fs| => RAct(fs[i]))
  }

  ghost predicate ActAlike(a: Activation, b: Activation) { RAct(a) == RAct(b) }

  ghost predicate FramesAlike(fs: seq<Activation>, gs: seq<Activation>) { RFrames(fs) == RFrames(gs) }

  /** Two moments of two runs that differ at most in what neither can load. */
  ghost predicate Alike(s: State, t: State) {
    ActAlike(s.cur, t.cur) && S(s.stack) == S(t.stack) && FramesAlike(s.frames, t.frames) && s.error == t.error
  }

  ghost predicate NextAlike(r: Next, q: Next) {
    match r
    case More(s) => q.More? && Alike(s, q.s)
    case Returned(st, fs) => q.Returned? && S(st) == S(q.stack) && FramesAlike(fs, q.frames)
    case Failed(e, st, fs) => q.Failed? && e == q.e && S(st) == S(q.stack) && FramesAlike(fs, q.frames)
    case Panic => q.Panic?
  }

  lemma {:induction false} FewerKept(k: string -> bool, k': string -> bool, sc: Scopes<Proto>, sc': Scopes<Proto>)
    requires MapScopes(R(), k, sc) == MapScopes(R(), k, sc')
    requires forall n :: k'(n) ==> k(n)
    ensures MapScopes(R(), k', sc) == MapScopes(R(), k', sc')
  {
    if sc.Layer? {
      FewerKept(k, k', sc.outer, sc'.outer);
      var a, b := MapScopes(R(), k, sc).inner, MapScopes(R(), k, sc').inner;
      assert a == b;
      forall x | k'(x) ensures x in sc.inner <==> x in sc'.inner {
        assert x in a <==> x in b;
      }
      forall x | k'(x) && x in sc.inner ensures Map(R(), sc.inner[x]) == Map(R(), sc'.inner[x]) {
        assert x in a && a[x] == b[x];
      }
    }
  }

  lemma FewerNames(code: seq<Instr>, code': seq<Instr>, sc: Scopes<Proto>, sc': Scopes<Proto>)
    requires Agreeing(code, sc, sc') && LoadedNames(code') <= LoadedNames(code)
    ensures Agreeing(code', sc, sc')
  {
    FewerKept(n => n in LoadedNames(code), n => n in LoadedNames(code'), sc, sc');
  }

  lemma ReducedClosure(v: V)
    requires v.Clo?
    ensures Map(R(), v) == Clo(v.fn, Loaded(v.fn.code, v.scopes), MapLocals(R(), v.locals))
  {
    Compiled.ScopesKeep(R(), n => R().keep(v.fn, n), n => n in LoadedNames(v.fn.code), v.scopes);
  }

  // ----- One step at a time -----

  lemma {:induction false} EmbedMaps(l: Locals<Proto>)
    ensures MapChain(Embed(l)) == Embed(MapLocals(R(), l))
  {
    if l.Frame? { EmbedMaps(l.parent); }
  }

  lemma {:induction false} CaptureMaps(c: Chain)
    ensures Capture(MapChain(c)) == match Capture(c) case Some(l) => Some(MapLocals(R(), l)) case None => None
  {
    if c.Link? { CaptureMaps(c.parent); }
  }

  lemma {:induction false} ReadMaps(c: Chain, depth: nat, slot: nat, stack: seq<V>, reuse: seq<V>)
    ensures ReadLocal(MapChain(c), depth, slot, S(stack), S(reuse)) ==
        MapOption(R(), ReadLocal(c, depth, slot, stack, reuse))
  {
    if c.Link? && depth > 0 { ReadMaps(c.parent, depth - 1, slot, stack, reuse); }
  }

  lemma ConcatAlike(a: seq<V>, b: seq<V>, x: seq<V>, y: seq<V>)
    requires S(a) == S(b) && S(x) == S(y)
    ensures S(a + x) == S(b + y)
  {
    MapSeqConcat(R(), a, x);
    MapSeqConcat(R(), b, y);
  }

  lemma SliceAlike(a: seq<V>, b: seq<V>, i: nat, j: nat)
    requires S(a) == S(b) && i <= j <= |a|
    ensures |a| == |b| && S(a[i..j]) == S(b[i..j]) && S(a[i..]) == S(b[i..])
    ensures forall k :: 0 <= k < |a| ==> Map(R(), a[k]) == Map(R(), b[k])
  {
    assert |S(a)| == |a| && |S(b)| == |b|;
    SubSeqNatural(R(), a, i, j);
    SubSeqNatural(R(), b, i, j);
    assert a[i..] == a[i..|a|] && b[i..] == b[i..|b|];
    SubSeqNatural(R(), a, i, |a|);
    SubSeqNatural(R(), b, i, |b|);
    forall k | 0 <= k < |a| ensures Map(R(), a[k]) == Map(R(), b[k]) {
      assert S(a)[k] == S(b)[k];
    }
  }

  lemma PushAlike(a: seq<V>, b: seq<V>, v: V, w: V)
    requires S(a) == S(b) && Map(R(), v) == Map(R(), w)
    ensures S(a + [v]) == S(b + [w])
  {
    ConcatAlike(a, b, [v], [w]);
  }

  /** A plain instruction pushes the same, fails the same or panics the same in both runs. */
  ghost predicate PushedAlike(p: Pushed, q: Pushed) {
    match p
    case Push(v) => q.Push? && Map(R(), v) == Map(R(), q.v)
    case Fail(e) => q == p
    case Fault => q == p
  }

  lemma OutcomeAlike(o: Outcome<V>, o': Outcome<V>)
    requires MapOutcome(R(), o) == MapOutcome(R(), o')
    ensures PushedAlike(FromOutcome(o), FromOutcome(o'))
  {
  }

  lemma LoadAlike(h: Host<Proto>, hr: Host<Proto>, code: seq<Instr>, sc: Scopes<Proto>, sc': Scopes<Proto>, x: string)
    requires Natural(R(), h, hr) && Agreeing(code, sc, sc') && x in LoadedNames(code)
    ensures MapOutcome(R(), LoadName(h, sc, x)) == MapOutcome(R(), LoadName(h, sc', x))
  {
    LoadNatural(R(), h, hr, n => n in LoadedNames(code), sc, x);
    LoadNatural(R(), h, hr, n => n in LoadedNames(code), sc', x);
  }

  lemma OperateAlike(h: Host<Proto>, hr: Host<Proto>, op: Operator, a: seq<V>, b: seq<V>)
    requires Natural(R(), h, hr) && |a| == |b| == Arity(op) && S(a) == S(b)
    ensures MapOutcome(R(), Operate(h, op, a)) == MapOutcome(R(), Operate(h, op, b))
  {
    OperateNatural(R(), h, hr, op, a);
    OperateNatural(R(), h, hr, op, b);
  }

  lemma ClosureAlike(p: Proto, sc: Scopes<Proto>, sc': Scopes<Proto>, c: Chain, c': Chain)
    requires Agreeing(p.code, sc, sc') && MapChain(c) == MapChain(c')
    ensures Capture(c).Some? == Capture(c').Some?
    ensures Capture(c).Some? ==> Map(R(), Clo(p, sc, Capture(c).value)) == Map(R(), Clo(p, sc', Capture(c').value))
  {
    CaptureMaps(c);
    CaptureMaps(c');
    if Capture(c).Some? {
      ReducedClosure(Clo(p, sc, Capture(c).value));
      ReducedClosure(Clo(p, sc', Capture(c').value));
    }
  }

  lemma PlainAlike(m: Config, hr: Host<Proto>, s: State, t: State, i: Instr, a: seq<V>, b: seq<V>)
    requires Natural(R(), m.host, hr) && Alike(s, t)
    requires IsPlain(i) && NamesIn(i) <= LoadedNames(s.cur.code) && |a| == |b| == Pops(i) && S(a) == S(b)
    ensures PushedAlike(Plain(m, s.cur.sc, s.cur.chain, s.stack, i, a), Plain(m, t.cur.sc, t.cur.chain, t.stack, i, b))
  {
    match i
    case Push(_) =>
    case Load(x) =>
      LoadAlike(m.host, hr, s.cur.code, s.cur.sc, t.cur.sc, x);
      OutcomeAlike(LoadName(m.host, s.cur.sc, x), LoadName(m.host, t.cur.sc, x));
    case LoadLocal(depth, slot) =>
      ReadMaps(s.cur.chain, depth, slot, s.stack, m.reuse);
      ReadMaps(t.cur.chain, depth, slot, t.stack, m.reuse);
    case Do(op) =>
      OperateAlike(m.host, hr, op, a, b);
      OutcomeAlike(Operate(m.host, op, a), Operate(m.host, op, b));
    case MakeClosure(p) =>
      FewerNames(s.cur.code, p.code, s.cur.sc, t.cur.sc);
      ClosureAlike(p, s.cur.sc, t.cur.sc, s.cur.chain, t.cur.chain);
  }

  lemma SaveAlike(m: Config, s: State, t: State, to: Activation, to': Activation)
    requires Alike(s, t) && ActAlike(to, to')
    ensures Alike(Save(m, s, to), Save(m, t, to'))
  {
    assert RFrames(s.frames + [s.cur]) == RFrames(s.frames) + [RAct(s.cur)];
    assert RFrames(t.frames + [t.cur]) == RFrames(t.frames) + [RAct(t.cur)];
    assert |RFrames(s.frames)| == |s.frames| && |RFrames(t.frames)| == |t.frames|;
  }

  lemma ExecutePlainAlike(m: Config, hr: Host<Proto>, s: State, t: State, i: Instr)
    requires Natural(R(), m.host, hr) && Alike(s, t) && IsPlain(i) && NamesIn(i) <= LoadedNames(s.cur.code)
    ensures NextAlike(Execute(m, s, i), Execute(m, t, i))
  {
    SliceAlike(s.stack, t.stack, 0, 0);
    if |s.stack| >= Pops(i) {
      var k := |s.stack| - Pops(i);
      SliceAlike(s.stack, t.stack, 0, k);
      SliceAlike(s.stack, t.stack, k, |s.stack|);
      assert s.stack[0..k] == Keep(s.stack, Pops(i)) && t.stack[0..k] == Keep(t.stack, Pops(i));
      PlainAlike(m, hr, s, t, i, Taken(s.stack, Pops(i)), Taken(t.stack, Pops(i)));
      var p := Plain(m, s.cur.sc, s.cur.chain, s.stack, i, Taken(s.stack, Pops(i)));
      var q := Plain(m, t.cur.sc, t.cur.chain, t.stack, i, Taken(t.stack, Pops(i)));
      if p.Push? { PushAlike(Keep(s.stack, Pops(i)), Keep(t.stack, Pops(i)), p.v, q.v); }
    }
  }

  lemma DropTop(a: seq<V>, b: seq<V>)
    requires S(a) == S(b) && a != []
    ensures b != [] && S(Keep(a, 1)) == S(Keep(b, 1)) && Map(R(), a[|a| - 1]) == Map(R(), b[|b| - 1])
  {
    SliceAlike(a, b, 0, |a| - 1);
    assert a[0..|a| - 1] == Keep(a, 1) && b[0..|b| - 1] == Keep(b, 1);
  }

  lemma SameLength(a: seq<V>, b: seq<V>)
    requires S(a) == S(b)
    ensures |a| == |b|
  {
    assert |S(a)| == |S(b)|;
  }

  lemma LetSwitches(m: Config, s: State, x: string, body: seq<Instr>)
    requires s.stack != []
    ensures Execute(m, s, Let(x, body)) == More(Save(m,
        s.(cur := s.cur.(pc := s.cur.pc + 1), stack := Keep(s.stack, 1)),
      Activation(body, s.cur.sc, Link(s.cur.chain, Own([Bind(x, s.stack[|s.stack| - 1])])), 0, None, |s.stack| - 1,
        false)))
  {
  }

  lemma LetAlike(m: Config, s: State, t: State, x: string, body: seq<Instr>)
    requires Alike(s, t) && LoadedNames(body) <= LoadedNames(s.cur.code)
    ensures NextAlike(Execute(m, s, Let(x, body)), Execute(m, t, Let(x, body)))
  {
    SameLength(s.stack, t.stack);
    if s.stack != [] {
      DropTop(s.stack, t.stack);
      FewerNames(s.cur.code, body, s.cur.sc, t.cur.sc);
      var st, st' := Keep(s.stack, 1), Keep(t.stack, 1);
      var c := Link(s.cur.chain, Own([Bind(x, s.stack[|s.stack| - 1])]));
      var c' := Link(t.cur.chain, Own([Bind(x, t.stack[|t.stack| - 1])]));
      assert MapSlots(c.slots).binds == MapSlots(c'.slots).binds;
      Moves(s, t, s.cur.pc + 1, st, st', s.error);
      LetSwitches(m, s, x, body);
      LetSwitches(m, t, x, body);
      SaveAlike(m, s.(cur := s.cur.(pc := s.cur.pc + 1), stack := st),
        t.(cur := t.cur.(pc := t.cur.pc + 1), stack := st'),
        Activation(body, s.cur.sc, c, 0, None, |st|, false), Activation(body, t.cur.sc, c', 0, None, |st|, false));
    }
  }

  lemma CoalesceSwitches(m: Config, s: State, left: seq<Instr>, end: nat)
    ensures Execute(m, s, Coalesce(left, end)) == More(Save(m, s.(cur := s.cur.(pc := s.cur.pc + 1)),
      Activation(left, s.cur.sc, s.cur.chain, 0, Some(end), |s.stack|, false)))
  {
  }

  lemma CoalesceAlike(m: Config, s: State, t: State, left: seq<Instr>, end: nat)
    requires Alike(s, t) && LoadedNames(left) <= LoadedNames(s.cur.code)
    ensures NextAlike(Execute(m, s, Coalesce(left, end)), Execute(m, t, Coalesce(left, end)))
  {
    SameLength(s.stack, t.stack);
    FewerNames(s.cur.code, left, s.cur.sc, t.cur.sc);
    Moves(s, t, s.cur.pc + 1, s.stack, t.stack, s.error);
    CoalesceSwitches(m, s, left, end);
    CoalesceSwitches(m, t, left, end);
    SaveAlike(m, s.(cur := s.cur.(pc := s.cur.pc + 1)), t.(cur := t.cur.(pc := t.cur.pc + 1)),
      Activation(left, s.cur.sc, s.cur.chain, 0, Some(end), |s.stack|, false),
      Activation(left, t.cur.sc, t.cur.chain, 0, Some(end), |s.stack|, false));
  }

  lemma CalleeAlike(f: V, g: V, slots: Slots, slots': Slots, base: nat, flat: bool)
    requires f.Clo? && g.Clo? && Map(R(), f) == Map(R(), g) && MapSlots(slots) == MapSlots(slots')
    ensures f.fn == g.fn
    ensures ActAlike(Activation(f.fn.code, f.scopes, Link(Embed(f.locals), slots), 0, None, base, flat),
                     Activation(g.fn.code, g.scopes, Link(Embed(g.locals), slots'), 0, None, base, flat))
  {
    ReducedClosure(f);
    ReducedClosure(g);
    EmbedMaps(f.locals);
    EmbedMaps(g.locals);
  }

  lemma ArgsAlike(params: seq<string>, a: seq<V>, b: seq<V>)
    requires |params| == |a| && S(a) == S(b)
    ensures |b| == |a| && MapSlots(Own(Semantics.BindAll(params, a))) == MapSlots(Own(Semantics.BindAll(params, b)))
  {
    SliceAlike(a, b, 0, 0);
    assert MapSlots(Own(Semantics.BindAll(params, a))).binds == MapSlots(Own(Semantics.BindAll(params, b))).binds;
  }

  lemma OtherAlike(h: Host<Proto>, hr: Host<Proto>, f: V, g: V, a: seq<V>, b: seq<V>)
    requires Natural(R(), h, hr) && Map(R(), f) == Map(R(), g) && S(a) == S(b)
    requires !Calls(f, a)
    ensures !Calls(g, b) && MapOutcome(R(), CallOther(h, f, a)) == MapOutcome(R(), CallOther(h, g, b))
  {
    SameLength(a, b);
    Answer(R(), h, hr, Calling(f, a));
    Answer(R(), h, hr, Calling(g, b));
  }

  lemma CallAlike(m: Config, hr: Host<Proto>, s: State, t: State, n: nat)
    requires Natural(R(), m.host, hr) && Alike(s, t)
    ensures NextAlike(Execute(m, s, Call(n)), Execute(m, t, Call(n)))
  {
    SameLength(s.stack, t.stack);
    if |s.stack| >= n + 1 {
      var k := |s.stack| - 1 - n;
      SliceAlike(s.stack, t.stack, 0, k);
      SliceAlike(s.stack, t.stack, k + 1, |s.stack|);
      var f, g, a, b := s.stack[k], t.stack[k], Taken(s.stack, n), Taken(t.stack, n);
      var st, st' := Keep(s.stack, n + 1), Keep(t.stack, n + 1);
      assert s.stack[0..k] == st && t.stack[0..k] == st' && a == s.stack[k + 1..] && b == t.stack[k + 1..];
      SameLength(a, b);
      if Calls(f, a) {
        ReducedClosure(f);
        ReducedClosure(g);
        if Flattens(m, f) { FlatCallAlike(m, s, t, n, f, g); } else { FreshCallAlike(m, s, t, n, f, g, a, b, st, st'); }
      } else {
        OtherAlike(m.host, hr, f, g, a, b);
        if CallOther(m.host, f, a).Ok? { PushAlike(st, st', CallOther(m.host, f, a).v, CallOther(m.host, g, b).v); }
      }
    }
  }

  function Body(f: V, slots: Slots, base: nat, flat: bool): Activation
    requires f.Clo?
  {
    Activation(f.fn.code, f.scopes, Link(Embed(f.locals), slots), 0, None, base, flat)
  }

  lemma FlatAlike(m: Config, s: State, t: State, n: nat, f: V, g: V)
    requires Alike(s, t) && n + 1 <= |s.stack| == |t.stack|
    requires f.Clo? && g.Clo? && Map(R(), f) == Map(R(), g)
    ensures f.fn == g.fn
    ensures
      var slots := View(f.fn.params, |s.stack| - n);
      Alike(Save(m, s, Body(f, slots, |s.stack| - 1 - n, true)), Save(m, t, Body(g, slots, |s.stack| - 1 - n, true)))
  {
    var slots := View(f.fn.params, |s.stack| - n);
    CalleeAlike(f, g, slots, slots, |s.stack| - 1 - n, true);
    SaveAlike(m, s, t, Body(f, slots, |s.stack| - 1 - n, true), Body(g, slots, |s.stack| - 1 - n, true));
  }

  lemma FreshAlike(m: Config, s: State, t: State, f: V, g: V, a: seq<V>, b: seq<V>)
    requires Alike(s, t) && f.Clo? && g.Clo? && Map(R(), f) == Map(R(), g)
    requires |f.fn.params| == |a| == |b| && S(a) == S(b)
    ensures f.fn == g.fn && |s.stack| == |t.stack|
    ensures Alike(Save(m, s, Body(f, Own(Semantics.BindAll(f.fn.params, a)), |s.stack|, false)),
                  Save(m, t, Body(g, Own(Semantics.BindAll(f.fn.params, b)), |s.stack|, false)))
  {
    SameLength(s.stack, t.stack);
    var slots, slots' := Own(Semantics.BindAll(f.fn.params, a)), Own(Semantics.BindAll(f.fn.params, b));
    ArgsAlike(f.fn.params, a, b);
    CalleeAlike(f, g, slots, slots', |s.stack|, false);
    SaveAlike(m, s, t, Body(f, slots, |s.stack|, false), Body(g, slots', |s.stack|, false));
  }

  lemma FlatCallSwitches(m: Config, s: State, n: nat, f: V)
    requires n + 1 <= |s.stack| && f == s.stack[|s.stack| - 1 - n] && Calls(f, Taken(s.stack, n)) && Flattens(m, f)
    ensures Execute(m, s, Call(n)) ==
      More(Save(m, s.(cur := s.cur.(pc := s.cur.pc + 1)),
        Body(f, View(f.fn.params, |s.stack| - n), |s.stack| - 1 - n, true)))
  {
  }

  lemma OtherCallGoesOn(m: Config, s: State, n: nat, f: V, a: seq<V>)
    requires n + 1 <= |s.stack| && f == s.stack[|s.stack| - 1 - n] && a == Taken(s.stack, n) && !Calls(f, a)
    ensures
      var s', o := s.(cur := s.cur.(pc := s.cur.pc + 1), stack := Keep(s.stack, n + 1)), CallOther(m.host, f, a);
      Execute(m, s, Call(n)) == if o.Ok? then More(s'.(stack := s'.stack + [o.v])) else More(s'.(error := Some(o.e)))
  {
  }

  lemma FreshCallSwitches(m: Config, s: State, n: nat, f: V, a: seq<V>, st: seq<V>)
    requires n + 1 <= |s.stack| && f == s.stack[|s.stack| - 1 - n] && a == Taken(s.stack, n) &&
        st == Keep(s.stack, n + 1)
    requires Calls(f, a) && !Flattens(m, f)
    ensures Execute(m, s, Call(n)) ==
      More(Save(m, s.(cur := s.cur.(pc := s.cur.pc + 1), stack := st),
        Body(f, Own(Semantics.BindAll(f.fn.params, a)), |st|, false)))
  {
  }

  lemma FlatCallAlike(m: Config, s: State, t: State, n: nat, f: V, g: V)
    requires Alike(s, t) && n + 1 <= |s.stack| == |t.stack|
    requires f == s.stack[|s.stack| - 1 - n] && g == t.stack[|s.stack| - 1 - n] && Map(R(), f) == Map(R(), g)
    requires Calls(f, Taken(s.stack, n)) && Calls(g, Taken(t.stack, n)) && f.fn == g.fn && Flattens(m, f)
    ensures NextAlike(Execute(m, s, Call(n)), Execute(m, t, Call(n)))
  {
    FlatCallSwitches(m, s, n, f);
    FlatCallSwitches(m, t, n, g);
    FlatSavesAlike(m, s, t, n, f, g);
    MoreAlike(Execute(m, s, Call(n)), Execute(m, t, Call(n)), Execute(m, s, Call(n)).s, Execute(m, t, Call(n)).s);
  }

  lemma FlatSavesAlike(m: Config, s: State, t: State, n: nat, f: V, g: V)
    requires Alike(s, t) && n + 1 <= |s.stack| == |t.stack| && f.Clo? && g.Clo? && Map(R(), f) == Map(R(), g)
    ensures f.fn == g.fn
    ensures
      var slots, base := View(f.fn.params, |s.stack| - n), |s.stack| - 1 - n;
      Alike(Save(m, s.(cur := s.cur.(pc := s.cur.pc + 1)), Body(f, slots, base, true)),
            Save(m, t.(cur := t.cur.(pc := t.cur.pc + 1)), Body(g, slots, base, true)))
  {
    Moves(s, t, s.cur.pc + 1, s.stack, t.stack, s.error);
    FlatAlike(m, s.(cur := s.cur.(pc := s.cur.pc + 1)), t.(cur := t.cur.(pc := t.cur.pc + 1)), n, f, g);
  }

  lemma MoreAlike(r: Next, q: Next, s: State, t: State)
    requires r == More(s) && q == More(t) && Alike(s, t)
    ensures NextAlike(r, q)
  {
  }

  lemma FreshCallAlike(m: Config, s: State, t: State, n: nat, f: V, g: V, a: seq<V>, b: seq<V>, st: seq<V>, st': seq<V>)
    requires Alike(s, t) && n + 1 <= |s.stack| == |t.stack|
    requires f == s.stack[|s.stack| - 1 - n] && a == Taken(s.stack, n) && st == Keep(s.stack, n + 1)
    requires g == t.stack[|s.stack| - 1 - n] && b == Taken(t.stack, n) && st' == Keep(t.stack, n + 1)
    requires Map(R(), f) == Map(R(), g) && S(a) == S(b) && S(st) == S(st')
    requires Calls(f, a) && Calls(g, b) && f.fn == g.fn && !Flattens(m, f)
    ensures NextAlike(Execute(m, s, Call(n)), Execute(m, t, Call(n)))
  {
    FreshCallSwitches(m, s, n, f, a, st);
    FreshCallSwitches(m, t, n, g, b, st');
    FreshAlike(m, s.(cur := s.cur.(pc := s.cur.pc + 1), stack := st),
      t.(cur := t.cur.(pc := t.cur.pc + 1), stack := st'), f, g, a, b);
  }

  /** Two runs stay alike when they move within their active sequences and change their stacks alike. */
  lemma Moves(s: State, t: State, pc: nat, st: seq<V>, st': seq<V>, e: Option<Error>)
    requires Alike(s, t) && S(st) == S(st')
    ensures Alike(State(s.cur.(pc := pc), st, s.frames, e), State(t.cur.(pc := pc), st', t.frames, e))
  {
  }

  lemma JumpIfFalseAlike(m: Config, s: State, t: State, target: nat)
    requires Alike(s, t)
    ensures NextAlike(Execute(m, s, JumpIfFalse(target)), Execute(m, t, JumpIfFalse(target)))
  {
    SameLength(s.stack, t.stack);
    if s.stack != [] {
      DropTop(s.stack, t.stack);
      var v := s.stack[|s.stack| - 1];
      if v.Lit? && v.c.CBool? {
        var pc := if v.c.b then s.cur.pc + 1 else target;
        Moves(s, t, pc, Keep(s.stack, 1), Keep(t.stack, 1), s.error);
        assert Execute(m, s, JumpIfFalse(target)) == More(State(s.cur.(pc := pc), Keep(s.stack, 1), s.frames, s.error));
        assert Execute(m, t, JumpIfFalse(target)) == More(State(t.cur.(pc := pc), Keep(t.stack, 1), t.frames, t.error));
      } else {
        Moves(s, t, s.cur.pc + 1, Keep(s.stack, 1), Keep(t.stack, 1), Some(NotBool));
      }
    }
  }

  lemma ExecuteAlike(m: Config, hr: Host<Proto>, s: State, t: State, i: Instr)
    requires Natural(R(), m.host, hr) && Alike(s, t) && NamesIn(i) <= LoadedNames(s.cur.code)
    ensures NextAlike(Execute(m, s, i), Execute(m, t, i))
  {
    match i
    case Jump(_) =>
    case JumpIfFalse(target) => JumpIfFalseAlike(m, s, t, target);
    case Let(x, body) => LetAlike(m, s, t, x, body);
    case Coalesce(left, end) => CoalesceAlike(m, s, t, left, end);
    case Call(n) => CallAlike(m, hr, s, t, n);
    case _ => ExecutePlainAlike(m, hr, s, t, i);
  }

  lemma UnwindAlike(bottom: nat, s: State, t: State)
    requires Alike(s, t) && s.error.Some?
    ensures NextAlike(Unwind(bottom, s), Unwind(bottom, t))
  {
    SameLength(s.stack, t.stack);
    assert |RFrames(s.frames)| == |s.frames| && |RFrames(t.frames)| == |t.frames|;
    if s.frames != [] { PopAlike(s.frames, t.frames); }
    if s.cur.base <= |s.stack| {
      SliceAlike(s.stack, t.stack, 0, s.cur.base);
      assert s.stack[0..s.cur.base] == s.stack[..s.cur.base] && t.stack[0..s.cur.base] == t.stack[..s.cur.base];
    }
  }

  lemma PopAlike(fs: seq<Activation>, gs: seq<Activation>)
    requires FramesAlike(fs, gs) && fs != []
    ensures |gs| == |fs| && ActAlike(fs[|fs| - 1], gs[|gs| - 1]) && FramesAlike(fs[..|fs| - 1], gs[..|gs| - 1])
  {
    assert RFrames(fs)[|fs| - 1] == RFrames(gs)[|fs| - 1];
    assert RFrames(fs[..|fs| - 1]) == RFrames(fs)[..|fs| - 1] && RFrames(gs[..|gs| - 1]) == RFrames(gs)[..|gs| - 1];
  }

  lemma CompleteAlike(m: Config, bottom: nat, s: State, t: State)
    requires Alike(s, t)
    ensures NextAlike(Complete(m, bottom, s), Complete(m, bottom, t))
  {
    SameLength(s.stack, t.stack);
    if s.frames != [] { PopAlike(s.frames, t.frames); }
    if s.cur.coalesce.Some? {
      LeftCompleteAlike(m, bottom, s, t);
    } else if s.cur.flat {
      FlatCompleteAlike(m, bottom, s, t);
    }
  }

  lemma LeftCompleteAlike(m: Config, bottom: nat, s: State, t: State)
    requires Alike(s, t) && s.cur.coalesce.Some?
    ensures NextAlike(Complete(m, bottom, s), Complete(m, bottom, t))
  {
    SameLength(s.stack, t.stack);
    if s.stack != [] {
      DropTop(s.stack, t.stack);
      if IsNil(m.host, s.stack[|s.stack| - 1]) {
        NilLeftAlike(m, bottom, s, t);
      } else {
        ValueLeftAlike(m, bottom, s, t);
      }
    }
  }

  lemma NilLeftAlike(m: Config, bottom: nat, s: State, t: State)
    requires Alike(s, t) && s.cur.coalesce.Some? && |s.stack| == |t.stack| > 0
    requires IsNil(m.host, s.stack[|s.stack| - 1]) && IsNil(m.host, t.stack[|s.stack| - 1])
    ensures NextAlike(Complete(m, bottom, s), Complete(m, bottom, t))
  {
    DropTop(s.stack, t.stack);
    if s.frames != [] { PopAlike(s.frames, t.frames); }
  }

  lemma ValueLeftAlike(m: Config, bottom: nat, s: State, t: State)
    requires Alike(s, t) && s.cur.coalesce.Some? && |s.stack| == |t.stack| > 0
    requires !IsNil(m.host, s.stack[|s.stack| - 1]) && !IsNil(m.host, t.stack[|s.stack| - 1])
    ensures NextAlike(Complete(m, bottom, s), Complete(m, bottom, t))
  {
    if s.frames != [] { PopAlike(s.frames, t.frames); }
  }

  lemma FlatCompleteAlike(m: Config, bottom: nat, s: State, t: State)
    requires Alike(s, t) && s.cur.coalesce.None? && s.cur.flat
    ensures NextAlike(Complete(m, bottom, s), Complete(m, bottom, t))
  {
    SameLength(s.stack, t.stack);
    if s.frames != [] { PopAlike(s.frames, t.frames); }
    if s.cur.base < |s.stack| { CompactAlike(s.stack, t.stack, s.cur.base); }
  }

  lemma CompactAlike(a: seq<V>, b: seq<V>, base: nat)
    requires S(a) == S(b) && base < |a|
    ensures |b| == |a| && S(a[..base] + [a[|a| - 1]]) == S(b[..base] + [b[|b| - 1]])
  {
    SliceAlike(a, b, 0, base);
    assert a[0..base] == a[..base] && b[0..base] == b[..base];
    PushAlike(a[..base], b[..base], a[|a| - 1], b[|b| - 1]);
  }

  lemma StepAlike(m: Config, hr: Host<Proto>, bottom: nat, s: State, t: State)
    requires Natural(R(), m.host, hr) && Alike(s, t)
    ensures NextAlike(Step(m, bottom, s), Step(m, bottom, t))
  {
    if s.error.Some? {
      UnwindAlike(bottom, s, t);
    } else if s.cur.pc >= |s.cur.code| {
      CompleteAlike(m, bottom, s, t);
    } else {
      NamesAt(s.cur.code, s.cur.pc);
      ExecuteAlike(m, hr, s, t, s.cur.code[s.cur.pc]);
    }
  }

  lemma {:induction false} RunsAlike(m: Config, hr: Host<Proto>, bottom: nat, n: nat, s: State, t: State)
    requires Natural(R(), m.host, hr) && Alike(s, t)
    ensures NextAlike(Iter(m, bottom, n, s), Iter(m, bottom, n, t))
  {
    if n > 0 {
      StepAlike(m, hr, bottom, s, t);
      var r, q := Step(m, bottom, s), Step(m, bottom, t);
      if r.More? { RunsAlike(m, hr, bottom, n - 1, r.s, q.s); }
    }
  }

  /** Two environments that agree, absence included, on the reported names of a program give, after
      any number of steps, states that differ only in what can no longer be loaded: the same error
      or results equal up to closures holding different values under names they cannot load. This
      holds of every instruction sequence, compiled or hand-built. */
  lemma NamesSuffice(m: Config, hr: Host<Proto>, program: seq<Instr>, sc: Scopes<Proto>, sc': Scopes<Proto>, n: nat)
    requires Natural(R(), m.host, hr) && Agreeing(program, sc, sc')
    ensures NextAlike(Iter(m, 0, n, Start(program, sc, Bottom, [], [])),
        Iter(m, 0, n, Start(program, sc', Bottom, [], [])))
  {
    RunsAlike(m, hr, 0, n, Start(program, sc, Bottom, [], []), Start(program, sc', Bottom, [], []));
  }

  /** Leaving every unreported name out of the environment is such a pair of environments. */
  lemma UnreportedCanBeLeftOut(m: Config, hr: Host<Proto>, program: seq<Instr>, env: map<string, V>, n: nat)
    requires Natural(R(), m.host, hr)
    ensures
      var minimal := map x | x in env && x in LoadedNames(program) :: env[x];
      NextAlike(Iter(m, 0, n, Start(program, Layer(env, NoScope), Bottom, [], [])),
                Iter(m, 0, n, Start(program, Layer(minimal, NoScope), Bottom, [], [])))
  {
    var minimal := map x | x in env && x in LoadedNames(program) :: env[x];
    assert Loaded(program, Layer(env, NoScope)).inner == Loaded(program, Layer(minimal, NoScope)).inner;
    NamesSuffice(m, hr, program, Layer(env, NoScope), Layer(minimal, NoScope), n);
  }
}
