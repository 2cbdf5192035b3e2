// Emitted code carries a static stack height for every instruction, and every address in it fits
// the names bound around it. The trampoline keeps the run-time stack and frames in step with both,
// in the active sequence and in every suspended one, so no run underflows, overruns or panics.

module StackSafety {
  import opened Values
  import opened Mapping
  import opened Syntax
  import opened Bytecode
  import opened CompilerSpec
  import opened Machine
  import opened Trampoline
  import Semantics
  import Compiled
  import Meaning

  // ----- A static judgment on code -----

  /** hs[k] is the number of values the code has on the stack when it reaches instruction k of
      those that start at index `at` of their stream. */
  ghost predicate Flows(code: seq<Instr>, at: nat, hs: seq<nat>) {
    |hs| == |code| + 1 && forall k :: 0 <= k < |code| ==> Moves(code[k], at, k, hs)
  }

  /** What the instruction takes is there, and what it leaves is what the next one, or the one it
      jumps to, finds. */
  predicate Moves(i: Instr, at: nat, k: nat, hs: seq<nat>)
    requires k + 1 < |hs|
  {
    match i
    case Do(op) => hs[k] >= Arity(op) && hs[k + 1] == hs[k] - Arity(op) + 1
    case Let(_, _) => hs[k] >= 1 && hs[k + 1] == hs[k]
    case Coalesce(_, end) => hs[k + 1] == hs[k] && Target(at, k, end, hs, hs[k] + 1)
    case JumpIfFalse(t) => hs[k] >= 1 && hs[k + 1] == hs[k] - 1 && Target(at, k, t, hs, hs[k] - 1)
    case Jump(t) => Target(at, k, t, hs, hs[k])
    case Call(n) => hs[k] >= n + 1 && hs[k + 1] == hs[k] - n
    case _ => hs[k + 1] == hs[k] + 1
  }

  /** A jump from instruction k goes forward, no further than the end, to where h is the height. */
  predicate Target(at: nat, k: nat, t: nat, hs: seq<nat>, h: nat) {
    at + k < t && t - at < |hs| && hs[t - at] == h
  }

  ghost predicate Balanced(code: seq<Instr>, at: nat, from: nat, to: nat) {
    exists hs: seq<nat> :: Flows(code, at, hs) && hs[0] == from && hs[|code|] == to
  }

  /** The address is that of the innermost frame binding its name, and of the last slot there. */
  predicate Innermost(names: Names, depth: nat, slot: nat) {
    && depth < |names|
    && slot < |names[|names| - 1 - depth]|
    && Resolve(names, names[|names| - 1 - depth][slot]) == Some(Address(depth, slot))
  }

  /** Every address in the code, run where `names` are bound, is such an address, and every stream
      nested in it is safe where it runs. */
  ghost predicate Fits(code: seq<Instr>, names: Names)
    decreases code, 0
  {
    forall k :: 0 <= k < |code| ==> InstrFits(code[k], names)
  }

  ghost predicate InstrFits(i: Instr, names: Names)
    decreases i
  {
    match i
    case LoadLocal(d, s) => Innermost(names, d, s)
    case MakeClosure(p) => SafeProto(p, names)
    case Let(x, body) => Safe(body, names + [[x]])
    case Coalesce(left, _) => Safe(left, names)
    case _ => true
  }

  /** A whole stream: it starts with nothing and ends with exactly its result. */
  ghost predicate Safe(code: seq<Instr>, names: Names)
    decreases code, 1
  {
    Fits(code, names) && Balanced(code, 0, 0, 1)
  }

  ghost predicate SafeProto(p: Proto, names: Names)
    decreases p
  {
    Safe(p.code, names + [p.params]) && (p.noEscape ==> !ContainsClosureLiteral(p.code))
  }

  // ----- Emitted code satisfies it -----

  /** xs is part of ys, from off on. */
  ghost predicate Part<X>(xs: seq<X>, ys: seq<X>, off: nat) {
    off + |xs| <= |ys| && forall j {:trigger xs[j]} :: 0 <= j < |xs| ==> ys[off + j] == xs[j]
  }

  /** Within a longer stream a piece flows as it does alone. */
  lemma FlowsAt(c: seq<Instr>, at: nat, off: nat, there: nat, hs: seq<nat>, code: seq<Instr>, hs': seq<nat>)
    requires Flows(c, there, hs) && Part(hs, hs', off) && Part(c, code, off) && there == at + off
    ensures forall k :: off <= k < off + |c| ==> k + 1 < |hs'| && Moves(code[k], at, k, hs')
  {
    forall k | off <= k < off + |c| ensures k + 1 < |hs'| && Moves(code[k], at, k, hs') {
      assert code[k] == code[off + (k - off)] == c[k - off];
      MovesAt(code[k], at, off, k, hs, hs');
    }
  }

  lemma MovesAt(i: Instr, at: nat, off: nat, k: nat, hs: seq<nat>, hs': seq<nat>)
    requires Part(hs, hs', off) && off <= k && k - off + 1 < |hs| && Moves(i, at + off, k - off, hs)
    ensures Moves(i, at, k, hs')
  {
    var j := k - off;
    assert hs'[k] == hs'[off + j] == hs[j] && hs'[k + 1] == hs'[off + (j + 1)] == hs[j + 1];
    if i.Coalesce? { assert hs'[off + (i.jumpEnd - at - off)] == hs[i.jumpEnd - at - off]; }
    if i.JumpIfFalse? || i.Jump? { assert hs'[off + (i.target - at - off)] == hs[i.target - at - off]; }
  }

  lemma Joins(c: seq<Instr>, d: seq<Instr>, at: nat, a: nat, b: nat, e: nat)
    requires Balanced(c, at, a, b) && Balanced(d, at + |c|, b, e)
    ensures Balanced(c + d, at, a, e)
  {
    var hc: seq<nat> :| Flows(c, at, hc) && hc[0] == a && hc[|c|] == b;
    var hd: seq<nat> :| Flows(d, at + |c|, hd) && hd[0] == b && hd[|d|] == e;
    var hs := JoinHeights(hc, hd, |c|);
    JoinFlows(c, d, at, at + |c|, hc, hd, hs, c + d);
  }

  lemma JoinHeights(hc: seq<nat>, hd: seq<nat>, n: nat) returns (hs: seq<nat>)
    requires |hc| == n + 1 && |hd| > 0 && hc[n] == hd[0]
    ensures |hs| == n + |hd| && Part(hc, hs, 0) && Part(hd, hs, n)
  {
    hs := hc[..n] + hd;
  }

  lemma JoinFlows(c: seq<Instr>, d: seq<Instr>, at: nat, there: nat, hc: seq<nat>, hd: seq<nat>, hs: seq<nat>,
      code: seq<Instr>)
    requires Flows(c, at, hc) && Flows(d, there, hd) && there == at + |c| && code == c + d
    requires |hs| == |c| + |hd| && Part(hc, hs, 0) && Part(hd, hs, |c|)
    ensures Flows(code, at, hs) && hs[0] == hc[0] && hs[|code|] == hd[|d|]
  {
    assert Part(c, code, 0) && Part(d, code, |c|);
    FlowsAt(c, at, 0, at, hc, code, hs);
    FlowsAt(d, at, |c|, there, hd, code, hs);
    assert hs[0 + 0] == hc[0] && hs[|c| + |d|] == hd[|d|];
  }

  lemma OneFlows(i: Instr, at: nat, a: nat, b: nat)
    requires Moves(i, at, 0, [a, b])
    ensures Balanced([i], at, a, b)
  {
    assert Flows([i], at, [a, b]);
  }

  lemma BranchPieces(at: nat, cc: seq<Instr>, cy: seq<Instr>, cn: seq<Instr>, code: seq<Instr>, o: nat, p: nat)
    requires code == BranchCode(at, cc, cy, cn) && o == |cc| + 1 && p == |cc| + |cy| + 2
    ensures |code| == p + |cn| && Part(cc, code, 0) && Part(cy, code, o) && Part(cn, code, p)
    ensures code[o - 1] == JumpIfFalse(at + p) && code[p - 1] == Jump(at + |code|)
  {
  }

  lemma BranchHeights(hc: seq<nat>, hy: seq<nat>, hn: seq<nat>, o: nat, p: nat) returns (hs: seq<nat>)
    requires o == |hc| && p == |hc| + |hy|
    ensures |hs| == p + |hn| && Part(hc, hs, 0) && Part(hy, hs, o) && Part(hn, hs, p)
  {
    hs := hc + hy + hn;
  }

  lemma BranchFlows(at: nat, cc: seq<Instr>, cy: seq<Instr>, cn: seq<Instr>, h: nat)
    requires Balanced(cc, at, h, h + 1)
    requires Balanced(cy, at + |cc| + 1, h, h + 1)
    requires Balanced(cn, at + |cc| + |cy| + 2, h, h + 1)
    ensures Balanced(BranchCode(at, cc, cy, cn), at, h, h + 1)
  {
    var ay, an := at + |cc| + 1, at + |cc| + |cy| + 2;
    var hc: seq<nat> :| Flows(cc, at, hc) && hc[0] == h && hc[|cc|] == h + 1;
    var hy: seq<nat> :| Flows(cy, ay, hy) && hy[0] == h && hy[|cy|] == h + 1;
    var hn: seq<nat> :| Flows(cn, an, hn) && hn[0] == h && hn[|cn|] == h + 1;
    var o, p := |cc| + 1, |cc| + |cy| + 2;
    var code := BranchCode(at, cc, cy, cn);
    BranchPieces(at, cc, cy, cn, code, o, p);
    var hs := BranchHeights(hc, hy, hn, o, p);
    BranchJoins(at, cc, cy, cn, h, hc, hy, hn, o, p, ay, an, hs, code);
  }

  lemma BranchJoins(at: nat, cc: seq<Instr>, cy: seq<Instr>, cn: seq<Instr>, h: nat, hc: seq<nat>, hy: seq<nat>,
      hn: seq<nat>, o: nat, p: nat, ay: nat, an: nat, hs: seq<nat>, code: seq<Instr>)
    requires o == |cc| + 1 && p == o + |cy| + 1 && |code| == p + |cn| && |hs| == |code| + 1 && ay == at + o &&
        an == at + p
    requires Part(cc, code, 0) && Part(cy, code, o) && Part(cn, code, p)
    requires Part(hc, hs, 0) && Part(hy, hs, o) && Part(hn, hs, p)
    requires code[o - 1] == JumpIfFalse(at + p) && code[p - 1] == Jump(at + |code|)
    requires Flows(cc, at, hc) && hc[0] == h && hc[|cc|] == h + 1
    requires Flows(cy, ay, hy) && hy[0] == h && hy[|cy|] == h + 1
    requires Flows(cn, an, hn) && hn[0] == h && hn[|cn|] == h + 1
    ensures Flows(code, at, hs) && hs[0] == h && hs[|code|] == h + 1
  {
    FlowsAt(cc, at, 0, at, hc, code, hs);
    FlowsAt(cy, at, o, ay, hy, code, hs);
    FlowsAt(cn, at, p, an, hn, code, hs);
    assert hs[0 + 0] == hc[0] && hs[0 + |cc|] == hc[|cc|] && hs[o + 0] == hy[0] && hs[o + |cy|] == hy[|cy|] &&
      hs[p + 0] == hn[0] && hs[p + |cn|] == hn[|cn|];
  }

  lemma FallbackFlows(at: nat, left: seq<Instr>, right: seq<Instr>, h: nat)
    requires Balanced(right, at + 1, h, h + 1)
    ensures Balanced(FallbackCode(at, left, right), at, h, h + 1)
  {
    var hr: seq<nat> :| Flows(right, at + 1, hr) && hr[0] == h && hr[|right|] == h + 1;
    CoalesceFlows(at, at + 1, left, right, h, hr, [h] + hr);
  }

  lemma CoalesceFlows(at: nat, there: nat, left: seq<Instr>, right: seq<Instr>, h: nat, hr: seq<nat>, hs: seq<nat>)
    requires Flows(right, there, hr) && there == at + 1 && hr[0] == h && hr[|right|] == h + 1
    requires hs == [h] + hr
    ensures Flows(FallbackCode(at, left, right), at, hs) && hs[0] == h && hs[|right| + 1] == h + 1
  {
    var code := FallbackCode(at, left, right);
    assert Part(hr, hs, 1) && Part(right, code, 1);
    FlowsAt(right, at, 1, there, hr, code, hs);
    assert Moves(code[0], at, 0, hs);
  }

  lemma JoinFits(c: seq<Instr>, d: seq<Instr>, names: Names)
    requires Fits(c, names) && Fits(d, names)
    ensures Fits(c + d, names)
  {
    forall k | 0 <= k < |c + d| ensures InstrFits((c + d)[k], names) {
      var i := (c + d)[k];
      if k < |c| { assert i == c[k]; } else { assert i == d[k - |c|]; }
    }
  }

  lemma OneFits(i: Instr, names: Names)
    requires InstrFits(i, names)
    ensures Fits([i], names)
  {
  }

  lemma {:induction false} ResolvedSlot(frame: seq<string>, x: string)
    requires ResolveSlot(frame, x).Some?
    ensures frame[ResolveSlot(frame, x).value] == x
  {
    if frame[|frame| - 1] != x { ResolvedSlot(frame[..|frame| - 1], x); }
  }

  /** What a name resolves to is an address within the names, and that of the name itself. */
  lemma {:induction false} ResolvedName(names: Names, x: string)
    requires Resolve(names, x).Some?
    ensures
      var a := Resolve(names, x).value;
      a.depth < |names| && a.slot < |names[|names| - 1 - a.depth]| && names[|names| - 1 - a.depth][a.slot] == x
  {
    var top := |names| - 1;
    if ResolveSlot(names[top], x).Some? { ResolvedSlot(names[top], x); } else { ResolvedName(names[..top], x); }
  }

  /** At whatever index it lands and on whatever stack, an expression's code needs nothing that was
      there before it and leaves exactly one value more, on every path through it. */
  lemma {:induction false} CodeBalanced(e: Expr, names: Names, at: nat, h: nat)
    ensures Balanced(Code(e, names, at), at, h, h + 1)
    decreases Size(e), 1
  {
    FormSmaller(e);
    FormBalanced(FormOf(e), names, at, h, Code(e, names, at));
  }

  lemma {:induction false} FormBalanced(f: Form, names: Names, at: nat, h: nat, code: seq<Instr>)
    requires FormFits(f) && code == FormCode(f, names, at)
    ensures Balanced(code, at, h, h + 1)
    decreases FormSize(f), 4
  {
    match f
    case Constant(c) => OneFlows(Bytecode.Push(c), at, h, h + 1);
    case Name(x) => OneFlows(LoadCode(names, x), at, h, h + 1);
    case Closure(ps, b) => OneFlows(MakeClosure(ProtoOf(ps, b, names)), at, h, h + 1);
    case Binding(x, v, b) =>
      var c, i := Code(v, names, at), Bytecode.Let(x, Code(b, names + [[x]], 0));
      CodeBalanced(v, names, at, h);
      OneFlows(i, at + |c|, h + 1, h + 1);
      Joins(c, [i], at, h, h + 1, h + 1);
    case Branch(c, yes, no) =>
      var cc := Code(c, names, at);
      var cy := Code(yes, names, at + |cc| + 1);
      CodeBalanced(c, names, at, h);
      CodeBalanced(yes, names, at + |cc| + 1, h);
      CodeBalanced(no, names, at + |cc| + |cy| + 2, h);
      BranchFlows(at, cc, cy, Code(no, names, at + |cc| + |cy| + 2), h);
    case Fallback(l, r) =>
      CodeBalanced(r, names, at + 1, h);
      FallbackFlows(at, Code(l, names, 0), Code(r, names, at + 1), h);
    case Invoke(o) => OpsThen(o, names, at, h, Bytecode.Call(OpCount(o) - 1));
    case Strict(op, o) => OpsThen(o, names, at, h, Do(op));
  }

  lemma {:induction false} OpsThen(o: Operands, names: Names, at: nat, h: nat, i: Instr)
    requires if i.Do? then Arity(i.op) == OpCount(o) else OpCount(o) > 0 && i == Bytecode.Call(OpCount(o) - 1)
    ensures Balanced(CodeOps(o, names, at) + [i], at, h, h + 1)
    decreases OpSize(o), 3
  {
    var c := CodeOps(o, names, at);
    ListSize(o);
    AllBalanced(ListOf(o), names, at, h);
    OneFlows(i, at + |c|, h + OpCount(o), h + 1);
    Joins(c, [i], at, h, h + OpCount(o), h + 1);
  }

  lemma {:induction false} AllBalanced(es: seq<Expr>, names: Names, at: nat, h: nat)
    ensures Balanced(CodeAll(es, names, at), at, h, h + |es|)
    decreases SizeAll(es), 2
  {
    if es == [] {
      assert Flows([], at, [h]);
    } else {
      var c := Code(es[0], names, at);
      CodeBalanced(es[0], names, at, h);
      AllBalanced(es[1..], names, at + |c|, h + 1);
      Joins(c, CodeAll(es[1..], names, at + |c|), at, h, h + 1, h + |es|);
    }
  }

  /** Its addresses fit the names it was compiled under, and so do those of every stream in it. */
  lemma {:induction false} CodeFits(e: Expr, names: Names, at: nat)
    ensures Fits(Code(e, names, at), names)
    decreases Size(e), 1
  {
    FormSmaller(e);
    CodeFormFits(FormOf(e), names, at, Code(e, names, at));
  }

  lemma {:induction false} CodeFormFits(f: Form, names: Names, at: nat, code: seq<Instr>)
    requires FormFits(f) && code == FormCode(f, names, at)
    ensures Fits(code, names)
    decreases FormSize(f), 4
  {
    match f
    case Constant(c) => OneFits(Bytecode.Push(c), names);
    case Name(x) =>
      if Resolve(names, x).Some? { ResolvedName(names, x); }
      OneFits(LoadCode(names, x), names);
    case Closure(ps, b) =>
      CodeSafe(b, names + [ps]);
      OneFits(MakeClosure(ProtoOf(ps, b, names)), names);
    case Binding(x, v, b) =>
      var i := Bytecode.Let(x, Code(b, names + [[x]], 0));
      CodeFits(v, names, at);
      CodeSafe(b, names + [[x]]);
      OneFits(i, names);
      JoinFits(Code(v, names, at), [i], names);
    case Branch(c, yes, no) => CodeBranchFits(c, yes, no, names, at, code);
    case Fallback(l, r) =>
      CodeSafe(l, names);
      CodeFits(r, names, at + 1);
      OneFits(code[0], names);
      JoinFits([code[0]], Code(r, names, at + 1), names);
    case Invoke(o) =>
      CodeOpsFit(o, names, at);
      JoinFits(CodeOps(o, names, at), [Bytecode.Call(OpCount(o) - 1)], names);
    case Strict(op, o) =>
      CodeOpsFit(o, names, at);
      JoinFits(CodeOps(o, names, at), [Do(op)], names);
  }

  lemma {:induction false} CodeBranchFits(c: Expr, yes: Expr, no: Expr, names: Names, at: nat, code: seq<Instr>)
    requires code == FormCode(Branch(c, yes, no), names, at)
    ensures Fits(code, names)
    decreases Size(c) + Size(yes) + Size(no), 3
  {
    var cc := Code(c, names, at);
    var cy := Code(yes, names, at + |cc| + 1);
    var cn := Code(no, names, at + |cc| + |cy| + 2);
    var j, k := [JumpIfFalse(at + |cc| + |cy| + 2)], [Jump(at + |cc| + |cy| + 2 + |cn|)];
    CodeFits(c, names, at);
    CodeFits(yes, names, at + |cc| + 1);
    CodeFits(no, names, at + |cc| + |cy| + 2);
    JoinFits(cc, j, names);
    JoinFits(cc + j, cy, names);
    JoinFits(cc + j + cy, k, names);
    JoinFits(cc + j + cy + k, cn, names);
  }

  lemma {:induction false} CodeOpsFit(o: Operands, names: Names, at: nat)
    ensures Fits(CodeOps(o, names, at), names)
    decreases OpSize(o), 3
  {
    ListSize(o);
    AllFit(ListOf(o), names, at);
  }

  lemma {:induction false} AllFit(es: seq<Expr>, names: Names, at: nat)
    ensures Fits(CodeAll(es, names, at), names)
    decreases SizeAll(es), 2
  {
    if es != [] {
      var c := Code(es[0], names, at);
      CodeFits(es[0], names, at);
      AllFit(es[1..], names, at + |c|);
      JoinFits(c, CodeAll(es[1..], names, at + |c|), names);
    }
  }

  /** Compiled streams are stack-safe, and so is every stream nested in them. */
  lemma {:induction false} CodeSafe(e: Expr, names: Names)
    ensures Safe(Code(e, names, 0), names)
    decreases Size(e), 2
  {
    CodeFits(e, names, 0);
    CodeBalanced(e, names, 0, 0);
  }

  // ----- Values whose closures carry such code -----

  ghost predicate SafeV(v: V)
    decreases v
  {
    match v
    case Lit(_) => true
    case HostV(_) => true
    case ListV(xs) => forall i :: 0 <= i < |xs| ==> SafeV(xs[i])
    case MapV(mm) => forall k :: k in mm ==> SafeV(mm[k])
    case Clo(p, sc, l) => SafeProto(p, NamesOf(l)) && SafeScopes(sc) && SafeLocals(l)
  }

  ghost predicate SafeScopes(sc: Scopes<Proto>)
    decreases sc
  {
    match sc
    case NoScope => true
    case Layer(inner, outer) => (forall k :: k in inner ==> SafeV(inner[k])) && SafeScopes(outer)
  }

  ghost predicate SafeLocals(l: Locals<Proto>)
    decreases l
  {
    match l
    case Root => true
    case Frame(parent, binds) => SafeLocals(parent) && forall i :: 0 <= i < |binds| ==> SafeV(binds[i].value)
  }

  ghost predicate SafeAll(vs: seq<V>) { forall i :: 0 <= i < |vs| ==> SafeV(vs[i]) }

  ghost predicate SafeOutcome(o: Outcome<V>) { o.Ok? ==> SafeV(o.v) }

  ghost predicate SafeQuestion(q: Question<Proto>) {
    match q
    case Global(_) => true
    case Combining(_, a, b) => SafeV(a) && SafeV(b)
    case Negating(a) => SafeV(a)
    case MemberOf(a, _) => SafeV(a)
    case ItemOf(a, b) => SafeV(a) && SafeV(b)
    case PartOf(a, lo, hi) => SafeV(a) && SafeV(lo) && SafeV(hi)
    case Contains(a, b) => SafeV(a) && SafeV(b)
    case Calling(f, args) => SafeV(f) && SafeAll(args)
  }

  /** A host makes up no closures with hand-built code. */
  ghost predicate SafeHost(h: Host<Proto>) {
    forall q: Question<Proto> {:trigger h.ask(q)} :: SafeQuestion(q) ==> SafeOutcome(h.ask(q))
  }

  lemma EchoSafe(float: FloatOps, regexMatch: (string, string) -> bool)
    ensures SafeHost(Meaning.Echo(float, regexMatch))
  {
  }

  /** Every compiled value is one. */
  lemma {:induction false} CompiledValue(v: Semantics.Val)
    ensures SafeV(Compiled.TV(v))
    decreases v
  {
    match v
    case Lit(_) =>
    case HostV(_) =>
    case ListV(xs) =>
      assert Compiled.TV(v) == ListV(MapSeq(Compiled.T(), xs));
      forall i | 0 <= i < |xs| ensures SafeV(MapSeq(Compiled.T(), xs)[i]) { CompiledValue(xs[i]); }
    case MapV(mm) => forall k | k in mm ensures SafeV(Compiled.TV(mm[k])) { CompiledValue(mm[k]); }
    case Clo(f, sc, l) =>
      Compiled.ClosureCompiles(f, sc, l);
      CodeSafe(f.body, NamesOf(l) + [f.params]);
      NamesOfMap(Compiled.T(), l);
      CompiledScopes(sc);
      CompiledLocals(l);
  }

  lemma {:induction false} CompiledScopes(sc: Scopes<Semantics.Lam>)
    ensures SafeScopes(Compiled.TScopes(sc))
    decreases sc
  {
    match sc
    case NoScope =>
    case Layer(inner, outer) =>
      forall k | k in inner ensures SafeV(Compiled.TV(inner[k])) { CompiledValue(inner[k]); }
      CompiledScopes(outer);
  }

  lemma {:induction false} CompiledLocals(l: Semantics.Env)
    ensures SafeLocals(Compiled.TLocals(l))
    decreases l
  {
    match l
    case Root =>
    case Frame(parent, binds) =>
      forall i | 0 <= i < |binds| ensures SafeV(Compiled.TV(binds[i].value)) { CompiledValue(binds[i].value); }
      CompiledLocals(parent);
  }
}
