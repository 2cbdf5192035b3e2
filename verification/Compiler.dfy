// The compiler as it works: appending instructions, patching jump targets once the code they skip
// is known, and one fresh compiler per nested body.

module Compiler {
  import opened Values
  import opened Syntax
  import opened Bytecode
  import opened CompilerSpec

  lemma AppendOne(valid: string -> bool, es: seq<Expr>, e: Expr, names: Names, at: nat)
    ensures CodeAll(es + [e], names, at) == CodeAll(es, names, at) + Code(e, names, at + |CodeAll(es, names, at)|)
    ensures Problems(valid, es + [e]) == if Problems(valid, es).Some? then Problems(valid, es) else Problem(valid, e)
  {
    var sofar := CodeAll(es, names, at);
    AppendCode(es, e, names, at, sofar, Code(e, names, at + |sofar|));
    AppendProblem(valid, es, e);
  }

  lemma {:induction false} AppendCode(es: seq<Expr>, e: Expr, names: Names, at: nat, sofar: seq<Instr>,
      last: seq<Instr>)
    requires sofar == CodeAll(es, names, at) && last == Code(e, names, at + |sofar|)
    ensures CodeAll(es + [e], names, at) == sofar + last
  {
    if es == [] {
      AllOne(_ => true, e, names, at);
    } else {
      var c := Code(es[0], names, at);
      var rest := CodeAll(es[1..], names, at + |c|);
      AppendCode(es[1..], e, names, at + |c|, rest, last);
      assert (es + [e])[0] == es[0] && (es + [e])[1..] == es[1..] + [e];
      Associates(c, rest, last);
    }
  }

  lemma Associates(a: seq<Instr>, b: seq<Instr>, c: seq<Instr>)
    ensures a + b + c == a + (b + c)
  {
  }

  lemma {:induction false} AppendProblem(valid: string -> bool, es: seq<Expr>, e: Expr)
    ensures Problems(valid, es + [e]) == if Problems(valid, es).Some? then Problems(valid, es) else Problem(valid, e)
  {
    if es == [] {
      AllOne(valid, e, [], 0);
    } else {
      AppendProblem(valid, es[1..], e);
      assert (es + [e])[0] == es[0] && (es + [e])[1..] == es[1..] + [e];
    }
  }

  lemma AllOne(valid: string -> bool, e: Expr, names: Names, at: nat)
    ensures CodeAll([e], names, at) == Code(e, names, at)
    ensures CodeAll([] + [e], names, at) == CodeAll([], names, at) + Code(e, names, at + |CodeAll([], names, at)|)
    ensures Problems(valid, [] + [e]) == Problem(valid, e)
  {
    assert [] + [e] == [e] && [e][1..] == [];
    assert CodeAll([e][1..], names, at + |Code(e, names, at)|) == [];
  }

  class Compiler {
    const valid: string -> bool
    const locals: Names
    var instructions: seq<Instr>
    var err: Option<CompileError>

    constructor (valid: string -> bool, locals: Names)
      ensures this.valid == valid && this.locals == locals && instructions == [] && err == None
    {
      this.valid, this.locals := valid, locals;
      instructions, err := [], None;
    }

    /** es have been compiled, in order, onto `before`, or the first failing one has been reported. */
    ghost predicate Emitted(before: seq<Instr>, es: seq<Expr>)
      reads this
    {
      err == Problems(valid, es) && (err.None? ==> instructions == before + CodeAll(es, locals, |before|))
    }

    /** e has been compiled onto `before`, or its first failure has been reported. */
    ghost predicate Done(before: seq<Instr>, e: Expr)
      reads this
    {
      err == Problem(valid, e) && (err.None? ==> instructions == before + Code(e, locals, |before|))
    }

    method Emit(i: Instr)
      modifies this`instructions
      ensures instructions == old(instructions) + [i]
    {
      instructions := instructions + [i];
    }

    method ResolveLocal(name: string) returns (r: Option<Address>)
      ensures r == Resolve(locals, name)
    {
      var i := |locals|;
      assert locals[..i] == locals;
      while i > 0
        invariant 0 <= i <= |locals|
        invariant Resolve(locals, name) == Outward(Resolve(locals[..i], name), |locals| - i)
        decreases i
      {
        i := i - 1;
        var names := locals[i];
        assert locals[..i + 1][..i] == locals[..i] && locals[..i + 1][i] == names;
        var j := |names|;
        assert names[..j] == names;
        while j > 0
          invariant 0 <= j <= |names|
          invariant ResolveSlot(names, name) == ResolveSlot(names[..j], name)
          decreases j
        {
          j := j - 1;
          assert names[..j + 1][..j] == names[..j];
          if names[j] == name {
            return Some(Address(|locals| - 1 - i, j));
          }
        }
      }
      return None;
    }

    /** An address as seen from n frames further in. */
    static function Outward(a: Option<Address>, n: nat): Option<Address> {
      match a
      case Some(x) => Some(Address(x.depth + n, x.slot))
      case None => None
    }

    /** Compile one more operand. */
    method Next(ghost before: seq<Instr>, ghost es: seq<Expr>, e: Expr)
      requires Emitted(before, es)
      modifies this
      ensures Emitted(before, es + [e]) && old(instructions) <= instructions
      decreases Size(e), 2
    {
      Compile(e);
      AppendOne(valid, es, e, locals, |before|);
    }

    method CompileLambda(params: seq<string>, body: Expr)
      requires err.None?
      modifies this
      ensures Done(old(instructions), Lambda(params, body)) && old(instructions) <= instructions
      decreases Size(body), 2
    {
      var sub := new Compiler(valid, locals + [params]);
      sub.Compile(body);
      if sub.err.Some? {
        err := sub.err;
        return;
      }
      assert sub.instructions == Code(body, sub.locals, 0);
      assert ProtoOf(params, body, locals).code == sub.instructions;
      Emit(MakeClosure(Proto(params, sub.instructions, !ContainsClosureLiteral(sub.instructions))));
    }

    method CompileLet(name: string, value: Expr, body: Expr)
      requires err.None?
      modifies this
      ensures Done(old(instructions), Expr.Let(name, value, body)) && old(instructions) <= instructions
      decreases Size(value) + Size(body), 2
    {
      TwoProblems(valid, value, body);
      Compile(value);
      if err.Some? { return; }
      var sub := new Compiler(valid, locals + [[name]]);
      sub.Compile(body);
      if sub.err.Some? {
        err := sub.err;
        return;
      }
      assert sub.instructions == Code(body, sub.locals, 0);
      Emit(Bytecode.Let(name, sub.instructions));
    }

    /** `c ? t : f` and `if c t else f`. */
    method CompileConditional(cond: Expr, yes: Expr, no: Expr)
      requires err.None?
      modifies this
      ensures err == ProblemOp(valid, Three(cond, yes, no))
      ensures err.None? ==> instructions == old(instructions) + FormCode(Form.Branch(cond, yes, no), locals,
          |old(instructions)|)
      ensures old(instructions) <= instructions
      decreases Size(cond) + Size(yes) + Size(no), 2
    {
      ghost var before := instructions;
      ThreeProblems(valid, cond, yes, no);
      Compile(cond);
      var jumpFalse := |instructions|;
      Emit(JumpIfFalse(0));
      Compile(yes);
      var jumpEnd := |instructions|;
      Emit(Jump(0));
      PatchJump(jumpFalse);
      Compile(no);
      PatchJump(jumpEnd);
      if err.None? {
        ghost var c := Code(cond, locals, |before|);
        ghost var y := Code(yes, locals, |before| + |c| + 1);
        Patched(before, c, y, Code(no, locals, |before| + |c| + |y| + 2));
      }
    }

    /** Point the jump at idx to the current end of the code. */
    method PatchJump(idx: nat)
      requires idx < |instructions| && (instructions[idx].Jump? || instructions[idx].JumpIfFalse?)
      modifies this`instructions
      ensures instructions == old(instructions)[idx :=
        if old(instructions)[idx].Jump? then Jump(|old(instructions)|) else JumpIfFalse(|old(instructions)|)]
    {
      var here := |instructions|;
      instructions := instructions[idx := if instructions[idx].Jump? then Jump(here) else JumpIfFalse(here)];
    }

    /** `l || r`: a true left operand is replaced by the constant, a false one by r. */
    method CompileOr(left: Expr, right: Expr)
      requires err.None?
      modifies this
      ensures Done(old(instructions), Infix(Or, left, right)) && old(instructions) <= instructions
      decreases Size(left) + Size(right), 2
    {
      ghost var before := instructions;
      ThreeProblems(valid, left, Const(CBool(true)), right);
      Compile(left);
      var jumpFalse := |instructions|;
      Emit(JumpIfFalse(0));
      Emit(Bytecode.Push(CBool(true)));
      var jumpEnd := |instructions|;
      Emit(Jump(0));
      PatchJump(jumpFalse);
      Compile(right);
      PatchJump(jumpEnd);
      if err.None? {
        ghost var c := Code(left, locals, |before|);
        ghost var n := Code(right, locals, |before| + |c| + 3);
        OrNode(left, right, locals, |before|, c, n);
        Patched(before, c, [Bytecode.Push(CBool(true))], n);
      }
    }

    method CompileAnd(left: Expr, right: Expr)
      requires err.None?
      modifies this
      ensures Done(old(instructions), Infix(And, left, right)) && old(instructions) <= instructions
      decreases Size(left) + Size(right), 2
    {
      ghost var before := instructions;
      ThreeProblems(valid, left, right, Const(CBool(false)));
      Compile(left);
      var jumpFalse := |instructions|;
      Emit(JumpIfFalse(0));
      Compile(right);
      var jumpEnd := |instructions|;
      Emit(Jump(0));
      PatchJump(jumpFalse);
      Emit(Bytecode.Push(CBool(false)));
      PatchJump(jumpEnd);
      if err.None? {
        ghost var c := Code(left, locals, |before|);
        ghost var y := Code(right, locals, |before| + |c| + 1);
        AndNode(left, right, locals, |before|, c, y);
        Patched(before, c, y, [Bytecode.Push(CBool(false))]);
      }
    }

    /** `??`: the left operand gets a stream of its own, the right one is compiled inline. */
    method CompileCoalesce(left: Expr, right: Expr)
      requires err.None?
      modifies this
      ensures Done(old(instructions), Infix(InfixOp.Coalesce, left, right)) && old(instructions) <= instructions
      decreases Size(left) + Size(right), 2
    {
      ghost var before := instructions;
      TwoProblems(valid, left, right);
      var sub := new Compiler(valid, locals);
      sub.Compile(left);
      if sub.err.Some? {
        err := sub.err;
        return;
      }
      assert sub.instructions == Code(left, locals, 0);
      var at := |instructions|;
      Emit(Bytecode.Coalesce(sub.instructions, 0));
      Compile(right);
      instructions := instructions[at := Bytecode.Coalesce(sub.instructions, |instructions|)];
      if err.None? {
        assert instructions == before + FallbackCode(|before|, Code(left, locals, 0),
          Code(right, locals, |before| + 1));
      }
    }

    /** The opcode of a node whose operands have all been compiled. */
    method Finish(ghost before: seq<Instr>, ghost e: Expr, ghost ops: Operands, i: Instr)
      requires Emitted(before, ListOf(ops)) && LastOf(e, ops, i)
      requires (!e.Infix? || !e.bop.MatchesOp?) && (!e.Unary? || !e.uop.Plus?)
      modifies this`instructions
      ensures Done(before, e) && instructions == old(instructions) + [i]
    {
      FinishedNode(valid, e, ops, i, locals, |before|);
      Emit(i);
    }

    /** Compile the first operand of a node. */
    method First(e: Expr)
      requires err.None?
      modifies this
      ensures Emitted(old(instructions), [e]) && old(instructions) <= instructions
      decreases Size(e), 3
    {
      Next(instructions, [], e);
      assert [] + [e] == [e];
    }

    method CompileAll(ghost before: seq<Instr>, ghost done: seq<Expr>, es: seq<Expr>)
      requires Emitted(before, done)
      modifies this
      ensures Emitted(before, done + es) && old(instructions) <= instructions
      decreases SizeAll(es), 3
    {
      assert done + es[..0] == done;
      for i := 0 to |es|
        invariant Emitted(before, done + es[..i]) && old(instructions) <= instructions
      {
        SizeAt(es, i);
        Next(before, done + es[..i], es[i]);
        assert done + es[..i + 1] == done + es[..i] + [es[i]];
      }
      assert es[..|es|] == es;
    }

    method CompileEntries(ghost before: seq<Instr>, entries: seq<Entry>)
      requires err.None? && instructions == before
      modifies this
      ensures Emitted(before, Interleave(entries)) && old(instructions) <= instructions
      decreases SizeEntries(entries), 3
    {
      assert Interleave(entries[..0]) == [];
      for i := 0 to |entries|
        invariant Emitted(before, Interleave(entries[..i])) && old(instructions) <= instructions
      {
        ghost var sofar := Interleave(entries[..i]);
        ghost var key := Const(CStr(entries[i].key));
        EntrySizeAt(entries, i);
        Next(before, sofar, Const(CStr(entries[i].key)));
        Next(before, sofar + [key], entries[i].value);
        InterleaveLast(entries[..i], entries[i]);
        assert entries[..i + 1] == entries[..i] + [entries[i]];
      }
      assert entries[..|entries|] == entries;
    }

    /** A slice bound; an absent one is nil. */
    method NextBound(ghost before: seq<Instr>, ghost es: seq<Expr>, b: Option<Expr>)
      requires Emitted(before, es)
      modifies this
      ensures Emitted(before, es + [OrNil(b)]) && old(instructions) <= instructions
      decreases OptSize(b), 3
    {
      if b.Some? {
        Next(before, es, b.value);
      } else {
        AppendOne(valid, es, Const(CNil), locals, |before|);
        Emit(Bytecode.Push(CNil));
      }
    }

    method CompileMatches(left: Expr, right: Expr)
      requires err.None?
      modifies this
      ensures Done(old(instructions), Infix(MatchesOp, left, right)) && old(instructions) <= instructions
      decreases Size(left) + Size(right), 5
    {
      MatchesNode(valid, left, right, locals, |instructions|);
      if right.Const? && right.c.CStr? {
        var p := right.c.s;
        if !valid(p) {
          err := Some(BadRegex(p));
          return;
        }
        CompileMatchesLiteral(left, p);
      } else {
        if NeverPattern(right) {
          err := Some(BadPattern);
          return;
        }
        First(left);
        Next(old(instructions), [left], right);
        assert [left] + [right] == ListOf(Two(left, right));
      }
      if err.Some? { return; }
      Emit(Do(Matches));
      assert instructions == old(instructions) + (CodeOps(Two(left, PatternOf(right)), locals,
        |old(instructions)|) + [Do(Matches)]);
    }

    /** A string literal on the right is compiled once, here, and pushed as a regex. */
    method CompileMatchesLiteral(left: Expr, p: string)
      requires err.None? && valid(p)
      modifies this
      ensures Emitted(old(instructions), ListOf(Two(left, Const(CRegex(p))))) && old(instructions) <= instructions
      decreases Size(left), 4
    {
      First(left);
      AppendOne(valid, [left], Const(CRegex(p)), locals, |old(instructions)|);
      assert [left] + [Const(CRegex(p))] == ListOf(Two(left, Const(CRegex(p))));
      Emit(Bytecode.Push(CRegex(p)));
    }

    method Compile(node: Expr)
      modifies this
      ensures old(instructions) <= instructions
      ensures old(err).Some? ==> err == old(err)
      ensures old(err).None? ==> Done(old(instructions), node)
      decreases Size(node), 1
    {
      if err.Some? { return; }
      FormSmaller(node);
      match node
      case Const(_) | Var(_) => CompileLeaf(node);
      case Unary(_, _) => CompileUnary(node);
      case Infix(Or, l, r) => CompileOr(l, r);
      case Infix(And, l, r) => CompileAnd(l, r);
      case Infix(Coalesce, l, r) => CompileCoalesce(l, r);
      case Infix(MatchesOp, l, r) => CompileMatches(l, r);
      case Infix(_, _, _) => CompileInfix(node);
      case Lambda(ps, b) => CompileLambda(ps, b);
      case Let(x, v, b) => CompileLet(x, v, b);
      case Conditional(c, t, f) => CompileConditional(c, t, OrNil(f));
      case _ => CompilePostfix(node);
    }

    method CompileLeaf(node: Expr)
      requires err.None? && (node.Const? || node.Var?)
      modifies this
      ensures Done(old(instructions), node) && old(instructions) <= instructions
    {
      if node.Const? {
        if node.c.CRegex? && !valid(node.c.pattern) {
          err := Some(BadRegex(node.c.pattern));
          return;
        }
        Emit(Bytecode.Push(node.c));
      } else {
        var a := ResolveLocal(node.name);
        Emit(if a.Some? then LoadLocal(a.value.depth, a.value.slot) else Load(node.name));
      }
    }

    method CompileUnary(node: Expr)
      requires err.None? && node.Unary?
      modifies this
      ensures Done(old(instructions), node) && old(instructions) <= instructions
      decreases Size(node), 0
    {
      ghost var before := instructions;
      Compile(node.operand);
      OneOperand(valid, node.operand, locals, |before|);
      match node.uop
      case Minus => Finish(before, node, One(node.operand), Do(Neg));
      case Bang => Finish(before, node, One(node.operand), Do(Not));
      case Plus =>
    }

    method CompileInfix(node: Expr)
      requires err.None? && node.Infix? && (node.bop.InOp? || node.bop.Arith?)
      modifies this
      ensures Done(old(instructions), node) && old(instructions) <= instructions
      decreases Size(node), 0
    {
      ghost var before := instructions;
      First(node.left);
      Next(before, [node.left], node.right);
      assert [node.left] + [node.right] == [node.left, node.right];
      Finish(before, node, Two(node.left, node.right), Do(if node.bop.InOp? then In else Bin(node.bop.op)));
    }

    method CompilePostfix(node: Expr)
      requires err.None? && (node.Member? || node.IndexE? || node.SliceE? || node.ListE? || node.MapE? || node.Call?)
      modifies this
      ensures Done(old(instructions), node) && old(instructions) <= instructions
      decreases Size(node), 0
    {
      ghost var before := instructions;
      match node
      case Member(t, n, opt) =>
        First(t);
        Finish(before, node, One(t), Do(if opt then OptAccess(n) else Access(n)));
      case IndexE(t, i, opt) =>
        First(t);
        Next(before, [t], i);
        assert [t] + [i] == [t, i];
        Finish(before, node, Two(t, i), Do(if opt then OptIndex else Index));
      case SliceE(t, lo, hi) =>
        First(t);
        NextBound(before, [t], lo);
        NextBound(before, [t] + [OrNil(lo)], hi);
        assert [t] + [OrNil(lo)] + [OrNil(hi)] == [t, OrNil(lo), OrNil(hi)];
        Finish(before, node, Three(t, OrNil(lo), OrNil(hi)), Do(Slice));
      case ListE(es) =>
        CompileAll(before, [], es);
        assert [] + es == es;
        Finish(before, node, Many(es), Do(MakeList(|es|)));
      case MapE(entries) =>
        CompileEntries(before, entries);
        Finish(before, node, Pairs(entries), Do(MakeMap(|entries|)));
      case Call(f, args) =>
        First(f);
        CompileAll(before, [f], args);
        Finish(before, node, Callee(f, args), Bytecode.Call(|args|));
    }
  }

  /** i is the opcode that consumes e's operands. */
  ghost predicate LastOf(e: Expr, ops: Operands, i: Instr) {
    (i.Do? && FormOf(e) == Form.Strict(i.op, ops)) ||
    (OpCount(ops) > 0 && FormOf(e) == Invoke(ops) && i == Bytecode.Call(OpCount(ops) - 1))
  }

  lemma FinishedNode(valid: string -> bool, e: Expr, ops: Operands, i: Instr, names: Names, at: nat)
    requires LastOf(e, ops, i) && (!e.Infix? || !e.bop.MatchesOp?) && (!e.Unary? || !e.uop.Plus?)
    ensures Problem(valid, e) == Problems(valid, ListOf(ops))
    ensures Code(e, names, at) == CodeAll(ListOf(ops), names, at) + [i]
  {
    FormSmaller(e);
    if e.Unary? {
      OneOperand(valid, e.operand, names, at);
      assert Problem(valid, e) == Problem(valid, e.operand);
    } else {
      assert Problem(valid, e) == ProblemForm(valid, FormOf(e)) == ProblemOp(valid, ops);
    }
    assert FormCode(FormOf(e), names, at) == CodeOps(ops, names, at) + [i];
  }

  lemma OneOperand(valid: string -> bool, e: Expr, names: Names, at: nat)
    ensures CodeOps(One(e), names, at) == Code(e, names, at) && ProblemOp(valid, One(e)) == Problem(valid, e)
    ensures CodeAll([e], names, at) == Code(e, names, at) && Problems(valid, [e]) == Problem(valid, e)
  {
    AllOne(valid, e, names, at);
    assert [] + [e] == [e];
  }

  lemma {:induction false} SizeAt(es: seq<Expr>, i: nat)
    requires i < |es|
    ensures Size(es[i]) <= SizeAll(es)
  {
    if i > 0 { SizeAt(es[1..], i - 1); }
  }

  lemma {:induction false} EntrySizeAt(es: seq<Entry>, i: nat)
    requires i < |es|
    ensures 1 + Size(es[i].value) <= SizeEntries(es)
  {
    if i > 0 { EntrySizeAt(es[1..], i - 1); }
  }

  lemma {:induction false} InterleaveLast(es: seq<Entry>, e: Entry)
    ensures Interleave(es + [e]) == Interleave(es) + [Const(CStr(e.key))] + [e.value]
  {
    if es == [] {
      assert [e][1..] == [] && Interleave([e][1..]) == [];
    } else {
      InterleaveLast(es[1..], e);
      assert (es + [e])[1..] == es[1..] + [e];
    }
  }

  lemma AndNode(l: Expr, r: Expr, names: Names, at: nat, c: seq<Instr>, y: seq<Instr>)
    requires c == Code(l, names, at) && y == Code(r, names, at + |c| + 1)
    ensures Code(Infix(And, l, r), names, at) == BranchCode(at, c, y, [Bytecode.Push(CBool(false))])
  {
    FormSmaller(Infix(And, l, r));
    assert Code(Const(CBool(false)), names, at + |c| + |y| + 2) == [Bytecode.Push(CBool(false))];
    assert FormCode(Form.Branch(l, r, Const(CBool(false))), names, at) ==
      BranchCode(at, c, y, [Bytecode.Push(CBool(false))]);
  }

  lemma OrNode(l: Expr, r: Expr, names: Names, at: nat, c: seq<Instr>, n: seq<Instr>)
    requires c == Code(l, names, at) && n == Code(r, names, at + |c| + 3)
    ensures Code(Infix(Or, l, r), names, at) == BranchCode(at, c, [Bytecode.Push(CBool(true))], n)
  {
    FormSmaller(Infix(Or, l, r));
    assert Code(Const(CBool(true)), names, at + |c| + 1) == [Bytecode.Push(CBool(true))];
    assert FormCode(Form.Branch(l, Const(CBool(true)), r), names, at) ==
      BranchCode(at, c, [Bytecode.Push(CBool(true))], n);
  }

  /** The two jumps of a conditional, emitted with no target and patched later, end up as specified. */
  lemma Patched(before: seq<Instr>, c: seq<Instr>, y: seq<Instr>, n: seq<Instr>)
    ensures
      var s1 := before + c + [JumpIfFalse(0)] + y + [Jump(0)];
      var s2 := s1[|before| + |c| := JumpIfFalse(|s1|)] + n;
      s2[|before| + |c| + 1 + |y| := Jump(|s2|)] == before + BranchCode(|before|, c, y, n)
  {
  }
}
