// What the compiler emits for each expression, as a function of the expression, the names bound
// around it and the index at which its first instruction lands.

module CompilerSpec {
  import opened Values
  import opened Syntax
  import opened Bytecode

  type Names = seq<seq<string>>

  datatype Address = Address(depth: nat, slot: nat)

  /** The innermost frame that binds name, and its last slot that does. */
  function Resolve(names: Names, name: string): Option<Address> {
    if names == [] then None else
    var top := |names| - 1;
    match ResolveSlot(names[top], name)
    case Some(j) => Some(Address(0, j))
    case None =>
      match Resolve(names[..top], name)
      case Some(a) => Some(Address(a.depth + 1, a.slot))
      case None => None
  }

  function ResolveSlot(frame: seq<string>, name: string): (r: Option<nat>)
    ensures r.Some? ==> r.value < |frame|
  {
    if frame == [] then None
    else if frame[|frame| - 1] == name then Some(|frame| - 1)
    else ResolveSlot(frame[..|frame| - 1], name)
  }

  function Code(e: Expr, names: Names, at: nat): seq<Instr>
    decreases Size(e), 1
  {
    FormSmaller(e);
    FormCode(FormOf(e), names, at)
  }

  function FormCode(f: Form, names: Names, at: nat): seq<Instr>
    requires FormFits(f)
    decreases FormSize(f), 4
  {
    match f
    case Constant(c) => [Push(c)]
    case Name(x) => [LoadCode(names, x)]
    case Closure(ps, b) => [MakeClosure(ProtoOf(ps, b, names))]
    case Binding(x, v, b) => Code(v, names, at) + [Bytecode.Let(x, Code(b, names + [[x]], 0))]
    case Branch(c, yes, no) =>
      var cc := Code(c, names, at);
      var cy := Code(yes, names, at + |cc| + 1);
      BranchCode(at, cc, cy, Code(no, names, at + |cc| + |cy| + 2))
    case Fallback(l, r) => FallbackCode(at, Code(l, names, 0), Code(r, names, at + 1))
    case Invoke(o) => CodeOps(o, names, at) + [Bytecode.Call(OpCount(o) - 1)]
    case Strict(op, o) => CodeOps(o, names, at) + [Do(op)]
  }

  /** A name bound inside the expression is addressed; any other is looked up when it runs. */
  function LoadCode(names: Names, x: string): Instr {
    match Resolve(names, x)
    case Some(a) => LoadLocal(a.depth, a.slot)
    case None => Load(x)
  }

  function BranchCode(at: nat, cond: seq<Instr>, yes: seq<Instr>, no: seq<Instr>): seq<Instr> {
    cond + [JumpIfFalse(at + |cond| + |yes| + 2)] + yes + [Jump(at + |cond| + |yes| + 2 + |no|)] + no
  }

  function FallbackCode(at: nat, left: seq<Instr>, right: seq<Instr>): seq<Instr> {
    [Bytecode.Coalesce(left, at + 1 + |right|)] + right
  }

  function CodeOps(o: Operands, names: Names, at: nat): seq<Instr>
    decreases OpSize(o), 3
  {
    ListSize(o);
    CodeAll(ListOf(o), names, at)
  }

  function CodeAll(es: seq<Expr>, names: Names, at: nat): seq<Instr>
    decreases SizeAll(es), 2
  {
    if es == [] then [] else
    var c := Code(es[0], names, at);
    c + CodeAll(es[1..], names, at + |c|)
  }

  function ProtoOf(params: seq<string>, body: Expr, names: Names): Proto
    decreases Size(body), 3
  {
    var code := Code(body, names + [params], 0);
    Proto(params, code, !ContainsClosureLiteral(code))
  }

  // ----- Compile-time failures -----

  datatype CompileError = BadRegex(pattern: string) | BadPattern

  /** The first failure met in the compiler's own traversal order, if any. */
  function Problem(valid: string -> bool, e: Expr): Option<CompileError>
    decreases Size(e), 1
  {
    if e.Unary? then Problem(valid, e.operand)
    else if e.Infix? && e.bop.MatchesOp? && e.right.Const? && e.right.c.CStr? && !valid(e.right.c.s) then
      Some(BadRegex(e.right.c.s))
    else if e.Infix? && e.bop.MatchesOp? && NeverPattern(e.right) then Some(BadPattern)
    else
      FormSmaller(e);
      ProblemForm(valid, FormOf(e))
  }

  function ProblemForm(valid: string -> bool, f: Form): Option<CompileError>
    decreases FormSize(f), 4
  {
    match f
    case Constant(c) => if c.CRegex? && !valid(c.pattern) then Some(BadRegex(c.pattern)) else None
    case Name(_) => None
    case Closure(_, b) => Problem(valid, b)
    case Binding(_, v, b) => ProblemOp(valid, Two(v, b))
    case Branch(c, yes, no) => ProblemOp(valid, Three(c, yes, no))
    case Fallback(l, r) => ProblemOp(valid, Two(l, r))
    case Invoke(o) => ProblemOp(valid, o)
    case Strict(_, o) => ProblemOp(valid, o)
  }

  function ProblemOp(valid: string -> bool, o: Operands): Option<CompileError>
    decreases OpSize(o), 3
  {
    ListSize(o);
    Problems(valid, ListOf(o))
  }

  function Problems(valid: string -> bool, es: seq<Expr>): Option<CompileError>
    decreases SizeAll(es), 2
  {
    if es == [] then None else
    match Problem(valid, es[0])
    case Some(p) => Some(p)
    case None => Problems(valid, es[1..])
  }

  /** A literal that can never be a regex. */
  predicate NeverPattern(r: Expr) {
    (r.Const? && !r.c.CStr? && !r.c.CRegex?) || r.ListE? || r.MapE? || r.Lambda?
  }

  lemma MatchesNode(valid: string -> bool, l: Expr, r: Expr, names: Names, at: nat)
    ensures
      var e := Infix(MatchesOp, l, r);
      && Code(e, names, at) == CodeOps(Two(l, PatternOf(r)), names, at) + [Do(Matches)]
      && Problem(valid, e) ==
         if r.Const? && r.c.CStr? && !valid(r.c.s) then Some(BadRegex(r.c.s))
         else if NeverPattern(r) then Some(BadPattern)
         else ProblemOp(valid, Two(l, PatternOf(r)))
  {
    var e := Infix(MatchesOp, l, r);
    FormSmaller(e);
    assert FormOf(e) == Form.Strict(Matches, Two(l, PatternOf(r)));
    assert FormCode(FormOf(e), names, at) == CodeOps(Two(l, PatternOf(r)), names, at) + [Do(Matches)];
    assert ProblemForm(valid, FormOf(e)) == ProblemOp(valid, Two(l, PatternOf(r)));
  }

  lemma TwoProblems(valid: string -> bool, a: Expr, b: Expr)
    ensures ProblemOp(valid, Two(a, b)) == if Problem(valid, a).Some? then Problem(valid, a) else Problem(valid, b)
  {
    assert [a, b][1..] == [b] && [b][1..] == [];
    assert Problems(valid, [b]) == Problem(valid, b);
  }

  lemma ThreeProblems(valid: string -> bool, a: Expr, b: Expr, c: Expr)
    ensures ProblemOp(valid, Three(a, b, c)) ==
      if Problem(valid, a).Some? then Problem(valid, a)
      else if Problem(valid, b).Some? then Problem(valid, b)
      else Problem(valid, c)
  {
    assert [a, b, c][1..] == [b, c] && [b, c][1..] == [c] && [c][1..] == [];
    assert Problems(valid, [c]) == Problem(valid, c);
    assert Problems(valid, [b, c]) == if Problem(valid, b).Some? then Problem(valid, b) else Problems(valid, [c]);
  }

  // ----- Closure literals in emitted code -----

  lemma BranchContains(at: nat, c: seq<Instr>, t: seq<Instr>, f: seq<Instr>)
    ensures ContainsClosureLiteral(BranchCode(at, c, t, f)) ==
      (ContainsClosureLiteral(c) || ContainsClosureLiteral(t) || ContainsClosureLiteral(f))
  {
    var j := [JumpIfFalse(at + |c| + |t| + 2)];
    var k := [Jump(at + |c| + |t| + 2 + |f|)];
    ContainsLast(c, j[0]);
    ContainsConcat(c + j, t);
    ContainsLast(c + j + t, k[0]);
    ContainsConcat(c + j + t + k, f);
  }

  /** Emitted code creates closures exactly when the expression contains a lambda literal. */
  lemma {:induction false} ClosureLiterals(e: Expr, names: Names, at: nat)
    ensures ContainsClosureLiteral(Code(e, names, at)) == HasLambda(e)
    decreases Size(e), 1
  {
    FormSmaller(e);
    FormLiterals(FormOf(e), names, at, Code(e, names, at), HasLambda(e));
  }

  lemma {:induction false} FormLiterals(f: Form, names: Names, at: nat, code: seq<Instr>, has: bool)
    requires FormFits(f) && code == FormCode(f, names, at) && has == HasLambdaForm(f)
    ensures ContainsClosureLiteral(code) == has
    decreases FormSize(f), 4
  {
    match f
    case Constant(_) =>
    case Name(_) =>
    case Closure(_, _) =>
    case Binding(x, v, b) =>
      ClosureLiterals(v, names, at);
      ClosureLiterals(b, names + [[x]], 0);
      ContainsLast(Code(v, names, at), Bytecode.Let(x, Code(b, names + [[x]], 0)));
    case Branch(c, yes, no) => BranchLiterals(c, yes, no, names, at);
    case Fallback(l, r) =>
      ClosureLiterals(l, names, 0);
      ClosureLiterals(r, names, at + 1);
      assert code[1..] == Code(r, names, at + 1);
    case Invoke(o) =>
      ClosureLiteralsOps(o, names, at);
      ContainsLast(CodeOps(o, names, at), Bytecode.Call(OpCount(o) - 1));
    case Strict(op, o) =>
      ClosureLiteralsOps(o, names, at);
      ContainsLast(CodeOps(o, names, at), Do(op));
  }

  lemma {:induction false} BranchLiterals(c: Expr, yes: Expr, no: Expr, names: Names, at: nat)
    ensures
      var cc := Code(c, names, at);
      var cy := Code(yes, names, at + |cc| + 1);
      var cn := Code(no, names, at + |cc| + |cy| + 2);
      ContainsClosureLiteral(BranchCode(at, cc, cy, cn)) == (HasLambda(c) || HasLambda(yes) || HasLambda(no))
    decreases Size(c) + Size(yes) + Size(no), 3
  {
    var cc := Code(c, names, at);
    var cy := Code(yes, names, at + |cc| + 1);
    var cn := Code(no, names, at + |cc| + |cy| + 2);
    ClosureLiterals(c, names, at);
    ClosureLiterals(yes, names, at + |cc| + 1);
    ClosureLiterals(no, names, at + |cc| + |cy| + 2);
    BranchContains(at, cc, cy, cn);
  }

  lemma ClosureLiteralsOps(o: Operands, names: Names, at: nat)
    ensures ContainsClosureLiteral(CodeOps(o, names, at)) == HasLambdaOp(o)
    decreases OpSize(o), 3
  {
    ListSize(o);
    ClosureLiteralsAll(ListOf(o), names, at);
  }

  lemma {:induction false} ClosureLiteralsAll(es: seq<Expr>, names: Names, at: nat)
    ensures ContainsClosureLiteral(CodeAll(es, names, at)) == HasLambdas(es)
    decreases SizeAll(es), 2
  {
    if es != [] {
      var c := Code(es[0], names, at);
      ClosureLiterals(es[0], names, at);
      ClosureLiteralsAll(es[1..], names, at + |c|);
      ContainsConcat(c, CodeAll(es[1..], names, at + |c|));
    }
  }
}
