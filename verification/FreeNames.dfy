// The names a compiled expression reports, read off the expression itself.

module FreeNames {
  import opened Values
  import opened Syntax
  import opened Bytecode
  import opened CompilerSpec
  import Reported = Names

  function BoundBy(names: Names): set<string> {
    if names == [] then {} else BoundBy(names[..|names| - 1]) + InFrame(names[|names| - 1])
  }

  function InFrame(ps: seq<string>): set<string> { set p | p in ps }

  lemma {:induction false} ResolveSlotBound(ps: seq<string>, x: string)
    ensures ResolveSlot(ps, x).Some? <==> x in ps
  {
    if ps != [] {
      ResolveSlotBound(ps[..|ps| - 1], x);
      assert ps == ps[..|ps| - 1] + [ps[|ps| - 1]];
    }
  }

  lemma {:induction false} ResolveBound(names: Names, x: string)
    ensures Resolve(names, x).Some? <==> x in BoundBy(names)
  {
    if names != [] {
      ResolveSlotBound(names[|names| - 1], x);
      ResolveBound(names[..|names| - 1], x);
    }
  }

  /** The names with a free occurrence in e, given what is bound around it. */
  function FreeNamesOf(e: Expr, bound: set<string>): set<string>
    decreases Size(e), 1
  {
    FormSmaller(e);
    FreeForm(FormOf(e), bound)
  }

  function FreeForm(f: Form, bound: set<string>): set<string>
    decreases FormSize(f), 4
  {
    match f
    case Constant(_) => {}
    case Name(x) => if x in bound then {} else {x}
    case Closure(ps, b) => FreeNamesOf(b, bound + InFrame(ps))
    case Binding(x, v, b) => FreeNamesOf(v, bound) + FreeNamesOf(b, bound + {x})
    case Branch(c, y, n) => FreeNamesOf(c, bound) + FreeNamesOf(y, bound) + FreeNamesOf(n, bound)
    case Fallback(l, r) => FreeNamesOf(l, bound) + FreeNamesOf(r, bound)
    case Invoke(o) => FreeOps(o, bound)
    case Strict(_, o) => FreeOps(o, bound)
  }

  function FreeOps(o: Operands, bound: set<string>): set<string>
    decreases OpSize(o), 3
  {
    ListSize(o);
    FreeAll(ListOf(o), bound)
  }

  function FreeAll(es: seq<Expr>, bound: set<string>): set<string>
    decreases SizeAll(es), 2
  {
    if es == [] then {} else FreeNamesOf(es[0], bound) + FreeAll(es[1..], bound)
  }

  lemma {:induction false} NamesConcat(a: seq<Instr>, b: seq<Instr>)
    ensures LoadedNames(a + b) == LoadedNames(a) + LoadedNames(b)
  {
    if a == [] {
      assert a + b == b;
    } else {
      NamesConcat(a[1..], b);
      assert (a + b)[1..] == a[1..] + b;
    }
  }

  /** What a compiled expression reports is exactly its free names: a binding hides a name only
      where it is in scope, and every free occurrence is looked up by name. */
  lemma ReportsFreeNames(e: Expr)
    ensures LoadedNames(Code(e, [], 0)) == FreeNamesOf(e, {})
  {
    CodeNames(e, [], 0, Code(e, [], 0));
  }

  lemma {:induction false} CodeNames(e: Expr, names: Names, at: nat, code: seq<Instr>)
    requires code == Code(e, names, at)
    ensures LoadedNames(code) == FreeNamesOf(e, BoundBy(names))
    decreases Size(e), 1
  {
    FormSmaller(e);
    FormNames(FormOf(e), names, at, code);
  }

  lemma {:induction false} FormNames(f: Form, names: Names, at: nat, code: seq<Instr>)
    requires FormFits(f) && code == FormCode(f, names, at)
    ensures LoadedNames(code) == FreeForm(f, BoundBy(names))
    decreases FormSize(f), 4
  {
    match f
    case Constant(_) =>
    case Name(x) => ResolveBound(names, x);
    case Closure(ps, b) =>
      CodeNames(b, names + [ps], 0, Code(b, names + [ps], 0));
      InnerBound(names, ps);
    case Binding(x, v, b) => LetNames(x, v, b, names, at);
    case Branch(c, y, n) => BranchNames(c, y, n, names, at);
    case Fallback(l, r) =>
      CodeNames(l, names, 0, Code(l, names, 0));
      CodeNames(r, names, at + 1, Code(r, names, at + 1));
      assert code[1..] == Code(r, names, at + 1);
    case Invoke(o) =>
      OpsNames(o, names, at);
      Reported.NamesLast(CodeOps(o, names, at), Bytecode.Call(OpCount(o) - 1));
    case Strict(op, o) =>
      OpsNames(o, names, at);
      Reported.NamesLast(CodeOps(o, names, at), Do(op));
  }

  lemma InnerBound(names: Names, ps: seq<string>)
    ensures BoundBy(names + [ps]) == BoundBy(names) + InFrame(ps)
  {
    assert (names + [ps])[..|names|] == names;
  }

  lemma {:induction false} LetNames(x: string, v: Expr, b: Expr, names: Names, at: nat)
    ensures
      var cv, cb := Code(v, names, at), Code(b, names + [[x]], 0);
      LoadedNames(cv + [Bytecode.Let(x, cb)]) == FreeNamesOf(v, BoundBy(names)) + FreeNamesOf(b, BoundBy(names) + {x})
    decreases Size(v) + Size(b), 3
  {
    var cv, cb := Code(v, names, at), Code(b, names + [[x]], 0);
    CodeNames(v, names, at, cv);
    CodeNames(b, names + [[x]], 0, cb);
    InnerBound(names, [x]);
    assert InFrame([x]) == {x};
    Reported.NamesLast(cv, Bytecode.Let(x, cb));
  }

  lemma {:induction false} BranchNames(c: Expr, y: Expr, n: Expr, names: Names, at: nat)
    ensures
      var cc := Code(c, names, at);
      var cy := Code(y, names, at + |cc| + 1);
      var cn := Code(n, names, at + |cc| + |cy| + 2);
      LoadedNames(BranchCode(at, cc, cy, cn)) ==
        FreeNamesOf(c, BoundBy(names)) + FreeNamesOf(y, BoundBy(names)) + FreeNamesOf(n, BoundBy(names))
    decreases Size(c) + Size(y) + Size(n), 3
  {
    var cc := Code(c, names, at);
    var cy := Code(y, names, at + |cc| + 1);
    var cn := Code(n, names, at + |cc| + |cy| + 2);
    CodeNames(c, names, at, cc);
    CodeNames(y, names, at + |cc| + 1, cy);
    CodeNames(n, names, at + |cc| + |cy| + 2, cn);
    BranchLoads(at, cc, cy, cn);
  }

  lemma BranchLoads(at: nat, c: seq<Instr>, y: seq<Instr>, n: seq<Instr>)
    ensures LoadedNames(BranchCode(at, c, y, n)) == LoadedNames(c) + LoadedNames(y) + LoadedNames(n)
  {
    var j := JumpIfFalse(at + |c| + |y| + 2);
    var k := Jump(at + |c| + |y| + 2 + |n|);
    Reported.NamesLast(c, j);
    NamesConcat(c + [j], y);
    Reported.NamesLast(c + [j] + y, k);
    NamesConcat(c + [j] + y + [k], n);
  }

  lemma {:induction false} OpsNames(o: Operands, names: Names, at: nat)
    ensures LoadedNames(CodeOps(o, names, at)) == FreeOps(o, BoundBy(names))
    decreases OpSize(o), 3
  {
    ListSize(o);
    AllNames(ListOf(o), names, at);
  }

  lemma {:induction false} AllNames(es: seq<Expr>, names: Names, at: nat)
    ensures LoadedNames(CodeAll(es, names, at)) == FreeAll(es, BoundBy(names))
    decreases SizeAll(es), 2
  {
    if es != [] {
      var c := Code(es[0], names, at);
      CodeNames(es[0], names, at, c);
      AllNames(es[1..], names, at + |c|);
      NamesConcat(c, CodeAll(es[1..], names, at + |c|));
    }
  }
}
