// The static scan of a sheet and the compiler, side by side: the occurrences of the namespace that the
// scan reads are those for which the emitted code looks it up by name.

module SheetLoads {
  import opened Values
  import opened Syntax
  import opened Bytecode
  import opened CompilerSpec
  import opened FreeNames
  import opened SheetRefs

  /** y occurs in e where the compiler resolves it by name. */
  ghost predicate OccursFree(y: string, xn: Names, e: Expr, names: Names) {
    Occurs(Var(y), xn, e, names) && Unshadowed(xn, y)
  }

  lemma FreeOne(a: Expr, bound: set<string>)
    ensures FreeOps(One(a), bound) == FreeNamesOf(a, bound)
  {
    ListSize(One(a));
    assert [a][1..] == [];
    assert FreeAll([a], bound) == FreeNamesOf(a, bound) + FreeAll([], bound);
  }

  lemma FreeTwo(a: Expr, b: Expr, bound: set<string>)
    ensures FreeOps(Two(a, b), bound) == FreeNamesOf(a, bound) + FreeNamesOf(b, bound)
  {
    assert [a, b][1..] == [b] && [b][1..] == [];
    assert FreeAll([b], bound) == FreeNamesOf(b, bound);
  }

  lemma FreeThree(a: Expr, b: Expr, c: Expr, bound: set<string>)
    ensures FreeOps(Three(a, b, c), bound) == FreeNamesOf(a, bound) + FreeNamesOf(b, bound) + FreeNamesOf(c, bound)
  {
    FreeTwo(b, c, bound);
    assert [a, b, c][1..] == [b, c];
  }

  lemma FreeConst(c: Values.Const, bound: set<string>)
    ensures FreeNamesOf(Const(c), bound) == {}
  {
    FormSmaller(Const(c));
  }

  function FreeOption(o: Option<Expr>, bound: set<string>): set<string> {
    if o.Some? then FreeNamesOf(o.value, bound) else {}
  }

  function FreeEntries(es: seq<Entry>, bound: set<string>): set<string> {
    if es == [] then {} else FreeNamesOf(es[0].value, bound) + FreeEntries(es[1..], bound)
  }

  lemma {:induction false} FreeInterleaved(es: seq<Entry>, bound: set<string>)
    ensures FreeAll(Interleave(es), bound) == FreeEntries(es, bound)
  {
    if es != [] {
      FreeInterleaved(es[1..], bound);
      FreeConst(CStr(es[0].key), bound);
      var rest := Interleave(es[1..]);
      assert Interleave(es)[0] == Const(CStr(es[0].key));
      assert Interleave(es)[1..] == [es[0].value] + rest && Interleave(es)[1..][1..] == rest;
    }
  }

  /** The free names of an expression, constructor by constructor. */
  function Free(e: Expr, bound: set<string>): set<string> {
    match e
    case Const(_) => {}
    case Var(x) => if x in bound then {} else {x}
    case Unary(_, a) => FreeNamesOf(a, bound)
    case Infix(_, l, r) => FreeNamesOf(l, bound) + FreeNamesOf(r, bound)
    case Member(t, _, _) => FreeNamesOf(t, bound)
    case IndexE(t, i, _) => FreeNamesOf(t, bound) + FreeNamesOf(i, bound)
    case SliceE(t, lo, hi) => FreeNamesOf(t, bound) + FreeOption(lo, bound) + FreeOption(hi, bound)
    case ListE(es) => FreeAll(es, bound)
    case MapE(es) => FreeEntries(es, bound)
    case Lambda(ps, b) => FreeNamesOf(b, bound + InFrame(ps))
    case Let(x, v, b) => FreeNamesOf(v, bound) + FreeNamesOf(b, bound + {x})
    case Conditional(c, t, f) => FreeNamesOf(c, bound) + FreeNamesOf(t, bound) + FreeOption(f, bound)
    case Call(f, args) => FreeNamesOf(f, bound) + FreeAll(args, bound)
  }

  lemma FreeParts(e: Expr, bound: set<string>)
    ensures FreeNamesOf(e, bound) == Free(e, bound)
  {
    FormSmaller(e);
    FreeConst(CNil, bound);
    match e
    case Unary(_, a) =>
      FormSmaller(a);
      FreeOne(a, bound);
    case Infix(op, l, r) => FreeInfix(op, l, r, bound);
    case Member(t, _, _) => FreeOne(t, bound);
    case IndexE(t, i, _) => FreeTwo(t, i, bound);
    case SliceE(t, lo, hi) => FreeThree(t, OrNil(lo), OrNil(hi), bound);
    case MapE(es) =>
      FreeInterleaved(es, bound);
      assert FreeOps(Pairs(es), bound) == FreeAll(Interleave(es), bound);
    case Call(f, args) =>
      assert ([f] + args)[1..] == args;
      assert FreeOps(Callee(f, args), bound) == FreeAll([f] + args, bound);
    case ListE(es) => assert FreeOps(Many(es), bound) == FreeAll(es, bound);
    case Const(_) | Var(_) | Lambda(_, _) | Let(_, _, _) =>
    case Conditional(c, t, f) => assert FreeNamesOf(OrNil(f), bound) == FreeOption(f, bound);
  }

  lemma FreeInfix(op: InfixOp, l: Expr, r: Expr, bound: set<string>)
    ensures FreeNamesOf(Infix(op, l, r), bound) == FreeNamesOf(l, bound) + FreeNamesOf(r, bound)
  {
    FormSmaller(Infix(op, l, r));
    FreeTwo(l, r, bound);
    FreeTwo(l, PatternOf(r), bound);
    FreeConst(CBool(true), bound);
    FreeConst(CBool(false), bound);
    if PatternOf(r) != r {
      FreeConst(r.c, bound);
      FreeConst(PatternOf(r).c, bound);
    }
  }

  lemma {:induction false} FreeAt(es: seq<Expr>, bound: set<string>, i: nat)
    requires i < |es|
    ensures FreeNamesOf(es[i], bound) <= FreeAll(es, bound)
  {
    if i > 0 { FreeAt(es[1..], bound, i - 1); }
  }

  lemma {:induction false} FreeEntryAt(es: seq<Entry>, bound: set<string>, i: nat)
    requires i < |es|
    ensures FreeNamesOf(es[i].value, bound) <= FreeEntries(es, bound)
  {
    if i > 0 { FreeEntryAt(es[1..], bound, i - 1); }
  }

  lemma {:induction false} FindFree(es: seq<Expr>, bound: set<string>, y: string) returns (i: nat)
    requires y in FreeAll(es, bound)
    ensures i < |es| && y in FreeNamesOf(es[i], bound)
  {
    if y in FreeNamesOf(es[0], bound) { return 0; }
    var k := FindFree(es[1..], bound, y);
    return k + 1;
  }

  lemma {:induction false} FindFreeEntry(es: seq<Entry>, bound: set<string>, y: string) returns (i: nat)
    requires y in FreeEntries(es, bound)
    ensures i < |es| && y in FreeNamesOf(es[i].value, bound)
  {
    if y in FreeNamesOf(es[0].value, bound) { return 0; }
    var k := FindFreeEntry(es[1..], bound, y);
    return k + 1;
  }

  /** An occurrence that is not shadowed is looked up by name when the expression runs. */
  lemma {:induction false} OccurrenceFree(y: string, xn: Names, e: Expr, names: Names)
    requires OccursFree(y, xn, e, names)
    ensures y in FreeNamesOf(e, BoundBy(names))
    decreases e
  {
    FreeParts(e, BoundBy(names));
    ResolveBound(names, y);
    match e
    case Const(_) =>
    case Var(_) =>
    case Unary(_, a) => OccurrenceFree(y, xn, a, names);
    case Infix(_, l, r) => OccurrenceFree(y, xn, if Occurs(Var(y), xn, l, names) then l else r, names);
    case Member(t, _, _) => OccurrenceFree(y, xn, t, names);
    case IndexE(t, i, _) => OccurrenceFree(y, xn, if Occurs(Var(y), xn, t, names) then t else i, names);
    case SliceE(t, lo, hi) =>
      if Occurs(Var(y), xn, t, names) { OccurrenceFree(y, xn, t, names); }
      else if lo.Some? && Occurs(Var(y), xn, lo.value, names) { OccurrenceFree(y, xn, lo.value, names); }
      else { OccurrenceFree(y, xn, hi.value, names); }
    case ListE(es) =>
      var i :| 0 <= i < |es| && Occurs(Var(y), xn, es[i], names);
      OccurrenceFree(y, xn, es[i], names);
      FreeAt(es, BoundBy(names), i);
    case MapE(es) =>
      var i :| 0 <= i < |es| && Occurs(Var(y), xn, es[i].value, names);
      OccurrenceFree(y, xn, es[i].value, names);
      FreeEntryAt(es, BoundBy(names), i);
    case Lambda(ps, b) =>
      InnerBound(names, ps);
      OccurrenceFree(y, xn, b, names + [ps]);
    case Let(x, v, b) =>
      InnerLet(names, x);
      if Occurs(Var(y), xn, v, names) {
        OccurrenceFree(y, xn, v, names);
      } else {
        OccurrenceFree(y, xn, b, names + [[x]]);
      }
    case Conditional(c, t, f) =>
      if Occurs(Var(y), xn, c, names) { OccurrenceFree(y, xn, c, names); }
      else if Occurs(Var(y), xn, t, names) { OccurrenceFree(y, xn, t, names); }
      else { OccurrenceFree(y, xn, f.value, names); }
    case Call(f, args) =>
      if Occurs(Var(y), xn, f, names) {
        OccurrenceFree(y, xn, f, names);
      } else {
        var i :| 0 <= i < |args| && Occurs(Var(y), xn, args[i], names);
        OccurrenceFree(y, xn, args[i], names);
        FreeAt(args, BoundBy(names), i);
      }
  }

  /** And only such occurrences are. */
  lemma {:induction false} FreeOccurs(y: string, e: Expr, names: Names) returns (xn: Names)
    requires y in FreeNamesOf(e, BoundBy(names))
    ensures OccursFree(y, xn, e, names)
    decreases e
  {
    var bound := BoundBy(names);
    FreeParts(e, bound);
    ResolveBound(names, y);
    xn := names;
    match e
    case Const(_) =>
    case Var(_) =>
    case Unary(_, a) => xn := FreeOccurs(y, a, names);
    case Infix(_, l, r) => xn := FreeOccurs(y, if y in FreeNamesOf(l, bound) then l else r, names);
    case Member(t, _, _) => xn := FreeOccurs(y, t, names);
    case IndexE(t, i, _) => xn := FreeOccurs(y, if y in FreeNamesOf(t, bound) then t else i, names);
    case SliceE(t, lo, hi) =>
      if y in FreeNamesOf(t, bound) { xn := FreeOccurs(y, t, names); }
      else if y in FreeOption(lo, bound) { xn := FreeOccurs(y, lo.value, names); }
      else { xn := FreeOccurs(y, hi.value, names); }
    case ListE(es) =>
      var i := FindFree(es, bound, y);
      xn := FreeOccurs(y, es[i], names);
    case MapE(es) =>
      var i := FindFreeEntry(es, bound, y);
      xn := FreeOccurs(y, es[i].value, names);
    case Lambda(ps, b) =>
      InnerBound(names, ps);
      xn := FreeOccurs(y, b, names + [ps]);
    case Let(x, v, b) =>
      InnerLet(names, x);
      if y in FreeNamesOf(v, bound) { xn := FreeOccurs(y, v, names); } else { xn := FreeOccurs(y, b, names + [[x]]); }
    case Conditional(c, t, f) =>
      if y in FreeNamesOf(c, bound) { xn := FreeOccurs(y, c, names); }
      else if y in FreeNamesOf(t, bound) { xn := FreeOccurs(y, t, names); }
      else { xn := FreeOccurs(y, f.value, names); }
    case Call(f, args) =>
      if y in FreeNamesOf(f, bound) {
        xn := FreeOccurs(y, f, names);
      } else {
        var i := FindFree(args, bound, y);
        xn := FreeOccurs(y, args[i], names);
      }
  }

  /** Each single occurrence compiles to a load by name exactly when nothing bound around it shadows
      the name, and to an address otherwise. */
  lemma OccurrenceCode(y: string, xn: Names, at: nat)
    ensures Unshadowed(xn, y) <==> Code(Var(y), xn, at) == [Bytecode.Load(y)]
    ensures !Unshadowed(xn, y) <==> |Code(Var(y), xn, at)| == 1 && Code(Var(y), xn, at)[0].LoadLocal?
  {
    FormSmaller(Var(y));
  }

  /** The two scope analyses agree: emitted code, with every stream nested in it, loads the namespace
      by name exactly when the scan's own scoping rule finds an occurrence it does not take for a
      local; so a cell that is reported to read anything loads it. */
  lemma ScopesAgree(fo: FloatOps, e: Expr, ns: string)
    ensures ns in LoadedNames(Code(e, [], 0)) <==> exists xn :: OccursFree(ns, xn, e, [])
    ensures RefProblem(fo, e, ns, {}).None? && Refs(fo, e, ns, {}) != {} ==> ns in LoadedNames(Code(e, [], 0))
  {
    ReportsFreeNames(e);
    assert BoundBy([]) == {};
    if ns in FreeNamesOf(e, {}) { var xn := FreeOccurs(ns, e, []); }
    forall xn | OccursFree(ns, xn, e, []) ensures ns in FreeNamesOf(e, {}) { OccurrenceFree(ns, xn, e, []); }
    if Refs(fo, e, ns, {}) != {} {
      var n :| n in Refs(fo, e, ns, {});
      var x, xn := ScanInventsNothing(fo, e, [], ns, n);
      TargetOccurs(x, xn, e, [], ns);
      OccurrenceFree(ns, xn, e, []);
    }
  }

  /** The namespace that a read cell is read from is itself an occurrence. */
  lemma {:induction false} TargetOccurs(x: Expr, xn: Names, e: Expr, names: Names, ns: string)
    requires Occurs(x, xn, e, names) && (x.Member? || x.IndexE?) && x.target == Var(ns)
    ensures Occurs(Var(ns), xn, e, names)
    decreases e
  {
    if x != e || xn != names {
      match e
      case Unary(_, a) => TargetOccurs(x, xn, a, names, ns);
      case Infix(_, l, r) => TargetOccurs(x, xn, if Occurs(x, xn, l, names) then l else r, names, ns);
      case Member(t, _, _) => TargetOccurs(x, xn, t, names, ns);
      case IndexE(t, i, _) => TargetOccurs(x, xn, if Occurs(x, xn, t, names) then t else i, names, ns);
      case SliceE(t, lo, hi) =>
        if Occurs(x, xn, t, names) { TargetOccurs(x, xn, t, names, ns); }
        else if lo.Some? && Occurs(x, xn, lo.value, names) { TargetOccurs(x, xn, lo.value, names, ns); }
        else { TargetOccurs(x, xn, hi.value, names, ns); }
      case ListE(es) =>
        var i :| 0 <= i < |es| && Occurs(x, xn, es[i], names);
        TargetOccurs(x, xn, es[i], names, ns);
      case MapE(es) =>
        var i :| 0 <= i < |es| && Occurs(x, xn, es[i].value, names);
        TargetOccurs(x, xn, es[i].value, names, ns);
      case Lambda(ps, b) => TargetOccurs(x, xn, b, names + [ps], ns);
      case Let(y, v, b) =>
        if Occurs(x, xn, v, names) {
          TargetOccurs(x, xn, v, names, ns);
        } else {
          TargetOccurs(x, xn, b, names + [[y]], ns);
        }
      case Conditional(c, t, f) =>
        if Occurs(x, xn, c, names) { TargetOccurs(x, xn, c, names, ns); }
        else if Occurs(x, xn, t, names) { TargetOccurs(x, xn, t, names, ns); }
        else { TargetOccurs(x, xn, f.value, names, ns); }
      case Call(f, args) =>
        if Occurs(x, xn, f, names) {
          TargetOccurs(x, xn, f, names, ns);
        } else {
          var i :| 0 <= i < |args| && Occurs(x, xn, args[i], names);
          TargetOccurs(x, xn, args[i], names, ns);
        }
    }
  }
}
