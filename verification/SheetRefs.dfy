// Which cells an expression reads, found without running it.

module SheetRefs {
  import opened Values
  import opened Syntax
  import opened CompilerSpec
  import opened FreeNames
  import Fold

  datatype RefError = ComputedIndex | NotAnExpression

  /** The target of a member or index access is the namespace itself, unshadowed. */
  predicate OnNamespace(target: Expr, ns: string, bound: set<string>) {
    target == Var(ns) && ns !in bound
  }

  // ----- The scan, as the walk of collectSheetReferences -----

  function Refs(fo: FloatOps, e: Expr, ns: string, bound: set<string>): set<string> {
    match e
    case Const(_) | Var(_) => {}
    case Unary(_, a) => Refs(fo, a, ns, bound)
    case Infix(_, l, r) => Refs(fo, l, ns, bound) + Refs(fo, r, ns, bound)
    case Member(t, n, _) => if OnNamespace(t, ns, bound) then {n} else Refs(fo, t, ns, bound)
    case IndexE(t, i, _) =>
      if OnNamespace(t, ns, bound) then
        var key := Fold.FoldConstants(fo, i);
        if key.Const? && key.c.CStr? then {key.c.s} else {}
      else Refs(fo, t, ns, bound) + Refs(fo, i, ns, bound)
    case SliceE(t, lo, hi) => Refs(fo, t, ns, bound) + OptRefs(fo, lo, ns, bound) + OptRefs(fo, hi, ns, bound)
    case ListE(es) => AllRefs(fo, es, ns, bound)
    case MapE(es) => EntryRefs(fo, es, ns, bound)
    case Lambda(ps, b) => Refs(fo, b, ns, bound + InFrame(ps))
    case Let(x, v, b) => Refs(fo, v, ns, bound) + Refs(fo, b, ns, bound + {x})
    case Conditional(c, t, f) => Refs(fo, c, ns, bound) + Refs(fo, t, ns, bound) + OptRefs(fo, f, ns, bound)
    case Call(f, args) => Refs(fo, f, ns, bound) + AllRefs(fo, args, ns, bound)
  }

  function OptRefs(fo: FloatOps, o: Option<Expr>, ns: string, bound: set<string>): set<string> {
    match o
    case Some(e) => Refs(fo, e, ns, bound)
    case None => {}
  }

  function AllRefs(fo: FloatOps, es: seq<Expr>, ns: string, bound: set<string>): set<string> {
    if es == [] then {} else Refs(fo, es[0], ns, bound) + AllRefs(fo, es[1..], ns, bound)
  }

  function EntryRefs(fo: FloatOps, es: seq<Entry>, ns: string, bound: set<string>): set<string> {
    if es == [] then {} else Refs(fo, es[0].value, ns, bound) + EntryRefs(fo, es[1..], ns, bound)
  }

  function FirstOf(a: Option<RefError>, b: Option<RefError>): Option<RefError> { if a.Some? then a else b }

  /** The first problem the scan meets. An `if` without else hands the scan no expression at all. */
  function RefProblem(fo: FloatOps, e: Expr, ns: string, bound: set<string>): Option<RefError> {
    match e
    case Const(_) | Var(_) => None
    case Unary(_, a) => RefProblem(fo, a, ns, bound)
    case Infix(_, l, r) => FirstOf(RefProblem(fo, l, ns, bound), RefProblem(fo, r, ns, bound))
    case Member(t, n, _) => if OnNamespace(t, ns, bound) then None else RefProblem(fo, t, ns, bound)
    case IndexE(t, i, _) =>
      if OnNamespace(t, ns, bound) then
        var key := Fold.FoldConstants(fo, i);
        if key.Const? && key.c.CStr? then None else Some(ComputedIndex)
      else FirstOf(RefProblem(fo, t, ns, bound), RefProblem(fo, i, ns, bound))
    case SliceE(t, lo, hi) =>
      FirstOf(RefProblem(fo, t, ns, bound), FirstOf(OptProblem(fo, lo, ns, bound), OptProblem(fo, hi, ns, bound)))
    case ListE(es) => AllProblem(fo, es, ns, bound)
    case MapE(es) => EntryProblem(fo, es, ns, bound)
    case Lambda(ps, b) => RefProblem(fo, b, ns, bound + InFrame(ps))
    case Let(x, v, b) => FirstOf(RefProblem(fo, v, ns, bound), RefProblem(fo, b, ns, bound + {x}))
    case Conditional(c, t, f) =>
      FirstOf(RefProblem(fo, c, ns, bound), FirstOf(RefProblem(fo, t, ns, bound),
        if f.None? then Some(NotAnExpression) else RefProblem(fo, f.value, ns, bound)))
    case Call(f, args) => FirstOf(RefProblem(fo, f, ns, bound), AllProblem(fo, args, ns, bound))
  }

  function OptProblem(fo: FloatOps, o: Option<Expr>, ns: string, bound: set<string>): Option<RefError> {
    match o
    case Some(e) => RefProblem(fo, e, ns, bound)
    case None => None
  }

  function AllProblem(fo: FloatOps, es: seq<Expr>, ns: string, bound: set<string>): Option<RefError> {
    if es == [] then None else FirstOf(RefProblem(fo, es[0], ns, bound), AllProblem(fo, es[1..], ns, bound))
  }

  function EntryProblem(fo: FloatOps, es: seq<Entry>, ns: string, bound: set<string>): Option<RefError> {
    if es == [] then None else FirstOf(RefProblem(fo, es[0].value, ns, bound), EntryProblem(fo, es[1..], ns, bound))
  }

  // ----- The scan as it works -----

  class RefCollector {
    const fo: FloatOps
    const namespace: string
    var refs: set<string>
    var err: Option<RefError>

    constructor (fo: FloatOps, namespace: string)
      ensures this.fo == fo && this.namespace == namespace && refs == {} && err == None
    {
      this.fo, this.namespace := fo, namespace;
      refs, err := {}, None;
    }

    /** The first failure is the one that is kept. */
    method Fail(e: RefError)
      modifies this`err
      ensures err == FirstOf(old(err), Some(e))
    {
      if err.None? { err := Some(e); }
    }

    method IndexReference(target: Expr, index: Expr, bound: set<string>) returns (handled: bool)
      modifies this
      ensures handled == OnNamespace(target, namespace, bound)
      ensures !handled ==> refs == old(refs) && err == old(err)
      ensures handled ==> forall optional ::
        && refs == old(refs) + Refs(fo, IndexE(target, index, optional), namespace, bound)
        && err == FirstOf(old(err), RefProblem(fo, IndexE(target, index, optional), namespace, bound))
    {
      if !(target.Var? && target.name == namespace && namespace !in bound) { return false; }
      var key := Fold.FoldConstants(fo, index);
      if key.Const? && key.c.CStr? {
        refs := refs + {key.c.s};
        return true;
      }
      Fail(ComputedIndex);
      return true;
    }

    method Collect(e: Expr, bound: set<string>)
      modifies this
      ensures refs == old(refs) + Refs(fo, e, namespace, bound)
      ensures err == FirstOf(old(err), RefProblem(fo, e, namespace, bound))
      decreases e
    {
      match e {
        case Const(_) =>
        case Var(_) =>
        case Unary(_, a) => Collect(a, bound);
        case Infix(_, l, r) =>
          Collect(l, bound);
          Collect(r, bound);
        case Call(f, args) =>
          Collect(f, bound);
          CollectAll(args, bound);
        case Member(t, n, _) =>
          if t.Var? && t.name == namespace && namespace !in bound {
            refs := refs + {n};
            return;
          }
          Collect(t, bound);
        case IndexE(t, i, optional) =>
          var handled := IndexReference(t, i, bound);
          if handled { return; }
          Collect(t, bound);
          Collect(i, bound);
        case Conditional(c, t, f) =>
          Collect(c, bound);
          Collect(t, bound);
          if f.Some? { Collect(f.value, bound); } else { Fail(NotAnExpression); }
        case ListE(es) => CollectAll(es, bound);
        case MapE(es) => CollectEntries(es, bound);
        case SliceE(t, lo, hi) =>
          Collect(t, bound);
          if lo.Some? { Collect(lo.value, bound); }
          if hi.Some? { Collect(hi.value, bound); }
        case Lambda(ps, b) => Collect(b, bound + InFrame(ps));
        case Let(x, v, b) =>
          Collect(v, bound);
          Collect(b, bound + {x});
      }
    }

    method CollectAll(es: seq<Expr>, bound: set<string>)
      modifies this
      ensures refs == old(refs) + AllRefs(fo, es, namespace, bound)
      ensures err == FirstOf(old(err), AllProblem(fo, es, namespace, bound))
      decreases es
    {
      for i := 0 to |es|
        invariant refs + AllRefs(fo, es[i..], namespace, bound) == old(refs) + AllRefs(fo, es, namespace, bound)
        invariant FirstOf(err, AllProblem(fo, es[i..], namespace, bound)) ==
            FirstOf(old(err), AllProblem(fo, es, namespace, bound))
      {
        Collect(es[i], bound);
        assert es[i..][1..] == es[i + 1..];
      }
    }

    method CollectEntries(es: seq<Entry>, bound: set<string>)
      modifies this
      ensures refs == old(refs) + EntryRefs(fo, es, namespace, bound)
      ensures err == FirstOf(old(err), EntryProblem(fo, es, namespace, bound))
      decreases es
    {
      for i := 0 to |es|
        invariant refs + EntryRefs(fo, es[i..], namespace, bound) == old(refs) + EntryRefs(fo, es, namespace, bound)
        invariant FirstOf(err, EntryProblem(fo, es[i..], namespace, bound)) ==
            FirstOf(old(err), EntryProblem(fo, es, namespace, bound))
      {
        Collect(es[i].value, bound);
        assert es[i..][1..] == es[i + 1..];
      }
    }
  }

  method SheetReferences(fo: FloatOps, e: Expr, ns: string) returns (r: Found)
    ensures r == match RefProblem(fo, e, ns, {}) case Some(p) => Broken(p) case None => Cells(Refs(fo, e, ns, {}))
  {
    var c := new RefCollector(fo, ns);
    c.Collect(e, {});
    if c.err.Some? { return Broken(c.err.value); }
    return Cells(c.refs);
  }

  datatype Found = Cells(names: set<string>) | Broken(problem: RefError)

  // ----- The scan agrees with the compiler's own scoping -----

  /** x is e or a sub-expression of it, and xn is what the compiler has bound around it when names
      is bound around e. */
  ghost predicate Occurs(x: Expr, xn: Names, e: Expr, names: Names) {
    (x == e && xn == names) ||
    match e
    case Const(_) | Var(_) => false
    case Unary(_, a) => Occurs(x, xn, a, names)
    case Infix(_, l, r) => Occurs(x, xn, l, names) || Occurs(x, xn, r, names)
    case Member(t, _, _) => Occurs(x, xn, t, names)
    case IndexE(t, i, _) => Occurs(x, xn, t, names) || Occurs(x, xn, i, names)
    case SliceE(t, lo, hi) =>
      Occurs(x, xn, t, names) || (lo.Some? && Occurs(x, xn, lo.value, names)) ||
        (hi.Some? && Occurs(x, xn, hi.value, names))
    case ListE(es) => exists i :: 0 <= i < |es| && Occurs(x, xn, es[i], names)
    case MapE(es) => exists i :: 0 <= i < |es| && Occurs(x, xn, es[i].value, names)
    case Lambda(ps, b) => Occurs(x, xn, b, names + [ps])
    case Let(y, v, b) => Occurs(x, xn, v, names) || Occurs(x, xn, b, names + [[y]])
    case Conditional(c, t, f) =>
      Occurs(x, xn, c, names) || Occurs(x, xn, t, names) || (f.Some? && Occurs(x, xn, f.value, names))
    case Call(f, args) => Occurs(x, xn, f, names) || exists i :: 0 <= i < |args| && Occurs(x, xn, args[i], names)
  }

  /** The compiler looks the namespace up by name here rather than addressing a local. */
  predicate Unshadowed(xn: Names, ns: string) { Resolve(xn, ns).None? }

  function KeyOf(fo: FloatOps, i: Expr): Option<string> {
    var key := Fold.FoldConstants(fo, i);
    if key.Const? && key.c.CStr? then Some(key.c.s) else None
  }

  /** x is `ns.n`, `ns?.n`, or `ns[i]` or `ns?.[i]` with i a constant equal to n. */
  predicate ReadsCell(fo: FloatOps, x: Expr, xn: Names, ns: string, n: string) {
    && Unshadowed(xn, ns)
    && ((x.Member? && x.target == Var(ns) && x.member == n) ||
        (x.IndexE? && x.target == Var(ns) && KeyOf(fo, x.index) == Some(n)))
  }

  /** x is `ns[i]` or `ns?.[i]` with i not a constant string, or an `if` without else. */
  predicate Unreadable(fo: FloatOps, x: Expr, xn: Names, ns: string) {
    (x.IndexE? && x.target == Var(ns) && Unshadowed(xn, ns) && KeyOf(fo, x.index).None?) ||
    (x.Conditional? && x.orElse.None?)
  }

  lemma {:induction false} LiteralOccurs(fo: FloatOps, x: Expr, xn: Names, e: Expr, names: Names)
    requires Fold.FoldConstants(fo, e).Const? && Occurs(x, xn, e, names)
    ensures x.Const? || x.Unary? || x.Infix?
  {
    match e
    case Const(_) =>
    case Unary(_, a) => if x != e || xn != names { LiteralOccurs(fo, x, xn, a, names); }
    case Infix(_, l, r) =>
      if x != e || xn != names {
        if Occurs(x, xn, l, names) { LiteralOccurs(fo, x, xn, l, names); } else { LiteralOccurs(fo, x, xn, r, names); }
      }
  }

  lemma {:induction false} AllAt(fo: FloatOps, es: seq<Expr>, ns: string, bound: set<string>, i: nat)
    requires i < |es|
    ensures Refs(fo, es[i], ns, bound) <= AllRefs(fo, es, ns, bound)
    ensures RefProblem(fo, es[i], ns, bound).Some? ==> AllProblem(fo, es, ns, bound).Some?
  {
    if i > 0 { AllAt(fo, es[1..], ns, bound, i - 1); }
  }

  lemma {:induction false} EntriesAt(fo: FloatOps, es: seq<Entry>, ns: string, bound: set<string>, i: nat)
    requires i < |es|
    ensures Refs(fo, es[i].value, ns, bound) <= EntryRefs(fo, es, ns, bound)
    ensures RefProblem(fo, es[i].value, ns, bound).Some? ==> EntryProblem(fo, es, ns, bound).Some?
  {
    if i > 0 { EntriesAt(fo, es[1..], ns, bound, i - 1); }
  }

  /** Nothing the compiler would look up in the namespace escapes the scan. */
  lemma {:induction false} ScanMissesNothing(fo: FloatOps, x: Expr, xn: Names, e: Expr, names: Names, ns: string)
    requires Occurs(x, xn, e, names)
    ensures Unreadable(fo, x, xn, ns) ==> RefProblem(fo, e, ns, BoundBy(names)).Some?
    ensures forall n :: ReadsCell(fo, x, xn, ns, n) && RefProblem(fo, e, ns, BoundBy(names)).None? ==>
        n in Refs(fo, e, ns, BoundBy(names))
    decreases e
  {
    ResolveBound(names, ns);
    if x != e || xn != names {
      match e
      case Unary(_, a) => ScanMissesNothing(fo, x, xn, a, names, ns);
      case Infix(_, l, r) =>
        if Occurs(x, xn, l, names) {
          ScanMissesNothing(fo, x, xn, l, names, ns);
        } else {
          ScanMissesNothing(fo, x, xn, r, names, ns);
        }
      case Member(t, _, _) => ScanMissesNothing(fo, x, xn, t, names, ns);
      case IndexE(t, i, _) =>
        if Occurs(x, xn, t, names) {
          ScanMissesNothing(fo, x, xn, t, names, ns);
        } else if KeyOf(fo, i).Some? {
          LiteralOccurs(fo, x, xn, i, names);
        } else {
          ScanMissesNothing(fo, x, xn, i, names, ns);
        }
      case SliceE(t, lo, hi) =>
        if Occurs(x, xn, t, names) { ScanMissesNothing(fo, x, xn, t, names, ns); }
        else if lo.Some? && Occurs(x, xn, lo.value, names) { ScanMissesNothing(fo, x, xn, lo.value, names, ns); }
        else { ScanMissesNothing(fo, x, xn, hi.value, names, ns); }
      case ListE(es) =>
        var i :| 0 <= i < |es| && Occurs(x, xn, es[i], names);
        ScanMissesNothing(fo, x, xn, es[i], names, ns);
        AllAt(fo, es, ns, BoundBy(names), i);
      case MapE(es) =>
        var i :| 0 <= i < |es| && Occurs(x, xn, es[i].value, names);
        ScanMissesNothing(fo, x, xn, es[i].value, names, ns);
        EntriesAt(fo, es, ns, BoundBy(names), i);
      case Lambda(ps, b) =>
        InnerBound(names, ps);
        ScanMissesNothing(fo, x, xn, b, names + [ps], ns);
      case Let(y, v, b) =>
        InnerLet(names, y);
        if Occurs(x, xn, v, names) {
          ScanMissesNothing(fo, x, xn, v, names, ns);
        } else {
          ScanMissesNothing(fo, x, xn, b, names + [[y]], ns);
        }
      case Conditional(c, t, f) =>
        if Occurs(x, xn, c, names) { ScanMissesNothing(fo, x, xn, c, names, ns); }
        else if Occurs(x, xn, t, names) { ScanMissesNothing(fo, x, xn, t, names, ns); }
        else { ScanMissesNothing(fo, x, xn, f.value, names, ns); }
      case Call(f, args) =>
        if Occurs(x, xn, f, names) {
          ScanMissesNothing(fo, x, xn, f, names, ns);
        } else {
          var i :| 0 <= i < |args| && Occurs(x, xn, args[i], names);
          ScanMissesNothing(fo, x, xn, args[i], names, ns);
          AllAt(fo, args, ns, BoundBy(names), i);
        }
    }
  }

  lemma InnerLet(names: Names, y: string)
    ensures BoundBy(names + [[y]]) == BoundBy(names) + {y}
  {
    InnerBound(names, [y]);
  }

  /** Every reported cell is read at some occurrence the compiler resolves by name. */
  lemma {:induction false} ScanInventsNothing(fo: FloatOps, e: Expr, names: Names, ns: string, n: string)
    returns (x: Expr, xn: Names)
    requires n in Refs(fo, e, ns, BoundBy(names))
    ensures Occurs(x, xn, e, names) && ReadsCell(fo, x, xn, ns, n)
    decreases e, 1
  {
    ResolveBound(names, ns);
    x, xn := e, names;
    var bound := BoundBy(names);
    match e
    case Unary(_, a) => x, xn := ScanInventsNothing(fo, a, names, ns, n);
    case Infix(_, l, r) =>
      if n in Refs(fo, l, ns, bound) {
        x, xn := ScanInventsNothing(fo, l, names, ns, n);
      } else {
        x, xn := ScanInventsNothing(fo, r, names, ns, n);
      }
    case Member(t, _, _) =>
      if !OnNamespace(t, ns, bound) { x, xn := ScanInventsNothing(fo, t, names, ns, n); }
    case IndexE(t, i, _) =>
      if !OnNamespace(t, ns, bound) {
        if n in Refs(fo, t, ns, bound) {
          x, xn := ScanInventsNothing(fo, t, names, ns, n);
        } else {
          x, xn := ScanInventsNothing(fo, i, names, ns, n);
        }
      }
    case SliceE(t, lo, hi) =>
      if n in Refs(fo, t, ns, bound) { x, xn := ScanInventsNothing(fo, t, names, ns, n); }
      else if n in OptRefs(fo, lo, ns, bound) { x, xn := ScanInventsNothing(fo, lo.value, names, ns, n); }
      else { x, xn := ScanInventsNothing(fo, hi.value, names, ns, n); }
    case ListE(es) =>
      var i := FindRef(fo, es, ns, bound, n);
      x, xn := ScanInventsNothing(fo, es[i], names, ns, n);
    case MapE(es) =>
      var i := FindEntryRef(fo, es, ns, bound, n);
      x, xn := ScanInventsNothing(fo, es[i].value, names, ns, n);
    case Lambda(ps, b) =>
      InnerBound(names, ps);
      x, xn := ScanInventsNothing(fo, b, names + [ps], ns, n);
    case Let(y, v, b) =>
      InnerLet(names, y);
      if n in Refs(fo, v, ns, bound) {
        x, xn := ScanInventsNothing(fo, v, names, ns, n);
      } else {
        x, xn := ScanInventsNothing(fo, b, names + [[y]], ns, n);
      }
    case Conditional(c, t, f) =>
      if n in Refs(fo, c, ns, bound) { x, xn := ScanInventsNothing(fo, c, names, ns, n); }
      else if n in Refs(fo, t, ns, bound) { x, xn := ScanInventsNothing(fo, t, names, ns, n); }
      else { x, xn := ScanInventsNothing(fo, f.value, names, ns, n); }
    case Call(f, args) =>
      if n in Refs(fo, f, ns, bound) {
        x, xn := ScanInventsNothing(fo, f, names, ns, n);
      } else {
        var i := FindRef(fo, args, ns, bound, n);
        x, xn := ScanInventsNothing(fo, args[i], names, ns, n);
      }
  }

  lemma {:induction false} FindRef(fo: FloatOps, es: seq<Expr>, ns: string, bound: set<string>, n: string)
    returns (i: nat)
    requires n in AllRefs(fo, es, ns, bound)
    ensures i < |es| && n in Refs(fo, es[i], ns, bound)
  {
    if n in Refs(fo, es[0], ns, bound) { return 0; }
    var k := FindRef(fo, es[1..], ns, bound, n);
    return k + 1;
  }

  lemma {:induction false} FindEntryRef(fo: FloatOps, es: seq<Entry>, ns: string, bound: set<string>, n: string)
    returns (i: nat)
    requires n in EntryRefs(fo, es, ns, bound)
    ensures i < |es| && n in Refs(fo, es[i].value, ns, bound)
  {
    if n in Refs(fo, es[0].value, ns, bound) { return 0; }
    var k := FindEntryRef(fo, es[1..], ns, bound, n);
    return k + 1;
  }

  /** Every failure of the scan has a cause in the expression. */
  lemma {:induction false} ScanFailsForCause(fo: FloatOps, e: Expr, names: Names, ns: string)
    returns (x: Expr, xn: Names)
    requires RefProblem(fo, e, ns, BoundBy(names)).Some?
    ensures Occurs(x, xn, e, names) && Unreadable(fo, x, xn, ns)
    decreases e, 1
  {
    ResolveBound(names, ns);
    x, xn := e, names;
    var bound := BoundBy(names);
    match e
    case Unary(_, a) => x, xn := ScanFailsForCause(fo, a, names, ns);
    case Infix(_, l, r) =>
      if RefProblem(fo, l, ns, bound).Some? {
        x, xn := ScanFailsForCause(fo, l, names, ns);
      } else {
        x, xn := ScanFailsForCause(fo, r, names, ns);
      }
    case Member(t, _, _) => x, xn := ScanFailsForCause(fo, t, names, ns);
    case IndexE(t, i, _) =>
      if !OnNamespace(t, ns, bound) {
        if RefProblem(fo, t, ns, bound).Some? {
          x, xn := ScanFailsForCause(fo, t, names, ns);
        } else {
          x, xn := ScanFailsForCause(fo, i, names, ns);
        }
      }
    case SliceE(t, lo, hi) =>
      if RefProblem(fo, t, ns, bound).Some? { x, xn := ScanFailsForCause(fo, t, names, ns); }
      else if OptProblem(fo, lo, ns, bound).Some? { x, xn := ScanFailsForCause(fo, lo.value, names, ns); }
      else { x, xn := ScanFailsForCause(fo, hi.value, names, ns); }
    case ListE(es) =>
      var i := FindProblem(fo, es, ns, bound);
      x, xn := ScanFailsForCause(fo, es[i], names, ns);
    case MapE(es) =>
      var i := FindEntryProblem(fo, es, ns, bound);
      x, xn := ScanFailsForCause(fo, es[i].value, names, ns);
    case Lambda(ps, b) =>
      InnerBound(names, ps);
      x, xn := ScanFailsForCause(fo, b, names + [ps], ns);
    case Let(y, v, b) =>
      InnerLet(names, y);
      if RefProblem(fo, v, ns, bound).Some? {
        x, xn := ScanFailsForCause(fo, v, names, ns);
      } else {
        x, xn := ScanFailsForCause(fo, b, names + [[y]], ns);
      }
    case Conditional(c, t, f) =>
      if f.None? { return; }
      if RefProblem(fo, c, ns, bound).Some? { x, xn := ScanFailsForCause(fo, c, names, ns); }
      else if RefProblem(fo, t, ns, bound).Some? { x, xn := ScanFailsForCause(fo, t, names, ns); }
      else { x, xn := ScanFailsForCause(fo, f.value, names, ns); }
    case Call(f, args) =>
      if RefProblem(fo, f, ns, bound).Some? {
        x, xn := ScanFailsForCause(fo, f, names, ns);
      } else {
        var i := FindProblem(fo, args, ns, bound);
        x, xn := ScanFailsForCause(fo, args[i], names, ns);
      }
  }

  lemma {:induction false} FindProblem(fo: FloatOps, es: seq<Expr>, ns: string, bound: set<string>) returns (i: nat)
    requires AllProblem(fo, es, ns, bound).Some?
    ensures i < |es| && RefProblem(fo, es[i], ns, bound).Some?
  {
    if RefProblem(fo, es[0], ns, bound).Some? { return 0; }
    var k := FindProblem(fo, es[1..], ns, bound);
    return k + 1;
  }

  lemma {:induction false} FindEntryProblem(fo: FloatOps, es: seq<Entry>, ns: string, bound: set<string>)
    returns (i: nat)
    requires EntryProblem(fo, es, ns, bound).Some?
    ensures i < |es| && RefProblem(fo, es[i].value, ns, bound).Some?
  {
    if RefProblem(fo, es[0].value, ns, bound).Some? { return 0; }
    var k := FindEntryProblem(fo, es[1..], ns, bound);
    return k + 1;
  }

  /** The scan fails exactly when some index of the unshadowed namespace is not a constant string
      or, as it is written, some `if` has no else. */
  lemma ScanFailsExactly(fo: FloatOps, e: Expr, ns: string)
    ensures RefProblem(fo, e, ns, {}).Some? <==> exists x, xn :: Occurs(x, xn, e, []) && Unreadable(fo, x, xn, ns)
  {
    assert BoundBy([]) == {};
    if RefProblem(fo, e, ns, {}).Some? {
      var x, xn := ScanFailsForCause(fo, e, [], ns);
    }
    forall x, xn | Occurs(x, xn, e, []) && Unreadable(fo, x, xn, ns) ensures RefProblem(fo, e, ns, {}).Some? {
      ScanMissesNothing(fo, x, xn, e, [], ns);
    }
  }

  /** When it does not fail, it reports exactly the cells read at the occurrences of the namespace
      that the compiler resolves by name. */
  lemma ScanExact(fo: FloatOps, e: Expr, ns: string, n: string)
    requires RefProblem(fo, e, ns, {}).None?
    ensures n in Refs(fo, e, ns, {}) <==> exists x, xn :: Occurs(x, xn, e, []) && ReadsCell(fo, x, xn, ns, n)
  {
    assert BoundBy([]) == {};
    if n in Refs(fo, e, ns, {}) {
      var x, xn := ScanInventsNothing(fo, e, [], ns, n);
    }
    forall x, xn | Occurs(x, xn, e, []) && ReadsCell(fo, x, xn, ns, n) ensures n in Refs(fo, e, ns, {}) {
      ScanMissesNothing(fo, x, xn, e, [], ns);
    }
  }

  /** The refusal that the language itself does not call for: `if c t` means nil when c is false. */
  lemma MissingElseRefused(fo: FloatOps, ns: string, c: Expr, t: Expr)
    requires RefProblem(fo, c, ns, {}).None? && RefProblem(fo, t, ns, {}).None?
    ensures RefProblem(fo, Conditional(c, t, None), ns, {}) == Some(NotAnExpression)
    ensures RefProblem(fo, Conditional(c, t, Some(Const(CNil))), ns, {}) == None
    ensures FormOf(Conditional(c, t, None)) == FormOf(Conditional(c, t, Some(Const(CNil))))
  {
    assert RefProblem(fo, Const(CNil), ns, {}) == None;
  }
}
