// Sheets: a run in any admissible order finds the one solution of the cells' equations.

module Sheet {
  import opened Values
  import opened Mapping
  import opened Syntax
  import opened CompilerSpec
  import opened Semantics
  import opened FreeNames
  import opened SheetRefs
  import opened SheetCells

  datatype Cell = Cell(name: string, body: Expr)

  /** The namespace is used only as the target of a member or index access, never as a whole. */
  predicate NoBareUse(e: Expr, ns: string, bound: set<string>) {
    match e
    case Const(_) => true
    case Var(x) => x != ns || x in bound
    case Unary(_, a) => NoBareUse(a, ns, bound)
    case Infix(_, l, r) => NoBareUse(l, ns, bound) && NoBareUse(r, ns, bound)
    case Member(t, _, _) => OnNamespace(t, ns, bound) || NoBareUse(t, ns, bound)
    case IndexE(t, i, _) => OnNamespace(t, ns, bound) || (NoBareUse(t, ns, bound) && NoBareUse(i, ns, bound))
    case SliceE(t, lo, hi) =>
      && NoBareUse(t, ns, bound)
      && (lo.Some? ==> NoBareUse(lo.value, ns, bound)) && (hi.Some? ==> NoBareUse(hi.value, ns, bound))
    case ListE(es) => forall i :: 0 <= i < |es| ==> NoBareUse(es[i], ns, bound)
    case MapE(es) => forall i :: 0 <= i < |es| ==> NoBareUse(es[i].value, ns, bound)
    case Lambda(ps, b) => NoBareUse(b, ns, bound + InFrame(ps))
    case Let(x, v, b) => NoBareUse(v, ns, bound) && NoBareUse(b, ns, bound + {x})
    case Conditional(c, t, f) =>
      NoBareUse(c, ns, bound) && NoBareUse(t, ns, bound) && (f.Some? ==> NoBareUse(f.value, ns, bound))
    case Call(f, args) => NoBareUse(f, ns, bound) && forall i :: 0 <= i < |args| ==> NoBareUse(args[i], ns, bound)
  }

  /** What the static scan established about e: it reads cells only, and only those of the zone. */
  ghost predicate Scanned(z: Zone, e: Expr, names: Names) {
    && NoBareUse(e, z.ns, BoundBy(names))
    && RefProblem(z.fo, e, z.ns, BoundBy(names)).None?
    && Refs(z.fo, e, z.ns, BoundBy(names)) <= z.cells
  }

  /** A scanned expression is confined, all the way into its lambdas and bodies. */
  lemma {:induction false} ScannedConfined(z: Zone, e: Expr, names: Names)
    requires Scanned(z, e, names)
    ensures Confined(z, e, names)
    decreases e, 1
  {
    FormSmaller(e);
    match e
    case Const(_) =>
    case Var(_) => ResolveBound(names, z.ns);
    case Unary(_, a) =>
      ScannedConfined(z, a, names);
      ConfinedList(z, One(a), names);
    case Infix(op, l, r) =>
      ScannedConfined(z, l, names);
      ScannedConfined(z, r, names);
      ConfinedInfix(z, op, l, r, names);
    case Member(_, _, _) => ScannedAccess(z, e, names);
    case IndexE(_, _, _) => ScannedAccess(z, e, names);
    case SliceE(_, _, _) => ScannedAccess(z, e, names);
    case ListE(es) =>
      ScannedAll(z, es, names);
      ConfinedList(z, Many(es), names);
    case MapE(es) =>
      ScannedEntries(z, es, names);
      ConfinedList(z, Pairs(es), names);
    case Lambda(ps, b) =>
      InnerBound(names, ps);
      ScannedConfined(z, b, names + [ps]);
    case Let(x, v, b) =>
      InnerLet(names, x);
      ScannedConfined(z, v, names);
      ScannedConfined(z, b, names + [[x]]);
    case Conditional(c, t, f) =>
      ScannedConfined(z, c, names);
      ScannedConfined(z, t, names);
      ScannedOption(z, f, names);
    case Call(f, args) =>
      ScannedConfined(z, f, names);
      ScannedAll(z, args, names);
      ConfinedList(z, Callee(f, args), names);
  }

  lemma {:induction false} ScannedAccess(z: Zone, e: Expr, names: Names)
    requires Scanned(z, e, names) && (e.Member? || e.IndexE? || e.SliceE?)
    ensures Confined(z, e, names)
    decreases e, 0
  {
    FormSmaller(e);
    ResolveBound(names, z.ns);
    match e
    case Member(t, _, _) =>
      if !OnNamespace(t, z.ns, BoundBy(names)) { ScannedConfined(z, t, names); }
      ConfinedList(z, One(t), names);
    case IndexE(t, i, _) =>
      if !OnNamespace(t, z.ns, BoundBy(names)) {
        ScannedConfined(z, t, names);
        ScannedConfined(z, i, names);
        ConfinedTwo(z, t, i, names);
      }
    case SliceE(t, lo, hi) =>
      ScannedConfined(z, t, names);
      ScannedOption(z, lo, names);
      ScannedOption(z, hi, names);
      ConfinedThree(z, t, OrNil(lo), OrNil(hi), names);
  }

  lemma ConfinedInfix(z: Zone, op: InfixOp, l: Expr, r: Expr, names: Names)
    requires Confined(z, l, names) && Confined(z, r, names)
    ensures Confined(z, Infix(op, l, r), names)
  {
    FormSmaller(Infix(op, l, r));
    match op
    case Or => ConfinedConstant(z, CBool(true), names);
    case And => ConfinedConstant(z, CBool(false), names);
    case Coalesce =>
    case MatchesOp =>
      if PatternOf(r) != r { ConfinedConstant(z, PatternOf(r).c, names); }
      ConfinedTwo(z, l, PatternOf(r), names);
    case _ => ConfinedTwo(z, l, r, names);
  }

  lemma ConfinedConstant(z: Zone, c: Values.Const, names: Names)
    ensures Confined(z, Const(c), names)
  {
    FormSmaller(Const(c));
  }

  lemma ConfinedList(z: Zone, o: Operands, names: Names)
    ensures ConfinedOps(z, o, names) == ConfinedAll(z, ListOf(o), names)
    ensures o.One? ==> ConfinedOps(z, o, names) == Confined(z, o.a, names)
    ensures o.Callee? ==> ConfinedOps(z, o, names) == (Confined(z, o.f, names) && ConfinedAll(z, o.args, names))
  {
    ListSize(o);
    if o.One? {
      assert ConfinedAll(z, [o.a][1..], names);
    } else if o.Callee? {
      assert ([o.f] + o.args)[1..] == o.args;
    }
  }

  lemma ConfinedTwo(z: Zone, a: Expr, b: Expr, names: Names)
    ensures ConfinedOps(z, Two(a, b), names) == (Confined(z, a, names) && Confined(z, b, names))
  {
    ListSize(Two(a, b));
    ConfinedList(z, One(b), names);
    assert [a, b][1..] == [b];
  }

  lemma ConfinedThree(z: Zone, a: Expr, b: Expr, c: Expr, names: Names)
    ensures ConfinedOps(z, Three(a, b, c), names) ==
        (Confined(z, a, names) && Confined(z, b, names) && Confined(z, c, names))
  {
    ListSize(Three(a, b, c));
    ConfinedList(z, Two(b, c), names);
    ConfinedTwo(z, b, c, names);
    assert [a, b, c][1..] == [b, c];
  }

  lemma {:induction false} ScannedOption(z: Zone, o: Option<Expr>, names: Names)
    requires o.Some? ==> NoBareUse(o.value, z.ns, BoundBy(names))
    requires OptProblem(z.fo, o, z.ns, BoundBy(names)).None? && OptRefs(z.fo, o, z.ns, BoundBy(names)) <= z.cells
    ensures Confined(z, OrNil(o), names)
    decreases o
  {
    ConfinedConstant(z, CNil, names);
    if o.Some? { ScannedConfined(z, o.value, names); }
  }

  lemma {:induction false} ScannedAll(z: Zone, es: seq<Expr>, names: Names)
    requires forall i :: 0 <= i < |es| ==> NoBareUse(es[i], z.ns, BoundBy(names))
    requires AllProblem(z.fo, es, z.ns, BoundBy(names)).None? && AllRefs(z.fo, es, z.ns, BoundBy(names)) <= z.cells
    ensures ConfinedAll(z, es, names)
    decreases es
  {
    if es != [] {
      ScannedConfined(z, es[0], names);
      ScannedAll(z, es[1..], names);
    }
  }

  lemma {:induction false} ScannedEntries(z: Zone, es: seq<Entry>, names: Names)
    requires forall i :: 0 <= i < |es| ==> NoBareUse(es[i].value, z.ns, BoundBy(names))
    requires EntryProblem(z.fo, es, z.ns, BoundBy(names)).None? && EntryRefs(z.fo, es, z.ns, BoundBy(names)) <= z.cells
    ensures ConfinedAll(z, Interleave(es), names)
    decreases es
  {
    if es != [] {
      ScannedConfined(z, es[0].value, names);
      ScannedEntries(z, es[1..], names);
      var rest := Interleave(es[1..]);
      ConfinedConstant(z, CStr(es[0].key), names);
      assert Interleave(es)[0] == Const(CStr(es[0].key));
      assert Interleave(es)[1..] == [es[0].value] + rest && Interleave(es)[1..][1..] == rest;
    }
  }

  // ----- A run -----

  function NamesOfCells(cells: seq<Cell>): set<string> { set i | 0 <= i < |cells| :: cells[i].name }

  /** What a cell sees: the results map under the namespace, then the caller's environment. */
  function CellScopes<F>(ns: string, handle: int, env: Scopes<F>): Scopes<F> {
    Layer(map[ns := HostV(handle)], env)
  }

  /** Everything a run of a sheet is given, but its cells. */
  datatype Setting = Setting(host: Hosts<Lam>, limit: nat, ns: string, handle: int, env: Scopes<Lam>, depth: nat)

  function CellValue(s: Setting, results: map<string, Val>, body: Expr): Outcome<Val> {
    Eval(SheetHost(s.host, s.handle, results), s.limit, body, CellScopes(s.ns, s.handle, s.env), Root, s.depth)
  }

  /** Cells in the given order, each adding its value to the results the next ones see. */
  function RunCells(s: Setting, cells: seq<Cell>): Outcome<map<string, Val>> {
    if cells == [] then Ok(map[]) else
    var last := cells[|cells| - 1];
    match RunCells(s, cells[..|cells| - 1])
    case Err(e) => Err(e)
    case Ok(r) =>
      match CellValue(s, r, last.body)
      case Err(e) => Err(e)
      case Ok(v) => Ok(r[last.name := v])
  }

  /** Every cell has one value, and it is the value of its expression with the namespace bound to
      the complete map of those values. */
  ghost predicate Solution(s: Setting, cells: seq<Cell>, c: map<string, Val>) {
    c.Keys == NamesOfCells(cells) && forall i :: 0 <= i < |cells| ==>
      CellValue(s, c, cells[i].body) == Ok(c[cells[i].name])
  }

  function ZoneOf(s: Setting, cells: seq<Cell>): Zone { Zone(s.host(map[]).float, s.ns, s.handle, NamesOfCells(cells)) }

  /** Distinct names, and each cell reads only cells listed before it. */
  ghost predicate Arranged(s: Setting, cells: seq<Cell>) {
    && (forall i, j :: 0 <= i < j < |cells| ==> cells[i].name != cells[j].name)
    && (forall i :: 0 <= i < |cells| ==> Scanned(ZoneOf(s, cells[..i]), cells[i].body, []))
  }

  /** The host and the environment hold no handle to the results map of this run. */
  ghost predicate Apart(s: Setting) {
    Discreet(s.host, s.handle) && Plain(ZoneOf(s, []), s.env)
  }

  lemma {:induction false} ConfinedWider(z: Zone, z': Zone, e: Expr, names: Names)
    requires Confined(z, e, names) && z' == z.(cells := z'.cells) && z.cells <= z'.cells
    ensures Confined(z', e, names)
    decreases Size(e), 1
  {
    FormSmaller(e);
    FormWider(z, z', FormOf(e), names);
  }

  lemma {:induction false} FormWider(z: Zone, z': Zone, f: Form, names: Names)
    requires ConfinedForm(z, f, names) && z' == z.(cells := z'.cells) && z.cells <= z'.cells
    ensures ConfinedForm(z', f, names)
    decreases FormSize(f), 4
  {
    if CellRead(z, f, names).None? {
      match f
      case Constant(_) | Name(_) =>
      case Closure(ps, b) => ConfinedWider(z, z', b, names + [ps]);
      case Binding(x, v, b) => ConfinedWider(z, z', v, names); ConfinedWider(z, z', b, names + [[x]]);
      case Branch(c, y, n) =>
        ConfinedWider(z, z', c, names);
        ConfinedWider(z, z', y, names);
        ConfinedWider(z, z', n, names);
      case Fallback(l, r) => ConfinedWider(z, z', l, names); ConfinedWider(z, z', r, names);
      case Invoke(o) => ListSize(o); AllWider(z, z', ListOf(o), names);
      case Strict(_, o) => ListSize(o); AllWider(z, z', ListOf(o), names);
    }
  }

  lemma {:induction false} AllWider(z: Zone, z': Zone, es: seq<Expr>, names: Names)
    requires ConfinedAll(z, es, names) && z' == z.(cells := z'.cells) && z.cells <= z'.cells
    ensures ConfinedAll(z', es, names)
    decreases SizeAll(es), 2
  {
    if es != [] {
      ConfinedWider(z, z', es[0], names);
      AllWider(z, z', es[1..], names);
    }
  }

  lemma {:induction false} GoodWider(z: Zone, z': Zone, v: Val)
    requires Good(z, v) && z' == z.(cells := z'.cells) && z.cells <= z'.cells
    ensures Good(z', v)
    decreases v
  {
    match v
    case Lit(_) | HostV(_) =>
    case ListV(xs) => forall i | 0 <= i < |xs| ensures Good(z', xs[i]) { GoodWider(z, z', xs[i]); }
    case MapV(m) => forall k | k in m ensures Good(z', m[k]) { GoodWider(z, z', m[k]); }
    case Clo(f, sc, locals) =>
      LocalsWider(z, z', locals);
      if Shared(z, sc) {
        ConfinedWider(z, z', f.body, NamesOf(locals) + [f.params]);
        PlainWider(z, z', sc.outer);
      } else {
        PlainWider(z, z', sc);
      }
  }

  lemma {:induction false} LocalsWider(z: Zone, z': Zone, l: Env)
    requires GoodLocals(z, l) && z' == z.(cells := z'.cells) && z.cells <= z'.cells
    ensures GoodLocals(z', l)
    decreases l
  {
    if l.Frame? {
      LocalsWider(z, z', l.parent);
      forall i | 0 <= i < |l.binds| ensures Good(z', l.binds[i].value) { GoodWider(z, z', l.binds[i].value); }
    }
  }

  lemma {:induction false} PlainWider(z: Zone, z': Zone, sc: Scopes<Lam>)
    requires Plain(z, sc) && z' == z.(cells := z'.cells) && z.cells <= z'.cells
    ensures Plain(z', sc)
    decreases sc
  {
    if sc.Layer? {
      forall k | k in sc.inner ensures Good(z', sc.inner[k]) { GoodWider(z, z', sc.inner[k]); }
      PlainWider(z, z', sc.outer);
    }
  }

  // ----- The result of a run is the solution, whatever the order -----

  ghost predicate GoodMap(z: Zone, r: map<string, Val>) {
    r.Keys == z.cells && forall n :: n in r ==> Good(z, r[n])
  }

  ghost predicate Extends(c: map<string, Val>, r: map<string, Val>) {
    forall n :: n in r ==> n in c && c[n] == r[n]
  }

  lemma NamesSnoc(cells: seq<Cell>)
    requires cells != []
    ensures NamesOfCells(cells) == NamesOfCells(cells[..|cells| - 1]) + {cells[|cells| - 1].name}
  {
    var front := cells[..|cells| - 1];
    forall n ensures n in NamesOfCells(cells) <==> n in NamesOfCells(front) || n == cells[|cells| - 1].name {
      if n in NamesOfCells(cells) {
        var i :| 0 <= i < |cells| && cells[i].name == n;
        if i < |front| { assert front[i].name == n; }
      }
      if n in NamesOfCells(front) {
        var i :| 0 <= i < |front| && front[i].name == n;
        assert cells[i].name == n;
      }
    }
  }

  lemma FrontArranged(s: Setting, cells: seq<Cell>)
    requires Arranged(s, cells) && cells != []
    ensures Arranged(s, cells[..|cells| - 1])
    ensures NamesOfCells(cells) == NamesOfCells(cells[..|cells| - 1]) + {cells[|cells| - 1].name}
    ensures cells[|cells| - 1].name !in NamesOfCells(cells[..|cells| - 1])
  {
    var front := cells[..|cells| - 1];
    forall i | 0 <= i < |front| ensures Scanned(ZoneOf(s, front[..i]), front[i].body, []) {
      assert front[..i] == cells[..i];
    }
    NamesSnoc(cells);
  }

  /** The last cell has the same value whether it sees the results so far or any larger map. */
  lemma Stable(s: Setting, cells: seq<Cell>, r: map<string, Val>, c: map<string, Val>)
    requires Apart(s) && Arranged(s, cells) && cells != []
    requires GoodMap(ZoneOf(s, cells[..|cells| - 1]), r) && Extends(c, r)
    ensures
      var body := cells[|cells| - 1].body;
      && CellValue(s, c, body) == CellValue(s, r, body)
      && GoodOutcome(ZoneOf(s, cells[..|cells| - 1]), CellValue(s, r, body))
  {
    var z := ZoneOf(s, cells[..|cells| - 1]);
    var body := cells[|cells| - 1].body;
    ScannedConfined(z, body, []);
    PlainWider(ZoneOf(s, []), z, s.env);
    OnlyCellsMatter(z, s.host, r, c, s.limit, body, CellScopes(s.ns, s.handle, s.env), Root, s.depth,
      CellValue(s, r, body));
  }

  lemma {:induction false} RunGood(s: Setting, cells: seq<Cell>)
    requires Apart(s) && Arranged(s, cells) && RunCells(s, cells).Ok?
    ensures GoodMap(ZoneOf(s, cells), RunCells(s, cells).v)
  {
    if cells != [] {
      var front := cells[..|cells| - 1];
      FrontArranged(s, cells);
      RunGood(s, front);
      var r := RunCells(s, front).v;
      Stable(s, cells, r, r);
      var z, z' := ZoneOf(s, front), ZoneOf(s, cells);
      forall n | n in r ensures Good(z', r[n]) { GoodWider(z, z', r[n]); }
      GoodWider(z, z', CellValue(s, r, cells[|cells| - 1].body).v);
    }
  }

  lemma {:induction false} RunSolves(s: Setting, cells: seq<Cell>, c: map<string, Val>)
    requires Apart(s) && Arranged(s, cells) && RunCells(s, cells).Ok? && Extends(c, RunCells(s, cells).v)
    ensures forall i :: 0 <= i < |cells| ==> Solved(s, c, cells[i])
  {
    if cells != [] {
      var front := cells[..|cells| - 1];
      FrontArranged(s, cells);
      LastSolved(s, cells, c);
      RunSolves(s, front, c);
      forall i | 0 <= i < |front| ensures Solved(s, c, cells[i]) {
        assert cells[i] == front[i];
      }
    }
  }

  lemma LastSolved(s: Setting, cells: seq<Cell>, c: map<string, Val>)
    requires Apart(s) && Arranged(s, cells) && RunCells(s, cells).Ok? && Extends(c, RunCells(s, cells).v) && cells != []
    ensures Solved(s, c, cells[|cells| - 1])
    ensures RunCells(s, cells[..|cells| - 1]).Ok? && Extends(c, RunCells(s, cells[..|cells| - 1]).v)
  {
    var front := cells[..|cells| - 1];
    FrontArranged(s, cells);
    RunGood(s, front);
    Stable(s, cells, RunCells(s, front).v, c);
  }

  predicate Solved(s: Setting, c: map<string, Val>, x: Cell) {
    x.name in c && CellValue(s, c, x.body) == Ok(c[x.name])
  }

  function Restrict(c: map<string, Val>, names: set<string>): map<string, Val> {
    map n | n in names && n in c :: c[n]
  }

  lemma {:induction false} SolutionRuns(s: Setting, cells: seq<Cell>, c: map<string, Val>)
    requires Apart(s) && Arranged(s, cells)
    requires forall i :: 0 <= i < |cells| ==>
        cells[i].name in c && CellValue(s, c, cells[i].body) == Ok(c[cells[i].name])
    ensures RunCells(s, cells) == Ok(Restrict(c, NamesOfCells(cells)))
  {
    if cells != [] {
      var front, last := cells[..|cells| - 1], cells[|cells| - 1];
      FrontArranged(s, cells);
      SolutionRuns(s, front, c);
      RunGood(s, front);
      var r := RunCells(s, front).v;
      Stable(s, cells, r, c);
      assert r[last.name := c[last.name]] == Restrict(c, NamesOfCells(cells));
    }
  }

  /** A run succeeds with c exactly when c solves the sheet: the run finds the one solution if
      there is one, and fails if there is none. */
  lemma RunIsSolution(s: Setting, cells: seq<Cell>, c: map<string, Val>)
    requires Apart(s) && Arranged(s, cells)
    ensures RunCells(s, cells) == Ok(c) <==> Solution(s, cells, c)
  {
    if RunCells(s, cells) == Ok(c) {
      RunGood(s, cells);
      RunSolves(s, cells, c);
    }
    if Solution(s, cells, c) {
      forall i | 0 <= i < |cells| ensures cells[i].name in c {
        assert cells[i].name in NamesOfCells(cells);
      }
      SolutionRuns(s, cells, c);
      assert Restrict(c, NamesOfCells(cells)) == c;
    }
  }

  /** Any two arrangements of the same cells give the same results, and fail together. */
  lemma OrderIrrelevant(s: Setting, cells: seq<Cell>, cells': seq<Cell>)
    requires Apart(s) && Arranged(s, cells) && Arranged(s, cells')
    requires forall x :: x in cells <==> x in cells'
    ensures RunCells(s, cells).Ok? <==> RunCells(s, cells').Ok?
    ensures RunCells(s, cells).Ok? ==> RunCells(s, cells') == RunCells(s, cells)
  {
    if RunCells(s, cells).Ok? { SameCells(s, cells, cells', RunCells(s, cells).v); }
    if RunCells(s, cells').Ok? { SameCells(s, cells', cells, RunCells(s, cells').v); }
  }

  lemma SameCells(s: Setting, cells: seq<Cell>, cells': seq<Cell>, c: map<string, Val>)
    requires Apart(s) && Arranged(s, cells) && Arranged(s, cells')
    requires forall x :: x in cells <==> x in cells'
    requires RunCells(s, cells) == Ok(c)
    ensures RunCells(s, cells') == Ok(c)
  {
    RunIsSolution(s, cells, c);
    RunIsSolution(s, cells', c);
    SameSolution(s, cells, cells', c);
  }

  /** The equations of a sheet do not depend on how its cells are listed. */
  lemma SameSolution(s: Setting, cells: seq<Cell>, cells': seq<Cell>, c: map<string, Val>)
    requires (forall x :: x in cells <==> x in cells') && Solution(s, cells, c)
    ensures Solution(s, cells', c)
  {
    SameNames(cells, cells');
    forall i | 0 <= i < |cells'| ensures CellValue(s, c, cells'[i].body) == Ok(c[cells'[i].name]) {
      assert cells'[i] in cells;
    }
  }

  lemma SameNames(cells: seq<Cell>, cells': seq<Cell>)
    requires forall x :: x in cells <==> x in cells'
    ensures NamesOfCells(cells) == NamesOfCells(cells')
  {
    forall n ensures n in NamesOfCells(cells) <==> n in NamesOfCells(cells') {
      if n in NamesOfCells(cells) {
        var i :| 0 <= i < |cells| && cells[i].name == n;
        assert cells[i] in cells';
      }
      if n in NamesOfCells(cells') {
        var i :| 0 <= i < |cells'| && cells'[i].name == n;
        assert cells'[i] in cells;
      }
    }
  }
}
