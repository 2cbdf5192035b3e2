// Compiling a sheet and running it.

module SheetRun {
  import opened Values
  import opened Mapping
  import opened Ordering
  import opened Syntax
  import opened Bytecode
  import opened CompilerSpec
  import opened Semantics
  import opened Compiled
  import opened SheetRefs
  import opened SheetOrder
  import opened SheetCells
  import opened Sheet
  import SheetLaws
  import Compiler
  import Pump
  import Machine

  datatype SheetError =
    | NoCells
    | EmptyName
    | DuplicateCell(name: string)
    | BadReference(cell: string, problem: RefError)
    | NoSuchCell(cell: string, missing: string)
    | DependencyCycle(cycle: seq<string>)
    | CellError(cell: string, failure: CompileError)

  datatype CompiledCell = CompiledCell(name: string, code: seq<Instr>, deps: seq<string>)

  /** cells are in evaluation order; index gives each name's slot. */
  datatype CompiledSheet = CompiledSheet(cells: seq<CompiledCell>, ns: string, index: map<string, nat>)

  datatype SheetResult = Built(sheet: CompiledSheet) | Refused(error: SheetError)

  datatype Source = Source(fo: FloatOps, valid: string -> bool, ns: string, cells: seq<Cell>)

  /** Cell x reads cell n. */
  predicate Depends(src: Source, x: Cell, n: string) { n in Refs(src.fo, x.body, src.ns, {}) }

  /** The cell called a reads the one called b. */
  ghost predicate Reading(src: Source, a: string, b: string) {
    exists x :: x in src.cells && x.name == a && Depends(src, x, b)
  }

  /** e is a true statement of something that is wrong with the cells. */
  ghost predicate Explains(src: Source, e: SheetError) {
    match e
    case NoCells => src.cells == []
    case EmptyName => exists x :: x in src.cells && x.name == ""
    case DuplicateCell(n) => exists i, j :: 0 <= i < j < |src.cells| && src.cells[i].name == n && src.cells[j].name == n
    case BadReference(c, p) =>
      exists x :: x in src.cells && x.name == c && RefProblem(src.fo, x.body, src.ns, {}) == Some(p)
    case NoSuchCell(c, n) =>
      n !in NamesOfCells(src.cells) && exists x :: x in src.cells && x.name == c && Depends(src, x, n)
    case DependencyCycle(p) =>
      |p| >= 2 && p[0] == p[|p| - 1] &&
      forall i :: 0 <= i < |p| - 1 ==> Reading(src, p[i], p[i + 1])
    case CellError(c, f) => Fails(src, c, f)
  }

  /** arranged is the cells of src, each after those it reads. */
  ghost predicate Arrangement(src: Source, arranged: seq<Cell>) {
    && (forall x :: x in arranged <==> x in src.cells)
    && (forall i, j :: 0 <= i < j < |arranged| ==> arranged[i].name != arranged[j].name)
    && (forall i :: 0 <= i < |arranged| ==>
          && RefProblem(src.fo, arranged[i].body, src.ns, {}).None?
          && Refs(src.fo, arranged[i].body, src.ns, {}) <= NamesOfCells(arranged[..i]))
  }

  ghost predicate CompiledFrom(src: Source, x: Cell, c: CompiledCell) {
    && c.name == x.name && c.code == Code(x.body, [], 0) && Problem(src.valid, x.body).None?
    && Ascending(c.deps) && forall n :: n in c.deps <==> Depends(src, x, n)
  }

  /** The sheet is src, arranged and compiled cell by cell, without folding. */
  ghost predicate Faithful(src: Source, arranged: seq<Cell>, sheet: CompiledSheet) {
    && Arrangement(src, arranged)
    && sheet.ns == src.ns && |sheet.cells| == |arranged|
    && (forall i :: 0 <= i < |arranged| ==> CompiledFrom(src, arranged[i], sheet.cells[i]))
    && sheet.index.Keys == NamesOfCells(src.cells)
    && (forall i :: 0 <= i < |arranged| ==> arranged[i].name in sheet.index && sheet.index[arranged[i].name] == i)
  }

  // ----- CompileSheet -----

  ghost predicate Named(src: Source, asts: map<string, Expr>) {
    && (forall i, j :: 0 <= i < j < |src.cells| ==> src.cells[i].name != src.cells[j].name)
    && (forall x :: x in src.cells ==> x.name != "" && x.name in asts && asts[x.name] == x.body)
    && (forall n :: n in asts ==> Cell(n, asts[n]) in src.cells)
  }

  method NameCells(src: Source) returns (bad: Option<SheetError>, asts: map<string, Expr>)
    ensures bad.Some? ==> Explains(src, bad.value)
    ensures bad.None? ==> Named(src, asts)
  {
    bad, asts := None, map[];
    for i := 0 to |src.cells|
      invariant forall j, k :: 0 <= j < k < i ==> src.cells[j].name != src.cells[k].name
      invariant forall j :: 0 <= j < i ==>
        src.cells[j].name != "" && src.cells[j].name in asts && asts[src.cells[j].name] == src.cells[j].body
      invariant forall n :: n in asts ==> exists j :: 0 <= j < i && src.cells[j] == Cell(n, asts[n])
    {
      var cell := src.cells[i];
      if cell.name == "" { return Some(EmptyName), asts; }
      if cell.name in asts {
        var j :| 0 <= j < i && src.cells[j] == Cell(cell.name, asts[cell.name]);
        return Some(DuplicateCell(cell.name)), asts;
      }
      asts := asts[cell.name := cell.body];
    }
  }

  ghost predicate DepsAre(src: Source, x: Cell, asts: map<string, Expr>, ds: seq<string>) {
    && RefProblem(src.fo, x.body, src.ns, {}).None?
    && Ascending(ds) && (forall n :: n in ds <==> Depends(src, x, n)) && (forall n :: n in ds ==> n in asts)
  }

  ghost predicate DepsFound(src: Source, x: Cell, asts: map<string, Expr>, deps: Graph) {
    x.name in deps && DepsAre(src, x, asts, deps[x.name])
  }

  method CellDeps(src: Source, x: Cell, asts: map<string, Expr>) returns (bad: Option<SheetError>, ds: seq<string>)
    requires Named(src, asts) && x in src.cells
    ensures bad.Some? ==> Explains(src, bad.value)
    ensures bad.None? ==> DepsAre(src, x, asts, ds)
  {
    var found := SheetReferences(src.fo, x.body, src.ns);
    if found.Broken? { return Some(BadReference(x.name, found.problem)), []; }
    var missing := set n | n in found.names && n !in asts;
    if missing != {} {
      var n :| n in missing;
      NamedKeys(src, asts);
      return Some(NoSuchCell(x.name, n)), [];
    }
    ds := SortNames(found.names);
    assert forall n :: n in ds ==> n !in missing;
    return None, ds;
  }

  method FindDeps(src: Source, asts: map<string, Expr>) returns (bad: Option<SheetError>, deps: Graph)
    requires Named(src, asts)
    ensures bad.Some? ==> Explains(src, bad.value)
    ensures bad.None? ==> deps.Keys == asts.Keys && forall x :: x in src.cells ==> DepsFound(src, x, asts, deps)
  {
    bad, deps := None, map[];
    for i := 0 to |src.cells|
      invariant FoundUpTo(src, asts, deps, i)
    {
      var cellDeps;
      bad, cellDeps := CellDeps(src, src.cells[i], asts);
      if bad.Some? { return; }
      FoundNext(src, asts, deps, i, cellDeps);
      deps := deps[src.cells[i].name := cellDeps];
    }
    assert src.cells[..|src.cells|] == src.cells;
    NamedKeys(src, asts);
    bad := None;
  }

  ghost predicate FoundUpTo(src: Source, asts: map<string, Expr>, deps: Graph, i: nat)
    requires i <= |src.cells|
  {
    deps.Keys == NamesOfCells(src.cells[..i]) && forall j :: 0 <= j < i ==> DepsFound(src, src.cells[j], asts, deps)
  }

  lemma FoundNext(src: Source, asts: map<string, Expr>, deps: Graph, i: nat, ds: seq<string>)
    requires i < |src.cells| && Named(src, asts) && FoundUpTo(src, asts, deps, i) &&
        DepsAre(src, src.cells[i], asts, ds)
    ensures FoundUpTo(src, asts, deps[src.cells[i].name := ds], i + 1)
  {
    NamesGrow(src.cells, i);
    forall j | 0 <= j < i + 1 ensures DepsFound(src, src.cells[j], asts, deps[src.cells[i].name := ds]) {
      if j < i { assert DepsFound(src, src.cells[j], asts, deps) && src.cells[j].name != src.cells[i].name; }
    }
  }

  lemma NamedKeys(src: Source, asts: map<string, Expr>)
    requires Named(src, asts)
    ensures asts.Keys == NamesOfCells(src.cells)
  {
    forall n | n in asts ensures n in NamesOfCells(src.cells) {
      var i :| 0 <= i < |src.cells| && src.cells[i] == Cell(n, asts[n]);
      assert src.cells[i].name == n;
    }
    forall n | n in NamesOfCells(src.cells) ensures n in asts {
      var i :| 0 <= i < |src.cells| && src.cells[i].name == n;
      assert src.cells[i] in src.cells;
    }
  }

  lemma NamesGrow(cells: seq<Cell>, i: nat)
    requires i < |cells|
    ensures NamesOfCells(cells[..i + 1]) == NamesOfCells(cells[..i]) + {cells[i].name}
  {
    forall n ensures n in NamesOfCells(cells[..i + 1]) <==> n in NamesOfCells(cells[..i]) || n == cells[i].name {
      if n in NamesOfCells(cells[..i + 1]) {
        var j :| 0 <= j < i + 1 && cells[..i + 1][j].name == n;
        if j < i { assert cells[..i][j].name == n; }
      }
      if n in NamesOfCells(cells[..i]) {
        var j :| 0 <= j < i && cells[..i][j].name == n;
        assert cells[..i + 1][j].name == n;
      }
      assert cells[..i + 1][i] == cells[i];
    }
  }

  function Listed(order: seq<string>, asts: map<string, Expr>): seq<Cell>
    requires forall c :: c in order ==> c in asts
  {
    seq(|order|, i requires 0 <= i < |order| => Cell(order[i], asts[order[i]]))
  }

  lemma OrderArranges(src: Source, asts: map<string, Expr>, deps: Graph, order: seq<string>)
    requires Named(src, asts) && deps.Keys == asts.Keys
    requires forall x :: x in src.cells ==> DepsFound(src, x, asts, deps)
    requires Sorted(deps, order)
    ensures Arrangement(src, Listed(order, asts))
  {
    var arranged := Listed(order, asts);
    forall x ensures x in arranged <==> x in src.cells {
      if x in src.cells {
        assert x.name in order;
        var i :| 0 <= i < |order| && order[i] == x.name;
        assert arranged[i] == x;
      }
    }
    forall i | 0 <= i < |arranged|
      ensures RefProblem(src.fo, arranged[i].body, src.ns, {}).None?
      ensures Refs(src.fo, arranged[i].body, src.ns, {}) <= NamesOfCells(arranged[..i])
    {
      var x := arranged[i];
      assert x in src.cells && DepsFound(src, x, asts, deps);
      forall n | Depends(src, x, n) ensures n in NamesOfCells(arranged[..i]) {
        assert Edge(deps, order[i], n) && n in order[..i];
        var j :| 0 <= j < i && order[..i][j] == n;
        assert arranged[..i][j].name == n;
      }
    }
  }

  lemma CycleExplained(src: Source, asts: map<string, Expr>, deps: Graph, p: seq<string>)
    requires Named(src, asts) && deps.Keys == asts.Keys
    requires forall x :: x in src.cells ==> DepsFound(src, x, asts, deps)
    ensures Cycle(deps, p) <==> Explains(src, DependencyCycle(p))
  {
    forall a, b ensures Edge(deps, a, b) <==> Reading(src, a, b) {
      if Edge(deps, a, b) {
        var x := Cell(a, asts[a]);
        assert x in src.cells && DepsFound(src, x, asts, deps);
      }
    }
  }

  /** CompileSheet, from parsed cells on: it refuses exactly when something is wrong with them, for
      the reason it gives, and otherwise returns them compiled in an order in which every cell
      follows the ones it reads. */
  method CompileSheet(src: Source) returns (r: SheetResult, ghost arranged: seq<Cell>)
    ensures r.Refused? ==> Explains(src, r.error)
    ensures r.Built? ==> Faithful(src, arranged, r.sheet) && !exists e :: Explains(src, e)
  {
    arranged := [];
    if src.cells == [] { return Refused(NoCells), []; }
    var bad, asts := NameCells(src);
    if bad.Some? { return Refused(bad.value), []; }
    var deps;
    bad, deps := FindDeps(src, asts);
    if bad.Some? { return Refused(bad.value), []; }
    DepsClosed(src, asts, deps);
    NamedKeys(src, asts);
    NameListed(src.cells);
    var sorting := TopoSort(NameList(src.cells), deps);
    forall p ensures Cycle(deps, p) <==> Explains(src, DependencyCycle(p)) { CycleExplained(src, asts, deps, p); }
    if sorting.Cyclic? { return Refused(DependencyCycle(sorting.cycle)), []; }
    var order := sorting.cells;
    arranged := Listed(order, asts);
    OrderArranges(src, asts, deps, order);
    var compiled, index;
    bad, compiled, index := CompileCells(src, order, asts, deps);
    if bad.Some? { return Refused(bad.value), arranged; }
    FaithfulWhen(src, asts, order, compiled, index);
    var sheet := CompiledSheet(compiled, src.ns, index);
    NothingWrong(src, asts, deps, order, sheet);
    return Built(sheet), arranged;
  }

  function NameList(cells: seq<Cell>): seq<string> {
    seq(|cells|, i requires 0 <= i < |cells| => cells[i].name)
  }

  lemma NameListed(cells: seq<Cell>)
    ensures forall n :: n in NameList(cells) <==> n in NamesOfCells(cells)
  {
    forall n | n in NamesOfCells(cells) ensures n in NameList(cells) {
      var i :| 0 <= i < |cells| && cells[i].name == n;
      assert NameList(cells)[i] == n;
    }
  }

  lemma DepsClosed(src: Source, asts: map<string, Expr>, deps: Graph)
    requires Named(src, asts) && deps.Keys == asts.Keys
    requires forall x :: x in src.cells ==> DepsFound(src, x, asts, deps)
    ensures Closed(deps)
  {
    forall c, i | c in deps && 0 <= i < |deps[c]| ensures deps[c][i] in deps {
      assert Cell(c, asts[c]) in src.cells && DepsFound(src, Cell(c, asts[c]), asts, deps);
      assert deps[c][i] in deps[c];
    }
  }

  /** The cell called name does not compile, for this reason. */
  ghost predicate Fails(src: Source, name: string, f: CompileError) {
    exists x :: x in src.cells && x.name == name && Problem(src.valid, x.body) == Some(f)
  }

  method CompileCell(src: Source, x: Cell, asts: map<string, Expr>, ds: seq<string>)
    returns (bad: Option<CompileError>, c: CompiledCell)
    requires x in src.cells && DepsAre(src, x, asts, ds)
    ensures bad.Some? ==> Fails(src, x.name, bad.value)
    ensures bad.None? ==> CompiledFrom(src, x, c)
  {
    var compiler := new Compiler.Compiler(src.valid, []);
    compiler.Compile(x.body);
    c := CompiledCell(x.name, compiler.instructions, ds);
    if compiler.err.Some? { return compiler.err, c; }
    assert compiler.instructions == [] + Code(x.body, [], 0);
    return None, c;
  }

  method CompileCells(src: Source, order: seq<string>, asts: map<string, Expr>, deps: Graph)
    returns (bad: Option<SheetError>, cells: seq<CompiledCell>, index: map<string, nat>)
    requires Named(src, asts) && deps.Keys == asts.Keys && Distinct(order) && forall c :: c in order <==> c in asts
    requires forall x :: x in src.cells ==> DepsFound(src, x, asts, deps)
    ensures bad.Some? ==> bad.value.CellError? && Fails(src, bad.value.cell, bad.value.failure)
    ensures bad.None? ==> AllCompiled(src, Listed(order, asts), cells) && Indexed(order, index)
  {
    ghost var arranged := Listed(order, asts);
    bad, cells, index := None, [], map[];
    for i := 0 to |order|
      invariant AllCompiled(src, arranged[..i], cells)
      invariant Indexed(order[..i], index)
    {
      var name := order[i];
      assert arranged[i] == Cell(name, asts[name]);
      assert arranged[i] in src.cells && DepsFound(src, arranged[i], asts, deps);
      var failure, c := CompileCell(src, Cell(name, asts[name]), asts, deps[name]);
      if failure.Some? { return Some(CellError(name, failure.value)), cells, index; }
      IndexedNext(order, i, index);
      AllCompiledNext(src, arranged, i, cells, c);
      index := index[name := i];
      cells := cells + [c];
    }
    assert order[..|order|] == order && arranged[..|order|] == arranged;
    bad := None;
  }

  lemma FaithfulWhen(src: Source, asts: map<string, Expr>, order: seq<string>, cells: seq<CompiledCell>,
      index: map<string, nat>)
    requires Named(src, asts) && forall c :: c in order <==> c in asts
    requires Arrangement(src, Listed(order, asts)) && |cells| == |order| && Indexed(order, index)
    requires AllCompiled(src, Listed(order, asts), cells)
    ensures Faithful(src, Listed(order, asts), CompiledSheet(cells, src.ns, index))
  {
    NamedKeys(src, asts);
    AllCompiledEach(src, Listed(order, asts), cells);
  }

  /** cells are the compiled forms of xs, one by one. */
  ghost predicate AllCompiled(src: Source, xs: seq<Cell>, cells: seq<CompiledCell>) {
    |xs| == |cells| &&
    (xs == [] || (CompiledFrom(src, xs[|xs| - 1], cells[|xs| - 1]) &&
      AllCompiled(src, xs[..|xs| - 1], cells[..|xs| - 1])))
  }

  lemma AllCompiledNext(src: Source, xs: seq<Cell>, i: nat, cells: seq<CompiledCell>, c: CompiledCell)
    requires i < |xs| && AllCompiled(src, xs[..i], cells) && CompiledFrom(src, xs[i], c)
    ensures AllCompiled(src, xs[..i + 1], cells + [c])
  {
    assert xs[..i + 1][..i] == xs[..i] && (cells + [c])[..i] == cells;
  }

  lemma {:induction false} AllCompiledEach(src: Source, xs: seq<Cell>, cells: seq<CompiledCell>)
    requires AllCompiled(src, xs, cells)
    ensures |xs| == |cells| && forall i :: 0 <= i < |xs| ==> CompiledFrom(src, xs[i], cells[i])
  {
    if xs != [] {
      AllCompiledEach(src, xs[..|xs| - 1], cells[..|xs| - 1]);
      forall i | 0 <= i < |xs| ensures CompiledFrom(src, xs[i], cells[i]) {
        if i < |xs| - 1 { assert xs[..|xs| - 1][i] == xs[i] && cells[..|xs| - 1][i] == cells[i]; }
      }
    }
  }

  /** index and order are inverse to each other. */
  ghost predicate Indexed(order: seq<string>, index: map<string, nat>) {
    && (forall n :: n in index <==> n in order)
    && (forall j :: 0 <= j < |order| ==> order[j] in index && index[order[j]] == j)
  }

  lemma IndexedNext(order: seq<string>, i: nat, index: map<string, nat>)
    requires i < |order| && Distinct(order) && Indexed(order[..i], index)
    ensures Indexed(order[..i + 1], index[order[i] := i])
  {
    assert order[..i + 1] == order[..i] + [order[i]];
    forall j | 0 <= j < i ensures index[order[j]] == j && order[j] != order[i] {
      assert order[..i][j] == order[j];
    }
  }

  lemma CellCompiles(src: Source, arranged: seq<Cell>, sheet: CompiledSheet, x: Cell)
    requires Faithful(src, arranged, sheet) && x in src.cells
    ensures Problem(src.valid, x.body).None?
  {
    assert x in arranged;
    var i :| 0 <= i < |arranged| && arranged[i] == x;
    assert CompiledFrom(src, arranged[i], sheet.cells[i]);
  }

  lemma CellReadsCells(src: Source, asts: map<string, Expr>, deps: Graph, x: Cell)
    requires DepsFound(src, x, asts, deps)
    ensures RefProblem(src.fo, x.body, src.ns, {}).None? && forall n :: Depends(src, x, n) ==> n in asts
  {
  }

  /** Nothing is wrong with x by itself or with what it reads. */
  ghost predicate Fine(src: Source, x: Cell) {
    && Problem(src.valid, x.body).None? && RefProblem(src.fo, x.body, src.ns, {}).None?
    && forall n :: Depends(src, x, n) ==> n in NamesOfCells(src.cells)
  }

  lemma NotExplained(src: Source, asts: map<string, Expr>, e: SheetError)
    requires src.cells != [] && Named(src, asts) && !e.DependencyCycle? && forall x :: x in src.cells ==> Fine(src, x)
    ensures !Explains(src, e)
  {
  }

  lemma NothingWrong(src: Source, asts: map<string, Expr>, deps: Graph, order: seq<string>, sheet: CompiledSheet)
    requires src.cells != [] && Named(src, asts) && deps.Keys == asts.Keys && Sorted(deps, order)
    requires forall x :: x in src.cells ==> DepsFound(src, x, asts, deps)
    requires Faithful(src, Listed(order, asts), sheet)
    ensures !exists e :: Explains(src, e)
  {
    NamedKeys(src, asts);
    SortedAcyclic(deps, order);
    forall x | x in src.cells ensures Fine(src, x) {
      CellCompiles(src, Listed(order, asts), sheet, x);
      CellReadsCells(src, asts, deps, x);
    }
    forall e ensures !Explains(src, e) {
      if e.DependencyCycle? { CycleExplained(src, asts, deps, e.cycle); } else { NotExplained(src, asts, e); }
    }
  }

  // ----- RunSheetInto -----

  datatype RunError = LengthMismatch | NamespaceTaken | CellFailed(cell: string, e: Error)

  /** One host at source and at compiled closures, whatever the results map holds. */
  ghost predicate NaturalHosts(hs: Hosts<Lam>, hp: Hosts<Proto>) {
    forall r {:trigger hs(r)} :: Natural(T(), hs(r), hp(MapEntries(T(), r)))
  }

  lemma SheetHostNatural(hs: Hosts<Lam>, hp: Hosts<Proto>, handle: int, r: map<string, Val>)
    requires NaturalHosts(hs, hp)
    ensures Natural(T(), SheetHost(hs, handle, r), SheetHost(hp, handle, MapEntries(T(), r)))
  {
    var a, b := SheetHost(hs, handle, r), SheetHost(hp, handle, MapEntries(T(), r));
    forall q ensures b.ask(MapQuestion(T(), q)) == MapOutcome(T(), a.ask(q)) {
      Answer(T(), hs(r), hp(MapEntries(T(), r)), q);
    }
  }

  lemma LayerCompiles(m: map<string, Val>, outer: Scopes<Lam>)
    ensures TScopes(Layer(m, outer)) == Layer(MapEntries(T(), m), TScopes(outer))
  {
    assert TScopes(Layer(m, outer)).inner == MapEntries(T(), m);
  }

  lemma CellScopesCompile(ns: string, handle: int, env: map<string, Val>)
    ensures TScopes(CellScopes(ns, handle, Layer(env, NoScope))) ==
        CellScopes(ns, handle, Layer(MapEntries(T(), env), NoScope))
  {
    LayerCompiles(env, NoScope);
    LayerCompiles(map[ns := HostV(handle)], Layer(env, NoScope));
    assert MapEntries(T(), map[ns := HostV(handle)]) == map[ns := HostV(handle)];
  }

  /** The first cell that fails is the one reported. */
  ghost predicate FailsAt(s: Setting, cells: seq<Cell>, k: nat, e: Error) {
    && k < |cells| && RunCells(s, cells[..k]).Ok?
    && CellValue(s, RunCells(s, cells[..k]).v, cells[k].body) == Err(e)
  }

  /** One cell, run against the results so far. */
  method RunCell(mc: Pump.Vm, code: seq<Instr>, scopes: Scopes<Proto>, ghost hosts: Hosts<Proto>,
      ghost s: Setting, ghost source: map<string, Val>, ghost r: map<string, Val>, ghost body: Expr)
    returns (val: Outcome<Machine.V>)
    requires NaturalHosts(s.host, hosts) && mc.host == SheetHost(hosts, s.handle, MapEntries(T(), r))
    requires code == Code(body, [], 0) && s.limit == mc.limit && s.depth == |mc.frames| &&
        s.env == Layer(source, NoScope)
    requires scopes == CellScopes(s.ns, s.handle, Layer(MapEntries(T(), source), NoScope))
    modifies mc`frames, mc`stack
    ensures val == MapOutcome(T(), CellValue(s, r, body))
    ensures mc.stack == old(mc.stack) && mc.frames == old(mc.frames)
  {
    SheetHostNatural(s.host, hosts, s.handle, r);
    CellScopesCompile(s.ns, s.handle, source);
    val := mc.RunScopes(code, scopes, SheetHost(s.host, s.handle, r), body, CellScopes(s.ns, s.handle, s.env));
  }

  /** What the slots of a run hold, cell by cell as written: a name of the caller's environment is its
      value there, the bare namespace is the handle of the results map, and a cell that only names
      another one holds what that one's slot holds. */
  ghost predicate Delivers(cells: seq<Cell>, ns: string, handle: int, env: map<string, Machine.V>,
      out: seq<Machine.V>)
  {
    && |out| == |cells|
    && (forall i, x :: 0 <= i < |cells| && cells[i].body == Var(x) && x in env ==> out[i] == env[x])
    && (forall i :: 0 <= i < |cells| && cells[i].body == Var(ns) ==> out[i] == HostV(handle))
    && (forall i, j | 0 <= i < |cells| && 0 <= j < |cells| && cells[i].body == Member(Var(ns), cells[j].name, false) ::
          out[i] == out[j])
  }

  /** Slot by slot, out holds the results of a run. */
  ghost predicate Holds(cells: seq<Cell>, c: map<string, Val>, out: seq<Machine.V>) {
    && |out| == |cells|
    && forall i :: 0 <= i < |cells| ==> cells[i].name in c && out[i] == TV(c[cells[i].name])
  }

  lemma Delivered(s: Setting, cells: seq<Cell>, c: map<string, Val>, source: map<string, Val>, out: seq<Machine.V>)
    requires RunCells(s, cells) == Ok(c) && SheetLaws.DistinctNames(cells) && s.env == Layer(source, NoScope)
    requires s.ns !in source && Holds(cells, c, out)
    ensures Delivers(cells, s.ns, s.handle, MapEntries(T(), source), out)
  {
    forall i, x | 0 <= i < |cells| && cells[i].body == Var(x) && x in source ensures out[i] == TV(source[x]) {
      SheetLaws.EnvironmentCells(s, cells, c, i, x, source);
    }
    forall i | 0 <= i < |cells| && cells[i].body == Var(s.ns) ensures out[i] == HostV(s.handle) {
      SheetLaws.EnvironmentCells(s, cells, c, i, s.ns, source);
    }
    forall i, j | 0 <= i < |cells| && 0 <= j < |cells| && cells[i].body == Member(Var(s.ns), cells[j].name, false)
      ensures out[i] == out[j]
    {
      SheetLaws.MemberCells(s, cells, c, i, cells[j].name, source);
    }
  }

  /** Runs every cell on mc against a results map that nothing else refers to, known to the host as
      `handle`, and fills out in slot order. hosts is what the machine's surroundings answer while
      that map fills; hs, source and arranged are what those answers, the environment and the sheet
      were compiled from. */
  method RunSheetInto(mc: Pump.Vm, sheet: CompiledSheet, env: map<string, Machine.V>, out: array<Machine.V>,
      handle: int,
      hosts: Hosts<Proto>, ghost hs: Hosts<Lam>, ghost source: map<string, Val>, ghost src: Source,
        ghost arranged: seq<Cell>)
    returns (err: Option<RunError>)
    requires NaturalHosts(hs, hosts) && mc.host == hosts(map[]) && env == MapEntries(T(), source)
    requires Faithful(src, arranged, sheet)
    modifies mc`host, mc`frames, mc`stack, out
    ensures mc.stack == old(mc.stack) && mc.frames == old(mc.frames)
    ensures err == Some(LengthMismatch) <==> out.Length != |sheet.cells|
    ensures err == Some(NamespaceTaken) <==> out.Length == |sheet.cells| && sheet.ns in env
    ensures err.Some? && !err.value.CellFailed? ==> mc.host == old(mc.host) && out[..] == old(out[..])
    ensures
      var s := Setting(hs, mc.limit, sheet.ns, handle, Layer(source, NoScope), |old(mc.frames)|);
      && (err.None? ==>
            && RunCells(s, arranged).Ok?
            && (forall i :: 0 <= i < |arranged| ==>
                  arranged[i].name in RunCells(s, arranged).v &&
                    out[i] == TV(RunCells(s, arranged).v[arranged[i].name]))
            && mc.host == SheetHost(hosts, handle, MapEntries(T(), RunCells(s, arranged).v)))
      && (err.Some? && err.value.CellFailed? ==>
            && RunCells(s, arranged) == Err(err.value.e)
            && exists k: nat :: FailsAt(s, arranged, k, err.value.e) && arranged[k].name == err.value.cell)
    ensures err.None? ==> Delivers(arranged, sheet.ns, handle, env, out[..])
  {
    if out.Length != |sheet.cells| { return Some(LengthMismatch); }
    if sheet.ns in env { return Some(NamespaceTaken); }
    err := RunEach(mc, sheet, env, out, handle, hosts, hs, source, src, arranged);
    if err.None? {
      ghost var s := Setting(hs, mc.limit, sheet.ns, handle, Layer(source, NoScope), |old(mc.frames)|);
      Delivered(s, arranged, RunCells(s, arranged).v, source, out[..]);
    }
  }

  method RunEach(mc: Pump.Vm, sheet: CompiledSheet, env: map<string, Machine.V>, out: array<Machine.V>, handle: int,
      hosts: Hosts<Proto>, ghost hs: Hosts<Lam>, ghost source: map<string, Val>, ghost src: Source,
        ghost arranged: seq<Cell>)
    returns (err: Option<RunError>)
    requires NaturalHosts(hs, hosts) && mc.host == hosts(map[]) && env == MapEntries(T(), source)
    requires Faithful(src, arranged, sheet) && out.Length == |sheet.cells|
    modifies mc`host, mc`frames, mc`stack, out
    ensures mc.stack == old(mc.stack) && mc.frames == old(mc.frames)
    ensures err.Some? ==> err.value.CellFailed?
    ensures
      var s := Setting(hs, mc.limit, sheet.ns, handle, Layer(source, NoScope), |old(mc.frames)|);
      && (err.None? ==>
            && RunCells(s, arranged).Ok?
            && (forall i :: 0 <= i < |arranged| ==>
                  arranged[i].name in RunCells(s, arranged).v &&
                    out[i] == TV(RunCells(s, arranged).v[arranged[i].name]))
            && mc.host == SheetHost(hosts, handle, MapEntries(T(), RunCells(s, arranged).v)))
      && (err.Some? ==>
            && RunCells(s, arranged) == Err(err.value.e)
            && exists k: nat :: FailsAt(s, arranged, k, err.value.e) && arranged[k].name == err.value.cell)
  {
    ghost var s := Setting(hs, mc.limit, sheet.ns, handle, Layer(source, NoScope), |mc.frames|);
    var results: map<string, Machine.V> := map[];
    ghost var r: map<string, Val> := map[];
    var scopes := CellScopes(sheet.ns, handle, Layer(env, NoScope));
    mc.host := SheetHost(hosts, handle, results);
    assert arranged[..0] == [];
    for i := 0 to |sheet.cells|
      invariant mc.stack == old(mc.stack) && mc.frames == old(mc.frames)
      invariant RunCells(s, arranged[..i]) == Ok(r) && results == MapEntries(T(), r)
      invariant mc.host == SheetHost(hosts, handle, results)
      invariant Filled(arranged, r, out[..], i)
    {
      var cell := sheet.cells[i];
      assert CompiledFrom(src, arranged[i], cell);
      var val := RunCell(mc, cell.code, scopes, hosts, s, source, r, arranged[i].body);
      CellAdds(s, arranged, i, r);
      if val.Err? {
        SheetLaws.FailsEarly(s, arranged, i + 1);
        return Some(CellFailed(cell.name, val.e));
      }
      ghost var v := CellValue(s, r, arranged[i].body).v;
      ResultsGrow(r, cell.name, v);
      results := results[cell.name := val.v];
      mc.host := SheetHost(hosts, handle, results);
      FilledNext(src, arranged, r, out[..], i, v);
      r := r[cell.name := v];
      out[i] := val.v;
    }
    assert arranged[..|arranged|] == arranged;
    return None;
  }

  /** The first n slots hold the results of the first n cells. */
  ghost predicate Filled(cells: seq<Cell>, r: map<string, Val>, out: seq<Machine.V>, n: nat) {
    n <= |cells| && n <= |out| && forall j :: 0 <= j < n ==> cells[j].name in r && out[j] == TV(r[cells[j].name])
  }

  lemma FilledNext(src: Source, cells: seq<Cell>, r: map<string, Val>, out: seq<Machine.V>, i: nat, v: Val)
    requires Arrangement(src, cells) && Filled(cells, r, out, i) && i < |cells| && i < |out|
    ensures Filled(cells, r[cells[i].name := v], out[i := TV(v)], i + 1)
  {
  }

  lemma CellAdds(s: Setting, cells: seq<Cell>, i: nat, r: map<string, Val>)
    requires i < |cells| && RunCells(s, cells[..i]) == Ok(r)
    ensures RunCells(s, cells[..i + 1]) ==
      match CellValue(s, r, cells[i].body)
      case Err(e) => Err(e)
      case Ok(v) => Ok(r[cells[i].name := v])
  {
    assert cells[..i + 1][..i] == cells[..i];
  }

  lemma ResultsGrow(r: map<string, Val>, n: string, v: Val)
    ensures MapEntries(T(), r[n := v]) == MapEntries(T(), r)[n := TV(v)]
  {
  }

  /** A compiled sheet whose cells never use the namespace as a whole computes the one solution of
      the equations its cells state, whichever admissible order was chosen when it was compiled. */
  lemma SheetComputesSolution(s: Setting, src: Source, arranged: seq<Cell>, c: map<string, Val>)
    requires Apart(s) && Arrangement(src, arranged) && s.ns == src.ns && s.host(map[]).float == src.fo
    requires forall x :: x in src.cells ==> NoBareUse(x.body, src.ns, {})
    ensures RunCells(s, arranged) == Ok(c) <==> Solution(s, src.cells, c)
  {
    forall i | 0 <= i < |arranged| ensures Scanned(ZoneOf(s, arranged[..i]), arranged[i].body, []) {
      assert arranged[i] in src.cells;
    }
    RunIsSolution(s, arranged, c);
    if Solution(s, arranged, c) { SameSolution(s, arranged, src.cells, c); }
    if Solution(s, src.cells, c) { SameSolution(s, src.cells, arranged, c); }
  }
}
