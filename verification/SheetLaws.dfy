// What the cells of a run see, told on the results: the caller's environment, the surroundings, the
// namespace, and one another.

module SheetLaws {
  import opened Values
  import opened Syntax
  import opened Semantics
  import opened SheetCells
  import opened Sheet
  import Laws

  lemma {:induction false} FailsEarly(s: Setting, cells: seq<Cell>, k: nat)
    requires k <= |cells| && RunCells(s, cells[..k]).Err?
    ensures RunCells(s, cells) == RunCells(s, cells[..k])
  {
    if k == |cells| {
      assert cells[..k] == cells;
    } else {
      assert cells[..|cells| - 1][..k] == cells[..k];
      FailsEarly(s, cells[..|cells| - 1], k);
    }
  }

  predicate DistinctNames(cells: seq<Cell>) {
    forall i, j :: 0 <= i < j < |cells| ==> cells[i].name != cells[j].name
  }

  lemma LastIsNew(cells: seq<Cell>)
    requires cells != [] && DistinctNames(cells)
    ensures cells[|cells| - 1].name !in NamesOfCells(cells[..|cells| - 1])
  {
  }

  /** In the results of a run each cell keeps the value it was given, next to those of the cells before it. */
  lemma {:induction false} CellKept(s: Setting, cells: seq<Cell>, i: nat, c: map<string, Val>)
    requires i < |cells| && DistinctNames(cells) && RunCells(s, cells) == Ok(c)
    ensures RunCells(s, cells[..i]).Ok? && cells[i].name in c
    ensures CellValue(s, RunCells(s, cells[..i]).v, cells[i].body) == Ok(c[cells[i].name])
    ensures forall n :: n in RunCells(s, cells[..i]).v ==> n in c && c[n] == RunCells(s, cells[..i]).v[n]
  {
    var last := |cells| - 1;
    ResultNames(s, cells[..last]);
    LastIsNew(cells);
    if i < last {
      assert cells[..last][..i] == cells[..i];
      CellKept(s, cells[..last], i, RunCells(s, cells[..last]).v);
    }
  }

  lemma {:induction false} ResultNames(s: Setting, cells: seq<Cell>)
    ensures RunCells(s, cells).Ok? ==> RunCells(s, cells).v.Keys == NamesOfCells(cells)
  {
    if cells != [] {
      ResultNames(s, cells[..|cells| - 1]);
      NamesSnoc(cells);
    }
  }

  // ----- One cell -----

  function CellSetting(s: Setting, r: map<string, Val>): Laws.Setting {
    Laws.Setting(SheetHost(s.host, s.handle, r), s.limit, CellScopes(s.ns, s.handle, s.env), Root, s.depth)
  }

  lemma CellName(s: Setting, r: map<string, Val>, x: string, env: map<string, Val>)
    requires s.env == Layer(env, NoScope)
    ensures x != s.ns && x in env ==> CellValue(s, r, Var(x)) == Ok(env[x])
    ensures x != s.ns && x !in env ==> CellValue(s, r, Var(x)) == s.host(r).ask(Global(x))
    ensures CellValue(s, r, Var(s.ns)) == Ok(HostV(s.handle))
  {
    var g := CellSetting(s, r);
    Laws.FreeName(g, x, map[s.ns := HostV(s.handle)], s.env);
    Laws.FreeName(g.(sc := s.env), x, env, NoScope);
    Laws.FreeName(g.(sc := NoScope), x, env, NoScope);
    Laws.FreeName(g, s.ns, map[s.ns := HostV(s.handle)], s.env);
  }

  /** The ways of naming another cell: `ns.n`, `ns?.n`, `ns["n"]` and `ns?.["n"]`. */
  function Reference(ns: string, n: string, quoted: bool, optional: bool): Expr {
    if quoted then IndexE(Var(ns), Const(CStr(n)), optional) else Member(Var(ns), n, optional)
  }

  lemma CellReference(s: Setting, r: map<string, Val>, n: string, quoted: bool, optional: bool, env: map<string, Val>)
    requires s.env == Layer(env, NoScope) && !s.host(r).isNil(s.handle)
    ensures CellValue(s, r, Reference(s.ns, n, quoted, optional)) == if n in r then Ok(r[n]) else Err(KeyNotFound(n))
  {
    var g, t := CellSetting(s, r), HostV(s.handle);
    CellName(s, r, s.ns, env);
    assert Laws.Gives(g, Var(s.ns), t);
    if quoted {
      Laws.LiteralLaw(g, CStr(n), [], Var(n));
      Laws.IndexLaw(g, Var(s.ns), Const(CStr(n)), t, Lit(CStr(n)), optional);
    } else {
      Laws.MemberLaw(g, Var(s.ns), n, t);
    }
  }

  // ----- A whole run -----

  /** A cell that is a name of the caller's environment has the environment's value; a name defined
      nowhere is what the surroundings answer once the cells before it are filled in; and the bare
      namespace is the handle of the results map. */
  lemma EnvironmentCells(s: Setting, cells: seq<Cell>, c: map<string, Val>, i: nat, x: string, env: map<string, Val>)
    requires RunCells(s, cells) == Ok(c) && DistinctNames(cells) && i < |cells| && s.env == Layer(env, NoScope)
    requires cells[i].body == Var(x)
    ensures cells[i].name in c && RunCells(s, cells[..i]).Ok?
    ensures x != s.ns && x in env ==> c[cells[i].name] == env[x]
    ensures x != s.ns && x !in env ==>
      s.host(RunCells(s, cells[..i]).v).ask(Global(x)) == Ok(c[cells[i].name])
    ensures x == s.ns ==> c[cells[i].name] == HostV(s.handle)
  {
    CellKept(s, cells, i, c);
    CellName(s, RunCells(s, cells[..i]).v, x, env);
  }

  /** A name that neither the environment nor the surroundings know ends the run with their error. */
  lemma UndefinedCell(s: Setting, cells: seq<Cell>, r: map<string, Val>, i: nat, x: string, env: map<string, Val>,
      e: Error)
    requires i < |cells| && RunCells(s, cells[..i]) == Ok(r) && s.env == Layer(env, NoScope)
    requires cells[i].body == Var(x) && x != s.ns && x !in env && s.host(r).ask(Global(x)) == Err(e)
    ensures RunCells(s, cells) == Err(e)
  {
    CellName(s, r, x, env);
    assert cells[..i + 1][..i] == cells[..i];
    FailsEarly(s, cells, i + 1);
  }

  lemma MemberReference(s: Setting, r: map<string, Val>, n: string, env: map<string, Val>)
    requires s.env == Layer(env, NoScope)
    ensures CellValue(s, r, Member(Var(s.ns), n, false)) == if n in r then Ok(r[n]) else Err(KeyNotFound(n))
  {
    CellName(s, r, s.ns, env);
    Laws.MemberLaw(CellSetting(s, r), Var(s.ns), n, HostV(s.handle));
  }

  /** A cell that is `ns.n` has the value of the cell n. */
  lemma MemberCells(s: Setting, cells: seq<Cell>, c: map<string, Val>, i: nat, n: string, env: map<string, Val>)
    requires RunCells(s, cells) == Ok(c) && DistinctNames(cells) && i < |cells| && s.env == Layer(env, NoScope)
    requires cells[i].body == Member(Var(s.ns), n, false)
    ensures n in c && cells[i].name in c && c[cells[i].name] == c[n]
  {
    CellKept(s, cells, i, c);
    MemberReference(s, RunCells(s, cells[..i]).v, n, env);
  }

  /** The same for every way of naming a cell, where the surroundings do not take the results map for a nil. */
  lemma ReferenceCells(s: Setting, cells: seq<Cell>, c: map<string, Val>, i: nat, n: string, quoted: bool,
      optional: bool,
      env: map<string, Val>)
    requires RunCells(s, cells) == Ok(c) && DistinctNames(cells) && i < |cells| && s.env == Layer(env, NoScope)
    requires cells[i].body == Reference(s.ns, n, quoted, optional)
    requires forall r {:trigger s.host(r)} :: !s.host(r).isNil(s.handle)
    ensures n in c && cells[i].name in c && c[cells[i].name] == c[n]
  {
    CellKept(s, cells, i, c);
    CellReference(s, RunCells(s, cells[..i]).v, n, quoted, optional, env);
  }
}
