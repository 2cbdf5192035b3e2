// Ordering cells so that each comes after the cells it reads, or naming a cycle that forbids it.

module SheetOrder {
  import opened Values

  type Graph = map<string, seq<string>>

  /** Every dependency of a cell is a cell. */
  ghost predicate Closed(g: Graph) {
    forall c, i :: c in g && 0 <= i < |g[c]| ==> g[c][i] in g
  }

  ghost predicate Edge(g: Graph, a: string, b: string) { a in g && b in g[a] }

  ghost predicate Path(g: Graph, p: seq<string>) {
    forall i :: 0 <= i < |p| - 1 ==> Edge(g, p[i], p[i + 1])
  }

  /** A walk along dependency edges that ends where it began. */
  ghost predicate Cycle(g: Graph, p: seq<string>) {
    |p| >= 2 && p[0] == p[|p| - 1] && Path(g, p)
  }

  ghost predicate Distinct(s: seq<string>) {
    forall i, j :: 0 <= i < j < |s| ==> s[i] != s[j]
  }

  /** Every dependency of a listed cell is listed before it. */
  ghost predicate DepsFirst(g: Graph, order: seq<string>) {
    forall i, b :: 0 <= i < |order| && Edge(g, order[i], b) ==> b in order[..i]
  }

  ghost predicate Sorted(g: Graph, order: seq<string>) {
    Distinct(order) && (forall c :: c in order <==> c in g) && DepsFirst(g, order)
  }

  datatype Mark = Unvisited | Visiting | Finished

  datatype Sorting = Order(cells: seq<string>) | Cyclic(cycle: seq<string>)

  class Sorter {
    const deps: Graph
    var state: map<string, Mark>
    var order: seq<string>
    var path: seq<string>

    constructor (deps: Graph)
      requires Closed(deps)
      ensures this.deps == deps && Valid() && path == [] && order == []
    {
      this.deps := deps;
      state, order, path := map[], [], [];
    }

    function StateOf(c: string): Mark
      reads this
    {
      if c in state then state[c] else Unvisited
    }

    /** The cells not yet entered. */
    ghost function Fresh(): set<string>
      reads this
    {
      set c | c in deps && StateOf(c).Unvisited?
    }

    ghost predicate Valid()
      reads this
    {
      && Closed(deps)
      && Distinct(order) && (forall c :: c in order <==> StateOf(c).Finished?) && DepsFirst(deps, order)
      && Distinct(path) && (forall c :: c in path <==> StateOf(c).Visiting?) && Path(deps, path)
      && (forall c :: c in state ==> c in deps)
    }

    /** Enter an unvisited cell and everything it depends on. Recursion ends because every entry
        uses up a cell that had not been visited. */
    method Visit(name: string) returns (cycle: Option<seq<string>>)
      requires Valid() && name in deps && StateOf(name).Unvisited?
      requires path != [] ==> Edge(deps, path[|path| - 1], name)
      modifies this
      ensures cycle.Some? ==> Cycle(deps, cycle.value)
      ensures cycle.None? ==> Valid() && path == old(path) && StateOf(name).Finished?
      ensures cycle.None? ==> Fresh() < old(Fresh()) && old(order) <= order
      decreases Fresh()
    {
      var ds := deps[name];
      Enter(name);
      ghost var entered := path;
      for i := 0 to |ds|
        invariant Valid() && path == entered && StateOf(name).Visiting? && old(order) <= order
        invariant Fresh() < old(Fresh())
        invariant forall k :: 0 <= k < i ==> ds[k] in order
      {
        var dep := ds[i];
        assert Edge(deps, name, dep);
        match StateOf(dep) {
          case Unvisited =>
            cycle := Visit(dep);
            if cycle.Some? { return; }
          case Visiting =>
            var c := CycleTo(dep);
            return Some(c);
          case Finished =>
        }
      }
      Leave(name);
      return None;
    }

    method Enter(name: string)
      requires Valid() && name in deps && StateOf(name).Unvisited?
      requires path != [] ==> Edge(deps, path[|path| - 1], name)
      modifies this`state, this`path
      ensures Valid() && path == old(path) + [name] && state == old(state)[name := Visiting]
      ensures Fresh() == old(Fresh()) - {name}
    {
      assert name !in path;
      state := state[name := Visiting];
      path := path + [name];
    }

    /** The part of the current path from dep on, closed by the edge back to dep. */
    method CycleTo(dep: string) returns (cycle: seq<string>)
      requires Valid() && dep in path && Edge(deps, path[|path| - 1], dep)
      ensures Cycle(deps, cycle)
    {
      var idx := |path| - 1;
      while path[idx] != dep
        invariant 0 <= idx < |path| && dep in path[..idx + 1]
        decreases idx
      {
        assert path[..idx + 1] == path[..idx] + [path[idx]];
        idx := idx - 1;
      }
      return path[idx..] + [dep];
    }

    /** All dependencies of the last cell on the path are in order: it comes next. */
    method Leave(name: string)
      requires Valid() && path != [] && path[|path| - 1] == name
      requires name in deps && forall k :: 0 <= k < |deps[name]| ==> deps[name][k] in order
      modifies this
      ensures Valid() && path == old(path)[..|old(path)| - 1] && order == old(order) + [name]
      ensures state == old(state)[name := Finished]
    {
      assert name in path && name !in order;
      path := path[..|path| - 1];
      state := state[name := Finished];
      order := order + [name];
      assert old(path) == path + [name];
      forall i, b | 0 <= i < |order| && Edge(deps, order[i], b) ensures b in order[..i] {
        if i < |order| - 1 { assert order[..i] == old(order)[..i]; } else { assert order[..i] == old(order); }
      }
    }
  }

  /** topoSortCells: succeeds with a dependency-first arrangement of all the cells exactly when
      there is no cycle, and otherwise reports one. */
  method TopoSort(cells: seq<string>, deps: Graph) returns (r: Sorting)
    requires Closed(deps) && forall c :: c in cells <==> c in deps
    ensures r.Order? ==> Sorted(deps, r.cells) && !exists p :: Cycle(deps, p)
    ensures r.Cyclic? ==> Cycle(deps, r.cycle)
  {
    var s := new Sorter(deps);
    for i := 0 to |cells|
      invariant fresh(s) && s.deps == deps && s.Valid() && s.path == []
      invariant forall k :: 0 <= k < i ==> cells[k] in s.order
    {
      if s.StateOf(cells[i]).Unvisited? {
        var cycle := s.Visit(cells[i]);
        if cycle.Some? { return Cyclic(cycle.value); }
      }
    }
    SortedAcyclic(deps, s.order);
    return Order(s.order);
  }

  lemma {:induction false} LaterOnPath(g: Graph, order: seq<string>, p: seq<string>, k: nat) returns (i: nat, j: nat)
    requires Sorted(g, order) && Path(g, p) && 0 < k < |p|
    ensures j < i < |order| && order[i] == p[0] && order[j] == p[k]
    decreases k
  {
    var last;
    if k == 1 {
      i :| 0 <= i < |order| && order[i] == p[0];
      last := i;
    } else {
      i, last := LaterOnPath(g, order, p, k - 1);
    }
    assert Edge(g, p[k - 1], p[k]) && p[k] in order[..last];
    j :| 0 <= j < last && order[..last][j] == p[k];
  }

  /** A graph whose cells can be arranged dependency-first has no cycle. */
  lemma SortedAcyclic(g: Graph, order: seq<string>)
    requires Sorted(g, order)
    ensures !exists p :: Cycle(g, p)
  {
    if p :| Cycle(g, p) {
      var i, j := LaterOnPath(g, order, p, |p| - 1);
      assert false;
    }
  }
}
