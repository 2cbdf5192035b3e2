// What a cell's value depends on. The map of results that all cells of a run share is a Go map
// held by reference, so here it is a host value: a handle whose contents the host supplies.

module SheetCells {
  import opened Values
  import opened Mapping
  import opened Syntax
  import opened CompilerSpec
  import opened Semantics
  import opened SheetRefs
  import Fold
  import Compiled

  /** What the host answers while the results map of a run holds given contents. A builtin may call
      closures back, and those read the map, so its answers may depend on what is in it. */
  type Hosts<!F> = map<string, Value<F>> -> Host<F>

  /** The host while the results map known to it as `handle` holds `results`. */
  function SheetHost<F>(hosts: Hosts<F>, handle: int, results: map<string, Value<F>>): Host<F> {
    var h := hosts(results);
    h.(ask := (q: Question<F>) =>
      if q.MemberOf? && q.a == HostV(handle) then
        if q.name in results then Ok(results[q.name]) else Err(KeyNotFound(q.name))
      else if q.ItemOf? && q.a == HostV(handle) then
        if !(q.b.Lit? && q.b.c.CStr?) then Err(KeyNotString)
        else if q.b.c.s in results then Ok(results[q.b.c.s]) else Err(KeyNotFound(q.b.c.s))
      else h.ask(q))
  }

  /** ns is the namespace, handle the results map it is bound to, and cells the names of the cells
      that may be read through it. */
  datatype Zone = Zone(fo: FloatOps, ns: string, handle: int, cells: set<string>)

  // ----- Expressions that use the namespace only to read cells by name -----

  /** The cell read by a form, when its target is the namespace itself. */
  function CellRead(z: Zone, f: Form, names: Names): Option<string> {
    if !f.Strict? || !Unshadowed(names, z.ns) then None
    else if f.operands.One? && f.operands.a == Var(z.ns) then
      match f.op
      case Access(n) => Some(n)
      case OptAccess(n) => Some(n)
      case _ => None
    else if f.operands.Two? && f.operands.a == Var(z.ns) &&
      (f.op.Index? || f.op.OptIndex?) then KeyOf(z.fo, f.operands.b)
    else None
  }

  /** Every unshadowed use of the namespace in e reads one of the zone's cells by a name known
      before the run. */
  predicate Confined(z: Zone, e: Expr, names: Names)
    decreases Size(e), 1
  {
    FormSmaller(e);
    ConfinedForm(z, FormOf(e), names)
  }

  predicate ConfinedForm(z: Zone, f: Form, names: Names)
    decreases FormSize(f), 4
  {
    if CellRead(z, f, names).Some? then CellRead(z, f, names).value in z.cells else
    match f
    case Constant(_) => true
    case Name(x) => !(x == z.ns && Unshadowed(names, z.ns))
    case Closure(ps, b) => Confined(z, b, names + [ps])
    case Binding(x, v, b) => Confined(z, v, names) && Confined(z, b, names + [[x]])
    case Branch(c, y, n) => Confined(z, c, names) && Confined(z, y, names) && Confined(z, n, names)
    case Fallback(l, r) => Confined(z, l, names) && Confined(z, r, names)
    case Invoke(o) => ConfinedOps(z, o, names)
    case Strict(_, o) => ConfinedOps(z, o, names)
  }

  predicate ConfinedOps(z: Zone, o: Operands, names: Names)
    decreases OpSize(o), 3
  {
    ListSize(o);
    ConfinedAll(z, ListOf(o), names)
  }

  predicate ConfinedAll(z: Zone, es: seq<Expr>, names: Names)
    decreases SizeAll(es), 2
  {
    es == [] || (Confined(z, es[0], names) && ConfinedAll(z, es[1..], names))
  }

  // ----- Values from which the results map can be reached only that way -----

  ghost predicate Good(z: Zone, v: Val)
    decreases v
  {
    match v
    case Lit(_) => true
    case HostV(id) => id != z.handle
    case ListV(xs) => forall i :: 0 <= i < |xs| ==> Good(z, xs[i])
    case MapV(m) => forall k :: k in m ==> Good(z, m[k])
    case Clo(f, sc, locals) =>
      && GoodLocals(z, locals)
      && (if Shared(z, sc) then Plain(z, sc.outer) &&
        Confined(z, f.body, NamesOf(locals) + [f.params]) else Plain(z, sc))
  }

  /** Scopes with the results map under the namespace on top. */
  predicate Shared(z: Zone, sc: Scopes<Lam>) {
    sc.Layer? && sc.inner == map[z.ns := HostV(z.handle)]
  }

  ghost predicate Plain(z: Zone, sc: Scopes<Lam>)
    decreases sc
  {
    match sc
    case NoScope => true
    case Layer(inner, outer) => (forall k :: k in inner ==> Good(z, inner[k])) && Plain(z, outer)
  }

  ghost predicate GoodLocals(z: Zone, l: Env)
    decreases l
  {
    match l
    case Root => true
    case Frame(parent, binds) => GoodLocals(z, parent) && forall i :: 0 <= i < |binds| ==> Good(z, binds[i].value)
  }

  ghost predicate GoodAll(z: Zone, vs: seq<Val>) {
    forall i :: 0 <= i < |vs| ==> Good(z, vs[i])
  }

  ghost predicate GoodOutcome(z: Zone, o: Outcome<Val>) { o.Ok? ==> Good(z, o.v) }

  ghost predicate GoodQuestion(z: Zone, q: Question<Lam>) {
    match q
    case Global(_) => true
    case Combining(_, a, b) => Good(z, a) && Good(z, b)
    case Negating(a) => Good(z, a)
    case MemberOf(a, _) => Good(z, a)
    case ItemOf(a, b) => Good(z, a) && Good(z, b)
    case PartOf(a, lo, hi) => Good(z, a) && Good(z, lo) && Good(z, hi)
    case Contains(a, b) => Good(z, a) && Good(z, b)
    case Calling(f, args) => Good(z, f) && GoodAll(z, args)
  }

  /** Both maps hold the same good value for every cell of the zone. */
  ghost predicate Agreed(z: Zone, r: map<string, Val>, r': map<string, Val>) {
    forall n :: n in z.cells ==> n in r && n in r' && r[n] == r'[n] && Good(z, r[n])
  }

  /** The two hosts answer alike, and well, whatever is asked about good values only. */
  ghost predicate Twins(z: Zone, g: Host<Lam>, g': Host<Lam>) {
    && g.float == g'.float == z.fo && g.regexMatch == g'.regexMatch && g.isNil == g'.isNil && !g.isNil(z.handle)
    && forall q: Question<Lam> {:trigger GoodQuestion(z, q)} :: GoodQuestion(z, q) ==>
      g'.ask(q) == g.ask(q) && GoodOutcome(z, g.ask(q))
  }

  /** A host has no handle to the results map of a run but those it is given, and finds out about
      its contents only by calling closures that read them: asked about values that can read certain
      cells only, it does not notice what else is in the map. */
  ghost predicate Discreet(hosts: Hosts<Lam>, handle: int) {
    forall z: Zone, r, r' {:trigger Agreed(z, r, r')} ::
      z.fo == hosts(map[]).float && z.handle == handle && Agreed(z, r, r') ==> Twins(z, hosts(r), hosts(r'))
  }

  lemma RoomTwins(z: Zone, hosts: Hosts<Lam>, r: map<string, Val>, r': map<string, Val>)
    requires Discreet(hosts, z.handle) && z.fo == hosts(map[]).float && Agreed(z, r, r')
    ensures Twins(z, SheetHost(hosts, z.handle, r), SheetHost(hosts, z.handle, r'))
  {
    assert Twins(z, hosts(r), hosts(r'));
  }

  // ----- Strict opcodes on such values do not look at the results map -----

  ghost predicate Alike(z: Zone, o: Outcome<Val>, o': Outcome<Val>) { o == o' && GoodOutcome(z, o) }

  lemma AskGood(z: Zone, g: Host<Lam>, g': Host<Lam>, q: Question<Lam>)
    requires Twins(z, g, g') && GoodQuestion(z, q)
    ensures Alike(z, g.ask(q), g'.ask(q))
  {
  }

  lemma CombineGood(z: Zone, g: Host<Lam>, g': Host<Lam>, op: BinOp, a: Val, b: Val)
    requires Twins(z, g, g') && Good(z, a) && Good(z, b)
    ensures Alike(z, Combine(g, op, a, b), Combine(g', op, a, b)) && Alike(z, Binary(g, op, a, b), Binary(g', op, a, b))
  {
    AskGood(z, g, g', Combining(op, a, b));
  }

  lemma {:induction false} InListGood(z: Zone, g: Host<Lam>, g': Host<Lam>, a: Val, xs: seq<Val>)
    requires Twins(z, g, g') && Good(z, a) && GoodAll(z, xs)
    ensures Alike(z, InList(g, a, xs), InList(g', a, xs))
  {
    if xs != [] {
      CombineGood(z, g, g', Eq, a, xs[0]);
      InListGood(z, g, g', a, xs[1..]);
    }
  }

  lemma {:induction false} BuildMapGood(z: Zone, kvs: seq<Val>)
    requires |kvs| % 2 == 0 && GoodAll(z, kvs)
    ensures BuildMap(kvs).Ok? ==> Good(z, MapV(BuildMap(kvs).v))
  {
    if kvs != [] { BuildMapGood(z, kvs[2..]); }
  }

  lemma IndexGood(z: Zone, g: Host<Lam>, g': Host<Lam>, t: Val, i: Val)
    requires Twins(z, g, g') && Good(z, t) && Good(z, i)
    ensures Alike(z, IndexValue(g, t, i), IndexValue(g', t, i))
  {
    AskGood(z, g, g', ItemOf(t, i));
  }

  lemma SliceGood(z: Zone, g: Host<Lam>, g': Host<Lam>, t: Val, lo: Val, hi: Val)
    requires Twins(z, g, g') && Good(z, t) && Good(z, lo) && Good(z, hi)
    ensures Alike(z, SliceValue(g, t, lo, hi), SliceValue(g', t, lo, hi))
  {
    AskGood(z, g, g', PartOf(t, lo, hi));
  }

  lemma InGood(z: Zone, g: Host<Lam>, g': Host<Lam>, a: Val, b: Val)
    requires Twins(z, g, g') && Good(z, a) && Good(z, b)
    ensures Alike(z, InValue(g, a, b), InValue(g', a, b))
  {
    AskGood(z, g, g', Contains(a, b));
    if b.ListV? { InListGood(z, g, g', a, b.xs); }
  }

  lemma AccessGood(z: Zone, g: Host<Lam>, g': Host<Lam>, t: Val, n: string)
    requires Twins(z, g, g') && Good(z, t)
    ensures Alike(z, AccessMember(g, t, n), AccessMember(g', t, n))
  {
    AskGood(z, g, g', MemberOf(t, n));
  }

  lemma OperateGood(z: Zone, g: Host<Lam>, g': Host<Lam>, op: Operator, a: seq<Val>)
    requires Twins(z, g, g') && |a| == Arity(op) && GoodAll(z, a)
    ensures Alike(z, Operate(g, op, a), Operate(g', op, a))
  {
    match op
    case Bin(o) => CombineGood(z, g, g', o, a[0], a[1]);
    case In => InGood(z, g, g', a[0], a[1]);
    case Matches =>
    case Neg => AskGood(z, g, g', Negating(a[0]));
    case Not =>
    case Access(n) => AccessGood(z, g, g', a[0], n);
    case OptAccess(n) => AccessGood(z, g, g', a[0], n);
    case Index => IndexGood(z, g, g', a[0], a[1]);
    case OptIndex => IndexGood(z, g, g', a[0], a[1]);
    case Slice => SliceGood(z, g, g', a[0], a[1], a[2]);
    case MakeList(_) =>
    case MakeMap(_) => BuildMapGood(z, a);
  }

  // ----- A confined evaluation depends on the results map only through the zone's cells -----

  ghost predicate GoodScopes(z: Zone, sc: Scopes<Lam>) {
    if Shared(z, sc) then Plain(z, sc.outer) else Plain(z, sc)
  }

  ghost predicate Fit(z: Zone, h: Hosts<Lam>, r: map<string, Val>, r': map<string, Val>, sc: Scopes<Lam>, env: Env) {
    Discreet(h, z.handle) && z.fo == h(map[]).float && Agreed(z, r, r') && GoodScopes(z, sc) && GoodLocals(z, env)
  }

  lemma {:induction false} PlainLookup(z: Zone, sc: Scopes<Lam>, x: string)
    requires Plain(z, sc) && LookupScopes(sc, x).Some?
    ensures Good(z, LookupScopes(sc, x).value)
  {
    if x !in sc.inner { PlainLookup(z, sc.outer, x); }
  }

  lemma {:induction false} BindsLookup(z: Zone, binds: seq<Bind<Lam>>, x: string)
    requires forall i :: 0 <= i < |binds| ==> Good(z, binds[i].value)
    requires LookupBinds(binds, x).Some?
    ensures Good(z, LookupBinds(binds, x).value)
  {
    if binds[|binds| - 1].name != x { BindsLookup(z, binds[..|binds| - 1], x); }
  }

  lemma {:induction false} LocalsLookup(z: Zone, env: Env, x: string)
    requires GoodLocals(z, env) && Lookup(env, x).Some?
    ensures Good(z, Lookup(env, x).value)
  {
    if LookupBinds(env.binds, x).Some? { BindsLookup(z, env.binds, x); } else { LocalsLookup(z, env.parent, x); }
  }

  lemma NameGood(z: Zone, g: Host<Lam>, g': Host<Lam>, x: string, sc: Scopes<Lam>, env: Env)
    requires Twins(z, g, g') && GoodScopes(z, sc) && GoodLocals(z, env)
    requires Shared(z, sc) && x == z.ns ==> Lookup(env, x).Some?
    ensures Lookup(env, x).Some? ==> Good(z, Lookup(env, x).value)
    ensures Lookup(env, x).None? ==> Alike(z, LoadName(g, sc, x), LoadName(g', sc, x))
  {
    AskGood(z, g, g', Global(x));
    if Lookup(env, x).Some? { LocalsLookup(z, env, x); }
    var plain := if Shared(z, sc) then sc.outer else sc;
    if LookupScopes(plain, x).Some? { PlainLookup(z, plain, x); }
  }

  /** The namespace, looked up where nothing shadows it, is the handle. */
  lemma NamespaceValue(z: Zone, h: Host<Lam>, limit: nat, sc: Scopes<Lam>, env: Env, d: nat)
    requires Shared(z, sc) && Unshadowed(NamesOf(env), z.ns)
    ensures Eval(h, limit, Var(z.ns), sc, env, d) == Ok(HostV(z.handle))
  {
    FormSmaller(Var(z.ns));
    Compiled.LookupAddress(env, z.ns);
  }

  /** The key a constant index is folded to is the one computed when the cell runs. */
  lemma KeyValue(h: Host<Lam>, limit: nat, i: Expr, sc: Scopes<Lam>, env: Env, d: nat)
    requires KeyOf(h.float, i).Some?
    ensures Eval(h, limit, i, sc, env, d) == Ok(Lit(CStr(KeyOf(h.float, i).value)))
  {
    Fold.LiteralValue(h.float, false, h, limit, i, sc, env, d);
  }

  /** The strict opcodes that read a member or an item of the results map find what it holds. */
  lemma HandleReads<F>(h: Hosts<F>, handle: int, r: map<string, Value<F>>, n: string)
    requires !h(r).isNil(handle) && n in r
    ensures
      var g, t := SheetHost(h, handle, r), HostV(handle);
      && Operate(g, Access(n), [t]) == Ok(r[n]) && Operate(g, OptAccess(n), [t]) == Ok(r[n])
      && Operate(g, Index, [t, Lit(CStr(n))]) == Ok(r[n]) && Operate(g, OptIndex, [t, Lit(CStr(n))]) == Ok(r[n])
  {
  }

  /** A read of the namespace gives what the results map holds. */
  lemma CellReadValue(z: Zone, h: Hosts<Lam>, r: map<string, Val>, limit: nat, f: Form, sc: Scopes<Lam>, env: Env,
      d: nat)
    requires !h(r).isNil(z.handle) && z.fo == h(r).float && Shared(z, sc) && FormFits(f)
    requires CellRead(z, f, NamesOf(env)).Some? && CellRead(z, f, NamesOf(env)).value in r
    ensures EvalForm(SheetHost(h, z.handle, r), limit, f, sc, env, d) == Ok(r[CellRead(z, f, NamesOf(env)).value])
  {
    var g, n := SheetHost(h, z.handle, r), CellRead(z, f, NamesOf(env)).value;
    NamespaceValue(z, g, limit, sc, env, d);
    HandleReads(h, z.handle, r, n);
    if f.operands.One? {
      Fold.EvalOne(g, limit, f.operands.a, sc, env, d);
      StrictValue(g, limit, f, sc, env, d, [HostV(z.handle)]);
    } else {
      Fold.EvalTwo(g, limit, f.operands.a, f.operands.b, sc, env, d);
      KeyValue(g, limit, f.operands.b, sc, env, d);
      StrictValue(g, limit, f, sc, env, d, [HostV(z.handle), Lit(CStr(n))]);
    }
  }

  lemma StrictValue(h: Host<Lam>, limit: nat, f: Form, sc: Scopes<Lam>, env: Env, d: nat, vs: seq<Val>)
    requires f.Strict? && FormFits(f) && EvalOps(h, limit, f.operands, sc, env, d) == Ok(vs)
    ensures |vs| == Arity(f.op) && EvalForm(h, limit, f, sc, env, d) == Operate(h, f.op, vs)
  {
  }

  lemma {:induction false} OnlyCellsMatter(z: Zone, h: Hosts<Lam>, r: map<string, Val>, r': map<string, Val>,
      limit: nat, e: Expr, sc: Scopes<Lam>, env: Env, d: nat, o: Outcome<Val>)
    requires Fit(z, h, r, r', sc, env) && (Shared(z, sc) ==> Confined(z, e, NamesOf(env)))
    requires o == Eval(SheetHost(h, z.handle, r), limit, e, sc, env, d)
    ensures Eval(SheetHost(h, z.handle, r'), limit, e, sc, env, d) == o && GoodOutcome(z, o)
    decreases limit - d, Size(e), 1
  {
    FormSmaller(e);
    FormMatters(z, h, r, r', limit, FormOf(e), sc, env, d, o);
  }

  lemma {:induction false} FormMatters(z: Zone, h: Hosts<Lam>, r: map<string, Val>, r': map<string, Val>, limit: nat,
      f: Form, sc: Scopes<Lam>, env: Env, d: nat, o: Outcome<Val>)
    requires Fit(z, h, r, r', sc, env) && FormFits(f) && (Shared(z, sc) ==> ConfinedForm(z, f, NamesOf(env)))
    requires o == EvalForm(SheetHost(h, z.handle, r), limit, f, sc, env, d)
    ensures EvalForm(SheetHost(h, z.handle, r'), limit, f, sc, env, d) == o && GoodOutcome(z, o)
    decreases limit - d, FormSize(f), 5
  {
    var g, g' := SheetHost(h, z.handle, r), SheetHost(h, z.handle, r');
    RoomTwins(z, h, r, r');
    if Shared(z, sc) && CellRead(z, f, NamesOf(env)).Some? {
      CellReadValue(z, h, r, limit, f, sc, env, d);
      CellReadValue(z, h, r', limit, f, sc, env, d);
    } else {
      match f
      case Constant(_) =>
      case Name(x) =>
        Compiled.LookupAddress(env, x);
        NameGood(z, g, g', x, sc, env);
      case Closure(_, _) =>
      case Binding(_, _, _) => BindingMatters(z, h, r, r', limit, f, sc, env, d, o);
      case Branch(_, _, _) => BranchMatters(z, h, r, r', limit, f, sc, env, d, o);
      case Fallback(_, _) => FallbackMatters(z, h, r, r', limit, f, sc, env, d, o);
      case Invoke(ops) =>
        var vs := EvalOps(SheetHost(h, z.handle, r), limit, ops, sc, env, d);
        OpsMatter(z, h, r, r', limit, ops, sc, env, d, vs);
        if vs.Ok? { ApplyMatters(z, h, r, r', limit, vs.v[0], vs.v[1..], d); }
      case Strict(op, ops) =>
        var vs := EvalOps(SheetHost(h, z.handle, r), limit, ops, sc, env, d);
        OpsMatter(z, h, r, r', limit, ops, sc, env, d, vs);
        if vs.Ok? { OperateGood(z, g, g', op, vs.v); }
    }
  }

  lemma {:induction false} BindingMatters(z: Zone, h: Hosts<Lam>, r: map<string, Val>, r': map<string, Val>,
      limit: nat, f: Form, sc: Scopes<Lam>, env: Env, d: nat, o: Outcome<Val>)
    requires Fit(z, h, r, r', sc, env) && f.Binding? && (Shared(z, sc) ==> ConfinedForm(z, f, NamesOf(env)))
    requires o == EvalForm(SheetHost(h, z.handle, r), limit, f, sc, env, d)
    ensures EvalForm(SheetHost(h, z.handle, r'), limit, f, sc, env, d) == o && GoodOutcome(z, o)
    decreases limit - d, FormSize(f), 4
  {
    var v := Eval(SheetHost(h, z.handle, r), limit, f.value, sc, env, d);
    OnlyCellsMatter(z, h, r, r', limit, f.value, sc, env, d, v);
    if v.Ok? && d < limit {
      var env' := Frame(env, [Bind(f.x, v.v)]);
      assert BindNames(env'.binds) == [f.x];
      OnlyCellsMatter(z, h, r, r', limit, f.body, sc, env', d + 1, o);
    }
  }

  lemma {:induction false} BranchMatters(z: Zone, h: Hosts<Lam>, r: map<string, Val>, r': map<string, Val>,
      limit: nat, f: Form, sc: Scopes<Lam>, env: Env, d: nat, o: Outcome<Val>)
    requires Fit(z, h, r, r', sc, env) && f.Branch? && (Shared(z, sc) ==> ConfinedForm(z, f, NamesOf(env)))
    requires o == EvalForm(SheetHost(h, z.handle, r), limit, f, sc, env, d)
    ensures EvalForm(SheetHost(h, z.handle, r'), limit, f, sc, env, d) == o && GoodOutcome(z, o)
    decreases limit - d, FormSize(f), 4
  {
    var c := Eval(SheetHost(h, z.handle, r), limit, f.cond, sc, env, d);
    OnlyCellsMatter(z, h, r, r', limit, f.cond, sc, env, d, c);
    if Condition(c).Ok? {
      if Condition(c).v {
        OnlyCellsMatter(z, h, r, r', limit, f.yes, sc, env, d, o);
      } else {
        OnlyCellsMatter(z, h, r, r', limit, f.no, sc, env, d, o);
      }
    }
  }

  lemma {:induction false} FallbackMatters(z: Zone, h: Hosts<Lam>, r: map<string, Val>, r': map<string, Val>,
      limit: nat, f: Form, sc: Scopes<Lam>, env: Env, d: nat, o: Outcome<Val>)
    requires Fit(z, h, r, r', sc, env) && f.Fallback? && (Shared(z, sc) ==> ConfinedForm(z, f, NamesOf(env)))
    requires o == EvalForm(SheetHost(h, z.handle, r), limit, f, sc, env, d)
    ensures EvalForm(SheetHost(h, z.handle, r'), limit, f, sc, env, d) == o && GoodOutcome(z, o)
    decreases limit - d, FormSize(f), 4
  {
    if d < limit {
      var l := Eval(SheetHost(h, z.handle, r), limit, f.left, sc, env, d + 1);
      OnlyCellsMatter(z, h, r, r', limit, f.left, sc, env, d + 1, l);
      RoomTwins(z, h, r, r');
      if l.Err? || IsNil(SheetHost(h, z.handle, r), l.v) {
        OnlyCellsMatter(z, h, r, r', limit, f.right, sc, env, d, o);
      }
    }
  }

  lemma {:induction false} ApplyMatters(z: Zone, h: Hosts<Lam>, r: map<string, Val>, r': map<string, Val>, limit: nat,
      callee: Val, args: seq<Val>, d: nat)
    requires Discreet(h, z.handle) && z.fo == h(map[]).float && Agreed(z, r, r') && Good(z, callee) && GoodAll(z, args)
    ensures Apply(SheetHost(h, z.handle, r'), limit, callee, args, d) ==
        Apply(SheetHost(h, z.handle, r), limit, callee, args, d)
    ensures GoodOutcome(z, Apply(SheetHost(h, z.handle, r), limit, callee, args, d))
    decreases limit - d, 0, 0
  {
    if !callee.Clo? {
      RoomTwins(z, h, r, r');
      AskGood(z, SheetHost(h, z.handle, r), SheetHost(h, z.handle, r'), Calling(callee, args));
    } else if |callee.fn.params| == |args| && d < limit {
      var env := Frame(callee.locals, BindAll(callee.fn.params, args));
      assert BindNames(env.binds) == callee.fn.params;
      OnlyCellsMatter(z, h, r, r', limit, callee.fn.body, callee.scopes, env, d + 1,
        Eval(SheetHost(h, z.handle, r), limit, callee.fn.body, callee.scopes, env, d + 1));
    }
  }

  lemma {:induction false} OpsMatter(z: Zone, h: Hosts<Lam>, r: map<string, Val>, r': map<string, Val>, limit: nat,
      ops: Operands, sc: Scopes<Lam>, env: Env, d: nat, o: Outcome<seq<Val>>)
    requires Fit(z, h, r, r', sc, env) && (Shared(z, sc) ==> ConfinedOps(z, ops, NamesOf(env)))
    requires o == EvalOps(SheetHost(h, z.handle, r), limit, ops, sc, env, d)
    ensures EvalOps(SheetHost(h, z.handle, r'), limit, ops, sc, env, d) == o && (o.Ok? ==> GoodAll(z, o.v))
    decreases limit - d, OpSize(ops), 3
  {
    ListSize(ops);
    AllMatter(z, h, r, r', limit, ListOf(ops), sc, env, d, o);
  }

  lemma {:induction false} AllMatter(z: Zone, h: Hosts<Lam>, r: map<string, Val>, r': map<string, Val>, limit: nat,
      es: seq<Expr>, sc: Scopes<Lam>, env: Env, d: nat, o: Outcome<seq<Val>>)
    requires Fit(z, h, r, r', sc, env) && (Shared(z, sc) ==> ConfinedAll(z, es, NamesOf(env)))
    requires o == EvalAll(SheetHost(h, z.handle, r), limit, es, sc, env, d)
    ensures EvalAll(SheetHost(h, z.handle, r'), limit, es, sc, env, d) == o && (o.Ok? ==> GoodAll(z, o.v))
    decreases limit - d, SizeAll(es), 2
  {
    if es != [] {
      var v := Eval(SheetHost(h, z.handle, r), limit, es[0], sc, env, d);
      OnlyCellsMatter(z, h, r, r', limit, es[0], sc, env, d, v);
      if v.Ok? {
        AllMatter(z, h, r, r', limit, es[1..], sc, env, d,
          EvalAll(SheetHost(h, z.handle, r), limit, es[1..], sc, env, d));
      }
    }
  }
}
