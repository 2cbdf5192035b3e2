// Replacing the code carried by closures, and the hosts that cannot tell the difference.

module Mapping {
  import opened Values

  /** A closure with code f, created where the frames bind `names`, becomes one with code
      fn(f, names) that keeps only the captured names for which keep(f, _) holds. */
  datatype Mapper<!F, !G> = Mapper(fn: (F, seq<seq<string>>) -> G, keep: (F, string) -> bool)

  /** The names bound by each frame of a chain, outermost frame first. */
  function NamesOf<F>(l: Locals<F>): seq<seq<string>> {
    match l
    case Root => []
    case Frame(parent, binds) => NamesOf(parent) + [BindNames(binds)]
  }

  function BindNames<F>(binds: seq<Bind<F>>): seq<string> {
    seq(|binds|, i requires 0 <= i < |binds| => binds[i].name)
  }

  function Map<F, G>(m: Mapper<F, G>, v: Value<F>): Value<G>
    decreases v
  {
    match v
    case Lit(c) => Lit(c)
    case HostV(id) => HostV(id)
    case ListV(xs) => ListV(MapSeq(m, xs))
    case MapV(mm) => MapV(map k | k in mm :: Map(m, mm[k]))
    case Clo(fn, scopes, locals) =>
      Clo(m.fn(fn, NamesOf(locals)), MapScopes(m, n => m.keep(fn, n), scopes), MapLocals(m, locals))
  }

  function MapScopes<F, G>(m: Mapper<F, G>, keep: string -> bool, sc: Scopes<F>): Scopes<G>
    decreases sc
  {
    match sc
    case NoScope => NoScope
    case Layer(inner, outer) =>
      Layer(map k | k in inner && keep(k) :: Map(m, inner[k]), MapScopes(m, keep, outer))
  }

  function MapLocals<F, G>(m: Mapper<F, G>, l: Locals<F>): Locals<G>
    decreases l
  {
    match l
    case Root => Root
    case Frame(parent, binds) =>
      Frame(MapLocals(m, parent), seq(|binds|,
        i requires 0 <= i < |binds| => Bind(binds[i].name, Map(m, binds[i].value))))
  }

  function MapSeq<F, G>(m: Mapper<F, G>, xs: seq<Value<F>>): seq<Value<G>>
    decreases xs
  {
    seq(|xs|, i requires 0 <= i < |xs| => Map(m, xs[i]))
  }

  function MapEntries<F, G>(m: Mapper<F, G>, mm: map<string, Value<F>>): map<string, Value<G>> {
    map k | k in mm :: Map(m, mm[k])
  }

  function MapOutcome<F, G>(m: Mapper<F, G>, o: Outcome<Value<F>>): Outcome<Value<G>> {
    match o
    case Ok(v) => Ok(Map(m, v))
    case Err(e) => Err(e)
  }

  function MapOutcomes<F, G>(m: Mapper<F, G>, o: Outcome<seq<Value<F>>>): Outcome<seq<Value<G>>> {
    match o
    case Ok(v) => Ok(MapSeq(m, v))
    case Err(e) => Err(e)
  }

  function MapOption<F, G>(m: Mapper<F, G>, o: Option<Value<F>>): Option<Value<G>> {
    match o
    case Some(v) => Some(Map(m, v))
    case None => None
  }

  function MapQuestion<F, G>(m: Mapper<F, G>, q: Question<F>): Question<G> {
    match q
    case Global(n) => Global(n)
    case Combining(op, a, b) => Combining(op, Map(m, a), Map(m, b))
    case Negating(a) => Negating(Map(m, a))
    case MemberOf(a, n) => MemberOf(Map(m, a), n)
    case ItemOf(a, b) => ItemOf(Map(m, a), Map(m, b))
    case PartOf(a, lo, hi) => PartOf(Map(m, a), Map(m, lo), Map(m, hi))
    case Contains(a, b) => Contains(Map(m, a), Map(m, b))
    case Calling(f, args) => Calling(Map(m, f), MapSeq(m, args))
  }

  /** Two instances of one host at two kinds of code. A host may pass closures around but has no
      way to look at what they carry, so its answers commute with any Mapper. */
  ghost predicate Natural<F(!new), G(!new)>(m: Mapper<F, G>, hf: Host<F>, hg: Host<G>) {
    && hg.float == hf.float
    && hg.regexMatch == hf.regexMatch
    && hg.isNil == hf.isNil
    && (forall q {:trigger hf.ask(q)} :: hg.ask(MapQuestion(m, q)) == MapOutcome(m, hf.ask(q)))
  }

  lemma Answer<F(!new), G(!new)>(m: Mapper<F, G>, hf: Host<F>, hg: Host<G>, q: Question<F>)
    requires Natural(m, hf, hg)
    ensures hg.ask(MapQuestion(m, q)) == MapOutcome(m, hf.ask(q))
  {
    var _ := hf.ask(q);
  }

  lemma NamesOfMap<F, G>(m: Mapper<F, G>, l: Locals<F>)
    ensures NamesOf(MapLocals(m, l)) == NamesOf(l)
  {
    match l
    case Root =>
    case Frame(parent, binds) =>
      NamesOfMap(m, parent);
      assert BindNames(MapLocals(m, l).binds) == BindNames(binds);
  }

  lemma MapSeqConcat<F, G>(m: Mapper<F, G>, a: seq<Value<F>>, b: seq<Value<F>>)
    ensures MapSeq(m, a + b) == MapSeq(m, a) + MapSeq(m, b)
  {
  }

  lemma {:induction false} LookupNatural<F, G>(m: Mapper<F, G>, keep: string -> bool, sc: Scopes<F>, name: string)
    requires keep(name)
    ensures LookupScopes(MapScopes(m, keep, sc), name) == MapOption(m, LookupScopes(sc, name))
  {
    match sc
    case NoScope =>
    case Layer(inner, outer) => LookupNatural(m, keep, outer, name);
  }

  lemma LoadNatural<F(!new), G(!new)>(m: Mapper<F, G>, hf: Host<F>, hg: Host<G>, keep: string -> bool, sc: Scopes<F>,
      name: string)
    requires Natural(m, hf, hg) && keep(name)
    ensures LoadName(hg, MapScopes(m, keep, sc), name) == MapOutcome(m, LoadName(hf, sc, name))
  {
    LookupNatural(m, keep, sc, name);
    Answer(m, hf, hg, Global(name));
  }

  lemma CombineNatural<F(!new), G(!new)>(m: Mapper<F, G>, hf: Host<F>, hg: Host<G>, op: BinOp, a: Value<F>, b: Value<F>)
    requires Natural(m, hf, hg)
    ensures Combine(hg, op, Map(m, a), Map(m, b)) == MapOutcome(m, Combine(hf, op, a, b))
    ensures Binary(hg, op, Map(m, a), Map(m, b)) == MapOutcome(m, Binary(hf, op, a, b))
  {
    Answer(m, hf, hg, Combining(op, a, b));
  }

  lemma {:induction false} InListNatural<F(!new), G(!new)>(m: Mapper<F, G>, hf: Host<F>, hg: Host<G>, a: Value<F>,
      xs: seq<Value<F>>)
    requires Natural(m, hf, hg)
    ensures InList(hg, Map(m, a), MapSeq(m, xs)) == MapOutcome(m, InList(hf, a, xs))
  {
    if xs != [] {
      CombineNatural(m, hf, hg, Eq, a, xs[0]);
      InListNatural(m, hf, hg, a, xs[1..]);
      assert MapSeq(m, xs)[1..] == MapSeq(m, xs[1..]);
    }
  }

  lemma {:induction false} BuildMapNatural<F, G>(m: Mapper<F, G>, kvs: seq<Value<F>>)
    requires |kvs| % 2 == 0
    ensures BuildMap(kvs).Err? ==> BuildMap(MapSeq(m, kvs)) == Err(BuildMap(kvs).e)
    ensures BuildMap(kvs).Ok? ==> BuildMap(MapSeq(m, kvs)) == Ok(MapEntries(m, BuildMap(kvs).v))
  {
    if kvs != [] {
      BuildMapNatural(m, kvs[2..]);
      assert MapSeq(m, kvs)[2..] == MapSeq(m, kvs[2..]);
      if BuildMap(kvs).Ok? {
        var rest, k := BuildMap(kvs[2..]).v, kvs[0].c.s;
        assert MapEntries(m, rest[k := kvs[1]]) == MapEntries(m, rest)[k := Map(m, kvs[1])];
      }
    }
  }

  lemma BoundsNatural<F, G>(m: Mapper<F, G>, lo: Value<F>, hi: Value<F>, len: nat)
    ensures SliceBounds(Map(m, lo), Map(m, hi), len) == SliceBounds(lo, hi, len)
  {
    assert Bound(Map(m, lo), 0) == Bound(lo, 0);
    assert Bound(Map(m, hi), len) == Bound(hi, len);
  }

  lemma SubSeqNatural<F, G>(m: Mapper<F, G>, xs: seq<Value<F>>, i: nat, j: nat)
    requires i <= j <= |xs|
    ensures MapSeq(m, xs)[i..j] == MapSeq(m, xs[i..j])
  {
  }

  lemma SliceNatural<F(!new), G(!new)>(m: Mapper<F, G>, hf: Host<F>, hg: Host<G>, t: Value<F>, lo: Value<F>,
      hi: Value<F>)
    requires Natural(m, hf, hg)
    ensures SliceValue(hg, Map(m, t), Map(m, lo), Map(m, hi)) == MapOutcome(m, SliceValue(hf, t, lo, hi))
  {
    if lo.HostV? || hi.HostV? || !(t.ListV? || (t.Lit? && t.c.CStr?)) {
      Answer(m, hf, hg, PartOf(t, lo, hi));
    } else if t.ListV? {
      BoundsNatural(m, lo, hi, |t.xs|);
      var b := SliceBounds(lo, hi, |t.xs|);
      if b.Ok? { SubSeqNatural(m, t.xs, b.v.0, b.v.1); }
    } else {
      BoundsNatural(m, lo, hi, |t.c.s|);
    }
  }

  lemma IndexNatural<F(!new), G(!new)>(m: Mapper<F, G>, hf: Host<F>, hg: Host<G>, t: Value<F>, i: Value<F>)
    requires Natural(m, hf, hg)
    ensures IndexValue(hg, Map(m, t), Map(m, i)) == MapOutcome(m, IndexValue(hf, t, i))
  {
    Answer(m, hf, hg, ItemOf(t, i));
  }

  lemma InNatural<F(!new), G(!new)>(m: Mapper<F, G>, hf: Host<F>, hg: Host<G>, a: Value<F>, b: Value<F>)
    requires Natural(m, hf, hg)
    ensures InValue(hg, Map(m, a), Map(m, b)) == MapOutcome(m, InValue(hf, a, b))
  {
    if b.ListV? { InListNatural(m, hf, hg, a, b.xs); }
    Answer(m, hf, hg, Contains(a, b));
  }

  lemma AccessNatural<F(!new), G(!new)>(m: Mapper<F, G>, hf: Host<F>, hg: Host<G>, t: Value<F>, n: string)
    requires Natural(m, hf, hg)
    ensures AccessMember(hg, Map(m, t), n) == MapOutcome(m, AccessMember(hf, t, n))
  {
    Answer(m, hf, hg, MemberOf(t, n));
  }

  lemma NegateNatural<F(!new), G(!new)>(m: Mapper<F, G>, hf: Host<F>, hg: Host<G>, a: Value<F>)
    requires Natural(m, hf, hg)
    ensures Negate(hg, Map(m, a)) == MapOutcome(m, Negate(hf, a))
  {
    Answer(m, hf, hg, Negating(a));
  }

  lemma MakeMapNatural<F(!new), G(!new)>(m: Mapper<F, G>, hf: Host<F>, hg: Host<G>, n: nat, a: seq<Value<F>>)
    requires |a| == 2 * n
    ensures Operate(hg, MakeMap(n), MapSeq(m, a)) == MapOutcome(m, Operate(hf, MakeMap(n), a))
  {
    BuildMapNatural(m, a);
    if BuildMap(a).Ok? {
      var mm := BuildMap(a).v;
      assert Map(m, MapV(mm)) == MapV(MapEntries(m, mm));
    }
  }

  /** No strict opcode can tell which code the closures among its operands carry. */
  lemma OperateNatural<F(!new), G(!new)>(m: Mapper<F, G>, hf: Host<F>, hg: Host<G>, op: Operator, a: seq<Value<F>>)
    requires Natural(m, hf, hg) && |a| == Arity(op)
    ensures Operate(hg, op, MapSeq(m, a)) == MapOutcome(m, Operate(hf, op, a))
  {
    match op
    case Bin(o) => CombineNatural(m, hf, hg, o, a[0], a[1]);
    case In => InNatural(m, hf, hg, a[0], a[1]);
    case Matches =>
    case Neg => NegateNatural(m, hf, hg, a[0]);
    case Not =>
    case Access(n) => AccessNatural(m, hf, hg, a[0], n);
    case OptAccess(n) => AccessNatural(m, hf, hg, a[0], n);
    case Index => IndexNatural(m, hf, hg, a[0], a[1]);
    case OptIndex => IndexNatural(m, hf, hg, a[0], a[1]);
    case Slice => SliceNatural(m, hf, hg, a[0], a[1], a[2]);
    case MakeList(_) =>
    case MakeMap(n) => MakeMapNatural(m, hf, hg, n, a);
  }
}
