// Run-time values, the primitive operations on them, and the one way two value domains are
// related in this project: a Mapper, which replaces the code carried by closures.

/** Fixed-width integer arithmetic as Go defines it. */
module Int64 {
  const TWO_63: int := 0x8000_0000_0000_0000
  const TWO_64: int := 0x1_0000_0000_0000_0000

  type int64 = x: int | -TWO_63 <= x < TWO_63

  /** Wrap-around: the int64 that x reaches by steps of 2^64. */
  function Wrap(x: int): int64
    decreases if x < 0 then -x else x + 1
  {
    if x < -TWO_63 then Wrap(x + TWO_64)
    else if x < TWO_63 then x
    else Wrap(x - TWO_64)
  }

  /** Go's quotient, truncated toward zero. */
  function Quo(a: int, b: int): int
    requires b != 0
  {
    if a >= 0 then a / b else -((-a) / b)
  }

  /** Go's remainder, which takes the sign of the dividend. */
  function Rem(a: int, b: int): int
    requires b != 0
  {
    a - Quo(a, b) * b
  }

  function Pow(b: int, e: nat): int {
    if e == 0 then 1 else b * Pow(b, e - 1)
  }
}

module Values {
  import opened Int64

  datatype Option<+T> = None | Some(value: T)

  datatype Error =
    | Undefined(name: string)
    | NotBool
    | KeyNotString
    | DepthExceeded
    | ArgCount(want: nat, got: nat)
    | DivideByZero
    | ModulusByZero
    | NegativeExponent
    | Unsupported
    | KeyNotFound(key: string)
    | IndexNotInteger
    | OutOfRange
    | NotRegex
    | NotString
    | HostError(code: int)

  datatype Outcome<+T> = Ok(v: T) | Err(e: Error)

  /** The constants an expression can spell; a float is an uninterpreted token. */
  datatype Const =
    | CNil
    | CBool(b: bool)
    | CInt(i: int64)
    | CFloat(f: int)
    | CStr(s: string)
    | CRegex(pattern: string)

  /** F is what a closure carries as its code. HostV is a handle to a Go value of any other type. */
  datatype Value<+F> =
    | Lit(c: Const)
    | ListV(xs: seq<Value<F>>)
    | MapV(m: map<string, Value<F>>)
    | Clo(fn: F, scopes: Scopes<F>, locals: Locals<F>)
    | HostV(id: int)

  /** Name-keyed layers supplied by the caller of Run, innermost first. */
  datatype Scopes<+F> = NoScope | Layer(inner: map<string, Value<F>>, outer: Scopes<F>)

  datatype Bind<+F> = Bind(name: string, value: Value<F>)

  /** The chain of lambda-parameter and let frames, innermost first. */
  datatype Locals<+F> = Root | Frame(parent: Locals<F>, binds: seq<Bind<F>>)

  /** The opcodes that pop a fixed number of operands and push exactly one result. */
  datatype BinOp = Add | Sub | Mul | Div | Mod | Pow | Eq | Ne | Lt | Gt | Le | Ge

  datatype Operator =
    | Bin(op: BinOp)
    | In
    | Matches
    | Neg
    | Not
    | Access(name: string)
    | OptAccess(name: string)
    | Index
    | OptIndex
    | Slice
    | MakeList(n: nat)
    | MakeMap(n: nat)

  function Arity(op: Operator): nat {
    match op
    case Bin(_) | In | Matches | Index | OptIndex => 2
    case Neg | Not | Access(_) | OptAccess(_) => 1
    case Slice => 3
    case MakeList(n) => n
    case MakeMap(n) => 2 * n
  }

  datatype FloatOps = FloatOps(
    arith: (BinOp, int, int) -> int,
    compare: (BinOp, int, int) -> bool,
    isZero: int -> bool,
    negate: int -> int)

  /** What evaluation asks of code outside the language itself. */
  datatype Question<+F> =
    | Global(name: string)
    | Combining(op: BinOp, a: Value<F>, b: Value<F>)
    | Negating(a: Value<F>)
    | MemberOf(a: Value<F>, name: string)
    | ItemOf(a: Value<F>, b: Value<F>)
    | PartOf(a: Value<F>, low: Value<F>, high: Value<F>)
    | Contains(a: Value<F>, b: Value<F>)
    | Calling(f: Value<F>, args: seq<Value<F>>)

  /** The Machine's surroundings: float arithmetic, the regex engine, which host values are typed
      nils, and the answers to all questions about builtins, host values and host functions. */
  datatype Host<!F> = Host(
    float: FloatOps,
    regexMatch: (string, string) -> bool,
    isNil: int -> bool,
    ask: Question<F> -> Outcome<Value<F>>)

  predicate IsNil<F>(h: Host<F>, v: Value<F>) {
    match v
    case Lit(c) => c.CNil?
    case HostV(id) => h.isNil(id)
    case _ => false
  }

  function Truth<F>(b: bool): Value<F> { Lit(CBool(b)) }

  // ----- Scopes -----

  function LookupScopes<F>(sc: Scopes<F>, name: string): Option<Value<F>> {
    match sc
    case NoScope => None
    case Layer(m, outer) => if name in m then Some(m[name]) else LookupScopes(outer, name)
  }

  /** The environment first, then builtins and namespaces. */
  function LoadName<F>(h: Host<F>, sc: Scopes<F>, name: string): Outcome<Value<F>> {
    match LookupScopes(sc, name)
    case Some(v) => Ok(v)
    case None => h.ask(Global(name))
  }

  // ----- Default handlers of the core types -----

  predicate IsCompare(op: BinOp) { op.Eq? || op.Ne? || op.Lt? || op.Gt? || op.Le? || op.Ge? }

  function IntCompare(op: BinOp, a: int, b: int): bool
    requires IsCompare(op)
  {
    match op
    case Eq => a == b
    case Ne => a != b
    case Lt => a < b
    case Gt => a > b
    case Le => a <= b
    case Ge => a >= b
  }

  function IntOp(op: BinOp, a: int64, b: int64): Outcome<Const> {
    match op
    case Add => Ok(CInt(Wrap(a + b)))
    case Sub => Ok(CInt(Wrap(a - b)))
    case Mul => Ok(CInt(Wrap(a * b)))
    case Div => if b == 0 then Err(DivideByZero) else Ok(CInt(Wrap(Quo(a, b))))
    case Mod => if b == 0 then Err(ModulusByZero) else Ok(CInt(Wrap(Rem(a, b))))
    case Pow => if b < 0 then Err(NegativeExponent) else Ok(CInt(Wrap(Int64.Pow(a, b))))
    case _ => Ok(CBool(IntCompare(op, a, b)))
  }

  function FloatOp(f: FloatOps, op: BinOp, a: int, b: int): Outcome<Const> {
    match op
    case Add | Sub | Mul | Pow => Ok(CFloat(f.arith(op, a, b)))
    case Div => if f.isZero(b) then Err(DivideByZero) else Ok(CFloat(f.arith(op, a, b)))
    case Mod => if f.isZero(b) then Err(ModulusByZero) else Ok(CFloat(f.arith(op, a, b)))
    case _ => Ok(CBool(f.compare(op, a, b)))
  }

  predicate StrLess(a: string, b: string) {
    if a == [] then b != []
    else b != [] && (a[0] < b[0] || (a[0] == b[0] && StrLess(a[1..], b[1..])))
  }

  function StrOp(op: BinOp, a: string, b: string): Outcome<Const> {
    match op
    case Add => Ok(CStr(a + b))
    case Eq => Ok(CBool(a == b))
    case Ne => Ok(CBool(a != b))
    case Lt => Ok(CBool(StrLess(a, b)))
    case Gt => Ok(CBool(StrLess(b, a)))
    case Le => Ok(CBool(!StrLess(b, a)))
    case Ge => Ok(CBool(!StrLess(a, b)))
    case _ => Err(Unsupported)
  }

  function BoolOp(op: BinOp, a: bool, b: bool): Outcome<Const> {
    match op
    case Eq => Ok(CBool(a == b))
    case Ne => Ok(CBool(a != b))
    case _ => Err(Unsupported)
  }

  predicate SameCoreType(a: Const, b: Const) {
    (a.CInt? && b.CInt?) || (a.CFloat? && b.CFloat?) || (a.CStr? && b.CStr?) || (a.CBool? && b.CBool?)
  }

  /** Operands of one core type always reach that type's own handler, whatever the Machine's
      coercion setting; every other pair is the host's affair. */
  function CoreOp(f: FloatOps, op: BinOp, a: Const, b: Const): Outcome<Const>
    requires SameCoreType(a, b)
  {
    if a.CInt? then IntOp(op, a.i, b.i)
    else if a.CFloat? then FloatOp(f, op, a.f, b.f)
    else if a.CStr? then StrOp(op, a.s, b.s)
    else BoolOp(op, a.b, b.b)
  }

  function Lift<F>(o: Outcome<Const>): Outcome<Value<F>> {
    match o
    case Ok(c) => Ok(Lit(c))
    case Err(e) => Err(e)
  }

  function Combine<F>(h: Host<F>, op: BinOp, a: Value<F>, b: Value<F>): Outcome<Value<F>> {
    if a.Lit? && b.Lit? && SameCoreType(a.c, b.c) then Lift(CoreOp(h.float, op, a.c, b.c))
    else h.ask(Combining(op, a, b))
  }

  /** `==` and `!=` settle a nil operand themselves; everything else goes to Combine. */
  function Binary<F>(h: Host<F>, op: BinOp, a: Value<F>, b: Value<F>): Outcome<Value<F>> {
    if (op.Eq? || op.Ne?) && (IsNil(h, a) || IsNil(h, b)) then
      var eq := IsNil(h, a) && IsNil(h, b);
      Ok(Truth(if op.Ne? then !eq else eq))
    else Combine(h, op, a, b)
  }

  function Negate<F>(h: Host<F>, a: Value<F>): Outcome<Value<F>> {
    match a
    case Lit(CInt(i)) => Ok(Lit(CInt(Wrap(0 - i))))
    case Lit(CFloat(f)) => Ok(Lit(CFloat(h.float.negate(f))))
    case _ => h.ask(Negating(a))
  }

  function Negation<F>(a: Value<F>): Outcome<Value<F>> {
    match a
    case Lit(CBool(b)) => Ok(Truth(!b))
    case _ => Err(NotBool)
  }

  function AccessMember<F>(h: Host<F>, t: Value<F>, name: string): Outcome<Value<F>> {
    match t
    case MapV(m) => if name in m then Ok(m[name]) else Err(KeyNotFound(name))
    case _ => h.ask(MemberOf(t, name))
  }

  function IndexValue<F>(h: Host<F>, t: Value<F>, i: Value<F>): Outcome<Value<F>> {
    if i.HostV? then h.ask(ItemOf(t, i)) else
    match t
    case ListV(xs) =>
      if !(i.Lit? && i.c.CInt?) then Err(IndexNotInteger)
      else if 0 <= i.c.i < |xs| then Ok(xs[i.c.i]) else Err(OutOfRange)
    case MapV(m) =>
      if !(i.Lit? && i.c.CStr?) then Err(KeyNotString)
      else if i.c.s in m then Ok(m[i.c.s]) else Err(KeyNotFound(i.c.s))
    case Lit(CStr(s)) =>
      if !(i.Lit? && i.c.CInt?) then Err(IndexNotInteger)
      else if 0 <= i.c.i < |s| then Ok(Lit(CStr([s[i.c.i]]))) else Err(OutOfRange)
    case _ => h.ask(ItemOf(t, i))
  }

  function Bound<F>(v: Value<F>, default: int): Outcome<int> {
    match v
    case Lit(CNil) => Ok(default)
    case Lit(CInt(i)) => Ok(i)
    case _ => Err(IndexNotInteger)
  }

  function SliceBounds<F>(low: Value<F>, high: Value<F>, len: nat): (r: Outcome<(nat, nat)>)
    ensures r.Ok? ==> r.v.0 <= r.v.1 <= len
  {
    match Bound(low, 0)
    case Err(e) => Err(e)
    case Ok(lo) =>
      match Bound(high, len)
      case Err(e) => Err(e)
      case Ok(hi) => if lo < 0 || hi < 0 || lo > len || hi > len || lo > hi then Err(OutOfRange) else Ok((lo, hi))
  }

  function SliceValue<F>(h: Host<F>, t: Value<F>, low: Value<F>, high: Value<F>): Outcome<Value<F>> {
    if low.HostV? || high.HostV? then h.ask(PartOf(t, low, high)) else
    match t
    case ListV(xs) =>
      (match SliceBounds(low, high, |xs|)
       case Err(e) => Err(e)
       case Ok(b) => Ok(ListV(xs[b.0..b.1])))
    case Lit(CStr(s)) =>
      (match SliceBounds(low, high, |s|)
       case Err(e) => Err(e)
       case Ok(b) => Ok(Lit(CStr(s[b.0..b.1]))))
    case _ => h.ask(PartOf(t, low, high))
  }

  /** Scans with coercion-aware equality, stopping at the first match or the first error. */
  function InList<F>(h: Host<F>, needle: Value<F>, xs: seq<Value<F>>): Outcome<Value<F>> {
    if xs == [] then Ok(Truth(false)) else
    match Combine(h, Eq, needle, xs[0])
    case Err(e) => Err(e)
    case Ok(r) => if r.Lit? && r.c == CBool(true) then Ok(Truth(true)) else InList(h, needle, xs[1..])
  }

  function InValue<F>(h: Host<F>, needle: Value<F>, haystack: Value<F>): Outcome<Value<F>> {
    match haystack
    case MapV(m) => Ok(Truth(needle.Lit? && needle.c.CStr? && needle.c.s in m))
    case ListV(xs) => InList(h, needle, xs)
    case _ => h.ask(Contains(needle, haystack))
  }

  function MatchesValue<F>(h: Host<F>, str: Value<F>, pattern: Value<F>): Outcome<Value<F>> {
    if !(pattern.Lit? && pattern.c.CRegex?) then Err(NotRegex)
    else if !(str.Lit? && str.c.CStr?) then Err(NotString)
    else Ok(Truth(h.regexMatch(pattern.c.pattern, str.c.s)))
  }

  /** kvs is key, value, key, value, ... as left on the stack. The entries are popped last to
      first, so an earlier entry overwrites a later one and the last bad key is the one reported. */
  function BuildMap<F>(kvs: seq<Value<F>>): Outcome<map<string, Value<F>>>
    requires |kvs| % 2 == 0
  {
    if kvs == [] then Ok(map[]) else
    match BuildMap(kvs[2..])
    case Err(e) => Err(e)
    case Ok(m) =>
      if kvs[0].Lit? && kvs[0].c.CStr? then Ok(m[kvs[0].c.s := kvs[1]]) else Err(KeyNotString)
  }

  function Operate<F>(h: Host<F>, op: Operator, a: seq<Value<F>>): Outcome<Value<F>>
    requires |a| == Arity(op)
  {
    match op
    case Bin(o) => Binary(h, o, a[0], a[1])
    case In => InValue(h, a[0], a[1])
    case Matches => MatchesValue(h, a[0], a[1])
    case Neg => Negate(h, a[0])
    case Not => Negation(a[0])
    case Access(n) => AccessMember(h, a[0], n)
    case OptAccess(n) => if IsNil(h, a[0]) then Ok(Lit(CNil)) else AccessMember(h, a[0], n)
    case Index => IndexValue(h, a[0], a[1])
    case OptIndex => if IsNil(h, a[0]) then Ok(Lit(CNil)) else IndexValue(h, a[0], a[1])
    case Slice => SliceValue(h, a[0], a[1], a[2])
    case MakeList(_) => Ok(ListV(a))
    case MakeMap(_) =>
      match BuildMap(a)
      case Ok(m) => Ok(MapV(m))
      case Err(e) => Err(e)
  }
}
