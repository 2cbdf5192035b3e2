// What each operator gives for the values of its operands: arithmetic modulo 2^64, truncated division,
// comparisons, strings in lexicographic order, nil, membership and pattern matching.

module OperatorLaws {
  import opened Int64
  import opened Values
  import opened Syntax
  import opened Semantics
  import opened Laws
  import Power
  import Fold

  /** Both operands evaluate, the left one first. */
  predicate Operands(s: Setting, l: Expr, r: Expr, a: Val, b: Val) { Gives(s, l, a) && Gives(s, r, b) }

  function Arithmetic(op: BinOp, l: Expr, r: Expr): Expr { Infix(Arith(op), l, r) }

  function Bool(b: bool): Val { Lit(CBool(b)) }

  lemma ArithValue(s: Setting, op: BinOp, l: Expr, r: Expr, a: Val, b: Val)
    requires Operands(s, l, r, a, b)
    ensures Result(s, Arithmetic(op, l, r)) == Values.Binary(s.h, op, a, b)
  {
    StrictTwo(s, Arithmetic(op, l, r), Bin(op), l, r);
  }

  /** A strict operator's left operand is evaluated first, and the first failure is its failure. */
  lemma OperandOrder(s: Setting, o: InfixOp, l: Expr, r: Expr, err: Error)
    requires o.Arith? || o.InOp? || (o.MatchesOp? && !(r.Const? && r.c.CStr?))
    ensures Fails(s, l, err) ==> Fails(s, Infix(o, l, r), err)
    ensures Result(s, l).Ok? && Fails(s, r, err) ==> Fails(s, Infix(o, l, r), err)
  {
    StrictTwo(s, Infix(o, l, r), if o.Arith? then Bin(o.op) else if o.InOp? then In else Matches, l, r);
  }

  // ----- Integers -----

  /** r is the int64 that differs from x by a multiple of 2^64. */
  ghost predicate Reduced(x: int, r: int) {
    -0x8000_0000_0000_0000 <= r < 0x8000_0000_0000_0000
    && exists k {:trigger k * 0x1_0000_0000_0000_0000} :: r == x + k * 0x1_0000_0000_0000_0000
  }

  lemma WrapReduced(x: int)
    ensures Reduced(x, Wrap(x))
  {
    assert Wrap(x) == x + Power.Turns(x) * 0x1_0000_0000_0000_0000;
  }

  /** e evaluates to the integer x, reduced into int64. */
  ghost predicate GivesReduced(s: Setting, e: Expr, x: int) {
    exists r: int64 {:trigger Int(r)} :: Gives(s, e, Int(r)) && Reduced(x, r)
  }

  lemma ReducedValue(s: Setting, e: Expr, x: int)
    requires Gives(s, e, Int(Wrap(x)))
    ensures GivesReduced(s, e, x)
  {
    WrapReduced(x);
  }

  /** Sums, differences and products are exact up to multiples of 2^64. */
  lemma IntegerRing(s: Setting, l: Expr, r: Expr, a: int64, b: int64)
    requires Operands(s, l, r, Int(a), Int(b))
    ensures GivesReduced(s, Arithmetic(Add, l, r), a + b)
    ensures GivesReduced(s, Arithmetic(Sub, l, r), a - b)
    ensures GivesReduced(s, Arithmetic(Mul, l, r), a * b)
  {
    ArithValue(s, Add, l, r, Int(a), Int(b));
    ArithValue(s, Sub, l, r, Int(a), Int(b));
    ArithValue(s, Mul, l, r, Int(a), Int(b));
    ReducedValue(s, Arithmetic(Add, l, r), a + b);
    ReducedValue(s, Arithmetic(Sub, l, r), a - b);
    ReducedValue(s, Arithmetic(Mul, l, r), a * b);
  }

  function Abs(x: int): nat { if x < 0 then -x else x }

  /** q and r are the quotient of a by b truncated toward zero and the remainder, which takes a's sign. */
  predicate Truncated(a: int, b: int, q: int, r: int) {
    a == q * b + r && Abs(r) < Abs(b) && (a >= 0 ==> r >= 0) && (a <= 0 ==> r <= 0)
  }

  lemma QuoTruncates(a: int, b: int)
    requires b != 0
    ensures Truncated(a, b, Quo(a, b), Rem(a, b))
  {
    if a >= 0 {
      assert a == (a / b) * b + a % b;
    } else {
      var n := -a;
      assert n == (n / b) * b + n % b;
      assert -(n / b) * b == -((n / b) * b);
    }
  }

  lemma RemInt64(a: int64, b: int64)
    requires b != 0
    ensures -TWO_63 <= Rem(a, b) < TWO_63 && Wrap(Rem(a, b)) == Rem(a, b)
  {
    QuoTruncates(a, b);
  }

  /** Division truncates toward zero, the remainder takes the dividend's sign, and zero divides nothing. */
  lemma IntegerDivision(s: Setting, l: Expr, r: Expr, a: int64, b: int64) returns (q: int, m: int)
    requires Operands(s, l, r, Int(a), Int(b))
    ensures b == 0 ==> Fails(s, Arithmetic(Div, l, r), DivideByZero) && Fails(s, Arithmetic(Mod, l, r), ModulusByZero)
    ensures b != 0 ==> Truncated(a, b, q, m) && GivesReduced(s, Arithmetic(Div, l, r), q)
    ensures b != 0 ==> -TWO_63 <= m < TWO_63 && Gives(s, Arithmetic(Mod, l, r), Int(m))
  {
    ArithValue(s, Div, l, r, Int(a), Int(b));
    ArithValue(s, Mod, l, r, Int(a), Int(b));
    q, m := 0, 0;
    if b != 0 {
      q, m := Quo(a, b), Rem(a, b);
      QuoTruncates(a, b);
      RemInt64(a, b);
      ReducedValue(s, Arithmetic(Div, l, r), q);
    }
  }

  /** `a ** 0` is 1, and a negative exponent is an error. */
  lemma IntegerPower(s: Setting, l: Expr, r: Expr, a: int64, b: int64)
    requires Operands(s, l, r, Int(a), Int(b)) && b <= 0
    ensures b == 0 ==> Gives(s, Arithmetic(BinOp.Pow, l, r), Int(1))
    ensures b < 0 ==> Fails(s, Arithmetic(BinOp.Pow, l, r), NegativeExponent)
  {
    ArithValue(s, BinOp.Pow, l, r, Int(a), Int(b));
  }

  lemma PowerWrap(a: int, b: nat)
    ensures Wrap(Int64.Pow(a, b + 1)) == Wrap(a * Wrap(Int64.Pow(a, b)))
  {
    var p := Int64.Pow(a, b);
    Power.WrapFactor(p, a);
    assert Wrap(p) * a == a * Wrap(p) && p * a == a * p;
  }

  /** An exponent one larger is one more factor, up to multiples of 2^64. */
  lemma IntegerPowerStep(s: Setting, l: Expr, r: Expr, next: Expr, a: int64, b: int64) returns (y: int64)
    requires Operands(s, l, r, Int(a), Int(b)) && 0 <= b && b + 1 < TWO_63 && Gives(s, next, Int(b + 1))
    ensures Gives(s, Arithmetic(BinOp.Pow, l, r), Int(y))
    ensures GivesReduced(s, Arithmetic(BinOp.Pow, l, next), a * y)
  {
    var p := Int64.Pow(a, b);
    y := Wrap(p);
    ArithValue(s, BinOp.Pow, l, r, Int(a), Int(b));
    ArithValue(s, BinOp.Pow, l, next, Int(a), Int(b + 1));
    PowerWrap(a, b);
    ReducedValue(s, Arithmetic(BinOp.Pow, l, next), a * y);
  }

  /** The six comparisons of integers. */
  lemma IntegerOrder(s: Setting, l: Expr, r: Expr, a: int64, b: int64)
    requires Operands(s, l, r, Int(a), Int(b))
    ensures Gives(s, Arithmetic(Eq, l, r), Bool(a == b)) && Gives(s, Arithmetic(Ne, l, r), Bool(a != b))
    ensures Gives(s, Arithmetic(Lt, l, r), Bool(a < b)) && Gives(s, Arithmetic(Le, l, r), Bool(a <= b))
    ensures Gives(s, Arithmetic(Gt, l, r), Bool(a > b)) && Gives(s, Arithmetic(Ge, l, r), Bool(a >= b))
  {
    ArithValue(s, Eq, l, r, Int(a), Int(b));
    ArithValue(s, Ne, l, r, Int(a), Int(b));
    ArithValue(s, Lt, l, r, Int(a), Int(b));
    ArithValue(s, Le, l, r, Int(a), Int(b));
    ArithValue(s, Gt, l, r, Int(a), Int(b));
    ArithValue(s, Ge, l, r, Int(a), Int(b));
  }

  // ----- Strings -----

  /** Where the two strings first differ, a has the smaller character, or has ended. */
  predicate Precedes(a: string, b: string) {
    exists k :: 0 <= k <= |a| && k < |b| && a[..k] == b[..k] && (k < |a| ==> a[k] < b[k])
  }

  lemma PrecedesHead(a: string, b: string)
    requires a != [] && b != []
    ensures Precedes(a, b) ==> a[0] <= b[0]
  {
    if Precedes(a, b) {
      var k :| 0 <= k <= |a| && k < |b| && a[..k] == b[..k] && (k < |a| ==> a[k] < b[k]);
      if k > 0 { assert a[..k][0] == b[..k][0]; }
    }
  }

  lemma {:induction false} LessPrecedes(a: string, b: string)
    ensures StrLess(a, b) <==> Precedes(a, b)
  {
    if b != [] {
      if a == [] || a[0] < b[0] {
        assert a[..0] == b[..0];
      } else if a[0] == b[0] {
        LessPrecedes(a[1..], b[1..]);
        if Precedes(a[1..], b[1..]) {
          var k :| 0 <= k <= |a[1..]| && k < |b[1..]| && a[1..][..k] == b[1..][..k] &&
            (k < |a[1..]| ==> a[1..][k] < b[1..][k]);
          assert a[..k + 1] == [a[0]] + a[1..][..k] && b[..k + 1] == [b[0]] + b[1..][..k];
        }
        if Precedes(a, b) {
          var k :| 0 <= k <= |a| && k < |b| && a[..k] == b[..k] && (k < |a| ==> a[k] < b[k]);
          assert k > 0;
          assert a[1..][..k - 1] == a[..k][1..] && b[1..][..k - 1] == b[..k][1..];
        }
      } else {
        PrecedesHead(a, b);
      }
    }
  }

  /** `+` joins strings, and comparisons order them lexicographically. */
  lemma StringLaw(s: Setting, l: Expr, r: Expr, a: string, b: string)
    requires Operands(s, l, r, Text(a), Text(b))
    ensures Gives(s, Arithmetic(Add, l, r), Text(a + b))
    ensures Gives(s, Arithmetic(Eq, l, r), Bool(a == b)) && Gives(s, Arithmetic(Ne, l, r), Bool(a != b))
    ensures Gives(s, Arithmetic(Lt, l, r), Bool(Precedes(a, b)))
    ensures Gives(s, Arithmetic(Gt, l, r), Bool(Precedes(b, a)))
    ensures Gives(s, Arithmetic(Le, l, r), Bool(!Precedes(b, a)))
    ensures Gives(s, Arithmetic(Ge, l, r), Bool(!Precedes(a, b)))
  {
    ArithValue(s, Add, l, r, Text(a), Text(b));
    ArithValue(s, Eq, l, r, Text(a), Text(b));
    ArithValue(s, Ne, l, r, Text(a), Text(b));
    ArithValue(s, Lt, l, r, Text(a), Text(b));
    ArithValue(s, Gt, l, r, Text(a), Text(b));
    ArithValue(s, Le, l, r, Text(a), Text(b));
    ArithValue(s, Ge, l, r, Text(a), Text(b));
    LessPrecedes(a, b);
    LessPrecedes(b, a);
  }

  // ----- Bools, floats, nil and everything else -----

  /** Bools are compared for equality only, and strings are not subtracted, multiplied, divided or raised. */
  lemma OtherCoreLaw(s: Setting, op: BinOp, l: Expr, r: Expr, p: bool, q: bool, a: string, b: string)
    ensures Operands(s, l, r, Bool(p), Bool(q)) ==>
      && Gives(s, Arithmetic(Eq, l, r), Bool(p == q)) && Gives(s, Arithmetic(Ne, l, r), Bool(p != q))
      && (op != Eq && op != Ne ==> Fails(s, Arithmetic(op, l, r), Unsupported))
    ensures Operands(s, l, r, Text(a), Text(b)) && op in [Sub, Mul, Div, Mod, BinOp.Pow] ==>
      Fails(s, Arithmetic(op, l, r), Unsupported)
  {
    if Operands(s, l, r, Bool(p), Bool(q)) {
      ArithValue(s, Eq, l, r, Bool(p), Bool(q));
      ArithValue(s, Ne, l, r, Bool(p), Bool(q));
      ArithValue(s, op, l, r, Bool(p), Bool(q));
    }
    if Operands(s, l, r, Text(a), Text(b)) { ArithValue(s, op, l, r, Text(a), Text(b)); }
  }

  /** Floats are the Machine's, left operand first; division and remainder by a zero are errors. */
  lemma FloatLaw(s: Setting, op: BinOp, l: Expr, r: Expr, a: int, b: int)
    requires Operands(s, l, r, Lit(CFloat(a)), Lit(CFloat(b)))
    ensures op in [Eq, Ne, Lt, Gt, Le, Ge] ==> Gives(s, Arithmetic(op, l, r), Bool(s.h.float.compare(op, a, b)))
    ensures op == Div && s.h.float.isZero(b) ==> Fails(s, Arithmetic(op, l, r), DivideByZero)
    ensures op == Mod && s.h.float.isZero(b) ==> Fails(s, Arithmetic(op, l, r), ModulusByZero)
    ensures op in [Add, Sub, Mul, BinOp.Pow] || (op in [Div, Mod] && !s.h.float.isZero(b)) ==>
      Gives(s, Arithmetic(op, l, r), Lit(CFloat(s.h.float.arith(op, a, b))))
  {
    ArithValue(s, op, l, r, Lit(CFloat(a)), Lit(CFloat(b)));
  }

  /** Nothing equals nothing, and nothing else does. */
  lemma NilEquality(s: Setting, l: Expr, r: Expr, a: Val, b: Val)
    requires Operands(s, l, r, a, b) && (Nothing(s, a) || Nothing(s, b))
    ensures Gives(s, Arithmetic(Eq, l, r), Bool(Nothing(s, a) && Nothing(s, b)))
    ensures Gives(s, Arithmetic(Ne, l, r), Bool(!(Nothing(s, a) && Nothing(s, b))))
  {
    ArithValue(s, Eq, l, r, a, b);
    ArithValue(s, Ne, l, r, a, b);
  }

  /** Two integers, two floats, two strings or two bools. */
  predicate Alike(a: Val, b: Val) {
    a.Lit? && b.Lit? && (
      || (a.c.CInt? && b.c.CInt?) || (a.c.CFloat? && b.c.CFloat?)
      || (a.c.CStr? && b.c.CStr?) || (a.c.CBool? && b.c.CBool?))
  }

  /** Operands of different types, or of a type of the host's, are the dispatcher's to combine. */
  lemma MixedLaw(s: Setting, op: BinOp, l: Expr, r: Expr, a: Val, b: Val)
    requires Operands(s, l, r, a, b) && !Alike(a, b)
    requires (op == Eq || op == Ne) ==> !Nothing(s, a) && !Nothing(s, b)
    ensures Asks(s, Arithmetic(op, l, r), Combining(op, a, b))
  {
    ArithValue(s, op, l, r, a, b);
  }

  // ----- Unary operators -----

  lemma UnaryLaw(s: Setting, a: Expr, v: Val)
    ensures Result(s, a).Err? ==>
      Fails(s, Unary(Minus, a), Result(s, a).e) && Fails(s, Unary(Bang, a), Result(s, a).e)
    ensures Result(s, Unary(Plus, a)) == Result(s, a)
    ensures Gives(s, a, v) && v.Lit? && v.c.CInt? ==> GivesReduced(s, Unary(Minus, a), 0 - v.c.i)
    ensures Gives(s, a, v) && v.Lit? && v.c.CFloat? ==> Gives(s, Unary(Minus, a), Lit(CFloat(s.h.float.negate(v.c.f))))
    ensures Gives(s, a, v) && !(v.Lit? && (v.c.CInt? || v.c.CFloat?)) ==> Asks(s, Unary(Minus, a), Negating(v))
    ensures Gives(s, a, v) && v.Lit? && v.c.CBool? ==> Gives(s, Unary(Bang, a), Bool(!v.c.b))
    ensures Gives(s, a, v) && !(v.Lit? && v.c.CBool?) ==> Fails(s, Unary(Bang, a), NotBool)
  {
    Fold.PlusTransparent(s.h, s.limit, a, s.sc, s.env, s.d);
    StrictOne(s, Unary(Minus, a), Neg, a);
    StrictOne(s, Unary(Bang, a), Not, a);
    if Gives(s, a, v) && v.Lit? && v.c.CInt? { ReducedValue(s, Unary(Minus, a), 0 - v.c.i); }
  }

  // ----- Membership -----

  lemma InValueOf(s: Setting, l: Expr, r: Expr, a: Val, b: Val)
    requires Operands(s, l, r, a, b)
    ensures Result(s, Infix(InOp, l, r)) == InValue(s.h, a, b)
  {
    StrictTwo(s, Infix(InOp, l, r), In, l, r);
  }

  /** A value alike every element is in a list exactly if it is one of them; floats are the Machine's to compare. */
  lemma InLikeList(s: Setting, l: Expr, r: Expr, a: Val, xs: seq<Val>)
    requires Operands(s, l, r, a, ListV(xs)) && (forall i :: 0 <= i < |xs| ==> Alike(a, xs[i])) &&
        !(a.Lit? && a.c.CFloat?)
    ensures Gives(s, Infix(InOp, l, r), Lit(CBool(true))) <==> exists i :: 0 <= i < |xs| && xs[i] == a
    ensures Gives(s, Infix(InOp, l, r), Lit(CBool(false))) <==> !exists i :: 0 <= i < |xs| && xs[i] == a
  {
    InValueOf(s, l, r, a, ListV(xs));
    ScanLike(s.h, a, xs);
  }

  lemma {:induction false} ScanLike(h: Host<Lam>, a: Val, xs: seq<Val>)
    requires (forall i :: 0 <= i < |xs| ==> Alike(a, xs[i])) && !(a.Lit? && a.c.CFloat?)
    ensures InList(h, a, xs).Ok? && InList(h, a, xs).v.Lit? && InList(h, a, xs).v.c.CBool?
    ensures InList(h, a, xs).v.c.b <==> exists i :: 0 <= i < |xs| && xs[i] == a
  {
    if xs != [] {
      assert Alike(a, xs[0]);
      forall i | 0 <= i < |xs| - 1 ensures Alike(a, xs[1..][i]) {
        assert Alike(a, xs[i + 1]);
      }
      ScanLike(h, a, xs[1..]);
      if exists i :: 0 <= i < |xs| && xs[i] == a {
        var i :| 0 <= i < |xs| && xs[i] == a;
        assert i > 0 ==> xs[1..][i - 1] == a;
      }
    }
  }

  /** A list is scanned from the front. An element of another type is the dispatcher's to compare: its
      failure ends the scan, and only an answer of true is a match. */
  lemma InMixedList(s: Setting, l: Expr, r: Expr, rest: Expr, a: Val, x: Val, xs: seq<Val>)
    requires Operands(s, l, r, a, ListV([x] + xs)) && Gives(s, rest, ListV(xs)) && !Alike(a, x)
    ensures
      var answer := s.h.ask(Combining(Eq, a, x));
      && (answer.Err? ==> Fails(s, Infix(InOp, l, r), answer.e))
      && (answer == Ok(Lit(CBool(true))) ==> Gives(s, Infix(InOp, l, r), Lit(CBool(true))))
      && (answer.Ok? && answer.v != Lit(CBool(true)) ==>
        Result(s, Infix(InOp, l, r)) == Result(s, Infix(InOp, l, rest)))
  {
    InValueOf(s, l, r, a, ListV([x] + xs));
    InValueOf(s, l, rest, a, ListV(xs));
    assert ([x] + xs)[1..] == xs;
  }

  /** The same for an element alike: a match ends the scan, anything else goes on. */
  lemma InListStep(s: Setting, l: Expr, r: Expr, rest: Expr, a: Val, x: Val, xs: seq<Val>)
    requires Operands(s, l, r, a, ListV([x] + xs)) && Gives(s, rest, ListV(xs)) && Alike(a, x)
    ensures a.c.CFloat? && !s.h.float.compare(Eq, a.c.f, x.c.f) ==>
      Result(s, Infix(InOp, l, r)) == Result(s, Infix(InOp, l, rest))
    ensures a.c.CFloat? && s.h.float.compare(Eq, a.c.f, x.c.f) ==> Gives(s, Infix(InOp, l, r), Lit(CBool(true)))
    ensures !a.c.CFloat? && a != x ==> Result(s, Infix(InOp, l, r)) == Result(s, Infix(InOp, l, rest))
    ensures !a.c.CFloat? && a == x ==> Gives(s, Infix(InOp, l, r), Lit(CBool(true)))
  {
    InValueOf(s, l, r, a, ListV([x] + xs));
    InValueOf(s, l, rest, a, ListV(xs));
    assert ([x] + xs)[1..] == xs;
  }

  /** Only its string keys are in a map; nothing is in an empty list; anything else is the host's to search. */
  lemma InLaw(s: Setting, l: Expr, r: Expr, a: Val, b: Val)
    requires Operands(s, l, r, a, b)
    ensures b.MapV? ==> Gives(s, Infix(InOp, l, r), Bool(a.Lit? && a.c.CStr? && a.c.s in b.m))
    ensures b == ListV([]) ==> Gives(s, Infix(InOp, l, r), Lit(CBool(false)))
    ensures !b.MapV? && !b.ListV? ==> Asks(s, Infix(InOp, l, r), Contains(a, b))
  {
    InValueOf(s, l, r, a, b);
  }

  /** `k in {...}` asks whether some entry is written with that key. */
  lemma InMapLiteral(s: Setting, l: Expr, k: string, es: seq<Entry>, vs: seq<Val>)
    requires Gives(s, l, Text(k)) && EntriesGive(s, es, vs)
    ensures (exists i :: 0 <= i < |es| && es[i].key == k) ==> Gives(s, Infix(InOp, l, MapE(es)), Lit(CBool(true)))
    ensures (!exists i :: 0 <= i < |es| && es[i].key == k) ==> Gives(s, Infix(InOp, l, MapE(es)), Lit(CBool(false)))
  {
    var m := MapValue(s, es, vs);
    InLaw(s, l, MapE(es), Text(k), MapV(m));
  }

  // ----- Patterns -----

  lemma MatchesOperands(s: Setting, l: Expr, r: Expr)
    ensures Result(s, l).Err? ==> Fails(s, Infix(MatchesOp, l, r), Result(s, l).e)
    ensures Result(s, l).Ok? && Result(s, PatternOf(r)).Err? ==>
        Fails(s, Infix(MatchesOp, l, r), Result(s, PatternOf(r)).e)
    ensures Result(s, l).Ok? && Result(s, PatternOf(r)).Ok? ==>
      Result(s, Infix(MatchesOp, l, r)) == MatchesValue(s.h, Result(s, l).v, Result(s, PatternOf(r)).v)
  {
    StrictTwo(s, Infix(MatchesOp, l, r), Matches, l, PatternOf(r));
  }

  /** A pattern written as a string or as a regex literal is matched against the left operand, which
      must be a string. */
  lemma PatternLaw(s: Setting, l: Expr, p: string, v: Val, r: Expr)
    requires r == Const(CStr(p)) || r == Const(CRegex(p))
    ensures Result(s, l).Err? ==> Fails(s, Infix(MatchesOp, l, r), Result(s, l).e)
    ensures Gives(s, l, v) && v.Lit? && v.c.CStr? ==> Gives(s, Infix(MatchesOp, l, r), Bool(s.h.regexMatch(p, v.c.s)))
    ensures Gives(s, l, v) && !(v.Lit? && v.c.CStr?) ==> Fails(s, Infix(MatchesOp, l, r), NotString)
  {
    LiteralLaw(s, CRegex(p), [], r);
    MatchesOperands(s, l, r);
  }

  /** A computed pattern must be a regex, whatever the left operand is. */
  lemma ComputedPattern(s: Setting, l: Expr, r: Expr, v: Val, w: Val)
    requires Operands(s, l, r, v, w) && !r.Const?
    ensures !(w.Lit? && w.c.CRegex?) ==> Fails(s, Infix(MatchesOp, l, r), NotRegex)
    ensures w.Lit? && w.c.CRegex? && !(v.Lit? && v.c.CStr?) ==> Fails(s, Infix(MatchesOp, l, r), NotString)
    ensures w.Lit? && w.c.CRegex? && v.Lit? && v.c.CStr? ==>
      Gives(s, Infix(MatchesOp, l, r), Bool(s.h.regexMatch(w.c.pattern, v.c.s)))
  {
    MatchesOperands(s, l, r);
  }
}
