// Power by squaring in wrapping machine integers, and the arithmetic of the byte type.

module Power {
  import opened Int64
  import opened Values

  // ----- Wrapping is reduction modulo 2^64 -----

  /** How many times 2^64 Wrap adds. */
  function Turns(x: int): (k: int)
    ensures Wrap(x) == x + k * TWO_64
    decreases if x < 0 then -x else x + 1
  {
    if x < -TWO_63 then Turns(x + TWO_64) + 1
    else if x < TWO_63 then 0
    else Turns(x - TWO_64) - 1
  }

  lemma {:induction false} WrapShift(x: int, k: int)
    ensures Wrap(x + k * TWO_64) == Wrap(x)
    decreases if k < 0 then -k else k
  {
    if k > 0 {
      WrapShift(x, k - 1);
      WrapOnce(x + (k - 1) * TWO_64);
    } else if k < 0 {
      WrapShift(x, k + 1);
      WrapOnce(x + k * TWO_64);
    }
  }

  lemma WrapOnce(x: int)
    ensures Wrap(x + TWO_64) == Wrap(x)
  {
  }

  lemma Distribute(a: int, k: int, b: int)
    ensures (a + k * TWO_64) * b == a * b + (k * b) * TWO_64
  {
  }

  /** A factor may be reduced before multiplying. */
  lemma WrapFactor(a: int, b: int)
    ensures Wrap(Wrap(a) * b) == Wrap(a * b)
  {
    Distribute(a, Turns(a), b);
    WrapShift(a * b, Turns(a) * b);
  }

  lemma Rearrange(a: int, b: int, c: int)
    ensures a * (b * c) == (a * b) * c == b * (a * c)
  {
  }

  lemma {:induction false} WrapBase(x: int, b: int, e: nat)
    ensures Wrap(x * Int64.Pow(Wrap(b), e)) == Wrap(x * Int64.Pow(b, e))
    decreases e
  {
    if e > 0 {
      var p := Int64.Pow(Wrap(b), e - 1);
      Rearrange(x, Wrap(b), p);
      Rearrange(x, b, p);
      WrapFactor(b, x * p);
      WrapBase(x * b, b, e - 1);
      Rearrange(x, b, Int64.Pow(b, e - 1));
    }
  }

  lemma {:induction false} PowSquare(b: int, k: nat)
    ensures Int64.Pow(b, 2 * k) == Int64.Pow(b * b, k)
  {
    if k > 0 {
      PowSquare(b, k - 1);
      assert Int64.Pow(b, 2 * k) == b * (b * Int64.Pow(b, 2 * (k - 1)));
      Rearrange(b, b, Int64.Pow(b, 2 * (k - 1)));
    }
  }

  /** One round of squaring: what is left to multiply in stays the same modulo 2^64. */
  lemma SquareStep(result: int64, b: int64, e: nat)
    requires e > 0
    ensures
      var r := if e % 2 == 1 then Wrap(result * b) else result;
      Wrap(r * Int64.Pow(Wrap(b * b), e / 2)) == Wrap(result * Int64.Pow(b, e))
  {
    var half := Int64.Pow(b * b, e / 2);
    PowSquare(b, e / 2);
    WrapBase(if e % 2 == 1 then Wrap(result * b) else result, b * b, e / 2);
    if e % 2 == 1 {
      WrapFactor(result * b, half);
      assert Int64.Pow(b, e) == b * Int64.Pow(b, e - 1) && e - 1 == 2 * (e / 2);
      Rearrange(result, b, half);
    } else {
      assert e == 2 * (e / 2);
    }
  }

  /** The machine's integer power. */
  method IntPow(base: int64, exp: int64) returns (r: Outcome<int64>)
    ensures r == if exp < 0 then Err(NegativeExponent) else Ok(Wrap(Int64.Pow(base, exp)))
  {
    if exp < 0 { return Err(NegativeExponent); }
    var result: int64, b: int64, e: nat := 1, base, exp;
    while e > 0
      invariant Wrap(result * Int64.Pow(b, e)) == Wrap(Int64.Pow(base, exp))
    {
      SquareStep(result, b, e);
      if e % 2 == 1 { result := Wrap(result * b); }
      b := Wrap(b * b);
      e := e / 2;
    }
    return Ok(result);
  }

  /** The folder's own copy: no result for a negative exponent, and otherwise the machine's. */
  method FoldIntPow(base: int64, exp: int64) returns (result: int64, ok: bool)
    ensures ok == (exp >= 0)
    ensures ok ==> Ok(result) == Ok(Wrap(Int64.Pow(base, exp)))
  {
    if exp < 0 { return 0, false; }
    result, ok := 1, true;
    var b: int64, e: nat := base, exp;
    while e > 0
      invariant Wrap(result * Int64.Pow(b, e)) == Wrap(Int64.Pow(base, exp))
    {
      SquareStep(result, b, e);
      if e % 2 == 1 { result := Wrap(result * b); }
      b := Wrap(b * b);
      e := e / 2;
    }
  }

  // ----- Bytes -----

  type byte = x: int | 0 <= x < 256

  /** The low eight bits of a two's-complement integer. */
  function LowByte(x: int): byte { x % 256 }

  lemma LowByteShift(x: int, m: int)
    ensures LowByte(x + 256 * m) == LowByte(x)
  {
  }

  lemma LowByteWrap(x: int)
    ensures LowByte(Wrap(x)) == LowByte(x)
  {
    LowByteShift(x, Turns(x) * 0x100_0000_0000_0000);
  }

  lemma LowByteOperands(a: int, b: int)
    ensures LowByte(LowByte(a) + LowByte(b)) == LowByte(a + b)
    ensures LowByte(LowByte(a) - LowByte(b)) == LowByte(a - b)
    ensures LowByte(LowByte(a) * LowByte(b)) == LowByte(a * b)
  {
    var p, q := a / 256, b / 256;
    var x, y := LowByte(a), LowByte(b);
    assert a == x + 256 * p && b == y + 256 * q;
    LowByteShift(x + y, p + q);
    LowByteShift(x - y, p - q);
    assert a * b == x * y + 256 * (p * y + q * x + 256 * (p * q));
    LowByteShift(x * y, p * y + q * x + 256 * (p * q));
  }

  lemma {:induction false} LowBytePow(a: int, e: nat)
    ensures LowByte(Int64.Pow(LowByte(a), e)) == LowByte(Int64.Pow(a, e))
  {
    if e > 0 {
      LowBytePow(a, e - 1);
      LowByteProduct(LowByte(a), Int64.Pow(LowByte(a), e - 1), a, Int64.Pow(a, e - 1));
    }
  }

  lemma LowByteProduct(x: int, p: int, a: int, q: int)
    requires LowByte(x) == LowByte(a) && LowByte(p) == LowByte(q)
    ensures LowByte(x * p) == LowByte(a * q)
  {
    LowByteOperands(x, p);
    LowByteOperands(a, q);
  }

  datatype ByteResult = AsByte(b: byte) | AsBool(t: bool)

  /** The byte handler: operands of type byte, int or int64 widened to int64, the result of an
      arithmetic operator reduced to its low byte. */
  method ByteOperations(op: BinOp, a: int64, b: int64) returns (r: Outcome<ByteResult>)
    ensures op == Add ==> r == Ok(AsByte(LowByte(LowByte(a) + LowByte(b))))
    ensures op == Sub ==> r == Ok(AsByte(LowByte(LowByte(a) - LowByte(b))))
    ensures op == Mul ==> r == Ok(AsByte(LowByte(LowByte(a) * LowByte(b))))
    ensures op == BinOp.Pow ==> r == if b < 0 then Err(NegativeExponent) else Ok(AsByte(LowByte(Int64.Pow(LowByte(a),
        b))))
    ensures op == Div ==> r == if b == 0 then Err(DivideByZero) else Ok(AsByte(LowByte(Quo(a, b))))
    ensures op == Mod ==> r == if b == 0 then Err(ModulusByZero) else Ok(AsByte(LowByte(Rem(a, b))))
    ensures op == Eq ==> r == Ok(AsBool(a == b))
    ensures op == Ne ==> r == Ok(AsBool(a != b))
    ensures op == Lt ==> r == Ok(AsBool(a < b))
    ensures op == Gt ==> r == Ok(AsBool(a > b))
    ensures op == Le ==> r == Ok(AsBool(a <= b))
    ensures op == Ge ==> r == Ok(AsBool(a >= b))
  {
    LowByteOperands(a, b);
    LowByteWrap(a + b);
    LowByteWrap(a - b);
    LowByteWrap(a * b);
    match op
    case Add => return Ok(AsByte(LowByte(Wrap(a + b))));
    case Sub => return Ok(AsByte(LowByte(Wrap(a - b))));
    case Mul => return Ok(AsByte(LowByte(Wrap(a * b))));
    case Div =>
      if b == 0 { return Err(DivideByZero); }
      LowByteWrap(Quo(a, b));
      return Ok(AsByte(LowByte(Wrap(Quo(a, b)))));
    case Mod =>
      if b == 0 { return Err(ModulusByZero); }
      LowByteWrap(Rem(a, b));
      return Ok(AsByte(LowByte(Wrap(Rem(a, b)))));
    case Pow =>
      var power := IntPow(a, b);
      if power.Err? { return Err(power.e); }
      LowByteWrap(Int64.Pow(a, b));
      LowBytePow(a, b);
      return Ok(AsByte(LowByte(power.v)));
    case _ => return Ok(AsBool(IntCompare(op, a, b)));
  }
}
