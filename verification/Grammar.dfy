// Tokens, and concrete syntax trees that remember every token of the text they came from.

module Grammar {
  import opened Values
  import opened Syntax

  datatype Sym =
    | OrOr | OrWord | AndAnd | AndWord | QuestionQuestion
    | EqEq | NotEq | Less | Greater | LessEq | GreaterEq | InWord | MatchesWord | NotWord
    | PlusSign | MinusSign | Star | Slash | Percent | StarStar
    | BangSign | Assign | OtherSym(text: string)

  type Numeral = c: Values.Const | c.CInt? || c.CFloat? witness CInt(0)

  datatype Token =
    | EOF
    | Number(n: Numeral)
    | Str(s: string)
    | Ident(x: string)
    | Bool(b: bool)
    | Nil
    | Regex(pattern: string)
    | Op(sym: Sym)
    | LParen | RParen | LBrace | RBrace | LBracket | RBracket
    | Question | OptDot | Colon | Comma | Dot | Arrow | Semicolon
    | If | Else | LetWord
    | Illegal(message: string)

  // ----- The binding-power table -----

  const LOWEST: nat := 0
  const PREC_TERNARY: nat := 1
  const PREC_NIL_COALESCE: nat := 2
  const PREC_OR: nat := 3
  const PREC_AND: nat := 4
  const PREC_EQUALS: nat := 5
  const PREC_LESSGREATER: nat := 6
  const PREC_SUM: nat := 7
  const PREC_PRODUCT: nat := 8
  const PREC_EXPONENT: nat := 9
  const PREC_PREFIX: nat := 10
  const PREC_CALL: nat := 11

  /** How strongly an operator binds to what is on its left; LOWEST if it is not infix. */
  function SymLBP(s: Sym): nat {
    match s
    case QuestionQuestion => PREC_NIL_COALESCE
    case OrOr | OrWord => PREC_OR
    case AndAnd | AndWord => PREC_AND
    case EqEq | NotEq => PREC_EQUALS
    case Less | Greater | LessEq | GreaterEq | InWord | MatchesWord | NotWord => PREC_LESSGREATER
    case PlusSign | MinusSign => PREC_SUM
    case Star | Slash | Percent => PREC_PRODUCT
    case StarStar => PREC_EXPONENT
    case BangSign | Assign | OtherSym(_) => LOWEST
  }

  /** The floor for parsing its right operand: one less for the right-associative operators. */
  function SymRBP(s: Sym): nat {
    if s.QuestionQuestion? then PREC_NIL_COALESCE - 1
    else if s.StarStar? then PREC_EXPONENT - 1
    else SymLBP(s)
  }

  function LBP(t: Token): nat {
    match t
    case Op(s) => SymLBP(s)
    case Dot | OptDot | LParen | LBracket => PREC_CALL
    case Question => PREC_TERNARY
    case _ => LOWEST
  }

  predicate IsPrefixOp(s: Sym) { s.MinusSign? || s.PlusSign? || s.BangSign? || s.NotWord? }

  predicate IsInfixOp(s: Sym) { SymLBP(s) > LOWEST && s != NotWord }

  // ----- Concrete syntax -----

  datatype Tree =
    | Literal(c: Values.Const)
    | Variable(x: string)
    | Group(inner: Tree)
    | Prefix(sym: Sym, operand: Tree)
    | Binary(sym: Sym, left: Tree, right: Tree)
    | NotIn(left: Tree, right: Tree)
    | Dotted(target: Tree, member: string, optional: bool)
    | Indexed(target: Tree, index: Tree, optional: bool)
    | Sliced(target: Tree, low: Option<Tree>, high: Option<Tree>)
    | Called(callee: Tree, args: seq<Tree>)
    | Ternary(cond: Tree, whenTrue: Tree, whenFalse: Tree)
    | Listing(elements: seq<Tree>)
    | Mapping(entries: seq<TreeEntry>)
    | Arrow1(param: string, body: Tree)
    | ArrowN(params: seq<string>, body: Tree)
    | IfElse(cond: Tree, yes: BranchTree, no: Option<BranchTree>)
    | LetIn(name: string, value: Tree, body: Tree)

  /** A map key is a bare identifier or a string literal. */
  datatype TreeEntry = TreeEntry(key: string, quoted: bool, value: Tree)

  datatype BranchTree = Block(tree: Tree) | Single(tree: Tree)

  /** The tree the parser builds. */
  function Abstract(t: Tree): Expr {
    match t
    case Literal(c) => Const(c)
    case Variable(x) => Var(x)
    case Group(t) => Abstract(t)
    case Prefix(s, t) => Unary(if s.MinusSign? then Minus else if s.PlusSign? then Plus else Bang, Abstract(t))
    case Binary(s, l, r) => Infix(InfixOf(s), Abstract(l), Abstract(r))
    case NotIn(l, r) => Unary(Bang, Infix(InOp, Abstract(l), Abstract(r)))
    case Dotted(t, n, o) => Member(Abstract(t), n, o)
    case Indexed(t, i, o) => IndexE(Abstract(t), Abstract(i), o)
    case Sliced(t, lo, hi) => SliceE(Abstract(t), AbstractOption(lo), AbstractOption(hi))
    case Called(f, args) => Call(Abstract(f), AbstractAll(args))
    case Ternary(c, y, n) => Conditional(Abstract(c), Abstract(y), Some(Abstract(n)))
    case Listing(es) => ListE(AbstractAll(es))
    case Mapping(es) => MapE(AbstractEntries(es))
    case Arrow1(x, b) => Lambda([x], Abstract(b))
    case ArrowN(ps, b) => Lambda(ps, Abstract(b))
    case IfElse(c, y, n) => Conditional(Abstract(c), Abstract(y.tree),
      if n.Some? then Some(Abstract(n.value.tree)) else None)
    case LetIn(x, v, b) => Let(x, Abstract(v), Abstract(b))
  }

  function AbstractOption(o: Option<Tree>): Option<Expr> {
    match o
    case Some(t) => Some(Abstract(t))
    case None => None
  }

  function AbstractAll(ts: seq<Tree>): seq<Expr> {
    seq(|ts|, i requires 0 <= i < |ts| => Abstract(ts[i]))
  }

  function AbstractEntries(es: seq<TreeEntry>): seq<Entry> {
    seq(|es|, i requires 0 <= i < |es| => Entry(es[i].key, Abstract(es[i].value)))
  }

  function InfixOf(s: Sym): InfixOp {
    match s
    case OrOr | OrWord => Or
    case AndAnd | AndWord => And
    case QuestionQuestion => Coalesce
    case MatchesWord => MatchesOp
    case InWord => InOp
    case EqEq => Arith(Eq)
    case NotEq => Arith(Ne)
    case Less => Arith(Lt)
    case Greater => Arith(Gt)
    case LessEq => Arith(Le)
    case GreaterEq => Arith(Ge)
    case PlusSign => Arith(Add)
    case MinusSign => Arith(Sub)
    case Star => Arith(Mul)
    case Slash => Arith(Div)
    case Percent => Arith(Mod)
    case _ => Arith(Pow)
  }

  // ----- The tokens of a tree -----

  function ConstToken(c: Values.Const): Token {
    match c
    case CNil => Nil
    case CBool(b) => Bool(b)
    case CInt(_) => Number(c)
    case CFloat(_) => Number(c)
    case CStr(s) => Str(s)
    case CRegex(p) => Regex(p)
  }

  /** The tokens of t, followed by rest. */
  function Emit(t: Tree, rest: seq<Token>): (r: seq<Token>)
    ensures |r| > |rest|
  {
    match t
    case Literal(c) => [ConstToken(c)] + rest
    case Variable(x) => [Ident(x)] + rest
    case Group(t) => [LParen] + Emit(t, [RParen] + rest)
    case Prefix(s, t) => [Op(s)] + Emit(t, rest)
    case Binary(s, l, r) => Emit(l, [Op(s)] + Emit(r, rest))
    case NotIn(l, r) => Emit(l, [Op(NotWord)] + ([Op(InWord)] + Emit(r, rest)))
    case Dotted(t, n, o) => Emit(t, [if o then OptDot else Dot] + ([Ident(n)] + rest))
    case Indexed(t, i, o) =>
      var inside := [LBracket] + Emit(i, [RBracket] + rest);
      Emit(t, if o then [OptDot] + inside else inside)
    case Sliced(t, lo, hi) => Emit(t, [LBracket] + EmitOption(lo, [Colon] + EmitOption(hi, [RBracket] + rest)))
    case Called(f, args) => Emit(f, [LParen] + EmitAll(args, [RParen] + rest))
    case Ternary(c, y, n) => Emit(c, [Question] + Emit(y, [Colon] + Emit(n, rest)))
    case Listing(es) => [LBracket] + EmitAll(es, [RBracket] + rest)
    case Mapping(es) => [LBrace] + EmitEntries(es, [RBrace] + rest)
    case Arrow1(x, b) => [Ident(x)] + ([Arrow] + Emit(b, rest))
    case ArrowN(ps, b) => [LParen] + EmitParams(ps, [RParen] + ([Arrow] + Emit(b, rest)))
    case IfElse(c, y, n) => [If] + Emit(c, EmitBranch(y, if n.Some? then [Else] + EmitBranch(n.value, rest) else rest))
    case LetIn(x, v, b) => [LetWord] + ([Ident(x)] + ([Op(Assign)] + Emit(v, [Semicolon] + Emit(b, rest))))
  }

  function EmitOption(o: Option<Tree>, rest: seq<Token>): (r: seq<Token>)
    ensures |r| >= |rest|
  {
    match o
    case Some(t) => Emit(t, rest)
    case None => rest
  }

  function EmitBranch(b: BranchTree, rest: seq<Token>): (r: seq<Token>)
    ensures |r| > |rest|
  {
    match b
    case Block(t) => [LBrace] + Emit(t, [RBrace] + rest)
    case Single(t) => Emit(t, rest)
  }

  function EmitAll(ts: seq<Tree>, rest: seq<Token>): (r: seq<Token>)
    ensures |r| >= |rest|
  {
    if ts == [] then rest
    else Emit(ts[0], if |ts| == 1 then rest else [Comma] + EmitAll(ts[1..], rest))
  }

  function EmitEntries(es: seq<TreeEntry>, rest: seq<Token>): (r: seq<Token>)
    ensures |r| >= |rest|
  {
    if es == [] then rest
    else
      [if es[0].quoted then Str(es[0].key) else Ident(es[0].key)] +
      ([Colon] + Emit(es[0].value, if |es| == 1 then rest else [Comma] + EmitEntries(es[1..], rest)))
  }

  function EmitParams(ps: seq<string>, rest: seq<Token>): (r: seq<Token>)
    ensures |r| >= |rest|
  {
    if ps == [] then rest
    else [Ident(ps[0])] + (if |ps| == 1 then rest else [Comma] + EmitParams(ps[1..], rest))
  }

  /** The tokens of t. */
  function Flatten(t: Tree): seq<Token> { Emit(t, []) }

  /** The token t begins with. */
  function FirstOf(t: Tree): Token {
    match t
    case Literal(c) => ConstToken(c)
    case Variable(x) => Ident(x)
    case Group(_) => LParen
    case Prefix(s, _) => Op(s)
    case Binary(_, l, _) => FirstOf(l)
    case NotIn(l, _) => FirstOf(l)
    case Dotted(t, _, _) => FirstOf(t)
    case Indexed(t, _, _) => FirstOf(t)
    case Sliced(t, _, _) => FirstOf(t)
    case Called(f, _) => FirstOf(f)
    case Ternary(c, _, _) => FirstOf(c)
    case Listing(_) => LBracket
    case Mapping(_) => LBrace
    case Arrow1(x, _) => Ident(x)
    case ArrowN(_, _) => LParen
    case IfElse(_, _, _) => If
    case LetIn(_, _, _) => LetWord
  }

  function FirstOfBranch(b: BranchTree): Token { if b.Block? then LBrace else FirstOf(b.tree) }

  // ----- Trees that respect the table -----

  /** tok, coming right after t, is not taken into t: at t's right edge no operand is being parsed
      at a floor that tok exceeds, a variable or bracketed variable does not turn into a parameter
      list, and no `if` is waiting for its else. */
  predicate Follows(t: Tree, tok: Token) {
    match t
    case Variable(_) => tok != Arrow
    case Group(inner) => !(inner.Variable? && tok == Arrow)
    case Prefix(_, a) => LBP(tok) <= PREC_PREFIX && Follows(a, tok)
    case Binary(s, _, r) => LBP(tok) <= SymRBP(s) && Follows(r, tok)
    case NotIn(_, r) => LBP(tok) <= SymRBP(NotWord) && Follows(r, tok)
    case Ternary(_, _, n) => LBP(tok) <= PREC_TERNARY - 1 && Follows(n, tok)
    case Arrow1(_, b) => LBP(tok) <= LOWEST && Follows(b, tok)
    case ArrowN(_, b) => LBP(tok) <= LOWEST && Follows(b, tok)
    case LetIn(_, _, b) => LBP(tok) <= LOWEST && Follows(b, tok)
    case IfElse(_, y, n) => if n.Some? then FollowsBranch(n.value, tok) else tok != Else && FollowsBranch(y, tok)
    case _ => true
  }

  predicate FollowsBranch(b: BranchTree, tok: Token) {
    b.Single? ==> LBP(tok) <= LOWEST && Follows(b.tree, tok)
  }

  /** The operator at the root of t, if t has an operand on its left, exceeds the floor p. */
  predicate Exceeds(t: Tree, p: nat) {
    match t
    case Binary(s, _, _) => SymLBP(s) > p
    case NotIn(_, _) => PREC_LESSGREATER > p
    case Ternary(_, _, _) => PREC_TERNARY > p
    case Dotted(_, _, _) => PREC_CALL > p
    case Indexed(_, _, _) => PREC_CALL > p
    case Sliced(_, _, _) => PREC_CALL > p
    case Called(_, _) => PREC_CALL > p
    case _ => true
  }

  /** Every operand sits where the binding powers put it: a left operand is complete before its
      operator, and a right operand's root exceeds the floor it is parsed at. */
  predicate Respects(t: Tree) {
    match t
    case Literal(_) => true
    case Variable(_) => true
    case Group(t) => Respects(t)
    case Prefix(s, a) => IsPrefixOp(s) && Respects(a) && Exceeds(a, PREC_PREFIX)
    case Binary(s, l, r) => IsInfixOp(s) && Respects(l) && Respects(r) && Follows(l, Op(s)) && Exceeds(r, SymRBP(s))
    case NotIn(l, r) => Respects(l) && Respects(r) && Follows(l, Op(NotWord)) && Exceeds(r, SymRBP(NotWord))
    case Dotted(t, _, o) => Respects(t) && Follows(t, if o then OptDot else Dot)
    case Indexed(t, i, o) => Respects(t) && Respects(i) && Follows(t, if o then OptDot else LBracket)
    case Sliced(t, lo, hi) =>
      Respects(t) && (lo.Some? ==> Respects(lo.value)) && (hi.Some? ==> Respects(hi.value)) && Follows(t, LBracket)
    case Called(f, args) => Respects(f) && RespectAll(args) && Follows(f, LParen)
    case Ternary(c, y, n) => Respects(c) && Respects(y) && Respects(n) && Follows(c, Question) &&
      Exceeds(n, PREC_TERNARY - 1)
    case Listing(es) => RespectAll(es)
    case Mapping(es) => RespectEntries(es)
    case Arrow1(_, b) => Respects(b)
    case ArrowN(_, b) => Respects(b)
    case LetIn(_, v, b) => Respects(v) && Respects(b)
    case IfElse(c, y, n) =>
      && Respects(c) && RespectBranch(y)
      && LBP(FirstOfBranch(y)) <= LOWEST && Follows(c, FirstOfBranch(y))
      && (n.Some? ==> RespectBranch(n.value) && FollowsBranch(y, Else))
  }

  /** A branch without braces cannot begin with one. */
  predicate RespectBranch(b: BranchTree) {
    Respects(b.tree) && (b.Single? ==> FirstOf(b.tree) != LBrace)
  }

  predicate RespectAll(ts: seq<Tree>) {
    ts == [] || (Respects(ts[0]) && RespectAll(ts[1..]))
  }

  predicate RespectEntries(es: seq<TreeEntry>) {
    es == [] || (Respects(es[0].value) && RespectEntries(es[1..]))
  }

  lemma {:induction false} EmitFirst(t: Tree, rest: seq<Token>)
    ensures Emit(t, rest)[0] == FirstOf(t)
  {
    match t
    case Binary(s, l, r) => EmitFirst(l, [Op(s)] + Emit(r, rest));
    case NotIn(l, r) => EmitFirst(l, [Op(NotWord)] + ([Op(InWord)] + Emit(r, rest)));
    case Dotted(t, n, o) => EmitFirst(t, [if o then OptDot else Dot] + ([Ident(n)] + rest));
    case Indexed(t, i, o) =>
      var inside := [LBracket] + Emit(i, [RBracket] + rest);
      EmitFirst(t, if o then [OptDot] + inside else inside);
    case Sliced(t, lo, hi) => EmitFirst(t, [LBracket] + EmitOption(lo, [Colon] + EmitOption(hi, [RBracket] + rest)));
    case Called(f, args) => EmitFirst(f, [LParen] + EmitAll(args, [RParen] + rest));
    case Ternary(c, y, n) => EmitFirst(c, [Question] + Emit(y, [Colon] + Emit(n, rest)));
    case _ =>
  }

  lemma ConsPlus(tok: Token, a: seq<Token>, b: seq<Token>)
    ensures ([tok] + a) + b == [tok] + (a + b)
  {
  }

  lemma Cons2Plus(tok: Token, tok': Token, a: seq<Token>, b: seq<Token>)
    ensures ([tok] + ([tok'] + a)) + b == [tok] + ([tok'] + (a + b))
  {
  }

  /** Nothing of what follows t is disturbed by t's own tokens. */
  lemma {:induction false} EmitPlus(t: Tree, a: seq<Token>, b: seq<Token>)
    ensures Emit(t, a) + b == Emit(t, a + b)
    decreases t, 1
  {
    match t
    case Literal(_) => ConsPlus(FirstOf(t), a, b);
    case Variable(_) => ConsPlus(FirstOf(t), a, b);
    case Group(t) =>
      EmitPlus(t, [RParen] + a, b);
      ConsPlus(RParen, a, b);
      ConsPlus(LParen, Emit(t, [RParen] + a), b);
    case Prefix(s, t) =>
      EmitPlus(t, a, b);
      ConsPlus(Op(s), Emit(t, a), b);
    case Binary(s, l, r) =>
      EmitPlus(r, a, b);
      ConsPlus(Op(s), Emit(r, a), b);
      EmitPlus(l, [Op(s)] + Emit(r, a), b);
    case NotIn(l, r) =>
      EmitPlus(r, a, b);
      Cons2Plus(Op(NotWord), Op(InWord), Emit(r, a), b);
      EmitPlus(l, [Op(NotWord)] + ([Op(InWord)] + Emit(r, a)), b);
    case Dotted(t, n, o) =>
      var tok := if o then OptDot else Dot;
      Cons2Plus(tok, Ident(n), a, b);
      EmitPlus(t, [tok] + ([Ident(n)] + a), b);
    case Indexed(_, _, _) => EmitPlusIndexed(t, a, b);
    case Sliced(_, _, _) => EmitPlusSliced(t, a, b);
    case Called(f, args) =>
      ConsPlus(RParen, a, b);
      AllPlus(args, [RParen] + a, b);
      ConsPlus(LParen, EmitAll(args, [RParen] + a), b);
      EmitPlus(f, [LParen] + EmitAll(args, [RParen] + a), b);
    case Ternary(_, _, _) => EmitPlusTernary(t, a, b);
    case Listing(es) =>
      ConsPlus(RBracket, a, b);
      AllPlus(es, [RBracket] + a, b);
      ConsPlus(LBracket, EmitAll(es, [RBracket] + a), b);
    case Mapping(es) =>
      ConsPlus(RBrace, a, b);
      EntriesPlus(es, [RBrace] + a, b);
      ConsPlus(LBrace, EmitEntries(es, [RBrace] + a), b);
    case Arrow1(x, t) =>
      EmitPlus(t, a, b);
      Cons2Plus(Ident(x), Arrow, Emit(t, a), b);
    case ArrowN(ps, t) =>
      var tail := [RParen] + ([Arrow] + Emit(t, a));
      EmitPlus(t, a, b);
      Cons2Plus(RParen, Arrow, Emit(t, a), b);
      ParamsPlus(ps, tail, b);
      ConsPlus(LParen, EmitParams(ps, tail), b);
    case IfElse(_, _, _) => EmitPlusIf(t, a, b);
    case LetIn(_, _, _) => EmitPlusLet(t, a, b);
  }

  lemma {:induction false} EmitPlusIndexed(t: Tree, a: seq<Token>, b: seq<Token>)
    requires t.Indexed?
    ensures Emit(t, a) + b == Emit(t, a + b)
    decreases t, 0
  {
    var Indexed(l, i, o) := t;
    var inside := Emit(i, [RBracket] + a);
    ConsPlus(RBracket, a, b);
    EmitPlus(i, [RBracket] + a, b);
    ConsPlus(LBracket, inside, b);
    Cons2Plus(OptDot, LBracket, inside, b);
    EmitPlus(l, if o then [OptDot] + ([LBracket] + inside) else [LBracket] + inside, b);
  }

  lemma {:induction false} EmitPlusSliced(t: Tree, a: seq<Token>, b: seq<Token>)
    requires t.Sliced?
    ensures Emit(t, a) + b == Emit(t, a + b)
    decreases t, 0
  {
    var Sliced(l, lo, hi) := t;
    var tail := EmitOption(hi, [RBracket] + a);
    ConsPlus(RBracket, a, b);
    if hi.Some? { EmitPlus(hi.value, [RBracket] + a, b); }
    ConsPlus(Colon, tail, b);
    if lo.Some? { EmitPlus(lo.value, [Colon] + tail, b); }
    ConsPlus(LBracket, EmitOption(lo, [Colon] + tail), b);
    EmitPlus(l, [LBracket] + EmitOption(lo, [Colon] + tail), b);
  }

  lemma {:induction false} EmitPlusTernary(t: Tree, a: seq<Token>, b: seq<Token>)
    requires t.Ternary?
    ensures Emit(t, a) + b == Emit(t, a + b)
    decreases t, 0
  {
    var Ternary(c, y, n) := t;
    EmitPlus(n, a, b);
    ConsPlus(Colon, Emit(n, a), b);
    EmitPlus(y, [Colon] + Emit(n, a), b);
    ConsPlus(Question, Emit(y, [Colon] + Emit(n, a)), b);
    EmitPlus(c, [Question] + Emit(y, [Colon] + Emit(n, a)), b);
  }

  lemma {:induction false} EmitPlusIf(t: Tree, a: seq<Token>, b: seq<Token>)
    requires t.IfElse?
    ensures Emit(t, a) + b == Emit(t, a + b)
    decreases t, 0
  {
    var IfElse(c, y, n) := t;
    var after := if n.Some? then [Else] + EmitBranch(n.value, a) else a;
    if n.Some? {
      BranchPlus(n.value, a, b);
      ConsPlus(Else, EmitBranch(n.value, a), b);
    }
    BranchPlus(y, after, b);
    EmitPlus(c, EmitBranch(y, after), b);
    ConsPlus(If, Emit(c, EmitBranch(y, after)), b);
  }

  lemma {:induction false} BranchPlus(y: BranchTree, a: seq<Token>, b: seq<Token>)
    ensures EmitBranch(y, a) + b == EmitBranch(y, a + b)
    decreases y, 2
  {
    if y.Block? {
      ConsPlus(RBrace, a, b);
      EmitPlus(y.tree, [RBrace] + a, b);
      ConsPlus(LBrace, Emit(y.tree, [RBrace] + a), b);
    } else {
      EmitPlus(y.tree, a, b);
    }
  }

  lemma {:induction false} EmitPlusLet(t: Tree, a: seq<Token>, b: seq<Token>)
    requires t.LetIn?
    ensures Emit(t, a) + b == Emit(t, a + b)
    decreases t, 0
  {
    var LetIn(x, v, e) := t;
    var after := [Semicolon] + Emit(e, a);
    EmitPlus(e, a, b);
    ConsPlus(Semicolon, Emit(e, a), b);
    EmitPlus(v, after, b);
    Cons2Plus(Ident(x), Op(Assign), Emit(v, after), b);
    ConsPlus(LetWord, [Ident(x)] + ([Op(Assign)] + Emit(v, after)), b);
  }

  lemma {:induction false} AllPlus(ts: seq<Tree>, a: seq<Token>, b: seq<Token>)
    ensures EmitAll(ts, a) + b == EmitAll(ts, a + b)
    decreases ts, 2
  {
    if ts != [] {
      if |ts| > 1 {
        AllPlus(ts[1..], a, b);
        ConsPlus(Comma, EmitAll(ts[1..], a), b);
      }
      EmitPlus(ts[0], if |ts| == 1 then a else [Comma] + EmitAll(ts[1..], a), b);
    }
  }

  lemma {:induction false} EntriesPlus(es: seq<TreeEntry>, a: seq<Token>, b: seq<Token>)
    ensures EmitEntries(es, a) + b == EmitEntries(es, a + b)
    decreases es, 2
  {
    if es != [] {
      if |es| > 1 {
        EntriesPlus(es[1..], a, b);
        ConsPlus(Comma, EmitEntries(es[1..], a), b);
      }
      var after := if |es| == 1 then a else [Comma] + EmitEntries(es[1..], a);
      EmitPlus(es[0].value, after, b);
      Cons2Plus(if es[0].quoted then Str(es[0].key) else Ident(es[0].key), Colon, Emit(es[0].value, after), b);
    }
  }

  lemma {:induction false} ParamsPlus(ps: seq<string>, a: seq<Token>, b: seq<Token>)
    ensures EmitParams(ps, a) + b == EmitParams(ps, a + b)
  {
    if ps != [] {
      if |ps| > 1 {
        ParamsPlus(ps[1..], a, b);
        Cons2Plus(Ident(ps[0]), Comma, EmitParams(ps[1..], a), b);
      } else {
        ConsPlus(Ident(ps[0]), a, b);
      }
    }
  }

  lemma EmitFlatten(t: Tree, rest: seq<Token>)
    ensures Emit(t, rest) == Flatten(t) + rest
  {
    EmitPlus(t, [], rest);
    assert [] + rest == rest;
  }
}
