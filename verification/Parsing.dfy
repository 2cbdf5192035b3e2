// The grammar's parser as a function on token sequences, and why it is exact: it accepts a tree
// precisely when the tree respects the binding-power table and its tokens are the ones consumed.

module Parsing {
  import opened Values
  import opened Syntax
  import opened Grammar

  datatype Parsed<+T> = Got(v: T, rest: seq<Token>) | Bad

  function First(ts: seq<Token>): Token { if ts == [] then EOF else ts[0] }

  /** rest is a proper suffix of ts in length. */
  predicate Shorter<T>(r: Parsed<T>, ts: seq<Token>) { r.Got? ==> |r.rest| < |ts| }

  function Parse(p: nat, ts: seq<Token>): (r: Parsed<Tree>)
    ensures Shorter(r, ts)
    decreases |ts|, 3
  {
    match ParsePrefix(ts)
    case Bad => Bad
    case Got(left, rest) => Loop(p, left, rest)
  }

  /** The infix and postfix loop: absorb operators that exceed the floor p. */
  function Loop(p: nat, left: Tree, ts: seq<Token>): (r: Parsed<Tree>)
    ensures r.Got? ==> |r.rest| <= |ts|
    decreases |ts|, 2
  {
    if LBP(First(ts)) <= p then Got(left, ts) else
    match Extend(left, ts)
    case Bad => Bad
    case Got(t, rest) => Loop(p, t, rest)
  }

  /** One operator or postfix form applied to left. */
  function Extend(left: Tree, ts: seq<Token>): (r: Parsed<Tree>)
    requires ts != []
    ensures Shorter(r, ts)
    decreases |ts|, 1
  {
    match ts[0]
    case Op(s) => ExtendOperator(left, s, ts[1..])
    case Dot => if First(ts[1..]).Ident? then Got(Dotted(left, ts[1].x, false), ts[2..]) else Bad
    case OptDot => ExtendOptional(left, ts[1..])
    case LParen =>
      (match Items(RParen, ts[1..])
       case Bad => Bad
       case Got(args, rest) => Got(Called(left, args), rest))
    case LBracket => Brackets(left, ts[1..])
    case Question => ExtendTernary(left, ts[1..])
    case _ => Bad
  }

  /** The right operand of s; `not` is infix only as the first half of `not in`. */
  function ExtendOperator(left: Tree, s: Sym, ts: seq<Token>): (r: Parsed<Tree>)
    ensures r.Got? ==> |r.rest| <= |ts|
    decreases |ts|, 4
  {
    if s == NotWord then
      if First(ts) != Op(InWord) then Bad else
      match Parse(SymRBP(NotWord), ts[1..])
      case Bad => Bad
      case Got(right, rest) => Got(NotIn(left, right), rest)
    else
      match Parse(SymRBP(s), ts)
      case Bad => Bad
      case Got(right, rest) => Got(Binary(s, left, right), rest)
  }

  /** What follows `?.`: a member or a bracketed index. */
  function ExtendOptional(left: Tree, ts: seq<Token>): (r: Parsed<Tree>)
    ensures r.Got? ==> |r.rest| <= |ts|
    decreases |ts|, 4
  {
    if First(ts) == LBracket then
      match Parse(LOWEST, ts[1..])
      case Bad => Bad
      case Got(i, rest) => if First(rest) == RBracket then Got(Indexed(left, i, true), rest[1..]) else Bad
    else if First(ts).Ident? then Got(Dotted(left, ts[0].x, true), ts[1..])
    else Bad
  }

  /** What follows `cond ?`. */
  function ExtendTernary(left: Tree, ts: seq<Token>): (r: Parsed<Tree>)
    ensures r.Got? ==> |r.rest| <= |ts|
    decreases |ts|, 4
  {
    match Parse(LOWEST, ts)
    case Bad => Bad
    case Got(y, rest) =>
      if First(rest) != Colon then Bad else
      match Parse(PREC_TERNARY - 1, rest[1..])
      case Bad => Bad
      case Got(n, rest') => Got(Ternary(left, y, n), rest')
  }

  /** What follows `target[`: an index, or a slice with either bound left out. */
  function Brackets(left: Tree, ts: seq<Token>): (r: Parsed<Tree>)
    ensures r.Got? ==> |r.rest| <= |ts|
    decreases |ts|, 4
  {
    if First(ts) == Colon then SliceTail(left, None, ts[1..])
    else if First(ts) == RBracket then Bad
    else
      match Parse(LOWEST, ts)
      case Bad => Bad
      case Got(low, rest) =>
        if First(rest) == Colon then SliceTail(left, Some(low), rest[1..])
        else if First(rest) == RBracket then Got(Indexed(left, low, false), rest[1..])
        else Bad
  }

  function SliceTail(left: Tree, low: Option<Tree>, ts: seq<Token>): (r: Parsed<Tree>)
    ensures r.Got? ==> |r.rest| <= |ts|
    decreases |ts|, 4
  {
    if First(ts) == RBracket then Got(Sliced(left, low, None), ts[1..])
    else
      match Parse(LOWEST, ts)
      case Bad => Bad
      case Got(high, rest) =>
        if First(rest) == RBracket then Got(Sliced(left, low, Some(high)), rest[1..]) else Bad
  }

  /** Comma-separated expressions up to the closing token, which may come at once. */
  function Items(close: Token, ts: seq<Token>): (r: Parsed<seq<Tree>>)
    ensures r.Got? ==> |r.rest| <= |ts|
    decreases |ts|, 5
  {
    if ts != [] && ts[0] == close then Got([], ts[1..]) else MoreItems(close, ts)
  }

  function MoreItems(close: Token, ts: seq<Token>): (r: Parsed<seq<Tree>>)
    ensures r.Got? ==> |r.rest| <= |ts| && r.v != []
    decreases |ts|, 4
  {
    match Parse(LOWEST, ts)
    case Bad => Bad
    case Got(t, rest) =>
      if First(rest) == Comma then
        match MoreItems(close, rest[1..])
        case Bad => Bad
        case Got(more, rest') => Got([t] + more, rest')
      else if rest != [] && rest[0] == close then Got([t], rest[1..])
      else Bad
  }

  function MapItems(ts: seq<Token>): (r: Parsed<seq<TreeEntry>>)
    ensures r.Got? ==> |r.rest| <= |ts|
    decreases |ts|, 5
  {
    if First(ts) == RBrace then Got([], ts[1..]) else MoreMapItems(ts)
  }

  function MoreMapItems(ts: seq<Token>): (r: Parsed<seq<TreeEntry>>)
    ensures r.Got? ==> |r.rest| <= |ts| && r.v != []
    decreases |ts|, 4
  {
    if !(First(ts).Ident? || First(ts).Str?) || First(ts[1..]) != Colon then Bad else
    match Parse(LOWEST, ts[2..])
    case Bad => Bad
    case Got(v, rest) =>
      var e := TreeEntry(if ts[0].Str? then ts[0].s else ts[0].x, ts[0].Str?, v);
      if First(rest) == Comma then
        match MoreMapItems(rest[1..])
        case Bad => Bad
        case Got(more, rest') => Got([e] + more, rest')
      else if First(rest) == RBrace then Got([e], rest[1..])
      else Bad
  }

  /** `(a, b) =>`, or nothing at all: a bracketed expression starts with the same tokens. ts begins
      after the opening bracket, and rest with the arrow. */
  function Params(ts: seq<Token>): (r: Parsed<seq<string>>)
    ensures r.Got? ==> First(r.rest) == Arrow && |r.rest| < |ts|
  {
    if First(ts) == RParen then (if First(ts[1..]) == Arrow then Got([], ts[1..]) else Bad)
    else MoreParams(ts)
  }

  function MoreParams(ts: seq<Token>): (r: Parsed<seq<string>>)
    ensures r.Got? ==> First(r.rest) == Arrow && |r.rest| < |ts| && r.v != []
  {
    if !First(ts).Ident? then Bad
    else if First(ts[1..]) == Comma then
      match MoreParams(ts[2..])
      case Bad => Bad
      case Got(more, rest) => Got([ts[0].x] + more, rest)
    else if First(ts[1..]) == RParen && First(ts[2..]) == Arrow then Got([ts[0].x], ts[2..])
    else Bad
  }

  function ParsePrefix(ts: seq<Token>): (r: Parsed<Tree>)
    ensures Shorter(r, ts)
    decreases |ts|, 0
  {
    if ts == [] then Bad else
    match ts[0]
    case Number(c) => Got(Literal(c), ts[1..])
    case Str(s) => Got(Literal(CStr(s)), ts[1..])
    case Regex(p) => Got(Literal(CRegex(p)), ts[1..])
    case Bool(b) => Got(Literal(CBool(b)), ts[1..])
    case Nil => Got(Literal(CNil), ts[1..])
    case Ident(x) =>
      if First(ts[1..]) == Arrow then
        (match Parse(LOWEST, ts[2..])
         case Bad => Bad
         case Got(b, rest) => Got(Arrow1(x, b), rest))
      else Got(Variable(x), ts[1..])
    case Op(s) =>
      if !IsPrefixOp(s) then Bad else
      (match Parse(PREC_PREFIX, ts[1..])
       case Bad => Bad
       case Got(a, rest) => Got(Prefix(s, a), rest))
    case LParen =>
      (match Params(ts[1..])
       case Got(ps, rest) =>
         (match Parse(LOWEST, rest[1..])
          case Bad => Bad
          case Got(b, rest') => Got(ArrowN(ps, b), rest'))
       case Bad =>
         if First(ts[1..]) == RParen then Bad else
         match Parse(LOWEST, ts[1..])
         case Bad => Bad
         case Got(t, rest) => if First(rest) == RParen then Got(Group(t), rest[1..]) else Bad)
    case If => ParseIf(ts[1..])
    case LetWord => ParseLet(ts[1..])
    case LBracket =>
      (match Items(RBracket, ts[1..])
       case Bad => Bad
       case Got(es, rest) => Got(Listing(es), rest))
    case LBrace =>
      (match MapItems(ts[1..])
       case Bad => Bad
       case Got(es, rest) => Got(Mapping(es), rest))
    case _ => Bad
  }

  function ParseIf(ts: seq<Token>): (r: Parsed<Tree>)
    ensures r.Got? ==> |r.rest| <= |ts|
    decreases |ts|, 5
  {
    match Parse(LOWEST, ts)
    case Bad => Bad
    case Got(c, rest) =>
      match ParseBranch(rest)
      case Bad => Bad
      case Got(y, rest') =>
        if First(rest') != Else then Got(IfElse(c, y, None), rest') else
        match ParseBranch(rest'[1..])
        case Bad => Bad
        case Got(n, rest'') => Got(IfElse(c, y, Some(n)), rest'')
  }

  function ParseBranch(ts: seq<Token>): (r: Parsed<BranchTree>)
    ensures Shorter(r, ts)
    decreases |ts|, 4
  {
    if First(ts) == LBrace then
      match Parse(LOWEST, ts[1..])
      case Bad => Bad
      case Got(t, rest) => if First(rest) == RBrace then Got(Block(t), rest[1..]) else Bad
    else
      match Parse(LOWEST, ts)
      case Bad => Bad
      case Got(t, rest) => Got(Single(t), rest)
  }

  function ParseLet(ts: seq<Token>): (r: Parsed<Tree>)
    ensures r.Got? ==> |r.rest| <= |ts|
    decreases |ts|, 5
  {
    if !First(ts).Ident? || First(ts[1..]) != Op(Assign) then Bad else
    match Parse(LOWEST, ts[2..])
    case Bad => Bad
    case Got(v, rest) =>
      if First(rest) != Semicolon then Bad else
      match Parse(LOWEST, rest[1..])
      case Bad => Bad
      case Got(b, rest') => Got(LetIn(ts[0].x, v, b), rest')
  }

  /** A whole input: the expression and nothing after it. */
  function ParseAll(ts: seq<Token>): Option<Tree> {
    match Parse(LOWEST, ts)
    case Got(t, rest) => if First(rest) == EOF then Some(t) else None
    case Bad => None
  }
}
