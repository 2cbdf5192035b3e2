// The parser as it works: a lexer position and two tokens of lookahead that advance by mutation,
// saved and restored around the one guess it has to make.

module Parser {
  import opened Values
  import opened Syntax
  import opened Grammar
  import opened Parsing

  /** What the calls still to come make of the rest, put behind what has been collected so far. */
  function Behind<T>(sofar: seq<T>, r: Parsed<seq<T>>): Parsed<seq<T>> {
    match r
    case Got(v, rest) => Got(sofar + v, rest)
    case Bad => Bad
  }

  /** The last n tokens. */
  function Suffix(tokens: seq<Token>, n: nat): seq<Token>
    requires n <= |tokens|
  {
    if n == |tokens| then tokens else Suffix(tokens[1..], n)
  }

  lemma {:induction false} SuffixSlice(tokens: seq<Token>, n: nat)
    requires n <= |tokens|
    ensures Suffix(tokens, n) == tokens[|tokens| - n..]
  {
    if n < |tokens| { SuffixSlice(tokens[1..], n); }
  }

  /** One token on, and the token two further on. */
  lemma SuffixNext(tokens: seq<Token>, rest: seq<Token>)
    requires |rest| <= |tokens| && rest == Suffix(tokens, |rest|)
    ensures rest != [] ==> rest[1..] == Suffix(tokens, |rest| - 1)
    ensures |rest| > 2 ==> tokens[|tokens| - |rest| + 2] == rest[2] == First(rest[1..][1..])
  {
    SuffixSlice(tokens, |rest|);
    if rest != [] { SuffixSlice(tokens, |rest| - 1); }
  }

  lemma BehindNothing<T>(r: Parsed<seq<T>>)
    ensures Behind([], r) == r
  {
    if r.Got? { assert [] + r.v == r.v; }
  }

  lemma BehindOne<T>(sofar: seq<T>, x: T, r: Parsed<seq<T>>)
    ensures Behind(sofar, Behind([x], r)) == Behind(sofar + [x], r)
  {
    if r.Got? { assert sofar + ([x] + r.v) == sofar + [x] + r.v; }
  }

  lemma AbstractOneMore(ts: seq<Tree>, t: Tree)
    ensures AbstractAll(ts + [t]) == AbstractAll(ts) + [Abstract(t)]
  {
  }

  lemma AbstractNone()
    ensures AbstractAll([]) == [] && AbstractEntries([]) == []
  {
  }

  lemma AbstractEntryMore(es: seq<TreeEntry>, e: TreeEntry)
    ensures AbstractEntries(es + [e]) == AbstractEntries(es) + [Entry(e.key, Abstract(e.value))]
  {
  }

  class PrattParser {
    const tokens: seq<Token>
    var pos: nat
    var curToken: Token
    var peekToken: Token

    /** The tokens not yet consumed. */
    ghost var rest: seq<Token>

    constructor (tokens: seq<Token>)
      ensures Valid() && this.tokens == rest == tokens
    {
      this.tokens, rest := tokens, tokens;
      pos := if |tokens| < 2 then |tokens| else 2;
      curToken := First(tokens);
      peekToken := if tokens == [] then EOF else First(tokens[1..]);
    }

    ghost predicate Valid()
      reads this
    {
      && |rest| <= |tokens| && rest == Suffix(tokens, |rest|)
      && pos == (if |rest| < 2 then |tokens| else |tokens| - |rest| + 2)
      && curToken == First(rest) && peekToken == (if rest == [] then EOF else First(rest[1..]))
    }

    /** The outcome r, and the tokens left over, are those of the specification. */
    ghost predicate Agrees(r: Option<Expr>, spec: Parsed<Tree>)
      reads this
    {
      match spec
      case Bad => r == None
      case Got(t, more) => r == Some(Abstract(t)) && rest == more
    }

    method NextToken()
      requires Valid()
      modifies this
      ensures Valid() && rest == if old(rest) == [] then [] else old(rest)[1..]
    {
      SuffixNext(tokens, rest);
      assert |rest| > 2 ==> pos < |tokens| && tokens[pos] == First(rest[1..][1..]);
      curToken := peekToken;
      if pos < |tokens| {
        peekToken := tokens[pos];
        pos := pos + 1;
      } else {
        peekToken := EOF;
      }
      rest := if rest == [] then [] else rest[1..];
    }

    method ParseExpression(precedence: nat) returns (r: Option<Expr>)
      requires Valid()
      modifies this
      ensures Valid() && Agrees(r, Parse(precedence, old(rest)))
      decreases |rest|, 4
    {
      ghost var spec := Parse(precedence, rest);
      r := ParsePrefixForm();
      if r.None? { return; }
      ghost var tree := ParsePrefix(old(rest)).v;
      while curToken != EOF && precedence < LBP(curToken)
        invariant Valid() && |rest| < |old(rest)|
        invariant r == Some(Abstract(tree)) && Loop(precedence, tree, rest) == spec
        decreases |rest|
      {
        ghost var before := rest;
        r := ParseInfix(r.value, tree);
        if r.None? { return; }
        tree := Extend(tree, before).v;
      }
    }

    /** One pass through the loop: an infix operator or a postfix form applied to left. */
    method ParseInfix(left: Expr, ghost tree: Tree) returns (r: Option<Expr>)
      requires Valid() && rest != [] && LBP(curToken) > LOWEST && left == Abstract(tree)
      modifies this
      ensures Valid() && Agrees(r, Extend(tree, old(rest)))
      decreases |rest|, 3
    {
      match curToken
      case Op(op) =>
        NextToken();
        r := ParseOperator(left, op, tree);
      case Dot => r := ParseDot(left, tree);
      case OptDot =>
        NextToken();
        r := ParseOptDot(left, tree);
      case LParen => r := ParseCall(left, tree);
      case LBracket =>
        NextToken();
        r := ParseBrackets(left, tree);
      case Question =>
        NextToken();
        r := ParseTernary(left, tree);
    }

    method ParseOperator(left: Expr, op: Sym, ghost tree: Tree) returns (r: Option<Expr>)
      requires Valid() && left == Abstract(tree)
      modifies this
      ensures Valid() && Agrees(r, ExtendOperator(tree, op, old(rest)))
      decreases |rest|, 8
    {
      if op == NotWord {
        r := ParseNotIn(left, tree);
      } else {
        r := ParseExpression(SymRBP(op));
        if r.Some? { r := Some(Infix(InfixOf(op), left, r.value)); }
      }
    }

    method ParseNotIn(left: Expr, ghost tree: Tree) returns (r: Option<Expr>)
      requires Valid() && left == Abstract(tree)
      modifies this
      ensures Valid() && Agrees(r, ExtendOperator(tree, NotWord, old(rest)))
      decreases |rest|, 7
    {
      if curToken != Op(InWord) { return None; }
      NextToken();
      r := ParseExpression(SymRBP(NotWord));
      if r.Some? { r := Some(Unary(Bang, Infix(InOp, left, r.value))); }
    }

    method ParseCall(left: Expr, ghost tree: Tree) returns (r: Option<Expr>)
      requires Valid() && rest != [] && curToken == LParen && left == Abstract(tree)
      modifies this
      ensures Valid() && Agrees(r, Extend(tree, old(rest)))
      decreases |rest|, 2
    {
      NextToken();
      var args := ParseItems(RParen);
      r := if args.Some? then Some(Call(left, args.value)) else None;
    }

    method ParseDot(left: Expr, ghost tree: Tree) returns (r: Option<Expr>)
      requires Valid() && rest != [] && curToken == Dot && left == Abstract(tree)
      modifies this
      ensures Valid() && Agrees(r, Extend(tree, old(rest)))
    {
      NextToken();
      if !curToken.Ident? { return None; }
      var member := curToken.x;
      NextToken();
      return Some(Member(left, member, false));
    }

    method ParseOptDot(left: Expr, ghost tree: Tree) returns (r: Option<Expr>)
      requires Valid() && left == Abstract(tree)
      modifies this
      ensures Valid() && Agrees(r, ExtendOptional(tree, old(rest)))
      decreases |rest|, 7
    {
      if curToken == LBracket {
        NextToken();
        var index := ParseExpression(LOWEST);
        if index.None? || curToken != RBracket { return None; }
        NextToken();
        return Some(IndexE(left, index.value, true));
      }
      if !curToken.Ident? { return None; }
      var member := curToken.x;
      NextToken();
      return Some(Member(left, member, true));
    }

    method ParseBrackets(left: Expr, ghost tree: Tree) returns (r: Option<Expr>)
      requires Valid() && left == Abstract(tree)
      modifies this
      ensures Valid() && Agrees(r, Brackets(tree, old(rest)))
      decreases |rest|, 7
    {
      if curToken == Colon {
        NextToken();
        r := ParseSliceTail(left, None, tree, None);
      } else if curToken == RBracket {
        r := None;
      } else {
        r := ParseIndexOrSlice(left, tree);
      }
    }

    method ParseIndexOrSlice(left: Expr, ghost tree: Tree) returns (r: Option<Expr>)
      requires Valid() && left == Abstract(tree) && curToken != Colon && curToken != RBracket
      modifies this
      ensures Valid() && Agrees(r, Brackets(tree, old(rest)))
      decreases |rest|, 6
    {
      ghost var before := rest;
      r := ParseExpression(LOWEST);
      if r.None? { return; }
      if curToken == Colon {
        NextToken();
        r := ParseSliceTail(left, r, tree, Some(Parse(LOWEST, before).v));
      } else if curToken == RBracket {
        NextToken();
        r := Some(IndexE(left, r.value, false));
      } else {
        r := None;
      }
    }

    method ParseSliceTail(left: Expr, low: Option<Expr>, ghost tree: Tree, ghost lowTree: Option<Tree>)
      returns (r: Option<Expr>)
      requires Valid() && left == Abstract(tree) && low == AbstractOption(lowTree)
      modifies this
      ensures Valid() && Agrees(r, SliceTail(tree, lowTree, old(rest)))
      decreases |rest|, 5
    {
      if curToken == RBracket {
        NextToken();
        return Some(SliceE(left, low, None));
      }
      var high := ParseExpression(LOWEST);
      if high.None? || curToken != RBracket { return None; }
      NextToken();
      return Some(SliceE(left, low, high));
    }

    method ParseTernary(left: Expr, ghost tree: Tree) returns (r: Option<Expr>)
      requires Valid() && left == Abstract(tree)
      modifies this
      ensures Valid() && Agrees(r, ExtendTernary(tree, old(rest)))
      decreases |rest|, 7
    {
      ghost var before := rest;
      r := ParseExpression(LOWEST);
      if r.None? || curToken != Colon { return None; }
      NextToken();
      r := ParseElse(left, r.value, tree, Parse(LOWEST, before).v);
    }

    method ParseElse(left: Expr, whenTrue: Expr, ghost tree: Tree, ghost y: Tree) returns (r: Option<Expr>)
      requires Valid() && left == Abstract(tree) && whenTrue == Abstract(y)
      modifies this
      ensures Valid()
      ensures Agrees(r, match Parse(PREC_TERNARY - 1, old(rest)) case Bad => Bad case Got(n,
          more) => Got(Ternary(tree, y, n), more))
      decreases |rest|, 6
    {
      r := ParseExpression(PREC_TERNARY - 1);
      if r.Some? { r := Some(Conditional(left, whenTrue, r)); }
    }

    /** List elements or call arguments, up to and including the closing token. */
    method ParseItems(close: Token) returns (r: Option<seq<Expr>>)
      requires Valid() && close != EOF && close != Comma
      modifies this
      ensures Valid()
      ensures match Items(close, old(rest))
              case Bad => r == None
              case Got(ts, rest) => r == Some(AbstractAll(ts)) && this.rest == rest
      decreases |rest|, 7
    {
      AbstractNone();
      if curToken == close {
        NextToken();
        r := Some([]);
      } else {
        r := ParseMoreItems(close);
      }
    }

    method ParseMoreItems(close: Token) returns (r: Option<seq<Expr>>)
      requires Valid() && close != EOF && close != Comma
      modifies this
      ensures Valid()
      ensures match MoreItems(close, old(rest))
              case Bad => r == None
              case Got(ts, rest) => r == Some(AbstractAll(ts)) && this.rest == rest
      decreases |rest|, 6
    {
      AbstractNone();
      var items := [];
      ghost var trees := [];
      ghost var spec := MoreItems(close, rest);
      BehindNothing(spec);
      while true
        invariant Valid() && |rest| <= |old(rest)|
        invariant items == AbstractAll(trees) && Behind(trees, MoreItems(close, rest)) == spec
        decreases |rest|
      {
        ghost var before := rest;
        var item := ParseExpression(LOWEST);
        if item.None? { return None; }
        ghost var t := Parse(LOWEST, before).v;
        AbstractOneMore(trees, t);
        BehindOne(trees, t, if curToken == Comma then MoreItems(close, rest[1..]) else Got([], rest));
        items := items + [item.value];
        trees := trees + [t];
        if curToken != Comma { break; }
        NextToken();
      }
      if curToken != close { return None; }
      NextToken();
      return Some(items);
    }

    method ParseEntries() returns (r: Option<seq<Entry>>)
      requires Valid()
      modifies this
      ensures Valid()
      ensures match MapItems(old(rest))
              case Bad => r == None
              case Got(es, rest) => r == Some(AbstractEntries(es)) && this.rest == rest
      decreases |rest|, 7
    {
      AbstractNone();
      if curToken == RBrace {
        NextToken();
        r := Some([]);
      } else {
        r := ParseMoreEntries();
      }
    }

    method ParseMoreEntries() returns (r: Option<seq<Entry>>)
      requires Valid()
      modifies this
      ensures Valid()
      ensures match MoreMapItems(old(rest))
              case Bad => r == None
              case Got(es, rest) => r == Some(AbstractEntries(es)) && this.rest == rest
      decreases |rest|, 6
    {
      AbstractNone();
      var items := [];
      ghost var entries := [];
      ghost var spec := MoreMapItems(rest);
      BehindNothing(spec);
      while true
        invariant Valid() && |rest| <= |old(rest)|
        invariant items == AbstractEntries(entries) && Behind(entries, MoreMapItems(rest)) == spec
        decreases |rest|
      {
        ghost var before := rest;
        var item := ParseEntry();
        if item.None? { return None; }
        ghost var e := TreeEntry(item.value.key, before[0].Str?, Parse(LOWEST, before[2..]).v);
        AbstractEntryMore(entries, e);
        BehindOne(entries, e, if curToken == Comma then MoreMapItems(rest[1..]) else Got([], rest));
        items := items + [item.value];
        entries := entries + [e];
        if curToken != Comma { break; }
        NextToken();
      }
      if curToken != RBrace { return None; }
      NextToken();
      return Some(items);
    }

    /** `key: value`. */
    method ParseEntry() returns (r: Option<Entry>)
      requires Valid()
      modifies this
      ensures Valid()
      ensures
        var ts := old(rest);
        if !(First(ts).Ident? || First(ts).Str?) || First(ts[1..]) != Colon || Parse(LOWEST, ts[2..]) == Bad
        then r == None
        else
          var Got(v, rest) := Parse(LOWEST, ts[2..]);
          this.rest == rest && r == Some(Entry(if ts[0].Str? then ts[0].s else ts[0].x, Abstract(v)))
      decreases |rest|, 5
    {
      var key;
      if curToken.Ident? {
        key := curToken.x;
      } else if curToken.Str? {
        key := curToken.s;
      } else {
        return None;
      }
      NextToken();
      if curToken != Colon { return None; }
      NextToken();
      var value := ParseExpression(LOWEST);
      if value.None? { return None; }
      return Some(Entry(key, value.value));
    }

    method ParsePrefixForm() returns (r: Option<Expr>)
      requires Valid()
      modifies this
      ensures Valid() && Agrees(r, ParsePrefix(old(rest)))
      decreases |rest|, 3
    {
      match curToken
      case Number(_) | Str(_) | Regex(_) | Bool(_) | Nil => r := ParseLiteral();
      case Ident(_) => r := ParseIdent();
      case Op(_) => r := ParseUnary();
      case LParen => r := ParseParen();
      case If => r := ParseIfExpression();
      case LetWord => r := ParseLetExpression();
      case LBracket => r := ParseListLiteral();
      case LBrace => r := ParseMapLiteral();
      case _ => return None;
    }

    method ParseListLiteral() returns (r: Option<Expr>)
      requires Valid() && curToken == LBracket
      modifies this
      ensures Valid() && Agrees(r, ParsePrefix(old(rest)))
      decreases |rest|, 2
    {
      NextToken();
      var elements := ParseItems(RBracket);
      if elements.None? { return None; }
      return Some(ListE(elements.value));
    }

    method ParseMapLiteral() returns (r: Option<Expr>)
      requires Valid() && curToken == LBrace
      modifies this
      ensures Valid() && Agrees(r, ParsePrefix(old(rest)))
      decreases |rest|, 2
    {
      NextToken();
      var entries := ParseEntries();
      if entries.None? { return None; }
      return Some(MapE(entries.value));
    }

    method ParseLiteral() returns (r: Option<Expr>)
      requires Valid() && (curToken.Number? || curToken.Str? || curToken.Regex? || curToken.Bool? || curToken.Nil?)
      modifies this
      ensures Valid() && Agrees(r, ParsePrefix(old(rest)))
    {
      match curToken {
        case Number(c) => r := Some(Const(c));
        case Str(s) => r := Some(Const(CStr(s)));
        case Regex(p) => r := Some(Const(CRegex(p)));
        case Bool(b) => r := Some(Const(CBool(b)));
        case Nil => r := Some(Const(CNil));
      }
      NextToken();
    }

    method ParseUnary() returns (r: Option<Expr>)
      requires Valid() && curToken.Op?
      modifies this
      ensures Valid() && Agrees(r, ParsePrefix(old(rest)))
      decreases |rest|, 2
    {
      var s := curToken.sym;
      if !IsPrefixOp(s) { return None; }
      NextToken();
      var operand := ParseExpression(PREC_PREFIX);
      if operand.None? { return None; }
      return Some(Unary(if s.MinusSign? then Minus else if s.PlusSign? then Plus else Bang, operand.value));
    }

    method ParseIdent() returns (r: Option<Expr>)
      requires Valid() && rest != [] && curToken.Ident?
      modifies this
      ensures Valid() && Agrees(r, ParsePrefix(old(rest)))
      decreases |rest|, 2
    {
      var name := curToken.x;
      if peekToken == Arrow {
        NextToken();
        NextToken();
        var body := ParseExpression(LOWEST);
        if body.None? { return None; }
        return Some(Lambda([name], body.value));
      }
      NextToken();
      return Some(Var(name));
    }

    /** A parameter list if one can be read, and otherwise a bracketed expression, read from exactly
        where the guess was made. */
    method ParseParen() returns (r: Option<Expr>)
      requires Valid() && rest != [] && curToken == LParen
      modifies this
      ensures Valid() && Agrees(r, ParsePrefix(old(rest)))
      decreases |rest|, 2
    {
      var params := TryParseParenLambdaParams();
      if params.Some? {
        NextToken();
        var body := ParseExpression(LOWEST);
        if body.None? { return None; }
        return Some(Lambda(params.value, body.value));
      }
      r := ParseGroup();
    }

    method ParseGroup() returns (r: Option<Expr>)
      requires Valid() && curToken == LParen && Params(rest[1..]) == Bad
      modifies this
      ensures Valid() && Agrees(r, ParsePrefix(old(rest)))
      decreases |rest|, 1
    {
      NextToken();
      if curToken == RParen { return None; }
      r := ParseExpression(LOWEST);
      if r.None? { return; }
      if curToken != RParen { return None; }
      NextToken();
    }

    method TryParseParenLambdaParams() returns (r: Option<seq<string>>)
      requires Valid() && rest != []
      modifies this
      ensures Valid()
      ensures match Params(old(rest)[1..])
              case Got(ps, rest) => r == Some(ps) && this.rest == rest
              case Bad =>
                && r == None && pos == old(pos) && curToken == old(curToken) && peekToken == old(peekToken)
                && this.rest == old(this.rest)
    {
      var savedPos, savedCur, savedPeek := pos, curToken, peekToken;
      ghost var savedRest := rest;
      NextToken();
      var params: Option<seq<string>> := Some([]);
      if curToken != RParen {
        params := ParseIdents();
      }
      if params.Some? {
        NextToken();
      }
      if params.None? || curToken != Arrow {
        pos, curToken, peekToken := savedPos, savedCur, savedPeek;
        rest := savedRest;
        return None;
      }
      return params;
    }

    /** Identifiers separated by commas, up to a closing bracket that is not consumed. */
    method ParseIdents() returns (r: Option<seq<string>>)
      requires Valid()
      modifies this
      ensures Valid()
      ensures r.None? ==> MoreParams(old(rest)) == Bad
      ensures r.Some? ==> curToken == RParen && rest != []
      ensures r.Some? ==> MoreParams(old(rest)) == (if First(rest[1..]) == Arrow then Got(r.value, rest[1..]) else Bad)
    {
      var params: seq<string> := [];
      ghost var spec := MoreParams(rest);
      BehindNothing(spec);
      while true
        invariant Valid() && Behind(params, MoreParams(rest)) == spec
        decreases |rest|
      {
        ghost var before := rest;
        if !curToken.Ident? { return None; }
        BehindOne(params, curToken.x, if First(before[1..]) == Comma then MoreParams(before[2..]) else Got([], before));
        params := params + [curToken.x];
        NextToken();
        if curToken != Comma { break; }
        NextToken();
      }
      if curToken != RParen { return None; }
      return Some(params);
    }

    method ParseIfExpression() returns (r: Option<Expr>)
      requires Valid() && curToken == If
      modifies this
      ensures Valid() && Agrees(r, ParsePrefix(old(rest)))
      decreases |rest|, 2
    {
      NextToken();
      r := ParseCondition();
    }

    /** What follows `if`. */
    method ParseCondition() returns (r: Option<Expr>)
      requires Valid()
      modifies this
      ensures Valid() && Agrees(r, ParseIf(old(rest)))
      decreases |rest|, 7
    {
      var cond := ParseExpression(LOWEST);
      if cond.None? { return None; }
      var whenTrue := ParseBlockOrSingle();
      if whenTrue.None? { return None; }
      if curToken != Else { return Some(Conditional(cond.value, whenTrue.value, None)); }
      NextToken();
      var whenFalse := ParseBlockOrSingle();
      if whenFalse.None? { return None; }
      return Some(Conditional(cond.value, whenTrue.value, whenFalse));
    }

    method ParseBlockOrSingle() returns (r: Option<Expr>)
      requires Valid()
      modifies this
      ensures Valid()
      ensures match ParseBranch(old(rest))
              case Bad => r == None
              case Got(b, rest) => r == Some(Abstract(b.tree)) && this.rest == rest
      decreases |rest|, 6
    {
      if curToken == LBrace {
        NextToken();
        r := ParseExpression(LOWEST);
        if r.None? { return; }
        if curToken != RBrace { return None; }
        NextToken();
      } else {
        r := ParseExpression(LOWEST);
      }
    }

    method ParseLetExpression() returns (r: Option<Expr>)
      requires Valid() && curToken == LetWord
      modifies this
      ensures Valid() && Agrees(r, ParsePrefix(old(rest)))
      decreases |rest|, 2
    {
      NextToken();
      r := ParseBinding();
    }

    /** What follows `let`. */
    method ParseBinding() returns (r: Option<Expr>)
      requires Valid()
      modifies this
      ensures Valid() && Agrees(r, ParseLet(old(rest)))
      decreases |rest|, 7
    {
      var name := ParseBindingName();
      if name.None? { return None; }
      var value := ParseExpression(LOWEST);
      if value.None? || curToken != Semicolon { return None; }
      NextToken();
      var body := ParseExpression(LOWEST);
      if body.None? { return None; }
      return Some(Let(name.value, value.value, body.value));
    }

    /** `name =`. */
    method ParseBindingName() returns (name: Option<string>)
      requires Valid()
      modifies this
      ensures Valid()
      ensures name.Some? <==> First(old(rest)).Ident? && First(old(rest)[1..]) == Op(Assign)
      ensures name.Some? ==> name.value == old(rest)[0].x && rest == old(rest)[2..]
    {
      if !curToken.Ident? { return None; }
      name := Some(curToken.x);
      NextToken();
      if curToken != Op(Assign) { return None; }
      NextToken();
    }
  }

  /** Parse: the whole input or an error. */
  method ParseInput(tokens: seq<Token>) returns (r: Option<Expr>)
    requires EOF !in tokens
    ensures r == match ParseAll(tokens) case Some(t) => Some(Abstract(t)) case None => None
  {
    var parser := new PrattParser(tokens);
    r := parser.ParseExpression(LOWEST);
    if r.None? { return; }
    if parser.curToken != EOF { return None; }
  }
}
