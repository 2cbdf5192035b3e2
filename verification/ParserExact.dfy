// Every tree that respects the binding-power table is the one the parser returns for its tokens.

module ParserExact {
  import opened Values
  import opened Syntax
  import opened Grammar
  import opened Parsing
  import opened ParserSound

  /** Tokens that no expression continues with or begins with. */
  predicate Closing(tok: Token) {
    tok.RParen? || tok.RBracket? || tok.RBrace? || tok.Comma? || tok.Colon? || tok.Semicolon? || tok.EOF?
  }

  lemma {:induction false} ClosingFollows(t: Tree, tok: Token)
    requires Closing(tok)
    ensures Follows(t, tok)
    decreases t
  {
    match t
    case Prefix(_, a) => ClosingFollows(a, tok);
    case Binary(_, _, r) => ClosingFollows(r, tok);
    case NotIn(_, r) => ClosingFollows(r, tok);
    case Ternary(_, _, n) => ClosingFollows(n, tok);
    case Arrow1(_, b) => ClosingFollows(b, tok);
    case ArrowN(_, b) => ClosingFollows(b, tok);
    case LetIn(_, _, b) => ClosingFollows(b, tok);
    case IfElse(_, y, n) => if n.Some? { ClosingFollows(n.value.tree, tok); } else { ClosingFollows(y.tree, tok); }
    case _ =>
  }

  lemma {:induction false} NeverBegins(t: Tree)
    ensures !Closing(FirstOf(t)) && FirstOf(t) != Else && FirstOf(t) != Arrow
  {
    match t
    case Binary(_, l, _) => NeverBegins(l);
    case NotIn(l, _) => NeverBegins(l);
    case Dotted(t, _, _) => NeverBegins(t);
    case Indexed(t, _, _) => NeverBegins(t);
    case Sliced(t, _, _) => NeverBegins(t);
    case Called(f, _) => NeverBegins(f);
    case Ternary(c, _, _) => NeverBegins(c);
    case _ =>
  }

  /** What follows a leading identifier, in anything but the identifier itself. */
  lemma {:induction false} SecondToken(t: Tree, rest: seq<Token>)
    requires FirstOf(t).Ident? && !t.Variable?
    ensures |Emit(t, rest)| > 1 && Emit(t, rest)[1] != Comma && Emit(t, rest)[1] != RParen
    decreases t, 0
  {
    match t
    case Binary(s, l, r) => SecondAfter(l, [Op(s)] + Emit(r, rest));
    case NotIn(l, r) => SecondAfter(l, [Op(NotWord)] + ([Op(InWord)] + Emit(r, rest)));
    case Dotted(t, n, o) => SecondAfter(t, [if o then OptDot else Dot] + ([Ident(n)] + rest));
    case Indexed(t, i, o) =>
      var inside := [LBracket] + Emit(i, [RBracket] + rest);
      SecondAfter(t, if o then [OptDot] + inside else inside);
    case Sliced(t, lo, hi) => SecondAfter(t, [LBracket] + EmitOption(lo, [Colon] + EmitOption(hi, [RBracket] + rest)));
    case Called(f, args) => SecondAfter(f, [LParen] + EmitAll(args, [RParen] + rest));
    case Ternary(c, y, n) => SecondAfter(c, [Question] + Emit(y, [Colon] + Emit(n, rest)));
    case _ =>
  }

  lemma {:induction false} SecondAfter(l: Tree, rest: seq<Token>)
    requires FirstOf(l).Ident? && rest != [] && rest[0] != Comma && rest[0] != RParen
    ensures |Emit(l, rest)| > 1 && Emit(l, rest)[1] != Comma && Emit(l, rest)[1] != RParen
    decreases l, 1
  {
    if !l.Variable? { SecondToken(l, rest); }
  }

  /** A bracketed expression is not taken for a parameter list. */
  lemma NotParams(t: Tree, rest: seq<Token>)
    requires t.Variable? ==> First(rest) != Arrow
    ensures Params(Emit(t, [RParen] + rest)) == Bad
  {
    var ts := Emit(t, [RParen] + rest);
    EmitFirst(t, [RParen] + rest);
    NeverBegins(t);
    if First(ts).Ident? {
      if t.Variable? {
        Tail(First(ts), [RParen] + rest);
        Tail(RParen, rest);
        assert ts[2..] == rest;
      } else {
        SecondToken(t, [RParen] + rest);
        assert First(ts[1..]) == ts[1];
      }
    }
  }

  lemma LeftExceeds(l: Tree, tok: Token, p: nat)
    requires Follows(l, tok) && LBP(tok) > p
    ensures Exceeds(l, p)
  {
  }

  lemma Tail(tok: Token, rest: seq<Token>)
    ensures First([tok] + rest) == tok && ([tok] + rest)[1..] == rest
  {
  }

  lemma Tail2(tok: Token, tok': Token, rest: seq<Token>)
    ensures ([tok] + ([tok'] + rest))[1..] == [tok'] + rest && ([tok] + ([tok'] + rest))[2..] == rest
    ensures First([tok] + ([tok'] + rest)) == tok && First([tok'] + rest) == tok'
  {
  }

  /** Reading t's tokens brings the parser to the loop with t in hand. */
  lemma {:induction false} Reaches(p: nat, t: Tree, rest: seq<Token>)
    requires Complete(t, rest) && Exceeds(t, p)
    ensures Parse(p, Emit(t, rest)) == Loop(p, t, rest)
    decreases t, 3
  {
    if Rooted(t) {
      ReachesRooted(t, rest);
    } else {
      ReachesOperator(p, t, rest);
    }
  }

  lemma {:induction false} Whole(p: nat, t: Tree, rest: seq<Token>)
    requires Complete(t, rest) && Exceeds(t, p) && LBP(First(rest)) <= p
    ensures Parse(p, Emit(t, rest)) == Got(t, rest)
    decreases t, 4
  {
    Reaches(p, t, rest);
  }

  /** A whole expression up to a closing token. */
  lemma {:induction false} Enclosed(t: Tree, tok: Token, rest: seq<Token>)
    requires Respects(t) && Closing(tok) && tok != EOF
    ensures Parse(LOWEST, Emit(t, [tok] + rest)) == Got(t, [tok] + rest)
    decreases t, 5
  {
    ClosingFollows(t, tok);
    Tail(tok, rest);
    AnyExceedsLowest(t);
    Whole(LOWEST, t, [tok] + rest);
  }

  lemma AnyExceedsLowest(t: Tree)
    requires Respects(t)
    ensures Exceeds(t, LOWEST)
  {
  }

  lemma {:induction false} ReachesRooted(t: Tree, rest: seq<Token>)
    requires Complete(t, rest) && Rooted(t)
    ensures ParsePrefix(Emit(t, rest)) == Got(t, rest)
    decreases t, 2
  {
    match t
    case Literal(_) => ReachesAtom(t, rest);
    case Variable(_) => ReachesAtom(t, rest);
    case Group(_) => ReachesGroup(t, rest);
    case Prefix(_, _) => ReachesPrefix(t, rest);
    case Listing(_) => ReachesListing(t, rest);
    case Mapping(_) => ReachesMapping(t, rest);
    case Arrow1(_, _) => ReachesArrow1(t, rest);
    case ArrowN(_, _) => ReachesArrowN(t, rest);
    case IfElse(_, _, _) => ReachesIf(t, rest);
    case LetIn(_, _, _) => ReachesLet(t, rest);
  }

  lemma ReachesAtom(t: Tree, rest: seq<Token>)
    requires Complete(t, rest) && (t.Literal? || t.Variable?)
    ensures ParsePrefix(Emit(t, rest)) == Got(t, rest)
  {
    Tail(FirstOf(t), rest);
  }

  lemma {:induction false} ReachesPrefix(t: Tree, rest: seq<Token>)
    requires Complete(t, rest) && t.Prefix?
    ensures ParsePrefix(Emit(t, rest)) == Got(t, rest)
    decreases t, 0
  {
    Tail(Op(t.sym), Emit(t.operand, rest));
    Whole(PREC_PREFIX, t.operand, rest);
  }

  lemma {:induction false} ReachesListing(t: Tree, rest: seq<Token>)
    requires Complete(t, rest) && t.Listing?
    ensures ParsePrefix(Emit(t, rest)) == Got(t, rest)
    decreases t, 0
  {
    Tail(LBracket, EmitAll(t.elements, [RBracket] + rest));
    AllItems(RBracket, t.elements, rest);
  }

  lemma {:induction false} ReachesMapping(t: Tree, rest: seq<Token>)
    requires Complete(t, rest) && t.Mapping?
    ensures ParsePrefix(Emit(t, rest)) == Got(t, rest)
    decreases t, 0
  {
    Tail(LBrace, EmitEntries(t.entries, [RBrace] + rest));
    AllMapItems(t.entries, rest);
  }

  lemma {:induction false} ReachesArrow1(t: Tree, rest: seq<Token>)
    requires Complete(t, rest) && t.Arrow1?
    ensures ParsePrefix(Emit(t, rest)) == Got(t, rest)
    decreases t, 0
  {
    Tail2(Ident(t.param), Arrow, Emit(t.body, rest));
    AnyExceedsLowest(t.body);
    Whole(LOWEST, t.body, rest);
  }

  lemma {:induction false} ReachesGroup(t: Tree, rest: seq<Token>)
    requires Complete(t, rest) && t.Group?
    ensures ParsePrefix(Emit(t, rest)) == Got(t, rest)
    decreases t, 0
  {
    var inner := t.inner;
    NotParams(inner, rest);
    Tail(LParen, Emit(inner, [RParen] + rest));
    Tail(RParen, rest);
    EmitFirst(inner, [RParen] + rest);
    NeverBegins(inner);
    Enclosed(inner, RParen, rest);
  }

  lemma {:induction false} ReachesArrowN(t: Tree, rest: seq<Token>)
    requires Complete(t, rest) && t.ArrowN?
    ensures ParsePrefix(Emit(t, rest)) == Got(t, rest)
    decreases t, 0
  {
    var ArrowN(ps, b) := t;
    Tail(LParen, EmitParams(ps, [RParen] + ([Arrow] + Emit(b, rest))));
    AllParams(ps, Emit(b, rest));
    Tail(Arrow, Emit(b, rest));
    AnyExceedsLowest(b);
    Whole(LOWEST, b, rest);
  }

  lemma {:induction false} ReachesOperator(p: nat, t: Tree, rest: seq<Token>)
    requires Complete(t, rest) && Exceeds(t, p) && !Rooted(t)
    ensures Parse(p, Emit(t, rest)) == Loop(p, t, rest)
    decreases t, 2
  {
    match t
    case Binary(_, _, _) => ReachesBinary(p, t, rest);
    case NotIn(_, _) => ReachesNotIn(p, t, rest);
    case Dotted(_, _, _) => ReachesDotted(p, t, rest);
    case Indexed(_, _, _) => ReachesIndexed(p, t, rest);
    case Sliced(_, _, _) => ReachesSliced(p, t, rest);
    case Called(_, _) => ReachesCalled(p, t, rest);
    case Ternary(_, _, _) => ReachesTernary(p, t, rest);
  }

  lemma {:induction false} ReachesBinary(p: nat, t: Tree, rest: seq<Token>)
    requires Complete(t, rest) && Exceeds(t, p) && t.Binary?
    ensures Parse(p, Emit(t, rest)) == Loop(p, t, rest)
    decreases t, 0
  {
    var Binary(s, l, r) := t;
    Tail(Op(s), Emit(r, rest));
    LeftExceeds(l, Op(s), p);
    Reaches(p, l, [Op(s)] + Emit(r, rest));
    Whole(SymRBP(s), r, rest);
    assert ExtendOperator(l, s, Emit(r, rest)) == Got(t, rest);
  }

  lemma {:induction false} ReachesNotIn(p: nat, t: Tree, rest: seq<Token>)
    requires Complete(t, rest) && Exceeds(t, p) && t.NotIn?
    ensures Parse(p, Emit(t, rest)) == Loop(p, t, rest)
    decreases t, 0
  {
    var NotIn(l, r) := t;
    var ts := [Op(InWord)] + Emit(r, rest);
    Tail(Op(InWord), Emit(r, rest));
    Tail(Op(NotWord), ts);
    LeftExceeds(l, Op(NotWord), p);
    Reaches(p, l, [Op(NotWord)] + ts);
    Whole(SymRBP(NotWord), r, rest);
    assert ExtendOperator(l, NotWord, ts) == Got(t, rest);
  }

  lemma {:induction false} ReachesDotted(p: nat, t: Tree, rest: seq<Token>)
    requires Complete(t, rest) && Exceeds(t, p) && t.Dotted?
    ensures Parse(p, Emit(t, rest)) == Loop(p, t, rest)
    decreases t, 0
  {
    var Dotted(l, n, o) := t;
    var tok := if o then OptDot else Dot;
    Tail2(tok, Ident(n), rest);
    Tail(Ident(n), rest);
    LeftExceeds(l, tok, p);
    Reaches(p, l, [tok] + ([Ident(n)] + rest));
    assert ExtendOptional(l, [Ident(n)] + rest) == Got(Dotted(l, n, true), rest);
  }

  lemma {:induction false} ReachesCalled(p: nat, t: Tree, rest: seq<Token>)
    requires Complete(t, rest) && Exceeds(t, p) && t.Called?
    ensures Parse(p, Emit(t, rest)) == Loop(p, t, rest)
    decreases t, 0
  {
    var Called(f, args) := t;
    var ts := EmitAll(args, [RParen] + rest);
    Tail(LParen, ts);
    LeftExceeds(f, LParen, p);
    Reaches(p, f, [LParen] + ts);
    AllItems(RParen, args, rest);
  }

  lemma {:induction false} ReachesIndexed(p: nat, t: Tree, rest: seq<Token>)
    requires Complete(t, rest) && Exceeds(t, p) && t.Indexed?
    ensures Parse(p, Emit(t, rest)) == Loop(p, t, rest)
    decreases t, 0
  {
    var Indexed(l, i, o) := t;
    var inner := Emit(i, [RBracket] + rest);
    Enclosed(i, RBracket, rest);
    Tail(RBracket, rest);
    EmitFirst(i, [RBracket] + rest);
    NeverBegins(i);
    if o {
      Tail2(OptDot, LBracket, inner);
      LeftExceeds(l, OptDot, p);
      Reaches(p, l, [OptDot] + ([LBracket] + inner));
      OptIndexExtends(l, i, inner, rest);
    } else {
      Tail(LBracket, inner);
      LeftExceeds(l, LBracket, p);
      Reaches(p, l, [LBracket] + inner);
      assert Brackets(l, inner) == Got(t, rest);
    }
  }

  lemma OptIndexExtends(l: Tree, i: Tree, inner: seq<Token>, rest: seq<Token>)
    requires Parse(LOWEST, inner) == Got(i, [RBracket] + rest)
    ensures Extend(l, [OptDot] + ([LBracket] + inner)) == Got(Indexed(l, i, true), rest)
  {
    Tail2(OptDot, LBracket, inner);
    Tail(LBracket, inner);
    Tail(RBracket, rest);
    assert ExtendOptional(l, [LBracket] + inner) == Got(Indexed(l, i, true), rest);
  }

  lemma {:induction false} ReachesSliced(p: nat, t: Tree, rest: seq<Token>)
    requires Complete(t, rest) && Exceeds(t, p) && t.Sliced?
    ensures Parse(p, Emit(t, rest)) == Loop(p, t, rest)
    decreases t, 1
  {
    var Sliced(l, lo, hi) := t;
    var tail := EmitOption(hi, [RBracket] + rest);
    var inner := EmitOption(lo, [Colon] + tail);
    Tail(LBracket, inner);
    LeftExceeds(l, LBracket, p);
    Reaches(p, l, [LBracket] + inner);
    SlicedBrackets(t, rest);
    assert Brackets(l, inner) == Got(t, rest);
  }

  lemma {:induction false} SlicedBrackets(t: Tree, rest: seq<Token>)
    requires Respects(t) && t.Sliced?
    ensures Brackets(t.target, EmitOption(t.low, [Colon] + EmitOption(t.high, [RBracket] + rest))) == Got(t, rest)
    decreases t, 0, 1
  {
    var tail := EmitOption(t.high, [RBracket] + rest);
    Tail(Colon, tail);
    WholeTail(t, rest);
    if t.low.Some? {
      Enclosed(t.low.value, Colon, tail);
      EmitFirst(t.low.value, [Colon] + tail);
      NeverBegins(t.low.value);
    }
  }

  lemma {:induction false} WholeTail(t: Tree, rest: seq<Token>)
    requires Respects(t) && t.Sliced?
    ensures SliceTail(t.target, t.low, EmitOption(t.high, [RBracket] + rest)) == Got(t, rest)
    decreases t, 0, 0
  {
    Tail(RBracket, rest);
    if t.high.Some? {
      Enclosed(t.high.value, RBracket, rest);
      EmitFirst(t.high.value, [RBracket] + rest);
      NeverBegins(t.high.value);
    }
  }

  lemma {:induction false} ReachesTernary(p: nat, t: Tree, rest: seq<Token>)
    requires Complete(t, rest) && Exceeds(t, p) && t.Ternary?
    ensures Parse(p, Emit(t, rest)) == Loop(p, t, rest)
    decreases t, 0
  {
    var Ternary(c, y, n) := t;
    var inner := Emit(y, [Colon] + Emit(n, rest));
    Tail(Question, inner);
    LeftExceeds(c, Question, p);
    Reaches(p, c, [Question] + inner);
    Enclosed(y, Colon, Emit(n, rest));
    Tail(Colon, Emit(n, rest));
    Whole(PREC_TERNARY - 1, n, rest);
    assert ExtendTernary(c, inner) == Got(t, rest);
  }

  lemma {:induction false} ReachesIf(t: Tree, rest: seq<Token>)
    requires Complete(t, rest) && t.IfElse?
    ensures ParsePrefix(Emit(t, rest)) == Got(t, rest)
    decreases t, 0
  {
    var after := if t.no.Some? then [Else] + EmitBranch(t.no.value, rest) else rest;
    Tail(If, Emit(t.cond, EmitBranch(t.yes, after)));
    IfParses(t, rest, after);
  }

  lemma {:induction false} IfParses(t: Tree, rest: seq<Token>, after: seq<Token>)
    requires Complete(t, rest) && t.IfElse?
    requires after == if t.no.Some? then [Else] + EmitBranch(t.no.value, rest) else rest
    ensures ParseIf(Emit(t.cond, EmitBranch(t.yes, after))) == Got(t, rest)
    decreases t, 0, 0
  {
    var IfElse(c, y, n) := t;
    var ts := EmitBranch(y, after);
    BranchFirst(y, after);
    AnyExceedsLowest(c);
    Whole(LOWEST, c, ts);
    WholeBranch(y, after);
    if n.Some? {
      Tail(Else, EmitBranch(n.value, rest));
      WholeBranch(n.value, rest);
    }
  }

  lemma BranchFirst(b: BranchTree, rest: seq<Token>)
    ensures First(EmitBranch(b, rest)) == FirstOfBranch(b)
  {
    if b.Single? { EmitFirst(b.tree, rest); }
  }

  lemma {:induction false} WholeBranch(b: BranchTree, rest: seq<Token>)
    requires RespectBranch(b) && FollowsBranch(b, First(rest))
    ensures ParseBranch(EmitBranch(b, rest)) == Got(b, rest)
    decreases b, 6
  {
    BranchFirst(b, rest);
    if b.Block? {
      Tail(LBrace, Emit(b.tree, [RBrace] + rest));
      Enclosed(b.tree, RBrace, rest);
      Tail(RBrace, rest);
    } else {
      AnyExceedsLowest(b.tree);
      Whole(LOWEST, b.tree, rest);
    }
  }

  lemma {:induction false} ReachesLet(t: Tree, rest: seq<Token>)
    requires Complete(t, rest) && t.LetIn?
    ensures ParsePrefix(Emit(t, rest)) == Got(t, rest)
    decreases t, 1
  {
    var LetIn(x, v, b) := t;
    var us := [Ident(x)] + ([Op(Assign)] + Emit(v, [Semicolon] + Emit(b, rest)));
    Tail(LetWord, us);
    WholeBinding(t, rest);
  }

  lemma {:induction false} WholeBinding(t: Tree, rest: seq<Token>)
    requires Complete(t, rest) && t.LetIn?
    ensures ParseLet([Ident(t.name)] + ([Op(Assign)] + Emit(t.value, [Semicolon] + Emit(t.body, rest)))) == Got(t, rest)
    decreases t, 0
  {
    var LetIn(x, v, b) := t;
    Tail2(Ident(x), Op(Assign), Emit(v, [Semicolon] + Emit(b, rest)));
    Enclosed(v, Semicolon, Emit(b, rest));
    Tail(Semicolon, Emit(b, rest));
    AnyExceedsLowest(b);
    Whole(LOWEST, b, rest);
  }

  lemma {:induction false} AllItems(close: Token, es: seq<Tree>, rest: seq<Token>)
    requires RespectAll(es) && Closing(close) && close != EOF && close != Comma
    ensures Items(close, EmitAll(es, [close] + rest)) == Got(es, rest)
    decreases es, 7
  {
    Tail(close, rest);
    if es != [] {
      EmitFirst(es[0], if |es| == 1 then [close] + rest else [Comma] + EmitAll(es[1..], [close] + rest));
      NeverBegins(es[0]);
      AllMoreItems(close, es, rest);
    }
  }

  lemma {:induction false} AllMoreItems(close: Token, es: seq<Tree>, rest: seq<Token>)
    requires es != [] && RespectAll(es) && Closing(close) && close != EOF && close != Comma
    ensures MoreItems(close, EmitAll(es, [close] + rest)) == Got(es, rest)
    decreases es, 6
  {
    Tail(close, rest);
    if |es| == 1 {
      Enclosed(es[0], close, rest);
      assert es == [es[0]];
    } else {
      var more := EmitAll(es[1..], [close] + rest);
      Enclosed(es[0], Comma, more);
      Tail(Comma, more);
      AllMoreItems(close, es[1..], rest);
      assert es == [es[0]] + es[1..];
    }
  }

  lemma {:induction false} AllMapItems(es: seq<TreeEntry>, rest: seq<Token>)
    requires RespectEntries(es)
    ensures MapItems(EmitEntries(es, [RBrace] + rest)) == Got(es, rest)
    decreases es, 7
  {
    Tail(RBrace, rest);
    if es != [] { AllMoreMapItems(es, rest); }
  }

  lemma {:induction false} AllMoreMapItems(es: seq<TreeEntry>, rest: seq<Token>)
    requires es != [] && RespectEntries(es)
    ensures MoreMapItems(EmitEntries(es, [RBrace] + rest)) == Got(es, rest)
    decreases es, 6
  {
    if |es| == 1 {
      LastMapItem(es, rest);
    } else {
      AllMoreMapItems(es[1..], rest);
      NextMapItem(es, rest);
    }
  }

  lemma {:induction false} LastMapItem(es: seq<TreeEntry>, rest: seq<Token>)
    requires |es| == 1 && RespectEntries(es)
    ensures MoreMapItems(EmitEntries(es, [RBrace] + rest)) == Got(es, rest)
    decreases es, 5
  {
    var e := es[0];
    var key := if e.quoted then Str(e.key) else Ident(e.key);
    Tail(RBrace, rest);
    Enclosed(e.value, RBrace, rest);
    Tail2(key, Colon, Emit(e.value, [RBrace] + rest));
    assert es == [e];
  }

  lemma {:induction false} NextMapItem(es: seq<TreeEntry>, rest: seq<Token>)
    requires |es| > 1 && RespectEntries(es)
    requires MoreMapItems(EmitEntries(es[1..], [RBrace] + rest)) == Got(es[1..], rest)
    ensures MoreMapItems(EmitEntries(es, [RBrace] + rest)) == Got(es, rest)
    decreases es, 5
  {
    var e := es[0];
    var key := if e.quoted then Str(e.key) else Ident(e.key);
    var more := EmitEntries(es[1..], [RBrace] + rest);
    Enclosed(e.value, Comma, more);
    Tail2(key, Colon, Emit(e.value, [Comma] + more));
    Tail(Comma, more);
    assert es == [e] + es[1..];
  }

  lemma {:induction false} AllParams(ps: seq<string>, rest: seq<Token>)
    ensures Params(EmitParams(ps, [RParen] + ([Arrow] + rest))) == Got(ps, [Arrow] + rest)
  {
    Tail2(RParen, Arrow, rest);
    if ps != [] { AllMoreParams(ps, rest); }
  }

  lemma {:induction false} AllMoreParams(ps: seq<string>, rest: seq<Token>)
    requires ps != []
    ensures MoreParams(EmitParams(ps, [RParen] + ([Arrow] + rest))) == Got(ps, [Arrow] + rest)
  {
    var tail := [RParen] + ([Arrow] + rest);
    Tail2(RParen, Arrow, rest);
    if |ps| == 1 {
      Tail2(Ident(ps[0]), RParen, [Arrow] + rest);
      assert ps == [ps[0]];
    } else {
      var more := EmitParams(ps[1..], tail);
      Tail2(Ident(ps[0]), Comma, more);
      AllMoreParams(ps[1..], rest);
      assert ps == [ps[0]] + ps[1..];
    }
  }

  // ----- The parser, exactly -----

  /** At floor p the parser takes t off the front of ts and stops before rest precisely when t's
      tokens are what lies before rest, t respects the table, its root exceeds the floor, and the
      next token neither continues t nor exceeds the floor. */
  lemma ParseExact(p: nat, ts: seq<Token>, t: Tree, rest: seq<Token>)
    ensures Parse(p, ts) == Got(t, rest) <==>
      ts == Flatten(t) + rest && Complete(t, rest) && Exceeds(t, p) && LBP(First(rest)) <= p
  {
    EmitFlatten(t, rest);
    if Parse(p, ts) == Got(t, rest) {
      SoundParse(p, ts, t, rest);
    }
    if ts == Emit(t, rest) && Complete(t, rest) && Exceeds(t, p) && LBP(First(rest)) <= p {
      Whole(p, t, rest);
    }
  }

  lemma RestIn(a: seq<Token>, rest: seq<Token>)
    ensures First(rest) in a + rest || rest == []
  {
    if rest != [] { assert (a + rest)[|a|] == rest[0]; }
  }

  /** A whole input is accepted precisely as the one tree respecting the table that spells it. */
  lemma ParseAllExact(ts: seq<Token>, t: Tree)
    requires EOF !in ts
    ensures ParseAll(ts) == Some(t) <==> ts == Flatten(t) && Respects(t)
  {
    ClosingFollows(t, EOF);
    if Respects(t) { AnyExceedsLowest(t); }
    ParseExact(LOWEST, ts, t, []);
    assert Flatten(t) + [] == Flatten(t);
    if ParseAll(ts) == Some(t) {
      var Got(_, rest) := Parse(LOWEST, ts);
      ParseExact(LOWEST, ts, t, rest);
      EmitFlatten(t, rest);
      RestIn(Flatten(t), rest);
      assert rest == [];
    }
  }

  /** No token sequence spells two trees that respect the table. */
  lemma Unambiguous(t: Tree, t': Tree)
    requires Respects(t) && Respects(t') && Flatten(t) == Flatten(t')
    ensures t == t'
  {
    ClosingFollows(t, EOF);
    ClosingFollows(t', EOF);
    AnyExceedsLowest(t);
    AnyExceedsLowest(t');
    assert Flatten(t) + [] == Flatten(t) == Flatten(t') + [];
    ParseExact(LOWEST, Flatten(t), t, []);
    ParseExact(LOWEST, Flatten(t), t', []);
  }

  // ----- Printing -----

  function SymOf(op: InfixOp): Sym {
    match op
    case Or => OrOr
    case And => AndAnd
    case Coalesce => QuestionQuestion
    case MatchesOp => MatchesWord
    case InOp => InWord
    case Arith(o) =>
      match o
      case Add => PlusSign
      case Sub => MinusSign
      case Mul => Star
      case Div => Slash
      case Mod => Percent
      case Pow => StarStar
      case Eq => EqEq
      case Ne => NotEq
      case Lt => Less
      case Gt => Greater
      case Le => LessEq
      case Ge => GreaterEq
  }

  /** Brackets, exactly when the table says tok would otherwise be taken into t. */
  function Before(t: Tree, tok: Token): Tree { if Follows(t, tok) then t else Group(t) }

  /** Brackets, exactly when t would not be read whole at floor p. */
  function Above(t: Tree, p: nat): Tree { if Exceeds(t, p) then t else Group(t) }

  function Print(e: Expr): Tree {
    match e
    case Const(c) => Literal(c)
    case Var(x) => Variable(x)
    case Unary(o, a) =>
      Prefix(if o.Minus? then MinusSign else if o.Plus? then PlusSign else BangSign, Above(Print(a), PREC_PREFIX))
    case Infix(o, l, r) => Binary(SymOf(o), Before(Print(l), Op(SymOf(o))), Above(Print(r), SymRBP(SymOf(o))))
    case Member(t, n, o) => Dotted(Before(Print(t), if o then OptDot else Dot), n, o)
    case IndexE(t, i, o) => Indexed(Before(Print(t), if o then OptDot else LBracket), Print(i), o)
    case SliceE(t, lo, hi) => Sliced(Before(Print(t), LBracket), PrintOption(lo), PrintOption(hi))
    case ListE(es) => Listing(PrintAll(es))
    case MapE(es) => Mapping(PrintEntries(es))
    case Lambda(ps, b) => if |ps| == 1 then Arrow1(ps[0], Print(b)) else ArrowN(ps, Print(b))
    case Let(x, v, b) => LetIn(x, Print(v), Print(b))
    case Conditional(c, y, n) =>
      if n.Some? then Ternary(Before(Print(c), Question), Print(y), Print(n.value))
      else IfElse(Before(Print(c), LBrace), Block(Print(y)), None)
    case Call(f, args) => Called(Before(Print(f), LParen), PrintAll(args))
  }

  function PrintOption(o: Option<Expr>): Option<Tree> {
    match o
    case Some(e) => Some(Print(e))
    case None => None
  }

  function PrintAll(es: seq<Expr>): seq<Tree> {
    seq(|es|, i requires 0 <= i < |es| => Print(es[i]))
  }

  function PrintEntries(es: seq<Entry>): seq<TreeEntry> {
    seq(|es|, i requires 0 <= i < |es| => TreeEntry(es[i].key, true, Print(es[i].value)))
  }

  lemma BeforeRight(t: Tree, tok: Token)
    requires Respects(t) && tok != Arrow
    ensures Respects(Before(t, tok)) && Follows(Before(t, tok), tok) && Abstract(Before(t, tok)) == Abstract(t)
  {
  }

  lemma AboveRight(t: Tree, p: nat)
    requires Respects(t)
    ensures Respects(Above(t, p)) && Exceeds(Above(t, p), p) && Abstract(Above(t, p)) == Abstract(t)
  {
  }

  /** A printed expression respects the table and abstracts back to the expression. */
  lemma {:induction false} PrintRight(e: Expr)
    ensures Respects(Print(e)) && Abstract(Print(e)) == e
    decreases e, 1
  {
    match e
    case Const(_) =>
    case Var(_) =>
    case Unary(_, _) => PrintOperatorRight(e);
    case Infix(_, _, _) => PrintOperatorRight(e);
    case Member(_, _, _) => PrintAccessRight(e);
    case IndexE(_, _, _) => PrintAccessRight(e);
    case SliceE(_, _, _) => PrintSliceRight(e);
    case ListE(es) => PrintAllRight(es);
    case MapE(es) => PrintEntriesRight(es);
    case Lambda(ps, b) =>
      PrintRight(b);
      if |ps| == 1 { assert ps == [ps[0]]; }
    case Let(_, v, b) => PrintRight(v); PrintRight(b);
    case Conditional(_, _, _) => PrintConditionalRight(e);
    case Call(f, args) =>
      PrintRight(f);
      BeforeRight(Print(f), LParen);
      PrintAllRight(args);
  }

  lemma {:induction false} PrintOperatorRight(e: Expr)
    requires e.Unary? || e.Infix?
    ensures Respects(Print(e)) && Abstract(Print(e)) == e
    decreases e, 0
  {
    if e.Unary? {
      PrintRight(e.operand);
      AboveRight(Print(e.operand), PREC_PREFIX);
    } else {
      PrintRight(e.left);
      PrintRight(e.right);
      BinaryRight(e.bop, Print(e.left), Print(e.right));
    }
  }

  lemma BinaryRight(op: InfixOp, l: Tree, r: Tree)
    requires Respects(l) && Respects(r)
    ensures
      var t := Binary(SymOf(op), Before(l, Op(SymOf(op))), Above(r, SymRBP(SymOf(op))));
      Respects(t) && Abstract(t) == Infix(op, Abstract(l), Abstract(r))
  {
    var s := SymOf(op);
    BeforeRight(l, Op(s));
    AboveRight(r, SymRBP(s));
    assert IsInfixOp(s) && InfixOf(s) == op;
  }

  lemma {:induction false} PrintAccessRight(e: Expr)
    requires e.Member? || e.IndexE?
    ensures Respects(Print(e)) && Abstract(Print(e)) == e
    decreases e, 0
  {
    PrintRight(e.target);
    if e.Member? {
      BeforeRight(Print(e.target), if e.optional then OptDot else Dot);
    } else {
      PrintRight(e.index);
      BeforeRight(Print(e.target), if e.optional then OptDot else LBracket);
    }
  }

  lemma {:induction false} PrintSliceRight(e: Expr)
    requires e.SliceE?
    ensures Respects(Print(e)) && Abstract(Print(e)) == e
    decreases e, 0
  {
    PrintRight(e.target);
    BeforeRight(Print(e.target), LBracket);
    if e.low.Some? { PrintRight(e.low.value); }
    if e.high.Some? { PrintRight(e.high.value); }
  }

  lemma {:induction false} PrintConditionalRight(e: Expr)
    requires e.Conditional?
    ensures Respects(Print(e)) && Abstract(Print(e)) == e
    decreases e, 0
  {
    PrintRight(e.cond);
    PrintRight(e.whenTrue);
    if e.orElse.Some? {
      PrintRight(e.orElse.value);
      TernaryRight(Print(e.cond), Print(e.whenTrue), Print(e.orElse.value));
    } else {
      IfRight(Print(e.cond), Print(e.whenTrue));
    }
  }

  lemma TernaryRight(c: Tree, y: Tree, n: Tree)
    requires Respects(c) && Respects(y) && Respects(n)
    ensures
      var t := Ternary(Before(c, Question), y, n);
      Respects(t) && Abstract(t) == Conditional(Abstract(c), Abstract(y), Some(Abstract(n)))
  {
    BeforeRight(c, Question);
    AnyExceedsLowest(n);
  }

  lemma IfRight(c: Tree, y: Tree)
    requires Respects(c) && Respects(y)
    ensures
      var t := IfElse(Before(c, LBrace), Block(y), None);
      Respects(t) && Abstract(t) == Conditional(Abstract(c), Abstract(y), None)
  {
    BeforeRight(c, LBrace);
  }

  lemma {:induction false} PrintAllRight(es: seq<Expr>)
    ensures RespectAll(PrintAll(es)) && AbstractAll(PrintAll(es)) == es
    decreases es, 2
  {
    if es != [] {
      PrintRight(es[0]);
      PrintAllRight(es[1..]);
      assert PrintAll(es)[1..] == PrintAll(es[1..]);
      forall i | 0 <= i < |es| ensures AbstractAll(PrintAll(es))[i] == es[i] {
        if i > 0 { assert AbstractAll(PrintAll(es[1..]))[i - 1] == es[1..][i - 1]; }
      }
    }
  }

  lemma {:induction false} PrintEntriesRight(es: seq<Entry>)
    ensures RespectEntries(PrintEntries(es)) && AbstractEntries(PrintEntries(es)) == es
    decreases es, 2
  {
    if es != [] {
      PrintRight(es[0].value);
      PrintEntriesRight(es[1..]);
      assert PrintEntries(es)[1..] == PrintEntries(es[1..]);
      forall i | 0 <= i < |es| ensures AbstractEntries(PrintEntries(es))[i] == es[i] {
        if i > 0 { assert AbstractEntries(PrintEntries(es[1..]))[i - 1] == es[1..][i - 1]; }
      }
    }
  }

  /** Printing any expression and parsing the result gives the expression back. */
  lemma RoundTrip(e: Expr)
    ensures ParseAll(Flatten(Print(e))) == Some(Print(e)) && Abstract(Print(e)) == e
  {
    PrintRight(e);
    ClosingFollows(Print(e), EOF);
    AnyExceedsLowest(Print(e));
    Whole(LOWEST, Print(e), []);
  }

  /** A chain of one operator nests to the right for `**` and `??` and to the left for the others. */
  lemma Associativity(s: Sym, a: Values.Const, b: Values.Const, c: Values.Const)
    requires IsInfixOp(s)
    ensures ParseAll([ConstToken(a), Op(s), ConstToken(b), Op(s), ConstToken(c)]) ==
      Some(if s.StarStar? || s.QuestionQuestion? then ToTheRight(s, a, b, c) else ToTheLeft(s, a, b, c))
  {
    var right := s.StarStar? || s.QuestionQuestion?;
    var t := if right then ToTheRight(s, a, b, c) else ToTheLeft(s, a, b, c);
    ChainRespects(s, a, b, c);
    ChainTokens(s, a, b, c);
    ClosingFollows(t, EOF);
    Whole(LOWEST, t, []);
  }

  function ToTheRight(s: Sym, a: Values.Const, b: Values.Const, c: Values.Const): Tree {
    Binary(s, Literal(a), Binary(s, Literal(b), Literal(c)))
  }

  function ToTheLeft(s: Sym, a: Values.Const, b: Values.Const, c: Values.Const): Tree {
    Binary(s, Binary(s, Literal(a), Literal(b)), Literal(c))
  }

  lemma ChainRespects(s: Sym, a: Values.Const, b: Values.Const, c: Values.Const)
    requires IsInfixOp(s)
    ensures Respects(if s.StarStar? || s.QuestionQuestion? then ToTheRight(s, a, b, c) else ToTheLeft(s, a, b, c))
  {
    var A, B, C := Literal(a), Literal(b), Literal(c);
    assert Respects(A) && Respects(B) && Respects(C);
    assert Respects(if s.StarStar? || s.QuestionQuestion? then Binary(s, B, C) else Binary(s, A, B));
  }

  lemma ChainTokens(s: Sym, a: Values.Const, b: Values.Const, c: Values.Const)
    ensures Flatten(ToTheRight(s, a, b, c)) == [ConstToken(a), Op(s), ConstToken(b), Op(s), ConstToken(c)]
    ensures Flatten(ToTheLeft(s, a, b, c)) == [ConstToken(a), Op(s), ConstToken(b), Op(s), ConstToken(c)]
  {
    var A, B, C := Literal(a), Literal(b), Literal(c);
    var middle := [Op(s)] + Emit(C, []);
    var rest := [Op(s)] + Emit(B, middle);
    assert Emit(Binary(s, B, C), []) == Emit(B, middle);
    assert Emit(Binary(s, A, B), middle) == Emit(A, rest);
    assert Flatten(ToTheRight(s, a, b, c)) == Emit(A, rest) == Flatten(ToTheLeft(s, a, b, c));
    assert Emit(C, []) == [ConstToken(c)] + [] == [ConstToken(c)];
    assert Emit(B, middle) == [ConstToken(b)] + middle;
    assert Emit(A, rest) == [ConstToken(a)] + rest;
  }
}
