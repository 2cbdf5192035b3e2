// Whatever the parser accepts, it read exactly the tokens of the tree it returns, and that tree
// respects the binding-power table.

module ParserSound {
  import opened Values
  import opened Syntax
  import opened Grammar
  import opened Parsing

  /** t has no operand to the left of its root, so it stands at any floor. */
  predicate Rooted(t: Tree) {
    !(t.Binary? || t.NotIn? || t.Ternary? || t.Dotted? || t.Indexed? || t.Sliced? || t.Called?)
  }

  /** t respects the table and rest does not continue it. */
  predicate Complete(t: Tree, rest: seq<Token>) { Respects(t) && Follows(t, First(rest)) }

  lemma HeadTail(ts: seq<Token>, tok: Token)
    requires First(ts) == tok && tok != EOF
    ensures ts == [tok] + ts[1..]
  {
  }

  lemma {:induction false} SoundParse(p: nat, ts: seq<Token>, t: Tree, rest: seq<Token>)
    requires Parse(p, ts) == Got(t, rest)
    ensures ts == Emit(t, rest) && Complete(t, rest) && Exceeds(t, p) && LBP(First(rest)) <= p
    decreases |ts|, 4
  {
    var Got(left, more) := ParsePrefix(ts);
    SoundPrefix(ts, left, more);
    SoundLoop(p, left, more, t, rest);
  }

  lemma {:induction false} SoundLoop(p: nat, left: Tree, ts: seq<Token>, t: Tree, rest: seq<Token>)
    requires Complete(left, ts) && Exceeds(left, p) && Loop(p, left, ts) == Got(t, rest)
    ensures Emit(left, ts) == Emit(t, rest) && Complete(t, rest) && Exceeds(t, p) && LBP(First(rest)) <= p
    decreases |ts|, 3
  {
    if LBP(First(ts)) > p {
      var Got(t', more) := Extend(left, ts);
      SoundExtend(left, ts, p, t', more);
      SoundLoop(p, t', more, t, rest);
    }
  }

  lemma {:induction false} SoundExtend(left: Tree, ts: seq<Token>, p: nat, t: Tree, rest: seq<Token>)
    requires ts != [] && LBP(ts[0]) > p && Complete(left, ts) && Extend(left, ts) == Got(t, rest)
    ensures Emit(left, ts) == Emit(t, rest) && Complete(t, rest) && Exceeds(t, p)
    decreases |ts|, 2
  {
    HeadTail(ts, ts[0]);
    if ts[0].Op? {
      SoundOperator(left, ts[0].sym, ts[1..], p, t, rest);
    } else if ts[0].Question? {
      SoundTernary(left, ts[1..], t, rest);
    } else {
      SoundPostfix(left, ts, p, t, rest);
    }
  }

  lemma {:induction false} SoundPostfix(left: Tree, ts: seq<Token>, p: nat, t: Tree, rest: seq<Token>)
    requires LBP(First(ts)) == PREC_CALL > p && Complete(left, ts) && Extend(left, ts) == Got(t, rest)
    ensures Emit(left, ts) == Emit(t, rest) && Complete(t, rest) && Exceeds(t, p)
    decreases |ts|, 1
  {
    HeadTail(ts, ts[0]);
    match ts[0]
    case Dot => SoundDot(left, ts, p, t, rest);
    case OptDot => SoundOptional(left, ts[1..], p, t, rest);
    case LParen => SoundCall(left, ts, p, t, rest);
    case LBracket => SoundBrackets(left, ts[1..], p, t, rest);
  }

  lemma SoundDot(left: Tree, ts: seq<Token>, p: nat, t: Tree, rest: seq<Token>)
    requires First(ts) == Dot && p < PREC_CALL && Complete(left, ts) && Extend(left, ts) == Got(t, rest)
    ensures Emit(left, ts) == Emit(t, rest) && Complete(t, rest) && Exceeds(t, p)
  {
    HeadTail(ts, Dot);
    HeadTail(ts[1..], ts[1]);
  }

  lemma {:induction false} SoundCall(left: Tree, ts: seq<Token>, p: nat, t: Tree, rest: seq<Token>)
    requires First(ts) == LParen && p < PREC_CALL && Complete(left, ts) && Extend(left, ts) == Got(t, rest)
    ensures Emit(left, ts) == Emit(t, rest) && Complete(t, rest) && Exceeds(t, p)
    decreases |ts|, 0
  {
    HeadTail(ts, LParen);
    SoundItems(RParen, ts[1..], t.args, rest);
  }

  lemma {:induction false} SoundOperator(left: Tree, s: Sym, ts: seq<Token>, p: nat, t: Tree, rest: seq<Token>)
    requires SymLBP(s) > p && Respects(left) && Follows(left, Op(s)) && ExtendOperator(left, s, ts) == Got(t, rest)
    ensures Emit(left, [Op(s)] + ts) == Emit(t, rest) && Complete(t, rest) && Exceeds(t, p)
    decreases |ts|, 5
  {
    if s == NotWord {
      HeadTail(ts, Op(InWord));
      SoundParse(SymRBP(NotWord), ts[1..], t.right, rest);
    } else {
      SoundParse(SymRBP(s), ts, t.right, rest);
    }
  }

  lemma {:induction false} SoundOptional(left: Tree, ts: seq<Token>, p: nat, t: Tree, rest: seq<Token>)
    requires p < PREC_CALL && Respects(left) && Follows(left, OptDot) && ExtendOptional(left, ts) == Got(t, rest)
    ensures Emit(left, [OptDot] + ts) == Emit(t, rest) && Complete(t, rest) && Exceeds(t, p)
    decreases |ts|, 5
  {
    HeadTail(ts, ts[0]);
    if ts[0] == LBracket {
      var Got(i, more) := Parse(LOWEST, ts[1..]);
      SoundParse(LOWEST, ts[1..], i, more);
      HeadTail(more, RBracket);
    }
  }

  lemma {:induction false} SoundBrackets(left: Tree, ts: seq<Token>, p: nat, t: Tree, rest: seq<Token>)
    requires p < PREC_CALL && Respects(left) && Follows(left, LBracket) && Brackets(left, ts) == Got(t, rest)
    ensures Emit(left, [LBracket] + ts) == Emit(t, rest) && Complete(t, rest) && Exceeds(t, p)
    decreases |ts|, 6
  {
    if First(ts) == Colon {
      HeadTail(ts, Colon);
      SoundSliceTail(left, None, ts[1..], t, rest);
    } else {
      var Got(low, more) := Parse(LOWEST, ts);
      SoundParse(LOWEST, ts, low, more);
      HeadTail(more, First(more));
      if First(more) == Colon { SoundSliceTail(left, Some(low), more[1..], t, rest); }
    }
  }

  lemma {:induction false} SoundSliceTail(left: Tree, low: Option<Tree>, ts: seq<Token>, t: Tree, rest: seq<Token>)
    requires SliceTail(left, low, ts) == Got(t, rest)
    ensures t.Sliced? && t.target == left && t.low == low && (t.high.Some? ==> Respects(t.high.value))
    ensures ts == EmitOption(t.high, [RBracket] + rest)
    decreases |ts|, 5
  {
    if First(ts) == RBracket {
      HeadTail(ts, RBracket);
    } else {
      var Got(high, more) := Parse(LOWEST, ts);
      SoundParse(LOWEST, ts, high, more);
      HeadTail(more, RBracket);
    }
  }

  lemma {:induction false} SoundTernary(left: Tree, ts: seq<Token>, t: Tree, rest: seq<Token>)
    requires Respects(left) && Follows(left, Question) && ExtendTernary(left, ts) == Got(t, rest)
    ensures t.Ternary? && Emit(left, [Question] + ts) == Emit(t, rest) && Complete(t, rest)
    decreases |ts|, 5
  {
    var Got(y, more) := Parse(LOWEST, ts);
    SoundParse(LOWEST, ts, y, more);
    HeadTail(more, Colon);
    SoundParse(PREC_TERNARY - 1, more[1..], t.whenFalse, rest);
  }

  lemma {:induction false} SoundItems(close: Token, ts: seq<Token>, es: seq<Tree>, rest: seq<Token>)
    requires Items(close, ts) == Got(es, rest) && close != EOF
    ensures RespectAll(es) && ts == EmitAll(es, [close] + rest)
    decreases |ts|, 6
  {
    if First(ts) == close {
      HeadTail(ts, close);
    } else {
      SoundMoreItems(close, ts, es, rest);
    }
  }

  lemma {:induction false} SoundMoreItems(close: Token, ts: seq<Token>, es: seq<Tree>, rest: seq<Token>)
    requires MoreItems(close, ts) == Got(es, rest) && close != EOF
    ensures es != [] && RespectAll(es) && ts == EmitAll(es, [close] + rest)
    decreases |ts|, 5
  {
    var Got(t, more) := Parse(LOWEST, ts);
    SoundParse(LOWEST, ts, t, more);
    HeadTail(more, First(more));
    if First(more) == Comma {
      var Got(others, _) := MoreItems(close, more[1..]);
      SoundMoreItems(close, more[1..], others, rest);
      assert es == [t] + others && es[1..] == others;
    } else {
      assert es == [t] && es[1..] == [];
    }
  }

  lemma {:induction false} SoundMapItems(ts: seq<Token>, es: seq<TreeEntry>, rest: seq<Token>)
    requires MapItems(ts) == Got(es, rest)
    ensures RespectEntries(es) && ts == EmitEntries(es, [RBrace] + rest)
    decreases |ts|, 6
  {
    if First(ts) == RBrace {
      HeadTail(ts, RBrace);
    } else {
      SoundMoreMapItems(ts, es, rest);
    }
  }

  lemma {:induction false} SoundMoreMapItems(ts: seq<Token>, es: seq<TreeEntry>, rest: seq<Token>)
    requires MoreMapItems(ts) == Got(es, rest)
    ensures es != [] && RespectEntries(es) && ts == EmitEntries(es, [RBrace] + rest)
    decreases |ts|, 5
  {
    HeadTail(ts, ts[0]);
    HeadTail(ts[1..], Colon);
    assert ts[1..][1..] == ts[2..];
    var Got(v, more) := Parse(LOWEST, ts[2..]);
    SoundParse(LOWEST, ts[2..], v, more);
    HeadTail(more, First(more));
    var e := TreeEntry(if ts[0].Str? then ts[0].s else ts[0].x, ts[0].Str?, v);
    if First(more) == Comma {
      var Got(others, _) := MoreMapItems(more[1..]);
      SoundMoreMapItems(more[1..], others, rest);
      assert es == [e] + others && es[1..] == others;
    } else {
      assert es == [e] && es[1..] == [];
    }
  }

  lemma {:induction false} SoundMoreParams(ts: seq<Token>, ps: seq<string>, rest: seq<Token>)
    requires MoreParams(ts) == Got(ps, rest)
    ensures ps != [] && ts == EmitParams(ps, [RParen] + rest)
  {
    HeadTail(ts, ts[0]);
    HeadTail(ts[1..], ts[1]);
    assert ts[1..][1..] == ts[2..];
    if First(ts[1..]) == Comma {
      var Got(others, _) := MoreParams(ts[2..]);
      SoundMoreParams(ts[2..], others, rest);
      assert ps == [ts[0].x] + others && ps[1..] == others;
    } else {
      assert ps == [ts[0].x] && ps[1..] == [];
    }
  }

  lemma SoundParams(ts: seq<Token>, ps: seq<string>, rest: seq<Token>)
    requires Params(ts) == Got(ps, rest)
    ensures ts == EmitParams(ps, [RParen] + rest)
  {
    if First(ts) == RParen {
      HeadTail(ts, RParen);
    } else {
      SoundMoreParams(ts, ps, rest);
    }
  }

  lemma {:induction false} SoundPrefix(ts: seq<Token>, t: Tree, rest: seq<Token>)
    requires ParsePrefix(ts) == Got(t, rest)
    ensures ts == Emit(t, rest) && Complete(t, rest) && Rooted(t)
    decreases |ts|, 1
  {
    HeadTail(ts, ts[0]);
    match ts[0]
    case Ident(_) => SoundIdent(ts, t, rest);
    case Op(s) => SoundParse(PREC_PREFIX, ts[1..], t.operand, rest);
    case LParen => SoundParen(ts, t, rest);
    case If => SoundIf(ts, t, rest);
    case LetWord => SoundLet(ts, t, rest);
    case LBracket => SoundItems(RBracket, ts[1..], t.elements, rest);
    case LBrace => SoundMapItems(ts[1..], t.entries, rest);
    case _ =>
  }

  lemma {:induction false} SoundIdent(ts: seq<Token>, t: Tree, rest: seq<Token>)
    requires First(ts).Ident? && ParsePrefix(ts) == Got(t, rest)
    ensures ts == Emit(t, rest) && Complete(t, rest) && Rooted(t)
    decreases |ts|, 0
  {
    HeadTail(ts, ts[0]);
    if First(ts[1..]) == Arrow {
      HeadTail(ts[1..], Arrow);
      assert ts[1..][1..] == ts[2..];
      SoundParse(LOWEST, ts[2..], t.body, rest);
    }
  }

  lemma {:induction false} SoundParen(ts: seq<Token>, t: Tree, rest: seq<Token>)
    requires First(ts) == LParen && ParsePrefix(ts) == Got(t, rest)
    ensures ts == Emit(t, rest) && Complete(t, rest) && Rooted(t)
    decreases |ts|, 0
  {
    HeadTail(ts, LParen);
    if Params(ts[1..]).Got? {
      var Got(ps, more) := Params(ts[1..]);
      SoundParams(ts[1..], ps, more);
      HeadTail(more, Arrow);
      SoundParse(LOWEST, more[1..], t.body, rest);
    } else {
      var Got(inner, more) := Parse(LOWEST, ts[1..]);
      SoundParse(LOWEST, ts[1..], inner, more);
      HeadTail(more, RParen);
      if inner.Variable? && First(rest) == Arrow { ParamsVariable(inner.x, rest); }
    }
  }

  /** A bracketed variable before an arrow is a parameter list. */
  lemma ParamsVariable(x: string, rest: seq<Token>)
    requires First(rest) == Arrow
    ensures Params([Ident(x)] + ([RParen] + rest)) == Got([x], rest)
  {
    var ts := [Ident(x)] + ([RParen] + rest);
    assert ts[1..] == [RParen] + rest && ts[2..] == rest;
  }

  lemma {:induction false} SoundBranch(ts: seq<Token>, b: BranchTree, rest: seq<Token>)
    requires ParseBranch(ts) == Got(b, rest)
    ensures ts == EmitBranch(b, rest) && RespectBranch(b) && FollowsBranch(b, First(rest)) &&
        First(ts) == FirstOfBranch(b)
    decreases |ts|, 5
  {
    if First(ts) == LBrace {
      HeadTail(ts, LBrace);
      var Got(t, more) := Parse(LOWEST, ts[1..]);
      SoundParse(LOWEST, ts[1..], t, more);
      HeadTail(more, RBrace);
    } else {
      SoundParse(LOWEST, ts, b.tree, rest);
      EmitFirst(b.tree, rest);
    }
  }

  lemma {:induction false} SoundIf(ts: seq<Token>, t: Tree, rest: seq<Token>)
    requires First(ts) == If && ParseIf(ts[1..]) == Got(t, rest)
    ensures ts == Emit(t, rest) && Complete(t, rest) && Rooted(t)
    decreases |ts|, 0
  {
    HeadTail(ts, If);
    var Got(c, more) := Parse(LOWEST, ts[1..]);
    SoundParse(LOWEST, ts[1..], c, more);
    var Got(y, more') := ParseBranch(more);
    SoundBranch(more, y, more');
    if First(more') == Else {
      HeadTail(more', Else);
      SoundBranch(more'[1..], t.no.value, rest);
    }
  }

  lemma {:induction false} SoundLet(ts: seq<Token>, t: Tree, rest: seq<Token>)
    requires First(ts) == LetWord && ParseLet(ts[1..]) == Got(t, rest)
    ensures ts == Emit(t, rest) && Complete(t, rest) && Rooted(t)
    decreases |ts|, 0
  {
    var us := ts[1..];
    HeadTail(ts, LetWord);
    HeadTail(us, us[0]);
    HeadTail(us[1..], Op(Assign));
    assert us[1..][1..] == us[2..];
    var Got(v, more) := Parse(LOWEST, us[2..]);
    SoundParse(LOWEST, us[2..], v, more);
    HeadTail(more, Semicolon);
    SoundParse(LOWEST, more[1..], t.body, rest);
  }
}
