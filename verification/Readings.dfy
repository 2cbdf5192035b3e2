// What source text means, told on tokens and the expressions they are read as: how tightly each
// operator holds its operands, what each operator stands for, and how every construct is spelled.

module Readings {
  import opened Values
  import opened Syntax
  import opened Grammar
  import opened Parsing
  import opened ParserExact

  /** The whole input is read as e. */
  predicate Reads(ts: seq<Token>, e: Expr) {
    EOF !in ts && ParseAll(ts).Some? && Abstract(ParseAll(ts).value) == e
  }

  /** A text and the expression it is read as. */
  datatype Part = Part(text: seq<Token>, e: Expr)

  predicate Read(p: Part) { Reads(p.text, p.e) }

  predicate ReadOption(o: Option<Part>) { o.Some? ==> Read(o.value) }

  predicate ReadAll(ps: seq<Part>) {
    ps == [] || (Read(ps[0]) && ReadAll(ps[1..]))
  }

  /** Texts separated by commas. */
  function Commas(ps: seq<Part>): seq<Token> {
    if ps == [] then []
    else if |ps| == 1 then ps[0].text
    else ps[0].text + [Comma] + Commas(ps[1..])
  }

  function Exprs(ps: seq<Part>): seq<Expr> {
    if ps == [] then [] else [ps[0].e] + Exprs(ps[1..])
  }

  function OptText(o: Option<Part>): seq<Token> { if o.Some? then o.value.text else [] }

  function OptExpr(o: Option<Part>): Option<Expr> { if o.Some? then Some(o.value.e) else None }

  // ----- Operands as written -----

  /** What is written after an operand: `.n` or `?.n`, `[i]` or `?.[i]`, a slice, arguments. */
  datatype Suffix =
    | DotName(name: string, optional: bool)
    | AtIndex(index: Part, optional: bool)
    | FromTo(low: Option<Part>, high: Option<Part>)
    | Arguments(args: seq<Part>)

  /** An entry of a map literal: its key is an identifier or a string literal. */
  datatype Pair = Pair(key: string, quoted: bool, value: Part)

  /** An operand as written: one token, an expression in brackets, a list or a map, then any number
      of suffixes; and any number of prefix operators before that. */
  datatype Written =
    | Single(p: Part)
    | Bracketed(p: Part)
    | Listed(elements: seq<Part>)
    | Mapped(pairs: seq<Pair>)
    | Suffixed(target: Written, suffix: Suffix)
    | Signed(sign: Sym, operand: Written)

  predicate SuffixRead(s: Suffix) {
    match s
    case DotName(_, _) => true
    case AtIndex(i, _) => Read(i)
    case FromTo(lo, hi) => ReadOption(lo) && ReadOption(hi)
    case Arguments(ps) => ReadAll(ps)
  }

  predicate ReadPairs(ps: seq<Pair>) {
    ps == [] || (Read(ps[0].value) && ReadPairs(ps[1..]))
  }

  predicate Proper(w: Written) {
    match w
    case Single(p) => Read(p) && |p.text| == 1
    case Bracketed(p) => Read(p)
    case Listed(ps) => ReadAll(ps)
    case Mapped(ps) => ReadPairs(ps)
    case Suffixed(t, s) => !t.Signed? && Proper(t) && SuffixRead(s)
    case Signed(s, o) => (s.MinusSign? || s.PlusSign? || s.BangSign? || s.NotWord?) && Proper(o)
  }

  function SuffixText(s: Suffix): seq<Token> {
    match s
    case DotName(n, opt) => [if opt then OptDot else Dot, Ident(n)]
    case AtIndex(i, opt) => (if opt then [OptDot, LBracket] else [LBracket]) + i.text + [RBracket]
    case FromTo(lo, hi) => [LBracket] + OptText(lo) + [Colon] + OptText(hi) + [RBracket]
    case Arguments(ps) => [LParen] + Commas(ps) + [RParen]
  }

  function PairText(p: Pair): seq<Token> {
    [if p.quoted then Str(p.key) else Ident(p.key), Colon] + p.value.text
  }

  function PairsText(ps: seq<Pair>): seq<Token> {
    if ps == [] then []
    else if |ps| == 1 then PairText(ps[0])
    else PairText(ps[0]) + [Comma] + PairsText(ps[1..])
  }

  function Entries(ps: seq<Pair>): seq<Entry> {
    if ps == [] then [] else [Entry(ps[0].key, ps[0].value.e)] + Entries(ps[1..])
  }

  function Text(w: Written): seq<Token> {
    match w
    case Single(p) => p.text
    case Bracketed(p) => [LParen] + p.text + [RParen]
    case Listed(ps) => [LBracket] + Commas(ps) + [RBracket]
    case Mapped(ps) => [LBrace] + PairsText(ps) + [RBrace]
    case Suffixed(t, s) => Text(t) + SuffixText(s)
    case Signed(s, o) => [Op(s)] + Text(o)
  }

  function SuffixMeans(s: Suffix, e: Expr): Expr {
    match s
    case DotName(n, opt) => Member(e, n, opt)
    case AtIndex(i, opt) => IndexE(e, i.e, opt)
    case FromTo(lo, hi) => SliceE(e, OptExpr(lo), OptExpr(hi))
    case Arguments(ps) => Call(e, Exprs(ps))
  }

  /** Suffixes apply first, the nearest innermost; then prefix operators, again the nearest innermost. */
  function Meant(w: Written): Expr {
    match w
    case Single(p) => p.e
    case Bracketed(p) => p.e
    case Listed(ps) => ListE(Exprs(ps))
    case Mapped(ps) => MapE(Entries(ps))
    case Suffixed(t, s) => SuffixMeans(s, Meant(t))
    case Signed(s, o) => Unary(if s.MinusSign? then Minus else if s.PlusSign? then Plus else Bang, Meant(o))
  }

  // ----- Infix operators as written -----

  /** One symbol, or the two words `not in`. */
  datatype Infixed = Symbol(s: Sym) | NotInWords

  function Words(o: Infixed): seq<Token> {
    match o
    case Symbol(s) => [Op(s)]
    case NotInWords => [Op(NotWord), Op(InWord)]
  }

  /** What each infix symbol stands for. */
  function Stands(s: Sym): InfixOp {
    match s
    case QuestionQuestion => Coalesce
    case OrOr | OrWord => Or
    case AndAnd | AndWord => And
    case EqEq => Arith(Eq)
    case NotEq => Arith(Ne)
    case Less => Arith(Lt)
    case Greater => Arith(Gt)
    case LessEq => Arith(Le)
    case GreaterEq => Arith(Ge)
    case InWord => InOp
    case MatchesWord => MatchesOp
    case PlusSign => Arith(Add)
    case MinusSign => Arith(Sub)
    case Star => Arith(Mul)
    case Slash => Arith(Div)
    case Percent => Arith(Mod)
    case _ => Arith(Pow)
  }

  /** What an infix operator between two expressions makes of them. */
  function Applied(o: Infixed, l: Expr, r: Expr): Expr {
    match o
    case NotInWords => Unary(Bang, Infix(InOp, l, r))
    case Symbol(s) => Infix(Stands(s), l, r)
  }

  /** The infix operators level by level, loosest first; 0 for what is not an infix operator. */
  function Tightness(o: Infixed): nat {
    match o
    case NotInWords => 5
    case Symbol(s) =>
      match s
      case QuestionQuestion => 1
      case OrOr | OrWord => 2
      case AndAnd | AndWord => 3
      case EqEq | NotEq => 4
      case Less | Greater | LessEq | GreaterEq | InWord | MatchesWord => 5
      case PlusSign | MinusSign => 6
      case Star | Slash | Percent => 7
      case StarStar => 8
      case _ => 0
  }

  /** Of a o b p c the second operator takes b: it is tighter, or both are `??` or both `**`. */
  predicate SecondTakes(o: Infixed, p: Infixed) {
    Tightness(p) > Tightness(o) || (p == o && (o == Symbol(QuestionQuestion) || o == Symbol(StarStar)))
  }

  // ----- From texts to trees and back -----

  lemma TreeOf(p: Part) returns (t: Tree)
    requires Read(p)
    ensures p.text == Flatten(t) && Respects(t) && Abstract(t) == p.e
  {
    t := ParseAll(p.text).value;
    ParseAllExact(p.text, t);
  }

  lemma TreeReads(t: Tree, ts: seq<Token>)
    requires Respects(t) && ts == Flatten(t) && EOF !in ts
    ensures Reads(ts, Abstract(t))
  {
    ParseAllExact(ts, t);
  }

  /** Operands with nothing before or after them that could be taken away. */
  predicate Closed(t: Tree) {
    t.Literal? || t.Variable? || t.Group? || t.Listing? || t.Mapping? ||
    t.Dotted? || t.Indexed? || t.Sliced? || t.Called?
  }

  /** The trees of written operands. */
  predicate Tight(t: Tree) { Closed(t) || (t.Prefix? && Tight(t.operand)) }

  lemma {:induction false} TightFollows(t: Tree, tok: Token)
    requires Tight(t) && tok != Arrow && (Closed(t) || LBP(tok) <= PREC_PREFIX)
    ensures Follows(t, tok)
  {
    if t.Prefix? { TightFollows(t.operand, tok); }
  }

  lemma TightExceeds(t: Tree, p: nat)
    requires Tight(t) && p <= PREC_PREFIX
    ensures Exceeds(t, p)
  {
  }

  lemma {:induction false} LoneToken(t: Tree)
    requires |Flatten(t)| == 1
    ensures Closed(t)
  {
  }

  lemma GroupTokens(u: Tree)
    ensures Flatten(Group(u)) == [LParen] + Flatten(u) + [RParen]
  {
    EmitFlatten(u, [RParen]);
    assert [RParen] + [] == [RParen];
    assert [LParen] + Flatten(u) + [RParen] == [LParen] + (Flatten(u) + [RParen]);
  }

  lemma DottedTokens(t: Tree, n: string, opt: bool)
    ensures Flatten(Dotted(t, n, opt)) == Flatten(t) + [if opt then OptDot else Dot, Ident(n)]
  {
    var after := [if opt then OptDot else Dot] + ([Ident(n)] + []);
    assert after == [if opt then OptDot else Dot, Ident(n)];
    EmitFlatten(t, after);
  }

  lemma IndexedTokens(t: Tree, i: Tree, opt: bool)
    ensures Flatten(Indexed(t, i, opt)) ==
      Flatten(t) + ((if opt then [OptDot, LBracket] else [LBracket]) + Flatten(i) + [RBracket])
  {
    assert [RBracket] + [] == [RBracket];
    EmitFlatten(i, [RBracket]);
    var inside := [LBracket] + (Flatten(i) + [RBracket]);
    EmitFlatten(t, if opt then [OptDot] + inside else inside);
    assert (if opt then [OptDot] + inside else inside) ==
      (if opt then [OptDot, LBracket] else [LBracket]) + Flatten(i) + [RBracket];
  }

  function OptTokens(o: Option<Tree>): seq<Token> { if o.Some? then Flatten(o.value) else [] }

  lemma OptionTokens(o: Option<Tree>, rest: seq<Token>)
    ensures EmitOption(o, rest) == OptTokens(o) + rest
  {
    if o.Some? { EmitFlatten(o.value, rest); }
  }

  lemma SlicedTokens(t: Tree, lo: Option<Tree>, hi: Option<Tree>)
    ensures Flatten(Sliced(t, lo, hi)) ==
      Flatten(t) + ([LBracket] + OptTokens(lo) + [Colon] + OptTokens(hi) + [RBracket])
  {
    assert [RBracket] + [] == [RBracket];
    OptionTokens(hi, [RBracket]);
    OptionTokens(lo, [Colon] + (OptTokens(hi) + [RBracket]));
    var after := [LBracket] + (OptTokens(lo) + ([Colon] + (OptTokens(hi) + [RBracket])));
    EmitFlatten(t, after);
    assert after == [LBracket] + OptTokens(lo) + [Colon] + OptTokens(hi) + [RBracket];
  }

  lemma {:induction false} AllTokens(ts: seq<Tree>, ps: seq<Part>, rest: seq<Token>)
    requires |ts| == |ps| && forall k :: 0 <= k < |ts| ==> Flatten(ts[k]) == ps[k].text
    ensures EmitAll(ts, rest) == Commas(ps) + rest
  {
    if |ts| == 1 {
      EmitFlatten(ts[0], rest);
    } else if ts != [] {
      AllTokens(ts[1..], ps[1..], rest);
      EmitFlatten(ts[0], [Comma] + (Commas(ps[1..]) + rest));
      assert ps[0].text + ([Comma] + (Commas(ps[1..]) + rest)) == ps[0].text + [Comma] + Commas(ps[1..]) + rest;
    }
  }

  lemma CalledTokens(f: Tree, args: seq<Tree>, ps: seq<Part>)
    requires |args| == |ps| && forall k :: 0 <= k < |args| ==> Flatten(args[k]) == ps[k].text
    ensures Flatten(Called(f, args)) == Flatten(f) + ([LParen] + Commas(ps) + [RParen])
  {
    assert [RParen] + [] == [RParen];
    AllTokens(args, ps, [RParen]);
    EmitFlatten(f, [LParen] + (Commas(ps) + [RParen]));
    assert [LParen] + (Commas(ps) + [RParen]) == [LParen] + Commas(ps) + [RParen];
  }

  lemma ListingTokens(es: seq<Tree>, ps: seq<Part>)
    requires |es| == |ps| && forall k :: 0 <= k < |es| ==> Flatten(es[k]) == ps[k].text
    ensures Flatten(Listing(es)) == [LBracket] + Commas(ps) + [RBracket]
  {
    assert [RBracket] + [] == [RBracket];
    AllTokens(es, ps, [RBracket]);
    assert [LBracket] + (Commas(ps) + [RBracket]) == [LBracket] + Commas(ps) + [RBracket];
  }

  /** The trees of map entries. */
  predicate PairTrees(es: seq<TreeEntry>, ps: seq<Pair>) {
    |es| == |ps| && (es == [] || (
      && es[0].key == ps[0].key && es[0].quoted == ps[0].quoted
      && Flatten(es[0].value) == ps[0].value.text && Abstract(es[0].value) == ps[0].value.e
      && PairTrees(es[1..], ps[1..])))
  }

  lemma PairTokens(e: TreeEntry, p: Pair, rest: seq<Token>)
    requires e.key == p.key && e.quoted == p.quoted && Flatten(e.value) == p.value.text
    ensures [if e.quoted then Str(e.key) else Ident(e.key)] + ([Colon] + Emit(e.value, rest)) == PairText(p) + rest
  {
    EmitFlatten(e.value, rest);
  }

  lemma {:induction false} PairsTokens(es: seq<TreeEntry>, ps: seq<Pair>, rest: seq<Token>)
    requires PairTrees(es, ps)
    ensures EmitEntries(es, rest) == PairsText(ps) + rest
  {
    if |es| == 1 {
      PairTokens(es[0], ps[0], rest);
    } else if es != [] {
      PairsTokens(es[1..], ps[1..], rest);
      PairTokens(es[0], ps[0], [Comma] + (PairsText(ps[1..]) + rest));
      assert PairText(ps[0]) + ([Comma] + (PairsText(ps[1..]) + rest)) ==
        PairText(ps[0]) + [Comma] + PairsText(ps[1..]) + rest;
    }
  }

  lemma MappingTokens(es: seq<TreeEntry>, ps: seq<Pair>)
    requires PairTrees(es, ps)
    ensures Flatten(Mapping(es)) == [LBrace] + PairsText(ps) + [RBrace]
  {
    assert [RBrace] + [] == [RBrace];
    PairsTokens(es, ps, [RBrace]);
    assert [LBrace] + (PairsText(ps) + [RBrace]) == [LBrace] + PairsText(ps) + [RBrace];
  }

  lemma {:induction false} PairsMean(es: seq<TreeEntry>, ps: seq<Pair>)
    requires PairTrees(es, ps)
    ensures AbstractEntries(es) == Entries(ps)
  {
    if es != [] {
      PairsMean(es[1..], ps[1..]);
      assert AbstractEntries(es) == [Entry(ps[0].key, ps[0].value.e)] + AbstractEntries(es[1..]);
    }
  }

  lemma {:induction false} PairTreesOf(ps: seq<Pair>) returns (es: seq<TreeEntry>)
    requires ReadPairs(ps)
    ensures PairTrees(es, ps) && RespectEntries(es)
  {
    if ps == [] {
      es := [];
    } else {
      var t := TreeOf(ps[0].value);
      var rest := PairTreesOf(ps[1..]);
      es := [TreeEntry(ps[0].key, ps[0].quoted, t)] + rest;
      assert es[1..] == rest;
    }
  }

  lemma AbstractCons(t: Tree, rest: seq<Tree>)
    ensures AbstractAll([t] + rest) == [Abstract(t)] + AbstractAll(rest)
  {
  }

  lemma {:induction false} TreesOf(ps: seq<Part>) returns (ts: seq<Tree>)
    requires ReadAll(ps)
    ensures |ts| == |ps| && RespectAll(ts) && AbstractAll(ts) == Exprs(ps)
    ensures forall k :: 0 <= k < |ts| ==> Flatten(ts[k]) == ps[k].text
  {
    if ps == [] {
      ts := [];
    } else {
      var t := TreeOf(ps[0]);
      var rest := TreesOf(ps[1..]);
      ts := [t] + rest;
      assert ts[1..] == rest;
      AbstractCons(t, rest);
    }
  }

  lemma OptionTree(o: Option<Part>) returns (t: Option<Tree>)
    requires ReadOption(o)
    ensures OptTokens(t) == OptText(o) && AbstractOption(t) == OptExpr(o) && (t.Some? ==> Respects(t.value))
  {
    if o.Some? {
      var u := TreeOf(o.value);
      t := Some(u);
    } else {
      t := None;
    }
  }

  /** A target and its suffix, as a tree. */
  lemma SuffixTree(u: Tree, s: Suffix) returns (t: Tree)
    requires Closed(u) && Respects(u) && SuffixRead(s)
    ensures Closed(t) && Respects(t) && Flatten(t) == Flatten(u) + SuffixText(s)
    ensures Abstract(t) == SuffixMeans(s, Abstract(u))
  {
    match s
    case DotName(n, opt) =>
      t := Dotted(u, n, opt);
      DottedTokens(u, n, opt);
      TightFollows(u, if opt then OptDot else Dot);
    case AtIndex(i, opt) =>
      var it := TreeOf(i);
      t := Indexed(u, it, opt);
      IndexedTokens(u, it, opt);
      TightFollows(u, if opt then OptDot else LBracket);
    case FromTo(lo, hi) =>
      var lot := OptionTree(lo);
      var hit := OptionTree(hi);
      t := Sliced(u, lot, hit);
      SlicedTokens(u, lot, hit);
      TightFollows(u, LBracket);
    case Arguments(ps) =>
      var ts := TreesOf(ps);
      t := Called(u, ts);
      CalledTokens(u, ts, ps);
      TightFollows(u, LParen);
  }

  lemma {:induction false} WrittenTree(w: Written) returns (t: Tree)
    requires Proper(w)
    ensures Tight(t) && (!w.Signed? ==> Closed(t)) && Respects(t) && Flatten(t) == Text(w) && Abstract(t) == Meant(w)
  {
    match w
    case Single(p) =>
      t := TreeOf(p);
      LoneToken(t);
    case Bracketed(p) =>
      var u := TreeOf(p);
      t := Group(u);
      GroupTokens(u);
    case Listed(ps) =>
      var us := TreesOf(ps);
      t := Listing(us);
      ListingTokens(us, ps);
    case Mapped(ps) =>
      var es := PairTreesOf(ps);
      t := Mapping(es);
      MappingTokens(es, ps);
      PairsMean(es, ps);
    case Suffixed(target, s) =>
      var u := WrittenTree(target);
      t := SuffixTree(u, s);
    case Signed(s, o) =>
      var u := WrittenTree(o);
      t := Prefix(s, u);
      TightExceeds(u, PREC_PREFIX);
  }

  // ----- No text of a read part ends the input early -----

  lemma {:induction false} CommasOpen(ps: seq<Part>)
    requires ReadAll(ps)
    ensures EOF !in Commas(ps)
  {
    if ps != [] { CommasOpen(ps[1..]); }
  }

  lemma {:induction false} PairsOpen(ps: seq<Pair>)
    requires ReadPairs(ps)
    ensures EOF !in PairsText(ps)
  {
    if ps != [] { PairsOpen(ps[1..]); }
  }

  lemma SuffixOpen(s: Suffix)
    requires SuffixRead(s)
    ensures EOF !in SuffixText(s)
  {
    if s.Arguments? { CommasOpen(s.args); }
  }

  lemma {:induction false} TextOpen(w: Written)
    requires Proper(w)
    ensures EOF !in Text(w)
  {
    match w
    case Single(_) =>
    case Bracketed(_) =>
    case Listed(ps) => CommasOpen(ps);
    case Mapped(ps) => PairsOpen(ps);
    case Suffixed(t, s) =>
      TextOpen(t);
      SuffixOpen(s);
    case Signed(_, o) => TextOpen(o);
  }

  /** A written operand means what its suffixes and prefixes make of it, suffixes first. */
  lemma OperandReads(w: Written)
    requires Proper(w)
    ensures Reads(Text(w), Meant(w))
  {
    var t := WrittenTree(w);
    TextOpen(w);
    TreeReads(t, Text(w));
  }

  // ----- One and two infix operators -----

  /** Two trees with an infix operator between them. */
  function Join(o: Infixed, l: Tree, r: Tree): Tree {
    match o
    case Symbol(s) => Binary(s, l, r)
    case NotInWords => NotIn(l, r)
  }

  lemma JoinTokens(o: Infixed, l: Tree, r: Tree)
    ensures Flatten(Join(o, l, r)) == Flatten(l) + (Words(o) + Flatten(r))
  {
    var rest := Words(o) + Flatten(r);
    EmitFlatten(l, rest);
    match o
    case Symbol(s) =>
    case NotInWords => assert rest == [Op(NotWord)] + ([Op(InWord)] + Emit(r, []));
  }

  lemma SymbolStands(s: Sym)
    requires Tightness(Symbol(s)) > 0
    ensures InfixOf(s) == Stands(s) && IsInfixOp(s) && SymLBP(s) == Tightness(Symbol(s)) + 1
  {
  }

  /** An infix operator between two texts already read, where its operands are complete. */
  lemma JoinReads(o: Infixed, l: Tree, r: Tree, ts: seq<Token>, le: Expr, re: Expr)
    requires Tightness(o) > 0 && Respects(Join(o, l, r)) && le == Abstract(l) && re == Abstract(r)
    requires EOF !in ts && ts == Flatten(l) + (Words(o) + Flatten(r))
    ensures Reads(ts, Applied(o, le, re))
  {
    JoinTokens(o, l, r);
    TreeReads(Join(o, l, r), ts);
    if o.Symbol? { SymbolStands(o.s); }
  }

  lemma JoinMeans(o: Infixed, l: Tree, r: Tree)
    requires Tightness(o) > 0
    ensures Abstract(Join(o, l, r)) == Applied(o, Abstract(l), Abstract(r))
  {
    if o.Symbol? { SymbolStands(o.s); }
  }

  /** The token an infix operator begins with. */
  function Sign(o: Infixed): Token { Words(o)[0] }

  lemma SignPower(o: Infixed)
    requires Tightness(o) > 0
    ensures LBP(Sign(o)) == Tightness(o) + 1 && Sign(o) != Arrow && Sign(o) != Else
  {
  }

  /** The left operand is complete before the operator, and the right one exceeds its floor. */
  lemma JoinRespects(o: Infixed, l: Tree, r: Tree)
    requires Tightness(o) > 0 && Respects(l) && Respects(r) && Follows(l, Sign(o))
    requires Exceeds(r, Tightness(o) + 1)
      || ((o == Symbol(QuestionQuestion) || o == Symbol(StarStar)) && Exceeds(r, Tightness(o)))
    ensures Respects(Join(o, l, r))
  {
    if o.Symbol? { SymbolStands(o.s); }
  }

  lemma JoinTight(o: Infixed, l: Tree, r: Tree)
    requires Tightness(o) > 0 && Respects(l) && Follows(l, Sign(o)) && Tight(r) && Respects(r)
    ensures Respects(Join(o, l, r))
  {
    TightExceeds(r, Tightness(o) + 1);
    JoinRespects(o, l, r);
  }

  lemma TightJoin(o: Infixed, l: Tree, r: Tree)
    requires Tightness(o) > 0 && Tight(l) && Tight(r) && Respects(l) && Respects(r)
    ensures Respects(Join(o, l, r))
  {
    SignPower(o);
    TightFollows(l, Sign(o));
    JoinTight(o, l, r);
  }

  lemma JoinExceeds(o: Infixed, l: Tree, r: Tree, p: nat)
    requires Tightness(o) > 0 && Tightness(o) + 1 > p
    ensures Exceeds(Join(o, l, r), p)
  {
  }

  /** What is no tighter than the operator, or as tight where it nests to the left, ends its right operand. */
  lemma JoinFollows(o: Infixed, l: Tree, r: Tree, tok: Token)
    requires Tightness(o) > 0 && Tight(r) && tok != Arrow
    requires LBP(tok) < Tightness(o) + 1
      || (LBP(tok) == Tightness(o) + 1 && o != Symbol(QuestionQuestion) && o != Symbol(StarStar))
    ensures Follows(Join(o, l, r), tok)
  {
    TightFollows(r, tok);
  }

  lemma Regroup1(a: seq<Token>, o: Infixed, b: seq<Token>)
    requires EOF !in a && EOF !in b
    ensures EOF !in a + Words(o) + b
    ensures a + Words(o) + b == a + (Words(o) + b)
  {
  }

  lemma Regroup(a: seq<Token>, o: Infixed, b: seq<Token>, p: Infixed, c: seq<Token>)
    requires EOF !in a && EOF !in b && EOF !in c
    ensures EOF !in a + Words(o) + b + Words(p) + c
    ensures a + Words(o) + b + Words(p) + c == a + (Words(o) + (b + (Words(p) + c)))
    ensures a + Words(o) + b + Words(p) + c == (a + (Words(o) + b)) + (Words(p) + c)
  {
  }

  lemma SignAfter(o: Infixed, p: Infixed, a: Tree, b: Tree)
    requires Tightness(o) > 0 && Tightness(p) > 0 && !SecondTakes(o, p) && Tight(b)
    ensures Follows(Join(o, a, b), Sign(p))
  {
    SignPower(p);
    JoinFollows(o, a, b, Sign(p));
  }

  lemma RightRespects(o: Infixed, p: Infixed, a: Tree, b: Tree, c: Tree)
    requires Tightness(o) > 0 && Tightness(p) > 0 && SecondTakes(o, p) && Tight(a) && Tight(b) && Tight(c)
    requires Respects(a) && Respects(b) && Respects(c)
    ensures Respects(Join(o, a, Join(p, b, c)))
  {
    TightJoin(p, b, c);
    SignPower(o);
    TightFollows(a, Sign(o));
    JoinExceeds(p, b, c, if Tightness(p) > Tightness(o) then Tightness(o) + 1 else Tightness(o));
    JoinRespects(o, a, Join(p, b, c));
  }

  lemma LeftRespects(o: Infixed, p: Infixed, a: Tree, b: Tree, c: Tree)
    requires Tightness(o) > 0 && Tightness(p) > 0 && !SecondTakes(o, p) && Tight(a) && Tight(b) && Tight(c)
    requires Respects(a) && Respects(b) && Respects(c)
    ensures Respects(Join(p, Join(o, a, b), c))
  {
    TightJoin(o, a, b);
    SignAfter(o, p, a, b);
    JoinTight(p, Join(o, a, b), c);
  }

  /** The second operator's application is the first one's right operand. */
  lemma RightReads(o: Infixed, p: Infixed, a: Tree, b: Tree, c: Tree, ts: seq<Token>)
    requires Tightness(o) > 0 && Tightness(p) > 0 && Respects(Join(o, a, Join(p, b, c)))
    requires EOF !in ts && ts == Flatten(a) + (Words(o) + (Flatten(b) + (Words(p) + Flatten(c))))
    ensures Reads(ts, Applied(o, Abstract(a), Applied(p, Abstract(b), Abstract(c))))
  {
    JoinTokens(p, b, c);
    JoinMeans(p, b, c);
    JoinReads(o, a, Join(p, b, c), ts, Abstract(a), Applied(p, Abstract(b), Abstract(c)));
  }

  /** The first operator's application is the second one's left operand. */
  lemma LeftReads(o: Infixed, p: Infixed, a: Tree, b: Tree, c: Tree, ts: seq<Token>)
    requires Tightness(o) > 0 && Tightness(p) > 0 && Respects(Join(p, Join(o, a, b), c))
    requires EOF !in ts && ts == (Flatten(a) + (Words(o) + Flatten(b))) + (Words(p) + Flatten(c))
    ensures Reads(ts, Applied(p, Applied(o, Abstract(a), Abstract(b)), Abstract(c)))
  {
    JoinTokens(o, a, b);
    JoinMeans(o, a, b);
    JoinReads(p, Join(o, a, b), c, ts, Applied(o, Abstract(a), Abstract(b)), Abstract(c));
  }

  /** An infix operator between two operands applies to them. */
  lemma OneOperator(o: Infixed, a: Written, b: Written)
    requires Tightness(o) > 0 && Proper(a) && Proper(b)
    ensures Reads(Text(a) + Words(o) + Text(b), Applied(o, Meant(a), Meant(b)))
  {
    var ta := WrittenTree(a);
    var tb := WrittenTree(b);
    TextOpen(a);
    TextOpen(b);
    TightJoin(o, ta, tb);
    Regroup1(Text(a), o, Text(b));
    JoinReads(o, ta, tb, Text(a) + Words(o) + Text(b), Meant(a), Meant(b));
  }

  /** a o b p c, for any two infix operators: the operand between them belongs to the tighter one;
      of two equally tight ones to the first, except that a chain of `??` or of `**` nests to the right. */
  lemma TwoOperators(o: Infixed, p: Infixed, a: Written, b: Written, c: Written)
    requires Tightness(o) > 0 && Tightness(p) > 0 && Proper(a) && Proper(b) && Proper(c)
    ensures Reads(Text(a) + Words(o) + Text(b) + Words(p) + Text(c),
      if SecondTakes(o, p) then Applied(o, Meant(a), Applied(p, Meant(b), Meant(c)))
      else Applied(p, Applied(o, Meant(a), Meant(b)), Meant(c)))
  {
    var ta := WrittenTree(a);
    var tb := WrittenTree(b);
    var tc := WrittenTree(c);
    TextOpen(a);
    TextOpen(b);
    TextOpen(c);
    var ts := Text(a) + Words(o) + Text(b) + Words(p) + Text(c);
    Regroup(Text(a), o, Text(b), p, Text(c));
    if SecondTakes(o, p) {
      RightRespects(o, p, ta, tb, tc);
      RightReads(o, p, ta, tb, tc, ts);
    } else {
      LeftRespects(o, p, ta, tb, tc);
      LeftReads(o, p, ta, tb, tc, ts);
    }
  }

  // ----- Constructs of more than one operand -----

  lemma ThreeParts(a: seq<Token>, b: seq<Token>, c: seq<Token>, p: Token, q: Token)
    requires EOF !in a && EOF !in b && EOF !in c && p != EOF && q != EOF
    ensures EOF !in a + [p] + b + [q] + c
    ensures a + [p] + b + [q] + c == a + ([p] + (b + ([q] + c)))
  {
  }

  lemma TernaryTokens(c: Tree, y: Tree, n: Tree)
    ensures Flatten(Ternary(c, y, n)) == Flatten(c) + ([Question] + (Flatten(y) + ([Colon] + Flatten(n))))
  {
    EmitFlatten(y, [Colon] + Flatten(n));
    EmitFlatten(c, [Question] + (Flatten(y) + ([Colon] + Flatten(n))));
  }

  lemma TernaryReads(c: Tree, ct: seq<Token>, ce: Expr, y: Part, n: Part)
    requires Respects(c) && Flatten(c) == ct && Abstract(c) == ce && EOF !in ct && Follows(c, Question)
    requires Read(y) && Read(n)
    ensures Reads(ct + [Question] + y.text + [Colon] + n.text, Conditional(ce, y.e, Some(n.e)))
  {
    var ty := TreeOf(y);
    var tn := TreeOf(n);
    AnyExceedsLowest(tn);
    TernaryTokens(c, ty, tn);
    ThreeParts(ct, y.text, n.text, Question, Colon);
    TreeReads(Ternary(c, ty, tn), ct + [Question] + y.text + [Colon] + n.text);
  }

  /** `c ? y : n` with anything at all between its signs and after them: operators bind tighter than
      the conditional, and a conditional after the colon nests to the right. */
  lemma ConditionalReads(c: Written, y: Part, n: Part)
    requires Proper(c) && Read(y) && Read(n)
    ensures Reads(Text(c) + [Question] + y.text + [Colon] + n.text, Conditional(Meant(c), y.e, Some(n.e)))
  {
    var t := WrittenTree(c);
    TextOpen(c);
    TightFollows(t, Question);
    TernaryReads(t, Text(c), Meant(c), y, n);
  }

  lemma JoinCondition(o: Infixed, a: Tree, b: Tree, ct: seq<Token>, y: Part, n: Part)
    requires Tightness(o) > 0 && Tight(b) && Respects(Join(o, a, b)) && Read(y) && Read(n)
    requires EOF !in ct && ct == Flatten(a) + (Words(o) + Flatten(b))
    ensures Reads(ct + [Question] + y.text + [Colon] + n.text,
      Conditional(Applied(o, Abstract(a), Abstract(b)), y.e, Some(n.e)))
  {
    JoinFollows(o, a, b, Question);
    JoinTokens(o, a, b);
    JoinMeans(o, a, b);
    TernaryReads(Join(o, a, b), ct, Applied(o, Abstract(a), Abstract(b)), y, n);
  }

  /** An infix operator before the question mark belongs to the condition. */
  lemma OperatorCondition(o: Infixed, a: Written, b: Written, y: Part, n: Part)
    requires Tightness(o) > 0 && Proper(a) && Proper(b) && Read(y) && Read(n)
    ensures Reads(Text(a) + Words(o) + Text(b) + [Question] + y.text + [Colon] + n.text,
      Conditional(Applied(o, Meant(a), Meant(b)), y.e, Some(n.e)))
  {
    var ta := WrittenTree(a);
    var tb := WrittenTree(b);
    TextOpen(a);
    TextOpen(b);
    TightJoin(o, ta, tb);
    Regroup1(Text(a), o, Text(b));
    JoinCondition(o, ta, tb, Text(a) + Words(o) + Text(b), y, n);
  }

  lemma Arrow1Tokens(x: string, b: Tree)
    ensures Flatten(Arrow1(x, b)) == [Ident(x), Arrow] + Flatten(b)
  {
  }

  /** `x => body`: the body extends to the end of what follows. */
  lemma LambdaReads(x: string, body: Part)
    requires Read(body)
    ensures Reads([Ident(x), Arrow] + body.text, Lambda([x], body.e))
  {
    var b := TreeOf(body);
    Arrow1Tokens(x, b);
    TreeReads(Arrow1(x, b), [Ident(x), Arrow] + body.text);
  }

  /** Names separated by commas. */
  function Names(ps: seq<string>): seq<Token> {
    if ps == [] then []
    else if |ps| == 1 then [Ident(ps[0])]
    else [Ident(ps[0]), Comma] + Names(ps[1..])
  }

  lemma {:induction false} ParamTokens(ps: seq<string>, rest: seq<Token>)
    ensures EmitParams(ps, rest) == Names(ps) + rest && EOF !in Names(ps)
  {
    if |ps| > 1 { ParamTokens(ps[1..], rest); }
  }

  lemma ArrowNTokens(ps: seq<string>, b: Tree)
    ensures Flatten(ArrowN(ps, b)) == [LParen] + Names(ps) + [RParen, Arrow] + Flatten(b) && EOF !in Names(ps)
  {
    var after := [RParen] + ([Arrow] + Flatten(b));
    ParamTokens(ps, after);
    assert [LParen] + (Names(ps) + after) == [LParen] + Names(ps) + [RParen, Arrow] + Flatten(b);
  }

  /** `(x, y) => body`, with any number of parameters. */
  lemma LambdaParamsReads(ps: seq<string>, body: Part)
    requires Read(body)
    ensures Reads([LParen] + Names(ps) + [RParen, Arrow] + body.text, Lambda(ps, body.e))
  {
    var b := TreeOf(body);
    ArrowNTokens(ps, b);
    TreeReads(ArrowN(ps, b), [LParen] + Names(ps) + [RParen, Arrow] + body.text);
  }

  lemma LetTokens(x: string, v: Tree, b: Tree)
    ensures Flatten(LetIn(x, v, b)) == [LetWord, Ident(x), Op(Assign)] + Flatten(v) + [Semicolon] + Flatten(b)
  {
    var after := [Semicolon] + Flatten(b);
    EmitFlatten(v, after);
    assert [LetWord] + ([Ident(x)] + ([Op(Assign)] + (Flatten(v) + after))) ==
      [LetWord, Ident(x), Op(Assign)] + Flatten(v) + [Semicolon] + Flatten(b);
  }

  /** `let x = value; body` */
  lemma LetReads(x: string, v: Part, body: Part)
    requires Read(v) && Read(body)
    ensures Reads([LetWord, Ident(x), Op(Assign)] + v.text + [Semicolon] + body.text, Let(x, v.e, body.e))
  {
    var tv := TreeOf(v);
    var b := TreeOf(body);
    LetTokens(x, tv, b);
    TreeReads(LetIn(x, tv, b), [LetWord, Ident(x), Op(Assign)] + v.text + [Semicolon] + body.text);
  }

  /** An opening brace ends whatever stands before it. */
  lemma {:induction false} BraceFollows(t: Tree)
    ensures Follows(t, LBrace)
    decreases t
  {
    match t
    case Prefix(_, a) => BraceFollows(a);
    case Binary(_, _, r) => BraceFollows(r);
    case NotIn(_, r) => BraceFollows(r);
    case Ternary(_, _, n) => BraceFollows(n);
    case Arrow1(_, b) => BraceFollows(b);
    case ArrowN(_, b) => BraceFollows(b);
    case LetIn(_, _, b) => BraceFollows(b);
    case IfElse(_, y, n) => if n.Some? { BraceFollows(n.value.tree); } else { BraceFollows(y.tree); }
    case _ =>
  }

  lemma BlockTokens(y: Tree, rest: seq<Token>)
    ensures EmitBranch(Block(y), rest) == [LBrace] + Flatten(y) + [RBrace] + rest
  {
    EmitFlatten(y, [RBrace] + rest);
    assert [LBrace] + (Flatten(y) + ([RBrace] + rest)) == [LBrace] + Flatten(y) + [RBrace] + rest;
  }

  lemma IfTokens(c: Tree, y: Tree)
    ensures Flatten(IfElse(c, Block(y), None)) == [If] + Flatten(c) + [LBrace] + Flatten(y) + [RBrace]
  {
    BlockTokens(y, []);
    var branch := EmitBranch(Block(y), []);
    assert branch == [LBrace] + Flatten(y) + [RBrace];
    EmitFlatten(c, branch);
    assert Flatten(IfElse(c, Block(y), None)) == [If] + (Flatten(c) + branch);
    assert [If] + (Flatten(c) + branch) == [If] + Flatten(c) + [LBrace] + Flatten(y) + [RBrace];
  }

  /** `if c { y }` has no else. */
  lemma IfReads(c: Part, y: Part)
    requires Read(c) && Read(y)
    ensures Reads([If] + c.text + [LBrace] + y.text + [RBrace], Conditional(c.e, y.e, None))
  {
    var tc := TreeOf(c);
    var ty := TreeOf(y);
    BraceFollows(tc);
    IfTokens(tc, ty);
    TreeReads(IfElse(tc, Block(ty), None), [If] + c.text + [LBrace] + y.text + [RBrace]);
  }

  lemma IfElseTokens(c: Tree, y: Tree, n: BranchTree, nt: seq<Token>)
    requires nt == EmitBranch(n, [])
    ensures Flatten(IfElse(c, Block(y), Some(n))) == [If] + Flatten(c) + [LBrace] + Flatten(y) + [RBrace, Else] + nt
  {
    var branch := EmitBranch(Block(y), [Else] + nt);
    BlockTokens(y, [Else] + nt);
    EmitFlatten(c, branch);
    assert Flatten(IfElse(c, Block(y), Some(n))) == [If] + (Flatten(c) + branch);
    BlockJoin([If], Flatten(c), Flatten(y), nt);
  }

  lemma BlockJoin(word: seq<Token>, c: seq<Token>, y: seq<Token>, nt: seq<Token>)
    ensures word + (c + ([LBrace] + y + [RBrace] + ([Else] + nt))) == word + c + [LBrace] + y + [RBrace, Else] + nt
  {
  }

  /** `if c { y } else { n }` */
  lemma IfElseReads(c: Part, y: Part, n: Part)
    requires Read(c) && Read(y) && Read(n)
    ensures Reads([If] + c.text + [LBrace] + y.text + [RBrace, Else] + ([LBrace] + n.text + [RBrace]),
      Conditional(c.e, y.e, Some(n.e)))
  {
    var tc := TreeOf(c);
    var ty := TreeOf(y);
    var tn := TreeOf(n);
    BraceFollows(tc);
    BlockTokens(tn, []);
    assert [LBrace] + n.text + [RBrace] + [] == [LBrace] + n.text + [RBrace];
    IfElseTokens(tc, ty, Block(tn), [LBrace] + n.text + [RBrace]);
    TreeReads(IfElse(tc, Block(ty), Some(Block(tn))),
      [If] + c.text + [LBrace] + y.text + [RBrace, Else] + ([LBrace] + n.text + [RBrace]));
  }

  /** `if c { y } else n`, where n does not begin with a brace: a chain of `else if`, for example. */
  lemma ElseReads(c: Part, y: Part, n: Part)
    requires Read(c) && Read(y) && Read(n) && n.text[0] != LBrace
    ensures Reads([If] + c.text + [LBrace] + y.text + [RBrace, Else] + n.text, Conditional(c.e, y.e, Some(n.e)))
  {
    var tc := TreeOf(c);
    var ty := TreeOf(y);
    var tn := TreeOf(n);
    BraceFollows(tc);
    EmitFirst(tn, []);
    IfElseTokens(tc, ty, BranchTree.Single(tn), n.text);
    TreeReads(IfElse(tc, Block(ty), Some(BranchTree.Single(tn))),
      [If] + c.text + [LBrace] + y.text + [RBrace, Else] + n.text);
  }

  /** What one token is read as. */
  lemma TokenReads(n: Numeral, b: bool)
    ensures Reads([Number(n)], Const(n)) && Reads([Token.Bool(b)], Const(CBool(b))) && Reads([Token.Nil], Const(CNil))
  {
    TreeReads(Literal(n), [Number(n)]);
    TreeReads(Literal(CBool(b)), [Token.Bool(b)]);
    TreeReads(Literal(CNil), [Token.Nil]);
  }

  lemma WordReads(s: string)
    ensures Reads([Str(s)], Const(CStr(s))) && Reads([Token.Regex(s)], Const(CRegex(s))) && Reads([Ident(s)], Var(s))
  {
    TreeReads(Literal(CStr(s)), [Str(s)]);
    TreeReads(Literal(CRegex(s)), [Token.Regex(s)]);
    TreeReads(Variable(s), [Ident(s)]);
  }
}
