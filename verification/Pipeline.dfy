// From source text, already split into tokens, to a result.

module Pipeline {
  import opened Values
  import opened Mapping
  import opened Syntax
  import opened Grammar
  import opened Parsing
  import opened Semantics
  import opened Compiled
  import Bytecode
  import CompilerSpec
  import Compiler
  import Fold
  import Machine
  import Parser
  import Pump

  datatype CompileResult =
    | Program(code: seq<Bytecode.Instr>)
    | SyntaxError
    | Rejected(problem: CompilerSpec.CompileError)

  /** Compile: parse, fold, emit. */
  method Compile(fo: FloatOps, valid: string -> bool, tokens: seq<Token>) returns (r: CompileResult)
    requires EOF !in tokens
    ensures match ParseAll(tokens)
            case None => r == SyntaxError
            case Some(t) =>
              var e := Fold.FoldConstants(fo, Abstract(t));
              r == if CompilerSpec.Problem(valid, e).Some? then Rejected(CompilerSpec.Problem(valid, e).value)
                   else Program(CompilerSpec.Code(e, [], 0))
  {
    var ast := Parser.ParseInput(tokens);
    if ast.None? { return SyntaxError; }
    var folded := Fold.FoldConstants(fo, ast.value);
    var c := new Compiler.Compiler(valid, []);
    c.Compile(folded);
    if c.err.Some? { return Rejected(c.err.value); }
    assert c.instructions == [] + CompilerSpec.Code(folded, [], 0);
    return Program(c.instructions);
  }

  /** A source text compiled and run gives exactly what its syntax tree means, folding, addresses,
      jumps, frames and shortcuts notwithstanding, and leaves the machine as it was. hs, hk and the
      machine's host are one host at three kinds of closure code. */
  method CompileAndRun(mc: Pump.Vm, valid: string -> bool, tokens: seq<Token>, sc: Scopes<Bytecode.Proto>,
      ghost hs: Host<Lam>, ghost hk: Host<Lam>, ghost source: Scopes<Lam>)
    returns (r: Option<Outcome<Machine.V>>)
    requires EOF !in tokens && Natural(Fold.K(hs.float), hs, hk) && Natural(T(), hk, mc.host)
    requires sc == TScopes(Fold.KScopes(hs.float, source))
    requires ParseAll(tokens).Some? ==> Fold.Settled(hs.float, Abstract(ParseAll(tokens).value))
    modifies mc`frames, mc`stack
    ensures r.Some? <==> ParseAll(tokens).Some? && CompilerSpec.Problem(valid, Abstract(ParseAll(tokens).value)).None?
    ensures r.Some? ==>
      r.value == MapOutcome(T(), MapOutcome(Fold.K(hs.float),
        Eval(hs, mc.limit, Abstract(ParseAll(tokens).value), source, Root, |old(mc.frames)|)))
    ensures mc.stack == old(mc.stack) && mc.frames == old(mc.frames)
  {
    var compiled := Compile(mc.host.float, valid, tokens);
    if ParseAll(tokens).Some? { Fold.FoldKeepsProblems(hs.float, valid, Abstract(ParseAll(tokens).value)); }
    if !compiled.Program? { return None; }
    ghost var e := Abstract(ParseAll(tokens).value);
    Fold.FoldingPreservesMeaning(hs, hk, mc.limit, e, source, Root, |mc.frames|);
    var o := mc.RunScopes(compiled.code, sc, hk, Fold.FoldConstants(hs.float, e), Fold.KScopes(hs.float, source));
    return Some(o);
  }
}
