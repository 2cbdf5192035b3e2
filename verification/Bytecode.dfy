// The instruction set and the two scans over compiled code.

module Bytecode {
  import opened Values

  datatype Instr =
    | Push(c: Const)
    | Load(name: string)
    | LoadLocal(depth: nat, slot: nat)
    | Do(op: Operator)
    | MakeClosure(proto: Proto)
    | Let(name: string, body: seq<Instr>)
    | Coalesce(left: seq<Instr>, jumpEnd: nat)
    | JumpIfFalse(target: nat)
    | Jump(target: nat)
    | Call(argCount: nat)

  /** The compiled form of a lambda. */
  datatype Proto = Proto(params: seq<string>, code: seq<Instr>, noEscape: bool)

  /** A lambda literal occurs in code itself, in a let body or left of `??`. */
  predicate ContainsClosureLiteral(code: seq<Instr>) {
    code != [] && (HoldsClosureLiteral(code[0]) || ContainsClosureLiteral(code[1..]))
  }

  predicate HoldsClosureLiteral(i: Instr) {
    match i
    case MakeClosure(_) => true
    case Let(_, body) => ContainsClosureLiteral(body)
    case Coalesce(left, _) => ContainsClosureLiteral(left)
    case _ => false
  }

  /** Every name code can look up in its environment when it runs. */
  function LoadedNames(code: seq<Instr>): set<string> {
    if code == [] then {} else NamesIn(code[0]) + LoadedNames(code[1..])
  }

  function NamesIn(i: Instr): set<string> {
    match i
    case Load(n) => {n}
    case MakeClosure(p) => LoadedNames(p.code)
    case Let(_, body) => LoadedNames(body)
    case Coalesce(left, _) => LoadedNames(left)
    case _ => {}
  }

  lemma {:induction false} ContainsConcat(a: seq<Instr>, b: seq<Instr>)
    ensures ContainsClosureLiteral(a + b) == (ContainsClosureLiteral(a) || ContainsClosureLiteral(b))
  {
    if a == [] {
      assert a + b == b;
    } else {
      ContainsConcat(a[1..], b);
      assert (a + b)[1..] == a[1..] + b;
    }
  }

  lemma ContainsLast(a: seq<Instr>, i: Instr)
    ensures ContainsClosureLiteral(a + [i]) == (ContainsClosureLiteral(a) || HoldsClosureLiteral(i))
  {
    ContainsConcat(a, [i]);
    assert [i][1..] == [];
  }

  lemma {:induction false} NamesAt(code: seq<Instr>, pc: nat)
    requires pc < |code|
    ensures NamesIn(code[pc]) <= LoadedNames(code)
  {
    if pc > 0 { NamesAt(code[1..], pc - 1); }
  }
}
