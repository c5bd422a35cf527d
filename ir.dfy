/** An abstract view of the LLVM IR that llvmlite's builder produces for this
    program: one function with one block of `i32` arithmetic instructions and a
    final `ret`, together with the meaning of running that block. */
module Ir {
  import opened Wrappers
  import Int32

  datatype Opcode = Add | Sub | Mul | SDiv

  /** The instruction's name in LLVM IR. */
  function Mnemonic(o: Opcode): string {
    match o
    case Add => "add"
    case Sub => "sub"
    case Mul => "mul"
    case SDiv => "sdiv"
  }

  /** An operand: `ir.Constant(ir.IntType(32), n)`, which is not an
      instruction, or the value an earlier instruction defined. */
  datatype Value = Const(n: Int32.I32) | Reg(id: nat)

  /** `dst = opcode i32 lhs, rhs`, or `ret i32 v`. */
  datatype Instr =
    | Arith(opcode: Opcode, dst: nat, lhs: Value, rhs: Value)
    | Ret(v: Value)

  datatype IntType = IntType(bits: nat)
  datatype Signature = Signature(name: string, result: IntType, params: seq<IntType>)
  datatype Block = Block(name: string, instrs: seq<Instr>)
  datatype Function = Function(sig: Signature, blocks: seq<Block>)
  datatype Module = Module(name: string, functions: seq<Function>)

  /** The `i32` meaning of an instruction; None where `sdiv` is undefined. */
  function Apply(o: Opcode, a: Int32.I32, b: Int32.I32): (r: Option<Int32.I32>)
    ensures r.None? <==> o == SDiv && !Int32.DivDefined(a, b)
  {
    match o
    case Add => Some(Int32.Add(a, b))
    case Sub => Some(Int32.Sub(a, b))
    case Mul => Some(Int32.Mul(a, b))
    case SDiv => Int32.Div(a, b)
  }

  /** A run of the block: the values defined so far, or the value returned,
      or a run whose behaviour LLVM leaves undefined. */
  datatype Machine =
    | Running(regs: map<nat, Int32.I32>)
    | Returned(result: Int32.I32)
    | Undefined

  function Operand(regs: map<nat, Int32.I32>, v: Value): Option<Int32.I32> {
    match v
    case Const(n) => Some(n)
    case Reg(id) => if id in regs then Some(regs[id]) else None
  }

  function Step(m: Machine, ins: Instr): Machine {
    match m
    case Running(regs) =>
      (match ins
       case Arith(o, dst, lhs, rhs) =>
         (match (Operand(regs, lhs), Operand(regs, rhs))
          case (Some(a), Some(b)) =>
            (match Apply(o, a, b)
             case Some(v) => Running(regs[dst := v])
             case None => Undefined)
          case _ => Undefined)
       case Ret(v) =>
         (match Operand(regs, v)
          case Some(a) => Returned(a)
          case None => Undefined))
    case _ => m
  }

  function Exec(m: Machine, code: seq<Instr>): Machine
    decreases |code|
  {
    if code == [] then m else Exec(Step(m, code[0]), code[1..])
  }

  /** Calling `main` whose entry block is `code`: the value it returns, or
      None when the run is undefined or never reaches a `ret`. */
  function Execute(code: seq<Instr>): Option<Int32.I32> {
    match Exec(Running(map[]), code)
    case Returned(v) => Some(v)
    case _ => None
  }

  /** Running two pieces of code one after the other is running their
      concatenation. */
  lemma {:induction false} ExecAppend(m: Machine, a: seq<Instr>, b: seq<Instr>)
    ensures Exec(m, a + b) == Exec(Exec(m, a), b)
    decreases |a|
  {
    if a == [] {
      assert a + b == b;
    } else {
      assert (a + b)[0] == a[0] && (a + b)[1..] == a[1..] + b;
      ExecAppend(Step(m, a[0]), a[1..], b);
    }
  }

  /** A run that returned or became undefined stays so. */
  lemma {:induction false} ExecStopped(m: Machine, code: seq<Instr>)
    requires !m.Running?
    ensures Exec(m, code) == m
    decreases |code|
  {
    if code != [] {
      ExecStopped(Step(m, code[0]), code[1..]);
    }
  }
}
