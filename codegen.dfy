/** The code generator `LLVMCodeGen`: a post-order walk of the tree that
    appends one `i32` instruction per operator node to the entry block of
    `main`, followed by a `ret` of the root's value. The llvmlite builder is
    replaced by an instruction log. */
module CodeGen {
  import opened Wrappers
  import opened Ast
  import opened Ir
  import Int32

  /** `ValueError("Unsupported operation")`, raised while generating; or the
      name clash llvmlite reports when a module gets a second `main`. */
  datatype GenError = UnsupportedOperation(op: string) | DuplicatedName(name: string)

  /** The instruction an operator name selects: add, sub and mul keep their
      name, div becomes sdiv, and nothing else has one. */
  function OpcodeOf(op: string): Option<Opcode> {
    if op == "add" then Some(Opcode.Add)
    else if op == "sub" then Some(Opcode.Sub)
    else if op == "mul" then Some(Opcode.Mul)
    else if op == "div" then Some(SDiv)
    else None
  }

  /** The operator name that selects an instruction. */
  function OperatorName(o: Opcode): string {
    match o
    case Add => "add"
    case Sub => "sub"
    case Mul => "mul"
    case SDiv => "div"
  }

  /** Exactly the four known names select an instruction, each the one it
      names back, and its mnemonic is the name itself except that `div`
      becomes `sdiv`. */
  lemma OpcodeOfKnown(op: string)
    ensures OpcodeOf(op).Some? <==> IsKnownOperator(op)
    ensures OpcodeOf(op).Some? ==> OperatorName(OpcodeOf(op).value) == op
    ensures OpcodeOf(op).Some? ==> Mnemonic(OpcodeOf(op).value) == (if op == "div" then "sdiv" else op)
  {
  }

  /** Every instruction is selected by its operator name. */
  lemma OperatorNameSelects(o: Opcode)
    ensures OpcodeOf(OperatorName(o)) == Some(o)
  {
  }

  /** What a walk appends to the block, and the value it yields or the error
      it raises (after appending what came before the error). */
  datatype Emitted = Emitted(instrs: seq<Instr>, result: Result<Value, GenError>)

  /** The walk `codegen(node)` over a block that already holds `next`
      instructions: a number yields its constant and appends nothing. */
  function Gen(e: Expr, next: nat): Emitted
    requires LiteralsFit(e)
    decreases e, 1
  {
    match e
    case Number(v) => Emitted([], Ok(Const(v)))
    case BinOp(l, r, op) => GenNode(l, r, op, next)
  }

  /** The walk on an operator node: left subtree, right subtree, then this
      node's instruction, whose value gets the next free id. */
  function GenNode(l: Expr, r: Expr, op: string, next: nat): Emitted
    requires LiteralsFit(l) && LiteralsFit(r)
    decreases BinOp(l, r, op), 0
  {
    var el := Gen(l, next);
    if el.result.Err? then el
    else
      var er := Gen(r, next + |el.instrs|);
      var body := el.instrs + er.instrs;
      if er.result.Err? then Emitted(body, er.result)
      else
        match OpcodeOf(op)
        case None => Emitted(body, Err(UnsupportedOperation(op)))
        case Some(o) =>
          var dst := next + |body|;
          Emitted(body + [Arith(o, dst, el.result.value, er.result.value)], Ok(Reg(dst)))
  }

  // The four outcomes of `GenNode`, one lemma each, so that a proof calls
  // only the one its case needs.

  lemma LeftFails(l: Expr, r: Expr, op: string, next: nat)
    requires LiteralsFit(l) && LiteralsFit(r) && Gen(l, next).result.Err?
    ensures GenNode(l, r, op, next) == Gen(l, next)
  {
  }

  lemma RightFails(l: Expr, r: Expr, op: string, next: nat)
    requires LiteralsFit(l) && LiteralsFit(r) && Gen(l, next).result.Ok?
    requires Gen(r, next + |Gen(l, next).instrs|).result.Err?
    ensures var el := Gen(l, next); var er := Gen(r, next + |el.instrs|);
      GenNode(l, r, op, next) == Emitted(el.instrs + er.instrs, er.result)
  {
  }

  lemma OperatorUnknown(l: Expr, r: Expr, op: string, next: nat)
    requires LiteralsFit(l) && LiteralsFit(r) && Gen(l, next).result.Ok?
    requires Gen(r, next + |Gen(l, next).instrs|).result.Ok? && OpcodeOf(op).None?
    ensures var el := Gen(l, next); var er := Gen(r, next + |el.instrs|);
      GenNode(l, r, op, next) == Emitted(el.instrs + er.instrs, Err(UnsupportedOperation(op)))
  {
  }

  lemma NodeEmits(l: Expr, r: Expr, op: string, next: nat)
    requires LiteralsFit(l) && LiteralsFit(r) && Gen(l, next).result.Ok?
    requires Gen(r, next + |Gen(l, next).instrs|).result.Ok? && OpcodeOf(op).Some?
    ensures var el := Gen(l, next); var er := Gen(r, next + |el.instrs|);
      var dst := next + |el.instrs| + |er.instrs|;
      GenNode(l, r, op, next)
        == Emitted(el.instrs + er.instrs + [Arith(OpcodeOf(op).value, dst, el.result.value, er.result.value)], Ok(Reg(dst)))
  {
  }

  lemma NodeSucceeded(l: Expr, r: Expr, op: string, next: nat)
    requires LiteralsFit(l) && LiteralsFit(r) && GenNode(l, r, op, next).result.Ok?
    ensures Gen(l, next).result.Ok? && Gen(r, next + |Gen(l, next).instrs|).result.Ok? && OpcodeOf(op).Some?
    ensures var el := Gen(l, next); var er := Gen(r, next + |el.instrs|);
      var dst := next + |el.instrs| + |er.instrs|;
      GenNode(l, r, op, next)
        == Emitted(el.instrs + er.instrs + [Arith(OpcodeOf(op).value, dst, el.result.value, er.result.value)], Ok(Reg(dst)))
  {
  }

  lemma AppendAssoc<T>(a: seq<T>, b: seq<T>, c: seq<T>)
    ensures a + b + c == a + (b + c)
  {
  }

  /** At most one instruction per operator node, exactly one when the walk
      succeeds. */
  lemma {:induction false} GenCount(e: Expr, next: nat)
    requires LiteralsFit(e)
    ensures |Gen(e, next).instrs| <= |PostOrderOps(e)|
    ensures Gen(e, next).result.Ok? ==> |Gen(e, next).instrs| == |PostOrderOps(e)|
    decreases e
  {
    match e
    case Number(_) =>
    case BinOp(l, r, op) =>
      GenCount(l, next);
      var el := Gen(l, next);
      if el.result.Err? {
        LeftFails(l, r, op, next);
      } else {
        GenCount(r, next + |el.instrs|);
        var er := Gen(r, next + |el.instrs|);
        if er.result.Err? {
          RightFails(l, r, op, next);
        } else if OpcodeOf(op).None? {
          OperatorUnknown(l, r, op, next);
        } else {
          NodeEmits(l, r, op, next);
        }
      }
  }

  /** A number yields its constant; an operator node yields the id of its own
      instruction, the last one appended. */
  lemma GenValue(e: Expr, next: nat)
    requires LiteralsFit(e) && Gen(e, next).result.Ok?
    ensures e.Number? ==> Gen(e, next).result.value == Const(e.value)
    ensures e.BinOp? ==>
      |Gen(e, next).instrs| > 0 && Gen(e, next).result.value == Reg(next + |Gen(e, next).instrs| - 1)
  {
    if e.BinOp? {
      NodeSucceeded(e.left, e.right, e.op, next);
    }
  }

  /** Instruction `i` is the one for operator name `ops[i]` and defines id
      `next + i`. */
  predicate WellNumbered(instrs: seq<Instr>, ops: seq<string>, next: nat) {
    && |instrs| <= |ops|
    && forall i :: 0 <= i < |instrs| ==>
         && instrs[i].Arith?
         && instrs[i].dst == next + i
         && OperatorName(instrs[i].opcode) == ops[i]
  }

  lemma WellNumberedConcat(a: seq<Instr>, opsA: seq<string>, b: seq<Instr>, opsB: seq<string>, tail: seq<string>, next: nat)
    requires WellNumbered(a, opsA, next) && |a| == |opsA|
    requires WellNumbered(b, opsB, next + |a|)
    ensures WellNumbered(a + b, opsA + opsB + tail, next)
  {
    var ops := opsA + opsB + tail;
    forall i | 0 <= i < |a + b|
      ensures (a + b)[i].Arith? && (a + b)[i].dst == next + i && OperatorName((a + b)[i].opcode) == ops[i]
    {
      if i < |a| {
        assert (a + b)[i] == a[i] && ops[i] == opsA[i];
      } else {
        assert (a + b)[i] == b[i - |a|] && ops[i] == opsB[i - |a|];
      }
    }
  }

  lemma WellNumberedPrefix(a: seq<Instr>, ops: seq<string>, extra: seq<string>, next: nat)
    requires WellNumbered(a, ops, next)
    ensures WellNumbered(a, ops + extra, next)
  {
    assert forall i :: 0 <= i < |ops| ==> (ops + extra)[i] == ops[i];
  }

  lemma WellNumberedSnoc(a: seq<Instr>, ins: Instr, ops: seq<string>, next: nat)
    requires WellNumbered(a, ops, next) && |a| < |ops|
    requires ins.Arith? && ins.dst == next + |a| && OperatorName(ins.opcode) == ops[|a|]
    ensures WellNumbered(a + [ins], ops, next)
  {
    assert forall i :: 0 <= i < |a| ==> (a + [ins])[i] == a[i];
  }

  /** The instructions of a walk follow the operator nodes in post-order (so
      the left subtree's come before the right's), one each, and each defines
      the next free id. */
  lemma {:induction false} GenInstrs(e: Expr, next: nat)
    requires LiteralsFit(e)
    ensures WellNumbered(Gen(e, next).instrs, PostOrderOps(e), next)
    decreases e, 1
  {
    match e
    case Number(_) =>
    case BinOp(l, r, op) =>
      GenInstrs(l, next);
      var el := Gen(l, next);
      if el.result.Err? {
        LeftFails(l, r, op, next);
        InstrsAfterLeftError(el.instrs, PostOrderOps(l), PostOrderOps(r), op, next);
      } else {
        GenCount(l, next);
        GenInstrsRight(l, r, op, next);
      }
  }

  /** `GenInstrs` on an operator node whose left subtree succeeded. */
  lemma {:induction false} GenInstrsRight(l: Expr, r: Expr, op: string, next: nat)
    requires LiteralsFit(l) && LiteralsFit(r) && Gen(l, next).result.Ok?
    requires WellNumbered(Gen(l, next).instrs, PostOrderOps(l), next)
    requires |Gen(l, next).instrs| == |PostOrderOps(l)|
    ensures WellNumbered(GenNode(l, r, op, next).instrs, PostOrderOps(l) + PostOrderOps(r) + [op], next)
    decreases BinOp(l, r, op), 0
  {
    var el := Gen(l, next);
    GenInstrs(r, next + |el.instrs|);
    var er := Gen(r, next + |el.instrs|);
    GenCount(r, next + |el.instrs|);
    NodeInstrs(l, r, op, next);
    NodeWellNumbered(GenNode(l, r, op, next).instrs, el, er, PostOrderOps(l), PostOrderOps(r), op, next);
  }

  /** `GenInstrsRight` for any two walks of the subtrees. */
  lemma NodeWellNumbered(instrs: seq<Instr>, el: Emitted, er: Emitted, opsL: seq<string>, opsR: seq<string>, op: string, next: nat)
    requires el.result.Ok? && WellNumbered(el.instrs, opsL, next) && |el.instrs| == |opsL|
    requires WellNumbered(er.instrs, opsR, next + |el.instrs|)
    requires er.result.Ok? ==> |er.instrs| == |opsR|
    requires instrs == el.instrs + er.instrs
      + (if er.result.Ok? && OpcodeOf(op).Some?
         then [Arith(OpcodeOf(op).value, next + |el.instrs| + |er.instrs|, el.result.value, er.result.value)] else [])
    ensures WellNumbered(instrs, opsL + opsR + [op], next)
  {
    if er.result.Ok? && OpcodeOf(op).Some? {
      var ins := Arith(OpcodeOf(op).value, next + |el.instrs| + |er.instrs|, el.result.value, er.result.value);
      InstrsAfterNode(instrs, el.instrs, opsL, er.instrs, opsR, op, next, ins);
    } else {
      InstrsAfterRight(instrs, el.instrs, opsL, er.instrs, opsR, op, next);
    }
  }

  /** What `GenNode` appends once the left subtree succeeded: both subtrees'
      instructions, then its own when the right one succeeded too and the
      name is known. */
  lemma NodeInstrs(l: Expr, r: Expr, op: string, next: nat)
    requires LiteralsFit(l) && LiteralsFit(r) && Gen(l, next).result.Ok?
    ensures var el := Gen(l, next); var er := Gen(r, next + |el.instrs|);
      var dst := next + |el.instrs| + |er.instrs|;
      GenNode(l, r, op, next).instrs == el.instrs + er.instrs
        + (if er.result.Ok? && OpcodeOf(op).Some? then [Arith(OpcodeOf(op).value, dst, el.result.value, er.result.value)] else [])
  {
    var el := Gen(l, next);
    var er := Gen(r, next + |el.instrs|);
    if er.result.Err? || OpcodeOf(op).None? {
      assert el.instrs + er.instrs + [] == el.instrs + er.instrs;
    }
  }

  lemma InstrsAfterLeftError(a: seq<Instr>, opsL: seq<string>, opsR: seq<string>, op: string, next: nat)
    requires WellNumbered(a, opsL, next)
    ensures WellNumbered(a, opsL + opsR + [op], next)
  {
    WellNumberedPrefix(a, opsL, opsR + [op], next);
    assert opsL + (opsR + [op]) == opsL + opsR + [op];
  }

  lemma InstrsAfterRight(instrs: seq<Instr>, a: seq<Instr>, opsL: seq<string>, b: seq<Instr>, opsR: seq<string>, op: string, next: nat)
    requires WellNumbered(a, opsL, next) && |a| == |opsL|
    requires WellNumbered(b, opsR, next + |a|)
    requires instrs == a + b
    ensures WellNumbered(instrs, opsL + opsR + [op], next)
  {
    WellNumberedConcat(a, opsL, b, opsR, [op], next);
  }

  lemma InstrsAfterNode(instrs: seq<Instr>, a: seq<Instr>, opsL: seq<string>, b: seq<Instr>, opsR: seq<string>, op: string, next: nat, ins: Instr)
    requires WellNumbered(a, opsL, next) && |a| == |opsL|
    requires WellNumbered(b, opsR, next + |a|) && |b| == |opsR|
    requires ins.Arith? && ins.dst == next + |a| + |b| && OpcodeOf(op) == Some(ins.opcode)
    requires instrs == a + b + [ins]
    ensures WellNumbered(instrs, opsL + opsR + [op], next)
  {
    var ops := opsL + opsR + [op];
    WellNumberedConcat(a, opsL, b, opsR, [op], next);
    assert ops[|a + b|] == op;
    OpcodeOfKnown(op);
    WellNumberedSnoc(a + b, ins, ops, next);
  }

  predicate AllKnown(ops: seq<string>) {
    forall i :: 0 <= i < |ops| ==> IsKnownOperator(ops[i])
  }

  lemma AllKnownConcat(a: seq<string>, b: seq<string>)
    ensures AllKnown(a + b) <==> AllKnown(a) && AllKnown(b)
  {
    if AllKnown(a) && AllKnown(b) {
      forall i | 0 <= i < |a + b| ensures IsKnownOperator((a + b)[i]) {
        if i >= |a| {
          assert (a + b)[i] == b[i - |a|];
        }
      }
    }
    if AllKnown(a + b) {
      assert forall i :: 0 <= i < |a| ==> (a + b)[i] == a[i];
      assert forall i :: 0 <= i < |b| ==> (a + b)[|a| + i] == b[i];
    }
  }

  /** A walk succeeds exactly when every operator name is known. */
  lemma {:induction false} GenSucceeds(e: Expr, next: nat)
    requires LiteralsFit(e)
    ensures Gen(e, next).result.Ok? <==> AllKnown(PostOrderOps(e))
    decreases e
  {
    match e
    case Number(_) =>
    case BinOp(l, r, op) =>
      GenSucceeds(l, next);
      AllKnownConcat(PostOrderOps(l), PostOrderOps(r));
      AllKnownConcat(PostOrderOps(l) + PostOrderOps(r), [op]);
      var el := Gen(l, next);
      if el.result.Err? {
        LeftFails(l, r, op, next);
      } else {
        GenSucceeds(r, next + |el.instrs|);
        var er := Gen(r, next + |el.instrs|);
        if er.result.Err? {
          RightFails(l, r, op, next);
        } else if OpcodeOf(op).None? {
          OperatorUnknown(l, r, op, next);
          OpcodeOfKnown(op);
          assert !IsKnownOperator([op][0]);
        } else {
          NodeEmits(l, r, op, next);
        }
      }
  }

  /** `em` stops at the first unknown name of `ops`: one instruction for each
      name before it, and the error names it. */
  predicate StopsAtFirstUnknown(em: Emitted, ops: seq<string>) {
    && |em.instrs| < |ops|
    && AllKnown(ops[..|em.instrs|])
    && em.result == Err(UnsupportedOperation(ops[|em.instrs|]))
    && !IsKnownOperator(ops[|em.instrs|])
  }

  /** A failing walk fails with the first unknown operator name in
      post-order, after appending one instruction per operator before it. */
  lemma {:induction false} GenFails(e: Expr, next: nat)
    requires LiteralsFit(e) && Gen(e, next).result.Err?
    ensures StopsAtFirstUnknown(Gen(e, next), PostOrderOps(e))
    decreases e
  {
    match e
    case Number(_) =>
    case BinOp(l, r, op) =>
      var el := Gen(l, next);
      if el.result.Err? {
        GenFails(l, next);
        LeftFails(l, r, op, next);
        FailsInLeft(el, PostOrderOps(l), PostOrderOps(r), op);
      } else {
        GenCount(l, next);
        GenSucceeds(l, next);
        var er := Gen(r, next + |el.instrs|);
        if er.result.Err? {
          GenFails(r, next + |el.instrs|);
          RightFails(l, r, op, next);
          FailsInRight(el, er, PostOrderOps(l), PostOrderOps(r), op);
        } else {
          GenCount(r, next + |el.instrs|);
          GenSucceeds(r, next + |el.instrs|);
          if OpcodeOf(op).None? {
            OperatorUnknown(l, r, op, next);
            OpcodeOfKnown(op);
            FailsAtNode(el, er, PostOrderOps(l), PostOrderOps(r), op);
          } else {
            NodeEmits(l, r, op, next);
          }
        }
      }
  }

  lemma FailsInLeft(el: Emitted, opsL: seq<string>, opsR: seq<string>, op: string)
    requires StopsAtFirstUnknown(el, opsL)
    ensures StopsAtFirstUnknown(el, opsL + opsR + [op])
  {
    var ops, k := opsL + opsR + [op], |el.instrs|;
    assert ops[k] == opsL[k] && ops[..k] == opsL[..k];
  }

  lemma FailsInRight(el: Emitted, er: Emitted, opsL: seq<string>, opsR: seq<string>, op: string)
    requires |el.instrs| == |opsL| && AllKnown(opsL) && StopsAtFirstUnknown(er, opsR)
    ensures StopsAtFirstUnknown(Emitted(el.instrs + er.instrs, er.result), opsL + opsR + [op])
  {
    var ops, k := opsL + opsR + [op], |er.instrs|;
    assert ops[|opsL| + k] == opsR[k];
    assert ops[..|opsL| + k] == opsL + opsR[..k];
    AllKnownConcat(opsL, opsR[..k]);
  }

  lemma FailsAtNode(el: Emitted, er: Emitted, opsL: seq<string>, opsR: seq<string>, op: string)
    requires |el.instrs| == |opsL| && |er.instrs| == |opsR|
    requires AllKnown(opsL) && AllKnown(opsR) && !IsKnownOperator(op)
    ensures StopsAtFirstUnknown(Emitted(el.instrs + er.instrs, Err(UnsupportedOperation(op))), opsL + opsR + [op])
  {
    var ops := opsL + opsR + [op];
    assert ops[|opsL| + |opsR|] == op;
    assert ops[..|opsL| + |opsR|] == opsL + opsR;
    AllKnownConcat(opsL, opsR);
  }

  /** What `generate_code(node)` leaves in the entry block, or the error it
      raises. */
  function GenerateSpec(e: Expr): Result<seq<Instr>, GenError>
    requires LiteralsFit(e)
  {
    var em := Gen(e, 0);
    match em.result
    case Err(err) => Err(err)
    case Ok(v) => Ok(em.instrs + [Ret(v)])
  }

  /** The block is one instruction per operator node in post-order and then
      one `ret`; generation fails exactly when an operator name is unknown,
      with the first unknown name. */
  lemma GenerateShape(e: Expr)
    requires LiteralsFit(e)
    ensures GenerateSpec(e).Ok? <==> AllKnown(PostOrderOps(e))
    ensures GenerateSpec(e).Ok? ==>
      var body, ops := GenerateSpec(e).value, PostOrderOps(e);
      && |body| == |ops| + 1
      && body[|ops|].Ret?
      && forall i :: 0 <= i < |ops| ==> body[i].Arith? && body[i].dst == i && OperatorName(body[i].opcode) == ops[i]
    ensures GenerateSpec(e).Err? ==>
      exists i :: 0 <= i < |PostOrderOps(e)| && GenerateSpec(e).error == UnsupportedOperation(PostOrderOps(e)[i])
                  && !IsKnownOperator(PostOrderOps(e)[i]) && AllKnown(PostOrderOps(e)[..i])
  {
    GenInstrs(e, 0);
    GenSucceeds(e, 0);
    GenCount(e, 0);
    var em := Gen(e, 0);
    if em.result.Err? {
      GenFails(e, 0);
      var k := |em.instrs|;
      assert 0 <= k < |PostOrderOps(e)| && GenerateSpec(e).error == UnsupportedOperation(PostOrderOps(e)[k]);
    } else {
      var body := em.instrs + [Ret(em.result.value)];
      assert forall i :: 0 <= i < |em.instrs| ==> body[i] == em.instrs[i];
    }
  }

  /** `after` keeps every register of `before`. */
  predicate Keeps(before: map<nat, Int32.I32>, after: map<nat, Int32.I32>) {
    forall k :: k in before ==> k in after && after[k] == before[k]
  }

  /** Every id defined is below `bound`. */
  predicate IdsBelow(regs: map<nat, Int32.I32>, bound: nat) {
    forall k :: k in regs ==> k < bound
  }

  /** The walk computes the reference value. Run from any register file whose
      ids are all below `next`, its instructions keep those registers, define
      only ids below `next + |instrs|`, and leave the value `Eval(e)` in the
      result operand; the run is undefined exactly when `Eval(e)` is. */
  lemma {:induction false} GenCorrect(e: Expr, next: nat, regs: map<nat, Int32.I32>)
    requires LiteralsFit(e) && Gen(e, next).result.Ok?
    requires IdsBelow(regs, next)
    ensures var em := Gen(e, next); var m := Exec(Running(regs), em.instrs);
      if Eval(e).None? then m == Undefined
      else
        && m.Running?
        && Operand(m.regs, em.result.value) == Eval(e)
        && Keeps(regs, m.regs)
        && IdsBelow(m.regs, next + |em.instrs|)
    decreases e, 1
  {
    match e
    case Number(v) =>
    case BinOp(l, r, op) =>
      NodeSucceeded(l, r, op, next);
      var el := Gen(l, next);
      var er := Gen(r, next + |el.instrs|);
      var ins := Arith(OpcodeOf(op).value, next + |el.instrs| + |er.instrs|, el.result.value, er.result.value);
      ExecAppend(Running(regs), el.instrs + er.instrs, [ins]);
      ExecAppend(Running(regs), el.instrs, er.instrs);
      GenCorrect(l, next, regs);
      var m1 := Exec(Running(regs), el.instrs);
      if Eval(l).None? {
        ExecStopped(m1, er.instrs);
        ExecStopped(m1, [ins]);
        EvalStrict(l, r, op);
      } else {
        GenCorrectRight(l, r, op, next, regs, m1);
      }
  }

  /** `GenCorrect` on an operator node, once the left subtree's instructions
      have computed its value into `m1`. */
  lemma {:induction false} GenCorrectRight(l: Expr, r: Expr, op: string, next: nat, regs: map<nat, Int32.I32>, m1: Machine)
    requires LiteralsFit(l) && LiteralsFit(r)
    requires Gen(l, next).result.Ok? && Gen(r, next + |Gen(l, next).instrs|).result.Ok? && OpcodeOf(op).Some?
    requires Eval(l).Some? && IdsBelow(regs, next)
    requires m1.Running? && Operand(m1.regs, Gen(l, next).result.value) == Eval(l)
    requires Keeps(regs, m1.regs) && IdsBelow(m1.regs, next + |Gen(l, next).instrs|)
    ensures var el := Gen(l, next); var er := Gen(r, next + |el.instrs|);
      var dst := next + |el.instrs| + |er.instrs|;
      var m := Exec(Exec(m1, er.instrs), [Arith(OpcodeOf(op).value, dst, el.result.value, er.result.value)]);
      if Eval(BinOp(l, r, op)).None? then m == Undefined
      else
        && m.Running?
        && Operand(m.regs, Reg(dst)) == Eval(BinOp(l, r, op))
        && Keeps(regs, m.regs)
        && IdsBelow(m.regs, dst + 1)
    decreases BinOp(l, r, op), 0
  {
    var el := Gen(l, next);
    var er := Gen(r, next + |el.instrs|);
    var dst := next + |el.instrs| + |er.instrs|;
    var ins := Arith(OpcodeOf(op).value, dst, el.result.value, er.result.value);
    GenCorrect(r, next + |el.instrs|, m1.regs);
    var m2 := Exec(m1, er.instrs);
    if Eval(r).None? {
      ExecStopped(m2, [ins]);
      EvalStrict(l, r, op);
    } else {
      OperandKept(m1.regs, m2.regs, el.result.value);
      LastStep(m2, ins, regs, Eval(l).value, Eval(r).value);
      EvalNode(l, r, op);
    }
  }

  lemma OperandKept(before: map<nat, Int32.I32>, after: map<nat, Int32.I32>, v: Value)
    requires Keeps(before, after) && Operand(before, v).Some?
    ensures Operand(after, v) == Operand(before, v)
  {
  }

  /** The operator node's own instruction, once both operands are computed. */
  lemma LastStep(m2: Machine, ins: Instr, regs: map<nat, Int32.I32>, a: Int32.I32, b: Int32.I32)
    requires ins.Arith? && m2.Running?
    requires Operand(m2.regs, ins.lhs) == Some(a) && Operand(m2.regs, ins.rhs) == Some(b)
    requires Keeps(regs, m2.regs) && IdsBelow(m2.regs, ins.dst) && IdsBelow(regs, ins.dst)
    ensures var m := Exec(m2, [ins]);
      if Apply(ins.opcode, a, b).None? then m == Undefined
      else
        && m.Running?
        && Operand(m.regs, Reg(ins.dst)) == Apply(ins.opcode, a, b)
        && Keeps(regs, m.regs)
        && IdsBelow(m.regs, ins.dst + 1)
  {
    assert Exec(m2, [ins]) == Step(m2, ins);
  }

  /** Each known operator name means, on `i32` values, what the instruction
      it selects computes. */
  lemma EvalNode(l: Expr, r: Expr, op: string)
    requires OpcodeOf(op).Some? && Eval(l).Some? && Eval(r).Some?
    ensures Eval(BinOp(l, r, op)) == Apply(OpcodeOf(op).value, Eval(l).value, Eval(r).value)
  {
  }

  /** An operator node has no value when an operand has none. */
  lemma EvalStrict(l: Expr, r: Expr, op: string)
    requires Eval(l).None? || Eval(r).None?
    ensures Eval(BinOp(l, r, op)).None?
  {
  }

  /** The emitted block returns exactly the reference value of the tree; it is
      undefined exactly where `Eval` is (a division by zero or INT_MIN / -1). */
  lemma CodegenCorrect(e: Expr)
    requires LiteralsFit(e) && GenerateSpec(e).Ok?
    ensures Execute(GenerateSpec(e).value) == Eval(e)
  {
    var em := Gen(e, 0);
    GenCorrect(e, 0, map[]);
    var m := Exec(Running(map[]), em.instrs);
    ExecAppend(Running(map[]), em.instrs, [Ret(em.result.value)]);
    if m.Running? {
      assert Exec(m, [Ret(em.result.value)]) == Step(m, Ret(em.result.value));
    } else {
      ExecStopped(m, [Ret(em.result.value)]);
    }
  }

  /** `ir.FunctionType(ir.IntType(32), ())` named "main". */
  const MainSignature := Signature("main", IntType(32), [])

  /** `LLVMCodeGen`: the module's name, the function and block once created,
      the block the builder appends to, and that block's instructions. */
  class LLVMCodeGen {
    var moduleName: string
    var func: Option<Signature>
    var block: Option<string>
    var builder: Option<string>
    var code: seq<Instr>

    ghost predicate Valid()
      reads this
    {
      && (block.Some? ==> func.Some?)
      && (block.None? ==> code == [])
      && (builder.Some? ==> builder == block)
    }

    /** The module the fields describe: what `str(self.module)` prints. */
    function Module(): Ir.Module
      reads this
    {
      var blocks := if block.None? then [] else [Block(block.value, code)];
      var functions := if func.None? then [] else [Function(func.value, blocks)];
      Ir.Module(moduleName, functions)
    }

    /** `LLVMCodeGen()`: an empty module, no function, block or builder. */
    constructor (name: string)
      ensures Valid()
      ensures moduleName == name && func.None? && block.None? && builder.None? && code == []
      ensures Module() == Ir.Module(name, [])
    {
      moduleName := name;
      func := None;
      block := None;
      builder := None;
      code := [];
    }

    /** `self.builder.add/sub/mul/sdiv(left, right)`: append the instruction
        and return the value it defines, under a fresh id. */
    method Append(o: Opcode, lhs: Value, rhs: Value) returns (v: Value)
      requires Valid() && builder.Some?
      modifies this
      ensures Valid()
      ensures moduleName == old(moduleName) && func == old(func) && block == old(block) && builder == old(builder)
      ensures code == old(code) + [Arith(o, |old(code)|, lhs, rhs)]
      ensures v == Reg(|old(code)|)
    {
      v := Reg(|code|);
      code := code + [Arith(o, |code|, lhs, rhs)];
    }

    /** The operator dispatch of `codegen(node)`: `add`, `sub`, `mul` and
        `div` append their instruction; any other name raises. */
    method Emit(op: string, lhs: Value, rhs: Value) returns (r: Result<Value, GenError>)
      requires Valid() && builder.Some?
      modifies this
      ensures Valid()
      ensures moduleName == old(moduleName) && func == old(func) && block == old(block) && builder == old(builder)
      ensures OpcodeOf(op).None? ==> code == old(code) && r == Err(UnsupportedOperation(op))
      ensures OpcodeOf(op).Some? ==>
        code == old(code) + [Arith(OpcodeOf(op).value, |old(code)|, lhs, rhs)] && r == Ok(Reg(|old(code)|))
    {
      var v: Value;
      if op == "add" {
        v := Append(Opcode.Add, lhs, rhs);
      } else if op == "sub" {
        v := Append(Opcode.Sub, lhs, rhs);
      } else if op == "mul" {
        v := Append(Opcode.Mul, lhs, rhs);
      } else if op == "div" {
        v := Append(SDiv, lhs, rhs);
      } else {
        return Err(UnsupportedOperation(op));
      }
      return Ok(v);
    }

    /** `codegen(node)`. */
    method Codegen(node: Expr) returns (r: Result<Value, GenError>)
      requires Valid() && builder.Some? && LiteralsFit(node)
      modifies this
      ensures Valid()
      ensures moduleName == old(moduleName) && func == old(func) && block == old(block) && builder == old(builder)
      ensures code == old(code) + Gen(node, |old(code)|).instrs
      ensures r == Gen(node, |old(code)|).result
      decreases node
    {
      match node
      case Number(v) =>
        return Ok(Const(v));
      case BinOp(l, rt, op) =>
        ghost var before, next := code, |code|;
        var left := Codegen(l);
        if left.Err? {
          LeftFails(l, rt, op, next);
          return left;
        }
        ghost var el := Gen(l, next);
        var right := Codegen(rt);
        ghost var er := Gen(rt, next + |el.instrs|);
        AppendAssoc(before, el.instrs, er.instrs);
        if right.Err? {
          RightFails(l, rt, op, next);
          return right;
        }
        r := Emit(op, left.value, right.value);
        if OpcodeOf(op).None? {
          OperatorUnknown(l, rt, op, next);
        } else {
          NodeEmits(l, rt, op, next);
        }
    }

    /** `generate_code(node)`: add `main` with its entry block, walk the tree
        into it, append `ret` of the root's value and return the module. */
    method GenerateCode(node: Expr) returns (r: Result<Ir.Module, GenError>)
      requires Valid() && LiteralsFit(node)
      modifies this
      ensures Valid()
      ensures old(func).Some? ==> r == Err(DuplicatedName("main")) && unchanged(this)
      ensures old(func).None? ==>
        && moduleName == old(moduleName)
        && func == Some(MainSignature) && block == Some("entry") && builder == Some("entry")
        && match GenerateSpec(node)
           case Ok(body) => code == body && r == Ok(Module())
           case Err(e) => code == Gen(node, 0).instrs && r == Err(e)
    {
      if func.Some? {
        return Err(DuplicatedName("main"));
      }
      func := Some(MainSignature);
      block := Some("entry");
      builder := block;
      var result := Codegen(node);
      if result.Err? {
        return Err(result.error);
      }
      code := code + [Ret(result.value)];
      return Ok(Module());
    }
  }
}
