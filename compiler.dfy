/** The driver: read one line, split it into tokens, parse the tokens into a
    tree and generate the `main` module for it. Running the module returns
    the value of the tree. */
module Compiler {
  import opened Wrappers
  import opened Numerals
  import opened Tokenizer
  import opened Ast
  import opened Parser
  import opened Ir
  import opened CodeGen
  import Int32

  /** The exception the driver lets escape: from `parse` or from
      `generate_code`. */
  datatype CompileError = ParseFailed(parse: ParseError) | GenFailed(gen: GenError)

  /** If the line parses, every literal of its tree is a value an `i32` can
      hold. That covers every constant the walk can create, and more: a walk
      that stops at an unknown operator name never reaches the literals
      after it. */
  predicate TreeFits(line: string) {
    Parsed(Tokenize(line)).Ok? ==> LiteralsFit(Parsed(Tokenize(line)).value)
  }

  /** A line whose number tokens all fit `i32` has such a tree. */
  lemma NumeralsSuffice(line: string)
    requires forall t :: t in Tokenize(line) && IsDigits(t) ==> DecimalValue(t) <= Int32.Max
    ensures TreeFits(line)
  {
    ParsedLiteralsFit(Tokenize(line));
  }

  /** The entry block the driver produces for `line`, or the error it stops
      with. */
  function Compiled(line: string): Result<seq<Instr>, CompileError>
    requires TreeFits(line)
  {
    var tokens := Tokenize(line);
    match Parsed(tokens)
    case Err(e) => Err(ParseFailed(e))
    case Ok(tree) =>
      match GenerateSpec(tree)
      case Err(e) => Err(GenFailed(e))
      case Ok(body) => Ok(body)
  }

  /** The driver: build a fresh generator, split the line into tokens, parse
      them and generate `main` from the tree. */
  method CompileLine(name: string, line: string) returns (r: Result<Ir.Module, CompileError>)
    requires TreeFits(line)
    ensures match Compiled(line)
      case Ok(body) => r == Ok(Ir.Module(name, [Function(MainSignature, [Block("entry", body)])]))
      case Err(e) => r == Err(e)
  {
    var codegen := new LLVMCodeGen(name);
    var tokens := Tokenize(line);
    var ast := Parse(tokens);
    if ast.Err? {
      return Err(ParseFailed(ast.error));
    }
    var llvmIr := codegen.GenerateCode(ast.value);
    if llvmIr.Err? {
      return Err(GenFailed(llvmIr.error));
    }
    return Ok(llvmIr.value);
  }

  /** The driver fails in `parse` exactly when `parse` fails, and otherwise
      in `generate_code` exactly when the tree has an unknown operator name. */
  lemma CompileOutcome(line: string)
    requires TreeFits(line)
    ensures var p := Parsed(Tokenize(line));
      && (p.Err? <==> Compiled(line).Err? && Compiled(line).error.ParseFailed?)
      && (p.Err? ==> Compiled(line) == Err(ParseFailed(p.error)))
      && (p.Ok? ==> (Compiled(line).Ok? <==> AllKnown(PostOrderOps(p.value))))
  {
    var tokens := Tokenize(line);
    if Parsed(tokens).Ok? {
      GenerateShape(Parsed(tokens).value);
    }
  }

  /** Running the compiled `main` gives the value of the parsed tree: `add`,
      `sub` and `mul` wrap around at 32 bits, `div` truncates, and the run is
      undefined where the tree has no value. */
  lemma CompiledMeaning(line: string)
    requires TreeFits(line) && Compiled(line).Ok?
    ensures Parsed(Tokenize(line)).Ok?
    ensures Execute(Compiled(line).value) == Eval(Parsed(Tokenize(line)).value)
  {
    var tokens := Tokenize(line);
    CodegenCorrect(Parsed(tokens).value);
  }

  /** The line "x y op", read and compiled: two numbers and an operator name. */
  function BinaryLine(x: nat, y: nat, op: string): string {
    DecimalString(x) + " " + DecimalString(y) + " " + op
  }

  lemma DigitsAreWord(s: string)
    requires IsDigits(s)
    ensures IsWord(s)
  {
  }

  /** Three words joined by single spaces split back into those words. */
  lemma ThreeWords(a: string, b: string, c: string)
    requires IsWord(a) && IsWord(b) && IsWord(c)
    ensures Tokenize(a + " " + b + " " + c) == [a, b, c]
  {
    var sp: string := " ";
    var gaps, words := [[], sp, sp, []], [a, b, c];
    assert gaps[1..] == [sp, sp, []] && words[1..] == [b, c];
    assert gaps[2..] == [sp, []] && words[2..] == [c];
    assert gaps[3..] == [[]] && words[3..] == [];
    calc {
      Interleave(gaps, words);
      [] + a + Interleave([sp, sp, []], [b, c]);
      [] + a + (sp + b + Interleave([sp, []], [c]));
      [] + a + (sp + b + (sp + c + Interleave([[]], [])));
      { JoinThree(a, b, c, sp); }
      a + sp + b + sp + c;
    }
    assert AllSpace(sp);
    TokenizeInterleave(gaps, words);
  }

  lemma JoinThree(a: string, b: string, c: string, sp: string)
    ensures [] + a + (sp + b + (sp + c + [])) == a + sp + b + sp + c
  {
    assert [] + a == a && sp + c + [] == sp + c;
    assert sp + b + (sp + c) == sp + b + sp + c;
    assert a + (sp + b + sp + c) == a + sp + b + sp + c;
  }

  /** "x y op" splits into the two numerals and the operator name. */
  lemma BinaryLineTokens(x: nat, y: nat, op: string)
    requires IsWord(op)
    ensures Tokenize(BinaryLine(x, y, op)) == [DecimalString(x), DecimalString(y), op]
  {
    ValueOfString(x);
    ValueOfString(y);
    DigitsAreWord(DecimalString(x));
    DigitsAreWord(DecimalString(y));
    ThreeWords(DecimalString(x), DecimalString(y), op);
  }

  /** The tokens of "x y op" parse to the one tree `BinOp(Number(x), Number(y), op)`. */
  lemma BinaryParse(x: nat, y: nat, op: string)
    requires !IsDigits(op)
    ensures Parsed([DecimalString(x), DecimalString(y), op]) == Ok(BinOp(Number(x), Number(y), op))
  {
    var e := BinOp(Number(x), Number(y), op);
    assert Printable(Number(x)) && Printable(Number(y));
    assert Postfix(Number(x)) == [DecimalString(x)] && Postfix(Number(y)) == [DecimalString(y)];
    assert Postfix(e) == [DecimalString(x)] + [DecimalString(y)] + [op];
    SingletonsJoin(DecimalString(x), DecimalString(y), op);
    ParsePostfix(e);
  }

  lemma SingletonsJoin<T>(a: T, b: T, c: T)
    ensures [a] + [b] + [c] == [a, b, c]
  {
  }

  /** What generating code for `x op y` does. */
  lemma BinaryGen(x: nat, y: nat, op: string)
    requires x <= Int32.Max && y <= Int32.Max
    ensures var e := BinOp(Number(x), Number(y), op);
      && LiteralsFit(e)
      && (IsKnownOperator(op) ==> GenerateSpec(e).Ok? && Execute(GenerateSpec(e).value) == Eval(e))
      && (!IsKnownOperator(op) ==> GenerateSpec(e) == Err(UnsupportedOperation(op)))
  {
    var e := BinOp(Number(x), Number(y), op);
    assert LiteralsFit(Number(x)) && LiteralsFit(Number(y));
    GenerateShape(e);
    assert PostOrderOps(e) == [op];
    assert AllKnown([op]) <==> IsKnownOperator([op][0]);
    if IsKnownOperator(op) {
      CodegenCorrect(e);
    } else {
      assert !IsKnownOperator(PostOrderOps(e)[0]);
    }
  }

  /** Compiling "x y op" for numbers that fit `i32`: with a known operator
      name, `main` returns `x op y`; with any other name the driver fails in
      `generate_code` with that name. */
  lemma BinaryLineMeaning(x: nat, y: nat, op: string)
    requires x <= Int32.Max && y <= Int32.Max
    requires IsWord(op) && !IsDigits(op)
    ensures TreeFits(BinaryLine(x, y, op))
    ensures IsKnownOperator(op) ==>
      && Compiled(BinaryLine(x, y, op)).Ok?
      && Execute(Compiled(BinaryLine(x, y, op)).value) == Eval(BinOp(Number(x), Number(y), op))
    ensures !IsKnownOperator(op) ==> Compiled(BinaryLine(x, y, op)) == Err(GenFailed(UnsupportedOperation(op)))
  {
    BinaryLineTokens(x, y, op);
    ValueOfString(x);
    ValueOfString(y);
    BinaryParse(x, y, op);
    BinaryGen(x, y, op);
  }

  /** "x y sub" returns x - y: the first number is the left operand. */
  lemma SubExample(x: nat, y: nat)
    requires x <= Int32.Max && y <= Int32.Max
    ensures TreeFits(BinaryLine(x, y, "sub"))
    ensures Compiled(BinaryLine(x, y, "sub")).Ok?
    ensures Execute(Compiled(BinaryLine(x, y, "sub")).value) == Some(x - y)
  {
    assert !IsDigit("sub"[0]);
    BinaryLineMeaning(x, y, "sub");
    assert Eval(Number(x)) == Some(x) && Eval(Number(y)) == Some(y);
  }

  /** "x 0 div" compiles, but running it divides by zero. */
  lemma DivByZeroExample(x: nat)
    requires x <= Int32.Max
    ensures TreeFits(BinaryLine(x, 0, "div"))
    ensures Compiled(BinaryLine(x, 0, "div")).Ok?
    ensures Execute(Compiled(BinaryLine(x, 0, "div")).value).None?
  {
    assert !IsDigit("div"[0]);
    BinaryLineMeaning(x, 0, "div");
    assert Eval(Number(x)) == Some(x) && Eval(Number(0)) == Some(0);
  }

  /** "2147483647 1 add" wraps around to the least `i32`. */
  lemma OverflowExample()
    ensures TreeFits(BinaryLine(Int32.Max, 1, "add"))
    ensures Compiled(BinaryLine(Int32.Max, 1, "add")).Ok?
    ensures Execute(Compiled(BinaryLine(Int32.Max, 1, "add")).value) == Some(Int32.Min)
  {
    assert !IsDigit("add"[0]);
    BinaryLineMeaning(Int32.Max, 1, "add");
  }

  /** "2 3 pow" parses, and `generate_code` raises on the name "pow". */
  lemma UnknownOperatorExample()
    ensures TreeFits(BinaryLine(2, 3, "pow"))
    ensures Compiled(BinaryLine(2, 3, "pow")) == Err(GenFailed(UnsupportedOperation("pow")))
  {
    assert !IsDigit("pow"[0]);
    BinaryLineMeaning(2, 3, "pow");
  }

  /** Two words joined by a space split back into those words. */
  lemma TwoWords(a: string, b: string)
    requires IsWord(a) && IsWord(b)
    ensures Tokenize(a + " " + b) == [a, b]
  {
    var sp: string := " ";
    var gaps, words := [[], sp, []], [a, b];
    assert gaps[1..] == [sp, []] && words[1..] == [b];
    assert gaps[2..] == [[]] && words[2..] == [];
    calc {
      Interleave(gaps, words);
      [] + a + Interleave([sp, []], [b]);
      [] + a + (sp + b + Interleave([[]], []));
      { JoinTwo(a, b, sp); }
      a + sp + b;
    }
    assert AllSpace(sp);
    TokenizeInterleave(gaps, words);
  }

  lemma JoinTwo(a: string, b: string, sp: string)
    ensures [] + a + (sp + b + []) == a + sp + b
  {
    assert [] + a == a && sp + b + [] == sp + b;
  }

  /** "x y" returns x, the bottom of the stack, whatever the size of y: a
      number pushed above the result never reaches `ir.Constant`. */
  lemma IgnoredNumeralExample(x: nat, y: nat)
    requires x <= Int32.Max
    ensures TreeFits(DecimalString(x) + " " + DecimalString(y))
    ensures Compiled(DecimalString(x) + " " + DecimalString(y)) == Ok([Ret(Const(x))])
  {
    DigitsAreWord(DecimalString(x));
    DigitsAreWord(DecimalString(y));
    TwoWords(DecimalString(x), DecimalString(y));
    BottomOfTwo(x, y);
    assert LiteralsFit(Number(x));
    assert Gen(Number(x), 0) == Emitted([], Ok(Const(x)));
    assert [] + [Ret(Const(x))] == [Ret(Const(x))];
  }

  lemma BottomOfTwo(x: nat, y: nat)
    ensures Parsed([DecimalString(x), DecimalString(y)]) == Ok(Number(x))
  {
    var es := [Number(x), Number(y)];
    assert Printable(es[0]) && Printable(es[1]);
    assert es[1..] == [Number(y)] && es[1..][1..] == [];
    assert PostfixAll(es[1..]) == [DecimalString(y)] + [];
    assert PostfixAll(es) == [DecimalString(x)] + ([DecimalString(y)] + []);
    assert [DecimalString(x)] + ([DecimalString(y)] + []) == [DecimalString(x), DecimalString(y)];
    ParseKeepsBottom(es);
  }

  /** An empty line has no tokens, and `parse` fails on `stack[0]`. */
  lemma EmptyLineExample()
    ensures TreeFits("") && Compiled("") == Err(ParseFailed(EmptyProgram))
  {
    ParseOutcome([]);
  }
}
