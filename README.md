# Stack compiler: a verified model

`main.py` is a small compiler for postfix (Reverse Polish Notation) integer
expressions. It reads one line. `tokenize` splits the line on whitespace.
`parse` runs the tokens through a stack and builds a tree of `Number` and
`BinOp` nodes. `LLVMCodeGen.generate_code` then builds an LLVM module with the
llvmlite builder. That module holds one function, `i32 main()`, with one block
`entry`. The block has one `add`, `sub`, `mul` or `sdiv` instruction per
operator node, in post-order, and then a `ret` of the root's value. The
program JIT-compiles the module, calls `main` and prints the result.

This project models the tokenizer, the parser, the tree, the code generator and
the driver, and proves what they do:

- `Tokenizer`: `str.split()` as a recursive function, with Python's full
  `str.isspace` character set. Lemmas show that tokens are non-empty and free of
  whitespace, that joining them gives the input with whitespace removed, and that
  the input is exactly its tokens separated by whitespace runs (in both
  directions).
- `Parser`: `parse` is a `method` with the source's `for` loop over a `seq`
  stack. It is proved equal to a specification function `Parsed`. Lemmas about
  `Parsed` give:
  - the exact failure conditions and where each failure happens;
  - that the first operand popped becomes the right operand;
  - that the result is `stack[0]`;
  - that `parse` inverts postfix printing.
- `Ast`, `Int32`, `Ir`:
  - the tree;
  - two's-complement `i32` arithmetic: wrapping `add`/`sub`/`mul`, and `sdiv`
    truncating toward zero;
  - a reference evaluator `Eval`;
  - an abstract view of the generated IR, as values rather than text;
  - a small machine that runs the entry block.
- `CodeGen`: `LLVMCodeGen` is a `class` whose fields mirror `module`, `func`,
  `block` and `builder`. The block's instructions are a `seq` field. Its methods
  `Append`, `Emit`, `Codegen` and `GenerateCode` carry `modifies this`.
  `Codegen` and `GenerateCode` are proved against the walk function `Gen`.
  `Append` and `Emit` state the one instruction a node appends, `Emit` through
  `OpcodeOf`. Lemmas about `Gen` give:
  - one instruction per operator node in post-order, with fresh ids;
  - failure exactly when there is an unknown operator name, and then at the first
    one;
  - that running the block returns `Eval` of the tree (`CodegenCorrect`).
- `Compiler`: the driver lines `tokenize` → `parse` → `generate_code`, and the
  end-to-end meaning of a compiled line.

`main.py` has no string literals, no quote-aware tokenizing, no print
primitive, no programs of several statements and no read loop, and the model
adds none of them. Tokens are split on whitespace only. Every non-numeral
token is an operator name. `parse` returns the bottom of the stack.
The driver handles one line and lets `parse`'s and `generate_code`'s exceptions
escape.

`sdiv` by zero and `INT_MIN / -1` are not excluded by a precondition. They are
modelled as a run whose behaviour is undefined (`Ir.Machine.Undefined`), and
`Eval` has no value there. So `CodegenCorrect` also covers the trees whose value
is undefined.

## Model

| member | source | states |
|---|---|---|
| Tokenizer.IsSpace | main.py:2 | the characters Python's `str.isspace` accepts, which `split()` without an argument separates on |
| Tokenizer.WordLength | main.py:2 | the length of the longest whitespace-free prefix: no whitespace before it, and whitespace right after it unless the input ends there |
| Tokenizer.Tokenize | main.py:1-3 | defines `expression.split()`: skip a whitespace character, or take the whitespace-free prefix as a token and continue after it; its properties are the lemmas below |
| Tokenizer.TokenizeWords | main.py:1-3 | every token `split()` returns is non-empty and contains no whitespace character |
| Tokenizer.ConcatTokens | main.py:1-3 | the tokens joined in order equal the input with every whitespace character removed |
| Tokenizer.TokensAndGaps | main.py:1-3 | the input is exactly its tokens interleaved with whitespace runs, and the runs between two tokens are non-empty |
| Tokenizer.TokenizeInterleave | main.py:1-3 | conversely, words separated by whitespace runs (with any leading and trailing whitespace) split back into exactly those words |
| Tokenizer.SplitExample | main.py:1-3 | `"3 4 add".split()` is `["3", "4", "add"]` |
| Numerals.IsDigits | main.py:21 | defines `token.isdigit()` on ASCII text: non-empty and made of the digits 0-9 only |
| Numerals.DecimalValue | main.py:22 | defines `int(token)` on a digit string, most significant digit first, with leading zeros allowed |
| Numerals.DecimalString | main.py:21-22 | the canonical numeral of a natural number is made of digits only and has no leading zero unless it is `0` |
| Numerals.ValueOfString | main.py:21-22 | `int(str(n)) == n` for every natural number |
| Numerals.StringOfValue | main.py:21-22 | `str(int(s)) == s` for a digit string without leading zeros |
| Int32.Add | main.py:57 | `add` on `i32`: the result differs from the exact sum by a multiple of 2^32 |
| Int32.Sub | main.py:59 | `sub` on `i32`: the result differs from the exact difference by a multiple of 2^32 |
| Int32.Mul | main.py:61 | `mul` on `i32`: the result differs from the exact product by a multiple of 2^32 |
| Int32.Quot | main.py:63 | the quotient `sdiv` rounds toward zero: the remainder has the dividend's sign and is smaller in magnitude than the divisor, and the quotient is no larger in magnitude than the exact one |
| Int32.Wrap | main.py:56-61 | the wrapped result is an `i32` congruent to the exact result modulo 2^32, and equal to it when it is already in range |
| Int32.WrapUnique | main.py:56-61 | those two facts determine the wrapped value uniquely |
| Int32.QuotFits | main.py:62-63 | a truncated quotient of two `i32` values fits `i32` exactly when it is not INT_MIN / -1 |
| Int32.Div | main.py:62-63 | `sdiv` has a value exactly when the divisor is nonzero and the operands are not INT_MIN, -1; that value is the quotient truncated toward zero |
| Ir.Apply | main.py:56-63 | an instruction has an `i32` result except that `sdiv` has none exactly where it is undefined |
| Ir.Step | main.py:95-96 | defines one instruction of the called `main`: an arithmetic instruction stores its value under its id, `ret` returns its operand, and a missing operand or an undefined `sdiv` makes the run undefined |
| Ir.Execute | main.py:95-96 | defines calling the compiled `main` on its entry block: the value `ret` returns, or none when the run is undefined or never returns |
| Ir.ExecAppend | main.py:44-47 | running two pieces of a block one after the other is running their concatenation |
| Ir.ExecStopped | main.py:47 | after `ret` or undefined behaviour, further instructions change nothing |
| Ast.Eval | main.py:8-16 | defines the reference meaning of a tree: literals that fit `i32`, the four operator names with wrapping `i32` arithmetic and truncating division, and no value otherwise |
| Ast.EvalDefined | main.py:8-16 | a tree has a value only if all its literals fit `i32` and all its operator names are known |
| Parser.Run | main.py:19-26 | defines the `for` loop from a given stack: a numeral pushes `Number(int(token))`; any other token pops the right operand, then the left, and pushes the `BinOp`, or fails at that token's index when fewer than two entries are left |
| Parser.Parsed | main.py:18-27 | defines `parse`: the loop from an empty stack, then `stack[0]`, failing on an empty stack |
| Parser.Parse | main.py:18-27 | the loop with its list stack returns exactly what the specification function `Parsed` gives, including both errors |
| Parser.RunOutcome | main.py:20-26 | the loop succeeds exactly when no operator token meets fewer than two entries, then leaves the start depth plus (number tokens − operator tokens) entries; otherwise it fails at the first operator token that underflows |
| Parser.ParseOutcome | main.py:18-27 | `parse` fails with `stack[0]` exactly on an empty token list, fails with `pop()` at the first underflowing operator, and succeeds in every other case |
| Parser.RunPostfix | main.py:21-26 | the tokens of one tree push exactly that tree onto any stack; a number pushes one `Number`, and an operator pops the right operand first, then the left |
| Parser.ParsePostfix | main.py:18-27 | `parse` of a tree's postfix tokens gives back that tree |
| Parser.ParseKeepsBottom | main.py:27 | the tokens of several trees parse to the first; what was pushed above `stack[0]` is ignored |
| Parser.ParsedLiteralsFit | main.py:21-22 | if every numeral token fits `i32` then so does every literal of the tree |
| Parser.OperandOrderExample | main.py:24-26 | `3 4 sub` parses to `BinOp(Number(3), Number(4), "sub")` |
| Parser.BottomExample | main.py:27 | `3 4` parses to `Number(3)` |
| Parser.UnderflowExample | main.py:24-25 | `add` alone underflows at token 0 |
| Parser.AnyOperatorName | main.py:23-26 | every non-numeral token is taken as an operator name by `parse` |
| CodeGen.OpcodeOf | main.py:56-65 | defines the operator dispatch: `add`, `sub`, `mul` and `div` select `add`, `sub`, `mul` and `sdiv`; every other name selects nothing |
| CodeGen.Gen | main.py:50-55 | defines `codegen(node)` as the instructions it appends and the value or error it gives: a number appends nothing and gives its constant |
| CodeGen.GenNode | main.py:53-65 | defines `codegen` on an operator node: the left walk, then the right walk (only if the left succeeded), then the node's instruction under the next free id, or `UnsupportedOperation` for an unknown name |
| CodeGen.GenerateSpec | main.py:42-47 | defines the entry block `generate_code` builds: the walk's instructions then `ret` of its value, or the walk's error |
| CodeGen.OpcodeOfKnown | main.py:56-65 | exactly `add`, `sub`, `mul`, `div` select an instruction; each selects the one named after it, with `div` selecting `sdiv` |
| CodeGen.OperatorNameSelects | main.py:56-63 | each of the four instructions is selected by exactly its own operator name |
| CodeGen.GenCount | main.py:50-63 | a walk appends at most one instruction per operator node, and exactly one when it succeeds |
| CodeGen.GenValue | main.py:51-63 | a number yields its constant and appends nothing; an operator node yields the id of the last instruction appended |
| CodeGen.GenInstrs | main.py:53-63 | instruction i belongs to the i-th operator node in post-order (left subtree before right) and defines id `next + i` |
| CodeGen.GenSucceeds | main.py:56-65 | the walk succeeds exactly when every operator name in the tree is known |
| CodeGen.GenFails | main.py:64-65 | a failing walk raises on the first unknown name in post-order, after appending one instruction for each operator node before it |
| CodeGen.GenerateShape | main.py:42-65 | the block has one instruction per operator node in post-order and then one `ret`; generation fails exactly when an operator name is unknown, and then with the first unknown name |
| CodeGen.GenCorrect | main.py:50-63 | running a subtree's instructions computes its `Eval` value into the register the walk returns, keeps every register defined before it, and is undefined exactly where `Eval` is |
| CodeGen.EvalNode | main.py:56-63 | each known operator means, on `i32`, what its instruction computes |
| CodeGen.CodegenCorrect | main.py:42-63 | calling the generated `main` returns exactly the value of the tree under wrapping `i32` arithmetic with truncating division, and is undefined exactly where the division is |
| CodeGen.LLVMCodeGen.Module | main.py:48 | defines the module the generator's fields describe: its name, and `main` with its `entry` block once they are created |
| CodeGen.LLVMCodeGen.constructor | main.py:36-40 | a new generator has an empty module and no function, block or builder |
| CodeGen.LLVMCodeGen.Append | main.py:57-63 | an instruction is appended to the block and defines a fresh id, the block's length before it |
| CodeGen.LLVMCodeGen.Emit | main.py:56-65 | the four known names append their instruction; any other name raises and appends nothing |
| CodeGen.LLVMCodeGen.Codegen | main.py:50-65 | the recursive walk appends exactly `Gen`'s instructions and returns `Gen`'s value or error; no other field changes |
| CodeGen.LLVMCodeGen.GenerateCode | main.py:42-48 | `main` and `entry` are created, the block becomes the walk's instructions plus `ret`, and the module is returned; the error leaves what was appended before it; a second call fails on the duplicate name `main` and changes nothing |
| Compiler.Compiled | main.py:68-72 | defines the driver on one line: split, parse, generate `main`; a `parse` error or a `generate_code` error is returned as that error |
| Compiler.CompileLine | main.py:68-72 | on a line whose parsed tree's literals fit `i32`, the driver returns the module whose entry block is `Compiled(line)`, or the error `parse` or `generate_code` raised |
| Compiler.NumeralsSuffice | main.py:21-22 | a line whose number tokens all fit `i32` meets the driver's requirement that the parsed tree's literals fit |
| Compiler.IgnoredNumeralExample | main.py:18-27 | `x y` compiles to `ret x` whatever the size of y; y is pushed above `stack[0]` and never reaches `ir.Constant` |
| Compiler.CompileOutcome | main.py:70-72 | the driver fails in `parse` exactly when `parse` fails; otherwise it fails in `generate_code` exactly when an operator name is unknown |
| Compiler.CompiledMeaning | main.py:70-72 | calling the compiled `main` returns `Eval` of the parsed tree |
| Compiler.BinaryLineMeaning | main.py:69-72 | the line `x y op` with a known name returns `Eval` of `x op y`; with any other name it fails in `generate_code` with that name |
| Compiler.SubExample | main.py:69-72 | `x y sub` returns x − y: the first number is the left operand |
| Compiler.DivByZeroExample | main.py:69-72 | `x 0 div` compiles, and its run is undefined |
| Compiler.OverflowExample | main.py:69-72 | `2147483647 1 add` wraps around to −2147483648 |
| Compiler.UnknownOperatorExample | main.py:69-72 | `2 3 pow` parses, and `generate_code` raises on `pow` |
| Compiler.EmptyLineExample | main.py:69-72 | an empty line fails in `parse` on `stack[0]` |

## Left out

- The llvmlite library is replaced by values: `Ir.Module`, `Ir.Function`, `Ir.Block` and `Ir.Instr`, the instruction log. The text `str(self.module)` returns (main.py:48) is not rendered. `GenerateCode` returns the module value instead.
- Backend initialisation, MCJIT compilation, the symbol lookup and the `ctypes` call (main.py:29-33, 75-96) are native foreign calls. Their effect, calling `main`, is modelled by `Ir.Execute`.
- The prompt, `input` and the prints (main.py:67, 69, 73, 97) are I/O. The line is a parameter of `Compiler.CompileLine`.
- `__file__`, the module's name, is a parameter of the constructor.
- Numerals are ASCII digit strings. A token that contains any other character is an operator name in the model. That includes a token of non-ASCII digits such as `"\u0663"`, which Python's `str.isdigit` accepts. Python would push `Number(int(token))` for it, or raise `ValueError` from `int()` for digits such as superscripts that `int()` rejects. The model instead treats it as an operator, so `parse` pops for it.
- `int(token)` in CPython 3.11 and later (and 3.10.7 and later) raises `ValueError` on a string of more than 4300 digits, because of the interpreter's default limit on integer string conversion. The model has no such limit. `Parser.Parsed` returns `Ok` where that interpreter raises.
- CodeGen.Gen, CodeGen.LLVMCodeGen.Codegen and CodeGen.LLVMCodeGen.GenerateCode require every literal to fit `i32`. llvmlite's `ir.Constant` does not check this, so the source's behaviour on a wider literal is not modelled.
- Compiler.CompileLine, Compiler.Compiled, Compiler.CompileOutcome and Compiler.CompiledMeaning require `TreeFits`: if the line parses, every literal of the tree fits `i32`. A line that fails in `parse`, or whose wide numbers are pushed above `stack[0]` and dropped, still qualifies. `TreeFits` is stronger than the source needs. It also excludes lines that `generate_code` rejects on an unknown operator name when their tree holds a literal outside `i32`. Examples are `1 2 pow 99999999999 add`, whose walk raises on `pow` before it reaches the wide literal, and `99999999999 1 pow`, which raises on `pow` after llvmlite accepted the wide literal unchecked. For those lines the model does not promise the `UnsupportedOperation` error the source raises. `Parser.Parse` handles numerals of any size, apart from the digit limit above.
- A second `generate_code` on the same object makes llvmlite refuse a second function named `main`. This is modelled as the error `DuplicatedName("main")` with nothing changed. llvmlite's exception type is not modelled.
- Native `sdiv` by zero and `INT_MIN / -1` are undefined behaviour. They are modelled as a run without a result (`Ir.Machine.Undefined`) and are not excluded by a precondition.
