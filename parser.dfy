/** The RPN parser: a stack of nodes, one push per number token, a pop of
    two and a push of one per any other token; the result is the bottom of
    the stack. */
module Parser {
  import opened Wrappers
  import opened Numerals
  import opened Ast

  /** `stack.pop()` on an empty list, at the index of the offending token;
      or `stack[0]` on an empty list, when there were no tokens. */
  datatype ParseError = StackUnderflow(at: nat) | EmptyProgram

  /** The parser's loop over `tokens` from a given stack; `at` is the index
      of `tokens[0]` in the whole token list. */
  function Run(stack: seq<Expr>, tokens: seq<string>, at: nat): Result<seq<Expr>, ParseError>
    decreases |tokens|
  {
    if tokens == [] then Ok(stack)
    else
      var t := tokens[0];
      if IsDigits(t) then Run(stack + [Number(DecimalValue(t))], tokens[1..], at + 1)
      else if |stack| < 2 then Err(StackUnderflow(at))
      else
        var n := |stack|;
        Run(stack[..n - 2] + [BinOp(stack[n - 2], stack[n - 1], t)], tokens[1..], at + 1)
  }

  /** What `parse(tokens)` returns or raises. */
  function Parsed(tokens: seq<string>): Result<Expr, ParseError> {
    match Run([], tokens, 0)
    case Err(e) => Err(e)
    case Ok(stack) => if stack == [] then Err(EmptyProgram) else Ok(stack[0])
  }

  /** `parse(tokens)`. */
  method Parse(tokens: seq<string>) returns (r: Result<Expr, ParseError>)
    ensures r == Parsed(tokens)
  {
    var stack: seq<Expr> := [];
    for i := 0 to |tokens|
      invariant Run(stack, tokens[i..], i) == Run([], tokens, 0)
    {
      var token := tokens[i];
      assert tokens[i..][0] == token && tokens[i..][1..] == tokens[i + 1..];
      ghost var before := stack;
      if IsDigits(token) {
        stack := stack + [Number(DecimalValue(token))];
      } else {
        if stack == [] {
          return Err(StackUnderflow(i));
        }
        var right := stack[|stack| - 1];
        stack := stack[..|stack| - 1];
        if stack == [] {
          return Err(StackUnderflow(i));
        }
        var left := stack[|stack| - 1];
        stack := stack[..|stack| - 1];
        stack := stack + [BinOp(left, right, token)];
        assert stack == before[..|before| - 2] + [BinOp(before[|before| - 2], before[|before| - 1], token)];
      }
    }
    assert tokens[|tokens|..] == [];
    if stack == [] {
      return Err(EmptyProgram);
    }
    return Ok(stack[0]);
  }

  /** +1 for a number token, -1 for any other. */
  function Delta(t: string): int {
    if IsDigits(t) then 1 else -1
  }

  /** Number tokens minus operator tokens. */
  function Depth(tokens: seq<string>): int {
    if tokens == [] then 0 else Delta(tokens[0]) + Depth(tokens[1..])
  }

  /** Token `j` is an operator met with fewer than two entries on a stack
      that held `n` entries before `tokens`. */
  predicate Underflows(n: int, tokens: seq<string>, j: int) {
    0 <= j < |tokens| && !IsDigits(tokens[j]) && n + Depth(tokens[..j]) < 2
  }

  predicate FirstUnderflow(n: int, tokens: seq<string>, j: int) {
    Underflows(n, tokens, j) && forall i :: 0 <= i < j ==> !Underflows(n, tokens, i)
  }

  lemma UnderflowsShift(stack: seq<Expr>, tokens: seq<string>, j: int)
    requires tokens != [] && 0 <= j
    ensures Underflows(|stack|, tokens, j + 1) <==> Underflows(|stack| + Delta(tokens[0]), tokens[1..], j)
  {
    if j + 1 < |tokens| {
      assert tokens[..j + 1][1..] == tokens[1..][..j];
    }
  }

  /** The loop succeeds exactly when no operator meets fewer than two
      entries; it then leaves `|stack| + Depth(tokens)` entries, and it
      otherwise fails at the first operator that does. */
  lemma {:induction false} RunOutcome(stack: seq<Expr>, tokens: seq<string>, at: nat)
    ensures Run(stack, tokens, at).Ok? <==> forall j :: !Underflows(|stack|, tokens, j)
    ensures Run(stack, tokens, at).Ok? ==> |Run(stack, tokens, at).value| == |stack| + Depth(tokens)
    ensures Run(stack, tokens, at).Err? ==>
      && Run(stack, tokens, at).error.StackUnderflow?
      && at <= Run(stack, tokens, at).error.at
      && FirstUnderflow(|stack|, tokens, Run(stack, tokens, at).error.at - at)
    decreases |tokens|
  {
    if tokens == [] {
    } else {
      var t := tokens[0];
      var n := |stack|;
      var d := Delta(t);
      assert tokens[..0] == [];
      if !IsDigits(t) && n < 2 {
        assert Underflows(n, tokens, 0);
      } else {
        var stack' := if IsDigits(t) then stack + [Number(DecimalValue(t))]
                      else stack[..n - 2] + [BinOp(stack[n - 2], stack[n - 1], t)];
        assert |stack'| == n + d;
        assert Run(stack, tokens, at) == Run(stack', tokens[1..], at + 1);
        RunOutcome(stack', tokens[1..], at + 1);
        assert !Underflows(n, tokens, 0);
        if Run(stack', tokens[1..], at + 1).Ok? {
          forall j ensures !Underflows(n, tokens, j) {
            if j >= 1 {
              UnderflowsShift(stack, tokens, j - 1);
              assert !Underflows(n + d, tokens[1..], j - 1);
            }
          }
        } else {
          var k := Run(stack', tokens[1..], at + 1).error.at - (at + 1);
          UnderflowsShift(stack, tokens, k);
          assert Underflows(n, tokens, k + 1);
          forall i | 0 <= i < k + 1 ensures !Underflows(n, tokens, i) {
            if i >= 1 {
              UnderflowsShift(stack, tokens, i - 1);
              assert !Underflows(n + d, tokens[1..], i - 1);
            }
          }
        }
      }
    }
  }

  lemma {:induction false} RunKeepsAnEntry(stack: seq<Expr>, tokens: seq<string>, at: nat)
    requires stack != [] || tokens != []
    ensures Run(stack, tokens, at).Ok? ==> Run(stack, tokens, at).value != []
    decreases |tokens|
  {
    if tokens != [] {
      var t := tokens[0];
      var n := |stack|;
      if IsDigits(t) {
        RunKeepsAnEntry(stack + [Number(DecimalValue(t))], tokens[1..], at + 1);
      } else if n >= 2 {
        RunKeepsAnEntry(stack[..n - 2] + [BinOp(stack[n - 2], stack[n - 1], t)], tokens[1..], at + 1);
      }
    }
  }

  /** `parse` fails on an empty token list, fails at the first operator that
      finds fewer than two entries, and succeeds in every other case. */
  lemma ParseOutcome(tokens: seq<string>)
    ensures Parsed(tokens) == Err(EmptyProgram) <==> tokens == []
    ensures Parsed(tokens).Ok? <==> tokens != [] && forall j :: !Underflows(0, tokens, j)
    ensures Parsed(tokens).Err? && Parsed(tokens).error.StackUnderflow? ==>
      FirstUnderflow(0, tokens, Parsed(tokens).error.at)
  {
    RunOutcome([], tokens, 0);
    if tokens != [] {
      RunKeepsAnEntry([], tokens, 0);
    }
  }

  /** The tree is written back as tokens: numerals in canonical decimal and
      operator names that are not numerals. */
  predicate Printable(e: Expr) {
    match e
    case Number(v) => v >= 0
    case BinOp(l, r, op) => !IsDigits(op) && Printable(l) && Printable(r)
  }

  /** The postfix tokens of a tree: left operand, right operand, operator. */
  function Postfix(e: Expr): seq<string>
    requires Printable(e)
  {
    match e
    case Number(v) => [DecimalString(v)]
    case BinOp(l, r, op) => Postfix(l) + Postfix(r) + [op]
  }

  /** The tokens of one tree push exactly that tree, whatever was on the
      stack and whatever follows: the first operand popped is the right one. */
  lemma {:induction false} RunPostfix(e: Expr, stack: seq<Expr>, rest: seq<string>, at: nat)
    requires Printable(e)
    ensures Run(stack, Postfix(e) + rest, at) == Run(stack + [e], rest, at + |Postfix(e)|)
    decreases e
  {
    match e
    case Number(v) =>
      ValueOfString(v);
      assert ([DecimalString(v)] + rest)[1..] == rest;
    case BinOp(l, r, op) =>
      var pl, pr := Postfix(l), Postfix(r);
      assert Postfix(e) + rest == pl + (pr + ([op] + rest));
      RunPostfix(l, stack, pr + ([op] + rest), at);
      RunPostfix(r, stack + [l], [op] + rest, at + |pl|);
      var s2 := stack + [l] + [r];
      assert s2[..|s2| - 2] == stack;
      assert ([op] + rest)[1..] == rest;
  }

  /** `parse` inverts postfix printing. */
  lemma ParsePostfix(e: Expr)
    requires Printable(e)
    ensures Parsed(Postfix(e)) == Ok(e)
  {
    RunPostfix(e, [], [], 0);
    assert Postfix(e) + [] == Postfix(e);
  }

  function PostfixAll(es: seq<Expr>): seq<string>
    requires forall i :: 0 <= i < |es| ==> Printable(es[i])
  {
    if es == [] then [] else Postfix(es[0]) + PostfixAll(es[1..])
  }

  lemma {:induction false} RunPostfixAll(stack: seq<Expr>, es: seq<Expr>, at: nat)
    requires forall i :: 0 <= i < |es| ==> Printable(es[i])
    ensures Run(stack, PostfixAll(es), at) == Ok(stack + es)
    decreases |es|
  {
    if es == [] {
      assert stack + es == stack;
    } else {
      RunPostfix(es[0], stack, PostfixAll(es[1..]), at);
      RunPostfixAll(stack + [es[0]], es[1..], at + |Postfix(es[0])|);
      assert stack + [es[0]] + es[1..] == stack + es;
    }
  }

  /** Several trees in a row parse to the first one: `parse` returns
      `stack[0]` and ignores what was pushed above it. */
  lemma ParseKeepsBottom(es: seq<Expr>)
    requires es != [] && forall i :: 0 <= i < |es| ==> Printable(es[i])
    ensures Parsed(PostfixAll(es)) == Ok(es[0])
  {
    RunPostfixAll([], es, 0);
    assert [] + es == es;
  }

  /** Every literal of the result is the value of a number token. */
  lemma {:induction false} RunLiterals(stack: seq<Expr>, tokens: seq<string>, at: nat, bound: int)
    requires forall i :: 0 <= i < |stack| ==> LiteralsBelow(stack[i], bound)
    requires forall t :: t in tokens && IsDigits(t) ==> DecimalValue(t) <= bound
    ensures Run(stack, tokens, at).Ok? ==>
      forall i :: 0 <= i < |Run(stack, tokens, at).value| ==> LiteralsBelow(Run(stack, tokens, at).value[i], bound)
    decreases |tokens|
  {
    if tokens != [] {
      var t := tokens[0];
      var n := |stack|;
      assert forall u :: u in tokens[1..] ==> u in tokens;
      if IsDigits(t) {
        RunLiterals(stack + [Number(DecimalValue(t))], tokens[1..], at + 1, bound);
      } else if n >= 2 {
        RunLiterals(stack[..n - 2] + [BinOp(stack[n - 2], stack[n - 1], t)], tokens[1..], at + 1, bound);
      }
    }
  }

  /** Every literal lies in 0..bound. */
  predicate LiteralsBelow(e: Expr, bound: int) {
    match e
    case Number(v) => 0 <= v <= bound
    case BinOp(l, r, _) => LiteralsBelow(l, bound) && LiteralsBelow(r, bound)
  }

  /** A parse whose number tokens all fit `i32` yields a tree whose literals do. */
  lemma ParsedLiteralsFit(tokens: seq<string>)
    requires forall t :: t in tokens && IsDigits(t) ==> DecimalValue(t) <= Int32.Max
    ensures Parsed(tokens).Ok? ==> LiteralsFit(Parsed(tokens).value)
  {
    RunLiterals([], tokens, 0, Int32.Max);
    if Parsed(tokens).Ok? {
      BelowFits(Parsed(tokens).value);
    }
  }

  lemma {:induction false} BelowFits(e: Expr)
    requires LiteralsBelow(e, Int32.Max)
    ensures LiteralsFit(e)
  {
    match e
    case Number(_) =>
    case BinOp(l, r, _) => BelowFits(l); BelowFits(r);
  }

  /** `parse("3 4 sub".split())` has left operand 3 and right operand 4. */
  lemma OperandOrderExample()
    ensures Parsed(["3", "4", "sub"]) == Ok(BinOp(Number(3), Number(4), "sub"))
  {
    var e := BinOp(Number(3), Number(4), "sub");
    assert !IsDigit("sub"[0]);
    assert Postfix(e) == ["3", "4", "sub"];
    ParsePostfix(e);
  }

  /** `parse(["3", "4"])` is `Number(3)`, the bottom of the stack. */
  lemma BottomExample()
    ensures Parsed(["3", "4"]) == Ok(Number(3))
  {
    assert PostfixAll([Number(3), Number(4)]) == ["3", "4"];
    ParseKeepsBottom([Number(3), Number(4)]);
  }

  /** `parse(["add"])` underflows at token 0. */
  lemma UnderflowExample()
    ensures Parsed(["add"]) == Err(StackUnderflow(0))
  {
  }

  /** Any token that is not a numeral is taken as an operator name. */
  lemma AnyOperatorName(op: string)
    requires !IsDigits(op)
    ensures Parsed(["1", "2", op]) == Ok(BinOp(Number(1), Number(2), op))
  {
    var e := BinOp(Number(1), Number(2), op);
    assert Printable(Number(1)) && Printable(Number(2));
    assert Postfix(e) == ["1", "2", op];
    ParsePostfix(e);
  }
}
