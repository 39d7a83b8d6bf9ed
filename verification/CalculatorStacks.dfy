/** How much of their fixed stacks the two programs of the calculator use: while the text
    of an expression is read and while its chain is run. */
module CalculatorStacks {
  import opened Basics
  import opened Calculator

  function Max(a: nat, b: nat): (m: nat) {
    if a < b then b else a
  }

  /** The most symbols on the operator stack while text is read, up to where the C code
      would pop an empty stack. */
  function Highest(p: Parse, text: string): (n: nat)
    requires p.Valid()
    ensures |p.stack| <= n
    decreases |text|
  {
    if text == [] then |p.stack|
    else
      var q := ParseChar(p, text[0]);
      if q == None then |p.stack| else Max(|p.stack|, Highest(q.value, text[1..]))
  }

  /** The slots an expression needs on the operator stack */
  function SymbolSlots(e: Expr): (n: nat) {
    match e
    case Literal(_, _) => 0
    case Paren(_, body, _) => 1 + SymbolSlots(body)
    case Sum(l, _, r) => Max(SymbolSlots(l), 1 + SymbolSlots(r))
    case Product(l, _, r) => Max(SymbolSlots(l), 1 + SymbolSlots(r))
  }

  // ---------- reading the text ----------

  lemma {:induction false} HighestAppend(p: Parse, a: string, b: string)
    requires p.Valid()
    ensures Highest(p, a + b) ==
      if ParseText(p, a) == None then Highest(p, a) else Max(Highest(p, a), Highest(ParseText(p, a).value, b))
    decreases |a|
  {
    if a == [] {
      assert a + b == b;
    } else {
      assert (a + b)[0] == a[0] && (a + b)[1..] == a[1..] + b;
      var q := ParseChar(p, a[0]);
      if q.Some? {
        HighestAppend(q.value, a[1..], b);
      }
    }
  }

  lemma HighestOne(p: Parse, c: char)
    requires p.Valid()
    ensures var q := ParseChar(p, c);
      Highest(p, [c]) == if q == None then |p.stack| else Max(|p.stack|, |q.value.stack|)
  {
    assert [c][1..] == [];
  }

  lemma {:induction false} HighestPad(p: Parse, pad: string)
    requires p.Valid() && Skipped(pad)
    ensures Highest(p, pad) == |p.stack|
    decreases |pad|
  {
    if pad != [] {
      assert pad[0] in pad;
      HighestPad(Flush(p), pad[1..]);
    }
  }

  lemma {:induction false} HighestDigits(p: Parse, digits: string)
    requires p.Valid() && forall c :: c in digits ==> IsDigit(c)
    ensures Highest(p, digits) == |p.stack|
    decreases |digits|
  {
    if digits != [] {
      assert digits[0] in digits;
      HighestDigits(p.(digits := p.digits + [digits[0]]), digits[1..]);
    }
  }

  lemma HighestSymbol(p: Parse, pad: string, c: char, q: Parse)
    requires p.Valid() && Skipped(pad) && c in SYMBOLS && ParseText(p, pad + [c]) == Some(q)
    ensures Highest(p, pad + [c]) == Max(|p.stack|, |q.stack|)
  {
    HighestAppend(p, pad, [c]);
    HighestPad(p, pad);
    ParsePad(p, pad);
    ParsePadSymbol(p, pad, c);
    HighestOne(p, c);
    HighestOne(Flush(p), c);
  }

  lemma HighestThree(p: Parse, a: string, p1: Parse, b: string, p2: Parse, c: string)
    requires p.Valid() && p1.Valid() && p2.Valid()
    requires ParseText(p, a) == Some(p1) && ParseText(p1, b) == Some(p2)
    ensures Highest(p, a + b + c) == Max(Max(Highest(p, a), Highest(p1, b)), Highest(p2, c))
  {
    ParseAppend(p, a, b);
    HighestAppend(p, a, b);
    HighestAppend(p, a + b, c);
  }

  lemma {:induction false} HighestEnd(p: Parse, text: string)
    requires p.Valid() && ParseText(p, text).Some?
    ensures |ParseText(p, text).value.stack| <= Highest(p, text)
    decreases |text|
  {
    if text != [] {
      HighestEnd(ParseChar(p, text[0]).value, text[1..]);
    }
  }

  /** Reading the text of e uses exactly SymbolSlots(e) slots more. */
  lemma {:induction false} ExprHighest(p: Parse, e: Expr)
    requires p.Valid() && WellFormed(e) && p.digits == [] && Separate(e, p.stack)
    ensures Highest(p, Text(e)) == |p.stack| + SymbolSlots(e)
    decreases e, 1
  {
    match e
    case Literal(pad, digits) =>
      HighestAppend(p, pad, digits);
      HighestPad(p, pad);
      ParsePad(p, pad);
      HighestDigits(p, digits);
    case Paren(_, _, _) => ParenHighest(p, e);
    case Sum(_, _, _) => BinaryHighest(p, e, '+', {'+', '*'});
    case Product(_, _, _) => BinaryHighest(p, e, '*', {'*'});
  }

  lemma {:induction false} ParenHighest(p: Parse, e: Expr)
    requires p.Valid() && e.Paren? && WellFormed(e) && p.digits == []
    ensures Highest(p, Text(e)) == |p.stack| + SymbolSlots(e)
    decreases e, 0
  {
    var Paren(pad, body, close) := e;
    var p1 := PushOp(p, '(');
    OpenParen(p, pad);
    ParseExpr(p1, body);
    var p2 := ParseText(p1, Text(body)).value;
    CloseParen(p, body, p2, close);
    HighestSymbol(p, pad, '(', p1);
    ExprHighest(p1, body);
    HighestEnd(p1, Text(body));
    HighestSymbol(p2, close, ')', Parse([], p.stack, p.chain + Postfix(body)));
    HighestThree(p, pad + ['('], p1, Text(body), p2, close + [')']);
    ParenHasRead(p, e);
  }

  lemma {:induction false} BinaryHighest(p: Parse, e: Expr, op: char, which: set<char>)
    requires p.Valid() && p.digits == [] && WellFormed(e) && Separate(e, p.stack)
    requires (e.Sum? && op == '+' && which == {'+', '*'}) || (e.Product? && op == '*' && which == {'*'})
    ensures Highest(p, Text(e)) == |p.stack| + SymbolSlots(e)
    decreases e, 0
  {
    ParseExpr(p, e.left);
    var p1 := ParseText(p, Text(e.left)).value;
    var p2 := Parse([], p.stack + [op], p.chain + Postfix(e.left));
    OperatorRead(p, e, op, which, p1, p2);
    ExprHighest(p, e.left);
    HighestEnd(p, Text(e.left));
    HighestSymbol(p1, e.pad, op, p2);
    ExprHighest(p2, e.right);
    HighestThree(p, Text(e.left), p1, e.pad + [op], p2, Text(e.right));
    TextSplit(e, op);
  }

  /** A skipped tail changes nothing. */
  lemma TextHighest(e: Expr, tail: string)
    requires WellFormed(e) && Skipped(tail)
    ensures Highest(Parse([], [], []), Text(e) + tail) == SymbolSlots(e)
  {
    var start := Parse([], [], []);
    ParseExpr(start, e);
    ExprHighest(start, e);
    HighestEnd(start, Text(e));
    HighestAppend(start, Text(e), tail);
    HighestPad(ParseText(start, Text(e)).value, tail);
  }

  // ---------- running the chain ----------

  /** The most numbers on the operand stack while a chain is run */
  function HighestRun(m: Machine, chain: seq<Item>): (n: nat)
    ensures |m.stack| <= n
    decreases |chain|
  {
    if chain == [] then |m.stack|
    else
      var n := Execute(m, chain[0]);
      if n == None then |m.stack| else Max(|m.stack|, HighestRun(n.value, chain[1..]))
  }

  /** The slots an expression needs on the operand stack */
  function NumberSlots(e: Expr): (n: nat)
    ensures n >= 1
  {
    match e
    case Literal(_, _) => 1
    case Paren(_, body, _) => NumberSlots(body)
    case Sum(l, _, r) => Max(NumberSlots(l), 1 + NumberSlots(r))
    case Product(l, _, r) => Max(NumberSlots(l), 1 + NumberSlots(r))
  }

  lemma {:induction false} HighestRunAppend(m: Machine, a: seq<Item>, b: seq<Item>)
    requires RunChain(m, a).Some?
    ensures HighestRun(m, a + b) == Max(HighestRun(m, a), HighestRun(RunChain(m, a).value, b))
    decreases |a|
  {
    if a == [] {
      assert a + b == b;
    } else {
      assert (a + b)[0] == a[0] && (a + b)[1..] == a[1..] + b;
      HighestRunAppend(Execute(m, a[0]).value, a[1..], b);
    }
  }

  lemma HighestRunOne(m: Machine, item: Item)
    ensures var n := Execute(m, item);
      HighestRun(m, [item]) == if n == None then |m.stack| else Max(|m.stack|, |n.value.stack|)
  {
    assert [item][1..] == [];
  }

  /** Running the postfix form of e uses exactly NumberSlots(e) slots more. */
  lemma {:induction false} PostfixHighest(m: Machine, e: Expr)
    requires WellFormed(e)
    ensures HighestRun(m, Postfix(e)) == |m.stack| + NumberSlots(e)
    decreases e, 1
  {
    match e
    case Literal(_, digits) => HighestRunOne(m, Number(Atoi(digits)));
    case Paren(_, body, _) => PostfixHighest(m, body);
    case Sum(_, _, _) => BinaryRunHighest(m, e, '+');
    case Product(_, _, _) => BinaryRunHighest(m, e, '*');
  }

  lemma {:induction false} BinaryRunHighest(m: Machine, e: Expr, op: char)
    requires WellFormed(e) && ((e.Sum? && op == '+') || (e.Product? && op == '*'))
    ensures HighestRun(m, Postfix(e)) == |m.stack| + NumberSlots(e)
    decreases e, 0
  {
    var l, r := e.left, e.right;
    PostfixRuns(m, l);
    PostfixHighest(m, l);
    var m1 := Evaluated(m, l);
    PostfixRuns(m1, r);
    PostfixHighest(m1, r);
    var m2 := Evaluated(m1, r);
    RunAppend(m, Postfix(l), Postfix(r));
    HighestRunAppend(m, Postfix(l), Postfix(r));
    HighestRunAppend(m, Postfix(l) + Postfix(r), [Symbol(op)]);
    OperatorHighest(m, e, m2, op);
  }

  /** An operator leaves fewer numbers than it finds. */
  lemma OperatorHighest(m: Machine, e: Expr, m2: Machine, op: char)
    requires WellFormed(e) && ((e.Sum? && op == '+') || (e.Product? && op == '*'))
    requires m2 == Evaluated(Evaluated(m, e.left), e.right)
    ensures HighestRun(m2, [Symbol(op)]) == |m2.stack| == |m.stack| + 2
  {
    RunOperator(m, e, m2, op);
    RunOne(m2, Symbol(op));
    HighestRunOne(m2, Symbol(op));
  }
}
