/** The calculator of programming_pearls: infix text is turned into a postfix chain
    with an operator stack (parse.c), and a stack machine runs the chain (cal.c). */
module Calculator {

  import opened Basics
  import opened Numerals

  /** One element of the chain: a number or an operator character. */
  datatype Item = Number(num: int) | Symbol(op: char)

  const SYMBOLS := ['+', '*', '(', ')']

  predicate IsDigit(c: char) {
    '0' as int <= c as int <= '9' as int
  }

  /** The value atoi gives to a string of digits. */
  function Atoi(digits: string): (n: nat)
    requires forall c :: c in digits ==> IsDigit(c)
  {
    if digits == [] then 0
    else
      var last := digits[|digits| - 1];
      assert IsDigit(last);
      10 * Atoi(digits[..|digits| - 1]) + (last as int - '0' as int)
  }

  // ---------- numbers are decimal ----------

  const DIGITS := "0123456789"

  /** isdigit accepts the ten digit characters. */
  lemma DigitCharacters(c: char)
    ensures IsDigit(c) <==> c in DIGITS
    ensures forall d: nat :: d < 10 ==> Atoi([DIGITS[d]]) == d
  {
    if IsDigit(c) {
      assert DIGITS[c as int - '0' as int] == c;
    }
    forall d: nat | d < 10
      ensures Atoi([DIGITS[d]]) == d
    {
      assert [DIGITS[d]][..0] == [];
    }
  }

  /** The text of a row of digits */
  function Spell(ds: seq<nat>): (digits: string)
    requires forall i :: 0 <= i < |ds| ==> ds[i] < 10
    ensures |digits| == |ds| && forall i :: 0 <= i < |ds| ==> digits[i] == DIGITS[ds[i]]
  {
    seq(|ds|, i requires 0 <= i < |ds| => DIGITS[ds[i]])
  }

  /** atoi gives each digit the power of ten that its place stands for. */
  lemma {:induction false} AtoiIsDecimal(ds: seq<nat>)
    requires forall i :: 0 <= i < |ds| ==> ds[i] < 10
    ensures forall c :: c in Spell(ds) ==> IsDigit(c)
    ensures Atoi(Spell(ds)) == Places(ds, 10)
  {
    forall c | c in Spell(ds)
      ensures IsDigit(c)
    {
      DigitCharacters(c);
    }
    if ds != [] {
      var n := |ds| - 1;
      AtoiIsDecimal(ds[..n]);
      assert Spell(ds)[..n] == Spell(ds[..n]);
      assert ds == ds[..n] + [ds[n]];
      PlacesAppend(ds[..n], ds[n], 10);
    }
  }

  /** Reading the decimal numeral of a number gives the number. */
  lemma AtoiOfNumeral(n: nat)
    ensures var numeral := Spell(Reversed(DigitsOf(n)));
      (forall c :: c in numeral ==> IsDigit(c)) && Atoi(numeral) == n
  {
    AtoiIsDecimal(Reversed(DigitsOf(n)));
    NumeralIsNumber(n);
  }

  // ---------- parse.c as a function of the text ----------

  /** The digit buffer, the operator stack (top last) and the chain so far. */
  datatype Parse = Parse(digits: string, stack: string, chain: seq<Item>)
  {
    predicate Valid() {
      forall c :: c in digits ==> IsDigit(c)
    }
  }

  function Top(stack: string): (c: char) {
    if stack == [] then '\0' else stack[|stack| - 1]
  }

  function Rest(stack: string): (r: string)
    requires stack != []
  {
    stack[..|stack| - 1]
  }

  /** insertNum of the buffered digits, if there are any. */
  function Flush(p: Parse): (q: Parse)
    requires p.Valid()
    ensures q.Valid() && q.digits == [] && q.stack == p.stack
  {
    if p.digits == [] then p
    else Parse([], p.stack, p.chain + [Number(Atoi(p.digits))])
  }

  /** Moves operators from the stack to the chain while the top is in `ops`. */
  function PopWhile(p: Parse, ops: set<char>): (q: Parse)
    requires p.Valid()
    ensures q.Valid() && q.digits == p.digits && q.stack <= p.stack
    decreases |p.stack|
  {
    if p.stack == [] || Top(p.stack) !in ops then p
    else PopWhile(Parse(p.digits, Rest(p.stack), p.chain + [Symbol(Top(p.stack))]), ops)
  }

  /** Moves operators to the chain up to and excluding the nearest '('; None when
      there is none, where the source pops an empty stack. */
  function PopToParen(p: Parse): (q: Option<Parse>)
    requires p.Valid()
    ensures q.Some? ==> q.value.Valid() && q.value.digits == p.digits
    ensures q.Some? ==> q.value.stack != [] && Top(q.value.stack) == '('
    decreases |p.stack|
  {
    if p.stack == [] then None
    else if Top(p.stack) == '(' then Some(p)
    else PopToParen(Parse(p.digits, Rest(p.stack), p.chain + [Symbol(Top(p.stack))]))
  }

  function PushOp(p: Parse, c: char): (q: Parse) {
    p.(stack := p.stack + [c])
  }

  /** The loop body of parseBuf for one character; None where the C code would pop
      an empty stack. */
  function ParseChar(p: Parse, c: char): (q: Option<Parse>)
    requires p.Valid()
    ensures q.Some? ==> q.value.Valid()
  {
    if IsDigit(c) then Some(p.(digits := p.digits + [c]))
    else
      var p := Flush(p);
      if c !in SYMBOLS then Some(p)
      else if p.stack == [] then Some(PushOp(p, c))
      else if c == '*' then Some(PushOp(PopWhile(p, {'*'}), c))
      else if c == '+' then Some(PushOp(PopWhile(p, {'+', '*'}), c))
      else if c == '(' then Some(PushOp(p, c))
      else
        var q := PopToParen(p);
        if q == None then None else Some(q.value.(stack := Rest(q.value.stack)))
  }

  function ParseText(p: Parse, text: string): (q: Option<Parse>)
    requires p.Valid()
    ensures q.Some? ==> q.value.Valid()
    decreases |text|
  {
    if text == [] then Some(p)
    else
      var q := ParseChar(p, text[0]);
      if q == None then None else ParseText(q.value, text[1..])
  }

  /** The end of parseBuf: the last number, then everything on the stack. */
  function Drain(stack: string): (items: seq<Item>)
    ensures |items| == |stack|
  {
    if stack == [] then [] else [Symbol(Top(stack))] + Drain(Rest(stack))
  }

  /** Appending the chain of a text to an existing chain. */
  function ParseOnto(chain: seq<Item>, text: string): (r: Option<seq<Item>>) {
    var p := ParseText(Parse([], [], chain), text);
    if p == None then None
    else var q := Flush(p.value); Some(q.chain + Drain(q.stack))
  }

  function ParseBuffer(text: string): (chain: Option<seq<Item>>) {
    ParseOnto([], text)
  }

  // ---------- cal.c as a function of the chain ----------

  /** The operand stack (top last) and the variable `res`, unset at first. */
  datatype Machine = Machine(stack: seq<int>, res: Option<int>)

  /** None where the C code would pop an empty stack or push an unset `res`. */
  function Execute(m: Machine, item: Item): (n: Option<Machine>) {
    match item
    case Number(k) => Some(Machine(m.stack + [k], m.res))
    case Symbol(op) =>
      if |m.stack| < 2 then None
      else
        var op1, op2 := m.stack[|m.stack| - 1], m.stack[|m.stack| - 2];
        var res := if op == '+' then Some(op1 + op2) else if op == '*' then Some(op1 * op2) else m.res;
        if res == None then None
        else Some(Machine(m.stack[..|m.stack| - 2] + [res.value], res))
  }

  function RunChain(m: Machine, chain: seq<Item>): (n: Option<Machine>)
    decreases |chain|
  {
    if chain == [] then Some(m)
    else
      var n := Execute(m, chain[0]);
      if n == None then None else RunChain(n.value, chain[1..])
  }

  // ---------- well-formed expressions ----------

  /** Syntax trees of the grammar
        sum = product | sum '+' product,  product = atom | product '*' atom,
        atom = digits | '(' sum ')'
      with skipped characters (`pad`) allowed before every token. */
  datatype Expr =
    | Literal(pad: string, digits: string)
    | Paren(pad: string, body: Expr, close: string)
    | Sum(left: Expr, pad: string, right: Expr)
    | Product(left: Expr, pad: string, right: Expr)

  predicate Skipped(pad: string) {
    forall c :: c in pad ==> !IsDigit(c) && c !in SYMBOLS
  }

  predicate WellFormed(e: Expr) {
    match e
    case Literal(pad, digits) => Skipped(pad) && digits != [] && forall c :: c in digits ==> IsDigit(c)
    case Paren(pad, body, close) => Skipped(pad) && WellFormed(body) && Skipped(close)
    case Sum(l, pad, r) => WellFormed(l) && Skipped(pad) && WellFormed(r) && !r.Sum?
    case Product(l, pad, r) =>
      WellFormed(l) && Skipped(pad) && WellFormed(r) && !l.Sum? && !r.Sum? && !r.Product?
  }

  function Text(e: Expr): (t: string) {
    match e
    case Literal(pad, digits) => pad + digits
    case Paren(pad, body, close) => pad + ['('] + Text(body) + close + [')']
    case Sum(l, pad, r) => Text(l) + pad + ['+'] + Text(r)
    case Product(l, pad, r) => Text(l) + pad + ['*'] + Text(r)
  }

  /** The value under the usual precedence; both operators group to the left. */
  function Value(e: Expr): (v: int)
    requires WellFormed(e)
  {
    match e
    case Literal(_, digits) => Atoi(digits)
    case Paren(_, body, _) => Value(body)
    case Sum(l, _, r) => Value(l) + Value(r)
    case Product(l, _, r) => Value(l) * Value(r)
  }

  function Postfix(e: Expr): (items: seq<Item>)
    requires WellFormed(e)
  {
    match e
    case Literal(_, digits) => [Number(Atoi(digits))]
    case Paren(_, body, _) => Postfix(body)
    case Sum(l, _, r) => Postfix(l) + Postfix(r) + [Symbol('+')]
    case Product(l, _, r) => Postfix(l) + Postfix(r) + [Symbol('*')]
  }

  predicate HasOperator(e: Expr) {
    match e
    case Literal(_, _) => false
    case Paren(_, body, _) => HasOperator(body)
    case Sum(_, _, _) => true
    case Product(_, _, _) => true
  }

  // ---------- the machine computes the value of the postfix form ----------

  lemma {:induction false} RunAppend(m: Machine, a: seq<Item>, b: seq<Item>)
    ensures RunChain(m, a + b) ==
            if RunChain(m, a) == None then None else RunChain(RunChain(m, a).value, b)
    decreases |a|
  {
    if a == [] {
      assert a + b == b;
    } else {
      assert (a + b)[0] == a[0] && (a + b)[1..] == a[1..] + b;
      var n := Execute(m, a[0]);
      if n.Some? {
        RunAppend(n.value, a[1..], b);
      }
    }
  }

  /** What the postfix form of e does to a machine. */
  function Evaluated(m: Machine, e: Expr): (n: Machine)
    requires WellFormed(e)
  {
    Machine(m.stack + [Value(e)], if HasOperator(e) then Some(Value(e)) else m.res)
  }

  lemma {:induction false} PostfixRuns(m: Machine, e: Expr)
    requires WellFormed(e)
    ensures RunChain(m, Postfix(e)) == Some(Evaluated(m, e))
    decreases e, 1
  {
    match e
    case Literal(_, digits) =>
      assert RunChain(m, [Number(Atoi(digits))]) == RunChain(Execute(m, Number(Atoi(digits))).value, []);
    case Paren(_, body, _) => PostfixRuns(m, body);
    case Sum(_, _, _) => BinaryRuns(m, e);
    case Product(_, _, _) => BinaryRuns(m, e);
  }

  lemma {:induction false} BinaryRuns(m: Machine, e: Expr)
    requires WellFormed(e) && (e.Sum? || e.Product?)
    ensures RunChain(m, Postfix(e)) == Some(Evaluated(m, e))
    decreases e, 0
  {
    var l, r, op := e.left, e.right, if e.Sum? then '+' else '*';
    PostfixRuns(m, l);
    var m1 := Evaluated(m, l);
    PostfixRuns(m1, r);
    var m2 := Evaluated(m1, r);
    RunAppend(m, Postfix(l), Postfix(r));
    RunAppend(m, Postfix(l) + Postfix(r), [Symbol(op)]);
    RunOperator(m, e, m2, op);
  }

  /** The operator combines the two values on top of the stack. */
  lemma RunOperator(m: Machine, e: Expr, m2: Machine, op: char)
    requires WellFormed(e) && ((e.Sum? && op == '+') || (e.Product? && op == '*'))
    requires m2 == Evaluated(Evaluated(m, e.left), e.right)
    ensures RunChain(m2, [Symbol(op)]) == Some(Evaluated(m, e))
  {
    ExecuteOperator(m2, m.stack, Value(e.left), Value(e.right), op);
    RunOne(m2, Symbol(op));
  }

  lemma ExecuteOperator(m: Machine, stack: seq<int>, a: int, b: int, op: char)
    requires m.stack == stack + [a] + [b] && (op == '+' || op == '*')
    ensures var v := if op == '+' then a + b else b * a; Execute(m, Symbol(op)) == Some(Machine(stack + [v], Some(v)))
  {
    assert m.stack[..|m.stack| - 2] == stack;
  }

  lemma RunOne(m: Machine, item: Item)
    ensures RunChain(m, [item]) == Execute(m, item)
  {
    assert [item][1..] == [];
  }

  // ---------- the parser produces the postfix form ----------

  lemma {:induction false} ParseAppend(p: Parse, a: string, b: string)
    requires p.Valid()
    ensures ParseText(p, a + b) ==
            if ParseText(p, a) == None then None else ParseText(ParseText(p, a).value, b)
    decreases |a|
  {
    if a == [] {
      assert a + b == b;
    } else {
      assert (a + b)[0] == a[0] && (a + b)[1..] == a[1..] + b;
      var q := ParseChar(p, a[0]);
      if q.Some? {
        ParseAppend(q.value, a[1..], b);
      }
    }
  }

  lemma ParseThree(p: Parse, a: string, p1: Parse, b: string, p2: Parse, c: string)
    requires p.Valid() && p1.Valid() && p2.Valid()
    requires ParseText(p, a) == Some(p1) && ParseText(p1, b) == Some(p2)
    ensures ParseText(p, a + b + c) == ParseText(p2, c)
  {
    ParseAppend(p, a, b);
    ParseAppend(p, a + b, c);
  }

  lemma ParseOne(p: Parse, c: char)
    requires p.Valid()
    ensures ParseText(p, [c]) == ParseChar(p, c)
  {
    var q := ParseChar(p, c);
    if q.Some? {
      assert ParseText(q.value, [c][1..]) == q;
    }
  }

  /** Skipped characters at most end the number before them. */
  lemma {:induction false} ParsePad(p: Parse, pad: string)
    requires p.Valid() && Skipped(pad)
    ensures ParseText(p, pad) == Some(if pad == [] then p else Flush(p))
    decreases |pad|
  {
    if pad != [] {
      assert pad[0] in pad;
      ParsePad(Flush(p), pad[1..]);
    }
  }

  lemma {:induction false} ParseDigits(p: Parse, digits: string)
    requires p.Valid() && forall c :: c in digits ==> IsDigit(c)
    ensures ParseText(p, digits) == Some(p.(digits := p.digits + digits))
    decreases |digits|
  {
    if digits == [] {
      assert p.digits + digits == p.digits;
    } else {
      assert digits[0] in digits;
      ParseDigits(p.(digits := p.digits + [digits[0]]), digits[1..]);
      assert p.digits + [digits[0]] + digits[1..] == p.digits + digits;
    }
  }

  /** A symbol after skipped characters meets an empty digit buffer either way. */
  lemma ParsePadSymbol(p: Parse, pad: string, c: char)
    requires p.Valid() && Skipped(pad) && c in SYMBOLS
    ensures ParseText(p, pad + [c]) == ParseChar(Flush(p), c) == ParseChar(p, c)
  {
    ParseAppend(p, pad, [c]);
    ParsePad(p, pad);
    ParseOne(p, c);
    ParseOne(Flush(p), c);
    assert !IsDigit(c);
  }

  /** The operators of e that are still on the stack when its text has been read. */
  function Pending(e: Expr): (ops: string) {
    match e
    case Literal(_, _) => []
    case Paren(_, _, _) => []
    case Sum(_, _, r) => ['+'] + Pending(r)
    case Product(_, _, _) => ['*']
  }

  lemma {:induction false} NoneToPop(p: Parse)
    requires p.Valid()
    ensures PopToParen(p) == None <==> '(' !in p.stack
    decreases |p.stack|
  {
    if p.stack != [] && Top(p.stack) != '(' {
      NoneToPop(Parse(p.digits, Rest(p.stack), p.chain + [Symbol(Top(p.stack))]));
      assert p.stack == Rest(p.stack) + [Top(p.stack)];
    }
  }

  /** Outside well-formed expressions: a closing parenthesis without an opening one below it
      makes parseBuf pop an empty stack, unless the stack is empty to begin with; then the
      parenthesis itself is pushed.  Nothing else does. */
  lemma CloseWithoutOpen(p: Parse, c: char)
    requires p.Valid()
    ensures ParseChar(p, c) == None <==> c == ')' && p.stack != [] && '(' !in p.stack
    ensures c == ')' && p.stack == [] ==> ParseChar(p, c) == Some(Flush(p).(stack := [')']))
  {
    NoneToPop(Flush(p));
    assert [] + [c] == [c];
  }

  /** What must not be on top of the stack for e to be read on its own. */
  predicate Separate(e: Expr, stack: string) {
    && (e.Sum? ==> Top(stack) !in {'+', '*'})
    && (e.Product? ==> Top(stack) != '*')
  }

  lemma PendingOps(e: Expr)
    requires WellFormed(e)
    ensures forall c :: c in Pending(e) ==> c == '+' || c == '*'
    ensures !e.Sum? ==> forall c :: c in Pending(e) ==> c == '*'
  {
  }

  /** Popping exactly the operators above a base that does not qualify. */
  lemma {:induction false} PopPending(p: Parse, base: string, ops: string, which: set<char>)
    requires p.Valid() && p.stack == base + ops
    requires (forall c :: c in ops ==> c in which) && (base == [] || Top(base) !in which)
    ensures PopWhile(p, which) == Parse(p.digits, base, p.chain + Drain(ops))
    decreases |ops|
  {
    if ops == [] {
      assert base + ops == base;
      assert p.chain + Drain(ops) == p.chain;
    } else {
      assert Top(p.stack) == Top(ops) && Top(ops) in ops;
      assert Rest(p.stack) == base + Rest(ops);
      var q := Parse(p.digits, Rest(p.stack), p.chain + [Symbol(Top(ops))]);
      PopPending(q, base, Rest(ops), which);
      assert q.chain + Drain(Rest(ops)) == p.chain + Drain(ops);
    }
  }

  lemma {:induction false} PopPendingToParen(p: Parse, base: string, ops: string)
    requires p.Valid() && p.stack == base + ['('] + ops && '(' !in ops
    ensures PopToParen(p) == Some(Parse(p.digits, base + ['('], p.chain + Drain(ops)))
    decreases |ops|
  {
    if ops == [] {
      assert base + ['('] + ops == base + ['('];
      assert p.chain + Drain(ops) == p.chain;
    } else {
      assert Top(p.stack) == Top(ops) && Top(ops) in ops;
      assert Rest(p.stack) == base + ['('] + Rest(ops);
      var q := Parse(p.digits, Rest(p.stack), p.chain + [Symbol(Top(ops))]);
      PopPendingToParen(q, base, Rest(ops));
      assert q.chain + Drain(Rest(ops)) == p.chain + Drain(ops);
    }
  }

  /** After the text of e the chain, the buffered number and the pending operators
      together spell the postfix form of e. */
  ghost predicate HasRead(p: Parse, e: Expr, q: Parse)
    requires p.Valid() && WellFormed(e)
  {
    && q.Valid()
    && q.stack == p.stack + Pending(e)
    && Flush(q).chain + Drain(Pending(e)) == p.chain + Postfix(e)
  }

  lemma {:induction false} ParseExpr(p: Parse, e: Expr)
    requires p.Valid() && WellFormed(e) && p.digits == [] && Separate(e, p.stack)
    ensures ParseText(p, Text(e)).Some? && HasRead(p, e, ParseText(p, Text(e)).value)
    decreases e, 1
  {
    match e
    case Literal(pad, digits) => ParseLiteral(p, pad, digits);
    case Paren(_, _, _) => ParseParen(p, e);
    case Sum(_, _, _) => ParseBinary(p, e, '+', {'+', '*'});
    case Product(_, _, _) => ParseBinary(p, e, '*', {'*'});
  }

  lemma ParseLiteral(p: Parse, pad: string, digits: string)
    requires p.Valid() && WellFormed(Literal(pad, digits)) && p.digits == []
    ensures ParseText(p, pad + digits) == Some(p.(digits := digits))
    ensures HasRead(p, Literal(pad, digits), p.(digits := digits))
  {
    ParseAppend(p, pad, digits);
    ParsePad(p, pad);
    ParseDigits(p, digits);
    assert p.digits + digits == digits;
    var q := p.(digits := digits);
    assert p.stack + [] == p.stack;
    assert Flush(q).chain + Drain([]) == Flush(q).chain;
  }

  lemma {:induction false} ParseParen(p: Parse, e: Expr)
    requires p.Valid() && e.Paren? && WellFormed(e) && p.digits == []
    ensures ParseText(p, Text(e)).Some? && HasRead(p, e, ParseText(p, Text(e)).value)
    decreases e, 0
  {
    var Paren(pad, body, close) := e;
    var p1 := PushOp(p, '(');
    OpenParen(p, pad);
    ParseExpr(p1, body);
    var p2 := ParseText(p1, Text(body)).value;
    CloseParen(p, body, p2, close);
    ParseThree(p, pad + ['('], p1, Text(body), p2, close + [')']);
    ParenHasRead(p, e);
  }

  lemma OpenParen(p: Parse, pad: string)
    requires p.Valid() && p.digits == [] && Skipped(pad)
    ensures PushOp(p, '(').Valid() && PushOp(p, '(').digits == [] && Top(PushOp(p, '(').stack) == '('
    ensures ParseText(p, pad + ['(']) == Some(PushOp(p, '('))
  {
    ParsePadSymbol(p, pad, '(');
  }

  /** The closing parenthesis moves what the body left on the stack. */
  lemma CloseParen(p: Parse, body: Expr, p2: Parse, close: string)
    requires p.Valid() && p.digits == [] && WellFormed(body) && Skipped(close)
    requires PushOp(p, '(').Valid() && HasRead(PushOp(p, '('), body, p2)
    ensures ParseText(p2, close + [')']) == Some(Parse([], p.stack, p.chain + Postfix(body)))
  {
    ParsePadSymbol(p2, close, ')');
    PendingOps(body);
    PopPendingToParen(Flush(p2), p.stack, Pending(body));
    assert Rest(p.stack + ['(']) == p.stack;
  }

  lemma ParenHasRead(p: Parse, e: Expr)
    requires p.Valid() && e.Paren? && WellFormed(e)
    ensures Text(e) == e.pad + ['('] + Text(e.body) + (e.close + [')'])
    ensures HasRead(p, e, Parse([], p.stack, p.chain + Postfix(e.body)))
  {
    var q := Parse([], p.stack, p.chain + Postfix(e.body));
    assert p.stack + [] == p.stack && q.chain + Drain([]) == q.chain;
  }

  lemma {:induction false} ParseBinary(p: Parse, e: Expr, op: char, which: set<char>)
    requires p.Valid() && p.digits == [] && WellFormed(e) && Separate(e, p.stack)
    requires (e.Sum? && op == '+' && which == {'+', '*'}) || (e.Product? && op == '*' && which == {'*'})
    ensures ParseText(p, Text(e)).Some? && HasRead(p, e, ParseText(p, Text(e)).value)
    decreases e, 0
  {
    ParseExpr(p, e.left);
    var p1 := ParseText(p, Text(e.left)).value;
    var p2 := Parse([], p.stack + [op], p.chain + Postfix(e.left));
    OperatorRead(p, e, op, which, p1, p2);
    ParseExpr(p2, e.right);
    var p3 := ParseText(p2, Text(e.right)).value;
    assert ParseText(p, Text(e)) == Some(p3) by {
      ParseThree(p, Text(e.left), p1, e.pad + [op], p2, Text(e.right));
      TextSplit(e, op);
    }
    BinaryHasRead(p, e, op, p2, p3);
  }

  lemma TextSplit(e: Expr, op: char)
    requires (e.Sum? && op == '+') || (e.Product? && op == '*')
    ensures Text(e) == Text(e.left) + (e.pad + [op]) + Text(e.right)
  {
    assert Text(e.left) + e.pad + [op] == Text(e.left) + (e.pad + [op]);
  }

  /** The operator character first moves what its left operand left pending. */
  lemma OperatorRead(p: Parse, e: Expr, op: char, which: set<char>, p1: Parse, p2: Parse)
    requires p.Valid() && p.digits == [] && WellFormed(e) && Separate(e, p.stack)
    requires (e.Sum? && op == '+' && which == {'+', '*'}) || (e.Product? && op == '*' && which == {'*'})
    requires HasRead(p, e.left, p1)
    requires p2 == Parse([], p.stack + [op], p.chain + Postfix(e.left))
    ensures ParseText(p1, e.pad + [op]) == Some(p2) && p2.Valid() && Separate(e.right, p2.stack)
  {
    ParsePadSymbol(p1, e.pad, op);
    assert Top(p2.stack) == op;
    PendingOps(e.left);
    PopPending(Flush(p1), p.stack, Pending(e.left), which);
    if p1.stack == [] {
      assert Pending(e.left) == [] && Flush(p1).chain + Drain([]) == Flush(p1).chain;
    }
  }

  lemma BinaryHasRead(p: Parse, e: Expr, op: char, p2: Parse, p3: Parse)
    requires p.Valid() && p2.Valid() && WellFormed(e)
    requires (e.Sum? && op == '+') || (e.Product? && op == '*')
    requires p2.stack == p.stack + [op] && p2.chain == p.chain + Postfix(e.left) && HasRead(p2, e.right, p3)
    ensures HasRead(p, e, p3)
  {
    var l, r := e.left, e.right;
    assert Pending(e) == [op] + Pending(r);
    assert p.stack + [op] + Pending(r) == p.stack + ([op] + Pending(r));
    DrainUnder(op, Pending(r));
    assert p.chain + Postfix(l) + Postfix(r) + [Symbol(op)] == p.chain + Postfix(e);
    assert Flush(p3).chain + (Drain(Pending(r)) + [Symbol(op)])
        == Flush(p3).chain + Drain(Pending(r)) + [Symbol(op)];
  }

  lemma {:induction false} DrainUnder(op: char, ops: string)
    ensures Drain([op] + ops) == Drain(ops) + [Symbol(op)]
    decreases |ops|
  {
    if ops == [] {
      assert [op] + ops == [op] && Rest([op]) == [];
    } else {
      assert Rest([op] + ops) == [op] + Rest(ops);
      DrainUnder(op, Rest(ops));
    }
  }

  lemma ParserIsCorrect(e: Expr, tail: string)
    requires WellFormed(e) && Skipped(tail)
    ensures ParseBuffer(Text(e) + tail) == Some(Postfix(e))
  {
    var start := Parse([], [], []);
    ParseExpr(start, e);
    var p := ParseText(start, Text(e)).value;
    ParseAppend(start, Text(e), tail);
    ParsePad(p, tail);
    assert start.stack + Pending(e) == Pending(e);
    assert start.chain + Postfix(e) == Postfix(e);
  }

  /** The whole calculator: for every well-formed expression the chain parseBuf makes
      of its text leaves exactly one value on cal's stack, the value of the expression;
      the variable cal prints holds it exactly when the text has an operator. */
  lemma CalculatorIsCorrect(e: Expr, tail: string)
    requires WellFormed(e) && Skipped(tail)
    ensures ParseBuffer(Text(e) + tail).Some?
    ensures RunChain(Machine([], None), ParseBuffer(Text(e) + tail).value)
         == Some(Machine([Value(e)], if HasOperator(e) then Some(Value(e)) else None))
  {
    ParserIsCorrect(e, tail);
    PostfixRuns(Machine([], None), e);
    assert [] + [Value(e)] == [Value(e)];
  }
}
