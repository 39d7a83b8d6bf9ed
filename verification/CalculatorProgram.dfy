/** The calculator as the C code runs it: a mutable stack (stack.h), a linked chain
    that is extended in place (cal.c) and the loops of parseBuf and cal, each proved
    to compute the functions of module Calculator. */
module CalculatorProgram {
  import opened Basics
  import opened Calculator
  import opened CalculatorStacks

  /** How a piece of the program ends: as the C code does, or where the C code would write
      above the stack's array, or where it would pop an empty stack or push an unset
      variable. */
  datatype Outcome = Done | Full | Undefined

  /** stack.h: an array with the index of its first free slot.  What the C code would do
      outside the array is reported: false or None. */
  class Stack<T> {
    const elements: array<T>
    var top: nat
    ghost var contents: seq<T>

    ghost predicate Valid()
      reads this, elements
    {
      top <= elements.Length && contents == elements[..top]
    }

    /** init_stack, with the slots cleared */
    constructor (capacity: nat, zero: T)
      ensures Valid() && contents == [] && elements.Length == capacity && fresh(elements)
    {
      elements := new T[capacity](_ => zero);
      top := 0;
      contents := [];
    }

    method Push(x: T) returns (ok: bool)
      requires Valid()
      modifies this, elements
      ensures Valid() && (ok <==> old(top) < elements.Length)
      ensures contents == if ok then old(contents) + [x] else old(contents)
    {
      ok := top < elements.Length;
      if ok {
        elements[top] := x;
        top := top + 1;
        contents := contents + [x];
      }
    }

    method Pop() returns (x: Option<T>)
      requires Valid()
      modifies this
      ensures Valid() && (x == None <==> old(contents) == [])
      ensures old(contents) == if x == None then contents else contents + [x.value]
    {
      if top == 0 {
        return None;
      }
      top := top - 1;
      x := Some(elements[top]);
      contents := contents[..top];
    }

    method Peek() returns (x: Option<T>)
      requires Valid()
      ensures x == if contents == [] then None else Some(contents[|contents| - 1])
    {
      x := if top == 0 then None else Some(elements[top - 1]);
    }
  }

  class Ops {
    var item: Item
    var next: Ops?

    constructor (item: Item)
      ensures this.item == item && next == null
    {
      this.item := item;
      next := null;
    }
  }

  class Chain {
    const head: Ops              // carries no item, like chain_head
    ghost var nodes: seq<Ops>    // head first
    ghost var items: seq<Item>
    ghost var repr: set<Ops>

    ghost predicate Valid()
      reads this, repr
    {
      && |nodes| == |items| + 1 && nodes[0] == head
      && (forall i :: 0 <= i < |nodes| ==> nodes[i] in repr)
      && (forall i, j :: 0 <= i < j < |nodes| ==> nodes[i] != nodes[j])
      && (forall i {:trigger nodes[i].next} :: 0 <= i < |nodes| - 1 ==> nodes[i].next == nodes[i + 1])
      && (forall i :: 0 <= i < |items| ==> nodes[i + 1].item == items[i])
      && nodes[|nodes| - 1].next == null
    }

    constructor ()
      ensures Valid() && items == [] && fresh(repr)
    {
      var h := new Ops(Number(0));
      head, nodes, items, repr := h, [h], [], {h};
    }

    /** insertSymbol and insertNum: walk to the end and link a new element there. */
    method Insert(item: Item)
      requires Valid()
      modifies this, repr
      ensures Valid() && items == old(items) + [item] && fresh(repr - old(repr))
    {
      var p := head;
      ghost var i := 0;
      while p.next != null
        invariant 0 <= i < |nodes| && p == nodes[i]
        decreases |nodes| - i
      {
        p := p.next;
        i := i + 1;
      }
      var op := new Ops(item);
      p.next := op;
      nodes, items, repr := nodes + [op], items + [item], repr + {op};
    }
  }

  method IsSymbol(c: char) returns (r: bool)
    ensures r <==> c in SYMBOLS
  {
    var i := 0;
    while i < |SYMBOLS|
      invariant 0 <= i <= |SYMBOLS|
      invariant c !in SYMBOLS[..i]
    {
      if c == SYMBOLS[i] {
        return true;
      }
      i := i + 1;
    }
    return false;
  }

  /** One operator moves from the stack to the chain. */
  method Move(stack: Stack<char>, chain: Chain)
    requires chain.Valid() && stack.Valid() && stack.contents != []
    modifies stack, chain, chain.repr
    ensures chain.Valid() && stack.Valid() && stack.contents == Rest(old(stack.contents))
    ensures chain.items == old(chain.items) + [Symbol(Top(old(stack.contents)))]
    ensures fresh(chain.repr - old(chain.repr))
  {
    var c := stack.Pop();
    chain.Insert(Symbol(c.value));
  }

  /** The loops of the '*' and '+' cases. */
  method MoveWhile(stack: Stack<char>, chain: Chain, ops: set<char>)
    requires chain.Valid() && stack.Valid()
    modifies stack, chain, chain.repr
    ensures chain.Valid() && stack.Valid()
    ensures fresh(chain.repr - old(chain.repr))
    ensures stack.top <= old(stack.top)
    ensures Parse([], stack.contents, chain.items)
         == PopWhile(Parse([], old(stack.contents), old(chain.items)), ops)
  {
    var top := stack.Peek();
    while top.Some? && top.value in ops
      invariant chain.Valid() && stack.Valid()
      invariant stack.top <= old(stack.top)
      invariant top == if stack.contents == [] then None else Some(Top(stack.contents))
      invariant fresh(chain.repr - old(chain.repr))
      invariant PopWhile(Parse([], stack.contents, chain.items), ops)
             == PopWhile(Parse([], old(stack.contents), old(chain.items)), ops)
      decreases stack.top
    {
      Move(stack, chain);
      top := stack.Peek();
    }
  }

  /** The loop of the ')' case; false where it would pop an empty stack. */
  method MoveToParen(stack: Stack<char>, chain: Chain) returns (found: bool)
    requires chain.Valid() && stack.Valid()
    modifies stack, chain, chain.repr
    ensures chain.Valid() && stack.Valid()
    ensures fresh(chain.repr - old(chain.repr))
    ensures stack.top <= old(stack.top)
    ensures PopToParen(Parse([], old(stack.contents), old(chain.items)))
         == if found then Some(Parse([], stack.contents, chain.items)) else None
  {
    var top := stack.Peek();
    while top.Some? && top.value != '('
      invariant chain.Valid() && stack.Valid()
      invariant stack.top <= old(stack.top)
      invariant top == if stack.contents == [] then None else Some(Top(stack.contents))
      invariant fresh(chain.repr - old(chain.repr))
      invariant PopToParen(Parse([], stack.contents, chain.items))
             == PopToParen(Parse([], old(stack.contents), old(chain.items)))
      decreases stack.top
    {
      Move(stack, chain);
      top := stack.Peek();
    }
    found := top.Some?;
  }

  /** The '*' and '+' cases of the switch */
  method PushAbove(c: char, stack: Stack<char>, chain: Chain, ops: set<char>) returns (ok: bool)
    requires chain.Valid() && stack.Valid()
    modifies stack, stack.elements, chain, chain.repr
    ensures chain.Valid() && stack.Valid() && fresh(chain.repr - old(chain.repr))
    ensures var q := PushOp(PopWhile(Parse([], old(stack.contents), old(chain.items)), ops), c);
      if ok then Parse([], stack.contents, chain.items) == q else |q.stack| > stack.elements.Length
  {
    MoveWhile(stack, chain, ops);
    ok := stack.Push(c);
  }

  /** The ')' case of the switch */
  method CloseParenthesis(stack: Stack<char>, chain: Chain) returns (found: bool)
    requires chain.Valid() && stack.Valid()
    modifies stack, chain, chain.repr
    ensures chain.Valid() && stack.Valid() && fresh(chain.repr - old(chain.repr))
    ensures stack.top <= old(stack.top)
    ensures var q := PopToParen(Parse([], old(stack.contents), old(chain.items)));
      if found then q.Some? && Parse([], stack.contents, chain.items) == q.value.(stack := Rest(q.value.stack))
      else q == None
  {
    found := MoveToParen(stack, chain);
    if found {
      var _ := stack.Pop();
    }
  }

  /** What one character does to the state p, on a stack with the given number of slots. */
  ghost predicate Reads(p: Parse, c: char, outcome: Outcome, q: Parse, slots: nat)
    requires p.Valid()
  {
    var r := ParseChar(p, c);
    match outcome
    case Done => r == Some(q) && |q.stack| <= slots
    case Full => r.Some? && |r.value.stack| > slots
    case Undefined => r == None
  }

  /** The switch of parseBuf, with an empty digit buffer. */
  method ReadSymbol(c: char, stack: Stack<char>, chain: Chain) returns (outcome: Outcome)
    requires chain.Valid() && stack.Valid() && c in SYMBOLS
    modifies stack, stack.elements, chain, chain.repr
    ensures chain.Valid() && stack.Valid() && fresh(chain.repr - old(chain.repr))
    ensures Reads(Parse([], old(stack.contents), old(chain.items)), c,
      outcome, Parse([], stack.contents, chain.items), stack.elements.Length)
  {
    var ok;
    if stack.top == 0 || c == '(' {
      ok := stack.Push(c);
    } else if c == '*' {
      ok := PushAbove(c, stack, chain, {'*'});
    } else if c == '+' {
      ok := PushAbove(c, stack, chain, {'+', '*'});
    } else {
      var found := CloseParenthesis(stack, chain);
      return if found then Done else Undefined;
    }
    outcome := if ok then Done else Full;
  }

  method FlushDigits(digits: string, ghost stack: string, chain: Chain)
    requires chain.Valid() && forall c :: c in digits ==> IsDigit(c)
    modifies chain, chain.repr
    ensures chain.Valid()
    ensures fresh(chain.repr - old(chain.repr))
    ensures Parse([], stack, chain.items) == Flush(Parse(digits, stack, old(chain.items)))
  {
    if digits != [] {
      chain.Insert(Number(Atoi(digits)));
    }
  }

  /** The body of the loop over the characters. */
  method ReadChar(c: char, digits: string, stack: Stack<char>, chain: Chain)
    returns (outcome: Outcome, digits': string)
    requires chain.Valid() && stack.Valid() && forall c :: c in digits ==> IsDigit(c)
    modifies stack, stack.elements, chain, chain.repr
    ensures chain.Valid() && stack.Valid()
    ensures fresh(chain.repr - old(chain.repr))
    ensures Reads(Parse(digits, old(stack.contents), old(chain.items)), c,
      outcome, Parse(digits', stack.contents, chain.items), stack.elements.Length)
  {
    if IsDigit(c) {
      return Done, digits + [c];
    }
    outcome, digits' := Done, [];
    FlushDigits(digits, stack.contents, chain);
    var symbol := IsSymbol(c);
    if symbol {
      outcome := ReadSymbol(c, stack, chain);
    }
  }

  /** The loop that empties the stack at the end. */
  method MoveAll(stack: Stack<char>, chain: Chain)
    requires chain.Valid() && stack.Valid()
    modifies stack, chain, chain.repr
    ensures chain.Valid() && chain.items == old(chain.items + Drain(stack.contents))
  {
    while stack.top != 0
      invariant chain.Valid() && stack.Valid()
      invariant fresh(chain.repr - old(chain.repr))
      invariant chain.items + Drain(stack.contents) == old(chain.items + Drain(stack.contents))
      decreases stack.top
    {
      Move(stack, chain);
    }
  }

  /** What a whole text does to the state p. */
  ghost predicate ReadsText(p: Parse, text: string, outcome: Outcome, q: Parse, slots: nat)
    requires p.Valid()
  {
    && (outcome == Full <==> Highest(p, text) > slots)
    && (outcome == Done ==> ParseText(p, text) == Some(q))
    && (outcome == Undefined ==> ParseText(p, text) == None)
  }

  /** Reading on from p comes to the same as reading the whole text from the start. */
  ghost predicate SameReading(start: Parse, text: string, p: Parse, rest: string, slots: nat)
    requires start.Valid()
  {
    && p.Valid() && |p.stack| <= slots
    && ParseText(p, rest) == ParseText(start, text)
    && (Highest(p, rest) > slots <==> Highest(start, text) > slots)
  }

  /** One round of the loop over the characters */
  method ReadNext(ghost start: Parse, buf: string, i: nat, digits: string, stack: Stack<char>, chain: Chain)
    returns (outcome: Outcome, digits': string)
    requires chain.Valid() && stack.Valid() && i < |buf| && start.Valid()
    requires SameReading(start, buf, Parse(digits, stack.contents, chain.items), buf[i..], stack.elements.Length)
    modifies stack, stack.elements, chain, chain.repr
    ensures chain.Valid() && stack.Valid() && fresh(chain.repr - old(chain.repr))
    ensures var q := Parse(digits', stack.contents, chain.items);
      if outcome == Done then SameReading(start, buf, q, buf[i + 1..], stack.elements.Length)
      else ReadsText(start, buf, outcome, q, stack.elements.Length)
  {
    assert buf[i..][0] == buf[i] && buf[i..][1..] == buf[i + 1..];
    assert Parse(digits, stack.contents, chain.items).Valid();
    outcome, digits' := ReadChar(buf[i], digits, stack, chain);
  }

  /** The whole loop */
  method ReadText(buf: string, stack: Stack<char>, chain: Chain) returns (outcome: Outcome, digits: string)
    requires chain.Valid() && stack.Valid() && stack.contents == []
    modifies stack, stack.elements, chain, chain.repr
    ensures chain.Valid() && stack.Valid() && fresh(chain.repr - old(chain.repr))
    ensures forall c :: c in digits ==> IsDigit(c)
    ensures ReadsText(Parse([], [], old(chain.items)), buf,
      outcome, Parse(digits, stack.contents, chain.items), stack.elements.Length)
  {
    digits := [];
    ghost var start := Parse([], [], chain.items);
    var i := 0;
    while i < |buf|
      invariant 0 <= i <= |buf| && chain.Valid() && stack.Valid()
      invariant fresh(chain.repr - old(chain.repr))
      invariant SameReading(start, buf, Parse(digits, stack.contents, chain.items), buf[i..], stack.elements.Length)
    {
      outcome, digits := ReadNext(start, buf, i, digits, stack, chain);
      if outcome != Done {
        return outcome, [];
      }
      i := i + 1;
    }
    outcome := Done;
  }

  /** parseBuf, with a stack of any number of slots; the source has 50. */
  method ParseBuf(buf: string, chain: Chain, slots: nat) returns (outcome: Outcome)
    requires chain.Valid()
    modifies chain, chain.repr
    ensures chain.Valid()
    ensures outcome == Full <==> Highest(Parse([], [], old(chain.items)), buf) > slots
    ensures outcome == Done ==> ParseOnto(old(chain.items), buf) == Some(chain.items)
    ensures outcome == Undefined ==> ParseOnto(old(chain.items), buf) == None
  {
    var stack := new Stack<char>(slots, '\0');
    var digits;
    outcome, digits := ReadText(buf, stack, chain);
    if outcome == Done {
      FlushDigits(digits, stack.contents, chain);
      MoveAll(stack, chain);
    }
  }

  /** What one element of the chain does to the machine m. */
  ghost predicate Executes(m: Machine, item: Item, outcome: Outcome, n: Machine, slots: nat) {
    var r := Execute(m, item);
    match outcome
    case Done => r == Some(n) && |n.stack| <= slots
    case Full => r.Some? && |r.value.stack| > slots
    case Undefined => r == None
  }

  /** The body of cal's loop */
  method ExecuteItem(item: Item, stack: Stack<int>, res: Option<int>)
    returns (outcome: Outcome, res': Option<int>)
    requires stack.Valid()
    modifies stack, stack.elements
    ensures stack.Valid()
    ensures Executes(Machine(old(stack.contents), res), item,
      outcome, Machine(stack.contents, res'), stack.elements.Length)
  {
    res' := res;
    var ok;
    match item {
      case Number(n) => ok := stack.Push(n);
      case Symbol(c) =>
        ghost var was := stack.contents;
        var op1 := stack.Pop();
        var op2 := stack.Pop();
        if op2 == None {
          return Undefined, res;
        }
        assert was == stack.contents + [op2.value, op1.value];
        if c == '+' {
          res' := Some(op1.value + op2.value);
        } else if c == '*' {
          res' := Some(op1.value * op2.value);
        }
        if res' == None {
          return Undefined, res';
        }
        ok := stack.Push(res'.value);
    }
    outcome := if ok then Done else Full;
  }

  /** What a whole chain does to the machine m. */
  ghost predicate Runs(m: Machine, chain: seq<Item>, outcome: Outcome, n: Machine, slots: nat) {
    && (outcome == Full <==> HighestRun(m, chain) > slots)
    && (outcome == Done ==> RunChain(m, chain) == Some(n))
    && (outcome == Undefined ==> RunChain(m, chain) == None)
  }

  /** Running on from m comes to the same as running the whole chain from the start. */
  ghost predicate SameRun(items: seq<Item>, m: Machine, rest: seq<Item>, slots: nat) {
    && |m.stack| <= slots
    && RunChain(m, rest) == RunChain(Machine([], None), items)
    && (HighestRun(m, rest) > slots <==> HighestRun(Machine([], None), items) > slots)
  }

  /** One round of cal's loop */
  method RunItem(item: Item, stack: Stack<int>, res: Option<int>, ghost items: seq<Item>, ghost rest: seq<Item>)
    returns (outcome: Outcome, res': Option<int>)
    requires stack.Valid() && rest != [] && rest[0] == item
    requires SameRun(items, Machine(stack.contents, res), rest, stack.elements.Length)
    modifies stack, stack.elements
    ensures stack.Valid()
    ensures var n := Machine(stack.contents, res');
      if outcome == Done then SameRun(items, n, rest[1..], stack.elements.Length)
      else Runs(Machine([], None), items, outcome, n, stack.elements.Length)
  {
    outcome, res' := ExecuteItem(item, stack, res);
  }

  /** cal, with a stack of any number of slots, 50 in the source.  The stack is returned
      because `res` stays unset for a lone number. */
  method Cal(chain: Chain, slots: nat) returns (outcome: Outcome, stack: Stack<int>, res: Option<int>)
    requires chain.Valid()
    ensures fresh(stack) && stack.Valid()
    ensures Runs(Machine([], None), chain.items, outcome, Machine(stack.contents, res), slots)
  {
    stack := new Stack<int>(slots, 0);
    res := None;
    outcome := Done;
    var op := chain.head.next;
    ghost var items, k := chain.items, 0;
    while op != null
      invariant outcome == Done && 0 <= k <= |items| && chain.Valid() && chain.items == items
      invariant stack.Valid() && stack.elements.Length == slots && fresh(stack.elements)
      invariant op == if k < |items| then chain.nodes[k + 1] else null
      invariant SameRun(items, Machine(stack.contents, res), items[k..], slots)
      decreases |items| - k
    {
      assert items[k] == op.item && items[k..][1..] == items[k + 1..];
      outcome, res := RunItem(op.item, stack, res, items, items[k..]);
      if outcome != Done {
        return;
      }
      op := op.next;
      k := k + 1;
    }
  }

  /** The two programs run one after the other, as main does: they give the value of every
      well-formed expression that needs no more slots than the stacks have, and of no other. */
  method Calculate(e: Expr, tail: string, slots: nat) returns (result: Option<int>)
    requires WellFormed(e) && Skipped(tail)
    ensures result == if SymbolSlots(e) <= slots && NumberSlots(e) <= slots then Some(Value(e)) else None
  {
    var chain := new Chain();
    ParserIsCorrect(e, tail);
    TextHighest(e, tail);
    var parsed := ParseBuf(Text(e) + tail, chain, slots);
    if parsed != Done {
      return None;
    }
    PostfixHighest(Machine([], None), e);
    CalculatorIsCorrect(e, tail);
    var ran, stack, _ := Cal(chain, slots);
    if ran != Done {
      return None;
    }
    result := stack.Peek();
  }
}
