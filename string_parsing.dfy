/** The string pipeline of parsing.rs: `to_postfix` turns an infix expression into a
    space-separated postfix string by the shunting-yard method over a stack of
    operators, and `evaluate_postfix` reads that string back over a stack of numbers.
    Each method is proved equal to a function that reads the input one character (or
    one token) at a time; the lemmas at the end are about those functions. */
module StringParsing {
  import opened Wrappers
  import opened Text
  import opened Lexical
  import Operators
  import Stacks

  type Operator = Operators.Operator

  function Top(ops: seq<Operator>): Operator
    requires ops != []
  {
    ops[|ops| - 1]
  }

  function Pop(ops: seq<Operator>): seq<Operator>
    requires ops != []
  {
    ops[..|ops| - 1]
  }

  /** flush_prev_num: a pending number is checked for shape and written out followed by
      one space. */
  function Flush(result: string, prevNum: string): Result<string> {
    if prevNum == [] then Ok(result)
    else if !NumericShape(prevNum) then Err(MalformedNumber(prevNum))
    else Ok(result + prevNum + " ")
  }

  method FlushPrevNum(result: string, prevNum: string) returns (r: Result<string>)
    ensures r == Flush(result, prevNum)
    ensures r.Ok? <==> prevNum == [] || NumericShape(prevNum)
  {
    if prevNum != [] {
      var numeric := IsNumericString(prevNum);
      if !numeric {
        return Err(MalformedNumber(prevNum));
      }
      return Ok(result + prevNum + " ");
    }
    return Ok(result);
  }

  // ---- the operator stack -----------------------------------------------------------------

  /** The top operator leaves the stack before the incoming one of precedence p2: it binds
      tighter, or as tight and the incoming one is not the right-associative '^'. A brace
      never leaves this way. */
  predicate Binds(top: Operator, p2: int, item: char) {
    top.precedence != Operators.GetBracePrecedence() &&
    (p2 < top.precedence || (top.precedence == p2 && item != '^'))
  }

  /** Moves operators from the top of the stack to the output while they bind. */
  function PopWhile(result: string, opers: seq<Operator>, p2: int, item: char): (string, seq<Operator>)
    decreases |opers|
  {
    if opers != [] && Binds(Top(opers), p2, item) then
      PopWhile(result + [Top(opers).symbol] + " ", Pop(opers), p2, item)
    else (result, opers)
  }

  /** Moves operators to the output until the stack is empty or shows target. */
  function PopUntil(result: string, opers: seq<Operator>, target: Operator): (string, seq<Operator>)
    decreases |opers|
  {
    if opers != [] && Operators.Ne(Top(opers), target) then
      PopUntil(result + [Top(opers).symbol] + " ", Pop(opers), target)
    else (result, opers)
  }

  /** The closing loop of to_postfix: every operator left, top first, separated by spaces. */
  function FlushAll(result: string, opers: seq<Operator>): string
    decreases |opers|
  {
    if opers == [] then result
    else FlushAll(result + [Top(opers).symbol] + (if |opers| != 1 then " " else ""), Pop(opers))
  }

  function OpenerOf(c: char): char
    requires IsCloser(c)
  {
    if c == ')' then '(' else if c == '}' then '{' else '['
  }

  /** The opening brace a closer pops down to, as the operator table lists it. */
  function BraceOf(c: char): (o: Operator)
    requires IsCloser(c)
    ensures Operators.GetOperator(OpenerOf(c)) == Some(o)
    ensures o.symbol == OpenerOf(c) && o.precedence == Operators.GetBracePrecedence()
  {
    Operators.GetOperatorOfBrace(OpenerOf(c));
    Operators.Operator(OpenerOf(c), 4)
  }

  /** An operator character: flush, pop what binds, push the operator. */
  function PushOperator(result: string, prevNum: string, opers: seq<Operator>, c: char): Result<(string, seq<Operator>)>
    requires Operators.IsOperator(c)
  {
    match Flush(result, prevNum)
    case Err(e) => Err(e)
    case Ok(res) =>
      var curr := Operators.GetOperator(c).value;
      var popped := PopWhile(res, opers, curr.precedence, c);
      Ok((popped.0, popped.1 + [curr]))
  }

  /** A closing brace: flush, then pop operators to the output down to the matching
      opening brace, which is dropped. */
  function CloseBrace(result: string, prevNum: string, opers: seq<Operator>, c: char): Result<(string, seq<Operator>)>
    requires IsCloser(c)
  {
    match Flush(result, prevNum)
    case Err(e) => Err(e)
    case Ok(res) => ClosePopped(res, opers, c)
  }

  /** The closing brace once the pending number is written to res. */
  function ClosePopped(res: string, opers: seq<Operator>, c: char): Result<(string, seq<Operator>)>
    requires IsCloser(c)
  {
    if opers == [] then Err(UnrecognizedBracePattern)
    else
      var target := BraceOf(c);
      var popped := PopUntil(res, opers, target);
      Ok((popped.0, if popped.1 != [] && Operators.Eq(Top(popped.1), target) then Pop(popped.1) else popped.1))
  }

  // ---- to_postfix, one character at a time ---------------------------------------------------

  /** The loop variables of to_postfix. */
  datatype PState = PState(result: string, prevNum: string, prevWasOper: bool, prevWasNum: bool,
                           firstChar: bool, opers: seq<Operator>)

  const Start := PState("", "", false, false, true, [])

  /** The text to_postfix writes for the constant 'c' (the speed of light, 3 * 10^8, as
      f64 prints it). */
  const SpeedOfLight: nat := 300000000

  const Constant: string := NatToString(SpeedOfLight)

  /** The text the corrected parser writes for 'c': the constant as a token of its own. */
  const SpacedConstant: string := Constant + " "

  /** A number or a constant may not follow a number-free operand slot: only the start,
      an operator or an opening brace, or a number still being read. */
  predicate Adjacent(st: PState) {
    !st.firstChar && !st.prevWasOper && !st.prevWasNum
  }

  /** The arms of the loop body of to_postfix, in the order they are tried. */
  datatype CharKind = NumberChar | Letter | Space | Opening | Closing | OperatorChar | Other

  function KindOf(c: char): CharKind {
    if IsDigit(c) || c == '.' then NumberChar
    else if IsAlphabetic(c) then Letter
    else if IsWhitespace(c) then Space
    else if IsOpener(c) then Opening
    else if IsCloser(c) then Closing
    else if Operators.IsOperator(c) then OperatorChar
    else Other
  }

  /** A digit or a period extends the pending number. */
  function NumberStep(st: PState, c: char): Result<PState> {
    if Adjacent(st) then Err(AdjacentOperands)
    else Ok(PState(st.result, st.prevNum + [c], false, true, false, st.opers))
  }

  /** A letter: only 'c' is known, and it writes the constant. */
  function LetterStep(st: PState, c: char, constant: string): Result<PState> {
    if Adjacent(st) then Err(AdjacentOperands)
    else if c != 'c' then Err(AlphabeticNotAllowed(c))
    else Ok(PState(st.result + constant, st.prevNum, false, false, false, st.opers))
  }

  /** White space ends the pending number. */
  function SpaceStep(st: PState): Result<PState> {
    match Flush(st.result, st.prevNum)
    case Err(e) => Err(e)
    case Ok(res) => Ok(PState(res, "", st.prevWasOper, false, st.firstChar, st.opers))
  }

  /** An opening brace ends the pending number and goes on the stack. */
  function OpenStep(st: PState, c: char): Result<PState>
    requires IsOpener(c)
  {
    match Flush(st.result, st.prevNum)
    case Err(e) => Err(e)
    case Ok(res) =>
      Operators.GetOperatorOfBrace(c);
      Ok(PState(res, "", true, false, false, st.opers + [Operators.GetOperator(c).value]))
  }

  function CloseStep(st: PState, c: char): Result<PState>
    requires IsCloser(c)
  {
    match CloseBrace(st.result, st.prevNum, st.opers, c)
    case Err(e) => Err(e)
    case Ok(p) => Ok(PState(p.0, "", false, false, false, p.1))
  }

  /** A binary operator may not come first or right after another operator. */
  function OperatorStep(st: PState, c: char): Result<PState>
    requires Operators.IsOperator(c)
  {
    if st.firstChar then Err(LeadingOperator)
    else if st.prevWasOper then Err(ConsecutiveOperators)
    else
      match PushOperator(st.result, st.prevNum, st.opers, c)
      case Err(e) => Err(e)
      case Ok(p) => Ok(PState(p.0, "", true, false, false, p.1))
  }

  /** One pass of the loop body of to_postfix on character c; constant is what 'c' writes. */
  function Step(st: PState, c: char, constant: string): Result<PState> {
    match KindOf(c)
    case NumberChar => NumberStep(st, c)
    case Letter => LetterStep(st, c, constant)
    case Space => SpaceStep(st)
    case Opening => OpenStep(st, c)
    case Closing => CloseStep(st, c)
    case OperatorChar => OperatorStep(st, c)
    case Other => Err(InvalidCharacter(c))
  }

  function Run(s: string, st: PState, constant: string): Result<PState>
    decreases |s|
  {
    if s == [] then Ok(st)
    else
      match Step(st, s[0], constant)
      case Err(e) => Err(e)
      case Ok(next) => Run(s[1..], next, constant)
  }

  /** After the last character: no trailing operator, flush, empty the stack, trim. */
  function Finish(st: PState): Result<string> {
    if st.prevWasOper then Err(TrailingOperator)
    else
      match Flush(st.result, st.prevNum)
      case Err(e) => Err(e)
      case Ok(res) => Ok(Trim(FlushAll(res, st.opers)))
  }

  function PostfixWith(infix: string, constant: string): Result<string> {
    if !Balanced(infix) then Err(UnbalancedBraces)
    else
      match Run(infix, Start, constant)
      case Err(e) => Err(e)
      case Ok(st) => Finish(st)
  }

  /** to_postfix as written: the constant runs into whatever follows it. */
  function PostfixAsWritten(infix: string): Result<string> {
    PostfixWith(infix, Constant)
  }

  /** to_postfix with the constant written as a token of its own. */
  function Postfix(infix: string): Result<string> {
    PostfixWith(infix, SpacedConstant)
  }

  // ---- to_postfix, the loop itself ------------------------------------------------------------

  method PopWhileBinds(result: string, opers: Stacks.Stack<Operator>, p2: int, item: char) returns (res: string)
    modifies opers
    ensures (res, opers.data) == PopWhile(result, old(opers.data), p2, item)
  {
    res := result;
    var top := opers.Peek();
    while top.Some? && Binds(top.value, p2, item)
      invariant top == (if opers.data == [] then None else Some(Top(opers.data)))
      invariant PopWhile(res, opers.data, p2, item) == PopWhile(result, old(opers.data), p2, item)
      decreases |opers.data|
    {
      res := res + [top.value.symbol] + " ";
      var popped := opers.Pop();
      top := opers.Peek();
    }
  }

  method PopToBrace(result: string, opers: Stacks.Stack<Operator>, target: Operator) returns (res: string)
    modifies opers
    ensures (res, opers.data) == PopUntil(result, old(opers.data), target)
  {
    res := result;
    var top := opers.Peek();
    while top.Some? && Operators.Ne(top.value, target)
      invariant top == (if opers.data == [] then None else Some(Top(opers.data)))
      invariant PopUntil(res, opers.data, target) == PopUntil(result, old(opers.data), target)
      decreases |opers.data|
    {
      res := res + [top.value.symbol] + " ";
      var popped := opers.Pop();
      top := opers.Peek();
    }
  }

  method DrainOperators(result: string, opers: Stacks.Stack<Operator>) returns (res: string)
    modifies opers
    ensures res == FlushAll(result, old(opers.data)) && opers.data == []
  {
    res := result;
    var empty := opers.IsEmpty();
    while !empty
      invariant empty <==> opers.data == []
      invariant FlushAll(res, opers.data) == FlushAll(result, old(opers.data))
      decreases |opers.data|
    {
      var top := opers.Peek();
      res := res + [top.value.symbol];
      var n := opers.Len();
      if n != 1 {
        res := res + " ";
      }
      var popped := opers.Pop();
      empty := opers.IsEmpty();
    }
  }

  method PushOperatorStep(result: string, prevNum: string, opers: Stacks.Stack<Operator>, c: char) returns (r: Result<string>)
    requires Operators.IsOperator(c)
    modifies opers
    ensures r.Err? ==> PushOperator(result, prevNum, old(opers.data), c) == Err(r.error)
    ensures r.Ok? ==> PushOperator(result, prevNum, old(opers.data), c) == Ok((r.value, opers.data))
  {
    var flushed := FlushPrevNum(result, prevNum);
    if flushed.Err? {
      return Err(flushed.error);
    }
    var curr := Operators.GetOperator(c).value;
    var res := PopWhileBinds(flushed.value, opers, curr.precedence, c);
    opers.Push(curr);
    return Ok(res);
  }

  method CloseBraceStep(result: string, prevNum: string, opers: Stacks.Stack<Operator>, c: char) returns (r: Result<string>)
    requires IsCloser(c)
    modifies opers
    ensures r.Err? ==> CloseBrace(result, prevNum, old(opers.data), c) == Err(r.error)
    ensures r.Ok? ==> CloseBrace(result, prevNum, old(opers.data), c) == Ok((r.value, opers.data))
  {
    var flushed := FlushPrevNum(result, prevNum);
    if flushed.Err? {
      return Err(flushed.error);
    }
    var top := opers.Peek();
    if top.None? {
      return Err(UnrecognizedBracePattern);
    }
    var target := BraceOf(c);
    ghost var before := opers.data;
    var res := PopToBrace(flushed.value, opers, target);
    ghost var popped := PopUntil(flushed.value, before, target);
    assert popped == (res, opers.data);
    top := opers.Peek();
    if top.Some? && Operators.Eq(top.value, target) {
      var dropped := opers.Pop();
    }
    assert CloseBrace(result, prevNum, before, c) == Ok((res, opers.data));
    return Ok(res);
  }

  /** to_postfix, with the constant written as a token of its own. */
  method ToPostfix(infix: string) returns (r: Result<string>)
    ensures r == Postfix(infix)
  {
    var balanced := IsBalancedString(infix);
    if !balanced {
      return Err(UnbalancedBraces);
    }
    var result, prevNum := "", "";
    var prevWasOper, prevWasNum, firstChar := false, false, true;
    var opers := new Stacks.Stack<Operator>();
    for i := 0 to |infix|
      invariant Run(infix[i..], PState(result, prevNum, prevWasOper, prevWasNum, firstChar, opers.data), SpacedConstant)
             == Run(infix, Start, SpacedConstant)
    {
      var c := infix[i];
      assert infix[i..][0] == c && infix[i..][1..] == infix[i + 1..];
      match KindOf(c)
      case NumberChar =>
        if !firstChar && !prevWasOper && !prevWasNum {
          return Err(AdjacentOperands);
        }
        prevNum := prevNum + [c];
        prevWasNum, prevWasOper, firstChar := true, false, false;
      case Letter =>
        if !firstChar && !prevWasOper && !prevWasNum {
          return Err(AdjacentOperands);
        }
        if c != 'c' {
          return Err(AlphabeticNotAllowed(c));
        }
        result := result + SpacedConstant;
        prevWasOper, prevWasNum, firstChar := false, false, false;
      case Space =>
        var flushed := FlushPrevNum(result, prevNum);
        if flushed.Err? {
          return Err(flushed.error);
        }
        result, prevNum := flushed.value, "";
        prevWasNum := false;
      case Opening =>
        var flushed := FlushPrevNum(result, prevNum);
        if flushed.Err? {
          return Err(flushed.error);
        }
        result, prevNum := flushed.value, "";
        prevWasOper, prevWasNum, firstChar := true, false, false;
        Operators.GetOperatorOfBrace(c);
        opers.Push(Operators.GetOperator(c).value);
      case Closing =>
        var closed := CloseBraceStep(result, prevNum, opers, c);
        if closed.Err? {
          return Err(closed.error);
        }
        result, prevNum := closed.value, "";
        prevWasOper, prevWasNum, firstChar := false, false, false;
      case OperatorChar =>
        if firstChar {
          return Err(LeadingOperator);
        } else if prevWasOper {
          return Err(ConsecutiveOperators);
        }
        var pushed := PushOperatorStep(result, prevNum, opers, c);
        if pushed.Err? {
          return Err(pushed.error);
        }
        result, prevNum := pushed.value, "";
        prevWasOper, prevWasNum, firstChar := true, false, false;
      case Other =>
        return Err(InvalidCharacter(c));
    }
    assert infix[|infix|..] == [];
    if prevWasOper {
      return Err(TrailingOperator);
    }
    var flushed := FlushPrevNum(result, prevNum);
    if flushed.Err? {
      return Err(flushed.error);
    }
    var out := DrainOperators(flushed.value, opers);
    return Ok(Trim(out));
  }

  // ---- evaluate_postfix -------------------------------------------------------------------

  /** One token of evaluate_postfix: a one-character operator combines the two numbers on
      top of the stack (the deeper one is the left operand); a numeric token is pushed. */
  function TokenStep(stack: seq<real>, token: string, pow: (real, real) -> real): Result<seq<real>> {
    if |token| == 1 && Operators.IsOperator(token[0]) then
      if |stack| < 2 then Err(StackUnderflow)
      else
        Operators.GetOperatorInTable(token[0]);
        match Operators.Evaluate(Operators.GetOperator(token[0]).value, stack[|stack| - 2], stack[|stack| - 1], pow)
        case Err(e) => Err(e)
        case Ok(v) => Ok(stack[..|stack| - 2] + [v])
    else if NumericShape(token) then
      match ParseDecimal(token)
      case None => Err(MalformedNumber(token))
      case Some(x) => Ok(stack + [x])
    else Err(NotOperatorOrNumber)
  }

  function EvalTokens(tokens: seq<string>, stack: seq<real>, pow: (real, real) -> real): Result<seq<real>>
    decreases |tokens|
  {
    if tokens == [] then Ok(stack)
    else
      match TokenStep(stack, tokens[0], pow)
      case Err(e) => Err(e)
      case Ok(next) => EvalTokens(tokens[1..], next, pow)
  }

  /** evaluate_postfix: the empty string is 0, a numeric string is its value, anything
      else is split at spaces and must leave exactly one number. */
  function Evaluation(postfix: string, pow: (real, real) -> real): Result<real> {
    if postfix == [] then Ok(0.0)
    else if NumericShape(postfix) then
      match ParseDecimal(postfix)
      case Some(x) => Ok(x)
      case None => Err(MalformedNumber(postfix))
    else
      match EvalTokens(Split(postfix, ' '), [], pow)
      case Err(e) => Err(e)
      case Ok(st) => if |st| != 1 then Err(WrongOperandCount) else Ok(st[0])
  }

  /** The operator arm of evaluate_postfix: the top two numbers give way to their
      combination. */
  method ApplyOperator(results: Stacks.Stack<real>, operator: Operator, pow: (real, real) -> real) returns (r: Result<()>)
    requires operator in Operators.Table
    modifies results
    ensures var stack := old(results.data);
      r.Err? ==> (|stack| < 2 && r.error == StackUnderflow) ||
                 (|stack| >= 2 && Operators.Evaluate(operator, stack[|stack| - 2], stack[|stack| - 1], pow) == Err(r.error))
    ensures var stack := old(results.data);
      r.Ok? ==> |stack| >= 2 &&
                var v := Operators.Evaluate(operator, stack[|stack| - 2], stack[|stack| - 1], pow);
                v.Ok? && results.data == stack[..|stack| - 2] + [v.value]
  {
    var n := results.Len();
    if n < 2 {
      return Err(StackUnderflow);
    }
    var b := results.Peek();
    var popped := results.Pop();
    var a := results.Peek();
    popped := results.Pop();
    var v := Operators.Evaluate(operator, a.value, b.value, pow);
    if v.Err? {
      return Err(v.error);
    }
    results.Push(v.value);
    return Ok(());
  }

  /** The loop body of evaluate_postfix on one token. */
  method EvaluateToken(results: Stacks.Stack<real>, curr: string, pow: (real, real) -> real) returns (r: Result<()>)
    modifies results
    ensures r.Err? ==> TokenStep(old(results.data), curr, pow) == Err(r.error)
    ensures r.Ok? ==> TokenStep(old(results.data), curr, pow) == Ok(results.data)
  {
    if |curr| == 1 && Operators.IsOperator(curr[0]) {
      Operators.GetOperatorInTable(curr[0]);
      r := ApplyOperator(results, Operators.GetOperator(curr[0]).value, pow);
    } else {
      var isNumber := IsNumericString(curr);
      if !isNumber {
        return Err(NotOperatorOrNumber);
      }
      var converted := ParseDecimal(curr);
      if converted.None? {
        return Err(MalformedNumber(curr));
      }
      results.Push(converted.value);
      r := Ok(());
    }
  }

  method EvaluatePostfix(postfix: string, pow: (real, real) -> real) returns (r: Result<real>)
    ensures r == Evaluation(postfix, pow)
  {
    if postfix == [] {
      return Ok(0.0);
    }
    var numeric := IsNumericString(postfix);
    if numeric {
      var num := ParseDecimal(postfix);
      if num.None? {
        return Err(MalformedNumber(postfix));
      }
      return Ok(num.value);
    }
    var literals := Split(postfix, ' ');
    var results := new Stacks.Stack<real>();
    for i := 0 to |literals|
      invariant EvalTokens(literals[i..], results.data, pow) == EvalTokens(literals, [], pow)
    {
      assert literals[i..][0] == literals[i] && literals[i..][1..] == literals[i + 1..];
      var step := EvaluateToken(results, literals[i], pow);
      if step.Err? {
        return Err(step.error);
      }
    }
    assert literals[|literals|..] == [];
    var n := results.Len();
    if n != 1 {
      return Err(WrongOperandCount);
    }
    var top := results.Peek();
    return Ok(top.value);
  }

  // ---- what the pipeline computes ---------------------------------------------------------

  /** A fully parenthesised expression over natural numbers and the six arithmetic
      operators: the reference the two stages are measured against. */
  datatype Expr = Num(n: nat) | Bin(op: char, left: Expr, right: Expr)

  predicate IsArith(c: char) {
    c == '+' || c == '-' || c == '*' || c == '/' || c == '%' || c == '^'
  }

  predicate WellFormed(e: Expr) {
    match e
    case Num(_) => true
    case Bin(op, l, r) => IsArith(op) && WellFormed(l) && WellFormed(r)
  }

  function ArithOperator(c: char): (o: Operator)
    requires IsArith(c)
    ensures Operators.GetOperator(c) == Some(o) && o.symbol == c && o in Operators.Table
    ensures 1 <= o.precedence <= 3
  {
    Operators.GetOperatorInTable(c);
    Operators.GetOperatorOfArith(c);
    Operators.GetOperator(c).value
  }

  function Infix(e: Expr): string {
    match e
    case Num(n) => NatToString(n)
    case Bin(op, l, r) => "(" + Infix(l) + [op] + Infix(r) + ")"
  }

  /** The postfix tokens of e: both operands, then the operator. */
  function Tokens(e: Expr): seq<string> {
    match e
    case Num(n) => [NatToString(n)]
    case Bin(op, l, r) => Tokens(l) + Tokens(r) + [[op]]
  }

  /** The value of e, with the operators' own f64 meaning. */
  function Value(e: Expr, pow: (real, real) -> real): Result<real>
    requires WellFormed(e)
  {
    match e
    case Num(n) => Ok(n as real)
    case Bin(op, l, r) =>
      match Value(l, pow)
      case Err(x) => Err(x)
      case Ok(a) =>
        match Value(r, pow)
        case Err(x) => Err(x)
        case Ok(b) => Operators.Evaluate(ArithOperator(op), a, b, pow)
  }

  /** Tokens, each followed by one space. */
  function Spaced(ts: seq<string>): string {
    if ts == [] then "" else ts[0] + " " + Spaced(ts[1..])
  }

  /** Tokens separated by single spaces. */
  function Joined(ts: seq<string>): (j: string)
    requires ts != []
  {
    if |ts| == 1 then ts[0] else ts[0] + " " + Joined(ts[1..])
  }

  /** A token: non-empty, without white space. */
  predicate Plain(t: string) {
    t != [] && NoWhitespace(t)
  }

  lemma {:induction false} SpacedConcat(a: seq<string>, b: seq<string>)
    ensures Spaced(a + b) == Spaced(a) + Spaced(b)
    decreases |a|
  {
    if a == [] {
      assert a + b == b;
    } else {
      assert (a + b)[0] == a[0] && (a + b)[1..] == a[1..] + b;
      SpacedConcat(a[1..], b);
    }
  }

  lemma {:induction false} SpacedJoined(ts: seq<string>)
    requires ts != []
    ensures Spaced(ts) == Joined(ts) + " "
    decreases |ts|
  {
    if |ts| > 1 {
      SpacedJoined(ts[1..]);
    } else {
      assert ts[1..] == [];
    }
  }

  /** Joined text starts with the first token's first character and ends with the last
      token's last character. */
  lemma {:induction false} JoinedEnds(ts: seq<string>)
    requires ts != [] && forall i :: 0 <= i < |ts| ==> Plain(ts[i])
    ensures Plain(ts[0]) && Plain(ts[|ts| - 1])
    ensures var j := Joined(ts); j != [] && j[0] == ts[0][0] && j[|j| - 1] == ts[|ts| - 1][|ts[|ts| - 1]| - 1]
    decreases |ts|
  {
    assert Plain(ts[0]);
    if |ts| > 1 {
      assert forall i :: 0 <= i < |ts[1..]| ==> ts[1..][i] == ts[i + 1];
      JoinedEnds(ts[1..]);
    }
  }

  lemma TrimSpaced(ts: seq<string>)
    requires ts != [] && forall i :: 0 <= i < |ts| ==> Plain(ts[i])
    ensures Trim(Spaced(ts)) == Joined(ts)
  {
    SpacedJoined(ts);
    JoinedEnds(ts);
    var j := Joined(ts);
    assert Plain(ts[0]) && Plain(ts[|ts| - 1]);
    TrimOfSpaced(j);
  }

  lemma {:induction false} SplitJoined(ts: seq<string>)
    requires ts != [] && forall i :: 0 <= i < |ts| ==> Plain(ts[i])
    ensures Split(Joined(ts), ' ') == ts
    decreases |ts|
  {
    assert Plain(ts[0]) && ' ' !in ts[0];
    if |ts| == 1 {
      SplitWhole(ts[0], ' ');
    } else {
      assert forall i :: 0 <= i < |ts[1..]| ==> ts[1..][i] == ts[i + 1];
      SplitJoined(ts[1..]);
      assert ts[0] + " " + Joined(ts[1..]) == ts[0] + [' '] + Joined(ts[1..]);
      SplitField(ts[0], ' ', Joined(ts[1..]));
      assert [ts[0]] + ts[1..] == ts;
    }
  }

  lemma DigitsArePlain(n: nat)
    ensures Plain(NatToString(n)) && NumericShape(NatToString(n))
  {
    var t := NatToString(n);
    assert AllDigits(t);
  }

  lemma {:induction false} TokensArePlain(e: Expr)
    requires WellFormed(e)
    ensures Tokens(e) != [] && forall i :: 0 <= i < |Tokens(e)| ==> Plain(Tokens(e)[i])
    decreases e
  {
    match e
    case Num(n) => DigitsArePlain(n);
    case Bin(op, l, r) =>
      TokensArePlain(l);
      TokensArePlain(r);
      var ts := Tokens(e);
      assert forall i :: 0 <= i < |Tokens(l)| ==> ts[i] == Tokens(l)[i];
      assert forall i :: |Tokens(l)| <= i < |Tokens(l)| + |Tokens(r)| ==> ts[i] == Tokens(r)[i - |Tokens(l)|];
      assert ts[|ts| - 1] == [op];
  }

  /** A string free of brackets leaves the bracket stack as it is. */
  lemma {:induction false} ScanPlain(s: string, st: seq<char>)
    requires forall i :: 0 <= i < |s| ==> !IsOpener(s[i]) && !IsCloser(s[i])
    ensures Scan(s, st) == Some(st)
    decreases |s|
  {
    if s != [] {
      ScanPlain(s[1..], st);
    }
  }

  /** An operator between two balanced strings keeps them balanced. */
  lemma BalancedAround(op: char, x: string, y: string)
    requires IsArith(op) && Balanced(x) && Balanced(y)
    ensures Balanced(x + ([op] + y))
  {
    ScanPlain([op], []);
    BalancedConcat([op], y);
    BalancedConcat(x, [op] + y);
  }

  lemma BalancedBin(op: char, l: Expr, r: Expr)
    requires IsArith(op) && Balanced(Infix(l)) && Balanced(Infix(r))
    ensures Balanced(Infix(Bin(op, l, r)))
  {
    var x, y := Infix(l), Infix(r);
    BalancedAround(op, x, y);
    BalancedWrap('(', x + ([op] + y), ')');
    assert Infix(Bin(op, l, r)) == ['('] + (x + ([op] + y)) + [')'];
  }

  lemma {:induction false} InfixBalanced(e: Expr)
    requires WellFormed(e)
    ensures Balanced(Infix(e))
    decreases e
  {
    match e
    case Num(n) =>
      assert AllDigits(NatToString(n));
      ScanPlain(NatToString(n), []);
    case Bin(op, l, r) =>
      InfixBalanced(l);
      InfixBalanced(r);
      BalancedBin(op, l, r);
  }

  /** An operand may start here: nothing pending, and at the start or after an operator
      or an opening brace. */
  predicate Ready(st: PState) {
    st.prevNum == [] && (st.firstChar || st.prevWasOper)
  }

  /** The loop state to_postfix reaches after reading Infix(e) from st: a number is still
      pending; a bracketed expression is written out. */
  function After(e: Expr, st: PState): PState {
    match e
    case Num(n) => PState(st.result, NatToString(n), false, true, false, st.opers)
    case Bin(_, _, _) => PState(st.result + Spaced(Tokens(e)), "", false, false, false, st.opers)
  }

  lemma FlushAfter(e: Expr, st: PState)
    ensures Flush(After(e, st).result, After(e, st).prevNum) == Ok(st.result + Spaced(Tokens(e)))
  {
    match e
    case Num(n) =>
      DigitsArePlain(n);
      var t := NatToString(n);
      assert [t][1..] == [];
      assert Spaced([t]) == t + " ";
      assert st.result + (t + " ") == st.result + t + " ";
    case Bin(_, _, _) =>
  }

  lemma KindOfArith(c: char)
    requires IsArith(c)
    ensures KindOf(c) == OperatorChar
  {
    assert !IsDigit(c) && c != '.';
    assert !IsAlphabetic(c);
    assert !IsWhitespace(c);
    assert !IsOpener(c) && !IsCloser(c);
    Operators.GetOperatorOfArith(c);
    assert Operators.IsOperator(c);
  }

  lemma KindOfDigit(c: char)
    requires IsDigit(c)
    ensures KindOf(c) == NumberChar
  {
  }

  lemma KindOfParens()
    ensures KindOf('(') == Opening && KindOf(')') == Closing
  {
  }

  lemma {:induction false} RunDigits(ds: string, rest: string, st: PState, k: string)
    requires ds != [] && AllDigits(ds) && !Adjacent(st)
    ensures Run(ds + rest, st, k) == Run(rest, PState(st.result, st.prevNum + ds, false, true, false, st.opers), k)
    decreases |ds|
  {
    var c := ds[0];
    var s1 := PState(st.result, st.prevNum + [c], false, true, false, st.opers);
    KindOfDigit(c);
    assert Step(st, c, k) == NumberStep(st, c) == Ok(s1);
    assert (ds + rest)[0] == c && (ds + rest)[1..] == ds[1..] + rest;
    if |ds| == 1 {
      assert ds[1..] + rest == rest && ds == [c];
    } else {
      RunDigits(ds[1..], rest, s1, k);
      assert s1.prevNum + ds[1..] == st.prevNum + ds;
    }
  }

  lemma OpenParen(st: PState, k: string)
    requires st.prevNum == []
    ensures Step(st, '(', k) == Ok(PState(st.result, "", true, false, false, st.opers + [Paren()]))
  {
    KindOfParens();
    Operators.GetOperatorOfBrace('(');
    assert Step(st, '(', k) == OpenStep(st, '(');
  }

  /** An operator on an empty stack or on an opening parenthesis pops nothing. */
  lemma PushInParens(st: PState, op: char, k: string)
    requires IsArith(op) && !st.firstChar && !st.prevWasOper
    requires st.opers == [] || Top(st.opers) == Paren()
    requires Flush(st.result, st.prevNum).Ok?
    ensures Step(st, op, k) ==
      Ok(PState(Flush(st.result, st.prevNum).value, "", true, false, false, st.opers + [ArithOperator(op)]))
  {
    var res := Flush(st.result, st.prevNum).value;
    KindOfArith(op);
    assert Step(st, op, k) == OperatorStep(st, op);
    assert PopWhile(res, st.opers, ArithOperator(op).precedence, op) == (res, st.opers);
  }

  lemma PopToParen(res: string, opers: seq<Operator>, op: char)
    requires IsArith(op) && |opers| >= 2
    requires Top(opers) == ArithOperator(op) && opers[|opers| - 2] == Paren()
    ensures PopUntil(res, opers, BraceOf(')')) == (res + [op] + " ", Pop(opers))
  {
    var target := BraceOf(')');
    assert Pop(opers) != [] && Top(Pop(opers)) == target;
    assert PopUntil(res + [op] + " ", Pop(opers), target) == (res + [op] + " ", Pop(opers));
  }

  /** A closing parenthesis over an operator over '(' writes the operator and drops both. */
  lemma CloseOverOperator(res: string, opers: seq<Operator>, op: char)
    requires IsArith(op) && |opers| >= 2
    requires Top(opers) == ArithOperator(op) && opers[|opers| - 2] == Paren()
    ensures ClosePopped(res, opers, ')') == Ok((res + [op] + " ", opers[..|opers| - 2]))
  {
    PopToParen(res, opers, op);
    var rest := Pop(opers);
    assert rest != [] && Operators.Eq(Top(rest), BraceOf(')'));
    assert Pop(rest) == opers[..|opers| - 2];
  }

  lemma CloseParenIs(st: PState, k: string, res: string, p: (string, seq<Operator>))
    requires Flush(st.result, st.prevNum) == Ok(res) && ClosePopped(res, st.opers, ')') == Ok(p)
    ensures Step(st, ')', k) == Ok(PState(p.0, "", false, false, false, p.1))
  {
    KindOfParens();
    assert Step(st, ')', k) == CloseStep(st, ')');
  }

  lemma RunCons(st: PState, c: char, rest: string, k: string, next: PState)
    requires Step(st, c, k) == Ok(next)
    ensures Run([c] + rest, st, k) == Run(rest, next, k)
  {
    assert ([c] + rest)[0] == c && ([c] + rest)[1..] == rest;
  }

  lemma InfixSplits(op: char, l: Expr, r: Expr, rest: string)
    ensures Infix(Bin(op, l, r)) + rest == ['('] + (Infix(l) + ([op] + (Infix(r) + ([')'] + rest))))
  {
  }

  lemma SpacedBin(op: char, l: Expr, r: Expr)
    ensures Spaced(Tokens(Bin(op, l, r))) == Spaced(Tokens(l)) + Spaced(Tokens(r)) + ([op] + " ")
  {
    var a, b := Tokens(l), Tokens(r);
    SpacedConcat(a + b, [[op]]);
    SpacedConcat(a, b);
    assert [[op]][1..] == [];
    assert Spaced([[op]]) == [op] + " ";
  }

  lemma BinAfter(op: char, l: Expr, r: Expr, st: PState)
    ensures After(Bin(op, l, r), st) ==
      PState(st.result + Spaced(Tokens(l)) + Spaced(Tokens(r)) + [op] + " ", "", false, false, false, st.opers)
  {
    var x, y := Spaced(Tokens(l)), Spaced(Tokens(r));
    SpacedBin(op, l, r);
    assert st.result + (x + y + ([op] + " ")) == st.result + x + y + [op] + " ";
  }

  function Paren(): Operator {
    Operators.Operator('(', 4)
  }

  /** The state inside Bin(op, l, r) once its left operand and operator are read. */
  function InsideBin(op: char, l: Expr, st: PState): PState
    requires IsArith(op)
  {
    PState(st.result + Spaced(Tokens(l)), "", true, false, false, st.opers + [Paren()] + [ArithOperator(op)])
  }

  /** Up to the right operand: the opening parenthesis, the left operand, the operator. */
  lemma RunBinLeft(op: char, l: Expr, r: Expr, rest: string, st: PState, k: string)
    requires IsArith(op) && Ready(st)
    requires var s1 := PState(st.result, "", true, false, false, st.opers + [Paren()]);
      Run(Infix(l) + ([op] + (Infix(r) + ([')'] + rest))), s1, k) ==
      Run([op] + (Infix(r) + ([')'] + rest)), After(l, s1), k)
    ensures Run(Infix(Bin(op, l, r)) + rest, st, k) == Run(Infix(r) + ([')'] + rest), InsideBin(op, l, st), k)
  {
    var tail := [op] + (Infix(r) + ([')'] + rest));
    InfixSplits(op, l, r, rest);
    var s1 := PState(st.result, "", true, false, false, st.opers + [Paren()]);
    OpenParen(st, k);
    RunCons(st, '(', Infix(l) + tail, k, s1);
    var s2 := After(l, s1);
    FlushAfter(l, s1);
    PushInParens(s2, op, k);
    RunCons(s2, op, Infix(r) + ([')'] + rest), k, InsideBin(op, l, st));
  }

  /** The closing parenthesis of Bin(op, l, r), once r is written, writes op and leaves
      the stack as it was before the opening one. */
  lemma CloseAfterBin(op: char, l: Expr, r: Expr, st: PState, s4: PState, k: string)
    requires IsArith(op)
    requires s4.opers == st.opers + [Paren()] + [ArithOperator(op)]
    requires Flush(s4.result, s4.prevNum) == Ok(st.result + Spaced(Tokens(l)) + Spaced(Tokens(r)))
    ensures Step(s4, ')', k) == Ok(After(Bin(op, l, r), st))
  {
    var res := st.result + Spaced(Tokens(l)) + Spaced(Tokens(r));
    assert s4.opers[..|s4.opers| - 2] == st.opers;
    CloseOverOperator(res, s4.opers, op);
    CloseParenIs(s4, k, res, (res + [op] + " ", st.opers));
    BinAfter(op, l, r, st);
  }

  /** The closing parenthesis after the right operand. */
  lemma RunBinRight(op: char, l: Expr, r: Expr, rest: string, st: PState, k: string)
    requires IsArith(op)
    ensures Run([')'] + rest, After(r, InsideBin(op, l, st)), k) == Run(rest, After(Bin(op, l, r), st), k)
  {
    var s3 := InsideBin(op, l, st);
    FlushAfter(r, s3);
    CloseAfterBin(op, l, r, st, After(r, s3), k);
    RunCons(After(r, s3), ')', rest, k, After(Bin(op, l, r), st));
  }

  /** Reading Infix(e) leaves the operator stack as it found it and writes the postfix
      tokens of e. */
  lemma {:induction false} RunInfix(e: Expr, rest: string, st: PState, k: string)
    requires WellFormed(e) && Ready(st)
    ensures Run(Infix(e) + rest, st, k) == Run(rest, After(e, st), k)
    decreases e
  {
    match e
    case Num(n) =>
      RunDigits(NatToString(n), rest, st, k);
      assert st.prevNum + NatToString(n) == NatToString(n);
    case Bin(op, l, r) =>
      var close := [')'] + rest;
      RunInfix(l, [op] + (Infix(r) + close), PState(st.result, "", true, false, false, st.opers + [Paren()]), k);
      RunBinLeft(op, l, r, rest, st, k);
      RunInfix(r, close, InsideBin(op, l, st), k);
      RunBinRight(op, l, r, rest, st, k);
  }

  /** to_postfix of a fully parenthesised expression is its postfix tokens, separated by
      single spaces, whichever text the constant would have. */
  lemma PostfixOfInfix(e: Expr)
    requires WellFormed(e)
    ensures Postfix(Infix(e)) == Ok(Joined(Tokens(e)))
    ensures PostfixAsWritten(Infix(e)) == Ok(Joined(Tokens(e)))
  {
    PostfixWithOfInfix(e, SpacedConstant);
    PostfixWithOfInfix(e, Constant);
  }

  /** Whatever the constant is written as, the bracketed text of e is read to its tokens. */
  lemma PostfixWithOfInfix(e: Expr, k: string)
    requires WellFormed(e)
    ensures PostfixWith(Infix(e), k) == Ok(Joined(Tokens(e)))
  {
    InfixBalanced(e);
    assert Infix(e) + [] == Infix(e);
    RunInfix(e, [], Start, k);
    FlushAfter(e, Start);
    TokensArePlain(e);
    TrimSpaced(Tokens(e));
    assert "" + Spaced(Tokens(e)) == Spaced(Tokens(e));
  }

  lemma {:induction false} EvalTokensOfExpr(e: Expr, rest: seq<string>, stack: seq<real>, pow: (real, real) -> real)
    requires WellFormed(e)
    ensures EvalTokens(Tokens(e) + rest, stack, pow) ==
      match Value(e, pow)
      case Err(x) => Err(x)
      case Ok(v) => EvalTokens(rest, stack + [v], pow)
    decreases e
  {
    match e
    case Num(n) =>
      var t := NatToString(n);
      DigitsArePlain(n);
      Operators.IsOperatorSymbols(t[0]);
      ParseDecimalOfNatToString(n);
      assert ([t] + rest)[0] == t && ([t] + rest)[1..] == rest;
      assert TokenStep(stack, t, pow) == Ok(stack + [n as real]);
    case Bin(op, l, r) =>
      var last := [[op]] + rest;
      assert Tokens(e) + rest == Tokens(l) + (Tokens(r) + last);
      EvalTokensOfExpr(l, Tokens(r) + last, stack, pow);
      if Value(l, pow).Ok? {
        var a := Value(l, pow).value;
        EvalTokensOfExpr(r, last, stack + [a], pow);
        if Value(r, pow).Ok? {
          var b := Value(r, pow).value;
          var st := stack + [a] + [b];
          assert st[|st| - 2] == a && st[|st| - 1] == b && st[..|st| - 2] == stack;
          assert last[0] == [op] && last[1..] == rest;
          assert TokenStep(stack + [a] + [b], [op], pow) ==
            match Value(e, pow)
            case Err(x) => Err(x)
            case Ok(v) => Ok(stack + [v]);
        }
      }
  }

  /** evaluate_postfix of the postfix tokens of e is the value of e, errors included. */
  lemma EvaluationOfTokens(e: Expr, pow: (real, real) -> real)
    requires WellFormed(e)
    ensures Evaluation(Joined(Tokens(e)), pow) == Value(e, pow)
  {
    TokensArePlain(e);
    match e
    case Num(n) =>
      DigitsArePlain(n);
      ParseDecimalOfNatToString(n);
    case Bin(op, l, r) =>
      var ts := Tokens(e);
      var j := Joined(ts);
      JoinedEnds(ts);
      assert j[|j| - 1] == op;
      assert !NumericShape(j);
      SplitJoined(ts);
      assert ts + [] == ts;
      EvalTokensOfExpr(e, [], [], pow);
      assert [] + [0.0] == [0.0];
  }

  /** The two stages together compute the value of every fully parenthesised expression. */
  lemma PipelineComputesValue(e: Expr, pow: (real, real) -> real)
    requires WellFormed(e)
    ensures Postfix(Infix(e)).Ok?
    ensures Evaluation(Postfix(Infix(e)).value, pow) == Value(e, pow)
  {
    PostfixOfInfix(e);
    EvaluationOfTokens(e, pow);
  }

  // ---- the constant 'c' ---------------------------------------------------------------------

  lemma KindOfLetterC()
    ensures KindOf('c') == Letter
  {
  }

  /** 'c' and then an operator, at the start: the constant is written and the operator
      goes on the empty stack. */
  lemma ConstantThenOperator(op: char, rest: string, k: string)
    requires IsArith(op)
    ensures Run("c" + [op] + rest, Start, k) == Run(rest, PState(k, "", true, false, false, [ArithOperator(op)]), k)
  {
    var s1 := PState(k, "", false, false, false, []);
    var s2 := PState(k, "", true, false, false, [ArithOperator(op)]);
    KindOfLetterC();
    assert "" + k == k;
    assert Step(Start, 'c', k) == LetterStep(Start, 'c', k) == Ok(s1);
    PushInParens(s1, op, k);
    assert [] + [ArithOperator(op)] == [ArithOperator(op)];
    assert "c" + [op] + rest == ['c'] + ([op] + rest);
    RunCons(Start, 'c', [op] + rest, k, s1);
    RunCons(s1, op, rest, k, s2);
  }

  lemma BalancedAfterOperand(op: char, s: string)
    requires IsArith(op) && Balanced(s)
    ensures Balanced("c" + [op] + s)
  {
    ScanPlain("c" + [op], []);
    BalancedConcat("c" + [op], s);
  }

  lemma SpaceCancels(a: string, b: string)
    requires a + " " == b + " "
    ensures a == b
  {
    assert a == (a + " ")[..|a|] && b == (b + " ")[..|b|];
  }

  /** The state after "c", an operator and then Infix(e). */
  function AfterConstant(op: char, e: Expr, k: string): PState
    requires IsArith(op)
  {
    After(e, PState(k, "", true, false, false, [ArithOperator(op)]))
  }

  lemma RunConstantFirst(op: char, e: Expr, k: string)
    requires IsArith(op) && WellFormed(e)
    ensures PostfixWith("c" + [op] + Infix(e), k) == Finish(AfterConstant(op, e, k))
  {
    InfixBalanced(e);
    BalancedAfterOperand(op, Infix(e));
    assert Infix(e) + [] == Infix(e);
    ConstantThenOperator(op, Infix(e), k);
    RunInfix(e, [], PState(k, "", true, false, false, [ArithOperator(op)]), k);
  }

  /** The tokens of Bin(op, n, e), joined: the number, the tokens of e, op. */
  lemma NumberFirstJoined(op: char, n: nat, e: Expr)
    requires IsArith(op) && WellFormed(e)
    ensures Joined(Tokens(Bin(op, Num(n), e))) == NatToString(n) + " " + Spaced(Tokens(e)) + [op]
    ensures Trim(Joined(Tokens(Bin(op, Num(n), e)))) == Joined(Tokens(Bin(op, Num(n), e)))
  {
    var d := NatToString(n);
    var whole := Bin(op, Num(n), e);
    var res := d + " " + Spaced(Tokens(e));
    var ts := Tokens(whole);
    assert Tokens(Num(n)) == [d];
    assert ts == [d] + Tokens(e) + [[op]];
    SpacedConcat([d] + Tokens(e), [[op]]);
    SpacedConcat([d], Tokens(e));
    assert [[op]][1..] == [] && [d][1..] == [];
    assert Spaced([[op]]) == [op] + " ";
    assert Spaced([d]) == d + " ";
    TokensArePlain(whole);
    SpacedJoined(ts);
    assert Spaced(ts) == res + ([op] + " ");
    assert (res + [op]) + " " == res + ([op] + " ");
    SpaceCancels(res + [op], Joined(ts));
    JoinedEnds(ts);
    TrimOfTrimmed(Joined(ts));
  }

  /** After a number, op and e, the end of the input gives the tokens of Bin(op, n, e). */
  lemma FinishNumberFirst(op: char, n: nat, e: Expr)
    requires IsArith(op) && WellFormed(e)
    ensures Finish(After(e, PState(NatToString(n) + " ", "", true, false, false, [ArithOperator(op)]))) ==
            Ok(Joined(Tokens(Bin(op, Num(n), e))))
  {
    var s2 := PState(NatToString(n) + " ", "", true, false, false, [ArithOperator(op)]);
    FlushAfter(e, s2);
    var res := NatToString(n) + " " + Spaced(Tokens(e));
    assert FlushAll(res, [ArithOperator(op)]) == res + [op];
    NumberFirstJoined(op, n, e);
  }

  lemma FinishConstantSeparated(op: char, e: Expr)
    requires IsArith(op) && WellFormed(e)
    ensures Finish(AfterConstant(op, e, SpacedConstant)) == Ok(Joined(Tokens(Bin(op, Num(SpeedOfLight), e))))
  {
    FinishNumberFirst(op, SpeedOfLight, e);
  }

  /** With the constant as a token of its own, "c" op e reads as the expression
      Bin(op, SpeedOfLight, e). */
  lemma ConstantSeparated(op: char, e: Expr, pow: (real, real) -> real)
    requires IsArith(op) && WellFormed(e)
    ensures Postfix("c" + [op] + Infix(e)) == Ok(Joined(Tokens(Bin(op, Num(SpeedOfLight), e))))
    ensures Evaluation(Postfix("c" + [op] + Infix(e)).value, pow) == Value(Bin(op, Num(SpeedOfLight), e), pow)
  {
    RunConstantFirst(op, e, SpacedConstant);
    FinishConstantSeparated(op, e);
    EvaluationOfTokens(Bin(op, Num(SpeedOfLight), e), pow);
  }

  lemma DigitsConcat(a: string, b: string)
    requires AllDigits(a) && AllDigits(b)
    ensures AllDigits(a + b) && ' ' !in a + b
  {
    assert forall i :: 0 <= i < |b| ==> (a + b)[|a| + i] == b[i];
  }

  /** As written, "c" op n fuses the constant with the digits of n into one token. */
  lemma ConstantFusesAsWritten(op: char, n: nat)
    requires IsArith(op)
    ensures PostfixAsWritten("c" + [op] + NatToString(n)) == Ok(Constant + NatToString(n) + " " + [op])
  {
    RunConstantFirst(op, Num(n), Constant);
    FinishFused(op, n);
  }

  lemma FinishFused(op: char, n: nat)
    requires IsArith(op)
    ensures Finish(AfterConstant(op, Num(n), Constant)) == Ok(Constant + NatToString(n) + " " + [op])
  {
    DigitsArePlain(SpeedOfLight);
    assert !IsWhitespace(Constant[0]);
    DigitsArePlain(n);
    FinishPending(AfterConstant(op, Num(n), Constant), op);
  }

  lemma ArithIsPlain(op: char)
    requires IsArith(op)
    ensures !IsWhitespace(op) && !IsDigit(op) && op != '.'
  {
  }

  lemma FinishIs(st: PState, res: string, out: string)
    requires !st.prevWasOper && Flush(st.result, st.prevNum) == Ok(res) && Trim(FlushAll(res, st.opers)) == out
    ensures Finish(st) == Ok(out)
  {
  }

  /** A pending number is flushed with a space after it. */
  lemma FlushDigits(result: string, ds: string)
    requires ds != [] && AllDigits(ds)
    ensures Flush(result, ds) == Ok(result + ds + " ")
  {
    assert NumericShape(ds);
  }

  lemma FlushAllOne(r: string, o: Operator)
    ensures FlushAll(r, [o]) == r + [o.symbol]
  {
    assert Top([o]) == o && Pop([o]) == [];
  }

  lemma FlushAllTwo(r: string, o1: Operator, o2: Operator)
    ensures FlushAll(r, [o1, o2]) == r + [o2.symbol] + " " + [o1.symbol]
  {
    assert Top([o1, o2]) == o2 && Pop([o1, o2]) == [o1];
    FlushAllOne(r + [o2.symbol] + " ", o1);
  }

  /** Text that starts with a non-blank and ends in an operator is left as it is by trim. */
  lemma TrimEndsInOperator(p: string, op: char)
    requires p != [] && !IsWhitespace(p[0]) && p[|p| - 1] == op && IsArith(op)
    ensures Trim(p) == p
  {
    ArithIsPlain(op);
    TrimOfTrimmed(p);
  }

  /** The end of the input with digits pending and one operator stacked. */
  lemma FinishPending(st: PState, op: char)
    requires IsArith(op) && !st.prevWasOper && st.opers == [ArithOperator(op)]
    requires st.prevNum != [] && AllDigits(st.prevNum) && st.result != [] && !IsWhitespace(st.result[0])
    ensures Finish(st) == Ok(st.result + st.prevNum + " " + [op])
  {
    var res := st.result + st.prevNum + " ";
    var p := res + [op];
    FlushDigits(st.result, st.prevNum);
    FlushAllOne(res, ArithOperator(op));
    TrimEndsInOperator(p, op);
    FinishIs(st, res, p);
  }

  /** The end of the input with digits pending and two operators stacked. */
  lemma FinishPendingTwo(st: PState, o1: char, o2: char)
    requires IsArith(o1) && IsArith(o2) && !st.prevWasOper && st.opers == [ArithOperator(o1), ArithOperator(o2)]
    requires st.prevNum != [] && AllDigits(st.prevNum) && st.result != [] && !IsWhitespace(st.result[0])
    ensures Finish(st) == Ok(st.result + st.prevNum + " " + [o2] + " " + [o1])
  {
    var res := st.result + st.prevNum + " ";
    var p := res + [o2] + " " + [o1];
    FlushDigits(st.result, st.prevNum);
    FlushAllTwo(res, ArithOperator(o1), ArithOperator(o2));
    TrimEndsInOperator(p, o1);
    FinishIs(st, res, p);
  }

  lemma TokenStepUnderflow(stack: seq<real>, op: char, pow: (real, real) -> real)
    requires IsArith(op) && |stack| < 2
    ensures TokenStep(stack, [op], pow) == Err(StackUnderflow)
  {
    Operators.GetOperatorOfArith(op);
    assert [op][0] == op;
  }

  lemma TokenStepDigits(stack: seq<real>, t: string, pow: (real, real) -> real)
    requires t != [] && AllDigits(t)
    ensures TokenStep(stack, t, pow) == Ok(stack + [DigitsValue(t) as real])
  {
    Operators.IsOperatorSymbols(t[0]);
    ParseDecimalOfDigits(t);
  }

  /** A number followed by an operator: the operator finds a single number on the stack. */
  lemma OneOperandUnderflows(t: string, op: char, pow: (real, real) -> real)
    requires t != [] && AllDigits(t) && ' ' !in t && IsArith(op)
    ensures Evaluation(t + " " + [op], pow) == Err(StackUnderflow)
  {
    var p := t + " " + [op];
    assert p[|p| - 1] == op;
    assert !NumericShape(p) by { assert !(IsDigit(p[|p| - 1]) || IsWhitespace(p[|p| - 1]) || p[|p| - 1] == '.'); }
    SplitField(t, ' ', [op]);
    SplitWhole([op], ' ');
    assert t + [' '] + [op] == p;
    assert Split(p, ' ') == [t, [op]];
    var x := DigitsValue(t) as real;
    TokenStepDigits([], t, pow);
    TokenStepUnderflow([x], op, pow);
    assert [] + [x] == [x];
    assert EvalTokens([[op]], [x], pow) == Err(StackUnderflow);
    assert [t, [op]][1..] == [[op]];
    assert EvalTokens([t, [op]], [], pow) == Err(StackUnderflow);
  }

  /** The empty postfix string is zero, and a number alone is its own value. */
  lemma EvaluationOfNumber(n: nat, pow: (real, real) -> real)
    ensures Evaluation("", pow) == Ok(0.0)
    ensures Evaluation(NatToString(n), pow) == Ok(n as real)
  {
    DigitsArePlain(n);
    DigitsOfNatToString(n);
    ParseDecimalOfDigits(NatToString(n));
  }

  /** Two numbers and no operator leave two values on the stack, which evaluate_postfix
      refuses. */
  lemma TwoNumbersLeftOver(a: nat, b: nat, pow: (real, real) -> real)
    ensures Evaluation(NatToString(a) + " " + NatToString(b), pow) == Err(WrongOperandCount)
  {
    var ta, tb := NatToString(a), NatToString(b);
    var p := ta + " " + tb;
    assert !NumericShape(p) by {
      assert p[0] == ta[0] && p[|ta|] == ' ' && p[|ta| + 1] == tb[0];
      assert DigitSpaceDigit(p, 0, |ta|, |ta| + 1);
    }
    assert ' ' !in ta && ' ' !in tb by { assert AllDigits(ta) && AllDigits(tb); }
    SplitField(ta, ' ', tb);
    SplitWhole(tb, ' ');
    assert ta + [' '] + tb == p;
    assert Split(p, ' ') == [ta, tb];
    var x, y := DigitsValue(ta) as real, DigitsValue(tb) as real;
    TokenStepDigits([], ta, pow);
    TokenStepDigits([x], tb, pow);
    assert [] + [x] == [x] && [x] + [y] == [x, y];
    assert EvalTokens([], [x, y], pow) == Ok([x, y]);
    assert [tb][0] == tb && [tb][1..] == [];
    assert EvalTokens([tb], [x], pow) == Ok([x, y]);
    assert [ta, tb][0] == ta && [ta, tb][1..] == [tb];
    assert EvalTokens([ta, tb], [], pow) == Ok([x, y]);
  }

  /** The fused postfix of ConstantFusesAsWritten leaves the operator a single number. */
  lemma FusedFailsToEvaluate(op: char, n: nat, pow: (real, real) -> real)
    requires IsArith(op)
    ensures Evaluation(Constant + NatToString(n) + " " + [op], pow) == Err(StackUnderflow)
  {
    DigitsConcat(Constant, NatToString(n));
    OneOperandUnderflows(Constant + NatToString(n), op, pow);
  }

  lemma StepWithoutConstant(st: PState, c: char, k1: string, k2: string)
    requires c != 'c'
    ensures Step(st, c, k1) == Step(st, c, k2)
  {
    if KindOf(c) == Letter {
      assert LetterStep(st, c, k1) == LetterStep(st, c, k2);
    }
  }

  lemma {:induction false} RunWithoutConstant(s: string, st: PState, k1: string, k2: string)
    requires 'c' !in s
    ensures Run(s, st, k1) == Run(s, st, k2)
    decreases |s|
  {
    if s != [] {
      StepWithoutConstant(st, s[0], k1, k2);
      if Step(st, s[0], k1).Ok? {
        assert 'c' !in s[1..] by { assert forall i :: 0 <= i < |s[1..]| ==> s[1..][i] == s[i + 1]; }
        RunWithoutConstant(s[1..], Step(st, s[0], k1).value, k1, k2);
      }
    }
  }

  /** The correction changes nothing for an expression without the constant. */
  lemma PostfixAgreesWithoutConstant(infix: string)
    requires 'c' !in infix
    ensures Postfix(infix) == PostfixAsWritten(infix)
  {
    RunWithoutConstant(infix, Start, SpacedConstant, Constant);
  }

  // ---- precedence and associativity ----------------------------------------------------------

  /** The left operator of a op1 b op2 c takes b: it binds tighter, or as tight and op2 is
      not the right-associative '^'. */
  predicate LeftFirst(o1: char, o2: char)
    requires IsArith(o1) && IsArith(o2)
  {
    var p1, p2 := ArithOperator(o1).precedence, ArithOperator(o2).precedence;
    p2 < p1 || (p1 == p2 && o2 != '^')
  }

  /** The expression a op1 b op2 c stands for. */
  function Grouping(o1: char, o2: char, a: nat, b: nat, c: nat): (e: Expr)
    requires IsArith(o1) && IsArith(o2)
    ensures WellFormed(e)
  {
    if LeftFirst(o1, o2) then Bin(o2, Bin(o1, Num(a), Num(b)), Num(c))
    else Bin(o1, Num(a), Bin(o2, Num(b), Num(c)))
  }

  /** A number and then an operator, from the start. */
  lemma RunFirstOperand(a: nat, o1: char, rest: string, k: string)
    requires IsArith(o1)
    ensures Run(NatToString(a) + ([o1] + rest), Start, k) ==
      Run(rest, PState(NatToString(a) + " ", "", true, false, false, [ArithOperator(o1)]), k)
  {
    RunInfix(Num(a), [o1] + rest, Start, k);
    var s1 := After(Num(a), Start);
    FlushAfter(Num(a), Start);
    assert Spaced([NatToString(a)]) == NatToString(a) + " " by { assert [NatToString(a)][1..] == []; }
    assert "" + (NatToString(a) + " ") == NatToString(a) + " ";
    PushInParens(s1, o1, k);
    assert [] + [ArithOperator(o1)] == [ArithOperator(o1)];
    RunCons(s1, o1, rest, k, PState(NatToString(a) + " ", "", true, false, false, [ArithOperator(o1)]));
  }

  lemma PopWhileOne(res: string, o1: char, o2: char)
    requires IsArith(o1) && IsArith(o2)
    ensures PopWhile(res, [ArithOperator(o1)], ArithOperator(o2).precedence, o2) ==
      if LeftFirst(o1, o2) then (res + [o1] + " ", []) else (res, [ArithOperator(o1)])
  {
    var O1 := ArithOperator(o1);
    assert Top([O1]) == O1 && Pop([O1]) == [];
    assert Binds(O1, ArithOperator(o2).precedence, o2) <==> LeftFirst(o1, o2);
  }

  /** What the operator arm does, once the stack work is known. */
  lemma OperatorStepIs(st: PState, op: char, k: string, res: string, out: (string, seq<Operator>))
    requires IsArith(op) && !st.firstChar && !st.prevWasOper
    requires Flush(st.result, st.prevNum) == Ok(res)
    requires PopWhile(res, st.opers, ArithOperator(op).precedence, op) == out
    ensures Step(st, op, k) == Ok(PState(out.0, "", true, false, false, out.1 + [ArithOperator(op)]))
  {
    KindOfArith(op);
    assert Step(st, op, k) == OperatorStep(st, op);
  }

  /** The second operator pops the first one when the first goes first ... */
  lemma SecondOperatorPops(st: PState, o1: char, o2: char, k: string)
    requires IsArith(o1) && IsArith(o2) && !st.firstChar && !st.prevWasOper && LeftFirst(o1, o2)
    requires st.opers == [ArithOperator(o1)] && Flush(st.result, st.prevNum).Ok?
    ensures Step(st, o2, k) == Ok(PState(Flush(st.result, st.prevNum).value + [o1] + " ", "", true, false, false, [ArithOperator(o2)]))
  {
    var res := Flush(st.result, st.prevNum).value;
    PopWhileOne(res, o1, o2);
    OperatorStepIs(st, o2, k, res, (res + [o1] + " ", []));
    assert [] + [ArithOperator(o2)] == [ArithOperator(o2)];
  }

  /** ... and goes on top of it otherwise. */
  lemma SecondOperatorStacks(st: PState, o1: char, o2: char, k: string)
    requires IsArith(o1) && IsArith(o2) && !st.firstChar && !st.prevWasOper && !LeftFirst(o1, o2)
    requires st.opers == [ArithOperator(o1)] && Flush(st.result, st.prevNum).Ok?
    ensures Step(st, o2, k) == Ok(PState(Flush(st.result, st.prevNum).value, "", true, false, false, [ArithOperator(o1), ArithOperator(o2)]))
  {
    var res := Flush(st.result, st.prevNum).value;
    PopWhileOne(res, o1, o2);
    OperatorStepIs(st, o2, k, res, (res, [ArithOperator(o1)]));
    assert [ArithOperator(o1)] + [ArithOperator(o2)] == [ArithOperator(o1), ArithOperator(o2)];
  }

  /** An operator the step accepts, then a number. */
  lemma OperatorThenNumber(st: PState, op: char, c: nat, k: string, next: PState)
    requires Step(st, op, k) == Ok(next) && next.prevWasOper && next.prevNum == []
    ensures Run([op] + NatToString(c), st, k) == Ok(PState(next.result, NatToString(c), false, true, false, next.opers))
  {
    var dc := NatToString(c);
    RunCons(st, op, dc, k, next);
    assert dc == dc + [];
    RunDigits(dc, [], next, k);
    assert "" + dc == dc;
  }

  /** The text to_postfix writes for a op1 b op2 c, before it is compared with the tokens. */
  function TwoOperatorText(o1: char, o2: char, a: nat, b: nat, c: nat): string
    requires IsArith(o1) && IsArith(o2)
  {
    var da, db, dc := NatToString(a), NatToString(b), NatToString(c);
    if LeftFirst(o1, o2) then da + " " + db + " " + [o1] + " " + dc + " " + [o2]
    else da + " " + db + " " + dc + " " + [o2] + " " + [o1]
  }

  /** From the second operator on, with a and b read. */
  lemma FinishFromSecondOperator(o1: char, o2: char, a: nat, b: nat, c: nat, k: string)
    requires IsArith(o1) && IsArith(o2)
    ensures var st := PState(NatToString(a) + " ", NatToString(b), false, true, false, [ArithOperator(o1)]);
      Run([o2] + NatToString(c), st, k).Ok? && Finish(Run([o2] + NatToString(c), st, k).value) == Ok(TwoOperatorText(o1, o2, a, b, c))
  {
    var da, db, dc := NatToString(a), NatToString(b), NatToString(c);
    DigitsArePlain(a);
    DigitsArePlain(b);
    DigitsArePlain(c);
    var st := PState(da + " ", db, false, true, false, [ArithOperator(o1)]);
    var res := da + " " + db + " ";
    assert Flush(da + " ", db) == Ok(res);
    if LeftFirst(o1, o2) {
      SecondOperatorPops(st, o1, o2, k);
      var next := PState(res + [o1] + " ", "", true, false, false, [ArithOperator(o2)]);
      OperatorThenNumber(st, o2, c, k, next);
      FinishPending(PState(next.result, dc, false, true, false, next.opers), o2);
    } else {
      SecondOperatorStacks(st, o1, o2, k);
      var next := PState(res, "", true, false, false, [ArithOperator(o1), ArithOperator(o2)]);
      OperatorThenNumber(st, o2, c, k, next);
      FinishPendingTwo(PState(next.result, dc, false, true, false, next.opers), o1, o2);
    }
  }

  /** Reading a, o1 and b leaves the second operator and c to read. */
  lemma RunToSecondOperator(o1: char, o2: char, a: nat, b: nat, c: nat, k: string)
    requires IsArith(o1) && IsArith(o2)
    ensures Run(NatToString(a) + [o1] + NatToString(b) + [o2] + NatToString(c), Start, k) ==
            Run([o2] + NatToString(c), PState(NatToString(a) + " ", NatToString(b), false, true, false, [ArithOperator(o1)]), k)
  {
    var da, db, dc := NatToString(a), NatToString(b), NatToString(c);
    assert da + [o1] + db + [o2] + dc == da + ([o1] + (db + ([o2] + dc)));
    RunFirstOperand(a, o1, db + ([o2] + dc), k);
    var s2 := PState(da + " ", "", true, false, false, [ArithOperator(o1)]);
    RunDigits(db, [o2] + dc, s2, k);
    assert "" + db == db;
  }

  /** A number is balanced: it holds no bracket. */
  lemma NumberBalanced(n: nat)
    ensures Balanced(NatToString(n))
  {
    assert AllDigits(NatToString(n));
    ScanPlain(NatToString(n), []);
  }

  /** a op1 b op2 c holds no bracket. */
  lemma TwoOperatorsBalanced(o1: char, o2: char, a: nat, b: nat, c: nat)
    requires IsArith(o1) && IsArith(o2)
    ensures Balanced(NatToString(a) + [o1] + NatToString(b) + [o2] + NatToString(c))
  {
    NumberBalanced(a);
    NumberBalanced(b);
    NumberBalanced(c);
    ScanPlain([o1], []);
    ScanPlain([o2], []);
    BalancedConcat(NatToString(a), [o1]);
    BalancedConcat(NatToString(a) + [o1], NatToString(b));
    BalancedConcat(NatToString(a) + [o1] + NatToString(b), [o2]);
    BalancedConcat(NatToString(a) + [o1] + NatToString(b) + [o2], NatToString(c));
  }

  lemma RunTwoOperators(o1: char, o2: char, a: nat, b: nat, c: nat, k: string)
    requires IsArith(o1) && IsArith(o2)
    ensures PostfixWith(NatToString(a) + [o1] + NatToString(b) + [o2] + NatToString(c), k) ==
            Ok(TwoOperatorText(o1, o2, a, b, c))
  {
    TwoOperatorsBalanced(o1, o2, a, b, c);
    RunToSecondOperator(o1, o2, a, b, c, k);
    FinishFromSecondOperator(o1, o2, a, b, c, k);
  }

  lemma JoinedCons(t: string, ts: seq<string>)
    requires ts != []
    ensures Joined([t] + ts) == t + " " + Joined(ts)
  {
    assert ([t] + ts)[0] == t && ([t] + ts)[1..] == ts;
  }

  lemma JoinedFive(t1: string, t2: string, t3: string, t4: string, t5: string)
    ensures Joined([t1, t2, t3, t4, t5]) == t1 + " " + t2 + " " + t3 + " " + t4 + " " + t5
  {
    assert [t4, t5] == [t4] + [t5];
    JoinedCons(t4, [t5]);
    assert [t3, t4, t5] == [t3] + [t4, t5];
    JoinedCons(t3, [t4, t5]);
    assert [t2, t3, t4, t5] == [t2] + [t3, t4, t5];
    JoinedCons(t2, [t3, t4, t5]);
    assert [t1, t2, t3, t4, t5] == [t1] + [t2, t3, t4, t5];
    JoinedCons(t1, [t2, t3, t4, t5]);
  }

  /** The tokens of the two groupings, in postfix order. */
  lemma GroupingTokens(o1: char, o2: char, a: nat, b: nat, c: nat)
    requires IsArith(o1) && IsArith(o2)
    ensures Tokens(Grouping(o1, o2, a, b, c)) ==
      if LeftFirst(o1, o2) then [NatToString(a), NatToString(b), [o1], NatToString(c), [o2]]
      else [NatToString(a), NatToString(b), NatToString(c), [o2], [o1]]
  {
    var da, db, dc := NatToString(a), NatToString(b), NatToString(c);
    if LeftFirst(o1, o2) {
      var left: seq<string> := [da] + [db] + [[o1]];
      assert Tokens(Bin(o1, Num(a), Num(b))) == left;
      assert left + [dc] + [[o2]] == [da, db, [o1], dc, [o2]];
    } else {
      var right: seq<string> := [db] + [dc] + [[o2]];
      assert Tokens(Bin(o2, Num(b), Num(c))) == right;
      assert [da] + right + [[o1]] == [da, db, dc, [o2], [o1]];
    }
  }

  lemma TwoOperatorTokens(o1: char, o2: char, a: nat, b: nat, c: nat)
    requires IsArith(o1) && IsArith(o2)
    ensures TwoOperatorText(o1, o2, a, b, c) == Joined(Tokens(Grouping(o1, o2, a, b, c)))
  {
    var da, db, dc := NatToString(a), NatToString(b), NatToString(c);
    GroupingTokens(o1, o2, a, b, c);
    if LeftFirst(o1, o2) {
      JoinedFive(da, db, [o1], dc, [o2]);
    } else {
      JoinedFive(da, db, dc, [o2], [o1]);
    }
  }

  /** Without brackets, a op1 b op2 c is grouped by precedence, equal precedences to the
      left except for '^', which groups to the right; the value follows the grouping. */
  lemma PrecedenceGroups(o1: char, o2: char, a: nat, b: nat, c: nat, pow: (real, real) -> real)
    requires IsArith(o1) && IsArith(o2)
    ensures Postfix(NatToString(a) + [o1] + NatToString(b) + [o2] + NatToString(c)) ==
            Ok(Joined(Tokens(Grouping(o1, o2, a, b, c))))
    ensures PostfixAsWritten(NatToString(a) + [o1] + NatToString(b) + [o2] + NatToString(c)) ==
            Postfix(NatToString(a) + [o1] + NatToString(b) + [o2] + NatToString(c))
    ensures Evaluation(Joined(Tokens(Grouping(o1, o2, a, b, c))), pow) == Value(Grouping(o1, o2, a, b, c), pow)
  {
    RunTwoOperators(o1, o2, a, b, c, SpacedConstant);
    RunTwoOperators(o1, o2, a, b, c, Constant);
    TwoOperatorTokens(o1, o2, a, b, c);
    EvaluationOfTokens(Grouping(o1, o2, a, b, c), pow);
  }

  // ---- rejected input --------------------------------------------------------------------------

  /** An operator may not come first. */
  lemma LeadingOperatorRejected(op: char, s: string, k: string)
    requires IsArith(op) && Balanced(s)
    ensures PostfixWith([op] + s, k) == Err(LeadingOperator)
  {
    ScanPlain([op], []);
    BalancedConcat([op], s);
    KindOfArith(op);
    assert Step(Start, op, k) == OperatorStep(Start, op) == Err(LeadingOperator);
    assert ([op] + s)[0] == op;
  }

  /** Nor come last. */
  lemma TrailingOperatorRejected(e: Expr, op: char, k: string)
    requires WellFormed(e) && IsArith(op)
    ensures PostfixWith(Infix(e) + [op], k) == Err(TrailingOperator)
  {
    var x := Infix(e);
    InfixBalanced(e);
    ScanPlain([op], []);
    BalancedConcat(x, [op]);
    RunTrailingOperator(e, op, k);
  }

  /** Reading a last operator leaves it pending. */
  lemma RunTrailingOperator(e: Expr, op: char, k: string)
    requires WellFormed(e) && IsArith(op)
    ensures Run(Infix(e) + [op], Start, k).Ok? && Run(Infix(e) + [op], Start, k).value.prevWasOper
  {
    RunInfix(e, [op], Start, k);
    var st := After(e, Start);
    FlushAfter(e, Start);
    PushInParens(st, op, k);
    var next := Step(st, op, k).value;
    assert [op] == [op] + [];
    RunCons(st, op, [], k, next);
  }

  lemma OperatorAfterOperator(st: PState, op: char, k: string)
    requires IsArith(op) && !st.firstChar && st.prevWasOper
    ensures Step(st, op, k) == Err(ConsecutiveOperators)
  {
    KindOfArith(op);
    assert Step(st, op, k) == OperatorStep(st, op);
  }

  /** Reading a second operator right after the first fails. */
  lemma RunConsecutiveOperators(e: Expr, o1: char, o2: char, s: string, k: string)
    requires WellFormed(e) && IsArith(o1) && IsArith(o2)
    ensures Run(Infix(e) + ([o1] + ([o2] + s)), Start, k) == Err(ConsecutiveOperators)
  {
    RunInfix(e, [o1] + ([o2] + s), Start, k);
    var st := After(e, Start);
    var next := PState(Start.result + Spaced(Tokens(e)), "", true, false, false, [ArithOperator(o1)]);
    FlushAfter(e, Start);
    OperatorStepIs(st, o1, k, next.result, (next.result, []));
    assert [] + [ArithOperator(o1)] == [ArithOperator(o1)];
    RunCons(st, o1, [o2] + s, k, next);
    OperatorAfterOperator(next, o2, k);
    assert ([o2] + s)[0] == o2;
  }

  lemma ConsecutiveOperatorsRejected(e: Expr, o1: char, o2: char, s: string, k: string)
    requires WellFormed(e) && IsArith(o1) && IsArith(o2) && Balanced(s)
    ensures PostfixWith(Infix(e) + [o1, o2] + s, k) == Err(ConsecutiveOperators)
  {
    var x := Infix(e);
    InfixBalanced(e);
    ScanPlain([o1, o2], []);
    BalancedConcat(x, [o1, o2]);
    BalancedConcat(x + [o1, o2], s);
    assert x + [o1, o2] + s == x + ([o1] + ([o2] + s));
    RunConsecutiveOperators(e, o1, o2, s, k);
  }

  /** A number may not follow a closing bracket without an operator between them. */
  lemma AdjacentOperandRejected(op: char, l: Expr, r: Expr, n: nat, k: string)
    requires WellFormed(Bin(op, l, r))
    ensures PostfixWith(Infix(Bin(op, l, r)) + NatToString(n), k) == Err(AdjacentOperands)
  {
    var x, d := Infix(Bin(op, l, r)), NatToString(n);
    InfixBalanced(Bin(op, l, r));
    NumberBalanced(n);
    BalancedConcat(x, d);
    RunAdjacentOperand(op, l, r, n, k);
  }

  lemma RunAdjacentOperand(op: char, l: Expr, r: Expr, n: nat, k: string)
    requires WellFormed(Bin(op, l, r))
    ensures Run(Infix(Bin(op, l, r)) + NatToString(n), Start, k) == Err(AdjacentOperands)
  {
    var e := Bin(op, l, r);
    var d := NatToString(n);
    assert AllDigits(d);
    RunInfix(e, d, Start, k);
    var st := After(e, Start);
    KindOfDigit(d[0]);
    assert Step(st, d[0], k) == NumberStep(st, d[0]) == Err(AdjacentOperands);
  }

  /** White space after the pending number ends it, and a number straight after that is
      refused as a second operand. */
  lemma SpaceThenNumber(st: PState, res: string, n: nat, k: string)
    requires !st.firstChar && !st.prevWasOper && Flush(st.result, st.prevNum) == Ok(res)
    ensures Run(" " + NatToString(n), st, k) == Err(AdjacentOperands)
  {
    var d := NatToString(n);
    var next := PState(res, "", st.prevWasOper, false, st.firstChar, st.opers);
    assert KindOf(' ') == Space;
    assert Step(st, ' ', k) == SpaceStep(st) == Ok(next);
    assert " " + d == [' '] + d;
    RunCons(st, ' ', d, k, next);
    assert AllDigits(d);
    KindOfDigit(d[0]);
    assert Step(next, d[0], k) == NumberStep(next, d[0]) == Err(AdjacentOperands);
  }

  /** Two numbers with only white space between them are refused, whatever 'c' writes. */
  lemma SpaceSeparatedRejected(a: nat, b: nat, k: string)
    ensures PostfixWith(NatToString(a) + " " + NatToString(b), k) == Err(AdjacentOperands)
  {
    var da, db := NatToString(a), NatToString(b);
    NumberBalanced(a);
    NumberBalanced(b);
    ScanPlain(" ", []);
    BalancedConcat(da, " ");
    BalancedConcat(da + " ", db);
    assert da + " " + db == da + (" " + db);
    assert AllDigits(da);
    RunDigits(da, " " + db, Start, k);
    assert "" + da == da;
    FlushDigits("", da);
    SpaceThenNumber(PState("", "" + da, false, true, false, []), "" + da + " ", b, k);
  }

  /** A letter other than 'c' is refused. */
  lemma UnknownLetterRejected(c: char, s: string, k: string)
    requires IsAlphabetic(c) && c != 'c' && Balanced(s)
    ensures PostfixWith([c] + s, k) == Err(AlphabeticNotAllowed(c))
  {
    assert KindOf(c) == Letter;
    assert ([c] + s)[1..] == s;
    assert Scan([c] + s, []) == Scan(s, []);
  }

  /** A character that is no digit, letter, white space, brace or operator is refused. */
  lemma InvalidCharacterRejected(c: char, s: string, k: string)
    requires KindOf(c) == Other && Balanced(s)
    ensures PostfixWith([c] + s, k) == Err(InvalidCharacter(c))
  {
    assert ([c] + s)[1..] == s;
    assert Scan([c] + s, []) == Scan(s, []);
  }
}
