/** The element pipeline of ops/parsing.rs: `parse_expression` classifies one operand
    literal, `infix_to_postfix` turns an infix expression into a postfix sequence of
    elements (operand literals and operators) by the shunting-yard method, and `evaluate`
    reduces that sequence over a stack of VariableType values. The loops are methods
    proved equal to functions that read one character (or one element) at a time. Each
    function over the loop state takes a Version: AsWritten follows the source line by
    line, Corrected repairs the three places where it goes wrong (see the lemmas at the
    end). */
module ExprParsing {
  import opened Wrappers
  import opened Text
  import opened Lexical
  import Operators
  import Stacks
  import Scalars
  import opened VariableTypes
  import SP = StringParsing

  type Operator = Operators.Operator

  /** What one operand literal stands for. Only the numeric, empty, ans and invalid forms
      are ever produced: the declaration and variable recognisers always fail, and
      nothing builds an environment variable. */
  datatype ExpressionType =
    | NumericExpression(n: Scalars.Scalar)
    | VariableExpression(name: string)
    | DeclarationExpression(name: string)
    | EmptyExpression
    | AnsExpression
    | EnvironmentVariable(name: string)
    | InvalidExpression(reason: Error)

  /** is_numeric_expression: the shape check of is_numeric_string, then the f64 parse.
      As written the parse is unwrapped, which aborts on a shape the parse refuses;
      corrected, that is an ordinary error. */
  function NumericLiteral(v: Version, obj: string): (r: Result<Scalars.Scalar>)
    ensures v == Corrected ==> !(r.Err? && r.error.Panic?)
  {
    if !NumericShape(obj) then Err(MalformedNumber(obj))
    else
      match ParseDecimal(obj)
      case Some(x) => Ok(Scalars.Scalar(x))
      case None => if v == AsWritten then Err(Panic("unwrap of a failed f64 parse")) else Err(MalformedNumber(obj))
  }

  /** parse_expression: unbalanced braces and anything unrecognised are invalid; the
      empty literal, "ans" in any case and surrounded by white space, and a number are
      recognised. The only Err is the abort inside the as-written number parse. */
  function ParseExpression(v: Version, input: string): (r: Result<ExpressionType>)
    ensures v == Corrected ==> r.Ok?
    ensures r.Ok? ==> !r.value.VariableExpression? && !r.value.DeclarationExpression? && !r.value.EnvironmentVariable?
    ensures r.Ok? && r.value.NumericExpression? ==> ParseDecimal(input) == Some(r.value.n.val)
  {
    if !Balanced(input) then Ok(InvalidExpression(UnbalancedBraces))
    else if input == [] then Ok(EmptyExpression)
    else if Trim(ToLower(input)) == "ans" then Ok(AnsExpression)
    else
      match NumericLiteral(v, input)
      case Ok(n) => Ok(NumericExpression(n))
      case Err(e) => if e.Panic? then Err(e) else Ok(InvalidExpression(InvalidOperand(input)))
  }

  /** is_numeric_expression, corrected: the loop of is_numeric_string, then the parse. */
  method IsNumericExpression(obj: string) returns (r: Result<Scalars.Scalar>)
    ensures r == NumericLiteral(Corrected, obj)
  {
    var numeric := IsNumericString(obj);
    if !numeric {
      return Err(MalformedNumber(obj));
    }
    var parsed := ParseDecimal(obj);
    if parsed.None? {
      return Err(MalformedNumber(obj));
    }
    return Ok(Scalars.Scalar(parsed.value));
  }

  /** parse_expression, corrected, with its two scanners run as loops. */
  method ParseInput(input: string) returns (r: ExpressionType)
    ensures ParseExpression(Corrected, input) == Ok(r)
  {
    var balanced := IsBalancedString(input);
    if !balanced {
      return InvalidExpression(UnbalancedBraces);
    } else if input == [] {
      return EmptyExpression;
    }
    if Trim(ToLower(input)) == "ans" {
      return AnsExpression;
    }
    var num := IsNumericExpression(input);
    if num.Ok? {
      return NumericExpression(num.value);
    }
    return InvalidExpression(InvalidOperand(input));
  }

  // ---- infix_to_postfix, one character at a time ---------------------------------------------

  datatype Element = SubExpr(expr: ExpressionType) | Oper(op: Operator)

  /** flush_prev_expr: a pending literal is classified and appended, unless invalid. */
  function FlushExpr(v: Version, elements: seq<Element>, prevExpr: string): Result<seq<Element>> {
    if prevExpr == [] then Ok(elements)
    else
      match ParseExpression(v, prevExpr)
      case Err(e) => Err(e)
      case Ok(p) => if p.InvalidExpression? then Err(InvalidOperand(prevExpr)) else Ok(elements + [SubExpr(p)])
  }

  /** The operators left on the stack, top first, as elements. */
  function Drain(opers: seq<Operator>): seq<Element>
    decreases |opers|
  {
    if opers == [] then [] else [Oper(SP.Top(opers))] + Drain(SP.Pop(opers))
  }

  /** The corrected popping loop: operators leave the top of the stack for the output
      while they bind at least as tight as the incoming one. */
  function PopWhile(elements: seq<Element>, opers: seq<Operator>, p2: int, item: char): (seq<Element>, seq<Operator>)
    decreases |opers|
  {
    if opers != [] && SP.Binds(SP.Top(opers), p2, item) then
      PopWhile(elements + [Oper(SP.Top(opers))], SP.Pop(opers), p2, item)
    else (elements, opers)
  }

  /** The popping loop as written: last was taken off the stack before the loop, each
      round writes it out and takes the next one off, and the loop stops once the stack
      is empty or last does not bind, leaving the last one taken off in neither place. */
  function PopLosing(elements: seq<Element>, opers: seq<Operator>, last: Operator, p2: int, item: char): (seq<Element>, seq<Operator>)
    decreases |opers|
  {
    if opers != [] && SP.Binds(last, p2, item) then
      PopLosing(elements + [Oper(last)], SP.Pop(opers), SP.Top(opers), p2, item)
    else (elements, opers)
  }

  /** The loop of a closing parenthesis: operators go to the output until an operator
      whose symbol is '(' comes off, which is dropped, or the stack runs empty. */
  function PopThroughParen(elements: seq<Element>, opers: seq<Operator>): (seq<Element>, seq<Operator>)
    decreases |opers|
  {
    if opers == [] then (elements, [])
    else if SP.Top(opers).symbol == '(' then (elements, SP.Pop(opers))
    else PopThroughParen(elements + [Oper(SP.Top(opers))], SP.Pop(opers))
  }

  /** The loop variables of infix_to_postfix. */
  datatype EState = EState(elements: seq<Element>, prevExpr: string, prevWasOper: bool, prevWasNum: bool,
                           firstChar: bool, opers: seq<Operator>)

  const Start := EState([], "", false, false, true, [])

  predicate Adjacent(st: EState) {
    !st.firstChar && !st.prevWasOper && !st.prevWasNum
  }

  /** The arms of the loop body, in the order they are tried. Only '(' and ')' have arms
      of their own; '{' and '[' are operators, '}' and ']' go into the pending literal. */
  datatype CharKind = Space | OpenParen | CloseParen | OperatorChar | Other

  function KindOf(c: char): CharKind {
    if IsWhitespace(c) then Space
    else if c == '(' then OpenParen
    else if c == ')' then CloseParen
    else if Operators.IsOperator(c) then OperatorChar
    else Other
  }

  /** White space ends the pending literal. */
  function SpaceStep(v: Version, st: EState): Result<EState> {
    match FlushExpr(v, st.elements, st.prevExpr)
    case Err(e) => Err(e)
    case Ok(res) => Ok(EState(res, "", st.prevWasOper, false, st.firstChar, st.opers))
  }

  function OpenStep(v: Version, st: EState): Result<EState> {
    match FlushExpr(v, st.elements, st.prevExpr)
    case Err(e) => Err(e)
    case Ok(res) =>
      Operators.GetOperatorOfBrace('(');
      Ok(EState(res, "", true, false, false, st.opers + [Operators.GetOperator('(').value]))
  }

  /** A closing parenthesis: pop through the opening one; as written, one more '(' on top
      of what is left is popped as well. */
  function CloseStep(v: Version, st: EState): Result<EState> {
    match FlushExpr(v, st.elements, st.prevExpr)
    case Err(e) => Err(e)
    case Ok(res) => CloseFlushed(v, res, st.opers)
  }

  /** The closing parenthesis once the pending literal is written to res. */
  function CloseFlushed(v: Version, res: seq<Element>, opers: seq<Operator>): Result<EState> {
    if opers == [] then Err(ClosingWithoutOperators)
    else
      var p := PopThroughParen(res, opers);
      var left := if v == AsWritten && p.1 != [] && SP.Top(p.1).symbol == '(' then SP.Pop(p.1) else p.1;
      Ok(EState(p.0, "", false, false, false, left))
  }

  /** A binary operator: not first, not after another operator; as written the top of
      the stack is taken off before the popping loop starts. */
  function OperatorStep(v: Version, st: EState, c: char): Result<EState>
    requires Operators.IsOperator(c)
  {
    if st.firstChar then Err(LeadingOperator)
    else if st.prevWasOper then Err(ConsecutiveOperators)
    else
      match FlushExpr(v, st.elements, st.prevExpr)
      case Err(e) => Err(e)
      case Ok(res) =>
        var curr := Operators.GetOperator(c).value;
        var p :=
          if v == Corrected then PopWhile(res, st.opers, curr.precedence, c)
          else if st.opers == [] then (res, [])
          else PopLosing(res, SP.Pop(st.opers), SP.Top(st.opers), curr.precedence, c);
        Ok(EState(p.0, "", true, false, false, p.1 + [curr]))
  }

  /** Any other character extends the pending literal. */
  function OtherStep(st: EState, c: char): Result<EState> {
    if Adjacent(st) then Err(AdjacentOperands)
    else Ok(EState(st.elements, st.prevExpr + [c], false, true, false, st.opers))
  }

  function Step(v: Version, st: EState, c: char): Result<EState> {
    match KindOf(c)
    case Space => SpaceStep(v, st)
    case OpenParen => OpenStep(v, st)
    case CloseParen => CloseStep(v, st)
    case OperatorChar => OperatorStep(v, st, c)
    case Other => OtherStep(st, c)
  }

  function Run(v: Version, s: string, st: EState): Result<EState>
    decreases |s|
  {
    if s == [] then Ok(st)
    else
      match Step(v, st, s[0])
      case Err(e) => Err(e)
      case Ok(next) => Run(v, s[1..], next)
  }

  /** After the last character: no trailing operator, flush, empty the stack. */
  function Finish(v: Version, st: EState): Result<seq<Element>> {
    if st.prevWasOper then Err(TrailingOperator)
    else
      match FlushExpr(v, st.elements, st.prevExpr)
      case Err(e) => Err(e)
      case Ok(res) => Ok(res + Drain(st.opers))
  }

  function PostfixWith(v: Version, infix: string): Result<seq<Element>> {
    if !Balanced(infix) then Err(UnbalancedBraces)
    else
      match Run(v, infix, Start)
      case Err(e) => Err(e)
      case Ok(st) => Finish(v, st)
  }

  function PostfixAsWritten(infix: string): Result<seq<Element>> {
    PostfixWith(AsWritten, infix)
  }

  function Postfix(infix: string): Result<seq<Element>> {
    PostfixWith(Corrected, infix)
  }

  // ---- evaluate, one element at a time ------------------------------------------------------

  /** The variable store evaluate reads: the last answer, the temporaries and the named
      variables (variable_storage.rs is not part of this model). */
  datatype Storage = Storage(ans: VariableType, temporaries: map<string, VariableType>,
                             variables: map<string, VariableType>)

  predicate AllValid(vals: seq<VariableType>) {
    forall i :: 0 <= i < |vals| ==> vals[i].Valid()
  }

  predicate MapValid(m: map<string, VariableType>) {
    forall k :: k in m ==> m[k].Valid()
  }

  predicate StorageValid(vars: Storage, env: map<string, VariableType>) {
    vars.ans.Valid() && MapValid(vars.temporaries) && MapValid(vars.variables) && MapValid(env)
  }

  /** An operator applied to two operands: the four symbols with a meaning on
      VariableType dispatch to its add, sub, mul and div; the others have none. */
  function ApplyOperator(o: Operator, a: VariableType, b: VariableType): (r: Result<VariableType>)
    requires a.Valid() && b.Valid()
    ensures r.Ok? ==> r.value.Valid()
    ensures r.Ok? && a.ScalarValue? && b.ScalarValue? ==> r.value.ScalarValue?
    ensures o.symbol !in "+-*/" ==> r == Err(UnsupportedOperator(o.symbol))
  {
    match o.symbol
    case '+' => Add(a, b)
    case '-' => Sub(a, b)
    case '*' => Mul(a, b)
    case '/' => Div(a, b)
    case _ => Err(UnsupportedOperator(o.symbol))
  }

  /** On two scalars, the four symbols mean what the operator's own f64 function
      computes, division by zero included. */
  lemma ApplyOperatorOnScalars(o: Operator, x: real, y: real, pow: (real, real) -> real)
    requires o in Operators.Table && o.symbol in "+-*/"
    ensures ApplyOperator(o, ScalarValue(Scalars.Scalar(x)), ScalarValue(Scalars.Scalar(y))) ==
      match Operators.Evaluate(o, x, y, pow)
      case Ok(z) => Ok(ScalarValue(Scalars.Scalar(z)))
      case Err(e) => Err(e)
  {
    if o.symbol == '*' {
      assert Operators.Evaluate(o, x, y, pow) == Ok(x * y);
      var a, b := Scalars.Scalar(x), Scalars.Scalar(y);
      assert Mul(ScalarValue(a), ScalarValue(b)) == Ok(ScalarValue(Scalars.Mul(a, b)));
      assert Scalars.Mul(a, b) == Scalars.Scalar(x * y);
    }
  }

  /** The value a lookup yields, or the name it missed. */
  function Lookup(m: map<string, VariableType>, name: string): Result<VariableType> {
    if name in m then Ok(m[name]) else Err(UnresolvedName(name))
  }

  /** One element: an operator replaces the two values on top (the deeper one is the
      left operand); an operand pushes its value. */
  function EvalStep(stack: seq<VariableType>, elem: Element, vars: Storage, env: map<string, VariableType>): Result<seq<VariableType>>
    requires AllValid(stack) && StorageValid(vars, env)
  {
    match elem
    case Oper(o) =>
      if |stack| < 2 then Err(StackUnderflow)
      else
        (match ApplyOperator(o, stack[|stack| - 2], stack[|stack| - 1])
         case Err(e) => Err(e)
         case Ok(t) => Ok(stack[..|stack| - 2] + [t]))
    case SubExpr(expr) =>
      var value :=
        match expr
        case AnsExpression => Ok(vars.ans)
        case DeclarationExpression(name) => Lookup(vars.temporaries, name)
        case VariableExpression(name) => Lookup(vars.variables, name)
        case EnvironmentVariable(name) => Lookup(env, name)
        case EmptyExpression => Ok(ScalarValue(Scalars.Scalar(0.0)))
        case InvalidExpression(reason) => Err(reason)
        case NumericExpression(n) => Ok(ScalarValue(n));
      match value
      case Err(e) => Err(e)
      case Ok(x) => Ok(stack + [x])
  }

  lemma EvalStepValid(stack: seq<VariableType>, elem: Element, vars: Storage, env: map<string, VariableType>)
    requires AllValid(stack) && StorageValid(vars, env)
    ensures EvalStep(stack, elem, vars, env).Ok? ==> AllValid(EvalStep(stack, elem, vars, env).value)
  {
  }

  function EvalElements(elems: seq<Element>, stack: seq<VariableType>, vars: Storage, env: map<string, VariableType>): Result<seq<VariableType>>
    requires AllValid(stack) && StorageValid(vars, env)
    decreases |elems|
  {
    if elems == [] then Ok(stack)
    else
      EvalStepValid(stack, elems[0], vars, env);
      match EvalStep(stack, elems[0], vars, env)
      case Err(e) => Err(e)
      case Ok(next) => EvalElements(elems[1..], next, vars, env)
  }

  /** evaluate: no elements give the scalar 0; every failure, and a final stack of any
      size but one, give None. */
  function Evaluation(elems: seq<Element>, vars: Storage, env: map<string, VariableType>): (r: VariableType)
    requires StorageValid(vars, env)
  {
    if elems == [] then ScalarValue(Scalars.Scalar(0.0))
    else
      match EvalElements(elems, [], vars, env)
      case Err(_) => NoneValue
      case Ok(st) => if |st| != 1 then NoneValue else st[0]
  }

  // ---- the loops ------------------------------------------------------------------------------

  /** The Expression of the source: the postfix elements, which infix_to_postfix fills in
      and evaluate reads. */
  class Expression {
    var elements: seq<Element>

    constructor()
      ensures elements == []
    {
      elements := [];
    }

    /** flush_prev_expr, corrected. */
    method FlushPrevExpr(prevExpr: string) returns (r: Result<()>)
      modifies this
      ensures r.Ok? ==> FlushExpr(Corrected, old(elements), prevExpr) == Ok(elements)
      ensures r.Err? ==> FlushExpr(Corrected, old(elements), prevExpr) == Err(r.error) && elements == old(elements)
    {
      if prevExpr != [] {
        var parsed := ParseInput(prevExpr);
        if parsed.InvalidExpression? {
          return Err(InvalidOperand(prevExpr));
        }
        elements := elements + [SubExpr(parsed)];
      }
      return Ok(());
    }

    /** The corrected popping loop: peek, and pop only what is written out. */
    method PopBinding(opers: Stacks.Stack<Operator>, p2: int, item: char)
      modifies this, opers
      ensures (elements, opers.data) == PopWhile(old(elements), old(opers.data), p2, item)
    {
      var top := opers.Peek();
      while top.Some? && SP.Binds(top.value, p2, item)
        invariant top == (if opers.data == [] then None else Some(SP.Top(opers.data)))
        invariant PopWhile(elements, opers.data, p2, item) == PopWhile(old(elements), old(opers.data), p2, item)
        decreases |opers.data|
      {
        elements := elements + [Oper(top.value)];
        var popped := opers.Pop();
        top := opers.Peek();
      }
    }

    /** The loop of a closing parenthesis (its extra pop left out). */
    method PopToParen(opers: Stacks.Stack<Operator>)
      modifies this, opers
      ensures (elements, opers.data) == PopThroughParen(old(elements), old(opers.data))
    {
      var empty := opers.IsEmpty();
      while !empty
        invariant empty <==> opers.data == []
        invariant PopThroughParen(elements, opers.data) == PopThroughParen(old(elements), old(opers.data))
        decreases |opers.data|
      {
        var top := opers.Peek();
        var popped := opers.Pop();
        if top.value.symbol == '(' {
          return;
        }
        elements := elements + [Oper(top.value)];
        empty := opers.IsEmpty();
      }
    }

    method DrainOperators(opers: Stacks.Stack<Operator>)
      modifies this, opers
      ensures elements == old(elements) + Drain(old(opers.data)) && opers.data == []
    {
      var empty := opers.IsEmpty();
      while !empty
        invariant empty <==> opers.data == []
        invariant elements + Drain(opers.data) == old(elements) + Drain(old(opers.data))
        decreases |opers.data|
      {
        var top := opers.Peek();
        elements := elements + [Oper(top.value)];
        var popped := opers.Pop();
        empty := opers.IsEmpty();
      }
    }

    /** evaluate, over a Stack of values. */
    method Evaluate(vars: Storage, env: map<string, VariableType>) returns (v: VariableType)
      requires StorageValid(vars, env)
      ensures v == Evaluation(elements, vars, env)
    {
      if elements == [] {
        return ScalarValue(Scalars.Scalar(0.0));
      }
      var result := new Stacks.Stack<VariableType>();
      for i := 0 to |elements|
        invariant AllValid(result.data)
        invariant EvalElements(elements[i..], result.data, vars, env) == EvalElements(elements, [], vars, env)
      {
        assert elements[i..][0] == elements[i] && elements[i..][1..] == elements[i + 1..];
        EvalStepValid(result.data, elements[i], vars, env);
        var ok := EvaluateElement(result, elements[i], vars, env);
        if !ok {
          return NoneValue;
        }
      }
      assert elements[|elements|..] == [];
      var n := result.Len();
      if n != 1 {
        return NoneValue;
      }
      var top := result.Peek();
      return top.value;
    }
  }

  /** The loop body of evaluate on one element; false where the source returns None. */
  method EvaluateElement(result: Stacks.Stack<VariableType>, elem: Element, vars: Storage, env: map<string, VariableType>)
    returns (ok: bool)
    requires AllValid(result.data) && StorageValid(vars, env)
    modifies result
    ensures ok ==> EvalStep(old(result.data), elem, vars, env) == Ok(result.data)
    ensures !ok ==> EvalStep(old(result.data), elem, vars, env).Err?
  {
    match elem
    case Oper(o) =>
      ok := ApplyTop(result, o);
    case SubExpr(expr) =>
      ok := true;
      match expr
      case AnsExpression =>
        result.Push(vars.ans);
      case DeclarationExpression(name) =>
        if name !in vars.temporaries {
          return false;
        }
        result.Push(vars.temporaries[name]);
      case VariableExpression(name) =>
        if name !in vars.variables {
          return false;
        }
        result.Push(vars.variables[name]);
      case EnvironmentVariable(name) =>
        if name !in env {
          return false;
        }
        result.Push(env[name]);
      case EmptyExpression =>
        result.Push(ScalarValue(Scalars.Scalar(0.0)));
      case InvalidExpression(_) =>
        return false;
      case NumericExpression(n) =>
        result.Push(ScalarValue(n));
  }

  /** The operator arm of evaluate: pop b, pop a, push their combination. */
  method ApplyTop(result: Stacks.Stack<VariableType>, o: Operator) returns (ok: bool)
    requires AllValid(result.data)
    modifies result
    ensures var st := old(result.data);
      ok ==> |st| >= 2 && ApplyOperator(o, st[|st| - 2], st[|st| - 1]).Ok? &&
             result.data == st[..|st| - 2] + [ApplyOperator(o, st[|st| - 2], st[|st| - 1]).value]
    ensures var st := old(result.data);
      !ok ==> |st| < 2 || ApplyOperator(o, st[|st| - 2], st[|st| - 1]).Err?
  {
    ghost var before := result.data;
    var b := result.Peek();
    if b.Some? {
      var popped := result.Pop();
    }
    var a := result.Peek();
    if a.Some? {
      var popped := result.Pop();
    }
    if a.None? || b.None? {
      return false;
    }
    assert before[..|before| - 1][..|before| - 2] == before[..|before| - 2];
    assert a.value == before[|before| - 2] && b.value == before[|before| - 1];
    var evaluation := ApplyOperator(o, a.value, b.value);
    if evaluation.Err? {
      return false;
    }
    result.Push(evaluation.value);
    return true;
  }

  /** infix_to_postfix, corrected. */
  method InfixToPostfix(infix: string) returns (r: Result<Expression>)
    ensures r.Ok? ==> fresh(r.value) && Postfix(infix) == Ok(r.value.elements)
    ensures r.Err? ==> Postfix(infix) == Err(r.error)
  {
    var balanced := IsBalancedString(infix);
    if !balanced {
      return Err(UnbalancedBraces);
    }
    var result := new Expression();
    var prevExpr := "";
    var prevWasOper, prevWasNum, firstChar := false, false, true;
    var opers := new Stacks.Stack<Operator>();
    for i := 0 to |infix|
      invariant Run(Corrected, infix[i..], EState(result.elements, prevExpr, prevWasOper, prevWasNum, firstChar, opers.data))
             == Run(Corrected, infix, Start)
    {
      var c := infix[i];
      assert infix[i..][0] == c && infix[i..][1..] == infix[i + 1..];
      match KindOf(c)
      case Space =>
        var flushed := result.FlushPrevExpr(prevExpr);
        if flushed.Err? {
          return Err(flushed.error);
        }
        prevExpr := "";
        prevWasNum := false;
      case OpenParen =>
        var flushed := result.FlushPrevExpr(prevExpr);
        if flushed.Err? {
          return Err(flushed.error);
        }
        prevExpr := "";
        prevWasOper, prevWasNum, firstChar := true, false, false;
        Operators.GetOperatorOfBrace('(');
        opers.Push(Operators.GetOperator('(').value);
      case CloseParen =>
        var flushed := result.FlushPrevExpr(prevExpr);
        if flushed.Err? {
          return Err(flushed.error);
        }
        prevExpr := "";
        prevWasOper, prevWasNum, firstChar := false, false, false;
        var empty := opers.IsEmpty();
        if empty {
          return Err(ClosingWithoutOperators);
        }
        result.PopToParen(opers);
      case OperatorChar =>
        if firstChar {
          return Err(LeadingOperator);
        } else if prevWasOper {
          return Err(ConsecutiveOperators);
        }
        var flushed := result.FlushPrevExpr(prevExpr);
        if flushed.Err? {
          return Err(flushed.error);
        }
        prevExpr := "";
        var curr := Operators.GetOperator(c).value;
        result.PopBinding(opers, curr.precedence, c);
        opers.Push(curr);
        prevWasOper, prevWasNum, firstChar := true, false, false;
      case Other =>
        if !firstChar && !prevWasOper && !prevWasNum {
          return Err(AdjacentOperands);
        }
        prevExpr := prevExpr + [c];
        prevWasNum, prevWasOper, firstChar := true, false, false;
    }
    assert infix[|infix|..] == [];
    if prevWasOper {
      return Err(TrailingOperator);
    }
    var flushed := result.FlushPrevExpr(prevExpr);
    if flushed.Err? {
      return Err(flushed.error);
    }
    result.DrainOperators(opers);
    return Ok(result);
  }

  // ---- operand literals ------------------------------------------------------------------------

  /** A natural number written in decimal is a numeric literal of its value, whichever
      version parses it. */
  lemma ParseNat(v: Version, n: nat)
    ensures ParseExpression(v, NatToString(n)) == Ok(NumericExpression(Scalars.Scalar(n as real)))
  {
    var t := NatToString(n);
    SP.DigitsArePlain(n);
    assert AllDigits(t);
    SP.ScanPlain(t, []);
    assert ToLower(t) == t;
    TrimOfNoWhitespace(t);
    assert t[0] != 'a';
    ParseDecimalOfNatToString(n);
  }

  /** What trims to "ans" is white space around the three letters. */
  lemma TrimmedToAns(l: string)
    requires Trim(l) == "ans"
    ensures forall i :: 0 <= i < |l| ==> IsWhitespace(l[i]) || l[i] in "ans"
  {
    var t1 := TrimStart(l);
    var t2 := TrimEnd(t1);
    forall i | 0 <= i < |l|
      ensures IsWhitespace(l[i]) || l[i] in "ans"
    {
      if i >= |l| - |t1| {
        var j := i - (|l| - |t1|);
        assert t1[j] == l[i];
        if j < |t2| {
          assert t2[j] == t1[j];
        }
      }
    }
  }

  /** Lower-casing maps no character to a bracket that was not one already, and none
      from one. */
  lemma LowerKeepsBrackets(s: string, i: nat)
    requires i < |s|
    ensures IsOpener(ToLower(s)[i]) == IsOpener(s[i]) && IsCloser(ToLower(s)[i]) == IsCloser(s[i])
  {
  }

  /** A text whose lower-cased characters are white space or letters holds no bracket. */
  lemma LowerPlainIsBalanced(s: string)
    requires forall i :: 0 <= i < |s| ==> IsWhitespace(ToLower(s)[i]) || ToLower(s)[i] in "ans"
    ensures Balanced(s)
  {
    forall i | 0 <= i < |s|
      ensures !IsOpener(s[i]) && !IsCloser(s[i])
    {
      LowerKeepsBrackets(s, i);
    }
    SP.ScanPlain(s, []);
  }

  /** Nothing but white space and the letters of "ans" survives when the lower-cased,
      trimmed text is "ans", so no bracket is there to unbalance it. */
  lemma AnsIsBalanced(s: string)
    requires Trim(ToLower(s)) == "ans"
    ensures Balanced(s)
  {
    TrimmedToAns(ToLower(s));
    LowerPlainIsBalanced(s);
  }

  /** "ans", in any mix of cases and with white space around it, is the last answer. */
  lemma ParseAns(v: Version, s: string)
    requires Trim(ToLower(s)) == "ans"
    ensures ParseExpression(v, s) == Ok(AnsExpression)
  {
    AnsIsBalanced(s);
  }

  /** As written, the lone period passes the shape check and then aborts the parse. */
  lemma PeriodPanics()
    ensures ParseExpression(AsWritten, ".").Err? && ParseExpression(AsWritten, ".").error.Panic?
    ensures ParseExpression(Corrected, ".") == Ok(InvalidExpression(InvalidOperand(".")))
  {
    var s := ".";
    assert NumericShape(s);
    assert IndexOf(s, '.') == 0;
    SP.ScanPlain(s, []);
    assert ToLower(s) == s;
    TrimOfNoWhitespace(s);
  }

  /** A number shape without white space that the parse refuses is the lone period. */
  lemma OnlyPeriodRefused(s: string)
    requires NoWhitespace(s) && s != [] && NumericShape(s) && ParseDecimal(s).None?
    ensures s == "."
  {
    var k := IndexOf(s, '.');
    assert AllDigits(s[..k]);
    if k < |s| {
      var f := s[k + 1..];
      forall i | 0 <= i < |f|
        ensures IsDigit(f[i])
      {
        assert f[i] == s[k + 1 + i];
        assert !PeriodPair(s, k, k + 1 + i);
      }
      assert |s| == 1;
    }
  }

  /** Between the two versions only the lone period parses differently. */
  lemma LiteralVersionsAgree(s: string)
    requires NoWhitespace(s) && s != [] && s != "."
    ensures NumericLiteral(AsWritten, s) == NumericLiteral(Corrected, s)
  {
    if NumericShape(s) && ParseDecimal(s).None? {
      OnlyPeriodRefused(s);
    }
  }

  /** A pending literal never holds white space; among those, the as-written parser
      aborts on the lone period only, and agrees with the corrected one on all the
      others. Digits here are the ASCII digits of IsDigit: Rust's char::is_numeric also
      accepts other numerals (such as U+0663), which f64 parsing then refuses, and those
      are not covered. */
  lemma PanicOnlyOnPeriod(s: string)
    requires NoWhitespace(s)
    ensures ParseExpression(AsWritten, s).Err? <==> s == "."
    ensures ParseExpression(AsWritten, s).Ok? ==> ParseExpression(AsWritten, s) == ParseExpression(Corrected, s)
  {
    if s == "." {
      PeriodPanics();
    } else if s != [] {
      LiteralVersionsAgree(s);
    }
  }

  // ---- what the corrected pipeline computes -----------------------------------------------------

  /** The element a number literal becomes. */
  function Number(n: nat): Element {
    SubExpr(NumericExpression(Scalars.Scalar(n as real)))
  }

  /** The postfix elements of a fully parenthesised expression. */
  function Elements(e: SP.Expr): seq<Element>
    requires SP.WellFormed(e)
  {
    match e
    case Num(n) => [Number(n)]
    case Bin(op, l, r) => Elements(l) + Elements(r) + [Oper(SP.ArithOperator(op))]
  }

  predicate Ready(st: EState) {
    st.prevExpr == [] && (st.firstChar || st.prevWasOper)
  }

  /** The loop state after reading Infix(e) from st: a number is still pending; a
      bracketed expression is written out. */
  function After(e: SP.Expr, st: EState): EState
    requires SP.WellFormed(e)
  {
    match e
    case Num(n) => EState(st.elements, NatToString(n), false, true, false, st.opers)
    case Bin(_, _, _) => EState(st.elements + Elements(e), "", false, false, false, st.opers)
  }

  lemma FlushAfter(v: Version, e: SP.Expr, st: EState)
    requires SP.WellFormed(e)
    ensures FlushExpr(v, After(e, st).elements, After(e, st).prevExpr) == Ok(st.elements + Elements(e))
  {
    match e
    case Num(n) =>
      ParseNat(v, n);
      assert NatToString(n) != [];
    case Bin(_, _, _) =>
  }

  lemma KindOfDigit(c: char)
    requires IsDigit(c)
    ensures KindOf(c) == Other
  {
    Operators.IsOperatorSymbols(c);
  }

  lemma KindOfArith(c: char)
    requires SP.IsArith(c)
    ensures KindOf(c) == OperatorChar
  {
    Operators.IsOperatorSymbols(c);
  }

  /** A digit extends the pending literal. */
  lemma StepDigit(v: Version, st: EState, c: char)
    requires IsDigit(c) && !Adjacent(st)
    ensures Step(v, st, c) == Ok(EState(st.elements, st.prevExpr + [c], false, true, false, st.opers))
  {
    KindOfDigit(c);
    assert Step(v, st, c) == OtherStep(st, c);
  }

  /** Reading a + b is reading a and then reading b from where a left off. */
  lemma {:induction false} RunAppend(v: Version, a: string, b: string, st: EState)
    ensures Run(v, a + b, st) == match Run(v, a, st) case Err(e) => Err(e) case Ok(m) => Run(v, b, m)
    decreases |a|
  {
    if a == [] {
      assert a + b == b;
    } else {
      assert (a + b)[0] == a[0] && (a + b)[1..] == a[1..] + b;
      match Step(v, st, a[0])
      case Err(e) =>
      case Ok(next) => RunAppend(v, a[1..], b, next);
    }
  }

  /** Digits go into the pending literal, one after the other. */
  lemma {:induction false} RunDigits(v: Version, ds: string, st: EState)
    requires ds != [] && AllDigits(ds) && !Adjacent(st)
    ensures Run(v, ds, st) == Ok(EState(st.elements, st.prevExpr + ds, false, true, false, st.opers))
    decreases |ds|
  {
    var c, tail := ds[0], ds[1..];
    if tail != [] {
      assert AllDigits(tail) by {
        forall i | 0 <= i < |tail| ensures IsDigit(tail[i]) { assert tail[i] == ds[i + 1]; }
      }
      RunDigits(v, tail, EState(st.elements, st.prevExpr + [c], false, true, false, st.opers));
    }
    RunDigitsRound(v, st, c, tail, ds);
  }

  /** The first digit, then the others. */
  lemma RunDigitsRound(v: Version, st: EState, c: char, tail: string, ds: string)
    requires IsDigit(c) && !Adjacent(st) && ds == [c] + tail
    requires tail != [] ==>
      Run(v, tail, EState(st.elements, st.prevExpr + [c], false, true, false, st.opers)) ==
      Ok(EState(st.elements, st.prevExpr + [c] + tail, false, true, false, st.opers))
    ensures Run(v, ds, st) == Ok(EState(st.elements, st.prevExpr + ds, false, true, false, st.opers))
  {
    RunDigit(v, st, c, tail);
    AppendCons(st.prevExpr, c, tail, ds);
  }

  lemma AppendCons(a: string, c: char, tail: string, ds: string)
    requires ds == [c] + tail
    ensures a + [c] + tail == a + ds
    ensures tail == [] ==> a + [c] == a + ds
  {
  }

  lemma RunDigit(v: Version, st: EState, c: char, tail: string)
    requires IsDigit(c) && !Adjacent(st)
    ensures Run(v, [c] + tail, st) == Run(v, tail, EState(st.elements, st.prevExpr + [c], false, true, false, st.opers))
  {
    StepDigit(v, st, c);
    RunCons(v, st, c, tail, EState(st.elements, st.prevExpr + [c], false, true, false, st.opers));
  }

  lemma RunCons(v: Version, st: EState, c: char, rest: string, next: EState)
    requires Step(v, st, c) == Ok(next)
    ensures Run(v, [c] + rest, st) == Run(v, rest, next)
  {
    assert ([c] + rest)[0] == c && ([c] + rest)[1..] == rest;
  }

  lemma StepOpenParen(v: Version, st: EState)
    requires st.prevExpr == []
    ensures Step(v, st, '(') == Ok(EState(st.elements, "", true, false, false, st.opers + [SP.Paren()]))
  {
    Operators.GetOperatorOfBrace('(');
    assert Step(v, st, '(') == OpenStep(v, st);
  }

  lemma OperatorStepIs(v: Version, st: EState, op: char, res: seq<Element>, p: (seq<Element>, seq<Operator>))
    requires SP.IsArith(op) && !st.firstChar && !st.prevWasOper
    requires FlushExpr(v, st.elements, st.prevExpr) == Ok(res)
    requires v == Corrected ==> PopWhile(res, st.opers, SP.ArithOperator(op).precedence, op) == p
    requires v == AsWritten && st.opers == [] ==> p == (res, [])
    requires v == AsWritten && st.opers != [] ==>
      PopLosing(res, SP.Pop(st.opers), SP.Top(st.opers), SP.ArithOperator(op).precedence, op) == p
    ensures Step(v, st, op) == Ok(EState(p.0, "", true, false, false, p.1 + [SP.ArithOperator(op)]))
  {
    KindOfArith(op);
    assert Step(v, st, op) == OperatorStep(v, st, op);
  }

  /** Corrected, an operator on an empty stack or on an opening parenthesis pops
      nothing. */
  lemma PushInParens(st: EState, op: char, res: seq<Element>)
    requires SP.IsArith(op) && !st.firstChar && !st.prevWasOper
    requires st.opers == [] || SP.Top(st.opers) == SP.Paren()
    requires FlushExpr(Corrected, st.elements, st.prevExpr) == Ok(res)
    ensures Step(Corrected, st, op) == Ok(EState(res, "", true, false, false, st.opers + [SP.ArithOperator(op)]))
  {
    assert PopWhile(res, st.opers, SP.ArithOperator(op).precedence, op) == (res, st.opers);
    OperatorStepIs(Corrected, st, op, res, (res, st.opers));
  }

  lemma PopOperatorAndParen(res: seq<Element>, opers: seq<Operator>, op: char)
    requires SP.IsArith(op) && |opers| >= 2
    requires SP.Top(opers) == SP.ArithOperator(op) && opers[|opers| - 2] == SP.Paren()
    ensures PopThroughParen(res, opers) == (res + [Oper(SP.ArithOperator(op))], opers[..|opers| - 2])
  {
    var rest := SP.Pop(opers);
    assert rest != [] && SP.Top(rest).symbol == '(';
    assert SP.Pop(rest) == opers[..|opers| - 2];
  }

  lemma CloseStepIs(v: Version, st: EState, res: seq<Element>)
    requires FlushExpr(v, st.elements, st.prevExpr) == Ok(res)
    ensures Step(v, st, ')') == CloseFlushed(v, res, st.opers)
  {
    assert Step(v, st, ')') == CloseStep(v, st);
  }

  /** Corrected, a closing parenthesis over an operator over '(' writes the operator
      and drops both. */
  lemma CloseParenOverOperator(res: seq<Element>, opers: seq<Operator>, op: char)
    requires SP.IsArith(op) && |opers| >= 2
    requires SP.Top(opers) == SP.ArithOperator(op) && opers[|opers| - 2] == SP.Paren()
    ensures CloseFlushed(Corrected, res, opers) ==
      Ok(EState(res + [Oper(SP.ArithOperator(op))], "", false, false, false, opers[..|opers| - 2]))
  {
    PopOperatorAndParen(res, opers, op);
  }

  /** The state inside Bin(op, l, r) once its left operand and operator are read. */
  function InsideBin(op: char, l: SP.Expr, st: EState): EState
    requires SP.IsArith(op) && SP.WellFormed(l)
  {
    EState(st.elements + Elements(l), "", true, false, false, st.opers + [SP.Paren()] + [SP.ArithOperator(op)])
  }

  lemma RunBinLeft(op: char, l: SP.Expr, r: SP.Expr, rest: string, st: EState)
    requires SP.IsArith(op) && SP.WellFormed(l) && Ready(st)
    requires var s1 := EState(st.elements, "", true, false, false, st.opers + [SP.Paren()]);
      Run(Corrected, SP.Infix(l) + ([op] + (SP.Infix(r) + ([')'] + rest))), s1) ==
      Run(Corrected, [op] + (SP.Infix(r) + ([')'] + rest)), After(l, s1))
    ensures Run(Corrected, SP.Infix(SP.Bin(op, l, r)) + rest, st) ==
            Run(Corrected, SP.Infix(r) + ([')'] + rest), InsideBin(op, l, st))
  {
    var tail := [op] + (SP.Infix(r) + ([')'] + rest));
    SP.InfixSplits(op, l, r, rest);
    var s1 := EState(st.elements, "", true, false, false, st.opers + [SP.Paren()]);
    StepOpenParen(Corrected, st);
    RunCons(Corrected, st, '(', SP.Infix(l) + tail, s1);
    var s2 := After(l, s1);
    FlushAfter(Corrected, l, s1);
    PushInParens(s2, op, st.elements + Elements(l));
    RunCons(Corrected, s2, op, SP.Infix(r) + ([')'] + rest), InsideBin(op, l, st));
  }

  /** The closing parenthesis of Bin(op, l, r), once r is read, writes op and leaves the
      stack as it was before the opening one. */
  lemma CloseAfterBin(op: char, l: SP.Expr, r: SP.Expr, st: EState)
    requires SP.IsArith(op) && SP.WellFormed(l) && SP.WellFormed(r)
    ensures CloseFlushed(Corrected, st.elements + Elements(l) + Elements(r), st.opers + [SP.Paren()] + [SP.ArithOperator(op)]) ==
            Ok(After(SP.Bin(op, l, r), st))
  {
    var opers := st.opers + [SP.Paren()] + [SP.ArithOperator(op)];
    assert opers[..|opers| - 2] == st.opers;
    CloseParenOverOperator(st.elements + Elements(l) + Elements(r), opers, op);
    assert st.elements + Elements(l) + Elements(r) + [Oper(SP.ArithOperator(op))] ==
           st.elements + Elements(SP.Bin(op, l, r));
  }

  lemma RunBinRight(op: char, l: SP.Expr, r: SP.Expr, rest: string, st: EState)
    requires SP.IsArith(op) && SP.WellFormed(l) && SP.WellFormed(r)
    ensures Run(Corrected, [')'] + rest, After(r, InsideBin(op, l, st))) ==
            Run(Corrected, rest, After(SP.Bin(op, l, r), st))
  {
    FlushAfter(Corrected, r, InsideBin(op, l, st));
    CloseStepIs(Corrected, After(r, InsideBin(op, l, st)), st.elements + Elements(l) + Elements(r));
    CloseAfterBin(op, l, r, st);
    RunCons(Corrected, After(r, InsideBin(op, l, st)), ')', rest, After(SP.Bin(op, l, r), st));
  }

  /** Corrected, reading Infix(e) leaves the operator stack as it found it and writes the
      postfix elements of e. */
  lemma {:induction false} RunInfix(e: SP.Expr, rest: string, st: EState)
    requires SP.WellFormed(e) && Ready(st)
    ensures Run(Corrected, SP.Infix(e) + rest, st) == Run(Corrected, rest, After(e, st))
    decreases e
  {
    match e
    case Num(n) =>
      RunDigits(Corrected, NatToString(n), st);
      RunAppend(Corrected, NatToString(n), rest, st);
      assert st.prevExpr + NatToString(n) == NatToString(n);
    case Bin(op, l, r) =>
      var close := [')'] + rest;
      RunInfix(l, [op] + (SP.Infix(r) + close), EState(st.elements, "", true, false, false, st.opers + [SP.Paren()]));
      RunBinLeft(op, l, r, rest, st);
      RunInfix(r, close, InsideBin(op, l, st));
      RunBinRight(op, l, r, rest, st);
  }

  lemma FinishIs(v: Version, st: EState, res: seq<Element>)
    requires !st.prevWasOper && FlushExpr(v, st.elements, st.prevExpr) == Ok(res)
    ensures Finish(v, st) == Ok(res + Drain(st.opers))
  {
  }

  /** The corrected infix_to_postfix of a fully parenthesised expression is its postfix
      elements. */
  lemma PostfixOfInfix(e: SP.Expr)
    requires SP.WellFormed(e)
    ensures Postfix(SP.Infix(e)) == Ok(Elements(e))
  {
    SP.InfixBalanced(e);
    assert SP.Infix(e) + [] == SP.Infix(e);
    RunInfix(e, [], Start);
    FlushAfter(Corrected, e, Start);
    assert [] + Elements(e) == Elements(e);
    FinishIs(Corrected, After(e, Start), Elements(e));
    assert Elements(e) + Drain([]) == Elements(e);
  }

  /** The value of e over VariableType: numbers are scalars and each operator is what
      evaluate applies. */
  function ValueOf(e: SP.Expr): (r: Result<VariableType>)
    requires SP.WellFormed(e)
    ensures r.Ok? ==> r.value.ScalarValue?
  {
    match e
    case Num(n) => Ok(ScalarValue(Scalars.Scalar(n as real)))
    case Bin(op, l, r) =>
      match ValueOf(l)
      case Err(x) => Err(x)
      case Ok(a) =>
        match ValueOf(r)
        case Err(x) => Err(x)
        case Ok(b) =>
          ApplyOperator(SP.ArithOperator(op), a, b)
  }

  /** An operator element over its two operands replaces them by their combination. */
  lemma EvalOperatorIs(o: Operator, rest: seq<Element>, stack: seq<VariableType>, a: VariableType, b: VariableType,
                       vars: Storage, env: map<string, VariableType>)
    requires AllValid(stack) && a.Valid() && b.Valid() && StorageValid(vars, env)
    ensures AllValid(stack + [a] + [b])
    ensures EvalElements([Oper(o)] + rest, stack + [a] + [b], vars, env) ==
      if ApplyOperator(o, a, b).Ok? then EvalElements(rest, stack + [ApplyOperator(o, a, b).value], vars, env)
      else Err(ApplyOperator(o, a, b).error)
  {
    var st := stack + [a] + [b];
    assert st[|st| - 2] == a && st[|st| - 1] == b && st[..|st| - 2] == stack;
    assert ([Oper(o)] + rest)[0] == Oper(o) && ([Oper(o)] + rest)[1..] == rest;
  }

  /** A number element pushes its value. */
  lemma EvalNumberIs(n: nat, rest: seq<Element>, stack: seq<VariableType>, vars: Storage, env: map<string, VariableType>)
    requires AllValid(stack) && StorageValid(vars, env)
    ensures AllValid(stack + [ScalarValue(Scalars.Scalar(n as real))])
    ensures EvalElements([SubExpr(NumericExpression(Scalars.Scalar(n as real)))] + rest, stack, vars, env) ==
            EvalElements(rest, stack + [ScalarValue(Scalars.Scalar(n as real))], vars, env)
  {
    var e := [SubExpr(NumericExpression(Scalars.Scalar(n as real)))] + rest;
    assert e[0] == SubExpr(NumericExpression(Scalars.Scalar(n as real))) && e[1..] == rest;
  }

  lemma {:induction false} EvalElementsOfExpr(e: SP.Expr, rest: seq<Element>, stack: seq<VariableType>,
                                              vars: Storage, env: map<string, VariableType>)
    requires SP.WellFormed(e) && AllValid(stack) && StorageValid(vars, env)
    ensures EvalElements(Elements(e) + rest, stack, vars, env) ==
      match ValueOf(e)
      case Err(x) => Err(x)
      case Ok(v) => EvalElements(rest, stack + [v], vars, env)
    decreases e
  {
    match e
    case Num(n) =>
      EvalNumberIs(n, rest, stack, vars, env);
    case Bin(op, l, r) =>
      var last := [Oper(SP.ArithOperator(op))] + rest;
      assert Elements(e) + rest == Elements(l) + (Elements(r) + last);
      EvalElementsOfExpr(l, Elements(r) + last, stack, vars, env);
      if ValueOf(l).Ok? {
        var a := ValueOf(l).value;
        EvalElementsOfExpr(r, last, stack + [a], vars, env);
        if ValueOf(r).Ok? {
          EvalOperatorIs(SP.ArithOperator(op), rest, stack, a, ValueOf(r).value, vars, env);
        }
      }
  }

  /** evaluate of the postfix elements of e is the value of e; a failure is None. */
  lemma EvaluationOfElements(e: SP.Expr, vars: Storage, env: map<string, VariableType>)
    requires SP.WellFormed(e) && StorageValid(vars, env)
    ensures Evaluation(Elements(e), vars, env) == if ValueOf(e).Ok? then ValueOf(e).value else NoneValue
  {
    assert Elements(e) + [] == Elements(e);
    assert Elements(e) != [] by {
      match e
      case Num(_) =>
      case Bin(_, _, _) =>
    }
    EvalElementsOfExpr(e, [], [], vars, env);
    if ValueOf(e).Ok? {
      assert [] + [ValueOf(e).value] == [ValueOf(e).value];
    }
  }

  /** The corrected pipeline computes the value of every fully parenthesised expression. */
  lemma PipelineComputesValue(e: SP.Expr, vars: Storage, env: map<string, VariableType>)
    requires SP.WellFormed(e) && StorageValid(vars, env)
    ensures Postfix(SP.Infix(e)).Ok?
    ensures Evaluation(Postfix(SP.Infix(e)).value, vars, env) ==
      if ValueOf(e).Ok? then ValueOf(e).value else NoneValue
  {
    PostfixOfInfix(e);
    EvaluationOfElements(e, vars, env);
  }

  /** Built from + - * / alone, the operators that have a meaning on VariableType. */
  predicate FourOperators(e: SP.Expr) {
    match e
    case Num(_) => true
    case Bin(op, l, r) => op in "+-*/" && FourOperators(l) && FourOperators(r)
  }

  /** On those, the value is what the operators' own f64 functions give, a zero divisor
      included. */
  lemma {:induction false} ValueOfAgrees(e: SP.Expr, pow: (real, real) -> real)
    requires SP.WellFormed(e) && FourOperators(e)
    ensures ValueOf(e) ==
      match SP.Value(e, pow)
      case Ok(x) => Ok(ScalarValue(Scalars.Scalar(x)))
      case Err(x) => Err(x)
    decreases e
  {
    match e
    case Num(_) =>
    case Bin(op, l, r) =>
      ValueOfAgrees(l, pow);
      ValueOfAgrees(r, pow);
      if SP.Value(l, pow).Ok? && SP.Value(r, pow).Ok? {
        ApplyOperatorOnScalars(SP.ArithOperator(op), SP.Value(l, pow).value, SP.Value(r, pow).value, pow);
      }
  }

  /** '%' and '^' have no meaning on values: an expression that uses either fails. */
  lemma {:induction false} UnsupportedOperatorFails(e: SP.Expr)
    requires SP.WellFormed(e) && !FourOperators(e)
    ensures ValueOf(e).Err?
    decreases e
  {
    match e
    case Bin(op, l, r) =>
      if !FourOperators(l) {
        UnsupportedOperatorFails(l);
      } else if !FourOperators(r) {
        UnsupportedOperatorFails(r);
      }
  }

  /** On + - * /, this pipeline and the one of parsing.rs agree: the same number, or
      None where the other reports a zero divisor. */
  lemma PipelinesAgree(e: SP.Expr, pow: (real, real) -> real, vars: Storage, env: map<string, VariableType>)
    requires SP.WellFormed(e) && FourOperators(e) && StorageValid(vars, env)
    ensures Postfix(SP.Infix(e)).Ok? && SP.Postfix(SP.Infix(e)).Ok?
    ensures Evaluation(Postfix(SP.Infix(e)).value, vars, env) ==
      match SP.Evaluation(SP.Postfix(SP.Infix(e)).value, pow)
      case Ok(x) => ScalarValue(Scalars.Scalar(x))
      case Err(_) => NoneValue
  {
    PipelineComputesValue(e, vars, env);
    SP.PipelineComputesValue(e, pow);
    ValueOfAgrees(e, pow);
  }

  /** With '%' or '^' anywhere, evaluate gives None. */
  lemma UnsupportedGivesNone(e: SP.Expr, vars: Storage, env: map<string, VariableType>)
    requires SP.WellFormed(e) && !FourOperators(e) && StorageValid(vars, env)
    ensures Postfix(SP.Infix(e)).Ok?
    ensures Evaluation(Postfix(SP.Infix(e)).value, vars, env) == NoneValue
  {
    PipelineComputesValue(e, vars, env);
    UnsupportedOperatorFails(e);
  }

  // ---- a op1 b op2 c ------------------------------------------------------------------------

  /** A number and then an operator, read from the start by either version. */
  lemma RunFirstOperand(v: Version, a: nat, o1: char, rest: string)
    requires SP.IsArith(o1)
    ensures Run(v, NatToString(a) + ([o1] + rest), Start) ==
            Run(v, rest, EState([Number(a)], "", true, false, false, [SP.ArithOperator(o1)]))
  {
    RunNumber(v, a, [o1] + rest, Start);
    FlushAfter(v, SP.Num(a), Start);
    assert [] + [Number(a)] == [Number(a)];
    OperatorOnEmptyStack(v, After(SP.Num(a), Start), o1, rest, [Number(a)]);
  }

  /** An operator read with no operator stacked writes out what is pending and is stacked. */
  lemma OperatorOnEmptyStack(v: Version, st: EState, op: char, rest: string, res: seq<Element>)
    requires SP.IsArith(op) && !st.firstChar && !st.prevWasOper && st.opers == []
    requires FlushExpr(v, st.elements, st.prevExpr) == Ok(res)
    ensures Run(v, [op] + rest, st) == Run(v, rest, EState(res, "", true, false, false, [SP.ArithOperator(op)]))
  {
    OperatorStepIs(v, st, op, res, (res, []));
    assert [] + [SP.ArithOperator(op)] == [SP.ArithOperator(op)];
    RunCons(v, st, op, rest, EState(res, "", true, false, false, [SP.ArithOperator(op)]));
  }

  /** Corrected, the popping loop over the first operator alone. */
  lemma PopWhileOne(res: seq<Element>, o1: char, o2: char)
    requires SP.IsArith(o1) && SP.IsArith(o2)
    ensures PopWhile(res, [SP.ArithOperator(o1)], SP.ArithOperator(o2).precedence, o2) ==
      if SP.LeftFirst(o1, o2) then (res + [Oper(SP.ArithOperator(o1))], []) else (res, [SP.ArithOperator(o1)])
  {
    var o1p := SP.ArithOperator(o1);
    assert SP.Top([o1p]) == o1p && SP.Pop([o1p]) == [];
    assert SP.Binds(o1p, SP.ArithOperator(o2).precedence, o2) <==> SP.LeftFirst(o1, o2);
  }

  /** The state with a written out, b pending and the first operator on the stack. */
  function SecondOperand(o1: char, a: nat, b: nat): EState
    requires SP.IsArith(o1)
  {
    EState([Number(a)], NatToString(b), false, true, false, [SP.ArithOperator(o1)])
  }

  lemma FlushSecondOperand(v: Version, o1: char, a: nat, b: nat)
    requires SP.IsArith(o1)
    ensures FlushExpr(v, SecondOperand(o1, a, b).elements, SecondOperand(o1, a, b).prevExpr) == Ok([Number(a), Number(b)])
  {
    FlushAfter(v, SP.Num(b), EState([Number(a)], "", true, false, false, [SP.ArithOperator(o1)]));
    assert [Number(a)] + [Number(b)] == [Number(a), Number(b)];
  }

  /** Corrected, a second operator writes out the first one when that one goes first ... */
  lemma SecondOperatorPops(st: EState, o1: char, o2: char, res: seq<Element>)
    requires SP.IsArith(o1) && SP.IsArith(o2) && !st.firstChar && !st.prevWasOper && SP.LeftFirst(o1, o2)
    requires st.opers == [SP.ArithOperator(o1)] && FlushExpr(Corrected, st.elements, st.prevExpr) == Ok(res)
    ensures Step(Corrected, st, o2) ==
            Ok(EState(res + [Oper(SP.ArithOperator(o1))], "", true, false, false, [SP.ArithOperator(o2)]))
  {
    KindOfArith(o2);
    PopWhileOne(res, o1, o2);
    OperatorStepIs(Corrected, st, o2, res, (res + [Oper(SP.ArithOperator(o1))], []));
    PushedStacks(SP.ArithOperator(o1), SP.ArithOperator(o2));
  }

  /** ... and goes on top of it otherwise. */
  lemma SecondOperatorStacks(st: EState, o1: char, o2: char, res: seq<Element>)
    requires SP.IsArith(o1) && SP.IsArith(o2) && !st.firstChar && !st.prevWasOper && !SP.LeftFirst(o1, o2)
    requires st.opers == [SP.ArithOperator(o1)] && FlushExpr(Corrected, st.elements, st.prevExpr) == Ok(res)
    ensures Step(Corrected, st, o2) ==
            Ok(EState(res, "", true, false, false, [SP.ArithOperator(o1), SP.ArithOperator(o2)]))
  {
    KindOfArith(o2);
    PopWhileOne(res, o1, o2);
    OperatorStepIs(Corrected, st, o2, res, (res, [SP.ArithOperator(o1)]));
    PushedStacks(SP.ArithOperator(o1), SP.ArithOperator(o2));
  }

  /** As written, the first operator comes off the stack, the loop does not start on the
      stack left empty, and the first operator is written nowhere. */
  lemma SecondOperatorAsWritten(st: EState, o1: char, o2: char, res: seq<Element>)
    requires SP.IsArith(o1) && SP.IsArith(o2) && !st.firstChar && !st.prevWasOper
    requires st.opers == [SP.ArithOperator(o1)] && FlushExpr(AsWritten, st.elements, st.prevExpr) == Ok(res)
    ensures Step(AsWritten, st, o2) == Ok(EState(res, "", true, false, false, [SP.ArithOperator(o2)]))
  {
    KindOfArith(o2);
    PopLosingOne(res, SP.ArithOperator(o1), SP.ArithOperator(o2).precedence, o2);
    OperatorStepIs(AsWritten, st, o2, res, (res, []));
    PushedStacks(SP.ArithOperator(o1), SP.ArithOperator(o2));
  }

  /** The stacks after pushing b on nothing and on a. */
  lemma PushedStacks(a: Operator, b: Operator)
    ensures [] + [b] == [b] && [a] + [b] == [a, b]
  {
  }

  /** As written, an operator alone on the stack comes off and is not written out. */
  lemma PopLosingOne(res: seq<Element>, last: Operator, p2: int, item: char)
    ensures PopLosing(res, SP.Pop([last]), SP.Top([last]), p2, item) == (res, [])
  {
    assert SP.Pop([last]) == [];
  }

  /** A last number after an operator, and the end of the input. */
  lemma FinishLastOperand(v: Version, c: nat, st: EState)
    requires st.prevWasOper && st.prevExpr == []
    ensures Run(v, NatToString(c), st).Ok?
    ensures Finish(v, Run(v, NatToString(c), st).value) == Ok(st.elements + [Number(c)] + Drain(st.opers))
  {
    RunDigits(v, NatToString(c), st);
    assert st.prevExpr + NatToString(c) == NatToString(c);
    FlushAfter(v, SP.Num(c), st);
    FinishIs(v, After(SP.Num(c), st), st.elements + [Number(c)]);
  }

  /** What infix_to_postfix writes for a op1 b op2 c: corrected, the postfix form of the
      grouping by precedence; as written, the three numbers and the second operator. */
  function TwoOperatorElements(v: Version, o1: char, o2: char, a: nat, b: nat, c: nat): seq<Element>
    requires SP.IsArith(o1) && SP.IsArith(o2)
  {
    var x, y, z := Number(a), Number(b), Number(c);
    if v == AsWritten then [x, y, z, Oper(SP.ArithOperator(o2))]
    else if SP.LeftFirst(o1, o2) then [x, y, Oper(SP.ArithOperator(o1)), z, Oper(SP.ArithOperator(o2))]
    else [x, y, z, Oper(SP.ArithOperator(o2)), Oper(SP.ArithOperator(o1))]
  }

  /** Reading a, o1 and b leaves the second operator and c to read. */
  lemma RunToSecondOperator(v: Version, o1: char, o2: char, a: nat, b: nat, c: nat)
    requires SP.IsArith(o1) && SP.IsArith(o2)
    ensures Run(v, NatToString(a) + [o1] + NatToString(b) + [o2] + NatToString(c), Start) ==
      Run(v, [o2] + NatToString(c), SecondOperand(o1, a, b))
  {
    var da, db, dc := NatToString(a), NatToString(b), NatToString(c);
    assert da + [o1] + db + [o2] + dc == da + ([o1] + (db + ([o2] + dc)));
    RunFirstOperand(v, a, o1, db + ([o2] + dc));
    RunSecondOperand(v, o1, a, b, [o2] + dc);
  }

  /** The second number goes into the pending literal. */
  lemma RunSecondOperand(v: Version, o1: char, a: nat, b: nat, rest: string)
    requires SP.IsArith(o1)
    ensures Run(v, NatToString(b) + rest, EState([Number(a)], "", true, false, false, [SP.ArithOperator(o1)])) ==
            Run(v, rest, SecondOperand(o1, a, b))
  {
    var s2 := EState([Number(a)], "", true, false, false, [SP.ArithOperator(o1)]);
    RunDigits(v, NatToString(b), s2);
    RunAppend(v, NatToString(b), rest, s2);
    assert "" + NatToString(b) == NatToString(b);
  }

  /** An operator the step accepts, a last number, and the end of the input. */
  lemma FinishAfterOperator(v: Version, st: EState, op: char, c: nat, next: EState)
    requires Step(v, st, op) == Ok(next) && next.prevWasOper && next.prevExpr == []
    ensures Run(v, [op] + NatToString(c), st).Ok?
    ensures Finish(v, Run(v, [op] + NatToString(c), st).value) == Ok(next.elements + [Number(c)] + Drain(next.opers))
  {
    RunCons(v, st, op, NatToString(c), next);
    FinishLastOperand(v, c, next);
  }

  lemma DrainOne(o: Operator)
    ensures Drain([o]) == [Oper(o)]
  {
    assert SP.Top([o]) == o && SP.Pop([o]) == [];
  }

  lemma DrainTwo(o1: Operator, o2: Operator)
    ensures Drain([o1, o2]) == [Oper(o2), Oper(o1)]
  {
    assert SP.Top([o1, o2]) == o2 && SP.Pop([o1, o2]) == [o1];
    DrainOne(o1);
  }

  /** Elements written one after the other. */
  lemma Appended(res: seq<Element>, x: Element, y: Element, z: Element)
    ensures res + [x] + [y] == res + [x, y]
    ensures res + [x] + [y] + [z] == res + [x, y, z]
    ensures res + [x] + [y, z] == res + [x, y, z]
  {
  }

  lemma FinishSecondAsWritten(st: EState, o1: char, o2: char, c: nat, res: seq<Element>)
    requires SP.IsArith(o1) && SP.IsArith(o2) && !st.firstChar && !st.prevWasOper
    requires st.opers == [SP.ArithOperator(o1)] && FlushExpr(AsWritten, st.elements, st.prevExpr) == Ok(res)
    ensures Run(AsWritten, [o2] + NatToString(c), st).Ok?
    ensures Finish(AsWritten, Run(AsWritten, [o2] + NatToString(c), st).value) ==
            Ok(res + [Number(c), Oper(SP.ArithOperator(o2))])
  {
    SecondOperatorAsWritten(st, o1, o2, res);
    FinishAfterOperator(AsWritten, st, o2, c, EState(res, "", true, false, false, [SP.ArithOperator(o2)]));
    DrainOne(SP.ArithOperator(o2));
    Appended(res, Number(c), Oper(SP.ArithOperator(o2)), Oper(SP.ArithOperator(o2)));
  }

  lemma FinishSecondPops(st: EState, o1: char, o2: char, c: nat, res: seq<Element>)
    requires SP.IsArith(o1) && SP.IsArith(o2) && !st.firstChar && !st.prevWasOper && SP.LeftFirst(o1, o2)
    requires st.opers == [SP.ArithOperator(o1)] && FlushExpr(Corrected, st.elements, st.prevExpr) == Ok(res)
    ensures Run(Corrected, [o2] + NatToString(c), st).Ok?
    ensures Finish(Corrected, Run(Corrected, [o2] + NatToString(c), st).value) ==
            Ok(res + [Oper(SP.ArithOperator(o1)), Number(c), Oper(SP.ArithOperator(o2))])
  {
    SecondOperatorPops(st, o1, o2, res);
    var o1p := SP.ArithOperator(o1);
    FinishAfterOperator(Corrected, st, o2, c, EState(res + [Oper(o1p)], "", true, false, false, [SP.ArithOperator(o2)]));
    DrainOne(SP.ArithOperator(o2));
    Appended(res, Oper(o1p), Number(c), Oper(SP.ArithOperator(o2)));
  }

  lemma FinishSecondStacks(st: EState, o1: char, o2: char, c: nat, res: seq<Element>)
    requires SP.IsArith(o1) && SP.IsArith(o2) && !st.firstChar && !st.prevWasOper && !SP.LeftFirst(o1, o2)
    requires st.opers == [SP.ArithOperator(o1)] && FlushExpr(Corrected, st.elements, st.prevExpr) == Ok(res)
    ensures Run(Corrected, [o2] + NatToString(c), st).Ok?
    ensures Finish(Corrected, Run(Corrected, [o2] + NatToString(c), st).value) ==
            Ok(res + [Number(c), Oper(SP.ArithOperator(o2)), Oper(SP.ArithOperator(o1))])
  {
    SecondOperatorStacks(st, o1, o2, res);
    var o1p, o2p := SP.ArithOperator(o1), SP.ArithOperator(o2);
    FinishAfterOperator(Corrected, st, o2, c, EState(res, "", true, false, false, [o1p, o2p]));
    DrainTwo(o1p, o2p);
    Appended(res, Number(c), Oper(o2p), Oper(o1p));
  }

  /** What is written after the first two numbers. */
  function TwoOperatorTail(v: Version, o1: char, o2: char, c: nat): seq<Element>
    requires SP.IsArith(o1) && SP.IsArith(o2)
  {
    var z, x1, x2 := Number(c), Oper(SP.ArithOperator(o1)), Oper(SP.ArithOperator(o2));
    if v == AsWritten then [z, x2] else if SP.LeftFirst(o1, o2) then [x1, z, x2] else [z, x2, x1]
  }

  lemma FinishFromSecondOperator(v: Version, st: EState, o1: char, o2: char, c: nat, res: seq<Element>)
    requires SP.IsArith(o1) && SP.IsArith(o2) && !st.firstChar && !st.prevWasOper
    requires st.opers == [SP.ArithOperator(o1)] && FlushExpr(v, st.elements, st.prevExpr) == Ok(res)
    ensures Run(v, [o2] + NatToString(c), st).Ok?
    ensures Finish(v, Run(v, [o2] + NatToString(c), st).value) == Ok(res + TwoOperatorTail(v, o1, o2, c))
  {
    if v == AsWritten {
      FinishSecondAsWritten(st, o1, o2, c, res);
    } else if SP.LeftFirst(o1, o2) {
      FinishSecondPops(st, o1, o2, c, res);
    } else {
      FinishSecondStacks(st, o1, o2, c, res);
    }
  }

  lemma PostfixTwoOperators(v: Version, o1: char, o2: char, a: nat, b: nat, c: nat)
    requires SP.IsArith(o1) && SP.IsArith(o2)
    ensures PostfixWith(v, NatToString(a) + [o1] + NatToString(b) + [o2] + NatToString(c)) ==
            Ok(TwoOperatorElements(v, o1, o2, a, b, c))
  {
    SP.TwoOperatorsBalanced(o1, o2, a, b, c);
    RunToSecondOperator(v, o1, o2, a, b, c);
    FlushSecondOperand(v, o1, a, b);
    FinishFromSecondOperator(v, SecondOperand(o1, a, b), o1, o2, c, [Number(a), Number(b)]);
    TwoOperatorSplit(v, o1, o2, a, b, c);
  }

  lemma TwoOperatorSplit(v: Version, o1: char, o2: char, a: nat, b: nat, c: nat)
    requires SP.IsArith(o1) && SP.IsArith(o2)
    ensures [Number(a), Number(b)] + TwoOperatorTail(v, o1, o2, c) == TwoOperatorElements(v, o1, o2, a, b, c)
  {
  }

  /** The postfix elements of the grouping. */
  lemma GroupingElements(o1: char, o2: char, a: nat, b: nat, c: nat)
    requires SP.IsArith(o1) && SP.IsArith(o2)
    ensures Elements(SP.Grouping(o1, o2, a, b, c)) == TwoOperatorElements(Corrected, o1, o2, a, b, c)
  {
    var x, y, z := Number(a), Number(b), Number(c);
    var x1, x2 := Oper(SP.ArithOperator(o1)), Oper(SP.ArithOperator(o2));
    if SP.LeftFirst(o1, o2) {
      var l := SP.Bin(o1, SP.Num(a), SP.Num(b));
      assert SP.Grouping(o1, o2, a, b, c) == SP.Bin(o2, l, SP.Num(c));
      assert Elements(l) == [x] + [y] + [x1];
      assert Elements(l) + [z] + [x2] == [x, y, x1, z, x2];
    } else {
      var r := SP.Bin(o2, SP.Num(b), SP.Num(c));
      assert SP.Grouping(o1, o2, a, b, c) == SP.Bin(o1, SP.Num(a), r);
      assert Elements(r) == [y] + [z] + [x2];
      assert [x] + Elements(r) + [x1] == [x, y, z, x2, x1];
    }
  }

  /** Corrected, a op1 b op2 c is grouped by precedence, equal precedences to the left
      except for '^', and evaluates to the value of that grouping. */
  lemma PrecedenceGroups(o1: char, o2: char, a: nat, b: nat, c: nat, vars: Storage, env: map<string, VariableType>)
    requires SP.IsArith(o1) && SP.IsArith(o2) && StorageValid(vars, env)
    ensures Postfix(NatToString(a) + [o1] + NatToString(b) + [o2] + NatToString(c)) ==
            Ok(Elements(SP.Grouping(o1, o2, a, b, c)))
    ensures var e := SP.Grouping(o1, o2, a, b, c);
      Evaluation(Elements(e), vars, env) == if ValueOf(e).Ok? then ValueOf(e).value else NoneValue
  {
    PostfixTwoOperators(Corrected, o1, o2, a, b, c);
    GroupingElements(o1, o2, a, b, c);
    EvaluationOfElements(SP.Grouping(o1, o2, a, b, c), vars, env);
  }

  /** A number followed by the elements of an expression leaves two values, or fails:
      either way evaluate gives None. */
  lemma TwoValuesGiveNone(a: nat, e: SP.Expr, vars: Storage, env: map<string, VariableType>)
    requires SP.WellFormed(e) && StorageValid(vars, env)
    ensures Evaluation([Number(a)] + Elements(e), vars, env) == NoneValue
  {
    var x := ScalarValue(Scalars.Scalar(a as real));
    EvalNumberIs(a, Elements(e), [], vars, env);
    assert Elements(e) + [] == Elements(e);
    EvalElementsOfExpr(e, [], [] + [x], vars, env);
  }

  /** No elements evaluate to the scalar 0, and an operator that comes before any value
      finds fewer than two and gives None. */
  lemma EvaluationEdges(o: Operator, rest: seq<Element>, vars: Storage, env: map<string, VariableType>)
    requires StorageValid(vars, env)
    ensures Evaluation([], vars, env) == ScalarValue(Scalars.Scalar(0.0))
    ensures Evaluation([Oper(o)] + rest, vars, env) == NoneValue
  {
    assert ([Oper(o)] + rest)[0] == Oper(o);
    assert EvalStep([], Oper(o), vars, env) == Err(StackUnderflow);
  }

  /** As written, a op1 b op2 c keeps three numbers and one operator, and evaluate, left
      with two values on its stack, gives None ("1+2+3" among them). */
  lemma OperatorLostAsWritten(o1: char, o2: char, a: nat, b: nat, c: nat, vars: Storage, env: map<string, VariableType>)
    requires SP.IsArith(o1) && SP.IsArith(o2) && StorageValid(vars, env)
    ensures PostfixAsWritten(NatToString(a) + [o1] + NatToString(b) + [o2] + NatToString(c)) ==
            Ok([Number(a), Number(b), Number(c), Oper(SP.ArithOperator(o2))])
    ensures Evaluation([Number(a), Number(b), Number(c), Oper(SP.ArithOperator(o2))], vars, env) == NoneValue
  {
    PostfixTwoOperators(AsWritten, o1, o2, a, b, c);
    LostOperatorElements(o2, a, b, c);
    TwoValuesGiveNone(a, SP.Bin(o2, SP.Num(b), SP.Num(c)), vars, env);
  }

  lemma LostOperatorElements(o2: char, a: nat, b: nat, c: nat)
    requires SP.IsArith(o2)
    ensures SP.WellFormed(SP.Bin(o2, SP.Num(b), SP.Num(c)))
    ensures [Number(a)] + Elements(SP.Bin(o2, SP.Num(b), SP.Num(c))) ==
            [Number(a), Number(b), Number(c), Oper(SP.ArithOperator(o2))]
  {
    assert SP.WellFormed(SP.Num(b)) && SP.WellFormed(SP.Num(c));
  }

  // ---- brackets, as written and corrected ----------------------------------------------------

  /** As written, an operator over '(' takes it off in place of the operator below and
      writes it nowhere. */
  lemma ParenLost(res: seq<Element>, below: seq<Operator>, p2: int, item: char)
    ensures PopLosing(res, SP.Pop(below + [SP.Paren()]), SP.Top(below + [SP.Paren()]), p2, item) == (res, below)
  {
    var opers := below + [SP.Paren()];
    assert SP.Top(opers) == SP.Paren() && SP.Pop(opers) == below;
  }

  /** As written, an operator over '(' loses the parenthesis. */
  lemma OperatorOverParenAsWritten(st: EState, op: char, res: seq<Element>, below: seq<Operator>)
    requires SP.IsArith(op) && !st.firstChar && !st.prevWasOper && st.opers == below + [SP.Paren()]
    requires FlushExpr(AsWritten, st.elements, st.prevExpr) == Ok(res)
    ensures Step(AsWritten, st, op) == Ok(EState(res, "", true, false, false, below + [SP.ArithOperator(op)]))
  {
    KindOfArith(op);
    ParenLost(res, below, SP.ArithOperator(op).precedence, op);
    OperatorStepIs(AsWritten, st, op, res, (res, below));
  }

  /** A number read where no literal is pending stays pending. */
  lemma RunNumber(v: Version, n: nat, rest: string, st: EState)
    requires st.prevExpr == [] && !Adjacent(st)
    ensures Run(v, NatToString(n) + rest, st) == Run(v, rest, After(SP.Num(n), st))
  {
    RunDigits(v, NatToString(n), st);
    RunAppend(v, NatToString(n), rest, st);
    assert "" + NatToString(n) == NatToString(n);
  }

  /** As written, a number and an operator after '(' leave the operator where the
      parenthesis was. */
  lemma RunInParenAsWritten(n: nat, op: char, rest: string, els: seq<Element>, below: seq<Operator>)
    requires SP.IsArith(op)
    ensures Run(AsWritten, NatToString(n) + ([op] + rest), EState(els, "", true, false, false, below + [SP.Paren()])) ==
            Run(AsWritten, rest, EState(els + [Number(n)], "", true, false, false, below + [SP.ArithOperator(op)]))
  {
    var s1 := EState(els, "", true, false, false, below + [SP.Paren()]);
    RunNumber(AsWritten, n, [op] + rest, s1);
    var s2 := After(SP.Num(n), s1);
    FlushAfter(AsWritten, SP.Num(n), s1);
    OperatorOverParenAsWritten(s2, op, els + [Number(n)], below);
    RunCons(AsWritten, s2, op, rest, EState(els + [Number(n)], "", true, false, false, below + [SP.ArithOperator(op)]));
  }

  /** As written, "(a o1" leaves the state a, o1 leaves without the parenthesis. */
  lemma NestedOpenAsWritten(a: nat, o1: char, rest: string)
    requires SP.IsArith(o1)
    ensures Run(AsWritten, "(" + (NatToString(a) + ([o1] + rest)), Start) ==
            Run(AsWritten, rest, EState([Number(a)], "", true, false, false, [SP.ArithOperator(o1)]))
  {
    var s1 := EState([], "", true, false, false, [SP.Paren()]);
    StepOpenParen(AsWritten, Start);
    assert [] + [SP.Paren()] == [SP.Paren()];
    RunCons(AsWritten, Start, '(', NatToString(a) + ([o1] + rest), s1);
    RunInParenAsWritten(a, o1, rest, [], []);
    assert [] + [Number(a)] == [Number(a)] && [] + [SP.ArithOperator(o1)] == [SP.ArithOperator(o1)];
  }

  /** As written, "(b o2" after an operator loses the inner parenthesis too. */
  lemma NestedInnerAsWritten(o1: char, o2: char, b: nat, rest: string, els: seq<Element>)
    requires SP.IsArith(o1) && SP.IsArith(o2)
    ensures Run(AsWritten, "(" + (NatToString(b) + ([o2] + rest)), EState(els, "", true, false, false, [SP.ArithOperator(o1)])) ==
            Run(AsWritten, rest, EState(els + [Number(b)], "", true, false, false, [SP.ArithOperator(o1), SP.ArithOperator(o2)]))
  {
    var o1p, o2p := SP.ArithOperator(o1), SP.ArithOperator(o2);
    var st := EState(els, "", true, false, false, [o1p]);
    var s1 := EState(els, "", true, false, false, [o1p] + [SP.Paren()]);
    StepOpenParen(AsWritten, st);
    RunCons(AsWritten, st, '(', NatToString(b) + ([o2] + rest), s1);
    RunInParenAsWritten(b, o2, rest, els, [o1p]);
    assert [o1p] + [o2p] == [o1p, o2p];
  }

  /** A closing parenthesis over two operators and no '(' writes both and empties the
      stack. */
  lemma CloseOverTwo(v: Version, res: seq<Element>, o1: Operator, o2: Operator)
    requires o1.symbol != '(' && o2.symbol != '('
    ensures CloseFlushed(v, res, [o1, o2]) == Ok(EState(res + [Oper(o2), Oper(o1)], "", false, false, false, []))
  {
    assert SP.Top([o1, o2]) == o2 && SP.Pop([o1, o2]) == [o1];
    assert SP.Top([o1]) == o1 && SP.Pop([o1]) == [];
    var out := res + [Oper(o2)] + [Oper(o1)];
    assert PopThroughParen(out, []) == (out, []);
    assert PopThroughParen(res + [Oper(o2)], [o1]) == (out, []);
    assert PopThroughParen(res, [o1, o2]) == (out, []);
    assert out == res + [Oper(o2), Oper(o1)];
  }

  /** A closing parenthesis with nothing pending and an empty stack is refused. */
  lemma CloseOnEmpty(v: Version, st: EState)
    requires st.prevExpr == [] && st.opers == []
    ensures Run(v, ")", st) == Err(ClosingWithoutOperators)
  {
    CloseStepIs(v, st, st.elements);
  }

  /** As written, "c))" with two operators on the stack and no parenthesis under them is
      refused at the second ')'. */
  lemma NestedCloseAsWritten(c: nat, els: seq<Element>, o1: char, o2: char)
    requires SP.IsArith(o1) && SP.IsArith(o2)
    ensures Run(AsWritten, NatToString(c) + "))", EState(els, "", true, false, false, [SP.ArithOperator(o1), SP.ArithOperator(o2)])) ==
            Err(ClosingWithoutOperators)
  {
    var st := EState(els, "", true, false, false, [SP.ArithOperator(o1), SP.ArithOperator(o2)]);
    RunNumber(AsWritten, c, "))", st);
    FlushAfter(AsWritten, SP.Num(c), st);
    CloseTwiceOverOperators(After(SP.Num(c), st), els + [Number(c)], SP.ArithOperator(o1), SP.ArithOperator(o2));
  }

  /** As written, two closing parentheses over two operators and nothing else: the first
      writes both out, and the second finds no operator. */
  lemma CloseTwiceOverOperators(st: EState, res: seq<Element>, o1: Operator, o2: Operator)
    requires o1.symbol != '(' && o2.symbol != '(' && st.opers == [o1, o2]
    requires FlushExpr(AsWritten, st.elements, st.prevExpr) == Ok(res)
    ensures Run(AsWritten, "))", st) == Err(ClosingWithoutOperators)
  {
    CloseStepIs(AsWritten, st, res);
    CloseOverTwo(AsWritten, res, o1, o2);
    var s2 := EState(res + [Oper(o2), Oper(o1)], "", false, false, false, []);
    assert "))" == [')'] + ")";
    RunCons(AsWritten, st, ')', ")", s2);
    CloseOnEmpty(AsWritten, s2);
  }

  /** As written, a parenthesised expression whose right operand is itself parenthesised,
      such as "(1+(2*3))", is refused: both '(' were lost to the operators, and the
      second ')' finds the stack empty. */
  lemma NestedAsWritten(o1: char, o2: char, a: nat, b: nat, c: nat)
    requires SP.IsArith(o1) && SP.IsArith(o2)
    ensures PostfixAsWritten(SP.Infix(SP.Bin(o1, SP.Num(a), SP.Bin(o2, SP.Num(b), SP.Num(c))))) ==
            Err(ClosingWithoutOperators)
  {
    var e := SP.Bin(o1, SP.Num(a), SP.Bin(o2, SP.Num(b), SP.Num(c)));
    var da, db, dc := NatToString(a), NatToString(b), NatToString(c);
    assert SP.WellFormed(SP.Num(b)) && SP.WellFormed(SP.Num(c)) && SP.WellFormed(SP.Num(a));
    SP.InfixBalanced(e);
    var inner := SP.Bin(o2, SP.Num(b), SP.Num(c));
    SP.InfixSplits(o1, SP.Num(a), inner, []);
    SP.InfixSplits(o2, SP.Num(b), SP.Num(c), [')']);
    assert SP.Infix(e) + [] == SP.Infix(e);
    assert [')'] + [')'] == "))";
    assert SP.Infix(e) == "(" + (da + ([o1] + ("(" + (db + ([o2] + (dc + "))"))))));
    NestedOpenAsWritten(a, o1, "(" + (db + ([o2] + (dc + "))"))));
    NestedInnerAsWritten(o1, o2, b, dc + "))", [Number(a)]);
    NestedCloseAsWritten(c, [Number(a)] + [Number(b)], o1, o2);
  }

  /** A closing parenthesis over '(' drops it; as written it drops a second '(' beneath. */
  lemma CloseOnParen(v: Version, res: seq<Element>, below: seq<Operator>)
    ensures CloseFlushed(v, res, below + [SP.Paren()]) ==
      Ok(EState(res, "", false, false, false,
                if v == AsWritten && below != [] && SP.Top(below).symbol == '(' then SP.Pop(below) else below))
  {
    assert SP.Top(below + [SP.Paren()]) == SP.Paren() && SP.Pop(below + [SP.Paren()]) == below;
  }

  lemma OpenTwice(v: Version, rest: string)
    ensures Run(v, "((" + rest, Start) == Run(v, rest, EState([], "", true, false, false, [SP.Paren(), SP.Paren()]))
  {
    var s1 := EState([], "", true, false, false, [SP.Paren()]);
    var s2 := EState([], "", true, false, false, [SP.Paren(), SP.Paren()]);
    StepOpenParen(v, Start);
    assert [] + [SP.Paren()] == [SP.Paren()];
    StepOpenParen(v, s1);
    assert [SP.Paren()] + [SP.Paren()] == [SP.Paren(), SP.Paren()];
    assert "((" + rest == ['('] + (['('] + rest);
    RunCons(v, Start, '(', ['('] + rest, s1);
    RunCons(v, s1, '(', rest, s2);
  }

  /** As written, "((1))" is refused: the first ')' drops both '('. */
  lemma DoubleParenAsWritten(a: nat)
    ensures PostfixAsWritten("((" + NatToString(a) + "))") == Err(ClosingWithoutOperators)
  {
    SP.InfixBalanced(SP.Num(a));
    DoubleParenBalanced(NatToString(a));
    DoubleParenRunAsWritten(a);
  }

  /** Wrapping a balanced string in two pairs of parentheses keeps it balanced. */
  lemma DoubleParenBalanced(x: string)
    requires Balanced(x)
    ensures Balanced("((" + x + "))")
  {
    BalancedWrap('(', x, ')');
    BalancedWrap('(', "(" + x + ")", ')');
    assert "((" + x + "))" == "(" + ("(" + x + ")") + ")";
  }

  lemma DoubleParenRunAsWritten(a: nat)
    ensures Run(AsWritten, "((" + NatToString(a) + "))", Start) == Err(ClosingWithoutOperators)
  {
    var da := NatToString(a);
    var p := SP.Paren();
    assert "((" + da + "))" == "((" + (da + "))");
    OpenTwice(AsWritten, da + "))");
    NumberCloseTwiceAsWritten(a, EState([], "", true, false, false, [p, p]));
  }

  lemma NumberCloseTwiceAsWritten(n: nat, st: EState)
    requires st.opers == [SP.Paren(), SP.Paren()] && st.prevExpr == [] && !Adjacent(st)
    ensures Run(AsWritten, NatToString(n) + "))", st) == Err(ClosingWithoutOperators)
  {
    RunNumber(AsWritten, n, "))", st);
    FlushAfter(AsWritten, SP.Num(n), st);
    CloseTwiceAsWritten(After(SP.Num(n), st), st.elements + [Number(n)]);
  }

  /** As written, two closing parentheses over two opening ones: the first drops both,
      and the second finds no operator. */
  lemma CloseTwiceAsWritten(st: EState, res: seq<Element>)
    requires st.opers == [SP.Paren(), SP.Paren()] && FlushExpr(AsWritten, st.elements, st.prevExpr) == Ok(res)
    ensures Run(AsWritten, "))", st) == Err(ClosingWithoutOperators)
  {
    var p := SP.Paren();
    CloseStepIs(AsWritten, st, res);
    assert [p, p] == [p] + [p] && SP.Top([p]) == p && SP.Pop([p]) == [];
    CloseOnParen(AsWritten, res, [p]);
    var s4 := EState(res, "", false, false, false, []);
    assert "))" == [')'] + ")";
    RunCons(AsWritten, st, ')', ")", s4);
    CloseOnEmpty(AsWritten, s4);
  }

  /** Corrected, redundant parentheses around an expression change nothing. */
  lemma DoubleParenCorrected(e: SP.Expr)
    requires SP.WellFormed(e)
    ensures Postfix("((" + SP.Infix(e) + "))") == Ok(Elements(e))
  {
    SP.InfixBalanced(e);
    DoubleParenBalanced(SP.Infix(e));
    DoubleParenRunCorrected(e);
    FinishIs(Corrected, EState(Elements(e), "", false, false, false, []), Elements(e));
    assert Elements(e) + Drain([]) == Elements(e);
  }

  lemma DoubleParenRunCorrected(e: SP.Expr)
    requires SP.WellFormed(e)
    ensures Run(Corrected, "((" + SP.Infix(e) + "))", Start) == Ok(EState(Elements(e), "", false, false, false, []))
  {
    var x := SP.Infix(e);
    var p := SP.Paren();
    assert "((" + x + "))" == "((" + (x + "))");
    OpenTwice(Corrected, x + "))");
    var s2 := EState([], "", true, false, false, [p, p]);
    RunInfix(e, "))", s2);
    FlushAfter(Corrected, e, s2);
    assert [] + Elements(e) == Elements(e);
    CloseTwiceCorrected(After(e, s2), Elements(e));
  }

  /** Corrected, two closing parentheses over two opening ones leave the stack empty. */
  lemma CloseTwiceCorrected(st: EState, res: seq<Element>)
    requires st.opers == [SP.Paren(), SP.Paren()] && FlushExpr(Corrected, st.elements, st.prevExpr) == Ok(res)
    ensures Run(Corrected, "))", st) == Ok(EState(res, "", false, false, false, []))
  {
    var p := SP.Paren();
    CloseStepIs(Corrected, st, res);
    assert [p, p] == [p] + [p];
    CloseOnParen(Corrected, res, [p]);
    var s4 := EState(res, "", false, false, false, [p]);
    assert "))" == [')'] + ")";
    RunCons(Corrected, st, ')', ")", s4);
    CloseStepIs(Corrected, s4, res);
    assert [p] == [] + [p];
    CloseOnParen(Corrected, res, []);
    assert ")" == [')'] + [];
    RunCons(Corrected, s4, ')', [], EState(res, "", false, false, false, []));
  }

  // ---- the lone period -------------------------------------------------------------------------

  lemma RunPeriod(v: Version)
    ensures Run(v, ".", Start) == Ok(EState([], ".", false, true, false, []))
  {
    Operators.IsOperatorSymbols('.');
    assert KindOf('.') == Other;
    assert Step(v, Start, '.') == OtherStep(Start, '.');
    assert "" + ['.'] == ".";
    assert "."[1..] == [];
  }

  /** As written, the input "." aborts infix_to_postfix ... */
  lemma PeriodAbortsAsWritten()
    ensures PostfixAsWritten(".").Err? && PostfixAsWritten(".").error.Panic?
  {
    SP.ScanPlain(".", []);
    RunPeriod(AsWritten);
    PeriodPanics();
  }

  /** ... and corrected, it is reported as an invalid operand. */
  lemma PeriodRefusedCorrected()
    ensures Postfix(".") == Err(InvalidOperand("."))
  {
    SP.ScanPlain(".", []);
    RunPeriod(Corrected);
    PeriodPanics();
  }

  // ---- rejected input --------------------------------------------------------------------------

  /** An operator may not come first. */
  lemma LeadingOperatorRejected(v: Version, op: char, s: string)
    requires SP.IsArith(op) && Balanced(s)
    ensures PostfixWith(v, [op] + s) == Err(LeadingOperator)
  {
    SP.ScanPlain([op], []);
    BalancedConcat([op], s);
    KindOfArith(op);
    assert Step(v, Start, op) == OperatorStep(v, Start, op) == Err(LeadingOperator);
    assert ([op] + s)[0] == op;
  }

  /** Reading a last operator leaves it pending. */
  lemma RunTrailingOperator(e: SP.Expr, op: char)
    requires SP.WellFormed(e) && SP.IsArith(op)
    ensures Run(Corrected, SP.Infix(e) + [op], Start).Ok? && Run(Corrected, SP.Infix(e) + [op], Start).value.prevWasOper
  {
    RunInfix(e, [op], Start);
    FlushAfter(Corrected, e, Start);
    LastOperator(After(e, Start), op, [] + Elements(e));
  }

  lemma LastOperator(st: EState, op: char, res: seq<Element>)
    requires SP.IsArith(op) && !st.firstChar && !st.prevWasOper && st.opers == []
    requires FlushExpr(Corrected, st.elements, st.prevExpr) == Ok(res)
    ensures Run(Corrected, [op], st).Ok? && Run(Corrected, [op], st).value.prevWasOper
  {
    PushInParens(st, op, res);
    var next := EState(res, "", true, false, false, st.opers + [SP.ArithOperator(op)]);
    assert [op] == [op] + [];
    RunCons(Corrected, st, op, [], next);
  }

  /** Nor come last. */
  lemma TrailingOperatorRejected(e: SP.Expr, op: char)
    requires SP.WellFormed(e) && SP.IsArith(op)
    ensures Postfix(SP.Infix(e) + [op]) == Err(TrailingOperator)
  {
    var x := SP.Infix(e);
    SP.InfixBalanced(e);
    SP.ScanPlain([op], []);
    BalancedConcat(x, [op]);
    RunTrailingOperator(e, op);
  }

  lemma OperatorAfterOperator(v: Version, st: EState, op: char)
    requires SP.IsArith(op) && !st.firstChar && st.prevWasOper
    ensures Step(v, st, op) == Err(ConsecutiveOperators)
  {
    KindOfArith(op);
    assert Step(v, st, op) == OperatorStep(v, st, op);
  }

  /** Reading a second operator right after the first fails. */
  lemma RunConsecutiveOperators(e: SP.Expr, o1: char, o2: char, s: string)
    requires SP.WellFormed(e) && SP.IsArith(o1) && SP.IsArith(o2)
    ensures Run(Corrected, SP.Infix(e) + ([o1] + ([o2] + s)), Start) == Err(ConsecutiveOperators)
  {
    RunInfix(e, [o1] + ([o2] + s), Start);
    var st := After(e, Start);
    FlushAfter(Corrected, e, Start);
    var res := [] + Elements(e);
    PushInParens(st, o1, res);
    var next := EState(res, "", true, false, false, [SP.ArithOperator(o1)]);
    assert [] + [SP.ArithOperator(o1)] == [SP.ArithOperator(o1)];
    RunCons(Corrected, st, o1, [o2] + s, next);
    OperatorAfterOperator(Corrected, next, o2);
    assert ([o2] + s)[0] == o2;
  }

  /** Nor follow another operator. */
  lemma ConsecutiveOperatorsRejected(e: SP.Expr, o1: char, o2: char, s: string)
    requires SP.WellFormed(e) && SP.IsArith(o1) && SP.IsArith(o2) && Balanced(s)
    ensures Postfix(SP.Infix(e) + [o1, o2] + s) == Err(ConsecutiveOperators)
  {
    var x := SP.Infix(e);
    SP.InfixBalanced(e);
    SP.ScanPlain([o1, o2], []);
    BalancedConcat(x, [o1, o2]);
    BalancedConcat(x + [o1, o2], s);
    assert x + [o1, o2] + s == x + ([o1] + ([o2] + s));
    RunConsecutiveOperators(e, o1, o2, s);
  }

  lemma RunAdjacentOperand(op: char, l: SP.Expr, r: SP.Expr, n: nat)
    requires SP.WellFormed(SP.Bin(op, l, r))
    ensures Run(Corrected, SP.Infix(SP.Bin(op, l, r)) + NatToString(n), Start) == Err(AdjacentOperands)
  {
    var e := SP.Bin(op, l, r);
    var d := NatToString(n);
    assert AllDigits(d);
    RunInfix(e, d, Start);
    var st := After(e, Start);
    KindOfDigit(d[0]);
    assert Step(Corrected, st, d[0]) == OtherStep(st, d[0]) == Err(AdjacentOperands);
  }

  /** A number may not follow a closing parenthesis without an operator between them. */
  lemma AdjacentOperandRejected(op: char, l: SP.Expr, r: SP.Expr, n: nat)
    requires SP.WellFormed(SP.Bin(op, l, r))
    ensures Postfix(SP.Infix(SP.Bin(op, l, r)) + NatToString(n)) == Err(AdjacentOperands)
  {
    var x, d := SP.Infix(SP.Bin(op, l, r)), NatToString(n);
    SP.InfixBalanced(SP.Bin(op, l, r));
    SP.NumberBalanced(n);
    BalancedConcat(x, d);
    RunAdjacentOperand(op, l, r, n);
  }

  /** White space after the pending literal ends it, and a number straight after that is
      refused as a second operand. */
  lemma SpaceThenNumber(v: Version, st: EState, res: seq<Element>, n: nat)
    requires !st.firstChar && !st.prevWasOper
    requires FlushExpr(v, st.elements, st.prevExpr) == Ok(res)
    ensures Run(v, " " + NatToString(n), st) == Err(AdjacentOperands)
  {
    var d := NatToString(n);
    var next := EState(res, "", st.prevWasOper, false, st.firstChar, st.opers);
    assert KindOf(' ') == Space;
    assert Step(v, st, ' ') == Ok(next);
    assert " " + d == [' '] + d;
    RunCons(v, st, ' ', d, next);
    assert AllDigits(d);
    KindOfDigit(d[0]);
    assert Step(v, next, d[0]) == OtherStep(next, d[0]) == Err(AdjacentOperands);
  }

  /** Two numbers with only white space between them are refused, in either version. */
  lemma SpaceSeparatedRejected(v: Version, a: nat, b: nat)
    ensures PostfixWith(v, NatToString(a) + " " + NatToString(b)) == Err(AdjacentOperands)
  {
    var da, db := NatToString(a), NatToString(b);
    SP.NumberBalanced(a);
    SP.NumberBalanced(b);
    SP.ScanPlain(" ", []);
    BalancedConcat(da, " ");
    BalancedConcat(da + " ", db);
    assert da + " " + db == da + (" " + db);
    RunNumber(v, a, " " + db, Start);
    FlushAfter(v, SP.Num(a), Start);
    SpaceThenNumber(v, After(SP.Num(a), Start), [] + [Number(a)], b);
  }

  // ---- the popping loops -----------------------------------------------------------------------

  /** The corrected loop writes out, top first, the operators above the first one that
      does not bind (or all of them), and only operators that bind. */
  lemma {:induction false} PopWhileSpec(elements: seq<Element>, opers: seq<Operator>, p2: int, item: char)
    ensures var r := PopWhile(elements, opers, p2, item);
      |r.1| <= |opers| && r.1 == opers[..|r.1|] && r.0 == elements + Drain(opers[|r.1|..]) &&
      (r.1 == [] || !SP.Binds(SP.Top(r.1), p2, item)) &&
      (forall i :: |r.1| <= i < |opers| ==> SP.Binds(opers[i], p2, item))
    decreases |opers|
  {
    if opers != [] && SP.Binds(SP.Top(opers), p2, item) {
      var top, below := SP.Top(opers), SP.Pop(opers);
      PopWhileSpec(elements + [Oper(top)], below, p2, item);
      var r := PopWhile(elements, opers, p2, item);
      var k := |r.1|;
      assert below == opers[..|opers| - 1];
      var t := opers[k..];
      assert t != [] && SP.Top(t) == top && SP.Pop(t) == below[k..];
      assert Drain(t) == [Oper(top)] + Drain(below[k..]);
      assert r.0 == elements + [Oper(top)] + Drain(below[k..]);
      forall i | k <= i < |opers|
        ensures SP.Binds(opers[i], p2, item)
      {
        if i < |opers| - 1 {
          assert opers[i] == below[i];
        }
      }
    } else {
      assert opers[|opers|..] == [];
    }
  }

  /** The loop as written, given the operator already taken off: one operator fewer
      comes out, across the output and the stack, than went in. */
  lemma {:induction false} PopLosingDropsOne(elements: seq<Element>, opers: seq<Operator>, last: Operator, p2: int, item: char)
    ensures var r := PopLosing(elements, opers, last, p2, item);
      |r.0| + |r.1| == |elements| + |opers| && |r.1| <= |opers| && r.1 == opers[..|r.1|]
    decreases |opers|
  {
    if opers != [] && SP.Binds(last, p2, item) {
      PopLosingDropsOne(elements + [Oper(last)], SP.Pop(opers), SP.Top(opers), p2, item);
      var r := PopLosing(elements, opers, last, p2, item);
      assert SP.Pop(opers) == opers[..|opers| - 1];
      assert r.1 == SP.Pop(opers)[..|r.1|];
    }
  }

  /** A closer with nothing open is refused before any character is read. */
  lemma LeadingCloserRejected(v: Version, close: char, s: string)
    requires IsCloser(close)
    ensures PostfixWith(v, [close] + s) == Err(UnbalancedBraces)
  {
    UnbalancedCloser([], close, s);
    assert [] + [close] + s == [close] + s;
  }
}
