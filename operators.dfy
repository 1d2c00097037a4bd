/** The operator table of ops/operators.rs: each operator is a symbol and a precedence,
    and its f64 evaluation is fixed by the symbol. */
module Operators {
  import opened Wrappers
  import Scalars

  datatype Operator = Operator(symbol: char, precedence: int)

  /** PartialEq<Operator>: the same symbol and the same precedence. */
  predicate Eq(a: Operator, b: Operator) {
    a.symbol == b.symbol && a.precedence == b.precedence
  }

  /** The hand-written `ne`, which agrees with `eq`. */
  function Ne(a: Operator, b: Operator): (r: bool)
    ensures r <==> !Eq(a, b)
  {
    a.symbol != b.symbol || a.precedence != b.precedence
  }

  /** PartialEq<char>: the symbol alone. */
  predicate EqChar(a: Operator, c: char) {
    a.symbol == c
  }

  // `<`, `<=`, `>` and `>=` look at the precedence only.
  predicate Lt(a: Operator, b: Operator) { a.precedence < b.precedence }
  predicate Le(a: Operator, b: Operator) { a.precedence <= b.precedence }
  predicate Gt(a: Operator, b: Operator) { a.precedence > b.precedence }
  predicate Ge(a: Operator, b: Operator) { a.precedence >= b.precedence }

  datatype Ordering = Less | Equal | Greater

  /** partial_cmp: Equal for equal operators, otherwise decided by precedence; two
      different symbols of the same precedence are unordered, although both `<=` and `>=`
      hold between them. */
  function PartialCmp(a: Operator, b: Operator): (r: Option<Ordering>)
    ensures r == Some(Equal) <==> Eq(a, b)
    ensures r == Some(Less) <==> a.precedence < b.precedence
    ensures r == Some(Greater) <==> a.precedence > b.precedence
    ensures r == None <==> a.precedence == b.precedence && a.symbol != b.symbol
    ensures r == None ==> Le(a, b) && Ge(a, b)
  {
    if Eq(a, b) then Some(Equal)
    else if Lt(a, b) then Some(Less)
    else if Gt(a, b) then Some(Greater)
    else None
  }

  /** Operators::new: the table, in the order the source builds it. */
  const Table: seq<Operator> := [
    Operator('+', 1), Operator('-', 1),
    Operator('*', 2), Operator('/', 2), Operator('%', 2),
    Operator('^', 3),
    Operator('(', 4), Operator('{', 4), Operator('[', 4)
  ]

  /** The first operator of ops whose symbol is c. */
  function Find(ops: seq<Operator>, c: char): Option<Operator> {
    if ops == [] then None
    else if ops[0].symbol == c then Some(ops[0])
    else Find(ops[1..], c)
  }

  /** Find answers with the first entry of the symbol, and None only when there is none. */
  lemma {:induction false} FindFirst(ops: seq<Operator>, c: char)
    ensures Find(ops, c).Some? <==> exists i :: 0 <= i < |ops| && ops[i].symbol == c
    ensures Find(ops, c).Some? ==>
      exists i :: 0 <= i < |ops| && ops[i] == Find(ops, c).value && Find(ops, c).value.symbol == c &&
                  (forall j :: 0 <= j < i ==> ops[j].symbol != c)
  {
    if ops != [] && ops[0].symbol != c {
      FindFirst(ops[1..], c);
      assert forall i :: 1 <= i < |ops| ==> ops[i] == ops[1..][i - 1];
      if Find(ops, c).Some? {
        var i :| 0 <= i < |ops[1..]| && ops[1..][i] == Find(ops, c).value &&
                 forall j :: 0 <= j < i ==> ops[1..][j].symbol != c;
        assert ops[i + 1] == Find(ops, c).value;
        assert forall j :: 0 <= j < i + 1 ==> ops[j].symbol != c by {
          forall j | 0 <= j < i + 1 ensures ops[j].symbol != c {
            if j > 0 { assert ops[j] == ops[1..][j - 1]; }
          }
        }
      }
    } else if ops != [] {
      assert ops[0].symbol == c;
    }
  }

  /** get_operator: the table entry for symbol c, if there is one, read off the table. */
  function GetOperator(c: char): (r: Option<Operator>)
    ensures r.Some? ==> r.value in Table && r.value.symbol == c
  {
    if c == '+' || c == '-' then Some(Operator(c, 1))
    else if c == '*' || c == '/' || c == '%' then Some(Operator(c, 2))
    else if c == '^' then Some(Operator(c, 3))
    else if c == '(' || c == '{' || c == '[' then Some(Operator(c, 4))
    else None
  }

  /** Searching the table in order, as get_operator does, finds exactly that entry. */
  lemma GetOperatorTable(c: char)
    ensures Find(Table, c) == GetOperator(c)
  {
    FindFirst(Table, c);
    var r := Find(Table, c);
    if r.Some? {
      var i :| 0 <= i < |Table| && Table[i] == r.value && r.value.symbol == c &&
               forall j :: 0 <= j < i ==> Table[j].symbol != c;
      assert 0 <= i < 9;
    } else {
      assert forall i :: 0 <= i < |Table| ==> Table[i].symbol != c;
      assert Table[0].symbol != c && Table[1].symbol != c && Table[2].symbol != c;
      assert Table[3].symbol != c && Table[4].symbol != c && Table[5].symbol != c;
      assert Table[6].symbol != c && Table[7].symbol != c && Table[8].symbol != c;
    }
  }

  /** get_operator's loop: the first entry whose symbol is c. */
  method SearchTable(c: char) returns (r: Option<Operator>)
    ensures r == GetOperator(c)
  {
    var opers := Table;
    for i := 0 to |opers|
      invariant Find(Table, c) == Find(opers[i..], c)
    {
      assert opers[i..][1..] == opers[i + 1..];
      if opers[i].symbol == c {
        GetOperatorTable(c);
        return Some(opers[i]);
      }
    }
    GetOperatorTable(c);
    assert opers[|opers|..] == [];
    return None;
  }

  lemma GetOperatorInTable(c: char)
    ensures GetOperator(c).Some? ==> GetOperator(c).value in Table && GetOperator(c).value.symbol == c
  {
  }

  lemma GetOperatorOfBrace(c: char)
    requires c == '(' || c == '{' || c == '['
    ensures GetOperator(c) == Some(Operator(c, 4))
  {
  }

  lemma GetOperatorOfArith(c: char)
    requires c == '+' || c == '-' || c == '*' || c == '/' || c == '%' || c == '^'
    ensures GetOperator(c).Some? && GetOperator(c).value.symbol == c
    ensures 1 <= GetOperator(c).value.precedence <= 3
  {
  }

  /** is_operator: defined by get_operator. */
  predicate IsOperator(c: char) {
    GetOperator(c).Some?
  }

  lemma IsOperatorSymbols(c: char)
    ensures IsOperator(c) <==> c in "+-*/%^({["
  {
  }

  /** get_brace_precedence: the precedence of '(' (0 if it were missing). */
  function GetBracePrecedence(): (p: int)
    ensures p == 4
  {
    match GetOperator('(')
    case Some(x) => x.precedence
    case None => 0
  }

  /** Operator::evaluate, the closure the table attaches to each symbol, on f64 operands.
      `powf` is a library call, taken as a parameter; a zero divisor of `/` or `%`, which
      IEEE 754 maps to inf or NaN, is reported. The braces evaluate to zero. */
  function Evaluate(op: Operator, a: real, b: real, pow: (real, real) -> real): (r: Result<real>)
    requires op in Table
    ensures r.Err? <==> (op.symbol == '/' || op.symbol == '%') && b == 0.0
    ensures op.symbol == '/' && r.Ok? ==> r.value * b == a
    ensures op.precedence == 4 ==> r == Ok(0.0)
  {
    match op.symbol
    case '+' => Ok(a + b)
    case '-' => Ok(a - b)
    case '*' => Ok(a * b)
    case '/' =>
      (match Scalars.Div(Scalars.Scalar(a), Scalars.Scalar(b))
       case Ok(q) => Ok(q.val)
       case Err(e) => Err(e))
    case '%' => Scalars.Rem(a, b)
    case '^' => Ok(pow(a, b))
    case _ => Ok(0.0)
  }
}
