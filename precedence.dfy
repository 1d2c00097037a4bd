/** Unbracketed chains x0 o1 x1 ... ok xk, where each operand xi is a number or a bracketed
    expression: the grouping that standard precedence and associativity give them (equal
    precedences group to the left, except '^', which groups to the right), proved to be the
    only grouping that respects both, and proved to be what the shunting-yard loops of
    parsing.rs and ops/parsing.rs build. */
module Precedence {
  import opened Wrappers
  import opened Text
  import opened Lexical
  import Operators
  import SP = StringParsing
  import EP = ExprParsing
  import opened VariableTypes

  type Expr = SP.Expr
  type Operator = Operators.Operator

  // ---- chains and their groupings ---------------------------------------------------------

  /** One operator of a chain and the operand that follows it. */
  datatype Link = Link(op: char, operand: Expr)

  predicate LinksOk(links: seq<Link>) {
    forall i :: 0 <= i < |links| ==> SP.IsArith(links[i].op) && SP.WellFormed(links[i].operand)
  }

  function Prec(c: char): int
    requires SP.IsArith(c)
  {
    SP.ArithOperator(c).precedence
  }

  /** The text of a chain: each operand as Infix writes it, an operator between two. */
  function ChainText(first: Expr, links: seq<Link>): string
    decreases |links|
  {
    if links == [] then SP.Infix(first)
    else ChainText(first, links[..|links| - 1]) + [links[|links| - 1].op] + SP.Infix(links[|links| - 1].operand)
  }

  function Operands(links: seq<Link>): seq<Expr>
    decreases |links|
  {
    if links == [] then [] else Operands(links[..|links| - 1]) + [links[|links| - 1].operand]
  }

  function Symbols(links: seq<Link>): seq<char>
    decreases |links|
  {
    if links == [] then [] else Symbols(links[..|links| - 1]) + [links[|links| - 1].op]
  }

  /** A grouping of a chain: every operand is an atom, kept whole. */
  datatype Group = Atom(e: Expr) | Node(op: char, left: Group, right: Group)

  predicate Valid(g: Group) {
    match g
    case Atom(e) => SP.WellFormed(e)
    case Node(o, l, r) => SP.IsArith(o) && Valid(l) && Valid(r)
  }

  /** The operands of a grouping, left to right. */
  function Atoms(g: Group): seq<Expr> {
    match g
    case Atom(e) => [e]
    case Node(_, l, r) => Atoms(l) + Atoms(r)
  }

  /** The operators of a grouping, left to right. */
  function Ops(g: Group): seq<char> {
    match g
    case Atom(_) => []
    case Node(o, l, r) => Ops(l) + [o] + Ops(r)
  }

  /** The expression a grouping stands for. */
  function Tree(g: Group): (e: Expr)
    requires Valid(g)
    ensures SP.WellFormed(e)
  {
    match g
    case Atom(e) => e
    case Node(o, l, r) => SP.Bin(o, Tree(l), Tree(r))
  }

  /** An operator that comes after o binds tighter than o, and so takes o's right operand:
      it has a higher precedence, or both are the right-associative '^'. */
  predicate Tighter(op: char, o: char)
    requires SP.IsArith(op) && SP.IsArith(o)
  {
    Prec(op) > Prec(o) || (Prec(op) == Prec(o) && op == '^')
  }

  /** An operator o takes a group of operator lo as its left operand: lo has a higher
      precedence, or the same one and o is not '^'. */
  predicate LeftOf(lo: char, o: char)
    requires SP.IsArith(lo) && SP.IsArith(o)
  {
    Prec(lo) > Prec(o) || (Prec(lo) == Prec(o) && o != '^')
  }

  /** Precedence and associativity are respected at every operator of the grouping. */
  predicate Correct(g: Group) {
    match g
    case Atom(e) => SP.WellFormed(e)
    case Node(o, l, r) =>
      SP.IsArith(o) && Correct(l) && Correct(r) &&
      (l.Node? ==> SP.IsArith(l.op) && LeftOf(l.op, o)) &&
      (r.Node? ==> SP.IsArith(r.op) && Tighter(r.op, o))
  }

  /** The next operator and operand of the chain: the operator goes down the right edge
      of the grouping while it binds tighter, and takes what it finds there as its left
      operand. */
  function Insert(g: Group, op: char, a: Expr): (r: Group)
    requires Valid(g) && SP.IsArith(op) && SP.WellFormed(a)
    ensures Valid(r) && r.Node?
    ensures r.op == op || (g.Node? && r.op == g.op)
  {
    match g
    case Node(o, l, right) =>
      if Tighter(op, o) then Node(o, l, Insert(right, op, a)) else Node(op, g, Atom(a))
    case Atom(_) => Node(op, g, Atom(a))
  }

  /** The grouping of a chain, read from left to right. */
  function Grouped(first: Expr, links: seq<Link>): (g: Group)
    requires SP.WellFormed(first) && LinksOk(links)
    ensures Valid(g)
    ensures Atoms(g) == [first] + Operands(links) && Ops(g) == Symbols(links)
    decreases |links|
  {
    if links == [] then Atom(first)
    else
      var last := links[|links| - 1];
      InsertReads(Grouped(first, links[..|links| - 1]), last.op, last.operand);
      Insert(Grouped(first, links[..|links| - 1]), last.op, last.operand)
  }

  lemma Associative<T>(x: seq<T>, y: seq<T>, z: seq<T>)
    ensures x + (y + z) == x + y + z
  {
  }

  /** Inserting appends the operator and the operand to those of the grouping. */
  lemma {:induction false} InsertReads(g: Group, op: char, a: Expr)
    requires Valid(g) && SP.IsArith(op) && SP.WellFormed(a)
    ensures Atoms(Insert(g, op, a)) == Atoms(g) + [a] && Ops(Insert(g, op, a)) == Ops(g) + [op]
    decreases g
  {
    match g
    case Atom(_) =>
    case Node(o, l, r) =>
      if Tighter(op, o) {
        InsertReads(r, op, a);
        var r' := Insert(r, op, a);
        assert Insert(g, op, a) == Node(o, l, r');
        Associative(Ops(l) + [o], Ops(r), [op]);
        Associative(Atoms(l), Atoms(r), [a]);
      }
  }

  // ---- the grouping is the standard one ----------------------------------------------------------

  lemma PrecRange(c: char)
    requires SP.IsArith(c)
    ensures 1 <= Prec(c) <= 3
    ensures Prec(c) == 3 <==> c == '^'
  {
  }

  /** Inserting an operator keeps precedence and associativity respected. */
  lemma {:induction false} InsertCorrect(g: Group, op: char, a: Expr)
    requires Correct(g) && Valid(g) && SP.IsArith(op) && SP.WellFormed(a)
    ensures Correct(Insert(g, op, a))
    decreases g
  {
    match g
    case Atom(_) =>
    case Node(o, l, r) =>
      if Tighter(op, o) {
        InsertCorrect(r, op, a);
      }
  }

  lemma {:induction false} CorrectIsValid(g: Group)
    requires Correct(g)
    ensures Valid(g)
    decreases g
  {
    match g
    case Atom(_) =>
    case Node(_, l, r) =>
      CorrectIsValid(l);
      CorrectIsValid(r);
  }

  /** Reading a chain from left to right gives a grouping that respects precedence and
      associativity. */
  lemma {:induction false} GroupedCorrect(first: Expr, links: seq<Link>)
    requires SP.WellFormed(first) && LinksOk(links)
    ensures Correct(Grouped(first, links))
    decreases |links|
  {
    if links != [] {
      var last := links[|links| - 1];
      GroupedCorrect(first, links[..|links| - 1]);
      InsertCorrect(Grouped(first, links[..|links| - 1]), last.op, last.operand);
    }
  }

  /** Every operator in ops has precedence at least p. */
  predicate AtLeast(ops: seq<char>, p: int) {
    forall i :: 0 <= i < |ops| ==> SP.IsArith(ops[i]) && Prec(ops[i]) >= p
  }

  /** The operator at the top of a respecting grouping has the least precedence in it. */
  lemma {:induction false} TopIsLeast(g: Group, p: int)
    requires Correct(g) && (g.Node? ==> Prec(g.op) >= p)
    ensures AtLeast(Ops(g), p)
    decreases g
  {
    match g
    case Atom(_) =>
    case Node(o, l, r) =>
      assert l.Node? ==> Prec(l.op) >= Prec(o);
      assert r.Node? ==> Prec(r.op) >= Prec(o);
      TopIsLeast(l, p);
      TopIsLeast(r, p);
      AtLeastConcat(Ops(l), [o], Ops(r), p);
  }

  lemma AtLeastConcat(a: seq<char>, b: seq<char>, c: seq<char>, p: int)
    requires AtLeast(a, p) && AtLeast(b, p) && AtLeast(c, p)
    ensures AtLeast(a + b + c, p)
  {
    forall i | 0 <= i < |a + b + c| ensures SP.IsArith((a + b + c)[i]) && Prec((a + b + c)[i]) >= p {
      if i < |a| {
        assert (a + b + c)[i] == a[i];
      } else if i < |a| + |b| {
        assert (a + b + c)[i] == b[i - |a|];
      } else {
        assert (a + b + c)[i] == c[i - |a| - |b|];
      }
    }
  }

  /** Left of the top operator o every operator binds at least as tight, and o is not '^';
      right of it every operator binds tighter, or o and it are both '^'. */
  lemma TopBounds(g: Group)
    requires Correct(g) && g.Node?
    ensures Ops(g.left) != [] ==> g.op != '^' && AtLeast(Ops(g.left), Prec(g.op))
    ensures forall i :: 0 <= i < |Ops(g.right)| ==>
      (SP.IsArith(Ops(g.right)[i]) && (Prec(Ops(g.right)[i]) > Prec(g.op) || (Ops(g.right)[i] == '^' && g.op == '^')))
  {
    var o, l, r := g.op, g.left, g.right;
    PrecRange(o);
    if l.Node? {
      PrecRange(l.op);
      TopIsLeast(l, Prec(o));
    }
    if r.Node? {
      PrecRange(r.op);
      if Prec(r.op) > Prec(o) {
        TopIsLeast(r, Prec(o) + 1);
      } else {
        TopIsLeast(r, 3);
        forall i | 0 <= i < |Ops(r)| ensures Ops(r)[i] == '^' {
          PrecRange(Ops(r)[i]);
        }
      }
    }
  }

  lemma {:induction false} AtomCount(g: Group)
    ensures |Atoms(g)| == |Ops(g)| + 1
    decreases g
  {
    match g
    case Atom(_) =>
    case Node(_, l, r) =>
      AtomCount(l);
      AtomCount(r);
  }

  /** Two groupings that both respect precedence and associativity and have the same
      operands and operators are the same grouping. */
  lemma {:induction false} CorrectIsUnique(g1: Group, g2: Group)
    requires Correct(g1) && Correct(g2) && Atoms(g1) == Atoms(g2) && Ops(g1) == Ops(g2)
    ensures g1 == g2
    decreases g1
  {
    AtomCount(g1);
    if g1.Atom? || g2.Atom? {
      if g1.Node? || g2.Node? {
        assert false;
      }
      assert [g1.e] == Atoms(g1) == Atoms(g2) == [g2.e];
    } else {
      var i1, i2 := |Ops(g1.left)|, |Ops(g2.left)|;
      var ops := Ops(g1);
      assert ops == Ops(g1.left) + [g1.op] + Ops(g1.right);
      assert ops == Ops(g2.left) + [g2.op] + Ops(g2.right);
      assert ops[i1] == g1.op && ops[i2] == g2.op;
      TopBounds(g1);
      TopBounds(g2);
      if i1 != i2 {
        assert false;
      }
      SameSplit(g1, g2);
      CorrectIsUnique(g1.left, g2.left);
      CorrectIsUnique(g1.right, g2.right);
    }
  }

  /** Two groupings with the same operators and operands whose top operators sit at the
      same place split them in the same way. */
  lemma SameSplit(g1: Group, g2: Group)
    requires g1.Node? && g2.Node? && Atoms(g1) == Atoms(g2) && Ops(g1) == Ops(g2)
    requires |Ops(g1.left)| == |Ops(g2.left)|
    ensures g1.op == g2.op
    ensures Ops(g1.left) == Ops(g2.left) && Ops(g1.right) == Ops(g2.right)
    ensures Atoms(g1.left) == Atoms(g2.left) && Atoms(g1.right) == Atoms(g2.right)
  {
    var n := |Ops(g1.left)|;
    var ops := Ops(g1);
    assert ops == Ops(g1.left) + [g1.op] + Ops(g1.right);
    assert ops == Ops(g2.left) + [g2.op] + Ops(g2.right);
    assert Ops(g1.left) == ops[..n] == Ops(g2.left);
    assert g1.op == ops[n] == g2.op;
    assert Ops(g1.right) == ops[n + 1..] == Ops(g2.right);
    AtomCount(g1.left);
    AtomCount(g2.left);
    var atoms := Atoms(g1);
    assert Atoms(g1.left) == atoms[..n + 1] == Atoms(g2.left);
    assert Atoms(g1.right) == atoms[n + 1..] == Atoms(g2.right);
  }

  /** The grouping read from left to right is the one grouping of the chain that respects
      precedence and associativity. */
  lemma GroupedIsStandard(first: Expr, links: seq<Link>, g: Group)
    requires SP.WellFormed(first) && LinksOk(links)
    requires Correct(g) && Atoms(g) == [first] + Operands(links) && Ops(g) == Symbols(links)
    ensures Correct(Grouped(first, links))
    ensures g == Grouped(first, links)
  {
    GroupedCorrect(first, links);
    CorrectIsUnique(g, Grouped(first, links));
  }

  /** One more link is one more insertion. */
  lemma GroupedSnoc(first: Expr, links: seq<Link>, last: Link)
    requires SP.WellFormed(first) && LinksOk(links) && SP.IsArith(last.op) && SP.WellFormed(last.operand)
    ensures LinksOk(links + [last])
    ensures Grouped(first, links + [last]) == Insert(Grouped(first, links), last.op, last.operand)
  {
    assert (links + [last])[..|links|] == links;
    assert forall i :: 0 <= i < |links| ==> links[i] == (links + [last])[i];
  }

  /** The example of the design, 2+3-5+2^2, groups as ((2+3)-5)+(2^2). */
  lemma GroupingExample()
    ensures Grouped(SP.Num(2), [Link('+', SP.Num(3)), Link('-', SP.Num(5)), Link('+', SP.Num(2)), Link('^', SP.Num(2))]) ==
      Node('+', Node('-', Node('+', Atom(SP.Num(2)), Atom(SP.Num(3))), Atom(SP.Num(5))), Node('^', Atom(SP.Num(2)), Atom(SP.Num(2))))
  {
    var two, l1, l2, l3, l4 := SP.Num(2), Link('+', SP.Num(3)), Link('-', SP.Num(5)), Link('+', SP.Num(2)), Link('^', SP.Num(2));
    GroupedSnoc(two, [], l1);
    assert [] + [l1] == [l1];
    var g1 := Node('+', Atom(two), Atom(SP.Num(3)));
    GroupedSnoc(two, [l1], l2);
    assert [l1] + [l2] == [l1, l2];
    var g2 := Node('-', g1, Atom(SP.Num(5)));
    GroupedSnoc(two, [l1, l2], l3);
    assert [l1, l2] + [l3] == [l1, l2, l3];
    var g3 := Node('+', g2, Atom(two));
    GroupedSnoc(two, [l1, l2, l3], l4);
    assert [l1, l2, l3] + [l4] == [l1, l2, l3, l4];
    assert Insert(g3, '^', two) == Node('+', g2, Insert(Atom(two), '^', two));
  }

  /** 2^3^2 groups as 2^(3^2). */
  lemma PowerGroupsRight()
    ensures Grouped(SP.Num(2), [Link('^', SP.Num(3)), Link('^', SP.Num(2))]) ==
      Node('^', Atom(SP.Num(2)), Node('^', Atom(SP.Num(3)), Atom(SP.Num(2))))
  {
    var two, l1, l2 := SP.Num(2), Link('^', SP.Num(3)), Link('^', SP.Num(2));
    GroupedSnoc(two, [], l1);
    assert [] + [l1] == [l1];
    GroupedSnoc(two, [l1], l2);
    assert [l1] + [l2] == [l1, l2];
  }

  // ---- to_postfix of parsing.rs on a chain ---------------------------------------------------

  /** What to_postfix has written once the grouping g is read, apart from its last operand:
      the left operands along the right edge of g, in order. */
  function Written(g: Group): seq<string>
    requires Valid(g)
  {
    match g
    case Atom(_) => []
    case Node(_, l, r) => SP.Tokens(Tree(l)) + Written(r)
  }

  function LastAtom(g: Group): (e: Expr)
    requires Valid(g)
    ensures SP.WellFormed(e)
  {
    match g
    case Atom(e) => e
    case Node(_, _, r) => LastAtom(r)
  }

  /** The operator stack once g is read: the operators along its right edge, the top one
      last. */
  function Stack(g: Group): seq<Operator>
    requires Valid(g)
  {
    match g
    case Atom(_) => []
    case Node(o, _, r) => [SP.ArithOperator(o)] + Stack(r)
  }

  /** Everything before the right edge's operators, once the last operand is flushed. */
  function Pending(g: Group): seq<string>
    requires Valid(g)
  {
    Written(g) + SP.Tokens(LastAtom(g))
  }

  /** The loop state of to_postfix right after the operator that made g, before its
      operand is read. */
  function ReadyState(g: Group): SP.PState
    requires Valid(g)
  {
    SP.PState(SP.Spaced(Written(g)), "", true, false, false, Stack(g))
  }

  /** The loop state of to_postfix once the chain whose grouping is g is read. */
  function ChainState(g: Group): SP.PState
    requires Valid(g)
  {
    SP.After(LastAtom(g), ReadyState(g))
  }

  lemma PendingNode(g: Group)
    requires Valid(g) && g.Node?
    ensures Pending(g) == SP.Tokens(Tree(g.left)) + Pending(g.right)
  {
    Associative(SP.Tokens(Tree(g.left)), Written(g.right), SP.Tokens(LastAtom(g.right)));
  }

  /** Whether the stacked operator o leaves the stack before op. */
  lemma BindsUnlessTighter(o: char, op: char)
    requires SP.IsArith(o) && SP.IsArith(op)
    ensures SP.Binds(SP.ArithOperator(o), Prec(op), op) <==> !Tighter(op, o)
  {
    PrecRange(o);
  }

  /** An operator that leaves the stack before op takes with it those stacked above it
      that bind tighter. */
  lemma BindsUpward(o: char, d: char, op: char)
    requires SP.IsArith(o) && SP.IsArith(d) && SP.IsArith(op) && Tighter(d, o)
    requires SP.Binds(SP.ArithOperator(o), Prec(op), op)
    ensures SP.Binds(SP.ArithOperator(d), Prec(op), op)
  {
    PrecRange(o);
    PrecRange(d);
    PrecRange(op);
  }

  /** Popping over a stack with o at the bottom: the part above o first. */
  lemma {:induction false} PopWhileAbove(res: string, o: Operator, s: seq<Operator>, p: int, item: char)
    ensures SP.PopWhile(res, [o] + s, p, item) ==
      var q := SP.PopWhile(res, s, p, item);
      if q.1 == [] then SP.PopWhile(q.0, [o], p, item) else (q.0, [o] + q.1)
    decreases |s|
  {
    var t := [o] + s;
    if s == [] {
      assert t == [o];
    } else {
      assert SP.Top(t) == SP.Top(s) && SP.Pop(t) == [o] + SP.Pop(s);
      if SP.Binds(SP.Top(s), p, item) {
        PopWhileAbove(res + [SP.Top(s).symbol] + " ", o, SP.Pop(s), p, item);
      }
    }
  }

  /** The output before a node's right edge: its left operand, then the rest. */
  lemma PendingSplit(g: Group, pre: string)
    requires Valid(g) && g.Node?
    ensures pre + SP.Spaced(Pending(g)) == (pre + SP.Spaced(SP.Tokens(Tree(g.left)))) + SP.Spaced(Pending(g.right))
    ensures Stack(g) == [SP.ArithOperator(g.op)] + Stack(g.right)
  {
    var tl, pr := SP.Tokens(Tree(g.left)), Pending(g.right);
    PendingNode(g);
    SP.SpacedConcat(tl, pr);
    Associative(pre, SP.Spaced(tl), SP.Spaced(pr));
  }

  /** The output once a node's operator follows its two operands. */
  lemma NodeWritten(g: Group, pre: string)
    requires Valid(g) && g.Node?
    ensures pre + SP.Spaced(SP.Tokens(Tree(g))) ==
      pre + SP.Spaced(SP.Tokens(Tree(g.left))) + SP.Spaced(SP.Tokens(Tree(g.right))) + [g.op] + " "
  {
    var x, y := SP.Spaced(SP.Tokens(Tree(g.left))), SP.Spaced(SP.Tokens(Tree(g.right)));
    SP.SpacedBin(g.op, Tree(g.left), Tree(g.right));
    AppendOperator(pre, x, y, g.op);
  }

  lemma AppendOperator(a: string, b: string, c: string, o: char)
    ensures a + (b + c + ([o] + " ")) == a + b + c + [o] + " "
  {
  }

  /** An operator that the whole right edge binds before writes all of g out. */
  lemma {:induction false} PopAll(g: Group, pre: string, op: char)
    requires Correct(g) && Valid(g) && SP.IsArith(op)
    requires g.Node? ==> SP.Binds(SP.ArithOperator(g.op), Prec(op), op)
    ensures SP.PopWhile(pre + SP.Spaced(Pending(g)), Stack(g), Prec(op), op) == (pre + SP.Spaced(SP.Tokens(Tree(g))), [])
    decreases g
  {
    match g
    case Atom(e) =>
      assert Pending(g) == SP.Tokens(e);
    case Node(o, l, r) =>
      var O := SP.ArithOperator(o);
      var pre' := pre + SP.Spaced(SP.Tokens(Tree(l)));
      PendingSplit(g, pre);
      if r.Node? {
        BindsUpward(o, r.op, op);
      }
      PopAll(r, pre', op);
      PopWhileAbove(pre' + SP.Spaced(Pending(r)), O, Stack(r), Prec(op), op);
      var q0 := pre' + SP.Spaced(SP.Tokens(Tree(r)));
      assert SP.PopWhile(q0, [O], Prec(op), op) == (q0 + [o] + " ", []) by {
        assert SP.Top([O]) == O && SP.Pop([O]) == [];
      }
      NodeWritten(g, pre);
  }

  /** What the popping loop of the operator arm does to the stack of g: it leaves the
      output and, once op is pushed, the stack of the grouping that op and its operand
      make of g. */
  predicate PopsInto(g: Group, pre: string, op: char, a: Expr)
    requires Valid(g) && SP.IsArith(op) && SP.WellFormed(a)
  {
    var out := SP.PopWhile(pre + SP.Spaced(Pending(g)), Stack(g), Prec(op), op);
    out.0 == pre + SP.Spaced(Written(Insert(g, op, a))) && out.1 + [SP.ArithOperator(op)] == Stack(Insert(g, op, a))
  }

  lemma {:induction false} PopInsert(g: Group, pre: string, op: char, a: Expr)
    requires Correct(g) && Valid(g) && SP.IsArith(op) && SP.WellFormed(a)
    ensures PopsInto(g, pre, op, a)
    decreases g
  {
    if g.Node? && Tighter(op, g.op) {
      PopInsert(g.right, pre + SP.Spaced(SP.Tokens(Tree(g.left))), op, a);
      PopBelowTop(g, pre, op, a);
    } else {
      PopAtTop(g, pre, op, a);
    }
  }

  /** op goes down the right edge past the node's operator, which stays stacked. */
  lemma PopBelowTop(g: Group, pre: string, op: char, a: Expr)
    requires Valid(g) && g.Node? && SP.IsArith(op) && SP.WellFormed(a) && Tighter(op, g.op)
    requires PopsInto(g.right, pre + SP.Spaced(SP.Tokens(Tree(g.left))), op, a)
    ensures PopsInto(g, pre, op, a)
  {
    var o, l, r := g.op, g.left, g.right;
    var O := SP.ArithOperator(o);
    var pre' := pre + SP.Spaced(SP.Tokens(Tree(l)));
    BindsUnlessTighter(o, op);
    PendingSplit(g, pre);
    var q := SP.PopWhile(pre' + SP.Spaced(Pending(r)), Stack(r), Prec(op), op);
    PopWhileAbove(pre' + SP.Spaced(Pending(r)), O, Stack(r), Prec(op), op);
    if q.1 == [] {
      assert SP.PopWhile(q.0, [O], Prec(op), op) == (q.0, [O]) by {
        assert SP.Top([O]) == O;
      }
    }
    InsertBelowTop(g, pre, op, a);
    Associative([O], q.1, [SP.ArithOperator(op)]);
  }

  /** The output and stack of a grouping whose right operand op went into. */
  lemma InsertBelowTop(g: Group, pre: string, op: char, a: Expr)
    requires Valid(g) && g.Node? && SP.IsArith(op) && SP.WellFormed(a) && Tighter(op, g.op)
    ensures pre + SP.Spaced(Written(Insert(g, op, a))) ==
      (pre + SP.Spaced(SP.Tokens(Tree(g.left)))) + SP.Spaced(Written(Insert(g.right, op, a)))
    ensures Stack(Insert(g, op, a)) == [SP.ArithOperator(g.op)] + Stack(Insert(g.right, op, a))
  {
    var tl, r' := SP.Tokens(Tree(g.left)), Insert(g.right, op, a);
    assert Insert(g, op, a) == Node(g.op, g.left, r');
    SP.SpacedConcat(tl, Written(r'));
    Associative(pre, SP.Spaced(tl), SP.Spaced(Written(r')));
  }

  /** op takes all of g as its left operand: the whole right edge is popped. */
  lemma PopAtTop(g: Group, pre: string, op: char, a: Expr)
    requires Correct(g) && Valid(g) && SP.IsArith(op) && SP.WellFormed(a)
    requires g.Node? ==> !Tighter(op, g.op)
    ensures PopsInto(g, pre, op, a)
  {
    var i := Insert(g, op, a);
    assert i == Node(op, g, Atom(a));
    if g.Node? {
      BindsUnlessTighter(g.op, op);
    }
    PopAll(g, pre, op);
    assert Written(i) == SP.Tokens(Tree(g)) + [] == SP.Tokens(Tree(g));
    assert Stack(i) == [SP.ArithOperator(op)] + [] == [] + [SP.ArithOperator(op)];
  }

  lemma AfterOfSame(e: Expr, s1: SP.PState, s2: SP.PState)
    requires s1.result == s2.result && s1.opers == s2.opers
    ensures SP.After(e, s1) == SP.After(e, s2)
  {
    match e
    case Num(_) =>
    case Bin(_, _, _) =>
  }

  /** The flush of the operand last read. */
  lemma FlushChain(g: Group)
    requires Valid(g)
    ensures SP.Flush(ChainState(g).result, ChainState(g).prevNum) == Ok(SP.Spaced(Pending(g)))
    ensures !ChainState(g).firstChar && !ChainState(g).prevWasOper && ChainState(g).opers == Stack(g)
  {
    SP.FlushAfter(LastAtom(g), ReadyState(g));
    SP.SpacedConcat(Written(g), SP.Tokens(LastAtom(g)));
    match LastAtom(g)
    case Num(_) =>
    case Bin(_, _, _) =>
  }

  /** The operator arm on a chain read so far. */
  lemma OperatorIntoChain(g: Group, op: char, a: Expr, k: string)
    requires Correct(g) && Valid(g) && SP.IsArith(op) && SP.WellFormed(a)
    ensures SP.Step(ChainState(g), op, k) == Ok(ReadyState(Insert(g, op, a)))
  {
    var st := ChainState(g);
    var res := SP.Spaced(Pending(g));
    FlushChain(g);
    PopInsert(g, "", op, a);
    assert "" + res == res;
    var out := SP.PopWhile(res, Stack(g), Prec(op), op);
    SP.OperatorStepIs(st, op, k, res, out);
    assert "" + SP.Spaced(Written(Insert(g, op, a))) == SP.Spaced(Written(Insert(g, op, a)));
  }

  lemma LastAtomOfInsert(g: Group, op: char, a: Expr)
    requires Valid(g) && SP.IsArith(op) && SP.WellFormed(a)
    ensures LastAtom(Insert(g, op, a)) == a
    decreases g
  {
    match g
    case Atom(_) =>
    case Node(o, l, r) =>
      if Tighter(op, o) {
        LastAtomOfInsert(r, op, a);
      }
  }

  lemma ChainTextSnoc(first: Expr, links: seq<Link>, rest: string)
    requires links != []
    ensures ChainText(first, links) + rest ==
      ChainText(first, links[..|links| - 1]) + ([links[|links| - 1].op] + (SP.Infix(links[|links| - 1].operand) + rest))
  {
  }

  lemma LinksInit(links: seq<Link>)
    requires LinksOk(links) && links != []
    ensures LinksOk(links[..|links| - 1])
    ensures SP.IsArith(links[|links| - 1].op) && SP.WellFormed(links[|links| - 1].operand)
  {
  }

  /** Reading a chain from the start leaves to_postfix in the state of its grouping. */
  lemma {:induction false} RunChain(first: Expr, links: seq<Link>, rest: string, k: string)
    requires SP.WellFormed(first) && LinksOk(links)
    ensures SP.Run(ChainText(first, links) + rest, SP.Start, k) == SP.Run(rest, ChainState(Grouped(first, links)), k)
    decreases |links|
  {
    if links == [] {
      SP.RunInfix(first, rest, SP.Start, k);
      AfterOfSame(first, SP.Start, ReadyState(Atom(first)));
    } else {
      var init, last := links[..|links| - 1], links[|links| - 1];
      LinksInit(links);
      var g0 := Grouped(first, init);
      var op, a := last.op, last.operand;
      var g1 := Insert(g0, op, a);
      ChainTextSnoc(first, links, rest);
      RunChain(first, init, [op] + (SP.Infix(a) + rest), k);
      GroupedCorrect(first, init);
      OperatorIntoChain(g0, op, a, k);
      SP.RunCons(ChainState(g0), op, SP.Infix(a) + rest, k, ReadyState(g1));
      SP.RunInfix(a, rest, ReadyState(g1), k);
      LastAtomOfInsert(g0, op, a);
    }
  }

  /** The closing loop over a stack with o at the bottom: the part above o first. */
  lemma {:induction false} FlushAllAbove(res: string, o: Operator, s: seq<Operator>)
    ensures SP.FlushAll(res, [o] + s) == if s == [] then res + [o.symbol] else SP.FlushAll(res, s) + " " + [o.symbol]
    decreases |s|
  {
    var t := [o] + s;
    if s == [] {
      assert t == [o];
      SP.FlushAllOne(res, o);
    } else {
      assert SP.Top(t) == SP.Top(s) && SP.Pop(t) == [o] + SP.Pop(s) && |t| != 1;
      var res' := res + [SP.Top(s).symbol] + " ";
      FlushAllAbove(res', o, SP.Pop(s));
      if SP.Pop(s) == [] {
        assert |s| == 1;
        assert SP.FlushAll(res, s) == SP.FlushAll(res + [SP.Top(s).symbol] + "", []);
        assert res + [SP.Top(s).symbol] + "" + " " + [o.symbol] == res' + [o.symbol];
      }
    }
  }

  /** The closing loop writes the right edge's operators, top first: all of g is then
      written, but for the space after its last token. */
  lemma {:induction false} FlushSpine(g: Group, pre: string)
    requires Valid(g) && g.Node?
    ensures SP.FlushAll(pre + SP.Spaced(Pending(g)), Stack(g)) + " " == pre + SP.Spaced(SP.Tokens(Tree(g)))
    decreases g
  {
    var o, l, r := g.op, g.left, g.right;
    var pre' := pre + SP.Spaced(SP.Tokens(Tree(l)));
    PendingSplit(g, pre);
    FlushAllAbove(pre' + SP.Spaced(Pending(r)), SP.ArithOperator(o), Stack(r));
    NodeWritten(g, pre);
    if r.Node? {
      FlushSpine(r, pre');
    } else {
      assert Pending(r) == SP.Tokens(Tree(r));
    }
  }

  /** The end of the input after a chain: the postfix tokens of its grouping, joined by
      single spaces. */
  lemma FinishChain(g: Group)
    requires Correct(g) && Valid(g)
    ensures SP.Finish(ChainState(g)) == Ok(SP.Joined(SP.Tokens(Tree(g))))
  {
    var res := SP.Spaced(Pending(g));
    var ts := SP.Tokens(Tree(g));
    FlushChain(g);
    SP.TokensArePlain(Tree(g));
    if g.Atom? {
      assert Pending(g) == ts;
      SP.TrimSpaced(ts);
      SP.FinishIs(ChainState(g), res, SP.Joined(ts));
    } else {
      SpineJoined(g);
      SP.FinishIs(ChainState(g), res, SP.Joined(ts));
    }
  }

  /** The closing loop on a node's right edge writes its tokens joined by single spaces. */
  lemma SpineJoined(g: Group)
    requires Valid(g) && g.Node?
    ensures Trim(SP.FlushAll(SP.Spaced(Pending(g)), Stack(g))) == SP.Joined(SP.Tokens(Tree(g)))
  {
    var res := SP.Spaced(Pending(g));
    var ts := SP.Tokens(Tree(g));
    var x := SP.FlushAll(res, Stack(g));
    FlushSpine(g, "");
    assert "" + res == res && "" + SP.Spaced(ts) == SP.Spaced(ts);
    SP.TokensArePlain(Tree(g));
    SP.SpacedJoined(ts);
    DropSpace(x, SP.Joined(ts));
    JoinedIsTrimmed(ts);
  }

  lemma DropSpace(x: string, y: string)
    requires x + " " == y + " "
    ensures x == y
  {
    assert x == (x + " ")[..|x|];
  }

  lemma JoinedIsTrimmed(ts: seq<string>)
    requires ts != [] && forall i :: 0 <= i < |ts| ==> SP.Plain(ts[i])
    ensures Trim(SP.Joined(ts)) == SP.Joined(ts)
  {
    SP.JoinedEnds(ts);
    TrimOfTrimmed(SP.Joined(ts));
  }

  /** A chain holds only the brackets of its operands, and those balance. */
  lemma {:induction false} ChainBalanced(first: Expr, links: seq<Link>)
    requires SP.WellFormed(first) && LinksOk(links)
    ensures Balanced(ChainText(first, links))
    decreases |links|
  {
    SP.InfixBalanced(first);
    if links != [] {
      var init, last := links[..|links| - 1], links[|links| - 1];
      LinksInit(links);
      ChainBalanced(first, init);
      SP.InfixBalanced(last.operand);
      SP.BalancedAround(last.op, ChainText(first, init), SP.Infix(last.operand));
      Associative(ChainText(first, init), [last.op], SP.Infix(last.operand));
    }
  }

  /** to_postfix of a chain writes the postfix tokens of its grouping, whatever the
      constant is written as. */
  lemma PostfixWithOfChain(first: Expr, links: seq<Link>, k: string)
    requires SP.WellFormed(first) && LinksOk(links)
    ensures SP.PostfixWith(ChainText(first, links), k) == Ok(SP.Joined(SP.Tokens(Tree(Grouped(first, links)))))
  {
    var g := Grouped(first, links);
    ChainBalanced(first, links);
    RunChain(first, links, [], k);
    assert ChainText(first, links) + [] == ChainText(first, links);
    GroupedCorrect(first, links);
    FinishChain(g);
  }

  /** The string pipeline on an unbracketed chain: to_postfix writes the postfix of the
      standard grouping (in both versions, as no constant occurs), and evaluate_postfix
      computes that grouping's value. */
  lemma StringChainsFollowPrecedence(first: Expr, links: seq<Link>, pow: (real, real) -> real)
    requires SP.WellFormed(first) && LinksOk(links)
    ensures SP.Postfix(ChainText(first, links)) == Ok(SP.Joined(SP.Tokens(Tree(Grouped(first, links)))))
    ensures SP.PostfixAsWritten(ChainText(first, links)) == SP.Postfix(ChainText(first, links))
    ensures SP.Evaluation(SP.Postfix(ChainText(first, links)).value, pow) == SP.Value(Tree(Grouped(first, links)), pow)
  {
    PostfixWithOfChain(first, links, SP.SpacedConstant);
    PostfixWithOfChain(first, links, SP.Constant);
    SP.EvaluationOfTokens(Tree(Grouped(first, links)), pow);
  }

  // ---- infix_to_postfix of ops/parsing.rs on a chain, corrected ------------------------------

  /** The elements infix_to_postfix has written once the grouping g is read, apart from
      its last operand. */
  function WrittenElements(g: Group): seq<EP.Element>
    requires Valid(g)
  {
    match g
    case Atom(_) => []
    case Node(_, l, r) => EP.Elements(Tree(l)) + WrittenElements(r)
  }

  function PendingElements(g: Group): seq<EP.Element>
    requires Valid(g)
  {
    WrittenElements(g) + EP.Elements(LastAtom(g))
  }

  function ReadyEState(g: Group): EP.EState
    requires Valid(g)
  {
    EP.EState(WrittenElements(g), "", true, false, false, Stack(g))
  }

  function ChainEState(g: Group): EP.EState
    requires Valid(g)
  {
    EP.After(LastAtom(g), ReadyEState(g))
  }

  lemma PendingElementsSplit(g: Group, pre: seq<EP.Element>)
    requires Valid(g) && g.Node?
    ensures pre + PendingElements(g) == (pre + EP.Elements(Tree(g.left))) + PendingElements(g.right)
  {
    var el, wr, lr := EP.Elements(Tree(g.left)), WrittenElements(g.right), EP.Elements(LastAtom(g.right));
    Associative(el, wr, lr);
    Associative(pre, el, wr + lr);
  }

  lemma NodeElements(g: Group, pre: seq<EP.Element>)
    requires Valid(g) && g.Node?
    ensures pre + EP.Elements(Tree(g)) ==
      pre + EP.Elements(Tree(g.left)) + EP.Elements(Tree(g.right)) + [EP.Oper(SP.ArithOperator(g.op))]
  {
    var x, y := EP.Elements(Tree(g.left)), EP.Elements(Tree(g.right));
    Associative(pre, x + y, [EP.Oper(SP.ArithOperator(g.op))]);
    Associative(pre, x, y);
  }

  /** The corrected popping loop over a stack with o at the bottom: the part above o
      first. */
  lemma {:induction false} PopElementsAbove(res: seq<EP.Element>, o: Operator, s: seq<Operator>, p: int, item: char)
    ensures EP.PopWhile(res, [o] + s, p, item) ==
      var q := EP.PopWhile(res, s, p, item);
      if q.1 == [] then EP.PopWhile(q.0, [o], p, item) else (q.0, [o] + q.1)
    decreases |s|
  {
    var t := [o] + s;
    if s == [] {
      assert t == [o];
    } else {
      assert SP.Top(t) == SP.Top(s) && SP.Pop(t) == [o] + SP.Pop(s);
      if SP.Binds(SP.Top(s), p, item) {
        PopElementsAbove(res + [EP.Oper(SP.Top(s))], o, SP.Pop(s), p, item);
      }
    }
  }

  lemma {:induction false} PopAllElements(g: Group, pre: seq<EP.Element>, op: char)
    requires Correct(g) && Valid(g) && SP.IsArith(op)
    requires g.Node? ==> SP.Binds(SP.ArithOperator(g.op), Prec(op), op)
    ensures EP.PopWhile(pre + PendingElements(g), Stack(g), Prec(op), op) == (pre + EP.Elements(Tree(g)), [])
    decreases g
  {
    match g
    case Atom(e) =>
      assert PendingElements(g) == EP.Elements(e);
    case Node(o, l, r) =>
      var O := SP.ArithOperator(o);
      var pre' := pre + EP.Elements(Tree(l));
      PendingElementsSplit(g, pre);
      if r.Node? {
        BindsUpward(o, r.op, op);
      }
      PopAllElements(r, pre', op);
      PopElementsAbove(pre' + PendingElements(r), O, Stack(r), Prec(op), op);
      var q0 := pre' + EP.Elements(Tree(r));
      assert EP.PopWhile(q0, [O], Prec(op), op) == (q0 + [EP.Oper(O)], []) by {
        assert SP.Top([O]) == O && SP.Pop([O]) == [];
      }
      NodeElements(g, pre);
  }

  /** The corrected popping loop of the operator arm on the stack of g. */
  predicate PopsElementsInto(g: Group, pre: seq<EP.Element>, op: char, a: Expr)
    requires Valid(g) && SP.IsArith(op) && SP.WellFormed(a)
  {
    var out := EP.PopWhile(pre + PendingElements(g), Stack(g), Prec(op), op);
    out.0 == pre + WrittenElements(Insert(g, op, a)) && out.1 + [SP.ArithOperator(op)] == Stack(Insert(g, op, a))
  }

  lemma {:induction false} PopElementsInsert(g: Group, pre: seq<EP.Element>, op: char, a: Expr)
    requires Correct(g) && Valid(g) && SP.IsArith(op) && SP.WellFormed(a)
    ensures PopsElementsInto(g, pre, op, a)
    decreases g
  {
    if g.Node? && Tighter(op, g.op) {
      PopElementsInsert(g.right, pre + EP.Elements(Tree(g.left)), op, a);
      PopElementsBelowTop(g, pre, op, a);
    } else {
      PopElementsAtTop(g, pre, op, a);
    }
  }

  lemma PopElementsBelowTop(g: Group, pre: seq<EP.Element>, op: char, a: Expr)
    requires Valid(g) && g.Node? && SP.IsArith(op) && SP.WellFormed(a) && Tighter(op, g.op)
    requires PopsElementsInto(g.right, pre + EP.Elements(Tree(g.left)), op, a)
    ensures PopsElementsInto(g, pre, op, a)
  {
    var o, l, r := g.op, g.left, g.right;
    var O := SP.ArithOperator(o);
    var pre' := pre + EP.Elements(Tree(l));
    BindsUnlessTighter(o, op);
    PendingElementsSplit(g, pre);
    var q := EP.PopWhile(pre' + PendingElements(r), Stack(r), Prec(op), op);
    PopElementsAbove(pre' + PendingElements(r), O, Stack(r), Prec(op), op);
    if q.1 == [] {
      assert EP.PopWhile(q.0, [O], Prec(op), op) == (q.0, [O]) by {
        assert SP.Top([O]) == O;
      }
    }
    InsertElementsBelowTop(g, pre, op, a);
    Associative([O], q.1, [SP.ArithOperator(op)]);
  }

  lemma InsertElementsBelowTop(g: Group, pre: seq<EP.Element>, op: char, a: Expr)
    requires Valid(g) && g.Node? && SP.IsArith(op) && SP.WellFormed(a) && Tighter(op, g.op)
    ensures pre + WrittenElements(Insert(g, op, a)) ==
      (pre + EP.Elements(Tree(g.left))) + WrittenElements(Insert(g.right, op, a))
    ensures Stack(Insert(g, op, a)) == [SP.ArithOperator(g.op)] + Stack(Insert(g.right, op, a))
  {
    var r' := Insert(g.right, op, a);
    assert Insert(g, op, a) == Node(g.op, g.left, r');
    Associative(pre, EP.Elements(Tree(g.left)), WrittenElements(r'));
  }

  lemma PopElementsAtTop(g: Group, pre: seq<EP.Element>, op: char, a: Expr)
    requires Correct(g) && Valid(g) && SP.IsArith(op) && SP.WellFormed(a)
    requires g.Node? ==> !Tighter(op, g.op)
    ensures PopsElementsInto(g, pre, op, a)
  {
    var i := Insert(g, op, a);
    assert i == Node(op, g, Atom(a));
    if g.Node? {
      BindsUnlessTighter(g.op, op);
    }
    PopAllElements(g, pre, op);
    assert WrittenElements(i) == EP.Elements(Tree(g)) + [] == EP.Elements(Tree(g));
    assert Stack(i) == [SP.ArithOperator(op)] + [] == [] + [SP.ArithOperator(op)];
  }

  lemma AfterOfSameElements(e: Expr, s1: EP.EState, s2: EP.EState)
    requires SP.WellFormed(e) && s1.elements == s2.elements && s1.opers == s2.opers
    ensures EP.After(e, s1) == EP.After(e, s2)
  {
    match e
    case Num(_) =>
    case Bin(_, _, _) =>
  }

  lemma FlushChainElements(g: Group)
    requires Valid(g)
    ensures EP.FlushExpr(Corrected, ChainEState(g).elements, ChainEState(g).prevExpr) == Ok(PendingElements(g))
    ensures !ChainEState(g).firstChar && !ChainEState(g).prevWasOper && ChainEState(g).opers == Stack(g)
  {
    EP.FlushAfter(Corrected, LastAtom(g), ReadyEState(g));
    match LastAtom(g)
    case Num(_) =>
    case Bin(_, _, _) =>
  }

  lemma OperatorIntoChainElements(g: Group, op: char, a: Expr)
    requires Correct(g) && Valid(g) && SP.IsArith(op) && SP.WellFormed(a)
    ensures EP.Step(Corrected, ChainEState(g), op) == Ok(ReadyEState(Insert(g, op, a)))
  {
    var res := PendingElements(g);
    FlushChainElements(g);
    PopElementsInsert(g, [], op, a);
    assert [] + res == res;
    var out := EP.PopWhile(res, Stack(g), Prec(op), op);
    EP.OperatorStepIs(Corrected, ChainEState(g), op, res, out);
    assert [] + WrittenElements(Insert(g, op, a)) == WrittenElements(Insert(g, op, a));
  }

  /** Reading a chain from the start leaves the corrected infix_to_postfix in the state of
      its grouping. */
  lemma {:induction false} RunChainElements(first: Expr, links: seq<Link>, rest: string)
    requires SP.WellFormed(first) && LinksOk(links)
    ensures EP.Run(Corrected, ChainText(first, links) + rest, EP.Start) ==
            EP.Run(Corrected, rest, ChainEState(Grouped(first, links)))
    decreases |links|
  {
    if links == [] {
      EP.RunInfix(first, rest, EP.Start);
      AfterOfSameElements(first, EP.Start, ReadyEState(Atom(first)));
    } else {
      var init, last := links[..|links| - 1], links[|links| - 1];
      LinksInit(links);
      var g0 := Grouped(first, init);
      var op, a := last.op, last.operand;
      var g1 := Insert(g0, op, a);
      ChainTextSnoc(first, links, rest);
      RunChainElements(first, init, [op] + (SP.Infix(a) + rest));
      GroupedCorrect(first, init);
      OperatorIntoChainElements(g0, op, a);
      EP.RunCons(Corrected, ChainEState(g0), op, SP.Infix(a) + rest, ReadyEState(g1));
      EP.RunInfix(a, rest, ReadyEState(g1));
      LastAtomOfInsert(g0, op, a);
    }
  }

  /** Emptying a stack with o at the bottom: the part above o first. */
  lemma {:induction false} DrainAbove(o: Operator, s: seq<Operator>)
    ensures EP.Drain([o] + s) == EP.Drain(s) + [EP.Oper(o)]
    decreases |s|
  {
    var t := [o] + s;
    if s == [] {
      assert t == [o] && SP.Top(t) == o && SP.Pop(t) == [];
    } else {
      assert SP.Top(t) == SP.Top(s) && SP.Pop(t) == [o] + SP.Pop(s);
      DrainAbove(o, SP.Pop(s));
      Associative([EP.Oper(SP.Top(s))], EP.Drain(SP.Pop(s)), [EP.Oper(o)]);
    }
  }

  /** Emptying the stack writes the right edge's operators, top first: all of g is then
      written. */
  lemma {:induction false} DrainSpine(g: Group, pre: seq<EP.Element>)
    requires Valid(g)
    ensures pre + PendingElements(g) + EP.Drain(Stack(g)) == pre + EP.Elements(Tree(g))
    decreases g
  {
    match g
    case Atom(e) =>
      assert PendingElements(g) == EP.Elements(e) && Stack(g) == [];
      assert EP.Drain([]) == [];
    case Node(o, l, r) =>
      var pre' := pre + EP.Elements(Tree(l));
      PendingElementsSplit(g, pre);
      DrainAbove(SP.ArithOperator(o), Stack(r));
      DrainSpine(r, pre');
      Associative(pre' + PendingElements(r), EP.Drain(Stack(r)), [EP.Oper(SP.ArithOperator(o))]);
      NodeElements(g, pre);
  }

  lemma FinishChainElements(g: Group)
    requires Valid(g)
    ensures EP.Finish(Corrected, ChainEState(g)) == Ok(EP.Elements(Tree(g)))
  {
    FlushChainElements(g);
    EP.FinishIs(Corrected, ChainEState(g), PendingElements(g));
    DrainSpine(g, []);
    assert [] + PendingElements(g) == PendingElements(g) && [] + EP.Elements(Tree(g)) == EP.Elements(Tree(g));
  }

  /** The corrected expression pipeline on an unbracketed chain: infix_to_postfix writes the
      postfix elements of the standard grouping, and evaluate computes that grouping's
      value (None where an operator fails). */
  lemma ExprChainsFollowPrecedence(first: Expr, links: seq<Link>, vars: EP.Storage, env: map<string, VariableType>)
    requires SP.WellFormed(first) && LinksOk(links) && EP.StorageValid(vars, env)
    ensures EP.Postfix(ChainText(first, links)) == Ok(EP.Elements(Tree(Grouped(first, links))))
    ensures EP.Evaluation(EP.Postfix(ChainText(first, links)).value, vars, env) ==
      var v := EP.ValueOf(Tree(Grouped(first, links)));
      if v.Ok? then v.value else NoneValue
  {
    var g := Grouped(first, links);
    ChainBalanced(first, links);
    RunChainElements(first, links, []);
    assert ChainText(first, links) + [] == ChainText(first, links);
    FinishChainElements(g);
    EP.EvaluationOfElements(Tree(g), vars, env);
  }
}
