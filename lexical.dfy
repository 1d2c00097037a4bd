/** The two character scanners both parsers share: `is_balanced_string`, a bracket
    matcher over a stack of open brackets, and `is_numeric_string`, the shape check for
    a number literal. parsing.rs and ops/parsing.rs each carry a copy of the first with
    the same behaviour; ops/parsing.rs repeats the loop of the second inside
    `is_numeric_expression`. */
module Lexical {
  import opened Wrappers
  import opened Text
  import Stacks

  predicate IsOpener(c: char) {
    c == '[' || c == '(' || c == '{'
  }

  predicate IsCloser(c: char) {
    c == ']' || c == ')' || c == '}'
  }

  predicate Matches(open: char, close: char) {
    (open == '[' && close == ']') || (open == '(' && close == ')') || (open == '{' && close == '}')
  }

  /** The stack of open brackets after reading s on top of st (innermost last), or None
      once a closer meets an empty stack or an opener of another kind. */
  function Scan(s: string, st: seq<char>): Option<seq<char>>
    decreases |s|
  {
    if s == [] then Some(st)
    else if IsOpener(s[0]) then Scan(s[1..], st + [s[0]])
    else if IsCloser(s[0]) then
      if st == [] || !Matches(st[|st| - 1], s[0]) then None
      else Scan(s[1..], st[..|st| - 1])
    else Scan(s[1..], st)
  }

  /** Every closer matches the kind of the innermost open bracket, and none stay open. */
  predicate Balanced(s: string) {
    Scan(s, []) == Some([])
  }

  /** is_balanced_string: pushes each opener on a Stack<char>, and for each closer peeks
      at the top, checks the pair and pops. */
  method IsBalancedString(s: string) returns (b: bool)
    ensures b == Balanced(s)
  {
    var st := new Stacks.Stack<char>();
    for i := 0 to |s|
      invariant Scan(s[i..], st.data) == Scan(s, [])
    {
      var c := s[i];
      assert s[i..][1..] == s[i + 1..];
      if IsOpener(c) {
        st.Push(c);
      } else if IsCloser(c) {
        var top := st.Peek();
        if top.None? {
          return false;
        }
        if !Matches(top.value, c) {
          return false;
        }
        var popped := st.Pop();
        if popped.Err? {
          return false;
        }
      }
    }
    assert s[|s|..] == [];
    b := st.IsEmpty();
  }

  /** Reading a + b is reading a and then reading b from where a left off. */
  lemma {:induction false} ScanAppend(a: string, b: string, st: seq<char>)
    ensures Scan(a + b, st) == match Scan(a, st) case None => None case Some(t) => Scan(b, t)
    decreases |a|
  {
    if a != [] {
      assert (a + b)[0] == a[0];
      assert (a + b)[1..] == a[1..] + b;
      if IsOpener(a[0]) {
        ScanAppend(a[1..], b, st + [a[0]]);
      } else if IsCloser(a[0]) {
        if st != [] && Matches(st[|st| - 1], a[0]) {
          ScanAppend(a[1..], b, st[..|st| - 1]);
        }
      } else {
        ScanAppend(a[1..], b, st);
      }
    } else {
      assert a + b == b;
    }
  }

  /** Brackets opened beneath st do not disturb a reading that succeeds on st. */
  lemma {:induction false} ScanOnBase(s: string, base: seq<char>, st: seq<char>)
    requires Scan(s, st).Some?
    ensures Scan(s, base + st) == Some(base + Scan(s, st).value)
    decreases |s|
  {
    if s != [] {
      if IsOpener(s[0]) {
        assert base + st + [s[0]] == base + (st + [s[0]]);
        ScanOnBase(s[1..], base, st + [s[0]]);
      } else if IsCloser(s[0]) {
        assert (base + st)[|base + st| - 1] == st[|st| - 1];
        assert (base + st)[..|base + st| - 1] == base + st[..|st| - 1];
        ScanOnBase(s[1..], base, st[..|st| - 1]);
      } else {
        ScanOnBase(s[1..], base, st);
      }
    }
  }

  lemma BalancedConcat(a: string, b: string)
    requires Balanced(a) && Balanced(b)
    ensures Balanced(a + b)
  {
    ScanAppend(a, b, []);
  }

  /** A balanced string inside a matching pair of brackets is balanced. */
  lemma BalancedWrap(open: char, a: string, close: char)
    requires Matches(open, close) && Balanced(a)
    ensures Balanced([open] + a + [close])
  {
    assert [open][1..] == [] && [close][1..] == [];
    var none: seq<char> := [];
    assert none + [open] == [open];
    assert Scan([open], none) == Some([open]);
    assert [open] + [] == [open];
    ScanOnBase(a, [open], []);
    ScanAppend([open], a, []);
    assert Scan([open] + a, []) == Some([open]);
    assert Scan([close], [open]) == Some([]);
    ScanAppend([open] + a, [close], []);
  }

  /** A closer with nothing open, or closing another kind, makes the string unbalanced. */
  lemma UnbalancedCloser(a: string, close: char, b: string)
    requires IsCloser(close)
    requires Scan(a, []).Some? && (Scan(a, []).value == [] ||
               !Matches(Scan(a, []).value[|Scan(a, []).value| - 1], close))
    ensures !Balanced(a + [close] + b)
  {
    ScanAppend(a, [close] + b, []);
    assert a + [close] + b == a + ([close] + b);
    assert ([close] + b)[0] == close;
  }

  // ---- number literals -------------------------------------------------------------------

  /** Two periods, at i and then at j. */
  predicate PeriodPair(s: string, i: int, j: int) {
    0 <= i < j < |s| && s[i] == '.' && s[j] == '.'
  }

  /** A digit at i, a white space at j and a digit at k. */
  predicate DigitSpaceDigit(s: string, i: int, j: int, k: int) {
    0 <= i < j < k < |s| && IsDigit(s[i]) && IsWhitespace(s[j]) && IsDigit(s[k])
  }

  /** The acceptance of is_numeric_string, stated without its flags: only digits, white
      space and periods; at most one period; and no digit after a white space that
      itself follows a digit. */
  predicate NumericShape(s: string) {
    (forall i :: 0 <= i < |s| ==> IsDigit(s[i]) || IsWhitespace(s[i]) || s[i] == '.') &&
    (forall i, j {:trigger PeriodPair(s, i, j)} :: 0 <= i < j < |s| ==> !PeriodPair(s, i, j)) &&
    (forall i, j, k {:trigger DigitSpaceDigit(s, i, j, k)} :: 0 <= i < j < k < |s| ==> !DigitSpaceDigit(s, i, j, k))
  }

  predicate HasPeriod(s: string) {
    exists p :: 0 <= p < |s| && s[p] == '.'
  }

  predicate HasDigit(s: string) {
    exists p :: 0 <= p < |s| && IsDigit(s[p])
  }

  predicate SpaceAfterDigit(s: string) {
    exists p, q :: 0 <= p < q < |s| && IsDigit(s[p]) && IsWhitespace(s[q])
  }

  /** What one more character does to the shape. */
  lemma NumericShapeSnoc(s: string, c: char)
    ensures NumericShape(s + [c]) <==>
      NumericShape(s) && (IsDigit(c) || IsWhitespace(c) || c == '.') &&
      !(c == '.' && HasPeriod(s)) && !(IsDigit(c) && SpaceAfterDigit(s))
  {
    var t := s + [c];
    assert t[|s|] == c;
    assert forall p :: 0 <= p < |s| ==> t[p] == s[p];
    forall i, j | 0 <= i < j < |s|
      ensures PeriodPair(t, i, j) == PeriodPair(s, i, j)
    {
    }
    forall i, j, k | 0 <= i < j < k < |s|
      ensures DigitSpaceDigit(t, i, j, k) == DigitSpaceDigit(s, i, j, k)
    {
    }
    if c == '.' && HasPeriod(s) {
      var p :| 0 <= p < |s| && s[p] == '.';
      assert PeriodPair(t, p, |s|);
    }
    if IsDigit(c) && SpaceAfterDigit(s) {
      var p, q :| 0 <= p < q < |s| && IsDigit(s[p]) && IsWhitespace(s[q]);
      assert DigitSpaceDigit(t, p, q, |s|);
    }
    if NumericShape(s) && (IsDigit(c) || IsWhitespace(c) || c == '.') &&
       !(c == '.' && HasPeriod(s)) && !(IsDigit(c) && SpaceAfterDigit(s)) {
      forall i, j | 0 <= i < j < |t|
        ensures !PeriodPair(t, i, j)
      {
        if j == |s| && c == '.' {
          assert !(s[i] == '.');
        }
      }
      forall i, j, k | 0 <= i < j < k < |t|
        ensures !DigitSpaceDigit(t, i, j, k)
      {
        if k == |s| && IsDigit(c) {
          assert !(IsDigit(s[i]) && IsWhitespace(s[j]));
        }
      }
    }
  }

  /** How the three flags of is_numeric_string grow with one more character. */
  lemma FlagsSnoc(s: string, c: char)
    ensures HasPeriod(s + [c]) <==> HasPeriod(s) || c == '.'
    ensures HasDigit(s + [c]) <==> HasDigit(s) || IsDigit(c)
    ensures SpaceAfterDigit(s + [c]) <==> SpaceAfterDigit(s) || (IsWhitespace(c) && HasDigit(s))
  {
    var t := s + [c];
    assert t[|s|] == c;
    assert forall p :: 0 <= p < |s| ==> t[p] == s[p];
    if SpaceAfterDigit(t) && !SpaceAfterDigit(s) {
      var p, q :| 0 <= p < q < |t| && IsDigit(t[p]) && IsWhitespace(t[q]);
      assert q == |s|;
      assert IsDigit(s[p]);
    }
    if IsWhitespace(c) && HasDigit(s) {
      var p :| 0 <= p < |s| && IsDigit(s[p]);
      assert IsDigit(t[p]) && IsWhitespace(t[|s|]);
    }
  }

  /** Every prefix of a numeric shape is one. */
  lemma NumericShapePrefix(s: string, k: nat)
    requires k <= |s|
    ensures NumericShape(s) ==> NumericShape(s[..k])
  {
    var t := s[..k];
    assert forall p :: 0 <= p < k ==> t[p] == s[p];
    forall i, j | 0 <= i < j < k
      ensures PeriodPair(t, i, j) == PeriodPair(s, i, j)
    {
    }
    forall i, j, l | 0 <= i < j < l < k
      ensures DigitSpaceDigit(t, i, j, l) == DigitSpaceDigit(s, i, j, l)
    {
    }
  }

  /** is_numeric_string: one pass with three flags, none of which is ever reset. */
  method IsNumericString(s: string) returns (b: bool)
    ensures b == NumericShape(s)
  {
    var lastWasNumber, lastWasSpace, hasPeriod := false, false, false;
    for i := 0 to |s|
      invariant NumericShape(s[..i])
      invariant hasPeriod == HasPeriod(s[..i])
      invariant lastWasNumber == HasDigit(s[..i])
      invariant lastWasSpace == SpaceAfterDigit(s[..i])
    {
      var c := s[i];
      assert s[..i + 1] == s[..i] + [c];
      NumericShapeSnoc(s[..i], c);
      FlagsSnoc(s[..i], c);
      if IsDigit(c) {
        if lastWasSpace {
          NumericShapePrefix(s, i + 1);
          return false;
        }
        lastWasNumber := true;
      } else if IsWhitespace(c) {
        if lastWasSpace {
          continue;
        } else if lastWasNumber {
          lastWasSpace := true;
        }
      } else if c == '.' {
        if hasPeriod {
          NumericShapePrefix(s, i + 1);
          return false;
        }
        hasPeriod := true;
      } else {
        NumericShapePrefix(s, i + 1);
        return false;
      }
    }
    assert s[..|s|] == s;
    b := true;
  }
}
