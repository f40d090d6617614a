/** What the converter and the evaluator compute, stated against a
    reference: expression trees that respect the two precedence tiers and
    left associativity, with their infix token sequence, their postfix
    token sequence and their value. */
module Infix {
  import opened Tokens
  import opened Shunting
  import opened Evaluator

  /** An arithmetic expression: a number, a binary operation, or a
      parenthesised group. */
  datatype Expr =
    | Num(v: real)
    | Bin(op: char, left: Expr, right: Expr)
    | Group(inner: Expr)

  /** How tightly the expression binds at its root: an operation binds as
      its operator, a number or group binds tighter than any operator. */
  function Rank(e: Expr): nat {
    match e
    case Bin(op, _, _) => Precedence(op)
    case _ => 3
  }

  /** A tree whose infix reading is unambiguous without extra brackets:
      a left operand binds at least as tightly as its operator (left
      associativity), a right operand strictly more tightly. */
  predicate WellFormed(e: Expr) {
    match e
    case Num(_) => true
    case Group(i) => WellFormed(i)
    case Bin(op, l, r) =>
      && IsOpChar(op)
      && Rank(l) >= Precedence(op)
      && Rank(r) > Precedence(op)
      && WellFormed(l)
      && WellFormed(r)
  }

  /** The tokens of e as written. */
  function InfixTokens(e: Expr): seq<Token> {
    match e
    case Num(v) => [Number(v)]
    case Group(i) => [LeftParen] + InfixTokens(i) + [RightParen]
    case Bin(op, l, r) => InfixTokens(l) + [Operator(op)] + InfixTokens(r)
  }

  /** The tokens of e in postfix order. */
  function PostfixTokens(e: Expr): seq<Token> {
    match e
    case Num(v) => [Number(v)]
    case Group(i) => PostfixTokens(i)
    case Bin(op, l, r) => PostfixTokens(l) + PostfixTokens(r) + [Operator(op)]
  }

  /** The value of e, left operand first, failing on a division by zero. */
  function Value(e: Expr): Result<real> {
    match e
    case Num(v) => Ok(v)
    case Group(i) => Value(i)
    case Bin(op, l, r) =>
      var a :- Value(l);
      var b :- Value(r);
      Apply(op, a, b)
  }

  // ---------------------------------------------------------------------
  // The converter on a well-formed expression

  /** The operators of e's right spine, still on the stack once e's tokens
      are read (the root first, i.e. lowest on the stack). */
  function Pending(e: Expr): seq<Token> {
    match e
    case Bin(op, _, r) => [Operator(op)] + Pending(r)
    case _ => []
  }

  /** What has been emitted once e's tokens are read. */
  function Emitted(e: Expr): seq<Token> {
    match e
    case Num(v) => [Number(v)]
    case Group(i) => PostfixTokens(i)
    case Bin(_, l, r) => PostfixTokens(l) + Emitted(r)
  }

  lemma {:induction false} PendingBinds(e: Expr)
    requires WellFormed(e)
    ensures AllOperators(Pending(e))
    ensures forall k :: 0 <= k < |Pending(e)| ==> Precedence(Pending(e)[k].op) >= Rank(e)
  {
    match e {
      case Num(_) =>
      case Group(_) =>
      case Bin(op, l, r) =>
        PendingBinds(r);
        assert Pending(e)[1..] == Pending(r);
    }
  }

  lemma {:induction false} EmittedThenPending(e: Expr)
    ensures Emitted(e) + Reversed(Pending(e)) == PostfixTokens(e)
  {
    match e {
      case Num(_) =>
        assert Reversed(Pending(e)) == [];
      case Group(_) =>
        assert Reversed(Pending(e)) == [];
      case Bin(op, l, r) =>
        EmittedThenPending(r);
        ReversedCons(Operator(op), Pending(r));
    }
  }

  lemma {:induction false} RunFromAppend(st: Shunt, a: seq<Token>, b: seq<Token>)
    ensures RunFrom(st, a + b) == RunFrom(RunFrom(st, a), b)
  {
    if b == [] {
      assert a + b == a;
    } else {
      var n := |b| - 1;
      RunFromAppend(st, a, b[..n]);
      assert (a + b)[..|a + b| - 1] == a + b[..n];
    }
  }

  /** Popping before an operator of precedence p takes exactly the segment
      of operators that bind at least as tightly, down to a stack whose
      top does not. */
  lemma PopHigherExactly(out: seq<Token>, below: seq<Token>, seg: seq<Token>, p: nat)
    requires AllOperators(seg)
    requires forall k :: 0 <= k < |seg| ==> Precedence(seg[k].op) >= p
    requires !TopBinds(below, p)
    ensures PopHigher(Shunt(out, below + seg), p) == Shunt(out + Reversed(seg), below)
  {
    var stack := below + seg;
    var r := PopHigher(Shunt(out, stack), p);
    var m := |r.stack|;
    if below != [] {
      assert stack[|below| - 1] == below[|below| - 1];
    }
    if m > |below| {
      assert false;
    } else if m < |below| {
      assert false;
    }
    assert r.stack == below;
    assert stack[m..] == seg;
  }

  /** A ')' pops exactly the operators above the innermost '('. */
  lemma PopToParenExactly(out: seq<Token>, below: seq<Token>, seg: seq<Token>)
    requires AllOperators(seg)
    ensures PopToParen(Shunt(out, below + [LeftParen] + seg)) == Shunt(out + Reversed(seg), below)
  {
    var stack := below + [LeftParen] + seg;
    assert stack[|below|] == LeftParen;
    var r := PopToParen(Shunt(out, stack));
    var m := |r.stack|;
    if m != |below| {
      assert false;
    }
    assert r.stack == below;
    assert stack[m + 1..] == seg;
  }

  /** Reading the tokens of a well-formed e, from a stack whose top does not
      bind as tightly as e, emits Emitted(e) and leaves Pending(e) on top. */
  lemma {:induction false} ShuntExpr(e: Expr, st: Shunt)
    requires WellFormed(e)
    requires !TopBinds(st.stack, Rank(e))
    ensures RunFrom(st, InfixTokens(e)) == Shunt(st.output + Emitted(e), st.stack + Pending(e))
  {
    match e {
      case Num(v) =>
        RunFromSnoc(st, [], Number(v));
        assert [] + [Number(v)] == [Number(v)];
        assert st.stack + [] == st.stack;
      case Group(i) =>
        ShuntExpr(i, Shunt(st.output, st.stack + [LeftParen]));
        ShuntGroup(i, st);
      case Bin(op, l, r) =>
        ShuntExpr(l, st);
        ShuntBinLeft(op, l, st);
        ShuntExpr(r, Shunt(st.output + PostfixTokens(l), st.stack + [Operator(op)]));
        ShuntBinRight(op, l, r, st);
    }
  }

  /** The '(' case of ShuntExpr, given its claim for the inner expression. */
  lemma ShuntGroup(i: Expr, st: Shunt)
    requires WellFormed(i)
    requires RunFrom(Shunt(st.output, st.stack + [LeftParen]), InfixTokens(i)) ==
             Shunt(st.output + Emitted(i), st.stack + [LeftParen] + Pending(i))
    ensures RunFrom(st, InfixTokens(Group(i))) == Shunt(st.output + PostfixTokens(i), st.stack)
  {
    var inside := Shunt(st.output + Emitted(i), st.stack + [LeftParen] + Pending(i));
    RunFromSnoc(st, [], LeftParen);
    assert [] + [LeftParen] == [LeftParen];
    RunThrough(st, [LeftParen], InfixTokens(i), Shunt(st.output, st.stack + [LeftParen]), inside);
    RunFromSnoc(st, [LeftParen] + InfixTokens(i), RightParen);
    PendingBinds(i);
    PopToParenExactly(st.output + Emitted(i), st.stack, Pending(i));
    EmittedThenPending(i);
    Assoc(st.output, Emitted(i), Reversed(Pending(i)));
  }

  /** The left operand and the operator of a binary expression: the
      operator pops what the left operand left pending. */
  lemma ShuntBinLeft(op: char, l: Expr, st: Shunt)
    requires WellFormed(l) && IsOpChar(op) && Rank(l) >= Precedence(op)
    requires !TopBinds(st.stack, Precedence(op))
    requires RunFrom(st, InfixTokens(l)) == Shunt(st.output + Emitted(l), st.stack + Pending(l))
    ensures RunFrom(st, InfixTokens(l) + [Operator(op)]) ==
            Shunt(st.output + PostfixTokens(l), st.stack + [Operator(op)])
  {
    PendingBinds(l);
    PopHigherExactly(st.output + Emitted(l), st.stack, Pending(l), Precedence(op));
    EmittedThenPending(l);
    Assoc(st.output, Emitted(l), Reversed(Pending(l)));
    RunFromSnoc(st, InfixTokens(l), Operator(op));
    assert Step(RunFrom(st, InfixTokens(l)), Operator(op)) ==
           Shunt(st.output + PostfixTokens(l), st.stack + [Operator(op)]);
  }

  lemma Assoc(a: seq<Token>, b: seq<Token>, c: seq<Token>)
    ensures a + b + c == a + (b + c)
  {
  }

  lemma RunThrough(st: Shunt, a: seq<Token>, b: seq<Token>, mid: Shunt, fin: Shunt)
    requires RunFrom(st, a) == mid && RunFrom(mid, b) == fin
    ensures RunFrom(st, a + b) == fin
  {
    RunFromAppend(st, a, b);
  }

  /** The right operand of a binary expression, read above its operator. */
  lemma ShuntBinRight(op: char, l: Expr, r: Expr, st: Shunt)
    requires RunFrom(st, InfixTokens(l) + [Operator(op)]) ==
             Shunt(st.output + PostfixTokens(l), st.stack + [Operator(op)])
    requires RunFrom(Shunt(st.output + PostfixTokens(l), st.stack + [Operator(op)]), InfixTokens(r)) ==
             Shunt(st.output + PostfixTokens(l) + Emitted(r), st.stack + [Operator(op)] + Pending(r))
    ensures RunFrom(st, InfixTokens(Bin(op, l, r))) ==
            Shunt(st.output + Emitted(Bin(op, l, r)), st.stack + Pending(Bin(op, l, r)))
  {
    RunThrough(st, InfixTokens(l) + [Operator(op)], InfixTokens(r),
      Shunt(st.output + PostfixTokens(l), st.stack + [Operator(op)]),
      Shunt(st.output + PostfixTokens(l) + Emitted(r), st.stack + [Operator(op)] + Pending(r)));
    Assoc(st.output, PostfixTokens(l), Emitted(r));
    Assoc(st.stack, [Operator(op)], Pending(r));
  }

  /** The converter turns the infix tokens of a well-formed expression into
      exactly its postfix tokens: precedence and left associativity are
      respected and brackets disappear. */
  lemma ShuntingYardInfix(e: Expr)
    requires WellFormed(e)
    ensures ShuntingYard(InfixTokens(e)) == Ok(PostfixTokens(e))
  {
    var st := RunFrom(Start, InfixTokens(e));
    assert st == Shunt(Emitted(e), Pending(e)) by {
      ShuntExpr(e, Start);
      assert [] + Emitted(e) == Emitted(e) && [] + Pending(e) == Pending(e);
    }
    assert LeftParen !in st.stack by {
      PendingBinds(e);
    }
    assert st.output + Reversed(st.stack) == PostfixTokens(e) by {
      EmittedThenPending(e);
    }
  }

  // ---------------------------------------------------------------------
  // The evaluator on postfix tokens

  /** Running the postfix tokens of e pushes the value of e, or fails with
      the error computing it meets first. */
  lemma {:induction false} ExecPostfix(e: Expr, stack: seq<real>)
    ensures Exec(stack, PostfixTokens(e)) ==
              match Value(e)
              case Ok(v) => Ok(stack + [v])
              case Err(x) => Err(x)
  {
    match e {
      case Num(v) =>
        assert [Number(v)][..0] == [];
      case Group(i) =>
        ExecPostfix(i, stack);
      case Bin(op, l, r) =>
        ExecAppend(stack, PostfixTokens(l) + PostfixTokens(r), [Operator(op)]);
        ExecAppend(stack, PostfixTokens(l), PostfixTokens(r));
        ExecPostfix(l, stack);
        if Value(l).Ok? {
          var a := Value(l).value;
          ExecPostfix(r, stack + [a]);
          if Value(r).Ok? {
            var b := Value(r).value;
            var mid := stack + [a] + [b];
            assert [Operator(op)][..0] == [];
            assert mid[..|mid| - 2] == stack && mid[|mid| - 2] == a && mid[|mid| - 1] == b;
          }
        }
    }
  }

  /** The evaluator gives the postfix tokens of e the value of e. */
  lemma EvalRpnPostfix(e: Expr)
    ensures EvalRpn(PostfixTokens(e)) == Value(e)
  {
    ExecPostfix(e, []);
  }

  /** Conversion then evaluation computes the value of any well-formed
      expression from its infix tokens. */
  lemma InfixEvaluates(e: Expr)
    requires WellFormed(e)
    ensures ShuntingYard(InfixTokens(e)).Ok?
    ensures EvalRpn(ShuntingYard(InfixTokens(e)).value) == Value(e)
  {
    ShuntingYardInfix(e);
    EvalRpnPostfix(e);
  }

  /** Brackets around a well-formed expression change nothing. */
  lemma GroupTransparent(e: Expr)
    requires WellFormed(e)
    ensures ShuntingYard(InfixTokens(Group(e))) == ShuntingYard(InfixTokens(e))
    ensures Value(Group(e)) == Value(e)
  {
    ShuntingYardInfix(e);
    ShuntingYardInfix(Group(e));
  }

  /** A trailing ')' that closes nothing is ignored rather than rejected. */
  lemma StrayCloseAccepted(e: Expr)
    requires WellFormed(e)
    ensures ShuntingYard(InfixTokens(e) + [RightParen]) == Ok(PostfixTokens(e))
  {
    ShuntingYardInfix(e);
    ShuntingYardFailsIff(InfixTokens(e));
    StrayRightParenIgnored(InfixTokens(e));
  }

  /** Two operators around three numbers: the first is emitted before the
      second exactly when it binds at least as tightly, so operators of
      equal rank associate to the left (a-b-c becomes a b - c -). */
  lemma TwoOperators(a: real, o1: char, b: real, o2: char, c: real)
    requires IsOpChar(o1) && IsOpChar(o2)
    ensures Precedence(o1) >= Precedence(o2) ==>
              ShuntingYard([Number(a), Operator(o1), Number(b), Operator(o2), Number(c)]) ==
              Ok([Number(a), Number(b), Operator(o1), Number(c), Operator(o2)])
    ensures Precedence(o1) < Precedence(o2) ==>
              ShuntingYard([Number(a), Operator(o1), Number(b), Operator(o2), Number(c)]) ==
              Ok([Number(a), Number(b), Number(c), Operator(o2), Operator(o1)])
  {
    if Precedence(o1) >= Precedence(o2) {
      var e := Bin(o2, Bin(o1, Num(a), Num(b)), Num(c));
      ShuntingYardInfix(e);
      assert InfixTokens(Bin(o1, Num(a), Num(b))) == [Number(a), Operator(o1), Number(b)];
      assert PostfixTokens(Bin(o1, Num(a), Num(b))) == [Number(a), Number(b), Operator(o1)];
      assert InfixTokens(e) == [Number(a), Operator(o1), Number(b), Operator(o2), Number(c)];
      assert PostfixTokens(e) == [Number(a), Number(b), Operator(o1), Number(c), Operator(o2)];
    } else {
      var e := Bin(o1, Num(a), Bin(o2, Num(b), Num(c)));
      ShuntingYardInfix(e);
      assert InfixTokens(Bin(o2, Num(b), Num(c))) == [Number(b), Operator(o2), Number(c)];
      assert PostfixTokens(Bin(o2, Num(b), Num(c))) == [Number(b), Number(c), Operator(o2)];
      assert InfixTokens(e) == [Number(a), Operator(o1), Number(b), Operator(o2), Number(c)];
      assert PostfixTokens(e) == [Number(a), Number(b), Number(c), Operator(o2), Operator(o1)];
    }
  }
}
