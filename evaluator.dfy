/** The postfix evaluator: a value stack, top at the END of the sequence.
    Values are exact reals; IEEE-754 rounding is not modelled. */
module Evaluator {
  import opened Tokens

  /** One operator applied to its left operand a and right operand b: the
      `match op` that computes the value to push. */
  function Apply(op: char, a: real, b: real): Result<real> {
    match op
    case '+' => Ok(a + b)
    case '-' => Ok(a - b)
    case '*' => Ok(a * b)
    case '/' => if b == 0.0 then Err(DivByZero) else Ok(a / b)
    case _ => Err(UnknownOp(op))
  }

  /** One token against the stack: a number is pushed; an operator pops b
      (the top) then a, and pushes `a op b`; a bracket is refused. */
  function ExecToken(stack: seq<real>, t: Token): Result<seq<real>> {
    match t
    case Number(v) => Ok(stack + [v])
    case Operator(op) =>
      if |stack| < 2 then Err(TooFewOperands)
      else
        var n := |stack|;
        var x :- Apply(op, stack[n - 2], stack[n - 1]);
        Ok(stack[..n - 2] + [x])
    case _ => Err(BadToken)
  }

  /** The stack after the tokens ts, starting from stack, or the first error. */
  function Exec(stack: seq<real>, ts: seq<Token>): Result<seq<real>> {
    if ts == [] then Ok(stack)
    else
      var before :- Exec(stack, ts[..|ts| - 1]);
      ExecToken(before, ts[|ts| - 1])
  }

  /** The evaluator as a function of its input: run every token from an
      empty stack, then demand exactly one value. */
  function EvalRpn(rpn: seq<Token>): Result<real> {
    var stack :- Exec([], rpn);
    if |stack| != 1 then Err(BadExpr) else Ok(stack[0])
  }

  /** The source's evaluator: a for loop over the tokens with an explicit
      value stack. */
  method EvaluateRpn(rpn: seq<Token>) returns (r: Result<real>)
    ensures r == EvalRpn(rpn)
  {
    var stack: seq<real> := [];
    for i := 0 to |rpn|
      invariant Exec([], rpn[..i]) == Ok(stack)
    {
      assert rpn[..i + 1][..i] == rpn[..i];
      assert Exec([], rpn[..i + 1]) == ExecToken(stack, rpn[i]);
      ghost var failed := ExecToken(stack, rpn[i]).Err?;
      if failed {
        ExecPrefixErr([], rpn, i + 1);
      }
      match rpn[i] {
        case Number(num) =>
          stack := stack + [num];
        case Operator(op) =>
          if |stack| < 2 {
            return Err(TooFewOperands);
          }
          ghost var before := stack;
          var b := stack[|stack| - 1];
          stack := stack[..|stack| - 1];
          var a := stack[|stack| - 1];
          stack := stack[..|stack| - 1];
          var applied := Apply(op, a, b);
          if applied.Err? {
            return Err(applied.error);
          }
          var result := applied.value;
          assert before == stack + [a, b];
          assert before[..|before| - 2] == stack;
          assert ExecToken(before, rpn[i]) == Ok(stack + [result]);
          stack := stack + [result];
        case _ =>
          return Err(BadToken);
      }
    }
    assert rpn[..|rpn|] == rpn;
    if |stack| != 1 {
      return Err(BadExpr);
    }
    r := Ok(stack[0]);
  }

  /** An error in a prefix is the error of the whole run. */
  lemma {:induction false} ExecPrefixErr(stack: seq<real>, ts: seq<Token>, i: nat)
    requires i <= |ts|
    requires Exec(stack, ts[..i]).Err?
    ensures Exec(stack, ts) == Exec(stack, ts[..i])
    decreases |ts| - i
  {
    if i < |ts| {
      var n := |ts| - 1;
      assert ts[..n][..i] == ts[..i];
      ExecPrefixErr(stack, ts[..n], i);
    } else {
      assert ts[..i] == ts;
    }
  }

  // ---------------------------------------------------------------------
  // What the evaluator promises

  /** Numbers seen minus operators seen: the stack height after ts. */
  function Height(ts: seq<Token>): int {
    |Numbers(ts)| - |Operators(ts)|
  }

  /** A postfix sequence the evaluator can run to one value: no brackets,
      two values under every operator, and one value at the end. */
  ghost predicate WellShaped(rpn: seq<Token>) {
    && (forall k :: 0 <= k < |rpn| ==> !IsParen(rpn[k]))
    && (forall k :: 0 <= k < |rpn| && rpn[k].Operator? ==> Height(rpn[..k]) >= 2)
    && Height(rpn) == 1
  }

  lemma HeightSnoc(ts: seq<Token>, t: Token)
    ensures Height(ts + [t]) == Height(ts) + (if t.Number? then 1 else if t.Operator? then -1 else 0)
  {
    NumbersAppend(ts, [t]);
    OperatorsAppend(ts, [t]);
  }

  /** The stack invariant: after any run that succeeds, the stack has grown
      by the numbers seen minus the operators seen. */
  lemma {:induction false} ExecHeight(stack: seq<real>, ts: seq<Token>)
    requires Exec(stack, ts).Ok?
    ensures |Exec(stack, ts).value| == |stack| + Height(ts)
  {
    if ts != [] {
      var n := |ts| - 1;
      ExecHeight(stack, ts[..n]);
      HeightSnoc(ts[..n], ts[n]);
      assert ts[..n] + [ts[n]] == ts;
    }
  }

  /** A run that succeeds saw no bracket and never an operator with fewer
      than two values on the stack. */
  lemma {:induction false} ExecShape(ts: seq<Token>)
    requires Exec([], ts).Ok?
    ensures forall k :: 0 <= k < |ts| ==> !IsParen(ts[k])
    ensures forall k :: 0 <= k < |ts| && ts[k].Operator? ==> Height(ts[..k]) >= 2
  {
    if ts != [] {
      var n := |ts| - 1;
      ExecShape(ts[..n]);
      ExecHeight([], ts[..n]);
      forall k | 0 <= k < n
        ensures ts[k] == ts[..n][k] && ts[..k] == ts[..n][..k]
      {
      }
    }
  }

  /** A run that meets the shape conditions with known operators cannot
      fail, except by dividing by zero. */
  lemma {:induction false} ExecTotal(ts: seq<Token>)
    requires forall k :: 0 <= k < |ts| ==> !IsParen(ts[k])
    requires forall k :: 0 <= k < |ts| && ts[k].Operator? ==> IsOpChar(ts[k].op)
    requires forall k :: 0 <= k < |ts| && ts[k].Operator? ==> Height(ts[..k]) >= 2
    ensures Exec([], ts).Ok? || Exec([], ts) == Err(DivByZero)
  {
    if ts != [] {
      var n := |ts| - 1;
      forall k | 0 <= k < n
        ensures ts[k] == ts[..n][k] && ts[..k] == ts[..n][..k]
      {
      }
      ExecTotal(ts[..n]);
      if Exec([], ts[..n]).Ok? {
        ExecHeight([], ts[..n]);
      }
    }
  }

  /** The evaluator succeeds only on well-shaped input, and then returns
      the one value left on the stack. Conversely well-shaped input with
      known operators fails at most by a division by zero. */
  lemma EvalRpnShape(rpn: seq<Token>)
    ensures EvalRpn(rpn).Ok? ==> WellShaped(rpn) && Exec([], rpn) == Ok([EvalRpn(rpn).value])
    ensures WellShaped(rpn) && (forall k :: 0 <= k < |rpn| && rpn[k].Operator? ==> IsOpChar(rpn[k].op)) ==>
              EvalRpn(rpn).Ok? || EvalRpn(rpn) == Err(DivByZero)
  {
    if EvalRpn(rpn).Ok? {
      ExecShape(rpn);
      ExecHeight([], rpn);
      var st := Exec([], rpn).value;
      assert st == [st[0]];
    }
    if WellShaped(rpn) && (forall k :: 0 <= k < |rpn| && rpn[k].Operator? ==> IsOpChar(rpn[k].op)) {
      ExecTotal(rpn);
      if Exec([], rpn).Ok? {
        ExecHeight([], rpn);
      }
    }
  }

  /** Running p then q is running q from where p left off. */
  lemma {:induction false} ExecAppend(stack: seq<real>, p: seq<Token>, q: seq<Token>)
    ensures Exec(stack, p + q) ==
              match Exec(stack, p)
              case Ok(mid) => Exec(mid, q)
              case Err(e) => Err(e)
  {
    if q == [] {
      assert p + q == p;
    } else {
      var n := |q| - 1;
      ExecAppend(stack, p, q[..n]);
      assert (p + q)[..|p + q| - 1] == p + q[..n];
      assert (p + q)[|p + q| - 1] == q[n];
    }
  }

  /** On bracket-free input whose operators are the four known symbols,
      the only ways a run can fail are too few operands and division by
      zero. */
  lemma {:induction false} ExecErrors(stack: seq<real>, ts: seq<Token>)
    requires forall k :: 0 <= k < |ts| ==> !IsParen(ts[k])
    requires forall k :: 0 <= k < |ts| && ts[k].Operator? ==> IsOpChar(ts[k].op)
    ensures Exec(stack, ts).Err? ==> Exec(stack, ts).error in {TooFewOperands, DivByZero}
  {
    if ts != [] {
      var n := |ts| - 1;
      forall k | 0 <= k < n
        ensures ts[..n][k] == ts[k]
      {
      }
      ExecErrors(stack, ts[..n]);
    }
  }

  /** Values below the part of the stack a run touches are left alone. */
  lemma {:induction false} ExecFrame(below: seq<real>, stack: seq<real>, ts: seq<Token>)
    requires Exec(stack, ts).Ok?
    ensures Exec(below + stack, ts) == Ok(below + Exec(stack, ts).value)
  {
    if ts != [] {
      var n := |ts| - 1;
      ExecFrame(below, stack, ts[..n]);
      var mid := Exec(stack, ts[..n]).value;
      if ts[n].Number? {
        assert below + mid + [ts[n].value] == below + (mid + [ts[n].value]);
      } else {
        var m := |mid|;
        assert (below + mid)[..|below + mid| - 2] == below + mid[..m - 2];
        assert (below + mid)[|below + mid| - 2] == mid[m - 2];
        assert (below + mid)[|below + mid| - 1] == mid[m - 1];
        var x := Apply(ts[n].op, mid[m - 2], mid[m - 1]).value;
        assert below + mid[..m - 2] + [x] == below + (mid[..m - 2] + [x]);
      }
    } else {
      assert below + stack == below + stack;
    }
  }

  /** Operand order: if p evaluates to a and q to b, then p q op evaluates
      to a op b, so the value popped first is the RIGHT operand; division
      by a zero right operand is an error. */
  lemma EvalRpnCompose(p: seq<Token>, q: seq<Token>, o: char, a: real, b: real)
    requires EvalRpn(p) == Ok(a) && EvalRpn(q) == Ok(b)
    ensures var r := EvalRpn(p + q + [Operator(o)]);
            && (o == '+' ==> r == Ok(a + b))
            && (o == '-' ==> r == Ok(a - b))
            && (o == '*' ==> r == Ok(a * b))
            && (o == '/' ==> r == if b == 0.0 then Err(DivByZero) else Ok(a / b))
            && (!IsOpChar(o) ==> r == Err(UnknownOp(o)))
  {
    EvalRpnShape(p);
    EvalRpnShape(q);
    ExecFrame([a], [], q);
    assert [a] + [] == [a] && [a] + [b] == [a, b];
    ExecAppend([], p, q);
    ExecAppend([], p + q, [Operator(o)]);
    assert [Operator(o)][..0] == [];
    assert Exec([], p + q) == Ok([a, b]);
    assert EvalRpn(p + q + [Operator(o)]) == Apply(o, a, b);
  }
}
