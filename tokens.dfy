/** The values that pass between the three stages of the calculator:
    tokens, errors and the failure-compatible result type. */
module Tokens {

  /** One lexical unit. Numbers carry their exact value (floating-point
      rounding is not modelled); an operator carries its symbol. */
  datatype Token =
    | Number(value: real)
    | Operator(op: char)
    | LeftParen
    | RightParen

  /** One variant per error the pipeline can report, in place of the
      human-readable message text. */
  datatype Error =
    | UnknownChar(ch: char)        // a character the scanner does not recognise
    | BadNumber(literal: string)   // a run of digits and dots that is not a number
    | Unclosed                     // a '(' left on the operator stack at the end
    | TooFewOperands               // an operator met fewer than two values
    | DivByZero                    // a division whose right operand is zero
    | UnknownOp(sym: char)         // an operator symbol the evaluator does not know
    | BadToken                     // a bracket token in postfix input
    | BadExpr                      // the value stack did not end with exactly one value

  datatype Result<T> = Ok(value: T) | Err(error: Error) {
    predicate IsFailure() { Err? }

    function PropagateFailure<U>(): Result<U>
      requires Err?
    {
      Err(error)
    }

    function Extract(): T
      requires Ok?
    {
      value
    }
  }

  datatype Option<T> = None | Some(value: T)

  /** The four operator symbols the scanner turns into Operator tokens. */
  predicate IsOpChar(c: char) {
    c == '+' || c == '-' || c == '*' || c == '/'
  }

  predicate IsParen(t: Token) {
    t.LeftParen? || t.RightParen?
  }

  /** The Number tokens of ts, in order. */
  function Numbers(ts: seq<Token>): (ns: seq<Token>)
    ensures forall k :: 0 <= k < |ns| ==> ns[k].Number?
  {
    if ts == [] then []
    else (if ts[0].Number? then [ts[0]] else []) + Numbers(ts[1..])
  }

  /** The Operator tokens of ts, in order. */
  function Operators(ts: seq<Token>): (os: seq<Token>)
    ensures forall k :: 0 <= k < |os| ==> os[k].Operator?
  {
    if ts == [] then []
    else (if ts[0].Operator? then [ts[0]] else []) + Operators(ts[1..])
  }

  /** The number of LeftParen tokens in ts. */
  function LeftParens(ts: seq<Token>): nat {
    if ts == [] then 0
    else (if ts[0].LeftParen? then 1 else 0) + LeftParens(ts[1..])
  }

  lemma {:induction false} NumbersAppend(a: seq<Token>, b: seq<Token>)
    ensures Numbers(a + b) == Numbers(a) + Numbers(b)
  {
    if a != [] {
      assert (a + b)[0] == a[0] && (a + b)[1..] == a[1..] + b;
      NumbersAppend(a[1..], b);
    } else {
      assert a + b == b;
    }
  }

  lemma {:induction false} OperatorsAppend(a: seq<Token>, b: seq<Token>)
    ensures Operators(a + b) == Operators(a) + Operators(b)
  {
    if a != [] {
      assert (a + b)[0] == a[0] && (a + b)[1..] == a[1..] + b;
      OperatorsAppend(a[1..], b);
    } else {
      assert a + b == b;
    }
  }

  lemma {:induction false} LeftParensAppend(a: seq<Token>, b: seq<Token>)
    ensures LeftParens(a + b) == LeftParens(a) + LeftParens(b)
  {
    if a != [] {
      assert (a + b)[0] == a[0] && (a + b)[1..] == a[1..] + b;
      LeftParensAppend(a[1..], b);
    } else {
      assert a + b == b;
    }
  }
}
