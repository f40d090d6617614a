/** The whole pipeline: text to tokens, tokens to postfix order, postfix
    order to one value, each stage stopping at its first error. */
module Calculator {
  import opened Tokens
  import opened Lexer
  import opened Shunting
  import opened Evaluator
  import opened Infix

  /** The pipeline as a function of the text. */
  function Evaluate(s: string): Result<real> {
    var tokens :- Lex(s);
    var rpn :- ShuntingYard(tokens);
    EvalRpn(rpn)
  }

  /** The source's entry point: the three stage methods chained, the first
      error returned as it is. */
  method EvaluateExpression(s: string) returns (r: Result<real>)
    ensures r == Evaluate(s)
  {
    var tokens :- Tokenize(s);
    var rpn :- ToRpn(tokens);
    r := EvaluateRpn(rpn);
  }

  // ---------------------------------------------------------------------
  // What the pipeline promises

  /** Text that scans to the tokens of a well-formed expression evaluates
      to the value of that expression: the usual precedence, left
      associativity and brackets. */
  lemma EvaluateInfix(s: string, e: Expr)
    requires WellFormed(e) && Lex(s) == Ok(InfixTokens(e))
    ensures Evaluate(s) == Value(e)
  {
    InfixEvaluates(e);
  }

  lemma {:induction false} OperatorsIn(ts: seq<Token>, t: Token)
    ensures t in Operators(ts) <==> t in ts && t.Operator?
  {
    if ts != [] {
      OperatorsIn(ts[1..], t);
    }
  }

  /** Which stage an error comes from: the scanner reports unknown
      characters and bad literals, the converter an unclosed '(', the
      evaluator too few operands, division by zero or a leftover stack.
      The evaluator's arms for a bracket and for an unknown operator
      cannot be reached from text. */
  lemma EvaluateErrors(s: string)
    ensures Lex(s).Err? ==> Evaluate(s) == Err(Lex(s).error)
    ensures Evaluate(s) == Err(Unclosed) <==> Lex(s).Ok? && OpenDepth(Lex(s).value) > 0
    ensures Evaluate(s).Err? && Lex(s).Ok? && OpenDepth(Lex(s).value) == 0 ==>
              Evaluate(s).error in {TooFewOperands, DivByZero, BadExpr}
  {
    if Lex(s).Ok? {
      var ts := Lex(s).value;
      ShuntingYardFailsIff(ts);
      if OpenDepth(ts) == 0 {
        var rpn := ShuntingYard(ts).value;
        ShuntingYardDropsParens(ts);
        ShuntingYardKeepsOperators(ts);
        LexTokensScannable(s);
        forall k | 0 <= k < |rpn| && rpn[k].Operator?
          ensures IsOpChar(rpn[k].op)
        {
          OperatorsIn(rpn, rpn[k]);
          assert rpn[k] in multiset(Operators(ts));
          OperatorsIn(ts, rpn[k]);
          var j :| 0 <= j < |ts| && ts[j] == rpn[k];
          assert Scannable(ts[j]);
        }
        ExecErrors([], rpn);
      }
    }
  }
}
