/** Worked inputs: the scanner's tokens for a few texts, and what the whole
    pipeline returns for them. */
module Scenarios {
  import opened Tokens
  import opened Lexer
  import opened Shunting
  import opened Evaluator
  import opened Infix
  import opened Calculator

  // ---------------------------------------------------------------------
  // Scanning one character at a time

  lemma ParseDigit(d: char)
    requires IsDigit(d)
    ensures ParseNumber([d]) == Some(DigitValue(d) as real)
  {
    assert [d][..0] == [] && [d][0] == d;
    assert DigitsValue([d]) == DigitValue(d);
    assert forall i :: 0 <= i < |[d]| ==> IsDigit([d][i]);
  }

  /** A one-digit number at position i. */
  lemma LexDigitAt(s: string, i: nat, rest: seq<Token>)
    requires i < |s| && IsDigit(s[i]) && (i + 1 == |s| || !IsNumChar(s[i + 1]))
    requires Lex(s[i + 1..]) == Ok(rest)
    ensures Lex(s[i..]) == Ok([Number(DigitValue(s[i]) as real)] + rest)
  {
    LexRunAt(s, i, i + 1);
    assert s[i..i + 1] == [s[i]];
    ParseDigit(s[i]);
  }

  /** The tokens of one operator, bracket or space character. */
  function Unit(c: char): seq<Token> {
    if c == '(' then [LeftParen]
    else if c == ')' then [RightParen]
    else if c == ' ' then []
    else [Operator(c)]
  }

  lemma LexUnitAt(s: string, i: nat, rest: seq<Token>)
    requires i < |s| && (IsSymbolChar(s[i]) || s[i] == ' ')
    requires Lex(s[i + 1..]) == Ok(rest)
    ensures Lex(s[i..]) == Ok(Unit(s[i]) + rest)
  {
    LexAt(s, i);
    if s[i] == ' ' {
      assert [] + rest == rest;
    }
  }

  /** A literal d.e of one digit either side of the point at position i. */
  lemma LexDecimalAt(s: string, i: nat, rest: seq<Token>)
    requires i + 2 < |s| && IsDigit(s[i]) && s[i + 1] == '.' && IsDigit(s[i + 2])
    requires i + 3 == |s| || !IsNumChar(s[i + 3])
    requires Lex(s[i + 3..]) == Ok(rest)
    ensures Lex(s[i..]) ==
            Ok([Number((10 * DigitValue(s[i]) + DigitValue(s[i + 2])) as real / 10.0)] + rest)
  {
    LexRunAt(s, i, i + 3);
    assert s[i..i + 3] == [s[i]] + ['.'] + [s[i + 2]];
    ParseDecimal(s[i], s[i + 2]);
  }

  lemma ParseDecimal(d: char, e: char)
    requires IsDigit(d) && IsDigit(e)
    ensures ParseNumber([d] + ['.'] + [e]) == Some((10 * DigitValue(d) + DigitValue(e)) as real / 10.0)
  {
    ParseNumberDecimal([d], [e]);
    var ds := [d] + [e];
    assert ds[..1] == [d] && ds[..1][..0] == [] && ds[1] == e;
    assert DigitsValue([d]) == DigitValue(d);
    assert DigitsValue(ds) == 10 * DigitValue(d) + DigitValue(e);
    assert Pow10(1) == 10;
  }

  /** Two texts that meet outside a number scan to the two token
      sequences one after the other. */
  lemma LexJoin(a: string, b: string, ta: seq<Token>, tb: seq<Token>)
    requires a == [] || b == [] || !IsNumChar(a[|a| - 1]) || !IsNumChar(b[0])
    requires Lex(a) == Ok(ta) && Lex(b) == Ok(tb)
    ensures Lex(a + b) == Ok(ta + tb)
  {
    LexAppend(a, b);
  }

  // ---------------------------------------------------------------------
  // Scanning whole texts

  lemma LexPrecedence(s: string)
    requires |s| == 5 && s[0] == '2' && s[1] == '+' && s[2] == '3' && s[3] == '*' && s[4] == '4'
    ensures Lex(s) == Ok([Number(2.0), Operator('+'), Number(3.0), Operator('*'), Number(4.0)])
  {
    assert DigitValue('2') == 2 && DigitValue('3') == 3 && DigitValue('4') == 4;
    assert s[5..] == [];
    LexDigitAt(s, 4, []);
    LexUnitAt(s, 3, [Number(4.0)] + []);
    LexDigitAt(s, 2, [Operator('*')] + ([Number(4.0)] + []));
    LexUnitAt(s, 1, [Number(3.0)] + ([Operator('*')] + ([Number(4.0)] + [])));
    LexDigitAt(s, 0, [Operator('+')] + ([Number(3.0)] + ([Operator('*')] + ([Number(4.0)] + []))));
    assert s[0..] == s;
    assert [Number(2.0)] + ([Operator('+')] + ([Number(3.0)] + ([Operator('*')] + ([Number(4.0)] + [])))) ==
           [Number(2.0), Operator('+'), Number(3.0), Operator('*'), Number(4.0)];
  }

  lemma LexLeftAssoc(s: string)
    requires |s| == 5 && s[0] == '8' && s[1] == '-' && s[2] == '3' && s[3] == '-' && s[4] == '2'
    ensures Lex(s) == Ok([Number(8.0), Operator('-'), Number(3.0), Operator('-'), Number(2.0)])
  {
    assert DigitValue('8') == 8 && DigitValue('3') == 3 && DigitValue('2') == 2;
    assert s[5..] == [];
    var t4 := [Number(2.0)] + [];
    var t3 := [Operator('-')] + t4;
    var t2 := [Number(3.0)] + t3;
    var t1 := [Operator('-')] + t2;
    LexDigitAt(s, 4, []);
    LexUnitAt(s, 3, t4);
    LexDigitAt(s, 2, t3);
    LexUnitAt(s, 1, t2);
    LexDigitAt(s, 0, t1);
    assert s[0..] == s;
    assert [Number(8.0)] + t1 == [Number(8.0), Operator('-'), Number(3.0), Operator('-'), Number(2.0)];
  }

  lemma LexCloseTimes(s: string)
    requires |s| == 3 && s[0] == ')' && s[1] == '*' && s[2] == '3'
    ensures Lex(s) == Ok([RightParen, Operator('*'), Number(3.0)])
  {
    assert DigitValue('3') == 3;
    assert s[3..] == [];
    var t2 := [Number(3.0)] + [];
    var t1 := [Operator('*')] + t2;
    LexDigitAt(s, 2, []);
    LexUnitAt(s, 1, t2);
    LexUnitAt(s, 0, t1);
    assert s[0..] == s;
    assert [RightParen] + t1 == [RightParen, Operator('*'), Number(3.0)];
  }

  lemma LexBrackets(s: string)
    requires |s| == 7 && s[0] == '(' && s[1] == '1' && s[2] == '+' && s[3] == '2'
    requires s[4] == ')' && s[5] == '*' && s[6] == '3'
    ensures Lex(s) ==
            Ok([LeftParen, Number(1.0), Operator('+'), Number(2.0), RightParen, Operator('*'), Number(3.0)])
  {
    LexUnclosed(s[..4]);
    LexCloseTimes(s[4..]);
    LexJoin(s[..4], s[4..], [LeftParen, Number(1.0), Operator('+'), Number(2.0)],
      [RightParen, Operator('*'), Number(3.0)]);
    assert s[..4] + s[4..] == s;
    assert [LeftParen, Number(1.0), Operator('+'), Number(2.0)] + [RightParen, Operator('*'), Number(3.0)] ==
           [LeftParen, Number(1.0), Operator('+'), Number(2.0), RightParen, Operator('*'), Number(3.0)];
  }

  lemma LexStrayClose(s: string)
    requires |s| == 4 && s[0] == '1' && s[1] == '+' && s[2] == '2' && s[3] == ')'
    ensures Lex(s) == Ok([Number(1.0), Operator('+'), Number(2.0), RightParen])
  {
    assert DigitValue('1') == 1 && DigitValue('2') == 2;
    assert s[4..] == [];
    var t3 := [RightParen] + [];
    var t2 := [Number(2.0)] + t3;
    var t1 := [Operator('+')] + t2;
    LexUnitAt(s, 3, []);
    LexDigitAt(s, 2, t3);
    LexUnitAt(s, 1, t2);
    LexDigitAt(s, 0, t1);
    assert s[0..] == s;
    assert [Number(1.0)] + t1 == [Number(1.0), Operator('+'), Number(2.0), RightParen];
  }

  lemma LexUnclosed(s: string)
    requires |s| == 4 && s[0] == '(' && s[1] == '1' && s[2] == '+' && s[3] == '2'
    ensures Lex(s) == Ok([LeftParen, Number(1.0), Operator('+'), Number(2.0)])
  {
    assert DigitValue('1') == 1 && DigitValue('2') == 2;
    assert s[4..] == [];
    var t3 := [Number(2.0)] + [];
    var t2 := [Operator('+')] + t3;
    var t1 := [Number(1.0)] + t2;
    LexDigitAt(s, 3, []);
    LexUnitAt(s, 2, t3);
    LexDigitAt(s, 1, t2);
    LexUnitAt(s, 0, t1);
    assert s[0..] == s;
    assert [LeftParen] + t1 == [LeftParen, Number(1.0), Operator('+'), Number(2.0)];
  }

  lemma LexDivision(s: string)
    requires |s| == 3 && s[0] == '5' && s[1] == '/' && s[2] == '0'
    ensures Lex(s) == Ok([Number(5.0), Operator('/'), Number(0.0)])
  {
    assert DigitValue('5') == 5 && DigitValue('0') == 0;
    assert s[3..] == [];
    var t2 := [Number(0.0)] + [];
    var t1 := [Operator('/')] + t2;
    LexDigitAt(s, 2, []);
    LexUnitAt(s, 1, t2);
    LexDigitAt(s, 0, t1);
    assert s[0..] == s;
    assert [Number(5.0)] + t1 == [Number(5.0), Operator('/'), Number(0.0)];
  }

  lemma LexTwoNumbers(s: string)
    requires |s| == 3 && s[0] == '1' && s[1] == ' ' && s[2] == '2'
    ensures Lex(s) == Ok([Number(1.0), Number(2.0)])
  {
    assert DigitValue('1') == 1 && DigitValue('2') == 2;
    assert s[3..] == [];
    var t2 := [Number(2.0)] + [];
    var t1 := [] + t2;
    LexDigitAt(s, 2, []);
    LexUnitAt(s, 1, t2);
    LexDigitAt(s, 0, t1);
    assert s[0..] == s;
    assert [Number(1.0)] + t1 == [Number(1.0), Number(2.0)];
  }

  lemma LexPostfix(s: string)
    requires |s| == 5 && s[0] == '1' && s[1] == ' ' && s[2] == '2' && s[3] == ' ' && s[4] == '+'
    ensures Lex(s) == Ok([Number(1.0), Number(2.0), Operator('+')])
  {
    assert DigitValue('1') == 1 && DigitValue('2') == 2;
    assert s[5..] == [];
    var t4 := [Operator('+')] + [];
    var t3 := [] + t4;
    var t2 := [Number(2.0)] + t3;
    var t1 := [] + t2;
    LexUnitAt(s, 4, []);
    LexUnitAt(s, 3, t4);
    LexDigitAt(s, 2, t3);
    LexUnitAt(s, 1, t2);
    LexDigitAt(s, 0, t1);
    assert s[0..] == s;
    assert [Number(1.0)] + t1 == [Number(1.0), Number(2.0), Operator('+')];
  }

  lemma LexLoneOperator(s: string)
    requires |s| == 1 && s[0] == '+'
    ensures Lex(s) == Ok([Operator('+')])
  {
    assert s[1..] == [];
    LexUnitAt(s, 0, []);
    assert s[0..] == s;
    assert [Operator('+')] + [] == [Operator('+')];
  }

  lemma LexUnknown(s: string)
    requires |s| == 3 && s[0] == '1' && s[1] == '+' && s[2] == 'a'
    ensures Lex(s) == Err(UnknownChar('a'))
  {
    assert DigitValue('1') == 1;
    assert s[..2][0] == '1' && s[..2][1] == '+' && s[..2][2..] == [];
    LexUnitAt(s[..2], 1, []);
    LexDigitAt(s[..2], 0, [Operator('+')] + []);
    assert s[..2][0..] == s[..2];
    LexStopsAtUnknown(s, 2);
  }


  lemma LexDecimals(s: string)
    requires |s| == 7 && s[0] == '1' && s[1] == '.' && s[2] == '5' && s[3] == '+'
    requires s[4] == '2' && s[5] == '.' && s[6] == '5'
    ensures Lex(s) == Ok([Number(1.5), Operator('+'), Number(2.5)])
  {
    LexDecimalPlus(s[..4]);
    LexDecimal(s[4..]);
    LexJoin(s[..4], s[4..], [Number(1.5), Operator('+')], [Number(2.5)]);
    assert s[..4] + s[4..] == s;
    assert [Number(1.5), Operator('+')] + [Number(2.5)] == [Number(1.5), Operator('+'), Number(2.5)];
  }

  lemma LexDecimalPlus(s: string)
    requires |s| == 4 && s[0] == '1' && s[1] == '.' && s[2] == '5' && s[3] == '+'
    ensures Lex(s) == Ok([Number(1.5), Operator('+')])
  {
    assert DigitValue('1') == 1 && DigitValue('5') == 5;
    assert s[4..] == [];
    var t1 := [Operator('+')] + [];
    LexUnitAt(s, 3, []);
    LexDecimalAt(s, 0, t1);
    assert s[0..] == s;
    assert [Number(1.5)] + t1 == [Number(1.5), Operator('+')];
  }

  lemma LexDecimal(s: string)
    requires |s| == 3 && s[0] == '2' && s[1] == '.' && s[2] == '5'
    ensures Lex(s) == Ok([Number(2.5)])
  {
    assert DigitValue('2') == 2 && DigitValue('5') == 5;
    assert s[3..] == [];
    LexDecimalAt(s, 0, []);
    assert s[0..] == s;
    assert [Number(2.5)] + [] == [Number(2.5)];
  }

  lemma LexSpaces(s: string)
    requires |s| == 7 && s[0] == ' ' && s[1] == '1' && s[2] == ' ' && s[3] == '+'
    requires s[4] == ' ' && s[5] == '2' && s[6] == ' '
    ensures Lex(s) == Ok([Number(1.0), Operator('+'), Number(2.0)])
  {
    LexSpacedPlus(s[..4]);
    LexSpacedTwo(s[4..]);
    LexJoin(s[..4], s[4..], [Number(1.0), Operator('+')], [Number(2.0)]);
    assert s[..4] + s[4..] == s;
    assert [Number(1.0), Operator('+')] + [Number(2.0)] == [Number(1.0), Operator('+'), Number(2.0)];
  }

  lemma LexSpacedPlus(s: string)
    requires |s| == 4 && s[0] == ' ' && s[1] == '1' && s[2] == ' ' && s[3] == '+'
    ensures Lex(s) == Ok([Number(1.0), Operator('+')])
  {
    assert DigitValue('1') == 1;
    assert s[4..] == [];
    var t3 := [Operator('+')] + [];
    var t2 := [] + t3;
    var t1 := [Number(1.0)] + t2;
    LexUnitAt(s, 3, []);
    LexUnitAt(s, 2, t3);
    LexDigitAt(s, 1, t2);
    LexUnitAt(s, 0, t1);
    assert s[0..] == s;
    assert [] + t1 == [Number(1.0), Operator('+')];
  }

  lemma LexSpacedTwo(s: string)
    requires |s| == 3 && s[0] == ' ' && s[1] == '2' && s[2] == ' '
    ensures Lex(s) == Ok([Number(2.0)])
  {
    assert DigitValue('2') == 2;
    assert s[3..] == [];
    var t2 := [] + [];
    var t1 := [Number(2.0)] + t2;
    LexUnitAt(s, 2, []);
    LexDigitAt(s, 1, t2);
    LexUnitAt(s, 0, t1);
    assert s[0..] == s;
    assert [] + t1 == [Number(2.0)];
  }

  /** " 3 *", the tail of the two-operator postfix text. */
  lemma LexTimesThree(s: string)
    requires |s| == 4 && s[0] == ' ' && s[1] == '3' && s[2] == ' ' && s[3] == '*'
    ensures Lex(s) == Ok([Number(3.0), Operator('*')])
  {
    assert DigitValue('3') == 3;
    assert s[4..] == [];
    var t3 := [Operator('*')] + [];
    var t2 := [] + t3;
    var t1 := [Number(3.0)] + t2;
    LexUnitAt(s, 3, []);
    LexUnitAt(s, 2, t3);
    LexDigitAt(s, 1, t2);
    LexUnitAt(s, 0, t1);
    assert s[0..] == s;
    assert [] + t1 == [Number(3.0), Operator('*')];
  }

  lemma LexPostfixTwoOperators(s: string)
    requires |s| == 9 && s[0] == '1' && s[1] == ' ' && s[2] == '2' && s[3] == ' ' && s[4] == '+'
    requires s[5] == ' ' && s[6] == '3' && s[7] == ' ' && s[8] == '*'
    ensures Lex(s) ==
            Ok([Number(1.0), Number(2.0), Operator('+'), Number(3.0), Operator('*')])
  {
    LexPostfix(s[..5]);
    LexTimesThree(s[5..]);
    LexJoin(s[..5], s[5..], [Number(1.0), Number(2.0), Operator('+')], [Number(3.0), Operator('*')]);
    assert s[..5] + s[5..] == s;
    assert [Number(1.0), Number(2.0), Operator('+')] + [Number(3.0), Operator('*')] ==
           [Number(1.0), Number(2.0), Operator('+'), Number(3.0), Operator('*')];
  }


  // ---------------------------------------------------------------------
  // The pipeline on scanned tokens

  lemma PrecedenceTokens(s: string)
    requires Lex(s) == Ok([Number(2.0), Operator('+'), Number(3.0), Operator('*'), Number(4.0)])
    ensures Evaluate(s) == Ok(14.0)
  {
    var e := Bin('+', Num(2.0), Bin('*', Num(3.0), Num(4.0)));
    assert InfixTokens(e) == [Number(2.0), Operator('+'), Number(3.0), Operator('*'), Number(4.0)] by {
      assert InfixTokens(Bin('*', Num(3.0), Num(4.0))) == [Number(3.0), Operator('*'), Number(4.0)];
    }
    assert Value(e) == Ok(14.0);
    EvaluateInfix(s, e);
  }

  lemma LeftAssocTokens(s: string)
    requires Lex(s) == Ok([Number(8.0), Operator('-'), Number(3.0), Operator('-'), Number(2.0)])
    ensures Evaluate(s) == Ok(3.0)
  {
    var e := Bin('-', Bin('-', Num(8.0), Num(3.0)), Num(2.0));
    assert InfixTokens(e) == [Number(8.0), Operator('-'), Number(3.0), Operator('-'), Number(2.0)] by {
      assert InfixTokens(Bin('-', Num(8.0), Num(3.0))) == [Number(8.0), Operator('-'), Number(3.0)];
    }
    assert Value(e) == Ok(3.0);
    EvaluateInfix(s, e);
  }

  lemma BracketsTokens(s: string)
    requires Lex(s) == Ok([LeftParen, Number(1.0), Operator('+'), Number(2.0), RightParen, Operator('*'), Number(3.0)])
    ensures Evaluate(s) == Ok(9.0)
  {
    var sum := Bin('+', Num(1.0), Num(2.0));
    var e := Bin('*', Group(sum), Num(3.0));
    assert InfixTokens(e) ==
           [LeftParen, Number(1.0), Operator('+'), Number(2.0), RightParen, Operator('*'), Number(3.0)] by {
      assert InfixTokens(sum) == [Number(1.0), Operator('+'), Number(2.0)];
      assert InfixTokens(Group(sum)) == [LeftParen, Number(1.0), Operator('+'), Number(2.0), RightParen];
    }
    assert Value(e) == Ok(9.0);
    EvaluateInfix(s, e);
  }

  lemma StrayCloseTokens(s: string)
    requires Lex(s) == Ok([Number(1.0), Operator('+'), Number(2.0), RightParen])
    ensures Evaluate(s) == Ok(3.0)
  {
    var e := Bin('+', Num(1.0), Num(2.0));
    assert InfixTokens(e) + [RightParen] == [Number(1.0), Operator('+'), Number(2.0), RightParen];
    StrayCloseAccepted(e);
    EvalRpnPostfix(e);
  }

  lemma UnclosedTokens(s: string)
    requires Lex(s) == Ok([LeftParen, Number(1.0), Operator('+'), Number(2.0)])
    ensures Evaluate(s) == Err(Unclosed)
  {
    var ts := [LeftParen, Number(1.0), Operator('+'), Number(2.0)];
    assert ts[..1] == [LeftParen] && ts[..1][..0] == [];
    assert OpenDepth(ts[..1]) == 1;
    assert ts[..2][..1] == ts[..1] && ts[..2][1].Number?;
    assert OpenDepth(ts[..2]) == 1;
    assert ts[..3][..2] == ts[..2] && ts[..3][2].Operator?;
    assert OpenDepth(ts[..3]) == 1;
    assert ts[..|ts| - 1] == ts[..3];
    assert OpenDepth(ts) == 1;
    ShuntingYardFailsIff(ts);
  }

  lemma DivisionTokens(s: string)
    requires Lex(s) == Ok([Number(5.0), Operator('/'), Number(0.0)])
    ensures Evaluate(s) == Err(DivByZero)
  {
    var e := Bin('/', Num(5.0), Num(0.0));
    assert InfixTokens(e) == [Number(5.0), Operator('/'), Number(0.0)];
    EvaluateInfix(s, e);
  }

  lemma TwoNumbersTokens(s: string)
    requires Lex(s) == Ok([Number(1.0), Number(2.0)])
    ensures Evaluate(s) == Err(BadExpr)
  {
    var ts := [Number(1.0), Number(2.0)];
    RunFromSnoc(Start, [], Number(1.0));
    assert [] + [Number(1.0)] == [Number(1.0)];
    assert RunFrom(Start, []) == Shunt([], []);
    assert RunFrom(Start, [Number(1.0)]) == Shunt([Number(1.0)], []);
    RunFromSnoc(Start, [Number(1.0)], Number(2.0));
    assert [Number(1.0)] + [Number(2.0)] == ts;
    assert RunFrom(Start, ts) == Shunt(ts, []);
    assert Reversed([]) == [];
    assert ShuntingYard(ts) == Ok(ts);
    assert ts[..1] == [Number(1.0)] && ts[..1][..0] == [];
    assert [] + [1.0] == [1.0] && [1.0] + [2.0] == [1.0, 2.0];
    assert Exec([], ts[..1]) == Ok([1.0]);
    assert Exec([], ts) == Ok([1.0, 2.0]);
  }

  /** Postfix text with one trailing operator leaves the converter as it
      came in. */
  lemma PostfixUnchanged()
    ensures ShuntingYard([Number(1.0), Number(2.0), Operator('+')])
         == Ok([Number(1.0), Number(2.0), Operator('+')])
  {
    PostfixOneOperatorState();
    assert Reversed([Operator('+')]) == [Operator('+')];
    assert [Number(1.0), Number(2.0)] + [Operator('+')] == [Number(1.0), Number(2.0), Operator('+')];
  }

  lemma PostfixTokensAccepted(s: string)
    requires Lex(s) == Ok([Number(1.0), Number(2.0), Operator('+')])
    ensures ShuntingYard([Number(1.0), Number(2.0), Operator('+')])
         == Ok([Number(1.0), Number(2.0), Operator('+')])
    ensures Evaluate(s) == Ok(3.0)
  {
    var ts := [Number(1.0), Number(2.0), Operator('+')];
    PostfixUnchanged();
    var e := Bin('+', Num(1.0), Num(2.0));
    assert PostfixTokens(e) == ts;
    EvalRpnPostfix(e);
    assert EvalRpn(ts) == Ok(3.0);
  }

  /** Postfix text with two operators is not left alone: '*' outranks the
      '+' waiting on the stack, so it is emitted first. */
  lemma PostfixReordered()
    ensures ShuntingYard([Number(1.0), Number(2.0), Operator('+'), Number(3.0), Operator('*')])
         == Ok([Number(1.0), Number(2.0), Number(3.0), Operator('*'), Operator('+')])
  {
    var out := [Number(1.0), Number(2.0), Number(3.0)];
    PostfixTwoOperatorsState();
    assert Reversed([Operator('+'), Operator('*')]) == [Operator('*'), Operator('+')] by {
      assert [Operator('+'), Operator('*')][..1] == [Operator('+')];
    }
    assert out + [Operator('*'), Operator('+')]
        == [Number(1.0), Number(2.0), Number(3.0), Operator('*'), Operator('+')];
  }

  /** The converter's state once "1 2 + 3 *" is read: both operators wait
      on the stack, '*' above '+'. */
  lemma PostfixTwoOperatorsState()
    ensures RunFrom(Start, [Number(1.0), Number(2.0), Operator('+'), Number(3.0), Operator('*')])
         == Shunt([Number(1.0), Number(2.0), Number(3.0)], [Operator('+'), Operator('*')])
  {
    var three := [Number(1.0), Number(2.0), Operator('+')];
    var four := three + [Number(3.0)];
    var out := [Number(1.0), Number(2.0), Number(3.0)];
    PostfixOneOperatorState();
    RunFromSnoc(Start, three, Number(3.0));
    assert RunFrom(Start, four) == Shunt(out, [Operator('+')]);
    RunFromSnoc(Start, four, Operator('*'));
    assert !TopBinds([Operator('+')], Precedence('*'));
    assert four + [Operator('*')]
        == [Number(1.0), Number(2.0), Operator('+'), Number(3.0), Operator('*')];
  }

  lemma PostfixOneOperatorState()
    ensures RunFrom(Start, [Number(1.0), Number(2.0), Operator('+')])
         == Shunt([Number(1.0), Number(2.0)], [Operator('+')])
  {
    var two := [Number(1.0), Number(2.0)];
    RunFromSnoc(Start, [], Number(1.0));
    assert [] + [Number(1.0)] == [Number(1.0)];
    RunFromSnoc(Start, [Number(1.0)], Number(2.0));
    assert [Number(1.0)] + [Number(2.0)] == two;
    RunFromSnoc(Start, two, Operator('+'));
    assert two + [Operator('+')] == [Number(1.0), Number(2.0), Operator('+')];
  }

  lemma PostfixReorderedTokens(s: string)
    requires Lex(s) == Ok([Number(1.0), Number(2.0), Operator('+'), Number(3.0), Operator('*')])
    ensures Evaluate(s) == Ok(7.0)
  {
    PostfixReordered();
    var e := Bin('+', Num(1.0), Bin('*', Num(2.0), Num(3.0)));
    assert PostfixTokens(e) == [Number(1.0), Number(2.0), Number(3.0), Operator('*'), Operator('+')];
    EvalRpnPostfix(e);
  }

  lemma DecimalsTokens(s: string)
    requires Lex(s) == Ok([Number(1.5), Operator('+'), Number(2.5)])
    ensures Evaluate(s) == Ok(4.0)
  {
    var e := Bin('+', Num(1.5), Num(2.5));
    assert InfixTokens(e) == [Number(1.5), Operator('+'), Number(2.5)];
    EvaluateInfix(s, e);
  }

  lemma SpacesTokens(s: string)
    requires Lex(s) == Ok([Number(1.0), Operator('+'), Number(2.0)])
    ensures Evaluate(s) == Ok(3.0)
  {
    var e := Bin('+', Num(1.0), Num(2.0));
    assert InfixTokens(e) == [Number(1.0), Operator('+'), Number(2.0)];
    EvaluateInfix(s, e);
  }

  lemma LoneOperatorTokens(s: string)
    requires Lex(s) == Ok([Operator('+')])
    ensures Evaluate(s) == Err(TooFewOperands)
  {
    RunFromSnoc(Start, [], Operator('+'));
    assert [] + [Operator('+')] == [Operator('+')];
    assert Reversed([Operator('+')]) == [Operator('+')];
    assert ShuntingYard([Operator('+')]) == Ok([Operator('+')]);
    assert [Operator('+')][..0] == [];
  }

  /** '*' binds tighter than '+'. */
  lemma PrecedenceExample()
    ensures Evaluate("2+3*4") == Ok(14.0)
  {
    LexPrecedence("2+3*4");
    PrecedenceTokens("2+3*4");
  }

  /** Operators of one rank group to the left. */
  lemma LeftAssociative()
    ensures Evaluate("8-3-2") == Ok(3.0)
  {
    LexLeftAssoc("8-3-2");
    LeftAssocTokens("8-3-2");
  }

  /** Brackets override precedence. */
  lemma Brackets()
    ensures Evaluate("(1+2)*3") == Ok(9.0)
  {
    LexBrackets("(1+2)*3");
    BracketsTokens("(1+2)*3");
  }

  /** A ')' that closes nothing is dropped, not reported. */
  lemma StrayClose()
    ensures Evaluate("1+2)") == Ok(3.0)
  {
    LexStrayClose("1+2)");
    StrayCloseTokens("1+2)");
  }

  /** A '(' left open is an error of the converter. */
  lemma UnclosedBracket()
    ensures Evaluate("(1+2") == Err(Unclosed)
  {
    LexUnclosed("(1+2");
    UnclosedTokens("(1+2");
  }

  lemma DivisionByZero()
    ensures Evaluate("5/0") == Err(DivByZero)
  {
    LexDivision("5/0");
    DivisionTokens("5/0");
  }

  /** Two numbers and no operator leave two values on the stack. */
  lemma TwoNumbers()
    ensures Evaluate("1 2") == Err(BadExpr)
  {
    LexTwoNumbers("1 2");
    TwoNumbersTokens("1 2");
  }

  /** "1 2 +" passes the converter unchanged and is evaluated: arity is
      checked only by the evaluator. */
  lemma PostfixInput()
    ensures Lex("1 2 +") == Ok([Number(1.0), Number(2.0), Operator('+')])
    ensures ShuntingYard([Number(1.0), Number(2.0), Operator('+')])
         == Ok([Number(1.0), Number(2.0), Operator('+')])
    ensures Evaluate("1 2 +") == Ok(3.0)
  {
    LexPostfix("1 2 +");
    PostfixTokensAccepted("1 2 +");
  }

  /** "1 2 + 3 *" is reordered by the converter into 1 2 3 * +, so it
      evaluates to 1 + 2 * 3 and not to (1 + 2) * 3. */
  lemma PostfixTwoOperators()
    ensures Lex("1 2 + 3 *")
         == Ok([Number(1.0), Number(2.0), Operator('+'), Number(3.0), Operator('*')])
    ensures Evaluate("1 2 + 3 *") == Ok(7.0)
  {
    LexPostfixTwoOperators("1 2 + 3 *");
    PostfixReorderedTokens("1 2 + 3 *");
  }

  /** Literals with a decimal point. */
  lemma Decimals()
    ensures Evaluate("1.5+2.5") == Ok(4.0)
  {
    LexDecimals("1.5+2.5");
    DecimalsTokens("1.5+2.5");
  }

  /** Spaces around and between the tokens are skipped. */
  lemma Spaces()
    ensures Evaluate(" 1 + 2 ") == Ok(3.0)
  {
    LexSpaces(" 1 + 2 ");
    SpacesTokens(" 1 + 2 ");
  }

  lemma LoneOperator()
    ensures Evaluate("+") == Err(TooFewOperands)
  {
    LexLoneOperator("+");
    LoneOperatorTokens("+");
  }

  lemma UnknownCharacter()
    ensures Evaluate("1+a") == Err(UnknownChar('a'))
  {
    LexUnknown("1+a");
  }
}
