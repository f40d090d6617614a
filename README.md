# rust-calculator in Dafny

This project models the arithmetic-expression evaluator in `src/lib.rs` of
rust-calculator. The evaluator has three stages, glued together by
`evaluate_expression`:

1. `tokenize` scans the text left to right with one character of lookahead.
   A run of digits and `.` becomes one `Number`. Each of `+ - * /` becomes an
   `Operator`, and `(` and `)` become bracket tokens. A space is skipped and
   any other character is an error.
2. `to_rpn` is Dijkstra's shunting-yard algorithm. It uses `precedence`,
   which ranks `+ -` at 1 and `* /` at 2, and it pops while the top of the
   stack ranks at least as high as the incoming operator. The result is
   postfix (reverse Polish) order.
3. `evaluate_rpn` runs the postfix tokens over a value stack.

Each stage is modelled twice:

- A reference function: `Lexer.Lex`, `Shunting.ShuntingYard` or
  `Evaluator.EvalRpn`.
- An imperative method with the source's loops and mutable vectors, proved
  equal to that function: `Lexer.Tokenize`, `Shunting.ToRpn` or
  `Evaluator.EvaluateRpn`.

The lemmas then state what each stage promises. They are stated about the
reference functions, and the method contracts carry them over to the loops.

`Infix` adds an independent reference: an expression tree `Expr` with its
infix reading, its postfix reading and its value. It proves end to end that
the converter turns the infix tokens of any well-formed tree into exactly its
postfix tokens, and that the evaluator then returns the tree's value.
`Calculator` composes the stages. `Scenarios` works through concrete inputs.

Modules, one per file: `Tokens` (tokens.dfy), `Lexer` (lexer.dfy),
`Shunting` (shunting.dfy), `Evaluator` (evaluator.dfy), `Infix` (infix.dfy),
`Calculator` (calculator.dfy) and `Scenarios` (scenarios.dfy).

### Behaviour of the code worth knowing

- **A stray `)`.** One might expect a `)` with no matching `(` to be a
  syntax error. The code instead pops the operator stack until it is
  empty (`src/lib.rs:103-109`) and carries on, so `"1+2)"` evaluates to 3.
  The model follows the code (`Shunting.StrayRightParenIgnored`,
  `Infix.StrayCloseAccepted`, `Scenarios.StrayClose`). Only a `(` still on
  the stack at the end is an error (`Shunting.ShuntingYardFailsIff`).
- **Postfix input.** The converter never checks operator arity, so text
  in postfix order is accepted. With a single trailing operator, as in
  `"1 2 +"`, the tokens pass the converter unchanged and evaluate to 3
  (`Scenarios.PostfixInput`). With more operators the converter reorders
  them by precedence: `"1 2 + 3 *"` becomes `1 2 3 * +` and evaluates to 7,
  not 9 (`Scenarios.PostfixReordered`, `Scenarios.PostfixTwoOperators`).
  Two numbers with no operator, `"1 2"`, fail only in the evaluator, with
  `BadExpr` (`Scenarios.TwoNumbers`).

### Representation

- Stacks (the operator stack and the value stack) are sequences with the top
  at the end.
- Numbers are exact `real` values. A number literal is read as its exact
  decimal value.
- Errors are `Tokens.Error` variants, in place of the message strings.

## Model

| member | source | states |
|---|---|---|
| Lexer.Lex | src/lib.rs:31-70 | The reference scanner, which states nothing by itself. `Tokenize` is proved equal to it, and `LexTokensScannable`, `LexSymbols`, `LexNumbers`, `LexLength`, `LexErrors`, `LexOkIff`, `LexAppend` and `LexStopsAtUnknown` state its properties. |
| Lexer.ParseNumber | src/lib.rs:48 | The reference definition of the float parser on a run of digits and dots. `ParseNumberAccepts`, `ParseNumberDigits` and `ParseNumberDecimal` state what it accepts and the value it gives. |
| Lexer.Tokenize | src/lib.rs:31-70 | The scanning loop returns exactly what the reference scanner `Lex` returns: the same tokens, or the same first error. |
| Lexer.ScanLiteral | src/lib.rs:38-46 | The inner loop gathers the maximal run of digits and dots that starts at the cursor. Its length is `RunLength` of the rest of the text. |
| Lexer.ParseNumberAccepts | src/lib.rs:48 | The float parser, applied to a run of digits and dots, succeeds exactly when the run has at most one `.` and at least one digit. |
| Lexer.ParseNumberDigits | src/lib.rs:48 | A literal made of digits only parses to that whole number. |
| Lexer.DigitsValueAppend | src/lib.rs:48 | Digits appended to a literal shift its value one decimal place per digit: the value of `w + f` is the value of `w` times 10 to the length of `f`, plus the value of `f`. |
| Lexer.ParseNumberDecimal | src/lib.rs:48 | A literal `w.f` with digits either side, and at least one digit in all, parses to the digits of `w` and `f` read as one whole number, divided by 10 to the number of digits in `f`. |
| Lexer.LexAt | src/lib.rs:51-66 | The token for one character: an operator, a bracket, nothing for a space, or `UnknownChar` for anything else. |
| Lexer.LexRunAt | src/lib.rs:37-50 | A maximal run of digits and dots becomes one `Number`, or the scan stops with `BadNumber` carrying the run's text. |
| Lexer.LexTokensScannable | src/lib.rs:35-66 | Every token emitted is a `Number`, an `Operator` with one of `+ - * /`, or a bracket. |
| Lexer.LexSymbols | src/lib.rs:51-62 | The operator and bracket tokens match the operator and bracket characters of the text, one for one and in order. |
| Lexer.LexNumbers | src/lib.rs:37-50 | Each maximal run of digits and dots yields exactly one `Number`, whose value is the run parsed, in the order of the runs. |
| Lexer.LexLength | src/lib.rs:35-66 | The number of tokens is the number of runs plus the number of symbol characters, so a space yields no token. |
| Lexer.LexErrors | src/lib.rs:37-66 | Every scan error either names a character of the text outside the alphabet, or carries a run of the text that does not parse. |
| Lexer.LexOkIff | src/lib.rs:35-69 | The scan succeeds if and only if every character is in the alphabet and every run of digits and dots parses. |
| Lexer.LexAppend | src/lib.rs:35-69 | Two texts that meet outside a number scan to the two token lists joined. An error in the first text wins. |
| Lexer.LexStopsAtUnknown | src/lib.rs:66 | The scan reports the first character outside the alphabet (a tab or a newline included), unless a bad literal before it was reported first. |
| Shunting.Precedence | src/lib.rs:73-79 | `*` and `/` rank 2, `+` and `-` rank 1, and any other symbol ranks 0. The rank is positive exactly for the four operators. |
| Shunting.PopHigher | src/lib.rs:91-97 | Before an operator is pushed, the operators popped are a top segment of the stack, each ranking at least the incoming operator's rank. They go to the output in pop order, and the new top does not rank as high. |
| Shunting.PopToParen | src/lib.rs:103-109 | On `)`, the operators above the topmost `(` go to the output in pop order and the `(` is dropped. If there is no `(`, the whole stack goes to the output. |
| Shunting.Drain | src/lib.rs:115-120 | At the end of input, the stack goes to the output in pop order. It fails with `Unclosed` exactly when a `(` is still on the stack. |
| Shunting.Step | src/lib.rs:86-112 | The reference definition of one pass of the converter's `for` loop, which states nothing by itself. `StepEffect` and the `Step...` lemmas state what one token does to the state. |
| Shunting.RunFrom | src/lib.rs:86-112 | The reference definition of the converter's `for` loop over a prefix of the input. `RunStackShape`, `RunNoParens`, `RunNumbers`, `RunOperators` and `RunOpenDepth` state its invariants. |
| Shunting.ShuntingYard | src/lib.rs:82-123 | The reference converter, which states nothing by itself. `ToRpn` is proved equal to it, and `ShuntingYardOutput`, `ShuntingYardFailsIff` and `Infix.ShuntingYardInfix` state its properties. |
| Shunting.ToRpn | src/lib.rs:82-123 | The converter's nested loops return exactly what the reference converter `ShuntingYard` returns. |
| Shunting.RunStackShape | src/lib.rs:86-112 | After any prefix of the input, the operator stack holds only `Operator` and `LeftParen` tokens. |
| Shunting.RunNoParens | src/lib.rs:86-112 | After any prefix of the input, the output holds no bracket token. |
| Shunting.RunNumbers | src/lib.rs:86-112 | After any prefix of the input, the output's numbers are the numbers read so far, in order. |
| Shunting.RunOperators | src/lib.rs:86-112 | After any prefix of the input, the operators on the output and on the stack together are the operators read so far, each once. |
| Shunting.RunOpenDepth | src/lib.rs:100-109 | After any prefix of the input, the number of `(` on the stack is the number of brackets still open. A `)` closes the innermost one, or nothing. |
| Shunting.ShuntingYardOutput | src/lib.rs:82-123 | A successful conversion emits no brackets, the input's numbers in order, and the input's operators as a multiset. |
| Shunting.ShuntingYardDropsParens | src/lib.rs:88-120 | A successful conversion emits no bracket, and its length is the number of input numbers plus input operators. |
| Shunting.ShuntingYardKeepsNumbers | src/lib.rs:88-120 | On success, the `Number` tokens come out in the order they went in. |
| Shunting.ShuntingYardKeepsOperators | src/lib.rs:89-120 | On success, every input operator is emitted exactly once, with nothing added or dropped. |
| Shunting.ShuntingYardFailsIff | src/lib.rs:103-118 | The converter fails if and only if some `(` is never closed, and then the error is `Unclosed`. |
| Shunting.ShuntingYardWithoutLeftParen | src/lib.rs:115-118 | Input with no `(` never fails, whatever `)` it contains. |
| Shunting.StrayRightParenIgnored | src/lib.rs:103-109 | Appending a `)` when no bracket is open does not change the result. |
| Evaluator.Apply | src/lib.rs:139-150 | The reference definition of the operator `match`, which states nothing by itself. `EvalRpnCompose` states its results for each operator, division by zero and an unknown symbol. |
| Evaluator.ExecToken | src/lib.rs:130-153 | The reference definition of one pass of the evaluator's loop. `ExecHeight`, `ExecShape` and `ExecErrors` state its effect on the stack and its errors. |
| Evaluator.Exec | src/lib.rs:129-155 | The reference definition of the evaluator's loop over a prefix of the input. `ExecHeight`, `ExecAppend`, `ExecFrame` and `ExecTotal` state its properties. |
| Evaluator.EvalRpn | src/lib.rs:126-162 | The reference evaluator, which states nothing by itself. `EvaluateRpn` is proved equal to it, and `EvalRpnShape`, `EvalRpnCompose` and `Infix.EvalRpnPostfix` state its properties. |
| Evaluator.EvaluateRpn | src/lib.rs:126-162 | The evaluator's loop returns exactly what the reference evaluator `EvalRpn` returns. |
| Evaluator.ExecPrefixErr | src/lib.rs:134-153 | An error part way through ends the run with that error. |
| Evaluator.ExecHeight | src/lib.rs:129-155 | After any successful run, the stack has grown by the number of numbers seen minus the number of operators seen. |
| Evaluator.ExecShape | src/lib.rs:129-155 | A successful run met no bracket, and every operator it met had at least two values on the stack. |
| Evaluator.ExecTotal | src/lib.rs:129-155 | Bracket-free input with known operators, where every operator has two values below it, can fail only by a division by zero. |
| Evaluator.EvalRpnShape | src/lib.rs:157-161 | Evaluation succeeds only on well-shaped input (no brackets, enough operands, final height 1), and then returns the one value left. Well-shaped input with known operators fails at most by a division by zero. |
| Evaluator.ExecAppend | src/lib.rs:129-155 | Running `p` then `q` is running `q` from the stack that `p` leaves, and an error in `p` wins. |
| Evaluator.ExecErrors | src/lib.rs:134-153 | On bracket-free input with the four known operators, the only possible errors are too few operands and division by zero. |
| Evaluator.ExecFrame | src/lib.rs:131-151 | Values below the part of the stack that a run touches are left unchanged. |
| Evaluator.EvalRpnCompose | src/lib.rs:137-151 | If `p` evaluates to `a` and `q` to `b`, then `p q op` evaluates to `a op b`. The first value popped is the right operand. Dividing by a zero right operand fails with `DivByZero`, and an unknown symbol fails with `UnknownOp`. |
| Infix.PendingBinds | src/lib.rs:91-98 | Once a well-formed expression is read, the operators it leaves on the stack rank at least as high as the expression itself. |
| Infix.ShuntExpr | src/lib.rs:86-112 | Reading the infix tokens of a well-formed expression emits its completed operands and pushes its right-spine operators, whatever lies below on the stack, provided the top does not bind. |
| Infix.ShuntingYardInfix | src/lib.rs:82-123 | The converter turns the infix tokens of every well-formed expression into exactly its postfix tokens. Precedence and left associativity are respected and brackets disappear. |
| Infix.EvalRpnPostfix | src/lib.rs:126-162 | Evaluating an expression's postfix tokens gives the expression's value, or the first error met in computing it. |
| Infix.InfixEvaluates | src/lib.rs:26-27 | Converting and then evaluating the infix tokens of a well-formed expression gives its value. |
| Infix.GroupTransparent | src/lib.rs:100-109 | Brackets around a well-formed expression change neither its conversion nor its value. |
| Infix.StrayCloseAccepted | src/lib.rs:103-109 | A trailing `)` after a well-formed expression is accepted and leaves the postfix output unchanged. |
| Infix.TwoOperators | src/lib.rs:91-98 | For `a o1 b o2 c`: if `o1` ranks at least as high as `o2`, the output is `a b o1 c o2` (left associativity). Otherwise it is `a b c o2 o1`. |
| Calculator.Evaluate | src/lib.rs:24-28 | The reference pipeline, which states nothing by itself. `EvaluateExpression` is proved equal to it, and `EvaluateInfix`, `EvaluateErrors` and the `Scenarios` lemmas state its results. |
| Calculator.EvaluateExpression | src/lib.rs:24-28 | The composed pipeline returns exactly `Evaluate`: scan, convert, evaluate, and stop at the first error. |
| Calculator.EvaluateInfix | src/lib.rs:24-28 | Text that scans to the infix tokens of a well-formed expression evaluates to that expression's value. |
| Calculator.EvaluateErrors | src/lib.rs:24-28 | A scan error is the pipeline's error. `Unclosed` occurs if and only if the text scans with a bracket left open. Otherwise the only errors are too few operands, division by zero and a bad final stack. |
| Scenarios.LexPrecedence | src/lib.rs:31-70 | `"2+3*4"` scans to `2 + 3 * 4`. |
| Scenarios.LexBrackets | src/lib.rs:31-70 | `"(1+2)*3"` scans to `( 1 + 2 ) * 3`. |
| Scenarios.LexUnknown | src/lib.rs:66 | `"1+a"` fails with `UnknownChar('a')`. |
| Scenarios.PrecedenceExample | src/lib.rs:73-79 | `"2+3*4"` evaluates to 14. |
| Scenarios.LeftAssociative | src/lib.rs:91-98 | `"8-3-2"` evaluates to 3. |
| Scenarios.Brackets | src/lib.rs:100-109 | `"(1+2)*3"` evaluates to 9. |
| Scenarios.StrayClose | src/lib.rs:103-109 | `"1+2)"` evaluates to 3. The stray `)` is not an error. |
| Scenarios.UnclosedBracket | src/lib.rs:115-118 | `"(1+2"` fails with `Unclosed`. |
| Scenarios.DivisionByZero | src/lib.rs:143-146 | `"5/0"` fails with `DivByZero`. |
| Scenarios.TwoNumbers | src/lib.rs:157-159 | `"1 2"` fails with `BadExpr`. |
| Scenarios.LexDecimals | src/lib.rs:37-50 | `"1.5+2.5"` scans to `1.5 + 2.5`. |
| Scenarios.Decimals | src/lib.rs:24-28 | `"1.5+2.5"` evaluates to 4. |
| Scenarios.Spaces | src/lib.rs:63-65 | `" 1 + 2 "` evaluates to 3. The spaces yield no tokens. |
| Scenarios.PostfixUnchanged | src/lib.rs:86-123 | The converter returns the tokens `1 2 +` unchanged. |
| Scenarios.PostfixInput | src/lib.rs:86-123 | `"1 2 +"` scans to `1 2 +`, which passes the converter unchanged, and evaluates to 3. |
| Scenarios.PostfixReordered | src/lib.rs:89-120 | The converter turns the tokens `1 2 + 3 *` into `1 2 3 * +`. The `*` outranks the waiting `+`, so postfix input is not passed through unchanged. |
| Scenarios.PostfixTwoOperators | src/lib.rs:24-28 | `"1 2 + 3 *"` evaluates to 7, that is 1 + 2 * 3, not (1 + 2) * 3. |
| Scenarios.LoneOperator | src/lib.rs:134-136 | `"+"` fails with `TooFewOperands`. |
| Scenarios.UnknownCharacter | src/lib.rs:66 | `"1+a"` fails with `UnknownChar('a')` through the whole pipeline. |

## Left out

- `calculate`, the WebAssembly entry point (`src/lib.rs:6-12`), is not part of this model. It is a host adapter whose only work is `f64::to_string` formatting of the result.
- Floating point: values are exact reals. IEEE-754 rounding, overflow to infinity, NaN and `-0.0` are not modelled. In particular, a right operand of `-0.0`, which the source also treats as zero, has no counterpart.
- Lexer.ParseNumberAccepts: models `f64::from_str` only on what the scanner can give it, a run of digits and dots. It is read as the exact decimal value of the literal, not the nearest `f64`.
- Error messages: the Ukrainian message texts are replaced by `Tokens.Error` variants carrying the same data (the character, or the literal).
- The fallback arms that text can never reach are modelled but have no properties of their own: `precedence`'s `_ => 0` (`src/lib.rs:77`), the unknown operator (`src/lib.rs:149`) and a bracket token in the evaluator (`src/lib.rs:153`). `Lexer.LexTokensScannable` and `Shunting.ShuntingYardDropsParens` show they cannot occur on scanned, converted text.
- The peekable character iterator is modelled by an index into the text, and `VecDeque`/`Vec` by sequences. The model does not capture memory layout or aliasing.
