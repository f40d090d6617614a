/** Infix to postfix: Dijkstra's shunting-yard algorithm as the source runs
    it. The operator stack keeps its top at the END of the sequence. A ')'
    with no matching '(' drains the stack and is not an error; only a '('
    still on the stack at the end is. */
module Shunting {
  import opened Tokens

  /** The rank of an operator: + and - bind loosest, * and / tighter, and
      any other symbol gets 0 (a case the scanner never produces). */
  function Precedence(op: char): (p: nat)
    ensures p <= 2
    ensures p > 0 <==> IsOpChar(op)
    ensures p == 2 <==> op == '*' || op == '/'
  {
    match op
    case '+' => 1
    case '-' => 1
    case '*' => 2
    case '/' => 2
    case _ => 0
  }

  /** s back to front. */
  function Reversed(s: seq<Token>): (r: seq<Token>)
    ensures |r| == |s|
  {
    if s == [] then [] else [s[|s| - 1]] + Reversed(s[..|s| - 1])
  }

  /** The k-th element of Reversed(s) is the k-th from the end of s. */
  lemma {:induction false} ReversedIndex(s: seq<Token>)
    ensures forall k :: 0 <= k < |s| ==> Reversed(s)[k] == s[|s| - 1 - k]
  {
    if s != [] {
      ReversedIndex(s[..|s| - 1]);
    }
  }

  lemma ReversedSnoc(s: seq<Token>, t: Token)
    ensures Reversed(s + [t]) == [t] + Reversed(s)
  {
    assert (s + [t])[..|s|] == s;
  }

  lemma {:induction false} ReversedCons(t: Token, s: seq<Token>)
    ensures Reversed([t] + s) == Reversed(s) + [t]
  {
    if s != [] {
      var n := |s| - 1;
      assert ([t] + s)[..|s|] == [t] + s[..n];
      ReversedCons(t, s[..n]);
    }
  }

  lemma ReversedOperators(seg: seq<Token>)
    requires AllOperators(seg)
    ensures AllOperators(Reversed(seg))
  {
    ReversedIndex(seg);
  }

  /** The converter's state: what has been emitted, and the operator stack. */
  datatype Shunt = Shunt(output: seq<Token>, stack: seq<Token>)

  /** True when the top of stack is an Operator of precedence at least p. */
  predicate TopBinds(stack: seq<Token>, p: nat) {
    stack != [] && stack[|stack| - 1].Operator? && Precedence(stack[|stack| - 1].op) >= p
  }

  /** Before an operator of precedence p is pushed: move every operator of
      precedence at least p from the top of the stack to the output. */
  function PopHigher(st: Shunt, p: nat): (r: Shunt)
    ensures |r.stack| <= |st.stack| && r.stack == st.stack[..|r.stack|]
    ensures r.output == st.output + Reversed(st.stack[|r.stack|..])
    ensures forall k :: |r.stack| <= k < |st.stack| ==>
              st.stack[k].Operator? && Precedence(st.stack[k].op) >= p
    ensures !TopBinds(r.stack, p)
    decreases |st.stack|
  {
    if TopBinds(st.stack, p) then
      var n := |st.stack| - 1;
      var r := PopHigher(Shunt(st.output + [st.stack[n]], st.stack[..n]), p);
      PopHigherStep(st, p, r);
      r
    else
      assert st.stack[|st.stack|..] == [];
      st
  }

  /** The inductive step of PopHigher, when the top binds. */
  lemma PopHigherStep(st: Shunt, p: nat, r: Shunt)
    requires TopBinds(st.stack, p)
    requires var n := |st.stack| - 1; var st' := Shunt(st.output + [st.stack[n]], st.stack[..n]);
             && |r.stack| <= |st'.stack| && r.stack == st'.stack[..|r.stack|]
             && r.output == st'.output + Reversed(st'.stack[|r.stack|..])
             && (forall k :: |r.stack| <= k < |st'.stack| ==>
                   st'.stack[k].Operator? && Precedence(st'.stack[k].op) >= p)
    ensures |r.stack| <= |st.stack| && r.stack == st.stack[..|r.stack|]
    ensures r.output == st.output + Reversed(st.stack[|r.stack|..])
    ensures forall k :: |r.stack| <= k < |st.stack| ==>
              st.stack[k].Operator? && Precedence(st.stack[k].op) >= p
  {
    var n := |st.stack| - 1;
    var m := |r.stack|;
    var below, top := st.stack[..n], st.stack[n];
    assert st.stack == below + [top];
    SliceSnocFrom(below, top, m);
    assert r.output == st.output + Reversed(st.stack[m..]) by {
      ReversedSnoc(below[m..], top);
      assert st.output + [top] + Reversed(below[m..]) == st.output + ([top] + Reversed(below[m..]));
    }
    forall k | m <= k < |st.stack|
      ensures st.stack[k].Operator? && Precedence(st.stack[k].op) >= p
    {
      if k < n {
        assert st.stack[k] == below[k];
      }
    }
  }

  /** On ')': pop to the output until a '(' is popped (and dropped) or the
      stack is empty. */
  function PopToParen(st: Shunt): (r: Shunt)
    ensures |r.stack| <= |st.stack| && r.stack == st.stack[..|r.stack|]
    ensures LeftParen in st.stack ==>
              && |r.stack| < |st.stack| && st.stack[|r.stack|] == LeftParen
              && LeftParen !in st.stack[|r.stack| + 1..]
              && r.output == st.output + Reversed(st.stack[|r.stack| + 1..])
    ensures LeftParen !in st.stack ==> r.stack == [] && r.output == st.output + Reversed(st.stack)
    decreases |st.stack|
  {
    if st.stack == [] then st
    else
      var n := |st.stack| - 1;
      var top := st.stack[n];
      if top == LeftParen then
        assert st.stack[n + 1..] == [];
        Shunt(st.output, st.stack[..n])
      else
        var r := PopToParen(Shunt(st.output + [top], st.stack[..n]));
        PopToParenStep(st, r);
        r
  }

  /** The inductive step of PopToParen, when the top is not a '('. */
  lemma PopToParenStep(st: Shunt, r: Shunt)
    requires st.stack != [] && st.stack[|st.stack| - 1] != LeftParen
    requires var n := |st.stack| - 1; var st' := Shunt(st.output + [st.stack[n]], st.stack[..n]);
             && |r.stack| <= |st'.stack| && r.stack == st'.stack[..|r.stack|]
             && (LeftParen in st'.stack ==>
                   && |r.stack| < |st'.stack| && st'.stack[|r.stack|] == LeftParen
                   && LeftParen !in st'.stack[|r.stack| + 1..]
                   && r.output == st'.output + Reversed(st'.stack[|r.stack| + 1..]))
             && (LeftParen !in st'.stack ==> r.stack == [] && r.output == st'.output + Reversed(st'.stack))
    ensures |r.stack| <= |st.stack| && r.stack == st.stack[..|r.stack|]
    ensures LeftParen in st.stack ==>
              && |r.stack| < |st.stack| && st.stack[|r.stack|] == LeftParen
              && LeftParen !in st.stack[|r.stack| + 1..]
              && r.output == st.output + Reversed(st.stack[|r.stack| + 1..])
    ensures LeftParen !in st.stack ==> r.stack == [] && r.output == st.output + Reversed(st.stack)
  {
    var n := |st.stack| - 1;
    var top := st.stack[n];
    var below := st.stack[..n];
    assert st.stack == below + [top];
    assert LeftParen in st.stack <==> LeftParen in below;
    if LeftParen in below {
      PopToParenMatched(st.output, below, top, r);
    } else {
      ReversedSnoc(below, top);
      assert st.output + [top] + Reversed(below) == st.output + ([top] + Reversed(below));
    }
  }

  /** PopToParenStep when a '(' lies below the top. */
  lemma PopToParenMatched(out: seq<Token>, below: seq<Token>, top: Token, r: Shunt)
    requires top != LeftParen
    requires |r.stack| < |below| && r.stack == below[..|r.stack|] && below[|r.stack|] == LeftParen
    requires LeftParen !in below[|r.stack| + 1..]
    requires r.output == out + [top] + Reversed(below[|r.stack| + 1..])
    ensures var stack := below + [top];
            && |r.stack| < |stack| && r.stack == stack[..|r.stack|] && stack[|r.stack|] == LeftParen
            && LeftParen !in stack[|r.stack| + 1..]
            && r.output == out + Reversed(stack[|r.stack| + 1..])
  {
    var m := |r.stack|;
    var above := below[m + 1..];
    SliceSnoc(below, top, m);
    assert LeftParen !in above + [top] by {
      assert forall x :: x in above + [top] ==> x in above || x == top;
    }
    assert r.output == out + Reversed(above + [top]) by {
      ReversedSnoc(above, top);
      assert out + [top] + Reversed(above) == out + ([top] + Reversed(above));
    }
  }

  lemma SliceSnocFrom(s: seq<Token>, t: Token, m: nat)
    requires m <= |s|
    ensures (s + [t])[..m] == s[..m] && (s + [t])[m..] == s[m..] + [t]
  {
  }

  lemma SliceSnoc(s: seq<Token>, t: Token, m: nat)
    requires m < |s|
    ensures (s + [t])[..m] == s[..m] && (s + [t])[m] == s[m]
    ensures (s + [t])[m + 1..] == s[m + 1..] + [t]
  {
  }

  /** At the end of input: pop everything to the output, failing on a '('. */
  function Drain(st: Shunt): (r: Result<seq<Token>>)
    ensures r.Ok? <==> LeftParen !in st.stack
    ensures r.Ok? ==> r.value == st.output + Reversed(st.stack)
    ensures r.Err? ==> r.error == Unclosed
    decreases |st.stack|
  {
    if st.stack == [] then Ok(st.output)
    else
      var n := |st.stack| - 1;
      var top := st.stack[n];
      assert st.stack == st.stack[..n] + [top];
      if top == LeftParen then Err(Unclosed)
      else Drain(Shunt(st.output + [top], st.stack[..n]))
  }

  /** One token of the input. */
  function Step(st: Shunt, t: Token): Shunt {
    match t
    case Number(_) => Shunt(st.output + [t], st.stack)
    case Operator(op) =>
      var r := PopHigher(st, Precedence(op));
      Shunt(r.output, r.stack + [t])
    case LeftParen => Shunt(st.output, st.stack + [LeftParen])
    case RightParen => PopToParen(st)
  }

  /** The state after the tokens ts, starting from st. */
  function RunFrom(st: Shunt, ts: seq<Token>): Shunt {
    if ts == [] then st
    else Step(RunFrom(st, ts[..|ts| - 1]), ts[|ts| - 1])
  }

  const Start := Shunt([], [])

  /** The converter as a function of its input: every token, then the
      final drain. */
  function ShuntingYard(ts: seq<Token>): Result<seq<Token>> {
    Drain(RunFrom(Start, ts))
  }

  /** The source's converter: a for loop over the tokens with an inner
      while loop for each operator and each ')', then the final drain. */
  method ToRpn(tokens: seq<Token>) returns (r: Result<seq<Token>>)
    ensures r == ShuntingYard(tokens)
  {
    var output: seq<Token> := [];
    var operators: seq<Token> := [];
    for i := 0 to |tokens|
      invariant Shunt(output, operators) == RunFrom(Start, tokens[..i])
    {
      assert tokens[..i + 1][..i] == tokens[..i];
      var token := tokens[i];
      match token {
        case Number(_) =>
          output := output + [token];
        case Operator(op) =>
          ghost var before := Shunt(output, operators);
          while operators != [] && operators[|operators| - 1].Operator?
            invariant PopHigher(Shunt(output, operators), Precedence(op)) == PopHigher(before, Precedence(op))
            decreases |operators|
          {
            var top := operators[|operators| - 1];
            if Precedence(top.op) >= Precedence(op) {
              output := output + [top];
              operators := operators[..|operators| - 1];
            } else {
              break;
            }
          }
          operators := operators + [Operator(op)];
        case LeftParen =>
          operators := operators + [LeftParen];
        case RightParen =>
          ghost var before := Shunt(output, operators);
          while operators != []
            invariant PopToParen(Shunt(output, operators)) == PopToParen(before)
            decreases |operators|
          {
            var top := operators[|operators| - 1];
            operators := operators[..|operators| - 1];
            if top.LeftParen? {
              break;
            }
            output := output + [top];
          }
      }
    }
    assert tokens[..|tokens|] == tokens;
    ghost var before := Shunt(output, operators);
    while operators != []
      invariant Drain(Shunt(output, operators)) == Drain(before)
      decreases |operators|
    {
      var top := operators[|operators| - 1];
      operators := operators[..|operators| - 1];
      if top.LeftParen? {
        return Err(Unclosed);
      }
      output := output + [top];
    }
    r := Ok(output);
  }

  // ---------------------------------------------------------------------
  // What the converter promises

  /** How many '(' are still open after ts: a ')' closes the innermost open
      one, and a ')' with none open changes nothing. */
  function OpenDepth(ts: seq<Token>): nat {
    if ts == [] then 0
    else
      var d := OpenDepth(ts[..|ts| - 1]);
      match ts[|ts| - 1]
      case LeftParen => d + 1
      case RightParen => if d == 0 then 0 else d - 1
      case _ => d
  }

  predicate NoParens(ts: seq<Token>) {
    forall k :: 0 <= k < |ts| ==> !IsParen(ts[k])
  }

  /** The operator stack only ever holds Operator and LeftParen tokens. */
  predicate StackShape(stack: seq<Token>) {
    forall k :: 0 <= k < |stack| ==> stack[k].Operator? || stack[k].LeftParen?
  }

  predicate AllOperators(seg: seq<Token>) {
    forall k :: 0 <= k < |seg| ==> seg[k].Operator?
  }

  lemma {:induction false} MultisetReversed(s: seq<Token>)
    ensures multiset(Reversed(s)) == multiset(s)
  {
    if s != [] {
      var n := |s| - 1;
      assert s == s[..n] + [s[n]];
      MultisetReversed(s[..n]);
    }
  }

  lemma {:induction false} OnlyOperators(seg: seq<Token>)
    requires AllOperators(seg)
    ensures Numbers(seg) == [] && Operators(seg) == seg && LeftParens(seg) == 0
  {
    if seg != [] {
      OnlyOperators(seg[1..]);
    }
  }

  lemma {:induction false} LeftParensIn(s: seq<Token>)
    ensures LeftParens(s) > 0 <==> LeftParen in s
  {
    if s != [] {
      LeftParensIn(s[1..]);
      assert s == [s[0]] + s[1..];
    }
  }

  /** What one step does to a well-shaped state: it moves a segment seg of
      operators from the top of the stack to the output, reversed, and
      then pushes or emits the token itself (or drops a '('). */
  lemma StepEffect(st: Shunt, t: Token) returns (below: seq<Token>, seg: seq<Token>)
    requires StackShape(st.stack)
    ensures AllOperators(seg)
    ensures var r := Step(st, t);
            match t
            case Number(_) => r.output == st.output + [t] && r.stack == st.stack && seg == [] && below == st.stack
            case Operator(_) => r.output == st.output + Reversed(seg) && st.stack == below + seg && r.stack == below + [t]
            case LeftParen => r.output == st.output && r.stack == st.stack + [t] && seg == [] && below == st.stack
            case RightParen =>
              && r.output == st.output + Reversed(seg) && r.stack == below
              && (if LeftParen in st.stack then st.stack == below + [LeftParen] + seg
                  else below == [] && st.stack == seg)
  {
    match t {
      case Number(_) =>
        below, seg := st.stack, [];
      case Operator(op) =>
        var r := PopHigher(st, Precedence(op));
        below, seg := r.stack, st.stack[|r.stack|..];
        assert st.stack == below + seg;
      case LeftParen =>
        below, seg := st.stack, [];
      case RightParen =>
        var r := PopToParen(st);
        below := r.stack;
        if LeftParen in st.stack {
          var m := |r.stack|;
          seg := st.stack[m + 1..];
          assert st.stack == below + [LeftParen] + seg;
          forall k | 0 <= k < |seg| ensures seg[k].Operator? {
            assert seg[k] == st.stack[m + 1 + k];
            assert seg[k] in st.stack[m + 1..];
          }
        } else {
          seg := st.stack;
          forall k | 0 <= k < |seg| ensures seg[k].Operator? {
            assert seg[k] in st.stack;
          }
        }
    }
  }

  lemma RunFromSnoc(st: Shunt, ts: seq<Token>, t: Token)
    ensures RunFrom(st, ts + [t]) == Step(RunFrom(st, ts), t)
  {
    assert (ts + [t])[..|ts|] == ts;
  }

  /** The stack holds only operators and '(' after any prefix. */
  lemma {:induction false} RunStackShape(ts: seq<Token>)
    ensures StackShape(RunFrom(Start, ts).stack)
  {
    if ts != [] {
      var n := |ts| - 1;
      assert ts == ts[..n] + [ts[n]];
      RunStackShape(ts[..n]);
      StepStackShape(RunFrom(Start, ts[..n]), ts[n]);
    }
  }

  lemma StepStackShape(st: Shunt, t: Token)
    requires StackShape(st.stack)
    ensures StackShape(Step(st, t).stack)
  {
    match t {
      case Number(_) =>
      case Operator(op) =>
        var r := PopHigher(st, Precedence(op));
        assert StackShape(r.stack) by {
          forall k | 0 <= k < |r.stack| ensures r.stack[k] == st.stack[k] { }
        }
        assert StackShape(r.stack + [t]) by {
          forall k | 0 <= k < |r.stack| ensures (r.stack + [t])[k] == r.stack[k] { }
        }
      case LeftParen =>
        assert StackShape(st.stack + [t]) by {
          forall k | 0 <= k < |st.stack| ensures (st.stack + [t])[k] == st.stack[k] { }
        }
      case RightParen =>
        var r := PopToParen(st);
        forall k | 0 <= k < |r.stack| ensures r.stack[k] == st.stack[k] { }
    }
  }

  /** The output never holds a bracket token. */
  lemma {:induction false} RunNoParens(ts: seq<Token>)
    ensures NoParens(RunFrom(Start, ts).output)
  {
    if ts != [] {
      var n := |ts| - 1;
      assert ts == ts[..n] + [ts[n]];
      RunNoParens(ts[..n]);
      RunStackShape(ts[..n]);
      var st := RunFrom(Start, ts[..n]);
      var below, seg := StepEffect(st, ts[n]);
      ReversedOperators(seg);
    }
  }

  /** The output holds the Number tokens read so far, in order. */
  lemma {:induction false} RunNumbers(ts: seq<Token>)
    ensures Numbers(RunFrom(Start, ts).output) == Numbers(ts)
  {
    if ts != [] {
      var n := |ts| - 1;
      assert ts == ts[..n] + [ts[n]];
      RunNumbers(ts[..n]);
      RunStackShape(ts[..n]);
      NumbersAppend(ts[..n], [ts[n]]);
      StepNumbers(RunFrom(Start, ts[..n]), ts[n]);
    }
  }

  lemma StepNumbers(st: Shunt, t: Token)
    requires StackShape(st.stack)
    ensures Numbers(Step(st, t).output) == Numbers(st.output) + Numbers([t])
  {
    var below, seg := StepEffect(st, t);
    if t.Number? {
      NumbersAppend(st.output, [t]);
    } else {
      assert Numbers([t]) == [];
      ReversedOperators(seg);
      OnlyOperators(Reversed(seg));
      NumbersAppend(st.output, Reversed(seg));
    }
  }

  /** Every operator read so far is on the output or on the stack, once. */
  lemma {:induction false} RunOperators(ts: seq<Token>)
    ensures var st := RunFrom(Start, ts);
            multiset(Operators(st.output)) + multiset(Operators(st.stack)) == multiset(Operators(ts))
  {
    if ts != [] {
      var n := |ts| - 1;
      var t := ts[n];
      assert ts == ts[..n] + [t];
      RunOperators(ts[..n]);
      RunStackShape(ts[..n]);
      OperatorsAppend(ts[..n], [t]);
      StepOperators(RunFrom(Start, ts[..n]), t);
    }
  }

  lemma StepOperators(st: Shunt, t: Token)
    requires StackShape(st.stack)
    ensures var r := Step(st, t);
            multiset(Operators(r.output)) + multiset(Operators(r.stack)) ==
            multiset(Operators(st.output)) + multiset(Operators(st.stack)) + multiset(Operators([t]))
  {
    if t.Number? {
      OperatorsAppend(st.output, [t]);
    } else if t.LeftParen? {
      OperatorsAppend(st.stack, [t]);
    } else if t.Operator? {
      StepOperatorsPush(st, t);
    } else {
      StepOperatorsClose(st, t);
    }
  }

  lemma StepOperatorsPush(st: Shunt, t: Token)
    requires StackShape(st.stack) && t.Operator?
    ensures var r := Step(st, t);
            multiset(Operators(r.output)) + multiset(Operators(r.stack)) ==
            multiset(Operators(st.output)) + multiset(Operators(st.stack)) + multiset(Operators([t]))
  {
    var below, seg := StepEffect(st, t);
    DrainedOutput(st.output, seg);
    OperatorsSplit(below, seg, [t]);
  }

  lemma StepOperatorsClose(st: Shunt, t: Token)
    requires StackShape(st.stack) && t.RightParen?
    ensures var r := Step(st, t);
            multiset(Operators(r.output)) + multiset(Operators(r.stack)) ==
            multiset(Operators(st.output)) + multiset(Operators(st.stack)) + multiset(Operators([t]))
  {
    if LeftParen in st.stack {
      StepOperatorsCloseMatched(st, t);
    } else {
      var below, seg := StepEffect(st, t);
      DrainedOutput(st.output, seg);
      OnlyOperators(seg);
    }
  }

  lemma StepOperatorsCloseMatched(st: Shunt, t: Token)
    requires StackShape(st.stack) && t.RightParen? && LeftParen in st.stack
    ensures var r := Step(st, t);
            multiset(Operators(r.output)) + multiset(Operators(r.stack)) ==
            multiset(Operators(st.output)) + multiset(Operators(st.stack)) + multiset(Operators([t]))
  {
    var below, seg := StepEffect(st, t);
    CloseOperators(st.output, below, seg);
  }

  /** The operator bookkeeping of a matched ')', on plain sequences. */
  lemma CloseOperators(out: seq<Token>, below: seq<Token>, seg: seq<Token>)
    requires AllOperators(seg)
    ensures multiset(Operators(out + Reversed(seg))) + multiset(Operators(below)) ==
            multiset(Operators(out)) + multiset(Operators(below + [LeftParen] + seg)) + multiset(Operators([RightParen]))
  {
    var a, b, m := multiset(Operators(out)), multiset(Operators(below)), multiset(seg);
    var x := multiset(Operators(out + Reversed(seg)));
    var z := multiset(Operators(below + [LeftParen] + seg));
    assert x == a + m by {
      DrainedOutput(out, seg);
    }
    assert z == b + m by {
      OperatorsAroundParen(below, seg);
    }
    assert Operators([RightParen]) == [];
    Regroup(x, z, a, b, m);
  }

  lemma OperatorsAroundParen(below: seq<Token>, seg: seq<Token>)
    requires AllOperators(seg)
    ensures Operators(below + [LeftParen] + seg) == Operators(below) + seg
  {
    OperatorsAppend(below + [LeftParen], seg);
    OperatorsAppend(below, [LeftParen]);
    assert Operators([LeftParen]) == [];
    assert Operators(below) + [] == Operators(below);
    OnlyOperators(seg);
  }

  lemma Regroup(x: multiset<Token>, z: multiset<Token>, a: multiset<Token>, b: multiset<Token>, m: multiset<Token>)
    requires x == a + m && z == b + m
    ensures x + b == a + z + multiset{}
  {
  }

  lemma OperatorsSplit(below: seq<Token>, seg: seq<Token>, t: seq<Token>)
    requires AllOperators(seg)
    ensures multiset(Operators(below + seg)) == multiset(Operators(below)) + multiset(seg)
    ensures multiset(Operators(below + t + seg)) == multiset(Operators(below + t)) + multiset(seg)
    ensures multiset(Operators(below + t)) == multiset(Operators(below)) + multiset(Operators(t))
  {
    OnlyOperators(seg);
    OperatorsAppend(below, seg);
    OperatorsAppend(below + t, seg);
    OperatorsAppend(below, t);
  }

  /** The '(' tokens on the stack are exactly the open ones. */
  lemma {:induction false} RunOpenDepth(ts: seq<Token>)
    ensures LeftParens(RunFrom(Start, ts).stack) == OpenDepth(ts)
  {
    if ts != [] {
      var n := |ts| - 1;
      RunOpenDepth(ts[..n]);
      RunStackShape(ts[..n]);
      StepLeftParens(RunFrom(Start, ts[..n]), ts[n]);
    }
  }

  lemma StepLeftParens(st: Shunt, t: Token)
    requires StackShape(st.stack)
    ensures var d := LeftParens(st.stack);
            LeftParens(Step(st, t).stack) ==
              match t
              case LeftParen => d + 1
              case RightParen => if d == 0 then 0 else d - 1
              case _ => d
  {
    match t {
      case Number(_) =>
      case Operator(_) =>
        StepLeftParensPush(st, t);
      case LeftParen =>
        LeftParensAppend(st.stack, [t]);
      case RightParen =>
        StepLeftParensClose(st);
    }
  }

  lemma StepLeftParensPush(st: Shunt, t: Token)
    requires StackShape(st.stack) && t.Operator?
    ensures LeftParens(Step(st, t).stack) == LeftParens(st.stack)
  {
    var below, seg := StepEffect(st, t);
    OnlyOperators(seg);
    LeftParensAppend(below, seg);
    LeftParensAppend(below, [t]);
  }

  lemma StepLeftParensClose(st: Shunt)
    requires StackShape(st.stack)
    ensures var d := LeftParens(st.stack);
            LeftParens(Step(st, RightParen).stack) == if d == 0 then 0 else d - 1
  {
    var below, seg := StepEffect(st, RightParen);
    OnlyOperators(seg);
    LeftParensIn(st.stack);
    if LeftParen in st.stack {
      LeftParensAppend(below + [LeftParen], seg);
      LeftParensAppend(below, [LeftParen]);
    }
  }

  lemma {:induction false} NoParensSize(s: seq<Token>)
    requires NoParens(s)
    ensures |s| == |Numbers(s)| + |Operators(s)|
  {
    if s != [] {
      NoParensSize(s[1..]);
    }
  }

  /** What a successful conversion emits, from the invariant at the end. */
  lemma ShuntingYardOutput(ts: seq<Token>)
    requires ShuntingYard(ts).Ok?
    ensures var out := ShuntingYard(ts).value;
            && NoParens(out)
            && Numbers(out) == Numbers(ts)
            && multiset(Operators(out)) == multiset(Operators(ts))
  {
    var st := RunFrom(Start, ts);
    FinalStack(ts);
    RunNoParens(ts);
    RunNumbers(ts);
    RunOperators(ts);
    OnlyOperators(st.stack);
    DrainedOutput(st.output, st.stack);
  }

  /** What is left on the stack at the end of input that drains without
      error is operators only. */
  lemma FinalStack(ts: seq<Token>)
    requires ShuntingYard(ts).Ok?
    ensures var st := RunFrom(Start, ts);
            && AllOperators(st.stack)
            && ShuntingYard(ts).value == st.output + Reversed(st.stack)
  {
    var st := RunFrom(Start, ts);
    RunStackShape(ts);
    forall k | 0 <= k < |st.stack| ensures st.stack[k].Operator? {
      assert st.stack[k] in st.stack;
    }
  }

  /** Appending a reversed run of operators to an output. */
  lemma DrainedOutput(out: seq<Token>, seg: seq<Token>)
    requires AllOperators(seg)
    ensures NoParens(out) ==> NoParens(out + Reversed(seg))
    ensures Numbers(out + Reversed(seg)) == Numbers(out)
    ensures multiset(Operators(out + Reversed(seg))) == multiset(Operators(out)) + multiset(seg)
  {
    var r := Reversed(seg);
    ReversedOperators(seg);
    if NoParens(out) {
      forall k | 0 <= k < |out + r|
        ensures !IsParen((out + r)[k])
      {
        if k < |out| {
          assert (out + r)[k] == out[k];
        } else {
          assert (out + r)[k] == r[k - |out|];
        }
      }
    }
    OnlyOperators(r);
    MultisetReversed(seg);
    NumbersAppend(out, r);
    OperatorsAppend(out, r);
  }

  /** The converter fails exactly when some '(' is never closed, and then
      with Unclosed; an unmatched ')' is never an error. */
  lemma ShuntingYardFailsIff(ts: seq<Token>)
    ensures ShuntingYard(ts).Err? <==> OpenDepth(ts) > 0
    ensures ShuntingYard(ts).Err? ==> ShuntingYard(ts).error == Unclosed
  {
    RunOpenDepth(ts);
    LeftParensIn(RunFrom(Start, ts).stack);
  }

  /** On success the postfix output holds no bracket tokens, and nothing
      but the input's numbers and operators. */
  lemma ShuntingYardDropsParens(ts: seq<Token>)
    requires ShuntingYard(ts).Ok?
    ensures NoParens(ShuntingYard(ts).value)
    ensures |ShuntingYard(ts).value| == |Numbers(ts)| + |Operators(ts)|
  {
    var out := ShuntingYard(ts).value;
    ShuntingYardOutput(ts);
    NoParensSize(out);
    assert |multiset(Operators(out))| == |multiset(Operators(ts))|;
  }

  /** On success the Number tokens come out in the order they went in. */
  lemma ShuntingYardKeepsNumbers(ts: seq<Token>)
    requires ShuntingYard(ts).Ok?
    ensures Numbers(ShuntingYard(ts).value) == Numbers(ts)
  {
    ShuntingYardOutput(ts);
  }

  /** On success every operator of the input is emitted exactly once. */
  lemma ShuntingYardKeepsOperators(ts: seq<Token>)
    requires ShuntingYard(ts).Ok?
    ensures multiset(Operators(ShuntingYard(ts).value)) == multiset(Operators(ts))
  {
    ShuntingYardOutput(ts);
  }

  lemma {:induction false} OpenDepthBound(ts: seq<Token>)
    ensures OpenDepth(ts) <= LeftParens(ts)
  {
    if ts != [] {
      var n := |ts| - 1;
      OpenDepthBound(ts[..n]);
      assert ts == ts[..n] + [ts[n]];
      LeftParensAppend(ts[..n], [ts[n]]);
    }
  }

  /** Without any '(' the converter cannot fail, whatever ')' it meets. */
  lemma ShuntingYardWithoutLeftParen(ts: seq<Token>)
    requires LeftParens(ts) == 0
    ensures ShuntingYard(ts).Ok?
  {
    OpenDepthBound(ts);
    ShuntingYardFailsIff(ts);
  }

  /** A ')' that closes nothing only flushes the operator stack: appending
      it does not change the result. */
  lemma StrayRightParenIgnored(ts: seq<Token>)
    requires OpenDepth(ts) == 0
    ensures ShuntingYard(ts + [RightParen]) == ShuntingYard(ts)
  {
    var ts' := ts + [RightParen];
    RunFromSnoc(Start, ts, RightParen);
    RunOpenDepth(ts);
    LeftParensIn(RunFrom(Start, ts).stack);
  }
}
