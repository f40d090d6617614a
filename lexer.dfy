/** The scanner: text to tokens, left to right with one character of
    lookahead. `Lex` is the reference definition, `Tokenize` the loop that
    the source runs, and the lemmas state what the scanner promises. */
module Lexer {
  import opened Tokens

  predicate IsDigit(c: char) { '0' <= c <= '9' }

  /** Characters gathered into a number literal. */
  predicate IsNumChar(c: char) { IsDigit(c) || c == '.' }

  /** Characters that become an Operator, LeftParen or RightParen token. */
  predicate IsSymbolChar(c: char) { IsOpChar(c) || c == '(' || c == ')' }

  /** Every character the scanner accepts; only the space is skipped. */
  predicate InAlphabet(c: char) { IsNumChar(c) || IsSymbolChar(c) || c == ' ' }

  predicate AllNumChars(s: string) {
    forall i :: 0 <= i < |s| ==> IsNumChar(s[i])
  }

  // ---------------------------------------------------------------------
  // Number literals

  /** The value of a string of decimal digits, most significant first. */
  function DigitsValue(ds: string): nat
    requires forall i :: 0 <= i < |ds| ==> IsDigit(ds[i])
  {
    if ds == [] then 0
    else 10 * DigitsValue(ds[..|ds| - 1]) + DigitValue(ds[|ds| - 1])
  }

  function DigitValue(c: char): (d: nat)
    requires IsDigit(c)
    ensures d < 10
  {
    c as int - '0' as int
  }

  function Pow10(n: nat): (p: nat)
    ensures p >= 1
  {
    if n == 0 then 1 else 10 * Pow10(n - 1)
  }

  /** The position of the first '.', or |lit| when there is none. */
  function DotIndex(lit: string): (k: nat)
    ensures k <= |lit|
    ensures forall i :: 0 <= i < k ==> lit[i] != '.'
    ensures k < |lit| ==> lit[k] == '.'
  {
    if lit == [] || lit[0] == '.' then 0 else 1 + DotIndex(lit[1..])
  }

  /** A literal that the float parser accepts: at most one decimal point
      and at least one digit ("1", "1.", ".5", "1.5" but not "." or "1.2.3"). */
  ghost predicate WellFormedLiteral(lit: string) {
    && (forall i, j :: 0 <= i < j < |lit| && lit[i] == '.' ==> lit[j] != '.')
    && (exists i :: 0 <= i < |lit| && IsDigit(lit[i]))
  }

  /** The float parser applied to a run of digits and dots: the exact
      decimal value of the literal, or None when it does not parse. */
  function ParseNumber(lit: string): (r: Option<real>)
    requires AllNumChars(lit)
  {
    var k := DotIndex(lit);
    var whole := lit[..k];
    if k == |lit| then
      if whole == [] then None else Some(DigitsValue(whole) as real)
    else
      var frac := lit[k + 1..];
      if DotIndex(frac) < |frac| || (whole == [] && frac == []) then None
      else Some(DigitsValue(whole) as real + DigitsValue(frac) as real / Pow10(|frac|) as real)
  }

  /** The parser accepts exactly the well-formed literals. */
  lemma ParseNumberAccepts(lit: string)
    requires AllNumChars(lit)
    ensures ParseNumber(lit).Some? <==> WellFormedLiteral(lit)
  {
    var k := DotIndex(lit);
    if k == |lit| {
      if lit != [] {
        assert IsDigit(lit[0]);
      }
    } else if DotIndex(lit[k + 1..]) < |lit[k + 1..]| {
      TwoDots(lit);
    } else {
      OneDot(lit);
    }
  }

  lemma TwoDots(lit: string)
    requires AllNumChars(lit)
    requires DotIndex(lit) < |lit| && DotIndex(lit[DotIndex(lit) + 1..]) < |lit[DotIndex(lit) + 1..]|
    ensures ParseNumber(lit).None? && !WellFormedLiteral(lit)
  {
    var k := DotIndex(lit);
    var k' := DotIndex(lit[k + 1..]);
    assert lit[k] == '.' && lit[k + 1 + k'] == '.';
  }

  lemma OneDot(lit: string)
    requires AllNumChars(lit)
    requires DotIndex(lit) < |lit| && DotIndex(lit[DotIndex(lit) + 1..]) == |lit[DotIndex(lit) + 1..]|
    ensures ParseNumber(lit).Some? <==> WellFormedLiteral(lit)
  {
    var k := DotIndex(lit);
    var frac := lit[k + 1..];
    assert forall i, j :: 0 <= i < j < |lit| && lit[i] == '.' ==> i == k && lit[j] == frac[j - k - 1];
    assert k > 0 ==> IsDigit(lit[0]);
    assert frac != [] ==> IsDigit(lit[k + 1]);
  }

  /** A literal made of digits only is read as that whole number. */
  lemma ParseNumberDigits(lit: string)
    requires lit != [] && forall i :: 0 <= i < |lit| ==> IsDigit(lit[i])
    ensures ParseNumber(lit) == Some(DigitsValue(lit) as real)
  {
    assert forall i :: 0 <= i < |lit| ==> lit[i] != '.';
    assert lit[..DotIndex(lit)] == lit;
  }

  /** Appending digits shifts the value left by one decimal place per digit. */
  lemma {:induction false} DigitsValueAppend(w: string, f: string)
    requires forall i :: 0 <= i < |w| ==> IsDigit(w[i])
    requires forall i :: 0 <= i < |f| ==> IsDigit(f[i])
    ensures forall i :: 0 <= i < |w + f| ==> IsDigit((w + f)[i])
    ensures DigitsValue(w + f) == DigitsValue(w) * Pow10(|f|) + DigitsValue(f)
  {
    assert forall i :: 0 <= i < |w + f| ==> IsDigit((w + f)[i]) by {
      forall i | 0 <= i < |w + f| ensures IsDigit((w + f)[i]) {
        if i >= |w| { assert (w + f)[i] == f[i - |w|]; }
      }
    }
    if f == [] {
      assert w + f == w;
    } else {
      var g := f[..|f| - 1];
      var d := DigitValue(f[|f| - 1]);
      DigitsValueAppend(w, g);
      assert (w + f)[..|w + f| - 1] == w + g;
      assert (w + f)[|w + f| - 1] == f[|f| - 1];
      assert DigitsValue(w + f) == 10 * DigitsValue(w + g) + d;
      assert DigitsValue(f) == 10 * DigitsValue(g) + d;
      assert Pow10(|f|) == 10 * Pow10(|g|);
      ShiftDigit(DigitsValue(w), Pow10(|g|), DigitsValue(g), d);
    }
  }

  lemma ShiftDigit(a: int, q: int, b: int, d: int)
    ensures 10 * (a * q + b) + d == a * (10 * q) + (10 * b + d)
  {
  }

  /** A literal with one decimal point is read as its digits over the power
      of ten that the fractional digits count ("1.5" is 15 / 10). */
  lemma ParseNumberDecimal(w: string, f: string)
    requires forall i :: 0 <= i < |w| ==> IsDigit(w[i])
    requires forall i :: 0 <= i < |f| ==> IsDigit(f[i])
    requires w + f != []
    ensures AllNumChars(w + ['.'] + f)
    ensures ParseNumber(w + ['.'] + f)
         == Some(DigitsValue(w + f) as real / Pow10(|f|) as real)
  {
    var lit := w + ['.'] + f;
    DecimalLayout(w, f);
    assert forall i :: 0 <= i < |f| ==> f[i] != '.';
    assert DotIndex(f) == |f|;
    DigitsValueAppend(w, f);
    DecimalValue(DigitsValue(w + f), DigitsValue(w), Pow10(|f|), DigitsValue(f));
  }

  /** Where the point sits in w + "." + f, and what lies either side of it. */
  lemma DecimalLayout(w: string, f: string)
    requires forall i :: 0 <= i < |w| ==> IsDigit(w[i])
    requires forall i :: 0 <= i < |f| ==> IsDigit(f[i])
    ensures AllNumChars(w + ['.'] + f)
    ensures DotIndex(w + ['.'] + f) == |w|
    ensures (w + ['.'] + f)[..|w|] == w && (w + ['.'] + f)[|w| + 1..] == f
  {
    var lit := w + ['.'] + f;
    assert lit[|w|] == '.';
    assert AllNumChars(lit) by {
      forall i | 0 <= i < |lit| ensures IsNumChar(lit[i]) {
        if i < |w| { assert lit[i] == w[i]; }
        if i > |w| { assert lit[i] == f[i - |w| - 1]; }
      }
    }
    assert forall i :: 0 <= i < |w| ==> lit[i] == w[i];
    var k := DotIndex(lit);
    assert k == |w|;
    assert lit[..k] == w;
    assert lit[k + 1..] == f;
  }

  /** v = x * y + z read as a decimal: v / y is x plus the fraction z / y. */
  lemma DecimalValue(v: int, x: int, y: int, z: int)
    requires y >= 1 && v == x * y + z
    ensures v as real / y as real == x as real + z as real / y as real
  {
    var p := y as real;
    assert v as real == x as real * p + z as real;
    assert x as real * p / p == x as real;
  }

  // ---------------------------------------------------------------------
  // The reference scanner

  /** The length of the longest prefix of s made of digits and dots. */
  function RunLength(s: string): (n: nat)
    ensures n <= |s|
    ensures forall i :: 0 <= i < n ==> IsNumChar(s[i])
    ensures n == |s| || !IsNumChar(s[n])
  {
    if s == [] || !IsNumChar(s[0]) then 0 else 1 + RunLength(s[1..])
  }

  lemma RunLengthUnique(s: string, n: nat)
    requires n <= |s|
    requires forall i :: 0 <= i < n ==> IsNumChar(s[i])
    requires n == |s| || !IsNumChar(s[n])
    ensures RunLength(s) == n
  {
  }

  /** ts prepended to the tokens of r, or r's error. */
  function Then(ts: seq<Token>, r: Result<seq<Token>>): Result<seq<Token>> {
    match r
    case Ok(us) => Ok(ts + us)
    case Err(e) => Err(e)
  }

  /** The scanner as a recursive function: one unit at the head of s, then
      the rest. A number literal is the maximal run of digits and dots. */
  function Lex(s: string): Result<seq<Token>>
    decreases |s|
  {
    if s == [] then Ok([])
    else
      var c := s[0];
      if IsNumChar(c) then
        var n := RunLength(s);
        var lit := s[..n];
        match ParseNumber(lit)
        case None => Err(BadNumber(lit))
        case Some(v) => Then([Number(v)], Lex(s[n..]))
      else if IsOpChar(c) then Then([Operator(c)], Lex(s[1..]))
      else if c == '(' then Then([LeftParen], Lex(s[1..]))
      else if c == ')' then Then([RightParen], Lex(s[1..]))
      else if c == ' ' then Lex(s[1..])
      else Err(UnknownChar(c))
  }

  // ---------------------------------------------------------------------
  // The scanner as the source runs it

  /** The source's scanning loop: a cursor i stands for the peekable
      iterator, and the inner loop gathers a literal into `lit`. */
  method Tokenize(s: string) returns (r: Result<seq<Token>>)
    ensures r == Lex(s)
  {
    var tokens: seq<Token> := [];
    var i := 0;
    assert s[i..] == s;
    assert Then([], Lex(s)) == Lex(s) by {
      if Lex(s).Ok? { assert [] + Lex(s).value == Lex(s).value; }
    }
    while i < |s|
      invariant 0 <= i <= |s|
      invariant Lex(s) == Then(tokens, Lex(s[i..]))
    {
      var c := s[i];
      LexAt(s, i);
      if IsNumChar(c) {
        var lit, j := ScanLiteral(s, i);
        LexRunAt(s, i, j);
        var parsed := ParseNumber(lit);
        match parsed {
          case None =>
            return Err(BadNumber(lit));
          case Some(v) =>
            Push(s, i, j, tokens, Number(v));
            tokens := tokens + [Number(v)];
        }
        i := j;
      } else if IsOpChar(c) {
        Push(s, i, i + 1, tokens, Operator(c));
        tokens := tokens + [Operator(c)];
        i := i + 1;
      } else if c == '(' {
        Push(s, i, i + 1, tokens, LeftParen);
        tokens := tokens + [LeftParen];
        i := i + 1;
      } else if c == ')' {
        Push(s, i, i + 1, tokens, RightParen);
        tokens := tokens + [RightParen];
        i := i + 1;
      } else if c == ' ' {
        i := i + 1;
      } else {
        return Err(UnknownChar(c));
      }
    }
    assert s[i..] == [] && tokens + [] == tokens;
    r := Ok(tokens);
  }

  /** The inner loop of the scanner: gather the digits and dots from
      position i on, stopping at the first other character or the end. */
  method ScanLiteral(s: string, i: nat) returns (lit: string, j: nat)
    requires i <= |s|
    ensures i <= j <= |s| && lit == s[i..j]
    ensures forall k :: i <= k < j ==> IsNumChar(s[k])
    ensures j == |s| || !IsNumChar(s[j])
    ensures j - i == RunLength(s[i..])
  {
    lit := "";
    j := i;
    while j < |s| && IsNumChar(s[j])
      invariant i <= j <= |s|
      invariant lit == s[i..j]
      invariant forall k :: i <= k < j ==> IsNumChar(s[k])
    {
      lit := lit + [s[j]];
      j := j + 1;
    }
    RunLengthUnique(s[i..], j - i);
  }

  /** How Lex treats the single character at position i of s. */
  lemma LexAt(s: string, i: nat)
    requires i < |s|
    ensures IsOpChar(s[i]) ==> Lex(s[i..]) == Then([Operator(s[i])], Lex(s[i + 1..]))
    ensures s[i] == '(' ==> Lex(s[i..]) == Then([LeftParen], Lex(s[i + 1..]))
    ensures s[i] == ')' ==> Lex(s[i..]) == Then([RightParen], Lex(s[i + 1..]))
    ensures s[i] == ' ' ==> Lex(s[i..]) == Lex(s[i + 1..])
    ensures !InAlphabet(s[i]) ==> Lex(s[i..]) == Err(UnknownChar(s[i]))
  {
    assert s[i..][0] == s[i];
    assert s[i..][1..] == s[i + 1..];
  }

  /** How Lex treats a maximal run s[i..j] of digits and dots. */
  lemma LexRunAt(s: string, i: nat, j: nat)
    requires i < j <= |s|
    requires forall k :: i <= k < j ==> IsNumChar(s[k])
    requires j == |s| || !IsNumChar(s[j])
    ensures ParseNumber(s[i..j]).None? ==> Lex(s[i..]) == Err(BadNumber(s[i..j]))
    ensures ParseNumber(s[i..j]).Some? ==>
              Lex(s[i..]) == Then([Number(ParseNumber(s[i..j]).value)], Lex(s[j..]))
  {
    RunLengthUnique(s[i..], j - i);
    assert s[i..][..j - i] == s[i..j];
    assert s[i..][j - i..] == s[j..];
  }

  /** The loop invariant of Tokenize, carried past one token t scanned
      from s[i..k]. */
  lemma Push(s: string, i: nat, k: nat, tokens: seq<Token>, t: Token)
    requires i <= k <= |s|
    requires Lex(s) == Then(tokens, Lex(s[i..]))
    requires Lex(s[i..]) == Then([t], Lex(s[k..]))
    ensures Lex(s) == Then(tokens + [t], Lex(s[k..]))
  {
    ThenThen(tokens, [t], Lex(s[k..]));
  }

  lemma ThenThen(a: seq<Token>, b: seq<Token>, r: Result<seq<Token>>)
    ensures Then(a, Then(b, r)) == Then(a + b, r)
  {
    if r.Ok? {
      assert a + (b + r.value) == (a + b) + r.value;
    }
  }

  // ---------------------------------------------------------------------
  // What the scanner promises

  /** The operator and bracket characters of s, in order. */
  function Symbols(s: string): string {
    if s == [] then []
    else (if IsSymbolChar(s[0]) then [s[0]] else []) + Symbols(s[1..])
  }

  /** The character each non-Number token was scanned from, in order. */
  function TokenSymbols(ts: seq<Token>): string {
    if ts == [] then []
    else
      (match ts[0]
       case Number(_) => []
       case Operator(c) => [c]
       case LeftParen => ['(']
       case RightParen => [')']) + TokenSymbols(ts[1..])
  }

  /** The maximal runs of digits and dots in s, left to right. */
  function Runs(s: string): (rs: seq<string>)
    ensures forall k :: 0 <= k < |rs| ==> rs[k] != [] && AllNumChars(rs[k])
    decreases |s|
  {
    if s == [] then []
    else if IsNumChar(s[0]) then
      var n := RunLength(s);
      [s[..n]] + Runs(s[n..])
    else Runs(s[1..])
  }

  /** A token the scanner can produce: an Operator only for + - * /. */
  predicate Scannable(t: Token) {
    t.Operator? ==> IsOpChar(t.op)
  }

  lemma {:induction false} SymbolsSkipRun(s: string, n: nat)
    requires n <= |s| && forall i :: 0 <= i < n ==> IsNumChar(s[i])
    ensures Symbols(s) == Symbols(s[n..])
  {
    if n > 0 {
      assert s[1..][n - 1..] == s[n..];
      SymbolsSkipRun(s[1..], n - 1);
    }
  }

  /** Every token the scanner emits is a Number, one of the four operators
      or a bracket. */
  lemma {:induction false} LexTokensScannable(s: string)
    requires Lex(s).Ok?
    ensures forall k :: 0 <= k < |Lex(s).value| ==> Scannable(Lex(s).value[k])
    decreases |s|
  {
    if s != [] {
      var c := s[0];
      if IsNumChar(c) {
        LexTokensScannable(s[RunLength(s)..]);
      } else if c != ' ' && InAlphabet(c) {
        LexTokensScannable(s[1..]);
      } else if c == ' ' {
        LexTokensScannable(s[1..]);
      }
    }
  }

  /** Brackets and operators are carried over one for one, in order: the
      symbols of the tokens are the symbol characters of the text. */
  lemma {:induction false} LexSymbols(s: string)
    requires Lex(s).Ok?
    ensures TokenSymbols(Lex(s).value) == Symbols(s)
    decreases |s|
  {
    if s != [] {
      var c := s[0];
      if IsNumChar(c) {
        var n := RunLength(s);
        LexSymbols(s[n..]);
        SymbolsSkipRun(s, n);
        var ts := Lex(s).value;
        assert ts[1..] == Lex(s[n..]).value;
      } else if c == ' ' {
        LexSymbols(s[1..]);
      } else if InAlphabet(c) {
        LexSymbols(s[1..]);
        var ts := Lex(s).value;
        assert ts[1..] == Lex(s[1..]).value;
      }
    }
  }

  /** ns holds one Number per literal of rs, each the literal parsed. */
  predicate ParsedAs(ns: seq<Token>, rs: seq<string>)
    requires forall k :: 0 <= k < |rs| ==> AllNumChars(rs[k])
  {
    && |ns| == |rs|
    && forall k :: 0 <= k < |rs| ==> ParseNumber(rs[k]).Some? && ns[k] == Number(ParseNumber(rs[k]).value)
  }

  /** Each maximal run of digits and dots becomes exactly one Number token,
      whose value is the run parsed, in the order of the runs. */
  lemma {:induction false} LexNumbers(s: string)
    requires Lex(s).Ok?
    ensures ParsedAs(Numbers(Lex(s).value), Runs(s))
    decreases |s|
  {
    if s != [] {
      var c := s[0];
      if IsNumChar(c) {
        LexNumbers(s[RunLength(s)..]);
        LexNumbersRun(s);
      } else if InAlphabet(c) {
        LexNumbers(s[1..]);
        LexNumbersSymbol(s);
      }
    }
  }

  /** LexNumbers for an input that starts with a run of digits and dots. */
  lemma LexNumbersRun(s: string)
    requires s != [] && IsNumChar(s[0]) && Lex(s).Ok?
    requires var rest := s[RunLength(s)..]; Lex(rest).Ok? && ParsedAs(Numbers(Lex(rest).value), Runs(rest))
    ensures ParsedAs(Numbers(Lex(s).value), Runs(s))
  {
    var n := RunLength(s);
    var v := ParseNumber(s[..n]).value;
    var rest := Lex(s[n..]).value;
    assert Lex(s).value == [Number(v)] + rest;
    NumbersAppend([Number(v)], rest);
    assert Runs(s) == [s[..n]] + Runs(s[n..]);
  }

  /** LexNumbers for an input that starts with a space or a symbol. */
  lemma LexNumbersSymbol(s: string)
    requires s != [] && !IsNumChar(s[0]) && InAlphabet(s[0]) && Lex(s).Ok?
    requires Lex(s[1..]).Ok? && ParsedAs(Numbers(Lex(s[1..]).value), Runs(s[1..]))
    ensures ParsedAs(Numbers(Lex(s).value), Runs(s))
  {
    var rest := Lex(s[1..]).value;
    if s[0] != ' ' {
      var ts := Lex(s).value;
      assert ts == [ts[0]] + rest && !ts[0].Number?;
      NumbersAppend([ts[0]], rest);
    }
  }

  /** Nothing else is emitted: no token for a space, one per symbol and
      one per run. */
  lemma {:induction false} LexLength(s: string)
    requires Lex(s).Ok?
    ensures |Lex(s).value| == |Runs(s)| + |Symbols(s)|
    decreases |s|
  {
    if s != [] {
      var c := s[0];
      if IsNumChar(c) {
        var n := RunLength(s);
        LexLength(s[n..]);
        SymbolsSkipRun(s, n);
      } else {
        LexLength(s[1..]);
      }
    }
  }

  /** Every error names what went wrong: an unrecognised character of s,
      or a run of s that does not parse, carried as text. */
  lemma {:induction false} LexErrors(s: string)
    requires Lex(s).Err?
    ensures var e := Lex(s).error;
            || (e.UnknownChar? && !InAlphabet(e.ch) && e.ch in s)
            || (e.BadNumber? && e.literal in Runs(s) && ParseNumber(e.literal).None?)
    decreases |s|
  {
    var c := s[0];
    if IsNumChar(c) {
      var n := RunLength(s);
      if ParseNumber(s[..n]).Some? {
        LexErrors(s[n..]);
        assert forall x :: x in s[n..] ==> x in s;
      }
    } else if InAlphabet(c) {
      LexErrors(s[1..]);
      assert forall x :: x in s[1..] ==> x in s;
    }
  }

  predicate Alphabetic(s: string) {
    forall i :: 0 <= i < |s| ==> InAlphabet(s[i])
  }

  predicate RunsParse(s: string) {
    forall k :: 0 <= k < |Runs(s)| ==> ParseNumber(Runs(s)[k]).Some?
  }

  /** The scanner succeeds exactly when every character is in the alphabet
      and every run of digits and dots parses. */
  lemma {:induction false} LexOkIff(s: string)
    ensures Lex(s).Ok? <==> Alphabetic(s) && RunsParse(s)
    decreases |s|
  {
    if s != [] {
      if IsNumChar(s[0]) {
        LexOkIff(s[RunLength(s)..]);
        LexOkIffRun(s);
      } else {
        LexOkIff(s[1..]);
        LexOkIffSkip(s);
      }
    }
  }

  /** LexOkIff for an input that starts with a run of digits and dots. */
  lemma LexOkIffRun(s: string)
    requires s != [] && IsNumChar(s[0])
    requires var rest := s[RunLength(s)..]; Lex(rest).Ok? <==> Alphabetic(rest) && RunsParse(rest)
    ensures Lex(s).Ok? <==> Alphabetic(s) && RunsParse(s)
  {
    var n := RunLength(s);
    assert Alphabetic(s) <==> Alphabetic(s[n..]) by {
      assert forall i :: n <= i < |s| ==> s[i] == s[n..][i - n];
      assert forall i :: 0 <= i < n ==> InAlphabet(s[i]);
    }
    var rs := Runs(s);
    assert rs[0] == s[..n] && rs[1..] == Runs(s[n..]);
    assert RunsParse(s) <==> ParseNumber(s[..n]).Some? && RunsParse(s[n..]) by {
      forall k | 0 <= k < |rs| - 1 ensures rs[1..][k] == rs[k + 1] { }
    }
  }

  /** LexOkIff for an input that starts with any other character. */
  lemma LexOkIffSkip(s: string)
    requires s != [] && !IsNumChar(s[0])
    requires Lex(s[1..]).Ok? <==> Alphabetic(s[1..]) && RunsParse(s[1..])
    ensures Lex(s).Ok? <==> Alphabetic(s) && RunsParse(s)
  {
    assert Alphabetic(s) <==> InAlphabet(s[0]) && Alphabetic(s[1..]) by {
      assert forall i :: 1 <= i < |s| ==> s[i] == s[1..][i - 1];
    }
    assert Runs(s) == Runs(s[1..]);
  }

  /** Scanning splits at any point that does not cut a number literal:
      the tokens of a + b are those of a followed by those of b, and an
      error in a wins over one in b. */
  lemma {:induction false} LexAppend(a: string, b: string)
    requires a == [] || b == [] || !IsNumChar(a[|a| - 1]) || !IsNumChar(b[0])
    ensures Lex(a).Err? ==> Lex(a + b) == Lex(a)
    ensures Lex(a).Ok? ==> Lex(a + b) == Then(Lex(a).value, Lex(b))
    decreases |a|
  {
    if a == [] {
      assert a + b == b;
      ThenEmpty(Lex(b));
    } else {
      var c := a[0];
      assert (a + b)[0] == c;
      if IsNumChar(c) {
        var n := RunLength(a);
        RunLengthUnique(a + b, n);
        assert (a + b)[..n] == a[..n];
        assert (a + b)[n..] == a[n..] + b;
        if ParseNumber(a[..n]).Some? {
          LexAppend(a[n..], b);
          if Lex(a[n..]).Ok? {
            ThenThen([Number(ParseNumber(a[..n]).value)], Lex(a[n..]).value, Lex(b));
          }
        }
      } else {
        assert (a + b)[1..] == a[1..] + b;
        LexAppend(a[1..], b);
        if Lex(a[1..]).Ok? && InAlphabet(c) && c != ' ' {
          var t := if c == '(' then LeftParen else if c == ')' then RightParen else Operator(c);
          ThenThen([t], Lex(a[1..]).value, Lex(b));
        }
      }
    }
  }

  lemma ThenEmpty(r: Result<seq<Token>>)
    ensures Then([], r) == r
  {
    if r.Ok? {
      assert [] + r.value == r.value;
    }
  }

  /** Scanning stops at the first character outside the alphabet (a tab or
      a newline included) and reports it, unless a bad literal before it
      was reported first. */
  lemma LexStopsAtUnknown(s: string, i: nat)
    requires i < |s| && !InAlphabet(s[i])
    requires forall k :: 0 <= k < i ==> InAlphabet(s[k])
    ensures Lex(s[..i]).Ok? ==> Lex(s) == Err(UnknownChar(s[i]))
    ensures Lex(s[..i]).Err? ==> Lex(s) == Lex(s[..i]) && Lex(s).error.BadNumber?
  {
    assert s == s[..i] + s[i..];
    LexAppend(s[..i], s[i..]);
    LexAt(s, i);
    if Lex(s[..i]).Err? {
      LexErrors(s[..i]);
    }
  }
}
