/**
 * What the expression evaluator computes, stated independently of the parser:
 * an expression tree, its value under 32-bit Kotlin arithmetic, and a printer
 * that writes a tree with the fewest parentheses the grammar needs. Parsing a
 * printed tree yields the tree's value, so the parser gives `* / %` precedence
 * over `+ -`, groups each level to the left, and reports the same errors in
 * the same order as evaluation.
 */
module ExprSemantics {
  import opened Outcomes
  import opened Int32s
  import opened Text
  import opened ExprParser

  datatype Op = Plus | Minus | Times | Over | Modulo

  datatype Ast =
    | Num(digits: string)
    | Name(id: string)
    | Bin(op: Op, left: Ast, right: Ast)

  predicate IsAdditive(op: Op) {
    op == Plus || op == Minus
  }

  function OpChar(op: Op): char {
    match op
    case Plus => '+'
    case Minus => '-'
    case Times => '*'
    case Over => '/'
    case Modulo => '%'
  }

  /** Literals are digit runs and names are identifiers. */
  predicate WellFormed(e: Ast) {
    match e
    case Num(ds) => |ds| > 0 && AllDigits(ds)
    case Name(x) => |x| > 0 && IsIdentStart(x[0]) && forall i :: 0 <= i < |x| ==> IsIdentChar(x[i])
    case Bin(_, l, r) => WellFormed(l) && WellFormed(r)
  }

  function Apply(op: Op, a: Int32, b: Int32): Result<Int32, ParseError> {
    match op
    case Plus => Success(Add(a, b))
    case Minus => Success(Sub(a, b))
    case Times => Success(Mul(a, b))
    case Over => if b == 0 then Failure(DivisionByZero) else Success(Div(a, b))
    case Modulo => if b == 0 then Failure(ModuloByZero) else Success(Rem(a, b))
  }

  /**
   * The value of a tree: a literal is its decimal value wrapped to 32 bits, a
   * name its variable's value; operands are evaluated left before right.
   */
  function Eval(e: Ast, vars: Variables): Result<Int32, ParseError>
    requires WellFormed(e)
  {
    match e
    case Num(ds) => Success(Wrap(DecimalValue(ds)))
    case Name(x) => if x in vars then Success(vars[x]) else Failure(UnknownVariable(x))
    case Bin(op, l, r) =>
      var a :- Eval(l, vars);
      var b :- Eval(r, vars);
      Apply(op, a, b)
  }

  /** A tree printed as an expression: `+ -` at the top level chain to the left. */
  function ShowExpr(e: Ast): string
    decreases e, 2
  {
    if e.Bin? && IsAdditive(e.op) then ShowExpr(e.left) + [OpChar(e.op)] + ShowTerm(e.right)
    else ShowTerm(e)
  }

  /** A tree printed as a term: `* / %` chain to the left. */
  function ShowTerm(e: Ast): string
    decreases e, 1
  {
    if e.Bin? && !IsAdditive(e.op) then ShowTerm(e.left) + [OpChar(e.op)] + ShowFactor(e.right)
    else ShowFactor(e)
  }

  /** A tree printed as a factor: compound trees are parenthesised. */
  function ShowFactor(e: Ast): string
    decreases e, 0
  {
    match e
    case Num(ds) => ds
    case Name(x) => x
    case Bin(op, l, r) =>
      if IsAdditive(op) then "(" + ShowExpr(l) + [OpChar(op)] + ShowTerm(r) + ")"
      else "(" + ShowTerm(l) + [OpChar(op)] + ShowFactor(r) + ")"
  }

  /** The text `x` stands in `s` from position `p` on. */
  predicate ReadsAs(s: string, p: nat, x: string)
    decreases |x|
  {
    if x == [] then p <= |s| else p < |s| && s[p] == x[0] && ReadsAs(s, p + 1, x[1..])
  }

  /** Position `q` of `s` cannot extend a factor that ends there. */
  predicate FactorStopAt(s: string, q: nat) {
    q <= |s| && (q == |s| || !IsIdentChar(s[q]))
  }

  /** Position `q` of `s` cannot extend a term that ends there. */
  predicate TermStopAt(s: string, q: nat) {
    FactorStopAt(s, q) && (q == |s| || (s[q] != '*' && s[q] != '/' && s[q] != '%'))
  }

  /** Position `q` of `s` cannot extend an expression that ends there. */
  predicate ExprStopAt(s: string, q: nat) {
    TermStopAt(s, q) && (q == |s| || (s[q] != '+' && s[q] != '-'))
  }

  /** What may follow an expression without extending it. */
  predicate ExprStop(y: string) {
    ExprStopAt(y, 0)
  }

  /** A value and the position just after the text that produced it. */
  function At(r: Result<Int32, ParseError>, p: nat): Result<Parsed, ParseError> {
    match r
    case Success(v) => Success(Parsed(v, p))
    case Failure(m) => Failure(m)
  }

  /** The term loop continued from `q` with the value `r`, if there is one. */
  function ThenTerm(r: Result<Int32, ParseError>, s: string, vars: Variables, q: nat): Result<Parsed, ParseError>
    requires q <= |s|
  {
    match r
    case Success(v) => TermTail(s, vars, v, q)
    case Failure(m) => Failure(m)
  }

  /** The expression loop continued from `q` with the value `r`, if there is one. */
  function ThenExpr(r: Result<Int32, ParseError>, s: string, vars: Variables, q: nat): Result<Parsed, ParseError>
    requires q <= |s|
  {
    match r
    case Success(v) => ExpressionTail(s, vars, v, q)
    case Failure(m) => Failure(m)
  }

  lemma {:induction false} ReadsAsAt(s: string, p: nat, x: string, i: nat)
    requires ReadsAs(s, p, x)
    ensures p + |x| <= |s|
    ensures i < |x| ==> s[p + i] == x[i]
    decreases |x|
  {
    if x != [] {
      ReadsAsAt(s, p + 1, x[1..], if i == 0 then 0 else i - 1);
    }
  }

  lemma {:induction false} ReadsAsSlice(s: string, p: nat, x: string)
    requires ReadsAs(s, p, x)
    ensures p + |x| <= |s| && s[p..p + |x|] == x
  {
    ReadsAsAt(s, p, x, 0);
    forall i | 0 <= i < |x| ensures s[p..p + |x|][i] == x[i] {
      ReadsAsAt(s, p, x, i);
    }
  }

  lemma {:induction false} ReadsAsConcat(s: string, p: nat, a: string, b: string)
    ensures ReadsAs(s, p, a + b) <==> ReadsAs(s, p, a) && ReadsAs(s, p + |a|, b)
    decreases |a|
  {
    if a == [] {
      assert a + b == b;
      if ReadsAs(s, p, b) {
        ReadsAsAt(s, p, b, 0);
      }
    } else {
      assert (a + b)[0] == a[0];
      assert (a + b)[1..] == a[1..] + b;
      ReadsAsConcat(s, p + 1, a[1..], b);
    }
  }

  lemma {:induction false} ReadsAsRest(s: string, p: nat)
    requires p <= |s|
    ensures ReadsAs(s, p, s[p..])
    decreases |s| - p
  {
    if p < |s| {
      assert s[p..][1..] == s[p + 1..];
      ReadsAsRest(s, p + 1);
    }
  }

  lemma {:induction false} ReadsAsParts(s: string, p: nat, a: string, c: char, b: string)
    requires ReadsAs(s, p, a + [c] + b)
    ensures ReadsAs(s, p, a) && p + |a| < |s| && s[p + |a|] == c && ReadsAs(s, p + |a| + 1, b)
  {
    assert a + [c] + b == a + ([c] + b);
    ReadsAsConcat(s, p, a, [c] + b);
    assert ([c] + b)[1..] == b;
  }

  lemma {:induction false} DigitRun(s: string, p0: nat, p: nat, e: nat)
    requires p0 <= p <= e <= |s|
    requires forall i :: p0 <= i < e ==> IsDigit(s[i])
    requires e == |s| || !IsDigit(s[e])
    ensures NumberAt(s, p, Wrap(DecimalValue(s[p0..p]))) == Parsed(Wrap(DecimalValue(s[p0..e])), e)
    decreases e - p
  {
    if p < e {
      var x := DecimalValue(s[p0..p]);
      var d := DigitValue(s[p]);
      assert s[p0..p + 1][..p - p0] == s[p0..p];
      assert DecimalValue(s[p0..p + 1]) == x * 10 + d;
      WrapTimesTenPlus(x, d);
      assert Add(Mul(Wrap(x), 10), d) == Wrap(DecimalValue(s[p0..p + 1]));
      DigitRun(s, p0, p + 1, e);
    }
  }

  lemma {:induction false} IdentRun(s: string, p: nat, e: nat)
    requires p <= e <= |s|
    requires forall i :: p <= i < e ==> IsIdentChar(s[i])
    requires e == |s| || !IsIdentChar(s[e])
    ensures IdentifierEnd(s, p) == e
    decreases e - p
  {
    if p < e {
      IdentRun(s, p + 1, e);
    }
  }

  lemma {:induction false} BlankRun(s: string, p: nat, e: nat)
    requires p <= e <= |s|
    requires forall i :: p <= i < e ==> IsWhitespace(s[i])
    requires e == |s| || !IsWhitespace(s[e])
    ensures WhitespaceEnd(s, p) == e
    decreases e - p
  {
    if p < e {
      BlankRun(s, p + 1, e);
    }
  }

  lemma {:induction false} NumRoundTrip(ds: string, s: string, p: nat, vars: Variables)
    requires |ds| > 0 && AllDigits(ds) && ReadsAs(s, p, ds) && FactorStopAt(s, p + |ds|)
    ensures FactorAt(s, vars, p) == Success(Parsed(Wrap(DecimalValue(ds)), p + |ds|))
  {
    forall i | p <= i < p + |ds| ensures IsDigit(s[i]) {
      ReadsAsAt(s, p, ds, i - p);
    }
    ReadsAsSlice(s, p, ds);
    assert s[p] == ds[0];
    assert WhitespaceEnd(s, p) == p;
    DigitRun(s, p, p, p + |ds|);
    assert s[p..p] == [];
  }

  lemma {:induction false} NameRoundTrip(x: string, s: string, p: nat, vars: Variables)
    requires WellFormed(Name(x)) && ReadsAs(s, p, x) && FactorStopAt(s, p + |x|)
    ensures FactorAt(s, vars, p) == At(Eval(Name(x), vars), p + |x|)
  {
    forall i | p <= i < p + |x| ensures IsIdentChar(s[i]) {
      ReadsAsAt(s, p, x, i - p);
    }
    ReadsAsSlice(s, p, x);
    assert s[p] == x[0];
    assert WhitespaceEnd(s, p) == p;
    IdentRun(s, p, p + |x|);
  }

  /** The factor rule across a parenthesised expression followed directly by `)`. */
  lemma {:induction false} ParenJoin(s: string, vars: Variables, p: nat, q: nat, a: Result<Int32, ParseError>)
    requires p < q < |s| && s[p] == '(' && s[q] == ')'
    requires ExpressionAt(s, vars, p + 1) == ThenExpr(a, s, vars, q)
    ensures FactorAt(s, vars, p) == At(a, q + 1)
  {
    assert WhitespaceEnd(s, p) == p;
    if a.Success? {
      assert ExpressionTail(s, vars, a.value, q) == Success(Parsed(a.value, q));
      assert WhitespaceEnd(s, q) == q;
    }
  }

  lemma {:induction false} ParenRoundTrip(e: Ast, s: string, p: nat, vars: Variables)
    requires WellFormed(e) && e.Bin? && ReadsAs(s, p, ShowFactor(e)) && FactorStopAt(s, p + |ShowFactor(e)|)
    ensures FactorAt(s, vars, p) == At(Eval(e, vars), p + |ShowFactor(e)|)
    decreases |ShowFactor(e)|, 0
  {
    var x := ShowExpr(e);
    assert ShowFactor(e) == [] + ['('] + (x + [')']);
    ReadsAsParts(s, p, [], '(', x + [')']);
    assert x + [')'] == x + [')'] + [];
    ReadsAsParts(s, p + 1, x, ')', []);
    var q := p + 1 + |x|;
    ExprRoundTrip(e, s, p + 1, vars);
    ParenJoin(s, vars, p, q, Eval(e, vars));
    assert q + 1 == p + |ShowFactor(e)|;
  }

  /** Parsing a printed factor reads exactly that text and yields the tree's value. */
  lemma {:induction false} FactorRoundTrip(e: Ast, s: string, p: nat, vars: Variables)
    requires WellFormed(e) && ReadsAs(s, p, ShowFactor(e)) && FactorStopAt(s, p + |ShowFactor(e)|)
    ensures FactorAt(s, vars, p) == At(Eval(e, vars), p + |ShowFactor(e)|)
    decreases |ShowFactor(e)|, 1
  {
    match e
    case Num(ds) => NumRoundTrip(ds, s, p, vars);
    case Name(x) => NameRoundTrip(x, s, p, vars);
    case Bin(_, _, _) => ParenRoundTrip(e, s, p, vars);
  }

  /** One step of the term loop over an operator and a factor that parses. */
  lemma {:induction false} TermTailStepPrinted(s: string, vars: Variables, a: Int32, q: nat, op: Op, b: Int32, end: nat)
    requires !IsAdditive(op) && q < |s| && s[q] == OpChar(op)
    requires FactorAt(s, vars, q + 1) == Success(Parsed(b, end))
    ensures TermTail(s, vars, a, q) == ThenTerm(Apply(op, a, b), s, vars, end)
  {
  }

  /** One step of the term loop over an operator and a factor that fails. */
  lemma {:induction false} TermTailFails(s: string, vars: Variables, a: Int32, q: nat, op: Op, m: ParseError)
    requires !IsAdditive(op) && q < |s| && s[q] == OpChar(op)
    requires FactorAt(s, vars, q + 1) == Failure(m)
    ensures TermTail(s, vars, a, q) == Failure(m)
  {
  }

  /** Evaluating a compound tree: the left error, else the right error, else the operator. */
  lemma {:induction false} EvalBin(e: Ast, vars: Variables)
    requires WellFormed(e) && e.Bin?
    ensures Eval(e, vars) == Combine(e.op, Eval(e.left, vars), Eval(e.right, vars))
  {
  }

  function Combine(op: Op, a: Result<Int32, ParseError>, b: Result<Int32, ParseError>): Result<Int32, ParseError> {
    if a.Failure? then Failure(a.error)
    else if b.Failure? then Failure(b.error)
    else Apply(op, a.value, b.value)
  }

  /** The term loop across one `* / %` operator, given what its two sides parse to. */
  lemma {:induction false} TermJoin(s: string, vars: Variables, p: nat, q: nat, end: nat, op: Op,
                 a: Result<Int32, ParseError>, b: Result<Int32, ParseError>)
    requires p <= q < |s| && !IsAdditive(op) && s[q] == OpChar(op) && end <= |s|
    requires TermAt(s, vars, p) == ThenTerm(a, s, vars, q)
    requires FactorAt(s, vars, q + 1) == At(b, end)
    ensures TermAt(s, vars, p) == ThenTerm(Combine(op, a, b), s, vars, end)
  {
    if a.Success? {
      if b.Success? {
        TermTailStepPrinted(s, vars, a.value, q, op, b.value, end);
      } else {
        TermTailFails(s, vars, a.value, q, op, b.error);
      }
    }
  }

  /** Where the parts of a printed `* / %` tree stand in `s`. */
  lemma {:induction false} MulLayout(e: Ast, s: string, p: nat)
    requires e.Bin? && !IsAdditive(e.op) && ReadsAs(s, p, ShowTerm(e)) && FactorStopAt(s, p + |ShowTerm(e)|)
    ensures ReadsAs(s, p, ShowTerm(e.left))
    ensures p + |ShowTerm(e.left)| < |s| && s[p + |ShowTerm(e.left)|] == OpChar(e.op)
    ensures FactorStopAt(s, p + |ShowTerm(e.left)|)
    ensures ReadsAs(s, p + |ShowTerm(e.left)| + 1, ShowFactor(e.right))
    ensures p + |ShowTerm(e.left)| + 1 + |ShowFactor(e.right)| == p + |ShowTerm(e)|
  {
    assert ShowTerm(e) == ShowTerm(e.left) + [OpChar(e.op)] + ShowFactor(e.right);
    ReadsAsParts(s, p, ShowTerm(e.left), OpChar(e.op), ShowFactor(e.right));
  }

  /** The term rule across a printed `* / %` tree whose parts stand in `s` as `MulLayout` says. */
  lemma {:induction false} MulRoundTrip(e: Ast, s: string, p: nat, q: nat, vars: Variables)
    requires WellFormed(e) && e.Bin? && !IsAdditive(e.op)
    requires q == p + |ShowTerm(e.left)| && q < |s| && s[q] == OpChar(e.op)
    requires ReadsAs(s, p, ShowTerm(e.left)) && FactorStopAt(s, q)
    requires ReadsAs(s, q + 1, ShowFactor(e.right)) && FactorStopAt(s, q + 1 + |ShowFactor(e.right)|)
    ensures TermAt(s, vars, p) == ThenTerm(Eval(e, vars), s, vars, q + 1 + |ShowFactor(e.right)|)
    decreases |ShowTerm(e)|, 2
  {
    var end := q + 1 + |ShowFactor(e.right)|;
    TermRoundTrip(e.left, s, p, vars);
    FactorRoundTrip(e.right, s, q + 1, vars);
    TermJoin(s, vars, p, q, end, e.op, Eval(e.left, vars), Eval(e.right, vars));
    EvalBin(e, vars);
  }

  /** Parsing a printed term reads that text, then carries on with the term loop. */
  lemma {:induction false} TermRoundTrip(e: Ast, s: string, p: nat, vars: Variables)
    requires WellFormed(e) && ReadsAs(s, p, ShowTerm(e)) && FactorStopAt(s, p + |ShowTerm(e)|)
    ensures TermAt(s, vars, p) == ThenTerm(Eval(e, vars), s, vars, p + |ShowTerm(e)|)
    decreases |ShowTerm(e)|, 3
  {
    if e.Bin? && !IsAdditive(e.op) {
      MulLayout(e, s, p);
      MulRoundTrip(e, s, p, p + |ShowTerm(e.left)|, vars);
    } else {
      FactorRoundTrip(e, s, p, vars);
    }
  }

  /** One step of the expression loop over an operator and a term that parses. */
  lemma {:induction false} ExpressionTailStep(s: string, vars: Variables, a: Int32, q: nat, op: Op, b: Int32, end: nat)
    requires IsAdditive(op) && q < |s| && s[q] == OpChar(op)
    requires TermAt(s, vars, q + 1) == Success(Parsed(b, end))
    ensures ExpressionTail(s, vars, a, q) == ThenExpr(Apply(op, a, b), s, vars, end)
  {
  }

  /** One step of the expression loop over an operator and a term that fails. */
  lemma {:induction false} ExpressionTailFails(s: string, vars: Variables, a: Int32, q: nat, op: Op, m: ParseError)
    requires IsAdditive(op) && q < |s| && s[q] == OpChar(op)
    requires TermAt(s, vars, q + 1) == Failure(m)
    ensures ExpressionTail(s, vars, a, q) == Failure(m)
  {
  }

  /** The term loop stops where nothing can extend a term. */
  lemma {:induction false} TermTailStops(s: string, vars: Variables, a: Int32, q: nat)
    requires TermStopAt(s, q)
    ensures TermTail(s, vars, a, q) == Success(Parsed(a, q))
  {
  }

  /** An expression that is a single term ends where the term does. */
  lemma {:induction false} ExpressionOfTerm(s: string, vars: Variables, p: nat, q: nat, r: Result<Int32, ParseError>)
    requires p <= |s| && TermStopAt(s, q)
    requires TermAt(s, vars, p) == ThenTerm(r, s, vars, q)
    ensures ExpressionAt(s, vars, p) == ThenExpr(r, s, vars, q)
  {
    if r.Success? {
      TermTailStops(s, vars, r.value, q);
    }
  }

  /** The expression loop across one `+ -` operator, given what its two sides parse to. */
  lemma {:induction false} ExpressionJoin(s: string, vars: Variables, p: nat, q: nat, end: nat, op: Op,
                       a: Result<Int32, ParseError>, b: Result<Int32, ParseError>)
    requires p <= q < |s| && IsAdditive(op) && s[q] == OpChar(op) && TermStopAt(s, end)
    requires ExpressionAt(s, vars, p) == ThenExpr(a, s, vars, q)
    requires TermAt(s, vars, q + 1) == ThenTerm(b, s, vars, end)
    ensures ExpressionAt(s, vars, p) == ThenExpr(Combine(op, a, b), s, vars, end)
  {
    if a.Success? {
      if b.Success? {
        TermTailStops(s, vars, b.value, end);
        ExpressionTailStep(s, vars, a.value, q, op, b.value, end);
      } else {
        ExpressionTailFails(s, vars, a.value, q, op, b.error);
      }
    }
  }

  /** Where the parts of a printed `+ -` tree stand in `s`. */
  lemma {:induction false} AddLayout(e: Ast, s: string, p: nat)
    requires e.Bin? && IsAdditive(e.op) && ReadsAs(s, p, ShowExpr(e)) && TermStopAt(s, p + |ShowExpr(e)|)
    ensures ReadsAs(s, p, ShowExpr(e.left))
    ensures p + |ShowExpr(e.left)| < |s| && s[p + |ShowExpr(e.left)|] == OpChar(e.op)
    ensures TermStopAt(s, p + |ShowExpr(e.left)|)
    ensures ReadsAs(s, p + |ShowExpr(e.left)| + 1, ShowTerm(e.right))
    ensures p + |ShowExpr(e.left)| + 1 + |ShowTerm(e.right)| == p + |ShowExpr(e)|
  {
    assert ShowExpr(e) == ShowExpr(e.left) + [OpChar(e.op)] + ShowTerm(e.right);
    ReadsAsParts(s, p, ShowExpr(e.left), OpChar(e.op), ShowTerm(e.right));
  }

  /** The expression rule across a printed `+ -` tree whose parts stand in `s` as `AddLayout` says. */
  lemma {:induction false} AddRoundTrip(e: Ast, s: string, p: nat, q: nat, vars: Variables)
    requires WellFormed(e) && e.Bin? && IsAdditive(e.op)
    requires q == p + |ShowExpr(e.left)| && q < |s| && s[q] == OpChar(e.op)
    requires ReadsAs(s, p, ShowExpr(e.left)) && TermStopAt(s, q)
    requires ReadsAs(s, q + 1, ShowTerm(e.right)) && TermStopAt(s, q + 1 + |ShowTerm(e.right)|)
    ensures ExpressionAt(s, vars, p) == ThenExpr(Eval(e, vars), s, vars, q + 1 + |ShowTerm(e.right)|)
    decreases |ShowExpr(e)|, 4
  {
    var end := q + 1 + |ShowTerm(e.right)|;
    ExprRoundTrip(e.left, s, p, vars);
    TermRoundTrip(e.right, s, q + 1, vars);
    ExpressionJoin(s, vars, p, q, end, e.op, Eval(e.left, vars), Eval(e.right, vars));
    EvalBin(e, vars);
  }

  /** Parsing a printed expression reads that text, then carries on with the expression loop. */
  lemma {:induction false} ExprRoundTrip(e: Ast, s: string, p: nat, vars: Variables)
    requires WellFormed(e) && ReadsAs(s, p, ShowExpr(e)) && TermStopAt(s, p + |ShowExpr(e)|)
    ensures ExpressionAt(s, vars, p) == ThenExpr(Eval(e, vars), s, vars, p + |ShowExpr(e)|)
    decreases |ShowExpr(e)|, 5
  {
    if e.Bin? && IsAdditive(e.op) {
      AddLayout(e, s, p);
      AddRoundTrip(e, s, p, p + |ShowExpr(e.left)|, vars);
    } else {
      TermRoundTrip(e, s, p, vars);
      ExpressionOfTerm(s, vars, p, p + |ShowTerm(e)|, Eval(e, vars));
    }
  }

  /**
   * Parsing the printed form of any well-formed tree gives exactly the tree's
   * value, or the error its evaluation runs into first.
   */
  lemma {:induction false} ParsePrinted(e: Ast, vars: Variables)
    requires WellFormed(e)
    ensures Parse(ShowExpr(e), vars) == Eval(e, vars)
  {
    var s := ShowExpr(e);
    ReadsAsRest(s, 0);
    assert s[0..] == s;
    ExprRoundTrip(e, s, 0, vars);
  }

  /**
   * Text left over after a complete expression is an error unless it starts
   * with `+` or `-`: in particular whitespace in front of an operator is never
   * skipped, so `x *2` parses but `x * 2` fails at the space.
   */
  lemma {:induction false} TrailingTextRejected(e: Ast, y: string, vars: Variables)
    requires WellFormed(e) && y != [] && ExprStop(y)
    ensures Parse(ShowExpr(e) + y, vars) ==
            match Eval(e, vars)
            case Success(_) => Failure(TrailingCharacter(|ShowExpr(e)|))
            case Failure(m) => Failure(m)
  {
    var s := ShowExpr(e) + y;
    ReadsAsRest(s, 0);
    assert s[0..] == s;
    ReadsAsConcat(s, 0, ShowExpr(e), y);
    assert s[|ShowExpr(e)|] == y[0];
    ExprRoundTrip(e, s, 0, vars);
  }

  /**
   * After `(` and a complete expression, only whitespace and then `)` may follow;
   * anything else, the end of the text included, fails as a missing parenthesis.
   */
  lemma {:induction false} MissingClosingParenthesis(e: Ast, w: string, z: string, vars: Variables)
    requires WellFormed(e) && Eval(e, vars).Success?
    requires IsBlank(w) && ExprStop(w + z)
    requires z == [] || (z[0] != ')' && !IsWhitespace(z[0]))
    ensures Parse("(" + ShowExpr(e) + w + z, vars) == Failure(MissingParenthesis)
  {
    var x := ShowExpr(e);
    var s := "(" + x + w + z;
    var q := 1 + |x|;
    ReadsAsRest(s, 0);
    assert s[0..] == [] + ['('] + (x + (w + z));
    ReadsAsParts(s, 0, [], '(', x + (w + z));
    ReadsAsConcat(s, 1, x, w + z);
    ReadsAsAt(s, q, w + z, 0);
    ExprRoundTrip(e, s, 1, vars);
    var v := Eval(e, vars).value;
    assert ExpressionTail(s, vars, v, q) == Success(Parsed(v, q));
    forall i | q <= i < q + |w| ensures IsWhitespace(s[i]) {
      ReadsAsAt(s, q, w + z, i - q);
      assert (w + z)[i - q] == w[i - q];
    }
    ReadsAsAt(s, q, w + z, |w|);
    BlankRun(s, q, q + |w|);
    ParenUnclosed(s, vars, 0, v, q);
    assert TermAt(s, vars, 0) == Failure(MissingParenthesis);
    assert ExpressionAt(s, vars, 0) == Failure(MissingParenthesis);
  }

  /** The factor rule on `(` when no `)` follows the inner expression and its trailing blanks. */
  lemma {:induction false} ParenUnclosed(s: string, vars: Variables, p: nat, v: Int32, q: nat)
    requires p < q <= |s| && s[p] == '('
    requires ExpressionAt(s, vars, p + 1) == Success(Parsed(v, q))
    requires WhitespaceEnd(s, q) == |s| || s[WhitespaceEnd(s, q)] != ')'
    ensures FactorAt(s, vars, p) == Failure(MissingParenthesis)
  {
    assert WhitespaceEnd(s, p) == p;
  }

  /**
   * The first non-blank character of an expression must open a factor: there is
   * no unary minus, so `-1` fails at the `-`.
   */
  lemma {:induction false} LeadingCharacter(s: string, vars: Variables)
    requires WhitespaceEnd(s, 0) < |s|
    requires var c := s[WhitespaceEnd(s, 0)]; c != '(' && !IsDigit(c) && !IsIdentStart(c)
    ensures Parse(s, vars) == Failure(UnexpectedCharacter(s[WhitespaceEnd(s, 0)], WhitespaceEnd(s, 0)))
  {
    var q := WhitespaceEnd(s, 0);
    assert FactorAt(s, vars, 0).Failure?;
    assert TermAt(s, vars, 0).Failure?;
    assert ExpressionAt(s, vars, 0).Failure?;
  }
}
