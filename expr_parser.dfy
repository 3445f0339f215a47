/**
 * The expression evaluator: a recursive-descent parser that computes the value
 * of an arithmetic expression while it reads it.
 *
 *   expression := term (('+' | '-') term)*
 *   term       := factor (('*' | '/' | '%') factor)*
 *   factor     := ws* (digits | identifier | '(' expression ws* ')')
 *
 * Whitespace is skipped only in front of a factor and in front of a closing
 * parenthesis, never in front of an operator. The functions below say what each
 * parsing routine returns from a given position; the class `Parser` is the
 * cursor-based implementation, proved to agree with them.
 */
module ExprParser {
  import opened Outcomes
  import opened Int32s
  import opened Text

  type Variables = map<string, Int32>

  /** A value read so far and the position just after it. */
  datatype Parsed = Parsed(value: Int32, pos: nat)

  /** The exceptions the parser throws, one constructor per message. */
  datatype ParseError =
    | UnexpectedEnd
    | MissingParenthesis
    | UnexpectedCharacter(c: char, at: nat)
    | UnknownVariable(name: string)
    | DivisionByZero
    | ModuloByZero
    | TrailingCharacter(at: nat)

  /** The exception's message text. */
  function Message(e: ParseError): string {
    match e
    case UnexpectedEnd => "Unexpected end of expression"
    case MissingParenthesis => "Missing closing parenthesis"
    case UnexpectedCharacter(c, at) => "Unexpected character '" + [c] + "' at position " + IntToString(at)
    case UnknownVariable(name) => "Unknown variable '" + name + "'"
    case DivisionByZero => "Division by zero"
    case ModuloByZero => "Modulo by zero"
    case TrailingCharacter(at) => "Unexpected character at position " + IntToString(at)
  }

  /** The first position at or after `p` that does not hold whitespace. */
  function WhitespaceEnd(s: string, p: nat): (q: nat)
    requires p <= |s|
    ensures p <= q <= |s|
    ensures q == |s| || !IsWhitespace(s[q])
    decreases |s| - p
  {
    if p < |s| && IsWhitespace(s[p]) then WhitespaceEnd(s, p + 1) else p
  }

  /** A digit run from `p`, accumulated onto `acc` as `acc * 10 + d` in wrapping arithmetic. */
  function NumberAt(s: string, p: nat, acc: Int32): (r: Parsed)
    requires p <= |s|
    ensures p <= r.pos <= |s|
    ensures r.pos == |s| || !IsDigit(s[r.pos])
    decreases |s| - p
  {
    if p < |s| && IsDigit(s[p]) then NumberAt(s, p + 1, Add(Mul(acc, 10), DigitValue(s[p])))
    else Parsed(acc, p)
  }

  /** The end of the run of identifier characters starting at `p`. */
  function IdentifierEnd(s: string, p: nat): (q: nat)
    requires p <= |s|
    ensures p <= q <= |s|
    ensures q == |s| || !IsIdentChar(s[q])
    decreases |s| - p
  {
    if p < |s| && IsIdentChar(s[p]) then IdentifierEnd(s, p + 1) else p
  }

  /** Every character skipped by `WhitespaceEnd` is whitespace. */
  lemma {:induction false} WhitespaceSkipped(s: string, p: nat)
    requires p <= |s|
    ensures forall i :: p <= i < WhitespaceEnd(s, p) ==> IsWhitespace(s[i])
    decreases |s| - p
  {
    if p < |s| && IsWhitespace(s[p]) {
      WhitespaceSkipped(s, p + 1);
    }
  }

  /** Every character read by `NumberAt` is a digit. */
  lemma {:induction false} DigitsRead(s: string, p: nat, acc: Int32)
    requires p <= |s|
    ensures forall i :: p <= i < NumberAt(s, p, acc).pos ==> IsDigit(s[i])
    decreases |s| - p
  {
    if p < |s| && IsDigit(s[p]) {
      DigitsRead(s, p + 1, Add(Mul(acc, 10), DigitValue(s[p])));
    }
  }

  /** Every character of the run found by `IdentifierEnd` may appear in an identifier. */
  lemma {:induction false} IdentifierRead(s: string, p: nat)
    requires p <= |s|
    ensures forall i :: p <= i < IdentifierEnd(s, p) ==> IsIdentChar(s[i])
    decreases |s| - p
  {
    if p < |s| && IsIdentChar(s[p]) {
      IdentifierRead(s, p + 1);
    }
  }

  /** An identifier from `p`, looked up among the variables (arrays are not visible). */
  function VariableAt(s: string, vars: Variables, p: nat): (r: Result<Parsed, ParseError>)
    requires p <= |s|
    ensures r.Success? ==> p <= r.value.pos <= |s|
  {
    var e := IdentifierEnd(s, p);
    var name := s[p..e];
    if name in vars then Success(Parsed(vars[name], e))
    else Failure(UnknownVariable(name))
  }

  function ExpressionAt(s: string, vars: Variables, p: nat): (r: Result<Parsed, ParseError>)
    requires p <= |s|
    ensures r.Success? ==> p < r.value.pos <= |s|
    decreases |s| - p, 2
  {
    var first :- TermAt(s, vars, p);
    ExpressionTail(s, vars, first.value, first.pos)
  }

  /** The `(('+' | '-') term)*` loop, with `acc` the value so far. */
  function ExpressionTail(s: string, vars: Variables, acc: Int32, p: nat): (r: Result<Parsed, ParseError>)
    requires p <= |s|
    ensures r.Success? ==> p <= r.value.pos <= |s|
    decreases |s| - p, 0
  {
    if p < |s| && IsAdditiveOperator(s[p]) then
      var t :- TermAt(s, vars, p + 1);
      ExpressionTail(s, vars, AddOrSubtract(s[p], acc, t.value), t.pos)
    else
      Success(Parsed(acc, p))
  }

  predicate IsAdditiveOperator(c: char) {
    c == '+' || c == '-'
  }

  predicate IsMultiplicativeOperator(c: char) {
    c == '*' || c == '/' || c == '%'
  }

  /** `acc += t` or `acc -= t` in wrapping arithmetic. */
  function AddOrSubtract(op: char, a: Int32, b: Int32): Int32
    requires IsAdditiveOperator(op)
  {
    if op == '+' then Add(a, b) else Sub(a, b)
  }

  /** `acc *= f`, `acc /= f` or `acc %= f`; a zero divisor is an error instead. */
  function MultiplyOrDivide(op: char, a: Int32, b: Int32): Result<Int32, ParseError>
    requires IsMultiplicativeOperator(op)
  {
    if op == '*' then Success(Mul(a, b))
    else if b == 0 then Failure(if op == '/' then DivisionByZero else ModuloByZero)
    else if op == '/' then Success(Div(a, b))
    else Success(Rem(a, b))
  }

  function TermAt(s: string, vars: Variables, p: nat): (r: Result<Parsed, ParseError>)
    requires p <= |s|
    ensures r.Success? ==> p < r.value.pos <= |s|
    decreases |s| - p, 1
  {
    var first :- FactorAt(s, vars, p);
    TermTail(s, vars, first.value, first.pos)
  }

  /** The `(('*' | '/' | '%') factor)*` loop; a zero divisor fails once the factor is read. */
  function TermTail(s: string, vars: Variables, acc: Int32, p: nat): (r: Result<Parsed, ParseError>)
    requires p <= |s|
    ensures r.Success? ==> p <= r.value.pos <= |s|
    decreases |s| - p, 0
  {
    if p < |s| && IsMultiplicativeOperator(s[p]) then
      var f :- FactorAt(s, vars, p + 1);
      var v :- MultiplyOrDivide(s[p], acc, f.value);
      TermTail(s, vars, v, f.pos)
    else
      Success(Parsed(acc, p))
  }

  function FactorAt(s: string, vars: Variables, p: nat): (r: Result<Parsed, ParseError>)
    requires p <= |s|
    ensures r.Success? ==> p < r.value.pos <= |s|
    decreases |s| - p, 0
  {
    var q := WhitespaceEnd(s, p);
    if q >= |s| then Failure(UnexpectedEnd)
    else if s[q] == '(' then ParenAt(s, vars, q + 1)
    else if IsDigit(s[q]) then Success(NumberAt(s, q, 0))
    else if IsIdentStart(s[q]) then VariableAt(s, vars, q)
    else Failure(UnexpectedCharacter(s[q], q))
  }

  /** A parenthesised expression whose text starts at `p`, just after the `(`. */
  function ParenAt(s: string, vars: Variables, p: nat): (r: Result<Parsed, ParseError>)
    requires p <= |s|
    ensures r.Success? ==> p < r.value.pos <= |s|
    decreases |s| - p, 3
  {
    var inner :- ExpressionAt(s, vars, p);
    var c := WhitespaceEnd(s, inner.pos);
    if c >= |s| || s[c] != ')' then Failure(MissingParenthesis)
    else Success(Parsed(inner.value, c + 1))
  }

  /** `parse()` from position `p`: an expression that must reach the end of the input. */
  function ParseFrom(s: string, vars: Variables, p: nat): (r: Result<Int32, ParseError>)
    requires p <= |s|
  {
    var e :- ExpressionAt(s, vars, p);
    if e.pos < |s| then Failure(TrailingCharacter(e.pos))
    else Success(e.value)
  }

  /** `parse()` succeeds exactly when one expression spans the rest of the input. */
  lemma ParseSpansInput(s: string, vars: Variables, p: nat)
    requires p <= |s|
    ensures ParseFrom(s, vars, p).Success? <==> ExpressionAt(s, vars, p).Success? && ExpressionAt(s, vars, p).value.pos == |s|
    ensures ParseFrom(s, vars, p).Success? ==> ParseFrom(s, vars, p).value == ExpressionAt(s, vars, p).value.value
  {
  }

  /** `Parser(s).parse()`: the value of the whole text `s`, or the error it throws. */
  function Parse(s: string, vars: Variables): Result<Int32, ParseError> {
    ParseFrom(s, vars, 0)
  }

  /** A method result and cursor agree with what a parsing function returns. */
  predicate Agrees(r: Result<Int32, ParseError>, pos: nat, spec: Result<Parsed, ParseError>) {
    && (r.Success? ==> spec == Success(Parsed(r.value, pos)))
    && (r.Failure? ==> spec == Failure(r.error))
  }

  /** One step of the term loop over an operator whose right-hand factor parses to `f`. */
  lemma TermTailStep(s: string, vars: Variables, acc: Int32, p: nat, f: Parsed)
    requires p < |s| && IsMultiplicativeOperator(s[p])
    requires FactorAt(s, vars, p + 1) == Success(f)
    ensures MultiplyOrDivide(s[p], acc, f.value).Failure? ==>
              TermTail(s, vars, acc, p) == Failure(MultiplyOrDivide(s[p], acc, f.value).error)
    ensures MultiplyOrDivide(s[p], acc, f.value).Success? ==>
              TermTail(s, vars, acc, p) == TermTail(s, vars, MultiplyOrDivide(s[p], acc, f.value).value, f.pos)
  {
  }

  /** The term loop fails when the factor after an operator fails. */
  lemma TermTailFactorFails(s: string, vars: Variables, acc: Int32, p: nat)
    requires p < |s| && IsMultiplicativeOperator(s[p])
    requires FactorAt(s, vars, p + 1).Failure?
    ensures TermTail(s, vars, acc, p) == Failure(FactorAt(s, vars, p + 1).error)
  {
  }

  /** The term loop stops at the end of the input or in front of any other character. */
  lemma TermTailEnds(s: string, vars: Variables, acc: Int32, p: nat)
    requires p <= |s|
    requires p == |s| || !IsMultiplicativeOperator(s[p])
    ensures TermTail(s, vars, acc, p) == Success(Parsed(acc, p))
  {
  }

  /**
   * The parser of the source: a cursor `pos` over `input`, advanced by the parsing
   * methods. After a failure the cursor is not specified: the parser is then dropped.
   */
  class Parser {
    const input: string
    const variables: Variables
    var pos: nat

    constructor (input: string, variables: Variables)
      ensures this.input == input && this.variables == variables && pos == 0
    {
      this.input := input;
      this.variables := variables;
      pos := 0;
    }

    method Parse() returns (r: Result<Int32, ParseError>)
      requires pos <= |input|
      modifies this
      ensures r == ParseFrom(input, variables, old(pos))
    {
      var result := ParseExpression();
      if result.Failure? {
        return result;
      }
      if pos < |input| {
        return Failure(TrailingCharacter(pos));
      }
      return result;
    }

    method ParseExpression() returns (r: Result<Int32, ParseError>)
      requires pos <= |input|
      modifies this
      ensures pos <= |input|
      ensures Agrees(r, pos, ExpressionAt(input, variables, old(pos)))
      decreases |input| - pos, 2
    {
      ghost var start := pos;
      var first := ParseTerm();
      if first.Failure? {
        return first;
      }
      var result := first.value;
      while pos < |input|
        invariant start < pos <= |input|
        invariant ExpressionAt(input, variables, start) == ExpressionTail(input, variables, result, pos)
        decreases |input| - pos
      {
        var c := input[pos];
        if c == '+' {
          pos := pos + 1;
          var t := ParseTerm();
          if t.Failure? {
            return t;
          }
          result := Add(result, t.value);
        } else if c == '-' {
          pos := pos + 1;
          var t := ParseTerm();
          if t.Failure? {
            return t;
          }
          result := Sub(result, t.value);
        } else {
          break;
        }
      }
      return Success(result);
    }

    method ParseTerm() returns (r: Result<Int32, ParseError>)
      requires pos <= |input|
      modifies this
      ensures pos <= |input|
      ensures Agrees(r, pos, TermAt(input, variables, old(pos)))
      decreases |input| - pos, 1
    {
      ghost var start := pos;
      var first := ParseFactor();
      if first.Failure? {
        return first;
      }
      var result := first.value;
      while pos < |input|
        invariant start < pos <= |input|
        invariant TermAt(input, variables, start) == TermTail(input, variables, result, pos)
        decreases |input| - pos
      {
        var c := input[pos];
        if IsMultiplicativeOperator(c) {
          ghost var at := pos;
          pos := pos + 1;
          var f := ParseFactor();
          if f.Failure? {
            TermTailFactorFails(input, variables, result, at);
            return f;
          }
          TermTailStep(input, variables, result, at, Parsed(f.value, pos));
          if c == '*' {
            result := Mul(result, f.value);
          } else if c == '/' {
            if f.value == 0 {
              return Failure(DivisionByZero);
            }
            result := Div(result, f.value);
          } else {
            if f.value == 0 {
              return Failure(ModuloByZero);
            }
            result := Rem(result, f.value);
          }
        } else {
          TermTailEnds(input, variables, result, pos);
          break;
        }
      }
      if pos == |input| {
        TermTailEnds(input, variables, result, pos);
      }
      return Success(result);
    }

    method ParseFactor() returns (r: Result<Int32, ParseError>)
      requires pos <= |input|
      modifies this
      ensures pos <= |input|
      ensures Agrees(r, pos, FactorAt(input, variables, old(pos)))
      decreases |input| - pos, 0
    {
      SkipWhitespace();
      if pos >= |input| {
        return Failure(UnexpectedEnd);
      }
      var c := input[pos];
      if c == '(' {
        pos := pos + 1;
        var result := ParseExpression();
        if result.Failure? {
          return result;
        }
        SkipWhitespace();
        if pos >= |input| || input[pos] != ')' {
          return Failure(MissingParenthesis);
        }
        pos := pos + 1;
        return result;
      } else if IsDigit(c) {
        var n := ParseNumber();
        return Success(n);
      } else if IsIdentStart(c) {
        r := ParseVariable();
      } else {
        return Failure(UnexpectedCharacter(c, pos));
      }
    }

    method ParseNumber() returns (num: Int32)
      requires pos <= |input|
      modifies this
      ensures NumberAt(input, old(pos), 0) == Parsed(num, pos)
    {
      num := 0;
      while pos < |input| && IsDigit(input[pos])
        invariant old(pos) <= pos <= |input|
        invariant NumberAt(input, old(pos), 0) == NumberAt(input, pos, num)
        decreases |input| - pos
      {
        num := Add(Mul(num, 10), DigitValue(input[pos]));
        pos := pos + 1;
      }
    }

    method ParseVariable() returns (r: Result<Int32, ParseError>)
      requires pos <= |input|
      modifies this
      ensures pos <= |input|
      ensures Agrees(r, pos, VariableAt(input, variables, old(pos)))
    {
      var start := pos;
      while pos < |input| && IsIdentChar(input[pos])
        invariant start <= pos <= |input|
        invariant IdentifierEnd(input, start) == IdentifierEnd(input, pos)
        decreases |input| - pos
      {
        pos := pos + 1;
      }
      var name := input[start..pos];
      if name in variables {
        return Success(variables[name]);
      }
      return Failure(UnknownVariable(name));
    }

    method SkipWhitespace()
      requires pos <= |input|
      modifies this
      ensures pos == WhitespaceEnd(input, old(pos))
    {
      while pos < |input| && IsWhitespace(input[pos])
        invariant old(pos) <= pos <= |input|
        invariant WhitespaceEnd(input, old(pos)) == WhitespaceEnd(input, pos)
        decreases |input| - pos
      {
        pos := pos + 1;
      }
    }
  }
}
