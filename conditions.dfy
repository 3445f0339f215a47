/**
 * The condition evaluator: a condition is `left OP right` with OP the comparison
 * operator found earliest in the text. Both sides are trimmed and evaluated as
 * expressions, the left one first.
 */
module Conditions {
  import opened Outcomes
  import opened Int32s
  import opened Text
  import opened ExprParser
  import opened Errors

  /** The comparison operators in the order the search lists them. */
  const Operators: seq<string> := ["==", "!=", "<=", ">=", "<", ">"]

  /** An occurrence: the index of an operator's first occurrence and the operator. */
  type Occurrence = (nat, string)

  /**
   * `mapNotNull`: for each operator of `ops` that occurs in `cond`, in list order,
   * the index of its first occurrence.
   */
  function Occurrences(cond: string, ops: seq<string>): seq<Occurrence>
    decreases |ops|
  {
    if ops == [] then []
    else
      var i := IndexOf(cond, ops[0]);
      (if i == -1 then [] else [(i as nat, ops[0])]) + Occurrences(cond, ops[1..])
  }

  /** Every occurrence found names an operator of `ops` and where it first occurs. */
  lemma {:induction false} OccurrencesFound(cond: string, ops: seq<string>)
    ensures forall k :: 0 <= k < |Occurrences(cond, ops)| ==>
              Occurrences(cond, ops)[k].1 in ops && IndexOf(cond, Occurrences(cond, ops)[k].1) == Occurrences(cond, ops)[k].0
    decreases |ops|
  {
    if ops != [] {
      OccurrencesFound(cond, ops[1..]);
    }
  }

  /** `minByOrNull { it.first }`: of the pairs with the smallest index, the first one. */
  function EarliestOccurrence(ps: seq<Occurrence>): (r: Option<Occurrence>)
    ensures r.None? <==> ps == []
    ensures r.Some? ==> r.value in ps
  {
    if ps == [] then None
    else
      match EarliestOccurrence(ps[1..])
      case None => Some(ps[0])
      case Some(m) => if m.0 < ps[0].0 then Some(m) else Some(ps[0])
  }

  /** No pair has a smaller index than the one `minByOrNull` picks. */
  lemma {:induction false} EarliestIsMinimal(ps: seq<Occurrence>)
    ensures EarliestOccurrence(ps).Some? ==> forall k :: 0 <= k < |ps| ==> EarliestOccurrence(ps).value.0 <= ps[k].0
  {
    if ps != [] {
      EarliestIsMinimal(ps[1..]);
    }
  }

  /** The operator a condition is split at, and where. */
  function SelectOperator(cond: string): (r: Option<Occurrence>)
    ensures r.Some? ==> r.value.1 in Operators && OccursAt(cond, r.value.1, r.value.0)
  {
    OccurrencesFound(cond, Operators);
    EarliestOccurrence(Occurrences(cond, Operators))
  }

  /** `when (op)`: the comparison the operator names. */
  function Compare(op: string, left: Int32, right: Int32): Result<bool, Error> {
    if op == "==" then Success(left == right)
    else if op == "!=" then Success(left != right)
    else if op == "<" then Success(left < right)
    else if op == ">" then Success(left > right)
    else if op == "<=" then Success(left <= right)
    else if op == ">=" then Success(left >= right)
    else Failure(UnknownOperator(op))
  }

  /** An expression evaluated over the variables, its exception wrapped. */
  function EvaluateExpression(expr: string, vars: Variables): Result<Int32, Error> {
    match Parse(expr, vars)
    case Success(v) => Success(v)
    case Failure(e) => Failure(ExpressionError(e))
  }

  /** The text left of the operator at `i`. */
  function LeftOperand(cond: string, i: nat): string
    requires i <= |cond|
  {
    Trim(cond[..i])
  }

  /** The text right of the operator `op` at `i`. */
  function RightOperand(cond: string, i: nat, op: string): string
    requires i + |op| <= |cond|
  {
    Trim(cond[i + |op|..])
  }

  /** Splits `cond` at the selected operator, evaluates the left side, then the right one, and compares. */
  function Decide(cond: string, vars: Variables, selected: Option<Occurrence>): Result<bool, Error>
    requires selected.Some? ==> selected.value.0 + |selected.value.1| <= |cond|
  {
    match selected
    case None => Failure(InvalidCondition)
    case Some((i, op)) =>
      var left :- EvaluateExpression(LeftOperand(cond, i), vars);
      var right :- EvaluateExpression(RightOperand(cond, i, op), vars);
      Compare(op, left, right)
  }

  /** The earlier of two candidates, the first one on a tie (one step of `minByOrNull`). */
  function Earlier(a: Option<Occurrence>, b: Option<Occurrence>): Option<Occurrence> {
    match (a, b)
    case (None, _) => b
    case (_, None) => a
    case (Some(x), Some(y)) => if y.0 < x.0 then b else a
  }

  /** A candidate that occurs in `cond`, or none. */
  predicate Fits(cond: string, c: Option<Occurrence>) {
    c.Some? ==> OccursAt(cond, c.value.1, c.value.0)
  }

  /**
   * `evaluateCondition`: the operators of `ops` are looked for in turn, `best`
   * holding the earliest occurrence found so far; once all are scanned the
   * condition is split at `best`.
   */
  function Scan(cond: string, vars: Variables, ops: seq<string>, best: Option<Occurrence>): Result<bool, Error>
    requires Fits(cond, best)
    decreases |ops|, cond
  {
    if ops == [] then Decide(cond, vars, best)
    else
      var i := IndexOf(cond, ops[0]);
      Scan(cond, vars, ops[1..], if i == -1 then best else Earlier(best, Some((i as nat, ops[0]))))
  }

  /** `evaluateCondition` over the operator list `== != <= >= < >`. */
  function EvaluateCondition(cond: string, vars: Variables): Result<bool, Error> {
    Scan(cond, vars, Operators, None)
  }

  /** The scan splits at the earlier of `best` and the selected occurrence of `ops`. */
  lemma {:induction false} ScanSelects(cond: string, vars: Variables, ops: seq<string>, best: Option<Occurrence>)
    requires Fits(cond, best)
    ensures Fits(cond, Earlier(best, EarliestOccurrence(Occurrences(cond, ops))))
    ensures Scan(cond, vars, ops, best) == Decide(cond, vars, Earlier(best, EarliestOccurrence(Occurrences(cond, ops))))
    decreases |ops|
  {
    if ops == [] {
      assert Earlier(best, EarliestOccurrence(Occurrences(cond, ops))) == best;
    } else {
      var i := IndexOf(cond, ops[0]);
      var best' := if i == -1 then best else Earlier(best, Some((i as nat, ops[0])));
      ScanSelects(cond, vars, ops[1..], best');
      SearchStep(cond, ops, best);
    }
  }

  /** One step of the search: looking at the first operator and then at the rest selects what looking at all of them does. */
  lemma SearchStep(cond: string, ops: seq<string>, best: Option<Occurrence>)
    requires ops != []
    ensures var i := IndexOf(cond, ops[0]);
            var best' := if i == -1 then best else Earlier(best, Some((i as nat, ops[0])));
            Earlier(best', EarliestOccurrence(Occurrences(cond, ops[1..])))
              == Earlier(best, EarliestOccurrence(Occurrences(cond, ops)))
  {
    var i := IndexOf(cond, ops[0]);
    var rest := Occurrences(cond, ops[1..]);
    if i == -1 {
      assert Occurrences(cond, ops) == rest;
    } else {
      var p := (i as nat, ops[0]);
      assert Occurrences(cond, ops) == [p] + rest;
      EarliestCons(p, rest);
      assert Earlier(Earlier(best, Some(p)), EarliestOccurrence(rest)) == Earlier(best, Earlier(Some(p), EarliestOccurrence(rest)));
    }
  }

  /** The scan computes `mapNotNull`, then `minByOrNull`, then splits at the result. */
  lemma EvaluateConditionSelects(cond: string, vars: Variables)
    ensures EvaluateCondition(cond, vars) == Decide(cond, vars, SelectOperator(cond))
  {
    ScanSelects(cond, vars, Operators, None);
    assert Earlier(None, SelectOperator(cond)) == SelectOperator(cond);
  }

  /** Every listed operator is a comparison: `Unknown operator` is never thrown. */
  lemma CompareTotal(op: string, left: Int32, right: Int32)
    requires op in Operators
    ensures Compare(op, left, right).Success?
  {
  }

  /** A condition with no comparison operator is invalid. */
  lemma NoOperatorInvalid(cond: string, vars: Variables)
    requires forall k :: 0 <= k < |Operators| ==> IndexOf(cond, Operators[k]) == -1
    ensures EvaluateCondition(cond, vars) == Failure(InvalidCondition)
  {
    EvaluateConditionSelects(cond, vars);
    Selection(cond, Operators);
  }

  /**
   * The operator at position `j` of `ops` occurs in `cond`, no operator occurs
   * earlier, and every operator occurring at the same index comes later in the list.
   */
  predicate IsEarliest(cond: string, ops: seq<string>, j: nat) {
    && j < |ops| && IndexOf(cond, ops[j]) != -1
    && forall k :: 0 <= k < |ops| && IndexOf(cond, ops[k]) != -1 ==>
         IndexOf(cond, ops[j]) < IndexOf(cond, ops[k]) || (IndexOf(cond, ops[j]) == IndexOf(cond, ops[k]) && j <= k)
  }

  /**
   * The search picks the earliest operator, ties going to the one listed first;
   * it finds nothing exactly when no operator occurs.
   */
  lemma {:induction false} Selection(cond: string, ops: seq<string>)
    ensures EarliestOccurrence(Occurrences(cond, ops)).None? <==>
              forall k :: 0 <= k < |ops| ==> IndexOf(cond, ops[k]) == -1
    ensures EarliestOccurrence(Occurrences(cond, ops)).Some? ==>
              exists j: nat :: IsEarliest(cond, ops, j)
                          && EarliestOccurrence(Occurrences(cond, ops)).value == (IndexOf(cond, ops[j]), ops[j])
    decreases |ops|
  {
    if ops != [] {
      var rest := ops[1..];
      Selection(cond, rest);
      var i0 := IndexOf(cond, ops[0]);
      var r' := EarliestOccurrence(Occurrences(cond, rest));
      if i0 == -1 {
        SkipAbsent(cond, ops);
        if r'.Some? {
          var j': nat :| IsEarliest(cond, rest, j') && r'.value == (IndexOf(cond, rest[j']), rest[j']);
          EarliestShift(cond, ops, j');
        } else {
          AllAbsent(cond, ops);
        }
      } else {
        EarliestCons((i0 as nat, ops[0]), Occurrences(cond, rest));
        if r'.None? {
          EarliestHead(cond, ops, 0);
        } else {
          var j': nat :| IsEarliest(cond, rest, j') && r'.value == (IndexOf(cond, rest[j']), rest[j']);
          if r'.value.0 < i0 {
            EarliestShift(cond, ops, j');
          } else {
            EarliestHead(cond, ops, j');
          }
        }
      }
    }
  }

  /** An operator that does not occur adds no occurrence. */
  lemma SkipAbsent(cond: string, ops: seq<string>)
    requires ops != [] && IndexOf(cond, ops[0]) == -1
    ensures Occurrences(cond, ops) == Occurrences(cond, ops[1..])
  {
  }

  lemma AllAbsent(cond: string, ops: seq<string>)
    requires ops != [] && IndexOf(cond, ops[0]) == -1
    requires forall k :: 0 <= k < |ops[1..]| ==> IndexOf(cond, ops[1..][k]) == -1
    ensures forall k :: 0 <= k < |ops| ==> IndexOf(cond, ops[k]) == -1
  {
    forall k | 1 <= k < |ops| ensures IndexOf(cond, ops[k]) == -1 {
      assert ops[k] == ops[1..][k - 1];
    }
  }

  /** `minByOrNull` over a pair in front of others keeps the front pair unless a later one is smaller. */
  lemma EarliestCons(p: Occurrence, ps: seq<Occurrence>)
    ensures EarliestOccurrence([p] + ps) ==
              match EarliestOccurrence(ps)
              case None => Some(p)
              case Some(m) => if m.0 < p.0 then Some(m) else Some(p)
  {
    assert ([p] + ps)[1..] == ps;
  }

  /** The earliest operator of the rest, if it is strictly earlier than the first, is the earliest. */
  lemma EarliestShift(cond: string, ops: seq<string>, j': nat)
    requires ops != [] && IsEarliest(cond, ops[1..], j')
    requires IndexOf(cond, ops[0]) == -1 || IndexOf(cond, ops[1..][j']) < IndexOf(cond, ops[0])
    ensures IsEarliest(cond, ops, j' + 1) && ops[j' + 1] == ops[1..][j']
  {
    forall k | 1 <= k < |ops| ensures ops[k] == ops[1..][k - 1] {
    }
  }

  /** The first operator is the earliest when it occurs no later than all the rest. */
  lemma EarliestHead(cond: string, ops: seq<string>, j': nat)
    requires ops != [] && IndexOf(cond, ops[0]) != -1
    requires (forall k :: 0 <= k < |ops[1..]| ==> IndexOf(cond, ops[1..][k]) == -1)
             || (IsEarliest(cond, ops[1..], j') && IndexOf(cond, ops[0]) <= IndexOf(cond, ops[1..][j']))
    ensures IsEarliest(cond, ops, 0)
  {
    forall k | 1 <= k < |ops| ensures ops[k] == ops[1..][k - 1] {
    }
  }

  /** `<=` and `>=` are found before `<` and `>` when they start at the same index. */
  lemma LongerOperatorWins(cond: string)
    requires IndexOf(cond, "<=") != -1 && IndexOf(cond, "<=") == IndexOf(cond, "<")
    ensures SelectOperator(cond).Some? && SelectOperator(cond).value.1 != "<"
  {
    Selection(cond, Operators);
    var j: nat :| IsEarliest(cond, Operators, j) && SelectOperator(cond).value == (IndexOf(cond, Operators[j]), Operators[j]);
    assert Operators[2] == "<=" && Operators[4] == "<";
  }
}
