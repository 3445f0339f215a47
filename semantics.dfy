/**
 * What running a block program does, as functions on an explicit state: the
 * variables, the arrays (as value sequences) and the output trace. A handler
 * that throws stops the run; the outcome then carries the state reached so far,
 * which is what the interpreter's fields hold when the exception leaves it.
 *
 * A `While` block need not terminate, so every execution carries `fuel`: the
 * number of iterations any one `While` block may run before the execution gives
 * up with `OutOfFuel`.
 */
module Semantics {
  import opened Outcomes
  import opened Int32s
  import opened Text
  import opened ExprParser
  import opened Errors
  import opened Conditions
  import opened BlockTypes
  import opened CodeBlocks

  /** The variables, the arrays' elements and the trace written so far. */
  datatype State = State(variables: map<string, Int32>, arrays: map<string, seq<Int32>>, output: seq<Line>) {
    /** The state with one more trace line. */
    function Emit(line: Line): State {
      State(variables, arrays, output + [line])
    }
  }

  /** `clearState`: no variables, no arrays, no output. */
  const Empty: State := State(map[], map[], [])

  /** How an execution ended: normally, with an exception, or out of fuel. */
  datatype Status = Normal | Aborted(error: Error) | OutOfFuel

  datatype Outcome = Outcome(status: Status, state: State)

  /** The trace lines the handlers write, and the final error line. */
  datatype Line =
    | IfBranch(condition: string, taken: bool)
    | IfElseBranch(condition: string, taken: bool)
    | DeclaredVariable(name: string)
    | Assigned(name: string, value: Int32)
    | Evaluated(expression: string, value: Int32)
    | WhileTest(condition: string, holds: bool)
    | DeclaredArray(name: string, size: Int32)
    | Element(name: string, index: Int32, value: Int32)
    | Stored(name: string, index: Int32, value: Int32)
    | Failed(error: Error)

  function TruthWord(b: bool): string {
    if b then "TRUE" else "FALSE"
  }

  /** The exact text of a trace line. */
  function Render(line: Line): string {
    match line
    case IfBranch(c, b) => "Condition '" + c + "' is " + TruthWord(b)
    case IfElseBranch(c, b) =>
      "Condition '" + c + "' is " + TruthWord(b)
      + (if b then " (executing if branch)" else " (executing else branch)")
    case DeclaredVariable(n) => "Declared variable: " + n + " = 0"
    case Assigned(n, v) => n + " = " + IntToString(v)
    case Evaluated(e, v) => "Result: " + e + " = " + IntToString(v)
    case WhileTest(c, b) => "While condition '" + c + "' is " + TruthWord(b)
    case DeclaredArray(n, size) => "Declared array: " + n + "[" + IntToString(size) + "]"
    case Element(n, i, v) => n + "[" + IntToString(i) + "] = " + IntToString(v)
    case Stored(n, i, v) => "Set " + n + "[" + IntToString(i) + "] = " + IntToString(v)
    case Failed(e) => "Error: " + ErrorMessage(e)
  }

  /** The text of a trace. */
  function Lines(trace: seq<Line>): (r: seq<string>)
    ensures |r| == |trace| && forall k :: 0 <= k < |trace| ==> r[k] == Render(trace[k])
  {
    if trace == [] then [] else [Render(trace[0])] + Lines(trace[1..])
  }

  function Abort(e: Error, st: State): Outcome {
    Outcome(Aborted(e), st)
  }

  function Done(st: State): Outcome {
    Outcome(Normal, st)
  }

  // ---- Size of a block tree, the measure executions decrease on ----

  function Size(b: CodeBlock): nat
    decreases b, 1
  {
    1 + Sizes(b.children)
  }

  function Sizes(bs: seq<CodeBlock>): nat
    decreases bs, 0
  {
    if bs == [] then 0 else Size(bs[0]) + Sizes(bs[1..])
  }

  /** Every block of a list is at most as large as the whole list. */
  lemma {:induction false} SizeOfElement(bs: seq<CodeBlock>, k: nat)
    requires k < |bs|
    ensures Size(bs[k]) <= Sizes(bs)
  {
    if k > 0 {
      SizeOfElement(bs[1..], k - 1);
    }
  }

  /** `children.filter { it.parameters["branch"] == "else" }` and its complement. */
  function Branch(bs: seq<CodeBlock>, elseBranch: bool): (r: seq<CodeBlock>)
    ensures Sizes(r) <= Sizes(bs)
  {
    if bs == [] then []
    else
      var isElse := "branch" in bs[0].parameters && bs[0].parameters["branch"] == "else";
      var rest := Branch(bs[1..], elseBranch);
      if isElse == elseBranch then
        assert ([bs[0]] + rest)[1..] == rest;
        [bs[0]] + rest
      else rest
  }

  // ---- Executing blocks ----

  /** `executeBlocks`: the blocks in order, stopping at the first that does not finish normally. */
  function ExecBlocks(bs: seq<CodeBlock>, st: State, fuel: nat): Outcome
    decreases Sizes(bs), 3, 0
  {
    if bs == [] then Done(st)
    else
      var o := ExecBlock(bs[0], st, fuel);
      if o.status.Normal? then ExecBlocks(bs[1..], o.state, fuel) else o
  }

  /** The `when` on the block kind: exactly one handler per kind. */
  function ExecBlock(b: CodeBlock, st: State, fuel: nat): Outcome
    decreases Size(b), 2, 0
  {
    match b.kind
    case VariableDeclaration => DeclareVariables(b, st)
    case Assignment => Assign(b, st)
    case ArithmeticOperation => Arithmetic(b, st)
    case IfStatement => If(b, st, fuel)
    case IfElseStatement => IfElse(b, st, fuel)
    case WhileLoop => While(b, st, fuel)
    case ArrayDeclaration => DeclareArray(b, st)
    case ArrayAccess => AccessArray(b, st)
  }

  /** `handleIf`. */
  function If(b: CodeBlock, st: State, fuel: nat): Outcome
    decreases Size(b), 1, 0
  {
    if "condition" !in b.parameters then Abort(MissingCondition, st)
    else
      var c := b.parameters["condition"];
      match EvaluateCondition(c, st.variables)
      case Failure(e) => Abort(e, st)
      case Success(holds) =>
        var st1 := st.Emit(IfBranch(c, holds));
        if holds then ExecBlocks(b.children, st1, fuel) else Done(st1)
  }

  /** `handleIfElse`. */
  function IfElse(b: CodeBlock, st: State, fuel: nat): Outcome
    decreases Size(b), 1, 0
  {
    if "condition" !in b.parameters then Abort(MissingCondition, st)
    else
      var c := b.parameters["condition"];
      match EvaluateCondition(c, st.variables)
      case Failure(e) => Abort(e, st)
      case Success(holds) =>
        ExecBlocks(Branch(b.children, !holds), st.Emit(IfElseBranch(c, holds)), fuel)
  }

  /** `handleWhile`. */
  function While(b: CodeBlock, st: State, fuel: nat): Outcome
    decreases Size(b), 1, 0
  {
    if "condition" !in b.parameters then Abort(MissingCondition, st)
    else Loop(b, b.parameters["condition"], st, fuel, fuel)
  }

  /** The `while` loop of `handleWhile`, with at most `left` more iterations. */
  function Loop(b: CodeBlock, c: string, st: State, fuel: nat, left: nat): Outcome
    decreases Size(b), 0, left
  {
    match EvaluateCondition(c, st.variables)
    case Failure(e) => Abort(e, st)
    case Success(false) => Done(st.Emit(WhileTest(c, false)))
    case Success(true) =>
      if left == 0 then Outcome(OutOfFuel, st)
      else
        var o := ExecBlocks(b.children, st.Emit(WhileTest(c, true)), fuel);
        if o.status.Normal? then Loop(b, c, o.state, fuel, left - 1) else o
  }

  /** An iteration whose condition holds runs the children, then the loop goes on from the state they leave. */
  lemma LoopIterates(b: CodeBlock, c: string, st: State, fuel: nat, left: nat, rest: nat)
    requires left == rest + 1 && EvaluateCondition(c, st.variables) == Success(true)
    ensures var o := ExecBlocks(b.children, st.Emit(WhileTest(c, true)), fuel);
            Loop(b, c, st, fuel, left) == if o.status.Normal? then Loop(b, c, o.state, fuel, rest) else o
  {
    var o := ExecBlocks(b.children, st.Emit(WhileTest(c, true)), fuel);
    if o.status.Normal? {
      assert Loop(b, c, st, fuel, left) == Loop(b, c, o.state, fuel, rest);
    } else {
      assert Loop(b, c, st, fuel, left) == o;
    }
  }

  /** `handleVariableDeclaration`. */
  function DeclareVariables(b: CodeBlock, st: State): Outcome {
    if "names" !in b.parameters then Abort(MissingVariableNames, st)
    else DeclareNames(TrimAll(Split(b.parameters["names"], ',')), st)
  }

  /** `map { it.trim() }`. */
  function TrimAll(pieces: seq<string>): (names: seq<string>)
    ensures |names| == |pieces| && forall k :: 0 <= k < |pieces| ==> names[k] == Trim(pieces[k])
  {
    if pieces == [] then [] else [Trim(pieces[0])] + TrimAll(pieces[1..])
  }

  /** The `forEach` over the names: each new one is set to 0 and traced. */
  function DeclareNames(names: seq<string>, st: State): Outcome
    decreases |names|
  {
    if names == [] then Done(st)
    else
      var n := names[0];
      if IsBlank(n) then Abort(EmptyVariableName, st)
      else if n in st.variables then Abort(VariableExists(n), st)
      else
        var st1 := State(st.variables[n := 0], st.arrays, st.output + [DeclaredVariable(n)]);
        DeclareNames(names[1..], st1)
  }

  /** `handleAssignment`: the variable must exist before the expression is evaluated. */
  function Assign(b: CodeBlock, st: State): Outcome {
    if "varName" !in b.parameters then Abort(MissingVariableName, st)
    else if "expression" !in b.parameters then Abort(MissingExpression, st)
    else
      var n := b.parameters["varName"];
      if n !in st.variables then Abort(UndeclaredVariable(n), st)
      else
        match EvaluateExpression(b.parameters["expression"], st.variables)
        case Failure(e) => Abort(e, st)
        case Success(v) => Done(State(st.variables[n := v], st.arrays, st.output + [Assigned(n, v)]))
  }

  /** `handleArithmetic`. */
  function Arithmetic(b: CodeBlock, st: State): Outcome {
    if "expression" !in b.parameters then Abort(MissingExpression, st)
    else
      var e := b.parameters["expression"];
      match EvaluateExpression(e, st.variables)
      case Failure(err) => Abort(err, st)
      case Success(v) => Done(st.Emit(Evaluated(e, v)))
  }

  /** The size parameter read with `toIntOrNull`. */
  function IntParameter(b: CodeBlock, key: string): Option<Int32> {
    if key in b.parameters then ToIntOrNull(b.parameters[key]) else None
  }

  /** `handleArrayDeclaration`: the duplicate check comes before the size check. */
  function DeclareArray(b: CodeBlock, st: State): Outcome {
    if "name" !in b.parameters then Abort(MissingArrayName, st)
    else
      var n := b.parameters["name"];
      match IntParameter(b, "size")
      case None => Abort(InvalidArraySize, st)
      case Some(size) =>
        if n in st.arrays then Abort(ArrayExists(n), st)
        else if size <= 0 then Abort(NonPositiveArraySize, st)
        else
          var zeros: seq<Int32> := seq(size, _ => 0);
          Done(State(st.variables, st.arrays[n := zeros], st.output + [DeclaredArray(n, size)]))
  }

  /** `handleArrayAccess`: the bounds check comes before the operation is looked at. */
  function AccessArray(b: CodeBlock, st: State): Outcome {
    if "arrayName" !in b.parameters then Abort(MissingArrayName, st)
    else
      var n := b.parameters["arrayName"];
      match IntParameter(b, "index")
      case None => Abort(InvalidArrayIndex, st)
      case Some(i) =>
        if "operation" !in b.parameters then Abort(MissingOperation, st)
        else if n !in st.arrays then Abort(ArrayNotFound(n), st)
        else
          var a := st.arrays[n];
          if !(0 <= i < |a|) then Abort(IndexOutOfBounds(i), st)
          else
            var op := b.parameters["operation"];
            if op == "get" then Done(st.Emit(Element(n, i, a[i])))
            else if op == "set" then
              match IntParameter(b, "value")
              case None => Abort(MissingValue, st)
              case Some(v) =>
                var a': seq<Int32> := a[i := v];
                Done(State(st.variables, st.arrays[n := a'], st.output + [Stored(n, i, v)]))
            else Abort(UnknownOperation(op), st)
  }

  /**
   * `interpret`: the trace of a run from the empty state, with one `Error:` line
   * at the end if an exception stopped it; `None` if some `While` ran out of fuel.
   */
  function Interpret(blocks: seq<CodeBlock>, fuel: nat): Option<seq<string>> {
    var o := ExecBlocks(blocks, Empty, fuel);
    match o.status
    case Normal => Some(Lines(o.state.output))
    case Aborted(e) => Some(Lines(o.state.output + [Failed(e)]))
    case OutOfFuel => None
  }
}
