/**
 * The interpreter object of the source: three mutable collections updated by the
 * block handlers. Arrays are heap arrays written in place, held in a map from
 * names to arrays that never shares one array between two names.
 *
 * Every method is proved against the functions of `Semantics`: the status it
 * returns and the abstract state it leaves are what the matching function
 * computes from the state before the call. An exception of the source is an
 * `Aborted` status returned at once; `OutOfFuel` is returned when some `While`
 * block would run more than `fuel` iterations.
 */
module Engine {
  import opened Outcomes
  import opened Int32s
  import opened Text
  import opened ExprParser
  import opened Errors
  import opened BlockTypes
  import opened CodeBlocks
  import Conditions
  import Semantics

  type Status = Semantics.Status

  class Interpreter {
    var variables: map<string, Int32>
    var arrays: map<string, array<Int32>>
    var output: seq<Semantics.Line>
    /** The name each array is held under. */
    ghost var owner: map<array<Int32>, string>
    /** The elements of each array, as a value. */
    ghost var contents: map<string, seq<Int32>>

    /**
     * No array is reachable under two names (each one's owner is the name it is
     * held under), and `contents` holds the elements of exactly the arrays held.
     */
    ghost predicate Valid()
      reads this`arrays, this`owner, this`contents, arrays.Values
    {
      && (forall n :: n in arrays ==> arrays[n] in owner && owner[arrays[n]] == n)
      && contents.Keys == arrays.Keys
      && (forall n :: n in arrays ==> arrays[n][..] == contents[n])
    }

    /** The state as the functions of `Semantics` see it. */
    ghost function Abstract(): Semantics.State
      reads this
    {
      Semantics.State(variables, contents, output)
    }

    /** Every array held now was held on entry or is new. */
    twostate predicate ArraysGrown()
      reads this`arrays
    {
      forall n :: n in arrays ==> arrays[n] in old(arrays.Values) || fresh(arrays[n])
    }

    constructor ()
      ensures Valid() && Abstract() == Semantics.Empty
    {
      variables := map[];
      arrays := map[];
      output := [];
      owner := map[];
      contents := map[];
    }

    /** `clearState`. */
    method ClearState()
      modifies this
      ensures variables == map[] && arrays == map[] && output == []
      ensures Valid() && Abstract() == Semantics.Empty
    {
      variables := map[];
      arrays := map[];
      output := [];
      owner := map[];
      contents := map[];
    }

    /** `interpret`: the trace of the run, which is also what `output` then holds. */
    method Interpret(blocks: seq<CodeBlock>, fuel: nat) returns (out: Option<seq<string>>)
      modifies this, arrays.Values
      ensures Valid()
      ensures out == Semantics.Interpret(blocks, fuel)
      ensures out.Some? ==> out.value == Semantics.Lines(output)
    {
      ClearState();
      var status := ExecuteBlocks(blocks, fuel);
      match status
      case Normal =>
        out := Some(Semantics.Lines(output));
      case Aborted(e) =>
        output := output + [Semantics.Failed(e)];
        out := Some(Semantics.Lines(output));
      case OutOfFuel =>
        out := None;
    }

    /** `executeBlocks`: the `forEach` over the blocks. */
    method ExecuteBlocks(bs: seq<CodeBlock>, fuel: nat) returns (status: Status)
      requires Valid()
      modifies this, arrays.Values
      ensures Valid() && ArraysGrown()
      ensures Semantics.Outcome(status, Abstract()) == Semantics.ExecBlocks(bs, old(Abstract()), fuel)
      decreases Semantics.Sizes(bs), 3, 0
    {
      var k := 0;
      while k < |bs|
        invariant 0 <= k <= |bs|
        invariant Valid() && ArraysGrown()
        invariant Semantics.ExecBlocks(bs, old(Abstract()), fuel) == Semantics.ExecBlocks(bs[k..], Abstract(), fuel)
      {
        Semantics.SizeOfElement(bs, k);
        status := ExecuteBlock(bs[k], fuel);
        if !status.Normal? {
          return;
        }
        k := k + 1;
      }
      return Semantics.Normal;
    }

    /** The `when` on the block kind. */
    method ExecuteBlock(b: CodeBlock, fuel: nat) returns (status: Status)
      requires Valid()
      modifies this, arrays.Values
      ensures Valid() && ArraysGrown()
      ensures Semantics.Outcome(status, Abstract()) == Semantics.ExecBlock(b, old(Abstract()), fuel)
      decreases Semantics.Size(b), 2, 0
    {
      match b.kind
      case VariableDeclaration => status := HandleVariableDeclaration(b);
      case Assignment => status := HandleAssignment(b);
      case ArithmeticOperation => status := HandleArithmetic(b);
      case IfStatement => status := HandleIf(b, fuel);
      case IfElseStatement => status := HandleIfElse(b, fuel);
      case WhileLoop => status := HandleWhile(b, fuel);
      case ArrayDeclaration => status := HandleArrayDeclaration(b);
      case ArrayAccess => status := HandleArrayAccess(b);
    }

    /** `handleIfElse`. */
    method HandleIfElse(b: CodeBlock, fuel: nat) returns (status: Status)
      requires Valid()
      modifies this, arrays.Values
      ensures Valid() && ArraysGrown()
      ensures Semantics.Outcome(status, Abstract()) == Semantics.IfElse(b, old(Abstract()), fuel)
      decreases Semantics.Size(b), 1, 0
    {
      if "condition" !in b.parameters {
        return Semantics.Aborted(MissingCondition);
      }
      var condition := b.parameters["condition"];
      var isTrue := EvaluateCondition(condition);
      if isTrue.Failure? {
        return Semantics.Aborted(isTrue.error);
      }
      output := output + [Semantics.IfElseBranch(condition, isTrue.value)];
      assert Semantics.IfElse(b, old(Abstract()), fuel)
          == Semantics.ExecBlocks(Semantics.Branch(b.children, !isTrue.value), Abstract(), fuel);
      status := ExecuteBlocks(Semantics.Branch(b.children, !isTrue.value), fuel);
    }

    /** `handleVariableDeclaration`: the names in order, each declared and traced. */
    method HandleVariableDeclaration(b: CodeBlock) returns (status: Status)
      requires Valid()
      modifies this
      ensures Valid() && arrays == old(arrays)
      ensures Semantics.Outcome(status, Abstract()) == Semantics.DeclareVariables(b, old(Abstract()))
    {
      if "names" !in b.parameters {
        return Semantics.Aborted(MissingVariableNames);
      }
      var names := Semantics.TrimAll(Split(b.parameters["names"], ','));
      var k := 0;
      while k < |names|
        invariant 0 <= k <= |names|
        invariant arrays == old(arrays) && contents == old(contents) && owner == old(owner)
        invariant Semantics.DeclareNames(names, old(Abstract())) == Semantics.DeclareNames(names[k..], Abstract())
      {
        var name := names[k];
        if IsBlank(name) {
          return Semantics.Aborted(EmptyVariableName);
        }
        if name in variables {
          return Semantics.Aborted(VariableExists(name));
        }
        variables := variables[name := 0];
        output := output + [Semantics.DeclaredVariable(name)];
        k := k + 1;
      }
      return Semantics.Normal;
    }

    /** `handleAssignment`. */
    method HandleAssignment(b: CodeBlock) returns (status: Status)
      requires Valid()
      modifies this
      ensures Valid() && arrays == old(arrays)
      ensures Semantics.Outcome(status, Abstract()) == Semantics.Assign(b, old(Abstract()))
    {
      if "varName" !in b.parameters {
        return Semantics.Aborted(MissingVariableName);
      }
      if "expression" !in b.parameters {
        return Semantics.Aborted(MissingExpression);
      }
      var varName := b.parameters["varName"];
      if varName !in variables {
        return Semantics.Aborted(UndeclaredVariable(varName));
      }
      var value := EvaluateExpression(b.parameters["expression"]);
      if value.Failure? {
        return Semantics.Aborted(value.error);
      }
      variables := variables[varName := value.value];
      output := output + [Semantics.Assigned(varName, value.value)];
      return Semantics.Normal;
    }

    /** `handleArithmetic`. */
    method HandleArithmetic(b: CodeBlock) returns (status: Status)
      requires Valid()
      modifies this
      ensures Valid() && arrays == old(arrays)
      ensures Semantics.Outcome(status, Abstract()) == Semantics.Arithmetic(b, old(Abstract()))
    {
      if "expression" !in b.parameters {
        return Semantics.Aborted(MissingExpression);
      }
      var expr := b.parameters["expression"];
      var result := EvaluateExpression(expr);
      if result.Failure? {
        return Semantics.Aborted(result.error);
      }
      output := output + [Semantics.Evaluated(expr, result.value)];
      return Semantics.Normal;
    }

    /** `handleIf`. */
    method HandleIf(b: CodeBlock, fuel: nat) returns (status: Status)
      requires Valid()
      modifies this, arrays.Values
      ensures Valid() && ArraysGrown()
      ensures Semantics.Outcome(status, Abstract()) == Semantics.If(b, old(Abstract()), fuel)
      decreases Semantics.Size(b), 1, 0
    {
      if "condition" !in b.parameters {
        return Semantics.Aborted(MissingCondition);
      }
      var condition := b.parameters["condition"];
      var isTrue := EvaluateCondition(condition);
      if isTrue.Failure? {
        return Semantics.Aborted(isTrue.error);
      }
      output := output + [Semantics.IfBranch(condition, isTrue.value)];
      if isTrue.value {
        status := ExecuteBlocks(b.children, fuel);
      } else {
        status := Semantics.Normal;
      }
    }

    /** `handleWhile`: the condition is evaluated again before every iteration. */
    method HandleWhile(b: CodeBlock, fuel: nat) returns (status: Status)
      requires Valid()
      modifies this, arrays.Values
      ensures Valid() && ArraysGrown()
      ensures Semantics.Outcome(status, Abstract()) == Semantics.While(b, old(Abstract()), fuel)
      decreases Semantics.Size(b), 1, 0
    {
      if "condition" !in b.parameters {
        return Semantics.Aborted(MissingCondition);
      }
      var condition := b.parameters["condition"];
      var left := fuel;
      ghost var goal := Semantics.While(b, Abstract(), fuel);
      while true
        invariant Valid() && ArraysGrown()
        invariant goal == Semantics.Loop(b, condition, Abstract(), fuel, left)
        decreases left
      {
        var stop;
        stop, status, left := WhileStep(b, condition, fuel, left, goal);
        if stop {
          if status.Normal? {
            break;
          }
          return;
        }
      }
      output := output + [Semantics.WhileTest(condition, false)];
      return Semantics.Normal;
    }

    /**
     * One test of the `while` condition with at most `left` iterations to go,
     * where `goal` is what the rest of the loop yields: if the condition holds,
     * one iteration (the TRUE line, then the children). `stop` with a `Normal`
     * status means that the condition was false and that nothing has changed.
     */
    method WhileStep(b: CodeBlock, condition: string, fuel: nat, left: nat, ghost goal: Semantics.Outcome)
      returns (stop: bool, status: Status, rest: nat)
      requires Valid()
      requires goal == Semantics.Loop(b, condition, Abstract(), fuel, left)
      modifies this, arrays.Values
      ensures Valid() && ArraysGrown()
      ensures !stop ==> rest < left && goal == Semantics.Loop(b, condition, Abstract(), fuel, rest)
      ensures stop && status.Normal? ==>
                Abstract() == old(Abstract()) && goal == Semantics.Done(Abstract().Emit(Semantics.WhileTest(condition, false)))
      ensures stop && !status.Normal? ==> goal == Semantics.Outcome(status, Abstract())
      decreases Semantics.Size(b), 0, 0
    {
      var isTrue := EvaluateCondition(condition);
      if isTrue.Failure? {
        return true, Semantics.Aborted(isTrue.error), left;
      }
      if !isTrue.value {
        return true, Semantics.Normal, left;
      }
      if left == 0 {
        return true, Semantics.OutOfFuel, left;
      }
      rest := left - 1;
      Semantics.LoopIterates(b, condition, Abstract(), fuel, left, rest);
      ghost var tested := Abstract().Emit(Semantics.WhileTest(condition, true));
      output := output + [Semantics.WhileTest(condition, true)];
      assert Abstract() == tested;
      status := ExecuteBlocks(b.children, fuel);
      stop := !status.Normal?;
    }

    /** `handleArrayDeclaration`: a new all-zero array. */
    method HandleArrayDeclaration(b: CodeBlock) returns (status: Status)
      requires Valid()
      modifies this
      ensures Valid() && ArraysGrown()
      ensures Semantics.Outcome(status, Abstract()) == Semantics.DeclareArray(b, old(Abstract()))
    {
      if "name" !in b.parameters {
        return Semantics.Aborted(MissingArrayName);
      }
      var name := b.parameters["name"];
      var size := if "size" in b.parameters then ToIntOrNull(b.parameters["size"]) else None;
      if size.None? {
        return Semantics.Aborted(InvalidArraySize);
      }
      if name in arrays {
        return Semantics.Aborted(ArrayExists(name));
      }
      if size.value <= 0 {
        return Semantics.Aborted(NonPositiveArraySize);
      }
      AddArray(name, size.value);
      return Semantics.Normal;
    }

    /** Allocates the all-zero array of a declaration that passed its checks, and reports it. */
    method AddArray(name: string, size: Int32)
      requires Valid() && name !in arrays && size > 0
      modifies this
      ensures Valid() && ArraysGrown()
      ensures variables == old(variables)
      ensures contents == old(contents)[name := seq(size, _ => 0)]
      ensures output == old(output) + [Semantics.DeclaredArray(name, size)]
    {
      var a := Zeros(size as nat);
      arrays := arrays[name := a];
      owner := owner[a := name];
      contents := contents[name := a[..]];
      output := output + [Semantics.DeclaredArray(name, size)];
    }

    /** A new array of `size` zeros, as `IntArray(size)` makes it. */
    static method Zeros(size: nat) returns (a: array<Int32>)
      ensures fresh(a) && a[..] == seq(size, _ => 0)
    {
      a := new Int32[size](_ => 0);
      assert a[..] == seq(size, _ => 0);
    }

    /** `handleArrayAccess`: `set` writes the element in place. */
    method HandleArrayAccess(b: CodeBlock) returns (status: Status)
      requires Valid()
      modifies this, arrays.Values
      ensures Valid() && arrays == old(arrays)
      ensures Semantics.Outcome(status, Abstract()) == Semantics.AccessArray(b, old(Abstract()))
    {
      if "arrayName" !in b.parameters {
        return Semantics.Aborted(MissingArrayName);
      }
      var name := b.parameters["arrayName"];
      var index := if "index" in b.parameters then ToIntOrNull(b.parameters["index"]) else None;
      if index.None? {
        return Semantics.Aborted(InvalidArrayIndex);
      }
      if "operation" !in b.parameters {
        return Semantics.Aborted(MissingOperation);
      }
      var operation := b.parameters["operation"];
      if name !in arrays {
        return Semantics.Aborted(ArrayNotFound(name));
      }
      var target := arrays[name];
      var i := index.value;
      if !(0 <= i < target.Length) {
        return Semantics.Aborted(IndexOutOfBounds(i));
      }
      if operation == "get" {
        output := output + [Semantics.Element(name, i, target[i])];
      } else if operation == "set" {
        var value := if "value" in b.parameters then ToIntOrNull(b.parameters["value"]) else None;
        if value.None? {
          return Semantics.Aborted(MissingValue);
        }
        Store(name, i, value.value);
      } else {
        return Semantics.Aborted(UnknownOperation(operation));
      }
      return Semantics.Normal;
    }

    /** Writes element `i` of the array `name` in place, and reports it. */
    method Store(name: string, i: Int32, v: Int32)
      requires Valid() && name in arrays && 0 <= i < arrays[name].Length
      modifies this, arrays[name]
      ensures Valid() && arrays == old(arrays)
      ensures variables == old(variables)
      ensures var stored: seq<Int32> := old(contents[name])[i := v];
              contents == old(contents)[name := stored]
      ensures output == old(output) + [Semantics.Stored(name, i, v)]
    {
      arrays[name][i] := v;
      var stored: seq<Int32> := contents[name][i := v];
      contents := contents[name := stored];
      output := output + [Semantics.Stored(name, i, v)];
    }

    /** `evaluateExpression`: a fresh parser over the current variables. */
    method EvaluateExpression(expr: string) returns (r: Result<Int32, Error>)
      ensures r == Conditions.EvaluateExpression(expr, variables)
    {
      var parser := new Parser(expr, variables);
      var value := parser.Parse();
      if value.Failure? {
        return Failure(ExpressionError(value.error));
      }
      return Success(value.value);
    }

    /** `evaluateCondition`: split at the selected operator, evaluate left then right, compare. */
    method EvaluateCondition(cond: string) returns (r: Result<bool, Error>)
      ensures r == Conditions.EvaluateCondition(cond, variables)
    {
      Conditions.EvaluateConditionSelects(cond, variables);
      var selected := Conditions.SelectOperator(cond);
      if selected.None? {
        return Failure(InvalidCondition);
      }
      var (opIndex, op) := selected.value;
      var leftVal := EvaluateExpression(Conditions.LeftOperand(cond, opIndex));
      if leftVal.Failure? {
        return Failure(leftVal.error);
      }
      var rightVal := EvaluateExpression(Conditions.RightOperand(cond, opIndex, op));
      if rightVal.Failure? {
        return Failure(rightVal.error);
      }
      return Conditions.Compare(op, leftVal.value, rightVal.value);
    }
  }
}
