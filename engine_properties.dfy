/**
 * Properties of the execution engine, stated on the functions of `Semantics`
 * that the `Interpreter` class is proved against.
 */
module EngineProperties {
  import opened Outcomes
  import opened Int32s
  import opened Text
  import opened Errors
  import opened Conditions
  import opened BlockTypes
  import opened CodeBlocks
  import opened Semantics

  // ---- What an execution may change ----

  /**
   * `st'` can follow `st`: the trace only grows, and never by an error line;
   * declared variables stay declared; declared arrays stay declared with their length.
   */
  predicate Extends(st: State, st': State) {
    && st.output <= st'.output
    && (forall k :: |st.output| <= k < |st'.output| ==> !st'.output[k].Failed?)
    && st.variables.Keys <= st'.variables.Keys
    && (forall n :: n in st.arrays ==> n in st'.arrays && |st'.arrays[n]| == |st.arrays[n]|)
  }

  lemma ExtendsTransitive(a: State, b: State, c: State)
    requires Extends(a, b) && Extends(b, c)
    ensures Extends(a, c)
  {
    forall k | |a.output| <= k < |c.output|
      ensures !c.output[k].Failed?
    {
      if k < |b.output| {
        assert c.output[k] == b.output[k];
      }
    }
  }

  lemma {:induction false} DeclareNamesExtends(names: seq<string>, st: State)
    ensures Extends(st, DeclareNames(names, st).state)
    decreases |names|
  {
    if names != [] && !IsBlank(names[0]) && names[0] !in st.variables {
      var st1 := State(st.variables[names[0] := 0], st.arrays, st.output + [DeclaredVariable(names[0])]);
      DeclareNamesExtends(names[1..], st1);
      ExtendsTransitive(st, st1, DeclareNames(names[1..], st1).state);
    }
  }

  /** A run of blocks only ever extends the state it starts from. */
  lemma {:induction false} ExecBlocksExtends(bs: seq<CodeBlock>, st: State, fuel: nat)
    ensures Extends(st, ExecBlocks(bs, st, fuel).state)
    decreases Sizes(bs), 3, 0
  {
    if bs != [] {
      var o := ExecBlock(bs[0], st, fuel);
      ExecBlockExtends(bs[0], st, fuel);
      if o.status.Normal? {
        ExecBlocksExtends(bs[1..], o.state, fuel);
        ExtendsTransitive(st, o.state, ExecBlocks(bs[1..], o.state, fuel).state);
      }
    }
  }

  lemma {:induction false} ExecBlockExtends(b: CodeBlock, st: State, fuel: nat)
    ensures Extends(st, ExecBlock(b, st, fuel).state)
    decreases Size(b), 2, 0
  {
    match b.kind
    case VariableDeclaration =>
      if "names" in b.parameters {
        DeclareNamesExtends(TrimAll(Split(b.parameters["names"], ',')), st);
      }
    case Assignment =>
    case ArithmeticOperation =>
    case IfStatement => IfExtends(b, st, fuel);
    case IfElseStatement => IfElseExtends(b, st, fuel);
    case WhileLoop => WhileExtends(b, st, fuel);
    case ArrayDeclaration =>
    case ArrayAccess =>
  }

  lemma {:induction false} IfExtends(b: CodeBlock, st: State, fuel: nat)
    ensures Extends(st, If(b, st, fuel).state)
    decreases Size(b), 1, 0
  {
    if "condition" in b.parameters {
      var c := b.parameters["condition"];
      var r := EvaluateCondition(c, st.variables);
      if r.Success? && r.value {
        var st1 := st.Emit(IfBranch(c, true));
        ExecBlocksExtends(b.children, st1, fuel);
        ExtendsTransitive(st, st1, ExecBlocks(b.children, st1, fuel).state);
      }
    }
  }

  lemma {:induction false} IfElseExtends(b: CodeBlock, st: State, fuel: nat)
    ensures Extends(st, IfElse(b, st, fuel).state)
    decreases Size(b), 1, 0
  {
    if "condition" in b.parameters {
      var c := b.parameters["condition"];
      var r := EvaluateCondition(c, st.variables);
      if r.Success? {
        var st1 := st.Emit(IfElseBranch(c, r.value));
        ExecBlocksExtends(Branch(b.children, !r.value), st1, fuel);
        ExtendsTransitive(st, st1, ExecBlocks(Branch(b.children, !r.value), st1, fuel).state);
      }
    }
  }

  lemma {:induction false} WhileExtends(b: CodeBlock, st: State, fuel: nat)
    ensures Extends(st, While(b, st, fuel).state)
    decreases Size(b), 1, 0
  {
    if "condition" in b.parameters {
      LoopExtends(b, b.parameters["condition"], st, fuel, fuel);
    }
  }

  lemma {:induction false} LoopExtends(b: CodeBlock, c: string, st: State, fuel: nat, left: nat)
    ensures Extends(st, Loop(b, c, st, fuel, left).state)
    decreases Size(b), 0, left
  {
    var r := EvaluateCondition(c, st.variables);
    if r.Success? && r.value && left > 0 {
      var rest := left - 1;
      var st1 := st.Emit(WhileTest(c, true));
      var o := ExecBlocks(b.children, st1, fuel);
      ExecBlocksExtends(b.children, st1, fuel);
      ExtendsTransitive(st, st1, o.state);
      LoopIterates(b, c, st, fuel, left, rest);
      if o.status.Normal? {
        LoopExtends(b, c, o.state, fuel, rest);
        ExtendsTransitive(st, o.state, Loop(b, c, o.state, fuel, rest).state);
      }
    }
  }

  // ---- Running blocks in sequence ----

  /** Running `xs + ys` runs `xs`, then `ys` only if `xs` finished normally. */
  lemma {:induction false} ExecBlocksAppend(xs: seq<CodeBlock>, ys: seq<CodeBlock>, st: State, fuel: nat)
    ensures var o := ExecBlocks(xs, st, fuel);
            ExecBlocks(xs + ys, st, fuel) == if o.status.Normal? then ExecBlocks(ys, o.state, fuel) else o
    decreases |xs|
  {
    if xs != [] {
      assert (xs + ys)[0] == xs[0];
      assert (xs + ys)[1..] == xs[1..] + ys;
      var o := ExecBlock(xs[0], st, fuel);
      if o.status.Normal? {
        ExecBlocksAppend(xs[1..], ys, o.state, fuel);
      }
    } else {
      assert xs + ys == ys;
    }
  }

  /** Once a block fails, no later block of the run is executed: what follows it is irrelevant. */
  lemma FailureStopsRun(xs: seq<CodeBlock>, ys: seq<CodeBlock>, st: State, fuel: nat)
    requires ExecBlocks(xs, st, fuel).status.Aborted?
    ensures ExecBlocks(xs + ys, st, fuel) == ExecBlocks(xs, st, fuel)
  {
    ExecBlocksAppend(xs, ys, st, fuel);
  }

  /** The text of a trace is the text of its lines, one by one. */
  lemma {:induction false} LinesAppend(a: seq<Line>, b: seq<Line>)
    ensures Lines(a + b) == Lines(a) + Lines(b)
    decreases |a|
  {
    if a == [] {
      assert a + b == b;
    } else {
      assert (a + b)[0] == a[0];
      assert (a + b)[1..] == a[1..] + b;
      LinesAppend(a[1..], b);
    }
  }

  /**
   * `interpret`: the run starts from the empty state. A run that finishes
   * returns its trace; a run stopped by an exception returns the trace written
   * until then followed by exactly one `Error:` line carrying the message; no
   * other line of the trace is an error line.
   */
  lemma InterpretTrace(blocks: seq<CodeBlock>, fuel: nat)
    ensures var o := ExecBlocks(blocks, Empty, fuel);
            && (forall k :: 0 <= k < |o.state.output| ==> !o.state.output[k].Failed?)
            && Interpret(blocks, fuel) ==
                 match o.status
                 case Normal => Some(Lines(o.state.output))
                 case Aborted(e) => Some(Lines(o.state.output) + ["Error: " + ErrorMessage(e)])
                 case OutOfFuel => None
  {
    var o := ExecBlocks(blocks, Empty, fuel);
    ExecBlocksExtends(blocks, Empty, fuel);
    if o.status.Aborted? {
      LinesAppend(o.state.output, [Failed(o.status.error)]);
      assert Lines([Failed(o.status.error)]) == ["Error: " + ErrorMessage(o.status.error)];
    }
  }

  // ---- Conditional blocks ----

  /** The `branch` test of `handleIfElse`. */
  predicate InElseBranch(b: CodeBlock) {
    "branch" in b.parameters && b.parameters["branch"] == "else"
  }

  /** `filter` distributes over concatenation: the children keep their order. */
  lemma {:induction false} BranchAppend(xs: seq<CodeBlock>, ys: seq<CodeBlock>, elseBranch: bool)
    ensures Branch(xs + ys, elseBranch) == Branch(xs, elseBranch) + Branch(ys, elseBranch)
    decreases |xs|
  {
    if xs == [] {
      assert xs + ys == ys;
    } else {
      assert (xs + ys)[0] == xs[0];
      assert (xs + ys)[1..] == xs[1..] + ys;
      BranchAppend(xs[1..], ys, elseBranch);
    }
  }

  /** A single child is kept exactly when its `branch` parameter selects it. */
  lemma BranchSingle(x: CodeBlock, elseBranch: bool)
    ensures Branch([x], elseBranch) == if InElseBranch(x) == elseBranch then [x] else []
  {
    assert [x][1..] == [];
  }

  /** The two branches split the children: every child is in exactly one of them. */
  lemma {:induction false} BranchesPartition(bs: seq<CodeBlock>)
    ensures multiset(Branch(bs, false)) + multiset(Branch(bs, true)) == multiset(bs)
    ensures forall x :: x in Branch(bs, true) ==> InElseBranch(x)
    ensures forall x :: x in Branch(bs, false) ==> !InElseBranch(x)
  {
    if bs != [] {
      BranchesPartition(bs[1..]);
      assert bs == [bs[0]] + bs[1..];
    }
  }

  /** `handleIf` writes its one TRUE/FALSE line before any child runs, and runs the children only if the condition holds. */
  lemma IfBranchFirst(b: CodeBlock, st: State, fuel: nat)
    requires "condition" in b.parameters && EvaluateCondition(b.parameters["condition"], st.variables).Success?
    ensures var c := b.parameters["condition"];
            var holds := EvaluateCondition(c, st.variables).value;
            var o := If(b, st, fuel);
            && |o.state.output| > |st.output|
            && o.state.output[..|st.output| + 1] == st.output + [IfBranch(c, holds)]
            && (!holds ==> o == Done(st.Emit(IfBranch(c, false))))
  {
    var c := b.parameters["condition"];
    var holds := EvaluateCondition(c, st.variables).value;
    var st1 := st.Emit(IfBranch(c, holds));
    ExecBlocksExtends(b.children, st1, fuel);
    assert st1.output == st.output + [IfBranch(c, holds)];
  }

  /**
   * `handleIfElse` writes its one line before any child runs; which children
   * run is `Branch`, described by the three lemmas above.
   */
  lemma IfElseBranchFirst(b: CodeBlock, st: State, fuel: nat)
    requires "condition" in b.parameters && EvaluateCondition(b.parameters["condition"], st.variables).Success?
    ensures var c := b.parameters["condition"];
            var holds := EvaluateCondition(c, st.variables).value;
            var o := IfElse(b, st, fuel);
            && |o.state.output| > |st.output|
            && o.state.output[..|st.output| + 1] == st.output + [IfElseBranch(c, holds)]
  {
    var c := b.parameters["condition"];
    var holds := EvaluateCondition(c, st.variables).value;
    var st1 := st.Emit(IfElseBranch(c, holds));
    ExecBlocksExtends(Branch(b.children, !holds), st1, fuel);
    assert st1.output == st.output + [IfElseBranch(c, holds)];
  }

  /** `handleWhile` with a condition that is false at once writes one FALSE line and runs no child. */
  lemma WhileFalseAtOnce(b: CodeBlock, st: State, fuel: nat)
    requires "condition" in b.parameters && EvaluateCondition(b.parameters["condition"], st.variables) == Success(false)
    ensures While(b, st, fuel) == Done(st.Emit(WhileTest(b.parameters["condition"], false)))
  {
  }

  /** A loop that finishes normally has a condition that evaluates, and has an iteration left whenever it holds. */
  lemma LoopFinishesAfterTest(b: CodeBlock, c: string, st: State, fuel: nat, left: nat)
    requires Loop(b, c, st, fuel, left).status.Normal?
    ensures EvaluateCondition(c, st.variables).Success?
    ensures EvaluateCondition(c, st.variables).value ==> left > 0
  {
  }

  /** Every `while` test writes its line first: the trace grows by the TRUE/FALSE line before any child runs. */
  lemma LoopTestFirst(b: CodeBlock, c: string, st: State, fuel: nat, left: nat)
    requires EvaluateCondition(c, st.variables).Success?
    requires EvaluateCondition(c, st.variables).value ==> left > 0
    ensures var holds := EvaluateCondition(c, st.variables).value;
            var o := Loop(b, c, st, fuel, left);
            && |o.state.output| > |st.output|
            && o.state.output[..|st.output| + 1] == st.output + [WhileTest(c, holds)]
  {
    var holds := EvaluateCondition(c, st.variables).value;
    var st1 := st.Emit(WhileTest(c, holds));
    if holds {
      var rest := left - 1;
      LoopIterates(b, c, st, fuel, left, rest);
      var o := ExecBlocks(b.children, st1, fuel);
      ExecBlocksExtends(b.children, st1, fuel);
      if o.status.Normal? {
        LoopExtends(b, c, o.state, fuel, rest);
        ExtendsTransitive(st1, o.state, Loop(b, c, o.state, fuel, rest).state);
      }
    }
    assert st1.output == st.output + [WhileTest(c, holds)];
  }

  // ---- Fuel ----

  /**
   * The fuel bound only cuts runs short: a run that did not run out of fuel
   * gives the same outcome with any larger bound.
   */
  lemma {:induction false} ExecBlocksFuel(bs: seq<CodeBlock>, st: State, fuel: nat, more: nat)
    requires fuel <= more && !ExecBlocks(bs, st, fuel).status.OutOfFuel?
    ensures ExecBlocks(bs, st, more) == ExecBlocks(bs, st, fuel)
    decreases Sizes(bs), 3, 0
  {
    if bs != [] {
      var o := ExecBlock(bs[0], st, fuel);
      ExecBlockFuel(bs[0], st, fuel, more);
      if o.status.Normal? {
        ExecBlocksFuel(bs[1..], o.state, fuel, more);
      }
    }
  }

  lemma {:induction false} ExecBlockFuel(b: CodeBlock, st: State, fuel: nat, more: nat)
    requires fuel <= more && !ExecBlock(b, st, fuel).status.OutOfFuel?
    ensures ExecBlock(b, st, more) == ExecBlock(b, st, fuel)
    decreases Size(b), 2, 0
  {
    match b.kind
    case IfStatement => IfFuel(b, st, fuel, more);
    case IfElseStatement => IfElseFuel(b, st, fuel, more);
    case WhileLoop =>
      if "condition" in b.parameters {
        LoopFuel(b, b.parameters["condition"], st, fuel, more, fuel, more);
      }
    case _ =>
  }

  lemma {:induction false} IfFuel(b: CodeBlock, st: State, fuel: nat, more: nat)
    requires fuel <= more && !If(b, st, fuel).status.OutOfFuel?
    ensures If(b, st, more) == If(b, st, fuel)
    decreases Size(b), 1, 0
  {
    if "condition" in b.parameters {
      var c := b.parameters["condition"];
      var r := EvaluateCondition(c, st.variables);
      if r.Success? && r.value {
        ExecBlocksFuel(b.children, st.Emit(IfBranch(c, true)), fuel, more);
      }
    }
  }

  lemma {:induction false} IfElseFuel(b: CodeBlock, st: State, fuel: nat, more: nat)
    requires fuel <= more && !IfElse(b, st, fuel).status.OutOfFuel?
    ensures IfElse(b, st, more) == IfElse(b, st, fuel)
    decreases Size(b), 1, 0
  {
    if "condition" in b.parameters {
      var c := b.parameters["condition"];
      var r := EvaluateCondition(c, st.variables);
      if r.Success? {
        ExecBlocksFuel(Branch(b.children, !r.value), st.Emit(IfElseBranch(c, r.value)), fuel, more);
      }
    }
  }

  lemma {:induction false} LoopFuel(b: CodeBlock, c: string, st: State, fuel: nat, more: nat, left: nat, moreLeft: nat)
    requires fuel <= more && left <= moreLeft && !Loop(b, c, st, fuel, left).status.OutOfFuel?
    ensures Loop(b, c, st, more, moreLeft) == Loop(b, c, st, fuel, left)
    decreases Size(b), 0, left
  {
    var r := EvaluateCondition(c, st.variables);
    if r.Success? && r.value && left > 0 {
      var rest, moreRest := left - 1, moreLeft - 1;
      var st1 := st.Emit(WhileTest(c, true));
      var o := ExecBlocks(b.children, st1, fuel);
      LoopIterates(b, c, st, fuel, left, rest);
      LoopIterates(b, c, st, more, moreLeft, moreRest);
      ExecBlocksFuel(b.children, st1, fuel, more);
      if o.status.Normal? {
        LoopFuel(b, c, o.state, fuel, more, rest, moreRest);
      }
    }
  }

  // ---- Variable blocks ----

  /** Names that `handleVariableDeclaration` accepts one after the other: none blank, none declared before. */
  predicate FreshNames(names: seq<string>, vars: map<string, Int32>) {
    forall i :: 0 <= i < |names| ==> !IsBlank(names[i]) && names[i] !in vars && names[i] !in names[..i]
  }

  /** One `Declared variable` line per name, in order. */
  function DeclaredLines(names: seq<string>): seq<Line> {
    if names == [] then [] else [DeclaredVariable(names[0])] + DeclaredLines(names[1..])
  }

  /** Declaring `xs + ys` declares `xs`, then `ys` only if all of `xs` went through. */
  lemma {:induction false} DeclareNamesAppend(xs: seq<string>, ys: seq<string>, st: State)
    ensures var o := DeclareNames(xs, st);
            DeclareNames(xs + ys, st) == if o.status.Normal? then DeclareNames(ys, o.state) else o
    decreases |xs|
  {
    if xs == [] {
      assert xs + ys == ys;
    } else {
      assert (xs + ys)[0] == xs[0];
      assert (xs + ys)[1..] == xs[1..] + ys;
      if !IsBlank(xs[0]) && xs[0] !in st.variables {
        var st1 := State(st.variables[xs[0] := 0], st.arrays, st.output + [DeclaredVariable(xs[0])]);
        DeclareNamesAppend(xs[1..], ys, st1);
      }
    }
  }

  /** Fresh names are all declared, in order: each is set to 0 and traced once; nothing else changes. */
  lemma {:induction false} DeclareNamesFresh(names: seq<string>, st: State)
    requires FreshNames(names, st.variables)
    ensures DeclareNames(names, st).status.Normal?
    ensures forall m :: m in DeclareNames(names, st).state.variables <==> m in st.variables || m in names
    ensures forall m :: m in DeclareNames(names, st).state.variables ==>
              DeclareNames(names, st).state.variables[m] == if m in names then 0 else st.variables[m]
    ensures DeclareNames(names, st).state.arrays == st.arrays
    ensures DeclareNames(names, st).state.output == st.output + DeclaredLines(names)
    decreases |names|
  {
    if names != [] {
      var n := names[0];
      assert !IsBlank(n) && n !in st.variables;
      var st1 := State(st.variables[n := 0], st.arrays, st.output + [DeclaredVariable(n)]);
      var rest := names[1..];
      forall i | 0 <= i < |rest|
        ensures !IsBlank(rest[i]) && rest[i] !in st1.variables && rest[i] !in rest[..i]
      {
        assert rest[i] == names[i + 1];
        assert names[..i + 1] == [n] + rest[..i];
      }
      DeclareNamesFresh(rest, st1);
      assert names == [n] + rest;
      assert DeclaredLines(names) == [DeclaredVariable(n)] + DeclaredLines(rest);
      assert (st.output + [DeclaredVariable(n)]) + DeclaredLines(rest) == st.output + ([DeclaredVariable(n)] + DeclaredLines(rest));
      assert forall m :: m in names <==> m == n || m in rest;
    }
  }

  /**
   * The first blank or already declared name stops the declaration with the
   * matching error, and the names before it stay declared and traced.
   */
  lemma DeclareNamesStops(names: seq<string>, st: State, k: nat)
    requires k < |names| && FreshNames(names[..k], st.variables)
    requires IsBlank(names[k]) || names[k] in st.variables || names[k] in names[..k]
    ensures DeclareNames(names, st) ==
              Abort(if IsBlank(names[k]) then EmptyVariableName else VariableExists(names[k]),
                    DeclareNames(names[..k], st).state)
  {
    DeclareNamesFresh(names[..k], st);
    DeclareNamesAppend(names[..k], names[k..], st);
    assert names[..k] + names[k..] == names;
    assert names[k..][0] == names[k];
  }

  /** `handleAssignment` refuses an undeclared variable before it looks at the expression. */
  lemma AssignChecksDeclaration(b: CodeBlock, st: State)
    requires "varName" in b.parameters && "expression" in b.parameters
    requires b.parameters["varName"] !in st.variables
    ensures Assign(b, st) == Abort(UndeclaredVariable(b.parameters["varName"]), st)
  {
  }

  /** An assignment that succeeds changes that one variable, to the expression's value, and traces it. */
  lemma AssignChangesOneVariable(b: CodeBlock, st: State)
    requires Assign(b, st).status.Normal?
    ensures var n := b.parameters["varName"];
            var st' := Assign(b, st).state;
            && n in st.variables
            && EvaluateExpression(b.parameters["expression"], st.variables) == Success(st'.variables[n])
            && st'.variables.Keys == st.variables.Keys
            && (forall m :: m in st.variables && m != n ==> st'.variables[m] == st.variables[m])
            && st'.arrays == st.arrays
            && st'.output == st.output + [Assigned(n, st'.variables[n])]
  {
  }

  /** `handleArithmetic` changes no variable and no array. */
  lemma ArithmeticKeepsState(b: CodeBlock, st: State)
    ensures var st' := Arithmetic(b, st).state;
            st'.variables == st.variables && st'.arrays == st.arrays
            && (st'.output == st.output || (|st'.output| == |st.output| + 1 && st'.output[..|st.output|] == st.output))
  {
  }

  // ---- Array blocks ----

  /** A new array exists under its name with exactly `size` zeros; no other array changes. */
  lemma DeclareArrayZeros(b: CodeBlock, st: State)
    requires DeclareArray(b, st).status.Normal?
    ensures var n := b.parameters["name"];
            var size := IntParameter(b, "size").value;
            var st' := DeclareArray(b, st).state;
            && n !in st.arrays && size > 0
            && st'.arrays.Keys == st.arrays.Keys + {n}
            && |st'.arrays[n]| == size as int && (forall j :: 0 <= j < size as int ==> st'.arrays[n][j] == 0)
            && (forall m :: m in st.arrays ==> st'.arrays[m] == st.arrays[m])
            && st'.variables == st.variables
            && st'.output == st.output + [DeclaredArray(n, size)]
  {
  }

  /** An existing name is refused before the size is checked for being positive. */
  lemma DeclareArrayChecksNameFirst(b: CodeBlock, st: State)
    requires "name" in b.parameters && b.parameters["name"] in st.arrays && IntParameter(b, "size").Some?
    ensures DeclareArray(b, st) == Abort(ArrayExists(b.parameters["name"]), st)
  {
  }

  /** An index out of bounds is refused before the operation is looked at, whatever it is. */
  lemma AccessChecksBoundsFirst(b: CodeBlock, st: State)
    requires "arrayName" in b.parameters && "operation" in b.parameters
    requires b.parameters["arrayName"] in st.arrays && IntParameter(b, "index").Some?
    requires var i := IntParameter(b, "index").value; !(0 <= i < |st.arrays[b.parameters["arrayName"]]|)
    ensures AccessArray(b, st) == Abort(IndexOutOfBounds(IntParameter(b, "index").value), st)
  {
  }

  /**
   * A successful access changes at most one element: `get` changes nothing but
   * the trace, `set` the element at the index, to the parsed value.
   */
  lemma AccessChangesOneElement(b: CodeBlock, st: State)
    requires AccessArray(b, st).status.Normal?
    ensures var n := b.parameters["arrayName"];
            var i := IntParameter(b, "index").value as int;
            var st' := AccessArray(b, st).state;
            && n in st.arrays && 0 <= i < |st.arrays[n]|
            && st'.variables == st.variables
            && st'.arrays.Keys == st.arrays.Keys
            && (forall m :: m in st.arrays && m != n ==> st'.arrays[m] == st.arrays[m])
            && |st'.arrays[n]| == |st.arrays[n]|
            && (forall j :: 0 <= j < |st.arrays[n]| && j != i ==> st'.arrays[n][j] == st.arrays[n][j])
            && (b.parameters["operation"] == "get" ==>
                  st'.arrays == st.arrays && st'.output == st.output + [Element(n, i, st.arrays[n][i])])
            && (b.parameters["operation"] != "get" ==>
                  b.parameters["operation"] == "set" && IntParameter(b, "value").Some?
                  && st'.arrays[n][i] == IntParameter(b, "value").value
                  && st'.output == st.output + [Stored(n, i, IntParameter(b, "value").value)])
  {
  }

  // ---- Dispatch ----

  /**
   * No block is silently skipped: whatever its kind, a block that finishes
   * normally has written at least one trace line.
   */
  lemma {:induction false} NoBlockIsSilent(b: CodeBlock, st: State, fuel: nat)
    requires ExecBlock(b, st, fuel).status.Normal?
    ensures |ExecBlock(b, st, fuel).state.output| > |st.output|
  {
    match b.kind
    case VariableDeclaration =>
      var names := TrimAll(Split(b.parameters["names"], ','));
      var n := names[0];
      assert names == [n] + names[1..];
      var st1 := State(st.variables[n := 0], st.arrays, st.output + [DeclaredVariable(n)]);
      DeclareNamesExtends(names[1..], st1);
    case IfStatement =>
      IfBranchFirst(b, st, fuel);
    case IfElseStatement =>
      IfElseBranchFirst(b, st, fuel);
    case WhileLoop =>
      var c := b.parameters["condition"];
      assert ExecBlock(b, st, fuel) == Loop(b, c, st, fuel, fuel);
      LoopFinishesAfterTest(b, c, st, fuel, fuel);
      LoopTestFirst(b, c, st, fuel, fuel);
    case _ =>
  }
}
