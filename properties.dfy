/*
 * Properties of whole programs and of the interplay between the nodes:
 * the program of tests/add.rs, the `for` loop with the corrected equality,
 * how `break` and `return` travel, and what the drained call and the
 * suppressed declarations leave behind.
 */
module Properties {
  import opened Values
  import opened Ops
  import opened Ir
  import opened Objects
  import Scopes
  import opened InterpreterState
  import opened Semantics
  import Apply
  import Runtime

  // ---------------------------------------------------------------------------
  // tests/add.rs
  // ---------------------------------------------------------------------------

  /** `function add() { return 1.5 + 3.5; }` */
  function AddBody(): Block
  {
    Block([ReturnStatement(Some(BinaryExpression(BinaryOperator.Plus, Literal(Number(1.5)), Literal(Number(3.5)))))], Function)
  }

  /** The declaration of `add` followed by the statement `add();`. */
  function AddProgram(): Block
  {
    Block([FunctionDeclaration("add", [], AddBody()), ExpressionStatement(CallExpression("add", []))], Global)
  }

  /** Calling `add` from a state where it is declared yields 5 and leaves no flag raised. */
  lemma CallAdd(st: State, fuel: nat)
    requires fuel >= 1 && |st.scopeStack| >= 1 && !st.shouldBreak && !st.shouldReturn
    requires LookupFunction(st, "add") == Some(NewFunction("add", [], AddBody()))
    ensures var r := EvalExpr(st, CallExpression("add", []), fuel);
            r.out == Val(Number(5.0)) && !r.st.shouldBreak && !r.st.shouldReturn && |r.st.scopeStack| == |st.scopeStack|
  {
    var b := BindArguments(st, [], [], map[], fuel);
    assert b == Binding(NoVal, st, map[]);
    var inner := EnterScope(st, map[]);
    var sum := EvalExpr(inner, BinaryExpression(BinaryOperator.Plus, Literal(Number(1.5)), Literal(Number(3.5))), fuel - 1);
    assert EvalExpr(inner, Literal(Number(1.5)), fuel - 1) == ExprStep(Val(Number(1.5)), inner, Literal(Number(1.5)));
    assert EvalExpr(inner, Literal(Number(3.5)), fuel - 1) == ExprStep(Val(Number(3.5)), inner, Literal(Number(3.5)));
    assert Apply.ApplyOp(BinaryOperator.Plus, Number(1.5), Number(3.5)) == Ok(Number(5.0));
    assert sum == EvalBinary(inner, BinaryOperator.Plus, Literal(Number(1.5)), Literal(Number(3.5)), fuel - 1);
    assert sum.out == Val(Number(5.0)) && sum.st == inner;
    var ret := ExecStmt(inner, AddBody().children[0], fuel - 1);
    assert ret == ExecReturn(inner, AddBody().children[0].expression, fuel - 1);
    assert ret.out == Val(Undefined) && ret.st == inner.(returnRegister := Some(Number(5.0)), shouldReturn := true);
    var c := RunChildren(inner, AddBody().children, Function, None, fuel - 1);
    assert c == BlockStep(Val(Number(5.0)), inner.(returnRegister := None, shouldReturn := false));
    EnterThenLeave(st, map[]);
    assert RunWith(st, AddBody(), map[], fuel - 1) == BlockStep(Val(Number(5.0)), st.(returnRegister := None));
    assert EvalCall(st, "add", [], fuel).out == Val(Number(5.0));
    assert EvalExpr(st, CallExpression("add", []), fuel) == EvalCall(st, "add", [], fuel);
  }

  /** The program of tests/add.rs yields 5 on a fresh interpreter. */
  lemma AddProgramYieldsFive(fuel: nat)
    requires fuel >= 1
    ensures Run(Fresh(), AddProgram(), fuel).out == Val(Number(5.0))
  {
    var inner := EnterScope(Fresh(), map[]);
    var d := ExecStmt(inner, AddProgram().children[0], fuel);
    assert d.out == NoVal && !d.st.shouldBreak && !d.st.shouldReturn;
    CallAdd(d.st, fuel);
    var c := ExecStmt(d.st, AddProgram().children[1], fuel);
    assert c.out == Val(Number(5.0)) && !c.st.shouldBreak && !c.st.shouldReturn;
    assert AddProgram().children[1..] == [AddProgram().children[1]] && AddProgram().children[2..] == [];
    assert RunChildren(c.st, [], Global, Some(Number(5.0)), fuel).out == Val(Number(5.0));
    assert RunChildren(inner, AddProgram().children, Global, None, fuel).out == Val(Number(5.0));
  }

  // ---------------------------------------------------------------------------
  // The `for` loop
  // ---------------------------------------------------------------------------

  /** An empty block yields no value and leaves the state as it found it. */
  lemma EmptyBlockChangesNothing(st: State, scopeType: ScopeType, fuel: nat)
    ensures ExecStmt(st, BlockStatement(Block([], scopeType)), fuel) == StmtStep(NoVal, st, BlockStatement(Block([], scopeType)))
  {
    var inner := EnterScope(st, map[]);
    assert RunChildren(inner, [], scopeType, None, fuel) == BlockStep(NoVal, inner);
    EnterThenLeave(st, map[]);
    assert RunWith(st, Block([], scopeType), map[], fuel) == BlockStep(NoVal, st);
  }

  /** `i < limit` */
  function CountTest(limit: nat): Expr
  {
    BinaryExpression(BinaryOperator.LessThan, Variable("i"), Literal(Number(limit as real)))
  }

  /** `i++` */
  function CountUpdate(): Option<Expr>
  {
    Some(UpdateExpression("i", Increment, false))
  }

  /** With `i` at `k`, the test `i < limit` yields whether `k < limit` and changes nothing. */
  lemma CountTestValue(st: State, k: nat, limit: nat, fuel: nat)
    requires Scopes.Resolve(st.scopeStack, "i") == Some(Number(k as real))
    ensures EvalExpr(st, CountTest(limit), fuel) == ExprStep(Val(Boolean(k < limit)), st, CountTest(limit))
  {
    assert EvalExpr(st, Variable("i"), fuel) == ExprStep(Val(Number(k as real)), st, Variable("i"));
    assert EvalExpr(st, Literal(Number(limit as real)), fuel) == ExprStep(Val(Number(limit as real)), st, Literal(Number(limit as real)));
    assert Apply.ApplyOp(BinaryOperator.LessThan, Number(k as real), Number(limit as real)) == Ok(Boolean(k < limit));
    assert EvalExpr(st, CountTest(limit), fuel) == EvalBinary(st, BinaryOperator.LessThan, Variable("i"), Literal(Number(limit as real)), fuel);
  }

  /** With `i` at `k`, the update `i++` yields `k`, leaves `i` at `k + 1` and keeps the node. */
  lemma CountUpdateValue(st: State, k: nat, fuel: nat)
    requires Scopes.Resolve(st.scopeStack, "i") == Some(Number(k as real))
    ensures var u := EvalOptExpr(st, CountUpdate(), fuel);
            u.out == Val(Number(k as real)) && u.node == CountUpdate() &&
            Scopes.Resolve(u.st.scopeStack, "i") == Some(Number((k + 1) as real)) &&
            |u.st.scopeStack| == |st.scopeStack|
  {
    var inc := EvalExpr(st, UpdateExpression("i", Increment, false), fuel);
    assert inc == EvalUpdate(st, "i", Increment, false);
    assert inc.out == Val(Number(k as real)) && inc.node == UpdateExpression("i", Increment, false);
    assert EvalOptExpr(st, CountUpdate(), fuel) == OptExprStep(inc.out, inc.st, Some(inc.node));
  }

  /** The empty body of the counting loop. */
  function CountBody(): Stmt
  {
    BlockStatement(Block([], Control))
  }

  /** A round of the counting loop with `i` below the limit goes on with `i` one higher. */
  lemma CountingRound(st: State, k: nat, limit: nat, fuel: nat)
    requires k < limit && fuel > 0
    requires Scopes.Resolve(st.scopeStack, "i") == Some(Number(k as real))
    ensures var u := EvalOptExpr(st, CountUpdate(), fuel - 1);
            ForLoop(st, CountTest(limit), CountUpdate(), CountBody(), fuel) ==
            ForLoop(u.st, CountTest(limit), CountUpdate(), CountBody(), fuel - 1) &&
            Scopes.Resolve(u.st.scopeStack, "i") == Some(Number((k + 1) as real))
  {
    CountTestValue(st, k, limit, fuel - 1);
    assert ValueEq(Boolean(true), Boolean(true));
    EmptyBlockChangesNothing(st, Control, fuel - 1);
    CountUpdateValue(st, k, fuel - 1);
    Runtime.LoopUpdate(st, CountTest(limit), CountUpdate(), CountBody(), fuel,
                       EvalExpr(st, CountTest(limit), fuel - 1), ExecStmt(st, CountBody(), fuel - 1),
                       EvalOptExpr(st, CountUpdate(), fuel - 1));
  }

  /** A round of the counting loop with `i` at the limit ends the loop, changing nothing. */
  lemma CountingEnd(st: State, limit: nat, fuel: nat)
    requires fuel > 0
    requires Scopes.Resolve(st.scopeStack, "i") == Some(Number(limit as real))
    ensures ForLoop(st, CountTest(limit), CountUpdate(), CountBody(), fuel) ==
            LoopStep(Val(Undefined), st, CountTest(limit), CountUpdate(), CountBody())
  {
    CountTestValue(st, limit, limit, fuel - 1);
    var t := EvalExpr(st, CountTest(limit), fuel - 1);
    assert t.out == Val(Boolean(false)) && !ValueEq(Boolean(false), Boolean(true));
    Runtime.LoopTestEnds(st, CountTest(limit), CountUpdate(), CountBody(), fuel, t);
  }

  /**
   * `for (...; i < limit; i++) {}` with `i` at `k`: given one unit of fuel per
   * round and one for the last test, the loop ends normally with `i` at `limit`.
   * This rests on the test's `true` comparing equal to `true`.
   */
  lemma {:induction false} CountingLoop(st: State, k: nat, limit: nat, fuel: nat)
    requires k <= limit && fuel > limit - k
    requires Scopes.Resolve(st.scopeStack, "i") == Some(Number(k as real))
    ensures var r := ForLoop(st, CountTest(limit), CountUpdate(), CountBody(), fuel);
            r.out == Val(Undefined) && Scopes.Resolve(r.st.scopeStack, "i") == Some(Number(limit as real))
    decreases limit - k
  {
    if k < limit {
      CountingRound(st, k, limit, fuel);
      CountingLoop(EvalOptExpr(st, CountUpdate(), fuel - 1).st, k + 1, limit, fuel - 1);
    } else {
      CountingEnd(st, limit, fuel);
    }
  }

  /**
   * `for (...; true; ) break;` never ends by itself: the loop does not look at
   * the break flag, so only the fuel bound stops it.
   */
  lemma {:induction false} BreakDoesNotEndLoop(st: State, fuel: nat)
    ensures ForLoop(st, Literal(Boolean(true)), None, BreakStatement, fuel).out == OutOfFuel
    decreases fuel
  {
    if fuel > 0 {
      assert ValueEq(Boolean(true), Boolean(true));
      BreakDoesNotEndLoop(st.(shouldBreak := true), fuel - 1);
    }
  }

  // ---------------------------------------------------------------------------
  // How `break` and `return` travel
  // ---------------------------------------------------------------------------

  /** A `break` ends the enclosing block with the last value so far, the flag left raised. */
  lemma BreakEndsBlock(st: State, rest: seq<Stmt>, scopeType: ScopeType, last: Option<Value>, fuel: nat)
    ensures RunChildren(st, [BreakStatement] + rest, scopeType, last, fuel) ==
            BlockStep(FromOption(last), st.(shouldBreak := true))
  {
    assert ([BreakStatement] + rest)[0] == BreakStatement;
  }

  /** `return v;` ends a function body, whose result is `v`; the flag is lowered again. */
  lemma ReturnEndsFunctionBody(st: State, v: Value, rest: seq<Stmt>, last: Option<Value>, fuel: nat)
    requires !st.shouldBreak
    ensures RunChildren(st, [ReturnStatement(Some(Literal(v)))] + rest, Function, last, fuel) ==
            BlockStep(Val(v), st.(shouldReturn := false, returnRegister := None))
  {
    var ret := ReturnStatement(Some(Literal(v)));
    assert ([ret] + rest)[0] == ret;
    assert EvalExpr(st, Literal(v), fuel) == ExprStep(Val(v), st, Literal(v));
    assert ExecStmt(st, ret, fuel) == ExecReturn(st, Some(Literal(v)), fuel);
    assert ExecStmt(st, ret, fuel) == StmtStep(Val(Undefined), st.(returnRegister := Some(v), shouldReturn := true), ReturnStatement(None));
  }

  /**
   * `return v;` inside a block that is not a function body ends that block
   * with Undefined and leaves the flag raised and `v` in the register, for the
   * enclosing function body to pick up.
   */
  lemma ReturnCrossesControlBlock(st: State, v: Value, rest: seq<Stmt>, last: Option<Value>, fuel: nat)
    requires !st.shouldBreak
    ensures RunChildren(st, [ReturnStatement(Some(Literal(v)))] + rest, Control, last, fuel) ==
            BlockStep(Val(Undefined), st.(returnRegister := Some(v), shouldReturn := true))
  {
    var ret := ReturnStatement(Some(Literal(v)));
    assert ([ret] + rest)[0] == ret;
    assert EvalExpr(st, Literal(v), fuel) == ExprStep(Val(v), st, Literal(v));
    assert ExecStmt(st, ret, fuel) == ExecReturn(st, Some(Literal(v)), fuel);
    assert ExecStmt(st, ret, fuel) == StmtStep(Val(Undefined), st.(returnRegister := Some(v), shouldReturn := true), ReturnStatement(None));
  }

  /**
   * `return;` without an expression raises no flag: a function body goes on
   * with the statements after it, its Undefined becoming the last value.
   */
  lemma EmptyReturnFallsThrough(st: State, rest: seq<Stmt>, last: Option<Value>, fuel: nat)
    requires !st.shouldBreak && !st.shouldReturn
    ensures RunChildren(st, [ReturnStatement(None)] + rest, Function, last, fuel) ==
            RunChildren(st, rest, Function, Some(Undefined), fuel)
  {
    assert ([ReturnStatement(None)] + rest)[0] == ReturnStatement(None);
    assert ([ReturnStatement(None)] + rest)[1..] == rest;
    assert ExecStmt(st, ReturnStatement(None), fuel) == ExecReturn(st, None, fuel);
    assert ExecStmt(st, ReturnStatement(None), fuel) == StmtStep(Val(Undefined), st, ReturnStatement(None));
  }

  // ---------------------------------------------------------------------------
  // Scopes
  // ---------------------------------------------------------------------------

  /** A declaration inside a block is gone once the block has run. */
  lemma BlockScopesDeclarations(st: State, name: string, v: Value, fuel: nat)
    ensures var s := BlockStatement(Block([VariableDeclaration(name, Some(Literal(v)))], Control));
            ExecStmt(st, s, fuel) == StmtStep(NoVal, st, s)
  {
    var decl := VariableDeclaration(name, Some(Literal(v)));
    var inner := EnterScope(st, map[]);
    var d := ExecStmt(inner, decl, fuel);
    assert EvalOptExpr(inner, Some(Literal(v)), fuel) == OptExprStep(Val(v), inner, Some(Literal(v)));
    var stack := inner.scopeStack[..|inner.scopeStack| - 1] + [inner.scopeStack[|inner.scopeStack| - 1][name := v]];
    assert d == ExecVariableDeclaration(inner, name, Some(Literal(v)), fuel);
    assert AddVariable(inner, name, v) == Ok(inner.(scopeStack := stack));
    assert d == StmtStep(NoVal, inner.(scopeStack := stack), decl);
    assert [decl][1..] == [];
    assert RunChildren(inner, [decl], Control, None, fuel) == BlockStep(NoVal, inner.(scopeStack := stack));
    assert stack[..|stack| - 1] == st.scopeStack;
  }

  /**
   * Scoping is dynamic: a function body sees the caller's bindings, because
   * its frame goes on top of the caller's stack. A function whose body is
   * `return y;` yields whatever `y` is bound to where it is called.
   */
  lemma CalleeSeesCallerBindings(st: State, f: string, y: string, v: Value, fuel: nat)
    requires fuel >= 1 && !st.shouldBreak
    requires LookupFunction(st, f) == Some(NewFunction(f, [], Block([ReturnStatement(Some(Variable(y)))], Function)))
    requires Scopes.Resolve(st.scopeStack, y) == Some(v)
    ensures EvalExpr(st, CallExpression(f, []), fuel).out == Val(v)
  {
    var body := Block([ReturnStatement(Some(Variable(y)))], Function);
    assert BindArguments(st, [], [], map[], fuel) == Binding(NoVal, st, map[]);
    var inner := EnterScope(st, map[]);
    EnterScopeResolve(st, map[], y);
    assert EvalExpr(inner, Variable(y), fuel - 1) == ExprStep(Val(v), inner, Variable(y));
    assert ExecStmt(inner, body.children[0], fuel - 1) == ExecReturn(inner, Some(Variable(y)), fuel - 1);
    assert ExecStmt(inner, body.children[0], fuel - 1) ==
           StmtStep(Val(Undefined), inner.(returnRegister := Some(v), shouldReturn := true), ReturnStatement(None));
    assert RunChildren(inner, body.children, Function, None, fuel - 1).out == Val(v);
    EnterThenLeave(st, map[]);
    assert RunWith(st, body, map[], fuel - 1).out == Val(v);
    assert EvalExpr(st, CallExpression(f, []), fuel) == EvalCall(st, f, [], fuel);
  }

  // ---------------------------------------------------------------------------
  // Calls and object expressions
  // ---------------------------------------------------------------------------

  lemma {:induction false} BindWithoutActuals(st: State, parameters: seq<string>, context: Scopes.Frame, fuel: nat)
    ensures BindArguments(st, parameters, [], context, fuel).out == NoVal
    decreases |parameters|
  {
    if |parameters| > 0 {
      BindWithoutActuals(st, parameters[1..], context[parameters[0] := Undefined], fuel);
    }
  }

  /**
   * A call drains its arguments, so evaluating the same call node again binds
   * every formal to Undefined, whatever the actuals were the first time.
   */
  lemma DrainedCallBindsUndefined(st: State, callee: string, args: seq<Expr>, st': State, fuel': nat, fuel: nat)
    requires !EvalCall(st, callee, args, fuel).out.Aborted()
    ensures EvalCall(st, callee, args, fuel).node == CallExpression(callee, [])
    ensures LookupFunction(st', callee).Some? ==>
              var f := LookupFunction(st', callee).value.kind;
              var r := EvalExpr(st', CallExpression(callee, []), fuel');
              (fuel' == 0 ==> r.out == OutOfFuel) &&
              (fuel' > 0 ==> var run := RunWith(st', f.body, map p | p in f.parameters :: Undefined, fuel' - 1);
                             r.out == run.out && r.st == run.st)
  {
    if LookupFunction(st', callee).Some? {
      var f := LookupFunction(st', callee).value.kind;
      BindWithoutActuals(st', f.parameters, map[], fuel');
      BindingEffect(st', f.parameters, [], map[], fuel');
      var b := BindArguments(st', f.parameters, [], map[], fuel');
      assert b.st == st' && b.context == map p | p in f.parameters :: Undefined;
      assert EvalExpr(st', CallExpression(callee, []), fuel') == EvalCall(st', callee, [], fuel');
    }
  }

  /** Two unbound names compare equal: each yields no value, read as Undefined. */
  lemma UnboundNamesCompareEqual(st: State, x: string, y: string, fuel: nat)
    requires Scopes.Resolve(st.scopeStack, x).None? && Scopes.Resolve(st.scopeStack, y).None?
    ensures var e := BinaryExpression(BinaryOperator.Equal, Variable(x), Variable(y));
            EvalExpr(st, e, fuel) == ExprStep(Val(Boolean(true)), st, e)
  {
    assert EvalExpr(st, Variable(x), fuel) == ExprStep(NoVal, st, Variable(x));
    assert EvalExpr(st, Variable(y), fuel) == ExprStep(NoVal, st, Variable(y));
    assert EvalBinary(st, BinaryOperator.Equal, Variable(x), Variable(y), fuel) ==
           ExprStep(Val(Boolean(true)), st, BinaryExpression(BinaryOperator.Equal, Variable(x), Variable(y)));
  }

  /**
   * An object expression whose property value yields no value ends with no
   * value and leaves declarations suppressed.
   */
  lemma UnboundPropertyLeavesSuppression(st: State, key: string, name: string, fuel: nat)
    requires Scopes.Resolve(st.scopeStack, name).None?
    ensures var r := EvalExpr(st, ObjectExpression([key], [Variable(name)]), fuel);
            r.out == NoVal && r.st == st.(suppressDeclarations := true)
  {
    var st1 := st.(suppressDeclarations := true);
    assert EvalExpr(st1, Variable(name), fuel) == ExprStep(NoVal, st1, Variable(name));
    assert [Variable(name)][1..] == [];
    assert EvalProperties(st1, [key], [Variable(name)], map[], fuel) == PropsStep(Some(NoVal), st1, map[], [Variable(name)], []);
  }
}
