/*
 * Per-node properties of the evaluator: what each `evaluate` reads and
 * writes, stated over the functions of module Semantics.
 */
module NodeProperties {
  import opened Values
  import opened Ops
  import opened Ir
  import opened Objects
  import Scopes
  import opened InterpreterState
  import opened Semantics
  import Apply

  // ---------------------------------------------------------------------------
  // Literal, EmptyExpression, Variable, MemberExpression
  // ---------------------------------------------------------------------------

  /**
   * A literal yields its stored value and the empty expression Undefined,
   * whatever the state and the fuel; neither changes the state or the node.
   */
  lemma ConstantsArePure(st: State, st2: State, v: Value, fuel: nat, fuel2: nat)
    ensures EvalExpr(st, Literal(v), fuel) == ExprStep(Val(v), st, Literal(v))
    ensures EvalExpr(st2, Literal(v), fuel2).out == EvalExpr(st, Literal(v), fuel).out
    ensures EvalExpr(st, EmptyExpression, fuel) == ExprStep(Val(Undefined), st, EmptyExpression)
    ensures EvalExpr(st2, EmptyExpression, fuel2).out == EvalExpr(st, EmptyExpression, fuel).out
  {
  }

  /**
   * A variable yields `v` exactly when the innermost frame binding its name
   * binds it to `v`; it yields no value when no frame binds the name; the
   * state is left as it was, and the heap (the global object included) is
   * never consulted.
   */
  lemma VariableReadsInnermost(st: State, name: string, v: Value, heap: Heap, fuel: nat)
    ensures var r := EvalExpr(st, Variable(name), fuel);
            r.st == st && r.node == Variable(name) &&
            (r.out == Val(v) <==>
               exists i :: 0 <= i < |st.scopeStack| && name in st.scopeStack[i] && st.scopeStack[i][name] == v &&
                           forall j :: i < j < |st.scopeStack| ==> name !in st.scopeStack[j]) &&
            (r.out == NoVal <==> forall j :: 0 <= j < |st.scopeStack| ==> name !in st.scopeStack[j])
    ensures EvalExpr(st.(heap := heap), Variable(name), fuel).out == EvalExpr(st, Variable(name), fuel).out
  {
    Scopes.ResolveIsInnermost(st.scopeStack, name, v);
  }

  /**
   * A member expression yields the innermost binding of its object's name,
   * as a variable of that name would; the property name plays no part.
   */
  lemma MemberReadsObjectName(st: State, objectName: string, property: string, other: string, fuel: nat)
    ensures var r := EvalExpr(st, MemberExpression(objectName, property), fuel);
            r.st == st && r.out == EvalExpr(st, Variable(objectName), fuel).out &&
            r.out == EvalExpr(st, MemberExpression(objectName, other), fuel).out
  {
  }

  // ---------------------------------------------------------------------------
  // BinaryExpression and CallExpression
  // ---------------------------------------------------------------------------

  /**
   * The left operand runs first and the right one in the state the left one
   * left; an abort in either ends the expression with it. Otherwise the
   * result is `apply_op` of the two values, each read as Undefined when it
   * yields none, a panic of `apply_op` being fatal, in the right operand's state.
   */
  lemma BinaryOperandsInOrder(st: State, op: BinaryOperator, lhs: Expr, rhs: Expr, fuel: nat)
    ensures var l := EvalExpr(st, lhs, fuel);
            var rr := EvalExpr(l.st, rhs, fuel);
            var r := EvalExpr(st, BinaryExpression(op, lhs, rhs), fuel);
            (l.out.Aborted() ==> r.out == l.out && r.st == l.st) &&
            (!l.out.Aborted() && rr.out.Aborted() ==> r.out == rr.out && r.st == rr.st) &&
            (!l.out.Aborted() && !rr.out.Aborted() ==>
               r.st == rr.st &&
               r.out == (match Apply.ApplyOp(op, l.out.ValueOrUndefined(), rr.out.ValueOrUndefined())
                         case Ok(v) => Val(v)
                         case Panic => Fatal))
  {
    assert EvalExpr(st, BinaryExpression(op, lhs, rhs), fuel) == EvalBinary(st, op, lhs, rhs, fuel);
  }

  /**
   * A call to a declared function with no more actuals than formals
   * evaluates the actuals in order in the caller's state; an abort among them
   * ends the call with it. Otherwise each formal not repeated later in the
   * list is bound to its actual's value, or to Undefined once the actuals run
   * out, and the body runs through `run_with` with those bindings as its
   * frame, in the state the actuals left; its outcome and state are the call's.
   */
  lemma CallBindsAndRuns(st: State, callee: string, args: seq<Expr>, fuel: nat)
    requires LookupFunction(st, callee).Some?
    requires |args| <= |LookupFunction(st, callee).value.kind.parameters|
    ensures var f := LookupFunction(st, callee).value.kind;
            var a := EvalActuals(st, args, fuel);
            var b := BindArguments(st, f.parameters, args, map[], fuel);
            var r := EvalExpr(st, CallExpression(callee, args), fuel);
            (a.out.Aborted() ==> r.out == a.out && r.st == a.st) &&
            (!a.out.Aborted() ==>
               b.st == a.st &&
               b.context.Keys == (set p | p in f.parameters) &&
               (forall i :: 0 <= i < |f.parameters| && f.parameters[i] !in f.parameters[i + 1..] ==>
                  b.context[f.parameters[i]] == if i < |args| then a.vals[i] else Undefined) &&
               (fuel == 0 ==> r.out == OutOfFuel) &&
               (fuel > 0 ==> var run := RunWith(a.st, f.body, b.context, fuel - 1);
                             r.out == run.out && r.st == run.st))
  {
    var f := LookupFunction(st, callee).value.kind;
    BindingValues(st, f.parameters, args, map[], fuel);
    BindingEffect(st, f.parameters, args, map[], fuel);
    assert EvalExpr(st, CallExpression(callee, args), fuel) == EvalCall(st, callee, args, fuel);
  }

  // ---------------------------------------------------------------------------
  // AssignmentExpression
  // ---------------------------------------------------------------------------

  /**
   * A completed assignment changes only the frame of the innermost binding of
   * its target, and only that binding in it: the right-hand side's state is
   * otherwise kept, and every other name resolves as it did after the
   * right-hand side ran.
   */
  lemma AssignmentEffect(st: State, target: string, newValue: Expr, other: string, fuel: nat)
    ensures var v := EvalExpr(st, newValue, fuel);
            var r := EvalExpr(st, AssignmentExpression(target, newValue), fuel);
            !r.out.Aborted() ==>
              Scopes.Resolve(v.st.scopeStack, target).Some? &&
              var i := Scopes.InnermostIndex(v.st.scopeStack, target).value;
              r.st == v.st.(scopeStack := v.st.scopeStack[i := v.st.scopeStack[i][target := r.out.value]]) &&
              (other != target ==> Scopes.Resolve(r.st.scopeStack, other) == Scopes.Resolve(v.st.scopeStack, other))
  {
    var v := EvalExpr(st, newValue, fuel);
    if Scopes.Resolve(v.st.scopeStack, target).Some? && v.out.Val? {
      Scopes.SetInnermostEffect(v.st.scopeStack, target, v.out.value, other);
    }
  }

  /** With a target bound nowhere, an assignment of a literal panics: nothing is created. */
  lemma AssignmentDoesNotCreate(st: State, target: string, v: Value, fuel: nat)
    requires forall j :: 0 <= j < |st.scopeStack| ==> target !in st.scopeStack[j]
    ensures EvalExpr(st, AssignmentExpression(target, Literal(v)), fuel).out == Fatal
    ensures EvalExpr(st, AssignmentExpression(target, Literal(v)), fuel).st == st
  {
    assert Scopes.Resolve(st.scopeStack, target).None?;
    assert EvalExpr(st, Literal(v), fuel) == ExprStep(Val(v), st, Literal(v));
    assert EvalAssignment(st, target, Literal(v), fuel) == ExprStep(Fatal, st, AssignmentExpression(target, Literal(v)));
    assert EvalExpr(st, AssignmentExpression(target, Literal(v)), fuel) == EvalAssignment(st, target, Literal(v), fuel);
  }

  // ---------------------------------------------------------------------------
  // VariableDeclaration
  // ---------------------------------------------------------------------------

  /**
   * A completed declaration changes only the innermost frame, where `name`
   * now has the initializer's value (Undefined when it yields none); the
   * frames below are as the initializer left them, and so a declaration
   * shadows an outer binding of the same name without changing it.
   */
  lemma DeclarationWritesTopFrame(st: State, name: string, init: Expr, fuel: nat)
    ensures var v := EvalExpr(st, init, fuel);
            var r := ExecStmt(st, VariableDeclaration(name, Some(init)), fuel);
            r.out == NoVal ==>
              var n := |v.st.scopeStack|;
              n > 0 && |r.st.scopeStack| == n &&
              r.st.scopeStack[..n - 1] == v.st.scopeStack[..n - 1] &&
              r.st.scopeStack[n - 1] == v.st.scopeStack[n - 1][name := v.out.ValueOrUndefined()] &&
              r.st == v.st.(scopeStack := r.st.scopeStack)
  {
    var v := EvalExpr(st, init, fuel);
    assert EvalOptExpr(st, Some(init), fuel) == OptExprStep(v.out, v.st, Some(v.node));
    assert ExecStmt(st, VariableDeclaration(name, Some(init)), fuel) == ExecVariableDeclaration(st, name, Some(init), fuel);
  }

  /** A declaration without an initializer binds Undefined in the top frame and yields no value. */
  lemma DeclarationWithoutInitializer(st: State, name: string, fuel: nat)
    requires |st.scopeStack| > 0
    ensures var r := ExecStmt(st, VariableDeclaration(name, None), fuel);
            var n := |st.scopeStack|;
            r.out == NoVal &&
            r.st == st.(scopeStack := st.scopeStack[..n - 1] + [st.scopeStack[n - 1][name := Undefined]])
  {
  }

  // ---------------------------------------------------------------------------
  // FunctionDeclaration
  // ---------------------------------------------------------------------------

  /**
   * Declaring a function appends its Function object to the heap and changes,
   * among the objects already there, only the global object's property of its
   * name; the scope stack and the flags are untouched. A second declaration of the same name therefore
   * replaces the first.
   */
  lemma FunctionDeclarationEffect(st: State, name: string, parameters: seq<string>, body: Block,
                                  parameters2: seq<string>, body2: Block, other: string)
    requires WellFormed(st)
    ensures var r := ExecStmt(st, FunctionDeclaration(name, parameters, body), 0);
            |r.st.heap| == |st.heap| + 1 &&
            r.st == st.(heap := r.st.heap) &&
            (other != name ==> Get(r.st.heap[st.globalObject], other) == Get(st.heap[st.globalObject], other)) &&
            (forall q :: 0 <= q < |st.heap| && q != st.globalObject ==> r.st.heap[q] == st.heap[q]) &&
            r.st.heap[|st.heap|] == NewFunction(name, parameters, body) &&
            var r2 := ExecStmt(r.st, FunctionDeclaration(name, parameters2, body2), 0);
            LookupFunction(r2.st, name) == Some(NewFunction(name, parameters2, body2))
  {
    var r := ExecStmt(st, FunctionDeclaration(name, parameters, body), 0);
    assert WellFormed(r.st);
  }

  // ---------------------------------------------------------------------------
  // BreakStatement and ReturnStatement
  // ---------------------------------------------------------------------------

  /**
   * `break` raises the break flag and nothing else, yields no value, and
   * evaluating it again leaves the same state as evaluating it once.
   */
  lemma BreakIdempotent(st: State, fuel: nat)
    ensures var r := ExecStmt(st, BreakStatement, fuel);
            r == StmtStep(NoVal, st.(shouldBreak := true), BreakStatement) &&
            ExecStmt(r.st, r.node, fuel) == r
  {
  }

  /**
   * A return statement takes its expression: once it has completed, its node
   * is an empty return, which evaluated again yields Undefined and changes
   * nothing. An expression that yields no value raises the flag but leaves the
   * register as it was.
   */
  lemma ReturnTakesExpression(st: State, e: Expr, fuel: nat, fuel2: nat)
    ensures var r := ExecStmt(st, ReturnStatement(Some(e)), fuel);
            !r.out.Aborted() ==>
              r.node == ReturnStatement(None) &&
              ExecStmt(r.st, r.node, fuel2) == StmtStep(Val(Undefined), r.st, r.node)
    ensures var v := EvalExpr(st, e, fuel);
            var r := ExecStmt(st, ReturnStatement(Some(e)), fuel);
            v.out == NoVal ==>
              r == StmtStep(Val(Undefined), v.st.(shouldReturn := true), ReturnStatement(None))
  {
  }

  // ---------------------------------------------------------------------------
  // IfStatement and ExpressionStatement
  // ---------------------------------------------------------------------------

  /**
   * The test runs once, first. A `true` test then runs the consequent alone, a
   * `false` one the alternate alone, or nothing when there is no alternate.
   */
  lemma IfRunsOneBranch(st: State, test: Expr, consequent: Stmt, alternate: Option<Stmt>, fuel: nat)
    ensures var t := EvalExpr(st, test, fuel);
            var r := ExecStmt(st, IfStatement(test, consequent, alternate), fuel);
            (t.out == Val(Boolean(true)) ==> r.st == ExecStmt(t.st, consequent, fuel).st) &&
            (t.out == Val(Boolean(false)) && alternate.None? ==> r == StmtStep(Val(Undefined), t.st, IfStatement(t.node, consequent, None))) &&
            (t.out == Val(Boolean(false)) && alternate.Some? ==> r.st == ExecStmt(t.st, alternate.value, fuel).st)
  {
    var t := EvalExpr(st, test, fuel);
    if alternate.Some? {
      var a := ExecStmt(t.st, alternate.value, fuel);
      assert ExecOptStmt(t.st, alternate, fuel) == OptStmtStep(a.out, a.st, Some(a.node));
    }
  }

  /** An expression statement yields exactly what its expression yields, and adds no effect. */
  lemma ExpressionStatementPassesThrough(st: State, e: Expr, fuel: nat)
    ensures var v := EvalExpr(st, e, fuel);
            ExecStmt(st, ExpressionStatement(e), fuel) == StmtStep(v.out, v.st, ExpressionStatement(v.node))
  {
  }

  // ---------------------------------------------------------------------------
  // Blocks
  // ---------------------------------------------------------------------------

  /** A block statement runs its block with an empty context frame and yields the block's result. */
  lemma BlockStatementRunsWithEmptyContext(st: State, b: Block, fuel: nat)
    ensures var r := RunWith(st, b, map[], fuel);
            ExecStmt(st, BlockStatement(b), fuel) == StmtStep(r.out, r.st, BlockStatement(b))
  {
  }

  /**
   * One step of the loop of `run_with`, after the first statement `s` has run
   * and completed. Its value, if any, replaces the last value. Then: a pending
   * break ends the block with the last value, the flag left raised; a pending
   * return ends a function body with the emptied register, the flag lowered,
   * and any other block with the last value, flag and register untouched;
   * with neither pending the block goes on with the remaining statements.
   */
  lemma RunChildrenStep(st: State, s: Stmt, rest: seq<Stmt>, scopeType: ScopeType, last: Option<Value>, fuel: nat)
    ensures var c := ExecStmt(st, s, fuel);
            var last' := if c.out.Val? then Some(c.out.value) else last;
            var r := RunChildren(st, [s] + rest, scopeType, last, fuel);
            (c.out.Aborted() ==> r == BlockStep(c.out, c.st)) &&
            (!c.out.Aborted() && c.st.shouldBreak ==> r == BlockStep(FromOption(last'), c.st)) &&
            (!c.out.Aborted() && !c.st.shouldBreak && c.st.shouldReturn && scopeType == Function ==>
               r == BlockStep(FromOption(c.st.returnRegister), c.st.(shouldReturn := false, returnRegister := None))) &&
            (!c.out.Aborted() && !c.st.shouldBreak && c.st.shouldReturn && scopeType != Function ==>
               r == BlockStep(FromOption(last'), c.st)) &&
            (!c.out.Aborted() && !c.st.shouldBreak && !c.st.shouldReturn ==>
               r == RunChildren(c.st, rest, scopeType, last', fuel))
  {
    assert ([s] + rest)[0] == s && ([s] + rest)[1..] == rest;
  }

  /** With no statements left, a block yields the last value so far, or no value, and changes nothing. */
  lemma RunChildrenDone(st: State, scopeType: ScopeType, last: Option<Value>, fuel: nat)
    ensures RunChildren(st, [], scopeType, last, fuel) == BlockStep(FromOption(last), st)
  {
  }

  /** The outcomes of statements run one after another, each in the state the one before left. */
  datatype Trace = Trace(outs: seq<Outcome>, st: State)

  function Sequence(st: State, children: seq<Stmt>, fuel: nat): (t: Trace)
    ensures |t.outs| == |children|
    decreases |children|
  {
    if |children| == 0 then Trace([], st)
    else
      var c := ExecStmt(st, children[0], fuel);
      var rest := Sequence(c.st, children[1..], fuel);
      Trace([c.out] + rest.outs, rest.st)
  }

  /** Run one after another, no statement aborts or leaves the break or return flag raised. */
  ghost predicate Quiet(st: State, children: seq<Stmt>, fuel: nat)
    decreases |children|
  {
    |children| == 0 ||
    var c := ExecStmt(st, children[0], fuel);
    !c.out.Aborted() && !c.st.shouldBreak && !c.st.shouldReturn && Quiet(c.st, children[1..], fuel)
  }

  /** The last value among the outcomes, or `last` when none is a value. */
  function LastValue(last: Option<Value>, outs: seq<Outcome>): (r: Option<Value>)
    ensures r.Some? ==> r == last || exists i :: 0 <= i < |outs| && outs[i] == Val(r.value)
  {
    if |outs| == 0 then last
    else if outs[|outs| - 1].Val? then Some(outs[|outs| - 1].value)
    else LastValue(last, outs[..|outs| - 1])
  }

  lemma {:induction false} LastValueCons(last: Option<Value>, o: Outcome, outs: seq<Outcome>)
    ensures LastValue(last, [o] + outs) == LastValue(if o.Val? then Some(o.value) else last, outs)
    decreases |outs|
  {
    if |outs| > 0 {
      assert ([o] + outs)[..|outs|] == [o] + outs[..|outs| - 1];
      LastValueCons(last, o, outs[..|outs| - 1]);
    } else {
      assert ([o] + outs)[..0] == [];
    }
  }

  /**
   * When no child aborts or raises a flag, `run_with`'s loop visits them all
   * and yields the last value among their outcomes, or the value it started
   * with when none yields one; the state is the one the last child left.
   */
  lemma {:induction false} QuietBlockYieldsLastValue(st: State, children: seq<Stmt>, scopeType: ScopeType,
                                                    last: Option<Value>, fuel: nat)
    requires Quiet(st, children, fuel)
    ensures var t := Sequence(st, children, fuel);
            RunChildren(st, children, scopeType, last, fuel) == BlockStep(FromOption(LastValue(last, t.outs)), t.st)
    decreases |children|
  {
    if |children| > 0 {
      var c := ExecStmt(st, children[0], fuel);
      var last' := if c.out.Val? then Some(c.out.value) else last;
      QuietBlockYieldsLastValue(c.st, children[1..], scopeType, last', fuel);
      LastValueCons(last, c.out, Sequence(c.st, children[1..], fuel).outs);
    }
  }

  /**
   * `run_with` on a block that completes pushes the context frame and pops it
   * again, so a completed block leaves the stack as deep as it was and the
   * global object where it was. (The frames themselves may differ: an
   * assignment in the block writes through to the caller's frames.)
   */
  lemma {:induction false} RunWithRestoresStack(st: State, b: Block, context: Scopes.Frame, fuel: nat)
    ensures var r := RunWith(st, b, context, fuel);
            !r.out.Aborted() ==> |r.st.scopeStack| == |st.scopeStack| && r.st.globalObject == st.globalObject
  {
    var r := RunWith(st, b, context, fuel);
    assert Completes(st, r.out, r.st);
  }
}
