/*
 * The `Interpreter` of src/runtime/interpreter.rs as a class whose fields the
 * evaluation updates in place, with the `evaluate` methods of the IR nodes as
 * its methods (they call each other through `run_with`, so they live together).
 * Every method is proved to do what the matching function of module Semantics
 * says, on the fields read as a `State`.
 */
module Runtime {
  import opened Values
  import opened Ops
  import opened Ir
  import opened Objects
  import Scopes
  import opened InterpreterState
  import Semantics
  import Apply

  /** The actuals from position `i` on; none once they have run out. */
  function Drop(args: seq<Expr>, i: nat): (r: seq<Expr>)
    ensures i < |args| ==> r == args[i..]
    ensures i >= |args| ==> r == []
  {
    if i < |args| then args[i..] else []
  }

  /**
   * A property step with evaluated value nodes put in front of its residual
   * values, and the values they yielded in front of its gathered ones.
   */
  function Prefixed(done: seq<Expr>, got: seq<Value>, p: Semantics.PropsStep): (r: Semantics.PropsStep)
    ensures r.values == done + p.values && r.gathered == got + p.gathered
    ensures r.stop == p.stop && r.st == p.st && r.props == p.props
  {
    p.(values := done + p.values, gathered := got + p.gathered)
  }

  /**
   * Binding the `i`th formal to `arg`, which is the `i`th actual or, once the
   * actuals have run out, an Undefined literal: an aborting actual ends the
   * binding, otherwise it goes on with the next formal.
   */
  lemma BindingStep(st: State, parameters: seq<string>, args: seq<Expr>, i: nat, context: Scopes.Frame,
                     fuel: nat, arg: Expr, a: Semantics.ExprStep)
    requires |args| <= |parameters| && i < |parameters|
    requires arg == (if i < |args| then args[i] else Literal(Undefined)) && a == Semantics.EvalExpr(st, arg, fuel)
    ensures a.out.Aborted() ==>
              Semantics.BindArguments(st, parameters[i..], Drop(args, i), context, fuel) == Semantics.Binding(a.out, a.st, context)
    ensures !a.out.Aborted() ==>
              Semantics.BindArguments(st, parameters[i..], Drop(args, i), context, fuel) ==
              Semantics.BindArguments(a.st, parameters[i + 1..], Drop(args, i + 1), context[parameters[i] := a.out.ValueOrUndefined()], fuel)
  {
    assert parameters[i..][0] == parameters[i] && parameters[i..][1..] == parameters[i + 1..];
    if i < |args| {
      assert args[i..][0] == args[i] && args[i..][1..] == Drop(args, i + 1);
    }
  }

  /** The `i`th value of the property loop evaluated to a value: the loop goes on. */
  lemma PropertyContinues(st: State, keys: seq<string>, values: seq<Expr>, i: nat, props: map<string, Value>,
                          fuel: nat, v: Semantics.ExprStep, done: seq<Expr>, got: seq<Value>)
    requires i < |keys| && i < |values| && v == Semantics.EvalExpr(st, values[i], fuel) && v.out.Val?
    ensures Prefixed(done, got, Semantics.EvalProperties(st, keys[i..], values[i..], props, fuel)) ==
            Prefixed(done + [v.node], got + [v.out.value],
                     Semantics.EvalProperties(v.st, keys[i + 1..], values[i + 1..], props[keys[i] := v.out.value], fuel))
  {
    assert values[i..][0] == values[i] && values[i..][1..] == values[i + 1..];
    assert keys[i..][0] == keys[i] && keys[i..][1..] == keys[i + 1..];
    var rest := Semantics.EvalProperties(v.st, keys[i + 1..], values[i + 1..], props[keys[i] := v.out.value], fuel);
    assert done + ([v.node] + rest.values) == (done + [v.node]) + rest.values;
    assert got + ([v.out.value] + rest.gathered) == (got + [v.out.value]) + rest.gathered;
  }

  /** The `i`th value of the property loop did not evaluate to a value: the loop stops with it. */
  lemma PropertyStops(st: State, keys: seq<string>, values: seq<Expr>, i: nat, props: map<string, Value>,
                      fuel: nat, v: Semantics.ExprStep, done: seq<Expr>, got: seq<Value>)
    requires i < |keys| && i < |values| && v == Semantics.EvalExpr(st, values[i], fuel) && !v.out.Val?
    ensures Prefixed(done, got, Semantics.EvalProperties(st, keys[i..], values[i..], props, fuel)) ==
            Semantics.PropsStep(Some(v.out), v.st, props, done + [v.node] + values[i + 1..], got)
  {
    assert values[i..][0] == values[i] && values[i..][1..] == values[i + 1..];
    assert done + ([v.node] + values[i + 1..]) == done + [v.node] + values[i + 1..];
  }

  /** Writing the `i`th node of a sequence whose first `i` nodes are `done`. */
  lemma ReplaceAt(done: seq<Expr>, values: seq<Expr>, i: nat, n: Expr)
    requires |done| == i < |values|
    ensures (done + values[i..])[i := n] == done + [n] + values[i + 1..]
  {
  }

  /** A round of the `for` loop whose test is not `true`, or aborts, ends the loop. */
  lemma LoopTestEnds(st: State, test: Expr, update: Option<Expr>, body: Stmt, fuel: nat, t: Semantics.ExprStep)
    requires fuel > 0 && t == Semantics.EvalExpr(st, test, fuel - 1)
    requires t.out.Aborted() || !(t.out.Val? && ValueEq(t.out.value, Boolean(true)))
    ensures Semantics.ForLoop(st, test, update, body, fuel) ==
            Semantics.LoopStep(if t.out.Aborted() then t.out else Val(Undefined), t.st, t.node, update, body)
  {
  }

  /** A round of the `for` loop whose body aborts ends the loop with that outcome. */
  lemma LoopBodyEnds(st: State, test: Expr, update: Option<Expr>, body: Stmt, fuel: nat,
                     t: Semantics.ExprStep, b: Semantics.StmtStep)
    requires fuel > 0 && t == Semantics.EvalExpr(st, test, fuel - 1)
    requires t.out.Val? && ValueEq(t.out.value, Boolean(true))
    requires b == Semantics.ExecStmt(t.st, body, fuel - 1) && b.out.Aborted()
    ensures Semantics.ForLoop(st, test, update, body, fuel) == Semantics.LoopStep(b.out, b.st, t.node, update, b.node)
  {
  }

  /** A round of the `for` loop whose body completes goes on with the update. */
  lemma LoopUpdate(st: State, test: Expr, update: Option<Expr>, body: Stmt, fuel: nat,
                   t: Semantics.ExprStep, b: Semantics.StmtStep, u: Semantics.OptExprStep)
    requires fuel > 0 && t == Semantics.EvalExpr(st, test, fuel - 1)
    requires t.out.Val? && ValueEq(t.out.value, Boolean(true))
    requires b == Semantics.ExecStmt(t.st, body, fuel - 1) && !b.out.Aborted()
    requires u == Semantics.EvalOptExpr(b.st, update, fuel - 1)
    ensures Semantics.ForLoop(st, test, update, body, fuel) ==
            if u.out.Aborted() then Semantics.LoopStep(u.out, u.st, t.node, u.node, b.node)
            else Semantics.ForLoop(u.st, t.node, u.node, b.node, fuel - 1)
  {
  }

  class Interpreter {
    var heap: Heap
    const globalObject: Ref
    var scopeStack: seq<Scopes.Frame>
    var shouldBreak: bool
    var shouldReturn: bool
    var returnRegister: Option<Value>
    var suppressDeclarations: bool

    /** The fields as a state value. */
    function Snapshot(): State
      reads this
    {
      State(heap, globalObject, scopeStack, shouldBreak, shouldReturn, returnRegister, suppressDeclarations)
    }

    /** `Interpreter::default`. */
    constructor ()
      ensures Snapshot() == Fresh()
    {
      heap := [NewGlobalObject()];
      globalObject := 0;
      scopeStack := [map["globalThis" := Object(0)]];
      shouldBreak := false;
      shouldReturn := false;
      returnRegister := None;
      suppressDeclarations := false;
    }

    // -------------------------------------------------------------------------
    // Scope and flag operations
    // -------------------------------------------------------------------------

    method EnterScope(context: Scopes.Frame)
      modifies this
      ensures Snapshot() == InterpreterState.EnterScope(old(Snapshot()), context)
    {
      scopeStack := scopeStack + [context];
    }

    method LeaveScope() returns (ok: bool)
      modifies this
      ensures ok <==> InterpreterState.LeaveScope(old(Snapshot())).Ok?
      ensures ok ==> Snapshot() == InterpreterState.LeaveScope(old(Snapshot())).value
      ensures !ok ==> Snapshot() == old(Snapshot())
    {
      if |scopeStack| == 0 {
        return false;
      }
      scopeStack := scopeStack[..|scopeStack| - 1];
      ok := true;
    }

    /** `add_variable`; `ok` is false where the source panics. */
    method AddVariable(key: string, value: Value) returns (ok: bool)
      modifies this
      ensures ok <==> InterpreterState.AddVariable(old(Snapshot()), key, value).Ok?
      ensures ok ==> Snapshot() == InterpreterState.AddVariable(old(Snapshot()), key, value).value
      ensures !ok ==> Snapshot() == old(Snapshot())
    {
      if |scopeStack| == 0 {
        return false;
      }
      scopeStack := scopeStack[..|scopeStack| - 1] + [scopeStack[|scopeStack| - 1][key := value]];
      ok := true;
    }

    /** `get_go_property`: a property of the global object. */
    function GetGoProperty(name: string): (r: Option<Value>)
      reads this
      requires WellFormed(Snapshot())
      ensures r.Some? <==> name in heap[globalObject].properties
      ensures r.Some? ==> r.value == heap[globalObject].properties[name]
    {
      Get(heap[globalObject], name)
    }

    method NotifyBreak()
      modifies this
      ensures Snapshot() == old(Snapshot()).(shouldBreak := true)
    {
      shouldBreak := true;
    }

    method ClearBreak()
      modifies this
      ensures Snapshot() == old(Snapshot()).(shouldBreak := false)
    {
      shouldBreak := false;
    }

    function Broke(): bool
      reads this
    {
      shouldBreak
    }

    method NotifyReturn()
      modifies this
      ensures Snapshot() == old(Snapshot()).(shouldReturn := true)
    {
      shouldReturn := true;
    }

    method ClearReturn()
      modifies this
      ensures Snapshot() == old(Snapshot()).(shouldReturn := false)
    {
      shouldReturn := false;
    }

    function Returned(): bool
      reads this
    {
      shouldReturn
    }

    method SetReturnVal(value: Value)
      modifies this
      ensures Snapshot() == old(Snapshot()).(returnRegister := Some(value))
    {
      returnRegister := Some(value);
    }

    method SuppressDeclarations()
      modifies this
      ensures Snapshot() == old(Snapshot()).(suppressDeclarations := true)
    {
      suppressDeclarations := true;
    }

    method ClearSuppressDeclarations()
      modifies this
      ensures Snapshot() == old(Snapshot()).(suppressDeclarations := false)
    {
      suppressDeclarations := false;
    }

    // -------------------------------------------------------------------------
    // Blocks
    // -------------------------------------------------------------------------

    /** `run_with`. */
    method RunWith(b: Block, context: Scopes.Frame, fuel: nat) returns (out: Outcome)
      modifies this
      ensures Semantics.BlockStep(out, Snapshot()) == Semantics.RunWith(old(Snapshot()), b, context, fuel)
      decreases fuel, BlockSize(b), 1
    {
      EnterScope(context);
      ghost var total := Semantics.RunChildren(Snapshot(), b.children, b.scopeType, None, fuel);
      var lastValue: Option<Value> := None;
      var i := 0;
      while i < |b.children|
        invariant 0 <= i <= |b.children|
        invariant Semantics.RunChildren(Snapshot(), b.children[i..], b.scopeType, lastValue, fuel) == total
        decreases |b.children| - i
      {
        StmtsSizeBound(b.children, i);
        assert b.children[i..][0] == b.children[i] && b.children[i..][1..] == b.children[i + 1..];
        var o, _ := Execute(b.children[i], fuel);
        if o.Aborted() {
          return o;
        }
        if o.Val? {
          lastValue := Some(o.value);
        }
        if shouldBreak {
          break;
        }
        if shouldReturn {
          if b.scopeType == Function {
            ClearReturn();
            lastValue := returnRegister;
            returnRegister := None;
          }
          break;
        }
        i := i + 1;
      }
      assert total == Semantics.BlockStep(FromOption(lastValue), Snapshot());
      var ok := LeaveScope();
      if !ok {
        return Fatal;
      }
      out := FromOption(lastValue);
    }

    /** `run`. */
    method Run(b: Block, fuel: nat) returns (out: Outcome)
      modifies this
      ensures Semantics.BlockStep(out, Snapshot()) == Semantics.Run(old(Snapshot()), b, fuel)
      decreases fuel, BlockSize(b), 2
    {
      out := RunWith(b, map[], fuel);
    }

    // -------------------------------------------------------------------------
    // Expressions
    // -------------------------------------------------------------------------

    method Evaluate(e: Expr, fuel: nat) returns (out: Outcome, node: Expr)
      modifies this
      ensures Semantics.ExprStep(out, Snapshot(), node) == Semantics.EvalExpr(old(Snapshot()), e, fuel)
      decreases fuel, ExprSize(e), 3
    {
      match e
      case Literal(v) =>
        out, node := Val(v), e;
      case EmptyExpression =>
        out, node := Val(Undefined), e;
      case Variable(name) =>
        out, node := FromOption(Scopes.Resolve(scopeStack, name)), e;
      case MemberExpression(objectName, _) =>
        out, node := FromOption(Scopes.Resolve(scopeStack, objectName)), e;
      case AssignmentExpression(target, newValue) =>
        out, node := EvalAssignment(target, newValue, fuel);
      case UpdateExpression(name, op, prefix) =>
        out, node := EvalUpdate(name, op, prefix);
      case BinaryExpression(op, lhs, rhs) =>
        out, node := EvalBinary(op, lhs, rhs, fuel);
      case CallExpression(callee, args) =>
        out, node := EvalCall(callee, args, fuel);
      case ObjectExpression(keys, values) =>
        out, node := EvalObject(keys, values, fuel);
    }

    method EvalAssignment(target: string, newValue: Expr, fuel: nat) returns (out: Outcome, node: Expr)
      modifies this
      ensures Semantics.ExprStep(out, Snapshot(), node) == Semantics.EvalAssignment(old(Snapshot()), target, newValue, fuel)
      decreases fuel, ExprSize(AssignmentExpression(target, newValue)), 1
    {
      var newVal, n := Evaluate(newValue, fuel);
      node := AssignmentExpression(target, n);
      if newVal.Aborted() {
        return newVal, node;
      }
      if Scopes.Resolve(scopeStack, target).None? {
        return Fatal, node;
      }
      if !newVal.Val? {
        return Fatal, node;
      }
      scopeStack := Scopes.SetInnermost(scopeStack, target, newVal.value).value;
      out := newVal;
    }

    method EvalUpdate(name: string, op: UnaryOperator, prefix: bool) returns (out: Outcome, node: Expr)
      modifies this
      ensures Semantics.ExprStep(out, Snapshot(), node) == Semantics.EvalUpdate(old(Snapshot()), name, op, prefix)
    {
      node := UpdateExpression(name, op, prefix);
      var currentValue := Scopes.Resolve(scopeStack, name);
      if currentValue.None? {
        return Fatal, node;
      }
      var returnValue := currentValue.value;
      if !(op.Increment? && currentValue.value.Number?) {
        return Fatal, node;
      }
      var next := Number(currentValue.value.n + 1.0);
      scopeStack := Scopes.SetInnermost(scopeStack, name, next).value;
      if prefix {
        returnValue := next;
      }
      out := Val(returnValue);
    }

    method EvalBinary(op: BinaryOperator, lhs: Expr, rhs: Expr, fuel: nat) returns (out: Outcome, node: Expr)
      modifies this
      ensures Semantics.ExprStep(out, Snapshot(), node) == Semantics.EvalBinary(old(Snapshot()), op, lhs, rhs, fuel)
      decreases fuel, ExprSize(BinaryExpression(op, lhs, rhs)), 1
    {
      var l, l' := Evaluate(lhs, fuel);
      if l.Aborted() {
        return l, BinaryExpression(op, l', rhs);
      }
      var r, r' := Evaluate(rhs, fuel);
      node := BinaryExpression(op, l', r');
      if r.Aborted() {
        return r, node;
      }
      var val := Apply.ApplyOp(op, l.ValueOrUndefined(), r.ValueOrUndefined());
      if val.Panic? {
        return Fatal, node;
      }
      out := Val(val.value);
    }

    method EvalCall(callee: string, args: seq<Expr>, fuel: nat) returns (out: Outcome, node: Expr)
      modifies this
      ensures Semantics.ExprStep(out, Snapshot(), node) == Semantics.EvalCall(old(Snapshot()), callee, args, fuel)
      decreases fuel, ExprSize(CallExpression(callee, args)), 2
    {
      node := CallExpression(callee, args);
      if globalObject >= |heap| {
        return Fatal, node;
      }
      var val := Get(heap[globalObject], callee);
      if val.None? {
        return Fatal, node;
      }
      if !val.value.Object? || val.value.ref >= |heap| {
        return Fatal, node;
      }
      var obj := heap[val.value.ref];
      if GetType(obj) != FunctionTag {
        return Fatal, node;
      }
      var func := AsFunction(obj).value;
      if |func.kind.parameters| < |args| {
        return Fatal, node;
      }
      node := CallExpression(callee, []);
      var bound, context := BindArguments(callee, func.kind.parameters, args, fuel);
      if bound.Aborted() {
        return bound, node;
      }
      if fuel == 0 {
        return OutOfFuel, node;
      }
      out := RunWith(func.kind.body, context, fuel - 1);
    }

    /**
     * The argument loop of `CallExpression::evaluate`: the actuals are padded
     * with Undefined literals up to the number of formals, then each is
     * evaluated in turn and bound to its formal.
     */
    method BindArguments(callee: string, parameters: seq<string>, args: seq<Expr>, fuel: nat)
      returns (out: Outcome, context: Scopes.Frame)
      requires |args| <= |parameters|
      modifies this
      ensures Semantics.Binding(out, Snapshot(), context) ==
              Semantics.BindArguments(old(Snapshot()), parameters, args, map[], fuel)
      decreases fuel, ExprSize(CallExpression(callee, args)), 1
    {
      var arguments := args;
      for k := 0 to |parameters| - |args|
        invariant arguments == args + seq(k, _ => Literal(Undefined))
      {
        arguments := arguments + [Literal(Undefined)];
      }
      ghost var total := Semantics.BindArguments(Snapshot(), parameters, args, map[], fuel);
      context := map[];
      for i := 0 to |parameters|
        invariant Semantics.BindArguments(Snapshot(), parameters[i..], Drop(args, i), context, fuel) == total
      {
        assert arguments[i] == if i < |args| then args[i] else Literal(Undefined);
        var actual := BindingRound(callee, parameters, args, i, context, fuel, arguments[i]);
        if actual.Aborted() {
          return actual, context;
        }
        context := context[parameters[i] := actual.ValueOrUndefined()];
      }
      out := NoVal;
    }

    /** One round of the argument loop: the `i`th padded actual is evaluated. */
    method BindingRound(callee: string, parameters: seq<string>, args: seq<Expr>, i: nat, context: Scopes.Frame,
                        fuel: nat, arg: Expr)
      returns (actual: Outcome)
      requires |args| <= |parameters| && i < |parameters|
      requires arg == if i < |args| then args[i] else Literal(Undefined)
      modifies this
      ensures actual.Aborted() ==>
                Semantics.Binding(actual, Snapshot(), context) ==
                Semantics.BindArguments(old(Snapshot()), parameters[i..], Drop(args, i), context, fuel)
      ensures !actual.Aborted() ==>
                Semantics.BindArguments(Snapshot(), parameters[i + 1..], Drop(args, i + 1), context[parameters[i] := actual.ValueOrUndefined()], fuel) ==
                Semantics.BindArguments(old(Snapshot()), parameters[i..], Drop(args, i), context, fuel)
      decreases fuel, ExprSize(CallExpression(callee, args)), 0
    {
      if i < |args| {
        ExprsSizeBound(args, i);
      }
      ghost var st := Snapshot();
      var residual;
      actual, residual := Evaluate(arg, fuel);
      BindingStep(st, parameters, args, i, context, fuel, arg, Semantics.ExprStep(actual, Snapshot(), residual));
    }

    method EvalObject(keys: seq<string>, values: seq<Expr>, fuel: nat) returns (out: Outcome, node: Expr)
      modifies this
      ensures Semantics.ExprStep(out, Snapshot(), node) == Semantics.EvalObject(old(Snapshot()), keys, values, fuel)
      decreases fuel, ExprSize(ObjectExpression(keys, values)), 2
    {
      SuppressDeclarations();
      var stop, props, residual;
      ghost var gathered;
      stop, props, residual, gathered := EvalProperties(keys, values, fuel);
      node := ObjectExpression(keys, residual);
      if stop.Some? {
        return stop.value, node;
      }
      ClearSuppressDeclarations();
      var a := Alloc(heap, NewLiteralObject(props));
      heap := a.heap;
      out := Val(Object(a.ref));
    }

    /** The property loop of `ObjectExpression::evaluate`. */
    method EvalProperties(keys: seq<string>, values: seq<Expr>, fuel: nat)
      returns (stop: Option<Outcome>, props: map<string, Value>, residual: seq<Expr>, ghost gathered: seq<Value>)
      modifies this
      ensures Semantics.PropsStep(stop, Snapshot(), props, residual, gathered) ==
              Semantics.EvalProperties(old(Snapshot()), keys, values, map[], fuel)
      decreases fuel, ExprSize(ObjectExpression(keys, values)), 1
    {
      ghost var total := Semantics.EvalProperties(Snapshot(), keys, values, map[], fuel);
      props := map[];
      residual := values;
      ghost var done: seq<Expr> := [];
      gathered := [];
      var n := Semantics.Min(|keys|, |values|);
      for i := 0 to n
        invariant |done| == i && residual == done + values[i..]
        invariant total == Prefixed(done, gathered, Semantics.EvalProperties(Snapshot(), keys[i..], values[i..], props, fuel))
      {
        var value, v' := PropertyRound(keys, values, i, props, fuel, done, gathered);
        ReplaceAt(done, values, i, v');
        residual := residual[i := v'];
        if !value.Val? {
          return Some(value), props, residual, gathered;
        }
        props := props[keys[i] := value.value];
        done := done + [v'];
        gathered := gathered + [value.value];
      }
      assert |keys[n..]| == 0 || |values[n..]| == 0;
      stop := None;
    }

    /** One round of the property loop: the `i`th value is evaluated. */
    method PropertyRound(keys: seq<string>, values: seq<Expr>, i: nat, props: map<string, Value>, fuel: nat,
                         ghost done: seq<Expr>, ghost got: seq<Value>)
      returns (value: Outcome, node: Expr)
      requires i < |keys| && i < |values|
      modifies this
      ensures !value.Val? ==>
                Prefixed(done, got, Semantics.EvalProperties(old(Snapshot()), keys[i..], values[i..], props, fuel)) ==
                Semantics.PropsStep(Some(value), Snapshot(), props, done + [node] + values[i + 1..], got)
      ensures value.Val? ==>
                Prefixed(done, got, Semantics.EvalProperties(old(Snapshot()), keys[i..], values[i..], props, fuel)) ==
                Prefixed(done + [node], got + [value.value],
                         Semantics.EvalProperties(Snapshot(), keys[i + 1..], values[i + 1..], props[keys[i] := value.value], fuel))
      decreases fuel, ExprSize(ObjectExpression(keys, values)), 0
    {
      ExprsSizeBound(values, i);
      ghost var st := Snapshot();
      value, node := Evaluate(values[i], fuel);
      if !value.Val? {
        PropertyStops(st, keys, values, i, props, fuel, Semantics.ExprStep(value, Snapshot(), node), done, got);
      } else {
        PropertyContinues(st, keys, values, i, props, fuel, Semantics.ExprStep(value, Snapshot(), node), done, got);
      }
    }

    // -------------------------------------------------------------------------
    // Statements
    // -------------------------------------------------------------------------

    method Execute(s: Stmt, fuel: nat) returns (out: Outcome, node: Stmt)
      modifies this
      ensures Semantics.StmtStep(out, Snapshot(), node) == Semantics.ExecStmt(old(Snapshot()), s, fuel)
      decreases fuel, StmtSize(s), 1
    {
      match s
      case BlockStatement(b) =>
        out := Run(b, fuel);
        node := s;
      case VariableDeclaration(name, init) =>
        out, node := ExecVariableDeclaration(name, init, fuel);
      case FunctionDeclaration(name, parameters, body) =>
        out, node := ExecFunctionDeclaration(name, parameters, body);
      case ReturnStatement(e) =>
        out, node := ExecReturn(e, fuel);
      case BreakStatement =>
        NotifyBreak();
        out, node := NoVal, s;
      case IfStatement(test, consequent, alternate) =>
        out, node := ExecIf(test, consequent, alternate, fuel);
      case ForStatement(initExpr, initDecl, test, update, body) =>
        out, node := ExecFor(initExpr, initDecl, test, update, body, fuel);
      case ExpressionStatement(e) =>
        var o, n := Evaluate(e, fuel);
        out, node := o, ExpressionStatement(n);
    }

    method ExecVariableDeclaration(name: string, init: Option<Expr>, fuel: nat) returns (out: Outcome, node: Stmt)
      modifies this
      ensures Semantics.StmtStep(out, Snapshot(), node) == Semantics.ExecVariableDeclaration(old(Snapshot()), name, init, fuel)
      decreases fuel, StmtSize(VariableDeclaration(name, init)), 0
    {
      var value := Undefined;
      node := VariableDeclaration(name, init);
      if init.Some? {
        var v, n := Evaluate(init.value, fuel);
        node := VariableDeclaration(name, Some(n));
        if v.Aborted() {
          return v, node;
        }
        value := v.ValueOrUndefined();
      }
      var ok := AddVariable(name, value);
      out := if ok then NoVal else Fatal;
    }

    method ExecFunctionDeclaration(name: string, parameters: seq<string>, body: Block) returns (out: Outcome, node: Stmt)
      modifies this
      ensures Semantics.StmtStep(out, Snapshot(), node) == Semantics.ExecFunctionDeclaration(old(Snapshot()), name, parameters, body)
    {
      node := FunctionDeclaration(name, parameters, body);
      if globalObject >= |heap| {
        return Fatal, node;
      }
      var fn := Alloc(heap, NewFunction(name, parameters, body));
      heap := fn.heap;
      heap := PutAt(heap, globalObject, name, Object(fn.ref));
      out := NoVal;
    }

    method ExecReturn(e: Option<Expr>, fuel: nat) returns (out: Outcome, node: Stmt)
      modifies this
      ensures Semantics.StmtStep(out, Snapshot(), node) == Semantics.ExecReturn(old(Snapshot()), e, fuel)
      decreases fuel, StmtSize(ReturnStatement(e)), 0
    {
      node := ReturnStatement(None);
      if e.Some? {
        var v, _ := Evaluate(e.value, fuel);
        if v.Aborted() {
          return v, node;
        }
        if v.Val? {
          SetReturnVal(v.value);
        }
        NotifyReturn();
      }
      out := Val(Undefined);
    }

    method ExecIf(test: Expr, consequent: Stmt, alternate: Option<Stmt>, fuel: nat) returns (out: Outcome, node: Stmt)
      modifies this
      ensures Semantics.StmtStep(out, Snapshot(), node) == Semantics.ExecIf(old(Snapshot()), test, consequent, alternate, fuel)
      decreases fuel, StmtSize(IfStatement(test, consequent, alternate)), 0
    {
      var val, t := Evaluate(test, fuel);
      node := IfStatement(t, consequent, alternate);
      if val.Aborted() {
        return val, node;
      }
      if !(val.Val? && val.value.Boolean?) {
        return Fatal, node;
      }
      if val.value.b {
        var c, c' := Execute(consequent, fuel);
        node := IfStatement(t, c', alternate);
        if c.Aborted() {
          return c, node;
        }
      } else if alternate.Some? {
        assert OptStmtSize(alternate) == StmtSize(alternate.value);
        var a, a' := Execute(alternate.value, fuel);
        node := IfStatement(t, consequent, Some(a'));
        if a.Aborted() {
          return a, node;
        }
      }
      out := Val(Undefined);
    }

    method ExecFor(initExpr: Option<Expr>, initDecl: Option<Stmt>, test: Option<Expr>,
                   update: Option<Expr>, body: Stmt, fuel: nat) returns (out: Outcome, node: Stmt)
      modifies this
      ensures Semantics.StmtStep(out, Snapshot(), node) ==
              Semantics.ExecFor(old(Snapshot()), initExpr, initDecl, test, update, body, fuel)
      decreases fuel, StmtSize(ForStatement(initExpr, initDecl, test, update, body)), 0
    {
      var ie := initExpr;
      if initExpr.Some? {
        var o, n := Evaluate(initExpr.value, fuel);
        ie := Some(n);
        if o.Aborted() {
          return o, ForStatement(ie, initDecl, test, update, body);
        }
      }
      var id := initDecl;
      if initDecl.Some? {
        assert OptStmtSize(initDecl) == StmtSize(initDecl.value);
        var o, n := Execute(initDecl.value, fuel);
        id := Some(n);
        if o.Aborted() {
          return o, ForStatement(ie, id, test, update, body);
        }
      }
      if test.None? {
        return Fatal, ForStatement(ie, id, test, update, body);
      }
      var t, u, bd;
      out, t, u, bd := Loop(test.value, update, body, fuel);
      node := ForStatement(ie, id, Some(t), u, bd);
    }

    /**
     * The `while` of `ForStatement::evaluate`, one unit of fuel per round;
     * the test, update and body come back as the rounds left them.
     */
    method Loop(test: Expr, update: Option<Expr>, body: Stmt, fuel: nat)
      returns (out: Outcome, t: Expr, u: Option<Expr>, bd: Stmt)
      modifies this
      ensures Semantics.LoopStep(out, Snapshot(), t, u, bd) == Semantics.ForLoop(old(Snapshot()), test, update, body, fuel)
      decreases fuel, 0, 1
    {
      t, u, bd := test, update, body;
      ghost var total := Semantics.ForLoop(Snapshot(), t, u, bd, fuel);
      var f: nat := fuel;
      while true
        invariant f <= fuel
        invariant Semantics.ForLoop(Snapshot(), t, u, bd, f) == total
        decreases f
      {
        if f == 0 {
          out := OutOfFuel;
          break;
        }
        var done;
        done, out, t, u, bd := LoopRound(t, u, bd, f);
        if done {
          break;
        }
        f := f - 1;
      }
    }

    /**
     * One round of the loop: the test, then the body, then the update. Either
     * the loop ends with `out`, or it goes on from the new state with one unit
     * of fuel less.
     */
    method LoopRound(test: Expr, update: Option<Expr>, body: Stmt, fuel: nat)
      returns (done: bool, out: Outcome, t: Expr, u: Option<Expr>, bd: Stmt)
      requires fuel > 0
      modifies this
      ensures done ==> Semantics.LoopStep(out, Snapshot(), t, u, bd) ==
                       Semantics.ForLoop(old(Snapshot()), test, update, body, fuel)
      ensures !done ==> Semantics.ForLoop(Snapshot(), t, u, bd, fuel - 1) ==
                        Semantics.ForLoop(old(Snapshot()), test, update, body, fuel)
      decreases fuel, 0, 0
    {
      ghost var st := Snapshot();
      u, bd := update, body;
      var val;
      val, t := Evaluate(test, fuel - 1);
      ghost var ts := Semantics.ExprStep(val, Snapshot(), t);
      if val.Aborted() || !(val.Val? && ValueEq(val.value, Boolean(true))) {
        LoopTestEnds(st, test, update, body, fuel, ts);
        return true, if val.Aborted() then val else Val(Undefined), t, u, bd;
      }
      var b;
      b, bd := Execute(body, fuel - 1);
      ghost var bs := Semantics.StmtStep(b, Snapshot(), bd);
      if b.Aborted() {
        LoopBodyEnds(st, test, update, body, fuel, ts, bs);
        return true, b, t, u, bd;
      }
      var v := NoVal;
      if update.Some? {
        var e';
        v, e' := Evaluate(update.value, fuel - 1);
        u := Some(e');
      }
      LoopUpdate(st, test, update, body, fuel, ts, bs, Semantics.OptExprStep(v, Snapshot(), u));
      return v.Aborted(), v, t, u, bd;
    }
  }
}
