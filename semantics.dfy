/*
 * What evaluating each IR node does (the `evaluate` methods of the nodes
 * under src/ir and `run_with` of src/runtime/interpreter.rs), as functions
 * from an interpreter state to an outcome, a new state and the node as it is
 * left afterwards. Evaluation mutates some nodes: a return statement takes
 * its expression and a call drains its arguments, which matters when a loop
 * evaluates the same test or update node again.
 *
 * Each call and each loop iteration spends one unit of `fuel`; running out
 * gives `OutOfFuel`, so that every function here is total.
 */
module Semantics {
  import opened Values
  import opened Ops
  import opened Ir
  import opened Objects
  import Scopes
  import opened InterpreterState
  import opened Apply

  datatype ExprStep = ExprStep(out: Outcome, st: State, node: Expr)
  datatype OptExprStep = OptExprStep(out: Outcome, st: State, node: Option<Expr>)
  datatype StmtStep = StmtStep(out: Outcome, st: State, node: Stmt)
  datatype OptStmtStep = OptStmtStep(out: Outcome, st: State, node: Option<Stmt>)
  datatype BlockStep = BlockStep(out: Outcome, st: State)
  /** Formal parameters bound so far; `out` is NoVal unless an actual aborted. */
  datatype Binding = Binding(out: Outcome, st: State, context: Scopes.Frame)
  /**
   * Properties gathered so far; `stop` is the outcome that ended the gathering
   * early, and `gathered` the values obtained before it, in order.
   */
  datatype PropsStep = PropsStep(stop: Option<Outcome>, st: State, props: map<string, Value>, values: seq<Expr>,
                                 gathered: seq<Value>)
  /** The actuals of a call evaluated in order; `out` is NoVal unless one aborted. */
  datatype Actuals = Actuals(out: Outcome, st: State, vals: seq<Value>)
  datatype LoopStep = LoopStep(out: Outcome, st: State, test: Expr, update: Option<Expr>, body: Stmt)

  /**
   * No evaluation raises a language exception, and one that completes keeps
   * what `Preserves` promises.
   */
  ghost predicate Completes(st: State, out: Outcome, st': State)
  {
    !out.Exc? && (out.Aborted() || Preserves(st, st'))
  }

  /**
   * The function object the global object holds under `name`, if there is
   * one: what a call expression can call.
   */
  function LookupFunction(st: State, name: string): (r: Option<Obj>)
    ensures r.Some? ==> r.value.kind.FunctionObject?
    ensures r.Some? ==> st.globalObject < |st.heap| && Get(st.heap[st.globalObject], name).Some?
    ensures r.Some? <==> st.globalObject < |st.heap| && Get(st.heap[st.globalObject], name).Some? &&
                         Get(st.heap[st.globalObject], name).value.Object? &&
                         Get(st.heap[st.globalObject], name).value.ref < |st.heap| &&
                         st.heap[Get(st.heap[st.globalObject], name).value.ref].kind.FunctionObject?
    ensures r.Some? ==> r.value == st.heap[Get(st.heap[st.globalObject], name).value.ref]
  {
    if st.globalObject >= |st.heap| then None
    else match Get(st.heap[st.globalObject], name)
      case Some(Object(ref)) =>
        if ref < |st.heap| && GetType(st.heap[ref]) == FunctionTag then Some(st.heap[ref]) else None
      case _ => None
  }

  function Min(a: nat, b: nat): nat
  {
    if a <= b then a else b
  }

  // ---------------------------------------------------------------------------
  // Expressions
  // ---------------------------------------------------------------------------

  /**
   * A literal yields its value and the empty expression Undefined; a variable
   * yields its innermost binding and no value when unbound; a member
   * expression yields the binding of its object's name, ignoring the property.
   */
  function EvalExpr(st: State, e: Expr, fuel: nat): (r: ExprStep)
    ensures Completes(st, r.out, r.st)
    decreases fuel, ExprSize(e), 1
  {
    match e
    case Literal(v) => ExprStep(Val(v), st, e)
    case EmptyExpression => ExprStep(Val(Undefined), st, e)
    case Variable(name) => ExprStep(FromOption(Scopes.Resolve(st.scopeStack, name)), st, e)
    case MemberExpression(objectName, _) => ExprStep(FromOption(Scopes.Resolve(st.scopeStack, objectName)), st, e)
    case AssignmentExpression(target, newValue) => EvalAssignment(st, target, newValue, fuel)
    case UpdateExpression(name, op, prefix) => EvalUpdate(st, name, op, prefix)
    case BinaryExpression(op, lhs, rhs) => EvalBinary(st, op, lhs, rhs, fuel)
    case CallExpression(callee, args) => EvalCall(st, callee, args, fuel)
    case ObjectExpression(keys, values) => EvalObject(st, keys, values, fuel)
  }

  /** An absent expression evaluates to nothing and changes nothing. */
  function EvalOptExpr(st: State, e: Option<Expr>, fuel: nat): (r: OptExprStep)
    ensures Completes(st, r.out, r.st)
    ensures e.None? ==> r == OptExprStep(NoVal, st, None)
    ensures e.Some? <==> r.node.Some?
    decreases fuel, OptExprSize(e), 2
  {
    match e
    case None => OptExprStep(NoVal, st, None)
    case Some(x) =>
      var v := EvalExpr(st, x, fuel);
      OptExprStep(v.out, v.st, Some(v.node))
  }

  /**
   * `AssignmentExpression::evaluate`: the right-hand side first; then an
   * unbound target or a right-hand side without a value panics; otherwise the
   * innermost binding of the target takes the value, which is also the result.
   */
  function EvalAssignment(st: State, target: string, newValue: Expr, fuel: nat): (r: ExprStep)
    ensures Completes(st, r.out, r.st)
    ensures !r.out.Aborted() ==> r.out.Val? && Scopes.Resolve(r.st.scopeStack, target) == Some(r.out.value)
    ensures !r.out.Aborted() ==> r.out == EvalExpr(st, newValue, fuel).out
    ensures newValue.Literal? && Scopes.Resolve(st.scopeStack, target).None? ==> r.out == Fatal
    decreases fuel, ExprSize(AssignmentExpression(target, newValue)), 0
  {
    var v := EvalExpr(st, newValue, fuel);
    var node := AssignmentExpression(target, v.node);
    if v.out.Aborted() then ExprStep(v.out, v.st, node)
    else if Scopes.Resolve(v.st.scopeStack, target).None? then ExprStep(Fatal, v.st, node)
    else if !v.out.Val? then ExprStep(Fatal, v.st, node)
    else
      Scopes.SetInnermostEffect(v.st.scopeStack, target, v.out.value, target);
      ExprStep(v.out, v.st.(scopeStack := Scopes.SetInnermost(v.st.scopeStack, target, v.out.value).value), node)
  }

  /**
   * `UpdateExpression::evaluate`: only `++` on a bound number works; the
   * variable grows by one and the result is the new value when the operator is
   * a prefix, the old one otherwise. Anything else panics.
   */
  function EvalUpdate(st: State, name: string, op: UnaryOperator, prefix: bool): (r: ExprStep)
    ensures Completes(st, r.out, r.st)
    ensures r.node == UpdateExpression(name, op, prefix)
    ensures r.out.Val? || r.out == Fatal
    ensures var cur := Scopes.Resolve(st.scopeStack, name);
            r.out.Val? <==> op.Increment? && cur.Some? && cur.value.Number?
    ensures var cur := Scopes.Resolve(st.scopeStack, name);
            r.out.Val? ==>
              Scopes.Resolve(r.st.scopeStack, name) == Some(Number(cur.value.n + 1.0)) &&
              r.out.value == (if prefix then Number(cur.value.n + 1.0) else cur.value)
    ensures forall other :: other != name ==> Scopes.Resolve(r.st.scopeStack, other) == Scopes.Resolve(st.scopeStack, other)
    ensures var cur := Scopes.Resolve(st.scopeStack, name);
            r.out.Val? ==> r.st == st.(scopeStack := Scopes.SetInnermost(st.scopeStack, name, Number(cur.value.n + 1.0)).value)
    ensures !r.out.Val? ==> r.st == st
  {
    var node := UpdateExpression(name, op, prefix);
    match Scopes.Resolve(st.scopeStack, name)
    case None => ExprStep(Fatal, st, node)
    case Some(cur) =>
      if op.Increment? && cur.Number? then
        var next := Number(cur.n + 1.0);
        var stack := Scopes.SetInnermost(st.scopeStack, name, next).value;
        assert forall other :: Scopes.Resolve(stack, other) == if other == name then Some(next) else Scopes.Resolve(st.scopeStack, other) by {
          forall other {
            Scopes.SetInnermostEffect(st.scopeStack, name, next, other);
          }
        }
        ExprStep(Val(if prefix then next else cur), st.(scopeStack := stack), node)
      else ExprStep(Fatal, st, node)
  }

  /**
   * `BinaryExpression::evaluate`: left operand, then right operand, each
   * read as Undefined when it yields no value, then `apply_op`.
   */
  function EvalBinary(st: State, op: BinaryOperator, lhs: Expr, rhs: Expr, fuel: nat): (r: ExprStep)
    ensures Completes(st, r.out, r.st)
    ensures r.out.Val? || r.out.Aborted()
    ensures r.out.Val? && IsComparison(op) ==> r.out.value.Boolean?
    ensures r.out.Val? && IsArithmetic(op) ==> r.out.value.Number?
    decreases fuel, ExprSize(BinaryExpression(op, lhs, rhs)), 0
  {
    var l := EvalExpr(st, lhs, fuel);
    if l.out.Aborted() then ExprStep(l.out, l.st, BinaryExpression(op, l.node, rhs))
    else
      var rr := EvalExpr(l.st, rhs, fuel);
      var node := BinaryExpression(op, l.node, rr.node);
      if rr.out.Aborted() then ExprStep(rr.out, rr.st, node)
      else match ApplyOp(op, l.out.ValueOrUndefined(), rr.out.ValueOrUndefined())
        case Ok(v) => ExprStep(Val(v), rr.st, node)
        case Panic => ExprStep(Fatal, rr.st, node)
  }

  /**
   * `CallExpression::evaluate`: the callee must be a function held by the
   * global object, and there must not be more actuals than formals (the count
   * of missing actuals is an unsigned subtraction). Actuals are evaluated in
   * the caller's state, missing ones read as Undefined, and the body runs with
   * the formals bound in a new frame on top of the caller's frames. The
   * arguments are drained, so the node is left without arguments.
   */
  function EvalCall(st: State, callee: string, args: seq<Expr>, fuel: nat): (r: ExprStep)
    ensures Completes(st, r.out, r.st)
    ensures LookupFunction(st, callee).None? ==> r.out == Fatal
    ensures LookupFunction(st, callee).Some? && |LookupFunction(st, callee).value.kind.parameters| < |args| ==>
              r.out == Fatal
    ensures !r.out.Aborted() ==> r.node == CallExpression(callee, [])
    decreases fuel, ExprSize(CallExpression(callee, args)), 0
  {
    match LookupFunction(st, callee)
    case None => ExprStep(Fatal, st, CallExpression(callee, args))
    case Some(f) =>
      var parameters := f.kind.parameters;
      if |parameters| < |args| then ExprStep(Fatal, st, CallExpression(callee, args))
      else
        var b := BindArguments(st, parameters, args, map[], fuel);
        var node := CallExpression(callee, []);
        if b.out.Aborted() then ExprStep(b.out, b.st, node)
        else if fuel == 0 then ExprStep(OutOfFuel, b.st, node)
        else
          var run := RunWith(b.st, f.kind.body, b.context, fuel - 1);
          ExprStep(run.out, run.st, node)
  }

  /**
   * The binding of formals to actuals: each actual in order, or Undefined once
   * the actuals run out. A later formal of the same name overwrites an earlier one.
   */
  function BindArguments(st: State, parameters: seq<string>, args: seq<Expr>, context: Scopes.Frame, fuel: nat): (r: Binding)
    requires |args| <= |parameters|
    ensures r.out == NoVal || r.out.Aborted()
    ensures Completes(st, r.out, r.st)
    decreases fuel, ExprsSize(args), |parameters|
  {
    if |parameters| == 0 then Binding(NoVal, st, context)
    else if |args| == 0 then
      BindArguments(st, parameters[1..], args, context[parameters[0] := Undefined], fuel)
    else
      var a := EvalExpr(st, args[0], fuel);
      if a.out.Aborted() then Binding(a.out, a.st, context)
      else BindArguments(a.st, parameters[1..], args[1..], context[parameters[0] := a.out.ValueOrUndefined()], fuel)
  }

  /**
   * The actuals evaluated in order, each in the state the one before left,
   * with no value read as Undefined; an actual that aborts ends the evaluation.
   */
  function EvalActuals(st: State, args: seq<Expr>, fuel: nat): (r: Actuals)
    ensures r.out == NoVal || r.out.Aborted()
    ensures r.out == NoVal ==> |r.vals| == |args|
    ensures Completes(st, r.out, r.st)
    decreases |args|
  {
    if |args| == 0 then Actuals(NoVal, st, [])
    else
      var a := EvalExpr(st, args[0], fuel);
      if a.out.Aborted() then Actuals(a.out, a.st, [])
      else
        var rest := EvalActuals(a.st, args[1..], fuel);
        if rest.out.Aborted() then Actuals(rest.out, rest.st, [a.out.ValueOrUndefined()] + rest.vals)
        else
          PreservesTransitive(st, a.st, rest.st);
          Actuals(rest.out, rest.st, [a.out.ValueOrUndefined()] + rest.vals)
  }

  /**
   * Binding evaluates exactly the actuals, in order, and a completed binding
   * gives each formal not repeated later in the list the value of its actual,
   * or Undefined once the actuals have run out.
   */
  lemma {:induction false} BindingValues(st: State, parameters: seq<string>, args: seq<Expr>, context: Scopes.Frame, fuel: nat)
    requires |args| <= |parameters|
    ensures var r := BindArguments(st, parameters, args, context, fuel);
            var a := EvalActuals(st, args, fuel);
            r.out == a.out && r.st == a.st &&
            (r.out == NoVal ==>
               forall i :: 0 <= i < |parameters| && parameters[i] !in parameters[i + 1..] ==>
                 parameters[i] in r.context &&
                 r.context[parameters[i]] == if i < |args| then a.vals[i] else Undefined)
    decreases |parameters|
  {
    if |parameters| > 0 {
      var tail := parameters[1..];
      var p0 := parameters[0];
      var v0: Value, st1: State, args1: seq<Expr>;
      if |args| == 0 {
        v0, st1, args1 := Undefined, st, args;
      } else {
        var a := EvalExpr(st, args[0], fuel);
        if a.out.Aborted() {
          return;
        }
        v0, st1, args1 := a.out.ValueOrUndefined(), a.st, args[1..];
      }
      var ctx := context[p0 := v0];
      BindingValues(st1, tail, args1, ctx, fuel);
      BindingEffect(st1, tail, args1, ctx, fuel);
      var r := BindArguments(st1, tail, args1, ctx, fuel);
      assert r == BindArguments(st, parameters, args, context, fuel);
      if r.out == NoVal {
        forall i | 0 <= i < |parameters| && parameters[i] !in parameters[i + 1..]
          ensures parameters[i] in r.context
          ensures r.context[parameters[i]] == if i < |args| then EvalActuals(st, args, fuel).vals[i] else Undefined
        {
          if i == 0 {
            assert parameters[1..] == tail;
          } else {
            assert parameters[i] == tail[i - 1] && parameters[i + 1..] == tail[i..];
          }
        }
      }
    }
  }

  /**
   * A completed binding binds every formal and keeps the rest of the context;
   * with no actuals left it changes nothing and binds every formal to Undefined.
   */
  lemma {:induction false} BindingEffect(st: State, parameters: seq<string>, args: seq<Expr>, context: Scopes.Frame, fuel: nat)
    requires |args| <= |parameters|
    ensures var r := BindArguments(st, parameters, args, context, fuel);
            r.out == NoVal ==>
              r.context.Keys == context.Keys + (set p | p in parameters) &&
              (forall k :: k in context && k !in parameters ==> r.context[k] == context[k]) &&
              (args == [] ==> r.st == st && forall p :: p in parameters ==> r.context[p] == Undefined)
    decreases fuel, ExprsSize(args), |parameters|
  {
    if |parameters| > 0 {
      var tail := parameters[1..];
      assert forall p :: p in parameters <==> p == parameters[0] || p in tail;
      if |args| == 0 {
        BindingEffect(st, tail, args, context[parameters[0] := Undefined], fuel);
      } else {
        var a := EvalExpr(st, args[0], fuel);
        if !a.out.Aborted() {
          BindingEffect(a.st, tail, args[1..], context[parameters[0] := a.out.ValueOrUndefined()], fuel);
        }
      }
    }
  }

  /**
   * `ObjectExpression::evaluate`: declarations are suppressed while the
   * property values are evaluated; the first value that is not a value ends
   * the evaluation with that outcome, the flag still raised. Otherwise the
   * flag is lowered and a new plain object holding the properties is the result.
   */
  function EvalObject(st: State, keys: seq<string>, values: seq<Expr>, fuel: nat): (r: ExprStep)
    ensures Completes(st, r.out, r.st)
    ensures r.out.Val? || r.out.Aborted() || r.out.NoVal?
    ensures r.node.ObjectExpression? && r.node.keys == keys && |r.node.values| == |values|
    decreases fuel, ExprSize(ObjectExpression(keys, values)), 0
  {
    var p := EvalProperties(st.(suppressDeclarations := true), keys, values, map[], fuel);
    var node := ObjectExpression(keys, p.values);
    if p.stop.Some? then ExprStep(p.stop.value, p.st, node)
    else
      var st' := p.st.(suppressDeclarations := false);
      var a := Alloc(st'.heap, NewLiteralObject(p.props));
      ExprStep(Val(Object(a.ref)), st'.(heap := a.heap), node)
  }

  /** The loop of `ObjectExpression::evaluate` over the keys zipped with the values. */
  function EvalProperties(st: State, keys: seq<string>, values: seq<Expr>, props: map<string, Value>, fuel: nat): (r: PropsStep)
    ensures r.stop.None? || !r.stop.value.Val?
    ensures r.stop.None? || !r.stop.value.Exc?
    ensures (r.stop.Some? && r.stop.value.Aborted()) || Preserves(st, r.st)
    ensures |r.values| == |values|
    ensures r.stop.None? ==> |r.gathered| == Min(|keys|, |values|)
    ensures r.stop.Some? ==> |r.gathered| < Min(|keys|, |values|) && r.values[|r.gathered| + 1..] == values[|r.gathered| + 1..]
    decreases fuel, ExprsSize(values), 0
  {
    if |keys| == 0 || |values| == 0 then PropsStep(None, st, props, values, [])
    else
      var v := EvalExpr(st, values[0], fuel);
      if !v.out.Val? then PropsStep(Some(v.out), v.st, props, [v.node] + values[1..], [])
      else
        var rest := EvalProperties(v.st, keys[1..], values[1..], props[keys[0] := v.out.value], fuel);
        PropsStep(rest.stop, rest.st, rest.props, [v.node] + rest.values, [v.out.value] + rest.gathered)
  }

  /** `props` with the keys of `ks` set, one after another, to the values of `gs` at the same positions. */
  function Assigned(props: map<string, Value>, ks: seq<string>, gs: seq<Value>): map<string, Value>
    requires |ks| == |gs|
    decreases |ks|
  {
    if |ks| == 0 then props else Assigned(props[ks[0] := gs[0]], ks[1..], gs[1..])
  }

  /**
   * A loop that gathers to the end leaves `props` with each key paired with a
   * value set, in order, to the value gathered for it.
   */
  lemma {:induction false} PropertiesContents(st: State, keys: seq<string>, values: seq<Expr>, props: map<string, Value>, fuel: nat)
    ensures var r := EvalProperties(st, keys, values, props, fuel);
            var ks := keys[..Min(|keys|, |values|)];
            r.stop.None? ==> |r.gathered| == |ks| && r.props == Assigned(props, ks, r.gathered)
    decreases fuel, ExprsSize(values), 0
  {
    var n := Min(|keys|, |values|);
    if n == 0 {
      assert keys[..n] == [];
    } else {
      var v := EvalExpr(st, values[0], fuel);
      if v.out.Val? {
        var props' := props[keys[0] := v.out.value];
        var rest := EvalProperties(v.st, keys[1..], values[1..], props', fuel);
        PropertiesContents(v.st, keys[1..], values[1..], props', fuel);
        PropertiesGoOn(st, keys, values, props, fuel);
        var ks := keys[..n];
        assert ks[0] == keys[0] && ks[1..] == keys[1..][..n - 1];
        if rest.stop.None? {
          assert ([v.out.value] + rest.gathered)[0] == v.out.value;
          assert ([v.out.value] + rest.gathered)[1..] == rest.gathered;
        }
      }
    }
  }

  /** A first property value that yields a value is gathered, and the loop goes on with the next pair. */
  lemma PropertiesGoOn(st: State, keys: seq<string>, values: seq<Expr>, props: map<string, Value>, fuel: nat)
    requires |keys| > 0 && |values| > 0 && EvalExpr(st, values[0], fuel).out.Val?
    ensures var v := EvalExpr(st, values[0], fuel);
            var r := EvalProperties(st, keys, values, props, fuel);
            var rest := EvalProperties(v.st, keys[1..], values[1..], props[keys[0] := v.out.value], fuel);
            r.stop == rest.stop && r.props == rest.props && r.gathered == [v.out.value] + rest.gathered &&
            Min(|keys| - 1, |values| - 1) == Min(|keys|, |values|) - 1
  {
  }

  /**
   * Setting the keys one after another holds exactly the earlier properties
   * and the keys; each key holds the value at its last occurrence, and an
   * earlier property no key names is kept.
   */
  lemma {:induction false} AssignedGathers(props: map<string, Value>, ks: seq<string>, gs: seq<Value>)
    requires |ks| == |gs|
    ensures Gathers(props, ks, gs, Assigned(props, ks, gs))
    decreases |ks|
  {
    if |ks| == 0 {
    } else {
      AssignedGathers(props[ks[0] := gs[0]], ks[1..], gs[1..]);
      assert ks == [ks[0]] + ks[1..] && gs == [gs[0]] + gs[1..];
      GathersCons(props, ks[0], gs[0], ks[1..], gs[1..], Assigned(props, ks, gs));
    }
  }

  /**
   * `m` is `props` with each key of `ks` set to the value of `gs` at the same
   * position, a later occurrence of a key overriding an earlier one.
   */
  ghost predicate Gathers(props: map<string, Value>, ks: seq<string>, gs: seq<Value>, m: map<string, Value>)
  {
    |gs| == |ks| &&
    m.Keys == props.Keys + (set k | k in ks) &&
    (forall k :: k in props && k !in ks ==> m[k] == props[k]) &&
    (forall j :: 0 <= j < |ks| && ks[j] !in ks[j + 1..] ==> m[ks[j]] == gs[j])
  }

  /** Gathering one more key in front: what holds after it holds for the whole. */
  lemma GathersCons(props: map<string, Value>, k0: string, v0: Value, tail: seq<string>, g: seq<Value>, m: map<string, Value>)
    requires Gathers(props[k0 := v0], tail, g, m)
    ensures Gathers(props, [k0] + tail, [v0] + g, m)
  {
    var ks, gs := [k0] + tail, [v0] + g;
    var props' := props[k0 := v0];
    assert forall k :: k in ks <==> k == k0 || k in tail by {
      assert forall k :: k in ks ==> k == k0 || k in tail;
      assert forall k :: k in tail ==> k in ks by {
        forall k | k in tail ensures k in ks {
          var i :| 0 <= i < |tail| && tail[i] == k;
          assert ks[i + 1] == k;
        }
      }
    }
    assert m.Keys == props'.Keys + (set k | k in tail);
    forall k | k in props && k !in ks
      ensures m[k] == props[k]
    {
      assert k in props' && k !in tail;
    }
    forall j | 0 <= j < |ks| && ks[j] !in ks[j + 1..]
      ensures m[ks[j]] == gs[j]
    {
      if j == 0 {
        assert ks[1..] == tail;
      } else {
        assert ks[j] == tail[j - 1] && ks[j + 1..] == tail[j..];
      }
    }
  }

  /**
   * An object expression yields a value iff every property value it reaches
   * yields one. It then yields a handle to a new plain object, the last in the
   * heap, holding each key paired with a value, bound to the value gathered at
   * the key's last occurrence; declarations are no longer suppressed.
   * Otherwise it ends with the first outcome that is not a value, in the
   * state that value left, so the suppression is not lowered.
   */
  lemma ObjectExpressionResult(st: State, keys: seq<string>, values: seq<Expr>, fuel: nat)
    ensures var p := EvalProperties(st.(suppressDeclarations := true), keys, values, map[], fuel);
            var r := EvalObject(st, keys, values, fuel);
            var n := Min(|keys|, |values|);
            (r.out.Val? <==> p.stop.None?) &&
            (p.stop.Some? ==> r.out == p.stop.value && r.st == p.st) &&
            (r.out.Val? ==>
              r.out.value.Object? && r.out.value.ref == |r.st.heap| - 1 &&
              r.st.heap[r.out.value.ref].kind == PlainObject &&
              Gathers(map[], keys[..n], p.gathered, r.st.heap[r.out.value.ref].properties) &&
              !r.st.suppressDeclarations)
  {
    var p := EvalProperties(st.(suppressDeclarations := true), keys, values, map[], fuel);
    var n := Min(|keys|, |values|);
    PropertiesContents(st.(suppressDeclarations := true), keys, values, map[], fuel);
    if p.stop.None? {
      AssignedGathers(map[], keys[..n], p.gathered);
    }
  }

  // ---------------------------------------------------------------------------
  // Statements
  // ---------------------------------------------------------------------------

  /**
   * A block runs in a new frame; `break` raises the break flag and yields no
   * value; an expression statement yields its expression's outcome.
   */
  function ExecStmt(st: State, s: Stmt, fuel: nat): (r: StmtStep)
    ensures Completes(st, r.out, r.st)
    decreases fuel, StmtSize(s), 1
  {
    match s
    case BlockStatement(b) =>
      var rb := Run(st, b, fuel);
      StmtStep(rb.out, rb.st, s)
    case VariableDeclaration(name, init) => ExecVariableDeclaration(st, name, init, fuel)
    case FunctionDeclaration(name, parameters, body) => ExecFunctionDeclaration(st, name, parameters, body)
    case ReturnStatement(e) => ExecReturn(st, e, fuel)
    case BreakStatement => StmtStep(NoVal, st.(shouldBreak := true), s)
    case IfStatement(test, consequent, alternate) => ExecIf(st, test, consequent, alternate, fuel)
    case ForStatement(initExpr, initDecl, test, update, body) => ExecFor(st, initExpr, initDecl, test, update, body, fuel)
    case ExpressionStatement(e) =>
      var re := EvalExpr(st, e, fuel);
      StmtStep(re.out, re.st, ExpressionStatement(re.node))
  }

  function ExecOptStmt(st: State, s: Option<Stmt>, fuel: nat): (r: OptStmtStep)
    ensures Completes(st, r.out, r.st)
    ensures s.None? ==> r == OptStmtStep(NoVal, st, None)
    ensures s.Some? <==> r.node.Some?
    decreases fuel, OptStmtSize(s), 2
  {
    match s
    case None => OptStmtStep(NoVal, st, None)
    case Some(x) =>
      var v := ExecStmt(st, x, fuel);
      OptStmtStep(v.out, v.st, Some(v.node))
  }

  /**
   * `VariableDeclaration::evaluate`: the initializer's value, Undefined when
   * there is none or it yields no value, is bound in the innermost frame; the
   * `unwrap` of that frame panics on an empty stack.
   */
  function ExecVariableDeclaration(st: State, name: string, init: Option<Expr>, fuel: nat): (r: StmtStep)
    ensures Completes(st, r.out, r.st)
    ensures r.out == NoVal || r.out.Aborted()
    ensures |st.scopeStack| == 0 ==> r.out.Aborted()
    ensures init.None? && r.out == NoVal ==> Scopes.Resolve(r.st.scopeStack, name) == Some(Undefined)
    ensures init.Some? && r.out == NoVal ==>
              Scopes.Resolve(r.st.scopeStack, name) == Some(EvalExpr(st, init.value, fuel).out.ValueOrUndefined())
    decreases fuel, StmtSize(VariableDeclaration(name, init)), 0
  {
    var v := EvalOptExpr(st, init, fuel);
    var node := VariableDeclaration(name, v.node);
    if v.out.Aborted() then StmtStep(v.out, v.st, node)
    else match AddVariable(v.st, name, v.out.ValueOrUndefined())
      case Panic => StmtStep(Fatal, v.st, node)
      case Ok(st') => StmtStep(NoVal, st', node)
  }

  /**
   * `FunctionDeclaration::evaluate`: a new function object holding the name,
   * the parameters and the body is stored in the global object under the name.
   */
  function ExecFunctionDeclaration(st: State, name: string, parameters: seq<string>, body: Block): (r: StmtStep)
    ensures Completes(st, r.out, r.st)
    ensures r.node == FunctionDeclaration(name, parameters, body)
    ensures WellFormed(st) ==>
              r.out == NoVal && LookupFunction(r.st, name) == Some(NewFunction(name, parameters, body)) &&
              r.st.scopeStack == st.scopeStack
  {
    var node := FunctionDeclaration(name, parameters, body);
    if st.globalObject >= |st.heap| then StmtStep(Fatal, st, node)
    else
      var a := Alloc(st.heap, NewFunction(name, parameters, body));
      StmtStep(NoVal, st.(heap := PutAt(a.heap, st.globalObject, name, Object(a.ref))), node)
  }

  /**
   * `ReturnStatement::evaluate`: takes its expression. With one, a value it
   * yields goes to the return register and the return flag is raised; without
   * one, nothing happens. Either way the result is Undefined.
   */
  function ExecReturn(st: State, e: Option<Expr>, fuel: nat): (r: StmtStep)
    ensures Completes(st, r.out, r.st)
    ensures r.out == Val(Undefined) || r.out.Aborted()
    ensures r.node == ReturnStatement(None)
    ensures e.None? ==> r.st == st
    ensures e.Some? && !r.out.Aborted() ==> r.st.shouldReturn
    ensures e.Some? && !r.out.Aborted() && EvalExpr(st, e.value, fuel).out.Val? ==>
              r.st.returnRegister == Some(EvalExpr(st, e.value, fuel).out.value)
    decreases fuel, StmtSize(ReturnStatement(e)), 0
  {
    match e
    case None => StmtStep(Val(Undefined), st, ReturnStatement(None))
    case Some(x) =>
      var v := EvalExpr(st, x, fuel);
      if v.out.Aborted() then StmtStep(v.out, v.st, ReturnStatement(None))
      else
        var st1 := if v.out.Val? then v.st.(returnRegister := Some(v.out.value)) else v.st;
        StmtStep(Val(Undefined), st1.(shouldReturn := true), ReturnStatement(None))
  }

  /**
   * `IfStatement::evaluate`: a test that is not a Boolean panics; the
   * consequent or the alternate runs, and the result is Undefined.
   */
  function ExecIf(st: State, test: Expr, consequent: Stmt, alternate: Option<Stmt>, fuel: nat): (r: StmtStep)
    ensures Completes(st, r.out, r.st)
    ensures r.out == Val(Undefined) || r.out.Aborted()
    ensures var t := EvalExpr(st, test, fuel).out;
            !t.Aborted() && !(t.Val? && t.value.Boolean?) ==> r.out == Fatal
    decreases fuel, StmtSize(IfStatement(test, consequent, alternate)), 0
  {
    var t := EvalExpr(st, test, fuel);
    if t.out.Aborted() then StmtStep(t.out, t.st, IfStatement(t.node, consequent, alternate))
    else if !(t.out.Val? && t.out.value.Boolean?) then StmtStep(Fatal, t.st, IfStatement(t.node, consequent, alternate))
    else if t.out.value.b then
      var c := ExecStmt(t.st, consequent, fuel);
      StmtStep(if c.out.Aborted() then c.out else Val(Undefined), c.st, IfStatement(t.node, c.node, alternate))
    else
      var a := ExecOptStmt(t.st, alternate, fuel);
      StmtStep(if a.out.Aborted() then a.out else Val(Undefined), a.st, IfStatement(t.node, consequent, a.node))
  }

  /**
   * `ForStatement::evaluate`: the initializers run once; a loop without a test
   * panics; otherwise the loop runs, and the result is Undefined.
   */
  function ExecFor(st: State, initExpr: Option<Expr>, initDecl: Option<Stmt>, test: Option<Expr>,
                   update: Option<Expr>, body: Stmt, fuel: nat): (r: StmtStep)
    ensures Completes(st, r.out, r.st)
    ensures r.out == Val(Undefined) || r.out.Aborted()
    ensures test.None? ==> r.out.Aborted()
    decreases fuel, StmtSize(ForStatement(initExpr, initDecl, test, update, body)), 0
  {
    var a := EvalOptExpr(st, initExpr, fuel);
    if a.out.Aborted() then StmtStep(a.out, a.st, ForStatement(a.node, initDecl, test, update, body))
    else
      var b := ExecOptStmt(a.st, initDecl, fuel);
      if b.out.Aborted() then StmtStep(b.out, b.st, ForStatement(a.node, b.node, test, update, body))
      else if test.None? then StmtStep(Fatal, b.st, ForStatement(a.node, b.node, test, update, body))
      else
        var l := ForLoop(b.st, test.value, update, body, fuel);
        StmtStep(l.out, l.st, ForStatement(a.node, b.node, Some(l.test), l.update, l.body))
  }

  /**
   * The `while` of `ForStatement::evaluate`: test, then body, then update, for
   * as long as the test yields `true`. Neither the break flag nor the return
   * flag is looked at.
   */
  function ForLoop(st: State, test: Expr, update: Option<Expr>, body: Stmt, fuel: nat): (r: LoopStep)
    ensures Completes(st, r.out, r.st)
    ensures r.out == Val(Undefined) || r.out.Aborted()
    ensures update.Some? <==> r.update.Some?
    decreases fuel, 0, 0
  {
    if fuel == 0 then LoopStep(OutOfFuel, st, test, update, body)
    else
      var t := EvalExpr(st, test, fuel - 1);
      if t.out.Aborted() then LoopStep(t.out, t.st, t.node, update, body)
      else if !(t.out.Val? && ValueEq(t.out.value, Boolean(true))) then LoopStep(Val(Undefined), t.st, t.node, update, body)
      else
        var b := ExecStmt(t.st, body, fuel - 1);
        if b.out.Aborted() then LoopStep(b.out, b.st, t.node, update, b.node)
        else
          var u := EvalOptExpr(b.st, update, fuel - 1);
          if u.out.Aborted() then LoopStep(u.out, u.st, t.node, u.node, b.node)
          else ForLoop(u.st, t.node, u.node, b.node, fuel - 1)
  }

  // ---------------------------------------------------------------------------
  // Blocks
  // ---------------------------------------------------------------------------

  /** `Interpreter::run`: `run_with` and an empty context. */
  function Run(st: State, b: Block, fuel: nat): (r: BlockStep)
    ensures Completes(st, r.out, r.st)
    ensures r == RunWith(st, b, map[], fuel)
    decreases fuel, BlockSize(b), 2
  {
    RunWith(st, b, map[], fuel)
  }

  /**
   * `Interpreter::run_with`: the context becomes a new innermost frame, the
   * statements run, and the frame is dropped again. A function body that
   * has statements never leaves a return pending unless a break is pending too.
   */
  function RunWith(st: State, b: Block, context: Scopes.Frame, fuel: nat): (r: BlockStep)
    ensures Completes(st, r.out, r.st)
    ensures r.out.Val? || r.out.NoVal? || r.out.Aborted()
    ensures b.scopeType == Function && |b.children| > 0 && !r.out.Aborted() ==>
              r.st.shouldBreak || !r.st.shouldReturn
    decreases fuel, BlockSize(b), 1
  {
    var inner := EnterScope(st, context);
    var c := RunChildren(inner, b.children, b.scopeType, None, fuel);
    if c.out.Aborted() then c
    else match LeaveScope(c.st)
      case Panic => BlockStep(Fatal, c.st)
      case Ok(st') => BlockStep(c.out, st')
  }

  /**
   * The loop of `run_with`. After each statement: a value it yields becomes
   * the last value; a pending break ends the block; a pending return ends the
   * block too, and a function body takes it: it lowers the flag and its result
   * is the emptied return register.
   */
  function RunChildren(st: State, children: seq<Stmt>, scopeType: ScopeType, last: Option<Value>, fuel: nat): (r: BlockStep)
    ensures Completes(st, r.out, r.st)
    ensures r.out.Val? || r.out.NoVal? || r.out.Aborted()
    ensures |r.st.scopeStack| == |st.scopeStack| || r.out.Aborted()
    ensures scopeType == Function && |children| > 0 && !r.out.Aborted() ==>
              r.st.shouldBreak || !r.st.shouldReturn
    decreases fuel, StmtsSize(children), 0
  {
    if |children| == 0 then BlockStep(FromOption(last), st)
    else
      var c := ExecStmt(st, children[0], fuel);
      if c.out.Aborted() then BlockStep(c.out, c.st)
      else
        var last' := if c.out.Val? then Some(c.out.value) else last;
        if c.st.shouldBreak then BlockStep(FromOption(last'), c.st)
        else if c.st.shouldReturn then
          if scopeType == Function then
            BlockStep(FromOption(c.st.returnRegister), c.st.(shouldReturn := false, returnRegister := None))
          else BlockStep(FromOption(last'), c.st)
        else RunChildren(c.st, children[1..], scopeType, last', fuel)
  }
}
