/*
 * The fields of the `Interpreter` struct of src/runtime/interpreter.rs as a
 * value, together with the flag and scope operations on them. The class
 * `Runtime.Interpreter` holds the same fields and is proved to follow these
 * definitions.
 */
module InterpreterState {
  import opened Values
  import opened Objects
  import Scopes

  /**
   * `heap` holds every shared object and `globalObject` is the handle of the
   * global object. `suppressDeclarations` is the flag that object expressions
   * raise while their property values are evaluated.
   */
  datatype State = State(
    heap: Heap,
    globalObject: Ref,
    scopeStack: seq<Scopes.Frame>,
    shouldBreak: bool,
    shouldReturn: bool,
    returnRegister: Option<Value>,
    suppressDeclarations: bool)

  /** The global object exists and is one, and there is at least the global frame. */
  ghost predicate WellFormed(st: State)
  {
    st.globalObject < |st.heap| && st.heap[st.globalObject].kind.GlobalObject? &&
    |st.scopeStack| >= 1
  }

  /** Objects are only added, and an object never changes its kind. */
  ghost predicate HeapGrows(h: Heap, h': Heap)
  {
    |h| <= |h'| && forall i :: 0 <= i < |h| ==> h'[i].kind == h[i].kind
  }

  /**
   * What every completed evaluation keeps: the scope stack is as deep as
   * before, the global object is the same, the heap only grows, and a pending
   * break is never cancelled.
   */
  ghost predicate Preserves(st: State, st': State)
  {
    |st'.scopeStack| == |st.scopeStack| &&
    st'.globalObject == st.globalObject &&
    HeapGrows(st.heap, st'.heap) &&
    (st.shouldBreak ==> st'.shouldBreak)
  }

  lemma PreservesTransitive(a: State, b: State, c: State)
    requires Preserves(a, b) && Preserves(b, c)
    ensures Preserves(a, c)
  {
  }

  /** A completed evaluation from a well-formed state leaves a well-formed state. */
  lemma PreservesWellFormed(st: State, st': State)
    requires WellFormed(st) && Preserves(st, st')
    ensures WellFormed(st')
  {
  }

  /**
   * `Interpreter::default`: one heap object, the global object, and one frame
   * that binds `globalThis` to it; no flags, an empty return register.
   */
  function Fresh(): (st: State)
    ensures WellFormed(st)
    ensures |st.scopeStack| == 1 && Scopes.Resolve(st.scopeStack, "globalThis") == Some(Object(st.globalObject))
    ensures st.heap[st.globalObject].properties == map[]
    ensures !st.shouldBreak && !st.shouldReturn && st.returnRegister.None?
  {
    State([NewGlobalObject()], 0, [map["globalThis" := Object(0)]], false, false, None, false)
  }

  /** `enter_scope`: the context becomes the new innermost frame. */
  function EnterScope(st: State, context: Scopes.Frame): (st': State)
    ensures |st'.scopeStack| == |st.scopeStack| + 1
  {
    st.(scopeStack := st.scopeStack + [context])
  }

  /** `leave_scope`: drops the innermost frame; the assertion fails on an empty stack. */
  function LeaveScope(st: State): (r: Fallible<State>)
    ensures r.Ok? <==> |st.scopeStack| > 0
    ensures r.Ok? ==> |r.value.scopeStack| == |st.scopeStack| - 1
    ensures r.Ok? ==> r.value.scopeStack + [st.scopeStack[|st.scopeStack| - 1]] == st.scopeStack
    ensures r.Ok? ==> r.value == st.(scopeStack := r.value.scopeStack)
  {
    if |st.scopeStack| == 0 then Panic
    else Ok(st.(scopeStack := st.scopeStack[..|st.scopeStack| - 1]))
  }

  /** Leaving the scope just entered restores the state exactly. */
  lemma EnterThenLeave(st: State, context: Scopes.Frame)
    ensures LeaveScope(EnterScope(st, context)) == Ok(st)
  {
    assert (st.scopeStack + [context])[..|st.scopeStack|] == st.scopeStack;
  }

  /**
   * Inside the entered scope a name bound by the context resolves to the
   * context's value; any other name resolves as in the enclosing stack, the
   * caller's frames included.
   */
  lemma EnterScopeResolve(st: State, context: Scopes.Frame, name: string)
    ensures Scopes.Resolve(EnterScope(st, context).scopeStack, name) ==
            if name in context then Some(context[name]) else Scopes.Resolve(st.scopeStack, name)
  {
    var s := st.scopeStack + [context];
    if name !in context {
      assert s[..|s| - 1] == st.scopeStack;
    }
  }

  /** `add_variable` on the state; the `unwrap` panics on an empty stack. */
  function AddVariable(st: State, key: string, v: Value): (r: Fallible<State>)
    ensures r.Ok? <==> |st.scopeStack| > 0
    ensures r.Ok? ==> Preserves(st, r.value) && Scopes.Resolve(r.value.scopeStack, key) == Some(v)
  {
    match Scopes.AddVariable(st.scopeStack, key, v)
    case Some(s) =>
      Scopes.AddVariableEffect(st.scopeStack, key, v, key);
      Ok(st.(scopeStack := s))
    case None => Panic
  }
}
