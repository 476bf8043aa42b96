/*
 * The scope stack of src/runtime/interpreter.rs: an ordered stack of
 * name-to-value frames, searched from the innermost (last) frame outwards.
 */
module Scopes {
  import opened Values

  type Frame = map<string, Value>

  /** The position of the innermost frame that binds `name`, if any. */
  function InnermostIndex(stack: seq<Frame>, name: string): (r: Option<nat>)
    ensures r.Some? ==> r.value < |stack| && name in stack[r.value]
    ensures r.Some? ==> forall j :: r.value < j < |stack| ==> name !in stack[j]
    ensures r.None? ==> forall j :: 0 <= j < |stack| ==> name !in stack[j]
    decreases |stack|
  {
    if |stack| == 0 then None
    else if name in stack[|stack| - 1] then Some(|stack| - 1)
    else InnermostIndex(stack[..|stack| - 1], name)
  }

  /** `resolve_variable` read as a value: the innermost binding of `name`. */
  function Resolve(stack: seq<Frame>, name: string): (r: Option<Value>)
    ensures r.Some? <==> exists j :: 0 <= j < |stack| && name in stack[j]
  {
    match InnermostIndex(stack, name)
    case Some(i) => Some(stack[i][name])
    case None => None
  }

  /**
   * Lookup is innermost-first: `Resolve` yields `v` exactly when some frame
   * binds `name` to `v` and no frame above it binds `name` at all.
   */
  lemma ResolveIsInnermost(stack: seq<Frame>, name: string, v: Value)
    ensures Resolve(stack, name) == Some(v) <==>
            exists i :: 0 <= i < |stack| && name in stack[i] && stack[i][name] == v &&
                        forall j :: i < j < |stack| ==> name !in stack[j]
  {
    var r := InnermostIndex(stack, name);
    if Resolve(stack, name) == Some(v) {
      assert r.Some?;
      var i := r.value;
      assert 0 <= i < |stack| && name in stack[i] && stack[i][name] == v;
    }
    if exists i :: 0 <= i < |stack| && name in stack[i] && stack[i][name] == v &&
                   forall j :: i < j < |stack| ==> name !in stack[j] {
      var i :| 0 <= i < |stack| && name in stack[i] && stack[i][name] == v &&
               forall j :: i < j < |stack| ==> name !in stack[j];
      assert r.Some?;
      assert !(r.value < i) && !(r.value > i);
    }
  }

  /** The frames' key sets only, which decide where a name resolves. */
  ghost predicate SameShape(s: seq<Frame>, t: seq<Frame>)
  {
    |s| == |t| && forall j :: 0 <= j < |s| ==> s[j].Keys == t[j].Keys
  }

  lemma {:induction false} InnermostIndexShape(s: seq<Frame>, t: seq<Frame>, name: string)
    requires SameShape(s, t)
    ensures InnermostIndex(s, name) == InnermostIndex(t, name)
    decreases |s|
  {
    if |s| > 0 {
      assert name in s[|s| - 1] <==> name in t[|t| - 1];
      InnermostIndexShape(s[..|s| - 1], t[..|t| - 1], name);
    }
  }

  /**
   * A write through `resolve_variable`: the innermost binding of `name` takes
   * `v`. Fails when no frame binds `name`.
   */
  function SetInnermost(stack: seq<Frame>, name: string, v: Value): (r: Option<seq<Frame>>)
    ensures r.Some? <==> Resolve(stack, name).Some?
    ensures r.Some? ==> |r.value| == |stack|
  {
    match InnermostIndex(stack, name)
    case Some(i) => Some(stack[i := stack[i][name := v]])
    case None => None
  }

  /**
   * After the write, `name` resolves to `v`, every other name resolves as
   * before, and only the frame holding the innermost binding changed.
   */
  lemma SetInnermostEffect(stack: seq<Frame>, name: string, v: Value, other: string)
    requires Resolve(stack, name).Some?
    ensures var s' := SetInnermost(stack, name, v).value;
            Resolve(s', name) == Some(v) &&
            (other != name ==> Resolve(s', other) == Resolve(stack, other)) &&
            var i := InnermostIndex(stack, name).value;
            s'[i] == stack[i][name := v] &&
            forall j :: 0 <= j < |stack| && j != i ==> s'[j] == stack[j]
  {
    var i := InnermostIndex(stack, name).value;
    var s' := stack[i := stack[i][name := v]];
    assert SameShape(stack, s');
    InnermostIndexShape(stack, s', name);
    InnermostIndexShape(stack, s', other);
  }

  /** `add_variable`: binds in the top frame only; panics on an empty stack. */
  function AddVariable(stack: seq<Frame>, key: string, v: Value): (r: Option<seq<Frame>>)
    ensures r.Some? <==> |stack| > 0
    ensures r.Some? ==> |r.value| == |stack| && r.value[..|stack| - 1] == stack[..|stack| - 1]
    ensures r.Some? ==> r.value[|stack| - 1] == stack[|stack| - 1][key := v]
  {
    if |stack| == 0 then None
    else Some(stack[..|stack| - 1] + [stack[|stack| - 1][key := v]])
  }

  /**
   * A declaration shadows: afterwards `key` resolves to `v`, and every other
   * name resolves as before.
   */
  lemma AddVariableEffect(stack: seq<Frame>, key: string, v: Value, other: string)
    requires |stack| > 0
    ensures Resolve(AddVariable(stack, key, v).value, key) == Some(v)
    ensures other != key ==> Resolve(AddVariable(stack, key, v).value, other) == Resolve(stack, other)
  {
    var s' := AddVariable(stack, key, v).value;
    assert s'[..|s'| - 1] == stack[..|stack| - 1];
  }
}
