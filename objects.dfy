/*
 * The object model (src/runtime/object.rs, src/runtime/function.rs,
 * src/runtime/string.rs, the GlobalObject of src/runtime/interpreter.rs and
 * the LiteralObject built by object expressions). Shared objects live in a
 * heap addressed by handles, so that several values can refer to one object.
 */
module Objects {
  import opened Values
  import opened Ir

  /** The `Type` tag an object reports. Dafny's `==` on it is the derived equality. */
  datatype Type = ObjectTag | GlobalTag | FunctionTag | ArrayTag | StringTag

  /** What distinguishes the object variants besides their properties. */
  datatype Kind =
    | PlainObject
    | GlobalObject
    | FunctionObject(fnName: string, parameters: seq<string>, body: Block)
    | StringObject(str: string)

  datatype Obj = Obj(kind: Kind, properties: map<string, Value>)

  /** `get_type`. */
  function GetType(o: Obj): (t: Type)
    ensures t == FunctionTag <==> o.kind.FunctionObject?
    ensures t == GlobalTag <==> o.kind.GlobalObject?
    ensures t == StringTag <==> o.kind.StringObject?
    ensures t != ArrayTag
  {
    match o.kind
    case PlainObject => ObjectTag
    case GlobalObject => GlobalTag
    case FunctionObject(_, _, _) => FunctionTag
    case StringObject(_) => StringTag
  }

  /** `put`: inserts or overwrites exactly one property. */
  function Put(o: Obj, name: string, value: Value): (r: Obj)
    ensures r.kind == o.kind
    ensures r.properties.Keys == o.properties.Keys + {name}
  {
    o.(properties := o.properties[name := value])
  }

  /** `get`: a copy of the stored property, or nothing. */
  function Get(o: Obj, name: string): (r: Option<Value>)
    ensures r.Some? <==> name in o.properties
    ensures r.Some? ==> r.value == o.properties[name]
  {
    if name in o.properties then Some(o.properties[name]) else None
  }

  /** After `put(k, v)`, `get(k)` returns `v` and every other property reads as before. */
  lemma PutThenGet(o: Obj, k: string, v: Value, other: string)
    requires other != k
    ensures Get(Put(o, k, v), k) == Some(v)
    ensures Get(Put(o, k, v), other) == Get(o, other)
    ensures GetType(Put(o, k, v)) == GetType(o)
  {
  }

  /** `Function::new`: no properties yet, the given name, parameters and body. */
  function NewFunction(name: string, parameters: seq<string>, body: Block): (o: Obj)
    ensures GetType(o) == FunctionTag && o.properties == map[]
    ensures o.kind.fnName == name && o.kind.parameters == parameters && o.kind.body == body
  {
    Obj(FunctionObject(name, parameters, body), map[])
  }

  /** `JSString::new` and `::boxed`: the given text, no properties. */
  function NewJsString(text: string): (o: Obj)
    ensures GetType(o) == StringTag && o.properties == map[] && o.kind.str == text
  {
    Obj(StringObject(text), map[])
  }

  /** `GlobalObject::new`. */
  function NewGlobalObject(): (o: Obj)
    ensures GetType(o) == GlobalTag && o.properties == map[]
  {
    Obj(GlobalObject, map[])
  }

  /** `LiteralObject::boxed`: a plain object holding exactly the given properties. */
  function NewLiteralObject(properties: map<string, Value>): (o: Obj)
    ensures GetType(o) == ObjectTag && o.properties == properties
  {
    Obj(PlainObject, properties)
  }

  /** `as_function`: panics unless the object is a function. */
  function AsFunction(o: Obj): (r: Fallible<Obj>)
    ensures r.Ok? <==> GetType(o) == FunctionTag
    ensures r.Ok? ==> r.value == o && r.value.kind.FunctionObject?
  {
    if GetType(o) == FunctionTag then Ok(o) else Panic
  }

  /** `as_global`: panics unless the object is the global object. */
  function AsGlobal(o: Obj): (r: Fallible<Obj>)
    ensures r.Ok? <==> GetType(o) == GlobalTag
    ensures r.Ok? ==> r.value == o
  {
    if GetType(o) == GlobalTag then Ok(o) else Panic
  }

  /** `as_string`: panics unless the object is a string object. */
  function AsJsString(o: Obj): (r: Fallible<Obj>)
    ensures r.Ok? <==> GetType(o) == StringTag
    ensures r.Ok? ==> r.value == o && r.value.kind.StringObject?
  {
    if GetType(o) == StringTag then Ok(o) else Panic
  }

  // ---------------------------------------------------------------------------
  // The heap of shared objects
  // ---------------------------------------------------------------------------

  /** Handles are positions; objects are only ever added at the end. */
  type Heap = seq<Obj>

  datatype Allocation = Allocation(heap: Heap, ref: Ref)

  /** Places a new object in the heap under a fresh handle. */
  function Alloc(h: Heap, o: Obj): (a: Allocation)
    ensures a.ref == |h| && a.heap == h + [o]
    ensures a.ref < |a.heap| && a.heap[a.ref] == o
  {
    Allocation(h + [o], |h|)
  }

  /** `put` through a handle: every other object is untouched. */
  function PutAt(h: Heap, r: Ref, name: string, value: Value): (h': Heap)
    requires r < |h|
    ensures |h'| == |h| && h'[r] == Put(h[r], name, value)
    ensures forall q :: 0 <= q < |h| && q != r ==> h'[q] == h[q]
  {
    h[r := Put(h[r], name, value)]
  }

  /**
   * `clone_box`: the copy is a new object with the same contents, and a write
   * through the copy leaves the original as it was.
   */
  function CloneBox(h: Heap, r: Ref): (a: Allocation)
    requires r < |h|
    ensures a.ref != r && a.ref < |a.heap| && a.heap[a.ref] == h[r]
  {
    Alloc(h, h[r])
  }

  lemma CloneIsIndependent(h: Heap, r: Ref, name: string, value: Value)
    requires r < |h|
    ensures var a := CloneBox(h, r);
            PutAt(a.heap, a.ref, name, value)[r] == h[r]
  {
  }
}
