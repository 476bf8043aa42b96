# jsrs evaluator, modelled in Dafny

This project models the tree-walking evaluator of jsrs, an interpreter for a
JavaScript-like language written in Rust. The model covers the newest
snapshot of the code, under `src/ir` and `src/runtime`. The evaluator takes
an already-lowered IR tree of expression and statement nodes. It evaluates
that tree against an `Interpreter`, which holds:

- a stack of name-to-value scope frames;
- a shared global object;
- a break flag and a return flag;
- a one-slot return register.

Modules, leaves first:

- `Values` (values.dfy): the `Value` enum (with one variant, `String`, that
  the source's enum lacks; see "## Left out"), its `PartialEq` and `Display`, the
  `Exception` taxonomy and the `success!`/`exception!` macros. It also holds
  the single outcome type `Outcome = Val | NoVal | Exc | Fatal | OutOfFuel`.
  The source's `Option<Value>`, `Value` and `Result<Value, Exception>`
  results all map onto it. `Fatal` stands for a `panic!`, `unimplemented!`,
  `expect` or `assert!`.
- `Ops` (ops.dfy): the binary and unary operator enums, their `Display`, and
  the conversions from the parser library's (resast) operators.
- `Util` (util.dfy): `make_indent`.
- `Ir` (ir.dfy): the IR nodes as closed datatypes, the constructors that
  carry an invariant, `ScopeType`, and the `Scope` builder as a class whose
  `children` grow in place.
- `Objects` (objects.dfy): objects as a type tag plus a property map, the
  `put`/`get`/`get_type`/`as_*` contract, and a heap of shared objects
  addressed by handles. Handles replace `Rc<RefCell<Box<dyn Object>>>`.
- `Scopes` (scopes.dfy): innermost-first lookup, write-through, and
  `add_variable` on the scope stack.
- `InterpreterState` (state.dfy): the interpreter's fields as a value,
  `Interpreter::default`, `enter_scope` and `leave_scope`.
- `Apply` (apply.dfy): `BinaryExpression::apply_op`.
- `Semantics` (semantics.dfy): each node's `evaluate` and `run_with`, as
  functions from a state to an outcome, a new state and the residual node.
  The residual node is the node as evaluation left it: a return statement
  takes its expression and a call drains its arguments.
- `Runtime` (interpreter.dfy): the `Interpreter` as a class with fields.
  The nodes' `evaluate` methods are its methods, written with the loops of
  the source. Each method is proved to produce exactly the outcome, state
  and residual node of its `Semantics` function.
- `NodeProperties` (node_properties.dfy) and `Properties` (properties.dfy):
  per-node and whole-program properties. Examples: the `add` program of
  tests/add.rs (built there with the superseded `ast` API, rebuilt here from
  IR nodes), a counting `for` loop, how `break` and `return` travel
  through blocks, and shadowing.

Each call and each loop round spends one unit of `fuel`, which makes every
evaluation total. Running out of fuel gives `OutOfFuel`.

## Model

| member | source | states |
|---|---|---|
| Values.SuccessUndefined | src/runtime/exception.rs:27-29 | `success!()` is a successful outcome whose value is Undefined |
| Values.Success | src/runtime/exception.rs:24-26 | `success!(v)` is a successful outcome carrying `v` |
| Values.Raise | src/runtime/exception.rs:34-37 | `exception!(e)` is an error outcome carrying exactly `e`, with no value and no abort |
| Values.ExceptionMessage | src/runtime/exception.rs:13-20 | an Exception or TypeError displays as its message; a ReferenceError displays as the prefix `Cannot find variable "`, then the name, then a closing quote |
| Values.ReferenceMessageInjective | src/runtime/exception.rs:18-19 | two ReferenceErrors with the same message name the same variable |
| Values.Display | src/runtime/value.rs:13-24 | Undefined displays as "Undefined" and a Boolean as "true"/"false"; a Number gets a numeric rendering and nothing else does; displaying an Object is fatal, and nothing else is |
| Values.ValueEqAsWritten | src/runtime/value.rs:26-40 | the `PartialEq` as written: two values are equal iff they are the same Number or both Undefined; Objects, Booleans and Strings are never equal |
| Values.BooleansNeverEqualAsWritten | src/runtime/value.rs:38 | as written, `Boolean(b) == Boolean(b)` is false, and no value equals `Boolean(true)` |
| Values.ValueEq | src/runtime/value.rs:26-40 | corrected equality: structural on Numbers, Booleans, Strings and Undefined; Objects are never equal, not even to themselves |
| Values.ValueEqAgreesOutsideBooleansAndStrings | src/runtime/value.rs:28-38 | the corrected equality differs from the written one only on Booleans and Strings |
| Ops.SymbolAsWrittenBreaksNegation | src/ir/ops/binary.rs:25-40 | as written, StrictNotEqual displays as "!===", which is not "!" followed by the tail of "===" |
| Ops.Symbol | src/ir/ops/binary.rs:31 | corrected display: StrictNotEqual shows "!==", and every other operator shows its written symbol |
| Ops.SymbolConsistentAndInjective | src/ir/ops/binary.rs:25-40 | in the corrected table every negation is "!" plus the tail of the positive symbol, and no two operators share a symbol |
| Ops.FromResastBinary | src/ir/ops/binary.rs:44-63 | the conversion succeeds exactly on the 14 supported resast operators; every other one is fatal |
| Ops.FromResastBinaryRoundTrip | src/ir/ops/binary.rs:46-60 | each IR operator comes from its namesake, and a converted operator maps back to the resast operator it came from, so the conversion is injective |
| Ops.UnarySymbol | src/ir/ops/unary.rs:12-19 | Increment displays as "++" and Decrement as "--" |
| Ops.FromResastUnary | src/ir/ops/unary.rs:21-27 | only resast unary Plus converts, to Increment; every other operator is fatal; nothing yields Decrement |
| Util.IndentShape | src/util.rs:7-13 | `make_indent(n)` has length n and every character is a space |
| Util.IndentGrows | src/util.rs:8-12 | `make_indent(0)` is empty, and `make_indent(n+1)` is `make_indent(n)` followed by one space |
| Util.IndentInjective | src/util.rs:7-13 | two indents are equal only when their widths are |
| Util.MakeIndent | src/util.rs:7-13 | the push loop builds exactly n spaces |
| Ir.ScopeTypeNameInjective | src/ir/statement/block_statement.rs:16-25 | the three scope types display as three different names |
| Ir.NewVariableDeclaration | src/ir/statement/variable_declaration.rs:11-24 | `new` and `boxed` always store `Some(initializer)` |
| Ir.NewReturn | src/ir/statement/return_statement.rs:16-20 | `boxed` stores the given expression |
| Ir.NewEmptyReturn | src/ir/statement/return_statement.rs:22-24 | `boxed_empty` stores no expression |
| Ir.NewForStatement | src/ir/statement/for_statement.rs:16-34 | construction succeeds iff exactly one of the two initializers is present |
| Ir.Scope.constructor | src/ir/statement/block_statement.rs:36-41 | a new scope has no children and the given scope type |
| Ir.Scope.Append | src/ir/statement/block_statement.rs:43-45 | one statement is added at the end, and the earlier ones are unchanged |
| Ir.Scope.AppendAll | src/ir/statement/block_statement.rs:47-51 | the statements are appended in order, so the length grows by their number |
| Ir.Scope.Clone | src/ir/statement/block_statement.rs:68-70 | the block that evaluation receives has the scope's children and the scope type given at construction |
| Objects.GetType | src/runtime/object.rs:5-14 | the tag is Function, Global or String exactly for those variants; no object reports Array |
| Objects.Put | src/runtime/function.rs:31-33 | `put` inserts or overwrites exactly one property and keeps the variant |
| Objects.Get | src/runtime/function.rs:35-37 | `get` finds a value exactly when the property is present, and that value is the stored property |
| Objects.PutThenGet | src/runtime/object.rs:103-123 | after `put(k, v)`, `get(k)` is `v`; other properties and the tag are unchanged |
| Objects.NewFunction | src/runtime/function.rs:20-27 | a new function has no properties, the Function tag, and the given name, parameters and body |
| Objects.NewJsString | src/runtime/string.rs:12-19 | a new string object has the String tag, the given text and no properties |
| Objects.NewGlobalObject | src/runtime/interpreter.rs:31-37 | a new global object has the Global tag and no properties |
| Objects.NewLiteralObject | src/ir/expression/object_expression.rs:43 | an object literal is a plain object holding exactly the given properties |
| Objects.AsFunction | src/runtime/object.rs:33-36 | the downcast succeeds iff the tag is Function, and is fatal otherwise |
| Objects.AsGlobal | src/runtime/object.rs:38-41 | the downcast succeeds iff the tag is Global, and is fatal otherwise |
| Objects.AsJsString | src/runtime/object.rs:43-46 | the downcast succeeds iff the tag is String, and is fatal otherwise |
| Objects.PutAt | src/runtime/interpreter.rs:40-42 | a `put` through a shared handle changes that object only |
| Objects.CloneBox | src/runtime/object.rs:57-68 | `clone_box` gives a new handle to an object with the same contents |
| Objects.CloneIsIndependent | src/runtime/object.rs:57-68 | writing through the clone leaves the original unchanged |
| Scopes.InnermostIndex | src/runtime/interpreter.rs:122-127 | the found frame binds the name, and no frame above it does; none is found iff no frame binds it |
| Scopes.Resolve | src/runtime/interpreter.rs:122-127 | lookup finds a value iff some frame binds the name |
| Scopes.ResolveIsInnermost | src/runtime/interpreter.rs:122-127 | lookup yields `v` iff some frame binds the name to `v` and no frame above it binds the name |
| Scopes.SetInnermost | src/ir/expression/assignment_expression.rs:35-41 | a write through the resolved binding succeeds iff the name is bound, and keeps the stack depth |
| Scopes.SetInnermostEffect | src/ir/expression/assignment_expression.rs:35-41 | after the write the name resolves to the new value, other names resolve as before, and only the innermost binding's frame changed |
| Scopes.AddVariable | src/runtime/interpreter.rs:129-131 | the binding goes into the top frame only; lower frames are unchanged; an empty stack is fatal |
| Scopes.AddVariableEffect | src/runtime/interpreter.rs:129-131 | after adding, the key resolves to the new value and every other name resolves as before |
| InterpreterState.Fresh | src/runtime/interpreter.rs:61-76 | a fresh interpreter has one frame binding "globalThis" to the empty global object, both flags false and an empty register |
| InterpreterState.EnterScope | src/runtime/interpreter.rs:165-167 | entering a scope pushes exactly one frame |
| InterpreterState.LeaveScope | src/runtime/interpreter.rs:169-172 | leaving removes exactly the innermost frame, keeps the frames below it, the heap, the flags and the register, and the assertion fails on an empty stack |
| InterpreterState.EnterThenLeave | src/runtime/interpreter.rs:165-172 | leaving the scope just entered restores the state exactly |
| InterpreterState.EnterScopeResolve | src/runtime/interpreter.rs:165-167 | inside a pushed context, its names resolve to its values and other names resolve as in the caller's frames |
| InterpreterState.AddVariable | src/runtime/interpreter.rs:129-131 | `add_variable` on the interpreter binds the key, keeps the stack depth, and is fatal only on an empty stack |
| Apply.ApplyOp | src/ir/expression/binary_expression.rs:45-88 | the operator succeeds exactly for: Numbers under arithmetic and comparisons, Strings under `===`, and Undefineds under `==`/`===`; comparisons give Booleans and arithmetic gives Numbers; everything else is fatal |
| Apply.NegationOnNumbers | src/ir/expression/binary_expression.rs:54-57 | on Numbers, `!=` and `!==` are the negations of `==` and `===` |
| Apply.UndefinedNegationPanics | src/ir/expression/binary_expression.rs:75-79 | two Undefineds are `==`, but `!=` and `!==` on them are fatal |
| Apply.LooseIsStrict | src/ir/expression/binary_expression.rs:54-57 | wherever `==` is defined, `===` gives the same answer, and that answer is structural equality |
| Apply.OrderingDuality | src/ir/expression/binary_expression.rs:58-61 | `<` mirrors `>`, and `<=`/`>=` are the negations of `>`/`<` |
| Apply.ArithmeticInverses | src/ir/expression/binary_expression.rs:52-63 | over the model's real-number Numbers (not the source's f64), `-` undoes `+` and `*` undoes a division by a non-zero number |
| Apply.Symmetric | src/ir/expression/binary_expression.rs:51-63 | `+`, `*` and the four equalities do not depend on operand order |
| Semantics.LookupFunction | src/ir/expression/call_expression.rs:30-34 | the lookup succeeds iff the global object holds, under the name, an Object handle into the heap whose object is a Function; the result is then exactly that object |
| Semantics.EvalExpr | src/ir/mod.rs:10 | no expression raises an exception; one that completes keeps the stack depth and the global object, only grows the heap, and never clears a pending break |
| Semantics.EvalAssignment | src/ir/expression/assignment_expression.rs:33-43 | the right-hand side runs first; a completed assignment yields the right-hand side's outcome, a value to which the target now resolves; assigning a literal to an unbound name is fatal |
| Semantics.EvalUpdate | src/ir/statement/update_expression.rs:34-52 | succeeds iff the operator is `++` and the name is bound to a Number; the innermost binding grows by 1 and nothing else in the state changes, an outer binding it shadows included; prefix returns the new value and postfix the old; otherwise fatal with the state unchanged |
| Semantics.EvalBinary | src/ir/expression/binary_expression.rs:33-41 | the result is a value or an abort; comparisons give Booleans and arithmetic gives Numbers; the operand order and the `apply_op` result are stated by `NodeProperties.BinaryOperandsInOrder` |
| Semantics.EvalCall | src/ir/expression/call_expression.rs:29-53 | a missing or non-function callee is fatal, and so are more actuals than formals; a completed call leaves its argument list drained |
| Semantics.BindArguments | src/ir/expression/call_expression.rs:36-45 | binding either completes with no value or aborts, and a completed binding keeps the invariants of every evaluation |
| Semantics.EvalActuals | src/ir/expression/call_expression.rs:42-44 | the actuals are evaluated in order, each in the state the previous one left, with no value read as Undefined; a completed evaluation yields one value per actual |
| Semantics.BindingValues | src/ir/expression/call_expression.rs:36-45 | binding evaluates exactly the actuals in order; a completed binding gives each formal not repeated later the value of its actual, or Undefined once the actuals have run out |
| Semantics.BindingEffect | src/ir/expression/call_expression.rs:36-45 | a completed binding binds every formal and keeps the other names; without actuals it binds every formal to Undefined and changes nothing |
| Semantics.EvalObject | src/ir/expression/object_expression.rs:29-44 | the result is a value, no value, or an abort; the residual node keeps its keys and its number of values |
| Semantics.EvalProperties | src/ir/expression/object_expression.rs:38-41 | a finished loop gathers one value per zipped pair; a stop happens only on an outcome that is not a value, and never on an exception; it comes after the values gathered so far, and every later value is left unevaluated |
| Semantics.PropertiesContents | src/ir/expression/object_expression.rs:38-41 | a finished loop gathers one value per zipped pair (the zip truncates to the shorter list) and its properties are the earlier ones with each key set, in order, to its gathered value |
| Semantics.AssignedGathers | src/ir/expression/object_expression.rs:38-41 | setting keys in order yields exactly the earlier properties plus the keys; each key holds the value at its last occurrence, so a later duplicate wins, and properties no key names are kept |
| Semantics.ObjectExpressionResult | src/ir/expression/object_expression.rs:37-43 | the result is a value iff the property loop finishes; then it is a fresh handle, the last in the heap, to a plain object holding each key with the value gathered at its last occurrence, and suppression is switched off; otherwise the first non-value ends it, in the state that value left |
| Semantics.ExecStmt | src/ir/mod.rs:10 | no statement raises an exception; one that completes keeps the stack depth and the global object, only grows the heap, and never clears a pending break |
| Semantics.ExecVariableDeclaration | src/ir/statement/variable_declaration.rs:37-45 | yields no value; binds Undefined when there is no initializer, and otherwise the initializer's value (Undefined if it yields none); an empty stack is fatal |
| Semantics.ExecFunctionDeclaration | src/ir/statement/function_declaration.rs:35-45 | yields no value; afterwards the global object holds a Function with the declared name, parameters and body under that name; the scope stack is unchanged |
| Semantics.ExecReturn | src/ir/statement/return_statement.rs:35-43 | the result is Undefined; the node is left empty; an empty return changes nothing; otherwise the flag is set, and the register holds the value when there is one |
| Semantics.ExecIf | src/ir/statement/if_statement.rs:49-62 | the result is Undefined unless something aborts; a test that is not a Boolean is fatal |
| Semantics.ExecFor | src/ir/statement/for_statement.rs:57-79 | the result is Undefined unless something aborts; a loop without a test aborts |
| Semantics.ForLoop | src/ir/statement/for_statement.rs:67-73 | the loop, with its test compared by the corrected equality, ends with Undefined or an abort, keeping the invariants of every evaluation and its update expression |
| Semantics.Run | src/runtime/interpreter.rs:118-120 | `run` is `run_with` with an empty context |
| Semantics.RunWith | src/runtime/interpreter.rs:80-117 | the block yields a value, no value or an abort; a non-empty function body never leaves a return pending unless a break is pending too |
| Semantics.RunChildren | src/runtime/interpreter.rs:85-112 | the child loop keeps the stack depth and yields a value, no value or an abort; a function body with children never leaves a return pending unless a break is pending too |
| Runtime.Interpreter.constructor | src/runtime/interpreter.rs:61-76 | the fields equal the fresh state |
| Runtime.Interpreter.EnterScope | src/runtime/interpreter.rs:165-167 | pushes the context frame and changes nothing else |
| Runtime.Interpreter.LeaveScope | src/runtime/interpreter.rs:169-172 | pops one frame; it fails, changing nothing, on an empty stack |
| Runtime.Interpreter.AddVariable | src/runtime/interpreter.rs:129-131 | inserts into the top frame only |
| Runtime.Interpreter.GetGoProperty | src/runtime/interpreter.rs:133-135 | reads a property of the global object |
| Runtime.Interpreter.NotifyBreak | src/runtime/interpreter.rs:137-139 | sets the break flag and nothing else |
| Runtime.Interpreter.ClearBreak | src/runtime/interpreter.rs:141-143 | clears the break flag and nothing else |
| Runtime.Interpreter.NotifyReturn | src/runtime/interpreter.rs:149-151 | sets the return flag and nothing else |
| Runtime.Interpreter.ClearReturn | src/runtime/interpreter.rs:153-155 | clears the return flag and nothing else |
| Runtime.Interpreter.SetReturnVal | src/runtime/interpreter.rs:161-163 | fills the register and changes nothing else |
| Runtime.Interpreter.SuppressDeclarations | src/ir/expression/object_expression.rs:37 | raises the suppression flag and nothing else |
| Runtime.Interpreter.ClearSuppressDeclarations | src/ir/expression/object_expression.rs:42 | lowers the suppression flag and nothing else |
| Runtime.Interpreter.RunWith | src/runtime/interpreter.rs:80-117 | the loop over the children, with its break and return checks, ends in exactly the outcome and state of `Semantics.RunWith` |
| Runtime.Interpreter.Run | src/runtime/interpreter.rs:118-120 | ends in exactly the outcome and state of `Semantics.Run` |
| Runtime.Interpreter.Evaluate | src/ir/mod.rs:10 | each expression node's evaluation matches `Semantics.EvalExpr` in outcome, state and residual node |
| Runtime.Interpreter.EvalAssignment | src/ir/expression/assignment_expression.rs:33-43 | matches `Semantics.EvalAssignment` |
| Runtime.Interpreter.EvalUpdate | src/ir/statement/update_expression.rs:34-52 | the in-place increment matches `Semantics.EvalUpdate` |
| Runtime.Interpreter.EvalBinary | src/ir/expression/binary_expression.rs:33-41 | matches `Semantics.EvalBinary` |
| Runtime.Interpreter.EvalCall | src/ir/expression/call_expression.rs:29-53 | the lookup, padding, binding and body run match `Semantics.EvalCall` |
| Runtime.Interpreter.BindArguments | src/ir/expression/call_expression.rs:36-45 | the padding loop and the binding loop together match `Semantics.BindArguments` |
| Runtime.Interpreter.BindingRound | src/ir/expression/call_expression.rs:43-44 | one actual is evaluated, and the binding either stops or continues with the next formal |
| Runtime.Interpreter.EvalObject | src/ir/expression/object_expression.rs:29-44 | the suppression bracketing and the allocation match `Semantics.EvalObject` |
| Runtime.Interpreter.EvalProperties | src/ir/expression/object_expression.rs:38-41 | the property loop, with its early exit, matches `Semantics.EvalProperties` |
| Runtime.Interpreter.PropertyRound | src/ir/expression/object_expression.rs:39-40 | one value is evaluated, and the loop either stops with it or inserts it and continues |
| Runtime.Interpreter.Execute | src/ir/mod.rs:10 | each statement node's evaluation matches `Semantics.ExecStmt` in outcome, state and residual node |
| Runtime.Interpreter.ExecVariableDeclaration | src/ir/statement/variable_declaration.rs:37-45 | matches `Semantics.ExecVariableDeclaration` |
| Runtime.Interpreter.ExecFunctionDeclaration | src/ir/statement/function_declaration.rs:35-45 | matches `Semantics.ExecFunctionDeclaration` |
| Runtime.Interpreter.ExecReturn | src/ir/statement/return_statement.rs:35-43 | matches `Semantics.ExecReturn` |
| Runtime.Interpreter.ExecIf | src/ir/statement/if_statement.rs:49-62 | matches `Semantics.ExecIf` |
| Runtime.Interpreter.ExecFor | src/ir/statement/for_statement.rs:57-79 | matches `Semantics.ExecFor` |
| Runtime.Interpreter.Loop | src/ir/statement/for_statement.rs:67-73 | the `while` loop, one unit of fuel per round, matches `Semantics.ForLoop` |
| Runtime.Interpreter.LoopRound | src/ir/statement/for_statement.rs:68-72 | one round runs the test, then the body, then the update, and either ends the loop or continues it with one unit of fuel less |
| NodeProperties.ConstantsArePure | src/ir/expression/literal.rs:28-30 | a literal yields its stored value and the empty expression yields Undefined, in any state and any number of times, and neither changes the state |
| NodeProperties.VariableReadsInnermost | src/ir/expression/variable.rs:31-33 | a variable yields the innermost binding of its name, or no value iff the name is bound in no frame; it changes nothing and never consults the global object |
| NodeProperties.MemberReadsObjectName | src/ir/expression/member_expression.rs:23-25 | a member expression yields what its object name resolves to, whatever the property name; it changes nothing |
| NodeProperties.BinaryOperandsInOrder | src/ir/expression/binary_expression.rs:33-41 | the left operand runs first, the right one in the state it left; an abort in either ends the expression; otherwise the result is `apply_op` of the two values, no value read as Undefined, a panic being fatal |
| NodeProperties.CallBindsAndRuns | src/ir/expression/call_expression.rs:29-53 | the actuals run in order in the caller's state; an abort ends the call; otherwise each formal not repeated later holds its actual's value or Undefined, and the body runs through `run_with` with those bindings as its frame, its outcome and state being the call's |
| NodeProperties.AssignmentEffect | src/ir/expression/assignment_expression.rs:35-42 | a completed assignment overwrites only the innermost binding of the target, and every other name keeps its value |
| NodeProperties.AssignmentDoesNotCreate | src/ir/expression/assignment_expression.rs:35-37 | assigning to a name bound nowhere is fatal and creates nothing |
| NodeProperties.DeclarationWritesTopFrame | src/ir/statement/variable_declaration.rs:37-45 | a declaration changes only the top frame, where the name gets the initializer's value (or Undefined); outer frames, and any outer binding it shadows, are unchanged |
| NodeProperties.DeclarationWithoutInitializer | src/ir/statement/variable_declaration.rs:38-39 | a declaration without an initializer binds Undefined in the top frame and yields no value |
| NodeProperties.FunctionDeclarationEffect | src/ir/statement/function_declaration.rs:35-45 | a declaration appends exactly `NewFunction(name, parameters, body)` to the heap and changes, among the existing objects, only the global object's property of its name; every other object, the stack and the flags are unchanged; a later declaration of that name wins |
| NodeProperties.BreakIdempotent | src/ir/statement/break_statement.rs:22-25 | break sets the break flag and nothing else, yields no value, and evaluating it twice is the same as once |
| NodeProperties.ReturnTakesExpression | src/ir/statement/return_statement.rs:35-43 | after a return completes its node is empty, so evaluating it again changes nothing; an expression with no value sets the flag but leaves the register alone |
| NodeProperties.IfRunsOneBranch | src/ir/statement/if_statement.rs:49-62 | after the test, true runs only the consequent and false runs only the alternate, or nothing when there is none |
| NodeProperties.ExpressionStatementPassesThrough | src/ir/statement/expression_statement.rs:32-34 | an expression statement's outcome and state are exactly its expression's |
| NodeProperties.BlockStatementRunsWithEmptyContext | src/ir/statement/block_statement.rs:68-70 | a nested block runs through `run` with a fresh empty frame |
| NodeProperties.RunChildrenStep | src/runtime/interpreter.rs:85-112 | after each child: a value becomes the last value; a break stops the block and keeps the flag; a return stops the block, and only a Function block clears the flag and takes the register; otherwise the loop continues |
| NodeProperties.RunChildrenDone | src/runtime/interpreter.rs:83-116 | once no child is left, the block yields the last value a child produced, or no value if none did |
| NodeProperties.QuietBlockYieldsLastValue | src/runtime/interpreter.rs:83-116 | when no child aborts or raises a flag, the loop runs every child in turn and yields the last value among their outcomes (or the starting one), in the state the last child left |
| NodeProperties.RunWithRestoresStack | src/runtime/interpreter.rs:80-117 | `run_with` pushes the context and pops it again, so a completed block leaves the stack as deep as before |
| Properties.CallAdd | tests/add.rs:10-14 | calling `add` (whose body is `return 1.5 + 3.5`; the test's `ast` function rebuilt from IR nodes, since that API is not modelled) yields 5, leaves both flags clear and keeps the stack depth |
| Properties.AddProgramYieldsFive | tests/add.rs:16-30 | the test program, written there with the superseded `ast` API and rebuilt here as `AddProgram` from IR nodes, yields 5 on a fresh interpreter |
| Properties.EmptyBlockChangesNothing | src/runtime/interpreter.rs:80-117 | an empty block yields no value and leaves the state unchanged |
| Properties.CountTestValue | src/ir/expression/binary_expression.rs:58 | with `i` at k, `i < limit` yields `k < limit` and changes nothing |
| Properties.CountUpdateValue | src/ir/statement/update_expression.rs:39-51 | with `i` at k, `i++` yields k and leaves `i` at k+1 |
| Properties.CountingRound | src/ir/statement/for_statement.rs:68-72 | in the corrected loop, a round below the limit runs the body and the update, then continues with `i` one higher |
| Properties.CountingEnd | src/ir/statement/for_statement.rs:68 | in the corrected loop, a false test ends the loop with Undefined and changes nothing |
| Properties.CountingLoop | src/ir/statement/for_statement.rs:67-73 | in the corrected loop, with enough fuel, `for (; i < limit; i++) {}` ends normally with `i` at limit |
| Properties.BreakDoesNotEndLoop | src/ir/statement/for_statement.rs:67-73 | the loop never reads the break flag, so in the corrected loop `for (; true;) break;` only stops when fuel runs out |
| Properties.BreakEndsBlock | src/runtime/interpreter.rs:96-98 | a break ends any block with the last value so far and leaves the flag set |
| Properties.ReturnEndsFunctionBody | src/runtime/interpreter.rs:105-110 | `return v` ends a Function body with result v, clears the flag and empties the register |
| Properties.ReturnCrossesControlBlock | src/runtime/interpreter.rs:105-111 | `return v` in a non-function block stops it with the flag and register left for the enclosing function |
| Properties.EmptyReturnFallsThrough | src/ir/statement/return_statement.rs:36-42 | an empty return raises no flag, so the function body continues past it |
| Properties.BlockScopesDeclarations | src/ir/statement/block_statement.rs:68-70 | a declaration inside a nested block is gone once the block ends |
| Properties.CalleeSeesCallerBindings | src/ir/expression/call_expression.rs:46 | the body's frame goes on top of the caller's frames, so the callee sees the caller's bindings |
| Properties.BindWithoutActuals | src/ir/expression/call_expression.rs:36-39 | binding with no actuals always completes |
| Properties.DrainedCallBindsUndefined | src/ir/expression/call_expression.rs:35-46 | a completed call is left with no arguments, so evaluating that residual call again, in any state where the callee is a Function, runs its body with every formal bound to Undefined (and is out of fuel at fuel 0) |
| Properties.UnboundNamesCompareEqual | src/ir/expression/binary_expression.rs:35-36 | two unbound names both read as Undefined, so they compare `==` |
| Properties.UnboundPropertyLeavesSuppression | src/ir/expression/object_expression.rs:37-42 | an object literal whose value yields nothing stops with no value and leaves suppression on |

## Left out

- Parsing and lowering: `src/parser`, `src/parse` and the `From<resast::…>` conversions of nodes are not part of this model. The resast operator enums are listed here only as far as the operator conversions need them.
- The superseded snapshots (`src/ast`, and the top-level `src/*.rs` besides `src/util.rs`) are not modelled.
- `dump` methods, `format_properties`, `as_any`, `into_object`, and the derive macros behind `LiteralObject` and `console` are not modelled.
- I/O: `get_input` and the test drivers that read files or stdin are left out. `wrap_object` is the heap's `Alloc`.
- Values.Value: src/runtime/value.rs:6-11 declares no String variant. The model adds `String(text)` so that the `StringLiteral` arm of `apply_op` (src/ir/expression/binary_expression.rs:71) has a value to act on. Its display as its text, the String arm of the corrected `ValueEq` and the String clause of `ValueEqAsWritten` are the model's own choices, not the source's.
- Floating point: Numbers are reals. Rounding, NaN, infinities and the digits that `Display` prints for a Number are not modelled.
- Apply.ArithmeticInverses: holds of the real-number model only. In the source's f64 arithmetic `0.1 + 0.2 - 0.2` is not `0.1`, and `(1 / 49) * 49` is not `1`.
- Apply.ApplyOp: division by zero yields Number 0. This stands in for the IEEE infinity or NaN, which the real-number model cannot represent.
- `Rc`/`RefCell` borrow discipline is not modelled. Objects live in a heap addressed by handles, so the borrow-release-before-recursion rule has no counterpart.
- Non-termination: every call and every loop round spends one unit of fuel, and running out gives `OutOfFuel`. What a program does beyond any fuel bound is not modelled.
- Built-in functions, `handle_built_in` and `console.log` are not in this snapshot's call path and are not modelled.
- Semantics.EvalExpr: its own contract states only the invariants shared by every expression. What each node computes is in the per-node functions and in the `NodeProperties` lemmas.
- Semantics.ExecStmt: its own contract states only the invariants shared by every statement. What each node does is in the per-node functions and in the `NodeProperties` lemmas.
- Semantics.EvalCall: its contract names the fatal cases and the drained node. The bindings and the body run are stated for all inputs by `NodeProperties.CallBindsAndRuns`.
- Semantics.ForLoop: the test is compared with `Boolean(true)` by the corrected equality `Values.ValueEq`, not by the `PartialEq` of src/runtime/value.rs, under which the test never holds (see Findings). With the code as written every loop ends after its first test: `for (; i < limit; i++) {}` leaves `i` unchanged, and `for (; true;) break;` ends at once. `Properties.CountingRound`, `Properties.CountingEnd`, `Properties.CountingLoop` and `Properties.BreakDoesNotEndLoop` describe the corrected loop.
- Semantics.ExecFor: its contract names the result and the missing-test case. Loop behaviour is stated by `Semantics.ForLoop` and the `Properties` counting-loop lemmas.
- The suppression flag that object expressions switch on and off is not declared in the shown `interpreter.rs`. It is modelled as a field that only those two calls touch. Function declarations never read it in this snapshot.
- `Function::new` in `src/runtime/function.rs` takes a name and a body. The model follows its call site in `function_declaration.rs`, which also passes the parameters.

Behaviour of this snapshot that a JavaScript reader may not expect (the model keeps it):

- A variable read consults only the scope frames. It never falls back to the global object, and an unbound name yields no value; no ReferenceError is raised.
- More actual arguments than formal parameters is fatal, because the count of missing arguments is an unsigned subtraction.
- A non-Boolean `if` test is fatal; no TypeError is raised.
- A call callee is looked up only on the global object.
- A member expression ignores its property name.
- No node of this snapshot produces an exception, so `Exc` never arises. "No value" (`None`) and an error (`Err`) from an operand are both read as Undefined, as the source's `unwrap_or` does. The object literal's early exit (`?`) stops on either of them.
- The `for` loop clears neither flag, so `break` does not stop a loop.

## Findings

| source | as written | input that shows it | evidently intended | confidence | as-written member | corrected member |
|---|---|---|---|---|---|---|
| src/runtime/value.rs:26-40 | `PartialEq` has no Boolean arm, so `Boolean(true) == Boolean(true)` is false; the `for` loop test at src/ir/statement/for_statement.rs:68 therefore never holds, and no loop body ever runs | `for (let i = 0; i < 1; i++) {}`: the test yields `Boolean(true)`, which does not compare equal to `Boolean(true)` | Booleans (and Strings) compare structurally, so the loop runs while its test is true | high; not executed | Values.BooleansNeverEqualAsWritten | Values.ValueEq |
| src/ir/ops/binary.rs:31 | `StrictNotEqual` displays as "!===" | displaying `a !== b` prints `!===` | "!==", the negation of "===" | high; not executed | Ops.SymbolAsWrittenBreaksNegation | Ops.SymbolConsistentAndInjective |
