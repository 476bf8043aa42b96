/*
 * The IR node hierarchy (the nodes under src/ir/expression and src/ir/statement) as
 * closed datatypes, the constructors that carry an invariant, and the
 * `Scope` block builder of src/ir/statement/block_statement.rs.
 */
module Ir {
  import opened Values
  import opened Ops

  /** The kind of a block: it decides whether a pending `return` is caught there. */
  datatype ScopeType = Function | Control | Global

  /** The `Display` of `ScopeType`. */
  function ScopeTypeName(t: ScopeType): string
  {
    match t
    case Function => "FunctionBody"
    case Control => "ControlStatementBody"
    case Global => "GlobalScope"
  }

  lemma ScopeTypeNameInjective(s: ScopeType, t: ScopeType)
    requires ScopeTypeName(s) == ScopeTypeName(t)
    ensures s == t
  {
  }

  datatype Expr =
    | Literal(val: Value)
    | EmptyExpression
    | Variable(name: string)
    | MemberExpression(objectName: string, property: string)
    | AssignmentExpression(target: string, newValue: Expr)
    | UpdateExpression(variable: string, unaryOp: UnaryOperator, prefix: bool)
    | BinaryExpression(binaryOp: BinaryOperator, lhs: Expr, rhs: Expr)
    | CallExpression(callee: string, arguments: seq<Expr>)
    | ObjectExpression(keys: seq<string>, values: seq<Expr>)

  datatype Stmt =
    | BlockStatement(block: Block)
    | VariableDeclaration(name: string, init: Option<Expr>)
    | FunctionDeclaration(name: string, parameters: seq<string>, fnBody: Block)
    | ReturnStatement(expression: Option<Expr>)
    | BreakStatement
    | IfStatement(test: Expr, consequent: Stmt, alternate: Option<Stmt>)
    | ForStatement(initExpr: Option<Expr>, initDecl: Option<Stmt>, loopTest: Option<Expr>,
                   update: Option<Expr>, loopBody: Stmt)
    | ExpressionStatement(expr: Expr)

  /** The value of a `Scope`: its statements and its kind. */
  datatype Block = Block(children: seq<Stmt>, scopeType: ScopeType)

  // ---------------------------------------------------------------------------
  // Sizes, the structural part of the evaluator's termination measure
  // ---------------------------------------------------------------------------

  function ExprSize(e: Expr): (n: nat)
    ensures n >= 1
  {
    match e
    case AssignmentExpression(_, v) => 1 + ExprSize(v)
    case BinaryExpression(_, l, r) => 1 + ExprSize(l) + ExprSize(r)
    case CallExpression(_, args) => 1 + ExprsSize(args)
    case ObjectExpression(_, vs) => 1 + ExprsSize(vs)
    case _ => 1
  }

  /** A sequence counts one more than the sum of its elements. */
  function ExprsSize(es: seq<Expr>): (n: nat)
    ensures n >= 1
  {
    if |es| == 0 then 1 else ExprSize(es[0]) + ExprsSize(es[1..])
  }

  function OptExprSize(e: Option<Expr>): nat
  {
    match e
    case None => 0
    case Some(x) => ExprSize(x)
  }

  function StmtSize(s: Stmt): (n: nat)
    ensures n >= 1
  {
    match s
    case BlockStatement(b) => 1 + BlockSize(b)
    case VariableDeclaration(_, init) => 1 + OptExprSize(init)
    case FunctionDeclaration(_, _, _) => 1
    case ReturnStatement(e) => 1 + OptExprSize(e)
    case BreakStatement => 1
    case IfStatement(t, c, a) => 1 + ExprSize(t) + StmtSize(c) + OptStmtSize(a)
    case ForStatement(ie, id, t, u, b) =>
      1 + OptExprSize(ie) + OptStmtSize(id) + OptExprSize(t) + OptExprSize(u) + StmtSize(b)
    case ExpressionStatement(e) => 1 + ExprSize(e)
  }

  function OptStmtSize(s: Option<Stmt>): nat
  {
    match s
    case None => 0
    case Some(x) => StmtSize(x)
  }

  function StmtsSize(ss: seq<Stmt>): (n: nat)
    ensures n >= 1
  {
    if |ss| == 0 then 1 else StmtSize(ss[0]) + StmtsSize(ss[1..])
  }

  function BlockSize(b: Block): nat
  {
    1 + StmtsSize(b.children)
  }

  lemma {:induction false} ExprsSizeBound(es: seq<Expr>, i: nat)
    requires i < |es|
    ensures ExprSize(es[i]) < ExprsSize(es)
  {
    if i > 0 {
      ExprsSizeBound(es[1..], i - 1);
      assert es[1..][i - 1] == es[i];
    }
  }

  lemma {:induction false} StmtsSizeBound(ss: seq<Stmt>, i: nat)
    requires i < |ss|
    ensures StmtSize(ss[i]) < StmtsSize(ss)
    ensures StmtsSize(ss[i..]) <= StmtsSize(ss)
  {
    if i > 0 {
      StmtsSizeBound(ss[1..], i - 1);
      assert ss[1..][i - 1] == ss[i];
      assert ss[1..][i - 1..] == ss[i..];
    }
  }

  // ---------------------------------------------------------------------------
  // Constructors with an invariant or a fixed shape
  // ---------------------------------------------------------------------------

  /** `VariableDeclaration::new` and `::boxed` always store an initializer. */
  function NewVariableDeclaration(name: string, value: Expr): (s: Stmt)
    ensures s.VariableDeclaration? && s.name == name && s.init == Some(value)
  {
    VariableDeclaration(name, Some(value))
  }

  /** `ReturnStatement::boxed`: a return with an expression. */
  function NewReturn(expr: Expr): (s: Stmt)
    ensures s.ReturnStatement? && s.expression == Some(expr)
  {
    ReturnStatement(Some(expr))
  }

  /** `ReturnStatement::boxed_empty`: a return without an expression. */
  function NewEmptyReturn(): (s: Stmt)
    ensures s.ReturnStatement? && s.expression.None?
  {
    ReturnStatement(None)
  }

  /**
   * `ForStatement::boxed`: panics unless exactly one of the two initializers
   * is present.
   */
  function NewForStatement(initExpr: Option<Expr>, initDecl: Option<Stmt>, test: Option<Expr>,
                           update: Option<Expr>, body: Stmt): (r: Fallible<Stmt>)
    ensures r.Ok? <==> initExpr.Some? != initDecl.Some?
    ensures r.Ok? ==> r.value == ForStatement(initExpr, initDecl, test, update, body)
  {
    if (initExpr.None? || initDecl.None?) && !(initExpr.None? && initDecl.None?) then
      Ok(ForStatement(initExpr, initDecl, test, update, body))
    else
      Panic
  }

  // ---------------------------------------------------------------------------
  // The Scope builder
  // ---------------------------------------------------------------------------

  /**
   * A block under construction. Its statements grow in place; `Clone` gives
   * the block value that evaluation works on.
   */
  class Scope {
    var children: seq<Stmt>
    const scopeType: ScopeType

    /** `Scope::new`: no statements yet, and the given kind for good. */
    constructor (scopeType: ScopeType)
      ensures children == [] && this.scopeType == scopeType
    {
      children := [];
      this.scopeType := scopeType;
    }

    /** `append`: one more statement at the end, the earlier ones untouched. */
    method Append(statement: Stmt)
      modifies this
      ensures children == old(children) + [statement]
    {
      children := children + [statement];
    }

    /** `append_all`: the statements in order, one push at a time. */
    method AppendAll(statements: seq<Stmt>)
      modifies this
      ensures children == old(children) + statements
      ensures |children| == |old(children)| + |statements|
    {
      for k := 0 to |statements|
        invariant children == old(children) + statements[..k]
      {
        children := children + [statements[k]];
      }
      assert statements[..|statements|] == statements;
    }

    /** `get_type`. */
    function GetType(): ScopeType
      reads this
    {
      scopeType
    }

    /** The copy of the block that `evaluate` hands to the interpreter. */
    function Clone(): (b: Block)
      reads this
      ensures b.children == children && b.scopeType == GetType()
    {
      Block(children, scopeType)
    }
  }
}
