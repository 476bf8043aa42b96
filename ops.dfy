/*
 * The operator tables of the IR (src/ir/ops/binary.rs, src/ir/ops/unary.rs):
 * the operator enums, how they display, and how the parser's (resast)
 * operators map onto them.
 */
module Ops {
  import opened Values

  datatype BinaryOperator =
    | Equal | NotEqual | StrictEqual | StrictNotEqual
    | LessThan | GreaterThan | LessThanEqual | GreaterThanEqual
    | Plus | Minus | Times | Over
    | Or | And

  /** The binary operators of the resast parser library. */
  datatype ResastBinaryOp =
    | Equal | NotEqual | StrictEqual | StrictNotEqual
    | LessThan | GreaterThan | LessThanEqual | GreaterThanEqual
    | LeftShift | RightShift | UnsignedRightShift
    | Plus | Minus | Times | Over | Mod
    | Or | XOr | And | In | InstanceOf | PowerOf

  /** The `Display` of `BinaryOperator` as written, with "!===" for StrictNotEqual. */
  function SymbolAsWritten(op: BinaryOperator): string
  {
    match op
    case Plus => "+"
    case Minus => "-"
    case Equal => "=="
    case NotEqual => "!="
    case StrictEqual => "==="
    case StrictNotEqual => "!==="
    case LessThan => "<"
    case GreaterThan => ">"
    case LessThanEqual => "<="
    case GreaterThanEqual => ">="
    case Times => "*"
    case Over => "/"
    case Or => "||"
    case And => "&&"
  }

  /** The negated form of an equality operator. */
  function Negation(op: BinaryOperator): Option<BinaryOperator>
  {
    match op
    case Equal => Some(BinaryOperator.NotEqual)
    case StrictEqual => Some(BinaryOperator.StrictNotEqual)
    case _ => None
  }

  /**
   * A table in which the negation of an equality operator is the operator's
   * symbol with its first character replaced by '!'.
   */
  ghost predicate NegationsConsistent(symbol: BinaryOperator -> string)
  {
    forall op :: Negation(op).Some? ==>
      |symbol(op)| > 0 && symbol(Negation(op).value) == "!" + symbol(op)[1..]
  }

  /** The table as written breaks that rule at StrictNotEqual. */
  lemma SymbolAsWrittenBreaksNegation()
    ensures SymbolAsWritten(BinaryOperator.StrictNotEqual) == "!==="
    ensures SymbolAsWritten(BinaryOperator.StrictNotEqual) != "!" + SymbolAsWritten(BinaryOperator.StrictEqual)[1..]
    ensures !NegationsConsistent(SymbolAsWritten)
  {
    assert SymbolAsWritten(BinaryOperator.StrictEqual)[1..] == "==";
    assert Negation(BinaryOperator.StrictEqual).Some?;
  }

  /** The corrected table: StrictNotEqual displays as "!==". */
  function Symbol(op: BinaryOperator): (s: string)
    ensures op != BinaryOperator.StrictNotEqual ==> s == SymbolAsWritten(op)
    ensures op == BinaryOperator.StrictNotEqual ==> s == "!=="
  {
    match op
    case StrictNotEqual => "!=="
    case _ => SymbolAsWritten(op)
  }

  /** The corrected table keeps the negation rule and tells all operators apart. */
  lemma SymbolConsistentAndInjective()
    ensures NegationsConsistent(Symbol)
    ensures forall a, b :: Symbol(a) == Symbol(b) ==> a == b
  {
    assert Symbol(BinaryOperator.Equal)[1..] == "=";
    assert Symbol(BinaryOperator.StrictEqual)[1..] == "==";
  }

  /** `From<resast::BinaryOp>`: the fourteen supported operators map to their namesakes. */
  function FromResastBinary(op: ResastBinaryOp): (r: Fallible<BinaryOperator>)
    ensures r.Ok? <==> !(op.LeftShift? || op.RightShift? || op.UnsignedRightShift? || op.Mod?
                         || op.XOr? || op.In? || op.InstanceOf? || op.PowerOf?)
  {
    match op
    case Equal => Ok(BinaryOperator.Equal)
    case NotEqual => Ok(BinaryOperator.NotEqual)
    case StrictEqual => Ok(BinaryOperator.StrictEqual)
    case StrictNotEqual => Ok(BinaryOperator.StrictNotEqual)
    case LessThan => Ok(BinaryOperator.LessThan)
    case GreaterThan => Ok(BinaryOperator.GreaterThan)
    case LessThanEqual => Ok(BinaryOperator.LessThanEqual)
    case GreaterThanEqual => Ok(BinaryOperator.GreaterThanEqual)
    case Plus => Ok(BinaryOperator.Plus)
    case Minus => Ok(BinaryOperator.Minus)
    case Times => Ok(BinaryOperator.Times)
    case Over => Ok(BinaryOperator.Over)
    case Or => Ok(BinaryOperator.Or)
    case And => Ok(BinaryOperator.And)
    case _ => Panic
  }

  /** The resast operator of the same name (a reference table for the conversion). */
  function ToResastBinary(op: BinaryOperator): ResastBinaryOp
  {
    match op
    case Equal => ResastBinaryOp.Equal
    case NotEqual => ResastBinaryOp.NotEqual
    case StrictEqual => ResastBinaryOp.StrictEqual
    case StrictNotEqual => ResastBinaryOp.StrictNotEqual
    case LessThan => ResastBinaryOp.LessThan
    case GreaterThan => ResastBinaryOp.GreaterThan
    case LessThanEqual => ResastBinaryOp.LessThanEqual
    case GreaterThanEqual => ResastBinaryOp.GreaterThanEqual
    case Plus => ResastBinaryOp.Plus
    case Minus => ResastBinaryOp.Minus
    case Times => ResastBinaryOp.Times
    case Over => ResastBinaryOp.Over
    case Or => ResastBinaryOp.Or
    case And => ResastBinaryOp.And
  }

  /**
   * The conversion is a bijection between the supported resast operators and
   * the IR operators: every IR operator is reached from its namesake, and a
   * supported resast operator is the namesake of its image (so it is injective).
   */
  lemma FromResastBinaryRoundTrip(op: BinaryOperator, rop: ResastBinaryOp)
    ensures FromResastBinary(ToResastBinary(op)) == Ok(op)
    ensures FromResastBinary(rop).Ok? ==> ToResastBinary(FromResastBinary(rop).value) == rop
  {
  }

  datatype UnaryOperator = Increment | Decrement

  /** The unary operators of the resast parser library. */
  datatype ResastUnaryOp = Minus | Plus | Not | Tilde | TypeOf | Void | Delete

  /** The `Display` of `UnaryOperator`. */
  function UnarySymbol(op: UnaryOperator): (s: string)
    ensures |s| == 2 && s[0] == s[1]
    ensures s[0] == (if op.Increment? then '+' else '-')
  {
    match op
    case Increment => "++"
    case Decrement => "--"
  }

  /** `From<resast::UnaryOp>`: only unary plus converts, to Increment; nothing yields Decrement. */
  function FromResastUnary(op: ResastUnaryOp): (r: Fallible<UnaryOperator>)
    ensures r.Ok? <==> op == ResastUnaryOp.Plus
    ensures r.Ok? ==> r.value == Increment
    ensures r != Ok(Decrement)
  {
    match op
    case Plus => Ok(Increment)
    case _ => Panic
  }
}
