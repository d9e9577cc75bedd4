/** Operators of the expression tree and their printed symbols
    (src/expression.cpp). */
module Operators {
  import opened Wrappers

  /** Expression::Operator_e. The first eighteen have a symbol; the rest
      (increments, assignments, concatenation, length) print as "Unknown". */
  datatype Op =
    | Multiply | ComponentwiseMultiply | Divide | ComponentwiseDivide | Modulus | Dot
    | Add | Subtract | LessThan | LessOrEqual | Equal | NotEqual | GreaterOrEqual
    | GreaterThan | LogicalAnd | LogicalOr | Invert | Index
    | Increment | Decrement | AddAssign | SubAssign | Concatenate | Append | Length

  /** Whether getOpString has a case for the operator. */
  predicate Listed(op: Op)
  {
    !(op.Increment? || op.Decrement? || op.AddAssign? || op.SubAssign?
      || op.Concatenate? || op.Append? || op.Length?)
  }

  /** getOpString. */
  function OpString(op: Op): (s: string)
    ensures Listed(op) ==> 1 <= |s| <= 2
    ensures !Listed(op) <==> s == "Unknown"
  {
    match op
    case Multiply => "*"
    case ComponentwiseMultiply => ".*"
    case Divide => "/"
    case ComponentwiseDivide => "./"
    case Modulus => "%"
    case Dot => "."
    case Add => "+"
    case Subtract => "-"
    case LessThan => "<"
    case LessOrEqual => "<="
    case Equal => "=="
    case NotEqual => "!="
    case GreaterOrEqual => ">="
    case GreaterThan => ">"
    case LogicalAnd => "&&"
    case LogicalOr => "||"
    case Invert => "!"
    case Index => "[]"
    case _ => "Unknown"
  }

  /** Sample entries of the table. */
  lemma OpStringExamples()
    ensures OpString(ComponentwiseMultiply) == ".*" && OpString(Index) == "[]"
    ensures OpString(LogicalAnd) == "&&" && OpString(Increment) == "Unknown"
  {
  }

  /** A listed operator can be recovered from its symbol. */
  function OpOfString(s: string): (r: Option<Op>)
    ensures r.Some? ==> Listed(r.value) && OpString(r.value) == s
  {
    if s == "*" then Some(Multiply)
    else if s == ".*" then Some(ComponentwiseMultiply)
    else if s == "/" then Some(Divide)
    else if s == "./" then Some(ComponentwiseDivide)
    else if s == "%" then Some(Modulus)
    else if s == "." then Some(Dot)
    else if s == "+" then Some(Add)
    else if s == "-" then Some(Subtract)
    else if s == "<" then Some(LessThan)
    else if s == "<=" then Some(LessOrEqual)
    else if s == "==" then Some(Equal)
    else if s == "!=" then Some(NotEqual)
    else if s == ">=" then Some(GreaterOrEqual)
    else if s == ">" then Some(GreaterThan)
    else if s == "&&" then Some(LogicalAnd)
    else if s == "||" then Some(LogicalOr)
    else if s == "!" then Some(Invert)
    else if s == "[]" then Some(Index)
    else None
  }

  /** The symbol table round-trips, so distinct listed operators have
      distinct symbols. */
  lemma OpStringRoundTrip(op: Op)
    ensures Listed(op) ==> OpOfString(OpString(op)) == Some(op)
    ensures !Listed(op) ==> OpOfString(OpString(op)) == None
  {
  }

  lemma OpStringInjective(a: Op, b: Op)
    requires Listed(a) && Listed(b) && OpString(a) == OpString(b)
    ensures a == b
  {
    OpStringRoundTrip(a);
    OpStringRoundTrip(b);
  }

  /** The operator field of an expression node. */
  datatype OpSlot = OpSlot(op: Op)

  /** setOp. */
  function SetOp(e: OpSlot, op: Op): (r: OpSlot)
    ensures GetOp(r) == op
  {
    OpSlot(op)
  }

  /** getOp. */
  function GetOp(e: OpSlot): (op: Op)
    ensures OpSlot(op) == e
  {
    e.op
  }
}
