/** The abstract syntax tree of a RapCAD script, as the printers see it
    (the node classes visited by src/treeprinter.cpp and
    src/solidpython.cpp). Statements and declarations share one type,
    as Statement derives from Declaration in the source. */
module Syntax {
  import opened Wrappers
  import opened Operators

  /** Instance::Type: the modifier written before an instance. */
  datatype InstanceType = Default | Root | Debug | Background | Disable

  /** Variable::Type. */
  datatype Storage = Normal | Const | Param | Special

  datatype Variable = Variable(name: string, storage: Storage)

  /** The value a literal holds: a boolean, a number with its printed
      form, or text. */
  datatype LitValue = BoolLit(b: bool) | NumberLit(n: real, text: string) | TextLit(text: string)

  /** Value::getValueString of a literal's value. */
  function ValueString(v: LitValue): string
  {
    match v
    case BoolLit(b) => if b then "true" else "false"
    case NumberLit(_, text) => text
    case TextLit(text) => text
  }

  datatype Expr =
    | Literal(value: LitValue)
    | VariableRef(v: Variable)
    | Binary(left: Expr, op: Op, right: Expr)
    | Unary(op: Op, operand: Expr, postFix: bool)
    | Ternary(cond: Expr, whenTrue: Expr, whenFalse: Expr)
    | Vector(items: seq<Expr>)
    | Range(start: Expr, step: Option<Expr>, finish: Expr)
    | Invocation(ns: string, name: string, args: seq<Argument>)

  /** An argument, optionally named by a variable. */
  datatype Argument = Argument(variable: Option<Variable>, expr: Expr)

  /** A parameter with an optional default. */
  datatype Parameter = Parameter(name: string, default: Option<Expr>)

  /** A function body: a single expression, or statements. */
  datatype FunctionBody = ExprBody(e: Expr) | Block(stmts: seq<Stmt>)

  datatype Stmt =
    | ModuleDef(name: string, params: seq<Parameter>, body: seq<Stmt>)
    | FunctionDef(name: string, params: seq<Parameter>, fbody: FunctionBody)
    | Inst(kind: InstanceType, ns: string, name: string, args: seq<Argument>, children: seq<Stmt>)
    | Compound(children: seq<Stmt>)
    | IfElse(cond: Expr, whenTrue: Option<Stmt>, whenFalse: Option<Stmt>)
    | For(args: seq<Argument>, loopBody: Stmt)
    | Assign(variable: Option<Variable>, op: Op, value: Option<Expr>)
    | Return(e: Expr)
    | ModuleImport(imp: string, name: string, params: seq<Parameter>)
    | ScriptImport(imp: string, ns: string)

  /** A script is its top-level declarations. */
  datatype Script = Script(decls: seq<Stmt>)
}
