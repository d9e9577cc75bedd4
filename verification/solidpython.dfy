/** The exporter that rewrites a RapCAD script as a SolidPython program
    (src/solidpython.cpp). The visitor's fields (output, indent level,
    used variable names, current variable) are threaded through the
    visits; the two places that throw become failures. */
module SolidPython {
  import opened Wrappers
  import opened Text
  import opened Operators
  import opened Syntax
  import TreePrinter

  /** The visitor's fields. */
  datatype St = St(out: string, indent: nat, varnames: seq<string>, varname: string)

  /** NotImplementedException. */
  datatype Exc = NotImplemented

  function Emit(st: St, s: string): (r: St)
    ensures r.indent == st.indent && r.varnames == st.varnames && r.out == st.out + s
  {
    st.(out := st.out + s)
  }

  /** createIndent. */
  function EmitIndent(st: St): St
  {
    Emit(st, TreePrinter.Indent(st.indent))
  }

  /** The candidate variable names 'a' to 'y'. */
  const LETTERS: string := "abcdefghijklmnopqrstuvwxy"

  /** The first candidate letter not yet used. */
  function FirstFree(k: nat, used: seq<string>): (r: Option<nat>)
    requires k <= |LETTERS|
    ensures r.Some? ==> k <= r.value < |LETTERS| && [LETTERS[r.value]] !in used
                        && forall j :: k <= j < r.value ==> [LETTERS[j]] in used
    ensures r.None? ==> forall j :: k <= j < |LETTERS| ==> [LETTERS[j]] in used
    decreases |LETTERS| - k
  {
    if k == |LETTERS| then None
    else if [LETTERS[k]] !in used then Some(k)
    else FirstFree(k + 1, used)
  }

  /** The names recorded in a are still recorded, in the same places, in b. */
  predicate Keeps(a: seq<string>, b: seq<string>)
  {
    a <= b
  }

  /** getVariable: the first letter from 'a' to 'y' not yet used, which
      becomes used; throws once all twenty-five are taken. */
  function GetVariable(st: St): (r: Result<(St, string), Exc>)
    ensures r.Success? ==>
              var v := r.value.1;
              |v| == 1 && 'a' <= v[0] <= 'y' && v !in st.varnames
              && (forall c :: 'a' <= c < v[0] ==> [c] in st.varnames)
              && r.value.0 == st.(varnames := st.varnames + [v])
    ensures r.Failure? <==> forall c :: 'a' <= c <= 'y' ==> [c] in st.varnames
  {
    FreeLetters(st.varnames);
    match FirstFree(0, st.varnames)
    case None => Failure(NotImplemented)
    case Some(k) => Success((st.(varnames := st.varnames + [[LETTERS[k]]]), [LETTERS[k]]))
  }

  /** No letter is free exactly when every letter from 'a' to 'y' is
      used; a free one lies in that range. */
  lemma FreeLetters(used: seq<string>)
    ensures FirstFree(0, used).None? <==> forall c :: 'a' <= c <= 'y' ==> [c] in used
    ensures FirstFree(0, used).Some? ==>
              var k := FirstFree(0, used).value;
              'a' <= LETTERS[k] <= 'y' && forall c :: 'a' <= c < LETTERS[k] ==> [c] in used
  {
    assert |LETTERS| == 25;
    assert forall j :: 0 <= j < 25 ==> LETTERS[j] as int == 'a' as int + j;
    var r := FirstFree(0, used);
    if r.None? {
      forall c | 'a' <= c <= 'y' ensures [c] in used {
        assert LETTERS[c as int - 'a' as int] == c;
      }
    } else {
      var k := r.value;
      forall c | 'a' <= c < LETTERS[k] ensures [c] in used {
        assert LETTERS[c as int - 'a' as int] == c;
      }
    }
  }

  // ---------------------------------------------------------------------
  // Expressions: their text, and the names they add to varnames
  // ---------------------------------------------------------------------

  /** The literal text with the boolean spellings of Python. */
  function PyLiteral(v: LitValue): (s: string)
    ensures ValueString(v) == "true" ==> s == "True"
    ensures ValueString(v) == "false" ==> s == "False"
    ensures ValueString(v) != "true" && ValueString(v) != "false" ==> s == ValueString(v)
  {
    var val := ValueString(v);
    if val == "false" then "False" else if val == "true" then "True" else val
  }

  function PyVariable(v: Variable): (s: string)
    ensures v.storage == Special ==> s == "$" + v.name
    ensures v.storage != Special ==> s == v.name
  {
    (if v.storage == Special then "$" else "") + v.name
  }

  /** The text of an expression; fmt is QString::number(x,'g',16). */
  function PyExpr(e: Expr, fmt: real -> string): string
    decreases e, 0
  {
    match e
    case Literal(v) => PyLiteral(v)
    case VariableRef(v) => PyVariable(v)
    case Binary(l, op, r) => "(" + PyExpr(l, fmt) + OpString(op) + PyExpr(r, fmt) + ")"
    case Unary(op, x, _) => OpString(op) + PyExpr(x, fmt)
    case Ternary(c, t, f) => "(" + PyExpr(c, fmt) + "?" + PyExpr(t, fmt) + ":" + PyExpr(f, fmt) + ")"
    case Vector(items) => "[" + Join(seq(|items|, i requires 0 <= i < |items| => PyExpr(items[i], fmt)), ",") + "]"
    case Range(start, step, finish) =>
      "range(" + PyExpr(start, fmt) + "," + PyFinish(finish, fmt)
      + (if step.Some? then "," + PyExpr(step.value, fmt) else "") + ")"
    case Invocation(_, name, args) => name + "(" + PyArgs(args, fmt) + ")"
  }

  /** The end of a Python range is exclusive: a number literal is printed
      one larger, anything else gets "+1". */
  function PyFinish(finish: Expr, fmt: real -> string): string
    decreases finish, 1
  {
    if finish.Literal? && finish.value.NumberLit? then fmt(finish.value.n + 1.0)
    else PyExpr(finish, fmt) + "+1"
  }

  function PyArg(a: Argument, fmt: real -> string): string
    decreases a, 0
  {
    (if a.variable.Some? then PyVariable(a.variable.value) + "=" else "") + PyExpr(a.expr, fmt)
  }

  function PyArgs(args: seq<Argument>, fmt: real -> string): string
    decreases args, 0
  {
    Join(seq(|args|, i requires 0 <= i < |args| => PyArg(args[i], fmt)), ",")
  }

  function PyParam(p: Parameter, fmt: real -> string): string
  {
    p.name + (if p.default.Some? then "=" + PyExpr(p.default.value, fmt) else "")
  }

  function PyParams(ps: seq<Parameter>, fmt: real -> string): string
  {
    Join(seq(|ps|, i requires 0 <= i < |ps| => PyParam(ps[i], fmt)), ",")
  }

  /** The variable names an expression's visit appends to varnames, in
      visiting order. */
  function ExprNames(e: Expr): seq<string>
    decreases e, 0
  {
    match e
    case Literal(_) => []
    case VariableRef(v) => [v.name]
    case Binary(l, _, r) => ExprNames(l) + ExprNames(r)
    case Unary(_, x, _) => ExprNames(x)
    case Ternary(c, t, f) => ExprNames(c) + ExprNames(t) + ExprNames(f)
    case Vector(items) => ExprsNames(items)
    case Range(start, step, finish) =>
      ExprNames(start) + (if finish.Literal? && finish.value.NumberLit? then [] else ExprNames(finish))
      + (if step.Some? then ExprNames(step.value) else [])
    case Invocation(_, _, args) => ArgsNames(args)
  }

  function ExprsNames(es: seq<Expr>): seq<string>
    decreases es, 0
  {
    if |es| == 0 then [] else ExprNames(es[0]) + ExprsNames(es[1..])
  }

  function ArgNames(a: Argument): seq<string>
    decreases a, 0
  {
    (if a.variable.Some? then [a.variable.value.name] else []) + ExprNames(a.expr)
  }

  function ArgsNames(args: seq<Argument>): seq<string>
    decreases args, 0
  {
    if |args| == 0 then [] else ArgNames(args[0]) + ArgsNames(args[1..])
  }

  function ParamsNames(ps: seq<Parameter>): seq<string>
  {
    if |ps| == 0 then []
    else [ps[0].name] + (if ps[0].default.Some? then ExprNames(ps[0].default.value) else []) + ParamsNames(ps[1..])
  }

  /** Visiting an expression: its text is appended and its names are
      recorded. */
  function EmitExpr(st: St, e: Expr, fmt: real -> string): (r: St)
    ensures r.indent == st.indent && r.varname == st.varname
  {
    St(st.out + PyExpr(e, fmt), st.indent, st.varnames + ExprNames(e), st.varname)
  }

  function EmitArgs(st: St, args: seq<Argument>, fmt: real -> string): (r: St)
    ensures r.indent == st.indent && r.varname == st.varname
  {
    St(st.out + PyArgs(args, fmt), st.indent, st.varnames + ArgsNames(args), st.varname)
  }

  function EmitParams(st: St, ps: seq<Parameter>, fmt: real -> string): (r: St)
    ensures r.indent == st.indent && r.varname == st.varname
  {
    St(st.out + PyParams(ps, fmt), st.indent, st.varnames + ParamsNames(ps), st.varname)
  }

  function EmitVariable(st: St, v: Variable): (r: St)
    ensures r.indent == st.indent
  {
    St(st.out + PyVariable(v), st.indent, st.varnames + [v.name], st.varname)
  }

  // ---------------------------------------------------------------------
  // Statements and declarations
  // ---------------------------------------------------------------------

  /** What a module definition does to the recorded variable names:
      visit(Module) clears them and leaves the module's own names behind
      (Cleared); the corrected visitor restores the names it found
      (Restored), so that a nested definition does not make the
      enclosing scope forget its names. */
  datatype ModuleNames = Cleared | Restored

  /** The number format and the module-name policy of a visit. */
  datatype Cfg = Cfg(fmt: real -> string, names: ModuleNames)

  /** Every visit that does not throw leaves the indent level where it
      found it; with restored module names it only ever adds names. */
  function VisitStmt(s: Stmt, st: St, cfg: Cfg): (r: Result<St, Exc>)
    ensures r.Success? ==> r.value.indent == st.indent
    ensures r.Success? && cfg.names == Restored ==> Keeps(st.varnames, r.value.varnames)
    decreases s, 2
  {
    match s
    case ModuleDef(name, params, body) => VisitModule(name, params, body, st, cfg)
    case FunctionDef(name, params, fbody) => VisitFunction(name, params, fbody, st, cfg)
    case Inst(_, _, name, args, children) => VisitInstance(name, args, children, st, cfg)
    case Compound(children) => VisitCompound(children, st, cfg)
    case IfElse(_, _, _) => VisitIfElse(s, st, cfg)
    case For(_, _) => VisitFor(s, st, cfg)
    case Assign(v, _, value) => Success(VisitAssign(v, value, st, cfg.fmt))
    case Return(e) => Success(Emit(EmitExpr(Emit(st, "return "), e, cfg.fmt), "\n"))
    case ModuleImport(_, _, _) => Failure(NotImplemented)
    case ScriptImport(imp, _) => Success(Emit(st, "use(" + imp + ")\n"))
  }

  /** visit(Module): "def name(params):", the scope, two blank lines. */
  function VisitModule(name: string, params: seq<Parameter>, body: seq<Stmt>, st: St, cfg: Cfg): (r: Result<St, Exc>)
    ensures r.Success? ==> r.value.indent == st.indent
    ensures r.Success? && cfg.names == Restored ==> r.value.varnames == st.varnames
    decreases body, 4
  {
    var st1 := Emit(st.(varnames := []), "def " + name + "(");
    var st2 := Emit(EmitParams(st1, params, cfg.fmt), "):\n");
    var st3 :- ModuleScope(body, st2, cfg);
    var st4 := if cfg.names == Restored then st3.(varnames := st.varnames) else st3;
    Success(Emit(st4, "\n\n"))
  }

  /** visit(Function): as a module, without touching the names. */
  function VisitFunction(name: string, params: seq<Parameter>, fbody: FunctionBody, st: St, cfg: Cfg): (r: Result<St, Exc>)
    ensures r.Success? ==> r.value.indent == st.indent
    ensures r.Success? && cfg.names == Restored ==> Keeps(st.varnames, r.value.varnames)
    decreases fbody, 2
  {
    var st1 := Emit(st, "def " + name + "(");
    var st2 := Emit(EmitParams(st1, params, cfg.fmt), "):\n");
    var st3 :- FunctionScope(fbody, st2, cfg);
    Success(Emit(st3, "\n\n"))
  }

  /** visit(Instance): the call, then the children one level deeper. */
  function VisitInstance(name: string, args: seq<Argument>, children: seq<Stmt>, st: St, cfg: Cfg): (r: Result<St, Exc>)
    ensures r.Success? ==> r.value.indent == st.indent
    ensures r.Success? && cfg.names == Restored ==> Keeps(st.varnames, r.value.varnames)
    decreases children, 2
  {
    var st1 := Emit(EmitArgs(Emit(st, name + "("), args, cfg.fmt), ")");
    if |children| == 0 then Success(st1)
    else
      var st2 := Emit(st1, "(\n").(indent := st1.indent + 1);
      var st3 :- InstChildren(children, true, st2, cfg);
      var st4 := Emit(st3, "\n").(indent := st3.indent - 1);
      Success(Emit(EmitIndent(st4), ")"))
  }

  /** visit(CompoundStatement): several children go on lines of their
      own, one level deeper. */
  function VisitCompound(children: seq<Stmt>, st: St, cfg: Cfg): (r: Result<St, Exc>)
    ensures r.Success? ==> r.value.indent == st.indent
    ensures r.Success? && cfg.names == Restored ==> Keeps(st.varnames, r.value.varnames)
    decreases children, 2
  {
    if |children| == 0 then Success(st)
    else if |children| == 1 then VisitEach(children, st, false, cfg)
    else
      var st1 := Emit(st, "\n").(indent := st.indent + 1);
      var st2 :- VisitEach(children, st1, true, cfg);
      Success(EmitIndent(st2.(indent := st2.indent - 1)))
  }

  /** visit(IfElseStatement). */
  function VisitIfElse(s: Stmt, st: St, cfg: Cfg): (r: Result<St, Exc>)
    requires s.IfElse?
    ensures r.Success? ==> r.value.indent == st.indent
    ensures r.Success? && cfg.names == Restored ==> Keeps(st.varnames, r.value.varnames)
    decreases s, 1
  {
    var st1 := Emit(EmitExpr(Emit(st, "if "), s.cond, cfg.fmt), ":\n");
    var st2 :-
      if s.whenTrue.Some? then
        var a := EmitIndent(st1.(indent := st1.indent + 1));
        var b :- VisitStmt(s.whenTrue.value, a, cfg);
        Success(Emit(b, "\n").(indent := b.indent - 1))
      else Success(st1);
    if s.whenFalse.Some? then
      var a := EmitIndent(Emit(EmitIndent(st2), "else:\n").(indent := st2.indent + 1));
      var b :- VisitStmt(s.whenFalse.value, a, cfg);
      Success(Emit(b, "\n").(indent := b.indent - 1))
    else Success(st2)
  }

  /** visit(ForStatement): nested "for" heads, then the body added to the
      current variable, then back to the original level. */
  function VisitFor(s: Stmt, st: St, cfg: Cfg): (r: Result<St, Exc>)
    requires s.For?
    ensures r.Success? ==> r.value.indent == st.indent
    ensures r.Success? && cfg.names == Restored ==> Keeps(st.varnames, r.value.varnames)
    decreases s, 1
  {
    var st1 := ForHeads(s.args, true, st, cfg.fmt);
    var levels := st1.indent - st.indent;
    var st2 := EmitIndent(st1.(indent := st1.indent + 1));
    var st3 := Emit(st2, st2.varname + ".add(");
    var st4 :- VisitStmt(s.loopBody, st3, cfg);
    var st5 := Emit(st4, ")\n");
    Success(st5.(indent := st5.indent - 1 - levels))
  }

  /** visit(AssignStatement): always a plain "=", whatever the operator. */
  function VisitAssign(v: Option<Variable>, value: Option<Expr>, st: St, fmt: real -> string): (r: St)
    ensures r.indent == st.indent && Keeps(st.varnames, r.varnames)
  {
    var st1 := if v.Some? then EmitVariable(st, v.value) else st;
    var st2 := Emit(st1, "=");
    var st3 := if value.Some? then EmitExpr(st2, value.value, fmt) else st2;
    Emit(st3, "\n")
  }

  /** The for-statement heads: one "for" line per argument, each after the
      first one level deeper. */
  function ForHeads(args: seq<Argument>, first: bool, st: St, fmt: real -> string): (r: St)
    ensures r.indent == st.indent + (if |args| == 0 then 0 else if first then |args| - 1 else |args|)
    ensures r.varname == st.varname && Keeps(st.varnames, r.varnames)
  {
    if |args| == 0 then st
    else
      var a := args[0];
      var st1 := if first then st else EmitIndent(st.(indent := st.indent + 1));
      var st2 := Emit(st1, "for ");
      var st3 := if a.variable.Some? then Emit(EmitVariable(st2, a.variable.value), " in ") else st2;
      var st4 := Emit(EmitExpr(st3, a.expr, fmt), ":\n");
      ForHeads(args[1..], false, st4, fmt)
  }

  /** Statements in turn, each after the indent when asked. */
  function VisitEach(ss: seq<Stmt>, st: St, indentEach: bool, cfg: Cfg): (r: Result<St, Exc>)
    ensures r.Success? ==> r.value.indent == st.indent
    ensures r.Success? && cfg.names == Restored ==> Keeps(st.varnames, r.value.varnames)
    decreases ss, 0
  {
    if |ss| == 0 then Success(st)
    else
      var st1 :- VisitStmt(ss[0], if indentEach then EmitIndent(st) else st, cfg);
      VisitEach(ss[1..], st1, indentEach, cfg)
  }

  /** An instance's children: one per line, separated by ",\n". */
  function InstChildren(children: seq<Stmt>, first: bool, st: St, cfg: Cfg): (r: Result<St, Exc>)
    ensures r.Success? ==> r.value.indent == st.indent
    ensures r.Success? && cfg.names == Restored ==> Keeps(st.varnames, r.value.varnames)
    decreases children, 0
  {
    if |children| == 0 then Success(st)
    else
      var st1 := EmitIndent(if first then st else Emit(st, ",\n"));
      var st2 :- VisitStmt(children[0], st1, cfg);
      InstChildren(children[1..], false, st2, cfg)
  }

  /** visit(FunctionScope): "return expr" one level deeper, or the
      statements one level deeper. */
  function FunctionScope(b: FunctionBody, st: St, cfg: Cfg): (r: Result<St, Exc>)
    ensures r.Success? ==> r.value.indent == st.indent
    ensures r.Success? && cfg.names == Restored ==> Keeps(st.varnames, r.value.varnames)
    decreases b, 0
  {
    match b
    case ExprBody(e) =>
      var st1 := Emit(EmitIndent(st.(indent := st.indent + 1)), "return ");
      var st2 := EmitExpr(st1, e, cfg.fmt);
      Success(st2.(indent := st2.indent - 1))
    case Block(stmts) =>
      if |stmts| == 0 then Success(st)
      else
        var st1 :- VisitEach(stmts, st.(indent := st.indent + 1), true, cfg);
        Success(st1.(indent := st1.indent - 1))
  }

  function CountInstances(ds: seq<Stmt>): (n: nat)
    ensures n <= |ds|
    ensures n == 0 <==> forall i :: 0 <= i < |ds| ==> !ds[i].Inst?
    ensures n == |ds| <==> forall i :: 0 <= i < |ds| ==> ds[i].Inst?
  {
    if |ds| == 0 then 0 else (if ds[0].Inst? then 1 else 0) + CountInstances(ds[1..])
  }

  /** The text of a scope's return line for its bound variables. */
  function ReturnLine(vars: seq<string>): string
  {
    if |vars| == 0 then ""
    else "return " + (if |vars| > 1 then "union()(" else "") + Join(vars, ",") + (if |vars| > 1 then ")\n" else "")
  }

  /** visit(ModuleScope): a dry run of every declaration whose text is
      thrown away (its other effects stay), then the real pass. A scope
      whose last declaration is its only instance returns it directly;
      otherwise every instance and for-loop is bound to a fresh variable
      and the variables are returned, through union() when there are
      several. */
  function ModuleScope(decls: seq<Stmt>, st: St, cfg: Cfg): (r: Result<St, Exc>)
    ensures r.Success? ==> r.value.indent == st.indent
    ensures r.Success? && cfg.names == Restored ==> Keeps(st.varnames, r.value.varnames)
    decreases decls, 3
  {
    var st1 := st.(indent := st.indent + 1);
    ScopeAfterDryRun(decls, st1, VisitEach(decls, st1, false, cfg), cfg)
  }

  /** The rest of a module scope once its dry run has finished: the real
      pass starts from the dry run's names, with the output as it was. */
  function ScopeAfterDryRun(decls: seq<Stmt>, st1: St, dry: Result<St, Exc>, cfg: Cfg): (r: Result<St, Exc>)
    requires st1.indent > 0
    requires dry.Success? ==> dry.value.indent == st1.indent
    requires dry.Success? && cfg.names == Restored ==> Keeps(st1.varnames, dry.value.varnames)
    ensures r.Success? ==> r.value.indent == st1.indent - 1
    ensures r.Success? && cfg.names == Restored ==> Keeps(st1.varnames, r.value.varnames)
    decreases decls, 2
  {
    var d :- dry;
    var st2 :- ScopePasses(decls, d.(out := st1.out), cfg);
    Success(st2.(indent := st2.indent - 1))
  }

  /** The real pass of a module scope, after the dry run. */
  function ScopePasses(decls: seq<Stmt>, st: St, cfg: Cfg): (r: Result<St, Exc>)
    ensures r.Success? ==> r.value.indent == st.indent
    ensures r.Success? && cfg.names == Restored ==> Keeps(st.varnames, r.value.varnames)
    decreases decls, 1
  {
    var lastInstance := |decls| > 0 && decls[|decls| - 1].Inst?;
    if lastInstance && CountInstances(decls) == 1 then
      ReturnPass(decls, st, cfg)
    else
      var bound :- BindPass(decls, st, [], cfg);
      var vars := bound.1;
      Success(if |vars| > 0 then Emit(EmitIndent(bound.0), ReturnLine(vars)) else bound.0)
  }

  /** The pass for a lone final instance: "return " before it. */
  function ReturnPass(ds: seq<Stmt>, st: St, cfg: Cfg): (r: Result<St, Exc>)
    ensures r.Success? ==> r.value.indent == st.indent
    ensures r.Success? && cfg.names == Restored ==> Keeps(st.varnames, r.value.varnames)
    decreases ds, 0
  {
    if |ds| == 0 then Success(st)
    else
      var st1 := EmitIndent(st);
      var st2 := if ds[0].Inst? then Emit(st1, "return ") else st1;
      var st3 :- VisitStmt(ds[0], st2, cfg);
      ReturnPass(ds[1..], st3, cfg)
  }

  /** The instances and loops of a scope, each bound to one variable. */
  function CountBound(ds: seq<Stmt>): nat
  {
    if |ds| == 0 then 0 else (if ds[0].Inst? || ds[0].For? then 1 else 0) + CountBound(ds[1..])
  }

  /** The pass that binds instances and loops to variables from
      getVariable, collecting them in order after vars. With restored
      module names the new variables are pairwise distinct and none of
      them was a recorded name when the pass began: in a module scope
      those include every name the dry run met. */
  function BindPass(ds: seq<Stmt>, st: St, vars: seq<string>, cfg: Cfg): (r: Result<(St, seq<string>), Exc>)
    ensures r.Success? ==> r.value.0.indent == st.indent
    ensures r.Success? ==> |r.value.1| == |vars| + CountBound(ds) && r.value.1[..|vars|] == vars
    ensures r.Success? && cfg.names == Restored ==>
              && Keeps(st.varnames, r.value.0.varnames)
              && FreshAfter(|vars|, r.value.1, st.varnames, r.value.0.varnames)
    decreases ds, 0
  {
    if |ds| == 0 then Success((st, vars))
    else
      var (st4, v) :- BindOne(ds[0], st, cfg);
      var vars2 := if v.Some? then vars + [v.value] else vars;
      var r :- BindPass(ds[1..], st4, vars2, cfg);
      assert r.1[..|vars|] == r.1[..|vars2|][..|vars|];
      if cfg.names == Restored then
        BindFresh(st, st4, vars, vars2, r.0, r.1);
        Success(r)
      else Success(r)
  }

  /** One declaration of the binding pass: an instance or loop gets a
      variable from getVariable, which it returns. */
  function BindOne(d: Stmt, st: St, cfg: Cfg): (r: Result<(St, Option<string>), Exc>)
    ensures r.Success? ==> r.value.0.indent == st.indent
    ensures r.Success? ==> (r.value.1.Some? <==> d.Inst? || d.For?)
    ensures r.Success? && cfg.names == Restored ==>
              && Keeps(st.varnames, r.value.0.varnames)
              && (r.value.1.Some? ==> r.value.1.value !in st.varnames && r.value.1.value in r.value.0.varnames)
    decreases d, 3
  {
    var st1 := EmitIndent(st);
    if d.Inst? || d.For? then
      var (a, v) :- GetVariable(st1);
      var st2 := if d.Inst? then Emit(a.(varname := v), v + "=")
                 else EmitIndent(Emit(a.(varname := v), v + "=union()\n"));
      assert v in st2.varnames;
      var st3 :- VisitStmt(d, st2, cfg);
      var st4 := if d.Inst? then Emit(st3, "\n") else st3;
      if cfg.names == Restored then
        InPrefix(v, st2.varnames, st4.varnames);
        Success((st4, Some(v)))
      else Success((st4, Some(v)))
    else
      var st3 :- VisitStmt(d, st1, cfg);
      Success((st3, None))
  }

  /** Membership survives extension. */
  lemma InPrefix(x: string, a: seq<string>, b: seq<string>)
    requires x in a && a <= b
    ensures x in b
  {
    var k :| 0 <= k < |a| && a[k] == x;
    assert b[k] == x;
  }

  /** The variables of all from position k on are pairwise distinct, none
      of them was recorded before, and all of them are recorded after. */
  predicate FreshAfter(k: nat, all: seq<string>, before: seq<string>, after: seq<string>)
  {
    && (forall i :: k <= i < |all| ==> all[i] !in before && all[i] in after)
    && (forall i, j :: k <= i < j < |all| ==> all[i] != all[j])
  }

  /** The step that makes BindPass's variables fresh: one new variable
      (or none) is added to the recorded names, then the rest of the pass
      adds only variables that were not recorded names. */
  lemma BindFresh(st: St, st4: St, vars: seq<string>, vars2: seq<string>, fin: St, all: seq<string>)
    requires vars2 == vars || (|vars2| == |vars| + 1 && vars2[..|vars|] == vars
                               && vars2[|vars|] !in st.varnames && vars2[|vars|] in st4.varnames)
    requires Keeps(st.varnames, st4.varnames) && Keeps(st4.varnames, fin.varnames)
    requires |all| >= |vars2| && all[..|vars2|] == vars2
    requires FreshAfter(|vars2|, all, st4.varnames, fin.varnames)
    ensures Keeps(st.varnames, fin.varnames)
    ensures FreshAfter(|vars|, all, st.varnames, fin.varnames)
  {
    forall x | x in st.varnames ensures x in st4.varnames {
      InPrefix(x, st.varnames, st4.varnames);
    }
    forall x | x in st4.varnames ensures x in fin.varnames {
      InPrefix(x, st4.varnames, fin.varnames);
    }
    if vars2 != vars {
      assert all[|vars|] == vars2[|vars|];
    }
  }

  /** visit(Script): the Python preamble, then the declarations. */
  function VisitScript(sc: Script, cfg: Cfg): Result<string, Exc>
  {
    var st := St("#!/usr/bin/python\n" + "import sys,os\n" + "from pyopenscad import *\n" + "\n", 0, [], "");
    var r :- VisitEach(sc.decls, st, false, cfg);
    Success(r.out)
  }

  // ---------------------------------------------------------------------
  // Properties
  // ---------------------------------------------------------------------

  /** Module imports are not implemented: a sequence of declarations
      with one among them fails. */
  lemma {:induction false} ImportFails(ss: seq<Stmt>, st: St, indentEach: bool, cfg: Cfg)
    ensures (exists k :: 0 <= k < |ss| && ss[k].ModuleImport?) ==> VisitEach(ss, st, indentEach, cfg).Failure?
    decreases |ss|
  {
    if exists k :: 0 <= k < |ss| && ss[k].ModuleImport? {
      var k :| 0 <= k < |ss| && ss[k].ModuleImport?;
      var st0 := if indentEach then EmitIndent(st) else st;
      if k > 0 && VisitStmt(ss[0], st0, cfg).Success? {
        assert ss[1..][k - 1].ModuleImport?;
        ImportFails(ss[1..], VisitStmt(ss[0], st0, cfg).value, indentEach, cfg);
      }
    }
  }

  /** So does any module scope or script holding one at its top level. */
  lemma ImportFailsScope(ss: seq<Stmt>, st: St, cfg: Cfg)
    ensures (exists k :: 0 <= k < |ss| && ss[k].ModuleImport?) ==> ModuleScope(ss, st, cfg).Failure?
    ensures (exists k :: 0 <= k < |ss| && ss[k].ModuleImport?) ==> VisitScript(Script(ss), cfg).Failure?
  {
    var pre := St("#!/usr/bin/python\n" + "import sys,os\n" + "from pyopenscad import *\n" + "\n", 0, [], "");
    ImportFails(ss, st.(indent := st.indent + 1), false, cfg);
    ImportFails(ss, pre, false, cfg);
  }

  /** A number format standing for QString::number; these examples print
      no computed numbers. */
  function NoFormat(x: real): string { "" }

  function Cube(): Stmt { Inst(Default, "", "cube", [], []) }

  /** sphere(r=a). */
  function SphereOfA(): Stmt
  {
    Inst(Default, "", "sphere", [Argument(Some(Variable("r", Normal)), VariableRef(Variable("a", Normal)))], [])
  }

  /** module m() { a=1; module n() {} cube(); sphere(r=a); } */
  function NestedModule(): Stmt
  {
    ModuleDef("m", [], [Assign(Some(Variable("a", Normal)), Equal, Some(Literal(NumberLit(1.0, "1")))),
                        ModuleDef("n", [], []), Cube(), SphereOfA()])
  }

  lemma IndentOne()
    ensures TreePrinter.Indent(0) == "" && TreePrinter.Indent(1) == "  "
  {
    assert Repeat(' ', 2) == [' '] + Repeat(' ', 1);
  }

  lemma CubeVisit(st: St, cfg: Cfg)
    ensures VisitStmt(Cube(), st, cfg) == Success(Emit(st, "cube()"))
  {
    var c := Cube();
    var st1 := Emit(EmitArgs(Emit(st, "cube" + "("), [], cfg.fmt), ")");
    assert VisitStmt(c, st, cfg) == Success(st1);
    assert "cube" + "(" == "cube(";
    assert PyArgs([], cfg.fmt) == "";
    assert ArgsNames([]) == [];
    assert st.varnames + [] == st.varnames;
    assert st.out + "cube(" + "" + ")" == st.out + "cube()";
    assert st1 == Emit(st, "cube()");
  }

  lemma SphereVisit(st: St, cfg: Cfg)
    ensures VisitStmt(SphereOfA(), st, cfg) == Success(St(st.out + "sphere(r=a)", st.indent, st.varnames + ["r", "a"], st.varname))
  {
    var args := [Argument(Some(Variable("r", Normal)), VariableRef(Variable("a", Normal)))];
    assert PyArg(args[0], cfg.fmt) == "r=a";
    assert PyArgs(args, cfg.fmt) == "r=a";
    assert ArgsNames(args) == ["r", "a"];
    assert "sphere" + "(" == "sphere(";
    assert st.out + "sphere(" + "r=a" + ")" == st.out + "sphere(r=a)";
  }

  lemma AssignVisit(st: St, cfg: Cfg)
    ensures VisitStmt(NestedModule().body[0], st, cfg) == Success(St(st.out + "a=1\n", st.indent, st.varnames + ["a"], st.varname))
  {
    assert PyLiteral(NumberLit(1.0, "1")) == "1";
    assert ExprNames(Literal(NumberLit(1.0, "1"))) == [];
    assert st.varnames + ["a"] + [] == st.varnames + ["a"];
    assert st.out + "a" + "=" + "1" + "\n" == st.out + "a=1\n";
  }

  lemma EmptyModuleVisit(st: St, cfg: Cfg)
    ensures VisitStmt(ModuleDef("n", [], []), st, cfg)
            == Success(St(st.out + "def n():\n\n\n", st.indent, if cfg.names == Restored then st.varnames else [], st.varname))
  {
    assert PyParams([], cfg.fmt) == "";
    assert "def " + "n" + "(" == "def n(";
    var st2 := St(st.out + "def n(" + "" + "):\n", st.indent, [], st.varname);
    assert ParamsNames([]) == [];
    var none: seq<string> := [];
    assert none + none == none;
    assert ModuleScope([], st2, cfg) == Success(st2);
    assert st.out + "def n(" + "" + "):\n" + "\n\n" == st.out + "def n():\n\n\n";
  }

  /** A module whose only declaration is an instance returns it. */
  lemma SingleInstanceReturned(names: ModuleNames)
    ensures VisitStmt(ModuleDef("m", [], [Cube()]), St("", 0, [], ""), Cfg(NoFormat, names))
            == Success(St("def m():\n  return cube()\n\n", 0, [], ""))
  {
    var cfg := Cfg(NoFormat, names);
    var st0 := St("", 0, [], "");
    assert "def " + "m" + "(" == "def m(";
    assert PyParams([], NoFormat) == "";
    assert ParamsNames([]) == [];
    assert "" + "def m(" == "def m(";
    var st2 := St("def m(" + "" + "):\n", 0, [] + [], "");
    assert st2 == Emit(EmitParams(Emit(st0.(varnames := []), "def " + "m" + "("), [], NoFormat), "):\n");
    var s1 := St("def m():\n", 1, [], "");
    assert st2.(indent := 1) == s1;
    CubeVisit(s1, cfg);
    assert VisitEach([Cube()], s1, false, cfg) == Success(Emit(s1, "cube()"));
    assert CountInstances([Cube()]) == 1;
    IndentOne();
    CubeVisit(Emit(Emit(s1, "  "), "return "), cfg);
    var fin := Emit(Emit(Emit(s1, "  "), "return "), "cube()");
    assert ReturnPass([Cube()], s1, cfg) == Success(fin);
    assert ModuleScope([Cube()], st2, cfg) == Success(fin.(indent := 0));
    assert "def m():\n" + "  " + "return " + "cube()" + "\n\n" == "def m():\n  return cube()\n\n";
  }

  /** getVariable hands out the first free letter. */
  lemma GetVariableIs(st: St, c: char)
    requires 'a' <= c <= 'y' && [c] !in st.varnames
    requires forall d :: 'a' <= d < c ==> [d] in st.varnames
    ensures GetVariable(st) == Success((st.(varnames := st.varnames + [[c]]), [c]))
  {
    var r := GetVariable(st);
    assert r.Success?;
    var v := r.value.1;
    assert v == [v[0]];
    assert v[0] == c;
  }

  /** One step of a sequence of visits. */
  lemma EachStep(ss: seq<Stmt>, st: St, cfg: Cfg, next: St)
    requires |ss| > 0 && VisitStmt(ss[0], st, cfg) == Success(next)
    ensures VisitEach(ss, st, false, cfg) == VisitEach(ss[1..], next, false, cfg)
  {
  }

  /** The names the dry run of the nested example leaves behind. */
  function DryNames(names: ModuleNames): seq<string>
  {
    if names == Restored then ["a", "r", "a"] else ["r", "a"]
  }

  lemma NestedDryRun(b: seq<Stmt>, cfg: Cfg)
    requires |b| == 4 && b[0] == NestedModule().body[0] && b[1] == ModuleDef("n", [], [])
    requires b[2] == Cube() && b[3] == SphereOfA()
    ensures VisitEach(b, St("def m():\n", 1, [], ""), false, cfg)
            == Success(St("def m():\n" + "a=1\n" + "def n():\n\n\n" + "cube()" + "sphere(r=a)", 1, DryNames(cfg.names), ""))
  {
    var s2 := St("def m():\n" + "a=1\n" + "def n():\n\n\n", 1, if cfg.names == Restored then ["a"] else [], "");
    NestedDryHead(b, cfg);
    NestedDryTail(b[2..], cfg, s2);
    assert s2.varnames + ["r", "a"] == DryNames(cfg.names);
  }

  /** The dry run over the assignment and the empty module. */
  lemma NestedDryHead(b: seq<Stmt>, cfg: Cfg)
    requires |b| == 4 && b[0] == NestedModule().body[0] && b[1] == ModuleDef("n", [], [])
    ensures VisitEach(b, St("def m():\n", 1, [], ""), false, cfg)
            == VisitEach(b[2..], St("def m():\n" + "a=1\n" + "def n():\n\n\n", 1, if cfg.names == Restored then ["a"] else [], ""), false, cfg)
  {
    var s0 := St("def m():\n", 1, [], "");
    AssignVisit(s0, cfg);
    var s1 := St(s0.out + "a=1\n", 1, ["a"], "");
    assert [] + ["a"] == ["a"];
    EachStep(b, s0, cfg, s1);
    EmptyModuleVisit(s1, cfg);
    var s2 := St(s1.out + "def n():\n\n\n", 1, if cfg.names == Restored then ["a"] else [], "");
    EachStep(b[1..], s1, cfg, s2);
    assert b[1..][1..] == b[2..];
  }

  /** The dry run over the two instances. */
  lemma NestedDryTail(b: seq<Stmt>, cfg: Cfg, s2: St)
    requires |b| == 2 && b[0] == Cube() && b[1] == SphereOfA()
    ensures VisitEach(b, s2, false, cfg)
            == Success(St(s2.out + "cube()" + "sphere(r=a)", s2.indent, s2.varnames + ["r", "a"], s2.varname))
  {
    CubeVisit(s2, cfg);
    var s3 := Emit(s2, "cube()");
    EachStep(b, s2, cfg, s3);
    SphereVisit(s3, cfg);
    var s4 := St(s3.out + "sphere(r=a)", s2.indent, s3.varnames + ["r", "a"], s2.varname);
    EachStep(b[1..], s3, cfg, s4);
    assert b[1..][1..] == [];
  }

  /** One step of the binding pass. */
  lemma BindStep(ds: seq<Stmt>, st: St, vars: seq<string>, cfg: Cfg, next: St, v: Option<string>)
    requires |ds| > 0 && BindOne(ds[0], st, cfg) == Success((next, v))
    ensures BindPass(ds, st, vars, cfg) == BindPass(ds[1..], next, if v.Some? then vars + [v.value] else vars, cfg)
  {
  }

  lemma BindAssign(st: St, cfg: Cfg)
    requires st.indent == 1
    ensures BindOne(NestedModule().body[0], st, cfg)
            == Success((St(st.out + "  a=1\n", 1, st.varnames + ["a"], st.varname), None))
  {
    IndentOne();
    AssignVisit(EmitIndent(st), cfg);
    var st1 := EmitIndent(st);
    BindOther(NestedModule().body[0], st, cfg, St(st1.out + "a=1\n", st1.indent, st1.varnames + ["a"], st1.varname));
    assert st.out + "  " + "a=1\n" == st.out + "  a=1\n";
  }

  lemma BindEmptyModule(st: St, cfg: Cfg)
    requires st.indent == 1
    ensures BindOne(ModuleDef("n", [], []), st, cfg)
            == Success((St(st.out + "  def n():\n\n\n", 1, if cfg.names == Restored then st.varnames else [], st.varname), None))
  {
    IndentOne();
    EmptyModuleVisit(EmitIndent(st), cfg);
    var st1 := EmitIndent(st);
    BindOther(ModuleDef("n", [], []), st, cfg,
              St(st1.out + "def n():\n\n\n", st1.indent, if cfg.names == Restored then st1.varnames else [], st1.varname));
    assert st.out + "  " + "def n():\n\n\n" == st.out + "  def n():\n\n\n";
  }

  /** An instance in the binding pass: the first free letter, "=", the
      call and a newline. */
  lemma BindInstance(d: Stmt, st: St, cfg: Cfg, c: char, st3: St)
    requires d.Inst? && 'a' <= c <= 'y' && [c] !in st.varnames
    requires forall e :: 'a' <= e < c ==> [e] in st.varnames
    requires VisitStmt(d, Emit(EmitIndent(st).(varnames := st.varnames + [[c]], varname := [c]), [c] + "="), cfg) == Success(st3)
    ensures BindOne(d, st, cfg) == Success((Emit(st3, "\n"), Some([c])))
  {
    GetVariableIs(EmitIndent(st), c);
  }

  /** An instance at indent level one whose call writes the text call
      and records names: its line is two spaces, the letter, "=", the
      call and a newline. */
  lemma BindLine(d: Stmt, st: St, cfg: Cfg, c: char, call: string, names: seq<string>, tail: string)
    requires d.Inst? && st.indent == 1 && 'a' <= c <= 'y' && [c] !in st.varnames
    requires forall e :: 'a' <= e < c ==> [e] in st.varnames
    requires var st2 := Emit(EmitIndent(st).(varnames := st.varnames + [[c]], varname := [c]), [c] + "=");
      VisitStmt(d, st2, cfg) == Success(St(st2.out + call, st2.indent, st2.varnames + names, st2.varname))
    requires tail == "=" + call + "\n"
    ensures BindOne(d, st, cfg) == Success((St(st.out + ("  " + [c] + tail), 1, st.varnames + [[c]] + names, [c]), Some([c])))
  {
    var st2 := Emit(EmitIndent(st).(varnames := st.varnames + [[c]], varname := [c]), [c] + "=");
    BindInstance(d, st, cfg, c, St(st2.out + call, st2.indent, st2.varnames + names, st2.varname));
    LineState(st, c, call, names, tail);
  }

  /** The state after a bound line at indent level one. */
  lemma LineState(st: St, c: char, call: string, names: seq<string>, tail: string)
    requires st.indent == 1 && tail == "=" + call + "\n"
    ensures var st2 := Emit(EmitIndent(st).(varnames := st.varnames + [[c]], varname := [c]), [c] + "=");
      Emit(St(st2.out + call, st2.indent, st2.varnames + names, st2.varname), "\n")
      == St(st.out + ("  " + [c] + tail), 1, st.varnames + [[c]] + names, [c])
  {
    IndentOne();
    assert st.out + "  " + ([c] + "=") + call + "\n" == st.out + ("  " + [c] + tail);
  }

  /** A declaration that binds no variable is visited as it stands. */
  lemma BindOther(d: Stmt, st: St, cfg: Cfg, st3: St)
    requires !d.Inst? && !d.For?
    requires VisitStmt(d, EmitIndent(st), cfg) == Success(st3)
    ensures BindOne(d, st, cfg) == Success((st3, None))
  {
  }

  /** The tails of the two bound lines of the nested example. */
  lemma CallTails()
    ensures "=cube()\n" == "=" + "cube()" + "\n" && "=sphere(r=a)\n" == "=" + "sphere(r=a)" + "\n"
  {
  }

  lemma BindCube(st: St, cfg: Cfg, c: char)
    requires st.indent == 1
    requires 'a' <= c <= 'y' && [c] !in st.varnames
    requires forall d :: 'a' <= d < c ==> [d] in st.varnames
    ensures BindOne(Cube(), st, cfg)
            == Success((St(st.out + ("  " + [c] + "=cube()\n"), 1, st.varnames + [[c]], [c]), Some([c])))
  {
    var st2 := Emit(EmitIndent(st).(varnames := st.varnames + [[c]], varname := [c]), [c] + "=");
    CubeVisit(st2, cfg);
    var none: seq<string> := [];
    assert st2.varnames + none == st2.varnames;
    assert st.varnames + [[c]] + none == st.varnames + [[c]];
    CallTails();
    BindLine(Cube(), st, cfg, c, "cube()", none, "=cube()\n");
  }

  lemma BindSphere(st: St, cfg: Cfg, c: char)
    requires st.indent == 1
    requires 'a' <= c <= 'y' && [c] !in st.varnames
    requires forall d :: 'a' <= d < c ==> [d] in st.varnames
    ensures BindOne(SphereOfA(), st, cfg)
            == Success((St(st.out + ("  " + [c] + "=sphere(r=a)\n"), 1, st.varnames + [[c]] + ["r", "a"], [c]), Some([c])))
  {
    var st2 := Emit(EmitIndent(st).(varnames := st.varnames + [[c]], varname := [c]), [c] + "=");
    SphereVisit(st2, cfg);
    CallTails();
    BindLine(SphereOfA(), st, cfg, c, "sphere(r=a)", ["r", "a"], "=sphere(r=a)\n");
  }

  /** The nested example's module definition, from its scope's result. */
  lemma ModuleDefVisit(name: string, body: seq<Stmt>, st: St, cfg: Cfg, fin: St)
    requires ModuleScope(body, St(st.out + ("def " + name + "(") + "" + "):\n", st.indent, [], st.varname), cfg) == Success(fin)
    ensures VisitStmt(ModuleDef(name, [], body), st, cfg)
            == Success(Emit(if cfg.names == Restored then fin.(varnames := st.varnames) else fin, "\n\n"))
  {
    assert PyParams([], cfg.fmt) == "";
    assert ParamsNames([]) == [];
    var none: seq<string> := [];
    assert none + none == none;
    var st2 := St(st.out + ("def " + name + "(") + "" + "):\n", st.indent, [], st.varname);
    assert st2 == Emit(EmitParams(Emit(st.(varnames := []), "def " + name + "("), [], cfg.fmt), "):\n");
    assert VisitModule(name, [], body, st, cfg)
           == Success(Emit(if cfg.names == Restored then fin.(varnames := st.varnames) else fin, "\n\n"));
  }

  /** The binding pass of the nested example, over its two instances. */
  lemma NestedBindTail(b: seq<Stmt>, cfg: Cfg, x: char, y: char, s2: St, s3: St)
    requires |b| == 2 && b[0] == Cube() && b[1] == SphereOfA() && s2.indent == 1
    requires 'a' <= x <= 'y' && [x] !in s2.varnames && forall d :: 'a' <= d < x ==> [d] in s2.varnames
    requires s3 == St(s2.out + ("  " + [x] + "=cube()\n"), 1, s2.varnames + [[x]], [x])
    requires 'a' <= y <= 'y' && [y] !in s3.varnames && forall d :: 'a' <= d < y ==> [d] in s3.varnames
    ensures BindPass(b, s2, [], cfg)
            == Success((St(s3.out + ("  " + [y] + "=sphere(r=a)\n"), 1, s3.varnames + [[y]] + ["r", "a"], [y]), [[x], [y]]))
  {
    BindCubeStep(b, cfg, x, s2, s3);
    BindSphereLast(b[1..], cfg, y, [[x]], s3);
    assert [[x]] + [[y]] == [[x], [y]];
  }

  /** The cube at the head of the pass binds the next free letter. */
  lemma BindCubeStep(b: seq<Stmt>, cfg: Cfg, x: char, s2: St, s3: St)
    requires |b| > 0 && b[0] == Cube() && s2.indent == 1
    requires 'a' <= x <= 'y' && [x] !in s2.varnames && forall d :: 'a' <= d < x ==> [d] in s2.varnames
    requires s3 == St(s2.out + ("  " + [x] + "=cube()\n"), 1, s2.varnames + [[x]], [x])
    ensures BindPass(b, s2, [], cfg) == BindPass(b[1..], s3, [[x]], cfg)
  {
    BindCube(s2, cfg, x);
    assert [] + [[x]] == [[x]];
    BindStep(b, s2, [], cfg, s3, Some([x]));
  }

  /** A pass whose only declaration is the sphere binds it and ends. */
  lemma BindSphereLast(b: seq<Stmt>, cfg: Cfg, y: char, vars: seq<string>, s3: St)
    requires b == [SphereOfA()] && s3.indent == 1
    requires 'a' <= y <= 'y' && [y] !in s3.varnames && forall d :: 'a' <= d < y ==> [d] in s3.varnames
    ensures BindPass(b, s3, vars, cfg)
            == Success((St(s3.out + ("  " + [y] + "=sphere(r=a)\n"), 1, s3.varnames + [[y]] + ["r", "a"], [y]), vars + [[y]]))
  {
    BindSphere(s3, cfg, y);
    var s4 := St(s3.out + ("  " + [y] + "=sphere(r=a)\n"), 1, s3.varnames + [[y]] + ["r", "a"], [y]);
    BindStep(b, s3, vars, cfg, s4, Some([y]));
    assert b[1..] == [];
  }

  /** The binding pass of the nested example, over its first two
      declarations. */
  lemma NestedBindHead(b: seq<Stmt>, cfg: Cfg, st: St, s2: St)
    requires |b| == 4 && b[0] == NestedModule().body[0] && b[1] == ModuleDef("n", [], []) && st.indent == 1
    requires var s1 := St(st.out + "  a=1\n", 1, st.varnames + ["a"], st.varname);
             s2 == St(s1.out + "  def n():\n\n\n", 1, if cfg.names == Restored then s1.varnames else [], s1.varname)
    ensures BindPass(b, st, [], cfg) == BindPass(b[2..], s2, [], cfg)
  {
    var s1 := St(st.out + "  a=1\n", 1, st.varnames + ["a"], st.varname);
    BindAssign(st, cfg);
    BindStep(b, st, [], cfg, s1, None);
    BindEmptyModule(s1, cfg);
    assert b[1..][0] == b[1] && b[1..][1..] == b[2..];
    BindStep(b[1..], s1, [], cfg, s2, None);
  }

  /** A module scope that takes the binding pass. */
  lemma ScopeByBinding(decls: seq<Stmt>, st: St, cfg: Cfg, dry: St, st3: St, vars: seq<string>)
    requires VisitEach(decls, st.(indent := st.indent + 1), false, cfg) == Success(dry)
    requires CountInstances(decls) != 1
    requires BindPass(decls, dry.(out := st.out), [], cfg) == Success((st3, vars))
    ensures ModuleScope(decls, st, cfg)
            == Success(BindingResult(st3, vars).(indent := st.indent))
  {
    var st1 := st.(indent := st.indent + 1);
    PassesByBinding(decls, dry.(out := st.out), cfg, st3, vars);
    AfterDryRun(decls, st1, dry, cfg, BindingResult(st3, vars));
  }

  /** What the binding pass leaves: the return line when it bound any
      variable. */
  function BindingResult(st3: St, vars: seq<string>): St
  {
    if |vars| > 0 then Emit(EmitIndent(st3), ReturnLine(vars)) else st3
  }

  lemma AfterDryRun(decls: seq<Stmt>, st1: St, dry: St, cfg: Cfg, fin: St)
    requires st1.indent > 0 && dry.indent == st1.indent
    requires cfg.names == Restored ==> Keeps(st1.varnames, dry.varnames)
    requires ScopePasses(decls, dry.(out := st1.out), cfg) == Success(fin)
    ensures ScopeAfterDryRun(decls, st1, Success(dry), cfg) == Success(fin.(indent := st1.indent - 1))
  {
  }

  /** The real pass of a scope whose instances are not a lone final one
      binds them and returns the variables. */
  lemma PassesByBinding(decls: seq<Stmt>, st: St, cfg: Cfg, st3: St, vars: seq<string>)
    requires CountInstances(decls) != 1
    requires BindPass(decls, st, [], cfg) == Success((st3, vars))
    ensures ScopePasses(decls, st, cfg) == Success(BindingResult(st3, vars))
  {
  }

  lemma HeaderOfM()
    ensures "" + ("def " + "m" + "(") + "" + "):\n" == "def m():\n"
  {
    assert "def " + "m" + "(" == "def m(";
  }

  /** The nested example's module scope. */
  lemma NestedScope(b: seq<Stmt>, cfg: Cfg, x: char, y: char, s2: St, s3: St)
    requires |b| == 4 && b[0] == NestedModule().body[0] && b[1] == ModuleDef("n", [], [])
    requires b[2] == Cube() && b[3] == SphereOfA()
    requires s2 == St("def m():\n" + "  a=1\n" + "  def n():\n\n\n", 1,
                      if cfg.names == Restored then DryNames(cfg.names) + ["a"] else [], "")
    requires 'a' <= x <= 'y' && [x] !in s2.varnames && forall d :: 'a' <= d < x ==> [d] in s2.varnames
    requires s3 == St(s2.out + ("  " + [x] + "=cube()\n"), 1, s2.varnames + [[x]], [x])
    requires 'a' <= y <= 'y' && [y] !in s3.varnames && forall d :: 'a' <= d < y ==> [d] in s3.varnames
    ensures ModuleScope(b, St("def m():\n", 0, [], ""), cfg)
            == Success(St(s3.out + ("  " + [y] + "=sphere(r=a)\n") + ("  " + ("return " + "union()(" + ([x] + "," + [y]) + ")\n")),
                          0, s3.varnames + [[y]] + ["r", "a"], [y]))
  {
    NestedDryRun(b, cfg);
    var dry := St("def m():\n" + "a=1\n" + "def n():\n\n\n" + "cube()" + "sphere(r=a)", 1, DryNames(cfg.names), "");
    var st := dry.(out := "def m():\n");
    var s4 := St(s3.out + ("  " + [y] + "=sphere(r=a)\n"), 1, s3.varnames + [[y]] + ["r", "a"], [y]);
    NestedBindAll(b, cfg, x, y, st, s2, s3);
    NestedCount(b);
    ScopeByBinding(b, St("def m():\n", 0, [], ""), cfg, dry, s4, [[x], [y]]);
    NestedReturnLine(s4.out, x, y);
  }

  lemma NestedCount(b: seq<Stmt>)
    requires |b| == 4 && b[0] == NestedModule().body[0] && b[1] == ModuleDef("n", [], [])
    requires b[2] == Cube() && b[3] == SphereOfA()
    ensures CountInstances(b) == 2
  {
    assert CountInstances(b[3..]) == 1;
    assert CountInstances(b[2..]) == 2;
  }

  lemma NestedReturnLine(prefix: string, x: char, y: char)
    ensures prefix + TreePrinter.Indent(1) + ReturnLine([[x], [y]])
            == prefix + ("  " + ("return " + "union()(" + ([x] + "," + [y]) + ")\n"))
  {
    assert Join([[x], [y]], ",") == [x] + "," + [y];
    IndentOne();
  }

  /** The whole binding pass of the nested example. */
  lemma NestedBindAll(b: seq<Stmt>, cfg: Cfg, x: char, y: char, st: St, s2: St, s3: St)
    requires |b| == 4 && b[0] == NestedModule().body[0] && b[1] == ModuleDef("n", [], [])
    requires b[2] == Cube() && b[3] == SphereOfA() && st.indent == 1
    requires st.out == "def m():\n" && st.varnames == DryNames(cfg.names) && st.varname == ""
    requires s2 == St("def m():\n" + "  a=1\n" + "  def n():\n\n\n", 1,
                      if cfg.names == Restored then DryNames(cfg.names) + ["a"] else [], "")
    requires 'a' <= x <= 'y' && [x] !in s2.varnames && forall d :: 'a' <= d < x ==> [d] in s2.varnames
    requires s3 == St(s2.out + ("  " + [x] + "=cube()\n"), 1, s2.varnames + [[x]], [x])
    requires 'a' <= y <= 'y' && [y] !in s3.varnames && forall d :: 'a' <= d < y ==> [d] in s3.varnames
    ensures BindPass(b, st, [], cfg)
            == Success((St(s3.out + ("  " + [y] + "=sphere(r=a)\n"), 1, s3.varnames + [[y]] + ["r", "a"], [y]), [[x], [y]]))
  {
    assert "def m():\n" + "  a=1\n" == st.out + "  a=1\n";
    NestedBindHead(b, cfg, st, s2);
    NestedBindTail(b[2..], cfg, x, y, s2, s3);
  }

  /** The nested example's whole text, for the letters the binding pass
      hands out. */
  lemma NestedModuleText(cfg: Cfg, x: char, y: char, s2: St, s3: St)
    requires s2 == St("def m():\n" + "  a=1\n" + "  def n():\n\n\n", 1,
                      if cfg.names == Restored then DryNames(cfg.names) + ["a"] else [], "")
    requires 'a' <= x <= 'y' && [x] !in s2.varnames && forall d :: 'a' <= d < x ==> [d] in s2.varnames
    requires s3 == St(s2.out + ("  " + [x] + "=cube()\n"), 1, s2.varnames + [[x]], [x])
    requires 'a' <= y <= 'y' && [y] !in s3.varnames && forall d :: 'a' <= d < y ==> [d] in s3.varnames
    ensures VisitStmt(NestedModule(), St("", 0, [], ""), cfg).Success?
    ensures VisitStmt(NestedModule(), St("", 0, [], ""), cfg).value.out
            == s3.out + ("  " + [y] + "=sphere(r=a)\n") + ("  " + ("return " + "union()(" + ([x] + "," + [y]) + ")\n")) + "\n\n"
  {
    var body := NestedModule().body;
    NestedScope(body, cfg, x, y, s2, s3);
    HeaderOfM();
    var out := s3.out + ("  " + [y] + "=sphere(r=a)\n") + ("  " + ("return " + "union()(" + ([x] + "," + [y]) + ")\n"));
    ModuleDefVisit("m", body, St("", 0, [], ""), cfg, St(out, 0, s3.varnames + [[y]] + ["r", "a"], [y]));
  }

  /** The three lines the binding pass writes for the letters a and b. */
  lemma LinesAB()
    ensures "  " + ['a'] + "=cube()\n" == "  a=cube()\n" && "  " + ['b'] + "=sphere(r=a)\n" == "  b=sphere(r=a)\n"
    ensures "  " + ("return " + "union()(" + (['a'] + "," + ['b']) + ")\n") == "  return union()(a,b)\n"
  {
  }

  /** The three lines the binding pass writes for the letters b and c. */
  lemma LinesBC()
    ensures "  " + ['b'] + "=cube()\n" == "  b=cube()\n" && "  " + ['c'] + "=sphere(r=a)\n" == "  c=sphere(r=a)\n"
    ensures "  " + ("return " + "union()(" + (['b'] + "," + ['c']) + ")\n") == "  return union()(b,c)\n"
  {
  }

  /** The letters before 'b' are recorded once "a" is. */
  lemma BelowB(vs: seq<string>)
    requires "a" in vs
    ensures forall d :: 'a' <= d < 'b' ==> [d] in vs
  {
    forall d | 'a' <= d < 'b' ensures [d] in vs {
      assert [d] == "a";
    }
  }

  /** The letters before 'c' are recorded once "a" and "b" are. */
  lemma BelowC(vs: seq<string>)
    requires "a" in vs && "b" in vs
    ensures forall d :: 'a' <= d < 'c' ==> [d] in vs
  {
    forall d | 'a' <= d < 'c' ensures [d] in vs {
      assert [d] == "a" || [d] == "b";
    }
  }

  /** As written, the nested definition clears the names recorded for
      the enclosing module, so the binding pass hands out "a" again: the
      cube is bound to the variable the script assigned, and sphere(r=a)
      then receives the cube. */
  lemma NestedModuleRebindsAsWritten()
    ensures VisitStmt(NestedModule(), St("", 0, [], ""), Cfg(NoFormat, Cleared)).Success?
    ensures VisitStmt(NestedModule(), St("", 0, [], ""), Cfg(NoFormat, Cleared)).value.out
            == "def m():\n" + "  a=1\n" + "  def n():\n\n\n" + "  a=cube()\n" + "  b=sphere(r=a)\n"
               + "  return union()(a,b)\n" + "\n\n"
  {
    var cfg := Cfg(NoFormat, Cleared);
    var s2 := St("def m():\n" + "  a=1\n" + "  def n():\n\n\n", 1, [], "");
    var s3 := St(s2.out + ("  " + ['a'] + "=cube()\n"), 1, [['a']], ['a']);
    BelowB(s3.varnames);
    NestedModuleText(cfg, 'a', 'b', s2, s3);
    LinesAB();
  }

  /** With the names restored after a definition, the binding pass keeps
      clear of "a". */
  lemma NestedModuleFreshCorrected()
    ensures VisitStmt(NestedModule(), St("", 0, [], ""), Cfg(NoFormat, Restored)).Success?
    ensures VisitStmt(NestedModule(), St("", 0, [], ""), Cfg(NoFormat, Restored)).value.out
            == "def m():\n" + "  a=1\n" + "  def n():\n\n\n" + "  b=cube()\n" + "  c=sphere(r=a)\n"
               + "  return union()(b,c)\n" + "\n\n"
  {
    var cfg := Cfg(NoFormat, Restored);
    var s2 := St("def m():\n" + "  a=1\n" + "  def n():\n\n\n", 1, ["a", "r", "a", "a"], "");
    var s3 := St(s2.out + ("  " + ['b'] + "=cube()\n"), 1, s2.varnames + [['b']], ['b']);
    assert s2.varnames[0] == "a" && s3.varnames[4] == "b";
    BelowB(s2.varnames);
    BelowC(s3.varnames);
    NestedModuleText(cfg, 'b', 'c', s2, s3);
    LinesBC();
  }
}
