/** The pretty printer that writes a syntax tree back as RapCAD source
    (src/treeprinter.cpp). Each visit becomes a function; the printer's
    indent counter is threaded through the statement printers so that the
    level every visit leaves behind can be stated. */
module TreePrinter {
  import opened Wrappers
  import opened Text
  import opened Operators
  import opened Syntax

  /** createIndent: two spaces per level. */
  function Indent(n: nat): (s: string)
    ensures |s| == 2 * n && forall i :: 0 <= i < |s| ==> s[i] == ' '
  {
    Repeat(' ', 2 * n)
  }

  /** The modifier written before an instance. */
  function Modifier(k: InstanceType): (s: string)
    ensures k == Default <==> s == ""
    ensures |s| <= 1
  {
    match k
    case Root => "!"
    case Debug => "#"
    case Background => "%"
    case Disable => "*"
    case Default => ""
  }

  /** Reading the modifier back from the first character of the output. */
  function ModifierOf(c: char): InstanceType
  {
    if c == '!' then Root
    else if c == '#' then Debug
    else if c == '%' then Background
    else if c == '*' then Disable
    else Default
  }

  /** "ns::" for a non-empty namespace, nothing otherwise. */
  function Qualifier(ns: string): (s: string)
    ensures ns == "" <==> s == ""
    ensures ns != "" ==> IsPrefix(ns, s) && s[|ns|..] == "::"
  {
    if ns == "" then "" else ns + "::"
  }

  function PrintVariable(v: Variable): (s: string)
    ensures v.storage == Const ==> IsPrefix("const ", s)
    ensures v.storage == Param ==> IsPrefix("param ", s)
    ensures v.storage == Special ==> s == "$" + v.name
    ensures v.storage == Normal ==> s == v.name
  {
    (match v.storage
     case Const => "const "
     case Param => "param "
     case _ => "")
    + (if v.storage == Special then "$" else "") + v.name
  }

  function PrintExpr(e: Expr): string
    decreases e
  {
    match e
    case Literal(v) => ValueString(v)
    case VariableRef(v) => PrintVariable(v)
    case Binary(l, op, r) => "(" + PrintExpr(l) + OpString(op) + PrintExpr(r) + ")"
    case Unary(op, x, post) => if post then PrintExpr(x) + OpString(op) else OpString(op) + PrintExpr(x)
    case Ternary(c, t, f) => "(" + PrintExpr(c) + "?" + PrintExpr(t) + ":" + PrintExpr(f) + ")"
    case Vector(items) => "[" + Join(seq(|items|, i requires 0 <= i < |items| => PrintExpr(items[i])), ",") + "]"
    case Range(start, step, finish) =>
      "[" + PrintExpr(start) + ":" + (if step.Some? then PrintExpr(step.value) + ":" else "") + PrintExpr(finish) + "]"
    case Invocation(ns, name, args) => Qualifier(ns) + name + "(" + PrintArgs(args) + ")"
  }

  function PrintArg(a: Argument): string
    decreases a
  {
    (if a.variable.Some? then PrintVariable(a.variable.value) + "=" else "") + PrintExpr(a.expr)
  }

  /** Arguments separated by commas. */
  function PrintArgs(args: seq<Argument>): string
    decreases args
  {
    Join(seq(|args|, i requires 0 <= i < |args| => PrintArg(args[i])), ",")
  }

  function PrintParam(p: Parameter): string
  {
    p.name + (if p.default.Some? then "=" + PrintExpr(p.default.value) else "")
  }

  function PrintParams(ps: seq<Parameter>): string
  {
    Join(seq(|ps|, i requires 0 <= i < |ps| => PrintParam(ps[i])), ",")
  }

  /** Text written so far together with the indent level left behind. */
  datatype Out = Out(text: string, indent: nat)

  /** Each statement in turn, each preceded by the indent when asked. */
  function PrintEach(ss: seq<Stmt>, ind: nat, indentEach: bool): (r: Out)
    ensures r.indent == ind
    decreases ss, 0
  {
    if |ss| == 0 then Out("", ind)
    else
      var head := PrintStmt(ss[0], ind);
      var rest := PrintEach(ss[1..], head.indent, indentEach);
      Out((if indentEach then Indent(ind) else "") + head.text + rest.text, rest.indent)
  }

  /** The children of an instance or a compound statement: none is ";",
      one is printed inline, more are a braced block one level deeper. */
  function PrintChildren(children: seq<Stmt>, ind: nat): (r: Out)
    ensures r.indent == ind
    decreases children, 1
  {
    if |children| == 0 then Out(";", ind)
    else if |children| == 1 then PrintStmt(children[0], ind)
    else
      var inner := PrintEach(children, ind + 1, true);
      Out("{\n" + inner.text + Indent(inner.indent - 1) + "}", inner.indent - 1)
  }

  /** visit(FunctionScope): "=expr;" or a braced block, then a newline. */
  function PrintFunctionBody(b: FunctionBody, ind: nat): (r: Out)
    ensures r.indent == ind
    decreases b, 0
  {
    match b
    case ExprBody(e) => Out("=" + PrintExpr(e) + ";\n", ind)
    case Block(stmts) =>
      if |stmts| > 0 then
        var inner := PrintEach(stmts, ind + 1, true);
        Out("{\n" + inner.text + Indent(inner.indent - 1) + "}" + "\n", inner.indent - 1)
      else Out(";" + "\n", ind)
  }

  /** Every visit leaves the indent level where it found it. */
  function PrintStmt(s: Stmt, ind: nat): (r: Out)
    ensures r.indent == ind
    decreases s, 0
  {
    match s
    case ModuleDef(name, params, body) =>
      var inner := PrintEach(body, ind + 1, true);
      Out("module " + name + "(" + PrintParams(params) + "){\n" + inner.text + Indent(inner.indent - 1) + "}\n",
          inner.indent - 1)
    case FunctionDef(name, params, fbody) =>
      var b := PrintFunctionBody(fbody, ind);
      Out("function " + name + "(" + PrintParams(params) + ")" + b.text + "\n", b.indent)
    case Inst(kind, ns, name, args, children) =>
      var c := PrintChildren(children, ind);
      Out(Modifier(kind) + Qualifier(ns) + name + "(" + PrintArgs(args) + ")" + c.text + "\n", c.indent)
    case Compound(children) => PrintChildren(children, ind)
    case IfElse(cond, t, f) =>
      var tt := if t.Some? then PrintStmt(t.value, ind) else Out("", ind);
      var ff := if f.Some? then PrintStmt(f.value, tt.indent) else Out("", tt.indent);
      Out("if(" + PrintExpr(cond) + ")" + tt.text
          + (if f.Some? then "\n" + Indent(tt.indent) + "else " + ff.text else "") + "\n", ff.indent)
    case For(args, body) =>
      var b := PrintStmt(body, ind);
      Out("for(" + Concat(seq(|args|, i requires 0 <= i < |args| => PrintArg(args[i]))) + ")" + b.text + "\n", b.indent)
    case Assign(v, op, value) =>
      Out((if v.Some? then PrintVariable(v.value) else "")
          + (if op == Increment then "++"
             else if op == Decrement then "--"
             else "=" + (if value.Some? then PrintExpr(value.value) else ""))
          + ";\n", ind)
    case Return(e) => Out("return " + PrintExpr(e) + ";\n", ind)
    case ModuleImport(imp, name, params) =>
      Out("import <" + imp + ">" + (if name != "" then " as " + name else "")
          + (if |params| > 0 then "(" + PrintParams(params) + ")" else "") + ";\n", ind)
    case ScriptImport(imp, ns) =>
      Out("use <" + imp + ">" + (if ns != "" then " as " + ns + ";" else "") + "\n", ind)
  }

  /** The for-statement writes its arguments back to back. */
  function Concat(parts: seq<string>): string
  {
    if |parts| == 0 then "" else parts[0] + Concat(parts[1..])
  }

  /** visit(Script): the top-level declarations, unindented. */
  function PrintScript(sc: Script): string
  {
    PrintEach(sc.decls, 0, false).text
  }

  // ---------------------------------------------------------------------
  // Properties of the printed text
  // ---------------------------------------------------------------------

  /** The instance modifier can be read back from the first character,
      provided the name does not itself start with a modifier character. */
  lemma ModifierRoundTrip(kind: InstanceType, ns: string, name: string, args: seq<Argument>, children: seq<Stmt>, ind: nat)
    requires |name| > 0 && ModifierOf(name[0]) == Default
    requires ns != "" ==> ModifierOf(ns[0]) == Default
    ensures var t := PrintStmt(Inst(kind, ns, name, args, children), ind).text;
            |t| > 0 && ModifierOf(t[0]) == kind
  {
    var q := Qualifier(ns);
    if ns != "" {
      assert q[0] == ns[0];
    }
    InstanceLineFirst(kind, q, name, PrintArgs(args), PrintChildren(children, ind).text);
  }

  lemma InstanceLineFirst(kind: InstanceType, q: string, name: string, a: string, c: string)
    requires |name| > 0 && ModifierOf(name[0]) == Default
    requires q != "" ==> ModifierOf(q[0]) == Default
    ensures var t := Modifier(kind) + q + name + "(" + a + ")" + c + "\n";
            |t| > 0 && ModifierOf(t[0]) == kind
  {
    var t := Modifier(kind) + q + name + "(" + a + ")" + c + "\n";
    var rest := q + name + "(" + a + ")" + c + "\n";
    assert t == Modifier(kind) + rest;
    if kind == Default {
      if q != "" {
        assert rest[0] == q[0];
      } else {
        assert rest[0] == name[0];
      }
    } else {
      assert t[0] == Modifier(kind)[0];
    }
  }

  /** No children print as ";" and a single child inline. */
  lemma ChildrenShapes(children: seq<Stmt>, ind: nat)
    ensures |children| == 0 ==> PrintChildren(children, ind).text == ";"
    ensures |children| == 1 ==> PrintChildren(children, ind).text == PrintStmt(children[0], ind).text
  {
  }

  /** Several children form a braced block whose first line sits one
      level deeper and whose closing brace ends the text. */
  lemma ChildrenBlockShape(children: seq<Stmt>, ind: nat)
    requires |children| > 1
    ensures var t := PrintChildren(children, ind).text;
            IsPrefix("{\n" + Indent(ind + 1), t) && t[|t| - 1] == '}'
  {
    var inner := PrintEach(children, ind + 1, true);
    EachStartsWithIndent(children, ind + 1);
    BracedShape(Indent(ind + 1), inner.text, Indent(ind));
  }

  lemma EachStartsWithIndent(ss: seq<Stmt>, ind: nat)
    requires |ss| > 0
    ensures IsPrefix(Indent(ind), PrintEach(ss, ind, true).text)
  {
    var head := PrintStmt(ss[0], ind);
    var rest := PrintEach(ss[1..], ind, true);
    assert PrintEach(ss, ind, true).text == Indent(ind) + (head.text + rest.text);
    PrefixOfConcat(Indent(ind), head.text + rest.text);
  }

  lemma BracedShape(a: string, inner: string, b: string)
    requires IsPrefix(a, inner)
    ensures var t := "{\n" + inner + b + "}";
            IsPrefix("{\n" + a, t) && t[|t| - 1] == '}'
  {
    var t := "{\n" + inner + b + "}";
    assert t[..2 + |a|] == "{\n" + inner[..|a|];
  }

  /** An assignment always ends with ";\n"; increments and decrements
      print "++" or "--" straight after the variable and no value. */
  lemma AssignShape(v: Option<Variable>, op: Op, value: Option<Expr>, ind: nat)
    ensures var t := PrintStmt(Assign(v, op, value), ind).text;
            var lhs := if v.Some? then PrintVariable(v.value) else "";
            |t| >= 3 && t[|t| - 2..] == ";\n"
            && (op == Increment ==> t == lhs + "++;\n")
            && (op == Decrement ==> t == lhs + "--;\n")
            && (op != Increment && op != Decrement ==> IsPrefix(lhs + "=", t))
  {
    var lhs := if v.Some? then PrintVariable(v.value) else "";
    var rhs := if value.Some? then PrintExpr(value.value) else "";
    AssignLineShape(lhs, op, rhs);
  }

  lemma AssignLineShape(lhs: string, op: Op, rhs: string)
    ensures var t := lhs + (if op == Increment then "++" else if op == Decrement then "--" else "=" + rhs) + ";\n";
            |t| >= 3 && t[|t| - 2..] == ";\n"
            && (op == Increment ==> t == lhs + "++;\n")
            && (op == Decrement ==> t == lhs + "--;\n")
            && (op != Increment && op != Decrement ==> IsPrefix(lhs + "=", t))
  {
    if op != Increment && op != Decrement {
      var t := lhs + ("=" + rhs) + ";\n";
      assert t == (lhs + "=") + (rhs + ";\n");
    }
  }

  /** A script import carries " as ns;" exactly when namespaced, so its
      line ends with ";\n" iff the namespace is non-empty. */
  lemma ScriptImportShape(imp: string, ns: string, ind: nat)
    ensures var t := PrintStmt(ScriptImport(imp, ns), ind).text;
            IsPrefix("use <" + imp + ">", t)
            && (ns != "" <==> t[|t| - 2..] == ";\n")
  {
    var t := PrintStmt(ScriptImport(imp, ns), ind).text;
    var tail := (if ns != "" then " as " + ns + ";" else "") + "\n";
    assert t == ("use <" + imp + ">") + tail;
    PrefixOfConcat("use <" + imp + ">", tail);
    if ns != "" {
      assert t == ("use <" + imp + ">" + " as " + ns) + ";\n";
    } else {
      assert t == ("use <" + imp) + ">\n";
    }
  }

  /** A unary operator is written before its operand, or after it for a
      postfix operator. */
  lemma UnaryPlacement(op: Op, x: Expr, post: bool)
    ensures var t := PrintExpr(Unary(op, x, post));
            (post ==> t == PrintExpr(x) + OpString(op) && IsPrefix(PrintExpr(x), t))
            && (!post ==> IsPrefix(OpString(op), t) && t[|OpString(op)|..] == PrintExpr(x))
  {
  }

  /** A range shows its step, followed by a colon, only when it has one:
      two colons more than its parts when stepped, one otherwise. */
  lemma RangeColons(start: Expr, step: Option<Expr>, finish: Expr)
    ensures var t := PrintExpr(Range(start, step, finish));
            Count(t, ':') == Count(PrintExpr(start), ':') + Count(PrintExpr(finish), ':')
                             + (if step.Some? then Count(PrintExpr(step.value), ':') + 2 else 1)
  {
    var a, b := PrintExpr(start), PrintExpr(finish);
    var mid := if step.Some? then PrintExpr(step.value) + ":" else "";
    var t := PrintExpr(Range(start, step, finish));
    assert t == "[" + a + ":" + mid + b + "]";
    CountAppend("[" + a + ":" + mid + b, "]", ':');
    CountAppend("[" + a + ":" + mid, b, ':');
    CountAppend("[" + a + ":", mid, ':');
    CountAppend("[" + a, ":", ':');
    CountAppend("[", a, ':');
    if step.Some? {
      CountAppend(PrintExpr(step.value), ":", ':');
    }
    assert Count("[", ':') == 0 && Count("]", ':') == 0 && Count(":", ':') == 1 && Count("", ':') == 0;
  }

  // ---------------------------------------------------------------------
  // Parentheses balance
  // ---------------------------------------------------------------------

  predicate Balanced(s: string)
  {
    Count(s, '(') == Count(s, ')')
  }

  predicate NoParens(s: string)
  {
    '(' !in s && ')' !in s
  }

  lemma NoParensBalanced(s: string)
    requires NoParens(s)
    ensures Count(s, '(') == 0 && Count(s, ')') == 0
  {
    CountAbsent(s, '(');
    CountAbsent(s, ')');
  }

  /** Names and literal texts contain no parentheses. */
  predicate ParenFree(e: Expr)
    decreases e
  {
    match e
    case Literal(v) => NoParens(ValueString(v))
    case VariableRef(v) => NoParens(v.name)
    case Binary(l, _, r) => ParenFree(l) && ParenFree(r)
    case Unary(_, x, _) => ParenFree(x)
    case Ternary(c, t, f) => ParenFree(c) && ParenFree(t) && ParenFree(f)
    case Vector(items) => forall i :: 0 <= i < |items| ==> ParenFree(items[i])
    case Range(a, st, b) => ParenFree(a) && (st.Some? ==> ParenFree(st.value)) && ParenFree(b)
    case Invocation(ns, name, args) =>
      NoParens(ns) && NoParens(name) && forall i :: 0 <= i < |args| ==> ArgParenFree(args[i])
  }

  predicate ArgParenFree(a: Argument)
    decreases a
  {
    (a.variable.Some? ==> NoParens(a.variable.value.name)) && ParenFree(a.expr)
  }

  lemma Append2Balanced(a: string, b: string)
    requires Balanced(a) && Balanced(b)
    ensures Balanced(a + b)
  {
    CountAppend(a, b, '(');
    CountAppend(a, b, ')');
  }

  lemma {:induction false} JoinBalanced(parts: seq<string>, sep: string)
    requires forall i :: 0 <= i < |parts| ==> Balanced(parts[i])
    requires NoParens(sep)
    ensures Balanced(Join(parts, sep))
  {
    if |parts| > 1 {
      JoinBalanced(parts[1..], sep);
      AppendFree(parts[0], sep);
      Append2Balanced(parts[0] + sep, Join(parts[1..], sep));
    }
  }

  lemma Paren3(inner: string)
    requires Balanced(inner)
    ensures Balanced("(" + inner + ")")
  {
    CountSingle('(', '(');
    CountSingle('(', ')');
    CountSingle(')', '(');
    CountSingle(')', ')');
    CountAppend("(", inner, '(');
    CountAppend("(", inner, ')');
    CountAppend("(" + inner, ")", '(');
    CountAppend("(" + inner, ")", ')');
  }

  /** A parenthesis-free piece keeps a balanced text balanced. */
  lemma AppendFree(a: string, b: string)
    requires Balanced(a) && NoParens(b)
    ensures Balanced(a + b) && Balanced(b + a)
  {
    NoParensBalanced(b);
    Append2Balanced(a, b);
    Append2Balanced(b, a);
  }

  lemma VariableBalanced(v: Variable)
    requires NoParens(v.name)
    ensures Balanced(PrintVariable(v))
  {
    var pre := match v.storage case Const => "const " case Param => "param " case _ => "";
    var dollar := if v.storage == Special then "$" else "";
    assert PrintVariable(v) == pre + dollar + v.name;
    assert NoParens(pre + dollar + v.name);
    NoParensBalanced(pre + dollar + v.name);
  }

  lemma OpStringHasNoParens(op: Op)
    ensures NoParens(OpString(op))
  {
  }

  lemma Wrap3(x: string, mid: string, y: string)
    requires Balanced(x) && NoParens(mid) && Balanced(y)
    ensures Balanced("(" + x + mid + y + ")")
  {
    AppendFree(x, mid);
    Append2Balanced(x + mid, y);
    Paren3(x + mid + y);
    assert "(" + x + mid + y + ")" == "(" + (x + mid + y) + ")";
  }

  lemma Wrap5(x: string, y: string, z: string)
    requires Balanced(x) && Balanced(y) && Balanced(z)
    ensures Balanced("(" + x + "?" + y + ":" + z + ")")
  {
    AppendFree(x, "?");
    Append2Balanced(x + "?", y);
    AppendFree(x + "?" + y, ":");
    Append2Balanced(x + "?" + y + ":", z);
    Paren3(x + "?" + y + ":" + z);
    assert "(" + x + "?" + y + ":" + z + ")" == "(" + (x + "?" + y + ":" + z) + ")";
  }

  lemma Brackets(x: string, mid: string, y: string)
    requires Balanced(x) && Balanced(mid) && Balanced(y)
    ensures Balanced("[" + x + ":" + mid + y + "]")
  {
    AppendFree(x, "[");
    AppendFree("[" + x, ":");
    Append2Balanced("[" + x + ":", mid);
    Append2Balanced("[" + x + ":" + mid, y);
    AppendFree("[" + x + ":" + mid + y, "]");
  }

  lemma Call(q: string, args: string)
    requires NoParens(q) && Balanced(args)
    ensures Balanced(q + "(" + args + ")")
  {
    Paren3(args);
    AppendFree("(" + args + ")", q);
    assert q + "(" + args + ")" == q + ("(" + args + ")");
  }

  /** With parenthesis-free names and literals, every printed expression
      has as many opening as closing parentheses: binary and ternary
      expressions and calls add one matched pair each. */
  lemma {:induction false} ExprBalanced(e: Expr)
    requires ParenFree(e)
    ensures Balanced(PrintExpr(e))
    decreases e, 1
  {
    match e
    case Literal(v) => NoParensBalanced(ValueString(v));
    case VariableRef(v) => VariableBalanced(v);
    case Binary(l, op, r) =>
      ExprBalanced(l);
      ExprBalanced(r);
      OpStringHasNoParens(op);
      Wrap3(PrintExpr(l), OpString(op), PrintExpr(r));
    case Unary(op, x, post) =>
      ExprBalanced(x);
      OpStringHasNoParens(op);
      AppendFree(PrintExpr(x), OpString(op));
    case Ternary(c, t, f) =>
      ExprBalanced(c);
      ExprBalanced(t);
      ExprBalanced(f);
      Wrap5(PrintExpr(c), PrintExpr(t), PrintExpr(f));
    case Vector(items) =>
      var parts := seq(|items|, i requires 0 <= i < |items| => PrintExpr(items[i]));
      forall i | 0 <= i < |items| ensures Balanced(parts[i]) {
        ExprBalanced(items[i]);
      }
      JoinBalanced(parts, ",");
      AppendFree(Join(parts, ","), "[");
      AppendFree("[" + Join(parts, ","), "]");
    case Range(a, st, b) =>
      ExprBalanced(a);
      ExprBalanced(b);
      if st.Some? {
        ExprBalanced(st.value);
        AppendFree(PrintExpr(st.value), ":");
        Brackets(PrintExpr(a), PrintExpr(st.value) + ":", PrintExpr(b));
      } else {
        NoParensBalanced("");
        Brackets(PrintExpr(a), "", PrintExpr(b));
      }
    case Invocation(ns, name, args) =>
      ArgsBalanced(args);
      assert NoParens(Qualifier(ns) + name);
      Call(Qualifier(ns) + name, PrintArgs(args));
  }

  lemma {:induction false} ArgBalanced(a: Argument)
    requires ArgParenFree(a)
    ensures Balanced(PrintArg(a))
    decreases a, 0
  {
    ExprBalanced(a.expr);
    if a.variable.Some? {
      VariableBalanced(a.variable.value);
      AppendFree(PrintVariable(a.variable.value), "=");
      Append2Balanced(PrintVariable(a.variable.value) + "=", PrintExpr(a.expr));
    } else {
      assert PrintArg(a) == PrintExpr(a.expr);
    }
  }

  lemma {:induction false} ArgsBalanced(args: seq<Argument>)
    requires forall i :: 0 <= i < |args| ==> ArgParenFree(args[i])
    ensures Balanced(PrintArgs(args))
    decreases args, 0
  {
    var parts := seq(|args|, i requires 0 <= i < |args| => PrintArg(args[i]));
    forall i | 0 <= i < |args| ensures Balanced(parts[i]) {
      ArgBalanced(args[i]);
    }
    JoinBalanced(parts, ",");
  }
}
