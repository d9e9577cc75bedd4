/** The scoped symbol table of the code generator (src/layout.cpp): each
    layout binds module and function names locally and defers unknown
    names to its parent layout. Module and function objects are opaque,
    given as type parameters; scopes are compared by identity. */
module Layout {
  import opened Wrappers

  /** A scope object, identified by its address. */
  type Scope = nat

  /** A layout with its local bindings, the scope it belongs to (None is a
      null scope) and its parent chain. */
  datatype Layout<M, F> = Layout(
    modules: map<string, M>,
    functions: map<string, F>,
    scope: Option<Scope>,
    parent: Option<Layout<M, F>>)

  /** A fresh layout: no bindings, no scope, no parent. */
  function NewLayout<M, F>(): (l: Layout<M, F>)
    ensures l.modules == map[] && l.functions == map[] && l.scope == None && l.parent == None
  {
    Layout(map[], map[], None, None)
  }

  /** The layouts reachable through parent links, the layout itself first. */
  function Chain<M, F>(l: Layout<M, F>): (c: seq<Layout<M, F>>)
    ensures |c| >= 1 && c[0] == l
  {
    match l.parent
    case None => [l]
    case Some(p) => [l] + Chain(p)
  }

  /** The position of the first map in a chain that binds the name. */
  function Nearest<V>(maps: seq<map<string, V>>, name: string): (r: Option<nat>)
    ensures r.Some? ==> r.value < |maps| && name in maps[r.value]
                        && forall j :: 0 <= j < r.value ==> name !in maps[j]
    ensures r.None? ==> forall k :: 0 <= k < |maps| ==> name !in maps[k]
  {
    if |maps| == 0 then None
    else if name in maps[0] then Some(0)
    else
      var r := Nearest(maps[1..], name);
      assert forall k :: 1 <= k < |maps| ==> maps[k] == maps[1..][k - 1];
      if r.Some? then Some(r.value + 1) else None
  }

  /** The binding of the nearest map in a chain that binds the name. */
  function NearestBinding<V>(maps: seq<map<string, V>>, name: string): Option<V>
  {
    match Nearest(maps, name)
    case None => None
    case Some(k) => Some(maps[k][name])
  }

  function ModuleMaps<M, F>(c: seq<Layout<M, F>>): (ms: seq<map<string, M>>)
    ensures |ms| == |c| && forall k :: 0 <= k < |c| ==> ms[k] == c[k].modules
  {
    seq(|c|, k requires 0 <= k < |c| => c[k].modules)
  }

  function FunctionMaps<M, F>(c: seq<Layout<M, F>>): (fs: seq<map<string, F>>)
    ensures |fs| == |c| && forall k :: 0 <= k < |c| ==> fs[k] == c[k].functions
  {
    seq(|c|, k requires 0 <= k < |c| => c[k].functions)
  }

  /** lookupModule: the local binding, else the parent's answer, else null. */
  function LookupModule<M, F>(l: Layout<M, F>, name: string): (r: Option<M>)
    ensures name in l.modules ==> r == Some(l.modules[name])
    ensures name !in l.modules && l.parent.None? ==> r == None
    ensures name !in l.modules && l.parent.Some? ==> r == LookupModule(l.parent.value, name)
  {
    if name in l.modules then Some(l.modules[name])
    else if l.parent.Some? then LookupModule(l.parent.value, name)
    else None
  }

  /** lookupFunction: the same rule over the function bindings. */
  function LookupFunction<M, F>(l: Layout<M, F>, name: string): (r: Option<F>)
    ensures name in l.functions ==> r == Some(l.functions[name])
    ensures name !in l.functions && l.parent.None? ==> r == None
    ensures name !in l.functions && l.parent.Some? ==> r == LookupFunction(l.parent.value, name)
  {
    if name in l.functions then Some(l.functions[name])
    else if l.parent.Some? then LookupFunction(l.parent.value, name)
    else None
  }

  /** Lookup agrees with the nearest binding along the parent chain: it
      finds a name iff some layout in the chain binds it, and then returns
      the binding of the closest such layout, so local bindings shadow. */
  lemma {:induction false} LookupModuleIsNearest<M, F>(l: Layout<M, F>, name: string)
    ensures LookupModule(l, name) == NearestBinding(ModuleMaps(Chain(l)), name)
  {
    var ms := ModuleMaps(Chain(l));
    if name !in l.modules && l.parent.Some? {
      LookupModuleIsNearest(l.parent.value, name);
      assert ms[1..] == ModuleMaps(Chain(l.parent.value));
    }
  }

  lemma {:induction false} LookupFunctionIsNearest<M, F>(l: Layout<M, F>, name: string)
    ensures LookupFunction(l, name) == NearestBinding(FunctionMaps(Chain(l)), name)
  {
    var fs := FunctionMaps(Chain(l));
    if name !in l.functions && l.parent.Some? {
      LookupFunctionIsNearest(l.parent.value, name);
      assert fs[1..] == FunctionMaps(Chain(l.parent.value));
    }
  }

  /** The warning addModule and addFunction print for a repeated name. */
  function RedefinitionWarning(kind: string, name: string): (w: string)
    ensures |w| == |"Warning:  '' was already defined.\n"| + |kind| + |name|
  {
    "Warning: " + kind + " '" + name + "' was already defined.\n"
  }

  /** addModule: the first definition of a name wins; a repeat leaves the
      bindings as they are and yields a warning. */
  function AddModule<M, F>(l: Layout<M, F>, name: string, m: M): (r: (Layout<M, F>, string))
    ensures name in l.modules ==> r.0 == l && r.1 == RedefinitionWarning("module", name)
    ensures name !in l.modules ==> r.0 == l.(modules := l.modules[name := m]) && r.1 == ""
  {
    if name in l.modules then (l, RedefinitionWarning("module", name))
    else (l.(modules := l.modules[name := m]), "")
  }

  /** addFunction: the same rule over the function bindings. */
  function AddFunction<M, F>(l: Layout<M, F>, name: string, f: F): (r: (Layout<M, F>, string))
    ensures name in l.functions ==> r.0 == l && r.1 == RedefinitionWarning("function", name)
    ensures name !in l.functions ==> r.0 == l.(functions := l.functions[name := f]) && r.1 == ""
  {
    if name in l.functions then (l, RedefinitionWarning("function", name))
    else (l.(functions := l.functions[name := f]), "")
  }

  /** After an addition the name resolves to the first definition, and
      every other name resolves as before. */
  lemma AddModuleLookup<M, F>(l: Layout<M, F>, name: string, m: M, other: string)
    ensures LookupModule(AddModule(l, name, m).0, name) ==
            (if name in l.modules then Some(l.modules[name]) else Some(m))
    ensures other != name ==> LookupModule(AddModule(l, name, m).0, other) == LookupModule(l, other)
  {
  }

  lemma AddFunctionLookup<M, F>(l: Layout<M, F>, name: string, f: F, other: string)
    ensures LookupFunction(AddFunction(l, name, f).0, name) ==
            (if name in l.functions then Some(l.functions[name]) else Some(f))
    ensures other != name ==> LookupFunction(AddFunction(l, name, f).0, other) == LookupFunction(l, other)
  {
  }

  /** Adding the same module twice is adding it once, apart from the
      warning. */
  lemma AddModuleTwice<M, F>(l: Layout<M, F>, name: string, m: M, m': M)
    ensures AddModule(AddModule(l, name, m).0, name, m').0 == AddModule(l, name, m).0
    ensures AddModule(AddModule(l, name, m).0, name, m').1 != ""
  {
  }

  /** inScope: the scope is this layout's or some ancestor's. */
  function InScope<M, F>(l: Layout<M, F>, sc: Option<Scope>): (b: bool)
    ensures sc == l.scope ==> b
    ensures sc != l.scope && l.parent.None? ==> !b
  {
    if sc == l.scope then true
    else if l.parent.Some? then InScope(l.parent.value, sc)
    else false
  }

  /** inScope holds exactly for the scopes along the parent chain. */
  lemma {:induction false} InScopeChain<M, F>(l: Layout<M, F>, sc: Option<Scope>)
    ensures InScope(l, sc) <==> exists k :: 0 <= k < |Chain(l)| && Chain(l)[k].scope == sc
  {
    var c := Chain(l);
    if sc == l.scope {
      assert c[0].scope == sc;
    } else if l.parent.Some? {
      var pc := Chain(l.parent.value);
      InScopeChain(l.parent.value, sc);
      assert c == [l] + pc;
      assert InScope(l, sc) == InScope(l.parent.value, sc);
      assert (exists k :: 0 <= k < |c| && c[k].scope == sc) <==> (exists k :: 0 <= k < |pc| && pc[k].scope == sc) by {
        forall k | 0 <= k < |pc| ensures c[k + 1] == pc[k] {}
        if exists k :: 0 <= k < |c| && c[k].scope == sc {
          var k :| 0 <= k < |c| && c[k].scope == sc;
          assert pc[k - 1] == c[k];
        }
      }
      assert InScope(l, sc) <==> exists k :: 0 <= k < |c| && c[k].scope == sc;
      assert InScope(l, sc) <==> exists k :: 0 <= k < |Chain(l)| && Chain(l)[k].scope == sc;
    }
  }
}
