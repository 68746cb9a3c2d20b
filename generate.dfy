/** The binding generator of src/generate.ts. It walks the top level of the
    Emscripten glue script and records three tables (import types, imports,
    exports) and four scalars, and from them the lines of the generated
    bindings. The parsed script is a small AST standing in for acorn's nodes;
    a cast in the source that fails at run time (iterating `undefined`,
    reading a field of `undefined`, calling a string method on `undefined`)
    is the outcome `TypeError`. */
module Generate {
  import opened Host

  // ---------------------------------------------------------------------
  // JavaScript dictionaries with insertion order

  /** A plain object used as a dictionary: its string keys in insertion order
      (the order `Object.entries`, and so the emitted text, follows) and the
      value under each key. */
  datatype Dict<V> = Dict(keys: seq<string>, at: map<string, V>)

  ghost predicate Wf<V>(d: Dict<V>)
  {
    Distinct(d.keys) && (forall k :: k in d.at <==> k in d.keys)
  }

  function EmptyDict<V>(): (d: Dict<V>)
    ensures Wf(d) && d.at == map[]
  {
    Dict([], map[])
  }

  /** `h[k] = v`: a new key goes after all others, an existing key keeps its
      place and gets the new value. */
  function Put<V>(d: Dict<V>, k: string, v: V): (r: Dict<V>)
    ensures Wf(d) ==> Wf(r)
    ensures r.at == d.at[k := v]
    ensures Wf(d) && k in d.at ==> r.keys == d.keys
    ensures Wf(d) && k !in d.at ==> r.keys == d.keys + [k]
  {
    Dict(if k in d.keys then d.keys else d.keys + [k], d.at[k := v])
  }

  function Without(s: seq<string>, k: string): (r: seq<string>)
    ensures forall x :: x in r <==> x in s && x != k
    ensures |r| <= |s|
  {
    if s == [] then []
    else if s[0] == k then Without(s[1..], k)
    else [s[0]] + Without(s[1..], k)
  }

  ghost predicate Distinct(s: seq<string>)
  {
    forall i, j :: 0 <= i < j < |s| ==> s[i] != s[j]
  }

  lemma {:induction false} WithoutDistinct(s: seq<string>, k: string)
    ensures Distinct(s) ==> Distinct(Without(s, k))
  {
    if s != [] && Distinct(s) {
      assert Distinct(s[1..]);
      WithoutDistinct(s[1..], k);
      var rest := Without(s[1..], k);
      if s[0] != k {
        assert s[0] !in s[1..] by {
          forall j | 0 <= j < |s[1..]| ensures s[1..][j] != s[0] {
            assert s[1..][j] == s[j + 1];
          }
        }
        assert s[0] !in rest;
        var r := [s[0]] + rest;
        forall i, j | 0 <= i < j < |r| ensures r[i] != r[j] {
          if i == 0 {
            assert r[j] == rest[j - 1];
          } else {
            assert r[i] == rest[i - 1] && r[j] == rest[j - 1];
          }
        }
      }
    }
  }

  /** `delete h[k]`: the key and its value are gone, the other keys keep
      their order. */
  function Delete<V>(d: Dict<V>, k: string): (r: Dict<V>)
    ensures Wf(d) ==> Wf(r)
    ensures r.at == d.at - {k}
  {
    WithoutDistinct(d.keys, k);
    Dict(Without(d.keys, k), d.at - {k})
  }

  // ---------------------------------------------------------------------
  // The fixed tables

  /** The names H_TYPES lists. The generator only asks whether a name is
      listed; the signature texts it maps them to are read solely by a line
      that is commented out, so the model keeps the key set alone. */
  const H_TYPES: set<string> :=
    {"_abort", "_emscripten_memcpy_js", "_emscripten_resize_heap", "_fd_close", "_fd_seek", "_fd_write"}

  /** H_RENAME_IMPORTS: the name each known import has in the environment. */
  const H_RENAME_IMPORTS: map<string, string> := map[
    "_abort" := "abort",
    "_emscripten_memcpy_js" := "memcpy",
    "_emscripten_resize_heap" := "resize",
    "_fd_write" := "write"]

  /** H_KNOWN_EXPORT_TYPES: exports typed by WasmExports already. */
  const H_KNOWN_EXPORT_TYPES: map<string, string> := map[
    "_malloc" := "(nb_size: ByteSize) => Pointer",
    "_free" := "(ip_ptr: Pointer) => void",
    "_sbrk" := "(nb_change: ByteDelta) => Pointer",
    "wasmMemory" := "WebAssembly.Memory"]

  // ---------------------------------------------------------------------
  // rename_export and export_type

  /** Whether pat occurs in s starting at index j. */
  predicate At(s: string, pat: string, j: nat)
  {
    j + |pat| <= |s| && s[j..j + |pat|] == pat
  }

  /** `String.prototype.replace` with a string pattern: only the first
      occurrence is replaced. */
  function ReplaceFirst(s: string, pat: string, rep: string): string
    decreases |s|
  {
    if |pat| <= |s| && s[..|pat|] == pat then rep + s[|pat|..]
    else if s == [] then []
    else [s[0]] + ReplaceFirst(s[1..], pat, rep)
  }

  /** The regular expression /^_(?:secp256k1_)?/ removed from the front: the
      optional group is greedy, so "_secp256k1_" goes whole if present. */
  function StripPrefix(s: string): string
  {
    if |s| >= 11 && s[..11] == "_secp256k1_" then s[11..]
    else if |s| >= 1 && s[0] == '_' then s[1..]
    else s
  }

  /** `rename_export(si_func)`. */
  function RenameExport(name: string): string
  {
    ReplaceFirst(StripPrefix(name), "wasmMemory", "memory")
  }

  lemma {:induction false} ReplaceFirstAbsent(s: string, pat: string, rep: string)
    requires forall j: nat :: j <= |s| ==> !At(s, pat, j)
    ensures ReplaceFirst(s, pat, rep) == s
  {
    assert !At(s, pat, 0);
    if s != [] {
      forall j: nat | j <= |s[1..]|
        ensures !At(s[1..], pat, j)
      {
        assert !At(s, pat, j + 1);
      }
      ReplaceFirstAbsent(s[1..], pat, rep);
    }
  }

  /** Replacing at the first occurrence i keeps what is before and after. */
  lemma {:induction false} ReplaceFirstAt(s: string, pat: string, rep: string, i: nat)
    requires At(s, pat, i)
    requires forall j: nat :: j < i ==> !At(s, pat, j)
    ensures ReplaceFirst(s, pat, rep) == s[..i] + rep + s[i + |pat|..]
  {
    if i == 0 {
      assert s[..|pat|] == s[0..|pat|];
    } else {
      assert !At(s, pat, 0);
      assert s[..|pat|] == s[0..|pat|];
      var tail := s[1..];
      assert tail[i - 1..i - 1 + |pat|] == s[i..i + |pat|];
      forall j: nat | j < i - 1
        ensures !At(tail, pat, j)
      {
        assert !At(s, pat, j + 1);
      }
      ReplaceFirstAt(tail, pat, rep, i - 1);
      assert ReplaceFirst(s, pat, rep) == [s[0]] + ReplaceFirst(tail, pat, rep);
      assert [s[0]] + tail[..i - 1] == s[..i];
      assert tail[i - 1 + |pat|..] == s[i + |pat|..];
      calc {
        [s[0]] + (tail[..i - 1] + rep + tail[i - 1 + |pat|..]);
        ([s[0]] + tail[..i - 1]) + rep + tail[i - 1 + |pat|..];
      }
    }
  }

  /** `export_type(si_func)`: the known type, else 'Function' (no known type
      is the empty string, so `||` falls back only for absent names). */
  function ExportType(name: string): (t: string)
    ensures name in H_KNOWN_EXPORT_TYPES ==> t == H_KNOWN_EXPORT_TYPES[name]
    ensures t == "Function" <==> name !in H_KNOWN_EXPORT_TYPES
  {
    if name in H_KNOWN_EXPORT_TYPES && H_KNOWN_EXPORT_TYPES[name] != "" then H_KNOWN_EXPORT_TYPES[name]
    else "Function"
  }

  // ---------------------------------------------------------------------
  // The parsed script

  /** The value of a Literal node that the generator reads. */
  datatype Literal = Str(s: string) | Num(n: int)

  datatype Expr =
    | Ident(name: string)
    | Lit(value: Literal)
    | Member(obj: Expr, property: Expr)
    | Assign(left: Expr, right: Expr)
    | Call(callee: Expr, arguments: seq<Expr>)
      /** an arrow function with a block body */
    | Arrow(block: seq<Stmt>)
      /** an arrow function with an expression body */
    | ArrowExpr(result: Expr)
    | Object(properties: seq<Property>)
    | OtherExpr

  datatype Property = Prop(key: Expr, value: Expr) | Spread(argument: Expr)

  datatype Stmt = ExprStmt(expression: Expr) | Return(argument: Option<Expr>) | OtherStmt

  datatype Declarator = Declarator(id: Expr, init: Option<Expr>)

  datatype Top =
    | TopExpr(expression: Expr)
    | VarDecl(declarations: seq<Declarator>)
    | FuncDecl(id: string, body: seq<Stmt>)
    | OtherTop

  /** `ident(yn)`: the name of an Identifier, `undefined` otherwise. */
  function IdentOf(e: Expr): Option<string>
  {
    if e.Ident? then Some(e.name) else None
  }

  /** `litval(yn)`: the value of a Literal, `undefined` otherwise. */
  function LitVal(e: Expr): Option<Literal>
  {
    if e.Lit? then Some(e.value) else None
  }

  /** A value as a template literal `${...}` or a property key prints it. */
  function Text(v: Option<Literal>): string
  {
    match v
    case None => "undefined"
    case Some(Str(s)) => s
    case Some(Num(n)) => NumberText(n)
  }

  function KeyText(name: Option<string>): string
  {
    if name.Some? then name.value else "undefined"
  }

  // ---------------------------------------------------------------------
  // The generator's state and its walk

  /** An h_imports entry: the glue's import symbol and the expression bound. */
  datatype Import = Import(symbol: string, source: string)

  datatype Tables = Tables(
    types: Dict<string>,
    imports: Dict<Import>,
    exports: Dict<string>,
    importKey: Option<Literal>,
    initKey: Option<Literal>,
    fdClose: Option<Literal>,
    fdSeek: Option<Literal>)

  /** The state before the walk: empty tables, '' keys and 0 constants. */
  function Initial(): (t: Tables)
    ensures Wf(t.types) && Wf(t.imports) && Wf(t.exports)
  {
    Tables(EmptyDict(), EmptyDict(), EmptyDict(), Some(Str("")), Some(Str("")), Some(Num(0)), Some(Num(0)))
  }

  /** How a stretch of the script ends: with the new state, or with a thrown
      TypeError that ends the generator. */
  datatype Run<+T> = Ok(value: T) | TypeError

  /** A loop over xs applying step, stopping at the first TypeError. */
  function Fold<X>(step: (Tables, X) -> Run<Tables>, t: Tables, xs: seq<X>): Run<Tables>
    decreases |xs|
  {
    if xs == [] then Ok(t)
    else
      match Fold(step, t, xs[..|xs| - 1])
      case TypeError => TypeError
      case Ok(u) => step(u, xs[|xs| - 1])
  }

  function ExportEntry(name: string, symbol: string): string
  {
    RenameExport(name) + ": g_exports['" + symbol + "']"
  }

  predicate IsExportAssign(s: Stmt)
  {
    s.ExprStmt? && s.expression.Assign? && s.expression.right.Member?
  }

  /** One statement of an arrow body passed to a top-level call. */
  function ExportStep(t: Tables, s: Stmt): Run<Tables>
  {
    if IsExportAssign(s) then
      var name := IdentOf(s.expression.left);
      if name.None? then TypeError
      else Ok(t.(exports := Put(t.exports, name.value, ExportEntry(name.value, Text(LitVal(s.expression.right.property))))))
    else Ok(t)
  }

  /** One argument of a top-level call. Iterating the `body` of an expression
      body: that field is `undefined` or a single node, never iterable. */
  function ArgStep(t: Tables, a: Expr): Run<Tables>
  {
    if a.Arrow? then Fold(ExportStep, t, a.block)
    else if a.ArrowExpr? then TypeError
    else Ok(t)
  }

  function ImportValue(p: Property): string
  {
    if p.Prop? then KeyText(IdentOf(p.value)) else "undefined"
  }

  function RenameText(v: string): string
  {
    if v in H_RENAME_IMPORTS then H_RENAME_IMPORTS[v] else "undefined"
  }

  function ImportFor(p: Property): Import
  {
    Import(if p.Prop? then KeyText(IdentOf(p.key)) else "undefined", "g_imports." + RenameText(ImportValue(p)))
  }

  /** One property of the `wasmImports` object; a spread element has no key. */
  function ImportStep(t: Tables, p: Property): Run<Tables>
  {
    if p.Spread? then TypeError
    else
      var v := ImportValue(p);
      Ok(t.(types := if v in H_TYPES then t.types else Put(t.types, v, "unknown"),
            imports := Put(t.imports, v, ImportFor(p))))
  }

  /** One property of the `imports` object; a spread element has no value. */
  function ImportKeyStep(t: Tables, p: Property): Run<Tables>
  {
    if p.Spread? then TypeError
    else if IdentOf(p.value) == Some("wasmImports") then Ok(t.(importKey := LitVal(p.key)))
    else Ok(t)
  }

  /** One declarator, dispatched on its name. */
  function DeclStep(t: Tables, d: Declarator): Run<Tables>
  {
    var name := IdentOf(d.id);
    if name == Some("wasmImports") then
      if d.init.Some? && d.init.value.Object? then Fold(ImportStep, t, d.init.value.properties) else Ok(t)
    else if name == Some("imports") then
      if d.init.Some? && d.init.value.Object? then Fold(ImportKeyStep, t, d.init.value.properties) else Ok(t)
    else if name == Some("_fd_close") then
      if d.init.Some? && d.init.value.ArrowExpr? then Ok(t.(fdClose := LitVal(d.init.value.result)))
      else if d.init.Some? && d.init.value.Arrow? then Ok(t.(fdClose := None))
      else Ok(t)
    else Ok(t)
  }

  /** One statement of `function _fd_seek`; `return;` has a null argument. */
  function SeekStep(t: Tables, s: Stmt): Run<Tables>
  {
    if s.Return? then
      if s.argument.None? then TypeError else Ok(t.(fdSeek := LitVal(s.argument.value)))
    else Ok(t)
  }

  predicate IsInitCall(s: Stmt)
  {
    s.ExprStmt? && s.expression.Call? && s.expression.callee.Member? &&
    IdentOf(s.expression.callee.obj) == Some("wasmExports")
  }

  /** One statement of `function initRuntime`. */
  function InitStep(t: Tables, s: Stmt): Run<Tables>
  {
    if IsInitCall(s) then Ok(t.(initKey := LitVal(s.expression.callee.property))) else Ok(t)
  }

  /** One top-level statement. Iterating the `arguments` of an expression
      that is not a call iterates `undefined`, which throws. A `new`
      expression also has `arguments`; the AST here has no such node, so
      every non-call expression takes the TypeError branch. */
  function TopStep(t: Tables, top: Top): Run<Tables>
  {
    match top
    case TopExpr(e) => if e.Call? then Fold(ArgStep, t, e.arguments) else TypeError
    case VarDecl(ds) => Fold(DeclStep, t, ds)
    case FuncDecl(id, body) =>
      if id == "_fd_seek" then Fold(SeekStep, t, body)
      else if id == "initRuntime" then Fold(InitStep, t, body)
      else Ok(t)
    case OtherTop => Ok(t)
  }

  function Collect(program: seq<Top>): Run<Tables>
  {
    Fold(TopStep, Initial(), program)
  }

  function StubFor(value: Option<Literal>, name: string): string
  {
    "() => " + Text(value) + ",  // " + name
  }

  /** The deletes and overrides after the walk; indexing a missing entry of
      h_imports reads `undefined[1]`. */
  function Patch(t: Tables): Run<Tables>
  {
    if "_fd_seek" !in t.imports.at || "_fd_close" !in t.imports.at then TypeError
    else
      var seek := t.imports.at["_fd_seek"].(source := StubFor(t.fdSeek, "_fd_seek"));
      var close := t.imports.at["_fd_close"].(source := StubFor(t.fdClose, "_fd_close"));
      Ok(t.(types := Delete(Delete(t.types, "_fd_seek"), "_fd_close"),
            imports := Put(Put(t.imports, "_fd_seek", seek), "_fd_close", close)))
  }

  function Generated(program: seq<Top>): Run<Tables>
  {
    match Collect(program)
    case TypeError => TypeError
    case Ok(t) => Patch(t)
  }

  // ---------------------------------------------------------------------
  // The emitted lines

  /** The lines of WasmImportsExtension. */
  function ImportsInterface(types: Dict<string>): seq<string>
    requires Wf(types)
  {
    seq(|types.keys|, i requires 0 <= i < |types.keys| =>
      (if types.keys[i] in H_RENAME_IMPORTS then H_RENAME_IMPORTS[types.keys[i]] else types.keys[i])
      + ": " + types.at[types.keys[i]] + ";")
  }

  /** The exports that get a line in WasmExportsExtension (the callback's
      `undefined` results are dropped). */
  function InterfaceNames(keys: seq<string>): seq<string>
  {
    if keys == [] then []
    else
      var rest := InterfaceNames(keys[..|keys| - 1]);
      var k := keys[|keys| - 1];
      if k in H_KNOWN_EXPORT_TYPES then rest else rest + [k]
  }

  /** The lines of WasmExportsExtension. */
  function ExportsInterface(exports: Dict<string>): seq<string>
  {
    var names := InterfaceNames(exports.keys);
    seq(|names|, i requires 0 <= i < |names| => RenameExport(names[i]) + ": Function;")
  }

  /** The entries of map_wasm_imports. */
  function ImportEntries(imports: Dict<Import>): seq<string>
    requires Wf(imports)
  {
    seq(|imports.keys|, i requires 0 <= i < |imports.keys| =>
      imports.at[imports.keys[i]].symbol + ": " + imports.at[imports.keys[i]].source + ",")
  }

  /** The entries of map_wasm_exports. */
  function ExportEntries(exports: Dict<string>): seq<string>
    requires Wf(exports)
  {
    seq(|exports.keys|, i requires 0 <= i < |exports.keys| => exports.at[exports.keys[i]] + ",")
  }
}
