/** What the rules of src/generate.ts promise: how export names are renamed,
    how each loop fills its table (keyed by import value, last write wins),
    which constant the fd stubs return, and which names the emitted
    interfaces list. */
module GenerateProperties {
  import opened Host
  import opened Generate

  // ---------------------------------------------------------------------
  // rename_export

  /** pat does not occur anywhere in s. */
  predicate Absent(s: string, pat: string)
  {
    forall j: nat :: j <= |s| ==> !At(s, pat, j)
  }

  /** A string without pat's first character cannot contain pat. */
  lemma AbsentWithoutFirst(s: string, pat: string)
    requires |pat| > 0 && forall i :: 0 <= i < |s| ==> s[i] != pat[0]
    ensures Absent(s, pat)
  {
    forall j: nat | j <= |s|
      ensures !At(s, pat, j)
    {
      if j + |pat| <= |s| {
        assert s[j..j + |pat|][0] == s[j];
      }
    }
  }

  /** The source's own examples, and the memory export. */
  lemma RenameExportKeypairCreate()
    ensures RenameExport("_secp256k1_keypair_create") == "keypair_create"
  {
    var name := "_secp256k1_keypair_create";
    assert name[..11] == "_secp256k1_";
    assert name[11..] == "keypair_create";
    AbsentWithoutFirst("keypair_create", "wasmMemory");
    ReplaceFirstAbsent("keypair_create", "wasmMemory", "memory");
  }

  lemma RenameExportMalloc()
    ensures RenameExport("_malloc") == "malloc"
  {
    AbsentWithoutFirst("malloc", "wasmMemory");
    ReplaceFirstAbsent("malloc", "wasmMemory", "memory");
  }

  lemma RenameExportMemory()
    ensures RenameExport("wasmMemory") == "memory"
  {
    ReplaceFirstAt("wasmMemory", "wasmMemory", "memory", 0);
  }

  /** One leading '_' goes, and so does a 'secp256k1_' right after it. */
  lemma RenameExportStrips(rest: string)
    requires Absent(rest, "wasmMemory")
    ensures RenameExport("_secp256k1_" + rest) == rest
    ensures !(|rest| >= 10 && rest[..10] == "secp256k1_") ==> RenameExport("_" + rest) == rest
  {
    var long := "_secp256k1_" + rest;
    assert long[..11] == "_secp256k1_";
    assert long[11..] == rest;
    var short := "_" + rest;
    assert short[1..] == rest;
    if |short| >= 11 && short[..11] == "_secp256k1_" {
      assert short[1..11] == rest[..10];
    }
    ReplaceFirstAbsent(rest, "wasmMemory", "memory");
  }

  /** A name with no leading '_' and no 'wasmMemory' is left alone. */
  lemma RenameExportUnchanged(name: string)
    requires name == [] || name[0] != '_'
    requires Absent(name, "wasmMemory")
    ensures RenameExport(name) == name
  {
    ReplaceFirstAbsent(name, "wasmMemory", "memory");
  }

  /** Only the first 'wasmMemory' becomes 'memory'. */
  lemma RenameExportReplacesFirst(name: string, i: nat)
    requires name == [] || name[0] != '_'
    requires At(name, "wasmMemory", i)
    requires forall j: nat :: j < i ==> !At(name, "wasmMemory", j)
    ensures RenameExport(name) == name[..i] + "memory" + name[i + 10..]
  {
    ReplaceFirstAt(name, "wasmMemory", "memory", i);
  }

  // ---------------------------------------------------------------------
  // The wasmImports loop

  /** The import values named by the properties. */
  function ValueNames(props: seq<Property>): set<string>
    decreases |props|
  {
    if props == [] then {} else ValueNames(props[..|props| - 1]) + {ImportValue(props[|props| - 1])}
  }

  /** The last property whose value is v. */
  function LastFor(props: seq<Property>, v: string): (p: Property)
    requires v in ValueNames(props)
    ensures ImportValue(p) == v
    decreases |props|
  {
    var last := props[|props| - 1];
    if ImportValue(last) == v then last else LastFor(props[..|props| - 1], v)
  }

  /** No property is a spread element. */
  predicate NoSpread(props: seq<Property>)
  {
    forall i :: 0 <= i < |props| ==> props[i].Prop?
  }

  lemma NoSpreadSnoc(props: seq<Property>)
    requires props != []
    ensures NoSpread(props) <==> NoSpread(props[..|props| - 1]) && props[|props| - 1].Prop?
  {
    var pre := props[..|props| - 1];
    if NoSpread(pre) && props[|props| - 1].Prop? {
      forall i | 0 <= i < |props| ensures props[i].Prop? {
        if i < |pre| {
          assert props[i] == pre[i];
        }
      }
    }
  }

  /** The loop throws exactly when a property is a spread element. */
  lemma {:induction false} ImportsFoldOk(t: Tables, props: seq<Property>)
    ensures Fold(ImportStep, t, props).Ok? <==> NoSpread(props)
    decreases |props|
  {
    if props != [] {
      ImportsFoldOk(t, props[..|props| - 1]);
      NoSpreadSnoc(props);
    }
  }

  /** Each property `key: value` sets h_imports[value] to [key,
      'g_imports.' + the renamed value], a later property with the same
      value winning; a value outside H_TYPES gets the type 'unknown'; nothing
      else changes. */
  lemma {:induction false} ImportsByValue(t: Tables, props: seq<Property>)
    requires Fold(ImportStep, t, props).Ok?
    ensures var u := Fold(ImportStep, t, props).value;
      u.imports.at.Keys == t.imports.at.Keys + ValueNames(props) &&
      (forall v :: v in ValueNames(props) ==> u.imports.at[v] == ImportFor(LastFor(props, v))) &&
      (forall v :: v in t.imports.at && v !in ValueNames(props) ==> u.imports.at[v] == t.imports.at[v]) &&
      u.types.at.Keys == t.types.at.Keys + (ValueNames(props) - H_TYPES) &&
      (forall v :: v in ValueNames(props) && v !in H_TYPES ==> u.types.at[v] == "unknown") &&
      (forall v :: v in t.types.at && (v !in ValueNames(props) || v in H_TYPES) ==> u.types.at[v] == t.types.at[v]) &&
      u.(types := t.types, imports := t.imports) == t
    decreases |props|
  {
    if props != [] {
      var pre := props[..|props| - 1];
      var last := props[|props| - 1];
      ImportsByValue(t, pre);
      var w := Fold(ImportStep, t, pre).value;
      var u := Fold(ImportStep, t, props).value;
      assert u == ImportStep(w, last).value;
      forall v | v in ValueNames(props)
        ensures u.imports.at[v] == ImportFor(LastFor(props, v))
      {
        if ImportValue(last) != v {
          assert v in ValueNames(pre);
        }
      }
    }
  }

  // ---------------------------------------------------------------------
  // The arrow-body loop that fills h_exports

  /** The names assigned a member expression in the statements. */
  function AssignedNames(stmts: seq<Stmt>): set<string>
    decreases |stmts|
  {
    if stmts == [] then {}
    else
      var last := stmts[|stmts| - 1];
      AssignedNames(stmts[..|stmts| - 1]) +
        (if IsExportAssign(last) && last.expression.left.Ident? then {last.expression.left.name} else {})
  }

  /** The last statement assigning n a member expression. */
  function LastAssign(stmts: seq<Stmt>, n: string): (s: Stmt)
    requires n in AssignedNames(stmts)
    ensures IsExportAssign(s) && IdentOf(s.expression.left) == Some(n)
    decreases |stmts|
  {
    var last := stmts[|stmts| - 1];
    if IsExportAssign(last) && IdentOf(last.expression.left) == Some(n) then last
    else LastAssign(stmts[..|stmts| - 1], n)
  }

  /** The `<symbol>` of an export assignment. */
  function ExportSymbol(s: Stmt): string
    requires IsExportAssign(s)
  {
    Text(LitVal(s.expression.right.property))
  }

  /** The loop throws exactly when such an assignment's target is not a
      plain identifier (rename_export then gets `undefined`). */
  lemma {:induction false} ExportsFoldOk(t: Tables, stmts: seq<Stmt>)
    ensures Fold(ExportStep, t, stmts).Ok? <==>
      forall i :: 0 <= i < |stmts| && IsExportAssign(stmts[i]) ==> stmts[i].expression.left.Ident?
    decreases |stmts|
  {
    if stmts != [] {
      ExportsFoldOk(t, stmts[..|stmts| - 1]);
    }
  }

  /** Each assignment `name = x[<symbol>]` sets h_exports[name] to
      rename_export(name) + ": g_exports['<symbol>']", a later assignment to
      the same name overwriting an earlier one; nothing else changes. */
  lemma {:induction false} ExportsLastWins(t: Tables, stmts: seq<Stmt>)
    requires Fold(ExportStep, t, stmts).Ok?
    ensures var u := Fold(ExportStep, t, stmts).value;
      u.exports.at.Keys == t.exports.at.Keys + AssignedNames(stmts) &&
      (forall n :: n in AssignedNames(stmts) ==> u.exports.at[n] == ExportEntry(n, ExportSymbol(LastAssign(stmts, n)))) &&
      (forall n :: n in t.exports.at && n !in AssignedNames(stmts) ==> u.exports.at[n] == t.exports.at[n]) &&
      u.(exports := t.exports) == t
    decreases |stmts|
  {
    if stmts != [] {
      var pre := stmts[..|stmts| - 1];
      var last := stmts[|stmts| - 1];
      ExportsLastWins(t, pre);
      var w := Fold(ExportStep, t, pre).value;
      var u := Fold(ExportStep, t, stmts).value;
      assert u == ExportStep(w, last).value;
      forall n | n in AssignedNames(stmts)
        ensures u.exports.at[n] == ExportEntry(n, ExportSymbol(LastAssign(stmts, n)))
      {
        if !(IsExportAssign(last) && IdentOf(last.expression.left) == Some(n)) {
          assert n in AssignedNames(pre);
        }
      }
    }
  }

  // ---------------------------------------------------------------------
  // The body of _fd_seek

  /** Statement i is the last return statement of the body. */
  predicate LastReturnAt(body: seq<Stmt>, i: nat)
  {
    i < |body| && body[i].Return? && forall j :: i < j < |body| ==> !body[j].Return?
  }

  /** The loop throws exactly on a bare `return;`; otherwise the seek
      constant is the literal of the last return statement, and without a
      return statement nothing changes. */
  lemma {:induction false} SeekIsLastReturn(t: Tables, body: seq<Stmt>)
    ensures Fold(SeekStep, t, body).Ok? <==>
      forall i :: 0 <= i < |body| && body[i].Return? ==> body[i].argument.Some?
    ensures Fold(SeekStep, t, body).Ok? ==> Fold(SeekStep, t, body).value.(fdSeek := t.fdSeek) == t
    ensures Fold(SeekStep, t, body).Ok? && (forall i :: 0 <= i < |body| ==> !body[i].Return?) ==>
      Fold(SeekStep, t, body).value == t
    ensures forall i: nat :: Fold(SeekStep, t, body).Ok? && LastReturnAt(body, i) ==>
      Fold(SeekStep, t, body).value == t.(fdSeek := LitVal(body[i].argument.value))
    decreases |body|
  {
    if body != [] {
      var pre := body[..|body| - 1];
      SeekIsLastReturn(t, pre);
      forall i: nat | Fold(SeekStep, t, body).Ok? && LastReturnAt(body, i)
        ensures Fold(SeekStep, t, body).value == t.(fdSeek := LitVal(body[i].argument.value))
      {
        if i < |pre| {
          assert LastReturnAt(pre, i);
        }
      }
    }
  }

  // ---------------------------------------------------------------------
  // The deletes and overrides

  /** After the walk, the fd entries leave h_types, and their h_imports
      entries keep their symbol and place while their expression becomes an
      arrow returning the recorded constant; this throws exactly when one of
      the two entries is missing. */
  lemma PatchValue(t: Tables)
    requires Wf(t.types) && Wf(t.imports)
    ensures Patch(t).Ok? <==> "_fd_seek" in t.imports.at && "_fd_close" in t.imports.at
    ensures Patch(t).Ok? ==> var u := Patch(t).value;
      Wf(u.types) && Wf(u.imports) &&
      u.types.at == t.types.at - {"_fd_seek", "_fd_close"} &&
      u.imports.keys == t.imports.keys &&
      u.imports.at["_fd_seek"] == Import(t.imports.at["_fd_seek"].symbol, StubFor(t.fdSeek, "_fd_seek")) &&
      u.imports.at["_fd_close"] == Import(t.imports.at["_fd_close"].symbol, StubFor(t.fdClose, "_fd_close")) &&
      (forall k :: k in t.imports.at && k != "_fd_seek" && k != "_fd_close" ==> u.imports.at[k] == t.imports.at[k]) &&
      u.(types := t.types, imports := t.imports) == t
  {
    if Patch(t).Ok? {
      assert t.types.at - {"_fd_seek"} - {"_fd_close"} == t.types.at - {"_fd_seek", "_fd_close"};
    }
  }

  // ---------------------------------------------------------------------
  // The emitted interfaces

  lemma {:induction false} InterfaceNamesMembers(keys: seq<string>)
    ensures forall k :: k in InterfaceNames(keys) <==> k in keys && k !in H_KNOWN_EXPORT_TYPES
    decreases |keys|
  {
    if keys != [] {
      var pre := keys[..|keys| - 1];
      InterfaceNamesMembers(pre);
      assert keys == pre + [keys[|keys| - 1]];
    }
  }

  /** WasmExportsExtension has one `name: Function;` line per recorded export,
      in table order, except the exports H_KNOWN_EXPORT_TYPES types already. */
  lemma ExportsInterfaceOmitsKnown(d: Dict<string>)
    requires Wf(d)
    ensures forall k :: k in InterfaceNames(d.keys) <==> k in d.at && k !in H_KNOWN_EXPORT_TYPES
    ensures |ExportsInterface(d)| == |InterfaceNames(d.keys)|
    ensures forall n :: n in H_KNOWN_EXPORT_TYPES ==> n !in InterfaceNames(d.keys)
  {
    InterfaceNamesMembers(d.keys);
  }

  // ---------------------------------------------------------------------
  // The walk as a whole

  /** What holds of the tables at every point of the walk: the dictionaries
      are well formed and every h_types entry is an 'unknown' for an import
      outside H_TYPES. */
  ghost predicate Inv(t: Tables)
  {
    Wf(t.types) && Wf(t.imports) && Wf(t.exports) &&
    forall k :: k in t.types.at ==> t.types.at[k] == "unknown" && k !in H_TYPES
  }

  /** A loop keeps what each of its steps keeps. */
  lemma {:induction false} FoldKeeps<X>(step: (Tables, X) -> Run<Tables>, t: Tables, xs: seq<X>)
    requires Inv(t)
    requires forall u, x :: Inv(u) && step(u, x).Ok? ==> Inv(step(u, x).value)
    ensures Fold(step, t, xs).Ok? ==> Inv(Fold(step, t, xs).value)
    decreases |xs|
  {
    if xs != [] {
      FoldKeeps(step, t, xs[..|xs| - 1]);
    }
  }

  lemma ArgStepKeeps(u: Tables, a: Expr)
    requires Inv(u)
    ensures ArgStep(u, a).Ok? ==> Inv(ArgStep(u, a).value)
  {
    if a.Arrow? {
      FoldKeeps(ExportStep, u, a.block);
    }
  }

  lemma ImportStepKeeps(u: Tables, p: Property)
    requires Inv(u)
    ensures ImportStep(u, p).Ok? ==> Inv(ImportStep(u, p).value)
  {
  }

  lemma DeclStepKeeps(u: Tables, d: Declarator)
    requires Inv(u)
    ensures DeclStep(u, d).Ok? ==> Inv(DeclStep(u, d).value)
  {
    if d.init.Some? && d.init.value.Object? {
      var name := IdentOf(d.id);
      if name == Some("wasmImports") {
        forall w, p | Inv(w) && ImportStep(w, p).Ok? ensures Inv(ImportStep(w, p).value) {
          ImportStepKeeps(w, p);
        }
        FoldKeeps(ImportStep, u, d.init.value.properties);
      } else if name == Some("imports") {
        FoldKeeps(ImportKeyStep, u, d.init.value.properties);
      }
    }
  }

  lemma TopStepKeeps(u: Tables, top: Top)
    requires Inv(u)
    ensures TopStep(u, top).Ok? ==> Inv(TopStep(u, top).value)
  {
    match top
    case TopExpr(e) =>
      if e.Call? {
        forall w, a | Inv(w) && ArgStep(w, a).Ok? ensures Inv(ArgStep(w, a).value) {
          ArgStepKeeps(w, a);
        }
        FoldKeeps(ArgStep, u, e.arguments);
      }
    case VarDecl(ds) =>
      forall w, d | Inv(w) && DeclStep(w, d).Ok? ensures Inv(DeclStep(w, d).value) {
        DeclStepKeeps(w, d);
      }
      FoldKeeps(DeclStep, u, ds);
    case FuncDecl(id, body) =>
      FoldKeeps(SeekStep, u, body);
      FoldKeeps(InitStep, u, body);
    case OtherTop =>
  }

  lemma CollectKeeps(program: seq<Top>)
    ensures Collect(program).Ok? ==> Inv(Collect(program).value)
  {
    forall w, top | Inv(w) && TopStep(w, top).Ok? ensures Inv(TopStep(w, top).value) {
      TopStepKeeps(w, top);
    }
    FoldKeeps(TopStep, Initial(), program);
  }

  /** WasmImportsExtension lists exactly the imports outside H_TYPES, each as
      `name: unknown;` under its own name (a name outside H_TYPES has no
      entry in H_RENAME_IMPORTS), and never the two fd imports. */
  lemma ImportsInterfaceUnknown(program: seq<Top>)
    requires Generated(program).Ok?
    ensures var u := Generated(program).value;
      Wf(u.types) && "_fd_seek" !in u.types.at && "_fd_close" !in u.types.at &&
      forall i :: 0 <= i < |u.types.keys| ==>
        u.types.keys[i] !in H_TYPES && ImportsInterface(u.types)[i] == u.types.keys[i] + ": " + "unknown" + ";"
  {
    CollectKeeps(program);
    var t := Collect(program).value;
    PatchValue(t);
    var u := Generated(program).value;
    forall i | 0 <= i < |u.types.keys|
      ensures u.types.keys[i] !in H_TYPES && ImportsInterface(u.types)[i] == u.types.keys[i] + ": " + "unknown" + ";"
    {
      assert u.types.keys[i] in u.types.at;
    }
  }
}
