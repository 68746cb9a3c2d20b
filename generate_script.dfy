/** The generator script of src/generate.ts as the state it changes: three
    dictionaries and four module-level `let`s, updated loop by loop while the
    top level of the glue script is walked. Each method is specified by the
    fold of the matching step function of Generate. */
module GenerateScript {
  import opened Host
  import opened Generate

  /** Whether a walk finished (with the state t) or threw. */
  function Ran(ok: bool, t: Tables): (r: Run<Tables>)
    ensures r.Ok? == ok && (ok ==> r.value == t)
  {
    if ok then Ok(t) else TypeError
  }

  /** Once a prefix of the loop has thrown, the whole loop has. */
  lemma {:induction false} FoldStops<X>(step: (Tables, X) -> Run<Tables>, t: Tables, xs: seq<X>, i: nat)
    requires i <= |xs| && Fold(step, t, xs[..i]) == TypeError
    ensures Fold(step, t, xs) == TypeError
    decreases |xs| - i
  {
    if i < |xs| {
      var pre := xs[..|xs| - 1];
      assert pre[..i] == xs[..i];
      FoldStops(step, t, pre, i);
    } else {
      assert xs[..i] == xs;
    }
  }

  /** One more element: the loop so far, then one step. */
  lemma FoldNext<X>(step: (Tables, X) -> Run<Tables>, t: Tables, xs: seq<X>, i: nat)
    requires i < |xs|
    ensures Fold(step, t, xs[..i + 1]) ==
      match Fold(step, t, xs[..i]) case TypeError => TypeError case Ok(u) => step(u, xs[i])
  {
    assert xs[..i + 1][..i] == xs[..i];
  }

  class Generator {
    var types: Dict<string>
    var imports: Dict<Import>
    var exports: Dict<string>
    var importKey: Option<Literal>
    var initKey: Option<Literal>
    var fdClose: Option<Literal>
    var fdSeek: Option<Literal>

    function State(): Tables
      reads this
    {
      Tables(types, imports, exports, importKey, initKey, fdClose, fdSeek)
    }

    /** The declarations at the head of the script. */
    constructor ()
      ensures State() == Initial()
    {
      types := EmptyDict();
      imports := EmptyDict();
      exports := EmptyDict();
      importKey := Some(Str(""));
      initKey := Some(Str(""));
      fdClose := Some(Num(0));
      fdSeek := Some(Num(0));
    }

    /** The statements of an arrow function passed to a top-level call. */
    method VisitArrowBody(stmts: seq<Stmt>) returns (ok: bool)
      modifies this
      ensures Ran(ok, State()) == Fold(ExportStep, old(State()), stmts)
    {
      ghost var t0 := State();
      for i := 0 to |stmts|
        invariant Fold(ExportStep, t0, stmts[..i]) == Ok(State())
      {
        FoldNext(ExportStep, t0, stmts, i);
        var s := stmts[i];
        if s.ExprStmt? && s.expression.Assign? {
          var name := IdentOf(s.expression.left);
          var right := s.expression.right;
          if right.Member? {
            if name.None? {
              FoldStops(ExportStep, t0, stmts, i + 1);
              return false;
            }
            var symbol := Text(LitVal(right.property));
            exports := Put(exports, name.value, ExportEntry(name.value, symbol));
          }
        }
      }
      assert stmts[..|stmts|] == stmts;
      ok := true;
    }

    /** The arguments of a top-level call expression. */
    method VisitArguments(args: seq<Expr>) returns (ok: bool)
      modifies this
      ensures Ran(ok, State()) == Fold(ArgStep, old(State()), args)
    {
      ghost var t0 := State();
      for i := 0 to |args|
        invariant Fold(ArgStep, t0, args[..i]) == Ok(State())
      {
        FoldNext(ArgStep, t0, args, i);
        var a := args[i];
        if a.Arrow? {
          ok := VisitArrowBody(a.block);
          if !ok {
            FoldStops(ArgStep, t0, args, i + 1);
            return;
          }
        } else if a.ArrowExpr? {
          FoldStops(ArgStep, t0, args, i + 1);
          return false;
        }
      }
      assert args[..|args|] == args;
      ok := true;
    }

    /** One property of the `wasmImports` object: the import is recorded
        under the glue's value name, with the type 'unknown' when that name
        is not in H_TYPES. */
    method VisitImport(p: Property)
      requires p.Prop?
      modifies this
      ensures ImportStep(old(State()), p) == Ok(State())
    {
      var value := KeyText(IdentOf(p.value));
      var entry := Import(KeyText(IdentOf(p.key)), "g_imports." + RenameText(value));
      if value !in H_TYPES {
        types := Put(types, value, "unknown");
      }
      imports := Put(imports, value, entry);
    }

    /** The properties of the `wasmImports` object. */
    method VisitImports(props: seq<Property>) returns (ok: bool)
      modifies this
      ensures Ran(ok, State()) == Fold(ImportStep, old(State()), props)
    {
      ghost var t0 := State();
      for i := 0 to |props|
        invariant Fold(ImportStep, t0, props[..i]) == Ok(State())
      {
        FoldNext(ImportStep, t0, props, i);
        var p := props[i];
        if p.Spread? {
          FoldStops(ImportStep, t0, props, i + 1);
          return false;
        }
        VisitImport(p);
      }
      assert props[..|props|] == props;
      ok := true;
    }

    /** The properties of the `imports` object. */
    method VisitImportKeys(props: seq<Property>) returns (ok: bool)
      modifies this
      ensures Ran(ok, State()) == Fold(ImportKeyStep, old(State()), props)
    {
      ghost var t0 := State();
      for i := 0 to |props|
        invariant Fold(ImportKeyStep, t0, props[..i]) == Ok(State())
      {
        FoldNext(ImportKeyStep, t0, props, i);
        var p := props[i];
        if p.Spread? {
          FoldStops(ImportKeyStep, t0, props, i + 1);
          return false;
        }
        if IdentOf(p.value) == Some("wasmImports") {
          importKey := LitVal(p.key);
        }
      }
      assert props[..|props|] == props;
      ok := true;
    }

    /** The declarators of a top-level variable declaration, each handed to
        the handler named like it. */
    method VisitDeclarations(decls: seq<Declarator>) returns (ok: bool)
      modifies this
      ensures Ran(ok, State()) == Fold(DeclStep, old(State()), decls)
    {
      ghost var t0 := State();
      for i := 0 to |decls|
        invariant Fold(DeclStep, t0, decls[..i]) == Ok(State())
      {
        FoldNext(DeclStep, t0, decls, i);
        var d := decls[i];
        var name := IdentOf(d.id);
        if name == Some("wasmImports") {
          if d.init.Some? && d.init.value.Object? {
            ok := VisitImports(d.init.value.properties);
            if !ok {
              FoldStops(DeclStep, t0, decls, i + 1);
              return;
            }
          }
        } else if name == Some("imports") {
          if d.init.Some? && d.init.value.Object? {
            ok := VisitImportKeys(d.init.value.properties);
            if !ok {
              FoldStops(DeclStep, t0, decls, i + 1);
              return;
            }
          }
        } else if name == Some("_fd_close") {
          if d.init.Some? && d.init.value.ArrowExpr? {
            fdClose := LitVal(d.init.value.result);
          } else if d.init.Some? && d.init.value.Arrow? {
            fdClose := None;
          }
        }
      }
      assert decls[..|decls|] == decls;
      ok := true;
    }

    /** The body of `function _fd_seek`. */
    method VisitSeek(body: seq<Stmt>) returns (ok: bool)
      modifies this
      ensures Ran(ok, State()) == Fold(SeekStep, old(State()), body)
    {
      ghost var t0 := State();
      for i := 0 to |body|
        invariant Fold(SeekStep, t0, body[..i]) == Ok(State())
      {
        FoldNext(SeekStep, t0, body, i);
        var s := body[i];
        if s.Return? {
          if s.argument.None? {
            FoldStops(SeekStep, t0, body, i + 1);
            return false;
          }
          fdSeek := LitVal(s.argument.value);
        }
      }
      assert body[..|body|] == body;
      ok := true;
    }

    /** The body of `function initRuntime`. */
    method VisitInitRuntime(body: seq<Stmt>)
      modifies this
      ensures Fold(InitStep, old(State()), body) == Ok(State())
    {
      ghost var t0 := State();
      for i := 0 to |body|
        invariant Fold(InitStep, t0, body[..i]) == Ok(State())
      {
        FoldNext(InitStep, t0, body, i);
        var s := body[i];
        if s.ExprStmt? && s.expression.Call? {
          var callee := s.expression.callee;
          if callee.Member? && IdentOf(callee.obj) == Some("wasmExports") {
            initKey := LitVal(callee.property);
          }
        }
      }
      assert body[..|body|] == body;
    }

    /** One top-level statement. */
    method VisitTop(top: Top) returns (ok: bool)
      modifies this
      ensures Ran(ok, State()) == TopStep(old(State()), top)
    {
      match top
      case TopExpr(e) =>
        if !e.Call? {
          return false;
        }
        ok := VisitArguments(e.arguments);
      case VarDecl(ds) =>
        ok := VisitDeclarations(ds);
      case FuncDecl(id, body) =>
        if id == "_fd_seek" {
          ok := VisitSeek(body);
        } else if id == "initRuntime" {
          VisitInitRuntime(body);
          ok := true;
        } else {
          ok := true;
        }
      case OtherTop =>
        ok := true;
    }

    /** The walk over the top level of the script. */
    method VisitProgram(program: seq<Top>) returns (ok: bool)
      modifies this
      ensures Ran(ok, State()) == Fold(TopStep, old(State()), program)
    {
      ghost var t0 := State();
      for i := 0 to |program|
        invariant Fold(TopStep, t0, program[..i]) == Ok(State())
      {
        FoldNext(TopStep, t0, program, i);
        ok := VisitTop(program[i]);
        if !ok {
          FoldStops(TopStep, t0, program, i + 1);
          return;
        }
      }
      assert program[..|program|] == program;
      ok := true;
    }

    /** Dropping the fd types and overriding the fd imports. */
    method Patch() returns (ok: bool)
      modifies this
      ensures Ran(ok, State()) == Generate.Patch(old(State()))
    {
      types := Delete(types, "_fd_seek");
      types := Delete(types, "_fd_close");
      if "_fd_seek" !in imports.at {
        return false;
      }
      imports := Put(imports, "_fd_seek", imports.at["_fd_seek"].(source := StubFor(fdSeek, "_fd_seek")));
      if "_fd_close" !in imports.at {
        return false;
      }
      imports := Put(imports, "_fd_close", imports.at["_fd_close"].(source := StubFor(fdClose, "_fd_close")));
      ok := true;
    }

    /** The whole script from its first line to the template it prints. */
    static method Run(program: seq<Top>) returns (g: Generator, ok: bool)
      ensures fresh(g)
      ensures Ran(ok, g.State()) == Generated(program)
    {
      g := new Generator();
      ok := g.VisitProgram(program);
      if ok {
        ok := g.Patch();
      }
    }
  }
}
