/**
 * duk__require as it runs: one value stack per call, addressed by fixed indices, the
 * cache and the module objects updated step by step. Every call works on a stack of its
 * own and computes what Loading.Require says.
 */
module RequireMachine {
  import opened Bytes
  import opened Resolver
  import opened Sequences
  import opened Loading
  import LoadTrace

  const IDX_REQUESTED_ID: nat := 0
  const IDX_REQUIRE: nat := 1
  const IDX_REQUIRE_ID: nat := 2
  const IDX_RESOLVED_ID: nat := 3
  const IDX_LASTCOMP: nat := 4
  const IDX_DUKTAPE: nat := 5
  const IDX_MODLOADED: nat := 6
  const IDX_UNDEFINED: nat := 7
  const IDX_FRESH_REQUIRE: nat := 8
  const IDX_EXPORTS: nat := 9
  const IDX_MODULE: nat := 10

  datatype Slot =
    | Argument(arg: Arg)
    | RequireFunction(base: Option<Id>)
    | Text(s: seq<byte>)
    | Undefined
    | Stash
    | Duktape
    | ModLoaded
    | Module(m: nat)
    | Exports(v: Value)
    | ModSearch
    | SourceText(source: Source)
    | WrappedText(source: Source)
    | Compiled(source: Source)
    | Evaluation(value: Evaluated)
    | Thrown(error: Error)

  ghost predicate FixedSlots(s: seq<Slot>, id: Id, m: nat) {
    && |s| >= IDX_MODULE + 1
    && s[IDX_RESOLVED_ID] == Text(id)
    && s[IDX_LASTCOMP].Text?
    && s[IDX_FRESH_REQUIRE] == RequireFunction(Some(id))
    && s[IDX_EXPORTS] == Exports(DefaultExports(m))
    && s[IDX_MODULE] == Module(m)
  }

  lemma SlotsAbove(s: seq<Slot>, n: nat, t: seq<Slot>, id: Id, m: nat)
    requires IDX_MODULE + 1 <= n <= |s| && FixedSlots(s, id, m)
    ensures FixedSlots(s[..n] + t, id, m) && FixedSlots(s + t, id, m)
  {
  }

  class Engine {
    const catalog: Catalog
    var stack: seq<Slot>
    var loaded: map<Id, nat>
    var exports: seq<Value>
    ghost var log: seq<Event>

    constructor (w: Catalog)
      ensures catalog == w && Abs() == EMPTY && stack == []
    {
      catalog := w;
      stack, loaded, exports, log := [], map[], [], [];
    }

    ghost function Abs(): State
      reads this
    {
      State(loaded, exports, log)
    }

    // ---- the stack ----

    method Push(s: Slot)
      modifies this`stack
      ensures stack == old(stack) + [s]
    {
      stack := stack + [s];
    }

    method Pop() returns (s: Slot)
      requires |stack| >= 1
      modifies this`stack
      ensures s == old(stack)[|old(stack)| - 1] && stack == old(stack)[..|old(stack)| - 1]
    {
      s := stack[|stack| - 1];
      stack := stack[..|stack| - 1];
    }

    method PopN(n: nat)
      requires |stack| >= n
      modifies this`stack
      ensures stack == old(stack)[..|old(stack)| - n]
    {
      stack := stack[..|stack| - n];
    }

    method Dup(i: nat)
      requires i < |stack|
      modifies this`stack
      ensures stack == old(stack) + [old(stack)[i]]
    {
      stack := stack + [stack[i]];
    }

    /** duk_remove(ctx, -2) */
    method RemoveBelowTop()
      requires |stack| >= 2
      modifies this`stack
      ensures stack == old(stack)[..|old(stack)| - 2] + [old(stack)[|old(stack)| - 1]]
    {
      stack := stack[..|stack| - 2] + [stack[|stack| - 1]];
    }

    // ---- the cache object and module objects ----

    /** duk_get_prop(modLoaded): the key on the top is replaced by the entry or undefined. */
    method GetLoaded() returns (found: bool)
      requires |stack| >= 1 && stack[|stack| - 1].Text?
      modifies this`stack
      ensures var id := old(stack)[|old(stack)| - 1].s;
        && (found <==> id in loaded)
        && stack == old(stack)[..|old(stack)| - 1] + [if found then Module(loaded[id]) else Undefined]
    {
      var key := Pop();
      found := key.s in loaded;
      Push(if found then Module(loaded[key.s]) else Undefined);
    }

    /** duk_put_prop(modLoaded): key and module on the top are popped. */
    method PutLoaded()
      requires |stack| >= 2 && stack[|stack| - 2].Text? && stack[|stack| - 1].Module?
      modifies this`stack, this`loaded
      ensures stack == old(stack)[..|old(stack)| - 2]
      ensures loaded == old(loaded)[old(stack)[|old(stack)| - 2].s := old(stack)[|old(stack)| - 1].m]
    {
      var value := Pop();
      var key := Pop();
      loaded := loaded[key.s := value.m];
    }

    /** duk_del_prop(modLoaded): the key on the top is popped. */
    method DeleteLoaded()
      requires |stack| >= 1 && stack[|stack| - 1].Text?
      modifies this`stack, this`loaded
      ensures stack == old(stack)[..|old(stack)| - 1]
      ensures loaded == old(loaded) - {old(stack)[|old(stack)| - 1].s}
    {
      var key := Pop();
      loaded := loaded - {key.s};
    }

    /** duk_get_prop_string(i, "exports") for a module object. */
    method GetExports(i: nat)
      requires i < |stack| && stack[i].Module? && stack[i].m < |exports|
      modifies this`stack
      ensures stack == old(stack) + [Exports(exports[old(stack)[i].m])]
    {
      Push(Exports(exports[stack[i].m]));
    }

    /** Push a fresh exports table and a fresh module object holding it. */
    method PushExportsAndModule()
      modifies this`stack, this`exports
      ensures exports == old(exports) + [DefaultExports(|old(exports)|)]
      ensures stack == old(stack) + [Exports(DefaultExports(|old(exports)|)), Module(|old(exports)|)]
    {
      var m := |exports|;
      Push(Exports(DefaultExports(m)));
      exports := exports + [DefaultExports(m)];
      Push(Module(m));
    }

    // ---- running code ----

    /** Run the rest of a script in a frame of its own. */
    method RunScript(sc: Script, hist: seq<Outcome>, ghost open: seq<Id>) returns (e: Option<Error>)
      requires Inv(Abs(), open) && |hist| <= sc.len
      modifies this
      ensures (Abs(), e) == Run(catalog, old(Abs()), sc, hist, open)
      ensures stack == old(stack)
      decreases catalog.Keys - Elements(open), sc.len - |hist|, 0
    {
      if |hist| == sc.len {
        return None;
      }
      match sc.step(hist) {
        case Return =>
          e := None;
        case Throw(error) =>
          e := Some(error);
        case Assign(id, v) =>
          if id in loaded {
            exports := exports[loaded[id] := v];
            log := log + [Assigned(loaded[id], v)];
          }
          e := RunScript(sc, hist + [Ret(v)], open);
        case Call(arg, base) =>
          var o := RequireCall(arg, base, open);
          e := RunScript(sc, hist + [o], open);
      }
    }

    /** duk_pcall and its like: `drop` slots are replaced by the result or the error. */
    method ProtectedRun(sc: Script, drop: nat, result: Slot, ghost open: seq<Id>) returns (ok: bool)
      requires Inv(Abs(), open) && |stack| >= drop
      modifies this
      ensures var (st, e) := Run(catalog, old(Abs()), sc, [], open);
        && Abs() == st && (ok <==> e.None?)
        && stack == old(stack)[..|old(stack)| - drop] + [if ok then result else Thrown(e.value)]
      decreases catalog.Keys - Elements(open), sc.len, 1
    {
      PopN(drop);
      var e := RunScript(sc, [], open);
      ok := e.None?;
      Push(if ok then result else Thrown(e.value));
    }

    // ---- duk__require ----

    /** What every stage below keeps in the fixed slots. */
    ghost predicate Frame(id: Id, m: nat)
      reads this
    {
      FixedSlots(stack, id, m)
    }

    /** The label delete_rethrow: forget the entry and rethrow the error on the top. */
    method DeleteRethrow(ghost id: Id, ghost m: nat) returns (o: Outcome)
      requires Frame(id, m) && id in loaded && loaded[id] == m
      requires stack[|stack| - 1].Thrown?
      modifies this
      ensures Abs() == Rollback(old(Abs()), id)
      ensures o == Exc(old(stack)[|old(stack)| - 1].error)
    {
      Dup(IDX_RESOLVED_ID);
      log := log + [Failed(id, loaded[id])];
      DeleteLoaded();
      var top := Pop();
      o := Exc(top.error);
    }

    /** The label return_exports. */
    method ReturnExports(ghost id: Id, ghost m: nat) returns (o: Outcome)
      requires Frame(id, m) && id in loaded && loaded[id] == m && m < |exports|
      modifies this
      ensures Abs() == Finish(old(Abs()), id)
      ensures o == Ret(exports[m]) && exports == old(exports)
    {
      log := log + [Finished(id, loaded[id])];
      GetExports(IDX_MODULE);
      var top := Pop();
      o := Ret(top.v);
    }

    /** A call duk_push_string(key); duk_get_prop_string(module, ...) with a default from slot `i`. */
    method PushPropertyOr(p: Option<seq<byte>>, i: nat)
      requires i < |stack| && stack[i].Text?
      modifies this`stack
      ensures stack == old(stack) + [if p.Some? then Text(p.value) else old(stack)[i]]
    {
      Push(if p.Some? then Text(p.value) else Undefined);
      if p.None? {
        PopN(1);
        Dup(i);
      }
    }

    /** Push the `this` value and the three arguments of the module function. */
    method PushModuleCall(ghost id: Id, ghost m: nat)
      requires |stack| == IDX_MODULE + 2 && Frame(id, m) && m < |exports|
      modifies this`stack
      ensures |stack| == IDX_MODULE + 6 && stack[..IDX_MODULE + 2] == old(stack)
      ensures stack[IDX_MODULE + 2..] ==
        [Exports(DefaultExports(m)), RequireFunction(Some(id)), Exports(exports[m]), Module(m)]
    {
      Dup(IDX_EXPORTS);
      Dup(IDX_FRESH_REQUIRE);
      GetExports(IDX_MODULE);
      Dup(IDX_MODULE);
    }

    /** From the call of the wrapped module function to the end. */
    method CallModule(body: Script, ghost id: Id, ghost m: nat, ghost open: seq<Id>) returns (o: Outcome)
      requires Inv(Abs(), open) && id in open && id in loaded && loaded[id] == m
      requires |stack| == IDX_MODULE + 2 && Frame(id, m)
      modifies this
      ensures var (st, e) := Run(catalog, old(Abs()), body, [], open);
        (Abs(), o) == Settle(st, id, EndingOf(e))
      decreases catalog.Keys - Elements(open), body.len, 2
    {
      ghost var before := stack;
      PushModuleCall(id, m);
      ghost var full := stack;
      assert full[..IDX_MODULE + 1] == before[..IDX_MODULE + 1];
      var ok := ProtectedRun(body, 5, Undefined, open);
      assert |stack| == IDX_MODULE + 2;
      SlotsAbove(before, IDX_MODULE + 1, [stack[IDX_MODULE + 1]], id, m);
      assert stack == before[..IDX_MODULE + 1] + [stack[IDX_MODULE + 1]];
      if !ok {
        o := DeleteRethrow(id, m);
      } else {
        o := ReturnExports(id, m);
      }
    }

    /** Join the source text with its wrapper, which throws for a symbol and for text that is too long. */
    method JoinSource(source: Source, ghost id: Id, ghost m: nat) returns (ok: bool)
      requires |stack| == IDX_MODULE + 3 && Frame(id, m)
      modifies this`stack
      ensures ok <==> !source.Unjoinable?
      ensures ok ==> |stack| == IDX_MODULE + 2 && Frame(id, m) && stack[IDX_MODULE + 1] == WrappedText(source)
    {
      ghost var below := stack[..IDX_MODULE + 1];
      Push(Text([]));                           // the closing "})"
      ok := !source.Unjoinable?;
      if ok {
        PopN(3);                                // duk_concat(ctx, 3)
        assert stack == below;
        Push(WrappedText(source));
      }
    }

    /** Compile the wrapped text; the compiled program or the error is on the top. */
    method CompileSource(def: Def, ghost id: Id, ghost m: nat) returns (ok: bool)
      requires |stack| == IDX_MODULE + 2 && Frame(id, m) && stack[IDX_MODULE + 1] == WrappedText(def.source)
      requires def.source.Uncompilable? || def.source.Program?
      modifies this`stack
      ensures |stack| == IDX_MODULE + 2 && Frame(id, m)
      ensures ok <==> def.source.Program?
      ensures stack[IDX_MODULE + 1] == if ok then Compiled(def.source) else Thrown(def.source.error)
    {
      ghost var below := stack[..IDX_MODULE + 1];
      PushPropertyOr(def.filename, IDX_RESOLVED_ID);
      PopN(2);                                  // duk_pcompile
      assert stack == below;
      ok := def.source.Program?;
      Push(if ok then Compiled(def.source) else Thrown(def.source.error));
    }

    /** The protected call that evaluates the compiled program; its value or the error is on the top. */
    method Evaluate(ghost id: Id, ghost m: nat, ghost open: seq<Id>) returns (ok: bool)
      requires Inv(Abs(), open)
      requires |stack| == IDX_MODULE + 2 && Frame(id, m)
      requires stack[IDX_MODULE + 1].Compiled? && stack[IDX_MODULE + 1].source.Program?
      modifies this
      ensures |stack| == IDX_MODULE + 2 && Frame(id, m)
      ensures var source := old(stack)[IDX_MODULE + 1].source;
        var (st, e) := Run(catalog, old(Abs()), source.eval, [], open);
        && Abs() == st && (ok <==> e.None?)
        && stack[IDX_MODULE + 1] == if ok then Evaluation(source.value) else Thrown(e.value)
      decreases catalog.Keys - Elements(open), stack[IDX_MODULE + 1].source.eval.len, 2
    {
      ghost var before := stack;
      var source := stack[IDX_MODULE + 1].source;
      ok := ProtectedRun(source.eval, 1, Evaluation(source.value), open);
      SlotsAbove(before, IDX_MODULE + 1, [stack[IDX_MODULE + 1]], id, m);
      assert stack == before[..IDX_MODULE + 1] + [stack[IDX_MODULE + 1]];
    }

    /** Define the name of the value on the top, which throws when that is no object. */
    method DefineName(def: Def, ghost id: Id, ghost m: nat) returns (ok: bool)
      requires |stack| == IDX_MODULE + 2 && Frame(id, m) && stack[IDX_MODULE + 1].Evaluation?
      modifies this`stack
      ensures ok <==> old(stack)[IDX_MODULE + 1].value.ModuleFunction?
      ensures ok ==> stack == old(stack)
      ensures |stack| > IDX_MODULE + 1 && stack[..IDX_MODULE + 2] == old(stack)
    {
      ghost var before := stack;
      Push(Text([]));                           // "name"
      PushPropertyOr(def.name, IDX_LASTCOMP);
      assert stack[..IDX_MODULE + 2] == before;
      ok := stack[|stack| - 3].value.ModuleFunction?;
      if ok {
        PopN(2);                                // duk_def_prop(ctx, -3)
      }
    }

    /** An error thrown with no protected call around it: the entry stays. */
    method Escape(error: Error, ghost id: Id) returns (o: Outcome)
      requires id in loaded
      modifies this`log
      ensures Abs() == Abandon(old(Abs()), id) && o == Exc(error)
    {
      log := log + [Abandoned(id, loaded[id])];
      o := Exc(error);
    }

    /** From the compiled program on the top to the end. */
    method EvaluateAndCall(def: Def, ghost id: Id, ghost m: nat, ghost open: seq<Id>) returns (o: Outcome)
      requires Inv(Abs(), open) && id in open && id in loaded && loaded[id] == m
      requires |stack| == IDX_MODULE + 2 && Frame(id, m)
      requires def.source.Program? && stack[IDX_MODULE + 1] == Compiled(def.source)
      modifies this
      ensures var (st, e) := RunSource(catalog, old(Abs()), def.source, open);
        (Abs(), o) == Settle(st, id, e)
      decreases catalog.Keys - Elements(open), SourceSize(def.source), 3
    {
      var ok := Evaluate(id, m, open);
      if !ok {
        o := DeleteRethrow(id, m);
        return;
      }
      ok := DefineName(def, id, m);
      if !ok {
        o := Escape(NotAnObject, id);
      } else {
        o := CallModule(stack[IDX_MODULE + 1].value.body, id, m, open);
      }
    }

    /** From the return of modSearch to the end. */
    method CompileAndCall(def: Def, ghost id: Id, ghost m: nat, ghost open: seq<Id>) returns (o: Outcome)
      requires Inv(Abs(), open) && id in open && id in loaded && loaded[id] == m
      requires |stack| == IDX_MODULE + 3 && Frame(id, m)
      requires stack[IDX_MODULE + 2] == SourceText(def.source)
      modifies this
      ensures var (st, e) := RunSource(catalog, old(Abs()), def.source, open);
        (Abs(), o) == Settle(st, id, e)
      decreases catalog.Keys - Elements(open), SourceSize(def.source), 4
    {
      if stack[IDX_MODULE + 2].source.NoSource? {
        o := ReturnExports(id, m);
        return;
      }
      var ok := JoinSource(def.source, id, m);
      if !ok {
        o := Escape(NotJoined, id);
        return;
      }
      ok := CompileSource(def, id, m);
      if !ok {
        o := DeleteRethrow(id, m);
      } else {
        o := EvaluateAndCall(def, id, m, open);
      }
    }

    /** Make the fresh require function, the exports table and the module object, and register it. */
    method PrepareModule(ghost id: Id)
      requires id !in loaded && |stack| == IDX_UNDEFINED + 1
      requires stack[IDX_RESOLVED_ID] == Text(id) && stack[IDX_LASTCOMP].Text?
      modifies this
      ensures Abs() == Register(old(Abs()), id)
      ensures |stack| == IDX_MODULE + 1 && Frame(id, |old(exports)|)
    {
      Push(RequireFunction(Some(stack[IDX_RESOLVED_ID].s)));
      PushExportsAndModule();
      assert |stack| == IDX_MODULE + 1;
      log := log + [Started(id, stack[IDX_MODULE].m)];
      Dup(IDX_RESOLVED_ID);
      Dup(IDX_MODULE);
      PutLoaded();
    }

    /** Push the search function and its four arguments. */
    method PushSearchCall(ghost id: Id, ghost m: nat)
      requires |stack| == IDX_MODULE + 2 && Frame(id, m)
      modifies this`stack
      ensures |stack| == IDX_MODULE + 7 && stack[..IDX_MODULE + 2] == old(stack)
      ensures stack[IDX_MODULE + 2..] ==
        [ModSearch, Text(id), RequireFunction(Some(id)), Exports(DefaultExports(m)), Module(m)]
    {
      Push(ModSearch);
      Dup(IDX_RESOLVED_ID);
      Dup(IDX_FRESH_REQUIRE);
      Dup(IDX_EXPORTS);
      Dup(IDX_MODULE);
    }

    /** The protected call Duktape.modSearch(resolved_id, fresh_require, exports, module). */
    method CallModSearch(ghost id: Id, ghost m: nat, ghost open: seq<Id>) returns (ok: bool, def: Option<Def>)
      requires Inv(Abs(), open) && |exports| == m + 1
      requires |stack| == IDX_MODULE + 1 && Frame(id, m)
      modifies this
      ensures |stack| == IDX_MODULE + 3 && Frame(id, m) && stack[IDX_MODULE + 1] == Text([])
      ensures id !in catalog ==>
        !ok && def.None? && Abs() == old(Abs()) && stack[IDX_MODULE + 2] == Thrown(NotFound(id))
      ensures id in catalog ==>
        && def == Some(catalog[id](m))
        && var (st, e) := Run(catalog, old(Abs()), def.value.search, [], open);
        && Abs() == st && (ok <==> e.None?)
        && stack[IDX_MODULE + 2] == if ok then SourceText(def.value.source) else Thrown(e.value)
      decreases catalog.Keys - Elements(open), if id in catalog then catalog[id](m).search.len else 0, 2
    {
      Push(Text([]));                           // "(function(require,exports,module){"
      ghost var below := stack;
      PushSearchCall(id, m);
      var asked := stack[IDX_MODULE + 3].s;
      if asked !in catalog {
        PopN(5);
        Push(Thrown(NotFound(asked)));
        ok, def := false, None;
      } else {
        def := Some(catalog[asked](stack[IDX_MODULE].m));
        ok := ProtectedRun(def.value.search, 5, SourceText(def.value.source), open);
      }
      assert stack[..IDX_MODULE + 2] == below;
    }

    /** The part of duk__require behind the cache miss. */
    method LoadModule(ghost id: Id, ghost open: seq<Id>) returns (o: Outcome)
      requires Inv(Abs(), open) && id !in loaded
      requires |stack| == IDX_UNDEFINED + 1
      requires stack[IDX_RESOLVED_ID] == Text(id) && stack[IDX_LASTCOMP].Text?
      modifies this
      ensures (Abs(), o) == Load(catalog, old(Abs()), id, open)
      decreases catalog.Keys - Elements(open), 0, 3
    {
      ghost var m := |exports|;
      PrepareModule(id);
      ghost var open' := open + [id];
      assert Inv(Abs(), open');
      assert id in open' && id in Elements(open') && id !in Elements(open);
      var ok, def := CallModSearch(id, m, open');
      if !ok {
        o := DeleteRethrow(id, m);
      } else {
        o := CompileAndCall(def.value, id, m, open');
      }
    }

    /** From the resolved id to the cache lookup: the stack up to Duktape.modLoaded[id]. */
    method LookUp(res: Resolved) returns (found: bool)
      requires |stack| == IDX_REQUIRE_ID + 1
      modifies this`stack
      ensures |stack| == IDX_UNDEFINED + 1 && (found <==> res.id in loaded)
      ensures stack[IDX_RESOLVED_ID] == Text(res.id) && stack[IDX_LASTCOMP] == Text(res.last)
      ensures stack[IDX_UNDEFINED] == if found then Module(loaded[res.id]) else Undefined
    {
      Push(Text(res.id));
      Push(Text(res.last));
      assert |stack| == IDX_LASTCOMP + 1;
      Push(Stash);
      Push(Duktape);
      RemoveBelowTop();
      Push(ModLoaded);
      assert |stack| == IDX_MODLOADED + 1;
      Dup(IDX_RESOLVED_ID);
      found := GetLoaded();
    }

    /** A call of the native function duk__require with `require.id` equal to `base`. */
    method RequireCall(arg: Arg, base: Option<Id>, ghost open: seq<Id>) returns (o: Outcome)
      requires Inv(Abs(), open)
      modifies this
      ensures (Abs(), o) == Require(catalog, old(Abs()), arg, base, open)
      ensures stack == old(stack)
      decreases catalog.Keys - Elements(open), 0, 4
    {
      var caller := stack;
      stack := [Argument(arg)];
      if arg.OtherArg? {
        stack := caller;
        return Exc(BadArgument);
      }
      Push(RequireFunction(base));
      Push(if base.Some? then Text(base.value) else Undefined);
      var res := ResolveModuleId(arg.s, base);
      if res.None? {
        stack := caller;
        return Exc(Unresolvable(arg.s));
      }
      var found := LookUp(res.value);
      if found {
        log := log + [Cached(res.value.id, stack[IDX_UNDEFINED].m, exports[stack[IDX_UNDEFINED].m])];
        GetExports(IDX_UNDEFINED);
        o := Ret(stack[|stack| - 1].v);
      } else {
        o := LoadModule(res.value.id, open);
      }
      stack := caller;
    }

    /** A whole program run in a new environment: its log keeps every promise of the module cache. */
    method RunProgram(sc: Script) returns (e: Option<Error>)
      requires Abs() == EMPTY
      modifies this
      ensures stack == old(stack)
      ensures LoadTrace.Replay(catalog.Keys, log) == Some(LoadTrace.View(loaded, exports, []))
      ensures LoadTrace.AddsOnlyEnded(catalog, EMPTY, Abs())
    {
      e := RunScript(sc, [], []);
      LoadTrace.WholeRun(catalog, sc);
    }
  }
}
