/**
 * The meaning of require(): nested, re-entrant loading of modules through the cache
 * Duktape.modLoaded. Module code and the module search callback are interactive
 * scripts; every event that matters is recorded in a log.
 */
module Loading {
  import opened Bytes
  import opened Resolver
  import opened Sequences

  type Id = seq<byte>

  /** Values of module.exports: the table made for module object `m`, or anything else. */
  datatype Value = DefaultExports(m: nat) | Custom(n: int)

  datatype Error = BadArgument | Unresolvable(req: seq<byte>) | NotFound(id: Id) | NotJoined | NotAnObject | Raised(n: int)

  datatype Outcome = Ret(value: Value) | Exc(error: Error)

  /** The argument of require(): a string, or something that is not one. */
  datatype Arg = StringArg(s: seq<byte>) | OtherArg

  /**
   * One action of running code. `Call` calls some require function, whose `id` property
   * (its resolution base) is `base`; `Assign` replaces module.exports of the module
   * registered under `id`.
   */
  datatype Cmd = Call(arg: Arg, base: Option<Id>) | Assign(id: Id, v: Value) | Throw(error: Error) | Return

  /**
   * Code that performs at most `len` actions. Each action may depend on the outcome of
   * all earlier ones, so code may catch failures, retry, or rethrow.
   */
  datatype Script = Script(len: nat, step: seq<Outcome> -> Cmd)

  /** What the wrapped text evaluates to: something that can be called as a module, or no object. */
  datatype Evaluated = ModuleFunction(body: Script) | Primitive

  /**
   * What modSearch hands back: no source text; a string that cannot be joined with its
   * wrapper, because it is a symbol or too long; text that does not compile; or text whose
   * evaluation runs `eval`. Most texts run nothing there, but text that closes the wrapper
   * early does.
   */
  datatype Source = NoSource | Unjoinable | Uncompilable(error: Error) | Program(eval: Script, value: Evaluated)

  datatype Def = Def(search: Script, source: Source, filename: Option<seq<byte>>, name: Option<seq<byte>>)

  /**
   * The modules that can be found. What is found may differ from one load to the next:
   * the argument is the number of module objects made before.
   */
  type Catalog = map<Id, nat -> Def>

  datatype Event =
    | Started(id: Id, m: nat)             // module object m registered under id, modSearch called
    | Finished(id: Id, m: nat)            // the load of id succeeded
    | Failed(id: Id, m: nat)              // the load of id failed, its entry was deleted
    | Abandoned(id: Id, m: nat)           // the load of id threw outside of every protected call
    | Cached(id: Id, m: nat, v: Value)    // a request for id was answered from the cache with v
    | Assigned(m: nat, v: Value)          // module object m got new exports

  /** Module objects are numbered; `loaded` is Duktape.modLoaded. */
  datatype State = State(loaded: map<Id, nat>, exports: seq<Value>, log: seq<Event>)

  const EMPTY := State(map[], [], [])

  /** `open` are the loads in progress, outermost first. */
  ghost predicate Inv(st: State, open: seq<Id>) {
    && Distinct(open)
    && (forall id | id in open :: id in st.loaded)
    && (forall id | id in st.loaded :: st.loaded[id] < |st.exports|)
  }

  /** Entries survive, module objects and events are never taken back. */
  ghost predicate Grows(st: State, st': State) {
    && |st.exports| <= |st'.exports|
    && st.log <= st'.log
    && (forall id | id in st.loaded :: id in st'.loaded && st'.loaded[id] == st.loaded[id])
  }

  function Register(st: State, id: Id): State {
    var m := |st.exports|;
    State(st.loaded[id := m], st.exports + [DefaultExports(m)], st.log + [Started(id, m)])
  }

  function Finish(st: State, id: Id): State
    requires id in st.loaded
  {
    st.(log := st.log + [Finished(id, st.loaded[id])])
  }

  function Rollback(st: State, id: Id): State
    requires id in st.loaded
  {
    st.(loaded := st.loaded - {id}, log := st.log + [Failed(id, st.loaded[id])])
  }

  function SetExports(st: State, id: Id, v: Value): State
    requires forall i | i in st.loaded :: st.loaded[i] < |st.exports|
  {
    if id !in st.loaded then st
    else
      var m := st.loaded[id];
      st.(exports := st.exports[m := v], log := st.log + [Assigned(m, v)])
  }

  function ReadCache(st: State, id: Id): (r: (State, Outcome))
    requires id in st.loaded && st.loaded[id] < |st.exports|
  {
    var m := st.loaded[id];
    (st.(log := st.log + [Cached(id, m, st.exports[m])]), Ret(st.exports[m]))
  }

  function Abandon(st: State, id: Id): State
    requires id in st.loaded
  {
    st.(log := st.log + [Abandoned(id, st.loaded[id])])
  }

  /** How a load ends: it succeeds, an error is caught and rethrown, or an error escapes. */
  datatype Ending = Completed | Caught(error: Error) | Escaped(error: Error)

  function EndingOf(e: Option<Error>): Ending {
    if e.Some? then Caught(e.value) else Completed
  }

  /** The end of a load: keep the entry, delete it and rethrow, or throw with the entry in place. */
  function Settle(st: State, id: Id, e: Ending): (r: (State, Outcome))
    requires id in st.loaded && st.loaded[id] < |st.exports|
  {
    match e
    case Completed => (Finish(st, id), Ret(st.exports[st.loaded[id]]))
    case Caught(error) => (Rollback(st, id), Exc(error))
    case Escaped(error) => (Abandon(st, id), Exc(error))
  }

  /** Run the rest of a script whose first actions had the outcomes `hist`. */
  function Run(w: Catalog, st: State, sc: Script, hist: seq<Outcome>, open: seq<Id>): (r: (State, Option<Error>))
    requires Inv(st, open) && |hist| <= sc.len
    ensures Inv(r.0, open) && Grows(st, r.0)
    decreases w.Keys - Elements(open), sc.len - |hist|, 0
  {
    if |hist| == sc.len then (st, None)
    else
      match sc.step(hist)
      case Return => (st, None)
      case Throw(e) => (st, Some(e))
      case Assign(id, v) => Run(w, SetExports(st, id, v), sc, hist + [Ret(v)], open)
      case Call(arg, base) =>
        var (st1, o) := Require(w, st, arg, base, open);
        Run(w, st1, sc, hist + [o], open)
  }

  function SourceSize(source: Source): nat {
    if source.Program? then source.eval.len + (if source.value.Primitive? then 0 else source.value.body.len) else 0
  }

  /**
   * Join the source text with its wrapper, compile it, evaluate it and run the module
   * function, if there is one. The text is joined, and the name of the function defined,
   * outside of every protected call.
   */
  function RunSource(w: Catalog, st: State, source: Source, open: seq<Id>): (r: (State, Ending))
    requires Inv(st, open)
    ensures Inv(r.0, open) && Grows(st, r.0)
    decreases w.Keys - Elements(open), SourceSize(source), 1
  {
    match source
    case NoSource => (st, Completed)
    case Unjoinable => (st, Escaped(NotJoined))
    case Uncompilable(e) => (st, Caught(e))
    case Program(eval, value) =>
      var (st1, e1) := Run(w, st, eval, [], open);
      if e1.Some? then (st1, Caught(e1.value))
      else if value.Primitive? then (st1, Escaped(NotAnObject))
      else var (st2, e2) := Run(w, st1, value.body, [], open); (st2, EndingOf(e2))
  }

  /** The search and the module code of `id`, with module object `m` registered. */
  function Execute(w: Catalog, st: State, id: Id, m: nat, open: seq<Id>): (r: (State, Ending))
    requires Inv(st, open + [id])
    ensures Inv(r.0, open + [id]) && Grows(st, r.0)
    decreases w.Keys - Elements(open), 0, 0
  {
    if id !in w then (st, Caught(NotFound(id)))
    else
      EnterLoad(w.Keys, id, open);
      var def := w[id](m);
      var (st1, e1) := Run(w, st, def.search, [], open + [id]);
      if e1.Some? then (st1, Caught(e1.value)) else RunSource(w, st1, def.source, open + [id])
  }

  /** The load of a module that is not in the cache. */
  function Load(w: Catalog, st: State, id: Id, open: seq<Id>): (r: (State, Outcome))
    requires Inv(st, open) && id !in st.loaded
    ensures Inv(r.0, open) && Grows(st, r.0)
    decreases w.Keys - Elements(open), 0, 1
  {
    var (st1, e) := Execute(w, Register(st, id), id, |st.exports|, open);
    assert id in open + [id];
    Settle(st1, id, e)
  }

  /** A call of a require function whose resolution base is `base`. */
  function Require(w: Catalog, st: State, arg: Arg, base: Option<Id>, open: seq<Id>): (r: (State, Outcome))
    requires Inv(st, open)
    ensures Inv(r.0, open) && Grows(st, r.0)
    decreases w.Keys - Elements(open), 0, 2
  {
    match arg
    case OtherArg => (st, Exc(BadArgument))
    case StringArg(s) =>
      match Resolve(s, base)
      case None => (st, Exc(Unresolvable(s)))
      case Some(res) =>
        if res.id in st.loaded then ReadCache(st, res.id)
        else Load(w, st, res.id, open)
  }

  /** Entering the load of an id that can be found uses up that id. */
  lemma EnterLoad(known: set<Id>, id: Id, open: seq<Id>)
    requires Distinct(open + [id]) && id in known
    ensures known - Elements(open + [id]) < known - Elements(open)
  {
    var open' := open + [id];
    assert id in open' && id in Elements(open');
    assert Elements(open) <= Elements(open');
    forall i | 0 <= i < |open| ensures open[i] != id {
      assert open'[i] != open'[|open|];
    }
    assert id !in Elements(open);
  }
}
