/**
 * What require() does with the code it is given, told from outside: which code runs, in
 * which order and from which state, what decides the outcome, and how a piece of code goes
 * through its actions.
 */
module LoadStages {
  import opened Bytes
  import opened Resolver
  import opened Sequences
  import opened Loading

  // ---- one piece of code ----

  /** One action takes the state `st` to `st'`, and `o` is what the code sees of it. */
  ghost predicate Acts(w: Catalog, st: State, cmd: Cmd, open: seq<Id>, st': State, o: Outcome)
    requires Inv(st, open)
  {
    match cmd
    case Call(arg, base) => Require(w, st, arg, base, open) == (st', o)
    case Assign(id, v) =>
      && o == Ret(v) && st'.loaded == st.loaded
      && if id !in st.loaded then st' == st
         else st'.exports == st.exports[st.loaded[id] := v] && st'.log == st.log + [Assigned(st.loaded[id], v)]
    case _ => false
  }

  /** The code is at its end after the outcomes `outs`, with this error. */
  ghost predicate Stops(sc: Script, outs: seq<Outcome>, e: Option<Error>)
    requires |outs| <= sc.len
  {
    if |outs| == sc.len then e == None
    else
      match sc.step(outs)
      case Return => e == None
      case Throw(error) => e == Some(error)
      case _ => false
  }

  /**
   * `states` and `outs` tell a whole run of the code whose first actions had the outcomes
   * `hist`: each action is chosen by all the outcomes before it, and acts on the state the
   * one before it left.
   */
  ghost predicate Plays(w: Catalog, sc: Script, hist: seq<Outcome>, open: seq<Id>,
                        states: seq<State>, outs: seq<Outcome>, e: Option<Error>) {
    && |states| == |outs| + 1 && |hist| + |outs| <= sc.len
    && (forall k | 0 <= k <= |outs| :: Inv(states[k], open))
    && (forall k | 0 <= k < |outs| :: Acts(w, states[k], sc.step(hist + outs[..k]), open, states[k + 1], outs[k]))
    && Stops(sc, hist + outs, e)
  }

  lemma PlaysFirst(w: Catalog, sc: Script, hist: seq<Outcome>, open: seq<Id>,
                   states: seq<State>, outs: seq<Outcome>, e: Option<Error>)
    requires Plays(w, sc, hist, open, states, outs, e) && outs != []
    ensures |hist| < sc.len && Acts(w, states[0], sc.step(hist), open, states[1], outs[0])
    ensures Plays(w, sc, hist + [outs[0]], open, states[1..], outs[1..], e)
  {
    assert hist + outs[..0] == hist;
    forall k | 0 <= k < |outs[1..]|
      ensures Acts(w, states[1..][k], sc.step(hist + [outs[0]] + outs[1..][..k]), open, states[1..][k + 1], outs[1..][k])
    {
      assert hist + [outs[0]] + outs[1..][..k] == hist + outs[..k + 1];
    }
    assert hist + [outs[0]] + outs[1..] == hist + outs;
  }

  lemma PlaysMore(w: Catalog, sc: Script, hist: seq<Outcome>, open: seq<Id>, st: State, o: Outcome,
                  states: seq<State>, outs: seq<Outcome>, e: Option<Error>)
    requires |hist| < sc.len && Inv(st, open) && |states| >= 1
    requires Acts(w, st, sc.step(hist), open, states[0], o) && Plays(w, sc, hist + [o], open, states, outs, e)
    ensures Plays(w, sc, hist, open, [st] + states, [o] + outs, e)
  {
    var states', outs' := [st] + states, [o] + outs;
    forall k | 0 <= k < |outs'|
      ensures Acts(w, states'[k], sc.step(hist + outs'[..k]), open, states'[k + 1], outs'[k])
    {
      if k == 0 {
        assert hist + outs'[..0] == hist;
      } else {
        assert hist + outs'[..k] == hist + [o] + outs[..k - 1];
      }
    }
    assert hist + outs' == hist + [o] + outs;
  }

  /** Every telling of a run ends where `Run` does. */
  lemma {:induction false} PlaysIsRun(w: Catalog, sc: Script, hist: seq<Outcome>, open: seq<Id>,
                                      states: seq<State>, outs: seq<Outcome>, e: Option<Error>)
    requires Plays(w, sc, hist, open, states, outs, e)
    ensures Run(w, states[0], sc, hist, open) == (states[|outs|], e)
    decreases |outs|
  {
    if outs == [] {
      assert hist + outs == hist;
    } else {
      PlaysFirst(w, sc, hist, open, states, outs, e);
      PlaysIsRun(w, sc, hist + [outs[0]], open, states[1..], outs[1..], e);
      if sc.step(hist).Assign? {
        assert states[1] == SetExports(states[0], sc.step(hist).id, sc.step(hist).v);
      }
    }
  }

  /** And every run can be told. */
  lemma {:induction false} RunIsPlayed(w: Catalog, st: State, sc: Script, hist: seq<Outcome>, open: seq<Id>)
    returns (states: seq<State>, outs: seq<Outcome>)
    requires Inv(st, open) && |hist| <= sc.len
    ensures |states| >= 1 && states[0] == st
    ensures Plays(w, sc, hist, open, states, outs, Run(w, st, sc, hist, open).1)
    decreases sc.len - |hist|
  {
    states, outs := [st], [];
    assert hist + outs == hist;
    if |hist| < sc.len && (sc.step(hist).Assign? || sc.step(hist).Call?) {
      var st1: State, o: Outcome;
      match sc.step(hist) {
        case Assign(id, v) => st1, o := SetExports(st, id, v), Ret(v);
        case Call(arg, base) =>
          var r := Require(w, st, arg, base, open);
          st1, o := r.0, r.1;
      }
      states, outs := RunIsPlayed(w, st1, sc, hist + [o], open);
      PlaysMore(w, sc, hist, open, st, o, states, outs, Run(w, st1, sc, hist + [o], open).1);
      states, outs := [st] + states, [o] + outs;
    }
  }

  /**
   * A run and its end are one thing: code ends with `e` in `st'` exactly when it can get
   * there action by action, each chosen by what the ones before it gave.
   */
  lemma RunWhen(w: Catalog, st: State, sc: Script, open: seq<Id>, st': State, e: Option<Error>)
    requires Inv(st, open)
    ensures Run(w, st, sc, [], open) == (st', e) <==>
      exists states, outs :: Plays(w, sc, [], open, states, outs, e) && states[0] == st && states[|outs|] == st'
  {
    if Run(w, st, sc, [], open) == (st', e) {
      var states, outs := RunIsPlayed(w, st, sc, [], open);
      PlaysIsRun(w, sc, [], open, states, outs, e);
      assert states[0] == st && states[|outs|] == st';
    }
    if states, outs :| Plays(w, sc, [], open, states, outs, e) && states[0] == st && states[|outs|] == st' {
      PlaysIsRun(w, sc, [], open, states, outs, e);
    }
  }

  // ---- the stages of a load ----

  /** The code that a load runs, in this order: the search, what lies outside the wrapper, and the module. */
  function Stages(def: Def): (parts: seq<Script>) {
    [def.search] + (
      match def.source
      case Program(eval, ModuleFunction(body)) => [eval, body]
      case Program(eval, Primitive) => [eval]
      case _ => [])
  }

  /**
   * The parts run one after the other, each from where the one before it ended; the first
   * error ends them, and `e` is that error.
   */
  ghost predicate InTurn(w: Catalog, parts: seq<Script>, open: seq<Id>, states: seq<State>, e: Option<Error>) {
    && 1 <= |states| <= |parts| + 1 && (|states| == 1 ==> e == None)
    && (e == None ==> |states| == |parts| + 1)
    && forall k | 0 <= k < |states| - 1 ::
         Inv(states[k], open) && Run(w, states[k], parts[k], [], open) == (states[k + 1], if k == |states| - 2 then e else None)
  }

  /** The module is registered with a fresh exports table. */
  function Registered(st: State, id: Id): State {
    State(st.loaded[id := |st.exports|], st.exports + [DefaultExports(|st.exports|)], st.log + [Started(id, |st.exports|)])
  }

  /** The load of `id` throws `e` and forgets its entry. */
  ghost predicate Forgets(st: State, id: Id, m: nat, e: Error, r: (State, Outcome)) {
    r == (State(st.loaded - {id}, st.exports, st.log + [Failed(id, m)]), Exc(e))
  }

  /** The load of `id` throws `e` and its entry stays. */
  ghost predicate Leaves(st: State, id: Id, m: nat, e: Error, r: (State, Outcome)) {
    r == (State(st.loaded, st.exports, st.log + [Abandoned(id, m)]), Exc(e))
  }

  /** The load of `id` returns the exports its module object has now. */
  ghost predicate Returns(st: State, id: Id, m: nat, r: (State, Outcome)) {
    m < |st.exports| && r == (State(st.loaded, st.exports, st.log + [Finished(id, m)]), Ret(st.exports[m]))
  }

  /** What becomes of a load whose stages ran to the last of `states` with the error `e`. */
  ghost predicate Concludes(def: Def, id: Id, m: nat, st: State, e: Option<Error>, r: (State, Outcome)) {
    match e
    case Some(error) => Forgets(st, id, m, error, r)
    case None =>
      match def.source
      case NoSource => Returns(st, id, m, r)
      case Unjoinable => Leaves(st, id, m, NotJoined, r)
      case Uncompilable(error) => Forgets(st, id, m, error, r)
      case Program(_, Primitive) => Leaves(st, id, m, NotAnObject, r)
      case Program(_, ModuleFunction(_)) => Returns(st, id, m, r)
  }

  /**
   * A request for an id that is not registered: the search, the outer code and the module
   * run in this order from the registered state. The first of them to end with an error
   * decides: the request throws that very error, the entry is gone, and no later one runs.
   * Without an error the source decides, and otherwise the request returns the exports that
   * the module left. An id that cannot be found runs nothing.
   */
  lemma RequireRuns(w: Catalog, st: State, req: seq<byte>, base: Option<Id>, open: seq<Id>,
                    states: seq<State>, e: Option<Error>)
    requires Inv(st, open) && Resolve(req, base).Some? && Resolve(req, base).value.id !in st.loaded
    ensures var id, m, r := Resolve(req, base).value.id, |st.exports|, Require(w, st, StringArg(req), base, open);
      && (id !in w ==> Forgets(Registered(st, id), id, m, NotFound(id), r))
      && (id in w && states != [] && states[0] == Registered(st, id) && InTurn(w, Stages(w[id](m)), open + [id], states, e) ==>
           Concludes(w[id](m), id, m, states[|states| - 1], e, r))
  {
    var id, m := Resolve(req, base).value.id, |st.exports|;
    var open', st0 := open + [id], Registered(st, id);
    assert id in open';
    assert Require(w, st, StringArg(req), base, open) == Load(w, st, id, open);
    if id in w && states != [] && states[0] == st0 && InTurn(w, Stages(w[id](m)), open', states, e) {
      StagesRun(w, st0, id, m, open, states, e);
      SameModule(st0, states[|states| - 1], id, open');
    } else if id !in w {
      assert Execute(w, st0, id, m, open) == (st0, Caught(NotFound(id)));
    }
  }

  lemma SameModule(st: State, st': State, id: Id, open: seq<Id>)
    requires Grows(st, st') && id in st.loaded && Inv(st', open)
    ensures id in st'.loaded && st'.loaded[id] == st.loaded[id] && st'.loaded[id] < |st'.exports|
  {
  }

  /** How the stages end is how the load ends. */
  lemma StagesRun(w: Catalog, st: State, id: Id, m: nat, open: seq<Id>, states: seq<State>, e: Option<Error>)
    requires id in w && Inv(st, open + [id]) && states != [] && states[0] == st
    requires InTurn(w, Stages(w[id](m)), open + [id], states, e)
    ensures var def := w[id](m);
      Execute(w, st, id, m, open) ==
        (states[|states| - 1],
         if e.Some? then Caught(e.value)
         else match def.source
           case Unjoinable => Escaped(NotJoined)
           case Uncompilable(error) => Caught(error)
           case Program(_, Primitive) => Escaped(NotAnObject)
           case _ => Completed)
    ensures Inv(states[|states| - 1], open + [id]) && Grows(st, states[|states| - 1])
  {
    var def, open' := w[id](m), open + [id];
    var parts := Stages(def);
    assert Run(w, states[0], parts[0], [], open').0 == states[1];
    if |states| > 2 {
      assert Run(w, states[1], parts[1], [], open').0 == states[2];
    }
    if |states| > 3 {
      assert Run(w, states[2], parts[2], [], open').0 == states[3];
    }
  }

  /** There is always such a telling: the stages can be run. */
  lemma StagesExist(w: Catalog, st: State, parts: seq<Script>, open: seq<Id>) returns (states: seq<State>, e: Option<Error>)
    requires Inv(st, open)
    ensures states != [] && states[0] == st && InTurn(w, parts, open, states, e)
    decreases |parts|
  {
    states, e := [st], None;
    if parts != [] {
      var (st1, e1) := Run(w, st, parts[0], [], open);
      if e1.Some? {
        states, e := [st, st1], e1;
      } else {
        states, e := StagesExist(w, st1, parts[1..], open);
        states := [st] + states;
      }
    }
  }

  /** A request for a registered id runs nothing and returns the exports its module object has now. */
  lemma HitRunsNothing(w: Catalog, st: State, req: seq<byte>, base: Option<Id>, open: seq<Id>)
    requires Inv(st, open) && Resolve(req, base).Some? && Resolve(req, base).value.id in st.loaded
    ensures var id := Resolve(req, base).value.id;
      Require(w, st, StringArg(req), base, open) ==
        (State(st.loaded, st.exports, st.log + [Cached(id, st.loaded[id], st.exports[st.loaded[id]])]),
         Ret(st.exports[st.loaded[id]]))
  {
  }

  /** Three parts of which the first two end without error. */
  lemma ThreeInTurn(w: Catalog, a: Script, b: Script, c: Script, open: seq<Id>,
                    s0: State, s1: State, s2: State, s3: State, e: Option<Error>)
    requires Inv(s0, open) && Inv(s1, open) && Inv(s2, open)
    requires Run(w, s0, a, [], open) == (s1, None) && Run(w, s1, b, [], open) == (s2, None)
    requires Run(w, s2, c, [], open) == (s3, e)
    ensures InTurn(w, [a, b, c], open, [s0, s1, s2, s3], e)
  {
  }

  /**
   * Of a module that the search finds and whose text evaluates to a function, when search
   * and evaluation end without error in `s2`: the request throws what the module throws,
   * and otherwise returns the exports that the module left; all that the module did is in
   * the log.
   */
  lemma ModuleDecides(w: Catalog, st: State, req: seq<byte>, base: Option<Id>, open: seq<Id>,
                      def: Def, s1: State, s2: State, s3: State, e: Option<Error>)
    requires Inv(st, open) && Resolve(req, base).Some?
    requires var id := Resolve(req, base).value.id;
      && id in w && id !in st.loaded && def == w[id](|st.exports|) && def.source.Program? && def.source.value.ModuleFunction?
      && Inv(Registered(st, id), open + [id]) && Inv(s1, open + [id]) && Inv(s2, open + [id])
      && Run(w, Registered(st, id), def.search, [], open + [id]) == (s1, None)
      && Run(w, s1, def.source.eval, [], open + [id]) == (s2, None)
      && Run(w, s2, def.source.value.body, [], open + [id]) == (s3, e)
    ensures var id, m := Resolve(req, base).value.id, |st.exports|;
      var (st', o) := Require(w, st, StringArg(req), base, open);
      && s3.log <= st'.log && st'.exports == s3.exports
      && (match e
          case Some(error) => o == Exc(error) && st'.loaded == s3.loaded - {id}
          case None => m < |s3.exports| && o == Ret(s3.exports[m]) && st'.loaded == s3.loaded)
  {
    var id := Resolve(req, base).value.id;
    var states := [Registered(st, id), s1, s2, s3];
    ThreeInTurn(w, def.search, def.source.eval, def.source.value.body, open + [id], states[0], s1, s2, s3, e);
    assert Stages(def) == [def.search, def.source.eval, def.source.value.body];
    RequireRuns(w, st, req, base, open, states, e);
    assert Concludes(def, id, |st.exports|, s3, e, Require(w, st, StringArg(req), base, open));
  }
}
