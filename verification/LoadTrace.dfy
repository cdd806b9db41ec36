/**
 * What every run of require() keeps, nested and cyclic ones included: its log replays
 * legally, and a legal log cannot break the promises of the module cache
 * (CommonJS Modules/1.1.1, section "Module Context").
 */
module LoadTrace {
  import opened Bytes
  import opened Resolver
  import opened Sequences
  import opened Loading

  /** The cache, the module objects and the loads in progress, as a log shows them. */
  datatype View = View(loaded: map<Id, nat>, exports: seq<Value>, open: seq<Id>)

  const INITIAL := View(map[], [], [])

  /** Replay one event, None when it is out of place. `known` are the ids that can be found. */
  function Step(known: set<Id>, v: View, e: Event): (r: Option<View>) {
    match e
    case Started(id, m) =>
      if id !in v.loaded && m == |v.exports| && Elements(v.open) <= known then
        Some(View(v.loaded[id := m], v.exports + [DefaultExports(m)], v.open + [id]))
      else None
    case Finished(id, m) =>
      if v.open != [] && v.open[|v.open| - 1] == id && id in v.loaded && v.loaded[id] == m then
        Some(v.(open := v.open[..|v.open| - 1]))
      else None
    case Failed(id, m) =>
      if v.open != [] && v.open[|v.open| - 1] == id && id in v.loaded && v.loaded[id] == m then
        Some(v.(open := v.open[..|v.open| - 1], loaded := v.loaded - {id}))
      else None
    case Abandoned(id, m) =>
      if v.open != [] && v.open[|v.open| - 1] == id && id in v.loaded && v.loaded[id] == m then
        Some(v.(open := v.open[..|v.open| - 1]))
      else None
    case Cached(id, m, x) =>
      if id in v.loaded && v.loaded[id] == m && m < |v.exports| && v.exports[m] == x then Some(v) else None
    case Assigned(m, x) =>
      if m < |v.exports| then Some(v.(exports := v.exports[m := x])) else None
  }

  function Replay(known: set<Id>, log: seq<Event>): (r: Option<View>) {
    if log == [] then Some(INITIAL)
    else
      var r := Replay(known, log[..|log| - 1]);
      if r.None? then None else Step(known, r.value, log[|log| - 1])
  }

  lemma ReplayPush(known: set<Id>, log: seq<Event>, e: Event)
    ensures var r := Replay(known, log);
      Replay(known, log + [e]) == if r.None? then None else Step(known, r.value, e)
  {
    assert (log + [e])[..|log|] == log;
  }

  lemma {:induction false} ReplayPrefix(known: set<Id>, log: seq<Event>, k: nat)
    requires k <= |log| && Replay(known, log).Some?
    ensures Replay(known, log[..k]).Some?
    decreases |log|
  {
    if k < |log| {
      ReplayPrefix(known, log[..|log| - 1], k);
      assert log[..|log| - 1][..k] == log[..k];
    } else {
      assert log[..k] == log;
    }
  }

  // ---- every run has a legal log ----

  /** The log of `st` replays to `st` itself, with `open` in progress. */
  ghost predicate Faithful(known: set<Id>, st: State, open: seq<Id>) {
    Replay(known, st.log) == Some(View(st.loaded, st.exports, open))
  }

  lemma {:induction false} RunIsLegal(w: Catalog, st: State, sc: Script, hist: seq<Outcome>, open: seq<Id>)
    requires Inv(st, open) && |hist| <= sc.len
    requires Faithful(w.Keys, st, open) && Elements(open) <= w.Keys
    ensures Faithful(w.Keys, Run(w, st, sc, hist, open).0, open)
    decreases w.Keys - Elements(open), sc.len - |hist|, 0
  {
    if |hist| < sc.len {
      match sc.step(hist)
      case Return =>
      case Throw(e) =>
      case Assign(id, v) =>
        if id in st.loaded {
          ReplayPush(w.Keys, st.log, Assigned(st.loaded[id], v));
        }
        RunIsLegal(w, SetExports(st, id, v), sc, hist + [Ret(v)], open);
      case Call(arg, base) =>
        RequireIsLegal(w, st, arg, base, open);
        var (st1, o) := Require(w, st, arg, base, open);
        RunIsLegal(w, st1, sc, hist + [o], open);
    }
  }

  lemma {:induction false} ExecuteIsLegal(w: Catalog, st: State, id: Id, m: nat, open: seq<Id>)
    requires Inv(st, open + [id]) && Elements(open) <= w.Keys
    requires Faithful(w.Keys, st, open + [id])
    ensures Faithful(w.Keys, Execute(w, st, id, m, open).0, open + [id])
    decreases w.Keys - Elements(open), 0, 0
  {
    if id in w {
      EnterLoad(w.Keys, id, open);
      assert Elements(open + [id]) <= w.Keys;
      var def := w[id](m);
      RunIsLegal(w, st, def.search, [], open + [id]);
      var (st1, e1) := Run(w, st, def.search, [], open + [id]);
      if e1.None? {
        SourceIsLegal(w, st1, def.source, open + [id]);
      }
    }
  }

  lemma {:induction false} SourceIsLegal(w: Catalog, st: State, source: Source, open: seq<Id>)
    requires Inv(st, open)
    requires Faithful(w.Keys, st, open) && Elements(open) <= w.Keys
    ensures Faithful(w.Keys, RunSource(w, st, source, open).0, open)
    decreases w.Keys - Elements(open), SourceSize(source), 1
  {
    if source.Program? {
      RunIsLegal(w, st, source.eval, [], open);
      var (st1, e1) := Run(w, st, source.eval, [], open);
      if e1.None? && source.value.ModuleFunction? {
        RunIsLegal(w, st1, source.value.body, [], open);
      }
    }
  }

  lemma {:induction false} LoadIsLegal(w: Catalog, st: State, id: Id, open: seq<Id>)
    requires Inv(st, open) && id !in st.loaded
    requires Faithful(w.Keys, st, open) && Elements(open) <= w.Keys
    ensures Faithful(w.Keys, Load(w, st, id, open).0, open)
    decreases w.Keys - Elements(open), 0, 1
  {
    var st0, m := Register(st, id), |st.exports|;
    ReplayPush(w.Keys, st.log, Started(id, m));
    ExecuteIsLegal(w, st0, id, m, open);
    assert id in open + [id];
    ClosingIsLegal(w.Keys, Execute(w, st0, id, m, open).0, id, open);
  }

  lemma {:induction false} RequireIsLegal(w: Catalog, st: State, arg: Arg, base: Option<Id>, open: seq<Id>)
    requires Inv(st, open)
    requires Faithful(w.Keys, st, open) && Elements(open) <= w.Keys
    ensures Faithful(w.Keys, Require(w, st, arg, base, open).0, open)
    decreases w.Keys - Elements(open), 0, 2
  {
    if arg.StringArg? && Resolve(arg.s, base).Some? {
      var id := Resolve(arg.s, base).value.id;
      if id in st.loaded {
        HitIsLegal(w.Keys, st, id, open);
        assert Require(w, st, arg, base, open) == ReadCache(st, id);
      } else {
        LoadIsLegal(w, st, id, open);
        assert Require(w, st, arg, base, open) == Load(w, st, id, open);
      }
    }
  }

  lemma HitIsLegal(known: set<Id>, st: State, id: Id, open: seq<Id>)
    requires id in st.loaded && st.loaded[id] < |st.exports| && Faithful(known, st, open)
    ensures Faithful(known, ReadCache(st, id).0, open)
  {
    ReplayPush(known, st.log, Cached(id, st.loaded[id], st.exports[st.loaded[id]]));
  }

  /** All ways of ending the innermost load are legal. */
  lemma ClosingIsLegal(known: set<Id>, st: State, id: Id, open: seq<Id>)
    requires id in st.loaded && Faithful(known, st, open + [id])
    ensures Faithful(known, Finish(st, id), open)
    ensures Faithful(known, Rollback(st, id), open)
    ensures Faithful(known, Abandon(st, id), open)
  {
    assert (open + [id])[..|open|] == open;
    ReplayPush(known, st.log, Finished(id, st.loaded[id]));
    ReplayPush(known, st.log, Failed(id, st.loaded[id]));
    ReplayPush(known, st.log, Abandoned(id, st.loaded[id]));
  }

  // ---- what a legal log promises ----

  /** At every moment the loads in progress are distinct and registered. */
  lemma {:induction false} InProgress(known: set<Id>, log: seq<Event>)
    requires Replay(known, log).Some?
    ensures var v := Replay(known, log).value;
      && Distinct(v.open)
      && (forall id | id in v.open :: id in v.loaded)
      && (forall id | id in v.loaded :: v.loaded[id] < |v.exports|)
      && (v.open != [] ==> Elements(v.open[..|v.open| - 1]) <= known)
  {
    if log != [] {
      var k := |log| - 1;
      InProgress(known, log[..k]);
      var u, v := Replay(known, log[..k]).value, Replay(known, log).value;
      match log[k]
      case Started(id, m) =>
        assert v.open[..|v.open| - 1] == u.open;
      case Finished(id, m) =>
        SubOpen(v.open, u.open, known);
      case Failed(id, m) =>
        SubOpen(v.open, u.open, known);
        assert forall i | i in v.open :: i != id;
      case Abandoned(id, m) =>
        SubOpen(v.open, u.open, known);
      case Cached(id, m, x) =>
      case Assigned(m, x) =>
    }
  }

  lemma SubOpen(small: seq<Id>, big: seq<Id>, known: set<Id>)
    requires big != [] && small == big[..|big| - 1] && Elements(big[..|big| - 1]) <= known
    ensures small != [] ==> Elements(small[..|small| - 1]) <= known
  {
    if small != [] {
      forall id | id in small[..|small| - 1] ensures id in known {
        assert id in small && id in Elements(small);
      }
    }
  }

  lemma {:induction false} DistinctSize(open: seq<Id>)
    requires Distinct(open)
    ensures |Elements(open)| == |open|
  {
    if open != [] {
      var init, id := open[..|open| - 1], open[|open| - 1];
      DistinctSize(init);
      assert Elements(open) == Elements(init) + {id};
    }
  }

  lemma {:induction false} SubsetSize(a: set<Id>, b: set<Id>)
    requires a <= b
    ensures |a| <= |b|
  {
    if a != {} {
      var x :| x in a;
      SubsetSize(a - {x}, b - {x});
    }
  }

  /** Loads never nest deeper than one more than the number of ids that can be found. */
  lemma DepthBound(known: set<Id>, log: seq<Event>, k: nat)
    requires k <= |log| && Replay(known, log).Some?
    ensures Replay(known, log[..k]).Some?
    ensures |Replay(known, log[..k]).value.open| <= |known| + 1
  {
    ReplayPrefix(known, log, k);
    InProgress(known, log[..k]);
    var open := Replay(known, log[..k]).value.open;
    if open != [] {
      var init := open[..|open| - 1];
      DistinctSize(init);
      SubsetSize(Elements(init), known);
    }
  }

  /** A failed load of `id` lies in log[i..j]. */
  ghost predicate FailsBetween(log: seq<Event>, id: Id, i: nat, j: nat)
    requires j <= |log|
  {
    exists k | i <= k < j :: log[k].Failed? && log[k].id == id
  }

  lemma ReplayLast(known: set<Id>, log: seq<Event>, j: nat)
    requires 1 <= j <= |log| && Replay(known, log).Some?
    ensures Replay(known, log[..j - 1]).Some?
    ensures Replay(known, log[..j]) == Step(known, Replay(known, log[..j - 1]).value, log[j - 1])
    ensures Replay(known, log[..j]).Some?
  {
    ReplayPrefix(known, log, j);
    assert log[..j][..j - 1] == log[..j - 1];
  }

  lemma StepKeepsEntry(known: set<Id>, u: View, e: Event, id: Id)
    requires id in u.loaded && Step(known, u, e).Some? && !(e.Failed? && e.id == id)
    ensures id in Step(known, u, e).value.loaded && Step(known, u, e).value.loaded[id] == u.loaded[id]
  {
  }

  /** From its registration on, an entry stays until a failure, and keeps its module object. */
  lemma {:induction false} EntryStays(known: set<Id>, log: seq<Event>, i: nat, j: nat, id: Id)
    requires i <= j <= |log| && Replay(known, log).Some?
    requires Replay(known, log[..i]).Some? && id in Replay(known, log[..i]).value.loaded
    requires !FailsBetween(log, id, i, j)
    ensures Replay(known, log[..j]).Some? && id in Replay(known, log[..j]).value.loaded
    ensures Replay(known, log[..j]).value.loaded[id] == Replay(known, log[..i]).value.loaded[id]
    decreases j
  {
    if i < j {
      assert !FailsBetween(log, id, i, j - 1);
      EntryStays(known, log, i, j - 1, id);
      ReplayLast(known, log, j);
      StepKeepsEntry(known, Replay(known, log[..j - 1]).value, log[j - 1], id);
    }
  }

  lemma AfterStart(known: set<Id>, log: seq<Event>, i: nat)
    requires i < |log| && log[i].Started? && Replay(known, log).Some?
    ensures Replay(known, log[..i + 1]).Some?
    ensures var v := Replay(known, log[..i + 1]).value; log[i].id in v.loaded && v.loaded[log[i].id] == log[i].m
  {
    ReplayPrefix(known, log, i + 1);
    assert log[..i + 1][..i] == log[..i];
  }

  lemma AtEvent(known: set<Id>, log: seq<Event>, j: nat)
    requires j < |log| && Replay(known, log).Some?
    ensures Replay(known, log[..j]).Some? && Step(known, Replay(known, log[..j]).value, log[j]).Some?
  {
    ReplayPrefix(known, log, j + 1);
    assert log[..j + 1][..j] == log[..j];
  }

  /** Between two executions of the load of one id, the earlier one failed. */
  lemma ReloadNeedsFailure(known: set<Id>, log: seq<Event>, i: nat, j: nat)
    requires i < j < |log| && Replay(known, log).Some?
    requires log[i].Started? && log[j].Started? && log[i].id == log[j].id
    ensures FailsBetween(log, log[i].id, i + 1, j)
  {
    if !FailsBetween(log, log[i].id, i + 1, j) {
      AfterStart(known, log, i);
      EntryStays(known, log, i + 1, j, log[i].id);
      AtEvent(known, log, j);
      assert false;
    }
  }

  /** The exports of module object `m` after `log`: the last assignment, or the table it was made with. */
  function LastExports(log: seq<Event>, m: nat): (v: Value) {
    if log == [] then DefaultExports(m)
    else
      match log[|log| - 1]
      case Assigned(m', v) => if m' == m then v else LastExports(log[..|log| - 1], m)
      case _ => LastExports(log[..|log| - 1], m)
  }

  lemma {:induction false} ExportsAreLast(known: set<Id>, log: seq<Event>, m: nat)
    requires Replay(known, log).Some? && m < |Replay(known, log).value.exports|
    ensures Replay(known, log).value.exports[m] == LastExports(log, m)
  {
    if log != [] {
      var k := |log| - 1;
      var u := Replay(known, log[..k]).value;
      if m < |u.exports| {
        ExportsAreLast(known, log[..k], m);
      } else {
        NeverAssigned(known, log[..k], m);
      }
    }
  }

  /** A module object that does not exist yet was never assigned to. */
  lemma {:induction false} NeverAssigned(known: set<Id>, log: seq<Event>, m: nat)
    requires Replay(known, log).Some? && m >= |Replay(known, log).value.exports|
    ensures LastExports(log, m) == DefaultExports(m)
  {
    if log != [] {
      NeverAssigned(known, log[..|log| - 1], m);
    }
  }

  /**
   * Once a load of `id` started, and until it fails, every request for `id` is answered
   * from the cache with the current exports of that module object: while it is in
   * progress (circular requests) and after it succeeded.
   */
  lemma CacheServesTheLoad(known: set<Id>, log: seq<Event>, i: nat, j: nat)
    requires i < j < |log| && Replay(known, log).Some?
    requires log[i].Started? && !FailsBetween(log, log[i].id, i + 1, j)
    ensures !(log[j].Started? && log[j].id == log[i].id)
    ensures log[j].Cached? && log[j].id == log[i].id ==>
      log[j].m == log[i].m && log[j].v == LastExports(log[..j], log[i].m)
  {
    AfterStart(known, log, i);
    EntryStays(known, log, i + 1, j, log[i].id);
    AtEvent(known, log, j);
    if log[j].Cached? && log[j].id == log[i].id {
      ExportsAreLast(known, log[..j], log[i].m);
    }
  }

  predicate Ends(e: Event) {
    e.Finished? || e.Abandoned?
  }

  /**
   * A success is for good: the id is never loaded again and its entry never deleted. So,
   * against the intent, is an abandoned load.
   */
  lemma {:induction false} SuccessIsPermanent(known: set<Id>, log: seq<Event>, i: nat, j: nat)
    requires i < j < |log| && Replay(known, log).Some? && Ends(log[i])
    ensures !(log[j].Started? && log[j].id == log[i].id)
    ensures !(log[j].Failed? && log[j].id == log[i].id)
    ensures log[j].Cached? && log[j].id == log[i].id ==> log[j].m == log[i].m
  {
    SettledStays(known, log, i, j);
    AtEvent(known, log, j);
  }

  ghost predicate Settled(v: View, id: Id, m: nat) {
    id !in v.open && id in v.loaded && v.loaded[id] == m
  }

  lemma StepKeepsSettled(known: set<Id>, u: View, e: Event, id: Id, m: nat)
    requires Settled(u, id, m) && Step(known, u, e).Some?
    ensures Settled(Step(known, u, e).value, id, m)
  {
    var v := Step(known, u, e).value;
    if e.Finished? || e.Failed? || e.Abandoned? {
      assert e.id in u.open;
      assert forall i | i in v.open :: i in u.open;
    }
  }

  lemma FinishSettles(known: set<Id>, u: View, e: Event)
    requires Ends(e) && Step(known, u, e).Some? && Distinct(u.open)
    ensures Settled(Step(known, u, e).value, e.id, e.m)
  {
  }

  /** After a success, or an abandoned load, the id stays registered and is not in progress. */
  lemma {:induction false} SettledStays(known: set<Id>, log: seq<Event>, i: nat, j: nat)
    requires i < j <= |log| && Replay(known, log).Some? && Ends(log[i])
    ensures Replay(known, log[..j]).Some? && Settled(Replay(known, log[..j]).value, log[i].id, log[i].m)
    decreases j
  {
    ReplayLast(known, log, j);
    var u := Replay(known, log[..j - 1]).value;
    if i < j - 1 {
      SettledStays(known, log, i, j - 1);
      StepKeepsSettled(known, u, log[j - 1], log[i].id, log[i].m);
    } else {
      InProgress(known, log[..j - 1]);
      FinishSettles(known, u, log[i]);
    }
  }

  // ---- what one call of require() does to the cache ----

  ghost predicate FinishedIn(log: seq<Event>, id: Id, m: nat) {
    exists k | 0 <= k < |log| :: log[k] == Finished(id, m)
  }

  /** The source can make the load throw outside of every protected call. */
  predicate Unsafe(source: Source) {
    source.Unjoinable? || (source.Program? && source.value.Primitive?)
  }

  /** Every source that can be found is joined with its wrapper and evaluates to an object, if at all. */
  ghost predicate AllSafe(w: Catalog) {
    forall id, m: nat | id in w :: !Unsafe(w[id](m).source)
  }

  /** The load of `id` succeeded, or was abandoned over a source that is not safe. */
  ghost predicate EndedIn(w: Catalog, log: seq<Event>, id: Id, m: nat) {
    exists k | 0 <= k < |log| :: log[k] == Finished(id, m) || (log[k] == Abandoned(id, m) && !AllSafe(w))
  }

  /** Every entry of `st'` that `st` does not have belongs to a load that ended so in between. */
  ghost predicate AddsOnlyEnded(w: Catalog, st: State, st': State) {
    && st.log <= st'.log
    && forall id | id in st'.loaded && id !in st.loaded ::
      EndedIn(w, st'.log[|st.log|..], id, st'.loaded[id])
  }

  /** The event at `k` of a part of a log, found again in a longer part. */
  lemma EndedLater(w: Catalog, part: seq<Event>, before: seq<Event>, after: seq<Event>, id: Id, m: nat)
    requires EndedIn(w, part, id, m)
    ensures EndedIn(w, before + part + after, id, m)
  {
    var k :| 0 <= k < |part| && (part[k] == Finished(id, m) || (part[k] == Abandoned(id, m) && !AllSafe(w)));
    assert (before + part + after)[|before| + k] == part[k];
  }

  lemma AddsTrans(w: Catalog, a: State, b: State, c: State)
    requires AddsOnlyEnded(w, a, b) && AddsOnlyEnded(w, b, c) && Grows(b, c)
    ensures AddsOnlyEnded(w, a, c)
  {
    var first, second := b.log[|a.log|..], c.log[|b.log|..];
    assert c.log[|a.log|..] == first + second;
    forall id | id in c.loaded && id !in a.loaded
      ensures EndedIn(w, c.log[|a.log|..], id, c.loaded[id])
    {
      if id in b.loaded {
        EndedLater(w, first, [], second, id, b.loaded[id]);
        assert [] + first + second == first + second;
      } else {
        EndedLater(w, second, first, [], id, c.loaded[id]);
        assert first + second + [] == first + second;
      }
    }
  }

  lemma {:induction false} RunAdds(w: Catalog, st: State, sc: Script, hist: seq<Outcome>, open: seq<Id>)
    requires Inv(st, open) && |hist| <= sc.len
    ensures AddsOnlyEnded(w, st, Run(w, st, sc, hist, open).0)
    decreases w.Keys - Elements(open), sc.len - |hist|, 0
  {
    if |hist| < sc.len {
      match sc.step(hist)
      case Return =>
      case Throw(e) =>
      case Assign(id, v) =>
        RunAdds(w, SetExports(st, id, v), sc, hist + [Ret(v)], open);
        AddsTrans(w, st, SetExports(st, id, v), Run(w, st, sc, hist, open).0);
      case Call(arg, base) =>
        RequireAdds(w, st, arg, base, open);
        var (st1, o) := Require(w, st, arg, base, open);
        RunAdds(w, st1, sc, hist + [o], open);
        AddsTrans(w, st, st1, Run(w, st, sc, hist, open).0);
    }
  }

  /** How the load of `id` would end if it were started now. */
  function LoadEnding(w: Catalog, st: State, id: Id, open: seq<Id>): Ending
    requires Inv(st, open) && id !in st.loaded
  {
    assert Inv(Register(st, id), open + [id]);
    Execute(w, Register(st, id), id, |st.exports|, open).1
  }

  /**
   * Entries present before a call survive it with their module objects; a call adds only
   * entries whose own load succeeded, or whose source is not safe; a failing call leaves
   * the requested id absent exactly when its error did not escape, as none does when every
   * source is safe; a successful call returns the current exports.
   */
  lemma {:induction false} RequireAdds(w: Catalog, st: State, arg: Arg, base: Option<Id>, open: seq<Id>)
    requires Inv(st, open)
    ensures var (st', o) := Require(w, st, arg, base, open);
      && (forall id | id in st.loaded :: id in st'.loaded && st'.loaded[id] == st.loaded[id])
      && AddsOnlyEnded(w, st, st')
      && (arg.StringArg? && Resolve(arg.s, base).Some? ==>
           var id := Resolve(arg.s, base).value.id;
           && (o.Exc? ==> id !in st.loaded && (id in st'.loaded <==> LoadEnding(w, st, id, open).Escaped?))
           && (o.Exc? && AllSafe(w) ==> id !in st'.loaded)
           && (o.Ret? ==> id in st'.loaded && o.value == st'.exports[st'.loaded[id]]))
      && (arg.OtherArg? || Resolve(arg.s, base).None? ==> o.Exc? && st' == st)
    decreases w.Keys - Elements(open), 0, 2
  {
    if arg.StringArg? && Resolve(arg.s, base).Some? {
      var id := Resolve(arg.s, base).value.id;
      if id !in st.loaded {
        LoadAdds(w, st, id, open);
      }
    }
  }

  lemma {:induction false} ExecuteAdds(w: Catalog, st: State, id: Id, m: nat, open: seq<Id>)
    requires Inv(st, open + [id])
    ensures AddsOnlyEnded(w, st, Execute(w, st, id, m, open).0)
    ensures Execute(w, st, id, m, open).1.Escaped? ==> !AllSafe(w)
    decreases w.Keys - Elements(open), 0, 0
  {
    if id in w {
      EnterLoad(w.Keys, id, open);
      var def := w[id](m);
      RunAdds(w, st, def.search, [], open + [id]);
      var (st1, e1) := Run(w, st, def.search, [], open + [id]);
      if e1.None? {
        SourceAdds(w, st1, def.source, open + [id]);
        AddsTrans(w, st, st1, RunSource(w, st1, def.source, open + [id]).0);
      }
    }
  }

  lemma {:induction false} SourceAdds(w: Catalog, st: State, source: Source, open: seq<Id>)
    requires Inv(st, open)
    ensures AddsOnlyEnded(w, st, RunSource(w, st, source, open).0)
    ensures RunSource(w, st, source, open).1.Escaped? ==> Unsafe(source)
    decreases w.Keys - Elements(open), SourceSize(source), 1
  {
    if source.Program? {
      RunAdds(w, st, source.eval, [], open);
      var (st1, e1) := Run(w, st, source.eval, [], open);
      if e1.None? && source.value.ModuleFunction? {
        RunAdds(w, st1, source.value.body, [], open);
        AddsTrans(w, st, st1, Run(w, st1, source.value.body, [], open).0);
      }
    }
  }

  lemma {:induction false} LoadAdds(w: Catalog, st: State, id: Id, open: seq<Id>)
    requires Inv(st, open) && id !in st.loaded
    ensures var (st', o) := Load(w, st, id, open);
      && AddsOnlyEnded(w, st, st')
      && (o.Exc? ==> (id in st'.loaded <==> LoadEnding(w, st, id, open).Escaped?))
      && (o.Exc? && AllSafe(w) ==> id !in st'.loaded)
      && (o.Ret? ==> id in st'.loaded && o.value == st'.exports[st'.loaded[id]])
    decreases w.Keys - Elements(open), 0, 1
  {
    var st0, m := Register(st, id), |st.exports|;
    ExecuteAdds(w, st0, id, m, open);
    assert id in open + [id];
    var (st1, e) := Execute(w, st0, id, m, open);
    ClosingAdds(w, st, st1, id, e);
  }

  lemma ClosingAdds(w: Catalog, st: State, st1: State, id: Id, e: Ending)
    requires id !in st.loaded && id in st1.loaded && st1.loaded[id] < |st1.exports|
    requires Grows(Register(st, id), st1) && AddsOnlyEnded(w, Register(st, id), st1)
    requires e.Escaped? ==> !AllSafe(w)
    ensures AddsOnlyEnded(w, st, Settle(st1, id, e).0)
  {
    var st0, st2 := Register(st, id), Settle(st1, id, e).0;
    var start, part, last := st0.log[|st.log|..], st1.log[|st0.log|..], st2.log[|st1.log|..];
    assert st2.log[|st.log|..] == start + part + last;
    forall i | i in st2.loaded && i !in st.loaded ensures EndedIn(w, st2.log[|st.log|..], i, st2.loaded[i]) {
      if i != id {
        EndedLater(w, part, start, last, i, st1.loaded[i]);
      } else {
        assert last[0] == Finished(id, st1.loaded[id]) || last[0] == Abandoned(id, st1.loaded[id]);
        EndedLater(w, last, start + part, [], id, st1.loaded[id]);
        assert start + part + last + [] == start + part + last;
      }
    }
  }

  // ---- abandoned loads ----

  /** Every registered id that is not in progress is there because of a success or an abandoned load. */
  lemma {:induction false} SettledEnded(known: set<Id>, log: seq<Event>, id: Id)
    requires Replay(known, log).Some?
    requires id in Replay(known, log).value.loaded && id !in Replay(known, log).value.open
    ensures exists k :: 0 <= k < |log| && Ends(log[k]) && log[k].id == id && log[k].m == Replay(known, log).value.loaded[id]
  {
    var n := |log| - 1;
    if !(Ends(log[n]) && log[n].id == id) {
      var u := Replay(known, log[..n]).value;
      assert id in u.loaded && id !in u.open && u.loaded[id] == Replay(known, log).value.loaded[id];
      SettledEnded(known, log[..n], id);
      var k :| 0 <= k < |log[..n]| && Ends(log[..n][k]) && log[..n][k].id == id && log[..n][k].m == u.loaded[id];
      assert log[k] == log[..n][k];
    }
  }

  /** A load ends once: no success and no abandoned load of one id and module object follow each other. */
  lemma EndsOnce(known: set<Id>, log: seq<Event>, i: nat, j: nat)
    requires i < j < |log| && Replay(known, log).Some? && Ends(log[i]) && Ends(log[j])
    ensures log[i].id != log[j].id
  {
    SettledStays(known, log, i, j);
    AtEvent(known, log, j);
  }

  /**
   * The cache holds, beside the loads in progress, only modules whose load succeeded,
   * exactly when no load was abandoned.
   */
  lemma OnlySucceeded(known: set<Id>, log: seq<Event>)
    requires Replay(known, log).Some?
    ensures var v := Replay(known, log).value;
      (forall id | id in v.loaded && id !in v.open :: FinishedIn(log, id, v.loaded[id]))
        <==> (forall k | 0 <= k < |log| :: !log[k].Abandoned?)
  {
    var v := Replay(known, log).value;
    if forall k | 0 <= k < |log| :: !log[k].Abandoned? {
      forall id | id in v.loaded && id !in v.open ensures FinishedIn(log, id, v.loaded[id]) {
        SettledEnded(known, log, id);
      }
    } else {
      var k :| 0 <= k < |log| && log[k].Abandoned?;
      SettledStays(known, log, k, |log|);
      assert log[..|log|] == log;
      if i :| 0 <= i < |log| && log[i] == Finished(log[k].id, log[k].m) {
        if i < k { EndsOnce(known, log, i, k); } else { EndsOnce(known, log, k, i); }
        assert false;
      }
      assert !FinishedIn(log, log[k].id, v.loaded[log[k].id]);
    }
  }

  /** Code that does nothing. */
  const NOTHING := Script(0, (hist: seq<Outcome>) => Return)

  /** One module, with this source. */
  function Gives(id: Id, source: Source): Catalog {
    map[id := (m: nat) => Def(NOTHING, source, None, None)]
  }

  /**
   * Both ways of escaping: text such as `}); 1 + ({`, which evaluates to a string, and a
   * string that begins with FF, which is a symbol. Requiring it throws, the module stays
   * registered, and the next request for it succeeds.
   */
  lemma UnsafeStays(req: seq<byte>, base: Option<Id>, source: Source)
    requires source == Unjoinable || source == Program(NOTHING, Primitive)
    ensures Resolve(req, base).Some? ==>
      var id := Resolve(req, base).value.id;
      var w := Gives(id, source);
      var (st, o) := Require(w, EMPTY, StringArg(req), base, []);
      && o == Exc(if source.Unjoinable? then NotJoined else NotAnObject) && id in st.loaded
      && Require(w, st, StringArg(req), base, []).1 == Ret(DefaultExports(0))
  {
    if Resolve(req, base).None? {
      return;
    }
    var id := Resolve(req, base).value.id;
    var w, st0 := Gives(id, source), Register(EMPTY, id);
    var error := if source.Unjoinable? then NotJoined else NotAnObject;
    assert Run(w, st0, NOTHING, [], [id]) == (st0, None);
    assert w[id](0).source == source;
    assert RunSource(w, st0, source, [id]) == (st0, Escaped(error));
    assert [] + [id] == [id];
    assert Execute(w, st0, id, 0, []) == (st0, Escaped(error));
    assert Load(w, EMPTY, id, []) == (Abandon(st0, id), Exc(error));
  }

  /**
   * require(module.id): after a successful request, asking for the resolved id through
   * any require function is a cache hit on the same entry.
   */
  lemma RequireModuleId(w: Catalog, st: State, req: seq<byte>, base: Option<Id>, base': Option<Id>, open: seq<Id>)
    requires Inv(st, open)
    ensures var (st', o) := Require(w, st, StringArg(req), base, open);
      o.Ret? ==>
        var id := Resolve(req, base).value.id;
        && id in st'.loaded
        && Require(w, st', StringArg(id), base', open)
             == (st'.(log := st'.log + [Cached(id, st'.loaded[id], o.value)]), o)
  {
    RequireAdds(w, st, StringArg(req), base, open);
    var (st', o) := Require(w, st, StringArg(req), base, open);
    if o.Ret? {
      ResolveIdempotent(req, base, base');
    }
  }

  /** All of the above holds of every whole run that starts with an empty cache. */
  lemma WholeRun(w: Catalog, sc: Script)
    ensures var st := Run(w, EMPTY, sc, [], []).0;
      && Replay(w.Keys, st.log) == Some(View(st.loaded, st.exports, []))
      && AddsOnlyEnded(w, EMPTY, st)
      && (forall k | 0 <= k <= |st.log| ::
           && Replay(w.Keys, st.log[..k]).Some?
           && var v := Replay(w.Keys, st.log[..k]).value;
           && Distinct(v.open) && Elements(v.open) <= v.loaded.Keys && |v.open| <= |w.Keys| + 1)
  {
    RunIsLegal(w, EMPTY, sc, [], []);
    RunAdds(w, EMPTY, sc, [], []);
    var st := Run(w, EMPTY, sc, [], []).0;
    forall k | 0 <= k <= |st.log|
      ensures Replay(w.Keys, st.log[..k]).Some?
      ensures var v := Replay(w.Keys, st.log[..k]).value;
        Distinct(v.open) && Elements(v.open) <= v.loaded.Keys && |v.open| <= |w.Keys| + 1
    {
      DepthBound(w.Keys, st.log, k);
      InProgress(w.Keys, st.log[..k]);
    }
  }
}
