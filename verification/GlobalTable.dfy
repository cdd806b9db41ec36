/**
 * The global object of one environment as the bridge uses it: the dense registry of
 * module loaders, searched in order, and the table of saved functions.
 */
module GlobalTable {
  import opened Bytes
  import opened HiddenNames

  /** A registered loader; `usable` when neither load_module nor get_methods_list is NULL. */
  datatype Loader = Loader(udd: nat, usable: bool)

  datatype Value = Count(n: int) | LoaderObject(loader: Loader) | Function(f: nat) | Anything(n: int)

  type Table = map<string, Value>

  /** gettimeofday */
  datatype Clock = Clock(sec: nat, usec: nat)

  predicate ClockOk(t: Clock) {
    t.usec < 1000000 && t.sec * 1000000 + t.usec < TWO_64
  }

  /** The handle made from a clock reading, an unsigned long. */
  function HandleOf(t: Clock): Word {
    (t.sec * 1000000 + t.usec) % TWO_64
  }

  predicate Before(a: Clock, b: Clock) {
    a.sec < b.sec || (a.sec == b.sec && a.usec < b.usec)
  }

  /** Later readings make larger handles, so different readings make different ones. */
  lemma HandlesOrdered(a: Clock, b: Clock)
    requires ClockOk(a) && ClockOk(b)
    ensures HandleOf(a) < HandleOf(b) <==> Before(a, b)
    ensures HandleOf(a) == HandleOf(b) <==> a == b
  {
  }

  // ---- what the table means ----

  /**
   * The registered loaders in order, the saved functions by handle, and the properties
   * whose names are not hidden.
   */
  datatype Meaning = Meaning(loaders: seq<Loader>, live: map<nat, nat>, plain: Table)

  function CountIn(table: Table): int {
    if NATIVE_MOD_COUNT in table && table[NATIVE_MOD_COUNT].Count? then table[NATIVE_MOD_COUNT].n else 0
  }

  /** Slots 0 .. count-1 hold the loaders in the order of their registration. */
  ghost predicate Registry(table: Table, loaders: seq<Loader>) {
    && CountIn(table) == |loaders|
    && (loaders != [] ==> NATIVE_MOD_COUNT in table && table[NATIVE_MOD_COUNT].Count?)
    && forall i | 0 <= i < |loaders| ::
         LoaderSlot(i) in table && table[LoaderSlot(i)] == LoaderObject(loaders[i])
  }

  /** The saved functions, by handle. */
  ghost predicate Handles(table: Table, live: map<nat, nat>) {
    forall h: nat ::
      && (FunctionSlot(h) in table <==> h in live)
      && (h in live ==> FunctionSlot(h) in table && table[FunctionSlot(h)] == Function(live[h]))
  }

  /** The properties that scripts see. */
  ghost predicate Visible(table: Table, plain: Table) {
    && (forall name | name in plain :: !IsHidden(name) && name in table && table[name] == plain[name])
    && (forall name | name in table && !IsHidden(name) :: name in plain)
  }

  ghost predicate Represents(table: Table, m: Meaning) {
    Registry(table, m.loaders) && Handles(table, m.live) && Visible(table, m.plain)
  }

  /** What a run does to the global object, function handles and registrations interleaved. */
  datatype Op =
    | Add(loader: Loader)
    | Save(t: Clock, f: nat)
    | Destroy(h: nat)
    | Set(name: string, v: Value)   // a script or the bridge assigns a name that is not hidden

  function Apply(table: Table, op: Op): Table {
    match op
    case Add(loader) =>
      var n := CountIn(table);
      table[NATIVE_MOD_COUNT := Count(n + 1)][LoaderSlot(n % TWO_64) := LoaderObject(loader)]
    case Save(t, f) => table[FunctionSlot(HandleOf(t)) := Function(f)]
    case Destroy(h) => table - {FunctionSlot(h)}
    case Set(name, v) => table[name := v]
  }

  function Mean(m: Meaning, op: Op): Meaning {
    match op
    case Add(loader) => m.(loaders := m.loaders + [loader])
    case Save(t, f) => m.(live := m.live[HandleOf(t) := f])
    case Destroy(h) => m.(live := m.live - {h})
    case Set(name, v) => m.(plain := m.plain[name := v])
  }

  /** The loader count stays a C int, and only names that are not hidden are assigned. */
  predicate Allowed(m: Meaning, op: Op) {
    match op
    case Add(_) => |m.loaders| < 0x7FFF_FFFF
    case Set(name, _) => !IsHidden(name)
    case _ => true
  }

  /** A loader slot is neither a function slot nor the count, and hidden. */
  lemma LoaderSlotApart(n: nat)
    ensures forall i: nat :: LoaderSlot(i) == LoaderSlot(n) <==> i == n
    ensures forall i: nat :: LoaderSlot(i) != NATIVE_MOD_COUNT && FunctionSlot(i) != NATIVE_MOD_COUNT
    ensures forall h: nat :: FunctionSlot(h) != LoaderSlot(n)
    ensures IsHidden(LoaderSlot(n)) && IsHidden(NATIVE_MOD_COUNT)
  {
    forall i: nat
      ensures LoaderSlot(i) == LoaderSlot(n) <==> i == n
      ensures LoaderSlot(i) != NATIVE_MOD_COUNT && FunctionSlot(i) != NATIVE_MOD_COUNT
      ensures FunctionSlot(i) != LoaderSlot(n)
    {
      NamesDistinct(i, n);
      NamesDistinct(n, i);
    }
    NamesDistinct(n, n);
  }

  lemma RegistryPush(table: Table, loaders: seq<Loader>, loader: Loader)
    requires Registry(table, loaders) && |loaders| < 0x7FFF_FFFF
    ensures Registry(Apply(table, Add(loader)), loaders + [loader])
  {
    LoaderSlotApart(|loaders|);
  }

  lemma AddRepresents(table: Table, m: Meaning, loader: Loader)
    requires Represents(table, m) && Allowed(m, Add(loader))
    ensures Represents(Apply(table, Add(loader)), Mean(m, Add(loader)))
  {
    var table', n := Apply(table, Add(loader)), |m.loaders|;
    LoaderSlotApart(n);
    RegistryPush(table, m.loaders, loader);
    assert forall name | name != NATIVE_MOD_COUNT && name != LoaderSlot(n) ::
      (name in table' <==> name in table) && (name in table ==> table'[name] == table[name]);
  }

  /** A function slot is neither a loader slot nor the count, and hidden. */
  lemma FunctionSlotApart(k: nat)
    ensures forall i: nat :: LoaderSlot(i) != FunctionSlot(k)
    ensures forall h: nat :: FunctionSlot(h) == FunctionSlot(k) <==> h == k
    ensures FunctionSlot(k) != NATIVE_MOD_COUNT && IsHidden(FunctionSlot(k))
  {
    forall i: nat ensures LoaderSlot(i) != FunctionSlot(k) {
      NamesDistinct(i, k);
    }
    forall h: nat ensures FunctionSlot(h) == FunctionSlot(k) <==> h == k {
      NamesDistinct(h, k);
    }
    NamesDistinct(k, k);
  }

  lemma SaveRepresents(table: Table, m: Meaning, t: Clock, f: nat)
    requires Represents(table, m)
    ensures Represents(Apply(table, Save(t, f)), Mean(m, Save(t, f)))
  {
    FunctionSlotApart(HandleOf(t));
  }

  lemma DestroyRepresents(table: Table, m: Meaning, k: nat)
    requires Represents(table, m)
    ensures Represents(Apply(table, Destroy(k)), Mean(m, Destroy(k)))
  {
    FunctionSlotApart(k);
  }

  lemma SetRepresents(table: Table, m: Meaning, name: string, v: Value)
    requires Represents(table, m) && !IsHidden(name)
    ensures Represents(Apply(table, Set(name, v)), Mean(m, Set(name, v)))
  {
    forall i: nat ensures LoaderSlot(i) != name && FunctionSlot(i) != name && NATIVE_MOD_COUNT != name {
      NamesDistinct(i, i);
    }
  }

  /** Every operation does to the table what it means, whatever the clock reads. */
  lemma ApplyRepresents(table: Table, m: Meaning, op: Op)
    requires Represents(table, m) && Allowed(m, op)
    ensures Represents(Apply(table, op), Mean(m, op))
  {
    match op
    case Add(loader) => AddRepresents(table, m, loader);
    case Save(t, f) => SaveRepresents(table, m, t, f);
    case Destroy(h) => DestroyRepresents(table, m, h);
    case Set(name, v) => SetRepresents(table, m, name, v);
  }

  // ---- the search ----

  /** What loadNativeModule returns: an object made by loader `udd` for `handle`, or undefined. */
  datatype Found = Module(udd: nat, handle: nat) | NotFound

  /**
   * The search loop: `load` answers the calls of load_module in the order they are made,
   * None standing for NULL; `calls` are the slots whose loader was called.
   */
  function Search(table: Table, i: nat, n: int, load: nat -> Option<nat>, calls: seq<nat>): (Found, seq<nat>)
    decreases n - i
  {
    if i >= n then (NotFound, calls)
    else if LoaderSlot(i) !in table || !table[LoaderSlot(i)].LoaderObject? then (NotFound, calls)
    else
      var loader := table[LoaderSlot(i)].loader;
      if !loader.usable then Search(table, i + 1, n, load, calls)
      else
        match load(|calls|)
        case None => Search(table, i + 1, n, load, calls + [i])
        case Some(h) => (Module(loader.udd, h), calls + [i])
  }

  /** The slots below `k` whose loaders are usable. */
  function UsableBelow(loaders: seq<Loader>, k: nat): seq<nat>
    requires k <= |loaders|
  {
    if k == 0 then []
    else if loaders[k - 1].usable then UsableBelow(loaders, k - 1) + [k - 1]
    else UsableBelow(loaders, k - 1)
  }

  /** They are listed once each, in order. */
  lemma {:induction false} UsableBelowIs(loaders: seq<Loader>, k: nat)
    requires k <= |loaders|
    ensures forall i: nat :: i in UsableBelow(loaders, k) <==> i < k && loaders[i].usable
    ensures forall i, j | 0 <= i < j < |UsableBelow(loaders, k)| :: UsableBelow(loaders, k)[i] < UsableBelow(loaders, k)[j]
  {
    if k > 0 {
      UsableBelowIs(loaders, k - 1);
      var below := UsableBelow(loaders, k - 1);
      assert forall i | 0 <= i < |below| :: below[i] in below;
    }
  }

  /** What the search promises when it stands before slot `i` and has called `calls` so far. */
  ghost predicate SearchMeans(loaders: seq<Loader>, load: nat -> Option<nat>, start: nat, r: Found, calls: seq<nat>) {
    match r
    case NotFound =>
      && start <= |calls| && calls[start..] == UsableBelow(loaders, |loaders|)
      && forall t | start <= t < |calls| :: load(t).None?
    case Module(udd, h) =>
      exists k: nat ::
        && k < |loaders| && loaders[k].usable && loaders[k].udd == udd
        && start < |calls| && calls[start..] == UsableBelow(loaders, k + 1)
        && load(|calls| - 1) == Some(h)
        && forall t | start <= t < |calls| - 1 :: load(t).None?
  }

  lemma {:induction false} SearchFrom(table: Table, loaders: seq<Loader>, i: nat, load: nat -> Option<nat>, before: seq<nat>, calls: seq<nat>)
    requires Registry(table, loaders) && i <= |loaders|
    requires before <= calls && calls[|before|..] == UsableBelow(loaders, i)
    requires forall t | |before| <= t < |calls| :: load(t).None?
    ensures var (r, calls') := Search(table, i, |loaders|, load, calls);
      before <= calls' && SearchMeans(loaders, load, |before|, r, calls')
    decreases |loaders| - i
  {
    if i < |loaders| {
      var loader := loaders[i];
      assert table[LoaderSlot(i)] == LoaderObject(loader);
      if !loader.usable {
        SearchFrom(table, loaders, i + 1, load, before, calls);
      } else {
        var calls1 := calls + [i];
        assert calls1[|before|..] == UsableBelow(loaders, i + 1);
        if load(|calls|).None? {
          SearchFrom(table, loaders, i + 1, load, before, calls1);
        } else {
          assert load(|calls1| - 1).Some?;
        }
      }
    }
  }

  /**
   * loadNativeModule on a registry: the object of the first usable loader whose load
   * succeeds; every usable loader before it was called once, in order, and no later one;
   * undefined exactly when every usable loader was called and failed.
   */
  lemma FirstUsableWins(table: Table, loaders: seq<Loader>, load: nat -> Option<nat>, before: seq<nat>)
    requires Registry(table, loaders)
    ensures var (r, calls) := Search(table, 0, |loaders|, load, before);
      before <= calls && SearchMeans(loaders, load, |before|, r, calls)
  {
    assert before[|before|..] == [];
    SearchFrom(table, loaders, 0, load, before, before);
  }

  // ---- the operations in place ----

  /** The global object, and what it means. */
  class Globals {
    var table: Table
    var calls: seq<nat>
    ghost var meaning: Meaning

    ghost predicate Valid()
      reads this
    {
      Represents(table, meaning)
    }

    constructor ()
      ensures Valid() && meaning == Meaning([], map[], map[]) && calls == []
    {
      table, calls, meaning := map[], [], Meaning([], map[], map[]);
    }

    /** js_add_module_loader */
    method AddModuleLoader(loader: Loader)
      requires Valid() && |meaning.loaders| < 0x7FFF_FFFF
      modifies this`table, this`meaning
      ensures Valid() && meaning == Mean(old(meaning), Add(loader))
    {
      AddRepresents(table, meaning, loader);
      var loaderCount: int := 0;
      if NATIVE_MOD_COUNT in table && table[NATIVE_MOD_COUNT].Count? {
        loaderCount := table[NATIVE_MOD_COUNT].n;
      }
      table := table[NATIVE_MOD_COUNT := Count(loaderCount + 1)];
      table := table[HiddenSymbol(NATIVE_MOD, loaderCount % TWO_64) := LoaderObject(loader)];
      meaning := Mean(meaning, Add(loader));
    }

    /**
     * loadNativeModule: the object of the first usable loader whose load succeeds. Every
     * usable loader before it is called once, in order, and no later one.
     */
    method LoadNativeModule(load: nat -> Option<nat>) returns (r: Found)
      requires Valid()
      modifies this`calls
      ensures old(calls) <= calls && SearchMeans(meaning.loaders, load, |old(calls)|, r, calls)
    {
      FirstUsableWins(table, meaning.loaders, load, calls);
      if NATIVE_MOD_COUNT !in table || !table[NATIVE_MOD_COUNT].Count? {
        return NotFound;
      }
      var loaderCount := table[NATIVE_MOD_COUNT].n;
      var i: nat := 0;
      while i < loaderCount
        invariant Search(table, i, loaderCount, load, calls) == Search(table, 0, loaderCount, load, old(calls))
        decreases loaderCount - i
      {
        if LoaderSlot(i) !in table || !table[LoaderSlot(i)].LoaderObject? {
          return NotFound;
        }
        var loader := table[LoaderSlot(i)].loader;
        if !loader.usable {
          i := i + 1;
          continue;
        }
        var hMod := load(|calls|);
        calls := calls + [i];
        if hMod.Some? {
          return Module(loader.udd, hMod.value);
        }
        i := i + 1;
      }
      return NotFound;
    }

    /** save_top_object, with the clock reading `t` */
    method SaveTopObject(t: Clock, f: nat) returns (h: Word)
      requires Valid()
      modifies this`table, this`meaning
      ensures Valid() && h == HandleOf(t) && meaning == Mean(old(meaning), Save(t, f))
    {
      SaveRepresents(table, meaning, t, f);
      h := (t.sec * 1000000 + t.usec) % TWO_64;
      table := table[HiddenSymbol(ECMA_OBJ, h) := Function(f)];
      meaning := Mean(meaning, Save(t, f));
    }

    /** load_object: the function saved last under `h` and not destroyed since, or undefined. */
    method LoadObject(h: nat) returns (r: Option<Value>)
      requires Valid()
      ensures r == if h in meaning.live then Some(Function(meaning.live[h])) else None
    {
      var name := HiddenSymbol(ECMA_OBJ, h);
      r := if name in table then Some(table[name]) else None;
    }

    /** destroy_object */
    method DestroyObject(h: nat)
      requires Valid()
      modifies this`table, this`meaning
      ensures Valid() && meaning == Mean(old(meaning), Destroy(h))
    {
      DestroyRepresents(table, meaning, h);
      table := table - {HiddenSymbol(ECMA_OBJ, h)};
      meaning := Mean(meaning, Destroy(h));
    }
  }

  // ---- every run ----

  function TableAfter(ops: seq<Op>): Table {
    if ops == [] then map[] else Apply(TableAfter(ops[..|ops| - 1]), ops[|ops| - 1])
  }

  /** What the operations `ops` make of the meaning `m`. */
  function MeanAll(m: Meaning, ops: seq<Op>): Meaning {
    if ops == [] then m else Mean(MeanAll(m, ops[..|ops| - 1]), ops[|ops| - 1])
  }

  function MeaningOf(ops: seq<Op>): Meaning {
    MeanAll(Meaning([], map[], map[]), ops)
  }

  lemma MeanPush(m: Meaning, ops: seq<Op>, op: Op)
    ensures MeanAll(m, ops + [op]) == Mean(MeanAll(m, ops), op)
  {
    assert (ops + [op])[..|ops|] == ops;
  }

  predicate AllAllowed(ops: seq<Op>) {
    ops == [] || (AllAllowed(ops[..|ops| - 1]) && Allowed(MeaningOf(ops[..|ops| - 1]), ops[|ops| - 1]))
  }

  /** After every run the registry is dense and in order, and every handle gives the function saved last under it. */
  lemma {:induction false} RunRepresents(ops: seq<Op>)
    requires AllAllowed(ops)
    ensures Represents(TableAfter(ops), MeaningOf(ops))
  {
    if ops != [] {
      RunRepresents(ops[..|ops| - 1]);
      ApplyRepresents(TableAfter(ops[..|ops| - 1]), MeaningOf(ops[..|ops| - 1]), ops[|ops| - 1]);
    }
  }

  /** Registrations are never undone or reordered: the loader registered by `ops[i]` has as many before it as were registered. */
  lemma {:induction false} RegistrationsStay(m: Meaning, ops: seq<Op>, i: nat)
    requires i < |ops| && ops[i].Add?
    ensures var before, after := MeanAll(m, ops[..i]).loaders, MeanAll(m, ops).loaders;
      |before| < |after| && after[..|before|] == before && after[|before|] == ops[i].loader
    decreases |ops|
  {
    var n := |ops| - 1;
    if i < n {
      RegistrationsStay(m, ops[..n], i);
      assert ops[..n][..i] == ops[..i];
    }
  }

  /** There are no other loaders than those: each slot was filled by one registration. */
  lemma {:induction false} SlotWasFilled(m: Meaning, ops: seq<Op>, k: nat)
    requires |m.loaders| <= k < |MeanAll(m, ops).loaders|
    ensures exists i :: 0 <= i < |ops| && ops[i].Add? && |MeanAll(m, ops[..i]).loaders| == k
    decreases |ops|
  {
    var n := |ops| - 1;
    if k < |MeanAll(m, ops[..n]).loaders| {
      SlotWasFilled(m, ops[..n], k);
      var i :| 0 <= i < n && ops[..n][i].Add? && |MeanAll(m, ops[..n][..i]).loaders| == k;
      assert ops[..n][..i] == ops[..i];
    }
  }

  /** A name that is not hidden keeps what was assigned last, whatever is saved, destroyed and registered. */
  lemma {:induction false} LastAssigned(m: Meaning, ops: seq<Op>, i: nat)
    requires i < |ops| && ops[i].Set?
    requires forall j | i < j < |ops| && ops[j].Set? :: ops[j].name != ops[i].name
    ensures ops[i].name in MeanAll(m, ops).plain && MeanAll(m, ops).plain[ops[i].name] == ops[i].v
    decreases |ops|
  {
    var n := |ops| - 1;
    if i < n {
      LastAssigned(m, ops[..n], i);
    }
  }

  // ---- how long a saved function stays ----

  ghost predicate Keeps(m: Meaning, h: nat, f: nat) {
    h in m.live && m.live[h] == f
  }

  /** The operation takes the function `f` away from the handle `h`. */
  predicate Loses(op: Op, h: nat, f: nat) {
    op == Destroy(h) || (op.Save? && HandleOf(op.t) == h && op.f != f)
  }

  /**
   * A saved function stays under its handle over later operations, at every moment of
   * them, exactly when none of them destroys the handle or saves another function under a
   * reading that gives it again.
   */
  lemma StaysWhen(m: Meaning, h: nat, f: nat, more: seq<Op>)
    requires Keeps(m, h, f)
    ensures (forall k | 0 <= k <= |more| :: Keeps(MeanAll(m, more[..k]), h, f))
       <==> (forall i | 0 <= i < |more| :: !Loses(more[i], h, f))
  {
    if forall i | 0 <= i < |more| :: !Loses(more[i], h, f) {
      forall k | 0 <= k <= |more| ensures Keeps(MeanAll(m, more[..k]), h, f) {
        StaysWhile(m, h, f, more[..k]);
      }
    } else {
      var i :| 0 <= i < |more| && Loses(more[i], h, f);
      assert more[..i + 1] == more[..i] + [more[i]];
      MeanPush(m, more[..i], more[i]);
      assert !Keeps(MeanAll(m, more[..i + 1]), h, f);
    }
  }

  lemma {:induction false} StaysWhile(m: Meaning, h: nat, f: nat, more: seq<Op>)
    requires Keeps(m, h, f) && forall i | 0 <= i < |more| :: !Loses(more[i], h, f)
    ensures Keeps(MeanAll(m, more), h, f)
  {
    if more != [] {
      StaysWhile(m, h, f, more[..|more| - 1]);
    }
  }

  /** One save loses an older function exactly when its reading repeats the handle of another one. */
  lemma SaveLosesWhen(table: Table, live: map<nat, nat>, t: Clock, f: nat)
    requires Handles(table, live)
    ensures (forall h | h in live :: Apply(table, Save(t, f))[FunctionSlot(h)] == Function(live[h]))
       <==> (HandleOf(t) in live ==> live[HandleOf(t)] == f)
  {
    FunctionSlotApart(HandleOf(t));
  }

  /** Two saves at one clock reading: the handle of the first function gives the second. */
  lemma RepeatedReading(t: Clock, f: nat, f': nat)
    ensures MeaningOf([Save(t, f), Save(t, f')]).live == map[HandleOf(t) := f']
  {
    MeanPush(Meaning([], map[], map[]), [Save(t, f)], Save(t, f'));
    MeanPush(Meaning([], map[], map[]), [], Save(t, f));
    assert [] + [Save(t, f)] == [Save(t, f)] && [Save(t, f)] + [Save(t, f')] == [Save(t, f), Save(t, f')];
  }

  // ---- strictly increasing clock readings ----

  /** The readings of the saves are times of the clock, each later than the ones before. */
  ghost predicate Increasing(ops: seq<Op>) {
    && (forall i | 0 <= i < |ops| && ops[i].Save? :: ClockOk(ops[i].t))
    && forall i, j | 0 <= i < j < |ops| && ops[i].Save? && ops[j].Save? :: Before(ops[i].t, ops[j].t)
  }

  /** No handle is given out twice in a run, destroyed or not. */
  lemma HandlesDistinct(ops: seq<Op>, i: nat, j: nat)
    requires Increasing(ops) && i < j < |ops| && ops[i].Save? && ops[j].Save?
    ensures HandleOf(ops[i].t) < HandleOf(ops[j].t)
  {
    HandlesOrdered(ops[i].t, ops[j].t);
  }

  /** Every handle in use was given out by a save. */
  lemma {:induction false} LiveWasSaved(ops: seq<Op>, h: nat)
    requires h in MeaningOf(ops).live
    ensures exists i :: 0 <= i < |ops| && ops[i].Save? && HandleOf(ops[i].t) == h
  {
    var n := |ops| - 1;
    if !(ops[n].Save? && HandleOf(ops[n].t) == h) {
      LiveWasSaved(ops[..n], h);
      var i :| 0 <= i < |ops[..n]| && ops[..n][i].Save? && HandleOf(ops[..n][i].t) == h;
      assert ops[i] == ops[..n][i];
    }
  }

  /** With increasing readings a save overwrites nothing. */
  lemma SaveIsFresh(ops: seq<Op>, t: Clock, f: nat)
    requires Increasing(ops + [Save(t, f)])
    ensures HandleOf(t) !in MeaningOf(ops).live
  {
    if HandleOf(t) in MeaningOf(ops).live {
      LiveWasSaved(ops, HandleOf(t));
      var i :| 0 <= i < |ops| && ops[i].Save? && HandleOf(ops[i].t) == HandleOf(t);
      var all := ops + [Save(t, f)];
      assert all[i] == ops[i] && all[|ops|] == Save(t, f);
      HandlesDistinct(all, i, |ops|);
      assert false;
    }
  }

  /** With increasing readings a saved function stays until its own destroy. */
  lemma HandleStays(ops: seq<Op>, t: Clock, f: nat, more: seq<Op>)
    requires Increasing(ops + [Save(t, f)] + more)
    requires Destroy(HandleOf(t)) !in more
    ensures Keeps(MeaningOf(ops + [Save(t, f)] + more), HandleOf(t), f)
  {
    var init := ops + [Save(t, f)];
    var all := init + more;
    MeanPush(Meaning([], map[], map[]), ops, Save(t, f));
    forall i | 0 <= i < |more| ensures !Loses(more[i], HandleOf(t), f) {
      assert all[|ops|] == Save(t, f) && all[|init| + i] == more[i];
      if more[i].Save? {
        HandlesDistinct(all, |ops|, |init| + i);
      }
    }
    StaysWhile(MeaningOf(init), HandleOf(t), f, more);
    MeanConcat(Meaning([], map[], map[]), init, more);
  }

  lemma {:induction false} MeanConcat(m: Meaning, a: seq<Op>, b: seq<Op>)
    ensures MeanAll(m, a + b) == MeanAll(MeanAll(m, a), b)
  {
    if b == [] {
      assert a + b == a;
    } else {
      var n := |b| - 1;
      MeanConcat(m, a, b[..n]);
      assert (a + b)[..|a + b| - 1] == a + b[..n];
    }
  }
}
