/**
 * The life of environments, loaders and module objects: NewEnv, module loading, objects
 * made from Go values, finalisers run by the garbage collector, and Destroy
 * (duk_bridge.go, module_loader.go). Keys are conserved over every run.
 */
module EnvLifecycle {
  import opened Attributes
  import opened Bytes
  import opened ModuleKeys
  import opened Sequences

  type EnvId = nat

  /** The loader NewEnv always adds first. */
  const PLUGIN_LOADER: nat := 0

  /** A live object of environment `env` whose finaliser was given the loader key `udd`. */
  datatype Object = Object(env: EnvId, udd: Key)

  /** A call loader.FinalizeModule(name, obj). */
  datatype Call = Call(loader: nat, obj: nat)

  /**
   * `first` is _firstLoaderKey, `loaders` the loaderKey slices of the live environments.
   * `objects` are the live objects with a finaliser, by module key; `boxed` are the module
   * keys made for Go values that are not yet objects. `panicked` is set by a nil
   * dereference or by reflection; it ends the program. `arrayBytes` says whether reflection
   * takes the bytes of arrays, as from Go 1.19 on.
   */
  datatype World = World(
    pool: Keys, first: map<EnvId, Key>, loaders: map<EnvId, seq<Key>>,
    objects: map<Key, Object>, boxed: set<Key>, called: seq<Call>, panicked: bool, arrayBytes: bool)

  function Start(arrayBytes: bool): World {
    World(map[], map[], map[], map[], {}, [], false, arrayBytes)
  }

  /**
   * What a loader's LoadModule returns: nil or anything useless, a pointer to a struct with
   * these fields, or a struct.
   */
  datatype Loaded = NoModule | StructPointer(fields: seq<Field>) | StructValue

  datatype Op =
    | NewEnv(e: EnvId, user: Option<nat>, readings: seq<Key>)
    | LoadModule(e: EnvId, i: nat, kind: Loaded, obj: nat, ks: seq<Key>, mk: Key)   // loader i is asked for a module
    | Box(obj: nat, ks: seq<Key>, mk: Key)     // parseArg or callGoFunc meets a struct pointer
    | Build(e: EnvId, mk: Key, fields: seq<Field>)   // go_createEcmascriptObject; its struct has these fields
    | Collect(mk: Key)                         // the collector finalises one object
    | Destroy(e: EnvId, order: seq<Key>)       // the heap finalises the rest in some order

  // ---- the operations ----

  /** addGoModuleLoader */
  function AddLoader(w: World, e: EnvId, loader: nat, k: Key): World {
    var ks := if e in w.loaders then w.loaders[e] else [];
    w.(pool := w.pool[k := LoaderEntry(loader, e)],
       first := if ks == [] then w.first[e := k] else w.first,
       loaders := w.loaders[e := ks + [k]])
  }

  /** init_native_obj: the module of `mk` becomes an object whose finaliser is given `udd`. */
  function Attach(w: World, e: EnvId, mk: Key, udd: Key): World {
    w.(objects := w.objects[mk := Object(e, udd)], boxed := w.boxed - {mk})
  }

  /**
   * Listing the attributes of a module panics: Elem() does for a plain struct, and some
   * fields do.
   */
  predicate ListingPanics(kind: Loaded, arrayBytes: bool) {
    kind.StructValue? || (kind.StructPointer? && ListAll(kind.fields, arrayBytes).Panicked?)
  }

  /** createMethodKeys and init_native_obj; the finaliser is set before the attributes are listed. */
  function LoadObject(w: World, e: EnvId, udd: Key, kind: Loaded, obj: nat, ks: seq<Key>, mk: Key): World {
    Attach(w.(pool := Create(w.pool, obj, ks, mk), panicked := w.panicked || ListingPanics(kind, w.arrayBytes)), e, mk, udd)
  }

  /** js_create_ecmascript_object */
  function BuildObject(w: World, e: EnvId, mk: Key, fields: seq<Field>): World {
    if e in w.first then
      Attach(w.(panicked := w.panicked || ListingPanics(StructPointer(fields), w.arrayBytes)), e, mk, w.first[e])
    else w
  }

  /** go_finalizeModule(udd, name, mk) */
  function Finalise(w: World, udd: Key, mk: Key): World {
    var known := mk in w.pool && w.pool[mk].ModuleEntry?;
    var found := udd in w.pool && w.pool[udd].LoaderEntry?;
    if found && !known then w.(panicked := true)
    else
      w.(pool := Remove(w.pool, mk), objects := w.objects - {mk},
         called := if found then w.called + [Call(w.pool[udd].loader, w.pool[mk].obj)] else w.called)
  }

  function FinaliseAll(w: World, order: seq<Key>): World
    requires Distinct(order) && forall mk | mk in order :: mk in w.objects
    decreases |order|
  {
    if order == [] then w
    else
      var mk := order[0];
      assert mk in order;
      var w1 := Finalise(w, w.objects[mk].udd, mk);
      assert forall m | m in order[1..] :: m in order && m != mk;
      FinaliseAll(w1, order[1..])
  }

  /** The keys removed by the last loop of Destroy: all but zero. */
  function Registered(ks: seq<Key>): set<Key> {
    Elements(ks) - {0}
  }

  function DestroyEnv(w: World, e: EnvId, order: seq<Key>): World
    requires e in w.loaders && Distinct(order) && forall mk | mk in order :: mk in w.objects
  {
    var w1 := FinaliseAll(w.(first := w.first - {e}), order);
    w1.(pool := w1.pool - Registered(w.loaders[e]), loaders := w1.loaders - {e})
  }

  /** The live objects of an environment. */
  function ObjectsOf(w: World, e: EnvId): set<Key> {
    set mk | mk in w.objects && w.objects[mk].env == e
  }

  /** The readings are usable: fresh in the pool and not the zero that C takes for failure. */
  ghost predicate Usable(w: World, ks: seq<Key>) {
    Fresh(w.pool, ks) && 0 !in ks
  }

  /** What makes an operation possible; the clock's promise is part of it. */
  ghost predicate Enabled(w: World, op: Op) {
    && !w.panicked
    && match op
    case NewEnv(e, user, readings) =>
      e !in w.loaders && Usable(w, readings) && |readings| == if user.Some? then 2 else 1
    case LoadModule(e, i, kind, obj, ks, mk) =>
      e in w.loaders && i < |w.loaders[e]| && (kind.NoModule? || (Usable(w, ks + [mk]) && NewObject(w.pool, obj)))
    case Box(obj, ks, mk) => Usable(w, ks + [mk]) && NewObject(w.pool, obj)
    case Build(e, mk, _) => e in w.loaders && mk in w.boxed
    case Collect(mk) => mk in w.objects
    case Destroy(e, order) => e in w.loaders && Distinct(order) && Elements(order) == ObjectsOf(w, e)
  }

  lemma Listed(w: World, e: EnvId, order: seq<Key>)
    requires Elements(order) == ObjectsOf(w, e)
    ensures forall mk | mk in order :: mk in w.objects && w.objects[mk].env == e
  {
    forall mk | mk in order ensures mk in w.objects && w.objects[mk].env == e {
      assert mk in Elements(order);
    }
  }

  ghost function Step(w: World, op: Op): World
    requires Enabled(w, op)
  {
    match op
    case NewEnv(e, user, readings) =>
      var w1 := AddLoader(w, e, PLUGIN_LOADER, readings[0]);
      if user.Some? then AddLoader(w1, e, user.value, readings[1]) else w1
    case LoadModule(e, i, kind, obj, ks, mk) =>
      var udd := w.loaders[e][i];
      if udd in w.pool && w.pool[udd].LoaderEntry? && !kind.NoModule? then
        LoadObject(w, e, udd, kind, obj, ks, mk)
      else w
    case Box(obj, ks, mk) =>
      w.(pool := Create(w.pool, obj, ks, mk), boxed := w.boxed + {mk})
    case Build(e, mk, fields) => BuildObject(w, e, mk, fields)
    case Collect(mk) =>
      Finalise(w, w.objects[mk].udd, mk)
    case Destroy(e, order) =>
      Listed(w, e, order);
      DestroyEnv(w, e, order)
  }

  // ---- conservation ----

  predicate HasLoader(loaders: map<EnvId, seq<Key>>, e: EnvId, k: Key) {
    e in loaders && k in loaders[e]
  }

  /** Every loader key belongs to the list of one live environment, and is registered for it. */
  ghost predicate LoadersOk(p: Keys, loaders: map<EnvId, seq<Key>>) {
    && (forall e | e in loaders :: Distinct(loaders[e]) && 0 !in loaders[e])
    && (forall e, k | HasLoader(loaders, e, k) :: k in p && p[k].LoaderEntry? && p[k].env == e)
    && (forall k | k in p && p[k].LoaderEntry? :: HasLoader(loaders, p[k].env, k))
  }

  ghost predicate FirstOk(first: map<EnvId, Key>, loaders: map<EnvId, seq<Key>>) {
    && first.Keys == loaders.Keys
    && forall e | e in loaders :: loaders[e] != [] && first[e] == loaders[e][0]
  }

  /** Every module key is boxed or one object, which has a loader of its own environment. */
  ghost predicate ObjectsOk(p: Keys, loaders: map<EnvId, seq<Key>>, objects: map<Key, Object>, boxed: set<Key>) {
    && (forall mk | mk in objects ::
         mk in p && p[mk].ModuleEntry? && mk !in boxed && HasLoader(loaders, objects[mk].env, objects[mk].udd))
    && (forall mk | mk in boxed :: mk in p && p[mk].ModuleEntry?)
    && (forall mk | mk in p && p[mk].ModuleEntry? :: mk in boxed || mk in objects)
  }

  ghost predicate Inv(w: World) {
    && Owned(w.pool)
    && LoadersOk(w.pool, w.loaders)
    && FirstOk(w.first, w.loaders)
    && ObjectsOk(w.pool, w.loaders, w.objects, w.boxed)
  }

  /** A module key of `ms`, or a method key of one of them. */
  ghost predicate OfModules(p: Keys, ms: set<Key>, k: Key) {
    k in ms || exists mk :: mk in ms && Owns(p, mk, k)
  }

  /** The keys of an environment: its loaders, its module objects and their methods. */
  ghost predicate OfEnv(w: World, e: EnvId, k: Key) {
    HasLoader(w.loaders, e, k) || OfModules(w.pool, ObjectsOf(w, e), k)
  }

  lemma DistinctPush(ks: seq<Key>, k: Key)
    requires Distinct(ks) && k !in ks
    ensures Distinct(ks + [k])
  {
  }

  lemma PushLoader(p: Keys, loaders: map<EnvId, seq<Key>>, e: EnvId, ks: seq<Key>, loader: nat, k: Key)
    requires LoadersOk(p, loaders) && k !in p && k != 0
    requires ks == if e in loaders then loaders[e] else []
    ensures LoadersOk(p[k := LoaderEntry(loader, e)], loaders[e := ks + [k]])
    ensures forall d, x :: HasLoader(loaders[e := ks + [k]], d, x) <==> HasLoader(loaders, d, x) || (d == e && x == k)
  {
    var loaders' := loaders[e := ks + [k]];
    assert k in ks ==> HasLoader(loaders, e, k);
    DistinctPush(ks, k);
    assert forall d, x :: HasLoader(loaders', d, x) <==> HasLoader(loaders, d, x) || (d == e && x == k);
  }

  lemma AddLoaderKeeps(w: World, e: EnvId, loader: nat, k: Key)
    requires Inv(w) && k !in w.pool && k != 0
    ensures Inv(AddLoader(w, e, loader, k))
  {
    var ks := if e in w.loaders then w.loaders[e] else [];
    LoaderKeeps(w.pool, k, loader, e);
    PushLoader(w.pool, w.loaders, e, ks, loader, k);
  }

  /** New module keys keep everything but the home of the module. */
  lemma CreateStep(p: Keys, obj: nat, ks: seq<Key>, mk: Key)
    requires Owned(p) && Fresh(p, ks + [mk])
    ensures var p' := Create(p, obj, ks, mk);
      && Owned(p') && Kept(p, p') && mk !in p
      && mk in p' && p'[mk].ModuleEntry?
      && (forall k | k in p' && p'[k].LoaderEntry? :: k in p)
      && (forall k | k in p' && p'[k].ModuleEntry? :: k in p || k == mk)
  {
    CreateOwned(p, obj, ks, mk);
    AddMethodsIs(p, obj, ks);
    FreshParts(p, ks, mk);
  }

  lemma BoxKeeps(w: World, obj: nat, ks: seq<Key>, mk: Key)
    requires Inv(w) && Enabled(w, Box(obj, ks, mk))
    ensures var w' := Step(w, Box(obj, ks, mk));
      && Inv(w') && Kept(w.pool, w'.pool) && w'.pool.Keys == w.pool.Keys + Elements(ks) + {mk}
      && w'.pool[mk] == ModuleEntry(obj, ks) && (forall i | 0 <= i < |ks| :: w'.pool[ks[i]] == MethodEntry(obj, i))
      && w'.boxed == w.boxed + {mk} && w'.objects == w.objects && w'.loaders == w.loaders
  {
    AddMethodsIs(w.pool, obj, ks);
    FreshParts(w.pool, ks, mk);
    CreateStep(w.pool, obj, ks, mk);
  }

  lemma AttachKeeps(w: World, e: EnvId, mk: Key, udd: Key)
    requires Inv(w) && mk in w.boxed && HasLoader(w.loaders, e, udd)
    ensures Inv(Attach(w, e, mk, udd))
  {
  }

  lemma LoadKeeps(w: World, e: EnvId, i: nat, kind: Loaded, obj: nat, ks: seq<Key>, mk: Key)
    requires Inv(w) && Enabled(w, LoadModule(e, i, kind, obj, ks, mk))
    ensures var w' := Step(w, LoadModule(e, i, kind, obj, ks, mk));
      && Inv(w') && w'.panicked == ListingPanics(kind, w.arrayBytes) && w'.arrayBytes == w.arrayBytes
      && (kind.NoModule? ==> w' == w)
      && (!kind.NoModule? ==>
           && w'.objects == w.objects[mk := Object(e, w.loaders[e][i])]
           && mk in w'.pool && w'.pool[mk] == ModuleEntry(obj, ks) && Kept(w.pool, w'.pool))
  {
    var udd := w.loaders[e][i];
    assert HasLoader(w.loaders, e, udd);
    if !kind.NoModule? {
      BoxKeeps(w, obj, ks, mk);
      var w1 := Step(w, Box(obj, ks, mk));
      AttachKeeps(w1, e, mk, udd);
      CreateStep(w.pool, obj, ks, mk);
      assert w1.boxed - {mk} == w.boxed - {mk};
    }
  }

  lemma BuildKeeps(w: World, e: EnvId, mk: Key, fields: seq<Field>)
    requires Inv(w) && Enabled(w, Build(e, mk, fields))
    ensures var w' := Step(w, Build(e, mk, fields));
      && Inv(w') && w'.panicked == ListingPanics(StructPointer(fields), w.arrayBytes) && w'.arrayBytes == w.arrayBytes
      && w'.objects == w.objects[mk := Object(e, w.loaders[e][0])]
      && w'.pool == w.pool && w'.boxed == w.boxed - {mk}
  {
    var udd := w.loaders[e][0];
    assert HasLoader(w.loaders, e, udd);
    AttachKeeps(w, e, mk, udd);
  }

  /** A finaliser finds its loader and its module: the callback runs and the keys go. */
  lemma FinaliseFinds(w: World, mk: Key)
    requires Inv(w) && mk in w.objects
    ensures var udd := w.objects[mk].udd;
      && udd in w.pool && w.pool[udd].LoaderEntry? && mk in w.pool && w.pool[mk].ModuleEntry?
      && Finalise(w, udd, mk) ==
           w.(pool := Remove(w.pool, mk), objects := w.objects - {mk},
              called := w.called + [Call(w.pool[udd].loader, w.pool[mk].obj)])
  {
    assert HasLoader(w.loaders, w.objects[mk].env, w.objects[mk].udd);
  }

  lemma FinaliseKeeps(w: World, mk: Key)
    requires Inv(w) && mk in w.objects
    ensures Inv(Finalise(w, w.objects[mk].udd, mk))
  {
    FinaliseFinds(w, mk);
    RemoveKeeps(w.pool, mk);
  }

  // ---- finalising all objects of an environment ----

  function RemoveAll(p: Keys, order: seq<Key>): Keys {
    if order == [] then p else RemoveAll(Remove(p, order[0]), order[1..])
  }

  ghost predicate AllModules(p: Keys, order: seq<Key>) {
    forall mk | mk in order :: mk in p && p[mk].ModuleEntry?
  }

  /** A key of the modules in `[mk] + rest` is removed with `mk` or is one of `rest` afterwards. */
  lemma OfModulesSplit(p: Keys, mk: Key, rest: seq<Key>, k: Key)
    requires Owned(p) && mk in p && p[mk].ModuleEntry? && mk !in rest && k in p && AllModules(p, rest)
    ensures OfModules(p, Elements([mk] + rest), k) <==>
      k !in Remove(p, mk) || OfModules(Remove(p, mk), Elements(rest), k)
  {
    var p1 := Remove(p, mk);
    RemoveKeeps(p, mk);
    assert Elements([mk] + rest) == {mk} + Elements(rest);
    if m :| m in Elements(rest) && Owns(p, m, k) {
      assert Owns(p1, m, k);
    }
    if m :| m in Elements(rest) && Owns(p1, m, k) {
      assert Owns(p, m, k);
    }
    if Owns(p, mk, k) || k == mk {
      assert k !in p1;
    }
  }

  /** Removing several modules removes exactly their keys. */
  lemma {:induction false} RemoveAllIs(p: Keys, order: seq<Key>)
    requires Owned(p) && Distinct(order) && AllModules(p, order)
    ensures Owned(RemoveAll(p, order))
    ensures forall k :: k in RemoveAll(p, order) <==> k in p && !OfModules(p, Elements(order), k)
    ensures forall k | k in RemoveAll(p, order) :: RemoveAll(p, order)[k] == p[k]
  {
    if order != [] {
      var mk, rest := order[0], order[1..];
      assert mk in order && order == [mk] + rest;
      assert forall m | m in rest :: m in order && m != mk;
      RemoveKeeps(p, mk);
      var p1 := Remove(p, mk);
      RemoveAllIs(p1, rest);
      forall k | k in p
        ensures OfModules(p, Elements(order), k) <==> k !in p1 || OfModules(p1, Elements(rest), k)
      {
        OfModulesSplit(p, mk, rest, k);
      }
    }
  }

  /** The callbacks of the finalisers, in order. */
  function Calls(w: World, order: seq<Key>): seq<Call>
    requires Ready(w, order)
  {
    if order == [] then []
    else
      var mk := order[0];
      assert mk in order;
      [Call(w.pool[w.objects[mk].udd].loader, w.pool[mk].obj)] + Calls(w, order[1..])
  }

  /** Each listed object, its module and its loader are there. */
  predicate Ready(w: World, order: seq<Key>) {
    forall mk | mk in order ::
      && mk in w.objects && mk in w.pool && w.pool[mk].ModuleEntry?
      && w.objects[mk].udd in w.pool && w.pool[w.objects[mk].udd].LoaderEntry?
  }

  lemma AllReady(w: World, order: seq<Key>)
    requires Inv(w) && forall mk | mk in order :: mk in w.objects
    ensures Ready(w, order) && AllModules(w.pool, order)
  {
    forall mk | mk in order ensures w.objects[mk].udd in w.pool && w.pool[w.objects[mk].udd].LoaderEntry? {
      FinaliseFinds(w, mk);
    }
  }

  lemma {:induction false} CallsAgree(v: World, w: World, order: seq<Key>)
    requires Ready(v, order) && Ready(w, order)
    requires forall mk | mk in order ::
      v.objects[mk] == w.objects[mk] && v.pool[mk] == w.pool[mk] &&
      v.pool[w.objects[mk].udd] == w.pool[w.objects[mk].udd]
    ensures Calls(v, order) == Calls(w, order)
  {
    if order != [] {
      var mk := order[0];
      assert mk in order;
      CallsAgree(v, w, order[1..]);
    }
  }

  /** Finalising one of several objects leaves the others as they were. */
  lemma FinaliseFirst(w: World, mk: Key, rest: seq<Key>)
    requires Inv(w) && mk in w.objects && mk !in rest && forall m | m in rest :: m in w.objects
    ensures var w1 := Finalise(w, w.objects[mk].udd, mk);
      && Inv(w1) && Ready(w1, rest) && Ready(w, rest) && Calls(w1, rest) == Calls(w, rest)
  {
    var w1 := Finalise(w, w.objects[mk].udd, mk);
    FinaliseFinds(w, mk);
    FinaliseKeeps(w, mk);
    RemoveKeeps(w.pool, mk);
    AllReady(w, rest);
    AllReady(w1, rest);
    CallsAgree(w1, w, rest);
  }

  /** The world after the finalising loop: no panic, and one callback per object, of its own loader. */
  function Finalised(w: World, order: seq<Key>): World
    requires Ready(w, order)
  {
    w.(pool := RemoveAll(w.pool, order), objects := w.objects - Elements(order),
       called := w.called + Calls(w, order))
  }

  /** One object finalised: the callbacks, objects and keys that remain to be dealt with. */
  lemma FinalisedParts(w: World, order: seq<Key>)
    requires order != [] && Ready(w, order)
    ensures var mk, rest := order[0], order[1..];
      && Ready(w, rest)
      && RemoveAll(w.pool, order) == RemoveAll(Remove(w.pool, mk), rest)
      && w.objects - Elements(order) == (w.objects - {mk}) - Elements(rest)
      && mk in w.objects && mk in w.pool && w.pool[mk].ModuleEntry?
      && w.objects[mk].udd in w.pool && w.pool[w.objects[mk].udd].LoaderEntry?
      && Calls(w, order) == [Call(w.pool[w.objects[mk].udd].loader, w.pool[mk].obj)] + Calls(w, rest)
  {
    var mk, rest := order[0], order[1..];
    assert mk in order && forall m | m in rest :: m in order;
    DropFirst(w.objects, order);
  }

  lemma DropFirst(objects: map<Key, Object>, order: seq<Key>)
    requires order != []
    ensures objects - Elements(order) == (objects - {order[0]}) - Elements(order[1..])
  {
    assert order == [order[0]] + order[1..];
    assert Elements(order) == {order[0]} + Elements(order[1..]);
  }

  lemma FinalisedFirst(w: World, order: seq<Key>)
    requires Inv(w) && order != [] && Distinct(order) && order[0] in w.objects
    requires forall m | m in order :: m in w.objects
    ensures var w1 := Finalise(w, w.objects[order[0]].udd, order[0]);
      Ready(w, order) && Inv(w1) && Ready(w1, order[1..]) && Finalised(w, order) == Finalised(w1, order[1..])
  {
    var mk, rest := order[0], order[1..];
    assert mk in order && forall m | m in rest :: m in order && m != mk;
    AllReady(w, order);
    FinalisedParts(w, order);
    FinaliseFinds(w, mk);
    FinaliseFirst(w, mk, rest);
    PushCall(w.called, Call(w.pool[w.objects[mk].udd].loader, w.pool[mk].obj), Calls(w, rest));
  }

  lemma PushCall(a: seq<Call>, c: Call, b: seq<Call>)
    ensures a + ([c] + b) == (a + [c]) + b
  {
  }

  lemma FinaliseAllFirst(w: World, order: seq<Key>)
    requires order != [] && Distinct(order) && forall mk | mk in order :: mk in w.objects
    ensures var mk := order[0];
      var w1 := Finalise(w, w.objects[mk].udd, mk);
      && Distinct(order[1..]) && (forall m | m in order[1..] :: m in w1.objects)
      && FinaliseAll(w, order) == FinaliseAll(w1, order[1..])
  {
    assert forall m | m in order[1..] :: m in order && m != order[0];
  }

  lemma {:induction false} FinaliseAllIs(w: World, order: seq<Key>)
    requires Inv(w) && Distinct(order) && forall mk | mk in order :: mk in w.objects
    ensures Ready(w, order)
    ensures FinaliseAll(w, order) == Finalised(w, order) && Inv(FinaliseAll(w, order))
    decreases |order|
  {
    AllReady(w, order);
    if order == [] {
      assert w.objects - Elements(order) == w.objects;
    } else {
      var mk := order[0];
      assert mk in order;
      FinaliseAllFirst(w, order);
      FinalisedFirst(w, order);
      FinaliseAllIs(Finalise(w, w.objects[mk].udd, mk), order[1..]);
    }
  }

  lemma FirstIrrelevant(w: World, first: map<EnvId, Key>, order: seq<Key>)
    requires Distinct(order) && forall mk | mk in order :: mk in w.objects
    ensures FinaliseAll(w.(first := first), order) == FinaliseAll(w, order).(first := first)
    decreases |order|
  {
    if order != [] {
      var mk := order[0];
      assert mk in order;
      assert forall m | m in order[1..] :: m in order && m != mk;
      var w1 := Finalise(w, w.objects[mk].udd, mk);
      assert Finalise(w.(first := first), w.objects[mk].udd, mk) == w1.(first := first);
      FirstIrrelevant(w1, first, order[1..]);
    }
  }

  lemma {:induction false} RemoveLoadersOwned(p: Keys, ks: seq<Key>)
    requires Owned(p) && forall k | k in ks && k in p :: p[k].LoaderEntry?
    ensures Owned(p - Elements(ks))
  {
    if ks == [] {
      assert p - Elements(ks) == p;
    } else {
      var k, rest := ks[0], ks[1..];
      assert k in ks && forall x | x in rest :: x in ks;
      if k in p {
        LoaderKeeps(p, k, 0, 0);
      } else {
        assert p - {k} == p;
      }
      RemoveLoadersOwned(p - {k}, rest);
      assert Elements(ks) == {k} + Elements(rest);
      assert p - Elements(ks) == (p - {k}) - Elements(rest);
    }
  }

  /** What Destroy computes, given the finalising loop. */
  lemma DestroyIs(w: World, e: EnvId, order: seq<Key>)
    requires Inv(w) && Enabled(w, Destroy(e, order))
    ensures Ready(w, order) && Owned(Step(w, Destroy(e, order)).pool)
    ensures Step(w, Destroy(e, order)) ==
      w.(pool := RemoveAll(w.pool, order) - Elements(w.loaders[e]), first := w.first - {e},
         loaders := w.loaders - {e}, objects := w.objects - Elements(order),
         called := w.called + Calls(w, order))
  {
    Listed(w, e, order);
    FinaliseAllIs(w, order);
    FirstIrrelevant(w, w.first - {e}, order);
    assert Registered(w.loaders[e]) == Elements(w.loaders[e]);
    RemoveAllIs(w.pool, order);
    assert forall k | k in w.loaders[e] :: HasLoader(w.loaders, e, k);
    RemoveLoadersOwned(RemoveAll(w.pool, order), w.loaders[e]);
  }

  /**
   * Destroy: every finaliser finds its loader and its module, its callback runs once,
   * and afterwards the pool has lost exactly the keys of that environment.
   */
  lemma DestroyExact(w: World, e: EnvId, order: seq<Key>)
    requires Inv(w) && Enabled(w, Destroy(e, order))
    ensures var w' := Step(w, Destroy(e, order));
      && Ready(w, order) && w'.called == w.called + Calls(w, order)
      && (forall k :: k in w'.pool <==> k in w.pool && !OfEnv(w, e, k))
      && (forall k | k in w'.pool :: w'.pool[k] == w.pool[k])
  {
    DestroyIs(w, e, order);
    Listed(w, e, order);
    AllReady(w, order);
    RemoveAllIs(w.pool, order);
  }

  /** Which keys belong to `e`: those that carry its name, its objects, and their methods. */
  lemma OfEnvIs(w: World, e: EnvId, k: Key)
    requires Inv(w) && k in w.pool
    ensures w.pool[k].LoaderEntry? ==> (OfEnv(w, e, k) <==> w.pool[k].env == e)
    ensures w.pool[k].ModuleEntry? ==> (OfEnv(w, e, k) <==> k in ObjectsOf(w, e))
    ensures w.pool[k].MethodEntry? ==>
      exists mk :: Owns(w.pool, mk, k) && (OfEnv(w, e, k) <==> mk in ObjectsOf(w, e))
  {
    if w.pool[k].MethodEntry? {
      var mk :| Owns(w.pool, mk, k);
    } else {
      assert forall mk :: !Owns(w.pool, mk, k);
    }
  }

  lemma DestroyKeepsHomes(w: World, e: EnvId, p: Keys)
    requires Inv(w) && forall k :: k in p <==> k in w.pool && !OfEnv(w, e, k)
    requires forall k | k in p :: p[k] == w.pool[k]
    ensures LoadersOk(p, w.loaders - {e})
    ensures ObjectsOk(p, w.loaders - {e}, w.objects - ObjectsOf(w, e), w.boxed)
  {
    var loaders, objects := w.loaders - {e}, w.objects - ObjectsOf(w, e);
    forall k | k in w.pool
      ensures w.pool[k].LoaderEntry? ==> (k in p <==> w.pool[k].env != e)
      ensures w.pool[k].ModuleEntry? ==> (k in p <==> k !in ObjectsOf(w, e))
    {
      OfEnvIs(w, e, k);
    }
    assert forall d, x :: HasLoader(loaders, d, x) <==> HasLoader(w.loaders, d, x) && d != e;
    assert forall mk | mk in objects :: w.objects[mk].env != e;
  }

  lemma DestroyKeeps(w: World, e: EnvId, order: seq<Key>)
    requires Inv(w) && Enabled(w, Destroy(e, order))
    ensures Inv(Step(w, Destroy(e, order)))
  {
    DestroyIs(w, e, order);
    DestroyExact(w, e, order);
    DestroyKeepsHomes(w, e, Step(w, Destroy(e, order)).pool);
  }

  lemma AddFirstLoader(w: World, e: EnvId, loader: nat, k: Key)
    requires e !in w.loaders
    ensures AddLoader(w, e, loader, k).loaders == w.loaders[e := [k]]
  {
    var none: seq<Key> := [];
    assert none + [k] == [k];
  }

  lemma AddSecondLoader(w: World, e: EnvId, loader: nat, k0: Key, k: Key)
    requires e in w.loaders && w.loaders[e] == [k0]
    ensures AddLoader(w, e, loader, k).loaders == w.loaders[e := [k0, k]]
  {
    assert [k0] + [k] == [k0, k];
  }

  lemma NewEnvPlain(w: World, e: EnvId, k0: Key)
    requires Inv(w) && e !in w.loaders && k0 !in w.pool && k0 != 0
    ensures var w1 := AddLoader(w, e, PLUGIN_LOADER, k0);
      Inv(w1) && w1.loaders == w.loaders[e := [k0]] && w1.objects == w.objects
      && w1.pool.Keys == w.pool.Keys + {k0}
  {
    AddLoaderKeeps(w, e, PLUGIN_LOADER, k0);
    AddFirstLoader(w, e, PLUGIN_LOADER, k0);
  }

  lemma NewEnvUser(w: World, e: EnvId, user: nat, k0: Key, k1: Key)
    requires Inv(w) && e !in w.loaders && k0 !in w.pool && k0 != 0 && k1 !in w.pool && k1 != 0 && k1 != k0
    ensures var w2 := AddLoader(AddLoader(w, e, PLUGIN_LOADER, k0), e, user, k1);
      Inv(w2) && w2.loaders == w.loaders[e := [k0, k1]] && w2.objects == w.objects
  {
    NewEnvPlain(w, e, k0);
    var w1 := AddLoader(w, e, PLUGIN_LOADER, k0);
    AddLoaderKeeps(w1, e, user, k1);
    AddSecondLoader(w1, e, user, k0, k1);
    UpdateTwice(w.loaders, e, [k0], [k0, k1]);
  }

  lemma UpdateTwice(m: map<EnvId, seq<Key>>, e: EnvId, a: seq<Key>, b: seq<Key>)
    ensures m[e := a][e := b] == m[e := b]
  {
  }

  lemma NewEnvKeeps(w: World, e: EnvId, user: Option<nat>, readings: seq<Key>)
    requires Inv(w) && Enabled(w, NewEnv(e, user, readings))
    ensures var w' := Step(w, NewEnv(e, user, readings));
      Inv(w') && w'.loaders == w.loaders[e := readings] && w'.objects == w.objects
  {
    var k0 := readings[0];
    assert k0 in readings;
    if user.Some? {
      var k1 := readings[1];
      assert k1 in readings && k1 != k0;
      assert readings == [k0, k1];
      NewEnvUser(w, e, user.value, k0, k1);
    } else {
      assert readings == [k0];
      NewEnvPlain(w, e, k0);
    }
  }

  // ---- every run ----

  lemma StepKeeps(w: World, op: Op)
    requires Inv(w) && Enabled(w, op)
    ensures Inv(Step(w, op))
  {
    match op
    case NewEnv(e, user, readings) => NewEnvKeeps(w, e, user, readings);
    case LoadModule(e, i, kind, obj, ks, mk) => LoadKeeps(w, e, i, kind, obj, ks, mk);
    case Box(obj, ks, mk) => BoxKeeps(w, obj, ks, mk);
    case Build(e, mk, fields) => BuildKeeps(w, e, mk, fields);
    case Collect(mk) => FinaliseKeeps(w, mk);
    case Destroy(e, order) => DestroyKeeps(w, e, order);
  }

  /** `ws` is a run: it starts with nothing and each world follows from the one before by `ops`. */
  ghost predicate IsRun(ws: seq<World>, ops: seq<Op>) {
    && |ws| == |ops| + 1 && ws[0] == Start(ws[0].arrayBytes)
    && forall i | 0 <= i < |ops| :: Enabled(ws[i], ops[i]) && ws[i + 1] == Step(ws[i], ops[i])
  }

  lemma {:induction false} RunKeeps(ws: seq<World>, ops: seq<Op>, i: nat)
    requires IsRun(ws, ops) && i < |ws|
    ensures Inv(ws[i])
    decreases i
  {
    if i > 0 {
      RunKeeps(ws, ops, i - 1);
      StepKeeps(ws[i - 1], ops[i - 1]);
    }
  }

  /** No key outlives both all environments and all boxed values. */
  lemma KeyHasHome(w: World, k: Key)
    requires Inv(w) && k in w.pool
    ensures w.loaders.Keys != {} || w.boxed != {}
  {
    if w.pool[k].LoaderEntry? {
      assert HasLoader(w.loaders, w.pool[k].env, k);
      assert w.pool[k].env in w.loaders.Keys;
    } else {
      var m := k;
      if w.pool[k].MethodEntry? {
        m :| Owns(w.pool, m, k);
      }
      if m !in w.boxed {
        assert w.objects[m].env in w.loaders.Keys;
      }
    }
  }

  /**
   * In every run, destroying an environment whose objects are each finalised once finds
   * every loader and module, runs one callback per object, with that object's loader, and
   * removes exactly the keys of that environment.
   */
  lemma DestroyInRun(ws: seq<World>, ops: seq<Op>, i: nat)
    requires IsRun(ws, ops) && i < |ops| && ops[i].Destroy?
    ensures var w, w', e, order := ws[i], ws[i + 1], ops[i].e, ops[i].order;
      && Ready(w, order) && w'.called == w.called + Calls(w, order)
      && (forall k :: k in w'.pool <==> k in w.pool && !OfEnv(w, e, k))
      && (forall k | k in w'.pool :: w'.pool[k] == w.pool[k])
  {
    RunKeeps(ws, ops, i);
    DestroyExact(ws[i], ops[i].e, ops[i].order);
  }

  /** The operation lists attributes that panic. */
  predicate Panicking(op: Op, arrayBytes: bool) {
    || (op.LoadModule? && ListingPanics(op.kind, arrayBytes))
    || (op.Build? && ListingPanics(StructPointer(op.fields), arrayBytes))
  }

  lemma StepPanics(w: World, op: Op)
    requires Inv(w) && Enabled(w, op)
    ensures Step(w, op).panicked == Panicking(op, w.arrayBytes) && Step(w, op).arrayBytes == w.arrayBytes
  {
    match op
    case NewEnv(e, user, readings) =>
    case LoadModule(e, i, kind, obj, ks, mk) => LoadKeeps(w, e, i, kind, obj, ks, mk);
    case Box(obj, ks, mk) =>
    case Build(e, mk, fields) => BuildKeeps(w, e, mk, fields);
    case Collect(mk) => FinaliseFinds(w, mk);
    case Destroy(e, order) => DestroyIs(w, e, order);
  }

  /**
   * A run panics exactly when a loaded or built value has attributes whose listing panics:
   * a struct by value, or a first wrong field that reflection refuses. No finaliser panics.
   */
  lemma {:induction false} PanicsWhen(ws: seq<World>, ops: seq<Op>, i: nat)
    requires IsRun(ws, ops) && i < |ws|
    ensures ws[i].arrayBytes == ws[0].arrayBytes
    ensures ws[i].panicked <==> SomePanics(ops, i, ws[0].arrayBytes)
    decreases i
  {
    if i > 0 {
      PanicsWhen(ws, ops, i - 1);
      RunKeeps(ws, ops, i - 1);
      var w := ws[i - 1];
      assert Enabled(w, ops[i - 1]) && ws[i] == Step(w, ops[i - 1]);
      StepPanics(w, ops[i - 1]);
      SomePanicsNext(ops, i - 1, ws[0].arrayBytes);
    }
  }

  /** One of the first `n` operations lists attributes that panic. */
  ghost predicate SomePanics(ops: seq<Op>, n: nat, arrayBytes: bool)
    requires n <= |ops|
  {
    exists j :: 0 <= j < n && Panicking(ops[j], arrayBytes)
  }

  lemma SomePanicsNext(ops: seq<Op>, n: nat, arrayBytes: bool)
    requires n < |ops|
    ensures SomePanics(ops, n + 1, arrayBytes) <==> SomePanics(ops, n, arrayBytes) || Panicking(ops[n], arrayBytes)
  {
    if j :| 0 <= j < n && Panicking(ops[j], arrayBytes) {
      assert 0 <= j < n + 1;
    }
  }

  lemma TwoSteps(w0: World, w1: World, w2: World, op1: Op, op2: Op)
    requires w0 == Start(w0.arrayBytes) && Enabled(w0, op1) && w1 == Step(w0, op1)
    requires Enabled(w1, op2) && w2 == Step(w1, op2)
    ensures IsRun([w0, w1, w2], [op1, op2])
  {
  }

  /** A loaded value whose listing panics makes a run of two operations panic. */
  lemma LoadPanics(e: EnvId, k: Key, kind: Loaded, obj: nat, mk: Key, arrayBytes: bool)
    requires k != 0 && mk != 0 && k != mk && ListingPanics(kind, arrayBytes)
    ensures var ops := [NewEnv(e, None, [k]), LoadModule(e, 0, kind, obj, [], mk)];
      exists ws: seq<World> :: IsRun(ws, ops) && ws[0].arrayBytes == arrayBytes && ws[2].panicked
  {
    var op1, op2 := NewEnv(e, None, [k]), LoadModule(e, 0, kind, obj, [], mk);
    var none: seq<Key> := [];
    var w0 := Start(arrayBytes);
    assert Enabled(w0, op1);
    var w1 := Step(w0, op1);
    AddFirstLoader(w0, e, PLUGIN_LOADER, k);
    assert none + [mk] == [mk];
    assert Enabled(w1, op2);
    var w2 := Step(w1, op2);
    TwoSteps(w0, w1, w2, op1, op2);
    assert [w0, w1, w2][0].arrayBytes == arrayBytes && [w0, w1, w2][2].panicked;
  }

  /** The shortest such run, with any Go: one environment, one struct by value. */
  lemma ByValuePanics(e: EnvId, k: Key, obj: nat, mk: Key, arrayBytes: bool)
    requires k != 0 && mk != 0 && k != mk
    ensures var ops := [NewEnv(e, None, [k]), LoadModule(e, 0, StructValue, obj, [], mk)];
      exists ws: seq<World> :: IsRun(ws, ops) && ws[2].panicked
  {
    LoadPanics(e, k, StructValue, obj, mk, arrayBytes);
  }

  /** A struct pointer panics too: with an exported byte array before Go 1.19, and with a list named in another script. */
  lemma FieldsPanic(e: EnvId, k: Key, obj: nat, mk: Key, first: byte, accepted: bool)
    requires k != 0 && mk != 0 && k != mk && first >= 0x80
    ensures var id := Field(UPPER_A, true, ArrayKind(true), accepted);
      var ops := [NewEnv(e, None, [k]), LoadModule(e, 0, StructPointer([id]), obj, [], mk)];
      exists ws: seq<World> :: IsRun(ws, ops) && !ws[0].arrayBytes && ws[2].panicked
    ensures var list := Field(first, false, SliceKind(false, false), accepted);
      var ops := [NewEnv(e, None, [k]), LoadModule(e, 0, StructPointer([list]), obj, [], mk)];
      exists ws: seq<World> :: IsRun(ws, ops) && ws[0].arrayBytes && ws[2].panicked
  {
    var id := Field(UPPER_A, true, ArrayKind(true), accepted);
    var list := Field(first, false, SliceKind(false, false), accepted);
    LoadPanics(e, k, StructPointer([id]), obj, mk, false);
    LoadPanics(e, k, StructPointer([list]), obj, mk, true);
  }

  // ---- which loader a finaliser reaches ----

  /** The loaders that NewEnv registers, in order. */
  function LoadersOf(user: Option<nat>): seq<nat> {
    [PLUGIN_LOADER] + if user.Some? then [user.value] else []
  }

  /** The keys of `e` are `ks`, and stand for these loaders. */
  ghost predicate Serves(w: World, e: EnvId, ks: seq<Key>, loaders: seq<nat>) {
    && e in w.loaders && w.loaders[e] == ks && |ks| == |loaders|
    && forall i | 0 <= i < |ks| :: ks[i] in w.pool && w.pool[ks[i]] == LoaderEntry(loaders[i], e)
  }

  /** NewEnv registers the plugin loader first and the given one behind it, and changes nothing else in the pool. */
  lemma NewEnvServes(w: World, e: EnvId, user: Option<nat>, readings: seq<Key>)
    requires Inv(w) && Enabled(w, NewEnv(e, user, readings))
    ensures var w' := Step(w, NewEnv(e, user, readings));
      && Serves(w', e, readings, LoadersOf(user)) && Kept(w.pool, w'.pool)
      && w'.pool.Keys == w.pool.Keys + Elements(readings)
  {
    NewEnvKeeps(w, e, user, readings);
    assert readings[0] in readings;
    if user.Some? {
      assert readings == [readings[0], readings[1]];
    } else {
      assert readings == [readings[0]];
    }
  }

  /** Where no loader key goes and the list of `e` stays, its loaders stay. */
  lemma ServesKept(w: World, w': World, e: EnvId, ks: seq<Key>, loaders: seq<nat>)
    requires Serves(w, e, ks, loaders) && e in w'.loaders && w'.loaders[e] == ks
    requires forall k | k in w.pool && w.pool[k].LoaderEntry? && k in ks :: k in w'.pool && w'.pool[k] == w.pool[k]
    ensures Serves(w', e, ks, loaders)
  {
    forall i | 0 <= i < |ks| ensures ks[i] in w'.pool && w'.pool[ks[i]] == LoaderEntry(loaders[i], e) {
      var k := ks[i];
      assert k in w.pool && w.pool[k].LoaderEntry?;
    }
  }

  /** Making keys, objects and boxed values takes no loader away. */
  lemma GrowthServes(w: World, op: Op, e: EnvId, ks: seq<Key>, loaders: seq<nat>)
    requires Inv(w) && Enabled(w, op) && Serves(w, e, ks, loaders) && !op.Destroy? && !op.Collect?
    ensures Serves(Step(w, op), e, ks, loaders)
  {
    match op {
      case NewEnv(d, user, readings) =>
        NewEnvServes(w, d, user, readings);
        NewEnvKeeps(w, d, user, readings);
      case LoadModule(d, n, kind, obj, keys, mk) => LoadKeeps(w, d, n, kind, obj, keys, mk);
      case Box(obj, keys, mk) => BoxKeeps(w, obj, keys, mk);
      case Build(d, mk, fields) => BuildKeeps(w, d, mk, fields);
    }
    assert Kept(w.pool, Step(w, op).pool);
    ServesKept(w, Step(w, op), e, ks, loaders);
  }

  /** An operation that does not destroy `e` leaves its loader keys as they were. */
  lemma StepServes(w: World, op: Op, e: EnvId, ks: seq<Key>, loaders: seq<nat>)
    requires Inv(w) && Enabled(w, op) && Serves(w, e, ks, loaders) && !(op.Destroy? && op.e == e)
    ensures Serves(Step(w, op), e, ks, loaders)
  {
    match op
    case Collect(mk) =>
      FinaliseFinds(w, mk);
      RemoveKeeps(w.pool, mk);
      ServesKept(w, Step(w, op), e, ks, loaders);
    case Destroy(d, order) =>
      DestroyIs(w, d, order);
      DestroyExact(w, d, order);
      forall k | k in w.pool && w.pool[k].LoaderEntry? && k in ks ensures k in Step(w, op).pool {
        OfEnvIs(w, d, k);
      }
      ServesKept(w, Step(w, op), e, ks, loaders);
    case _ => GrowthServes(w, op, e, ks, loaders);
  }

  /** No operation from `i` on and before `j` destroys the environment. */
  ghost predicate Undestroyed(ops: seq<Op>, e: EnvId, i: nat, j: nat)
    requires i <= j <= |ops|
  {
    forall k | i <= k < j :: !(ops[k].Destroy? && ops[k].e == e)
  }

  /**
   * In every run, from the creation of an environment until it is destroyed, its keys are
   * the readings of NewEnv, the first one stands for the plugin loader and the second one
   * for the loader that was given.
   */
  lemma {:induction false} LoadersStay(ws: seq<World>, ops: seq<Op>, i: nat, j: nat)
    requires IsRun(ws, ops) && i < j <= |ops| && ops[i].NewEnv? && Undestroyed(ops, ops[i].e, i, j)
    ensures Serves(ws[j], ops[i].e, ops[i].readings, LoadersOf(ops[i].user))
    decreases j
  {
    RunKeeps(ws, ops, j - 1);
    if j == i + 1 {
      NewEnvServes(ws[i], ops[i].e, ops[i].user, ops[i].readings);
    } else {
      LoadersStay(ws, ops, i, j - 1);
      StepServes(ws[j - 1], ops[j - 1], ops[i].e, ops[i].readings, LoadersOf(ops[i].user));
    }
  }

  /** `mk` is an object of `e` for the Go value `obj`, with the finaliser of the loader key `udd`. */
  ghost predicate IsObject(w: World, e: EnvId, udd: Key, mk: Key, obj: nat) {
    mk in w.objects && w.objects[mk] == Object(e, udd) && mk in w.pool && w.pool[mk].ModuleEntry? && w.pool[mk].obj == obj
  }

  /** An operation that neither collects the object nor destroys its environment leaves it as it was. */
  lemma StepKeepsObject(w: World, op: Op, e: EnvId, udd: Key, mk: Key, obj: nat)
    requires Inv(w) && Enabled(w, op) && IsObject(w, e, udd, mk, obj)
    requires op != Collect(mk) && !(op.Destroy? && op.e == e)
    ensures IsObject(Step(w, op), e, udd, mk, obj)
  {
    match op
    case NewEnv(d, user, readings) =>
      NewEnvServes(w, d, user, readings);
      NewEnvKeeps(w, d, user, readings);
    case LoadModule(d, i, kind, o, keys, m) =>
      LoadKeeps(w, d, i, kind, o, keys, m);
      if !kind.NoModule? {
        FreshParts(w.pool, keys, m);
      }
    case Box(o, keys, m) => BoxKeeps(w, o, keys, m);
    case Build(d, m, fields) => BuildKeeps(w, d, m, fields);
    case Collect(m) =>
      FinaliseFinds(w, m);
      RemoveKeeps(w.pool, m);
    case Destroy(d, order) =>
      DestroyIs(w, d, order);
      DestroyExact(w, d, order);
      Listed(w, d, order);
      OfEnvIs(w, d, mk);
  }

  lemma {:induction false} ObjectStays(ws: seq<World>, ops: seq<Op>, i: nat, j: nat, e: EnvId, udd: Key, mk: Key, obj: nat)
    requires IsRun(ws, ops) && i <= j <= |ops| && IsObject(ws[i], e, udd, mk, obj)
    requires Undestroyed(ops, e, i, j) && forall k | i <= k < j :: ops[k] != Collect(mk)
    ensures IsObject(ws[j], e, udd, mk, obj)
    decreases j
  {
    if i < j {
      ObjectStays(ws, ops, i, j - 1, e, udd, mk, obj);
      RunKeeps(ws, ops, j - 1);
      StepKeepsObject(ws[j - 1], ops[j - 1], e, udd, mk, obj);
    }
  }

  /**
   * In every run: an environment is made at `i`, its loader number `n` loads a module at `j`,
   * and the object is collected at `l`, the first time since then and with the environment
   * still there. Then that very loader gets one call, about that very module.
   */
  lemma FinaliserReachesLoader(ws: seq<World>, ops: seq<Op>, i: nat, j: nat, l: nat)
    requires IsRun(ws, ops) && i < j < l < |ops| && ops[i].NewEnv? && ops[j].LoadModule? && !ops[j].kind.NoModule?
    requires ops[j].e == ops[i].e && ops[l] == Collect(ops[j].mk)
    requires Undestroyed(ops, ops[i].e, i, l) && forall k | j < k < l :: ops[k] != Collect(ops[j].mk)
    ensures ops[j].i < |LoadersOf(ops[i].user)|
    ensures ws[l + 1].called == ws[l].called + [Call(LoadersOf(ops[i].user)[ops[j].i], ops[j].obj)]
  {
    var e, n, mk, obj := ops[i].e, ops[j].i, ops[j].mk, ops[j].obj;
    LoadersStay(ws, ops, i, j);
    RunKeeps(ws, ops, j);
    assert Enabled(ws[j], ops[j]);
    var udd := ops[i].readings[n];
    LoadKeeps(ws[j], e, n, ops[j].kind, obj, ops[j].ks, mk);
    assert IsObject(ws[j + 1], e, udd, mk, obj);
    ObjectStays(ws, ops, j + 1, l, e, udd, mk, obj);
    LoadersStay(ws, ops, i, l);
    RunKeeps(ws, ops, l);
    FinaliseFinds(ws[l], mk);
  }

  /** Once nothing is boxed and no environment is left the pool is empty. */
  lemma NothingLeaks(ws: seq<World>, ops: seq<Op>, i: nat)
    requires IsRun(ws, ops) && i < |ws|
    ensures ws[i].loaders.Keys == {} && ws[i].boxed == {} ==> forall k :: k !in ws[i].pool
  {
    RunKeeps(ws, ops, i);
    forall k | k in ws[i].pool ensures ws[i].loaders.Keys != {} || ws[i].boxed != {} {
      KeyHasHome(ws[i], k);
    }
  }
}
