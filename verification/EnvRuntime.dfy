/**
 * The operations of module_loader.go and duk_bridge.go as they run, on one key pool and
 * the package-level maps. Each computes what EnvLifecycle says.
 */
module EnvRuntime {
  import opened Attributes
  import opened Bytes
  import opened KeyPool
  import opened ModuleKeys
  import opened EnvLifecycle
  import opened Sequences

  class Runtime {
    const pool: KeyStore
    const arrayBytes: bool
    var first: map<EnvId, Key>
    var loaders: map<EnvId, seq<Key>>
    var objects: map<Key, Object>
    var boxed: set<Key>
    var called: seq<Call>
    var panicked: bool

    constructor (arrayBytes: bool)
      ensures Valid() && fresh(pool) && Abs() == Start(arrayBytes)
    {
      this.arrayBytes := arrayBytes;
      pool := new V2KPool<Key, Entry, ()>(false);
      first, loaders, objects, boxed, called, panicked := map[], map[], map[], {}, [], false;
    }

    ghost predicate Valid()
      reads this, pool
    {
      !pool.valHashable && pool.v2k == map[]
    }

    ghost function Abs(): World
      reads this, pool
    {
      World(pool.k2v, first, loaders, objects, boxed, called, panicked, arrayBytes)
    }

    method AddGoModuleLoader(e: EnvId, loader: nat, reading: Key)
      requires Valid()
      modifies this, pool
      ensures Valid() && Abs() == AddLoader(old(Abs()), e, loader, reading)
    {
      var loaderKey := SaveModuleLoader(pool, loader, e, reading);
      var ks := if e in loaders then loaders[e] else [];
      if |ks| == 0 {
        first := first[e := loaderKey];
      }
      loaders := loaders[e := ks + [loaderKey]];
    }

    /** NewEnv for a heap at address `e`. */
    method MakeEnv(e: EnvId, user: Option<nat>, readings: seq<Key>)
      requires Valid() && Enabled(Abs(), NewEnv(e, user, readings))
      modifies this, pool
      ensures Valid() && Abs() == Step(old(Abs()), NewEnv(e, user, readings))
    {
      AddGoModuleLoader(e, PLUGIN_LOADER, readings[0]);
      if user.Some? {
        AddGoModuleLoader(e, user.value, readings[1]);
      }
    }

    /** go_loadModule for the loader key `udd`, followed by init_native_obj. */
    method GoLoadModule(e: EnvId, udd: Key, kind: Loaded, obj: nat, nMethods: nat, readings: seq<Key>) returns (modKey: Key)
      requires Valid() && |readings| == nMethods + 1
      modifies this, pool
      ensures Valid()
      ensures if udd in old(pool.k2v) && old(pool.k2v)[udd].LoaderEntry? && !kind.NoModule? then
          modKey == readings[nMethods] &&
          Abs() == EnvLifecycle.LoadObject(old(Abs()), e, udd, kind, obj, readings[..nMethods], modKey)
        else modKey == 0 && Abs() == old(Abs())
    {
      var loader := GetModuleLoader(pool, udd);
      if loader.None? {
        return 0;
      }
      if kind.NoModule? {
        return 0;
      }
      var keys: seq<Key>;
      modKey, keys := CreateMethodKeys(pool, obj, nMethods, readings);
      objects := objects[modKey := Object(e, udd)];   // the finaliser is set
      boxed := boxed - {modKey};
      if kind.StructValue? {
        panicked := true;                               // structP.Elem() in go_getAttrsList
      } else {
        ListFields(kind.fields);
      }
    }

    /** go_getAttrsList for a struct pointer. A throw leaves it for the enclosing protected call; the object stays. */
    method ListFields(fields: seq<Field>)
      modifies this`panicked
      ensures panicked == (old(panicked) || ListAll(fields, arrayBytes).Panicked?)
    {
      var r, attrs, stop := ListAttributes(fields, arrayBytes);
      panicked := panicked || r.Panicked?;
    }

    /** go_createEcmascriptObject: the struct of `modKey` becomes an object of the first loader. */
    method GoCreateObject(e: EnvId, modKey: Key, fields: seq<Field>) returns (ok: bool)
      requires Valid()
      modifies this
      ensures Valid() && ok == (e in first) && Abs() == BuildObject(old(Abs()), e, modKey, fields)
    {
      ok := e in first;
      if ok {
        objects := objects[modKey := Object(e, first[e])];   // the finaliser is set
        boxed := boxed - {modKey};
        ListFields(fields);
      }
    }

    /** go_finalizeModule, run by the finaliser of the object of `modKey`. */
    method GoFinalizeModule(udd: Key, modKey: Key)
      requires Valid()
      modifies this, pool
      ensures Valid() && Abs() == Finalise(old(Abs()), udd, modKey)
    {
      var modInfo := GetModInfo(pool, modKey);
      var loader := GetModuleLoader(pool, udd);
      if loader.Some? {
        if modInfo.None? {
          panicked := true;
          return;
        }
        called := called + [Call(loader.value.0, modInfo.value.obj)];
      }
      RemoveModule(pool, modKey);
      objects := objects - {modKey};
    }

    /** js_destroy_env: the heap finalises its remaining objects in the order it likes. */
    method DestroyHeap(order: seq<Key>)
      requires Valid() && Distinct(order) && forall mk | mk in order :: mk in objects
      modifies this, pool
      ensures Valid() && Abs() == FinaliseAll(old(Abs()), order)
    {
      var i: nat := 0;
      while i < |order|
        invariant i <= |order| && Valid()
        invariant forall mk | mk in order[i..] :: mk in objects
        invariant FinaliseAll(Abs(), order[i..]) == FinaliseAll(old(Abs()), order)
      {
        var mk := order[i];
        assert mk in order[i..];
        FinaliseAllFirst(Abs(), order[i..]);
        assert order[i..][1..] == order[i + 1..];
        GoFinalizeModule(objects[mk].udd, mk);
        i := i + 1;
      }
    }

    /** The last loop of Destroy. */
    method RemoveLoaderKeys(loaderKey: seq<Key>)
      requires Valid()
      modifies pool
      ensures Valid() && pool.k2v == old(pool.k2v) - Registered(loaderKey)
    {
      var i: nat := 0;
      while i < |loaderKey|
        invariant i <= |loaderKey| && Valid()
        invariant pool.k2v == old(pool.k2v) - Registered(loaderKey[..i])
      {
        assert Elements(loaderKey[..i + 1]) == Elements(loaderKey[..i]) + {loaderKey[i]};
        if loaderKey[i] != 0 {
          pool.RemoveKeyOp(loaderKey[i], Refused(()));
        }
        i := i + 1;
      }
      assert loaderKey[..i] == loaderKey;
    }

    method DestroyEnvironment(e: EnvId, order: seq<Key>)
      requires Valid() && e in loaders
      requires Distinct(order) && forall mk | mk in order :: mk in objects
      modifies this, pool
      ensures Valid() && Abs() == DestroyEnv(old(Abs()), e, order)
    {
      var loaderKey := loaders[e];
      first := first - {e};
      DestroyHeap(order);
      RemoveLoaderKeys(loaderKey);
      loaders := loaders - {e};
    }
  }
}
