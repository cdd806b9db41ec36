/**
 * The keys that stand for Go values on the C side: loaders, modules and the methods of
 * modules all live in one key pool with unhashable values (native_module_key.go).
 */
module ModuleKeys {
  import opened Bytes
  import opened KeyPool
  import opened Sequences

  /** A nanosecond clock reading. */
  type Key = int

  /** `obj` identifies the goModuleInfo; every value put in the pool is a new pointer. */
  datatype Entry =
    | LoaderEntry(loader: nat, env: nat)
    | ModuleEntry(obj: nat, methods: seq<Key>)
    | MethodEntry(obj: nat, index: nat)

  type Keys = map<Key, Entry>

  type KeyStore = V2KPool<Key, Entry, ()>

  /** The pool with the method keys `ks` of `obj` stored one after the other. */
  function AddMethods(p: Keys, obj: nat, ks: seq<Key>): Keys {
    if ks == [] then p
    else AddMethods(p, obj, ks[..|ks| - 1])[ks[|ks| - 1] := MethodEntry(obj, |ks| - 1)]
  }

  /** createMethodKeys on a pool whose generator answers `ks`, then `mk`. */
  function Create(p: Keys, obj: nat, ks: seq<Key>, mk: Key): Keys {
    AddMethods(p, obj, ks)[mk := ModuleEntry(obj, ks)]
  }

  /** removeModule: nothing happens unless the key stands for a module. */
  function Remove(p: Keys, mk: Key): Keys {
    if mk in p && p[mk].ModuleEntry? then p - ({mk} + Elements(p[mk].methods)) else p
  }

  // ---- the operations ----

  method SaveModuleLoader(pool: KeyStore, loader: nat, env: nat, reading: Key) returns (key: Key)
    requires !pool.valHashable
    modifies pool
    ensures key == reading && pool.v2k == old(pool.v2k)
    ensures pool.k2v == old(pool.k2v)[key := LoaderEntry(loader, env)]
  {
    var r := pool.Val2Key(LoaderEntry(loader, env), Made(reading));
    key := r.k;
  }

  /** The loader and its environment, or an error when the key stands for something else. */
  method GetModuleLoader(pool: KeyStore, key: Key) returns (r: Option<(nat, nat)>)
    ensures r == if key in pool.k2v && pool.k2v[key].LoaderEntry?
                 then Some((pool.k2v[key].loader, pool.k2v[key].env)) else None
  {
    var v := pool.GetVal(key, Refused(()));
    r := if v.ValReply? && v.v.LoaderEntry? then Some((v.v.loader, v.v.env)) else None;
  }

  method GetModInfo(pool: KeyStore, key: Key) returns (r: Option<Entry>)
    ensures r == if key in pool.k2v && pool.k2v[key].ModuleEntry? then Some(pool.k2v[key]) else None
  {
    var v := pool.GetVal(key, Refused(()));
    r := if v.ValReply? && v.v.ModuleEntry? then Some(v.v) else None;
  }

  method CreateMethodKeys(pool: KeyStore, obj: nat, nMethods: nat, readings: seq<Key>)
    returns (modKey: Key, methodKeys: seq<Key>)
    requires !pool.valHashable && |readings| == nMethods + 1
    modifies pool
    ensures methodKeys == readings[..nMethods] && modKey == readings[nMethods]
    ensures pool.k2v == Create(old(pool.k2v), obj, methodKeys, modKey) && pool.v2k == old(pool.v2k)
  {
    methodKeys := [];
    var i: nat := 0;
    while i < nMethods
      invariant i <= nMethods && methodKeys == readings[..i]
      invariant pool.k2v == AddMethods(old(pool.k2v), obj, methodKeys) && pool.v2k == old(pool.v2k)
    {
      var r := pool.Val2Key(MethodEntry(obj, i), Made(readings[i]));
      methodKeys := methodKeys + [r.k];
      assert methodKeys[..i] == readings[..i];
      i := i + 1;
    }
    var r := pool.Val2Key(ModuleEntry(obj, methodKeys), Made(readings[nMethods]));
    modKey := r.k;
  }

  method RemoveModule(pool: KeyStore, modKey: Key)
    requires !pool.valHashable && pool.v2k == map[]
    modifies pool
    ensures pool.k2v == Remove(old(pool.k2v), modKey) && pool.v2k == map[]
  {
    var info := GetModInfo(pool, modKey);
    if info.None? {
      return;
    }
    pool.RemoveKeyOp(modKey, Refused(()));
    ghost var rest := old(pool.k2v) - {modKey};
    assert pool.k2v == rest;
    var i: nat := 0;
    var methods := info.value.methods;
    while i < |methods|
      invariant i <= |methods| && pool.v2k == map[]
      invariant pool.k2v == rest - Elements(methods[..i])
    {
      pool.RemoveKeyOp(methods[i], Refused(()));
      assert Elements(methods[..i + 1]) == Elements(methods[..i]) + {methods[i]};
      i := i + 1;
    }
    assert methods[..i] == methods;
  }

  // ---- ownership ----

  /** `mk` stands for a module, and `k` is one of its method keys. */
  predicate Owns(p: Keys, mk: Key, k: Key) {
    mk in p && p[mk].ModuleEntry? && k in p[mk].methods
  }

  /** The method keys of `mk` are distinct and stand for its methods in order. */
  ghost predicate Complete(p: Keys, mk: Key)
    requires mk in p && p[mk].ModuleEntry?
  {
    var methods := p[mk].methods;
    && Distinct(methods)
    && forall i | 0 <= i < |methods| :: methods[i] in p && p[methods[i]] == MethodEntry(p[mk].obj, i)
  }

  /**
   * Each module's method keys are distinct and live, and stand for just those methods;
   * no key belongs to two modules, and no method key lives without its module.
   */
  ghost predicate Owned(p: Keys) {
    && (forall mk | mk in p && p[mk].ModuleEntry? :: Complete(p, mk))
    && (forall m, n, k | Owns(p, m, k) && Owns(p, n, k) :: m == n)
    && (forall k | k in p && p[k].MethodEntry? :: exists mk :: Owns(p, mk, k))
  }

  /** The readings are distinct and none is a key in use. */
  ghost predicate Fresh(p: Keys, ks: seq<Key>) {
    Distinct(ks) && forall k | k in ks :: k !in p
  }

  /** Every entry of `p` is still there in `p'`. */
  ghost predicate Kept(p: Keys, p': Keys) {
    forall k | k in p :: k in p' && p'[k] == p[k]
  }

  ghost predicate NewObject(p: Keys, obj: nat) {
    forall k | k in p && !p[k].LoaderEntry? :: p[k].obj != obj
  }

  lemma {:induction false} AddMethodsIs(p: Keys, obj: nat, ks: seq<Key>)
    ensures AddMethods(p, obj, ks).Keys == p.Keys + Elements(ks)
    ensures forall k | k in p && k !in ks :: AddMethods(p, obj, ks)[k] == p[k]
    ensures forall k | k in ks ::
      AddMethods(p, obj, ks)[k].MethodEntry? && AddMethods(p, obj, ks)[k].obj == obj
    ensures Distinct(ks) ==> forall i | 0 <= i < |ks| :: AddMethods(p, obj, ks)[ks[i]] == MethodEntry(obj, i)
  {
    if ks != [] {
      var n := |ks| - 1;
      AddMethodsIs(p, obj, ks[..n]);
      assert ks == ks[..n] + [ks[n]];
    }
  }

  /**
   * Creating a module's keys keeps every other entry and the ownership of all keys
   * exactly when the clock gave distinct readings that were not in use.
   */
  lemma CreateKeeps(p: Keys, obj: nat, ks: seq<Key>, mk: Key)
    requires Owned(p) && NewObject(p, obj)
    ensures var p' := Create(p, obj, ks, mk);
      Kept(p, p') && Owned(p') <==> Fresh(p, ks + [mk])
  {
    var p' := Create(p, obj, ks, mk);
    AddMethodsIs(p, obj, ks);
    if Fresh(p, ks + [mk]) {
      CreateOwned(p, obj, ks, mk);
    }
    if Kept(p, p') && Owned(p') {
      assert forall k | k in ks + [mk] :: k in p' && !p'[k].LoaderEntry? && p'[k].obj == obj;
      assert p'[mk].methods == ks;
      assert forall i | 0 <= i < |ks| :: p'[ks[i]] == MethodEntry(obj, i);
    }
  }

  lemma FreshParts(p: Keys, ks: seq<Key>, mk: Key)
    requires Fresh(p, ks + [mk])
    ensures Distinct(ks) && mk !in ks && mk !in p && forall k | k in ks :: k !in p
  {
    var all := ks + [mk];
    assert all[..|ks|] == ks;
    forall i, j | 0 <= i < j < |ks| ensures ks[i] != ks[j] {
      assert all[i] != all[j];
    }
    forall i | 0 <= i < |ks| ensures ks[i] != mk {
      assert all[i] != all[|ks|];
    }
    assert mk in all;
    forall k | k in ks ensures k !in p {
      assert k in all;
    }
  }

  /** What a fresh creation adds: one module and its methods. */
  lemma CreateIs(p: Keys, obj: nat, ks: seq<Key>, mk: Key)
    requires Fresh(p, ks + [mk])
    ensures var p' := Create(p, obj, ks, mk);
      && Kept(p, p') && p'[mk] == ModuleEntry(obj, ks) && Distinct(ks) && mk !in p
      && (forall i | 0 <= i < |ks| :: ks[i] !in p && ks[i] in p' && p'[ks[i]] == MethodEntry(obj, i))
      && (forall k | k in p' :: k in p || k == mk || k in ks)
      && (forall k | k in ks :: p'[k].MethodEntry?)
  {
    AddMethodsIs(p, obj, ks);
    FreshParts(p, ks, mk);
  }

  lemma CreateOwners(p: Keys, obj: nat, ks: seq<Key>, mk: Key, m: Key, k: Key)
    requires Owned(p) && Fresh(p, ks + [mk])
    ensures Owns(Create(p, obj, ks, mk), m, k) <==> if m == mk then k in ks else Owns(p, m, k)
  {
    CreateIs(p, obj, ks, mk);
  }

  lemma CompleteKept(p: Keys, p': Keys, m: Key)
    requires m in p && p[m].ModuleEntry? && Complete(p, m) && Kept(p, p')
    ensures Complete(p', m)
  {
    var methods := p[m].methods;
    forall i | 0 <= i < |methods| ensures methods[i] in p' && p'[methods[i]] == MethodEntry(p'[m].obj, i) {
      var k := methods[i];
      assert k in p && k in p';
    }
  }

  lemma CreateOwned(p: Keys, obj: nat, ks: seq<Key>, mk: Key)
    requires Owned(p) && Fresh(p, ks + [mk])
    ensures Owned(Create(p, obj, ks, mk)) && Kept(p, Create(p, obj, ks, mk))
  {
    var p' := Create(p, obj, ks, mk);
    CreateIs(p, obj, ks, mk);
    forall m | m in p' && p'[m].ModuleEntry? ensures Complete(p', m) {
      if m != mk {
        assert m in p && p'[m] == p[m];
        CompleteKept(p, p', m);
      } else {
        assert p'[mk].methods == ks;
      }
    }
    forall k | k in p' && p'[k].MethodEntry? ensures exists m :: Owns(p', m, k) {
      if k in ks {
        assert Owns(p', mk, k);
      } else {
        var m :| Owns(p, m, k);
        CreateOwners(p, obj, ks, mk, m, k);
        assert Owns(p', m, k);
      }
    }
    forall m, n, k | Owns(p', m, k) && Owns(p', n, k) ensures m == n {
      CreateOwners(p, obj, ks, mk, m, k);
      CreateOwners(p, obj, ks, mk, n, k);
      assert Owns(p, m, k) || Owns(p, n, k) ==> k in p;
    }
  }

  /** Removing a module undoes exactly the creation of its keys. */
  lemma RemoveUndoesCreate(p: Keys, obj: nat, ks: seq<Key>, mk: Key)
    requires Fresh(p, ks + [mk])
    ensures Remove(Create(p, obj, ks, mk), mk) == p
  {
    AddMethodsIs(p, obj, ks);
    FreshParts(p, ks, mk);
    var p' := Create(p, obj, ks, mk);
    var gone := {mk} + Elements(ks);
    var back := p' - gone;
    assert back.Keys == p.Keys by {
      assert p'.Keys == p.Keys + gone;
      assert forall k | k in p :: k !in gone;
    }
    assert forall k | k in p :: back[k] == p[k];
  }

  /** Removing a module keeps ownership, touches no other module and no loader. */
  lemma RemoveKeeps(p: Keys, mk: Key)
    requires Owned(p)
    ensures Owned(Remove(p, mk))
    ensures forall k | k in p && p[k].LoaderEntry? :: k in Remove(p, mk)
    ensures forall m | m in p && m != mk && p[m].ModuleEntry? ::
      m in Remove(p, mk) && forall k | k in p[m].methods :: k in Remove(p, mk)
    ensures forall k | k in Remove(p, mk) :: k in p && Remove(p, mk)[k] == p[k]
  {
    var p' := Remove(p, mk);
    if mk in p && p[mk].ModuleEntry? {
      var gone := {mk} + Elements(p[mk].methods);
      assert forall k | k in p[mk].methods :: p[k].MethodEntry?;
      forall m, k | m in p && m != mk && p[m].ModuleEntry? && k in p[m].methods ensures k in p' {
        assert Owns(p, m, k) && k != mk;
        assert k in p[mk].methods ==> Owns(p, mk, k);
      }
      forall k | k in p' && p'[k].MethodEntry? ensures exists m :: Owns(p', m, k) {
        var m :| Owns(p, m, k);
        assert m == mk ==> k in gone;
        assert Owns(p', m, k);
      }
      forall m, n, k | Owns(p', m, k) && Owns(p', n, k) ensures m == n {
        assert Owns(p, m, k) && Owns(p, n, k);
      }
    }
  }

  /** A loader key comes and goes without touching ownership. */
  lemma LoaderKeeps(p: Keys, k: Key, loader: nat, env: nat)
    requires Owned(p)
    ensures k !in p ==> Owned(p[k := LoaderEntry(loader, env)])
    ensures k in p && p[k].LoaderEntry? ==> Owned(p - {k})
  {
    if k !in p {
      var p' := p[k := LoaderEntry(loader, env)];
      forall x | x in p' && p'[x].MethodEntry? ensures exists m :: Owns(p', m, x) {
        var m :| Owns(p, m, x);
        assert Owns(p', m, x);
      }
      forall m, n, x | Owns(p', m, x) && Owns(p', n, x) ensures m == n {
        assert Owns(p, m, x) && Owns(p, n, x);
      }
    } else if p[k].LoaderEntry? {
      var p' := p - {k};
      forall x | x in p' && p'[x].MethodEntry? ensures exists m :: Owns(p', m, x) {
        var m :| Owns(p, m, x);
        assert Owns(p', m, x);
      }
      forall m, n, x | Owns(p', m, x) && Owns(p', n, x) ensures m == n {
        assert Owns(p, m, x) && Owns(p, n, x);
      }
    }
  }
}
