/**
 * createMethodKeys and removeModule as they run beside each other: each is a series of calls
 * on one V2KPool, and the server may serve any number of other clients between two of them.
 */
module KeySessions {
  import opened Bytes
  import opened KeyPool
  import opened ModuleKeys
  import opened PoolProtocol
  import opened Sequences

  type KeyOp = Op<Key, Entry>

  type KeyGen = Gen<Key, ()>

  /**
   * What a client is in the middle of. `seen` is the module its last lookup found, which it
   * may go on to remove; `made` are the method keys made so far; `rest` the ones to remove.
   */
  datatype Job = Free(seen: Option<(Key, seq<Key>)>) | Creating(obj: nat, made: seq<Key>) | Dropping(rest: seq<Key>)

  /** The clients, and the keys of the loaders in place. */
  datatype Sessions = Sessions(jobs: map<ClientId, Job>, loaderKeys: set<Key>)

  function JobOf(s: Sessions, c: ClientId): Job {
    if c in s.jobs then s.jobs[c] else Free(None)
  }

  function Rest(ks: seq<Key>): Job {
    if ks == [] then Free(None) else Dropping(ks)
  }

  /** The calls that a client's code can make next. */
  predicate MayCall(s: Sessions, j: Job, op: KeyOp) {
    match j
    case Free(seen) =>
      (match op
       case KeyToVal(_) => true
       case ValToKey(e) => e.LoaderEntry? || (e.MethodEntry? && e.index == 0) || (e.ModuleEntry? && e.methods == [])
       case RemoveKey(k) => (seen.Some? && seen.value.0 == k) || k in s.loaderKeys
       case _ => false)
    case Creating(obj, made) => op == ValToKey(MethodEntry(obj, |made|)) || op == ValToKey(ModuleEntry(obj, made))
    case Dropping(rest) => rest != [] && op == RemoveKey(rest[0])
  }

  /** The client goes on to use the key: it found, made or is to remove it. */
  predicate Mentions(j: Job, k: Key) {
    match j
    case Free(seen) => seen.Some? && (k == seen.value.0 || k in seen.value.1)
    case Creating(_, made) => k in made
    case Dropping(rest) => k in rest
  }

  /** A reading of the clock makes a key that is not in the pool and that no client mentions. */
  ghost predicate NewReading(p: Keys, s: Sessions, op: KeyOp, g: KeyGen) {
    op.ValToKey? ==> g.Made? && Unmentioned(p, s, g.k)
  }

  ghost predicate Unmentioned(p: Keys, s: Sessions, k: Key) {
    k !in p && forall c :: !Mentions(JobOf(s, c), k)
  }

  /** Where the client stands when its call was served on the pool `p`. */
  function NextJob(p: Keys, j: Job, op: KeyOp, g: KeyGen): Job {
    match op
    case KeyToVal(k) => Free(if k in p && p[k].ModuleEntry? then Some((k, p[k].methods)) else None)
    case ValToKey(e) =>
      if e.MethodEntry? && g.Made? then Creating(e.obj, (if j.Creating? then j.made else []) + [g.k]) else Free(None)
    case RemoveKey(k) =>
      if j.Dropping? && j.rest != [] then Rest(j.rest[1..])
      else if j.Free? && j.seen.Some? && j.seen.value.0 == k then Rest(j.seen.value.1)
      else Free(None)
    case _ => Free(None)
  }

  function Next(p: Keys, s: Sessions, c: ClientId, op: KeyOp, g: KeyGen): Sessions {
    Sessions(s.jobs[c := NextJob(p, JobOf(s, c), op, g)],
             match op
             case ValToKey(e) => if e.LoaderEntry? && g.Made? then s.loaderKeys + {g.k} else s.loaderKeys
             case RemoveKey(k) => s.loaderKeys - {k}
             case _ => s.loaderKeys)
  }

  function Served(p: Keys, op: KeyOp, g: KeyGen): Keys {
    Apply(Pool(p, map[]), false, op, g).0.k2v
  }

  // ---- the invariant ----

  /** The keys a client has made for a module that is not stored yet. */
  function MadeBy(j: Job): seq<Key> {
    if j.Creating? then j.made else []
  }

  /** The keys a client removes or may go on to remove as methods. */
  function Pending(j: Job): seq<Key> {
    match j
    case Free(seen) => if seen.Some? then seen.value.1 else []
    case Creating(_, _) => []
    case Dropping(rest) => rest
  }

  ghost predicate Loose(p: Keys, k: Key) {
    (k in p ==> p[k].MethodEntry?) && forall m :: !Owns(p, m, k)
  }

  /** Every stored module has all its method keys, and no other module has them. */
  ghost predicate Whole(p: Keys) {
    && (forall m | m in p && p[m].ModuleEntry? :: Complete(p, m))
    && forall m, n, k | Owns(p, m, k) && Owns(p, n, k) :: m == n
  }

  /** What a client believes about the pool is right, whatever the others did. */
  ghost predicate JobOk(p: Keys, j: Job) {
    match j
    case Free(None) => true
    case Free(Some((mk, ms))) =>
      if mk in p then p[mk].ModuleEntry? && p[mk].methods == ms else forall k | k in ms :: Loose(p, k)
    case Creating(obj, made) =>
      && made != [] && Distinct(made) && (forall k | k in made :: Loose(p, k))
      && forall i | 0 <= i < |made| :: made[i] in p && p[made[i]] == MethodEntry(obj, i)
    case Dropping(rest) => forall k | k in rest :: Loose(p, k)
  }

  /** A key made for one module that is not stored yet is nobody else's business. */
  ghost predicate Apart(s: Sessions) {
    forall c, d, k | k in MadeBy(JobOf(s, c)) :: k !in Pending(JobOf(s, d)) && (k in MadeBy(JobOf(s, d)) ==> d == c)
  }

  /** The client is between two calls that belong together, and the key is part of them. */
  predicate Handles(j: Job, k: Key) {
    k in MadeBy(j) || (j.Dropping? && k in j.rest)
  }

  /** Every method key belongs to a stored module, or to a creation or a removal under way. */
  ghost predicate Homes(p: Keys, s: Sessions) {
    forall k | k in p && p[k].MethodEntry? :: (exists m :: Owns(p, m, k)) || exists c :: Handles(JobOf(s, c), k)
  }

  ghost predicate Inv(p: Keys, s: Sessions) {
    && Whole(p) && Apart(s) && Homes(p, s)
    && (forall c :: JobOk(p, JobOf(s, c)))
    && (forall k | k in s.loaderKeys :: k in p && p[k].LoaderEntry?)
  }

  // ---- one call ----

  /** The pool with one key more, or with some method or module keys less. */
  lemma AddedOwns(p: Keys, k: Key, e: Entry)
    requires Whole(p) && k !in p
    ensures forall m, x :: Owns(p[k := e], m, x) <==> Owns(p, m, x) || (m == k && e.ModuleEntry? && x in e.methods)
  {
  }

  lemma OwnedIsLive(p: Keys, m: Key, k: Key)
    requires Whole(p) && Owns(p, m, k)
    ensures k in p && p[k].MethodEntry? && m in p
  {
    assert Complete(p, m);
  }

  /** A new loader or method key changes nothing that a client believes. */
  lemma AddedJobOk(p: Keys, j: Job, k: Key, e: Entry)
    requires Whole(p) && k !in p && !e.ModuleEntry?
    requires JobOk(p, j) && !Mentions(j, k)
    ensures JobOk(p[k := e], j)
  {
    AddedOwns(p, k, e);
    var p' := p[k := e];
    forall x | x != k && Loose(p, x) ensures Loose(p', x) {
      LooseKept(p, p', x);
    }
  }

  lemma LooseKept(p: Keys, p': Keys, k: Key)
    requires Loose(p, k) && (k in p' ==> k in p && p'[k] == p[k])
    requires forall m | Owns(p', m, k) :: Owns(p, m, k)
    ensures Loose(p', k)
  {
    forall m ensures !Owns(p', m, k) {
      assert !Owns(p, m, k);
    }
  }

  lemma AddedWhole(p: Keys, k: Key, e: Entry)
    requires Whole(p) && k !in p && !e.ModuleEntry?
    ensures Whole(p[k := e])
  {
    AddedOwns(p, k, e);
    var p' := p[k := e];
    forall m | m in p' && p'[m].ModuleEntry? ensures Complete(p', m) {
      assert Complete(p, m);
      CompleteKept(p, p', m);
    }
    forall m, n, x | Owns(p', m, x) && Owns(p', n, x) ensures m == n {
      assert Owns(p, m, x) && Owns(p, n, x);
    }
  }

  lemma RemovedOwns(p: Keys, x: Key)
    ensures forall m, k :: Owns(p - {x}, m, k) <==> Owns(p, m, k) && m != x
  {
  }

  lemma RemovedWhole(p: Keys, x: Key)
    requires Whole(p) && forall m :: !Owns(p, m, x)
    ensures Whole(p - {x})
  {
    var p' := p - {x};
    RemovedOwns(p, x);
    forall m | m in p' && p'[m].ModuleEntry? ensures Complete(p', m) {
      assert Complete(p, m);
      var methods := p[m].methods;
      forall i | 0 <= i < |methods| ensures methods[i] in p' && p'[methods[i]] == MethodEntry(p'[m].obj, i) {
        var k := methods[i];
        assert Owns(p, m, k) && k != x;
      }
    }
    forall m, n, k | Owns(p', m, k) && Owns(p', n, k) ensures m == n {
      assert Owns(p, m, k) && Owns(p, n, k);
    }
  }

  lemma RemovedLoose(p: Keys, x: Key, k: Key)
    requires Loose(p, k)
    ensures Loose(p - {x}, k)
  {
    RemovedOwns(p, x);
    LooseKept(p, p - {x}, k);
  }

  /** The method keys of a module that is gone are loose. */
  lemma OrphanIsLoose(p: Keys, m: Key, k: Key)
    requires Whole(p) && Owns(p, m, k)
    ensures Loose(p - {m}, k)
  {
    assert Complete(p, m);
    RemovedOwns(p, m);
    forall n ensures !Owns(p - {m}, n, k) {
      assert Owns(p, n, k) ==> n == m;
    }
  }

  lemma RemovedJobOk(p: Keys, j: Job, x: Key)
    requires Whole(p) && (forall m :: !Owns(p, m, x)) && JobOk(p, j) && x !in MadeBy(j)
    ensures JobOk(p - {x}, j)
  {
    var p' := p - {x};
    match j
    case Free(None) =>
    case Free(Some((mk, ms))) =>
      if mk !in p' {
        forall k | k in ms ensures Loose(p', k) {
          if mk in p {
            assert Owns(p, mk, k);
            OrphanIsLoose(p, mk, k);
          } else {
            RemovedLoose(p, x, k);
          }
        }
      }
    case Creating(obj, made) =>
      forall k | k in made ensures Loose(p', k) {
        RemovedLoose(p, x, k);
      }
    case Dropping(rest) =>
      forall k | k in rest ensures Loose(p', k) {
        RemovedLoose(p, x, k);
      }
  }

  // ---- each kind of call keeps the invariant ----

  lemma MadeIsLive(p: Keys, s: Sessions, c: ClientId)
    requires Inv(p, s)
    ensures forall k | k in MadeBy(JobOf(s, c)) :: k in p && p[k].MethodEntry? && Loose(p, k)
  {
    assert JobOk(p, JobOf(s, c));
  }

  lemma LookupKeeps(p: Keys, s: Sessions, c: ClientId, k: Key, g: KeyGen)
    requires Inv(p, s) && JobOf(s, c).Free?
    ensures Inv(p, Next(p, s, c, KeyToVal(k), g))
  {
    var s' := Next(p, s, c, KeyToVal(k), g);
    var j' := JobOf(s', c);
    assert forall d :: JobOf(s', d) == if d == c then j' else JobOf(s, d);
    if k in p && p[k].ModuleEntry? {
      forall x | x in p[k].methods ensures forall d :: x !in MadeBy(JobOf(s, d)) {
        assert Owns(p, k, x);
        OwnedIsLive(p, k, x);
        forall d ensures x !in MadeBy(JobOf(s, d)) {
          MadeIsLive(p, s, d);
        }
      }
    }
    assert Apart(s');
    forall x | x in p && p[x].MethodEntry?
      ensures (exists m :: Owns(p, m, x)) || exists d :: Handles(JobOf(s', d), x)
    {
      if d :| Handles(JobOf(s, d), x) {
        assert Handles(JobOf(s', d), x);
      }
    }
  }

  lemma LoaderStored(p: Keys, s: Sessions, c: ClientId, e: Entry, g: KeyGen)
    requires Inv(p, s) && JobOf(s, c).Free? && e.LoaderEntry? && g.Made? && Unmentioned(p, s, g.k)
    ensures Inv(p[g.k := e], Next(p, s, c, ValToKey(e), g))
  {
    var p', s' := p[g.k := e], Next(p, s, c, ValToKey(e), g);
    assert forall d :: JobOf(s', d) == if d == c then Free(None) else JobOf(s, d);
    AddedWhole(p, g.k, e);
    AddedOwns(p, g.k, e);
    forall d ensures JobOk(p', JobOf(s', d)) {
      MadeIsLive(p, s, d);
      AddedJobOk(p, JobOf(s, d), g.k, e);
    }
    HomesKept(p, s, p', s', c);
  }

  /** Keys whose module or client is still there have a home still. */
  lemma HomesKept(p: Keys, s: Sessions, p': Keys, s': Sessions, c: ClientId)
    requires Homes(p, s)
    requires forall k | k in p' && p'[k].MethodEntry? && !(k in p && p[k].MethodEntry?) :: Handles(JobOf(s', c), k)
    requires forall d | d != c :: JobOf(s', d) == JobOf(s, d)
    requires forall k | k in p' && Handles(JobOf(s, c), k) && !Handles(JobOf(s', c), k) :: exists m :: Owns(p', m, k)
    requires forall m, k | k in p' && Owns(p, m, k) && !Owns(p', m, k) :: Handles(JobOf(s', c), k)
    ensures Homes(p', s')
  {
    forall k | k in p' && p'[k].MethodEntry?
      ensures (exists m :: Owns(p', m, k)) || exists d :: Handles(JobOf(s', d), k)
    {
      if !Handles(JobOf(s', c), k) {
        if m :| Owns(p, m, k) {
          assert Owns(p', m, k);
        } else {
          var d :| Handles(JobOf(s, d), k);
          assert d != c ==> Handles(JobOf(s', d), k);
        }
      }
    }
  }

  lemma MethodStored(p: Keys, s: Sessions, c: ClientId, obj: nat, g: KeyGen)
    requires Inv(p, s) && g.Made? && Unmentioned(p, s, g.k)
    requires var j := JobOf(s, c); j.Free? || (j.Creating? && j.obj == obj)
    ensures var e := MethodEntry(obj, |MadeBy(JobOf(s, c))|);
      Inv(p[g.k := e], Next(p, s, c, ValToKey(e), g))
  {
    var j := JobOf(s, c);
    var made, k := MadeBy(j), g.k;
    var e := MethodEntry(obj, |made|);
    var p', s' := p[k := e], Next(p, s, c, ValToKey(e), g);
    var j' := Creating(obj, made + [k]);
    assert forall d :: JobOf(s', d) == if d == c then j' else JobOf(s, d);
    AddedWhole(p, k, e);
    AddedOwns(p, k, e);
    forall d ensures JobOk(p', JobOf(s', d)) {
      MadeIsLive(p, s, d);
      AddedJobOk(p, JobOf(s, d), k, e);
      if d == c {
        CreatingOk(p, j, obj, k);
      }
    }
    MadeApart(s, s', c, j', k);
    HomesKept(p, s, p', s', c);
  }

  /** A client that makes a key nobody mentions stays apart from the others. */
  lemma MadeApart(s: Sessions, s': Sessions, c: ClientId, j': Job, k: Key)
    requires Apart(s) && (forall d :: !Mentions(JobOf(s, d), k))
    requires (forall d :: JobOf(s', d) == if d == c then j' else JobOf(s, d))
    requires MadeBy(j') == MadeBy(JobOf(s, c)) + [k] && Pending(j') == []
    ensures Apart(s')
  {
    forall d ensures k !in Pending(JobOf(s, d)) && k !in MadeBy(JobOf(s, d)) {
      assert !Mentions(JobOf(s, d), k);
    }
    forall b, d, x | x in MadeBy(JobOf(s', b))
      ensures x !in Pending(JobOf(s', d)) && (x in MadeBy(JobOf(s', d)) ==> d == b)
    {
      assert x != k ==> x in MadeBy(JobOf(s, b));
      assert x in MadeBy(JobOf(s', d)) && x != k ==> x in MadeBy(JobOf(s, d));
    }
  }

  /** One more method key of the module being made. */
  lemma CreatingOk(p: Keys, j: Job, obj: nat, k: Key)
    requires Whole(p) && JobOk(p, j) && k !in p && !Mentions(j, k)
    requires j.Free? || (j.Creating? && j.obj == obj)
    ensures JobOk(p[k := MethodEntry(obj, |MadeBy(j)|)], Creating(obj, MadeBy(j) + [k]))
  {
    var made, e := MadeBy(j), MethodEntry(obj, |MadeBy(j)|);
    var p', made' := p[k := e], made + [k];
    AddedOwns(p, k, e);
    forall m ensures !Owns(p, m, k) {
      if Owns(p, m, k) { OwnedIsLive(p, m, k); assert false; }
    }
    forall x | x in made' ensures Loose(p', x) {
      if x != k {
        LooseKept(p, p', x);
      } else {
        forall m ensures !Owns(p', m, k) {
          assert !Owns(p, m, k);
        }
      }
    }
    forall i | 0 <= i < |made'| ensures made'[i] in p' && p'[made'[i]] == MethodEntry(obj, i) {
      if i < |made| {
        var x := made[i];
        assert x in p && x in made;
      }
    }
    forall i, l | 0 <= i < l < |made'| ensures made'[i] != made'[l] {
      if l == |made| {
        var x := made[i];
        assert x in p;
      }
    }
  }

  lemma ModuleStored(p: Keys, s: Sessions, c: ClientId, obj: nat, g: KeyGen)
    requires Inv(p, s) && g.Made? && Unmentioned(p, s, g.k)
    requires var j := JobOf(s, c); j.Free? || (j.Creating? && j.obj == obj)
    ensures var e := ModuleEntry(obj, MadeBy(JobOf(s, c)));
      Inv(p[g.k := e], Next(p, s, c, ValToKey(e), g))
  {
    var made, mk := MadeBy(JobOf(s, c)), g.k;
    var e := ModuleEntry(obj, made);
    var p', s' := p[mk := e], Next(p, s, c, ValToKey(e), g);
    assert forall d :: JobOf(s', d) == if d == c then Free(None) else JobOf(s, d);
    MadeIsLive(p, s, c);
    AddedOwns(p, mk, e);
    StoredWhole(p, JobOf(s, c), obj, mk);
    forall d ensures JobOk(p', JobOf(s', d)) {
      if d != c {
        MadeIsLive(p, s, d);
        StoredJobOk(p, JobOf(s, d), e, mk);
      }
    }
    forall k | Handles(JobOf(s, c), k) ensures exists m :: Owns(p', m, k) {
      assert Owns(p', mk, k);
    }
    HomesKept(p, s, p', s', c);
  }

  /** The new module has all its method keys, and no other module has them. */
  lemma StoredWhole(p: Keys, j: Job, obj: nat, mk: Key)
    requires Whole(p) && JobOk(p, j) && mk !in p
    requires j.Free? || (j.Creating? && j.obj == obj)
    ensures Whole(p[mk := ModuleEntry(obj, MadeBy(j))])
  {
    var made := MadeBy(j);
    var p' := p[mk := ModuleEntry(obj, made)];
    AddedOwns(p, mk, ModuleEntry(obj, made));
    forall m | m in p' && p'[m].ModuleEntry? ensures Complete(p', m) {
      if m != mk {
        assert Complete(p, m);
        CompleteKept(p, p', m);
      } else {
        forall i | 0 <= i < |made| ensures made[i] in p' && p'[made[i]] == MethodEntry(obj, i) {
          var k := made[i];
          assert k in p;
        }
      }
    }
    forall m, n, k | Owns(p', m, k) && Owns(p', n, k) ensures m == n {
      assert k in made ==> Loose(p, k);
      assert !(Owns(p, m, k) && k in made) && !(Owns(p, n, k) && k in made);
      assert m != mk && n != mk ==> Owns(p, m, k) && Owns(p, n, k);
    }
  }

  lemma StoredJobOk(p: Keys, j: Job, e: Entry, mk: Key)
    requires Whole(p) && JobOk(p, j) && mk !in p && !Mentions(j, mk) && e.ModuleEntry?
    requires forall x | x in MadeBy(j) :: x in p
    requires forall x | x in e.methods :: x !in MadeBy(j) && x !in Pending(j)
    ensures JobOk(p[mk := e], j)
  {
    AddedOwns(p, mk, e);
    var p' := p[mk := e];
    forall x | x != mk && Loose(p, x) && x !in e.methods ensures Loose(p', x) {
      LooseKept(p, p', x);
    }
  }

  lemma ModuleKeyRemoved(p: Keys, s: Sessions, c: ClientId, mk: Key, g: KeyGen)
    requires Inv(p, s)
    requires var j := JobOf(s, c); j.Free? && j.seen.Some? && j.seen.value.0 == mk
    ensures Inv(p - {mk}, Next(p, s, c, RemoveKey(mk), g))
  {
    var j := JobOf(s, c);
    var ms, p', s' := j.seen.value.1, p - {mk}, Next(p, s, c, RemoveKey(mk), g);
    assert forall d :: JobOf(s', d) == if d == c then Rest(ms) else JobOf(s, d);
    assert JobOk(p, j);
    forall m ensures !Owns(p, m, mk) {
      if Owns(p, m, mk) { OwnedIsLive(p, m, mk); }
    }
    RemovedWhole(p, mk);
    RemovedOwns(p, mk);
    RemovedJobOk(p, j, mk);
    forall d ensures JobOk(p', JobOf(s', d)) {
      MadeIsLive(p, s, d);
      RemovedJobOk(p, JobOf(s, d), mk);
    }
    forall m, k | k in p' && Owns(p, m, k) && !Owns(p', m, k) ensures Handles(JobOf(s', c), k) {
      assert m == mk && k in ms;
    }
    HomesKept(p, s, p', s', c);
  }

  lemma MethodKeyRemoved(p: Keys, s: Sessions, c: ClientId, g: KeyGen)
    requires Inv(p, s) && JobOf(s, c).Dropping? && JobOf(s, c).rest != []
    ensures var k := JobOf(s, c).rest[0]; Inv(p - {k}, Next(p, s, c, RemoveKey(k), g))
  {
    var j := JobOf(s, c);
    var k := j.rest[0];
    var p', s' := p - {k}, Next(p, s, c, RemoveKey(k), g);
    assert forall d :: JobOf(s', d) == if d == c then Rest(j.rest[1..]) else JobOf(s, d);
    assert JobOk(p, j) && k in j.rest && Loose(p, k);
    RemovedWhole(p, k);
    RemovedOwns(p, k);
    forall d ensures JobOk(p', JobOf(s', d)) {
      assert k in Pending(j) ==> k !in MadeBy(JobOf(s, d));
      RemovedJobOk(p, JobOf(s, d), k);
      assert JobOk(p', j);
      assert forall x | x in j.rest[1..] :: x in j.rest;
    }
    assert forall x | x in j.rest && x != k :: x in j.rest[1..];
    assert Apart(s');
    HomesKept(p, s, p', s', c);
  }

  lemma LoaderKeyRemoved(p: Keys, s: Sessions, c: ClientId, k: Key, g: KeyGen)
    requires Inv(p, s) && JobOf(s, c).Free? && k in s.loaderKeys
    requires var j := JobOf(s, c); !(j.seen.Some? && j.seen.value.0 == k)
    ensures Inv(p - {k}, Next(p, s, c, RemoveKey(k), g))
  {
    var p', s' := p - {k}, Next(p, s, c, RemoveKey(k), g);
    assert forall d :: JobOf(s', d) == if d == c then Free(None) else JobOf(s, d);
    forall m ensures !Owns(p, m, k) {
      if Owns(p, m, k) { OwnedIsLive(p, m, k); }
    }
    RemovedWhole(p, k);
    RemovedOwns(p, k);
    forall d ensures JobOk(p', JobOf(s', d)) {
      MadeIsLive(p, s, d);
      RemovedJobOk(p, JobOf(s, d), k);
    }
    assert Apart(s');
    HomesKept(p, s, p', s', c);
  }

  /** Whatever call a client makes next, the invariant is kept. */
  lemma CallKeeps(p: Keys, s: Sessions, c: ClientId, op: KeyOp, g: KeyGen)
    requires Inv(p, s) && MayCall(s, JobOf(s, c), op) && NewReading(p, s, op, g)
    ensures Inv(Served(p, op, g), Next(p, s, c, op, g))
  {
    var j := JobOf(s, c);
    match op
    case KeyToVal(k) => LookupKeeps(p, s, c, k, g);
    case ValToKey(e) =>
      match e {
        case LoaderEntry(_, _) => LoaderStored(p, s, c, e, g);
        case MethodEntry(obj, _) => MethodStored(p, s, c, obj, g);
        case ModuleEntry(obj, _) => ModuleStored(p, s, c, obj, g);
      }
    case RemoveKey(k) =>
      assert Served(p, op, g) == p - {k};
      if j.Dropping? {
        MethodKeyRemoved(p, s, c, g);
      } else if j.seen.Some? && j.seen.value.0 == k {
        ModuleKeyRemoved(p, s, c, k, g);
      } else {
        LoaderKeyRemoved(p, s, c, k, g);
      }
  }

  // ---- every interleaving ----

  /**
   * The clients after the server served `hist`, None when some request is not what that
   * client's code could send next, or a clock reading makes a key that is in use or
   * mentioned. At each request the client has the replies to all its earlier ones, so this
   * is just what its code knows.
   */
  ghost function SessionsAfter(hist: seq<Request<Key, Entry>>, gens: seq<KeyGen>): Option<Sessions>
    requires |hist| == |gens|
    decreases |hist|
  {
    if hist == [] then Some(Sessions(map[], {}))
    else
      var n := |hist| - 1;
      var r := SessionsAfter(hist[..n], gens[..n]);
      var p := Sequential(false, hist[..n], gens[..n]).0.k2v;
      if r.Some? && MayCall(r.value, JobOf(r.value, hist[n].c), hist[n].op) && NewReading(p, r.value, hist[n].op, gens[n]) then
        Some(Next(p, r.value, hist[n].c, hist[n].op, gens[n]))
      else None
  }

  lemma {:induction false} HistoryKeeps(hist: seq<Request<Key, Entry>>, gens: seq<KeyGen>)
    requires |hist| == |gens| && SessionsAfter(hist, gens).Some?
    ensures var p := Sequential(false, hist, gens).0;
      p.v2k == map[] && Inv(p.k2v, SessionsAfter(hist, gens).value)
    decreases |hist|
  {
    if hist == [] {
      assert forall c :: JobOf(Sessions(map[], {}), c) == Free(None);
    } else {
      var n := |hist| - 1;
      HistoryKeeps(hist[..n], gens[..n]);
      var s := SessionsAfter(hist[..n], gens[..n]).value;
      var p := Sequential(false, hist[..n], gens[..n]).0;
      assert p == Pool(p.k2v, map[]);
      CallKeeps(p.k2v, s, hist[n].c, hist[n].op, gens[n]);
      assert Sequential(false, hist, gens).0.k2v == Served(p.k2v, hist[n].op, gens[n]);
    }
  }

  /** A key that a client handles is in nobody's hands but its own. */
  lemma HandledIsLoose(p: Keys, s: Sessions, c: ClientId, k: Key)
    requires Inv(p, s) && Handles(JobOf(s, c), k)
    ensures Loose(p, k)
  {
    assert JobOk(p, JobOf(s, c));
  }

  /**
   * In every interleaving of any number of clients that create and remove modules, at every
   * moment: each stored module has all its method keys and nobody else has them; and no
   * other method key is live exactly when no creation or removal under way has a live one.
   */
  lemma OwnershipInEveryRun(actions: seq<Action<Key, Entry, ()>>)
    requires Run(false, actions).Some?
    requires var s := Run(false, actions).value;
      |s.gens| <= |s.hist| && SessionsAfter(s.hist[..|s.gens|], s.gens).Some?
    ensures var s := Run(false, actions).value;
      var p, now := s.pool.k2v, SessionsAfter(s.hist[..|s.gens|], s.gens).value;
      && Whole(p)
      && (Owned(p) <==> forall c, k | Handles(JobOf(now, c), k) :: k !in p)
  {
    EveryRunIsSequential(false, actions);
    var s := Run(false, actions).value;
    HistoryKeeps(s.hist[..|s.gens|], s.gens);
    var p, now := s.pool.k2v, SessionsAfter(s.hist[..|s.gens|], s.gens).value;
    if Owned(p) {
      forall c, k | Handles(JobOf(now, c), k) ensures k !in p {
        HandledIsLoose(p, now, c, k);
      }
    }
  }

  /** Once every client is between its calls, the keys are owned as after calls one at a time. */
  lemma OwnedWhenIdle(actions: seq<Action<Key, Entry, ()>>)
    requires Run(false, actions).Some?
    requires var s := Run(false, actions).value;
      |s.gens| <= |s.hist| && SessionsAfter(s.hist[..|s.gens|], s.gens).Some?
      && forall c :: JobOf(SessionsAfter(s.hist[..|s.gens|], s.gens).value, c).Free?
    ensures Owned(Run(false, actions).value.pool.k2v)
  {
    OwnershipInEveryRun(actions);
  }

  // ---- a reading that is mentioned ----

  datatype Visit = Visit(c: ClientId, op: KeyOp, g: KeyGen)

  /** Calls served one after the other, when readings are only kept apart from the keys in the pool. */
  ghost function ServeAll(p: Keys, s: Sessions, turns: seq<Visit>): Option<(Keys, Sessions)>
    decreases |turns|
  {
    if turns == [] then Some((p, s))
    else
      var t := turns[0];
      if MayCall(s, JobOf(s, t.c), t.op) && (t.op.ValToKey? ==> t.g.Made? && t.g.k !in p) then
        ServeAll(Served(p, t.op, t.g), Next(p, s, t.c, t.op, t.g), turns[1..])
      else None
  }

  ghost predicate Live(p: Keys, s: Sessions, t: Visit) {
    MayCall(s, JobOf(s, t.c), t.op) && (t.op.ValToKey? ==> t.g.Made? && t.g.k !in p)
  }

  lemma ServeOne(p: Keys, s: Sessions, t: Visit, rest: seq<Visit>)
    requires Live(p, s, t)
    ensures ServeAll(p, s, [t] + rest) == ServeAll(Served(p, t.op, t.g), Next(p, s, t.c, t.op, t.g), rest)
  {
    assert ([t] + rest)[1..] == rest;
  }

  /** The clients 0, 1 and 2 stand at these jobs, and nobody else does anything. */
  ghost predicate Stand(s: Sessions, j0: Job, j1: Job, j2: Job) {
    && JobOf(s, 0) == j0 && JobOf(s, 1) == j1 && JobOf(s, 2) == j2 && s.loaderKeys == {}
    && forall c | c > 2 :: JobOf(s, c) == Free(None)
  }

  /** Client 1 stores the module `m` and client 0 sees it. */
  lemma StoredAndSeen(m: Key, g: KeyGen, rest: seq<Visit>) returns (s: Sessions)
    ensures var turns := [Visit(1, ValToKey(ModuleEntry(0, [])), Made(m)), Visit(0, KeyToVal(m), g)];
      ServeAll(map[], Sessions(map[], {}), turns + rest) == ServeAll(map[m := ModuleEntry(0, [])], s, rest)
    ensures Stand(s, Free(Some((m, []))), Free(None), Free(None))
  {
    var none: seq<Key> := [];
    var t1, t2 := Visit(1, ValToKey(ModuleEntry(0, none)), Made(m)), Visit(0, KeyToVal(m), g);
    var s0 := Sessions(map[], {});
    var p: Keys := map[m := ModuleEntry(0, none)];
    assert Served(map[], t1.op, t1.g) == p;
    var s1 := Next(map[], s0, 1, t1.op, t1.g);
    s := Next(p, s1, 0, t2.op, g);
    ServeOne(map[], s0, t1, [t2] + rest);
    ServeOne(p, s1, t2, rest);
    assert [t1, t2] + rest == [t1] + ([t2] + rest);
  }

  /** Client 1 removes it, and client 0 does not know. */
  lemma SeenAndRemoved(m: Key, g: KeyGen, s: Sessions, rest: seq<Visit>) returns (s': Sessions)
    requires Stand(s, Free(Some((m, []))), Free(None), Free(None))
    ensures var turns := [Visit(1, KeyToVal(m), g), Visit(1, RemoveKey(m), g)];
      ServeAll(map[m := ModuleEntry(0, [])], s, turns + rest) == ServeAll(map[], s', rest)
    ensures Stand(s', Free(Some((m, []))), Free(None), Free(None))
  {
    var none: seq<Key> := [];
    var t1, t2 := Visit(1, KeyToVal(m), g), Visit(1, RemoveKey(m), g);
    var p: Keys := map[m := ModuleEntry(0, none)];
    var s1 := Next(p, s, 1, t1.op, g);
    s' := Next(p, s1, 1, t2.op, g);
    assert Served(p, t2.op, g) == map[];
    ServeOne(p, s, t1, [t2] + rest);
    ServeOne(p, s1, t2, rest);
    assert [t1, t2] + rest == [t1] + ([t2] + rest);
    assert forall c | c > 2 :: JobOf(s', c) == JobOf(s, c);
  }

  /** Client 2 stores a module under `m` again, and client 0 removes that one. */
  lemma RemovedInstead(m: Key, x: Key, g: KeyGen, s: Sessions) returns (s': Sessions)
    requires m != x && Stand(s, Free(Some((m, []))), Free(None), Free(None))
    ensures var turns := [Visit(2, ValToKey(MethodEntry(1, 0)), Made(x)), Visit(2, ValToKey(ModuleEntry(1, [x])), Made(m)),
                          Visit(0, RemoveKey(m), g)];
      ServeAll(map[], s, turns) == Some((map[x := MethodEntry(1, 0)], s'))
    ensures Stand(s', Free(None), Free(None), Free(None))
  {
    var none: seq<Key> := [];
    var t1, t2 := Visit(2, ValToKey(MethodEntry(1, 0)), Made(x)), Visit(2, ValToKey(ModuleEntry(1, [x])), Made(m));
    var t3 := Visit(0, RemoveKey(m), g);
    var p1: Keys := map[x := MethodEntry(1, 0)];
    var p2: Keys := map[x := MethodEntry(1, 0), m := ModuleEntry(1, [x])];
    assert Served(map[], t1.op, t1.g) == p1 && Served(p1, t2.op, t2.g) == p2;
    assert none + [x] == [x];
    var s1 := Next(map[], s, 2, t1.op, t1.g);
    var s2 := Next(p1, s1, 2, t2.op, t2.g);
    s' := Next(p2, s2, 0, t3.op, g);
    assert Served(p2, t3.op, g) == p1;
    ServeOne(map[], s, t1, [t2, t3]);
    ServeOne(p1, s1, t2, [t3]);
    ServeOne(p2, s2, t3, []);
    assert [t1, t2, t3] == [t1] + [t2, t3] && [t2, t3] == [t2] + [t3] && [t3] == [t3] + [];
    assert forall c | c > 2 :: JobOf(s', c) == JobOf(s, c);
  }

  /**
   * It is not enough that a new key is not in the pool. Client 0 looks the module `m` up,
   * client 1 removes it, client 2 stores a module and gets the same reading, and client 0
   * removes that one: its method key `x` is left without a module, and everyone is idle.
   */
  lemma StaleRemoval(m: Key, x: Key, g: KeyGen)
    requires m != x
    ensures var turns := [Visit(1, ValToKey(ModuleEntry(0, [])), Made(m)), Visit(0, KeyToVal(m), g)] +
        ([Visit(1, KeyToVal(m), g), Visit(1, RemoveKey(m), g)] +
         [Visit(2, ValToKey(MethodEntry(1, 0)), Made(x)), Visit(2, ValToKey(ModuleEntry(1, [x])), Made(m)),
          Visit(0, RemoveKey(m), g)]);
      var r := ServeAll(map[], Sessions(map[], {}), turns);
      r.Some? && !Owned(r.value.0) && forall c :: JobOf(r.value.1, c).Free?
  {
    var last := [Visit(2, ValToKey(MethodEntry(1, 0)), Made(x)), Visit(2, ValToKey(ModuleEntry(1, [x])), Made(m)),
                 Visit(0, RemoveKey(m), g)];
    var s1 := StoredAndSeen(m, g, [Visit(1, KeyToVal(m), g), Visit(1, RemoveKey(m), g)] + last);
    var s2 := SeenAndRemoved(m, g, s1, last);
    var s' := RemovedInstead(m, x, g, s2);
    var p: Keys := map[x := MethodEntry(1, 0)];
    assert forall k :: !Owns(p, k, x);
    assert x in p && p[x].MethodEntry?;
    forall c ensures JobOf(s', c).Free? {
      assert c <= 2 ==> c == 0 || c == 1 || c == 2;
    }
  }

  // ---- one client alone ----

  /** The calls of createMethodKeys from the `i`-th method on, with the answers of the clock. */
  function CreateCalls(c: ClientId, obj: nat, ks: seq<Key>, mk: Key, i: nat): seq<Visit>
    requires i <= |ks|
    decreases |ks| - i
  {
    if i == |ks| then [Visit(c, ValToKey(ModuleEntry(obj, ks)), Made(mk))]
    else [Visit(c, ValToKey(MethodEntry(obj, i)), Made(ks[i]))] + CreateCalls(c, obj, ks, mk, i + 1)
  }

  /** Only client `c` has moved, and it stands at `j`. */
  ghost predicate Moved(s: Sessions, s': Sessions, c: ClientId, j: Job) {
    JobOf(s', c) == j && s'.loaderKeys == s.loaderKeys && forall d | d != c :: JobOf(s', d) == JobOf(s, d)
  }

  /** One method more, or the module, is stored. */
  lemma CreateTurn(p: Keys, s: Sessions, c: ClientId, e: Entry, k: Key)
    requires k !in p && !e.LoaderEntry? && MayCall(s, JobOf(s, c), ValToKey(e))
    ensures var t := Visit(c, ValToKey(e), Made(k));
      && Live(p, s, t) && Served(p, t.op, t.g) == p[k := e]
      && Moved(s, Next(p, s, c, t.op, t.g), c,
               if e.MethodEntry? then Creating(e.obj, MadeBy(JobOf(s, c)) + [k]) else Free(None))
  {
  }

  /** Each reading is still unused when its turn comes. */
  lemma NextUnused(p: Keys, obj: nat, ks: seq<Key>, mk: Key, i: nat)
    requires i <= |ks| && Fresh(p, ks + [mk])
    ensures mk !in AddMethods(p, obj, ks[..i])
    ensures i < |ks| ==> ks[i] !in AddMethods(p, obj, ks[..i])
    ensures i < |ks| ==> AddMethods(p, obj, ks[..i + 1]) == AddMethods(p, obj, ks[..i])[ks[i] := MethodEntry(obj, i)]
  {
    AddMethodsIs(p, obj, ks[..i]);
    FreshParts(p, ks, mk);
    if i < |ks| {
      assert ks[i] in ks;
      assert ks[..i + 1][..i] == ks[..i];
    }
  }

  lemma {:induction false} CreateFrom(p: Keys, s0: Sessions, s: Sessions, c: ClientId, obj: nat, ks: seq<Key>, mk: Key, i: nat)
    requires i <= |ks| && Fresh(p, ks + [mk])
    requires Moved(s0, s, c, JobOf(s, c)) && if i == 0 then JobOf(s, c).Free? else JobOf(s, c) == Creating(obj, ks[..i])
    ensures var r := ServeAll(AddMethods(p, obj, ks[..i]), s, CreateCalls(c, obj, ks, mk, i));
      r.Some? && r.value.0 == Create(p, obj, ks, mk) && Moved(s0, r.value.1, c, Free(None))
    decreases |ks| - i
  {
    NextUnused(p, obj, ks, mk, i);
    var p1 := AddMethods(p, obj, ks[..i]);
    if i == |ks| {
      assert ks[..i] == ks;
      var t := Visit(c, ValToKey(ModuleEntry(obj, ks)), Made(mk));
      CreateTurn(p1, s, c, t.op.v, mk);
      assert [t] + [] == [t];
      ServeOne(p1, s, t, []);
    } else {
      var t := Visit(c, ValToKey(MethodEntry(obj, i)), Made(ks[i]));
      CreateTurn(p1, s, c, t.op.v, ks[i]);
      assert ks[..i + 1] == ks[..i] + [ks[i]];
      ServeOne(p1, s, t, CreateCalls(c, obj, ks, mk, i + 1));
      CreateFrom(p, s0, Next(p1, s, c, t.op, t.g), c, obj, ks, mk, i + 1);
    }
  }

  /**
   * A client that is let through without anyone between its calls can make the calls of
   * createMethodKeys in order, and they do what the single step of a creation does.
   */
  lemma CreateAlone(p: Keys, s: Sessions, c: ClientId, obj: nat, ks: seq<Key>, mk: Key)
    requires JobOf(s, c).Free? && Fresh(p, ks + [mk])
    ensures var r := ServeAll(p, s, CreateCalls(c, obj, ks, mk, 0));
      r.Some? && r.value.0 == Create(p, obj, ks, mk) && Moved(s, r.value.1, c, Free(None))
  {
    assert ks[..0] == [];
    CreateFrom(p, s, s, c, obj, ks, mk, 0);
  }

  function DropCalls(c: ClientId, ks: seq<Key>, g: KeyGen): seq<Visit> {
    if ks == [] then [] else [Visit(c, RemoveKey(ks[0]), g)] + DropCalls(c, ks[1..], g)
  }

  /** The calls of removeModule: the lookup, and for a module its key and its method keys. */
  function RemoveCalls(p: Keys, c: ClientId, mk: Key, g: KeyGen): seq<Visit> {
    [Visit(c, KeyToVal(mk), g)] +
      if mk in p && p[mk].ModuleEntry? then [Visit(c, RemoveKey(mk), g)] + DropCalls(c, p[mk].methods, g) else []
  }

  lemma {:induction false} DropFrom(p: Keys, s0: Sessions, s: Sessions, c: ClientId, ks: seq<Key>, g: KeyGen)
    requires Moved(s0, s, c, Rest(ks)) && forall k | k in ks :: k !in s0.loaderKeys
    ensures var r := ServeAll(p, s, DropCalls(c, ks, g));
      r.Some? && r.value.0 == p - Elements(ks) && Moved(s0, r.value.1, c, Free(None))
    decreases |ks|
  {
    if ks == [] {
      assert p - Elements(ks) == p;
    } else {
      var t := Visit(c, RemoveKey(ks[0]), g);
      ServeOne(p, s, t, DropCalls(c, ks[1..], g));
      var s1, p1 := Next(p, s, c, t.op, g), Served(p, t.op, g);
      assert p1 == p - {ks[0]};
      assert s1.loaderKeys == s0.loaderKeys;
      DropFrom(p1, s0, s1, c, ks[1..], g);
      assert Elements(ks) == {ks[0]} + Elements(ks[1..]);
      assert p - Elements(ks) == p1 - Elements(ks[1..]);
    }
  }

  /** The same of removeModule. */
  lemma RemoveAlone(p: Keys, s: Sessions, c: ClientId, mk: Key, g: KeyGen)
    requires JobOf(s, c).Free? && mk !in s.loaderKeys
    requires mk in p && p[mk].ModuleEntry? ==> forall k | k in p[mk].methods :: k !in s.loaderKeys
    ensures var r := ServeAll(p, s, RemoveCalls(p, c, mk, g));
      r.Some? && r.value.0 == Remove(p, mk) && Moved(s, r.value.1, c, Free(None))
  {
    var look, drop := Visit(c, KeyToVal(mk), g), Visit(c, RemoveKey(mk), g);
    var s1 := Next(p, s, c, look.op, g);
    if mk in p && p[mk].ModuleEntry? {
      var ms := p[mk].methods;
      ServeOne(p, s, look, [drop] + DropCalls(c, ms, g));
      ServeOne(p, s1, drop, DropCalls(c, ms, g));
      var s2 := Next(p, s1, c, drop.op, g);
      assert s2.loaderKeys == s.loaderKeys;
      DropFrom(p - {mk}, s, s2, c, ms, g);
      assert (p - {mk}) - Elements(ms) == p - ({mk} + Elements(ms));
    } else {
      ServeOne(p, s, look, []);
    }
  }

  /** A loader that is saved and removed again leaves the pool as it was. */
  lemma LoaderAlone(p: Keys, s: Sessions, c: ClientId, loader: nat, env: nat, k: Key, g: KeyGen)
    requires JobOf(s, c).Free? && k !in p && k !in s.loaderKeys
    ensures var save, drop := Visit(c, ValToKey(LoaderEntry(loader, env)), Made(k)), Visit(c, RemoveKey(k), g);
      && (var r := ServeAll(p, s, [save]); r.Some? && r.value.0 == p[k := LoaderEntry(loader, env)])
      && (var r := ServeAll(p, s, [save] + [drop]); r.Some? && r.value.0 == p && Moved(s, r.value.1, c, Free(None)))
  {
    var save, drop := Visit(c, ValToKey(LoaderEntry(loader, env)), Made(k)), Visit(c, RemoveKey(k), g);
    var p1, s1 := Served(p, save.op, save.g), Next(p, s, c, save.op, save.g);
    assert [save] + [] == [save] && [drop] + [] == [drop];
    ServeOne(p, s, save, []);
    ServeOne(p, s, save, [drop]);
    ServeOne(p1, s1, drop, []);
    assert p1 - {k} == p;
    assert Next(p1, s1, c, drop.op, g).loaderKeys == s.loaderKeys;
  }
}
