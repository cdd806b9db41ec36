/**
 * V2KPool: two maps from keys to values and back, and the five operations the server
 * loop performs on them. The key generator is outside: what it would answer is a parameter.
 */
module KeyPool {
  import opened Bytes

  datatype Op<+K, +V> = RemoveVal(v: V) | RemoveKey(k: K) | ValToKey(v: V) | KeyToVal(k: K) | Exit

  /** The answer of the generator val2key: a key or an error. */
  datatype Gen<+K, +E> = Made(k: K) | Refused(e: E)

  datatype Reply<+K, +V, +E> = KeyReply(k: K) | ValReply(v: V) | NilReply | ErrReply(e: E)

  datatype Pool<K, V> = Pool(k2v: map<K, V>, v2k: map<V, K>)

  /** The operations whose caller waits on the reply channel. */
  predicate HasReply<K, V>(op: Op<K, V>) {
    op.ValToKey? || op.KeyToVal?
  }

  /** What one turn of the server loop does to the maps and what it replies. */
  function Apply<K, V, E>(p: Pool<K, V>, hashable: bool, op: Op<K, V>, g: Gen<K, E>)
    : (r: (Pool<K, V>, Option<Reply<K, V, E>>))
    ensures r.1.Some? <==> HasReply(op)
  {
    match op
    case RemoveKey(k) =>
      (if k in p.k2v then Pool(p.k2v - {k}, p.v2k - {p.k2v[k]}) else p, None)
    case RemoveVal(v) =>
      (if hashable && v in p.v2k then Pool(p.k2v - {p.v2k[v]}, p.v2k - {v}) else p, None)
    case ValToKey(v) =>
      if hashable && v in p.v2k then (p, Some(KeyReply(p.v2k[v])))
      else
        (match g
         case Made(k) => (Pool(p.k2v[k := v], if hashable then p.v2k[v := k] else p.v2k), Some(KeyReply(k)))
         case Refused(e) => (p, Some(ErrReply(e))))
    case KeyToVal(k) =>
      (p, Some(if k in p.k2v then ValReply(p.k2v[k]) else NilReply))
    case Exit =>
      (Pool(map[], map[]), None)
  }

  /** The pool object with its maps updated in place. */
  class V2KPool<K(==), V(==), E> {
    const valHashable: bool
    var k2v: map<K, V>
    var v2k: map<V, K>

    ghost function Contents(): Pool<K, V>
      reads this
    {
      Pool(k2v, v2k)
    }

    constructor (hashable: bool)
      ensures valHashable == hashable && Contents() == Pool(map[], map[])
    {
      valHashable := hashable;
      k2v, v2k := map[], map[];
    }

    method Val2Key(val: V, g: Gen<K, E>) returns (r: Reply<K, V, E>)
      modifies this
      ensures (Contents(), Some(r)) == Apply(old(Contents()), valHashable, ValToKey(val), g)
    {
      if valHashable {
        if val in v2k {
          return KeyReply(v2k[val]);
        }
      }
      match g {
        case Made(k) =>
          k2v := k2v[k := val];
          if valHashable {
            v2k := v2k[val := k];
          }
          r := KeyReply(k);
        case Refused(e) =>
          r := ErrReply(e);
      }
    }

    method GetVal(key: K, ghost g: Gen<K, E>) returns (r: Reply<K, V, E>)
      ensures (Contents(), Some(r)) == Apply(Contents(), valHashable, KeyToVal(key), g)
    {
      r := if key in k2v then ValReply(k2v[key]) else NilReply;
    }

    method RemoveKeyOp(key: K, ghost g: Gen<K, E>)
      modifies this
      ensures (Contents(), None) == Apply(old(Contents()), valHashable, RemoveKey(key), g)
    {
      if key in k2v {
        var v := k2v[key];
        k2v := k2v - {key};
        if v in v2k {
          v2k := v2k - {v};
        }
        assert v !in old(v2k) ==> old(v2k) - {v} == old(v2k);
      }
    }

    method RemoveValOp(val: V, ghost g: Gen<K, E>)
      modifies this
      ensures (Contents(), None) == Apply(old(Contents()), valHashable, RemoveVal(val), g)
    {
      if !valHashable {
        return;
      }
      if val in v2k {
        var k := v2k[val];
        v2k := v2k - {val};
        if k in k2v {
          k2v := k2v - {k};
        }
        assert k !in old(k2v) ==> old(k2v) - {k} == old(k2v);
      }
    }

    method ReleaseAll(ghost g: Gen<K, E>)
      modifies this
      ensures (Contents(), None) == Apply(old(Contents()), valHashable, Exit, g)
    {
      k2v, v2k := map[], map[];
    }

    /** The switch of bgLoop: at most one reply is sent, and `stop` ends the loop. */
    method Serve(op: Op<K, V>, g: Gen<K, E>) returns (r: Option<Reply<K, V, E>>, stop: bool)
      modifies this
      ensures (Contents(), r) == Apply(old(Contents()), valHashable, op, g)
      ensures stop <==> op.Exit?
    {
      r, stop := None, false;
      match op {
        case RemoveKey(k) => RemoveKeyOp(k, g);
        case RemoveVal(v) => RemoveValOp(v, g);
        case ValToKey(v) =>
          var x := Val2Key(v, g);
          r := Some(x);
        case KeyToVal(k) =>
          var x := GetVal(k, g);
          r := Some(x);
        case Exit =>
          ReleaseAll(g);
          stop := true;
      }
    }
  }

  // ---- the two maps ----

  /** The maps are inverse to each other. */
  ghost predicate Inverse<K, V>(p: Pool<K, V>) {
    && (forall k | k in p.k2v :: p.k2v[k] in p.v2k && p.v2k[p.k2v[k]] == k)
    && (forall v | v in p.v2k :: p.v2k[v] in p.k2v && p.k2v[p.v2k[v]] == v)
  }

  /** The generator is asked for a new value and answers with a key that is in use. */
  predicate Clashes<K, V, E>(p: Pool<K, V>, op: Op<K, V>, g: Gen<K, E>) {
    op.ValToKey? && op.v !in p.v2k && g.Made? && g.k in p.k2v
  }

  /** With hashable values an operation keeps the maps inverse exactly when no key is made twice. */
  lemma InverseKept<K, V, E>(p: Pool<K, V>, op: Op<K, V>, g: Gen<K, E>)
    requires Inverse(p)
    ensures Inverse(Apply(p, true, op, g).0) <==> !Clashes(p, op, g)
  {
    var p' := Apply(p, true, op, g).0;
    if Clashes(p, op, g) {
      var v0 := p.k2v[g.k];
      assert v0 in p'.v2k && p'.k2v[p'.v2k[v0]] == op.v;
    }
  }

  /** The value a key stands for, None when the key is not in use. */
  function Lookup<K, V>(p: Pool<K, V>, k: K): Option<V> {
    if k in p.k2v then Some(p.k2v[k]) else None
  }

  /**
   * What each operation changes, key by key: removing takes away exactly the pair asked
   * for, making adds exactly the new pair, reading changes nothing, exit empties the pool.
   */
  lemma Effect<K, V, E>(p: Pool<K, V>, hashable: bool, op: Op<K, V>, g: Gen<K, E>, k: K)
    requires hashable ==> Inverse(p)
    ensures var (p', r) := Apply(p, hashable, op, g);
      match op
      case RemoveKey(x) => Lookup(p', k) == (if k == x then None else Lookup(p, k))
      case RemoveVal(v) => Lookup(p', k) == (if hashable && Lookup(p, k) == Some(v) then None else Lookup(p, k))
      case ValToKey(v) =>
        (match r.value
         case KeyReply(x) =>
           && Lookup(p', x) == Some(v) && (k != x ==> Lookup(p', k) == Lookup(p, k))
           && (hashable && Lookup(p, k) == Some(v) ==> x == k)
         case ErrReply(e) => p' == p && g == Refused(e) && (hashable ==> Lookup(p, k) != Some(v))
         case _ => false)
      case KeyToVal(x) =>
        p' == p && r == Some(if Lookup(p, x).Some? then ValReply(Lookup(p, x).value) else NilReply)
      case Exit => Lookup(p', k) == None
  {
  }

  /** A sequence of operations, each with the generator's answer. */
  datatype Turn<+K, +V, +E> = Turn(op: Op<K, V>, g: Gen<K, E>)

  function ApplyAll<K, V, E>(p: Pool<K, V>, hashable: bool, turns: seq<Turn<K, V, E>>): Pool<K, V>
    decreases |turns|
  {
    if turns == [] then p
    else ApplyAll(Apply(p, hashable, turns[0].op, turns[0].g).0, hashable, turns[1..])
  }

  /** The generator answers every value with a key of its own, the same at each call. */
  ghost predicate Answers<K, V, E>(turns: seq<Turn<K, V, E>>, gen: V -> Gen<K, E>) {
    forall t | t in turns && t.op.ValToKey? :: t.g == gen(t.op.v)
  }

  ghost predicate Injective<K(!new), V(!new), E(!new)>(gen: V -> Gen<K, E>) {
    forall v, v' :: gen(v).Made? && gen(v') == gen(v) ==> v' == v
  }

  ghost predicate KeysFrom<K, V, E>(p: Pool<K, V>, gen: V -> Gen<K, E>) {
    forall k | k in p.k2v :: gen(p.k2v[k]) == Made(k)
  }

  /** Different values mapped to different keys: the maps are inverse in every reachable state. */
  lemma {:induction false} InverseAlways<K(!new), V(!new), E(!new)>(p: Pool<K, V>, turns: seq<Turn<K, V, E>>, gen: V -> Gen<K, E>)
    requires Inverse(p) && KeysFrom(p, gen) && Injective(gen) && Answers(turns, gen)
    ensures Inverse(ApplyAll(p, true, turns)) && KeysFrom(ApplyAll(p, true, turns), gen)
    decreases |turns|
  {
    if turns != [] {
      var t := turns[0];
      assert t in turns;
      InverseKept(p, t.op, t.g);
      if Clashes(p, t.op, t.g) {
        assert false;
      }
      var p' := Apply(p, true, t.op, t.g).0;
      assert KeysFrom(p', gen);
      InverseAlways(p', turns[1..], gen);
    }
  }

  /**
   * No operation of `turns` removes the pair (k, v) or ends the pool, nor, without a
   * reverse map to look in, makes the key k for another value.
   */
  ghost predicate Leaves<K, V, E>(turns: seq<Turn<K, V, E>>, hashable: bool, k: K, v: V) {
    forall t | t in turns ::
      && !t.op.Exit? && t.op != RemoveKey(k)
      && (hashable ==> t.op != RemoveVal(v))
      && (!hashable && t.op.ValToKey? && t.op.v != v ==> t.g != Made(k))
  }

  /**
   * A pair stays until it is removed: V2K keeps answering with the same key (hashable
   * values) and GetVal with the same value.
   */
  lemma {:induction false} PairStays<K, V, E>(p: Pool<K, V>, hashable: bool, turns: seq<Turn<K, V, E>>, k: K, v: V, g: Gen<K, E>)
    requires k in p.k2v && p.k2v[k] == v && Leaves(turns, hashable, k, v)
    requires if hashable then Inverse(p) else p.v2k == map[]
    requires hashable ==> forall i | 0 <= i < |turns| ::
      !Clashes(ApplyAll(p, true, turns[..i]), turns[i].op, turns[i].g)
    ensures var p' := ApplyAll(p, hashable, turns);
      && Apply(p', hashable, KeyToVal(k), g) == (p', Some(ValReply(v)))
      && (hashable ==> Apply(p', hashable, ValToKey(v), g) == (p', Some(KeyReply(k))))
    decreases |turns|
  {
    if turns == [] {
      return;
    }
    var t := turns[0];
    assert t in turns;
    var p1 := Apply(p, hashable, t.op, t.g).0;
    if hashable {
      assert turns[..0] == [];
      InverseKept(p, t.op, t.g);
      forall i | 0 <= i < |turns[1..]|
        ensures !Clashes(ApplyAll(p1, true, turns[1..][..i]), turns[1..][i].op, turns[1..][i].g)
      {
        assert turns[..i + 1][1..] == turns[1..][..i];
        assert turns[..i + 1][0] == t;
      }
    }
    PairStays(p1, hashable, turns[1..], k, v, g);
  }

  /** Without hashable values the reverse map is never used and RemoveVal does nothing. */
  lemma {:induction false} NoReverseMap<K, V, E>(p: Pool<K, V>, turns: seq<Turn<K, V, E>>, v: V, g: Gen<K, E>)
    requires p.v2k == map[]
    ensures var p' := ApplyAll(p, false, turns);
      p'.v2k == map[] && Apply(p', false, RemoveVal(v), g) == (p', None)
    decreases |turns|
  {
    if turns != [] {
      NoReverseMap(Apply(p, false, turns[0].op, turns[0].g).0, turns[1..], v, g);
    }
  }
}
