/**
 * The server goroutine of a V2KPool and any number of clients, talking over two
 * unbuffered channels that all clients share. A step is one rendezvous on a channel or
 * one turn of the server; every interleaving is a sequence of steps.
 */
module PoolProtocol {
  import opened Bytes
  import opened KeyPool

  type ClientId = nat

  /** Where a client stands: between calls, at the send on `od`, or at the receive on `res`. */
  datatype Client<+K, +V> = Ready | Sending(op: Op<K, V>) | Awaiting(op: Op<K, V>)

  /** Where bgLoop stands: at the receive on `od`, in the switch, at the send on `res`, or returned. */
  datatype Server<+K, +V, +E> = Receiving | Handling(op: Op<K, V>) | Replying(r: Reply<K, V, E>) | Exited

  datatype Request<+K, +V> = Request(c: ClientId, op: Op<K, V>)

  datatype Answer<+K, +V, +E> = Answer(c: ClientId, op: Op<K, V>, r: Reply<K, V, E>)

  /**
   * `clients` holds the clients that have made a call. History: `issued` are the calls
   * in the order they were made, `hist` in the order bgLoop received them, `gens` what the
   * generator would answer at each turn, `got` the replies in the order they were received.
   */
  datatype System<K, V, E> = System(
    pool: Pool<K, V>, server: Server<K, V, E>, clients: map<ClientId, Client<K, V>>,
    issued: seq<Request<K, V>>, hist: seq<Request<K, V>>, gens: seq<Gen<K, E>>, got: seq<Answer<K, V, E>>)

  datatype Action<+K, +V, +E> =
    | Issue(c: ClientId, op: Op<K, V>)   // a client calls V2K, GetVal, RemoveKey, RemoveVal or Quit
    | Receive(c: ClientId)               // rendezvous on od
    | Handle(g: Gen<K, E>)               // the server runs the switch
    | Deliver(c: ClientId)               // rendezvous on res

  function Start<K, V, E>(): System<K, V, E> {
    System(Pool(map[], map[]), Receiving, map[], [], [], [], [])
  }

  function At<K, V, E>(s: System<K, V, E>, c: ClientId): Client<K, V> {
    if c in s.clients then s.clients[c] else Ready
  }

  /** The system after an action, None when the action is not enabled. */
  function Step<K, V, E>(s: System<K, V, E>, hashable: bool, a: Action<K, V, E>): Option<System<K, V, E>> {
    match a
    case Issue(c, op) =>
      if At(s, c).Ready? then
        Some(s.(clients := s.clients[c := Sending(op)], issued := s.issued + [Request(c, op)]))
      else None
    case Receive(c) =>
      if s.server.Receiving? && At(s, c).Sending? then
        var op := At(s, c).op;
        Some(s.(server := Handling(op),
                clients := s.clients[c := if HasReply(op) then Awaiting(op) else Ready],
                hist := s.hist + [Request(c, op)]))
      else None
    case Handle(g) =>
      if s.server.Handling? then
        var (p, r) := Apply(s.pool, hashable, s.server.op, g);
        Some(s.(pool := p, gens := s.gens + [g],
                server := if r.Some? then Replying(r.value) else if s.server.op.Exit? then Exited else Receiving))
      else None
    case Deliver(c) =>
      if s.server.Replying? && At(s, c).Awaiting? then
        Some(s.(server := Receiving, clients := s.clients[c := Ready],
                got := s.got + [Answer(c, At(s, c).op, s.server.r)]))
      else None
  }

  function Run<K, V, E>(hashable: bool, actions: seq<Action<K, V, E>>): Option<System<K, V, E>>
    decreases |actions|
  {
    if actions == [] then Some(Start())
    else
      var s := Run(hashable, actions[..|actions| - 1]);
      if s.None? then None else Step(s.value, hashable, actions[|actions| - 1])
  }

  // ---- the sequential map ----

  /** One caller at a time: the pool and the replies after the requests `hist`. */
  function Sequential<K, V, E>(hashable: bool, hist: seq<Request<K, V>>, gens: seq<Gen<K, E>>)
    : (Pool<K, V>, seq<Answer<K, V, E>>)
    requires |hist| == |gens|
    decreases |hist|
  {
    if hist == [] then (Pool(map[], map[]), [])
    else
      var n := |hist| - 1;
      var (p, answers) := Sequential(hashable, hist[..n], gens[..n]);
      var (p', r) := Apply(p, hashable, hist[n].op, gens[n]);
      (p', if r.Some? then answers + [Answer(hist[n].c, hist[n].op, r.value)] else answers)
  }

  lemma SequentialPush<K, V, E>(hashable: bool, hist: seq<Request<K, V>>, gens: seq<Gen<K, E>>, q: Request<K, V>, g: Gen<K, E>)
    requires |hist| == |gens|
    ensures Sequential(hashable, hist + [q], gens + [g]) ==
      var (p, answers) := Sequential(hashable, hist, gens);
      var (p', r) := Apply(p, hashable, q.op, g);
      (p', if r.Some? then answers + [Answer(q.c, q.op, r.value)] else answers)
  {
    assert (hist + [q])[..|hist|] == hist && (gens + [g])[..|gens|] == gens;
  }

  /**
   * bgLoop, given the requests it will receive: it serves them in order until it has
   * served an exit, and what it leaves and replies is what the sequential map does.
   */
  method BgLoop<K(==), V(==), E>(p: V2KPool<K, V, E>, hist: seq<Request<K, V>>, gens: seq<Gen<K, E>>)
    returns (n: nat, replies: seq<Answer<K, V, E>>)
    requires p.Contents() == Pool(map[], map[]) && |hist| == |gens|
    modifies p
    ensures n <= |hist| && (p.Contents(), replies) == Sequential(p.valHashable, hist[..n], gens[..n])
    ensures n < |hist| ==> n > 0 && hist[n - 1].op.Exit?
    ensures forall i | 0 <= i < n - 1 :: !hist[i].op.Exit?
  {
    n, replies := 0, [];
    var stop := false;
    while !stop && n < |hist|
      invariant n <= |hist| && (p.Contents(), replies) == Sequential(p.valHashable, hist[..n], gens[..n])
      invariant stop ==> n > 0 && hist[n - 1].op.Exit?
      invariant forall i | 0 <= i < if stop then n - 1 else n :: !hist[i].op.Exit?
      decreases !stop, |hist| - n
    {
      var od := hist[n];
      SequentialPush(p.valHashable, hist[..n], gens[..n], od, gens[n]);
      assert hist[..n + 1] == hist[..n] + [od] && gens[..n + 1] == gens[..n] + [gens[n]];
      var r: Option<Reply<K, V, E>>;
      r, stop := p.Serve(od.op, gens[n]);
      if r.Some? {
        replies := replies + [Answer(od.c, od.op, r.value)];
      }
      n := n + 1;
    }
  }

  // ---- the invariant ----

  /** Client `c` waits for the reply to `op`, and nobody else waits. */
  ghost predicate OnlyWaiter<K, V, E>(s: System<K, V, E>, c: ClientId, op: Op<K, V>) {
    At(s, c) == Awaiting(op) && forall d | At(s, d).Awaiting? :: d == c
  }

  ghost predicate NoWaiter<K, V, E>(s: System<K, V, E>) {
    forall d :: !At(s, d).Awaiting?
  }

  ghost predicate Inv<K, V, E>(s: System<K, V, E>, hashable: bool) {
    match s.server
    case Receiving =>
      |s.hist| == |s.gens| && NoWaiter(s) && Sequential(hashable, s.hist, s.gens) == (s.pool, s.got)
    case Exited =>
      |s.hist| == |s.gens| && NoWaiter(s) && Sequential(hashable, s.hist, s.gens) == (s.pool, s.got)
    case Handling(op) =>
      && |s.hist| == |s.gens| + 1
      && var n := |s.gens|;
      && s.hist[n].op == op
      && (if HasReply(op) then OnlyWaiter(s, s.hist[n].c, op) else NoWaiter(s))
      && Sequential(hashable, s.hist[..n], s.gens) == (s.pool, s.got)
    case Replying(r) =>
      && |s.hist| == |s.gens| >= 1
      && var q := s.hist[|s.hist| - 1];
      && OnlyWaiter(s, q.c, q.op)
      && Sequential(hashable, s.hist, s.gens) == (s.pool, s.got + [Answer(q.c, q.op, r)])
  }

  lemma IssueKeepsInv<K, V, E>(s: System<K, V, E>, hashable: bool, c: ClientId, op: Op<K, V>)
    requires Inv(s, hashable) && Step(s, hashable, Issue(c, op)).Some?
    ensures Inv(Step(s, hashable, Issue(c, op)).value, hashable)
  {
    var s' := Step(s, hashable, Issue(c, op)).value;
    assert forall d :: At(s', d) == if d == c then Sending(op) else At(s, d);
  }

  lemma ReceiveKeepsInv<K, V, E>(s: System<K, V, E>, hashable: bool, c: ClientId)
    requires Inv(s, hashable) && Step(s, hashable, Receive(c)).Some?
    ensures Inv(Step(s, hashable, Receive(c)).value, hashable)
  {
    var s' := Step(s, hashable, Receive(c)).value;
    assert forall d | d != c :: At(s', d) == At(s, d);
    assert s'.hist[..|s.hist|] == s.hist;
  }

  /** The request being handled is the next turn of the sequential map. */
  lemma HandledNext<K, V, E>(s: System<K, V, E>, hashable: bool, g: Gen<K, E>)
    requires Inv(s, hashable) && s.server.Handling?
    ensures |s.hist| == |s.gens| + 1 && s.hist[|s.gens|].op == s.server.op
    ensures var (p, r) := Apply(s.pool, hashable, s.server.op, g);
      Sequential(hashable, s.hist, s.gens + [g]) ==
        (p, if r.Some? then s.got + [Answer(s.hist[|s.gens|].c, s.server.op, r.value)] else s.got)
  {
    var n := |s.gens|;
    SequentialPush(hashable, s.hist[..n], s.gens, s.hist[n], g);
    assert s.hist[..n] + [s.hist[n]] == s.hist;
  }

  lemma ReplyKeepsInv<K, V, E>(s: System<K, V, E>, hashable: bool, g: Gen<K, E>)
    requires Inv(s, hashable) && s.server.Handling? && HasReply(s.server.op)
    ensures Inv(Step(s, hashable, Handle(g)).value, hashable)
  {
    HandledNext(s, hashable, g);
    var s' := Step(s, hashable, Handle(g)).value;
    assert forall d :: At(s', d) == At(s, d);
    assert OnlyWaiter(s', s.hist[|s.gens|].c, s.server.op);
  }

  lemma SilentKeepsInv<K, V, E>(s: System<K, V, E>, hashable: bool, g: Gen<K, E>)
    requires Inv(s, hashable) && s.server.Handling? && !HasReply(s.server.op)
    ensures Inv(Step(s, hashable, Handle(g)).value, hashable)
  {
    HandledNext(s, hashable, g);
    var s' := Step(s, hashable, Handle(g)).value;
    assert forall d :: At(s', d) == At(s, d);
    assert NoWaiter(s');
  }

  lemma HandleKeepsInv<K, V, E>(s: System<K, V, E>, hashable: bool, g: Gen<K, E>)
    requires Inv(s, hashable) && Step(s, hashable, Handle(g)).Some?
    ensures Inv(Step(s, hashable, Handle(g)).value, hashable)
  {
    if HasReply(s.server.op) {
      ReplyKeepsInv(s, hashable, g);
    } else {
      SilentKeepsInv(s, hashable, g);
    }
  }

  lemma DeliverKeepsInv<K, V, E>(s: System<K, V, E>, hashable: bool, c: ClientId)
    requires Inv(s, hashable) && Step(s, hashable, Deliver(c)).Some?
    ensures Inv(Step(s, hashable, Deliver(c)).value, hashable)
  {
    var s' := Step(s, hashable, Deliver(c)).value;
    assert forall d :: At(s', d) == if d == c then Ready else At(s, d);
  }

  lemma StepKeepsInv<K, V, E>(s: System<K, V, E>, hashable: bool, a: Action<K, V, E>)
    requires Inv(s, hashable) && Step(s, hashable, a).Some?
    ensures Inv(Step(s, hashable, a).value, hashable)
  {
    match a
    case Issue(c, op) => IssueKeepsInv(s, hashable, c, op);
    case Receive(c) => ReceiveKeepsInv(s, hashable, c);
    case Handle(g) => HandleKeepsInv(s, hashable, g);
    case Deliver(c) => DeliverKeepsInv(s, hashable, c);
  }

  lemma {:induction false} RunInv<K, V, E>(hashable: bool, actions: seq<Action<K, V, E>>)
    requires Run(hashable, actions).Some?
    ensures Inv(Run(hashable, actions).value, hashable)
    decreases |actions|
  {
    if actions != [] {
      var init := actions[..|actions| - 1];
      RunInv(hashable, init);
      StepKeepsInv(Run(hashable, init).value, hashable, actions[|actions| - 1]);
    }
  }

  // ---- the theorems, for every interleaving ----

  /** Two clients never wait for a reply at the same time, and none waits once the server is gone. */
  lemma WaitersAreServed<K, V, E>(hashable: bool, actions: seq<Action<K, V, E>>, c: ClientId, d: ClientId)
    requires Run(hashable, actions).Some?
    ensures var s := Run(hashable, actions).value;
      && (At(s, c).Awaiting? && At(s, d).Awaiting? ==> c == d)
      && (At(s, c).Awaiting? ==> !s.server.Exited?)
  {
    RunInv(hashable, actions);
  }

  /**
   * A reply can only be received by the client whose request the server handled last,
   * and it is the reply the sequential map gives to that request.
   */
  lemma RepliesAreNotCrossed<K, V, E>(hashable: bool, actions: seq<Action<K, V, E>>, c: ClientId)
    requires Run(hashable, actions + [Deliver(c)]).Some?
    ensures var s := Run(hashable, actions + [Deliver(c)]).value;
      && |s.hist| == |s.gens| >= 1
      && s.got == Sequential(hashable, s.hist, s.gens).1
      && var q := s.hist[|s.hist| - 1];
      && q.c == c && |s.got| >= 1
      && s.got[|s.got| - 1].c == c && s.got[|s.got| - 1].op == q.op
  {
    assert (actions + [Deliver(c)])[..|actions|] == actions;
    RunInv(hashable, actions);
    RunInv(hashable, actions + [Deliver(c)]);
  }

  /**
   * Every run is a run of the sequential map on the requests in the order bgLoop
   * received them: the replies received so far are its replies, except that the last one
   * may still be on its way.
   */
  lemma EveryRunIsSequential<K, V, E>(hashable: bool, actions: seq<Action<K, V, E>>)
    requires Run(hashable, actions).Some?
    ensures var s := Run(hashable, actions).value;
      && |s.gens| <= |s.hist| <= |s.gens| + 1
      && var (p, answers) := Sequential(hashable, s.hist[..|s.gens|], s.gens);
      && s.pool == p && s.got <= answers
      && (if s.server.Replying? then |answers| == |s.got| + 1 && answers[|s.got|].r == s.server.r
          else answers == s.got)
  {
    RunInv(hashable, actions);
    var s := Run(hashable, actions).value;
    if !s.server.Handling? {
      assert s.hist[..|s.gens|] == s.hist;
    }
  }

  /** The requests of one client. */
  function Of<K, V>(rs: seq<Request<K, V>>, c: ClientId): seq<Op<K, V>>
    decreases |rs|
  {
    if rs == [] then []
    else
      var n := |rs| - 1;
      if rs[n].c == c then Of(rs[..n], c) + [rs[n].op] else Of(rs[..n], c)
  }

  lemma OfPush<K, V>(rs: seq<Request<K, V>>, q: Request<K, V>, c: ClientId)
    ensures Of(rs + [q], c) == if q.c == c then Of(rs, c) + [q.op] else Of(rs, c)
  {
    assert (rs + [q])[..|rs|] == rs;
  }

  /** The calls of `c` the server received, and the one `c` may be sending, are the calls it made. */
  ghost predicate InOrder<K, V, E>(s: System<K, V, E>, c: ClientId) {
    Of(s.issued, c) == Of(s.hist, c) + (if At(s, c).Sending? then [At(s, c).op] else [])
  }

  lemma IssueKeepsOrder<K, V, E>(s: System<K, V, E>, hashable: bool, d: ClientId, op: Op<K, V>, c: ClientId)
    requires InOrder(s, c) && Step(s, hashable, Issue(d, op)).Some?
    ensures InOrder(Step(s, hashable, Issue(d, op)).value, c)
  {
    OfPush(s.issued, Request(d, op), c);
  }

  lemma ReceiveKeepsOrder<K, V, E>(s: System<K, V, E>, hashable: bool, d: ClientId, c: ClientId)
    requires InOrder(s, c) && Step(s, hashable, Receive(d)).Some?
    ensures InOrder(Step(s, hashable, Receive(d)).value, c)
  {
    OfPush(s.hist, Request(d, At(s, d).op), c);
    assert Of(s.hist, c) + [] == Of(s.hist, c);
  }

  /** The server receives each client's calls in the order the client made them, all but one it may be sending. */
  lemma {:induction false} ProgramOrder<K, V, E>(hashable: bool, actions: seq<Action<K, V, E>>, c: ClientId)
    requires Run(hashable, actions).Some?
    ensures InOrder(Run(hashable, actions).value, c)
    decreases |actions|
  {
    if actions != [] {
      var n := |actions| - 1;
      ProgramOrder(hashable, actions[..n], c);
      var s := Run(hashable, actions[..n]).value;
      match actions[n]
      case Issue(d, op) => IssueKeepsOrder(s, hashable, d, op, c);
      case Receive(d) => ReceiveKeepsOrder(s, hashable, d, c);
      case Handle(g) =>
      case Deliver(d) =>
    }
  }

  /** An action other than a new call can be taken. */
  ghost predicate CanProceed<K, V(!new), E>(s: System<K, V, E>, hashable: bool, g: Gen<K, E>) {
    Step(s, hashable, Handle(g)).Some? ||
    exists c :: Step(s, hashable, Receive(c)).Some? || Step(s, hashable, Deliver(c)).Some?
  }

  /** The system is stuck exactly when the server has returned or every client is between calls. */
  lemma StuckWhen<K, V(!new), E>(hashable: bool, actions: seq<Action<K, V, E>>, g: Gen<K, E>)
    requires Run(hashable, actions).Some?
    ensures var s := Run(hashable, actions).value;
      CanProceed(s, hashable, g) <==>
        !s.server.Exited? && (s.server.Handling? || exists c :: !At(s, c).Ready?)
  {
    RunInv(hashable, actions);
    var s := Run(hashable, actions).value;
    match s.server
    case Handling(op) =>
    case Exited =>
    case Receiving =>
      if c :| !At(s, c).Ready? {
        assert Step(s, hashable, Receive(c)).Some?;
      }
    case Replying(r) =>
      var c := s.hist[|s.hist| - 1].c;
      assert Step(s, hashable, Deliver(c)).Some?;
      assert !At(s, c).Ready?;
  }

  /** After Quit was served nothing is received, answered or stored any more; later calls block. */
  lemma {:induction false} ExitIsFinal<K, V, E>(hashable: bool, actions: seq<Action<K, V, E>>, more: seq<Action<K, V, E>>)
    requires Run(hashable, actions).Some? && Run(hashable, actions).value.server.Exited?
    requires Run(hashable, actions + more).Some?
    ensures var s, s' := Run(hashable, actions).value, Run(hashable, actions + more).value;
      s' == s.(clients := s'.clients, issued := s'.issued)
    ensures forall c :: At(Run(hashable, actions).value, c).Sending? ==> At(Run(hashable, actions + more).value, c).Sending?
    decreases |more|
  {
    if more == [] {
      assert actions + more == actions;
    } else {
      var n := |more| - 1;
      assert (actions + more)[..|actions + more| - 1] == actions + more[..n];
      ExitIsFinal(hashable, actions, more[..n]);
    }
  }

  /** An exit that was served is the last request, and the server has returned; nothing else makes it return. */
  ghost predicate ExitLast<K, V, E>(s: System<K, V, E>) {
    && |s.gens| <= |s.hist|
    && (forall i | 0 <= i < |s.gens| :: s.hist[i].op.Exit? ==> s.server.Exited? && i == |s.hist| - 1)
    && (s.server.Exited? ==> |s.hist| == |s.gens| >= 1 && s.hist[|s.hist| - 1].op.Exit?)
  }

  lemma StepKeepsExitLast<K, V, E>(s: System<K, V, E>, hashable: bool, a: Action<K, V, E>)
    requires Inv(s, hashable) && ExitLast(s) && Step(s, hashable, a).Some?
    ensures ExitLast(Step(s, hashable, a).value)
  {
  }

  lemma {:induction false} RunExitLast<K, V, E>(hashable: bool, actions: seq<Action<K, V, E>>)
    requires Run(hashable, actions).Some?
    ensures ExitLast(Run(hashable, actions).value)
    decreases |actions|
  {
    if actions != [] {
      var init := actions[..|actions| - 1];
      RunExitLast(hashable, init);
      RunInv(hashable, init);
      StepKeepsExitLast(Run(hashable, init).value, hashable, actions[|actions| - 1]);
    }
  }

  /** In every run the server has returned exactly when an exit was served, which is then the last request. */
  lemma ExitedWhen<K, V, E>(hashable: bool, actions: seq<Action<K, V, E>>)
    requires Run(hashable, actions).Some?
    ensures var s := Run(hashable, actions).value;
      && |s.gens| <= |s.hist|
      && (s.server.Exited? <==> exists i :: 0 <= i < |s.gens| && s.hist[i].op.Exit?)
      && (forall i | 0 <= i < |s.gens| :: s.hist[i].op.Exit? ==> i == |s.hist| - 1)
  {
    RunExitLast(hashable, actions);
    var s := Run(hashable, actions).value;
    if s.server.Exited? {
      var last := |s.gens| - 1;
      assert s.hist[last].op.Exit?;
    }
  }

  lemma RunPush<K, V, E>(hashable: bool, actions: seq<Action<K, V, E>>, a: Action<K, V, E>)
    requires Run(hashable, actions).Some?
    ensures Run(hashable, actions + [a]) == Step(Run(hashable, actions).value, hashable, a)
  {
    assert (actions + [a])[..|actions|] == actions;
  }

  /** What a client does for one call when nobody comes between. */
  function Calling<K, V, E>(c: ClientId, op: Op<K, V>, g: Gen<K, E>): seq<Action<K, V, E>> {
    [Issue(c, op), Receive(c), Handle(g)] + if HasReply(op) then [Deliver(c)] else []
  }

  /**
   * After every run in which the server is at its receive, any client between its calls can
   * make any call and get through with it: the pool changes as the operation says, the client
   * has its reply and is between calls again, and the server is at its receive, or has
   * returned after an exit.
   */
  lemma CallCompletes<K, V, E>(hashable: bool, actions: seq<Action<K, V, E>>, c: ClientId, op: Op<K, V>, g: Gen<K, E>)
    requires Run(hashable, actions).Some?
    requires var s := Run(hashable, actions).value; s.server.Receiving? && At(s, c).Ready?
    ensures var s, r := Run(hashable, actions).value, Run(hashable, actions + Calling(c, op, g));
      var (p, reply) := Apply(s.pool, hashable, op, g);
      && r.Some? && r.value.pool == p && At(r.value, c).Ready?
      && (forall d | d != c :: At(r.value, d) == At(s, d))
      && r.value.got == (if reply.Some? then s.got + [Answer(c, op, reply.value)] else s.got)
      && r.value.hist == s.hist + [Request(c, op)] && r.value.issued == s.issued + [Request(c, op)]
      && r.value.server == (if op.Exit? then Exited else Receiving)
  {
    var a1 := actions + [Issue(c, op)];
    var a2 := a1 + [Receive(c)];
    var a3 := a2 + [Handle(g)];
    RunPush(hashable, actions, Issue(c, op));
    RunPush(hashable, a1, Receive(c));
    RunPush(hashable, a2, Handle(g));
    if HasReply(op) {
      RunPush(hashable, a3, Deliver(c));
      assert actions + Calling(c, op, g) == a3 + [Deliver(c)];
    } else {
      assert actions + Calling(c, op, g) == a3;
    }
  }
}
