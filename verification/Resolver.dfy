/**
 * duk__resolve_module_id: the in-place canonicaliser. It reads at `p` and writes at `q`
 * in one buffer; the proof is that this computes the term-stack meaning of the input.
 */
module Resolver {
  import opened Bytes
  import opened TermStack

  /** DUK_COMMONJS_MODULE_ID_LIMIT, counting the terminating NUL. */
  const ID_LIMIT: nat := 256

  datatype Resolved = Resolved(id: seq<byte>, last: seq<byte>)

  /** The two pushed strings, or the TypeError. */
  function Outputs(terms: Option<seq<Term>>): (r: Option<Resolved>)
    requires terms.Some? ==> |terms.value| >= 1
    ensures r.Some? <==> terms.Some?
  {
    if terms.None? then None
    else Some(Resolved(Join(terms.value), terms.value[|terms.value| - 1]))
  }

  // ---- one turn of the resolution loop, seen on the unread input ----

  lemma TurnDot(rest: seq<byte>, stack: seq<Term>)
    requires |rest| >= 2 && rest[0] == DOT && rest[1] == SLASH
    ensures Eval(Split(rest), stack) == Eval(Split(rest[2..]), stack)
  {
    SplitAt(rest, 1);
    assert rest[..1] == [DOT];
  }

  lemma TurnDotDot(rest: seq<byte>, stack: seq<Term>)
    requires |rest| >= 3 && rest[0] == DOT && rest[1] == DOT && rest[2] == SLASH
    ensures stack == [] ==> Eval(Split(rest), stack) == None
    ensures stack != [] ==> Eval(Split(rest), stack) == Eval(Split(rest[3..]), stack[..|stack| - 1])
  {
    SplitAt(rest, 2);
    assert rest[..2] == [DOT, DOT];
  }

  lemma TurnDotLed(rest: seq<byte>, stack: seq<Term>)
    requires |rest| >= 1 && rest[0] == DOT
    requires !(|rest| >= 2 && rest[1] == SLASH)
    requires !(|rest| >= 3 && rest[1] == DOT && rest[2] == SLASH)
    ensures Eval(Split(rest), stack) == None
  {
    SplitHead(rest);
    var t := Split(rest)[0];
    assert t[0] == DOT;
    assert t == [DOT, DOT] ==> t[1] == rest[1];
  }

  lemma TurnName(rest: seq<byte>, k: nat, stack: seq<Term>)
    requires 1 <= k < |rest| && rest[0] != DOT && rest[k] == SLASH
    requires forall i | 0 <= i < k :: rest[i] != SLASH
    ensures Eval(Split(rest), stack) == Eval(Split(rest[k + 1..]), stack + [rest[..k]])
  {
    SplitAt(rest, k);
  }

  lemma TurnLastName(rest: seq<byte>, stack: seq<Term>)
    requires |rest| >= 1 && rest[0] != DOT && SLASH !in rest
    ensures Eval(Split(rest), stack) == Some(stack + [rest])
  {
    SplitWhole(rest);
  }

  lemma TurnDupSlash(rest: seq<byte>, stack: seq<Term>)
    requires |rest| >= 1 && rest[0] == SLASH
    ensures Eval(Split(rest), stack) == Eval(Split(rest[1..]), stack)
  {
    SplitAt(rest, 0);
  }

  lemma PathEmpty(stack: seq<Term>)
    requires Path(stack) == []
    ensures stack == []
  {
  }

  lemma PathEnd(stack: seq<Term>)
    ensures stack != [] ==> |Path(stack)| >= 1 && Path(stack)[|Path(stack)| - 1] == SLASH
  {
  }

  lemma LeadingSlash(s: seq<byte>)
    ensures Split(s)[0] == [] <==> s == [] || s[0] == SLASH
  {
    SplitHead(s);
  }

  /** What has been read so far does not change the verdict on the whole input. */
  ghost predicate Pending(s: seq<byte>, p: nat, stack: seq<Term>)
    requires p <= |s|
  {
    if p == 0 then stack == []
    else Canonical(s) == Eval(Split(s[p..]), stack)
  }

  /** Backtrack from the last output slash to the previous one, or to the start. */
  method Backtrack(buf: array<byte>, q0: nat, ghost init: seq<Term>, ghost t: Term) returns (q: nat)
    requires 1 <= q0 <= buf.Length && SLASH !in t
    requires buf[..q0] == Path(init) + t + [SLASH]
    ensures q < q0 && buf[..q] == Path(init)
  {
    q := q0 - 1;
    PathEnd(init);
    ghost var low := |Path(init)|;
    assert buf[..q] == Path(init) + t;
    while true
      invariant low <= q <= low + |t|
      decreases q
    {
      if q == 0 { break; }
      if buf[q - 1] == SLASH {
        assert forall i | low <= i < q0 - 1 :: buf[i] == t[i - low];
        break;
      }
      q := q - 1;
    }
  }

  lemma Concatenated(s: seq<byte>, a: seq<byte>, b: seq<byte>)
    requires |s| == |a| + |b|
    requires forall i | 0 <= i < |a| :: s[i] == a[i]
    requires forall i | |a| <= i < |s| :: s[i] == b[i - |a|]
    ensures s == a + b
  {
  }

  /**
   * Copy one term from `p0` down to `q0`, up to and including its slash, or up to the
   * NUL. `rest` is the unread input, `k` the length of the term.
   */
  method CopyTerm(buf: array<byte>, q0: nat, p0: nat, n: nat, ghost rest: seq<byte>)
    returns (q: nat, p: nat, done: bool, ghost k: nat)
    requires q0 <= p0 < n < buf.Length && rest == buf[p0..n]
    requires buf[n] == NUL && rest[0] != SLASH && forall i | 0 <= i < |rest| :: rest[i] != NUL
    modifies buf
    ensures 1 <= k <= |rest| && p == p0 + k + 1 && forall i | 0 <= i < k :: rest[i] != SLASH
    ensures forall i | p <= i < buf.Length :: buf[i] == old(buf[i])
    ensures done ==> k == |rest| && q == q0 + k && buf[q0..q] == rest && buf[..q] == old(buf[..q0]) + rest
    ensures !done ==> k < |rest| && q == q0 + k + 1 && rest[k] == SLASH
    ensures !done ==> buf[..q] == old(buf[..q0]) + rest[..k] + [SLASH]
  {
    q, p, done, k := q0, p0, false, 0;
    ghost var low := buf[..q0];
    var c := buf[p];
    p := p + 1;
    while c != NUL && c != SLASH
      invariant q == q0 + k && p == p0 + k + 1 && k <= |rest|
      invariant c == if k < |rest| then rest[k] else NUL
      invariant forall i | 0 <= i < k :: rest[i] != SLASH
      invariant forall i | 0 <= i < q0 :: buf[i] == low[i]
      invariant forall i | q0 <= i < q :: buf[i] == rest[i - q0]
      invariant forall i | p <= i < buf.Length :: buf[i] == old(buf[i])
      decreases n + 1 - p
    {
      buf[q] := c;
      q, k := q + 1, k + 1;
      c := buf[p];
      p := p + 1;
    }
    Concatenated(buf[..q], low, rest[..k]);
    if c == NUL {
      assert rest[..k] == rest;
      assert buf[q0..q] == buf[..q][q0..];
      done := true;
    } else {
      buf[q] := SLASH;
      q := q + 1;
      assert buf[..q] == buf[..q - 1] + [SLASH];
    }
  }

  /** Eat further slashes behind a term. */
  method EatSlashes(buf: array<byte>, p0: nat, n: nat, ghost stack: seq<Term>) returns (p: nat)
    requires p0 <= n < buf.Length && buf[n] == NUL
    ensures p0 <= p <= n && buf[p] != SLASH
    ensures Eval(Split(buf[p..n]), stack) == Eval(Split(buf[p0..n]), stack)
  {
    p := p0;
    while true
      invariant p0 <= p <= n
      invariant Eval(Split(buf[p..n]), stack) == Eval(Split(buf[p0..n]), stack)
      decreases n - p
    {
      var c := buf[p];
      if c != SLASH { break; }
      TurnDupSlash(buf[p..n], stack);
      assert buf[p..n][1..] == buf[p + 1..n];
      p := p + 1;
    }
  }

  /** The input unread at `p` is what was unread at `p0`, without the bytes between. */
  lemma Unread(after: seq<byte>, before: seq<byte>, p0: nat, p: nat, n: nat)
    requires p0 <= p <= n <= |before| && |after| == |before|
    requires forall i | p <= i < n :: after[i] == before[i]
    ensures after[p..n] == before[p0..n][p - p0..]
  {
  }

  datatype Turn = Reject | Next | Done(out: Resolved)

  /** `turn` is the right step from the unread `rest` and `stack` to `rest'` and `stack'`. */
  ghost predicate Turned(rest: seq<byte>, stack: seq<Term>, turn: Turn, rest': seq<byte>, stack': seq<Term>) {
    match turn
    case Reject => rest == [] || rest[0] == SLASH || Eval(Split(rest), stack) == None
    case Next => rest != [] && rest[0] != SLASH && Eval(Split(rest), stack) == Eval(Split(rest'), stack')
    case Done(out) => rest != [] && rest[0] != SLASH && Some(out) == Outputs(Eval(Split(rest), stack))
  }

  lemma LastNameTurned(rest: seq<byte>, stack: seq<Term>, stack': seq<Term>)
    requires |rest| >= 1 && rest[0] != DOT && forall i | 0 <= i < |rest| :: rest[i] != SLASH
    ensures Turned(rest, stack, Done(Resolved(Path(stack) + rest, rest)), [], stack')
  {
    TurnLastName(rest, stack);
    JoinPush(stack, rest);
  }

  lemma NameTurned(rest: seq<byte>, k: nat, stack: seq<Term>)
    requires 1 <= k < |rest| && rest[0] != DOT && rest[k] == SLASH
    requires forall i | 0 <= i < k :: rest[i] != SLASH
    ensures Turned(rest, stack, Next, rest[k + 1..], stack + [rest[..k]])
    ensures Path(stack + [rest[..k]]) == Path(stack) + rest[..k] + [SLASH]
  {
    TurnName(rest, k, stack);
    PathPush(stack, rest[..k]);
  }

  /** The turn for a term led by a period: '.', '..', or an error. */
  method ResolveDots(buf: array<byte>, p0: nat, q0: nat, n: nat, ghost stack: seq<Term>)
    returns (p: nat, q: nat, turn: Turn, ghost stack': seq<Term>)
    requires q0 <= p0 < n < buf.Length && buf[p0] == DOT && buf[n] == NUL
    requires buf[..q0] == Path(stack) && forall t | t in stack :: SLASH !in t
    ensures p <= n + 1 && (turn.Reject? || (turn.Next? && q <= q0 && p0 < p <= n))
    ensures turn.Next? ==> buf[..q] == Path(stack') && stack' <= stack
    ensures Turned(buf[p0..n], stack, turn, if turn.Next? then buf[p..n] else [], stack')
  {
    p, q, turn, stack' := p0 + 1, q0, Reject, stack;
    ghost var rest := buf[p0..n];
    var c := buf[p];
    p := p + 1;
    if c == SLASH {
      TurnDot(rest, stack);
      assert rest[2..] == buf[p..n];
      turn := Next;
    } else if c == DOT && buf[p] == SLASH {
      p := p + 1;
      TurnDotDot(rest, stack);
      if q == 0 {
        PathEmpty(stack);
      } else {
        stack' := stack[..|stack| - 1];
        q := Backtrack(buf, q, stack', stack[|stack| - 1]);
        assert rest[3..] == buf[p..n];
        turn := Next;
      }
    } else {
      TurnDotLed(rest, stack);
    }
  }

  /** The turn for a name: the last one ends the resolution. */
  method ResolveName(buf: array<byte>, p0: nat, q0: nat, n: nat, ghost stack: seq<Term>)
    returns (p: nat, q: nat, turn: Turn, ghost t: Term)
    requires q0 <= p0 < n < buf.Length && buf[n] == NUL && forall i | p0 <= i < n :: buf[i] != NUL
    requires buf[p0] != DOT && buf[p0] != SLASH
    requires buf[..q0] == Path(stack)
    modifies buf
    ensures p0 < p <= n + 1 && forall i | p <= i < buf.Length :: buf[i] == old(buf[i])
    ensures turn.Done? || (turn.Next? && q <= p <= n)
    ensures turn.Next? ==> SLASH !in t && buf[..q] == Path(stack + [t])
    ensures Turned(old(buf[p0..n]), stack, turn, if turn.Next? then buf[p..n] else [], stack + [t])
  {
    ghost var before := buf[..];
    ghost var rest := before[p0..n];
    var done: bool;
    ghost var k: nat;
    q, p, done, k := CopyTerm(buf, q0, p0, n, rest);
    t := rest[..k];
    if done {
      LastNameTurned(rest, stack, stack + [t]);
      turn := Done(Resolved(buf[..q], buf[q0..q]));
    } else {
      NameTurned(rest, k, stack);
      Unread(buf[..], before, p0, p, n);
      turn := Next;
    }
  }

  /**
   * One turn of the loop: the term that starts at `p0`, up to and including its first
   * slash. `stack` is what the output written so far denotes.
   */
  method ResolveTerm(buf: array<byte>, p0: nat, q0: nat, n: nat, ghost stack: seq<Term>)
    returns (p: nat, q: nat, turn: Turn, ghost stack': seq<Term>)
    requires q0 <= p0 <= n < buf.Length && buf[n] == NUL && forall i | p0 <= i < n :: buf[i] != NUL
    requires buf[..q0] == Path(stack) && forall t | t in stack :: SLASH !in t
    modifies buf
    ensures p <= n + 1 && forall i | p <= i < buf.Length :: buf[i] == old(buf[i])
    ensures turn.Next? ==> q <= p && p0 < p <= n
    ensures turn.Next? ==> buf[..q] == Path(stack') && forall t | t in stack' :: SLASH !in t
    ensures Turned(old(buf[p0..n]), stack, turn, if turn.Next? then buf[p..n] else [], stack')
  {
    p, q, turn, stack' := p0, q0, Reject, stack;
    ghost var rest := buf[p0..n];
    var c := buf[p];
    if c == NUL {
      assert rest == [];
    } else if c == DOT {
      p, q, turn, stack' := ResolveDots(buf, p, q, n, stack);
    } else if c != SLASH {
      ghost var t: Term;
      p, q, turn, t := ResolveName(buf, p, q, n, stack);
      stack' := stack + [t];
    }
  }

  /** A right turn carries the verdict on the whole input along. */
  lemma TurnVerdict(s: seq<byte>, p: nat, stack: seq<Term>, turn: Turn, rest': seq<byte>, stack': seq<Term>)
    requires p <= |s| && Pending(s, p, stack) && (p != 0 && p < |s| ==> s[p] != SLASH)
    requires Turned(s[p..], stack, turn, rest', stack')
    ensures match turn
      case Reject => Canonical(s) == None
      case Next => Canonical(s) == Eval(Split(rest'), stack')
      case Done(out) => Some(out) == Outputs(Canonical(s))
  {
    LeadingSlash(s);
    assert s[0..] == s;
    if p == |s| {
      assert s[p..] == [];
    }
  }

  /**
   * The resolution loop. The input is the NUL-terminated string at the start of `buf`;
   * the buffer may be exactly one byte longer than that string, so that every index
   * check of this method also says that nothing is read past the terminator.
   */
  method ResolveInPlace(buf: array<byte>, n: nat) returns (r: Option<Resolved>)
    requires n < buf.Length && buf[n] == NUL && forall i | 0 <= i < n :: buf[i] != NUL
    modifies buf
    ensures r == Outputs(Canonical(old(buf[..n])))
    ensures buf[n + 1..] == old(buf[n + 1..])
  {
    ghost var before := buf[..];
    ghost var s := before[..n];
    ghost var stack: seq<Term> := [];
    var p: nat, q: nat := 0, 0;
    while true
      invariant q <= p <= n
      invariant forall i | p <= i < buf.Length :: buf[i] == old(buf[i])
      invariant buf[..q] == Path(stack) && forall t | t in stack :: SLASH !in t
      invariant buf[p..n] == s[p..] && Pending(s, p, stack)
      invariant p != 0 ==> buf[p] != SLASH
      decreases n - p
    {
      ghost var p0, stack0 := p, stack;
      var turn: Turn;
      p, q, turn, stack := ResolveTerm(buf, p, q, n, stack);
      TurnVerdict(s, p0, stack0, turn, if turn.Next? then buf[p..n] else [], stack);
      match turn {
        case Reject => return None;
        case Done(out) => return Some(out);
        case Next =>
          p := EatSlashes(buf, p, n, stack);
          Unread(buf[..], before, 0, p, n);
      }
    }
  }

  // ---- the whole function ----

  /** The text handed to the loop: the request, prefixed with "base/../" when relative. */
  function ResolutionInput(req: seq<byte>, base: Option<seq<byte>>): (s: seq<byte>)
    ensures NUL !in s
  {
    var r := CString(req);
    if base.Some? && r != [] && r[0] == DOT then CString(base.value) + [SLASH, DOT, DOT, SLASH] + r
    else r
  }

  /** What a call of duk__resolve_module_id means; None is the TypeError. */
  function Resolve(req: seq<byte>, base: Option<seq<byte>>): (r: Option<Resolved>)
  {
    var s := ResolutionInput(req, base);
    if |s| >= ID_LIMIT then None else Outputs(Canonical(s))
  }

  /** snprintf into `buf`: at most buf.Length - 1 bytes and a NUL, returning the untruncated length. */
  method Snprintf(buf: array<byte>, s: seq<byte>) returns (rc: nat)
    requires buf.Length >= 1
    modifies buf
    ensures rc == |s|
    ensures rc < buf.Length ==> buf[..rc] == s && buf[rc] == NUL
    ensures rc >= buf.Length ==> buf[..buf.Length - 1] == s[..buf.Length - 1] && buf[buf.Length - 1] == NUL
  {
    var i: nat := 0;
    while i < |s| && i < buf.Length - 1
      invariant i <= |s| && i <= buf.Length - 1 && buf[..i] == s[..i]
    {
      buf[i] := s[i];
      i := i + 1;
    }
    buf[i] := NUL;
    rc := |s|;
  }

  method ResolveModuleId(req: seq<byte>, base: Option<seq<byte>>) returns (r: Option<Resolved>)
    ensures r == Resolve(req, base)
  {
    var buf := new byte[ID_LIMIT];
    var rc := Snprintf(buf, ResolutionInput(req, base));
    if rc >= buf.Length {
      return None;
    }
    r := ResolveInPlace(buf, rc);
  }

  // ---- what resolution promises ----

  /** The terms behind a successful resolution. */
  lemma ResolvedTerms(req: seq<byte>, base: Option<seq<byte>>) returns (terms: seq<Term>)
    requires Resolve(req, base).Some?
    ensures |terms| >= 1 && Clean(terms) && |Join(terms)| < ID_LIMIT
    ensures Resolve(req, base) == Some(Resolved(Join(terms), terms[|terms| - 1]))
  {
    var s := ResolutionInput(req, base);
    terms := Canonical(s).value;
    CanonicalIsClean(s);
    LeadingSlash(s);
    EvalLength(Split(s), []);
    SplitLength(s);
  }

  /** The bytes needed to write segments with a slash between any two. */
  function Width(segs: seq<seq<byte>>): nat {
    if segs == [] then 0 else |segs[0]| + 1 + Width(segs[1..])
  }

  lemma {:induction false} WidthConcat(a: seq<seq<byte>>, b: seq<seq<byte>>)
    ensures Width(a + b) == Width(a) + Width(b)
  {
    if a == [] {
      assert a + b == b;
    } else {
      WidthConcat(a[1..], b);
      assert (a + b)[1..] == a[1..] + b;
    }
  }

  lemma {:induction false} SplitLength(s: seq<byte>)
    ensures Width(Split(s)) == |s| + 1
    decreases |s|
  {
    SplitHead(s);
    var k := FirstSlash(s);
    if k < |s| {
      SplitLength(s[k + 1..]);
    }
  }

  lemma {:induction false} JoinLength(terms: seq<Term>)
    requires |terms| >= 1
    ensures |Join(terms)| + 1 == Width(terms)
  {
    if |terms| > 1 { JoinLength(terms[1..]); }
  }

  /** Evaluation never lengthens: output fits where the input was. */
  lemma {:induction false} EvalLength(segs: seq<seq<byte>>, stack: seq<Term>)
    requires |segs| >= 1 && Eval(segs, stack).Some?
    ensures |Join(Eval(segs, stack).value)| + 1 <= Width(stack) + Width(segs)
  {
    var t := segs[0];
    if |segs| == 1 {
      WidthConcat(stack, [t]);
      JoinLength(stack + [t]);
    } else if t == [] || t == [DOT] {
      EvalLength(segs[1..], stack);
    } else if t == [DOT, DOT] {
      EvalLength(segs[1..], stack[..|stack| - 1]);
      WidthConcat(stack[..|stack| - 1], stack[|stack| - 1..]);
      assert stack == stack[..|stack| - 1] + stack[|stack| - 1..];
    } else {
      EvalLength(segs[1..], stack + [t]);
      WidthConcat(stack, [t]);
    }
  }

  /** A resolved id is never dot-led, holds no NUL and fits the limit. */
  lemma ResolvedShape(req: seq<byte>, base: Option<seq<byte>>)
    requires Resolve(req, base).Some?
    ensures var id := Resolve(req, base).value.id;
      0 < |id| < ID_LIMIT && id[0] != DOT && id[0] != SLASH && NUL !in id
  {
    var terms := ResolvedTerms(req, base);
    JoinShape(terms);
  }

  lemma JoinShape(terms: seq<Term>)
    requires |terms| >= 1 && Clean(terms)
    ensures var id := Join(terms);
      |id| > 0 && id[0] != DOT && id[0] != SLASH && NUL !in id
  {
    assert terms[0] in terms && Join(terms)[0] == terms[0][0] && terms[0][0] in terms[0];
    JoinNulFree(terms);
  }

  lemma {:induction false} JoinNulFree(terms: seq<Term>)
    requires forall t | t in terms :: NUL !in t
    ensures NUL !in Join(terms)
  {
    if |terms| >= 1 {
      assert terms[0] in terms;
      JoinNulFree(terms[1..]);
    }
  }

  /** A request that is not dot-led ignores the base. */
  lemma InputAbsolute(id: seq<byte>, base: Option<seq<byte>>)
    requires |id| >= 1 && id[0] != DOT && NUL !in id
    ensures ResolutionInput(id, base) == id
  {
    CStringOfNulFree(id);
  }

  lemma ResolveInput(req: seq<byte>, base: Option<seq<byte>>, s: seq<byte>, terms: seq<Term>)
    requires ResolutionInput(req, base) == s && |s| < ID_LIMIT
    requires Canonical(s) == Some(terms) && |terms| >= 1
    ensures Resolve(req, base) == Some(Resolved(Join(terms), terms[|terms| - 1]))
  {
  }

  /** A join of names that fits the limit resolves to itself. */
  lemma ResolveJoined(terms: seq<Term>, base: Option<seq<byte>>)
    requires |terms| >= 1 && Clean(terms) && |Join(terms)| < ID_LIMIT
    ensures Resolve(Join(terms), base) == Some(Resolved(Join(terms), terms[|terms| - 1]))
  {
    JoinShape(terms);
    CanonicalJoin(terms);
    InputAbsolute(Join(terms), base);
    ResolveInput(Join(terms), base, Join(terms), terms);
  }

  /** Whatever the base, a resolved id resolves to itself, with the same last term. */
  lemma ResolveIdempotent(req: seq<byte>, base: Option<seq<byte>>, base': Option<seq<byte>>)
    requires Resolve(req, base).Some?
    ensures Resolve(Resolve(req, base).value.id, base') == Resolve(req, base)
  {
    var terms := ResolvedTerms(req, base);
    ResolveJoined(terms, base');
  }

  /**
   * A relative request made by the module `base` is resolved on the base's terms without
   * the last one. It can fail for no other reason than that evaluation or the length limit.
   */
  lemma ResolveRelative(req: seq<byte>, terms: seq<Term>)
    requires |terms| >= 1 && Clean(terms)
    requires CString(req) != [] && CString(req)[0] == DOT
    ensures Resolve(req, Some(Join(terms)))
         == if |Join(terms)| + 4 + |CString(req)| >= ID_LIMIT then None
            else Outputs(Eval(Split(CString(req)), terms[..|terms| - 1]))
  {
    JoinNulFree(terms);
    CStringOfNulFree(Join(terms));
    CanonicalRelative(terms, CString(req));
  }

  /** A request without a base, or not led by a period, is resolved as it stands, whatever the base. */
  lemma ResolvePlain(req: seq<byte>, base: Option<seq<byte>>)
    requires base.None? || CString(req) == [] || CString(req)[0] != DOT
    ensures var r := CString(req);
      Resolve(req, base) == if |r| >= ID_LIMIT || r == [] || r[0] == SLASH then None else Outputs(Eval(Split(r), []))
  {
    LeadingSlash(CString(req));
  }

  /**
   * A relative request against any text at all, as scripts may give a require function:
   * the base's segments are evaluated, one term is dropped, and the request follows.
   */
  lemma ResolveAgainst(req: seq<byte>, base: seq<byte>)
    requires CString(req) != [] && CString(req)[0] == DOT
    ensures var r, b := CString(req), CString(base);
      Resolve(req, Some(base)) ==
        if |b| + 4 + |r| >= ID_LIMIT || b == [] || b[0] == SLASH then None
        else Outputs(Eval(Split(b) + ([[DOT, DOT]] + Split(r)), []))
  {
    var r, b := CString(req), CString(base);
    var s, tail := b + [SLASH, DOT, DOT, SLASH] + r, [DOT, DOT, SLASH] + r;
    assert s == b + [SLASH] + tail;
    SplitConcat(b, tail);
    SplitUp(r);
    LeadingSlash(s);
  }
}
