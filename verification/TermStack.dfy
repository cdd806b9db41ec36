/**
 * The meaning of a module identifier, independent of how it is computed: split the
 * identifier at every slash and evaluate the segments on a stack of terms
 * (CommonJS Modules/1.1.1, section "Module Identifiers", with the stricter rules of
 * the resolver: no dot-led names, no leading or trailing slash, and the last segment
 * must be a name).
 */
module TermStack {
  import opened Bytes

  type Term = seq<byte>

  /** All segments between slashes; runs of slashes give empty segments. */
  function Split(s: seq<byte>): (segs: seq<seq<byte>>)
    ensures |segs| >= 1
  {
    if s == [] then [[]]
    else
      var rest := Split(s[1..]);
      if s[0] == SLASH then [[]] + rest else [[s[0]] + rest[0]] + rest[1..]
  }

  function Join(terms: seq<Term>): seq<byte> {
    if terms == [] then []
    else if |terms| == 1 then terms[0]
    else terms[0] + [SLASH] + Join(terms[1..])
  }

  /** A term that may be pushed: not empty and not led by a period. */
  predicate IsName(t: seq<byte>) {
    t != [] && t[0] != DOT
  }

  /** Evaluate `segs` on top of `stack`. Only a name may come last. */
  function Eval(segs: seq<seq<byte>>, stack: seq<Term>): (r: Option<seq<Term>>)
    requires |segs| >= 1
    ensures r.Some? ==> |r.value| >= 1 && |r.value| <= |stack| + |segs|
  {
    var t := segs[0];
    if |segs| == 1 then
      if IsName(t) then Some(stack + [t]) else None
    else if t == [] || t == [DOT] then
      Eval(segs[1..], stack)
    else if t == [DOT, DOT] then
      if stack == [] then None else Eval(segs[1..], stack[..|stack| - 1])
    else if IsName(t) then
      Eval(segs[1..], stack + [t])
    else
      None
  }

  /** The terms an identifier denotes, None when it is rejected. */
  function Canonical(s: seq<byte>): (r: Option<seq<Term>>)
    ensures r.Some? ==> |r.value| >= 1
  {
    if Split(s)[0] == [] then None else Eval(Split(s), [])
  }

  /** Terms a resolved identifier may consist of. */
  ghost predicate Clean(terms: seq<Term>) {
    forall t | t in terms :: IsName(t) && SLASH !in t && NUL !in t
  }

  // ---- splitting and joining ----

  /** Position of the first slash, or the length of `s`. */
  function FirstSlash(s: seq<byte>): (k: nat)
    ensures k <= |s| && forall i | 0 <= i < k :: s[i] != SLASH
    ensures k < |s| ==> s[k] == SLASH
  {
    if s == [] || s[0] == SLASH then 0 else 1 + FirstSlash(s[1..])
  }

  lemma {:induction false} SplitHead(s: seq<byte>)
    ensures var k := FirstSlash(s);
      Split(s) == if k == |s| then [s] else [s[..k]] + Split(s[k + 1..])
  {
    if s != [] && s[0] != SLASH {
      SplitHead(s[1..]);
      var k := FirstSlash(s[1..]);
      assert s[..k + 1] == [s[0]] + s[1..][..k];
      assert s == [s[0]] + s[1..];
      if k < |s[1..]| {
        assert s[1..][k + 1..] == s[k + 2..];
      }
    } else if s != [] {
      assert s[..0] == [];
    }
  }

  /** What `Split` does at a known slash. */
  lemma SplitAt(s: seq<byte>, k: nat)
    requires k < |s| && s[k] == SLASH && forall i | 0 <= i < k :: s[i] != SLASH
    ensures Split(s) == [s[..k]] + Split(s[k + 1..])
  {
    SplitHead(s);
  }

  lemma SplitWhole(s: seq<byte>)
    requires SLASH !in s
    ensures Split(s) == [s]
  {
    SplitHead(s);
    if FirstSlash(s) < |s| {
      assert false;
    }
  }

  lemma {:induction false} SplitSegments(s: seq<byte>, t: seq<byte>)
    requires t in Split(s)
    ensures SLASH !in t && (NUL !in s ==> NUL !in t)
    decreases |s|
  {
    SplitHead(s);
    var k := FirstSlash(s);
    if k == |s| {
      assert s[..k] == s;
    } else if t != s[..k] {
      SplitSegments(s[k + 1..], t);
    }
  }

  lemma {:induction false} SplitJoin(terms: seq<Term>)
    requires |terms| >= 1
    requires forall t | t in terms :: SLASH !in t
    ensures Split(Join(terms)) == terms
  {
    var t := terms[0];
    if |terms| == 1 {
      SplitWhole(t);
    } else {
      SplitJoin(terms[1..]);
      var s := Join(terms);
      assert s[..|t|] == t && s[|t| + 1..] == Join(terms[1..]);
      forall i | 0 <= i < |t| ensures s[i] != SLASH {
        assert s[i] == t[i] && t in terms;
      }
      SplitAt(s, |t|);
    }
  }

  lemma {:induction false} SplitConcat(a: seq<byte>, b: seq<byte>)
    ensures Split(a + [SLASH] + b) == Split(a) + Split(b)
  {
    var s := a + [SLASH] + b;
    if a == [] {
      assert s[1..] == b;
    } else {
      SplitConcat(a[1..], b);
      assert s[1..] == a[1..] + [SLASH] + b;
      var x, y := Split(a[1..]), Split(b);
      SplitCons(a[0], s[1..], x, y);
      assert s == [a[0]] + s[1..];
    }
  }

  lemma SplitCons(c: byte, rest: seq<byte>, x: seq<seq<byte>>, y: seq<seq<byte>>)
    requires Split(rest) == x + y && |x| >= 1
    ensures Split([c] + rest) == (if c == SLASH then [[]] + x else [[c] + x[0]] + x[1..]) + y
  {
    assert ([c] + rest)[1..] == rest;
    assert (x + y)[0] == x[0] && (x + y)[1..] == x[1..] + y;
  }

  // ---- properties of the evaluation ----

  /** Names only pile up. */
  lemma {:induction false} EvalNames(segs: seq<seq<byte>>, stack: seq<Term>)
    requires |segs| >= 1 && forall t | t in segs :: IsName(t)
    ensures Eval(segs, stack) == Some(stack + segs)
  {
    assert segs[0] in segs;
    if |segs| > 1 {
      EvalNames(segs[1..], stack + [segs[0]]);
      assert stack + [segs[0]] + segs[1..] == stack + segs;
    } else {
      assert segs == [segs[0]];
    }
  }

  /** Names followed by more segments are pushed before the rest is evaluated. */
  lemma {:induction false} EvalNamesThen(names: seq<seq<byte>>, segs: seq<seq<byte>>, stack: seq<Term>)
    requires |segs| >= 1 && forall t | t in names :: IsName(t)
    ensures Eval(names + segs, stack) == Eval(segs, stack + names)
  {
    if names == [] {
      assert names + segs == segs && stack + names == stack;
    } else {
      assert names[0] in names;
      EvalNamesThen(names[1..], segs, stack + [names[0]]);
      assert (names + segs)[1..] == names[1..] + segs;
      assert stack + [names[0]] + names[1..] == stack + names;
    }
  }

  /** The terms of a result are segments of the input or were on the stack, and are names. */
  lemma {:induction false} EvalResult(segs: seq<seq<byte>>, stack: seq<Term>)
    requires |segs| >= 1 && Eval(segs, stack).Some?
    ensures forall t | t in Eval(segs, stack).value :: t in stack || (t in segs && IsName(t))
  {
    if |segs| > 1 {
      var t := segs[0];
      var next := if t == [] || t == [DOT] then stack
                  else if t == [DOT, DOT] then stack[..|stack| - 1] else stack + [t];
      EvalResult(segs[1..], next);
    }
  }

  lemma CanonicalIsClean(s: seq<byte>)
    requires NUL !in s && Canonical(s).Some?
    ensures Clean(Canonical(s).value)
  {
    EvalResult(Split(s), []);
    forall t | t in Canonical(s).value ensures SLASH !in t && NUL !in t {
      SplitSegments(s, t);
    }
  }

  /** The bytes of a list of terms, each followed by one slash. */
  function Path(terms: seq<Term>): seq<byte> {
    if terms == [] then [] else Path(terms[..|terms| - 1]) + terms[|terms| - 1] + [SLASH]
  }

  lemma PathPush(terms: seq<Term>, t: Term)
    ensures Path(terms + [t]) == Path(terms) + t + [SLASH]
  {
    assert (terms + [t])[..|terms|] == terms;
  }

  lemma {:induction false} PathCons(t: Term, terms: seq<Term>)
    ensures Path([t] + terms) == t + [SLASH] + Path(terms)
  {
    var all := [t] + terms;
    if terms == [] {
      assert all[..0] == [];
    } else {
      var init := terms[..|terms| - 1];
      assert all[..|all| - 1] == [t] + init;
      PathCons(t, init);
    }
  }

  lemma {:induction false} JoinPush(terms: seq<Term>, t: Term)
    ensures Join(terms + [t]) == Path(terms) + t
  {
    if terms != [] {
      var all := terms + [t];
      assert all[1..] == terms[1..] + [t];
      assert terms == [terms[0]] + terms[1..];
      JoinPush(terms[1..], t);
      PathCons(terms[0], terms[1..]);
    }
  }

  /** An identifier denotes its own segments exactly when all of them are names. */
  lemma CanonicalFixpoint(s: seq<byte>)
    ensures Canonical(s) == Some(Split(s)) <==> forall t | t in Split(s) :: IsName(t)
  {
    if forall t | t in Split(s) :: IsName(t) {
      assert Split(s)[0] in Split(s);
      EvalNames(Split(s), []);
      assert [] + Split(s) == Split(s);
    } else if Canonical(s) == Some(Split(s)) {
      EvalResult(Split(s), []);
    }
  }

  /** Joining a clean list of terms gives an identifier that denotes just that list. */
  lemma CanonicalJoin(terms: seq<Term>)
    requires |terms| >= 1 && Clean(terms)
    ensures Canonical(Join(terms)) == Some(terms)
  {
    SplitJoin(terms);
    CanonicalFixpoint(Join(terms));
  }

  lemma SplitUp(rel: seq<byte>)
    ensures Split([DOT, DOT, SLASH] + rel) == [[DOT, DOT]] + Split(rel)
  {
    var s := [DOT, DOT, SLASH] + rel;
    SplitAt(s, 2);
    assert s[3..] == rel && s[..2] == [DOT, DOT];
  }

  /** Splitting a relative identifier placed behind "base/../". */
  lemma SplitRelative(base: seq<Term>, rel: seq<byte>)
    requires |base| >= 1 && forall t | t in base :: SLASH !in t
    ensures Split(Join(base) + [SLASH, DOT, DOT, SLASH] + rel) == base + ([[DOT, DOT]] + Split(rel))
  {
    var tail := [DOT, DOT, SLASH] + rel;
    var b := Join(base);
    assert b + [SLASH, DOT, DOT, SLASH] + rel == b + [SLASH] + tail;
    SplitConcat(b, tail);
    SplitJoin(base);
    SplitUp(rel);
  }

  /** A leading ".." drops the top of the stack. */
  lemma EvalUp(segs: seq<seq<byte>>, stack: seq<Term>)
    requires |segs| >= 1 && |stack| >= 1
    ensures Eval([[DOT, DOT]] + segs, stack) == Eval(segs, stack[..|stack| - 1])
  {
    assert ([[DOT, DOT]] + segs)[1..] == segs;
  }

  /**
   * Evaluating a relative identifier behind "base/../" is evaluating it on the base's
   * terms without the last one.
   */
  lemma CanonicalRelative(base: seq<Term>, rel: seq<byte>)
    requires |base| >= 1 && Clean(base)
    ensures Canonical(Join(base) + [SLASH, DOT, DOT, SLASH] + rel)
         == Eval(Split(rel), base[..|base| - 1])
  {
    SplitRelative(base, rel);
    var segs := [[DOT, DOT]] + Split(rel);
    assert (base + segs)[0] == base[0] && base[0] in base;
    EvalNamesThen(base, segs, []);
    assert [] + base == base;
    EvalUp(Split(rel), base);
  }

  // ---- which identifiers are accepted, and which denote the same ----

  /** How many terms the segments leave above the stack, as far as they are accepted. */
  function Height(segs: seq<seq<byte>>): int {
    if segs == [] then 0
    else (if IsName(segs[0]) then 1 else if segs[0] == [DOT, DOT] then -1 else 0) + Height(segs[1..])
  }

  /** A segment that may stand before the last one. */
  predicate IsSegment(t: seq<byte>) {
    IsName(t) || t == [] || t == [DOT] || t == [DOT, DOT]
  }

  /** Every `..` finds a term to drop above the `depth` terms at the start. */
  ghost predicate StaysAbove(segs: seq<seq<byte>>, depth: nat) {
    forall k | 0 <= k <= |segs| :: depth + Height(segs[..k]) >= 0
  }

  lemma AboveFirst(segs: seq<seq<byte>>, depth: nat, depth': int)
    requires segs != [] && depth' == depth + Height(segs[..1])
    ensures StaysAbove(segs, depth) <==> depth' >= 0 && StaysAbove(segs[1..], depth')
  {
    var rest := segs[1..];
    assert segs[..1][1..] == [];
    forall k | 0 <= k <= |rest|
      ensures segs[..k + 1][0] == segs[0] && Height(segs[..k + 1]) == Height(segs[..1]) + Height(rest[..k])
    {
      assert segs[..k + 1][1..] == rest[..k];
    }
    if depth' >= 0 && StaysAbove(rest, depth') {
      forall k | 0 <= k <= |segs| ensures depth + Height(segs[..k]) >= 0 {
        if k == 0 {
          assert segs[..0] == [];
        } else {
          assert Height(segs[..k - 1 + 1]) == Height(segs[..1]) + Height(rest[..k - 1]);
        }
      }
    }
    if StaysAbove(segs, depth) {
      forall k | 0 <= k <= |rest| ensures depth' + Height(rest[..k]) >= 0 {
        assert depth + Height(segs[..k + 1]) >= 0;
      }
    }
  }

  /**
   * Segments are accepted exactly when the last one is a name, each other one is a name,
   * empty, `.` or `..`, and no `..` comes where nothing is left to drop. What is left then
   * has as many terms as names came in less those that were dropped.
   */
  lemma {:induction false} EvalAccepts(segs: seq<seq<byte>>, stack: seq<Term>)
    requires |segs| >= 1
    ensures Eval(segs, stack).Some? <==>
      && IsName(segs[|segs| - 1]) && (forall t | t in segs :: IsSegment(t)) && StaysAbove(segs, |stack|)
    ensures Eval(segs, stack).Some? ==> |Eval(segs, stack).value| == |stack| + Height(segs)
  {
    var t, rest := segs[0], segs[1..];
    assert segs == [t] + rest && segs[..1] == [t];
    assert segs[..1][1..] == rest[..0];
    var depth' := |stack| + Height(segs[..1]);
    AboveFirst(segs, |stack|, depth');
    if |segs| == 1 {
      assert rest == [];
      assert IsName(t) ==> StaysAbove(rest, depth');
    } else if depth' >= 0 && IsSegment(t) {
      var next := if IsName(t) then stack + [t] else if t == [DOT, DOT] then stack[..|stack| - 1] else stack;
      EvalAccepts(rest, next);
    }
  }

  /** The same of identifiers: not empty, no slash in front, and then as for segments. */
  lemma CanonicalAccepts(s: seq<byte>)
    ensures var segs := Split(s);
      Canonical(s).Some? <==>
        && segs[0] != [] && IsName(segs[|segs| - 1]) && (forall t | t in segs :: IsSegment(t)) && StaysAbove(segs, 0)
  {
    EvalAccepts(Split(s), []);
  }

  /** Segments in front do not tell endings apart that mean the same on every stack. */
  lemma {:induction false} EvalBehind(front: seq<seq<byte>>, a: seq<seq<byte>>, b: seq<seq<byte>>, stack: seq<Term>)
    requires |a| >= 1 && |b| >= 1 && forall st :: Eval(a, st) == Eval(b, st)
    ensures Eval(front + a, stack) == Eval(front + b, stack)
    decreases |front|
  {
    if front == [] {
      assert front + a == a && front + b == b;
    } else {
      var t, rest := front[0], front[1..];
      assert (front + a)[1..] == rest + a && (front + b)[1..] == rest + b;
      if t == [DOT, DOT] {
        if stack != [] {
          EvalBehind(rest, a, b, stack[..|stack| - 1]);
        }
      } else {
        EvalBehind(rest, a, b, if IsName(t) then stack + [t] else stack);
      }
    }
  }

  lemma SkipMeans(skip: seq<seq<byte>>, tail: seq<seq<byte>>, st: seq<Term>)
    requires |tail| >= 1
    requires skip == [[]] || skip == [[DOT]] || (|skip| == 2 && IsName(skip[0]) && skip[1] == [DOT, DOT])
    ensures Eval(skip + tail, st) == Eval(tail, st)
  {
    var all := skip + tail;
    if |skip| == 1 {
      assert all[1..] == tail;
    } else {
      assert all[1..][1..] == tail;
      assert (st + [skip[0]])[..|st|] == st;
    }
  }

  /** Between two texts, `//`, `/./` and a name with `..` behind it mean no more than one slash. */
  lemma CanonicalSkips(a: seq<byte>, skip: seq<byte>, b: seq<byte>)
    requires skip == [] || skip == [DOT]
      || exists n: Term :: IsName(n) && SLASH !in n && skip == n + [SLASH, DOT, DOT]
    ensures Canonical(a + [SLASH] + skip + [SLASH] + b) == Canonical(a + [SLASH] + b)
  {
    var front, tail, mid := Split(a), Split(b), Split(skip);
    assert a + [SLASH] + skip + [SLASH] + b == a + [SLASH] + (skip + [SLASH] + b);
    SplitConcat(skip, b);
    SplitConcat(a, skip + [SLASH] + b);
    SplitConcat(a, b);
    if skip == [] || skip == [DOT] {
      SplitWhole(skip);
    } else {
      var n: Term :| IsName(n) && SLASH !in n && skip == n + [SLASH, DOT, DOT];
      assert skip == n + [SLASH] + [DOT, DOT];
      SplitConcat(n, [DOT, DOT]);
      SplitWhole(n);
      SplitWhole([DOT, DOT]);
    }
    forall st ensures Eval(mid + tail, st) == Eval(tail, st) {
      SkipMeans(mid, tail, st);
    }
    EvalBehind(front, mid + tail, tail, []);
  }
}
