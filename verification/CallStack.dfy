/**
 * push_args_and_call_func and what it calls, on the Duktape value stack with its reserve of
 * slots: arguments are pushed, the function is called, and its result goes back to Go.
 */
module CallStack {
  import opened Bytes
  import opened ArgFormat
  import opened Binary64
  import opened GlobalTable
  import opened CallBridge

  // ---- the way back of results ----

  datatype ResType = RtNone | RtBool | RtDouble | RtString | RtObject | RtBuffer | RtArray | RtFunc | RtError

  /** What call_result_callback hands to go_resultReceived. */
  datatype CResult = CResult(kind: ResType, res: Word, len: Word)

  /** The result in Go; texts and bytes are copied from `ptr`, the text of an error is not. */
  datatype GoResult =
    | ResNil
    | ResBool(b: bool)
    | ResFloat(bits: Word)
    | ResString(len: Word, ptr: Word)
    | ResFunc(handle: Word)
    | ResError(len: Word, ptr: Word)
    | ResBytes(len: Word, ptr: Word)

  /** go_resultReceived */
  function Receive(c: CResult): GoResult {
    match c.kind
    case RtNone => ResNil
    case RtBool => ResBool(c.res != 0)
    case RtDouble => ResFloat(c.res)
    case RtString => ResString(c.len, c.res)
    case RtFunc => ResFunc(c.res)
    case RtError => ResError(c.len, c.res)
    case _ => ResBytes(c.len, c.res)
  }

  /**
   * How the called function ends: its value or error; for an object, whether it can be
   * encoded, whether it is an array, and its JSON text; the reading at which a function is
   * saved; the junk in `len`. `handing` says what handing the value over makes of the free
   * slots, None when that throws.
   */
  datatype Ending = Ending(
    success: bool, value: JsValue, encodes: bool, json: (bool, Word, Word), t: Clock, junk: Word,
    handing: nat -> Option<nat>)

  /**
   * What a protected call gives, with `room` free slots: how the function ends, or, without a
   * slot for `this`, the error of the refused push.
   */
  function EndOf(end: Ending, refusal: Ending, room: nat): Ending {
    if room >= 1 then end else refusal.(success := false)
  }

  /** Values whose hand-over pushes nothing. */
  predicate Immediate(v: JsValue) {
    v.JNull? || v.JUndefined? || v.JBoolean? || v.JInt? || v.JNumber?
    || v.JText? || v.JSymbol? || v.JPlainBuffer? || v.JBuffer?
  }

  /** The slots that are free when the result was handed over, None when that throws. */
  function HandedOver(end: Ending, room: nat): Option<nat> {
    if Immediate(end.value) then Some(room)
    else if end.value.JFunction? then (if room >= 1 then end.handing(room) else None)
    else if end.value.JError? || end.encodes then end.handing(room)
    else None
  }

  /** The Go value a result should become; a function is saved at the clock reading. */
  function ResultOf(end: Ending): GoResult {
    match end.value
    case JNull => ResNil
    case JUndefined => ResNil
    case JBoolean(b) => ResBool(b)
    case JInt(x) => ResFloat(IntToDouble(x))
    case JNumber(bits) => ResFloat(bits)
    case JText(len, ptr) => ResString(len, ptr)
    case JSymbol(len, ptr) => ResString(len, ptr)
    case JPlainBuffer(len, ptr) => ResBytes(len, ptr)
    case JBuffer(len, ptr) => ResBytes(len, ptr)
    case JFunction(_) => ResFunc(HandleOf(end.t))
    case JError(len, ptr) => ResError(len, ptr)
    case _ => ResBytes(end.json.1, end.json.2)
  }

  /** What handing over a result does to the global object. */
  function Meant(m: Meaning, end: Ending): Meaning {
    if end.value.JFunction? then Mean(m, Save(end.t, end.value.f)) else m
  }

  /** The switch of call_result_callback for all but functions, and what it leaves on the top. */
  method ResultWords(end: Ending) returns (c: CResult, left: JsValue)
    requires !end.value.JFunction?
    ensures Receive(c) == ResultOf(end)
  {
    left := end.value;
    match end.value {
      case JNull => c := CResult(RtNone, 0, end.junk);
      case JUndefined => c := CResult(RtNone, 0, end.junk);
      case JBoolean(b) => c := CResult(RtBool, if b then 1 else 0, end.junk);
      case JInt(x) => c := CResult(RtDouble, IntToDouble(x), end.junk);
      case JNumber(bits) => c := CResult(RtDouble, bits, end.junk);
      case JText(len, ptr) => c := CResult(RtString, ptr, len);
      case JSymbol(len, ptr) => c := CResult(RtString, ptr, len);
      case JPlainBuffer(len, ptr) => c := CResult(RtBuffer, ptr, len);
      case JBuffer(len, ptr) => c := CResult(RtBuffer, ptr, len);
      case JError(len, ptr) => left, c := JText(len, ptr), CResult(RtError, ptr, len);
      case _ =>
        var (isArray, len, ptr) := end.json;
        left, c := JText(len, ptr), CResult(if isArray then RtArray else RtObject, ptr, len);
    }
  }

  /** The tags whose case reads one word. */
  predicate OneWord(tag: byte) {
    tag == AF_NONE || tag == AF_BOOL || tag == AF_INT || tag == AF_DOUBLE || tag == AF_ZSTRING || tag == AF_ECMAFUNC
  }

  // ---- the value stack ----

  datatype Call = Call(f: JsValue, args: seq<JsValue>)

  /** An argument threw, the result could not be handed over, or the status and the result. */
  datatype Outcome = NotCalled | ResultLost | Returned(rc: int, res: GoResult)

  /** The Duktape value stack, the slots reserved on it, the calls made to functions, and the global object. */
  class Context {
    const globals: Globals
    var stack: seq<JsValue>
    var reserve: nat
    var calls: seq<Call>

    constructor (g: Globals, slots: nat)
      ensures globals == g && stack == [] && reserve == slots && calls == []
    {
      globals, stack, reserve, calls := g, [], slots, [];
    }

    /** The stack is within its reserve, and the saved functions are those of the global object. */
    ghost predicate Valid(w: World)
      reads this, globals
    {
      |stack| <= reserve && globals.Valid() && w.live == globals.meaning.live
    }

    function Room(): nat
      requires |stack| <= reserve
      reads this
    {
      reserve - |stack|
    }

    /** The pushes of Duktape: beyond the reserve they throw. */
    method Push(v: JsValue) returns (ok: bool)
      requires |stack| <= reserve
      modifies this`stack
      ensures ok <==> |old(stack)| < reserve
      ensures stack == if ok then old(stack) + [v] else old(stack)
    {
      ok := |stack| < reserve;
      if ok {
        stack := stack + [v];
      }
    }

    method Pop()
      requires |stack| >= 1
      modifies this`stack
      ensures stack == old(stack)[..|old(stack)| - 1]
    {
      stack := stack[..|stack| - 1];
    }

    /**
     * push_lstring, to_buffer, push_buffer_object, remove(-2): one value in the end, two on
     * the way. to_buffer throws for a symbol.
     */
    method PushBuffer(len: Word, ptr: Word, w: World) returns (ok: bool)
      requires |stack| <= reserve
      modifies this`stack
      ensures ok <==> |old(stack)| + 2 <= reserve && !IsSymbol(w, len, ptr)
      ensures old(stack) <= stack && |stack| <= reserve
      ensures ok ==> stack == old(stack) + [JBuffer(len, ptr)]
    {
      ok := Push(StringOf(w, len, ptr));
      if ok && stack[|stack| - 1].JSymbol? {
        ok := false;
      }
      if ok {
        ok := Push(JPlainBuffer(len, ptr));
      }
      if ok {
        stack := stack[..|stack| - 2] + [stack[|stack| - 1]];   // the buffer replaces the text
        ok := Push(JBuffer(len, ptr));
        stack := stack[..|stack| - 2] + [stack[|stack| - 1]];
      }
    }

    /** load_object: the global object and the name are on the stack for a moment. */
    method PushSaved(h: nat, w: World) returns (ok: bool)
      requires Valid(w)
      modifies this`stack
      ensures ok <==> |old(stack)| + 1 + w.lookup(h) <= reserve
      ensures stack == if ok then old(stack) + [Saved(w, h)] else old(stack)
    {
      if Room() < 1 + w.lookup(h) {
        return false;
      }
      var v := globals.LoadObject(h);
      ok := Push(if v.Some? && v.value.Function? then JFunction(v.value.f) else JUndefined);
    }

    /** create_ecmascript_instance, or undefined in its place. */
    method PushInstance(modKey: Word, create: Word, w: World) returns (ok: bool)
      requires |stack| <= reserve
      modifies this`stack, this`reserve
      ensures |stack| <= reserve && old(stack) <= stack
      ensures var r := ReadC(w, old(reserve - |stack|), AF_MOBJECT, modKey, create);
        && (ok <==> r.Some?)
        && (ok ==> stack == old(stack) + [r.value.v] && Room() == r.value.room)
    {
      if create == 0 || !w.canCreate {
        ok := Push(JUndefined);
        return;
      }
      var made := w.making(modKey, Room());
      ok := made.Some?;
      if ok {
        stack := stack + [JInstance(modKey)];
        reserve := |stack| + made.value;
      }
    }

    /** push_lstring and json_decode: the text on the top is replaced by what it decodes to. */
    method PushParsed(len: Word, ptr: Word, w: World) returns (ok: bool)
      requires |stack| <= reserve
      modifies this`stack, this`reserve
      ensures |stack| <= reserve && old(stack) <= stack
      ensures var room := old(reserve - |stack|);
        ok <==> len <= MAX_STRING && room >= 1 && w.parse(len, ptr).Some? && w.parsing(len, ptr, room).Some?
      ensures ok ==>
        stack == old(stack) + [w.parse(len, ptr).value] && Room() == w.parsing(len, ptr, old(reserve - |stack|)).value
    {
      var room := Room();
      ok := len <= MAX_STRING;
      if ok {
        ok := Push(StringOf(w, len, ptr));
      }
      if ok {
        var v, left := w.parse(len, ptr), w.parsing(len, ptr, room);
        ok := v.Some? && left.Some?;
        if ok {
          stack := stack[..|stack| - 1] + [v.value];
          reserve := |stack| + left.value;
        }
      }
    }

    /** The cases that read one word. */
    method PushWord(w: World, tag: byte, a: Word, ghost b: Word) returns (ok: bool)
      requires Valid(w) && OneWord(tag)
      modifies this`stack
      ensures |stack| <= reserve && old(stack) <= stack
      ensures var r := ReadC(w, old(reserve - |stack|), tag, a, b);
        && (ok <==> r.Some?)
        && (ok ==> stack == old(stack) + [r.value.v] && Room() == r.value.room && r.value.words == 1)
    {
      ok := false;
      if tag == AF_NONE {
        ok := Push(JNull);
      } else if tag == AF_BOOL {
        ok := Push(JBoolean(Narrow32(a) != 0));
      } else if tag == AF_INT {
        ok := Push(JInt(Narrow32(a)));
      } else if tag == AF_DOUBLE {
        ok := Push(JNumber(a));
      } else if tag == AF_ZSTRING {
        if a == 0 {
          ok := Push(JNull);
        } else if w.strlen(a) <= MAX_STRING {
          ok := Push(StringOf(w, w.strlen(a), a));
        }
      } else {
        ok := PushSaved(a, w);
      }
    }

    /** The cases that read two words. */
    method PushPair(w: World, tag: byte, a: Word, b: Word) returns (ok: bool)
      requires Valid(w) && !OneWord(tag)
      modifies this`stack, this`reserve
      ensures |stack| <= reserve && old(stack) <= stack
      ensures var r := ReadC(w, old(reserve - |stack|), tag, a, b);
        && (ok <==> r.Some?)
        && (ok ==> stack == old(stack) + [r.value.v] && Room() == r.value.room && r.value.words == 2)
    {
      ok := false;
      if tag == AF_LSTRING {
        if a <= MAX_STRING {
          ok := Push(StringOf(w, a, b));
        }
      } else if tag == AF_ERROR {
      } else if tag == AF_BUFFER {
        if a <= MAX_BUFFER {
          ok := PushBuffer(a, b, w);
        }
      } else if tag == AF_MOBJECT {
        ok := PushInstance(a, b, w);
      } else {
        ok := PushParsed(a, b, w);
      }
    }

    /** One turn of the loop of push_args_and_call_func; on a throw the stack below is still there. */
    method PushOne(w: World, tag: byte, argv: array<Word>, i: nat) returns (ok: bool, i': nat)
      requires Valid(w) && i + 2 <= argv.Length
      modifies this`stack, this`reserve
      ensures |stack| <= reserve && old(stack) <= stack
      ensures var r := ReadC(w, old(reserve - |stack|), tag, argv[i], argv[i + 1]);
        && (ok <==> r.Some?)
        && (ok ==> stack == old(stack) + [r.value.v] && Room() == r.value.room && i' == i + r.value.words)
    {
      if OneWord(tag) {
        i' := i + 1;
        ok := PushWord(w, tag, argv[i], argv[i + 1]);
      } else {
        i' := i + 2;
        ok := PushPair(w, tag, argv[i], argv[i + 1]);
      }
    }

    /** push_null, copy and save_top_object: the function below is saved, and the copy popped. */
    method SaveCopy(t: Clock) returns (h: Word)
      requires globals.Valid() && 1 <= |stack| < reserve && stack[|stack| - 1].JFunction?
      modifies this`stack, globals`table, globals`meaning
      ensures globals.Valid() && globals.meaning == Mean(old(globals.meaning), Save(t, old(stack)[|old(stack)| - 1].f))
      ensures h == HandleOf(t) && stack == old(stack)
    {
      var ok := Push(JNull);
      stack := stack[..|stack| - 1] + [stack[|stack| - 2]];
      h := globals.SaveTopObject(t, stack[|stack| - 1].f);
      Pop();
    }

    /**
     * call_result_callback: what Go receives is the value on the top, a function is saved,
     * and the stack keeps its height; None is a throw.
     */
    method ResultCallback(end: Ending) returns (c: Option<CResult>)
      requires globals.Valid() && 1 <= |stack| <= reserve && stack[|stack| - 1] == end.value
      modifies this`stack, this`reserve, globals`table, globals`meaning
      ensures |stack| == |old(stack)| <= reserve && stack[..|stack| - 1] == old(stack)[..|old(stack)| - 1]
      ensures globals.Valid()
      ensures match HandedOver(end, old(reserve - |stack|))
        case None => c == None && globals.meaning == old(globals.meaning)
        case Some(room) =>
          && c.Some? && Receive(c.value) == ResultOf(end) && Room() == room
          && globals.meaning == Meant(old(globals.meaning), end)
    {
      var left := HandedOver(end, Room());
      if left.None? {
        return None;
      }
      if end.value.JFunction? {
        var h := SaveCopy(end.t);
        c := Some(CResult(RtFunc, h, end.junk));
      } else {
        var words, top := ResultWords(end);
        c := Some(words);
        stack := stack[..|stack| - 1] + [top];
      }
      reserve := |stack| + left.value;
    }

    /**
     * duk_pcall: `this` is pushed, and the function is called. Without a slot for that the
     * protected call fails at once. Either way a value replaces the function and its arguments.
     */
    method ProtectedCall(argc: nat, end: Ending, refusal: Ending) returns (done: Ending)
      requires argc + 1 <= |stack| <= reserve
      modifies this`stack, this`calls
      ensures done == EndOf(end, refusal, old(reserve - |stack|))
      ensures stack == old(stack)[..|old(stack)| - argc - 1] + [done.value]
      ensures calls == if |old(stack)| < reserve
        then old(calls) + [Call(old(stack)[|old(stack)| - argc - 1], old(stack)[|old(stack)| - argc..])] else old(calls)
    {
      var f, args := stack[|stack| - argc - 1], stack[|stack| - argc..];
      var below := stack[..|stack| - argc - 1];
      var ok := Push(JUndefined);
      if ok {
        calls := calls + [Call(f, args)];
      }
      done := if ok then end else refusal.(success := false);
      stack := below + [done.value];
    }

    /** call_func: the function and its arguments are replaced by the result, which Go receives and which is popped. */
    method CallFunc(argc: nat, end: Ending, refusal: Ending) returns (out: Outcome)
      requires globals.Valid() && argc + 1 <= |stack| <= reserve
      modifies this, globals`table, globals`meaning
      ensures globals.Valid() && |stack| <= reserve
      ensures Concluded(Values(old(stack)[|old(stack)| - argc..], old(reserve - |stack|)), end, refusal,
                        old(stack)[..|old(stack)| - argc], old(calls), old(globals.meaning), out)
    {
      var done := ProtectedCall(argc, end, refusal);
      var c := ResultCallback(done);
      if c.None? {
        return ResultLost;
      }
      Pop();
      out := Returned(if done.success then 0 else -2, Receive(c.value));
    }

    /** One turn of the loop, seen on the whole tag string. */
    method PushNext(w: World, tag: byte, argv: array<Word>, ghost tags: seq<byte>, ghost n: nat, i: nat,
                    ghost vs: seq<JsValue>, ghost below: seq<JsValue>, ghost room: nat)
      returns (ok: bool, i': nat, ghost vs': seq<JsValue>)
      requires Valid(w) && stack == below + vs && DecodedTo(w, room, tags, argv[..], n, i, vs, reserve - |stack|)
      requires n < |tags| && tag == tags[n]
      modifies this`stack, this`reserve
      ensures |stack| <= reserve && below <= stack
      ensures if ok then stack == below + vs' && DecodedTo(w, room, tags, argv[..], n + 1, i', vs', reserve - |stack|)
              else Decode(w, room, tags, argv[..]) == Threw
    {
      ghost var ws := argv[..];
      DecodeTurn(w, room, tags, ws, n, i, vs, reserve - |stack|);
      ghost var r := ReadC(w, reserve - |stack|, tag, ws[i], ws[i + 1]);
      vs' := if r.Some? then vs + [r.value.v] else vs;
      ghost var next := if r.Some? then i + r.value.words else i;
      assert r.Some? ==> DecodedTo(w, room, tags, ws, n + 1, next, vs', r.value.room);
      ok, i' := PushOne(w, tag, argv, i);
      assert argv[..] == ws && (ok ==> i' == next && reserve - |stack| == r.value.room);
    }

    /** The loop of push_args_and_call_func: None is a throw. */
    method PushArgs(w: World, fmt: array<byte>, argv: array<Word>, ghost tags: seq<byte>) returns (argc: Option<nat>)
      requires Valid(w)
      requires fmt[..] == tags + [NUL] && (forall k | 0 <= k < |tags| :: tags[k] != NUL) && 2 * |tags| <= argv.Length
      modifies this`stack, this`reserve
      ensures |stack| <= reserve && old(stack) <= stack
      ensures match Decode(w, old(reserve - |stack|), tags, argv[..])
        case Values(vs, room) => argc == Some(|vs|) && stack == old(stack) + vs && reserve - |stack| == room
        case Threw => argc == None
    {
      ghost var vs: seq<JsValue> := [];
      var n: nat, i: nat := 0, 0;
      DecodeStart(w, reserve - |stack|, tags, argv[..]);
      while fmt[n] != NUL
        invariant |stack| <= reserve && stack == old(stack) + vs
        invariant DecodedTo(w, old(reserve - |stack|), tags, argv[..], n, i, vs, reserve - |stack|)
        decreases |tags| - n
      {
        assert fmt[n] == fmt[..][n];
        var ok: bool;
        ok, i, vs := PushNext(w, fmt[n], argv, tags, n, i, vs, old(stack), old(reserve - |stack|));
        if !ok {
          return None;
        }
        n := n + 1;
      }
      assert fmt[..][n] == NUL;
      DecodeEnd(w, old(reserve - |stack|), tags, argv[..], i, vs, reserve - |stack|);
      argc := Some(n);
    }

    /** push_args_and_call_func */
    method PushArgsAndCall(w: World, fmt: array<byte>, argv: array<Word>, ghost tags: seq<byte>,
                           end: Ending, refusal: Ending)
      returns (out: Outcome)
      requires Valid(w) && |stack| >= 1
      requires fmt[..] == tags + [NUL] && (forall k | 0 <= k < |tags| :: tags[k] != NUL) && 2 * |tags| <= argv.Length
      modifies this, globals`table, globals`meaning
      ensures globals.Valid() && |stack| <= reserve
      ensures Concluded(Decode(w, old(reserve - |stack|), tags, argv[..]), end, refusal,
                        old(stack), old(calls), old(globals.meaning), out)
    {
      var argc: nat := 0;
      if fmt[0] == NUL {
        assert fmt[..][0] == NUL;
        assert stack[|stack|..] == [];
      } else {
        var pushed := PushArgs(w, fmt, argv, tags);
        if pushed.None? {
          return NotCalled;
        }
        argc := pushed.value;
      }
      out := CallFunc(argc, end, refusal);
    }

    /**
     * Where a call with the function on the top of `before` ends. When every argument was
     * pushed and a slot was left, the function was called once, with these values; without
     * that slot it was not, and `refusal` is what comes of it. When the result could be
     * handed over, Go has it and the stack below the function is back as it was. A throw
     * leaves the stack below, for whoever catches it.
     */
    ghost predicate Concluded(p: Pushed, end: Ending, refusal: Ending,
                              before: seq<JsValue>, made: seq<Call>, m: Meaning, out: Outcome)
      requires |before| >= 1 && |stack| <= reserve
      reads this, globals
    {
      var below := before[..|before| - 1];
      match p
      case Threw => out == NotCalled && calls == made && before <= stack && globals.meaning == m
      case Values(vs, room) =>
        var done := EndOf(end, refusal, room);
        && calls == (if room >= 1 then made + [Call(before[|before| - 1], vs)] else made)
        && match HandedOver(done, room + |vs|)
           case None => out == ResultLost && below <= stack && globals.meaning == m
           case Some(left) =>
             && out == Returned(if done.success then 0 else -2, ResultOf(done))
             && stack == below && Room() == left + 1 && globals.meaning == Meant(m, done)
    }

    /**
     * JSEnv.CallFunc and its like, with the function on the top of the stack: it is called
     * once, with exactly the arguments' values in order, when all of them can be delivered
     * into the free slots and one more slot is left, and otherwise not at all.
     */
    method GoCall(w: World, args: seq<GoValue>, end: Ending, refusal: Ending) returns (out: Outcome)
      requires Valid(w) && |stack| >= 1
      modifies this, globals`table, globals`meaning
      ensures globals.Valid() && |stack| <= reserve
      ensures var left := DeliverAll(w, args, old(reserve - |stack|));
        Concluded(if left.Some? then Values(Views(w, args), left.value) else Threw, end, refusal,
                  old(stack), old(calls), old(globals.meaning), out)
      ensures calls ==
        if Reaches(w, args, old(reserve - |stack|))
        then old(calls) + [Call(old(stack)[|old(stack)| - 1], Views(w, args))] else old(calls)
    {
      var fmt, argv := ParseArgs(args);
      TagsNotNul(args, ZEROED);
      GoToJsRoundTrip(w, args, ZEROED, argv[..], Room());
      out := PushArgsAndCall(w, fmt, argv, TagsOf(args, ZEROED), end, refusal);
    }
  }

  lemma {:induction false} TagsNotNul(args: seq<GoValue>, r: Registers)
    ensures forall k | 0 <= k < |args| :: TagsOf(args, r)[k] != NUL
  {
    if args != [] {
      TagsNotNul(args[1..], Parse(args[0], r));
    }
  }

  /**
   * With `room` free slots the first `n` tags are decoded to `vs`, the words from `i` on
   * belong to the others, and `left` slots are free for them.
   */
  ghost predicate DecodedTo(w: World, room: nat, tags: seq<byte>, ws: seq<Word>, n: nat, i: nat, vs: seq<JsValue>, left: nat) {
    && n <= |tags| && i <= |ws| && 2 * (|tags| - n) <= |ws| - i && 2 * |tags| <= |ws| && |vs| == n
    && Decode(w, room, tags, ws) == Prepend(vs, Decode(w, left, tags[n..], ws[i..]))
  }

  lemma DecodeStart(w: World, room: nat, tags: seq<byte>, ws: seq<Word>)
    requires 2 * |tags| <= |ws|
    ensures DecodedTo(w, room, tags, ws, 0, 0, [], room)
  {
    assert tags[0..] == tags && ws[0..] == ws;
    var p := Decode(w, room, tags, ws);
    assert p.Values? ==> [] + p.vs == p.vs;
  }

  lemma DecodeEnd(w: World, room: nat, tags: seq<byte>, ws: seq<Word>, i: nat, vs: seq<JsValue>, left: nat)
    requires DecodedTo(w, room, tags, ws, |tags|, i, vs, left)
    ensures Decode(w, room, tags, ws) == Values(vs, left)
  {
    assert tags[|tags|..] == [];
    assert vs + [] == vs;
  }

  /** One turn of the decoding loop, seen from the front. */
  lemma DecodeTurn(w: World, room: nat, tags: seq<byte>, ws: seq<Word>, n: nat, i: nat, vs: seq<JsValue>, left: nat)
    requires n < |tags| && DecodedTo(w, room, tags, ws, n, i, vs, left)
    ensures i + 2 <= |ws|
    ensures var r := ReadC(w, left, tags[n], ws[i], ws[i + 1]);
      if r.None? then Decode(w, room, tags, ws) == Threw
      else DecodedTo(w, room, tags, ws, n + 1, i + r.value.words, vs + [r.value.v], r.value.room)
  {
    assert tags[n..][1..] == tags[n + 1..];
    var r := ReadC(w, left, tags[n], ws[i], ws[i + 1]);
    if r.Some? {
      assert ws[i..][r.value.words..] == ws[i + r.value.words..];
      var more := Decode(w, r.value.room, tags[n + 1..], ws[i + r.value.words..]);
      if more.Values? {
        assert vs + ([r.value.v] + more.vs) == vs + [r.value.v] + more.vs;
      }
    }
  }
}
