/**
 * Values that cross the bridge and come straight back: a JavaScript function that returns
 * one of its arguments to Go, and a Go function that passes its argument on to JavaScript.
 */
module Echo {
  import opened Bytes
  import opened Binary64
  import opened GlobalTable
  import opened CallBridge
  import opened CallStack
  import NativeBridge

  // ---- from Go to JavaScript and back ----

  /** What Go receives for its own argument, when `live` are the saved functions afterwards. */
  ghost predicate SameAgain(w: World, a: GoValue, live: map<nat, nat>, r: GoResult) {
    match a
    case Nil => r == ResNil
    case Bool(b) => r == ResBool(b)
    case SmallInt(x) => r.ResFloat? && (StandsFor(r.bits, x) <==> -0x8000_0000 <= x < 0x8000_0000)
    case SmallUint(u) => r.ResFloat? && StandsFor(r.bits, u)
    case BigInt(x) => r.ResFloat? && (StandsFor(r.bits, x) <==> x == 0 || Abs(x) % Spacing(Abs(x)) == 0)
    case BigUint(u) => r.ResFloat? && (StandsFor(r.bits, u) <==> u == 0 || u % Spacing(u) == 0)
    case Float(bits) => r == ResFloat(bits)
    case Str(len, ptr) => len <= MAX_STRING ==> r == ResString(len, ptr)
    case ByteSlice(len, ptr) => len <= MAX_BUFFER ==> r == ResBytes(len, ptr)
    case EcmaObject(h) =>
      if h in w.live then r.ResFunc? && r.handle in live && live[r.handle] == w.live[h] else r == ResNil
    case Json(_, None) => r == ResNil
    case StructPointer(_) => if w.canCreate then r.ResBytes? else r == ResNil
    case _ => true
  }

  /** The argument becomes a value whose hand-over takes no slot. */
  predicate Simple(w: World, a: GoValue) {
    match a
    case Json(_, text) => text.None?
    case EcmaObject(h) => h !in w.live
    case StructPointer(_) => !w.canCreate
    case _ => true
  }

  /** An integer that 32 bits hold is sent back as the double of just that integer. */
  lemma SmallIntBack(x: Int64Value)
    ensures StandsFor(IntToDouble(Narrow32(Wrap64(x))), x) <==> -0x8000_0000 <= x < 0x8000_0000
  {
    IntTagSurvives(x);
    var n := Narrow32(Wrap64(x));
    DoubleTagSurvives(n);
    SurvivesTo53(n);
    if StandsFor(IntToDouble(n), x) {
      StandsForOne(IntToDouble(n), n, x);
    }
  }

  /** A value that a Go argument became is that argument again when it is handed to Go. */
  lemma ReturnsItself(w: World, m: Meaning, a: GoValue, end: Ending)
    requires Sound(w, a) && end.value == View(w, a)
    ensures SameAgain(w, a, Meant(m, end).live, ResultOf(end))
  {
    match a
    case SmallInt(x) => SmallIntBack(x);
    case SmallUint(u) => DoubleTagSurvives(u); SurvivesTo53(u);
    case BigInt(x) => DoubleTagSurvives(x);
    case BigUint(u) => DoubleTagSurvives(u);
    case Str(len, ptr) => SizeOfIs(len);
    case ByteSlice(len, ptr) => SizeOfIs(len);
    case _ =>
  }

  /**
   * A whole call from Go whose function returns the value of argument `i`: the function was
   * called once, with all the values, and the caller gets status 0 and that argument again.
   * A result that takes no slot always gets through.
   */
  lemma CallEchoes(c: Context, w: World, args: seq<GoValue>, i: nat, room: nat, end: Ending, refusal: Ending,
                   before: seq<JsValue>, made: seq<Call>, m: Meaning, out: Outcome)
    requires |before| >= 1 && |c.stack| <= c.reserve && i < |args| && Sound(w, args[i]) && Reaches(w, args, room)
    requires end.success && end.value == View(w, args[i])
    requires c.Concluded(Values(Views(w, args), DeliverAll(w, args, room).value), end, refusal, before, made, m, out)
    ensures c.calls == made + [Call(before[|before| - 1], Views(w, args))]
    ensures Simple(w, args[i]) ==> out.Returned?
    ensures out.Returned? ==> out.rc == 0 && SameAgain(w, args[i], c.globals.meaning.live, out.res)
  {
    ReturnsItself(w, m, args[i], end);
  }

  /**
   * What else a call gives: the error that the function throws, with its text, and status
   * -2; the JSON text of an object; nothing for undefined; and -2 when the call was refused.
   * The function and its arguments are gone from the stack, and all below is as it was.
   */
  lemma OtherResults(c: Context, vs: seq<JsValue>, room: nat, end: Ending, refusal: Ending,
                     before: seq<JsValue>, made: seq<Call>, m: Meaning, out: Outcome)
    requires |before| >= 1 && |c.stack| <= c.reserve
    requires c.Concluded(Values(vs, room), end, refusal, before, made, m, out)
    ensures out.Returned? ==> c.stack == before[..|before| - 1]
    ensures out.Returned? ==> (out.rc == 0 <==> room >= 1 && end.success) && (out.rc != 0 ==> out.rc == -2)
    ensures room >= 1 && out.Returned? && end.value.JError? ==> out.res == ResError(end.value.len, end.value.ptr)
    ensures room >= 1 && out.Returned? && (end.value.JInstance? || end.value.JOther?) ==>
      end.encodes && out.res == ResBytes(end.json.1, end.json.2)
    ensures room >= 1 && end.value.JUndefined? ==> out == Returned(if end.success then 0 else -2, ResNil)
    ensures room == 0 ==> c.calls == made
    ensures room == 0 && out.Returned? && refusal.value.JError? ==>
      out.res == ResError(refusal.value.len, refusal.value.ptr)
  {
  }

  /** A list that cannot be delivered calls nothing, gives no result and saves no function. */
  lemma ThrowCallsNothing(c: Context, w: World, args: seq<GoValue>, room: nat, ws: seq<Word>, end: Ending, refusal: Ending,
                          before: seq<JsValue>, made: seq<Call>, m: Meaning, out: Outcome)
    requires |before| >= 1 && |c.stack| <= c.reserve && DeliverAll(w, args, room) == None
    requires WordsOf(args, ZEROED) <= ws && 2 * |args| <= |ws|
    requires c.Concluded(Decode(w, room, TagsOf(args, ZEROED), ws), end, refusal, before, made, m, out)
    ensures out == NotCalled && c.calls == made && before <= c.stack && c.globals.meaning == m
  {
    GoToJsRoundTrip(w, args, ZEROED, ws, room);
  }

  /**
   * A function that Go receives is saved: the handle gives that very function, also when Go
   * sends it back, and no other handle gives anything else than before.
   */
  lemma ReturnedFunction(w: World, m: Meaning, end: Ending, h: Word)
    requires ResultOf(end) == ResFunc(h)
    ensures end.value.JFunction? && Keeps(Meant(m, end), h, end.value.f)
    ensures w.live == Meant(m, end).live ==> View(w, EcmaObject(h)) == end.value
    ensures forall k | k != h :: k in Meant(m, end).live <==> k in m.live
    ensures forall k | k != h && k in m.live :: Meant(m, end).live[k] == m.live[k]
  {
  }

  // ---- from JavaScript to Go and back ----

  /** What a Go function that takes anything passes on when it hands its argument to JavaScript again. */
  function Sent(g: NativeBridge.GoArg): Option<GoValue> {
    match g
    case ZeroValue => Some(Nil)
    case BoolValue(b) => Some(Bool(b))
    case DoubleValue(bits) => Some(Float(bits))
    case StringValue(len, ptr) => if len <= MAX_STRING then Some(Str(len, ptr)) else None
    case BytesValue(len, ptr) => if len <= MAX_BUFFER then Some(ByteSlice(len, ptr)) else None
    case FuncValue(h) => Some(EcmaObject(h))
    case JsonValue(_, _) => None
  }

  /** The argument as the JavaScript value it is; undefined is taken for null, and buffers for buffer objects. */
  function Itself(w: World, a: NativeBridge.JsArg): Option<JsValue> {
    match a
    case Undefined => Some(JNull)
    case Null => Some(JNull)
    case Boolean(b) => Some(JBoolean(b))
    case Number(bits) => Some(JNumber(bits))
    case Text(len, ptr) =>
      if len > MAX_STRING then None else if IsSymbol(w, len, ptr) then Some(JSymbol(len, ptr)) else Some(JText(len, ptr))
    case PlainBuffer(len, ptr) => if len > MAX_BUFFER then None else Some(JBuffer(len, ptr))
    case BufferObject(len, ptr) => if len > MAX_BUFFER then None else Some(JBuffer(len, ptr))
    case Callback(f, _) => Some(JFunction(f))
    case Other(_, _, _) => None
  }

  /**
   * A JavaScript argument that Go passes on unchanged arrives as itself; a function does
   * exactly when its handle still gives it. Of any other object Go sees the JSON text.
   */
  lemma PassedOn(w: World, a: NativeBridge.JsArg)
    ensures Sent(NativeBridge.View(a)).Some? <==> Itself(w, a).Some?
    ensures a.Other? ==> NativeBridge.View(a) == NativeBridge.JsonValue(a.len, a.ptr)
    ensures Itself(w, a).Some? ==>
      (View(w, Sent(NativeBridge.View(a)).value) == Itself(w, a).value <==>
        (a.Callback? ==> HandleOf(a.t) in w.live && w.live[HandleOf(a.t)] == a.f))
  {
    match a
    case Text(len, ptr) => if len <= MAX_STRING { SizeOfIs(len); }
    case PlainBuffer(len, ptr) => if len <= MAX_BUFFER { SizeOfIs(len); }
    case BufferObject(len, ptr) => if len <= MAX_BUFFER { SizeOfIs(len); }
    case _ =>
  }
}
