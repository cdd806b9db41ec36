/**
 * Arguments from Go to JavaScript: parseArgs writes a tag string and a word array,
 * push_args_and_call_func reads them and pushes the values into the slots of the stack.
 */
module CallBridge {
  import opened Bytes
  import opened ArgFormat
  import opened Binary64
  import opened GlobalTable
  import NativeBridge

  type Int64Value = x: int | -0x8000_0000_0000_0000 <= x < 0x8000_0000_0000_0000
  type Uint64Value = x: int | 0 <= x < TWO_64
  type Uint16Value = x: int | 0 <= x < 0x1_0000
  type Int32Value = x: int | -0x8000_0000 <= x < 0x8000_0000

  /** The length of a Go string or slice. */
  type Length = x: int | 0 <= x < 0x8000_0000_0000_0000

  /**
   * A Go argument by the case of parseArg's type switch it falls into. `ptr` is where the
   * bytes lie; `text` is the marshalled JSON, None when marshalling failed.
   */
  datatype GoValue =
    | Nil
    | Bool(b: bool)
    | SmallInt(x: Int64Value)       // int, int8, int16, int32
    | BigInt(x: Int64Value)         // int64
    | SmallUint(u: Uint16Value)     // uint8, uint16
    | BigUint(u64: Uint64Value)     // uint, uint32, uint64
    | Float(bits: Word)             // float32, float64
    | Str(len: Length, ptr: Word)
    | ByteSlice(len: Length, ptr: Word)
    | Json(isArray: bool, text: Option<(Length, Word)>)
    | EcmaObject(handle: Word)
    | ErrorValue(len: Length, ptr: Word)
    | StructPointer(modKey: Word)

  /** The variables argType, val, p and pLen of parseArgs, reused for every argument. */
  datatype Registers = Registers(tag: byte, val: Word, p: Word, pLen: Word)

  const ZEROED := Registers(0, 0, 0, 0)

  /** The address of go_createEcmascriptObject. */
  const CREATE_OBJECT: Word := 1

  // ---- the encoder ----

  /** C.size_t(C.int(len)): the low 32 bits as a signed number, extended to 64 bits. */
  function SizeOf(len: Length): Word {
    Wrap64(Narrow32(len))
  }

  /** What parseArg leaves in the registers. */
  function Parse(a: GoValue, r: Registers): Registers {
    match a
    case Nil => r.(tag := AF_NONE, val := 0)
    case Bool(b) => r.(tag := AF_BOOL, val := if b then 1 else 0)
    case SmallInt(x) => r.(tag := AF_INT, val := Wrap64(x))
    case BigInt(x) => r.(tag := AF_DOUBLE, val := IntToDouble(x))
    case SmallUint(u) => r.(tag := AF_INT, val := u)
    case BigUint(u) => r.(tag := AF_DOUBLE, val := IntToDouble(u))
    case Float(bits) => r.(tag := AF_DOUBLE, val := bits)
    case Str(len, ptr) => r.(tag := AF_LSTRING, p := ptr, pLen := SizeOf(len))
    case ByteSlice(len, ptr) => r.(tag := AF_BUFFER, p := ptr, pLen := SizeOf(len))
    case Json(isArray, Some((len, ptr))) =>
      r.(tag := if isArray then AF_JARRAY else AF_JOBJECT, p := ptr, pLen := SizeOf(len))
    case Json(_, None) => r.(tag := AF_NONE, val := 0)
    case EcmaObject(h) => r.(tag := AF_ECMAFUNC, val := h)
    case ErrorValue(len, ptr) => r.(tag := AF_ERROR, p := ptr, pLen := SizeOf(len))
    case StructPointer(modKey) => r.(tag := AF_MOBJECT, p := CREATE_OBJECT, pLen := modKey)
  }

  /** The tags for which parseArgs writes pLen and p; for all others it writes val. */
  predicate TwoWords(tag: byte) {
    tag == AF_LSTRING || tag == AF_BUFFER || tag == AF_JOBJECT || tag == AF_JARRAY || tag == AF_MOBJECT
  }

  function WordsFrom(r: Registers): (ws: seq<Word>)
    ensures 1 <= |ws| <= 2
  {
    if TwoWords(r.tag) then [r.pLen, r.p] else [r.val]
  }

  function TagsOf(args: seq<GoValue>, r: Registers): (ts: seq<byte>)
    ensures |ts| == |args|
  {
    if args == [] then [] else [Parse(args[0], r).tag] + TagsOf(args[1..], Parse(args[0], r))
  }

  /** All words, argument after argument; the registers are carried along. */
  function WordsOf(args: seq<GoValue>, r: Registers): (ws: seq<Word>)
    ensures |args| <= |ws| <= 2 * |args|
  {
    if args == [] then [] else WordsFrom(Parse(args[0], r)) + WordsOf(args[1..], Parse(args[0], r))
  }

  /** The registers after all of `args`. */
  function RegistersAfter(args: seq<GoValue>, r: Registers): Registers {
    if args == [] then r else RegistersAfter(args[1..], Parse(args[0], r))
  }

  lemma {:induction false} EncodePush(args: seq<GoValue>, a: GoValue, r: Registers)
    ensures var r' := Parse(a, RegistersAfter(args, r));
      && RegistersAfter(args + [a], r) == r'
      && TagsOf(args + [a], r) == TagsOf(args, r) + [r'.tag]
      && WordsOf(args + [a], r) == WordsOf(args, r) + WordsFrom(r')
  {
    if args == [] {
      assert args + [a] == [a];
      assert [a][1..] == [];
    } else {
      assert (args + [a])[1..] == args[1..] + [a];
      EncodePush(args[1..], a, Parse(args[0], r));
    }
  }

  lemma EncodeNext(args: seq<GoValue>, i: nat, r: Registers)
    requires i < |args|
    ensures var r' := Parse(args[i], RegistersAfter(args[..i], r));
      && RegistersAfter(args[..i + 1], r) == r'
      && TagsOf(args[..i + 1], r) == TagsOf(args[..i], r) + [r'.tag]
      && WordsOf(args[..i + 1], r) == WordsOf(args[..i], r) + WordsFrom(r')
  {
    EncodePush(args[..i], args[i], r);
    assert args[..i + 1] == args[..i] + [args[i]];
  }

  /** parseArg, writing through its out-parameters. */
  method ParseArg(a: GoValue, r: Registers) returns (r': Registers)
    ensures r' == Parse(a, r)
  {
    var tag, val, p, pLen := r.tag, r.val, r.p, r.pLen;
    var len: int := 0;                        // C.int
    match a {
      case Nil => tag, val := AF_NONE, 0;
      case Bool(b) =>
        tag := AF_BOOL;
        if b { val := 1; } else { val := 0; }
      case SmallInt(x) => tag, val := AF_INT, Wrap64(x);
      case BigInt(x) => tag, val := AF_DOUBLE, IntToDouble(x);
      case SmallUint(u) => tag, val := AF_INT, u;
      case BigUint(u) => tag, val := AF_DOUBLE, IntToDouble(u);
      case Float(bits) => tag, val := AF_DOUBLE, bits;
      case Str(n, ptr) =>
        tag, p, len := AF_LSTRING, ptr, Narrow32(n);
        pLen := Wrap64(len);
      case ByteSlice(n, ptr) =>
        tag, p, len := AF_BUFFER, ptr, Narrow32(n);
        pLen := Wrap64(len);
      case Json(isArray, text) =>
        if text.Some? {
          p, len := text.value.1, Narrow32(text.value.0);
          tag := if isArray then AF_JARRAY else AF_JOBJECT;
          pLen := Wrap64(len);
        } else {
          tag, val := AF_NONE, 0;
        }
      case EcmaObject(h) => tag, val := AF_ECMAFUNC, h;
      case ErrorValue(n, ptr) =>
        tag, p, len := AF_ERROR, ptr, Narrow32(n);
        pLen := Wrap64(len);
      case StructPointer(modKey) => tag, p, pLen := AF_MOBJECT, CREATE_OBJECT, modKey;
    }
    r' := Registers(tag, val, p, pLen);
  }

  /** The switch of parseArgs' loop. */
  method StoreArg(argv: array<Word>, j: nat, r: Registers) returns (j': nat)
    requires j + 2 <= argv.Length
    modifies argv
    ensures j' == j + |WordsFrom(r)|
    ensures argv[..j'] == old(argv[..j]) + WordsFrom(r)
  {
    if r.tag == AF_LSTRING || r.tag == AF_BUFFER || r.tag == AF_JOBJECT || r.tag == AF_JARRAY || r.tag == AF_MOBJECT {
      argv[j] := r.pLen;
      argv[j + 1] := r.p;
      j' := j + 2;
    } else {
      argv[j] := r.val;
      j' := j + 1;
    }
  }

  /** The first `i` arguments are encoded, and leave `r` in the registers. */
  ghost predicate EncodedTo(ts: seq<byte>, ws: seq<Word>, args: seq<GoValue>, i: nat, j: nat, r: Registers) {
    && i <= |args| && |ts| == |args| + 1 && |ws| == 2 * |args| && j <= 2 * i
    && r == RegistersAfter(args[..i], ZEROED)
    && ws[..j] == WordsOf(args[..i], ZEROED)
    && ts[..i] == TagsOf(args[..i], ZEROED)
  }

  /** One turn of parseArgs' loop. */
  method EncodeArg(fmt: array<byte>, argv: array<Word>, args: seq<GoValue>, i: nat, j: nat, r: Registers)
    returns (r': Registers, j': nat)
    requires i < |args| && EncodedTo(fmt[..], argv[..], args, i, j, r)
    modifies fmt, argv
    ensures EncodedTo(fmt[..], argv[..], args, i + 1, j', r')
    ensures fmt[|args|] == old(fmt[|args|])
  {
    EncodeNext(args, i, ZEROED);
    r' := ParseArg(args[i], r);
    fmt[i] := r'.tag;
    j' := StoreArg(argv, j, r');
    assert argv[..][..j'] == argv[..j'] && fmt[..][..i + 1] == old(fmt[..])[..i] + [r'.tag];
  }

  /** parseArgs: n + 1 tag bytes and 2 * n words, of which a prefix is used. */
  method ParseArgs(args: seq<GoValue>) returns (fmt: array<byte>, argv: array<Word>)
    ensures fresh(fmt) && fresh(argv)
    ensures fmt[..] == TagsOf(args, ZEROED) + [NUL]
    ensures argv.Length == 2 * |args| && WordsOf(args, ZEROED) <= argv[..]
  {
    var nargs := |args|;
    fmt := new byte[nargs + 1];
    fmt[nargs] := NUL;
    argv := new Word[nargs * 2];
    var i: nat, j: nat := 0, 0;
    var r := ZEROED;
    while i < nargs
      invariant i <= nargs && fmt[nargs] == NUL && EncodedTo(fmt[..], argv[..], args, i, j, r)
    {
      r, j := EncodeArg(fmt, argv, args, i, j, r);
      i := i + 1;
    }
    assert args[..nargs] == args;
    assert fmt[..] == fmt[..nargs] + [NUL];
  }

  // ---- no leftovers ----

  /** The tag and words of an argument encoded with registers as parseArgs declares them. */
  function Alone(a: GoValue): (byte, seq<Word>) {
    (Parse(a, ZEROED).tag, WordsFrom(Parse(a, ZEROED)))
  }

  /**
   * The encoding of an argument depends on it alone exactly when it is no error: of an
   * error nothing but a left-over val is written.
   */
  lemma NoLeftovers(a: GoValue)
    ensures (forall r: Registers :: (Parse(a, r).tag, WordsFrom(Parse(a, r))) == Alone(a)) <==> !a.ErrorValue?
  {
    if a.ErrorValue? {
      var r := ZEROED.(val := 1);
      assert WordsFrom(Parse(a, r)) == [1];
    }
  }

  // ---- the decoder ----

  datatype JsValue =
    | JNull
    | JBoolean(b: bool)
    | JInt(x: Int32Value)
    | JNumber(bits: Word)
    | JText(len: Word, ptr: Word)
    | JSymbol(len: Word, ptr: Word)   // a string whose first byte makes it a symbol
    | JPlainBuffer(len: Word, ptr: Word)
    | JBuffer(len: Word, ptr: Word)
    | JInstance(modKey: Word)
    | JUndefined
    | JFunction(f: nat)
    | JError(len: Word, ptr: Word)    // an error object with its text
    | JOther(n: nat)                  // any other object

  /**
   * What the bridge depends on. `firstByte` is what a pointer points to. `live` are the saved
   * functions, and looking a handle up takes `lookup` slots beside the one its function ends
   * in. `parse` is what a JSON text decodes
   * to. Decoding it, and making an object for a struct pointer (when objects can be made at
   * all), starts with some free slots and leaves some, its value pushed; None is a throw.
   */
  datatype World = World(
    firstByte: Word -> byte, strlen: Word -> Word, live: map<nat, nat>, lookup: nat -> nat,
    parse: (Word, Word) -> Option<JsValue>, parsing: (Word, Word, nat) -> Option<nat>,
    canCreate: bool, making: (Word, nat) -> Option<nat>)

  /** DUK_HSTRING_MAX_BYTELEN, DUK_HBUFFER_MAX_BYTELEN: longer ones throw a RangeError. */
  const MAX_STRING: nat := 0x7FFF_FFFF
  const MAX_BUFFER: nat := 0x7FFF_FFFE

  /** Duktape takes a string that begins with one of these bytes for a symbol. */
  predicate IsSymbol(w: World, len: Word, ptr: Word) {
    len > 0 && var b := w.firstByte(ptr); b == 0x80 || b == 0x81 || b == 0x82 || b == 0xFF
  }

  /** What duk_push_lstring pushes. */
  function StringOf(w: World, len: Word, ptr: Word): JsValue {
    if IsSymbol(w, len, ptr) then JSymbol(len, ptr) else JText(len, ptr)
  }

  /** What load_object pushes. */
  function Saved(w: World, h: nat): JsValue {
    if h in w.live then JFunction(w.live[h]) else JUndefined
  }

  /** A value is pushed: the words it took, and the slots that are free above it. */
  datatype Read = Read(v: JsValue, words: nat, room: nat)

  /** Push `v`, which takes `extra` more slots on the way; a push beyond the reserve throws. */
  function Take(room: nat, extra: nat, v: JsValue, words: nat): Option<Read> {
    if room >= 1 + extra then Some(Read(v, words, room - 1)) else None
  }

  /** The value of an operation that manages its slots itself. */
  function Took(room: Option<nat>, v: JsValue, words: nat): Option<Read> {
    if room.Some? then Some(Read(v, words, room.value)) else None
  }

  /** One case of the switch with `room` free slots: what is pushed, or a throw. */
  function ReadC(w: World, room: nat, tag: byte, a: Word, b: Word): (r: Option<Read>)
    ensures r.Some? ==> 1 <= r.value.words <= 2
  {
    if tag == AF_NONE then Take(room, 0, JNull, 1)
    else if tag == AF_BOOL then Take(room, 0, JBoolean(Narrow32(a) != 0), 1)
    else if tag == AF_INT then Take(room, 0, JInt(Narrow32(a)), 1)
    else if tag == AF_DOUBLE then Take(room, 0, JNumber(a), 1)
    else if tag == AF_ZSTRING then
      if a == 0 then Take(room, 0, JNull, 1)
      else if w.strlen(a) <= MAX_STRING then Take(room, 0, StringOf(w, w.strlen(a), a), 1)
      else None
    else if tag == AF_LSTRING then (if a <= MAX_STRING then Take(room, 0, StringOf(w, a, b), 2) else None)
    else if tag == AF_ERROR then None
    else if tag == AF_BUFFER then
      if a <= MAX_BUFFER && !IsSymbol(w, a, b) then Take(room, 1, JBuffer(a, b), 2) else None
    else if tag == AF_ECMAFUNC then Take(room, w.lookup(a), Saved(w, a), 1)
    else if tag == AF_MOBJECT then
      if b == 0 || !w.canCreate then Take(room, 0, JUndefined, 2) else Took(w.making(a, room), JInstance(a), 2)
    else if a <= MAX_STRING && room >= 1 && w.parse(a, b).Some? then
      Took(w.parsing(a, b, room), w.parse(a, b).value, 2)
    else None
  }

  datatype Pushed = Values(vs: seq<JsValue>, room: nat) | Threw

  function Prepend(vs: seq<JsValue>, p: Pushed): Pushed {
    if p.Threw? then Threw else Values(vs + p.vs, p.room)
  }

  /** The whole loop: what is pushed for the tags, reading words from the front. */
  function Decode(w: World, room: nat, tags: seq<byte>, ws: seq<Word>): (p: Pushed)
    requires 2 * |tags| <= |ws|
    ensures p.Values? ==> |p.vs| == |tags|
    decreases |tags|
  {
    if tags == [] then Values([], room)
    else
      var r := ReadC(w, room, tags[0], ws[0], ws[1]);
      if r.None? then Threw else Prepend([r.value.v], Decode(w, r.value.room, tags[1..], ws[r.value.words..]))
  }

  // ---- the round trip ----

  /** The JavaScript value an argument should become. */
  function View(w: World, a: GoValue): JsValue {
    match a
    case Nil => JNull
    case Bool(b) => JBoolean(b)
    case SmallInt(x) => JInt(Narrow32(Wrap64(x)))
    case BigInt(x) => JNumber(IntToDouble(x))
    case SmallUint(u) => JInt(u)
    case BigUint(u) => JNumber(IntToDouble(u))
    case Float(bits) => JNumber(bits)
    case Str(len, ptr) => StringOf(w, SizeOf(len), ptr)
    case ByteSlice(len, ptr) => JBuffer(SizeOf(len), ptr)
    case Json(_, Some((len, ptr))) =>
      var v := w.parse(SizeOf(len), ptr);
      if v.Some? then v.value else JUndefined
    case Json(_, None) => JNull
    case EcmaObject(h) => Saved(w, h)
    case ErrorValue(_, _) => JUndefined
    case StructPointer(modKey) => if w.canCreate then JInstance(modKey) else JUndefined
  }

  function Views(w: World, args: seq<GoValue>): (vs: seq<JsValue>)
    ensures |vs| == |args|
  {
    if args == [] then [] else [View(w, args[0])] + Views(w, args[1..])
  }

  /**
   * The arguments whose values can cross: errors never can, lengths must be accepted, bytes
   * must not make a symbol on their way to a buffer, JSON must decode.
   */
  predicate Sound(w: World, a: GoValue) {
    match a
    case ErrorValue(_, _) => false
    case Str(len, _) => SizeOf(len) <= MAX_STRING
    case ByteSlice(len, ptr) => SizeOf(len) <= MAX_BUFFER && !IsSymbol(w, SizeOf(len), ptr)
    case Json(_, Some((len, ptr))) => SizeOf(len) <= MAX_STRING && w.parse(SizeOf(len), ptr).Some?
    case _ => true
  }

  function Slots(room: nat, extra: nat): Option<nat> {
    if room >= 1 + extra then Some(room - 1) else None
  }

  /** The slots left by an argument delivered into `room` free ones, None when it throws. */
  function Deliver(w: World, a: GoValue, room: nat): Option<nat> {
    if !Sound(w, a) then None
    else
      match a
      case ByteSlice(_, _) => Slots(room, 1)
      case EcmaObject(h) => Slots(room, w.lookup(h))
      case Json(_, Some((len, ptr))) => if room >= 1 then w.parsing(SizeOf(len), ptr, room) else None
      case StructPointer(modKey) => if w.canCreate then w.making(modKey, room) else Slots(room, 0)
      case _ => Slots(room, 0)
  }

  function DeliverAll(w: World, args: seq<GoValue>, room: nat): Option<nat> {
    if args == [] then Some(room)
    else
      var r := Deliver(w, args[0], room);
      if r.None? then None else DeliverAll(w, args[1..], r.value)
  }

  /** One argument: its tag and words are read as its value, or throw. */
  lemma ReadsOne(w: World, room: nat, a: GoValue, r: Registers, x: Word, y: Word)
    requires var ws := WordsFrom(Parse(a, r)); x == ws[0] && (|ws| == 2 ==> y == ws[1])
    ensures ReadC(w, room, Parse(a, r).tag, x, y) == Took(Deliver(w, a, room), View(w, a), |WordsFrom(Parse(a, r))|)
  {
    if TwoWords(Parse(a, r).tag) {
      ReadsPair(w, room, a, r, x, y);
    } else if a.SmallUint? {
      IntTagSurvives(a.u);
    }
  }

  lemma ReadsPair(w: World, room: nat, a: GoValue, r: Registers, x: Word, y: Word)
    requires TwoWords(Parse(a, r).tag) && [x, y] == WordsFrom(Parse(a, r))
    ensures ReadC(w, room, Parse(a, r).tag, x, y) == Took(Deliver(w, a, room), View(w, a), 2)
  {
    assert x == Parse(a, r).pLen && y == Parse(a, r).p;
  }

  /**
   * Whatever was left in the registers and in the unused words, the decoder pushes exactly
   * the values of the arguments in order when each can be delivered into the slots that the
   * ones before it left, and throws otherwise.
   */
  lemma {:induction false} GoToJsRoundTrip(w: World, args: seq<GoValue>, r: Registers, ws: seq<Word>, room: nat)
    requires WordsOf(args, r) <= ws && 2 * |args| <= |ws|
    ensures Decode(w, room, TagsOf(args, r), ws) ==
      var left := DeliverAll(w, args, room);
      if left.Some? then Values(Views(w, args), left.value) else Threw
  {
    if args != [] {
      var a, rest := args[0], args[1..];
      var r' := Parse(a, r);
      var own, more := WordsFrom(r'), WordsOf(rest, r');
      FirstWords(own, more, ws);
      ReadsOne(w, room, a, r, ws[0], ws[1]);
      var left := Deliver(w, a, room);
      if left.Some? {
        GoToJsRoundTrip(w, rest, r', ws[|own|..], left.value);
      }
    }
  }

  lemma FirstWords(own: seq<Word>, more: seq<Word>, ws: seq<Word>)
    requires 1 <= |own| <= 2 <= |ws| && own + more <= ws
    ensures ws[0] == own[0] && (|own| == 2 ==> ws[1] == own[1]) && more <= ws[|own|..]
  {
    assert (own + more)[0] == ws[0];
    assert |own| == 2 ==> (own + more)[1] == ws[1];
    assert (own + more)[|own|..] == more;
    assert ws[..|own + more|] == own + more;
    assert ws[|own|..][..|more|] == more;
  }

  /** An error argument loses its message: the words read for it are not its own. */
  lemma ErrorMessageLost(len: Length, ptr: Word)
    ensures WordsOf([Bool(true), ErrorValue(len, ptr)], ZEROED) == [1, 1]
  {
    var args := [Bool(true), ErrorValue(len, ptr)];
    assert args[1..] == [ErrorValue(len, ptr)];
    assert args[1..][1..] == [];
  }

  // ---- which integers arrive ----

  /** The JavaScript value is the integer `v`. */
  ghost predicate IsInteger(j: JsValue, v: int) {
    match j
    case JInt(x) => x == v
    case JNumber(bits) => StandsFor(bits, v)
    case _ => false
  }

  /** The integer an argument stands for. */
  function IntegerOf(a: GoValue): Option<int> {
    match a
    case SmallInt(x) => Some(x)
    case BigInt(x) => Some(x)
    case SmallUint(u) => Some(u)
    case BigUint(u) => Some(u)
    case _ => None
  }

  /**
   * An integer argument arrives unchanged exactly when: under the integer tag it fits 32
   * signed bits; under the double tag it is a multiple of the spacing of doubles at its
   * magnitude, as every integer up to 2 to the 53rd is.
   */
  lemma IntegersArrive(w: World, a: GoValue)
    requires IntegerOf(a).Some?
    ensures var v := IntegerOf(a).value;
      && (IsInteger(View(w, a), v) <==>
           if a.SmallInt? || a.SmallUint? then -0x8000_0000 <= v < 0x8000_0000
           else v == 0 || Abs(v) % Spacing(Abs(v)) == 0)
      && ((a.BigInt? || a.BigUint?) && Abs(v) <= 0x20_0000_0000_0000 ==> IsInteger(View(w, a), v))
  {
    var v := IntegerOf(a).value;
    if a.SmallInt? {
      IntTagSurvives(v);
    } else if a.BigInt? || a.BigUint? {
      DoubleTagSurvives(v);
      if Abs(v) <= 0x20_0000_0000_0000 {
        SurvivesTo53(v);
      }
    }
  }

  // ---- which texts arrive ----

  /** A length crosses unchanged, is refused as too long, or comes out shorter. */
  lemma SizeOfIs(len: Length)
    ensures SizeOf(len) == len <==> len <= MAX_STRING
    ensures SizeOf(len) <= MAX_STRING <==> len % 0x1_0000_0000 <= MAX_STRING
    ensures SizeOf(len) <= MAX_STRING ==> SizeOf(len) == len % 0x1_0000_0000
  {
    IntTagSurvives(Narrow32(len));
  }

  /**
   * A text arrives as itself exactly when it is shorter than 2 to the 31st bytes, does not
   * begin like a symbol, and a slot is free. A longer one throws, or is silently cut, by the
   * lower half of its length; one that begins like a symbol arrives as that symbol.
   */
  lemma TextsArrive(w: World, len: Length, ptr: Word, room: nat)
    ensures var fits := len % 0x1_0000_0000 <= MAX_STRING && room >= 1;
      var got, v := Deliver(w, Str(len, ptr), room).Some?, View(w, Str(len, ptr));
      && (got && v == JText(len, ptr) <==> len <= MAX_STRING && !IsSymbol(w, len, ptr) && room >= 1)
      && (got && v.JText? && v.len != len <==> fits && len > MAX_STRING && !IsSymbol(w, len % 0x1_0000_0000, ptr))
      && (got && v.JSymbol? <==> fits && IsSymbol(w, len % 0x1_0000_0000, ptr))
  {
    SizeOfIs(len);
  }

  /**
   * A byte slice likewise; it takes two slots, the longest length of a text is too long for
   * it, and one that begins like a symbol throws.
   */
  lemma BytesArrive(w: World, len: Length, ptr: Word, room: nat)
    ensures var got, v := Deliver(w, ByteSlice(len, ptr), room).Some?, View(w, ByteSlice(len, ptr));
      && (got && v == JBuffer(len, ptr) <==> len <= MAX_BUFFER && !IsSymbol(w, len, ptr) && room >= 2)
      && (got && v != JBuffer(len, ptr) <==>
           len > MAX_STRING && len % 0x1_0000_0000 <= MAX_BUFFER && !IsSymbol(w, len % 0x1_0000_0000, ptr) && room >= 2)
  {
    SizeOfIs(len);
  }

  /** The start of a JPEG file, or a UTF-16 byte order mark: the slice throws, however many slots are free. */
  lemma SymbolBytesThrow(w: World, len: Length, ptr: Word, room: nat)
    requires 0 < len <= MAX_BUFFER && w.firstByte(ptr) == 0xFF
    ensures DeliverAll(w, [ByteSlice(len, ptr)], room) == None
    ensures room >= 1 ==> DeliverAll(w, [Str(len, ptr)], room) == Some(room - 1)
    ensures View(w, Str(len, ptr)) == JSymbol(len, ptr)
  {
    SizeOfIs(len);
    assert [Str(len, ptr)][1..] == [];
  }

  // ---- what else arrives, or never does ----

  /** A list with an error among its values throws, whatever else is in it. */
  lemma {:induction false} ErrorsThrow(w: World, args: seq<GoValue>, i: nat, room: nat)
    requires i < |args| && args[i].ErrorValue?
    ensures DeliverAll(w, args, room) == None
    decreases i
  {
    if i > 0 && Deliver(w, args[0], room).Some? {
      ErrorsThrow(w, args[1..], i - 1, Deliver(w, args[0], room).value);
    }
  }

  /** A saved function arrives as itself exactly when its handle still gives it and its slots are free. */
  lemma FunctionsArrive(w: World, h: Word, f: nat, room: nat)
    ensures Deliver(w, EcmaObject(h), room).Some? && View(w, EcmaObject(h)) == JFunction(f) <==>
      h in w.live && w.live[h] == f && room >= 1 + w.lookup(h)
  {
  }

  /** A map or list arrives as what its JSON text decodes to, with the length cut like that of a text. */
  lemma ParsedArrive(w: World, isArray: bool, len: Length, ptr: Word, v: JsValue, room: nat)
    ensures var a, n := Json(isArray, Some((len, ptr))), len % 0x1_0000_0000;
      Deliver(w, a, room).Some? && View(w, a) == v <==>
        n <= MAX_STRING && room >= 1 && w.parse(n, ptr) == Some(v) && w.parsing(n, ptr, room).Some?
  {
    SizeOfIs(len);
  }

  /** Where objects can be made, two struct pointers arrive as one object exactly when they have one key; elsewhere as undefined. */
  lemma ObjectsArrive(w: World, k: Word, k': Word)
    ensures w.canCreate ==> (View(w, StructPointer(k)) == View(w, StructPointer(k')) <==> k == k')
    ensures w.canCreate ==> View(w, StructPointer(k)).JInstance?
    ensures !w.canCreate ==> View(w, StructPointer(k)) == JUndefined
  {
  }

  // ---- how many slots a list takes ----

  /** The slots an argument takes while it is pushed, when the bridge itself decides that. */
  function Need(w: World, a: GoValue): nat {
    match a
    case ByteSlice(_, _) => 2
    case EcmaObject(h) => 1 + w.lookup(h)
    case _ => 1
  }

  /** Neither JSON is decoded nor an object made for the argument. */
  predicate NeedsOnlySlots(w: World, a: GoValue) {
    !(a.Json? && a.text.Some?) && !(a.StructPointer? && w.canCreate)
  }

  ghost predicate AllSound(w: World, args: seq<GoValue>) {
    forall i | 0 <= i < |args| :: Sound(w, args[i])
  }

  /** Each argument finds the slots it takes above the ones before it. */
  ghost predicate SlotsFit(w: World, args: seq<GoValue>, room: nat) {
    forall i | 0 <= i < |args| :: i + Need(w, args[i]) <= room
  }

  /** Without JSON and objects, a list is delivered exactly when its values can cross and its slots are there. */
  lemma {:induction false} SlotsNeeded(w: World, args: seq<GoValue>, room: nat)
    requires forall i | 0 <= i < |args| :: NeedsOnlySlots(w, args[i])
    ensures DeliverAll(w, args, room) ==
      if AllSound(w, args) && SlotsFit(w, args, room) then Some(room - |args|) else None
    decreases |args|
  {
    if args != [] {
      var a, rest := args[0], args[1..];
      assert forall i | 0 <= i < |rest| :: rest[i] == args[i + 1];
      assert AllSound(w, args) <==> Sound(w, a) && AllSound(w, rest) by {
        assert forall i | 0 <= i < |args| :: args[i] == if i == 0 then a else rest[i - 1];
      }
      if Need(w, a) <= room {
        SlotsNeeded(w, rest, room - 1);
        FitSplit(w, args, room);
      }
    }
  }

  lemma FitSplit(w: World, args: seq<GoValue>, room: nat)
    requires args != [] && room >= 1
    ensures SlotsFit(w, args, room) <==> Need(w, args[0]) <= room && SlotsFit(w, args[1..], room - 1)
  {
    var rest := args[1..];
    assert forall i | 0 <= i < |rest| :: rest[i] == args[i + 1];
    if Need(w, args[0]) <= room && SlotsFit(w, rest, room - 1) {
      forall i | 0 <= i < |args| ensures i + Need(w, args[i]) <= room {
        assert i > 0 ==> args[i] == rest[i - 1];
      }
    }
  }

  /** Arguments that are pushed in one slot each. */
  predicate Plain(a: GoValue) {
    a.Nil? || a.Bool? || a.SmallInt? || a.BigInt? || a.SmallUint? || a.BigUint? || a.Float? || a.Str?
  }

  /** A list of nil, bool, number and text arguments goes through exactly when its texts can cross and it fits. */
  lemma PlainListsFit(w: World, args: seq<GoValue>, room: nat)
    requires forall i | 0 <= i < |args| :: Plain(args[i])
    ensures DeliverAll(w, args, room).Some? <==> AllSound(w, args) && |args| <= room
  {
    SlotsNeeded(w, args, room);
    if args != [] {
      var last := |args| - 1;
      assert SlotsFit(w, args, room) ==> last + Need(w, args[last]) <= room;
    }
  }

  /**
   * The function is called: its arguments are delivered, and a slot is left for the `this`
   * value, which the protected call pushes first.
   */
  predicate Reaches(w: World, args: seq<GoValue>, room: nat) {
    var left := DeliverAll(w, args, room);
    left.Some? && left.value >= 1
  }

  /** A call with nil, bool, number and text arguments reaches the function exactly when one more slot is free. */
  lemma PlainCallsReach(w: World, args: seq<GoValue>, room: nat)
    requires forall i | 0 <= i < |args| :: Plain(args[i])
    ensures Reaches(w, args, room) <==> AllSound(w, args) && |args| < room
  {
    PlainListsFit(w, args, room);
    SlotsNeeded(w, args, room);
  }

  /**
   * With the function alone on a stack of `n` slots: n - 2 nil arguments reach it, n - 1 are
   * pushed but the call is refused, and n throw.
   */
  lemma NilCalls(w: World, n: nat)
    requires n >= 2
    ensures Reaches(w, seq(n - 2, _ => Nil), n - 1)
    ensures DeliverAll(w, seq(n - 1, _ => Nil), n - 1) == Some(0) && !Reaches(w, seq(n - 1, _ => Nil), n - 1)
    ensures DeliverAll(w, seq(n, _ => Nil), n - 1) == None
  {
    PlainCallsReach(w, seq(n - 2, _ => Nil), n - 1);
    PlainListsFit(w, seq(n - 1, _ => Nil), n - 1);
    SlotsNeeded(w, seq(n - 1, _ => Nil), n - 1);
    PlainListsFit(w, seq(n, _ => Nil), n - 1);
  }

  /** With `spare` or more free slots the argument is delivered and keeps no more than one. */
  ghost predicate Steady(w: World, a: GoValue, spare: nat) {
    forall room: nat | room >= spare :: Deliver(w, a, room).Some? && Deliver(w, a, room).value >= room - 1
  }

  /** Any list arrives when there is a slot for each argument and enough to spare for the last. */
  lemma {:induction false} EnoughSlots(w: World, args: seq<GoValue>, spare: nat, room: nat)
    requires (forall i | 0 <= i < |args| :: Steady(w, args[i], spare)) && |args| + spare <= room + 1
    ensures DeliverAll(w, args, room).Some?
    decreases |args|
  {
    if args != [] {
      var rest := args[1..];
      assert forall i | 0 <= i < |rest| :: rest[i] == args[i + 1];
      EnoughSlots(w, rest, spare, Deliver(w, args[0], room).value);
    }
  }

  // ---- callbacks ----

  /**
   * Functions that a JavaScript call passed to Go come back as themselves when Go sends
   * them on, all of them exactly when no two different ones share a handle.
   */
  lemma CallbacksComeBack(w: World, m: Meaning, args: seq<NativeBridge.JsArg>)
    requires w.live == MeanAll(m, NativeBridge.Saves(args)).live
    ensures (forall i | 0 <= i < |args| && args[i].Callback? ::
               View(w, EcmaObject(HandleOf(args[i].t))) == JFunction(args[i].f))
       <==> (forall i: nat, j: nat | NativeBridge.SameHandle(args, i, j) :: args[i].f == args[j].f)
  {
    NativeBridge.CallbacksArrive(m, args);
    var m' := MeanAll(m, NativeBridge.Saves(args));
    forall i | 0 <= i < |args| && args[i].Callback?
      ensures View(w, EcmaObject(HandleOf(args[i].t))) == JFunction(args[i].f)
         <==> Keeps(m', HandleOf(args[i].t), args[i].f)
    {
      ComesBack(w, m', HandleOf(args[i].t), args[i].f);
    }
  }

  lemma ComesBack(w: World, m: Meaning, h: Word, f: nat)
    requires w.live == m.live
    ensures View(w, EcmaObject(h)) == JFunction(f) <==> Keeps(m, h, f)
  {
  }
}
