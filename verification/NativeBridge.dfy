/**
 * Arguments from JavaScript to Go: native_func_bridge lays them out in one allocation and
 * saves functions in the global object, callGoFunc reads them back.
 */
module NativeBridge {
  import opened Bytes
  import opened ArgFormat
  import opened ArgBlock
  import opened GlobalTable

  /**
   * A JavaScript argument as the encoder's switch sees it. `ptr` is where the bytes lie,
   * `t` the clock reading under which the function `f` is saved.
   */
  datatype JsArg =
    | Undefined
    | Null
    | Boolean(b: bool)
    | Number(bits: Word)
    | Text(len: Word, ptr: Word)
    | PlainBuffer(len: Word, ptr: Word)
    | Callback(f: nat, t: Clock)
    | BufferObject(len: Word, ptr: Word)
    | Other(isArray: bool, len: Word, ptr: Word)   // JSON text

  /** What callGoFunc makes of an argument, before it is fitted to the parameter type. */
  datatype GoArg =
    | ZeroValue
    | BoolValue(b: bool)
    | DoubleValue(bits: Word)
    | StringValue(len: Word, ptr: Word)
    | BytesValue(len: Word, ptr: Word)
    | JsonValue(len: Word, ptr: Word)
    | FuncValue(handle: Word)

  /** The value that should arrive. */
  function View(a: JsArg): GoArg {
    match a
    case Undefined => ZeroValue
    case Null => ZeroValue
    case Boolean(b) => BoolValue(b)
    case Number(bits) => DoubleValue(bits)
    case Text(len, ptr) => StringValue(len, ptr)
    case PlainBuffer(len, ptr) => BytesValue(len, ptr)
    case Callback(_, t) => FuncValue(HandleOf(t))
    case BufferObject(len, ptr) => BytesValue(len, ptr)
    case Other(_, len, ptr) => JsonValue(len, ptr)
  }

  function Views(args: seq<JsArg>): (r: seq<GoArg>)
    ensures |r| == |args| && forall i | 0 <= i < |args| :: r[i] == View(args[i])
  {
    seq(|args|, i requires 0 <= i < |args| => View(args[i]))
  }

  // ---- the encoding ----

  function TagOf(a: JsArg): (t: byte)
    ensures t != NUL
  {
    match a
    case Undefined => AF_NONE
    case Null => AF_NONE
    case Boolean(_) => AF_BOOL
    case Number(_) => AF_DOUBLE
    case Text(_, _) => AF_LSTRING
    case PlainBuffer(_, _) => AF_BUFFER
    case Callback(_, _) => AF_ECMAFUNC
    case BufferObject(_, _) => AF_BUFFER
    case Other(isArray, _, _) => if isArray then AF_JARRAY else AF_JOBJECT
  }

  function WordsOf(a: JsArg): (ws: seq<Word>)
    ensures 1 <= |ws| <= 2
  {
    match a
    case Undefined => [0]
    case Null => [0]
    case Boolean(b) => [if b then 1 else 0]
    case Number(bits) => [bits]
    case Text(len, ptr) => [len, ptr]
    case PlainBuffer(len, ptr) => [len, ptr]
    case Callback(_, t) => [HandleOf(t)]
    case BufferObject(len, ptr) => [len, ptr]
    case Other(_, len, ptr) => [len, ptr]
  }

  /** The words of all arguments, one after the other. */
  function AllWords(args: seq<JsArg>): (ws: seq<Word>)
    ensures |args| <= |ws| <= 2 * |args|
  {
    if args == [] then [] else AllWords(args[..|args| - 1]) + WordsOf(args[|args| - 1])
  }

  lemma AllWordsPush(args: seq<JsArg>, i: nat)
    requires i < |args|
    ensures AllWords(args[..i + 1]) == AllWords(args[..i]) + WordsOf(args[i])
  {
    assert args[..i + 1][..i] == args[..i];
  }

  /** The words of the first `i` arguments are a prefix of all words. */
  lemma {:induction false} AllWordsPrefix(args: seq<JsArg>, i: nat)
    requires i <= |args|
    ensures AllWords(args[..i]) <= AllWords(args)
    decreases |args| - i
  {
    if i == |args| {
      assert args[..i] == args;
    } else {
      AllWordsPush(args, i);
      AllWordsPrefix(args, i + 1);
    }
  }

  function Tags(args: seq<JsArg>): (ts: seq<byte>)
    ensures |ts| == |args| && forall i | 0 <= i < |args| :: ts[i] == TagOf(args[i])
  {
    seq(|args|, i requires 0 <= i < |args| => TagOf(args[i]))
  }

  /** The block holds the arguments. */
  ghost predicate Laid(p: Block, args: seq<JsArg>)
    reads p, p.mem
  {
    p.Valid() && p.n == |args| && AllWords(args) <= p.words && p.tags == Tags(args) + [NUL]
  }

  // ---- the functions saved on the way ----

  function SavesOf(a: JsArg): seq<Op> {
    if a.Callback? then [Save(a.t, a.f)] else []
  }

  /** The saves of a call, in the order of its arguments. */
  function Saves(args: seq<JsArg>): seq<Op> {
    if args == [] then [] else Saves(args[..|args| - 1]) + SavesOf(args[|args| - 1])
  }

  lemma SavesOne(m: Meaning, f: nat, t: Clock)
    ensures MeanAll(m, SavesOf(Callback(f, t))) == Mean(m, Save(t, f))
  {
    var none: seq<Op> := [];
    MeanPush(m, none, Save(t, f));
    assert none + [Save(t, f)] == [Save(t, f)];
  }

  lemma SavesPush(m: Meaning, args: seq<JsArg>, i: nat)
    requires i < |args|
    ensures MeanAll(m, Saves(args[..i + 1])) == MeanAll(MeanAll(m, Saves(args[..i])), SavesOf(args[i]))
  {
    assert args[..i + 1][..i] == args[..i];
    MeanConcat(m, Saves(args[..i]), SavesOf(args[i]));
  }

  // ---- the encoder ----

  /** Store the tag and the words of argument `i` at word index `j`: one turn of the argument loop. */
  method EncodeOne(g: Globals, p: Block, i: nat, j: nat, a: JsArg) returns (j': nat)
    requires g.Valid() && p.Valid() && i < p.n && j <= 2 * i
    modifies g`table, g`meaning, p, p.mem
    ensures g.Valid() && g.meaning == MeanAll(old(g.meaning), SavesOf(a))
    ensures p.Valid() && p.tags == old(p.tags)[i := TagOf(a)]
    ensures j' == j + |WordsOf(a)| <= 2 * (i + 1)
    ensures p.words == old(p.words)[..j] + WordsOf(a) + old(p.words)[j'..]
  {
    p.SetTag(i, TagOf(a));
    match a {
      case Undefined => j' := PutWord(p, j, 0);
      case Null => j' := PutWord(p, j, 0);
      case Boolean(b) => j' := PutWord(p, j, if b then 1 else 0);
      case Number(bits) => j' := PutWord(p, j, bits);
      case Text(len, ptr) => j' := PutPair(p, j, len, ptr);
      case PlainBuffer(len, ptr) => j' := PutPair(p, j, len, ptr);
      case Callback(f, t) =>
        SavesOne(g.meaning, f, t);
        var h := g.SaveTopObject(t, f);
        j' := PutWord(p, j, h);
      case BufferObject(len, ptr) => j' := PutPair(p, j, len, ptr);
      case Other(_, len, ptr) => j' := PutPair(p, j, len, ptr);
    }
  }

  /** args[j++] = w */
  method PutWord(p: Block, j: nat, w: Word) returns (j': nat)
    requires p.Valid() && j < 2 * p.n
    modifies p`words, p.mem
    ensures p.Valid() && j' == j + 1
    ensures p.words == old(p.words)[..j] + [w] + old(p.words)[j'..]
  {
    p.SetWord(j, w);
    j' := j + 1;
  }

  /** args[j+1] = ptr; args[j] = len; j += 2 */
  method PutPair(p: Block, j: nat, len: Word, ptr: Word) returns (j': nat)
    requires p.Valid() && j + 1 < 2 * p.n
    modifies p`words, p.mem
    ensures p.Valid() && j' == j + 2
    ensures p.words == old(p.words)[..j] + [len, ptr] + old(p.words)[j'..]
  {
    p.SetWord(j + 1, ptr);
    p.SetWord(j, len);
    j' := j + 2;
  }

  /** The tags and words of the first `i` arguments are in place; the next word goes to index `j`. */
  ghost predicate Partly(ws: seq<Word>, ts: seq<byte>, args: seq<JsArg>, i: nat, j: nat) {
    && i <= |args| && j <= 2 * i && |ws| == 2 * |args| && |ts| == |args| + 1
    && ws[..j] == AllWords(args[..i])
    && forall k | 0 <= k < i :: ts[k] == TagOf(args[k])
  }

  lemma PartlyNext(ws: seq<Word>, ts: seq<byte>, args: seq<JsArg>, i: nat, j: nat, ws': seq<Word>, j': nat)
    requires i < |args| && Partly(ws, ts, args, i, j) && j' == j + |WordsOf(args[i])| <= 2 * (i + 1)
    requires ws' == ws[..j] + WordsOf(args[i]) + ws[j'..]
    ensures Partly(ws', ts[i := TagOf(args[i])], args, i + 1, j')
  {
    AllWordsPush(args, i);
    assert ws'[..j'] == ws[..j] + WordsOf(args[i]);
  }

  lemma PartlyNone(ws: seq<Word>, ts: seq<byte>, args: seq<JsArg>)
    requires |ws| == 2 * |args| && |ts| == |args| + 1
    ensures Partly(ws, ts, args, 0, 0) && Saves(args[..0]) == []
  {
  }

  lemma PartlyAll(ws: seq<Word>, ts: seq<byte>, args: seq<JsArg>, j: nat)
    requires Partly(ws, ts, args, |args|, j)
    ensures AllWords(args) <= ws && ts[|args| := NUL] == Tags(args) + [NUL]
  {
    assert args[..|args|] == args;
    assert AllWords(args) == ws[..j];
    TagsAll(ts, args);
  }

  lemma TagsAll(ts: seq<byte>, args: seq<JsArg>)
    requires |ts| == |args| + 1 && forall k | 0 <= k < |args| :: ts[k] == TagOf(args[k])
    ensures ts[|args| := NUL] == Tags(args) + [NUL]
  {
  }

  /** One turn of the loop, seen on the whole list. */
  method EncodeNext(g: Globals, p: Block, args: seq<JsArg>, i: nat, j: nat, ghost m: Meaning) returns (j': nat)
    requires g.Valid() && p.Valid() && p.n == |args| && i < |args|
    requires Partly(p.words, p.tags, args, i, j) && g.meaning == MeanAll(m, Saves(args[..i]))
    modifies g`table, g`meaning, p, p.mem
    ensures g.Valid() && p.Valid()
    ensures Partly(p.words, p.tags, args, i + 1, j') && g.meaning == MeanAll(m, Saves(args[..i + 1]))
  {
    SavesPush(m, args, i);
    ghost var ws, ts := p.words, p.tags;
    j' := EncodeOne(g, p, i, j, args[i]);
    PartlyNext(ws, ts, args, i, j, p.words, j');
  }

  /** The argument loop of native_func_bridge. */
  method EncodeAll(g: Globals, p: Block, args: seq<JsArg>)
    requires g.Valid() && p.Valid() && p.n == |args|
    modifies g`table, g`meaning, p, p.mem
    ensures p.Valid() && AllWords(args) <= p.words && p.tags[p.n := NUL] == Tags(args) + [NUL]
    ensures g.Valid() && g.meaning == MeanAll(old(g.meaning), Saves(args))
  {
    var nargs := |args|;
    var i: nat, j: nat := 0, 0;
    PartlyNone(p.words, p.tags, args);
    while i < nargs
      invariant p.Valid() && Partly(p.words, p.tags, args, i, j)
      invariant g.Valid() && g.meaning == MeanAll(old(g.meaning), Saves(args[..i]))
    {
      j := EncodeNext(g, p, args, i, j, old(g.meaning));
      i := i + 1;
    }
    assert args[..nargs] == args;
    PartlyAll(p.words, p.tags, args, j);
  }

  /** The allocation, the argument loop and the NUL behind the tags. */
  method EncodeArgs(g: Globals, args: seq<JsArg>) returns (p: Block)
    requires g.Valid()
    modifies g`table, g`meaning
    ensures fresh(p) && fresh(p.mem) && Laid(p, args)
    ensures g.Valid() && g.meaning == MeanAll(old(g.meaning), Saves(args))
  {
    var nargs := |args|;
    p := new Block(nargs);
    EncodeAll(g, p, args);
    p.SetTag(nargs, NUL);
  }

  // ---- the decoder ----

  /** strlen of the tag string. */
  method TagLength(p: Block) returns (len: nat)
    requires p.Valid() && NUL in p.tags
    ensures len <= p.n && p.tags[len] == NUL && NUL !in p.tags[..len]
  {
    ghost var end :| 0 <= end < |p.tags| && p.tags[end] == NUL;
    len := 0;
    while true
      invariant len <= end && forall k | 0 <= k < len :: p.tags[k] != NUL
      decreases end - len
    {
      var t := p.GetTag(len);
      if t == NUL { break; }
      len := len + 1;
    }
  }

  /** One case of callGoFunc's switch: how many words the tag takes and what they mean. None is a panic. */
  function ReadArg(tag: byte, w: Word, w1: Word): Option<(GoArg, nat)> {
    if tag == AF_NONE then Some((ZeroValue, 1))
    else if tag == AF_BOOL then Some((BoolValue(w != 0), 1))
    else if tag == AF_DOUBLE then Some((DoubleValue(w), 1))
    else if tag == AF_LSTRING then Some((StringValue(w, w1), 2))
    else if tag == AF_BUFFER then Some((BytesValue(w, w1), 2))
    else if tag == AF_JOBJECT || tag == AF_JARRAY then Some((JsonValue(w, w1), 2))
    else if tag == AF_ECMAFUNC then Some((FuncValue(w), 1))
    else None
  }

  /** The tag and the words of one argument mean that argument. */
  lemma ReadsOne(a: JsArg, w: Word, w1: Word)
    requires w == WordsOf(a)[0] && (|WordsOf(a)| == 2 ==> w1 == WordsOf(a)[1])
    ensures ReadArg(TagOf(a), w, w1) == Some((View(a), |WordsOf(a)|))
  {
  }

  /** Where the words of argument `i` begin. */
  function WordIndex(args: seq<JsArg>, i: nat): nat
    requires i <= |args|
  {
    |AllWords(args[..i])|
  }

  /** The words of argument `i` lie where the first `i` arguments end, with room for two words there. */
  lemma OwnWords(args: seq<JsArg>, i: nat, ws: seq<Word>)
    requires i < |args| && AllWords(args) <= ws && |ws| == 2 * |args|
    ensures var j, own := WordIndex(args, i), WordsOf(args[i]);
      && j + 2 <= |ws| && j + |own| == WordIndex(args, i + 1)
      && ws[j] == own[0] && (|own| == 2 ==> ws[j + 1] == own[1])
  {
    AllWordsPush(args, i);
    AllWordsPrefix(args, i + 1);
    Within(ws, AllWords(args), AllWords(args[..i]), WordsOf(args[i]));
  }

  /** Argument `i` finds exactly its own words at the index where the first `i` arguments end. */
  lemma ReadsBack(args: seq<JsArg>, i: nat, ws: seq<Word>)
    requires i < |args| && AllWords(args) <= ws && |ws| == 2 * |args|
    ensures var j := WordIndex(args, i);
      && j + 2 <= |ws| && j + |WordsOf(args[i])| == WordIndex(args, i + 1)
      && ReadArg(TagOf(args[i]), ws[j], ws[j + 1]) == Some((View(args[i]), |WordsOf(args[i])|))
  {
    OwnWords(args, i, ws);
    var j := WordIndex(args, i);
    ReadsOne(args[i], ws[j], ws[j + 1]);
  }

  lemma Within(ws: seq<Word>, all: seq<Word>, before: seq<Word>, own: seq<Word>)
    requires all <= ws && before + own <= all && 1 <= |own| <= 2 && |before| + 2 <= |ws|
    ensures ws[|before|] == own[0] && (|own| == 2 ==> ws[|before| + 1] == own[1])
  {
    assert (before + own)[|before|] == all[|before|];
    assert |own| == 2 ==> (before + own)[|before| + 1] == all[|before| + 1];
  }

  /** One turn of the argument loop of callGoFunc. */
  method DecodeOne(p: Block, ghost args: seq<JsArg>, i: nat, j: nat) returns (v: GoArg, j': nat)
    requires Laid(p, args) && i < |args| && j == WordIndex(args, i)
    ensures v == View(args[i]) && j' == WordIndex(args, i + 1)
  {
    ReadsBack(args, i, p.words);
    var tag := p.GetTag(i);
    var w := p.GetWord(j);
    var w1 := p.GetWord(j + 1);
    var r := ReadArg(tag, w, w1);
    v, j' := r.value.0, j + r.value.1;
  }

  /** Fitting a decoded argument to its parameter: reflection decides, and may panic. */
  datatype Fit = Converts | Misfits | Panics

  /** What comes of a call: the function called with these arguments, nothing, or a panic. */
  datatype Invocation = Called(args: seq<GoArg>) | Refused | Panicked

  /** The first argument that does not fit decides; without one the function is called. */
  ghost predicate Invoked(views: seq<GoArg>, fit: (nat, GoArg) -> Fit, r: Invocation) {
    match r
    case Called(args) => args == views && forall i | 0 <= i < |views| :: fit(i, views[i]).Converts?
    case Refused => exists k: nat :: FirstMisfit(views, fit, k) && fit(k, views[k]).Misfits?
    case Panicked => exists k: nat :: FirstMisfit(views, fit, k) && fit(k, views[k]).Panics?
  }

  ghost predicate FirstMisfit(views: seq<GoArg>, fit: (nat, GoArg) -> Fit, k: nat) {
    k < |views| && !fit(k, views[k]).Converts? && forall i | 0 <= i < k :: fit(i, views[i]).Converts?
  }

  /** The first `i` arguments are decoded and fit. */
  ghost predicate FitUpTo(views: seq<GoArg>, fit: (nat, GoArg) -> Fit, argv: seq<GoArg>, i: nat) {
    i <= |views| && argv == views[..i] && forall k | 0 <= k < i :: fit(k, views[k]).Converts?
  }

  lemma FitNext(views: seq<GoArg>, fit: (nat, GoArg) -> Fit, argv: seq<GoArg>, i: nat)
    requires i < |views| && FitUpTo(views, fit, argv, i)
    ensures match fit(i, views[i])
      case Converts => FitUpTo(views, fit, argv + [views[i]], i + 1)
      case Misfits => Invoked(views, fit, Refused)
      case Panics => Invoked(views, fit, Panicked)
  {
    if !fit(i, views[i]).Converts? {
      assert FirstMisfit(views, fit, i);
    }
  }

  lemma FitAll(views: seq<GoArg>, fit: (nat, GoArg) -> Fit, argv: seq<GoArg>)
    requires FitUpTo(views, fit, argv, |views|)
    ensures Invoked(views, fit, Called(argv))
  {
  }

  /**
   * There is just one outcome: the function is called exactly when every argument fits, and
   * whatever stands behind the first one that does not fit has no say.
   */
  lemma InvokedIs(views: seq<GoArg>, more: seq<GoArg>, fit: (nat, GoArg) -> Fit, r: Invocation)
    requires Invoked(views, fit, r)
    ensures r.Called? <==> forall i | 0 <= i < |views| :: fit(i, views[i]).Converts?
    ensures forall r' | Invoked(views, fit, r') :: r' == r
    ensures !r.Called? ==> Invoked(views + more, fit, r)
  {
    forall r' | Invoked(views, fit, r') ensures r' == r {
      if !r.Called? && !r'.Called? {
        var k: nat :| FirstMisfit(views, fit, k) && (if r.Refused? then fit(k, views[k]).Misfits? else fit(k, views[k]).Panics?);
        var k': nat :| FirstMisfit(views, fit, k') && (if r'.Refused? then fit(k', views[k']).Misfits? else fit(k', views[k']).Panics?);
        assert k == k' || k < k' || k' < k;
      }
    }
    if !r.Called? {
      var k: nat :| FirstMisfit(views, fit, k) && (if r.Refused? then fit(k, views[k]).Misfits? else fit(k, views[k]).Panics?);
      assert FirstMisfit(views + more, fit, k);
    }
  }

  /** callGoFunc's check of the number of arguments. */
  predicate Accepts(params: nat, variadic: bool, nargs: nat) {
    if variadic then nargs + 1 >= params else nargs == params
  }

  /** What becomes of a call: nothing when the number of arguments is refused. */
  ghost predicate Bridged(args: seq<JsArg>, params: nat, variadic: bool, fit: (nat, GoArg) -> Fit, r: Invocation) {
    if Accepts(params, variadic, |args|) then Invoked(Views(args), fit, r) else r == Refused
  }

  /**
   * A variadic function with one argument for each parameter before the last takes any
   * number of further ones, none included, and sees them all.
   */
  lemma VariadicTakesRest(fixed: seq<JsArg>, rest: seq<JsArg>, fit: (nat, GoArg) -> Fit, r: Invocation)
    requires Bridged(fixed + rest, |fixed| + 1, true, fit, r)
    ensures Invoked(Views(fixed) + Views(rest), fit, r)
    ensures (forall i, v :: fit(i, v).Converts?) ==> r == Called(Views(fixed) + Views(rest))
  {
    assert Views(fixed + rest) == Views(fixed) + Views(rest);
    InvokedIs(Views(fixed) + Views(rest), [], fit, r);
  }

  /**
   * Arguments and parameters are matched one to one: a function that is not variadic is
   * called only with one argument for each parameter, a variadic one never with fewer than
   * there are parameters before its last. A list that is too short or too long calls nothing.
   */
  lemma ArityDecides(args: seq<JsArg>, params: nat, variadic: bool, fit: (nat, GoArg) -> Fit, r: Invocation)
    requires Bridged(args, params, variadic, fit, r)
    ensures !variadic && |args| == params ==> Invoked(Views(args), fit, r)
    ensures |args| + 1 < params || (!variadic && |args| != params) ==> r == Refused
    ensures r.Called? ==> r.args == Views(args) && (if variadic then |args| + 1 >= params else |args| == params)
  {
  }

  /** The argument loop of callGoFunc, given a block that holds `args`. */
  method DecodeArgs(p: Block, ghost args: seq<JsArg>, nargs: nat, fit: (nat, GoArg) -> Fit) returns (r: Invocation)
    requires Laid(p, args) && nargs == |args|
    ensures Invoked(Views(args), fit, r)
  {
    ghost var views := Views(args);
    var argv: seq<GoArg> := [];
    var i: nat, j: nat := 0, 0;
    while i < nargs
      invariant i <= nargs && j == WordIndex(args, i)
      invariant FitUpTo(views, fit, argv, i)
    {
      var v: GoArg;
      v, j := DecodeOne(p, args, i, j);
      FitNext(views, fit, argv, i);
      var f := fit(i, v);
      if !f.Converts? {
        return if f.Misfits? then Refused else Panicked;
      }
      argv := argv + [v];
      i := i + 1;
    }
    FitAll(views, fit, argv);
    r := Called(argv);
  }

  /** The first NUL of the tag string is the one behind the last tag. */
  lemma TagsEnd(args: seq<JsArg>, len: nat)
    requires len <= |args| && (Tags(args) + [NUL])[len] == NUL
    ensures len == |args|
  {
  }

  /**
   * A call of a Go function with `params` parameters: without arguments no block is made
   * and Go sees null pointers. The functions among the arguments are saved either way.
   */
  method BridgeCall(g: Globals, args: seq<JsArg>, params: nat, variadic: bool, fit: (nat, GoArg) -> Fit)
    returns (r: Invocation)
    requires g.Valid()
    modifies g`table, g`meaning
    ensures Bridged(args, params, variadic, fit, r)
    ensures g.Valid() && g.meaning == MeanAll(old(g.meaning), Saves(args))
  {
    if |args| == 0 {
      return if params == 0 || (variadic && params == 1) then Called([]) else Refused;
    }
    var p := EncodeArgs(g, args);
    var nargs := TagLength(p);
    TagsEnd(args, nargs);
    if variadic {
      if nargs < params - 1 {
        return Refused;
      }
    } else {
      if nargs != params {
        return Refused;
      }
    }
    r := DecodeArgs(p, args, nargs, fit);
  }

  // ---- callbacks ----

  /** The handle of a function argument gives a function that the call saved under it. */
  lemma {:induction false} SavedUnder(m: Meaning, args: seq<JsArg>, i: nat)
    requires i < |args| && args[i].Callback?
    ensures var h, live := HandleOf(args[i].t), MeanAll(m, Saves(args)).live;
      h in live && exists j :: 0 <= j < |args| && args[j].Callback? && HandleOf(args[j].t) == h && args[j].f == live[h]
    decreases |args|
  {
    var n := |args| - 1;
    var h, init, a := HandleOf(args[i].t), args[..n], args[n];
    assert args[..n + 1] == args;
    SavesPush(m, args, n);
    if a.Callback? {
      SavesOne(MeanAll(m, Saves(init)), a.f, a.t);
    }
    if !(a.Callback? && HandleOf(a.t) == h) {
      SavedUnder(m, init, i);
      var live := MeanAll(m, Saves(init)).live;
      var j :| 0 <= j < |init| && init[j].Callback? && HandleOf(init[j].t) == h && init[j].f == live[h];
      assert args[j] == init[j];
    }
  }

  /** Both arguments are functions, and the clock readings give them the same handle. */
  predicate SameHandle(args: seq<JsArg>, i: nat, j: nat) {
    i < j < |args| && args[i].Callback? && args[j].Callback? && HandleOf(args[i].t) == HandleOf(args[j].t)
  }

  /**
   * Every function among the arguments loads back from its handle as itself exactly when
   * no two different functions of the call are saved under one handle, that is, within
   * one microsecond of the clock.
   */
  lemma CallbacksArrive(m: Meaning, args: seq<JsArg>)
    ensures (forall i | 0 <= i < |args| && args[i].Callback? ::
               Keeps(MeanAll(m, Saves(args)), HandleOf(args[i].t), args[i].f))
       <==> (forall i: nat, j: nat | SameHandle(args, i, j) :: args[i].f == args[j].f)
  {
    if forall i: nat, j: nat | SameHandle(args, i, j) :: args[i].f == args[j].f {
      forall i | 0 <= i < |args| && args[i].Callback?
        ensures Keeps(MeanAll(m, Saves(args)), HandleOf(args[i].t), args[i].f)
      {
        SavedUnder(m, args, i);
        var h, live := HandleOf(args[i].t), MeanAll(m, Saves(args)).live;
        var j :| 0 <= j < |args| && args[j].Callback? && HandleOf(args[j].t) == h && args[j].f == live[h];
        assert SameHandle(args, i, j) || SameHandle(args, j, i) || i == j;
      }
    } else {
      var i: nat, j: nat :| SameHandle(args, i, j) && args[i].f != args[j].f;
      assert !Keeps(MeanAll(m, Saves(args)), HandleOf(args[i].t), args[i].f)
          || !Keeps(MeanAll(m, Saves(args)), HandleOf(args[j].t), args[j].f);
    }
  }

  /** Two callbacks in one call at one clock reading: Go gets the second function twice. */
  lemma TwoCallbacks(m: Meaning, t: Clock, f: nat, f': nat)
    ensures var args := [Callback(f, t), Callback(f', t)];
      && Views(args) == [FuncValue(HandleOf(t)), FuncValue(HandleOf(t))]
      && Keeps(MeanAll(m, Saves(args)), HandleOf(t), f')
  {
    var args := [Callback(f, t), Callback(f', t)];
    var one := args[..1];
    SavesPush(m, args, 1);
    assert args[..2] == args;
    SavesOne(MeanAll(m, Saves(one)), f', t);
  }
}
