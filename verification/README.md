# Duktape bridge: a verified model

This project models the parts of the Duktape bridge for Go in which state, order and
layout matter, and proves what they keep.

- **Module ids** (`Bytes.dfy`, `TermStack.dfy`, `Resolver.dfy`). What an identifier means is a
  small evaluator on a stack of terms. The resolver of the C code, two pointers over one
  buffer that overwrite their own input, is proved to compute it on all inputs.
- **Module loading** (`Loading.dfy`, `LoadStages.dfy`, `LoadTrace.dfy`, `RequireMachine.dfy`). `require` is
  re-entrant: the search callback and the module code may request, catch, retry and assign
  `module.exports`. Such code is a finite interactive script whose next action may depend on
  all earlier outcomes, and what the search finds may change from one load to the next. Which code
  a request runs, in which order, and what decides its outcome is told from outside. Every run is
  proved to leave a legal log, and legal logs to keep the promises of the cache. The C function on
  its value stack computes just these runs.
- **Arguments** (`ArgFormat.dfy`, `ArgBlock.dfy`, `NativeBridge.dfy`, `Binary64.dfy`,
  `CallBridge.dfy`, `CallStack.dfy`, `Echo.dfy`). Both encoders and both decoders, down to the bytes of the
  allocation and the bits of converted integers. From JavaScript to Go each list round-trips,
  whatever its length; from Go to JavaScript exactly those do whose values can cross and for which
  the value stack has slots. The C code on that stack is proved to compute this. A value that crosses
  and comes straight back, either way, is proved to be what it was, or exactly when it is.
- **The key pool** (`KeyPool.dfy`, `PoolProtocol.dfy`). The two maps, the server goroutine and
  any number of clients on two shared unbuffered channels: every interleaving is a run of a
  sequential map.
- **Lifecycles** (`ModuleKeys.dfy`, `KeySessions.dfy`, `Attributes.dfy`, `EnvLifecycle.dfy`,
  `EnvRuntime.dfy`). Loader, module and method keys over creation of environments, loading, finalisers and
  destruction: keys are conserved in every run. `KeySessions.dfy` takes the creation and removal
  of modules apart into their calls on the pool and lets any number of clients interleave them.
- **The global object** (`HiddenNames.dfy`, `GlobalTable.dfy`). The dense loader registry,
  searched in order, and the table of saved functions, into which both argument bridges save
  the functions that cross.

Code that works step by step is a method or a class with its fields, proved against a function
that says what it computes; the theorems about runs are lemmas about these functions.

## Where a promise has a condition

- `LoadTrace.OnlySucceeded`, `LoadTrace.RequireAdds`, `LoadTrace.UnsafeStays`: two steps of a load lie
  between the protected calls. The source is joined with its wrapper, which throws for a symbol (a
  string that begins with 80, 81, 82 or FF) and for text that is too long; and the value of the evaluated
  text gets its name, which throws when that is no object, as for the text `}); 1 + ({`. Then a module
  stays registered whose load threw. Failed loads leave nothing behind exactly when no load is
  abandoned like this, and none is when every source is safe from both.
- `EnvLifecycle.PanicsWhen`, `EnvLifecycle.ByValuePanics`, `EnvLifecycle.FieldsPanic`: listing the
  attributes of an object panics for a struct by value, which `go_loadModule` accepts, and for some
  fields of struct pointers: byte arrays, before Go 1.19 (`go.mod` names 1.17), and lists, arrays and
  maps that are not exported but whose name does not begin in ASCII. A run panics exactly when such a
  field is the first one that goes wrong.
- `NativeBridge.CallbacksArrive`, `NativeBridge.TwoCallbacks`: functions of one call are saved under
  microsecond readings; they arrive as themselves exactly when no two different ones share one.
- `CallBridge.TextsArrive`, `CallBridge.BytesArrive`, `CallBridge.SymbolBytesThrow`: lengths are narrowed
  to 32 bits and widened again, and strings that begin with 80, 81, 82 or FF are symbols. The lemmas say
  exactly which texts and slices arrive whole, which throw, which are cut, and which change their type.
- `CallBridge.NoLeftovers`, `CallBridge.GoToJsRoundTrip`: `parseArgs` writes one left-over word
  for an error value where C reads two, so no list with an error goes through.
- `CallBridge.SlotsNeeded`, `CallBridge.PlainCallsReach`, `CallBridge.NilCalls`: arguments are pushed without
  reserving slots for them, and the call takes one more. The lemmas say, for every reserve, exactly which
  lists are pushed, which reach the function, and which throw outside of every protected call.
- `World.making`: the attributes of an object are marshalled without looking at the result; an empty text
  then throws when it is decoded. Making an object can fail in the model, and the list with it.
- `CallBridge.IntegersArrive`: `int` is sent as 32 bits, 64-bit types as doubles; the lemma says
  exactly which values arrive unchanged.
- `ModuleKeys.CreateKeeps`: keys are nanosecond clock readings. Nothing is lost exactly when the
  readings are distinct and not in use. Runs assume this of the clock, and that no reading is zero.
- `KeySessions.OwnershipInEveryRun`, `KeySessions.StaleRemoval`: here a reading must not make a key that
  is in use, nor one that some client has looked up, made or is removing.
- `GlobalTable.StaysWhen`, `GlobalTable.SaveLosesWhen`: handles are microsecond readings; a repeated
  reading replaces a function saved before. What the table means is proved for every clock; only
  `SaveIsFresh`, `HandlesDistinct` and `HandleStays` assume increasing readings.
- `KeyPool.InverseKept`: the two maps of a pool stay inverse exactly while the generator does not
  repeat a key in use for a new value.
- `Resolver.ResolveRelative`: a relative request counts against the limit together with its base,
  so it can fail although the id it denotes would fit.

## Model

| member | source | states |
|---|---|---|
| TermStack.CanonicalFixpoint | duk-bridge-go/duk_module_duktape.c:46-57 | an identifier denotes its own segments if and only if every segment is a name: not empty and not led by a period |
| TermStack.CanonicalJoin | duk-bridge-go/duk_module_duktape.c:171-180 | joining names with slashes gives an identifier that denotes exactly those names |
| TermStack.CanonicalRelative | duk-bridge-go/duk_module_duktape.c:60-72 | evaluating a relative identifier behind `base/../` is evaluating it on the base's terms without the last one |
| TermStack.CanonicalIsClean | duk-bridge-go/duk_module_duktape.c:46-57 | every term of an accepted identifier is a name without slash or NUL |
| TermStack.SplitConcat | duk-bridge-go/duk_module_duktape.c:60-72 | splitting two texts joined by a slash gives the segments of both |
| TermStack.EvalNames | duk-bridge-go/duk_module_duktape.c:142-159 | names only pile up on the stack, and are accepted at the end |
| TermStack.EvalAccepts | duk-bridge-go/duk_module_duktape.c:90-160 | segments are accepted if and only if the last is a name, each other one is a name, empty, `.` or `..`, and every `..` finds a term to drop; the number of terms left is exact |
| TermStack.CanonicalAccepts | duk-bridge-go/duk_module_duktape.c:46-57 | the same of whole identifiers, none of which may begin with a slash |
| TermStack.CanonicalSkips | duk-bridge-go/duk_module_duktape.c:107-169 | anywhere between two texts `//`, `/./` and `/name/../` mean no more than one slash |
| TermStack.EvalBehind | duk-bridge-go/duk_module_duktape.c:90-160 | segments in front never tell endings apart that mean the same on every stack |
| Resolver.ResolveInPlace | duk-bridge-go/duk_module_duktape.c:81-183 | the in-place loop accepts exactly the inputs the term stack accepts and then outputs its slash-joined terms and the last of them; nothing is read or written past the NUL, whatever the buffer size |
| Resolver.ResolveTerm | duk-bridge-go/duk_module_duktape.c:90-160 | one turn of the loop, from a term start to behind its slash, keeps output behind input and carries the verdict on the whole input along |
| Resolver.ResolveDots | duk-bridge-go/duk_module_duktape.c:107-138 | the turn for a dot-led term: `.` is eaten, `..` drops one term or fails on an empty stack, everything else fails |
| Resolver.ResolveName | duk-bridge-go/duk_module_duktape.c:142-159 | the turn for a name: pushed when a slash follows, the end of the resolution when the NUL follows |
| Resolver.CopyTerm | duk-bridge-go/duk_module_duktape.c:143-159 | a term is copied down unchanged, with its slash, and no unread byte is written |
| Resolver.Backtrack | duk-bridge-go/duk_module_duktape.c:121-135 | backtracking stops exactly behind the last but one term of the output |
| Resolver.EatSlashes | duk-bridge-go/duk_module_duktape.c:161-169 | eating further slashes changes nothing in the meaning of the rest and stops at a byte that is not a slash |
| Resolver.TurnDot | duk-bridge-go/duk_module_duktape.c:109-112 | a leading `./` leaves the stack as it is |
| Resolver.TurnDotDot | duk-bridge-go/duk_module_duktape.c:113-136 | a leading `../` drops the top of the stack, or rejects when there is none |
| Resolver.TurnDotLed | duk-bridge-go/duk_module_duktape.c:138 | any other dot-led term, a final `.` or `..` included, is rejected |
| Resolver.TurnName | duk-bridge-go/duk_module_duktape.c:142-156 | a name with a slash behind it is pushed |
| Resolver.TurnLastName | duk-bridge-go/duk_module_duktape.c:147-151 | a name that ends the input is the last term |
| Resolver.Snprintf | duk-bridge-go/duk_module_duktape.c:70-80 | the buffer gets at most its size less one bytes and a NUL; the length returned is the untruncated one |
| Resolver.ResolveModuleId | duk-bridge-go/duk_module_duktape.c:31-184 | the whole function, base prefix and length limit included, computes `Resolve` |
| Resolver.ResolvedTerms | duk-bridge-go/duk_module_duktape.c:53-57 | every resolved id is the join of names and fits the limit: output is never longer than input |
| Resolver.EvalLength | duk-bridge-go/duk_module_duktape.c:53-57 | evaluation needs no more bytes than its segments and its stack |
| Resolver.ResolvedShape | duk-bridge-go/duk_module_duktape.c:46-57 | a resolved id is not empty, not led by a period or slash, without NUL and below the limit |
| Resolver.ResolveIdempotent | duk-bridge-go/duk_module_duktape.c:291-292 | whatever the base, a resolved id resolves to itself with the same last term |
| Resolver.ResolveRelative | duk-bridge-go/duk_module_duktape.c:60-80 | a relative request on a canonical base is resolved on the base's terms without the last one; it fails only when that fails or the combined text reaches 256 bytes |
| Resolver.ResolvePlain | duk-bridge-go/duk_module_duktape.c:70-80 | a request without a base, or not led by a period, is resolved as it stands, whatever the base; it fails only when that fails, when it reaches 256 bytes, is empty, or begins with a slash |
| Resolver.ResolveAgainst | duk-bridge-go/duk_module_duktape.c:70-80 | a relative request against any base at all, canonical or not, is the evaluation of the base, one `..` and the request, unless the base is empty or begins with a slash or the combined text reaches 256 bytes |
| Loading.Run | duk-bridge-go/duk_module_duktape.c:331-413 | running code keeps every cache entry and every load in progress registered, over all nested requests |
| Loading.Require | duk-bridge-go/duk_module_duktape.c:199-437 | a request keeps every earlier entry with its module object; recursion terminates because each nested load uses up an id |
| Loading.Load | duk-bridge-go/duk_module_duktape.c:250-436 | a load gives back a cache in which all earlier entries stand and the loads in progress are still registered |
| Loading.EnterLoad | duk-bridge-go/duk_module_duktape.c:298-304 | entering the load of an id that can be found makes the set of ids not in progress strictly smaller |
| LoadTrace.RunIsLegal | duk-bridge-go/duk_module_duktape.c:225-436 | every run of module code has a log that replays event by event to the final cache, module objects and loads in progress |
| LoadTrace.RequireIsLegal | duk-bridge-go/duk_module_duktape.c:225-436 | the same of every call of require |
| LoadTrace.InProgress | duk-bridge-go/duk_module_duktape.c:298-304 | at every moment the loads in progress are distinct, registered, and all but the innermost can be found |
| LoadTrace.DepthBound | duk-bridge-go/duk_module_duktape.c:225-246 | at every moment of every run at most one more load is in progress than there are ids that can be found |
| LoadTrace.ReloadNeedsFailure | duk-bridge-go/duk_module_duktape.c:413-436 | between two executions of the load of one id the earlier one failed |
| LoadTrace.CacheServesTheLoad | duk-bridge-go/duk_module_duktape.c:225-246 | from the start of a load until its failure the id is not loaded again and every request for it gets the current exports of that module object |
| LoadTrace.SuccessIsPermanent | duk-bridge-go/duk_module_duktape.c:241-246 | after a success, or an abandoned load, the id is never loaded again, its entry is never deleted, and requests for it get the same module object |
| LoadTrace.ExportsAreLast | duk-bridge-go/duk_module_duktape.c:244-245 | the exports of a module object are those assigned last, or the table it was made with |
| LoadTrace.EntryStays | duk-bridge-go/duk_module_duktape.c:302-304 | an entry stays, with its module object, until a failed load of its id |
| LoadTrace.RequireAdds | duk-bridge-go/duk_module_duktape.c:357-436 | earlier entries survive a call; it adds only entries whose own load succeeded or whose source is not safe; a failure leaves the requested id absent exactly when its error did not escape, always so when every source is safe; a success returns its current exports; a bad argument changes nothing |
| LoadTrace.LoadAdds | duk-bridge-go/duk_module_duktape.c:302-436 | a failed load removes its own entry, exactly unless its error escaped, and keeps only nested loads that ended without failure |
| LoadTrace.OnlySucceeded | duk-bridge-go/duk_module_duktape.c:393-436 | beside the loads in progress the cache holds only modules whose own load succeeded if and only if no load was abandoned |
| LoadTrace.EndsOnce | duk-bridge-go/duk_module_duktape.c:413-436 | two loads that both end without failure are of different ids |
| LoadTrace.UnsafeStays | duk-bridge-go/duk_module_duktape.c:357-393 | for every id: when the source cannot be joined with its wrapper, or gives no object, the request throws, the module stays registered, and the next request returns its unfilled exports |
| LoadTrace.RequireModuleId | duk-bridge-go/duk_module_duktape.c:291-292 | after a success, requesting the resolved id through any require function is a cache hit with the same exports |
| LoadTrace.WholeRun | duk-bridge-go/duk_module_duktape.c:199-437 | all of this for every whole program started with an empty cache, at every prefix of its log |
| LoadStages.RequireRuns | duk-bridge-go/duk_module_duktape.c:250-436 | a request for an id that is not registered runs search, outer code and module in this order from the registered state; the first error decides, is thrown unchanged with the entry gone, and nothing later runs; without one the source decides, and otherwise the exports that the module left are returned; an id that cannot be found runs nothing |
| LoadStages.StagesExist | duk-bridge-go/duk_module_duktape.c:331-413 | the stages of every load can be run like this, so there is always such a telling |
| LoadStages.ModuleDecides | duk-bridge-go/duk_module_duktape.c:405-430 | when search and evaluation end without error the request throws exactly what the module throws and otherwise returns its exports, and all the module did is in the log |
| LoadStages.HitRunsNothing | duk-bridge-go/duk_module_duktape.c:241-246 | a request for a registered id runs nothing and returns the current exports of its module object |
| LoadStages.RunWhen | duk-bridge-go/duk_module_duktape.c:331-413 | running code ends in a state with an error if and only if it can get there action by action, each chosen by the outcomes before it and acting on the state the one before left |
| LoadStages.PlaysIsRun | duk-bridge-go/duk_module_duktape.c:331-413 | every telling of a run, action by action, ends where the run ends |
| RequireMachine.Engine.RequireCall | duk-bridge-go/duk_module_duktape.c:199-437 | the step-by-step function, in a frame of its own, computes `Loading.Require` on every path |
| RequireMachine.Engine.LookUp | duk-bridge-go/duk_module_duktape.c:217-249 | from resolution to the cache lookup the stack has each stated height, with the resolved id and last component in their slots |
| RequireMachine.Engine.PrepareModule | duk-bridge-go/duk_module_duktape.c:250-304 | fresh require, exports and module land in their slots and the module is registered |
| RequireMachine.Engine.PushSearchCall | duk-bridge-go/duk_module_duktape.c:324-330 | the search is called with the resolved id, the fresh require, the exports and the module, in this order |
| RequireMachine.Engine.CallModSearch | duk-bridge-go/duk_module_duktape.c:324-337 | the search runs with the module registered; its source or its error ends on the top at the stated height |
| RequireMachine.Engine.JoinSource | duk-bridge-go/duk_module_duktape.c:357-358 | the source text is joined with its wrapper, or throws exactly when it is a symbol or too long |
| RequireMachine.Engine.CompileSource | duk-bridge-go/duk_module_duktape.c:359-369 | compilation leaves the compiled program or the original error on the top at the stated height |
| RequireMachine.Engine.Evaluate | duk-bridge-go/duk_module_duktape.c:370-373 | evaluation runs the code outside the wrapper in a protected call and leaves the value or the error on the top |
| RequireMachine.Engine.DefineName | duk-bridge-go/duk_module_duktape.c:385-393 | naming the value succeeds, and leaves the stack as it was, exactly when it is an object |
| RequireMachine.Engine.EvaluateAndCall | duk-bridge-go/duk_module_duktape.c:370-436 | evaluation, naming and the module call settle the load as `RunSource` says, an escaping error included |
| RequireMachine.Engine.PushModuleCall | duk-bridge-go/duk_module_duktape.c:405-409 | the module function gets the exports as `this`, the fresh require, the current module.exports and the module |
| RequireMachine.Engine.CallModule | duk-bridge-go/duk_module_duktape.c:405-430 | the module function runs and its outcome keeps the entry or deletes it |
| RequireMachine.Engine.CompileAndCall | duk-bridge-go/duk_module_duktape.c:342-430 | without source text the load is finished, else the source decides |
| RequireMachine.Engine.LoadModule | duk-bridge-go/duk_module_duktape.c:250-436 | the part behind the cache miss computes `Loading.Load` |
| RequireMachine.Engine.DeleteRethrow | duk-bridge-go/duk_module_duktape.c:432-436 | only the own entry is deleted and the very error on the top is rethrown |
| RequireMachine.Engine.ReturnExports | duk-bridge-go/duk_module_duktape.c:427-430 | the current module.exports are returned, not the default table |
| RequireMachine.Engine.RunProgram | duk-bridge-go/duk_module_duktape.c:199-437 | a whole program on the machine leaves a legal log with nothing in progress |
| ArgFormat.BytesRoundTrip | duk-bridge-go/duk_bridge.c:833-838 | a word stored byte by byte is read back unchanged |
| ArgFormat.StoreWord | duk-bridge-go/duk_bridge.c:833-838 | storing a word changes its eight bytes only |
| ArgBlock.SetWordHolds | duk-bridge-go/duk_bridge.c:833-838 | storing a word inside the allocation leaves all other words and the tag string alone |
| ArgBlock.SetTagHolds | duk-bridge-go/duk_bridge.c:833-838 | storing a tag leaves all words and other tags alone |
| ArgBlock.Block.SetWord | duk-bridge-go/duk_bridge.c:848-893 | every word written lies inside the allocation and replaces exactly one word |
| ArgBlock.Block.SetTag | duk-bridge-go/duk_bridge.c:847-898 | every tag written lies inside the allocation and replaces exactly one tag |
| NativeBridge.EncodeOne | duk-bridge-go/duk_bridge.c:843-895 | one turn of the encoder writes the tag of its argument and its one or two words at the running index, and saves a function under its clock reading |
| NativeBridge.EncodeArgs | duk-bridge-go/duk_bridge.c:830-898 | for every argument list the block holds the tags with their NUL and the words in order, and every function was saved in order |
| NativeBridge.ReadsOne | duk-bridge-go/go2c.go:330-410 | the tag and words of an argument mean that argument to the decoder, and take as many words as were written |
| NativeBridge.ReadsBack | duk-bridge-go/go2c.go:327-410 | argument i finds exactly its own words at the index where the first i arguments end |
| NativeBridge.TagLength | duk-bridge-go/go2c.go:306 | strlen of the tag string is the number of arguments |
| NativeBridge.DecodeArgs | duk-bridge-go/go2c.go:324-418 | the function is called with every argument of the block, in order, unless one does not fit its parameter: the first such one decides |
| NativeBridge.BridgeCall | duk-bridge-go/duk_bridge.c:816-901 | for every argument list, also the empty one, Go is called with exactly the arguments JavaScript passed when their number and types are accepted, and not at all otherwise |
| NativeBridge.VariadicTakesRest | duk-bridge-go/go2c.go:299-313 | a variadic function with one argument for each parameter before its last is called with any number of further ones, none included, and sees them all |
| NativeBridge.ArityDecides | duk-bridge-go/go2c.go:291-313 | a function that is not variadic is called only with one argument for each parameter, a variadic one never with fewer than it has before its last; every other list calls nothing |
| NativeBridge.InvokedIs | duk-bridge-go/go2c.go:324-418 | there is just one outcome: called exactly when every argument fits, and nothing behind the first misfit has a say |
| NativeBridge.SavedUnder | duk-bridge-go/duk_bridge.c:872-879 | the handle of a function argument gives a function that this call saved under it |
| NativeBridge.CallbacksArrive | duk-bridge-go/duk_bridge.c:872-879 | all functions among the arguments load back as themselves if and only if no two different ones of the call share a handle |
| NativeBridge.TwoCallbacks | duk-bridge-go/duk_bridge.c:872-879 | two callbacks saved at one clock reading: Go gets one handle twice, and it gives the second function |
| Binary64.TopBitIs | duk-bridge-go/go2c.go:148-158 | the highest set bit of a number is below k exactly when the number is below 2 to the k |
| Binary64.SignificandRange | duk-bridge-go/go2c.go:148-158 | significand and exponent of a 64-bit integer fit their fields |
| Binary64.DoubleOfInt | duk-bridge-go/go2c.go:148-158 | for every 64-bit integer the bits of float64(x) stand for exactly the rounded integer |
| Binary64.StandsForOne | duk-bridge-go/duk_bridge.c:1019-1026 | the bits of a double stand for at most one integer |
| Binary64.PowersOfTwo | duk-bridge-go/go2c.go:120-122 | the bits of every power of two and its negation, as the binary64 format has them |
| Binary64.DoubleTagSurvives | duk-bridge-go/go2c.go:148-158 | an integer survives the double tag if and only if it is a multiple of the spacing of doubles at its magnitude |
| Binary64.SurvivesTo53 | duk-bridge-go/go2c.go:148-158 | every integer of magnitude up to 2 to the 53rd survives, the next one does not |
| Binary64.RoundedIsNear | duk-bridge-go/go2c.go:148-158 | the integer that arrives is a nearest double, of two the even one |
| Binary64.IntTagSurvives | duk-bridge-go/duk_bridge.c:661-664 | an integer survives the integer tag if and only if it fits 32 signed bits |
| CallBridge.ParseArg | duk-bridge-go/go2c.go:128-213 | parseArg writes exactly the out-parameters its case names and leaves the others; lengths pass through a C int |
| CallBridge.StoreArg | duk-bridge-go/go2c.go:229-237 | the length and pointer, or the value, are stored at the running index |
| CallBridge.EncodeArg | duk-bridge-go/go2c.go:226-239 | one turn of the loop appends the tag and words of its argument to those of the arguments before |
| CallBridge.ParseArgs | duk-bridge-go/go2c.go:215-242 | the tag string ends with its NUL and the word array of twice the length begins with the words of all arguments in order |
| CallBridge.NoLeftovers | duk-bridge-go/go2c.go:221-238 | the encoding of an argument depends on it alone if and only if it is no error value, although the registers are reused |
| CallBridge.ErrorMessageLost | duk-bridge-go/go2c.go:192-196 | after a `true`, an error argument is encoded as the left-over 1, whatever its message |
| CallBridge.ReadsOne | duk-bridge-go/duk_bridge.c:650-711 | the tag and words of an argument are read as its value, leaving the slots it should, or throw exactly when it cannot be delivered |
| CallBridge.GoToJsRoundTrip | duk-bridge-go/duk_bridge.c:642-714 | for every argument list the decoder pushes exactly its values in order if each can be delivered into the slots that those before it left, and throws otherwise |
| CallBridge.SlotsNeeded | duk-bridge-go/duk_bridge.c:650-711 | without JSON and objects a list is delivered if and only if its values can cross and each finds the slots it takes above the ones before; a buffer takes two, and bytes that begin like a symbol never cross |
| CallBridge.PlainListsFit | duk-bridge-go/duk_bridge.c:650-711 | a list of nil, bool, number and text arguments goes through if and only if its texts can cross and it fits the free slots |
| CallBridge.PlainCallsReach | duk-bridge-go/duk_bridge.c:625-711 | a call with nil, bool, number and text arguments reaches the function if and only if its texts can cross and it fits with one slot to spare, for `this` |
| CallBridge.NilCalls | duk-bridge-go/duk_bridge.c:625-711 | on a stack of n slots with the function alone: n - 2 nil arguments reach it, n - 1 are pushed and the call is refused, n throw |
| CallBridge.EnoughSlots | duk-bridge-go/duk_bridge.c:650-711 | any list arrives when there is a slot for each argument and enough to spare for the dearest one |
| CallBridge.IntegersArrive | duk-bridge-go/go2c.go:145-158 | exactly which integers arrive unchanged, for every Go integer type |
| CallBridge.SizeOfIs | duk-bridge-go/go2c.go:28-43 | a length crosses unchanged, is refused, or is cut to its lower half, exactly by its value |
| CallBridge.TextsArrive | duk-bridge-go/go2c.go:163-167 | a text arrives as itself if and only if it is shorter than 2 to the 31st bytes, does not begin like a symbol, and a slot is free; exactly which longer ones are cut without an error, and which arrive as symbols |
| CallBridge.BytesArrive | duk-bridge-go/go2c.go:168-171 | the same of byte slices, with the smaller limit of buffers and two slots; one that begins like a symbol throws |
| CallBridge.SymbolBytesThrow | duk-bridge-go/duk_bridge.c:682-689 | a byte slice that begins with FF throws however many slots are free, and a text arrives as a symbol |
| CallBridge.CallbacksComeBack | duk-bridge-go/duk_bridge.c:690-693 | functions passed to Go and sent back arrive as themselves if and only if no two different ones share a handle |
| CallBridge.ErrorsThrow | duk-bridge-go/duk_bridge.c:677-681 | a list with an error among its values always throws, whatever else is in it |
| CallBridge.FunctionsArrive | duk-bridge-go/duk_bridge.c:690-693 | a saved function arrives as itself if and only if its handle still gives it and its slots are free |
| CallBridge.ParsedArrive | duk-bridge-go/duk_bridge.c:701-708 | a map or list arrives as a value if and only if its text, with the length cut, decodes to it in the free slots |
| CallBridge.ObjectsArrive | duk-bridge-go/duk_bridge.c:694-700 | where objects can be made two struct pointers arrive as one object if and only if they have one key; elsewhere as undefined |
| CallStack.ResultWords | duk-bridge-go/duk_bridge.c:568-622 | type, pointer and length handed over for a result are received by Go as that result |
| CallStack.Context.Push | duk-bridge-go/duk_bridge.c:653-668 | a push succeeds exactly within the reserve |
| CallStack.Context.PushBuffer | duk-bridge-go/duk_bridge.c:682-689 | a buffer takes two slots on the way and one in the end, and throws for bytes that begin like a symbol |
| CallStack.Context.PushParsed | duk-bridge-go/duk_bridge.c:701-708 | the text is replaced by what it decodes to |
| CallStack.Context.PushOne | duk-bridge-go/duk_bridge.c:650-710 | one turn of the decoder pushes one value, advances by the words of its tag and leaves the slots it should, or throws with the stack below intact |
| CallStack.Context.PushArgs | duk-bridge-go/duk_bridge.c:650-711 | the loop leaves exactly argc values above the function, or throws |
| CallStack.Context.ResultCallback | duk-bridge-go/duk_bridge.c:568-623 | Go receives the value on the top, a function is saved under the handle Go gets, and the stack keeps its height, unless handing over throws |
| CallStack.Context.ProtectedCall | duk-bridge-go/duk_bridge.c:627 | the function is called exactly when a slot is left for `this` |
| CallStack.Context.CallFunc | duk-bridge-go/duk_bridge.c:625-633 | with a slot for `this` the function is called, without it the protected call fails; function and arguments are replaced by the result or the error, which Go receives and which is popped |
| CallStack.Context.PushArgsAndCall | duk-bridge-go/duk_bridge.c:635-714 | the function is called once with the decoded arguments and the stack below it is restored, or it is not called at all |
| CallStack.Context.GoCall | duk-bridge-go/duk_bridge.go:239-260 | a call from Go reaches the function with exactly the values of its arguments, if and only if all can be delivered into the free slots and one more is left, and Go gets its result |
| Echo.ReturnsItself | duk-bridge-go/duk_bridge.c:568-622 | a value that a Go argument became is that argument again when it is handed to Go: nil, the same bool, the same bits, text and bytes, the double of an integer exactly when it survives, and for a function a handle that gives that function |
| Echo.CallEchoes | duk-bridge-go/duk_bridge.c:625-714 | a whole call whose function returns one of its arguments: called once, status 0, and Go has that argument again; a result that takes no slot always gets through |
| Echo.OtherResults | duk-bridge-go/duk_bridge.c:568-633 | status 0 exactly when the function was called and did not throw, else -2; an error arrives with its text, an object as its JSON text; the stack below the function is restored |
| Echo.ThrowCallsNothing | duk-bridge-go/duk_bridge.c:642-711 | a list that cannot be delivered calls nothing, gives no result and saves nothing |
| Echo.ReturnedFunction | duk-bridge-go/duk_bridge.c:599-608 | a function that Go receives is saved under its handle, comes back as itself when Go sends it, and takes no other handle away |
| Echo.PassedOn | duk-bridge-go/go2c.go:128-213 | a JavaScript argument that Go passes on unchanged arrives as itself; a function if and only if its handle still gives it |
| KeyPool.Effect | duk-bridge-go/val2key.go:46-92 | what each operation changes, key by key, and what it replies |
| KeyPool.InverseKept | duk-bridge-go/val2key.go:46-92 | with hashable values an operation keeps the two maps inverse if and only if the generator does not repeat a key in use for a new value |
| KeyPool.InverseAlways | duk-bridge-go/val2key.go:18 | with a generator that gives different values different keys the maps are inverse in every reachable state |
| KeyPool.PairStays | duk-bridge-go/val2key.go:46-71 | V2K keeps its key and GetVal its value over any operations that do not remove the pair |
| KeyPool.NoReverseMap | duk-bridge-go/val2key.go:82-85 | without hashable values the reverse map stays empty and RemoveVal changes nothing |
| KeyPool.V2KPool.Val2Key | duk-bridge-go/val2key.go:46-63 | a known hashable value keeps its key, a new one is stored under the generated key, an error is passed on |
| KeyPool.V2KPool.GetVal | duk-bridge-go/val2key.go:65-71 | the value of a key or nil |
| KeyPool.V2KPool.RemoveKeyOp | duk-bridge-go/val2key.go:73-80 | key and value are removed from both maps |
| KeyPool.V2KPool.RemoveValOp | duk-bridge-go/val2key.go:82-92 | value and key are removed from both maps, for hashable values only |
| KeyPool.V2KPool.Serve | duk-bridge-go/val2key.go:99-116 | one turn of the server computes `Apply`, replies at most once and stops after exit |
| PoolProtocol.BgLoop | duk-bridge-go/val2key.go:99-116 | the loop serves the requests in order up to the first exit, with the replies of the sequential map |
| PoolProtocol.StepKeepsInv | duk-bridge-go/val2key.go:99-143 | every step of server or client keeps: at most one client waits, it is the one whose request was received last, and the replies are those of the sequential map |
| PoolProtocol.RunInv | duk-bridge-go/val2key.go:99-143 | the invariant holds after every interleaving |
| PoolProtocol.WaitersAreServed | duk-bridge-go/val2key.go:118-131 | two clients never wait at the same time and none waits once the server has returned |
| PoolProtocol.RepliesAreNotCrossed | duk-bridge-go/val2key.go:118-131 | a reply can only be received by the client that asked, and is the sequential reply to its own request |
| PoolProtocol.EveryRunIsSequential | duk-bridge-go/val2key.go:99-143 | every interleaving gives the pool and replies of a sequential map executed in the order bgLoop receives requests, but for one reply that may be on its way |
| PoolProtocol.ProgramOrder | duk-bridge-go/val2key.go:118-143 | that order contains each client's calls in the order it made them |
| PoolProtocol.StuckWhen | duk-bridge-go/val2key.go:99-143 | something can proceed if and only if the server lives and handles a request or some client is inside a call |
| PoolProtocol.ExitIsFinal | duk-bridge-go/val2key.go:111-113 | after an exit was served nothing is received, answered or stored, and later calls block |
| PoolProtocol.ExitedWhen | duk-bridge-go/val2key.go:99-116 | in every run the server has returned if and only if an exit was served, and that is then the last request |
| PoolProtocol.CallCompletes | duk-bridge-go/val2key.go:99-143 | after every run in which the server waits, any client between its calls gets through with any call: the pool and the reply are those of the operation, and everyone else stands where he stood |
| ModuleKeys.SaveModuleLoader | duk-bridge-go/native_module_key.go:39-42 | a loader is stored under the reading of the clock |
| ModuleKeys.GetModuleLoader | duk-bridge-go/native_module_key.go:44-53 | a key gives its loader and environment, or an error when it stands for anything else |
| ModuleKeys.GetModInfo | duk-bridge-go/native_module_key.go:59-67 | a key gives its module, or nil when it stands for anything else |
| ModuleKeys.CreateMethodKeys | duk-bridge-go/native_module_key.go:69-85 | the loop stores every method under its own key and then the module with all of them |
| ModuleKeys.RemoveModule | duk-bridge-go/native_module_key.go:97-112 | the module key and all its method keys are removed; any other key is left alone |
| ModuleKeys.CreateKeeps | duk-bridge-go/native_module_key.go:69-85 | creating keys keeps every entry and the ownership of all keys if and only if the clock gives distinct readings that are not in use |
| ModuleKeys.CreateOwned | duk-bridge-go/native_module_key.go:69-85 | with fresh readings each module owns distinct live method keys and nobody else owns them |
| ModuleKeys.RemoveUndoesCreate | duk-bridge-go/native_module_key.go:97-112 | removing a module undoes exactly the creation of its keys |
| ModuleKeys.RemoveKeeps | duk-bridge-go/native_module_key.go:97-112 | removing a module keeps ownership and touches no loader, no other module and none of its methods |
| KeySessions.CallKeeps | duk-bridge-go/val2key.go:118-135 | any call that a client creating or removing a module makes next keeps: stored modules are whole, and what every client believes of the pool is right; a new key need only be unused and unmentioned |
| KeySessions.HistoryKeeps | duk-bridge-go/native_module_key.go:69-112 | this holds after any number of requests of any number of clients, in the order the server received them |
| KeySessions.OwnershipInEveryRun | duk-bridge-go/native_module_key.go:69-112 | in every interleaving, at every moment, each stored module has all its method keys and nobody else has them; all other method keys are gone if and only if no creation or removal under way holds a live one |
| KeySessions.OwnedWhenIdle | duk-bridge-go/native_module_key.go:69-112 | once every client is between its calls the keys are owned as after calls made one at a time |
| KeySessions.StaleRemoval | duk-bridge-go/native_module_key.go:97-112 | a new key that is not in the pool, but that a client still is to remove, loses a module its methods their owner |
| KeySessions.CreateAlone | duk-bridge-go/native_module_key.go:69-85 | the calls of createMethodKeys, served with nobody between them, do what the single step of a creation does |
| KeySessions.RemoveAlone | duk-bridge-go/native_module_key.go:97-112 | the same of removeModule, for modules and for keys that stand for none |
| KeySessions.LoaderAlone | duk-bridge-go/native_module_key.go:39-57 | a loader that is saved is in the pool, and removing it leaves the pool as it was |
| EnvLifecycle.NewEnvKeeps | duk-bridge-go/duk_bridge.go:39-46 | a new environment has the readings as its loader keys, and keeps conservation |
| EnvLifecycle.NewEnvServes | duk-bridge-go/duk_bridge.go:39-46 | the first key of a new environment stands for the plugin loader, the second one for the loader that was given; every other entry of the pool is kept and none is added |
| EnvLifecycle.LoadersStay | duk-bridge-go/duk_bridge.go:39-61 | in every run they do so at every moment until the environment is destroyed |
| EnvLifecycle.FinaliserReachesLoader | duk-bridge-go/module_loader.go:228-239 | in every run: when an object is collected, the very loader that loaded its module, the plugin loader or the given one, gets one call about that very module |
| Attributes.ListAllIs | duk-bridge-go/module_loader.go:145-223 | listing the attributes goes wrong exactly when some field does and all before it are listed |
| Attributes.FieldPanicsWhen | duk-bridge-go/module_loader.go:149-217 | exactly which fields panic, by name, kind, elements and Go version |
| Attributes.FieldThrowsWhen | duk-bridge-go/module_loader.go:149-222 | exactly which fields throw |
| Attributes.AttributesOfIs | duk-bridge-go/module_loader.go:149-222 | the attributes are the fields with a visible name and a kind that the switch knows, once each and in order |
| Attributes.AddAttribute | duk-bridge-go/module_loader.go:160-222 | one turn of the loop over the fields |
| Attributes.ListAttributes | duk-bridge-go/module_loader.go:126-225 | the loop adds the attributes in order up to the first field that goes wrong |
| EnvLifecycle.LoadKeeps | duk-bridge-go/module_loader.go:54-83 | a loaded module becomes an object whose finaliser has that loader, and nothing else changes; it panics exactly when listing its attributes does |
| EnvLifecycle.BuildKeeps | duk-bridge-go/module_loader.go:263-271 | an object built from a Go value gets the first loader of its environment; it panics exactly when listing its attributes does |
| EnvLifecycle.BoxKeeps | duk-bridge-go/go2c.go:197-203 | a struct argument or result gets a module key and its method keys, in order, is boxed, and nothing else changes; conservation is kept |
| EnvLifecycle.FinaliseFinds | duk-bridge-go/module_loader.go:228-239 | every finaliser finds its loader and its module: the callback runs, the keys go, no nil is dereferenced |
| EnvLifecycle.FinaliseKeeps | duk-bridge-go/module_loader.go:228-239 | finalising one object keeps conservation |
| EnvLifecycle.FinaliseAllIs | duk-bridge-go/duk_bridge.go:53 | the heap's finalisers remove exactly their modules' keys and run one callback per object, in any order |
| EnvLifecycle.DestroyExact | duk-bridge-go/duk_bridge.go:51-61 | Destroy removes exactly the keys of that environment and leaves all others unchanged |
| EnvLifecycle.DestroyKeeps | duk-bridge-go/duk_bridge.go:51-61 | Destroy keeps conservation for the environments that remain |
| EnvLifecycle.OfEnvIs | duk-bridge-go/native_module_key.go:16-26 | every key in use is a loader key, a module key or the method key of one module, and belongs to an environment accordingly |
| EnvLifecycle.RunKeeps | duk-bridge-go/duk_bridge.go:39-61 | conservation holds after every run |
| EnvLifecycle.DestroyInRun | duk-bridge-go/duk_bridge.go:51-61 | in every run Destroy finds every loader and module and removes exactly its environment's keys |
| EnvLifecycle.NothingLeaks | duk-bridge-go/duk_bridge.go:51-61 | in every run, without environments and boxed values the pool is empty |
| EnvLifecycle.PanicsWhen | duk-bridge-go/module_loader.go:126-225 | a run panics if and only if a loader gives a struct by value, or the first field that goes wrong in a loaded or built struct is one that reflection refuses; no finaliser ever panics |
| EnvLifecycle.ByValuePanics | duk-bridge-go/module_loader.go:69-81 | the shortest run that panics: one environment whose loader gives a struct by value |
| EnvLifecycle.LoadPanics | duk-bridge-go/module_loader.go:126-225 | every loaded value whose listing panics ends a run of two operations |
| EnvLifecycle.FieldsPanic | duk-bridge-go/module_loader.go:149-208 | struct pointers that panic: an exported byte array before Go 1.19, and with any Go a list whose name does not begin in ASCII and is not exported |
| EnvRuntime.Runtime.AddGoModuleLoader | duk-bridge-go/module_loader.go:245-261 | the loader is stored, appended, and remembered as the first one when it is |
| EnvRuntime.Runtime.MakeEnv | duk-bridge-go/duk_bridge.go:39-46 | NewEnv computes its step of the lifecycle |
| EnvRuntime.Runtime.GoLoadModule | duk-bridge-go/module_loader.go:54-83 | a load through a known loader makes the module's keys and its object, and panics when its attributes cannot be listed; an unknown loader or a useless value gives nil |
| EnvRuntime.Runtime.GoCreateObject | duk-bridge-go/module_loader.go:263-271 | the struct of a key becomes an object of the first loader, or nothing happens without one |
| EnvRuntime.Runtime.GoFinalizeModule | duk-bridge-go/module_loader.go:228-239 | the finaliser computes its step of the lifecycle |
| EnvRuntime.Runtime.DestroyHeap | duk-bridge-go/duk_bridge.go:53 | the remaining objects are finalised one after the other |
| EnvRuntime.Runtime.RemoveLoaderKeys | duk-bridge-go/duk_bridge.go:54-60 | all loader keys but zero are removed |
| EnvRuntime.Runtime.DestroyEnvironment | duk-bridge-go/duk_bridge.go:51-61 | Destroy computes its step of the lifecycle |
| HiddenNames.DecimalInjective | duk-bridge-go/duk_bridge.c:39-43 | different numbers have different decimal texts |
| HiddenNames.NamesDistinct | duk-bridge-go/duk_bridge.c:25-46 | loader slots, function handles and the loader count never share a hidden name |
| GlobalTable.HandlesOrdered | duk-bridge-go/duk_bridge.c:154-158 | handles are ordered and equal exactly as the clock readings they are made from |
| GlobalTable.Globals.AddModuleLoader | duk-bridge-go/duk_bridge.c:1028-1065 | the table then means one loader more, behind the others, and nothing else |
| GlobalTable.Globals.LoadNativeModule | duk-bridge-go/duk_bridge.c:293-353 | the object of the first usable loader whose load succeeds; every usable one before it is called once, in order, and no later one |
| GlobalTable.Globals.SaveTopObject | duk-bridge-go/duk_bridge.c:154-163 | the handle returned then means the function, and nothing else changes |
| GlobalTable.Globals.LoadObject | duk-bridge-go/duk_bridge.c:165-170 | the function saved last under the handle and not destroyed since, or undefined |
| GlobalTable.Globals.DestroyObject | duk-bridge-go/duk_bridge.c:172-178 | the handle then means no function, and nothing else changes |
| GlobalTable.RunRepresents | duk-bridge-go/duk_bridge.c:154-178 | after every run of registrations, saves, destroys and other assignments, whatever the clock reads, the slots are dense and in order, each handle gives the function saved last under it, and visible names are untouched |
| GlobalTable.RegistrationsStay | duk-bridge-go/duk_bridge.c:1028-1065 | in every run a registered loader has all those before it that were registered before it, whatever else happens |
| GlobalTable.SlotWasFilled | duk-bridge-go/duk_bridge.c:1028-1065 | each slot was filled by one registration of the run |
| GlobalTable.LastAssigned | duk-bridge-go/duk_bridge.c:1028-1065 | a name that is not hidden keeps what was assigned last, whatever is saved, destroyed and registered |
| GlobalTable.SaveIsFresh | duk-bridge-go/duk_bridge.c:154-163 | with increasing clock readings a save overwrites nothing |
| GlobalTable.HandlesDistinct | duk-bridge-go/duk_bridge.c:154-163 | with increasing clock readings no handle is given out twice in a run |
| GlobalTable.HandleStays | duk-bridge-go/duk_bridge.c:154-178 | with increasing clock readings a saved function stays under its handle until its own destroy |
| GlobalTable.SaveLosesWhen | duk-bridge-go/duk_bridge.c:154-163 | without increasing readings a save keeps all older functions if and only if its handle is not in use for another one |
| GlobalTable.StaysWhen | duk-bridge-go/duk_bridge.c:154-178 | without any promise of the clock: a saved function stays at every later moment if and only if no later save of another function repeats its handle and no destroy names it |
| GlobalTable.RepeatedReading | duk-bridge-go/duk_bridge.c:154-163 | two saves at one clock reading: the first handle gives the second function |
| GlobalTable.SearchFrom | duk-bridge-go/duk_bridge.c:308-349 | the search from any slot on, given what was called before |
| GlobalTable.FirstUsableWins | duk-bridge-go/duk_bridge.c:293-353 | the first usable loader that loads wins; every usable one before it was called once in order, no later one; undefined means all usable ones failed |
| GlobalTable.UsableBelowIs | duk-bridge-go/duk_bridge.c:308-349 | the loaders that are called are exactly the usable ones, once each and in order |

## Left out

- JavaScript evaluation, the Duktape heap and its garbage collection timing, JSON encoding and
  decoding, `dlopen`, Go `plugin`, reflection calls and file reading: foreign code; their outcomes
  are parameters of the model.
- Scripts that tamper with `Duktape.modLoaded`, replace `modSearch` during a load, define accessors
  on a module object, or assign hidden names.
- RequireMachine.Engine.CompileSource: does not model a throwing accessor `module.filename`.
- Running out of memory.
- What a throw of Duktape inside a Go callback does to the Go frames it jumps over. A Go panic while an
  object is made for an argument is like a throw to `CallBridge`, though it ends the program.
- RequireMachine.Engine.DefineName: does not model a throwing accessor `module.name`.
- The default `modSearch` script: a module found by it is one entry of the catalog.
- Property tables of `Duktape`, module and require objects beyond the cache entries,
  `module.exports`, `filename`, `name` and `require.id`; reading `Duktape.modLoaded` always succeeds.
- Resolver.Snprintf: does not model a missing NUL or a negative return value, which only other C
  libraries give.
- Errors thrown by `duk_json_encode` in `native_func_bridge`, which leave the allocation unfreed.
- NativeBridge.BridgeCall: does not model the Go function, nor how its results get back.
- NativeBridge.DecodeArgs: does not model how reflection fits an argument to its parameter type, nor
  the type of variadic parameters; whether it converts, misfits or panics is a parameter.
- `js_register_var` and the values of module attributes: one argument of the same format, without a round
  trip; which attributes there are, and whether listing them throws or panics, is modelled.
- CallStack.Context.CallFunc: does not model the JavaScript function; its result and success are
  parameters, and so are the JSON text of a result and the slots that handing it over takes.
- CallStack.Context.GoCall: does not model who catches an error that an argument or a result throws; the
  stack below the function is then still in place. Without a protected call around it the process ends.
- CallBridge.ReadsOne: does not model how many slots JSON decoding, object creation and the lookup of a
  name take inside the engine; these are parameters.
- A null pointer with a length above zero in `duk_push_lstring`: no Go value has one.
- The stack of `js_call_registered_func` when the function is missing (one value stays) and the
  return code of `js_unregister_func` (the raw delete flag): no balance or documented code is claimed.
- Stack effects of the remaining `js_*` entry points and of `init_native_obj`: short straight-line
  code whose balance would be easy members.
- KeyPool.V2KPool.RemoveKeyOp: does not model values that cannot be hashed, whose lookup in the
  reverse map stops a Go program; the repository stores pointers only.
- A generator key that is itself an error value, which V2K would return as an error.
- EnvLifecycle.RunKeeps: does not model the calls of `createMethodKeys` and `removeModule` one by one;
  they are single steps of the lifecycle; that the calls add up to these steps, and what becomes of
  their interleavings, is proved in `KeySessions`.
- What a program does after it recovered from a panic of a Go callback: runs end there.
- Module keys made for Go values that never become objects (a failed call, a registered variable)
  stay in the pool; the lifecycle keeps them as boxed.
- JavaScript code run by finalisers during heap destruction.
- The Java bridge, console, print and alert functions, configuration headers, test programs and
  commands.
