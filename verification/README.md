# Verified models of the on-premise loadable modules

These Dafny files model the parts of the repository that keep state, own
resources or compute encodings, and prove what they keep over every call, step
and run. `dafny verify dfyconfig.toml` checks the whole project.

## What is modelled

**Handles and persistent containers** (`Handles.dfy`, `ContainerSpec.dfy`,
`ClearTermination.dfy`, `Containers.dfy`, `HandleWorld.dfy`, `HandleMemory.dfy`).
The storage cells behind V8 handles are a heap value; `Handle`, `ValueMap` and
`ValueVector` are classes that work on it as the headers do, every temporary
`Global` and its destructor included. Engine calls are total: using a cell that is
not live is counted as a fault, disposing of one twice is recorded, and every
piece of weak-callback data is tracked from allocation to disposal. `HandleWorld` puts any number of handles, maps and
vectors together with the collector as a second actor, as a step system built
from the functions the methods are proved against. The main results are linear
ownership and conservation over every run, callback data freed exactly once, and
a refinement over runs: handles, maps and vectors hold what the operations alone
put into plain variables, partial maps and sequences. A `Clear` is a list of
drains, whatever their disposals insert and in whatever order; conservation holds
for every one that ends. `ValueMap.Clear` needs no more than a bound on the number
of drains; `RankedClearEnds` gives one whenever every inserted entry ranks below
the entry whose disposal inserts it, ranks being free to depend on how many
disposals went before, and `ClearNeverEnds` shows that an entry put back by each
of its disposals rules one out. For insertions that depend on the key alone
`ClearEndsExactly` has the condition: they nest to some depth. A cycle does not,
and neither does an endless chain without one (`ChainNeverNests`).

**The request protocol** (`Http.dfy`, `RequestProtocol.dfy`, `QueryModule.dfy`,
`JsHttp.dfy`). Chatbot and translate queries are a step system over contexts, the
callbacks as methods over contexts on the heap. What a query must be answered
with is defined on the trace of events alone and compared with what the module
does. A host keeps its side of the contract if it calls back only for contexts it
was given and never after it closed one or reported an error on it, and if
`mesibo_util_http` and `mesibo_message` copy what they are handed.

**Request texts** (`Json.dfy`, `RequestText.dfy`). The hand-printed JSON against a
reader for RFC 8259: a body reads back as its message and language if and only if
both consist of the `unescaped` production of section 7.

**The script cache** (`ScriptCache.dfy`), **the filter** (`CText.dfy`,
`Filter.dfy`), **message parameters** (`MessageParams.dfy`), **tagging**
(`Tagging.dfy`) and **external-memory accounting** (`ExternalMemory.dfy`).

Where a wished-for property fails, the exact condition is proved: a list that
ends in an odd number of commas makes the counting loop overrun
(`ScanStopsExactly`); a time stamp that is zero or does not fit an `int` spoils
the next reload decision (`ReloadDecisionExact`); the cache serves the current
script at every use exactly when every edit changes the stamp and none falls
between loading and first use (`FreshExactly`); a body reaches JavaScript whole
exactly when it has no NUL byte, and a response type exactly when none before it
was longer (`RequestDelivers`, `TypeTextIsLast`); a message length counts modulo
2^32, and not at all in the upper half (`PrintedIsCut`); translate relies on
extraction to succeed (`FaultFreeExactly`). `SetUnique` calls the engine about the
cell it stores even if the handle is empty: these calls are the only ones ever
made about a cell that is not live (`FaultsAreEmptySets`), each costs a weak map
its callback data, and they are what sets `Size` apart from the number of keys
`Contains` finds (`SizeIsFound`, `SizeIsFoundWithoutFaults`, and
`EmptyHandleCounts` for a run with one such call).

A body that fills the buffer without a NUL byte is read past the end of the
buffer, but no further than the length field behind it, whose first byte is then
zero (`PaddedAsCString`, `ContextAsCString`).

The code is followed where a comment says otherwise: the comment on
`get_count_words` promises the number of commas plus one, but the loop skips the
character after each comma (`CountIsCommas` says when the two agree); `ExecuteScript` calls the message listener mandatory,
but a missing one is returned as null, which makes a non-empty handle, so the test
for it never fires.

## Model

| member | source | states |
|---|---|---|
| Handles.CreatedIsLivePlusDisposed | v8-module/v8-lib/include/v8.h:10264-10270 | In a heap with its accounts in order, cells created are cells live plus disposals |
| Handles.DisposeKeepsValid | v8-module/v8-lib/include/v8.h:10264-10270 | Disposing of a live strong cell keeps every account: no fault, no second disposal, no callback data lost |
| Handles.Handle.FromLocal | v8-module/v8-lib/include/v8.h:10235-10242 | A handle made from a non-empty local gets a cell of its own, one made from an empty local none |
| Handles.Handle.Move | v8-module/v8-lib/include/v8.h:10341-10348 | Moving takes the cell over and leaves the other handle empty |
| Handles.Handle.MoveAssign | v8-module/v8-lib/include/v8.h:10350-10365 | Assignment disposes of the old cell and takes the other's; onto itself it does nothing |
| Handles.Handle.Reset | v8-module/v8-lib/include/v8.h:10264-10270 | Empties the handle and disposes of its cell, if any |
| Handles.Handle.ResetTo | v8-module/v8-lib/include/v8.h:10273-10280 | Disposes of the old cell before a new one is made for the local |
| Handles.Handle.Copy | v8-module/v8-lib/include/v8.h:10245-10254 | A copy gets a new cell for the same object; copying a handle onto itself empties it |
| Handles.Handle.IsWeak | v8-module/v8-lib/include/v8.h:10256-10262 | Weak is one node state only: a pending cell is not weak |
| ContainerSpec.SetCells | v8-module/v8-lib/include/v8-util.h:380-396 | Storing makes the map the owner, hands the displaced cell back as a strong cell, and leaves every other cell alone |
| ContainerSpec.SetLater | v8-module/v8-lib/include/v8-util.h:380-396 | Storing keeps the engine's accounts, including issue and release of callback data, with a fault counted exactly for an empty handle |
| ContainerSpec.RemoveCells | v8-module/v8-lib/include/v8-util.h:200-202 | A removed cell is strong, live and in no entry any more |
| ContainerSpec.InsertAllKeeps | v8-module/v8-lib/include/v8-util.h:364-367 | Insertions by user code touch only the keys inserted and no cell outside the map |
| ContainerSpec.DisposeKeeps | v8-module/v8-lib/include/v8-util.h:214-218 | A disposal that inserts loses exactly the cell disposed of, seen from outside the map |
| ContainerSpec.CollectKeeps | v8-module/v8-lib/include/v8-util.h:409-419 | A collected entry's data is freed once, by the callback and not by Release, with ownership and other entries intact |
| ContainerSpec.CollectFirstPassKeeps | v8-module/v8-lib/include/v8-util.h:485-494 | The first pass disposes of the cell and leaves the data with the collector |
| ContainerSpec.ClearKeeps | v8-module/v8-lib/include/v8-util.h:204-220 | Whatever its disposals insert, a Clear that ends leaves the map empty and has disposed once of every cell held or inserted on the way, and of no other |
| ContainerSpec.RankedClearEnds | v8-module/v8-lib/include/v8-util.h:204-220 | With inserted entries ranking below the one disposed of, the number of drains is bounded, in whatever order entries are drained |
| ContainerSpec.StoppingScriptDecreases | v8-module/v8-lib/include/v8-util.h:204-206 | Disposals that stop inserting at some point are ranked, whatever keys and objects they put back before |
| ContainerSpec.ClearNeverEnds | v8-module/v8-lib/include/v8-util.h:204-220 | If each disposal of some entry of the map puts its key back, no finite number of drains, in whatever order, ends Clear |
| ContainerSpec.ReinsertionStays | v8-module/v8-lib/include/v8-util.h:214-218 | One drain keeps every key the map holds again, and adds those its disposal inserts |
| ClearTermination.ClearEndsExactly | v8-module/v8-lib/include/v8-util.h:204-220 | With insertions that depend on the key, Clear is bounded in whatever order it drains if and only if insertions from the map's entries nest to some depth |
| ClearTermination.DrainsCoverNesting | v8-module/v8-lib/include/v8-util.h:204-220 | A Clear that ends has made more drains than any chain of insertions from an entry is long |
| ClearTermination.ChainNeverNests | v8-module/v8-lib/include/v8-util.h:204-206 | An endless chain of insertions, cyclic or not, nests to no depth |
| ContainerSpec.SetReads | v8-module/v8-lib/include/v8-util.h:51-65 | After Set, Get and Contains answer for the key from the value stored, for every other key as before |
| ContainerSpec.RemoveReads | v8-module/v8-lib/include/v8-util.h:66-72 | After Remove, Get and Contains find nothing at the key, for every other key as before |
| ContainerSpec.DisposeSeqKeeps | v8-module/v8-lib/include/v8-util.h:618-625 | Clearing a vector disposes of exactly its cells, empty slots skipped |
| Containers.ValueMap.Release | v8-module/v8-lib/include/v8-util.h:308-316 | The cell passes to the returned handle; its data is freed if it is still weak |
| Containers.ValueMap.Remove | v8-module/v8-lib/include/v8-util.h:200-202 | Returns the previous binding and drops the key |
| Containers.ValueMap.SetUnique | v8-module/v8-lib/include/v8-util.h:380-396 | Tells the engine about the cell, annotated or made weak, empties the argument, binds the key to the cell, returns the previous binding |
| Containers.ValueMap.Set | v8-module/v8-lib/include/v8-util.h:372-374 | The same for a handle passed by value, with no disposal on the way |
| Containers.ValueMap.SetWithReference | v8-module/v8-lib/include/v8-util.h:402-406 | The reference is what the map now holds at the key |
| Containers.ValueMap.Clear | v8-module/v8-lib/include/v8-util.h:208-220 | Ends for disposals that admit any bound on the number of drains, is one of the drain lists of ClearKeeps with the insertions the script says, leaves the map empty, disposes once of every cell held or inserted on the way, touches no other cell |
| Containers.ValueMap.WeakCallback | v8-module/v8-lib/include/v8-util.h:409-419 | Removes the entry its data names, disposes of it, then frees the data |
| Containers.ValueMap.OnWeakCallback | v8-module/v8-lib/include/v8-util.h:485-494 | Removes and disposes of the entry its data names, freeing no data |
| Containers.ValueVector.Append | v8-module/v8-lib/include/v8-util.h:590-592 | The vector takes the cell over at its end |
| Containers.ValueVector.Clear | v8-module/v8-lib/include/v8-util.h:618-625 | Disposes of every element once and empties the vector |
| HandleWorld.StepKeeps | v8-module/v8-lib/include/v8-util.h:293-322 | Every step of handles, maps, vectors and collector keeps ownership linear and the accounts in order |
| HandleWorld.OwnershipConserved | v8-module/v8-lib/include/v8-util.h:293-322 | In every run every live cell is in exactly one slot, none is disposed of twice, created equals live plus disposed, and no dead cell is used if and only if no map was given an empty handle |
| HandleWorld.FaultsAreEmptySets | v8-module/v8-lib/include/v8-util.h:380-396 | In every run the engine calls about a cell that is not live are as many as the Sets with an empty handle |
| HandleWorld.CallbackDataFreedOnce | v8-module/v8-lib/include/v8-util.h:308-316 | In every run data is freed at most once, and not yet freed exactly while it is on the weak cell of its own entry, with a callback under way, or lost, which at most one is per Set with an empty handle |
| HandleMemory.StepRefines | v8-module/v8-lib/include/v8-util.h:380-396 | Each step does to what the world denotes what the operation does to plain variables, partial maps and sequences; Set and Remove hand the previous binding to the returned handle |
| HandleMemory.RunRefines | v8-module/v8-lib/include/v8-util.h:167-202 | After any run, handles, maps and vectors have the variables, keys, lengths and objects that the operations alone give plain variables, partial maps and sequences |
| HandleMemory.ReferenceStable | v8-module/v8-lib/include/v8-util.h:264-276 | A reference to a key, present or absent, denotes what Get returns as long as no step touches its entry |
| HandleMemory.SizeIsFound | v8-module/v8-lib/include/v8-util.h:167-186 | In every run Size is the number of keys Contains finds if and only if no entry was last touched by a Set with an empty handle |
| HandleMemory.SizeIsFoundWithoutFaults | v8-module/v8-lib/include/v8-util.h:167-186 | Where no engine call was made about a cell that is not live, Size is the number of keys Contains finds |
| HandleMemory.EmptyHandleCounts | v8-module/v8-lib/include/v8-util.h:380-382 | A run of three operations, the last an engine call about no cell, after which Size is 1 and Contains finds nothing |
| Http.HttpContext.Receive | v8-module/mesibo_js_http.cpp:57-78 | A chunk is appended if it fits and otherwise changes nothing; the rest of the buffer stays zero |
| Http.AcceptExactly | chatbot/chatbot.cpp:121-142 | Bytes of the response body are appended if they fit 65536 with what is there and refused if not; every other call succeeds and changes nothing |
| Http.AccumulateConcatenates | v8-module/mesibo_js_http.cpp:61-71 | Over any calls the body is the concatenation of the non-empty body chunks that fitted, and never exceeds 65536 bytes |
| JsHttp.JsRequest.OnData | v8-module/mesibo_js_http.cpp:45-79 | An error ends the request, anything else accumulates |
| JsHttp.JsRequest.OnStatus | v8-module/mesibo_js_http.cpp:81-95 | Refuses a status without response type; otherwise stores the status and copies the type over the front of its buffer |
| JsHttp.JsRequest.OnClose | v8-module/mesibo_js_http.cpp:97-149 | One delivery per successful close with both handles present, with body and response type as C strings and the status in 32 bits |
| JsHttp.PaddedAsCString | v8-module/mesibo_js_http.cpp:134 | The buffer alone gives the body up to its first NUL; a full NUL-free buffer is read past its end |
| JsHttp.ContextAsCString | v8-module/include/mesibo_js_processor.h:236-240 | With the length field behind the buffer JavaScript sees the body up to its first NUL, and all of it if it has none, even one that fills the buffer |
| JsHttp.TypeTextIsLast | v8-module/mesibo_js_http.cpp:92-135 | JavaScript sees the last response type exactly when none before it was longer |
| JsHttp.RequestDelivers | v8-module/mesibo_js_http.cpp:45-149 | A request called back any number of times and closed delivers once, with the last status stored, the text left by the response types, and the concatenation of the chunks taken, whole if and only if it has no NUL |
| RequestProtocol.RepliesAreRouted | chatbot/chatbot.cpp:163-196 | Under any interleaving a reply has refid and aid of its own query, from and to swapped (translate: kept), and the text extracted from its own accepted chunks under the configured response field (translate: "translatedText"); one reply per query closed without failure with that field, none otherwise |
| RequestProtocol.ContextsHoldTheirOwn | chatbot/chatbot.cpp:253-260 | Every context not yet destroyed holds its own message's parameters and addresses, its own request's body, the last status reported for it and its own accepted chunks |
| RequestProtocol.CallsCarryTheirOwnRequest | chatbot/chatbot.cpp:242-274 | There is one call per message (chatbot: per message to its address), in order; the n-th carries url, with the message's own id, and body of the n-th such message although the request object is shared |
| RequestText.PostsAre | chatbot/chatbot.cpp:249-251 | The texts of both bodies, whatever message and language are |
| Basics.DecimalReadsBack | chatbot/chatbot.cpp:248 | The id in the url is printed as digits that read back as the id |
| RequestProtocol.BodiesReadBack | translate/translate.cpp:224-226 | The n-th body is JSON for its own message, as printed, exactly when message and language need no escaping |
| RequestProtocol.InterleavingIsIrrelevant | chatbot/chatbot.cpp:112-145 | A query treated alike in two runs and answered in one is answered in the other, with the same reply, whatever else is in flight |
| RequestProtocol.ContextLifetime | chatbot/chatbot.cpp:99-105 | No callback meets a destroyed context; contexts allocated are in flight, destroyed on error, destroyed after their one reply, or left by a failed close or missing field |
| RequestProtocol.FaultFreeExactly | translate/translate.cpp:179-182 | Under the host's contract nothing goes wrong if and only if every response translate closes has its field; chatbot needs nothing |
| QueryModule.Instance.ProcessMessage | chatbot/chatbot.cpp:253-271 | A fresh context for the query, the shared request overwritten, the host called with a copy |
| QueryModule.Instance.ChatbotOnMessage | chatbot/chatbot.cpp:282-301 | Consumes exactly the messages to the configured address |
| QueryModule.Instance.TranslateOnMessage | translate/translate.cpp:260-268 | Consumes every message |
| QueryModule.Instance.HandleData | chatbot/chatbot.cpp:112-145 | The callback is the protocol's data step, in place on the heap |
| QueryModule.Instance.HandleStatus | chatbot/chatbot.cpp:147-161 | The callback is the protocol's status step |
| QueryModule.Instance.ChatbotOnClose | chatbot/chatbot.cpp:163-196 | The callback is the protocol's close step, leaving the context on failure or a missing field |
| QueryModule.Instance.TranslateOnClose | translate/translate.cpp:158-183 | The callback is the protocol's close step, given that extraction succeeds |
| CText.PrintedIsCut | chatbot/chatbot.cpp:250-251 | The message is cut at its length modulo 2^32 where that is below 2^31, and printed up to its terminator otherwise |
| Json.LiteralExact | chatbot/chatbot.cpp:249-251 | A string printed between quotes as it is reads back as itself exactly when nothing in it needs escaping, even if it swallows its closing quote |
| RequestText.ChatbotPostReadsBack | chatbot/chatbot.cpp:249-251 | The chatbot body reads back as its nested text and languageCode exactly when both need no escaping |
| RequestText.TranslatePostReadsBack | translate/translate.cpp:224-226 | The translate body reads back as its q and target exactly when both need no escaping |
| ScriptCache.MesiboJsProcessor.GetContext | v8-module/mesibo_js_processor.cpp:75-99 | Reloads at most once, exactly when the stored stamp is set and differs, and returns the context then held |
| ScriptCache.MesiboJsProcessor.Initialize | v8-module/mesibo_js_processor.cpp:242-299 | Without a file nothing changes; success means compiled and run |
| ScriptCache.MesiboJsProcessor.ExecuteScript | v8-module/mesibo_js_processor.cpp:149-199 | The context is replaced first, the listeners only after a successful run |
| ScriptCache.MesiboJsProcessor.OnMessage | v8-module/mesibo_js_processor.cpp:363-399 | Calls the held listener in the context of the refreshed cache, or nothing if it is null |
| ScriptCache.CacheVersions | v8-module/mesibo_js_processor.cpp:149-199 | In every run the context is that of the last script loaded, the listeners those of the last that compiled and ran, different only while the last load failed |
| ScriptCache.ReloadsCountChanges | v8-module/mesibo_js_processor.cpp:75-99 | With stamps that are non-zero and fit an int, the reloads the cache makes, from the stamp it stores, equal adjacent differing observations |
| ScriptCache.ReloadDecisionExact | v8-module/mesibo_js_processor.cpp:84-85 | The decision after a stamp is right for every next stamp if and only if the stamp is non-zero and fits an int |
| ScriptCache.ContextIsFresh | v8-module/mesibo_js_processor.cpp:75-99 | With identifying stamps and no edit before first use, every use that finds the file gets its current context, and its listener if it compiled and ran |
| ScriptCache.FreshExactly | v8-module/mesibo_js_processor.cpp:75-99 | When each use finds the file with a stamp that is non-zero and fits an int, all uses enter a context of the current file if and only if the first finds what was loaded and no edit between neighbouring uses keeps the stamp |
| ScriptCache.EditWithinOneStamp | v8-module/mesibo_js_processor.cpp:84-85 | From any point of a run on, uses that find the stamp last observed leave context and listeners as they are, whatever the file holds |
| CText.StrUpr | filter/filter.cpp:69-76 | Upper-cases up to the terminator and nothing after it |
| CText.UpperCharIs | filter/filter.cpp:72-73 | The letters a to z become A to Z, every other character stays |
| CText.UpperOccurs | filter/filter.cpp:95-102 | An upper-cased word occurs in an upper-cased text exactly when it occurs ignoring case |
| Filter.ScanStopsExactly | filter/filter.cpp:110-117 | The counting loop overruns the string exactly when it ends in an odd number of commas |
| Filter.GetCountWords | filter/filter.cpp:110-117 | The commas seen plus one, stopping at the terminator |
| Filter.CountIsCommas | filter/filter.cpp:109-117 | The commas counted are all commas, as the comment promises, exactly when no two stand side by side, and never more |
| Filter.StrTok | filter/filter.cpp:135-138 | The next maximal run, with the rest of the list left to be cut the same way |
| Filter.CutWords | filter/filter.cpp:134-140 | Every run is stored in order and upper-cased, each in its own slot |
| Filter.CountMatchesTokens | filter/filter.cpp:124-142 | On every list of words of any characters but comma, space and NUL, one comma between them and optional spaces around, the count is the number of tokens, which are the words listed |
| Filter.OnMessage | filter/filter.cpp:86-107 | Consumed exactly when some blocked word occurs in the upper-cased message, cut at len or the first NUL |
| Filter.Decide | filter/filter.cpp:86-107 | From configuration line to decision: dropped exactly when some listed word occurs ignoring case |
| ExternalMemory.Isolate.AdjustAmountOfExternalAllocatedMemory | v8-module/v8-lib/include/v8.h:11421-11460 | The new counters, and which of the two callbacks fire |
| ExternalMemory.CounterIsTotal | v8-module/v8-lib/include/v8.h:11436-11439 | Over any run the counter is the true total modulo 2^64, and equal to it exactly when it fits 64 bits |
| ExternalMemory.CounterIgnoresOrder | v8-module/v8-lib/include/v8.h:11436-11439 | The counter does not depend on the order of changes |
| ExternalMemory.LimitKeepsFloor | v8-module/v8-lib/include/v8.h:11451-11457 | A limit of 64 MiB or more never rises and never falls below 64 MiB |
| ExternalMemory.LimitMoves | v8-module/v8-lib/include/v8.h:11450-11456 | A negative change lowers the limit by its amount if the result, wrapped, stays above 64 MiB; nothing else moves it |
| ExternalMemory.LimitFollowsChanges | v8-module/v8-lib/include/v8.h:11450-11456 | Over any run from a limit of zero or more, the limit is what plain integers give |
| Tagging.ValidSmiIsRange | v8-module/v8-lib/include/v8-internal.h:69-97 | The wrapping validity test is the plain range test, on 32- and 64-bit words |
| Tagging.SmiRoundTrip | v8-module/v8-lib/include/v8-internal.h:124-127 | Decoding an encoded int gives it back exactly for the valid ints; no encoding has the heap object tag |
| Tagging.EncodedIs | v8-module/v8-lib/include/v8-internal.h:214-220 | A Smi is the integer times 2, or times 2^32, as an unsigned word |
| Tagging.HeapObjectTagExactly | v8-module/v8-lib/include/v8-internal.h:124-127 | A word has the heap object tag exactly when it is one more than a multiple of four |
| Tagging.GetRootFromOnHeapAddress | v8-module/v8-lib/include/v8-internal.h:334-337 | The masked address is the address rounded down to 4 GiB |
| Tagging.DecompressionIsBranchFree | v8-module/v8-lib/include/v8-internal.h:339-347 | For every base and field, decoding is the pointer decoding when the low bit is 1 and the Smi decoding when it is 0 |
| Tagging.DecodingsAre | v8-module/v8-lib/include/v8-internal.h:308-347 | For every base and field, decoding adds the field as a signed 32-bit number, modulo 2^64, to the root for a pointer and to nothing for a Smi, the branch-free form to the one its low bit selects |
| MessageParams.CtoJ | v8-module/mesibo_js_message.cpp:250-278 | Every parameter is a property, numbers in 32 bits, absent addresses null |
| MessageParams.JtoC | v8-module/mesibo_js_message.cpp:281-301 | Reads every parameter back into a zeroed struct |
| MessageParams.ParamsRoundTrip | v8-module/mesibo_js_message.cpp:250-301 | Each number is restored exactly when below 2^32, addresses including null always, all other fields zeroed |
| MessageParams.WrittenProperties | v8-module/mesibo_js_message.cpp:262-270 | Which property holds which parameter: the low 32 bits of a number, an address or null |
| MessageParams.ReadFields | v8-module/mesibo_js_util.cpp:94-124 | Which field is read from which property, for any object: absent or null is zero or a null address, a number of another kind all ones |
| MessageParams.EnableMessageProperty | v8-module/mesibo_js_message.cpp:304-329 | True turns the mask on, false does nothing, anything else fails |
| MessageParams.FlagsAccumulate | v8-module/mesibo_js_message.cpp:323-326 | After any calls, valid flags are the initial flags or'ed with the union of the masks turned on |
| MessageParams.FlagBits | v8-module/mesibo_js_message.cpp:331-362 | After any calls on valid flags, bits 0, 1 and 3 of the flags are on if they were or if delivery receipts, read receipts or presence were enabled, bit 0 of the online property likewise, and every other bit is as it was |
| MessageParams.OtherPropertiesStay | v8-module/mesibo_js_message.cpp:323-326 | The calls touch no other property |
| MessageParams.OnlyFeaturesMatter | v8-module/mesibo_js_message.cpp:331-362 | Order and repetition of the calls do not matter |
| MessageParams.InvalidFlagsSaturate | v8-module/mesibo_js_util.cpp:3-16 | A property that is not a valid number turns into all flags at once |

## Left out

- V8 itself, the profiler, inspector, platform and tracing headers: no bodies to model; engine calls are abstract operations on cells, contexts and properties.
- The host (`mesibo_message`, `mesibo_util_http`, `mesibo_util_json_extract`, `mesibo_util_getconfig`): an arbitrary extraction function, arbitrary event sequences, and the contract stated above.
- Reuse of cell addresses and of freed memory by later allocations: addresses and contexts get fresh identities, which makes double disposal and use after free visible.
- Containers.ValueMap.Clear: disposals of user code may insert and let their value go; keeping the value elsewhere or removing other entries from within a disposal is not modelled.
- HandleWorld.StepKeeps: `Persistent` handles with non-copyable traits are not owners there, since their destructor does not reset; the collector marks and runs one callback as one step.
- RequestProtocol.RepliesAreRouted: reply ids come from `rand()` and are arbitrary; response types, which these two modules only log, and logging are left out.
- Filter.CountMatchesTokens: lists with leading, trailing or doubled commas, or words separated by spaces alone, are malformed; only the overrun of the counting loop is characterised for them.
- The fixed 1024-byte url buffer of the chatbot.
- Locale: `toupper` is that of the C locale; texts are sequences of characters, without UTF-8 encoding.
- ScriptCache.ContextIsFresh: the file system is a stamp and a content per call; a file that disappears between `access` and `fopen` aborts the process and is not modelled.
- MessageParams.ParamsRoundTrip: a null parameter struct, and JavaScript getters or setters that throw.
- `fcgi`, `skeleton` and the V8 socket code: pass-through I/O and demonstrations.
- JsHttp.JsRequest.OnStatus: response types longer than their buffer, whose length the code does not check.
- HandleWorld.FaultsAreEmptySets: what the engine does when it is called about no cell; such a call is counted and the run goes on.
- Allocation failure, module initialisation and clean-up.
