# Verified models of the LaunchDarkly JavaScript SDKs

Dafny models of the parts of the SDK monorepo whose correctness spans several functions, loops or
interleaved steps, with proofs of what those parts keep. `dafny verify dfyconfig.toml` checks
everything.

| file | models |
|---|---|
| `Base.dfy` | `Option`, distinct sequences, `replace`, `split` and `join` on strings, sorting of strings |
| `References.dfy` | attribute references: escaping, parsing, validation |
| `JsValues.dfy`, `ContextFilter.dfy`, `Redaction.dfy`, `RedactionList.dfy`, `FilterSingleKind.dfy` | redaction of private attributes, on heaps of objects that may share and form cycles |
| `Contexts.dfy` | context validation and canonical keys |
| `Storage.dfy` | the write-behind flag cache of the Node and Electron clients |
| `NodeDataManager.dfy` | identify and connection-mode transitions of the Node client |
| `Emitter.dfy`, `BrowserStreaming.dfy` | the event emitter, and when the browser client streams |
| `IpcSubscriptions.dfy` | event subscriptions of Electron renderer processes |
| `Redis.dfy`, `RedisInit.dfy`, `DynamoDB.dfy` | the persistent feature stores |
| `Graphs.dfy`, `AgentGraphs.dfy`, `Prerequisites.dfy` | reachability, agent graph gating, prerequisite evaluation |
| `Utf8.dfy` | the UTF-8 polyfill of the React Native client, against RFC 3629 |
| `Migrations.dfy` | the two-store migration machine and its events |

## How the models are built

Code that computes is a function. Code that loops or updates fields is a method or a class, proved
equal to a specification function; the properties are lemmas about that function. Asynchronous
code is a state machine whose steps are the synchronous segments between awaits: a `State`
datatype, an `Action` datatype for everything the environment can choose (which callback comes
next, whether an operation succeeds), a `Step` and a `Run` over any sequence of actions. A class
with the source's fields has one method per segment, and each method ensures
`View() == Step(old(View()), action)`. The protocol theorems are about every `Run` from an
`Initial` state. Fields that only record history (which promises were settled, how many changes a
snapshot holds) are ghost where the code does not have them.

## What the proofs found

Where the code does not meet a property everywhere, the model keeps the code, and a lemma says
exactly when the property holds.

- `unescape` decodes nothing when a component's escaped form starts with `~`, so references whose
  components begin with `~` or `/` do not survive printing and parsing (`References.RoundTrip`,
  `References.LiteralNameRoundTrip`).
- The validation class `[^0|^1]` also accepts `~|` and `~^`, and its `.` does not pass a line
  terminator (`References.ValidatedOutsideRfc6901`, with three instances in
  `References.OverlookedTildes`).
- `_meta` is protected, its contents are not: a private reference `/_meta/...` is marked invalid,
  but the filter does not look at validity and redacts (`FilterSingleKind.MetaContentsIff`,
  `FilterSingleKind.InvalidReferenceRedactsMeta`). Valid references never do
  (`FilterSingleKind.ValidReferencesSpareMeta`).
- Filtering throws when something is redacted and `_meta`, as in a legacy user's `custom`, is a
  string, a number or `true` (`FilterSingleKind.Filter`).
- An attribute that leads back to an object it is nested in is dropped from the redacted clone, and
  the lookups in clone and original agree exactly where no path repeats
  (`Redaction.OtherReferencesAgree`).
- A call of the Electron storage may resolve although nothing was written exactly when it finds a
  flush pending: the promise it then holds swallows the error (`Storage.ResolvesUnwrittenIff`).
- `close` of the browser client neither clears the data source nor stops what starts one, so a
  closed client may open a stream again: when it had no data source and a listener or
  `setStreaming` asks for one, or when the poll of an identify ends. A client that was streaming
  when it was closed stays shut until streaming is turned off or a poll ends
  (`BrowserStreaming.ClosedReopensIff`, `BrowserStreaming.CloseThenReopensIff`,
  `BrowserStreaming.StreamingClosedStaysShut`).
- An identify of the browser client is never settled, and blocks all later ones, exactly when the
  client is closed as it begins, when the payload of its poll does not parse, is `null` or has a
  `null` entry, or when storing the flags rejects (`BrowserStreaming.IdentifyHangsIff`, with the
  instances in `BrowserStreaming.NullPayloadHangs`).
- After a failed cache load the browser client keeps the stream of the context before, or no
  stream where it should have one (`BrowserStreaming.LoadFailureIsStaleIff`).
- `init` of the DynamoDB store replaces the supplied namespaces exactly when no stale row has a `$`
  in its namespace, prefix included, or in its key, and no item is supplied in the row of the
  token (`DynamoDB.InitReplaces`). With a `$` in the configured prefix it deletes nothing; with
  one in a stale key it may delete a row just written.
- A callback id added again for another event leaves its old port behind, and one added for the
  empty event name cannot be removed (`IpcSubscriptions.InadmissibleAddBreaks`). When the
  application removes all listeners of a subscribed event, its ports get nothing more until all of
  them are gone (`IpcSubscriptions.InadmissibleOffSilences`, `IpcSubscriptions.SilentUntilDropped`).
- The agent graph gate tests the key it finds for truth, so a disconnected graph passes when the
  first unreachable key is empty (`AgentGraphs.PassesGate`).
- The canonical key of a single user can be that of another context, exactly when the user key is
  spelled as one (`Contexts.UserKeyCollidesIff`).

## Model

| member | source | states |
|---|---|---|
| References.ToRefStringEscapes | packages/shared/common/src/AttributeReference.ts:8-10 | the two replacements of `toRefString` are the escaping of section 3 of RFC 6901, on every string |
| References.ReplacedIsDecode | packages/shared/common/src/AttributeReference.ts:17-19 | the two sequential replacements of `unescape` equal one decoding pass (section 4 of RFC 6901), on every string |
| References.DecodeEscape | packages/shared/common/src/AttributeReference.ts:8-19 | one-pass decoding undoes escaping |
| References.UnescapeEscape | packages/shared/common/src/AttributeReference.ts:8-19 | `unescape` undoes the escaping of a component exactly when the component does not start with `~` or `/` |
| References.PrintValidates | packages/shared/common/src/AttributeReference.ts:30-32 | a printed component list passes `validate` exactly when no component but the last is empty |
| References.ValidatedOutsideRfc6901 | packages/shared/common/src/AttributeReference.ts:30-32 | the exact references with a leading `/` that pass `validate` without being well formed by RFC 6901: every tilde that opens no escape is followed by `|` or `^` or comes after a line terminator |
| References.OverlookedTildes | packages/shared/common/src/AttributeReference.ts:30-32 | three such references |
| References.ParsePrint | packages/shared/common/src/AttributeReference.ts:64-96 | what the constructor reads back from a printed list, and when it is valid |
| References.RoundTrip | packages/shared/common/src/AttributeReference.ts:8-96 | on all component lists: printing then parsing gives a valid reference with the same components iff no component starts with `~` or `/`, none but the last is empty, and the first is neither empty nor `_meta` |
| References.PrintedIsValid | packages/shared/common/src/AttributeReference.ts:64-96 | non-empty components whose first is not `_meta` always print to a valid reference of the same depth |
| References.LiteralNameRoundTrip | packages/shared/common/src/AttributeReference.ts:64-96 | the exact literals whose redaction name, read as a reference, denotes the literal |
| References.IntoMetaIff | packages/shared/common/src/AttributeReference.ts:64-96 | the strings the constructor reads as references into `_meta` are those that start with `/_meta/` and pass `validate`, and all are invalid |
| References.ParseSays | packages/shared/common/src/AttributeReference.ts:64-96 | what the constructor makes of any string: nothing of one `validate` refuses, one component of a name, and the pieces between the `/` of any other, decoded unless they start with `~`; the exact validity of each |
| References.LiteralSays | packages/shared/common/src/AttributeReference.ts:90-95 | a literal is its only component, and its redaction name is escaped exactly when it starts with `/` |
| ContextFilter.FirstMatch | packages/shared/common/src/ContextFilter.ts:24-47 | the first reference equal to the path, or none and then no reference is equal |
| ContextFilter.FirstMatchIsFirst | packages/shared/common/src/ContextFilter.ts:51 | when several references are equal to the path, the one found is the first |
| ContextFilter.CloneWithRedactions | packages/shared/common/src/ContextFilter.ts:28-93 | on every finite heap, cyclic or shared, the stack loop ends and its clone is the tree of a recursive walk that stops when an object repeats on its own branch; the names are the walk's multiset, sorted |
| ContextFilter.KeepPromise | packages/shared/common/src/ContextFilter.ts:49-86 | filling one slot of the partial clone with what the walk says keeps every other promise of the stack |
| ContextFilter.Advance | packages/shared/common/src/ContextFilter.ts:49-86 | popping one entry and pushing its children keeps clone, names and visit count consistent with the walk |
| Redaction.Get | packages/shared/common/src/AttributeReference.ts:98-127 | the loop of `get` finds the value at the components, undefined when a step is missing or the reference is invalid |
| Redaction.RedactsIff | packages/shared/common/src/ContextFilter.ts:24-57 | walking down a path meets a match exactly when some reference is a non-empty prefix of it below the start |
| Redaction.RedactedIsGone | packages/shared/common/src/ContextFilter.ts:28-93 | nothing is found in the clone at or below a matched path, on any heap |
| Redaction.PrivateReferenceIsUndefined | packages/shared/common/src/ContextFilter.ts:28-93 | a reference equal to or extending a private one finds nothing in the clone |
| Redaction.KeptIff | packages/shared/common/src/ContextFilter.ts:28-93 | the clone has something at a path iff the original has, no reference matches on the way and the path never enters an object it is inside of |
| Redaction.UnfoldsIff | packages/shared/common/src/ContextFilter.ts:58-86 | where no reference reaches below it, the copy of an object is structurally equal to it iff no path from it repeats |
| Redaction.AgreeIff | packages/shared/common/src/ContextFilter.ts:28-93 | on a path no reference is a prefix or extension of, the lookups in original and clone agree iff nothing is found or no path through it repeats |
| Redaction.OtherReferencesAgree | packages/shared/common/src/ContextFilter.ts:28-93 | the same for a reference looked up in a whole context, whatever cycles it has elsewhere |
| Redaction.AcyclicNeverRepeats | packages/shared/common/src/ContextFilter.ts:63-72 | without cycles no path repeats, so there the lookups always agree |
| Redaction.CycleIsDropped | packages/shared/common/src/ContextFilter.ts:70-84 | an instance of `KeptIff`: the smallest cyclic context loses its back reference |
| Redaction.GetInClone | packages/shared/common/src/AttributeReference.ts:98-127 | `get` on the objects of the clone |
| Redaction.CloneLookup | packages/shared/common/src/ContextFilter.ts:28-93 | in the objects `cloneWithRedactions` returns, a path is found iff the original has it, no private reference is a prefix of it and it does not repeat; the value is a structural copy when none extends it either |
| RedactionList.HitsCount | packages/shared/common/src/ContextFilter.ts:40-57 | the walk below a value lists each name as often as it removes a path under it |
| RedactionList.HitsIff | packages/shared/common/src/ContextFilter.ts:40-57 | the removed paths below a value are those the walk reaches and whose first match has the name |
| RedactionList.EachRemovalIsListed | packages/shared/common/src/ContextFilter.ts:89-92 | `redactedAttributes` lists every name with exactly the multiplicity of reached paths whose first match has it |
| FilterSingleKind.Filter | packages/shared/common/src/ContextFilter.ts:138-173 | for every `_meta`: throws iff something is redacted and `_meta` is a non-empty string, a non-zero number or `true`; otherwise the result, edited in place, has exactly the attributes of the context that no configured or own private attribute hides, with their values, and the sorted list names exactly those taken out |
| FilterSingleKind.HiddenIff | packages/shared/common/src/ContextFilter.ts:125-136 | a path is redacted iff all attributes are private and it begins with an unprotected top-level one, or some configured or own reference other than `key`, `kind`, `_meta` and `anonymous` is a beginning of it |
| FilterSingleKind.ResultIff | packages/shared/common/src/ContextFilter.ts:138-173 | on every heap an ordinary path is in the result iff the context has it, it is not private and does not repeat; a value that is no object is the same |
| FilterSingleKind.LegacyStrings | packages/shared/common/src/ContextFilter.ts:14-22 | for a legacy user each of the seven listed attributes is in the result iff it is not private, as a string |
| FilterSingleKind.NamedIff | packages/shared/common/src/ContextFilter.ts:51-89 | an attribute is listed under the name of the first configured or own reference equal to it, configured ones first; with all attributes private, under its own name |
| FilterSingleKind.ListIff | packages/shared/common/src/ContextFilter.ts:89-92 | each name is listed as often as it takes out an attribute that the context has and that nothing private contains |
| FilterSingleKind.EditRoot | packages/shared/common/src/ContextFilter.ts:150-170 | editing the root node leaves every subtree alone |
| FilterSingleKind.EditMeta | packages/shared/common/src/ContextFilter.ts:157-170 | editing the `_meta` node changes `_meta` and nothing else |
| FilterSingleKind.CopyLegacy | packages/shared/common/src/ContextFilter.ts:150-156 | legacy users get exactly the listed attributes turned into strings |
| FilterSingleKind.AddRedactions | packages/shared/common/src/ContextFilter.ts:159-164 | `_meta.redactedAttributes` is installed when the list is not empty, making `_meta` if it is falsy; throws iff `_meta` takes no properties |
| FilterSingleKind.DropPrivateList | packages/shared/common/src/ContextFilter.ts:165-170 | `_meta.privateAttributes` goes, and `_meta` with it when nothing is left of it |
| FilterSingleKind.ProtectedSurvive | packages/shared/common/src/ContextFilter.ts:9-11 | `key`, `kind` and `anonymous` come through unchanged whatever is configured |
| FilterSingleKind.MetaBookkeeping | packages/shared/common/src/ContextFilter.ts:159-170 | an object `_meta` in the result is never empty, never lists private attributes, and lists the redacted ones whenever there are any, unless `_meta` was an array |
| FilterSingleKind.OddMetaStaysIff | packages/shared/common/src/ContextFilter.ts:159-170 | exactly which `_meta` that are no objects stay in the result |
| FilterSingleKind.AllPrivate | packages/shared/common/src/ContextFilter.ts:125-136 | with all attributes private, every unprotected top-level attribute is gone and the list names exactly those |
| FilterSingleKind.MetaContentsIff | packages/shared/common/src/ContextFilter.ts:125-136 | a path below `_meta` is redacted iff not all attributes are private and some private reference, valid or not, is a beginning of it longer than `_meta` |
| FilterSingleKind.ValidReferencesSpareMeta | packages/shared/common/src/ContextFilter.ts:125-136 | valid references the constructor makes never redact below `_meta` |
| FilterSingleKind.InvalidReferenceRedactsMeta | packages/shared/common/src/ContextFilter.ts:125-136 | an instance: the invalid `/_meta/x` removes `_meta.x` |
| Contexts.FromLDContextIsWellFormed | packages/shared/common/src/Context.ts:228-345 | every context the factories accept has valid distinct kinds and non-empty keys, but for the key of a legacy user |
| Contexts.FromLDContextKeepsKeys | packages/shared/common/src/Context.ts:228-345 | the factories accept exactly the inputs with valid kinds, nested objects and valid keys, and the context has exactly their kinds and keys; one kind in a multi-kind input makes a single-kind context |
| Contexts.RefusalsInOrder | packages/shared/common/src/Context.ts:228-345 | why an input is refused: the first that applies of no context, no kinds, a bad kind, something that is no object, a bad key |
| Contexts.KindSpellingIff | packages/shared/common/src/validators.ts:175-183 | kinds are the non-empty words of ASCII letters, digits, `_`, `.` and `-`, except `kind` |
| Contexts.EncodeKeyIsEncoded | packages/shared/common/src/Context.ts:40-45 | the guard and the two passes come to encoding each character |
| Contexts.EncodeKeyAt | packages/shared/common/src/Context.ts:40-45 | anywhere in a key `%` becomes `%25`, `:` becomes `%3A`, and every other character stays |
| Contexts.DecodeEncode | packages/shared/common/src/Context.ts:40-45 | encoded keys have no `:`, can be decoded, and are empty only for the empty key |
| Contexts.SplitParts | packages/shared/common/src/Context.ts:404-415 | splitting a canonical key at `:` gives back kinds and encoded keys in turn |
| Contexts.CanonicalKeyIdentifies | packages/shared/common/src/Context.ts:404-441 | two valid contexts that are not single users have the same canonical key iff they have the same kinds and keys, in whatever order the kinds are given |
| Contexts.ReadBackSpells | packages/shared/common/src/Context.ts:404-415 | a text of the canonical form is the canonical key of the valid context read back from it |
| Contexts.UserKeyCollidesIff | packages/shared/common/src/Context.ts:404-415 | a single user shares its canonical key with some other valid context iff its key is spelled as a canonical key |
| Storage.StepKeepsInvariant | packages/sdk/node-client/src/platform/NodeStorage.ts:82-168 | every step keeps: one flush running and one waiting at most, contents are prefixes of the changes, every call awaits a flush that will hold its change or is answered |
| Storage.RunKeepsInvariant | packages/sdk/node-client/src/platform/NodeStorage.ts:82-168 | the same over every run |
| Storage.FileIsOneSnapshot | packages/sdk/node-client/src/platform/NodeStorage.ts:82-116 | a crash anywhere leaves the file as it was or holding one complete snapshot: the initial content with a prefix of the changes |
| Storage.FileChangesWhole | packages/sdk/electron/src/platform/ElectronStorage.ts:46-59 | only a successful rename changes the file, to the whole snapshot of the running flush |
| Storage.RunsOnlyAdd | packages/sdk/node-client/src/platform/NodeStorage.ts:155-168 | snapshots reach the file in order, answers are never taken back, changes are only added |
| Storage.AnsweredAfterFlush | packages/sdk/node-client/src/platform/NodeStorage.ts:127-168 | a call is answered only after a flush whose snapshot has its change has ended; if that flush wrote, the change stays in the file for the rest of the run |
| Storage.LeaderResolvesOnceWritten | packages/sdk/electron/src/platform/ElectronStorage.ts:83-102 | in Electron the call that scheduled a flush resolves only when its change is in the file |
| Storage.ResolvesUnwrittenIff | packages/sdk/electron/src/platform/ElectronStorage.ts:83-102 | from every reachable state: some continuation resolves the call before its change is in the file iff the call finds `_flushPending` set, or the storage is the Node one, which only logs failures |
| Storage.RunKeepsRole | packages/sdk/node-client/src/platform/NodeStorage.ts:155-168 | a call that scheduled its flush stays the one that did, and one that joined stays one that joined, until it is answered and after |
| Storage.FollowerResolvesUnwritten | packages/sdk/electron/src/platform/ElectronStorage.ts:89-102 | an instance of `ResolvesUnwrittenIff`: the second of two calls resolves although nothing was written |
| Storage.QuietFileIsCache | packages/sdk/node-client/src/platform/NodeStorage.ts:155-168 | when nothing waits and nothing runs, every call is answered and the file holds the cache if the last flush wrote |
| Storage.GetReadsLastChange | packages/sdk/node-client/src/platform/NodeStorage.ts:122-153 | at any moment of any run, whatever the flushes did, a key reads as the last recorded change of it left it; which calls are recorded is `CallsAreChanges` |
| Storage.GetReadsLastCall | packages/sdk/node-client/src/platform/NodeStorage.ts:122-153 | by the calls of the run: a key reads as the last `set` or `clear` called on it left it, or as it was read from the file; a disabled Electron storage keeps its cache |
| Storage.CallsAreChanges | packages/sdk/node-client/src/platform/NodeStorage.ts:127-153 | a `set`, and a `clear` of a cached key, is one change more, which somebody waits for; any other call changes nothing |
| Storage.DisabledLeavesDisk | packages/sdk/node-client/src/platform/NodeStorage.ts:127-153 | after a failed initialization no run touches the disk |
| Storage.EveryCallIsAnswered | packages/sdk/node-client/src/platform/NodeStorage.ts:82-168 | from any reachable state, whatever succeeds or fails, at most thirteen flush steps answer every call |
| Storage.FlushWritesCache | packages/sdk/node-client/src/platform/NodeStorage.ts:155-168 | a flush whose operations all succeed leaves the cache in the file, no temporary file, and tells everybody who waits that it wrote |
| Storage.FailureEndsFlush | packages/sdk/node-client/src/platform/NodeStorage.ts:99-115 | after any failure but that of the first removal the flush removes its temporary file and ends, the file stays, and everybody who waits is told that nothing was written |
| Storage.FlushOperations | packages/sdk/node-client/src/platform/NodeStorage.ts:82-98 | the file operations of a flush that goes well, in order, for both storages |
| Storage.NoOldTempNeeded | packages/sdk/node-client/src/platform/NodeStorage.ts:86-98 | that there is no old temporary file to remove does no harm |
| Storage.OpensExclusively | packages/sdk/node-client/src/platform/NodeStorage.ts:94 | a temporary file that could not be removed is never written to |
| Storage.NoTempIsLeft | packages/sdk/node-client/src/platform/NodeStorage.ts:98-113 | a flush whose last operation succeeds leaves no temporary file |
| Storage.FlagCache.ScheduleFlush | packages/sdk/node-client/src/platform/NodeStorage.ts:155-168 | joins the waiting flush or chains a new one, and does nothing else |
| Storage.FlagCache.SetItem | packages/sdk/node-client/src/platform/NodeStorage.ts:127-138 | the step of the state machine for `set` |
| Storage.FlagCache.ClearItem | packages/sdk/electron/src/platform/ElectronStorage.ts:69-75 | the step for `clear`, which ignores keys not cached |
| Storage.FlagCache.BeginFlush | packages/sdk/node-client/src/platform/NodeStorage.ts:161-164 | the chained closure copies the cache and clears the pending flag |
| Storage.FlagCache.ResumeFlush | packages/sdk/node-client/src/platform/NodeStorage.ts:82-116 | the step for each file operation that ends, well or badly |
| NodeDataManager.StepKeepsInvariant | packages/sdk/node-client/src/NodeDataManager.ts:62-337 | every segment keeps: one live processor that follows the mode and the context, events follow the mode, no identify left hanging |
| NodeDataManager.RunKeepsInvariant | packages/sdk/node-client/src/NodeDataManager.ts:62-337 | the same over every run of identifies, mode requests, callbacks, flushes and closing |
| NodeDataManager.OneProcessorAsTheModeSays | packages/sdk/node-client/src/NodeDataManager.ts:187-329 | at every await point at most one processor is live, of the mode's kind and for the current context, none offline or closed, one whenever online; events are sent iff not offline, even if the flush rejects |
| NodeDataManager.NoIdentifyHangs | packages/sdk/node-client/src/NodeDataManager.ts:62-169 | every identify begun is settled, inside `loadCached`, or pending with its callbacks on the live processor |
| NodeDataManager.PendingIsSettledBy | packages/sdk/node-client/src/NodeDataManager.ts:62-70 | a pending identify is rejected by a mode change, closing or an error, resolved by the flags, and settled by nothing else; no other promise is touched |
| NodeDataManager.OthersSettleNothing | packages/sdk/node-client/src/NodeDataManager.ts:62-70 | with no identify pending, nothing is settled but by a step that begins an identify or ends its cache load |
| NodeDataManager.IdentifyBegins | packages/sdk/node-client/src/NodeDataManager.ts:72-125 | from every reachable state: `identify` is rejected by a closed client, resolved by a bootstrap, which online connects for the context, and otherwise stays open and loads its cache |
| NodeDataManager.LoadEnds | packages/sdk/node-client/src/NodeDataManager.ts:126-169 | from every reachable state: after the cache load a closed client rejects, cached flags resolve unless the caller waits for the network and began online, offline resolves iff it began offline, and otherwise the identify is pending on the processor started for it; the exact processor |
| NodeDataManager.ModesTakeTurns | packages/sdk/node-client/src/NodeDataManager.ts:264-332 | from every reachable state: which steps change the mode, to what, start a flush and take a transition off the queue |
| NodeDataManager.ModesReconnect | packages/sdk/node-client/src/NodeDataManager.ts:284-324 | from every reachable state: a mode change online starts exactly one processor, for the current context, and no other step that is no identify starts or replaces one |
| NodeDataManager.CloseSettlesAll | packages/sdk/node-client/src/NodeDataManager.ts:127-131 | after closing and the end of the load in progress, every identify is settled |
| NodeDataManager.SettledOnce | packages/sdk/node-client/src/NodeDataManager.ts:197-213 | a promise keeps its first outcome through the rest of the run |
| NodeDataManager.LastRequestWins | packages/sdk/node-client/src/NodeDataManager.ts:264-332 | transitions asked for at any moments leave the mode asked for last, unless a flush fails or the client closes |
| NodeDataManager.DataManager.BeginIdentify | packages/sdk/node-client/src/NodeDataManager.ts:72-125 | `identify` up to its await is the step of the state machine |
| NodeDataManager.DataManager.ResumeIdentify | packages/sdk/node-client/src/NodeDataManager.ts:126-168 | `identify` after its await, with all its branches |
| NodeDataManager.DataManager.RejectPendingIdentify | packages/sdk/node-client/src/NodeDataManager.ts:62-70 | captures, clears, then rejects |
| NodeDataManager.DataManager.SetupProcessor | packages/sdk/node-client/src/NodeDataManager.ts:187-262 | closes the old processor and installs one with the callbacks recorded as pending |
| NodeDataManager.DataManager.BeginTransition | packages/sdk/node-client/src/NodeDataManager.ts:269-285 | a transition up to its flush, or to its end |
| NodeDataManager.DataManager.ResumeTransition | packages/sdk/node-client/src/NodeDataManager.ts:284-324 | a transition after its flush, resynchronizing events even on failure |
| NodeDataManager.DataManager.ChangeMode | packages/sdk/node-client/src/NodeDataManager.ts:287-315 | sets the mode, rejects the pending identify and replaces or removes the processor |
| NodeDataManager.DataManager.CallBack | packages/sdk/node-client/src/NodeDataManager.ts:201-213 | the wrapped callbacks clear the pending reject and settle the identify |
| NodeDataManager.DataManager.CloseManager | packages/shared/sdk-client/src/DataManager.ts:273-276 | rejects the pending identify, closes the processor, marks the manager closed |
| Emitter.OnOffCounts | packages/shared/sdk-client/src/LDEmitter.ts:28-65 | `on` adds one call of a listener, `off` removes all of them, or all of the event when no listener is given; other listeners and events are left alone |
| Emitter.OnOffOrder | packages/shared/sdk-client/src/LDEmitter.ts:28-65 | listeners are called in the order they were added, also after others were removed |
| Emitter.LDEmitter.RemoveListener | packages/shared/sdk-client/src/LDEmitter.ts:46-65 | filters the listener out and drops the event when nobody is left; without a listener drops the event |
| Emitter.LDEmitter.Emit | packages/shared/sdk-client/src/LDEmitter.ts:75-78 | invokes exactly the listeners of the event, in order |
| Emitter.LDEmitter.ListenerCount | packages/shared/sdk-client/src/LDEmitter.ts:84-87 | an event is named iff it has a listener |
| BrowserStreaming.StepKeepsInvariant | packages/sdk/browser/src/BrowserDataManager.ts:204-251 | every step but closing keeps one stream at most, open only if it should be |
| BrowserStreaming.StreamOpenExactly | packages/sdk/browser/src/BrowserDataManager.ts:74-107 | after any run on an unclosed client, between identifies whose cache loads, a stream is open iff a context is set and streaming is forced on or is unforced with some change listener; it is for the latest context |
| BrowserStreaming.FlagListenerStreams | packages/sdk/browser/src/BrowserClient.ts:279-294 | in particular a listener for `change:` and any flag key keeps the stream open |
| BrowserStreaming.RunKeepsInputs | packages/sdk/browser/src/BrowserClient.ts:279-294 | over every run the forced setting is the last one asked for, and each listener is registered as often as it was added since it was last removed |
| BrowserStreaming.StepKeepsInputs | packages/sdk/browser/src/BrowserDataManager.ts:74-107 | each step changes its own input only; the context is that of the last identify that begins on an open client |
| BrowserStreaming.CloseEndsStream | packages/shared/sdk-client/src/DataManager.ts:273-276 | closing leaves no stream open |
| BrowserStreaming.LoadFailureIsStaleIff | packages/sdk/browser/src/BrowserDataManager.ts:94-102 | for every run in which a cache load rejects, and at every later moment until a stream is started or stopped or an identify begins: the stream is as it should be iff before the rejection none was wanted or the installed one was for the context of that identify already |
| BrowserStreaming.ClosedReopensIff | packages/sdk/browser/src/BrowserDataManager.ts:204-251 | a closed client without a stream opens one in a step iff the step leaves it wanting a stream, with a context and no data source, or ends the poll of an identify while it wants one |
| BrowserStreaming.CloseThenReopensIff | packages/sdk/browser/src/BrowserDataManager.ts:204-251 | after any run that closes the client, a stream is open at some later moment iff some later step is one of those |
| BrowserStreaming.StreamingClosedStaysShut | packages/sdk/browser/src/BrowserDataManager.ts:230-248 | a client streaming when closed opens no stream as long as it should stream and no poll ends |
| BrowserStreaming.ListeningReopensClosed | packages/sdk/browser/src/BrowserClient.ts:279-294 | an instance of `ClosedReopensIff`: a listener registered after closing |
| BrowserStreaming.HangsIff | packages/sdk/browser/src/BrowserDataManager.ts:80-187 | a step leaves an identify unsettled for good iff it begins one on a closed client, ends its poll with a payload that does not parse, is `null` or has a `null` entry, or ends the storing of its flags with a rejection; then no other identify begins |
| BrowserStreaming.PromisesAfter | packages/sdk/browser/src/BrowserDataManager.ts:74-187 | how each step settles the promise: a bootstrap and stored flags resolve it, a failed poll and a failed cache load reject it |
| BrowserStreaming.IdentifyHangsIff | packages/sdk/browser/src/BrowserDataManager.ts:80-187 | over every run: some identify hangs iff some step was one of those three |
| BrowserStreaming.NullPayloadHangs | packages/shared/sdk-client/src/datasource/DataSourceEventHandler.ts:22-35 | two instances: the payload `null`, and one with a `null` flag under any key |
| BrowserStreaming.BrowserClient.HandlePut | packages/shared/sdk-client/src/datasource/DataSourceEventHandler.ts:22-35 | reading the versions of the entries throws iff the payload is `null` or has a `null` entry |
| BrowserStreaming.BrowserClient.AddListener | packages/sdk/browser/src/BrowserClient.ts:286-289 | `on` changes the emitter and then pushes the derived state into the data manager |
| BrowserStreaming.BrowserClient.UpdateStreamingState | packages/sdk/browser/src/BrowserDataManager.ts:214-228 | starts or stops the data source by the forced and automatic settings |
| BrowserStreaming.BrowserClient.FinishIdentify | packages/sdk/browser/src/BrowserDataManager.ts:103-187 | the end of a poll decides what becomes of the promise, and the end of the identify restarts the stream for the new context |
| IpcSubscriptions.AddKeepsIndexes | packages/sdk/electron/src/ElectronClient.ts:305-329 | an admissible add updates both indexes as one table from callback id to event and port |
| IpcSubscriptions.RemoveKeepsIndexes | packages/sdk/electron/src/ElectronClient.ts:331-351 | a remove deletes the id from the table, and succeeds iff the table has it |
| IpcSubscriptions.InadmissibleAddBreaks | packages/sdk/electron/src/ElectronClient.ts:327-336 | every other add, of an id known for another event or for the empty event name, leaves indexes that no table describes, so admissibility of adds is exact |
| IpcSubscriptions.InadmissibleOffSilences | packages/shared/sdk-client/src/LDEmitter.ts:63-64 | when the application removes all listeners of an event in the table, the indexes keep its ports and none is posted to |
| IpcSubscriptions.SilentUntilDropped | packages/sdk/electron/src/ElectronClient.ts:305-351 | whatever step follows, subscribing again included, that event stays silent until its entry goes |
| IpcSubscriptions.RunIsTable | packages/sdk/electron/src/ElectronClient.ts:293-351 | over every run of admissible requests the indexes are exactly the table, no entry is empty, and each has its one listener |
| IpcSubscriptions.EmitReachesExactly | packages/sdk/electron/src/ElectronClient.ts:311-326 | an event is posted once to each port added for it and not removed, and to no other |
| IpcSubscriptions.RemoveClosesPort | packages/sdk/electron/src/ElectronClient.ts:331-351 | removing a callback closes the port it was added with, and nothing else closes one |
| IpcSubscriptions.AppListenersStay | packages/sdk/electron/src/ElectronClient.ts:305-351 | the application's own listeners are left alone by the requests of other processes |
| IpcSubscriptions.Subscriptions.ApplyAdd | packages/sdk/electron/src/ElectronClient.ts:305-329 | the step of the state machine for an add |
| IpcSubscriptions.Subscriptions.ApplyRemove | packages/sdk/electron/src/ElectronClient.ts:331-351 | the step for a remove, with the answer the caller gets |
| IpcSubscriptions.Subscriptions.ProcessQueue | packages/sdk/electron/src/ElectronClient.ts:293-303 | the queue is served completely and in order |
| IpcSubscriptions.Subscriptions.CloseChannels | packages/sdk/electron/src/ElectronClient.ts:353-367 | every port is closed, and the broadcast listeners and nothing else leave the emitter |
| Redis.NextKeepsSound | packages/store/node-server-sdk-redis/src/RedisCore.ts:132-189 | under any interleaving, a queued write whose watch is clean was decided on the version still stored |
| Redis.EveryWriteRaises | packages/store/node-server-sdk-redis/src/RedisCore.ts:132-189 | every successful EXEC of every run strictly raises the version of the one item it writes, which is what the request carries: its version, and its data unless it deletes |
| Redis.EventsAreTrue | packages/store/node-server-sdk-redis/src/RedisCore.ts:146-188 | in every run a commit wrote what the request carries, a stale one found at least its version, a refused one had nothing to write, and only commits change the store |
| Redis.NoRequestIsLost | packages/store/node-server-sdk-redis/src/RedisCore.ts:178-188 | a request leaves its client only by being committed, stale or refused; an aborted one is tried again |
| Redis.WatchersAreTold | packages/store/node-server-sdk-redis/src/RedisCore.ts:143-188 | a client is told of exactly the commits of others to a namespace it watches, until its EXEC |
| Redis.RunFollows | packages/store/node-server-sdk-redis/src/RedisCore.ts:132-189 | in every run, requests are never lost: each is still under way or what it asked for holds |
| Redis.FinalVersionIsLargest | packages/store/node-server-sdk-redis/src/RedisCore.ts:132-189 | when all clients have finished, an item is there iff it was or was requested, its version is the largest of the initial and all requested ones, and if it changed, it has the version and the data of a request |
| Redis.NextKeepsCharged | packages/store/node-server-sdk-redis/src/RedisCore.ts:178-186 | each aborted EXEC is charged to a successful write of another client since the client's own last EXEC |
| Redis.RetriesAreBounded | packages/store/node-server-sdk-redis/src/RedisCore.ts:178-186 | with n clients and R requests at most (n - 1) R EXECs abort and at most 3 n R steps do anything |
| Redis.Server.Upsert | packages/store/node-server-sdk-redis/src/RedisCore.ts:132-146 | `upsert` up to the read is the watch step |
| Redis.Server.OldItem | packages/store/node-server-sdk-redis/src/RedisCore.ts:146-177 | the callback of the read: stale, queued write, or refused |
| Redis.Server.ExecReply | packages/store/node-server-sdk-redis/src/RedisCore.ts:178-188 | EXEC aborts or writes and marks the other watchers; a null reply retries |
| RedisInit.Init | packages/store/node-server-sdk-redis/src/RedisCore.ts:36-71 | once executed, each supplied namespace holds exactly the items that exist of its last collection, each with its last value, every other key is untouched, and the inited key is set |
| RedisInit.ContentSays | packages/store/node-server-sdk-redis/src/RedisCore.ts:50-56 | the content of a collection has exactly the keys of its items that exist, each with the last value given |
| RedisInit.ReplaceOne | packages/store/node-server-sdk-redis/src/RedisCore.ts:44-63 | one collection more replaces its namespace and leaves the others |
| DynamoDB.AnyOrder | packages/store/node-server-sdk-dynamodb/src/DynamoDBClientState.ts:75-92 | requests for distinct rows leave the same table in any order, so in any interleaving of the batches |
| DynamoDB.SomeArrive | packages/store/node-server-sdk-dynamodb/src/DynamoDBClientState.ts:75-92 | if only some requests arrive, each row is as before or as after |
| DynamoDB.SplitIntoBatches | packages/store/node-server-sdk-dynamodb/src/DynamoDBClientState.ts:75-80 | the batches are the requests in order, none empty or over 25, and no more of them than needed |
| DynamoDB.NameRoundTrip | packages/store/node-server-sdk-dynamodb/src/DynamoDBCore.ts:132-165 | joining with `$` and splitting gives the row back iff namespace and key have no `$` |
| DynamoDB.BuildRequests | packages/store/node-server-sdk-dynamodb/src/DynamoDBCore.ts:125-168 | the requests are the accepted items, deletes for the listed rows that are neither put nor the token, and the token |
| DynamoDB.PutsExactly | packages/store/node-server-sdk-dynamodb/src/DynamoDBCore.ts:145-156 | the puts are exactly those of the supplied items within the size limit |
| DynamoDB.InitWritesDistinctRows | packages/store/node-server-sdk-dynamodb/src/DynamoDBCore.ts:125-168 | when no stale row has a `$` and no item is supplied in the row of the token, no row is written twice |
| DynamoDB.InitReplaces | packages/store/node-server-sdk-dynamodb/src/DynamoDBCore.ts:125-176 | for distinct data and every order of arrival: the token and every accepted item are there, the stale rows are gone and all other rows as they were, iff no stale row has a `$` in namespace, prefix included, or key, and no item is supplied in the row of the token |
| DynamoDB.ItemsAfterInit | packages/store/node-server-sdk-dynamodb/src/DynamoDBCore.ts:145-168 | then each accepted item is in its row with its version and data, a row of an item too large keeps nothing that was listed, and the token is set |
| DynamoDB.NamespacesAfterInit | packages/store/node-server-sdk-dynamodb/src/DynamoDBCore.ts:125-176 | under that condition each supplied namespace holds exactly the accepted items and the rows marked deleted; other namespaces are unchanged |
| DynamoDB.DollarRowSurvives | packages/store/node-server-sdk-dynamodb/src/DynamoDBCore.ts:158-165 | a stale row with a `$` survives every order of arrival |
| DynamoDB.DollarPrefixDeletesNothing | packages/store/node-server-sdk-dynamodb/src/DynamoDBClientState.ts:46-62 | with a `$` in the configured prefix no stale row is ever deleted |
| DynamoDB.DollarPrefixKeepsFlag | packages/store/node-server-sdk-dynamodb/src/DynamoDBClientState.ts:46-62 | an instance, with the prefix `a$` and one flag |
| DynamoDB.AcceptedRowsFit | packages/store/node-server-sdk-dynamodb/src/DynamoDBCore.ts:8-36 | the size estimate never falls short of the stored size, so an accepted row fits the table's limit |
| DynamoDB.RoomyRowsAreAccepted | packages/store/node-server-sdk-dynamodb/src/DynamoDBCore.ts:8-36 | the estimate exceeds the stored size by at most a hundred bytes and one for every two digits of the version, so every row with that much room is accepted |
| DynamoDB.DigitsOfPowers | packages/store/node-server-sdk-dynamodb/src/DynamoDBCore.ts:8-36 | the digits counted for a version are those of its decimal notation |
| DynamoDB.ByteLengthIsUtf8 | packages/store/node-server-sdk-dynamodb/src/DynamoDBCore.ts:8-36 | each character counts with the fewest octets that section 3 of RFC 3629 can hold it in |
| DynamoDB.DollarNamesAnotherRow | packages/store/node-server-sdk-dynamodb/src/DynamoDBCore.ts:158-165 | for every key with a `$`, the delete request is built for another row |
| DynamoDB.DollarLosesItem | packages/store/node-server-sdk-dynamodb/src/DynamoDBCore.ts:158-165 | replacing `a$b` by `a`: in one order of the requests the new item is lost, and in both the stale one stays |
| DynamoDB.LargestVersionWins | packages/store/node-server-sdk-dynamodb/src/DynamoDBCore.ts:212-237 | however conditional puts are ordered, a row ends with the largest version asked for that fits, and if it changed, it holds version and data of the first request of that version |
| DynamoDB.FeatureStore.Init | packages/store/node-server-sdk-dynamodb/src/DynamoDBCore.ts:125-176 | `init` as a whole, for every order in which its batches may arrive: works iff that condition holds of its input |
| DynamoDB.FeatureStore.UpsertItem | packages/store/node-server-sdk-dynamodb/src/DynamoDBCore.ts:212-237 | an oversized item is dropped without an error, otherwise the conditional put is made and the row read back |
| Graphs.PathStaysInside | packages/sdk/server-ai/src/LDAIClientImpl.ts:609-626 | a set closed under edges contains every path that starts in it |
| Graphs.SimplePath | packages/shared/sdk-client/src/LDClientImpl.ts:692-699 | cutting the loops out of a path leaves one that visits no key twice |
| AgentGraphs.CollectReachableKeys | packages/sdk/server-ai/src/LDAIClientImpl.ts:609-626 | the search ends on every graph with exactly the keys edges lead to from the root |
| AgentGraphs.CollectAllKeys | packages/sdk/server-ai/src/api/graph/AgentGraphDefinition.ts:318-332 | the keys in insertion order: the first mentions of the root and then of each source followed by its targets |
| AgentGraphs.EntriesInOrder | packages/sdk/server-ai/src/api/graph/AgentGraphDefinition.ts:318-332 | wherever a source stands, its own targets follow it |
| AgentGraphs.OrderMentions | packages/sdk/server-ai/src/api/graph/AgentGraphDefinition.ts:318-332 | that order holds every key mentioned, each once |
| AgentGraphs.PassesGate | packages/sdk/server-ai/src/LDAIClientImpl.ts:568-577 | the gate opens iff every mentioned key is reachable, or the first unreachable one in insertion order is the empty key |
| AgentGraphs.EmptyKeySlipsThrough | packages/sdk/server-ai/src/LDAIClientImpl.ts:571-572 | a concrete disconnected graph whose first unreachable key is empty |
| Prerequisites.Client.VariationInternal | packages/shared/sdk-client/src/LDClientImpl.ts:616-717 | on any prerequisite graph evaluation ends, restores the ancestor set, answers with the value of the flag alone, and sends the events of the chains of prerequisites in order |
| Prerequisites.Client.EvaluatePrerequisites | packages/shared/sdk-client/src/LDClientImpl.ts:683-703 | the loop evaluates each prerequisite that is not an ancestor |
| Prerequisites.Client.Variation | packages/shared/sdk-client/src/LDClientImpl.ts:719-737 | an evaluation from outside: the answer, no events without a context, one event with the default for a refused type, and otherwise one for each chain |
| Prerequisites.DetailAnswers | packages/shared/sdk-client/src/LDClientImpl.ts:639-681 | a known flag with a value the caller accepts is answered with that value, variation and reason, with the default when it has no value; an unknown or deleted one and a refused value with an error and the default or null |
| Prerequisites.EventsReport | packages/shared/sdk-client/src/LDClientImpl.ts:704-715 | the last event has the value, default and reasons of the flag asked for; each before it the value of a prerequisite, without default and reasons |
| Prerequisites.VisitsExactly | packages/shared/sdk-client/src/LDClientImpl.ts:692-699 | the chains evaluated are exactly the dependency paths from the flag that visit no flag twice |
| Prerequisites.EventsReachExactly | packages/shared/sdk-client/src/LDClientImpl.ts:683-715 | a flag gets an event iff dependencies lead to it through present, undeleted flags |
| Prerequisites.VisitsInPostOrder | packages/shared/sdk-client/src/LDClientImpl.ts:692-715 | with duplicate-free lists each chain comes once and after all that go on from it |
| Prerequisites.RootLast | packages/shared/sdk-client/src/LDClientImpl.ts:704-715 | the flag asked for is reported last, and once |
| Utf8.ToUtf8Array | packages/sdk/react-native/src/polyfills/toUtf8Array.ts:19-47 | the loop computes the encoding of the whole string |
| Utf8.EncodeAt | packages/sdk/react-native/src/polyfills/toUtf8Array.ts:24-45 | one turn appends the octets of the next code point and moves past it |
| Utf8.EncodePointIsRfc3629 | packages/sdk/react-native/src/polyfills/toUtf8Array.ts:24-45 | the octets of a code point are the one sequence section 3 of RFC 3629 allows |
| Utf8.DecodeEncode | packages/sdk/react-native/src/polyfills/toUtf8Array.ts:19-47 | a decoder gives every sequence of code units back, lone surrogates included |
| Utf8.EncodeInjective | packages/sdk/react-native/src/polyfills/toUtf8Array.ts:19-47 | different strings never share an encoding |
| Utf8.EncodeLength | packages/sdk/react-native/src/polyfills/toUtf8Array.ts:19-47 | between one and three octets for each code unit |
| Utf8.ValidIffWellFormed | packages/sdk/react-native/src/polyfills/toUtf8Array.ts:19-47 | the output matches the grammar of section 4 of RFC 3629 iff no surrogate is unpaired |
| Migrations.StoresStayEqual | packages/shared/sdk-server/src/Migration.ts:152-243 | from equal stores, writes at the stages that write both keep them equal except at keys whose last effective write failed at the other origin |
| Migrations.DivergedByFailure | packages/shared/sdk-server/src/Migration.ts:152-243 | such a key had a write whose non-authoritative half failed |
| Migrations.ChecksConsistentAfterWrites | packages/shared/sdk-server/src/Migration.ts:311-324 | at every other key a reflexive check finds the stores consistent |
| Migrations.WritesReach | packages/shared/sdk-server/src/Migration.ts:144-251 | the table of stages: exactly which stores a write puts its value into |
| Migrations.WriteAnswers | packages/shared/sdk-server/src/Migration.ts:144-251 | the table of stages: whose answer is authoritative, whose is not, and which origins are invoked |
| Migrations.ReportMeasures | packages/shared/sdk-server/src/MigrationOpTracker.ts:91-258 | an event measures exactly the origins invoked, their latencies and failures as far as tracked, and the consistency verdict |
| Migrations.Tracker.CreateEvent | packages/shared/sdk-server/src/MigrationOpTracker.ts:91-258 | an event is made iff key, operation, context and measurements are sound, and carries exactly the measurements |
| Migrations.Migration.DoSingleOp | packages/shared/sdk-server/src/Migration.ts:390-403 | invoked, latency and error are tracked for the origin, a throw counting as a failure |
| Migrations.Migration.DoWrite | packages/shared/sdk-server/src/Migration.ts:144-302 | each write updates the stores by its stage, the old origin first up to Shadow and the new one from Live on, and sends one event with exactly the origins invoked and failed |
| Migrations.Migration.DoRead | packages/shared/sdk-server/src/Migration.ts:326-388 | both origins are read, serially in either order or at once, with the same tracking |
| Migrations.Migration.ReadKey | packages/shared/sdk-server/src/Migration.ts:115-138 | each read answers from the old origin up to Shadow and from the new one from Live on, and sends one event, with the consistency verdict when Shadow or Live find both |

## Left out

- FilterSingleKind.Filter: a property set on an array `_meta` is not visible, as in its JSON; `NaN` and big integers are not values of the model.
- ContextFilter.CloneWithRedactions: property order of the clone, prototypes, getters and the key `__proto__` are not modelled; arrays are values and their sharing with the original is not visible; `sort` compares characters, not UTF-16 units.
- References.Parse: strings are sequences of Unicode scalar values, so attribute names with lone surrogates are not covered.
- FilterSingleKind.CopyLegacy: `String()` of a value is a parameter.
- The multi-kind `filter` only maps `_filterSingleKind` over the kinds.
- Redis.FinalVersionIsLargest: reads succeed and stored items deserialize, because a failed read is treated as an absent item; network errors of EXEC end an upsert with an error and are not modelled.
- Redis.Server: commands of one client are not pipelined with those of another `upsert` on the same connection; each client's calls run one after another.
- RedisInit.Init: the transaction is atomic, as the server promises.
- DynamoDB.DollarLosesItem: a batch that names one row twice is refused by the table as a whole; the two requests meet only when they fall into different batches.
- DynamoDB.FeatureStore.Init: the table applies each request of a batch atomically; unprocessed items and paging of the queries are not modelled.
- DynamoDB.LargestVersionWins: each conditional put is atomic; other failures only report an error.
- Storage.RunKeepsInvariant: rename replaces the file atomically, opening exclusively fails on an existing file; reading the file and the symlink checks of initialization are not modelled, and JSON is a copy of the map.
- Storage.FlagCache: the constructor starts after initialization, so waiting for it is not modelled.
- NodeDataManager.PendingIsSettledBy: callbacks come only from the installed processor; a callback that a replaced processor had already begun when it was replaced is not modelled.
- NodeDataManager.RunKeepsInvariant: `loadCached` never rejects in this client: its storages catch their errors, cached flags that do not parse count as absent, and hashing cannot fail.
- NodeDataManager.DataManager: connection parameters, the secure-mode hash, status reporting, unknown mode strings and contexts that fail conversion are left out; shedding of queued identifies happens before they begin.
- BrowserStreaming.StreamOpenExactly: `loadCached` rejects in the browser where Web Crypto has no `subtle.digest` (packages/sdk/browser/src/platform/BrowserHasher.ts:25); the moments from such a rejection to the next start or stop of a stream are excluded there, and are the subject of `LoadFailureIsStaleIff`.
- BrowserStreaming.IdentifyHangsIff: the retries of the initial poll are one step; that storing the flags rejects, as when the stored context index is JSON but no index or hashing is unavailable, is a choice of the environment, and so is when it ends; the timeout a caller may set ends its own wait only.
- IpcSubscriptions.RunIsTable: the application cannot name a broadcast listener, which it has no reference to; posting to a port that fails is logged and not modelled.
- Prerequisites.Client.VariationInternal: exceptions from the event processor, hooks, log messages and the emitted type error are left out; overrides and the flag store are one table.
- AgentGraphs.PassesGate: keys that are names of `Object.prototype` members are not distinguished; fetching the agent configurations after the gate is left out.
- Contexts.CanonicalKeyIdentifies: attributes other than kinds and keys, the coercion of legacy user keys to strings and the cached canonical JSON are left out; the kind `__proto__`, which is valid for the code and which a multi-kind context made from JSON may have and lose on the way into a plain object (packages/shared/common/src/Context.ts:245-255), is a kind like any other here.
- Migrations.StoresStayEqual: a write that fails or throws leaves its store unchanged; stages Off and Complete write one store only and are excluded.
- Migrations.Migration.ReadKey: clocks and sampling are parameters; the evaluation that chooses the stage is left out.
- Hook ordering, the server evaluator, FDv2 data managers, AI trackers, logging and option validation are not modelled.
