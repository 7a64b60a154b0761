# gopherlua-debugger, modelled in Dafny

gopherlua-debugger is an EmmyLua-protocol debugger for the gopher-lua
interpreter. A Lua state installs a hook. On every line, call, return or count
event the hook asks the **Debugger** whether execution must pause. It pauses
when a breakpoint matches the current file and line, or when the active
stepping state (Break, Continue, StepIn, StepOver, StepOut, Stop) says so.
While paused, the debugger serves the IDE's evaluation requests one at a
time. The **Facade** is the IDE-facing side. It dispatches the six request
kinds by message id, applies them to the debugger, and sends break
notifications and evaluation responses back.

The project models that core:

- `wrappers.dfy`: `Option`.
- `proto.dfy` (module `Proto`): the message ids, debug actions, wire records and the id → empty request table (`GetMsg`).
- `lua.dfy` (module `Lua`): the slice of the interpreter the core reads.
  - Values: each leaf carries its string rendering; a table carries its entries in iteration order.
  - Value types.
  - Call frames: whether their info is readable, source, fixed path, function name, current line, locals and upvalues.
- `types.dfy` (module `Types`): the debugger's own records and the conversion of variable trees to wire form, with both round trips.
- `paths.dfy` (module `Paths`):
  - Path splitting (`ParsePathParts`), as a loop over characters, proved equal to a segment-by-segment specification.
  - File-name matching with extensions.
  - ASCII lower-casing.
- `registry.dfy` (module `Registry`): the breakpoint list as values, which specifies the debugger's breakpoint methods.
  - Insertion with normalisation, removal of the first same entry, the line set.
  - The breakpoint search: exact file, or path-suffix match, first match wins.
- `inspect.dfy` (module `Inspect`): reading the interpreter.
  - Lua type tags, variable trees (`GetVariable`), stack level, stack listing (`GetStacks`).
  - Evaluation environments (`CreateEnv`, `EnvIndexFunction`).
- `hookstate.dfy` (module `HookStates`):
  - The stack-level-based stepping state as a class (`StepState`).
  - The pause rule of each stepping mode as a predicate.
  - The closed form of the stack-level update.
- `debugger.dfy` (module `Debugger`): the `Debugger` class.
  - Registry, hook entry and stepping-state machine.
  - Evaluation queue and the evaluation of one request.
- `facade.dfy` (module `Facade`): the `Facade` class.
  - Request dispatch and handlers.
  - Break notifications and evaluation responses, appended to an outbox `sent` that stands for the transport.

In these places the code does something other than its names suggest:

- `ParsePathParts` keeps a leading `..` when nothing precedes it (`"../a"` gives `["..", "a"]`). It drops `.` and empty parts only while the result is still empty, so `"a/./b"` keeps the `.`.
- `EnvIndexFunction` looks a name up in the upvalues first, then in the locals, then in the globals.
- The breakpoint search compares path parts starting with the last one and requires exact equality there. The extension tolerance of `MatchFileName` therefore never changes the outcome: a chunk name without its extension does not find a breakpoint set on the file with the extension (`Registry.ExtensionToleranceInert`, `Registry.ExtensionlessChunkMisses`).
- A break notification puts every frame's upvalues after its locals in the locals list and leaves the upvalue list empty.

## Model

| member | source | states |
|---|---|---|
| Proto.MsgIdOf | proto/proto.go:5-35 | every request kind travels under one of the six request ids |
| Proto.GetMsg | proto/proto.go:127-143 | an empty request exists exactly for the six request ids, and it is the zero request of the kind with that id |
| Types.ToProto | types.go:50-63 | the wire variable keeps name, name type, value, value type and type name, and has as many children |
| Types.ToProtoAll | types.go:59-61 | converting a list keeps its length |
| Types.ToProtoRoundTrip | types.go:50-63 | a tree whose cache ids are all 0 comes back unchanged from its wire form |
| Types.FromProtoRoundTrip | types.go:50-63 | every wire tree is the wire form of a debugger tree |
| Types.ToProtoIgnoresCacheId | types.go:50-57 | the cache id never reaches the wire |
| Paths.Lower | debugger.go:520 | lower-casing keeps the length, leaves no upper-case ASCII letter and changes nothing else |
| Paths.LowerKeepsLower | debugger.go:520 | lower-casing is the identity on lower-case text |
| Paths.ParsePathParts | debugger.go:458-483 | the character loop computes the segment-by-segment resolution of the path onto the given prefix, and the result is never empty |
| Paths.StepCases | debugger.go:462-477 | proof step for `Paths.ScanAt` and `Paths.ParsePathParts`, one part at a time: `..` pops when there is a part to pop; `.` or empty is dropped while the result is empty; anything else is appended |
| Paths.ScanAt | debugger.go:460-479 | a separator finishes the pending part; any other character extends it |
| Paths.MatchFileNameExtends | debugger.go:485-496 | a chunk name that matches a file name is a prefix of it |
| Paths.PathPartsHaveNoSep | debugger.go:458-483 | no resulting part contains a separator |
| Paths.LastPartIsTail | debugger.go:481 | the last part is the text after the last separator |
| Paths.PlainNameIsOnePart | debugger.go:481 | a name without separators is appended as a single part |
| Paths.PathPartsAfterFirst | debugger.go:460-478 | resolving `a/rest` is resolving `rest` after one step with `a` |
| Paths.KeptPart | debugger.go:474-477 | a kept first part is appended before the rest is resolved |
| Paths.DotDotCancels | debugger.go:466-470 | `a/../rest` resolves like `rest` |
| Paths.LeadingDotDropped | debugger.go:473-476 | `./a/b` gives `[a, b]` |
| Paths.DotDotPops | debugger.go:466-470 | `a/../b/c` gives `[b, c]` |
| Paths.LeadingDotDotKept | debugger.go:466-477 | `../a` gives `[.., a]` |
| Paths.InnerDotKept | debugger.go:474-477 | `a/./b` gives `[a, ., b]` |
| Registry.LinesSpec | debugger.go:578-584 | a line is in the line set iff some breakpoint is on that line |
| Registry.Normalized | debugger.go:571-572 | a stored breakpoint has a lower-case file and at least one path part, and keeps its line and condition |
| Registry.RemoveFirstAbsent | debugger.go:553-558 | removing an entry that is not there changes nothing |
| Registry.RemoveFirstAt | debugger.go:553-558 | removal deletes exactly the first entry with that file and line |
| Registry.RemoveFirstLength | debugger.go:553-558 | removal shortens the list by one iff a same entry exists |
| Registry.RemoveFirstKeeps | debugger.go:553-558 | every other entry survives removal |
| Registry.RemoveEachKeepsOthers | facade.go:111-115 | a breakpoint named by none of the requests survives a removal request |
| Registry.RemoveEachLength | facade.go:111-115 | a removal request deletes at most one entry per named breakpoint |
| Registry.AddThenRemove | debugger.go:548-576 | adding a new breakpoint and then removing it by file and line restores the list |
| Registry.LinesSnoc | debugger.go:573-583 | adding a breakpoint adds exactly its line to the line set |
| Registry.QueryOf | debugger.go:519-521 | a lookup uses the lower-cased file and its non-empty path parts |
| Registry.SuffixOfFromEnd | debugger.go:529-538 | the part-by-part loop from the end decides whether the query's parts end the breakpoint's parts |
| Registry.FirstMatchNone | debugger.go:523-545 | the search finds nothing iff no breakpoint matches |
| Registry.FirstMatchIsFirst | debugger.go:523-545 | a found breakpoint matches and no earlier one does |
| Registry.FastRejectSound | debugger.go:499-511 | skipping the search when the line is not in the line set loses no breakpoint |
| Registry.ExtensionToleranceInert | debugger.go:524-542 | a breakpoint matches iff the line agrees and either the files are equal or the query's parts end its parts; the extension list plays no part |
| Registry.MatchAcrossRoots | debugger.go:523-545 | a breakpoint set at `root/dir/name` is found from the chunk `/dir/name` regardless of case |
| Registry.ExtensionlessChunkMisses | debugger.go:485-546 | `name` matches the file `name+ext` by name, yet the search for chunk `name` misses the breakpoint on `name+ext` |
| Inspect.GoLuaTypeToCLuaType | debugger.go:172-196 | tags stay in the C range and never take light userdata; the name matches the tag; unknown types give none; userdata and channels share the userdata tag |
| Inspect.TagsDistinguishTypes | debugger.go:172-196 | apart from channels, different types get different tags |
| Inspect.GetVariable | debugger.go:198-221 | leaves carry the value's text; a table at positive depth has one child per entry, named by the key with the key's tag; at depth 0 or less it has none |
| Inspect.ChildAt | debugger.go:211-215 | each child is the entry's own tree one level shallower, with the key's tag as name type |
| Inspect.GetVariableHeight | debugger.go:198-221 | the tree is never deeper than the requested depth |
| Inspect.GetVariableCacheFree | debugger.go:204 | every node of a built tree has cache id 0 |
| Inspect.DepthOneShowsEntries | debugger.go:252 | at depth 1 a table shows its entries as leaves |
| Inspect.StackLevelAll | debugger.go:125-143 | counting all frames gives exactly the number of frames before the first unreadable one (`ReadableFrames`), the stack snapshot's length; so at most the frame count, and all of them when every frame is readable |
| Inspect.GetStackLevel | debugger.go:125-143 | the loop counts the frames that are readable, stopping at the first unreadable one, and with `skipGo` only those with a line |
| Inspect.CollectedNames | debugger.go:243-254 | listed variables have non-empty names, internal ones excluded where asked, and are no more than the slots |
| Inspect.CollectVars | debugger.go:243-265 | the slot loop lists the variables up to the first empty name |
| Inspect.GetStacks | debugger.go:223-270 | one stack per readable frame, in order from level 0, each built from its own frame |
| Inspect.TableOfKeys | debugger.go:398-416 | the environment table has an entry iff the name is a listed variable; an entry holding nil counts as absent for lookup (`EnvIndexFunction`), as `RawSetString` with nil deletes the key |
| Inspect.BuildTable | debugger.go:398-416 | the slot loop builds that table, later slots overriding earlier ones |
| Inspect.EnvOfReadable | debugger.go:382-391 | every readable stack level yields an environment |
| Inspect.CreateEnv | debugger.go:382-424 | no environment for a missing or unreadable frame; otherwise its locals and upvalues |
| Inspect.GetFile | debugger.go:439-456 | a frame with a line and a non-empty fixed path shows the fixed path; the raw source is replaced only then; a non-empty source never yields an empty name |
| Inspect.EnvIndexFunction | debugger.go:355-380 | a name resolves to a non-nil upvalue, else a non-nil local, else a non-nil global, else nothing |
| HookStates.NextLevelBounded | hook_state.go:51-63 | the new stack level grows by at most 2, lies in 1..depth for a running thread, and stays put when no frame exists |
| HookStates.TrackFollowsDepth | hook_state.go:51-63 | while every depth is positive and the stack never grows by more than two frames between events (it may shrink by any amount), the tracked level equals the current depth |
| HookStates.StepOverSkipsCalls | hook_state.go:150-170 | stepping over does not pause inside a call one level deeper, and pauses once the original frame has returned |
| HookStates.StepOutWaitsForReturn | hook_state.go:115-122 | stepping out pauses exactly when the depth falls below the starting level |
| HookStates.StepState.constructor | hook_state.go:35-39 | a fresh state has no thread, zero levels and no origin |
| HookStates.StepState.StartLevels | hook_state.go:41-49 | it starts iff there is a current thread, recording it and its stack level as both levels; without a thread nothing changes |
| HookStates.StepState.StartStepIn | hook_state.go:71-91 | it starts iff there is a thread with a readable top frame; the levels are recorded whenever there is a thread, the source and line only on success |
| HookStates.StepState.StartStepOver | hook_state.go:130-148 | it starts iff there is a thread with a top frame, recording the levels, and the top frame's source and line when readable (empty and 0 otherwise) |
| HookStates.StepState.UpdateStackLevel | hook_state.go:51-63 | on the tracked thread the level becomes `NextLevel(level, depth)`; on other threads nothing changes; the thread, origin level, file and line never change |
| HookStates.StepState.ProcessStepIn | hook_state.go:93-100 | the level is updated, and the state pauses on a line event at a line other than the starting one |
| HookStates.StepState.ProcessStepOut | hook_state.go:115-122 | the level is updated, and the state pauses once it is below the original |
| HookStates.StepState.ProcessStepOver | hook_state.go:150-170 | the level is updated, and the state pauses below the original level, or at the same level on a new line of the original file or when the original line was -1 |
| Debugger.ModeOf | debugger.go:100-116 | each of the six actions selects its own mode, and any other number selects none |
| Debugger.EventOf | debugger.go:12-31 | "line", "count" and "return" select their events; anything else is a call event |
| Debugger.Evaluated | debugger.go:327-353 | an evaluation succeeds iff the chunk loads, the frame exists and the call returns; on success the result is the returned value's tree at the requested depth; load and call errors are recorded |
| Debugger.DoEval | debugger.go:327-353 | evaluation against the frames computes `Evaluated` with that frame's environment |
| Debugger.Debugger.constructor | debugger.go:61-73 | a new debugger has no breakpoints, lines, states, hook state or queued evaluations |
| Debugger.Debugger.Start | debugger.go:75-80 | it stores the helper code, clears skip and blocking, marks the debugger running, and changes nothing else |
| Debugger.Debugger.UpdateHook | debugger.go:145-151 | the thread's hook mask becomes the given mask and nothing else changes |
| Debugger.Debugger.Attach | debugger.go:82-98 | a running debugger registers the thread and sets its mask to `clr`, changing nothing else; a stopped one does nothing |
| Debugger.Debugger.ExitDebugMode | debugger.go:311-314 | it unblocks and changes nothing else |
| Debugger.Debugger.EnterDebugMode | debugger.go:283 | it blocks and changes nothing else |
| Debugger.Debugger.HandleBreak | debugger.go:272-277 | the thread becomes current and its mask becomes `l`; nothing else changes |
| Debugger.Debugger.StartMode | hook_state.go:18-33 | `Started`: each mode's own start is run; Break's always succeeds with no effect, Continue's always succeeds and unblocks, the others as below; the hook state is left to `SetHookState` |
| Debugger.Debugger.StartStepOver | hook_state.go:130-148 | it succeeds iff there is a thread with a top frame; the step-over state records its origin, and a success unblocks; the other stepping states and fields do not change |
| Debugger.Debugger.StartStepIn | hook_state.go:71-91 | it succeeds iff there is a thread with a readable top frame; the step-in state records its origin, and a success unblocks; nothing else changes |
| Debugger.Debugger.StartStepOut | hook_state.go:106-113 | it succeeds iff there is a thread; the step-out state records the levels, and a success unblocks; nothing else changes |
| Debugger.Debugger.StartStop | hook_state.go:188-195 | it succeeds iff there is a thread; the thread is then unhooked (empty mask) and the debugger unblocked; no other field or stepping state changes, and the hook state is left to `SetHookState` |
| Debugger.Debugger.SetHookState | debugger.go:118-123 | the hook state becomes the mode iff the mode's start succeeds, else none; the start's effects (`Entered`): any success but Break's unblocks, Stop clears the thread's mask, the mode's stepping state records its origin; every other field and stepping state is unchanged |
| Debugger.Debugger.DoAction | debugger.go:100-116 | a known action has exactly `SetHookState`'s effect (`Entered`) for its mode; an unknown action changes nothing |
| Debugger.Debugger.MatchFileName | debugger.go:485-496 | the method decides the file-name match with the configured extensions |
| Debugger.Debugger.FindBreakPointByFile | debugger.go:515-546 | the nested loops return the first breakpoint that matches the lower-cased file and line |
| Debugger.Debugger.FindBreakPoint | debugger.go:498-513 | the line-set check followed by the search gives the first match for the frame's file and line |
| Debugger.Debugger.RefreshLineSet | debugger.go:578-584 | the line set becomes the lines of the breakpoints and nothing else changes |
| Debugger.Debugger.AddBreakPoint | debugger.go:567-576 | the normalised breakpoint is appended and its line joins the line set; nothing else changes |
| Debugger.Debugger.RemoveBreakPoint | debugger.go:548-560 | the first entry with the lower-cased file and line is removed, the line set follows; nothing else changes |
| Debugger.Debugger.RemoveAllBreakpoints | debugger.go:562-565 | the list and the line set become empty; nothing else changes |
| Debugger.Debugger.Hook | debugger.go:153-170 | it pauses exactly when `PausesAt`: not skipped, a line event, and a matching breakpoint or the active mode's rule; only the active stepping state tracks the level, and only when no breakpoint matched (`StepsTracked`); a pause makes the thread current with mask `l`, and nothing else changes |
| Debugger.Debugger.Eval | debugger.go:316-325 | a request is queued only while the debugger is blocked; nothing else changes |
| Debugger.Debugger.DrainEvalQueue | debugger.go:284-308 | every queued request is evaluated in order against the paused frames; the queue ends empty and nothing else changes; the thread may run on iff it is unblocked |
| Facade.StackToProto | facade.go:139-152 | the wire stack keeps level, file, function and line, with locals then upvalues converted in order, all in the locals list |
| Facade.BuildBreakNotify | facade.go:137-154 | the notification has the break id and one wire stack per stack, in order |
| Facade.EvalRspOf | facade.go:158-167 | the response carries sequence number, success and error, with a value iff the evaluation succeeded |
| Facade.EvalRspCarriesResult | facade.go:158-167 | a successful response decodes to the tree of the returned value |
| Facade.ContextOf | facade.go:121-130 | a request becomes an unsuccessful context with no result and no error, keeping its fields |
| Facade.Facade.constructor | facade.go:31-38 | a new facade has no states, no helper code and no IDE, and has sent nothing |
| Facade.Facade.Register | facade.go:40-41 | the thread joins the facade's states |
| Facade.Attached | facade.go:84-86 | after attaching a set of threads, each of them has mask `clr` and every other thread keeps its mask |
| Facade.Facade.OnInitReq | facade.go:80-89 | `Initialized`: the debugger runs with the helper code and the extensions, unblocked and not skipping, every known thread is registered with mask `clr`, and nothing else changes, in the debugger or the facade |
| Facade.Facade.AttachAll | facade.go:84-86 | the loop registers every known thread with the running debugger, masks per `Attached`, changing nothing else |
| Facade.Facade.OnReadyReq | facade.go:91-94 | the IDE is marked ready; nothing else changes |
| Facade.Facade.OnAddBreakPointReq | facade.go:96-109 | `BreakPointsAdded`: the list becomes the old one (or empty when clearing) followed by the requested breakpoints normalised in order, the line set follows, and nothing else changes |
| Facade.Facade.AddEach | facade.go:101-108 | the loop appends each requested breakpoint normalised, in order, changing nothing else |
| Facade.Facade.OnRemoveBreakPointReq | facade.go:111-115 | `BreakPointsRemoved`: the first entry at each requested file and line is removed, in order (`RemoveEach`); the line set follows and nothing else changes |
| Facade.Facade.OnActionReq | facade.go:117-119 | `ActionApplied`: a known action has `SetHookState`'s effect for its mode, including the blocking, mask and stepping-origin rules; an unknown one changes nothing |
| Facade.Facade.OnEvalReq | facade.go:121-132 | `EvalRequested`: the request is queued as a fresh context only while the debugger is blocked; nothing else changes |
| Facade.Facade.HandleMsg | facade.go:63-78 | each request id has exactly its handler's effect (`Initialized`, `MarkedReady`, `BreakPointsAdded`, `BreakPointsRemoved`, `ActionApplied`, `EvalRequested`); only actions touch the stepping states; any other id changes nothing |
| Facade.Facade.OnBreak | facade.go:134-156 | `Notified`: exactly one message is appended, a break notification with one wire stack per readable frame, each the frame's stack snapshot |
| Facade.Facade.OnEvalResult | facade.go:158-169 | one evaluation response is sent for the context |
| Facade.Facade.Hook | debugger.go:272-277 | it pauses exactly when `PausesAt`, with the stepping states tracked as in `Debugger.Hook`; a pause makes the thread current with mask `l`, sends the break notification (`Notified`), then blocks; otherwise nothing is sent and the debugger is unchanged |
| Facade.Facade.ServeEvals | debugger.go:292-304 | one response per queued request is sent, in queue order, each for that request's evaluation; the queue ends empty and nothing else changes |

## Left out

- The TCP transport (`transport.go`) is not part of this model, including message framing, JSON encoding and the unknown-id branch of its reader. The outbox `sent` stands for `Transport.Send`.
- `TcpConnect` and `LuaError` (facade.go:40-51) are modelled only as `Facade.Facade.Register`, on the one facade of the model. Connecting can fail; that is I/O. The Lua entry point `TcpConnect` of emmy_core.go:15-25 is not part of this model: it registers the thread with, and connects, a fresh facade from `newFacade()` rather than the package-level `Fcd`.
- `Facade.Facade.Hook` and `Facade.Facade.ServeEvals` take the package-level `Fcd` (facade.go:29), through which debugger.go:275 and debugger.go:303 send, to be the connected facade that also handles the IDE's requests. In the code these are different objects: emmy_core.go:20-25 connects a separate facade, and nothing sets `Fcd`'s transport, so a send through `Fcd` would dereference a nil transport (transport.go:76). The model does not capture this split or that failure.
- Mutexes, condition variables, `WaiteIDE` and the broadcasts are not modelled, because they are concurrency. `EnterDebugMode` is split into blocking (`EnterDebugMode`) and serving the requests already queued (`DrainEvalQueue`). Waiting for more requests is not modelled.
- Running Lua is not modelled:
  - Loading and calling the evaluated chunk is an `Outcome` parameter.
  - Executing the helper code in `Attach`, and the `log.Fatal` on its failure, are not modelled.
  - Calling `FixPath` is not modelled; a frame carries the fixed path as data.
- `Debugger.Debugger.UpdateHook` records the mask per thread. When the interpreter then calls the hook is not modelled.
- Failures of `GetInfo` during a line event (debugger.go:502-506, hook_state.go:159-162) are not modelled. The frame data is taken as readable there.
- `Paths.Lower`: only ASCII letters are lower-cased, where `strings.ToLower` also folds other Unicode letters.
- Go's nil and empty slices are not distinguished.
- `Facade.Facade.OnInitReq` attaches the states in whatever order Dafny's set iteration picks. Go's map order is arbitrary too, and the result does not depend on the order.
- `HookStates.StepState.StartStepIn`, `StartStepOver` and `StartLevels` do not call `ExitDebugMode` themselves, because the stepping state cannot see the debugger. `Debugger.Debugger.StartStepIn`, `StartStepOver` and `StartStepOut` call it right after a successful start, as the source's starts do.
- The Break state's start only records the thread, which is never read again, so it is not modelled.
- `Debugger.Debugger.StartStop`: the Stop state's nested `DoAction(Continue)` is inlined; its effect is the same.
- `Debugger.Debugger.SetHookState` sets the hook state once the start has answered, where the source clears it before the start. No start reads it, so the outcome is the same.
- `Inspect.GetFile` takes the path fixer's answer as `fixedPath`, empty when the fixer failed.
- `Inspect.CreateEnv`: a frame whose function is nil gets an empty upvalue table. debugger.go:409 tests the function against Go's `nil` rather than `lua.LNil`, so the Lua nil value passes that guard and the type assertion at debugger.go:411 panics; that panic is not modelled, and the model uses the `lua.LNil` guard of debugger.go:256 in both places.
- `Debugger.Debugger.HandleBreak` models only the first two statements of debugger.go:272-277 (making the thread current and hooking its lines). The break notification (`Fcd.OnBreak`) and `EnterDebugMode` that follow are in `Facade.Facade.Hook`, because the debugger class cannot see the facade.
- Test programs and the loader (`emmy_core.go`, `testlua/`, `*_test.go`) are not modelled.
