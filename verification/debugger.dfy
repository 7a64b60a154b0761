/**
 * The debugger core: the breakpoint registry, the hook that decides where a
 * thread pauses, the stepping actions, and the queue of evaluation requests
 * served while a thread is paused.
 */
module Debugger {
  import opened Wrappers
  import opened Lua
  import opened Types
  import opened Paths
  import opened Registry
  import opened Inspect
  import opened HookStates
  import Proto

  /** The hook state the debugger is in. */
  datatype Mode = Break | Continue | StepOver | StepIn | StepOut | Stop

  /** The action codes the IDE sends; other codes are ignored. */
  function ModeOf(action: int): (m: Option<Mode>)
    ensures m.Some? <==> Proto.Break <= action <= Proto.Stop
    ensures m == Some(Break) <==> action == Proto.Break
    ensures m == Some(Continue) <==> action == Proto.Continue
    ensures m == Some(StepOver) <==> action == Proto.StepOver
    ensures m == Some(StepIn) <==> action == Proto.StepIn
    ensures m == Some(StepOut) <==> action == Proto.StepOut
    ensures m == Some(Stop) <==> action == Proto.Stop
  {
    if action == Proto.Break then Some(Break)
    else if action == Proto.Continue then Some(Continue)
    else if action == Proto.StepOver then Some(StepOver)
    else if action == Proto.StepIn then Some(StepIn)
    else if action == Proto.StepOut then Some(StepOut)
    else if action == Proto.Stop then Some(Stop)
    else None
  }

  /**
   * Whether entering `mode` succeeds for the paused thread `current`, whose
   * stack is `frames`: stepping and stopping need a thread, stepping needs a
   * top frame, and stepping in also needs that frame's info.
   */
  predicate StartOk(mode: Mode, current: Option<ThreadId>, frames: seq<Frame>) {
    match mode
    case Break => true
    case Continue => true
    case StepOver => current.Some? && |frames| > 0
    case StepIn => current.Some? && |frames| > 0 && frames[0].infoOk
    case StepOut => current.Some?
    case Stop => current.Some?
  }

  /** The hook event a hook callback's event name stands for. */
  function EventOf(name: string): (e: int)
    ensures LuaHookCall <= e <= LuaHookCount
    ensures e == LuaHookLine <==> name == "line"
    ensures e == LuaHookCount <==> name == "count"
    ensures e == LuaHookRet <==> name == "return"
  {
    if name == "line" then LuaHookLine
    else if name == "count" then LuaHookCount
    else if name == "call" then LuaHookCall
    else if name == "return" then LuaHookRet
    else 0
  }

  /** What running an evaluation request's chunk produced. */
  datatype Outcome = LoadFailed(err: string) | CallFailed(err: string) | Returned(value: LValue)

  /**
   * A completed evaluation request: it succeeds exactly when its chunk
   * loaded, a scope exists for its stack level and the call returned; the
   * result is then the returned value's tree, to the requested depth.
   */
  function Evaluated(ctx: EvalContext, env: Option<Env>, outcome: Outcome): (r: EvalContext)
    ensures r.success <==> outcome.Returned? && env.Some?
    ensures r.expr == ctx.expr && r.seqNum == ctx.seqNum && r.stackLevel == ctx.stackLevel
    ensures r.depth == ctx.depth && r.cacheId == ctx.cacheId
    ensures r.success ==> r.result == Some(GetVariable(ctx.expr, outcome.value, ctx.depth))
    ensures !r.success ==> r.result == ctx.result
    ensures r.error == if outcome.LoadFailed? || (env.Some? && outcome.CallFailed?) then outcome.err else ctx.error
  {
    if outcome.LoadFailed? then ctx.(error := outcome.err, success := false)
    else if env.None? then ctx.(success := false)
    else if outcome.CallFailed? then ctx.(error := outcome.err, success := false)
    else ctx.(result := Some(GetVariable(ctx.expr, outcome.value, ctx.depth)), success := true)
  }

  /** Runs one evaluation request on the paused thread, whose stack is `frames`. */
  method DoEval(ctx: EvalContext, frames: seq<Frame>, outcome: Outcome) returns (r: EvalContext)
    ensures r == Evaluated(ctx, EnvOf(frames, ctx.stackLevel), outcome)
  {
    var env: Option<Env> := None;
    if !outcome.LoadFailed? {
      // The scope is only built once the chunk has loaded.
      env := CreateEnv(frames, ctx.stackLevel);
    }
    r := Evaluated(ctx, env, outcome);
  }

  /** Every field of a debugger except its three stepping states. */
  datatype Snapshot = Snapshot(
    skipHook: bool, lineSet: set<int>, breakPoints: seq<BreakPoint>, extNames: seq<string>,
    currentState: Option<ThreadId>, helperCode: string, states: set<ThreadId>, hookState: Option<Mode>,
    blocking: bool, evalQueue: seq<EvalContext>, running: bool, hookMasks: map<ThreadId, string>)

  class Debugger {
    /** Set while an evaluation runs, so that its own events are ignored. */
    var skipHook: bool
    /** Every line that carries a breakpoint. */
    var lineSet: set<int>
    var breakPoints: seq<BreakPoint>
    var extNames: seq<string>
    /** The thread that paused last. */
    var currentState: Option<ThreadId>
    var helperCode: string
    var states: set<ThreadId>
    var hookState: Option<Mode>
    const stepOver: StepState
    const stepIn: StepState
    const stepOut: StepState
    /** A thread is paused and waits for the IDE. */
    var blocking: bool
    var evalQueue: seq<EvalContext>
    var running: bool
    /** The hook mask last installed on each thread. */
    var hookMasks: map<ThreadId, string>

    /**
     * The line index is the set of breakpoint lines, stored breakpoint
     * files are lower-case with their path parts, and the three stepping
     * states are distinct objects.
     */
    predicate Valid()
      reads this
    {
      lineSet == Lines(breakPoints) &&
      (forall k :: 0 <= k < |breakPoints| ==> NoUpper(breakPoints[k].file) && |breakPoints[k].pathParts| > 0) &&
      stepOver != stepIn && stepOver != stepOut && stepIn != stepOut
    }

    /** The breakpoint a line event at `ar` hits, if any. */
    function BreakPointAt(ar: Ar): Option<BreakPoint>
      reads this
    {
      if ar.currentLine < 0 then None
      else FirstMatch(breakPoints, QueryOf(GetFile(ar.source, ar.currentLine, ar.fixedPath), ar.currentLine), extNames)
    }

    /** The debugger's fields as one value, so that a contract can say which of them change. */
    function State(): Snapshot
      reads this
    {
      Snapshot(skipHook, lineSet, breakPoints, extNames, currentState, helperCode, states, hookState,
               blocking, evalQueue, running, hookMasks)
    }

    /**
     * Whether the event `ar` pauses its thread: only a line event while the
     * hook is not suppressed can, and then a hit breakpoint pauses whatever
     * the hook state; otherwise the hook state's rule decides, on the
     * stepping state's levels after this event's update.
     */
    predicate PausesAt(ar: Ar)
      reads this, stepIn, stepOver, stepOut
    {
      !skipHook && ar.event == LuaHookLine &&
      (BreakPointAt(ar).Some? ||
       match hookState
       case None => false
       case Some(Break) => true
       case Some(Continue) => false
       case Some(Stop) => false
       case Some(StepIn) => StepInPauses(ar, stepIn.line)
       case Some(StepOut) => StepOutPauses(stepOut.newStackLevel, stepOut.oriStackLevel)
       case Some(StepOver) =>
         StepOverPauses(ar, stepOver.newStackLevel, stepOver.oriStackLevel, stepOver.file, stepOver.line))
    }

    /**
     * The effect of starting `mode` for the current thread, whose stack is
     * `frames`: every successful start but Break's lets the paused thread
     * run on; Stop unhooks the thread; the stepping state of `mode`
     * records its origin; nothing else changes but the hook state.
     */
    twostate predicate Started(mode: Mode, frames: seq<Frame>)
      reads this, stepIn, stepOver, stepOut
    {
      var ok := StartOk(mode, old(currentState), frames);
      blocking == (if ok && mode != Break then false else old(blocking)) &&
      hookMasks == (if ok && mode == Stop then old(hookMasks)[old(currentState).value := ""] else old(hookMasks)) &&
      State() == old(State()).(hookState := hookState, blocking := blocking, hookMasks := hookMasks) &&
      (if mode == StepIn then stepIn.StepInStarted(old(currentState), frames) else unchanged(stepIn)) &&
      (if mode == StepOver then stepOver.StepOverStarted(old(currentState), frames) else unchanged(stepOver)) &&
      (if mode == StepOut then
         stepOut.LevelsStarted(old(currentState), frames) && stepOut.file == old(stepOut.file) && stepOut.line == old(stepOut.line)
       else unchanged(stepOut))
    }

    /**
     * The effect of entering `mode`: it is started, and the hook state
     * becomes `mode` when the start succeeds and is cleared otherwise.
     */
    twostate predicate Entered(mode: Mode, frames: seq<Frame>)
      reads this, stepIn, stepOver, stepOut
    {
      Started(mode, frames) &&
      hookState == (if StartOk(mode, old(currentState), frames) then Some(mode) else None)
    }

    /**
     * The stepping states after a hook event on thread `L` with `depth`
     * frames: only the active stepping state moves, and only its tracked
     * level, and only on a line event that hit no breakpoint.
     */
    twostate predicate StepsTracked(L: ThreadId, ar: Ar, depth: int)
      reads this, stepIn, stepOver, stepOut
    {
      var tracks := !skipHook && ar.event == LuaHookLine && BreakPointAt(ar).None?;
      (if tracks && hookState == Some(StepIn) then stepIn.Tracked(L, depth) else unchanged(stepIn)) &&
      (if tracks && hookState == Some(StepOver) then stepOver.Tracked(L, depth) else unchanged(stepOver)) &&
      (if tracks && hookState == Some(StepOut) then stepOut.Tracked(L, depth) else unchanged(stepOut))
    }

    constructor()
      ensures Valid()
      ensures !skipHook && lineSet == {} && breakPoints == [] && extNames == []
      ensures currentState == None && helperCode == "" && states == {} && hookState == None
      ensures !blocking && evalQueue == [] && !running && hookMasks == map[]
      ensures fresh(stepOver) && fresh(stepIn) && fresh(stepOut)
    {
      skipHook := false;
      lineSet := {};
      breakPoints := [];
      extNames := [];
      currentState := None;
      helperCode := "";
      states := {};
      hookState := None;
      stepOver := new StepState();
      stepIn := new StepState();
      stepOut := new StepState();
      blocking := false;
      evalQueue := [];
      running := false;
      hookMasks := map[];
    }

    /** Starts a debugging session with the IDE's helper code. */
    method Start(code: string)
      requires Valid()
      modifies this
      ensures Valid()
      ensures State() == old(State()).(helperCode := code, skipHook := false, blocking := false, running := true)
    {
      helperCode := code;
      skipHook := false;
      blocking := false;
      running := true;
    }

    /** Installs the hook on `L` with `mask`. */
    method UpdateHook(L: ThreadId, mask: string)
      modifies this
      ensures hookMasks == old(hookMasks)[L := mask] && State() == old(State()).(hookMasks := hookMasks)
    {
      hookMasks := hookMasks[L := mask];
    }

    /** Attaches a thread to a running session, hooking calls, lines and returns. */
    method Attach(L: ThreadId)
      requires Valid()
      modifies this
      ensures Valid()
      ensures states == if old(running) then old(states) + {L} else old(states)
      ensures hookMasks == if old(running) then old(hookMasks)[L := "clr"] else old(hookMasks)
      ensures State() == old(State()).(states := states, hookMasks := hookMasks)
    {
      if !running {
        return;
      }
      states := states + {L};
      UpdateHook(L, "clr");
    }

    /** Leaves the paused state: the paused thread may run on once the queue is empty. */
    method ExitDebugMode()
      modifies this
      ensures !blocking && State() == old(State()).(blocking := false)
    {
      blocking := false;
    }

    /** Enters the paused state, in which evaluation requests are accepted. */
    method EnterDebugMode()
      modifies this
      ensures State() == old(State()).(blocking := true)
    {
      blocking := true;
    }

    /**
     * Makes `L` the current thread and hooks its lines only; the stop is
     * then reported and the debugger enters the paused state.
     */
    method HandleBreak(L: ThreadId)
      modifies this
      ensures State() == old(State()).(currentState := Some(L), hookMasks := old(hookMasks)[L := "l"])
    {
      currentState := Some(L);
      UpdateHook(L, "l");
    }

    /**
     * Starts `mode` for the current thread, whose stack is `frames`; each
     * mode's start is its own. Every mode but Break lets the paused thread
     * run on; Stop also unhooks the thread.
     */
    method StartMode(mode: Mode, frames: seq<Frame>) returns (ok: bool)
      requires Valid()
      modifies this, stepIn, stepOver, stepOut
      ensures Valid()
      ensures ok == StartOk(mode, currentState, frames)
      ensures Started(mode, frames)
    {
      match mode {
      case Break =>
        ok := true;
      case Continue =>
        ExitDebugMode();
        ok := true;
      case StepOver =>
        ok := StartStepOver(frames);
      case StepIn =>
        ok := StartStepIn(frames);
      case StepOut =>
        ok := StartStepOut(frames);
      case Stop =>
        ok := StartStop(frames);
      }
    }

    /** Starts stepping over: records the origin, then lets the paused thread run on. */
    method StartStepOver(frames: seq<Frame>) returns (ok: bool)
      requires Valid()
      modifies this, stepOver
      ensures Valid()
      ensures ok == StartOk(StepOver, currentState, frames)
      ensures Started(StepOver, frames)
    {
      ok := stepOver.StartStepOver(currentState, frames);
      if ok { ExitDebugMode(); }
    }

    /** Starts stepping in: records the origin, then lets the paused thread run on. */
    method StartStepIn(frames: seq<Frame>) returns (ok: bool)
      requires Valid()
      modifies this, stepIn
      ensures Valid()
      ensures ok == StartOk(StepIn, currentState, frames)
      ensures Started(StepIn, frames)
    {
      ok := stepIn.StartStepIn(currentState, frames);
      if ok { ExitDebugMode(); }
    }

    /** Starts stepping out: records the level, then lets the paused thread run on. */
    method StartStepOut(frames: seq<Frame>) returns (ok: bool)
      requires Valid()
      modifies this, stepOut
      ensures Valid()
      ensures ok == StartOk(StepOut, currentState, frames)
      ensures Started(StepOut, frames)
    {
      ok := stepOut.StartLevels(currentState, frames);
      if ok { ExitDebugMode(); }
    }

    /** Starts stopping: unhooks the current thread, then continues it. */
    method StartStop(frames: seq<Frame>) returns (ok: bool)
      requires Valid()
      modifies this
      ensures Valid()
      ensures ok == StartOk(Stop, currentState, frames)
      ensures Started(Stop, frames)
    {
      ok := currentState.Some?;
      if ok {
        UpdateHook(currentState.value, "");
        // Stopping continues first.
        hookState := None;
        ExitDebugMode();
        hookState := Some(Continue);
      }
    }

    /**
     * Enters `mode` for the current thread, whose stack is `frames`: the
     * state is cleared, and set to `mode` only when starting it succeeds.
     */
    method SetHookState(mode: Mode, frames: seq<Frame>) returns (ok: bool)
      requires Valid()
      modifies this, stepIn, stepOver, stepOut
      ensures Valid()
      ensures ok == StartOk(mode, currentState, frames)
      ensures Entered(mode, frames)
    {
      // No start reads the hook state, so clearing it before the start
      // comes to the same as setting it once the start has answered.
      ok := StartMode(mode, frames);
      hookState := if ok then Some(mode) else None;
    }

    /** Carries out an action code from the IDE; unknown codes change nothing. */
    method DoAction(action: int, frames: seq<Frame>)
      requires Valid()
      modifies this, stepIn, stepOver, stepOut
      ensures Valid()
      ensures ModeOf(action).Some? ==> Entered(ModeOf(action).value, frames)
      ensures ModeOf(action).None? ==> unchanged(this, stepIn, stepOver, stepOut)
    {
      var mode := ModeOf(action);
      if mode.Some? {
        var _ := SetHookState(mode.value, frames);
      }
    }

    /** The chunk name matches the breakpoint's file name, allowing a configured extension. */
    method MatchFileName(chunkName: string, fileName: string) returns (b: bool)
      ensures b == Paths.MatchFileName(extNames, chunkName, fileName)
    {
      if chunkName == fileName {
        return true;
      }
      var i := 0;
      while i < |extNames|
        invariant 0 <= i <= |extNames|
        invariant forall j :: 0 <= j < i ==> chunkName + extNames[j] != fileName
      {
        if chunkName + extNames[i] == fileName {
          return true;
        }
        i := i + 1;
      }
      b := false;
    }

    /** The first registered breakpoint at `line` of `file`, in registration order. */
    method FindBreakPointByFile(file: string, line: int) returns (r: Option<BreakPoint>)
      ensures r == FirstMatch(breakPoints, QueryOf(file, line), extNames)
    {
      var lower := Lower(file);
      var parts := ParsePathParts(lower, []);
      ghost var q := QueryOf(file, line);
      assert q.file == lower && q.parts == parts;
      var k := 0;
      while k < |breakPoints|
        invariant 0 <= k <= |breakPoints|
        invariant FirstMatch(breakPoints[k..], q, extNames) == FirstMatch(breakPoints, q, extNames)
      {
        var bp := breakPoints[k];
        assert breakPoints[k..][0] == bp && breakPoints[k..][1..] == breakPoints[k + 1..];
        if bp.line == line {
          if bp.file == lower {
            return Some(bp);
          }
          if |bp.pathParts| >= |parts| {
            var nameOk := MatchFileName(parts[|parts| - 1], bp.pathParts[|bp.pathParts| - 1]);
            if nameOk {
              var same := true;
              var i := 0;
              while i < |parts|
                invariant 0 <= i <= |parts|
                invariant forall j :: 0 <= j < i ==> SameFromEnd(bp.pathParts, parts, j)
              {
                if bp.pathParts[|bp.pathParts| - 1 - i] != parts[|parts| - 1 - i] {
                  assert !SameFromEnd(bp.pathParts, parts, i);
                  same := false;
                  break;
                }
                i := i + 1;
              }
              SuffixOfFromEnd(parts, bp.pathParts);
              if same {
                return Some(bp);
              }
            }
          }
        }
        k := k + 1;
      }
      r := None;
    }

    /** The breakpoint a line event hits, consulting the line index first. */
    method FindBreakPoint(ar: Ar) returns (r: Option<BreakPoint>)
      requires Valid()
      ensures r == BreakPointAt(ar)
    {
      if ar.currentLine >= 0 {
        if ar.currentLine in lineSet {
          var file := GetFile(ar.source, ar.currentLine, ar.fixedPath);
          r := FindBreakPointByFile(file, ar.currentLine);
          return;
        }
        FastRejectSound(breakPoints, QueryOf(GetFile(ar.source, ar.currentLine, ar.fixedPath), ar.currentLine), extNames);
      }
      r := None;
    }

    /** Rebuilds the line index from the breakpoint list. */
    method RefreshLineSet()
      modifies this
      ensures State() == old(State()).(lineSet := Lines(breakPoints))
    {
      var lines := {};
      var i := 0;
      while i < |breakPoints|
        invariant 0 <= i <= |breakPoints|
        invariant lines == Lines(breakPoints[..i])
      {
        assert breakPoints[..i + 1][..i] == breakPoints[..i];
        lines := lines + {breakPoints[i].line};
        i := i + 1;
      }
      assert breakPoints[..i] == breakPoints;
      lineSet := lines;
    }

    /** Registers a breakpoint, normalising its file, after the existing ones. */
    method AddBreakPoint(bp: BreakPoint)
      requires Valid()
      modifies this
      ensures Valid()
      ensures breakPoints == old(breakPoints) + [Normalized(bp)]
      ensures lineSet == old(lineSet) + {bp.line}
      ensures State() == old(State()).(breakPoints := breakPoints, lineSet := lineSet)
    {
      var file := Lower(bp.file);
      var parts := ParsePathParts(file, bp.pathParts);
      breakPoints := breakPoints + [bp.(file := file, pathParts := parts)];
      RefreshLineSet();
      LinesSnoc(old(breakPoints), Normalized(bp));
    }

    /** Removes the first breakpoint registered at `line` of `file`, if there is one. */
    method RemoveBreakPoint(file: string, line: int)
      requires Valid()
      modifies this
      ensures Valid()
      ensures breakPoints == RemoveFirst(old(breakPoints), Lower(file), line)
      ensures State() == old(State()).(breakPoints := breakPoints, lineSet := lineSet)
    {
      var lower := Lower(file);
      var k := 0;
      while k < |breakPoints| && !(breakPoints[k].file == lower && breakPoints[k].line == line)
        invariant 0 <= k <= |breakPoints|
        invariant forall j :: 0 <= j < k ==> !SameEntry(breakPoints[j], lower, line)
      {
        k := k + 1;
      }
      if k < |breakPoints| {
        RemoveFirstAt(breakPoints, lower, line, k);
        breakPoints := breakPoints[..k] + breakPoints[k + 1..];
      } else {
        RemoveFirstAbsent(breakPoints, lower, line);
      }
      RefreshLineSet();
    }

    /** Forgets every breakpoint. */
    method RemoveAllBreakpoints()
      requires Valid()
      modifies this
      ensures Valid()
      ensures State() == old(State()).(breakPoints := [], lineSet := {})
    {
      lineSet := {};
      breakPoints := [];
    }

    /**
     * One hook event on thread `L`, whose stack holds `depth` frames.
     * Only line events count: a hit breakpoint pauses whatever the hook
     * state, otherwise the hook state decides. Returns whether `L` paused.
     */
    method Hook(L: ThreadId, ar: Ar, depth: int) returns (paused: bool)
      requires Valid()
      modifies this, stepIn, stepOver, stepOut
      ensures Valid()
      ensures paused == PausesAt(ar)
      ensures StepsTracked(L, ar, depth)
      ensures State() == if paused then old(State()).(currentState := Some(L), hookMasks := old(hookMasks)[L := "l"])
                         else old(State())
    {
      paused := false;
      if skipHook || ar.event != LuaHookLine {
        return;
      }
      var bp := FindBreakPoint(ar);
      if bp.Some? {
        HandleBreak(L);
        return true;
      }
      match hookState {
      case None =>
      case Some(Break) =>
        paused := true;
      case Some(Continue) =>
      case Some(Stop) =>
      case Some(StepIn) =>
        paused := stepIn.ProcessStepIn(L, ar, depth);
      case Some(StepOut) =>
        paused := stepOut.ProcessStepOut(L, ar, depth);
      case Some(StepOver) =>
        paused := stepOver.ProcessStepOver(L, ar, depth);
      }
      if paused {
        HandleBreak(L);
      }
    }

    /** Queues an evaluation request; requests arriving while no thread is paused are dropped. */
    method Eval(ctx: EvalContext)
      modifies this
      ensures State() == old(State()).(evalQueue := if old(blocking) then old(evalQueue) + [ctx] else old(evalQueue))
    {
      if !blocking {
        return;
      }
      evalQueue := evalQueue + [ctx];
    }

    /**
     * Serves the queued evaluation requests in arrival order while paused,
     * with the hook suppressed during each; `run` gives what running each
     * request's chunk produces and `frames` is the paused thread's stack.
     * `resumed` says whether the paused thread may run on.
     */
    method DrainEvalQueue(frames: seq<Frame>, run: EvalContext -> Outcome) returns (done: seq<EvalContext>, resumed: bool)
      modifies this
      ensures |done| == |old(evalQueue)|
      ensures forall k :: 0 <= k < |done| ==>
        done[k] == Evaluated(old(evalQueue)[k], EnvOf(frames, old(evalQueue)[k].stackLevel), run(old(evalQueue)[k]))
      ensures State() == old(State()).(evalQueue := []) && resumed == !blocking
    {
      done := [];
      while |evalQueue| > 0
        invariant |done| + |evalQueue| == |old(evalQueue)|
        invariant evalQueue == old(evalQueue)[|done|..]
        invariant forall k :: 0 <= k < |done| ==>
          done[k] == Evaluated(old(evalQueue)[k], EnvOf(frames, old(evalQueue)[k].stackLevel), run(old(evalQueue)[k]))
        invariant State() == old(State()).(evalQueue := evalQueue)
        decreases |evalQueue|
      {
        var ctx := evalQueue[0];
        evalQueue := evalQueue[1..];
        var skip := skipHook;
        skipHook := true;
        var result := DoEval(ctx, frames, run(ctx));
        skipHook := skip;
        done := done + [result];
      }
      resumed := !blocking;
    }
  }
}
