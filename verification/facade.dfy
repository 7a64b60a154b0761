/**
 * The session layer between the IDE and the debugger: it turns each
 * request into registry and state operations, and shapes the break
 * notifications and evaluation responses it sends back.
 */
module Facade {
  import opened Wrappers
  import opened Lua
  import opened Types
  import opened Registry
  import opened Inspect
  import opened Debugger
  import Proto

  /**
   * The wire form of one stack snapshot: the same level, file, function
   * name and line, with the locals followed by the upvalues all sent as
   * local variables and no upvalue variables.
   */
  function StackToProto(s: Stack): (r: Proto.Stack)
    ensures r.level == s.level && r.file == s.file && r.functionName == s.functionName && r.line == s.line
    ensures r.upvalueVariables == []
    ensures |r.localVariables| == |s.localVariables| + |s.upvalueVariables|
    ensures forall i :: 0 <= i < |s.localVariables| ==> r.localVariables[i] == ToProto(s.localVariables[i])
    ensures forall j :: 0 <= j < |s.upvalueVariables| ==>
      r.localVariables[|s.localVariables| + j] == ToProto(s.upvalueVariables[j])
  {
    Proto.Stack(s.level, s.file, s.functionName, s.line,
      ToProtoAll(s.localVariables) + ToProtoAll(s.upvalueVariables), [])
  }

  /**
   * The hook masks once every thread of `threads` is attached: each of
   * them hooks calls, lines and returns, and every other thread keeps its
   * mask.
   */
  function Attached(masks: map<ThreadId, string>, threads: set<ThreadId>): (r: map<ThreadId, string>)
    ensures r.Keys == masks.Keys + threads
    ensures forall L :: L in threads ==> r[L] == "clr"
    ensures forall L :: L in masks && L !in threads ==> r[L] == masks[L]
  {
    map L | L in masks.Keys + threads :: if L in threads then "clr" else masks[L]
  }

  /** Attaching one more thread sets that thread's mask and keeps the rest. */
  lemma AttachOne(masks: map<ThreadId, string>, threads: set<ThreadId>, L: ThreadId)
    ensures Attached(masks, threads)[L := "clr"] == Attached(masks, threads + {L})
  {
  }

  /** Builds the break notification for a stack snapshot, one wire stack per snapshot entry. */
  method BuildBreakNotify(stacks: seq<Stack>) returns (notify: Proto.BreakNotify)
    ensures notify.cmd == Proto.MsgIdBreakNotify
    ensures |notify.stacks| == |stacks|
    ensures forall k :: 0 <= k < |stacks| ==> notify.stacks[k] == StackToProto(stacks[k])
  {
    var out: seq<Proto.Stack> := [];
    var k := 0;
    while k < |stacks|
      invariant 0 <= k <= |stacks| && |out| == k
      invariant forall m :: 0 <= m < k ==> out[m] == StackToProto(stacks[m])
    {
      var stack := stacks[k];
      var locals: seq<Proto.Variable> := [];
      var i := 0;
      while i < |stack.localVariables|
        invariant 0 <= i <= |stack.localVariables|
        invariant locals == ToProtoAll(stack.localVariables[..i])
      {
        locals := locals + [ToProto(stack.localVariables[i])];
        i := i + 1;
      }
      assert stack.localVariables[..i] == stack.localVariables;
      var j := 0;
      while j < |stack.upvalueVariables|
        invariant 0 <= j <= |stack.upvalueVariables|
        invariant locals == ToProtoAll(stack.localVariables) + ToProtoAll(stack.upvalueVariables[..j])
      {
        locals := locals + [ToProto(stack.upvalueVariables[j])];
        j := j + 1;
      }
      assert stack.upvalueVariables[..j] == stack.upvalueVariables;
      out := out + [Proto.Stack(stack.level, stack.file, stack.functionName, stack.line, locals, [])];
      k := k + 1;
    }
    notify := Proto.BreakNotify(Proto.MsgIdBreakNotify, out);
  }

  /**
   * The response to a completed evaluation: the same sequence number,
   * success flag and error, with the result's wire form exactly when the
   * evaluation succeeded.
   */
  function EvalRspOf(ctx: EvalContext): (r: Proto.EvalRsp)
    requires ctx.success ==> ctx.result.Some?
    ensures r.seqNum == ctx.seqNum && r.success == ctx.success && r.error == ctx.error
    ensures r.value.Some? <==> ctx.success
    ensures ctx.success ==> r.value == Some(ToProto(ctx.result.value))
  {
    Proto.EvalRsp(ctx.seqNum, ctx.success, ctx.error,
      if ctx.success then Some(ToProto(ctx.result.value)) else None)
  }

  /** A successful response carries the evaluated tree, cache ids aside. */
  lemma EvalRspCarriesResult(ctx: EvalContext, env: Env, value: LValue)
    ensures var rsp := EvalRspOf(Evaluated(ctx, Some(env), Returned(value)));
      rsp.success && rsp.seqNum == ctx.seqNum &&
      FromProto(rsp.value.value) == GetVariable(ctx.expr, value, ctx.depth)
  {
    GetVariableCacheFree(ctx.expr, value, ctx.depth);
    ToProtoRoundTrip(GetVariable(ctx.expr, value, ctx.depth));
  }

  /** The evaluation context built from an evaluation request. */
  function ContextOf(seqNum: int, expr: string, stackLevel: int, depth: int, cacheId: int): (ctx: EvalContext)
    ensures ctx.seqNum == seqNum && ctx.expr == expr && ctx.stackLevel == stackLevel
    ensures ctx.depth == depth && ctx.cacheId == cacheId
    ensures !ctx.success && ctx.result == None && ctx.error == ""
  {
    EvalContext(expr, "", seqNum, stackLevel, depth, cacheId, None, false)
  }

  class Facade {
    const dbg: Debugger
    /** The threads registered for debugging. */
    var states: set<ThreadId>
    var helperCode: string
    var isIDEReady: bool
    /** Everything sent to the IDE so far: command id and payload, in order. */
    var sent: seq<(int, Proto.Outbound)>

    predicate Valid()
      reads this, dbg
    {
      dbg.Valid()
    }

    constructor(d: Debugger)
      requires d.Valid()
      ensures Valid() && dbg == d
      ensures states == {} && helperCode == "" && !isIDEReady && sent == []
    {
      dbg := d;
      states := {};
      helperCode := "";
      isIDEReady := false;
      sent := [];
    }

    /**
     * After an init request: the debugger runs with the IDE's helper code
     * and extensions, every registered thread is attached with calls,
     * lines and returns hooked, and nothing else changed.
     */
    twostate predicate Initialized(emmyHelper: string, ext: seq<string>)
      reads this, dbg
    {
      helperCode == emmyHelper && states == old(states) && isIDEReady == old(isIDEReady) && sent == old(sent) &&
      dbg.State() == old(dbg.State()).(helperCode := emmyHelper, skipHook := false, blocking := false,
        running := true, extNames := ext, states := old(dbg.states) + states,
        hookMasks := Attached(old(dbg.hookMasks), states))
    }

    /** After a ready request: the IDE is marked ready and nothing else changed. */
    twostate predicate MarkedReady()
      reads this, dbg
    {
      isIDEReady && states == old(states) && helperCode == old(helperCode) && sent == old(sent) && unchanged(dbg)
    }

    /**
     * After an add request: the registry was cleared when asked, then
     * extended by the requested breakpoints, normalised and in request
     * order; nothing else changed.
     */
    twostate predicate BreakPointsAdded(clear: bool, bps: seq<Proto.BreakPoint>)
      reads this, dbg
    {
      var added := (if clear then [] else old(dbg.breakPoints)) + NormalizedAll(bps);
      unchanged(this) && dbg.State() == old(dbg.State()).(breakPoints := added, lineSet := Lines(added))
    }

    /**
     * After a remove request: the first breakpoint at each requested file
     * and line was removed, in request order; nothing else changed.
     */
    twostate predicate BreakPointsRemoved(bps: seq<Proto.BreakPoint>)
      reads this, dbg
    {
      var kept := RemoveEach(old(dbg.breakPoints), bps);
      unchanged(this) && dbg.State() == old(dbg.State()).(breakPoints := kept, lineSet := Lines(kept))
    }

    /** After an action request: the action was applied as `DoAction` applies it. */
    twostate predicate ActionApplied(action: int, frames: seq<Frame>)
      reads this, dbg, dbg.stepIn, dbg.stepOver, dbg.stepOut
    {
      unchanged(this) &&
      if ModeOf(action).Some? then dbg.Entered(ModeOf(action).value, frames)
      else unchanged(dbg, dbg.stepIn, dbg.stepOver, dbg.stepOut)
    }

    /**
     * After an evaluation request: it was queued as `ctx` if a thread was
     * paused, and dropped otherwise; nothing else changed.
     */
    twostate predicate EvalRequested(ctx: EvalContext)
      reads this, dbg
    {
      unchanged(this) &&
      dbg.State() == old(dbg.State()).(evalQueue := if old(dbg.blocking) then old(dbg.evalQueue) + [ctx] else old(dbg.evalQueue))
    }

    /**
     * Exactly one message was sent since the old state: the break
     * notification for the paused thread's stack `frames`, one wire stack
     * per readable frame, in level order.
     */
    twostate predicate Notified(frames: seq<Frame>)
      reads this
    {
      |sent| == |old(sent)| + 1 && sent[..|old(sent)|] == old(sent) &&
      sent[|old(sent)|].0 == Proto.MsgIdBreakNotify && sent[|old(sent)|].1.BreakNotifyMsg? &&
      var notify := sent[|old(sent)|].1.notify;
      notify.cmd == Proto.MsgIdBreakNotify && |notify.stacks| == ReadableFrames(frames) <= |frames| &&
      forall k :: 0 <= k < |notify.stacks| ==> notify.stacks[k] == StackToProto(StackOf(frames[k], k))
    }

    /** Registers the thread that opened the connection. */
    method Register(L: ThreadId)
      modifies this
      ensures states == old(states) + {L}
      ensures helperCode == old(helperCode) && isIDEReady == old(isIDEReady) && sent == old(sent)
    {
      states := states + {L};
    }

    /**
     * Starts the debugger with the IDE's helper code, attaches every
     * registered thread, and takes the IDE's list of file extensions.
     */
    method OnInitReq(emmyHelper: string, ext: seq<string>)
      requires Valid()
      modifies this, dbg
      ensures Valid()
      ensures Initialized(emmyHelper, ext)
    {
      helperCode := emmyHelper;
      dbg.Start(helperCode);
      AttachAll();
      dbg.extNames := ext;
    }

    /** Attaches every registered thread to the running debugger. */
    method AttachAll()
      requires Valid() && dbg.running
      modifies dbg
      ensures Valid()
      ensures dbg.State() == old(dbg.State()).(states := old(dbg.states) + states,
        hookMasks := Attached(old(dbg.hookMasks), states))
    {
      ghost var start := dbg.State();
      var todo := states;
      ghost var done: set<ThreadId> := {};
      while todo != {}
        invariant dbg.Valid() && todo <= states && done == states - todo && dbg.running
        invariant dbg.states == start.states + done && dbg.hookMasks == Attached(start.hookMasks, done)
        invariant dbg.State() == start.(states := dbg.states, hookMasks := dbg.hookMasks)
        decreases todo
      {
        var L :| L in todo;
        dbg.Attach(L);
        AttachOne(start.hookMasks, done, L);
        todo := todo - {L};
        done := done + {L};
      }
      assert done == states;
    }

    /** The IDE is ready. */
    method OnReadyReq()
      modifies this
      ensures MarkedReady()
    {
      isIDEReady := true;
    }

    /** Optionally clears the registry, then registers each breakpoint in request order. */
    method OnAddBreakPointReq(clear: bool, bps: seq<Proto.BreakPoint>)
      requires Valid()
      modifies dbg
      ensures Valid()
      ensures BreakPointsAdded(clear, bps)
    {
      if clear {
        dbg.RemoveAllBreakpoints();
      }
      AddEach(bps);
    }

    /** Registers each breakpoint of an add request after the current ones, in request order. */
    method AddEach(bps: seq<Proto.BreakPoint>)
      requires Valid()
      modifies dbg
      ensures Valid()
      ensures BreakPointsAdded(false, bps)
    {
      ghost var base := dbg.breakPoints;
      ghost var start := dbg.State();
      var i := 0;
      while i < |bps|
        invariant 0 <= i <= |bps| && dbg.Valid()
        invariant dbg.breakPoints == base + NormalizedAll(bps[..i])
        invariant dbg.State() == start.(breakPoints := dbg.breakPoints, lineSet := dbg.lineSet)
      {
        var bp := BreakPoint(bps[i].file, bps[i].condition, [], bps[i].line);
        assert bp == FromWire(bps[i]);
        NormalizedAllSnoc(base, bps, i);
        dbg.AddBreakPoint(bp);
        i := i + 1;
      }
      assert bps[..i] == bps;
    }

    /** Removes, in request order, the first breakpoint at each requested file and line. */
    method OnRemoveBreakPointReq(bps: seq<Proto.BreakPoint>)
      requires Valid()
      modifies dbg
      ensures Valid()
      ensures BreakPointsRemoved(bps)
    {
      var i := 0;
      while i < |bps|
        invariant 0 <= i <= |bps| && dbg.Valid()
        invariant RemoveEach(dbg.breakPoints, bps[i..]) == RemoveEach(old(dbg.breakPoints), bps)
        invariant dbg.State() == old(dbg.State()).(breakPoints := dbg.breakPoints, lineSet := dbg.lineSet)
      {
        assert bps[i..][0] == bps[i] && bps[i..][1..] == bps[i + 1..];
        dbg.RemoveBreakPoint(bps[i].file, bps[i].line);
        i := i + 1;
      }
    }

    /** Passes an action code to the debugger; `frames` is the paused thread's stack. */
    method OnActionReq(action: int, frames: seq<Frame>)
      requires Valid()
      modifies dbg, dbg.stepIn, dbg.stepOver, dbg.stepOut
      ensures Valid()
      ensures ActionApplied(action, frames)
    {
      dbg.DoAction(action, frames);
    }

    /** Queues an evaluation request; it is dropped unless a thread is paused. */
    method OnEvalReq(seqNum: int, expr: string, stackLevel: int, depth: int, cacheId: int)
      modifies dbg
      ensures EvalRequested(ContextOf(seqNum, expr, stackLevel, depth, cacheId))
    {
      dbg.Eval(ContextOf(seqNum, expr, stackLevel, depth, cacheId));
    }

    /**
     * Dispatches one decoded request by its command id; ids other than the
     * six request ids are ignored. `frames` is the paused thread's stack.
     */
    method HandleMsg(cmd: int, req: Proto.Request, frames: seq<Frame>)
      requires Valid()
      requires Proto.IsRequestId(cmd) ==> Proto.MsgIdOf(req) == cmd
      modifies this, dbg, dbg.stepIn, dbg.stepOver, dbg.stepOut
      ensures Valid()
      ensures cmd == Proto.MsgIdInitReq ==> Initialized(req.emmyHelper, req.ext)
      ensures cmd == Proto.MsgIdReadyReq ==> MarkedReady()
      ensures cmd == Proto.MsgIdAddBreakPointReq ==> BreakPointsAdded(req.clear, req.breakPoints)
      ensures cmd == Proto.MsgIdRemoveBreakPointReq ==> BreakPointsRemoved(req.breakPoints)
      ensures cmd == Proto.MsgIdActionReq ==> ActionApplied(req.action, frames)
      ensures cmd == Proto.MsgIdEvalReq ==>
        EvalRequested(ContextOf(req.seqNum, req.expr, req.stackLevel, req.depth, req.cacheId))
      ensures cmd != Proto.MsgIdActionReq ==> unchanged(dbg.stepIn, dbg.stepOver, dbg.stepOut)
      ensures !Proto.IsRequestId(cmd) ==> unchanged(this, dbg)
    {
      if cmd == Proto.MsgIdInitReq {
        OnInitReq(req.emmyHelper, req.ext);
      } else if cmd == Proto.MsgIdReadyReq {
        OnReadyReq();
      } else if cmd == Proto.MsgIdAddBreakPointReq {
        OnAddBreakPointReq(req.clear, req.breakPoints);
      } else if cmd == Proto.MsgIdRemoveBreakPointReq {
        OnRemoveBreakPointReq(req.breakPoints);
      } else if cmd == Proto.MsgIdActionReq {
        OnActionReq(req.action, frames);
      } else if cmd == Proto.MsgIdEvalReq {
        OnEvalReq(req.seqNum, req.expr, req.stackLevel, req.depth, req.cacheId);
      }
    }

    /** Reports a stop: sends the snapshot of the paused thread's stack `frames`. */
    method OnBreak(frames: seq<Frame>)
      modifies this
      ensures Notified(frames)
      ensures states == old(states) && helperCode == old(helperCode) && isIDEReady == old(isIDEReady)
    {
      var stacks := GetStacks(frames);
      var notify := BuildBreakNotify(stacks);
      sent := sent + [(Proto.MsgIdBreakNotify, Proto.BreakNotifyMsg(notify))];
    }

    /** Sends the response to one completed evaluation. */
    method OnEvalResult(ctx: EvalContext)
      requires ctx.success ==> ctx.result.Some?
      modifies this
      ensures sent == old(sent) + [(Proto.MsgIdEvalRsp, Proto.EvalRspMsg(EvalRspOf(ctx)))]
      ensures states == old(states) && helperCode == old(helperCode) && isIDEReady == old(isIDEReady)
    {
      sent := sent + [(Proto.MsgIdEvalRsp, Proto.EvalRspMsg(EvalRspOf(ctx)))];
    }

    /**
     * One hook event on thread `L` (stack depth `depth`, stack `frames`):
     * when the debugger pauses, the stop is reported and the debugger
     * enters the paused state.
     */
    method Hook(L: ThreadId, ar: Ar, depth: int, frames: seq<Frame>) returns (paused: bool)
      requires Valid()
      modifies this, dbg, dbg.stepIn, dbg.stepOver, dbg.stepOut
      ensures Valid()
      ensures paused == dbg.PausesAt(ar)
      ensures dbg.StepsTracked(L, ar, depth)
      ensures paused ==> (Notified(frames) &&
        dbg.State() == old(dbg.State()).(currentState := Some(L), hookMasks := old(dbg.hookMasks)[L := "l"], blocking := true))
      ensures !paused ==> sent == old(sent) && dbg.State() == old(dbg.State())
      ensures states == old(states) && helperCode == old(helperCode) && isIDEReady == old(isIDEReady)
    {
      paused := dbg.Hook(L, ar, depth);
      if paused {
        OnBreak(frames);
        dbg.EnterDebugMode();
      }
    }

    /**
     * Serves the queued evaluation requests of the paused thread (stack
     * `frames`) in arrival order, sending one response each; `run` gives
     * what running each request's chunk produces. `resumed` says whether
     * the thread may run on.
     */
    method ServeEvals(frames: seq<Frame>, run: EvalContext -> Outcome) returns (resumed: bool)
      requires Valid()
      modifies this, dbg
      ensures Valid()
      ensures |sent| == |old(sent)| + |old(dbg.evalQueue)| && sent[..|old(sent)|] == old(sent)
      ensures forall k :: 0 <= k < |old(dbg.evalQueue)| ==>
        var ctx := old(dbg.evalQueue)[k];
        sent[|old(sent)| + k] ==
          (Proto.MsgIdEvalRsp, Proto.EvalRspMsg(EvalRspOf(Evaluated(ctx, EnvOf(frames, ctx.stackLevel), run(ctx)))))
      ensures dbg.State() == old(dbg.State()).(evalQueue := []) && resumed == !dbg.blocking
      ensures states == old(states) && helperCode == old(helperCode) && isIDEReady == old(isIDEReady)
    {
      var done;
      done, resumed := dbg.DrainEvalQueue(frames, run);
      var k := 0;
      while k < |done|
        modifies this
        invariant 0 <= k <= |done|
        invariant states == old(states) && helperCode == old(helperCode) && isIDEReady == old(isIDEReady)
        invariant |sent| == |old(sent)| + k && sent[..|old(sent)|] == old(sent)
        invariant forall m :: 0 <= m < k ==>
          sent[|old(sent)| + m] == (Proto.MsgIdEvalRsp, Proto.EvalRspMsg(EvalRspOf(done[m])))
      {
        OnEvalResult(done[k]);
        k := k + 1;
      }
    }
  }
}
