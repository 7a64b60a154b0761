/**
 * The wire protocol between the debugger and the IDE: message ids,
 * payload records, the debug actions and the id -> request lookup that the
 * transport uses to decode an incoming payload.
 */
module Proto {
  import opened Wrappers

  // Message ids, numbered consecutively from zero.
  const MsgIdUnknown: int := 0
  const MsgIdInitReq: int := 1
  const MsgIdInitRsp: int := 2
  const MsgIdReadyReq: int := 3
  const MsgIdReadyRsq: int := 4
  const MsgIdAddBreakPointReq: int := 5
  const MsgIdAddBreakPointRsp: int := 6
  const MsgIdRemoveBreakPointReq: int := 7
  const MsgIdRemoveBreakPointRsp: int := 8
  const MsgIdActionReq: int := 9
  const MsgIdActionRsp: int := 10
  const MsgIdEvalReq: int := 11
  const MsgIdEvalRsp: int := 12
  const MsgIdBreakNotify: int := 13
  const MsgIdAttachedNotify: int := 14
  const MsgIdStartHookReq: int := 15
  const MsgIdStartHookRsp: int := 16
  const MsgIdLogNotify: int := 17

  /** A debug action is a plain integer on the wire; only 0..5 name an action. */
  type DebugAction = int
  const Break: DebugAction := 0
  const Continue: DebugAction := 1
  const StepOver: DebugAction := 2
  const StepIn: DebugAction := 3
  const StepOut: DebugAction := 4
  const Stop: DebugAction := 5

  /** A variable as sent to the IDE (no cache id). */
  datatype Variable = Variable(
    name: string,
    nameType: int,
    value: string,
    valueType: int,
    valueTypeName: string,
    children: seq<Variable>)

  datatype Stack = Stack(
    level: int,
    file: string,
    functionName: string,
    line: int,
    localVariables: seq<Variable>,
    upvalueVariables: seq<Variable>)

  datatype BreakPoint = BreakPoint(file: string, line: int, condition: string, hitCount: int)

  /** The six requests the IDE sends. */
  datatype Request =
    | InitReq(emmyHelper: string, ext: seq<string>)
    | ReadyReq
    | AddBreakPointReq(clear: bool, breakPoints: seq<BreakPoint>)
    | RemoveBreakPointReq(breakPoints: seq<BreakPoint>)
    | ActionReq(action: DebugAction)
    | EvalReq(seqNum: int, expr: string, stackLevel: int, depth: int, cacheId: int)

  datatype BreakNotify = BreakNotify(cmd: int, stacks: seq<Stack>)

  datatype EvalRsp = EvalRsp(seqNum: int, success: bool, error: string, value: Option<Variable>)

  /** What the debugger sends: a command id and its payload. */
  datatype Outbound =
    | BreakNotifyMsg(notify: BreakNotify)
    | EvalRspMsg(rsp: EvalRsp)

  predicate IsRequestId(id: int) {
    id == MsgIdInitReq || id == MsgIdReadyReq || id == MsgIdAddBreakPointReq ||
    id == MsgIdRemoveBreakPointReq || id == MsgIdActionReq || id == MsgIdEvalReq
  }

  /** The id under which each request kind travels. */
  function MsgIdOf(r: Request): (id: int)
    ensures IsRequestId(id)
  {
    match r
    case InitReq(_, _) => MsgIdInitReq
    case ReadyReq => MsgIdReadyReq
    case AddBreakPointReq(_, _) => MsgIdAddBreakPointReq
    case RemoveBreakPointReq(_) => MsgIdRemoveBreakPointReq
    case ActionReq(_) => MsgIdActionReq
    case EvalReq(_, _, _, _, _) => MsgIdEvalReq
  }

  /** A request with every field at its zero value, as a fresh Go struct is. */
  predicate IsZero(r: Request) {
    match r
    case InitReq(h, e) => h == "" && e == []
    case ReadyReq => true
    case AddBreakPointReq(c, b) => !c && b == []
    case RemoveBreakPointReq(b) => b == []
    case ActionReq(a) => a == 0
    case EvalReq(s, x, l, d, c) => s == 0 && x == "" && l == 0 && d == 0 && c == 0
  }

  /**
   * The lookup table from message id to a fresh request of the matching
   * kind; nil (None) for every id that is not one of the six request ids.
   */
  function GetMsg(msgId: int): (r: Option<Request>)
    ensures r.Some? <==> IsRequestId(msgId)
    ensures r.Some? ==> MsgIdOf(r.value) == msgId && IsZero(r.value)
  {
    if msgId == MsgIdInitReq then Some(InitReq("", []))
    else if msgId == MsgIdReadyReq then Some(ReadyReq)
    else if msgId == MsgIdAddBreakPointReq then Some(AddBreakPointReq(false, []))
    else if msgId == MsgIdRemoveBreakPointReq then Some(RemoveBreakPointReq([]))
    else if msgId == MsgIdActionReq then Some(ActionReq(0))
    else if msgId == MsgIdEvalReq then Some(EvalReq(0, "", 0, 0, 0))
    else None
  }
}
