/**
 * The part of the gopher-lua interpreter that the debugger observes, as
 * plain values: runtime values with their type and string rendering, and
 * the call frames of a script thread.
 */
module Lua {
  import opened Wrappers

  /** The identity of an interpreter thread (an *lua.LState). */
  type ThreadId = nat

  /** The interpreter's type codes; LTOther stands for any other code. */
  datatype LValueType =
    | LTNil | LTBool | LTNumber | LTString | LTFunction
    | LTUserData | LTThread | LTTable | LTChannel | LTOther

  /**
   * A runtime value. Where the interpreter's String() rendering is not a
   * function of the modelled contents (number formatting, addresses of
   * functions, userdata, threads, channels and tables) the value carries
   * that rendering as `text`. A table carries its entries in the
   * interpreter's iteration order.
   */
  datatype LValue =
    | LNil
    | LBool(b: bool)
    | LNumber(text: string)
    | LString(s: string)
    | LFunction(text: string)
    | LUserData(text: string)
    | LThread(text: string)
    | LChannel(text: string)
    | LTable(text: string, entries: seq<(LValue, LValue)>)

  function TypeOf(v: LValue): LValueType {
    match v
    case LNil => LTNil
    case LBool(_) => LTBool
    case LNumber(_) => LTNumber
    case LString(_) => LTString
    case LFunction(_) => LTFunction
    case LUserData(_) => LTUserData
    case LThread(_) => LTThread
    case LChannel(_) => LTChannel
    case LTable(_, _) => LTTable
  }

  /** The interpreter's String() of a value. */
  function Render(v: LValue): string {
    match v
    case LNil => "nil"
    case LBool(b) => if b then "true" else "false"
    case LString(s) => s
    case LNumber(t) => t
    case LFunction(t) => t
    case LUserData(t) => t
    case LThread(t) => t
    case LChannel(t) => t
    case LTable(t, _) => t
  }

  /**
   * One call frame as the interpreter reports it. `infoOk` says whether
   * GetInfo succeeds on it; `fixedPath` is what the script-side path fixer
   * returns for its source ("" when it has none); `locals` and `upvalues`
   * are the name/value pairs in positional order, an empty name marking the
   * end; `upvalues` is None when the frame's function is nil.
   */
  datatype Frame = Frame(
    infoOk: bool,
    source: string,
    fixedPath: string,
    name: string,
    currentLine: int,
    locals: seq<(string, LValue)>,
    upvalues: Option<seq<(string, LValue)>>)
}
