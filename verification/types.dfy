/**
 * The debugger's own records: hook events, Lua type tags, breakpoints,
 * the variable tree, stack snapshots, evaluation contexts, and the copy of
 * a variable tree into its wire form.
 */
module Types {
  import opened Wrappers
  import Proto

  // Hook events.
  const LuaHookCall: int := 0
  const LuaHookRet: int := 1
  const LuaHookLine: int := 2
  const LuaHookCount: int := 3

  // The language-level type tags sent to the IDE.
  const LuaTNone: int := -1
  const LuaTNil: int := 0
  const LuaTBoolean: int := 1
  const LuaTLightUserData: int := 2
  const LuaTNumber: int := 3
  const LuaTString: int := 4
  const LuaTTable: int := 5
  const LuaTFunction: int := 6
  const LuaTUserData: int := 7
  const LuaTThread: int := 8

  /**
   * A hook callback's activation record: the event, the current line, and
   * what the interpreter reports for the running frame (its source and the
   * fixed path of that source, "" when there is none).
   */
  datatype Ar = Ar(event: int, currentLine: int, source: string, fixedPath: string)

  datatype BreakPoint = BreakPoint(file: string, condition: string, pathParts: seq<string>, line: int)

  datatype Variable = Variable(
    name: string,
    nameType: int,
    value: string,
    valueType: int,
    valueTypeName: string,
    children: seq<Variable>,
    cacheId: int)

  datatype Stack = Stack(
    file: string,
    functionName: string,
    level: int,
    line: int,
    localVariables: seq<Variable>,
    upvalueVariables: seq<Variable>)

  datatype EvalContext = EvalContext(
    expr: string,
    error: string,
    seqNum: int,
    stackLevel: int,
    depth: int,
    cacheId: int,
    result: Option<Variable>,
    success: bool)

  /** Every node of the tree has cache id 0. */
  ghost predicate CacheFree(v: Variable) {
    v.cacheId == 0 && forall i :: 0 <= i < |v.children| ==> CacheFree(v.children[i])
  }

  /** The wire form of a variable tree: the same tree without cache ids. */
  function ToProto(v: Variable): (r: Proto.Variable)
    ensures r.name == v.name && r.nameType == v.nameType && r.value == v.value
    ensures r.valueType == v.valueType && r.valueTypeName == v.valueTypeName
    ensures |r.children| == |v.children|
  {
    Proto.Variable(v.name, v.nameType, v.value, v.valueType, v.valueTypeName,
      seq(|v.children|, i requires 0 <= i < |v.children| => ToProto(v.children[i])))
  }

  /** Reading a wire variable back, with every cache id 0. */
  function FromProto(p: Proto.Variable): (r: Variable)
  {
    Variable(p.name, p.nameType, p.value, p.valueType, p.valueTypeName,
      seq(|p.children|, i requires 0 <= i < |p.children| => FromProto(p.children[i])), 0)
  }

  function ToProtoAll(vs: seq<Variable>): (r: seq<Proto.Variable>)
    ensures |r| == |vs|
  {
    seq(|vs|, i requires 0 <= i < |vs| => ToProto(vs[i]))
  }

  /** The wire form loses nothing but the cache ids: a cache-free tree comes back unchanged. */
  lemma {:induction false} ToProtoRoundTrip(v: Variable)
    requires CacheFree(v)
    ensures FromProto(ToProto(v)) == v
  {
    var back := FromProto(ToProto(v));
    forall i | 0 <= i < |v.children|
      ensures back.children[i] == v.children[i]
    {
      ToProtoRoundTrip(v.children[i]);
    }
  }

  /** Every wire variable is the wire form of the tree read back from it. */
  lemma {:induction false} FromProtoRoundTrip(p: Proto.Variable)
    ensures ToProto(FromProto(p)) == p
  {
    var back := ToProto(FromProto(p));
    forall i | 0 <= i < |p.children|
      ensures back.children[i] == p.children[i]
    {
      FromProtoRoundTrip(p.children[i]);
    }
  }

  /** The cache id of any node never reaches the wire. */
  lemma {:induction false} ToProtoIgnoresCacheId(v: Variable, cacheId: int)
    ensures ToProto(v.(cacheId := cacheId)) == ToProto(v)
  {
  }
}
