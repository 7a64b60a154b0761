/**
 * Stack and variable inspection: the mapping from interpreter types to the
 * language-level type tags, the depth-bounded variable tree, the walk over
 * a thread's call frames, and the name lookup of the evaluation scope.
 */
module Inspect {
  import opened Wrappers
  import opened Lua
  import opened Types

  /** The Lua C API's name for each type tag. */
  function TagName(tag: int): string {
    if tag == LuaTNil then "nil"
    else if tag == LuaTBoolean then "boolean"
    else if tag == LuaTLightUserData || tag == LuaTUserData then "userdata"
    else if tag == LuaTNumber then "number"
    else if tag == LuaTString then "string"
    else if tag == LuaTTable then "table"
    else if tag == LuaTFunction then "function"
    else if tag == LuaTThread then "thread"
    else "no value"
  }

  /**
   * The language-level tag and name of an interpreter type: channels are
   * reported as userdata and any unknown type as "no value".
   */
  function GoLuaTypeToCLuaType(t: LValueType): (r: (int, string))
    ensures LuaTNone <= r.0 <= LuaTThread && r.0 != LuaTLightUserData
    ensures r.1 == TagName(r.0)
    ensures r.0 == LuaTNone <==> t == LTOther
    ensures r.0 == LuaTUserData <==> t == LTUserData || t == LTChannel
  {
    match t
    case LTNil => (LuaTNil, "nil")
    case LTBool => (LuaTBoolean, "boolean")
    case LTNumber => (LuaTNumber, "number")
    case LTString => (LuaTString, "string")
    case LTFunction => (LuaTFunction, "function")
    case LTUserData => (LuaTUserData, "userdata")
    case LTThread => (LuaTThread, "thread")
    case LTTable => (LuaTTable, "table")
    case LTChannel => (LuaTUserData, "userdata")
    case LTOther => (LuaTNone, "no value")
  }

  /** Distinct types other than channels get distinct tags. */
  lemma TagsDistinguishTypes(t: LValueType, u: LValueType)
    requires t != u && t != LTChannel && u != LTChannel
    ensures GoLuaTypeToCLuaType(t).0 != GoLuaTypeToCLuaType(u).0
  {
  }

  function Tag(v: LValue): int { GoLuaTypeToCLuaType(TypeOf(v)).0 }

  /**
   * The variable tree of `value` named `name`: a table expands into one child
   * per entry, in iteration order, while `depth` is positive; every other
   * value is a leaf carrying its rendering.
   */
  function GetVariable(name: string, value: LValue, depth: int): (r: Variable)
    ensures r.name == name && r.nameType == LuaTString && r.cacheId == 0
    ensures (r.valueType, r.valueTypeName) == GoLuaTypeToCLuaType(TypeOf(value))
    ensures !value.LTable? ==> r.children == [] && r.value == Render(value)
    ensures value.LTable? && depth <= 0 ==> r.children == [] && r.value == ""
    ensures value.LTable? && depth > 0 ==>
      r.value == "" && |r.children| == |value.entries| &&
      forall i :: 0 <= i < |r.children| ==>
        r.children[i].name == Render(value.entries[i].0) &&
        r.children[i].nameType == Tag(value.entries[i].0) &&
        r.children[i].valueType == Tag(value.entries[i].1)
    decreases value
  {
    var (tag, tagName) := GoLuaTypeToCLuaType(TypeOf(value));
    match value
    case LTable(_, entries) =>
      var children := if depth > 0 then
        seq(|entries|, i requires 0 <= i < |entries| =>
          var (k, v) := entries[i];
          GetVariable(Render(k), v, depth - 1).(nameType := Tag(k)))
      else [];
      Variable(name, LuaTString, "", tag, tagName, children, 0)
    case _ =>
      Variable(name, LuaTString, Render(value), tag, tagName, [], 0)
  }

  /** Each child of an expanded table is its entry's tree one level shallower, named by the key. */
  lemma ChildAt(name: string, value: LValue, depth: int, i: int)
    requires value.LTable? && depth > 0 && 0 <= i < |value.entries|
    ensures GetVariable(name, value, depth).children[i] ==
      GetVariable(Render(value.entries[i].0), value.entries[i].1, depth - 1).(nameType := Tag(value.entries[i].0))
  {
  }

  /** The height of a tree: 0 for a node without children. */
  function Height(v: Variable): nat {
    if v.children == [] then 0
    else 1 + MaxHeight(v.children)
  }

  function MaxHeight(vs: seq<Variable>): nat
    decreases vs, 0
  {
    if vs == [] then 0
    else
      var h := Height(vs[|vs| - 1]);
      var m := MaxHeight(vs[..|vs| - 1]);
      if h > m then h else m
  }

  lemma {:induction false} MaxHeightBound(vs: seq<Variable>, bound: nat)
    requires forall i :: 0 <= i < |vs| ==> Height(vs[i]) <= bound
    ensures MaxHeight(vs) <= bound
  {
    if vs != [] {
      MaxHeightBound(vs[..|vs| - 1], bound);
    }
  }

  /** The tree never goes deeper than the requested depth. */
  lemma {:induction false} GetVariableHeight(name: string, value: LValue, depth: int)
    ensures Height(GetVariable(name, value, depth)) <= if depth > 0 then depth else 0
    decreases value
  {
    var r := GetVariable(name, value, depth);
    if value.LTable? && depth > 0 {
      var entries := value.entries;
      forall i | 0 <= i < |r.children| ensures Height(r.children[i]) <= depth - 1 {
        var (k, v) := entries[i];
        assert entries[i] < value;
        GetVariableHeight(Render(k), v, depth - 1);
        ChildAt(name, value, depth, i);
      }
      MaxHeightBound(r.children, depth - 1);
    }
  }

  /** Every node of a built tree has cache id 0. */
  lemma {:induction false} GetVariableCacheFree(name: string, value: LValue, depth: int)
    ensures CacheFree(GetVariable(name, value, depth))
    decreases value, 1
  {
    if value.LTable? && depth > 0 {
      var r := GetVariable(name, value, depth);
      forall i | 0 <= i < |r.children| ensures CacheFree(r.children[i]) {
        ChildCacheFree(name, value, depth, i);
      }
    }
  }

  /** One child of an expanded table is cache-free, by the claim for its entry. */
  lemma {:induction false} ChildCacheFree(name: string, value: LValue, depth: int, i: int)
    requires value.LTable? && depth > 0 && 0 <= i < |value.entries|
    ensures CacheFree(GetVariable(name, value, depth).children[i])
    decreases value, 0
  {
    assert value.entries[i] < value;
    GetVariableCacheFree(Render(value.entries[i].0), value.entries[i].1, depth - 1);
    ChildAt(name, value, depth, i);
  }

  /** At depth 1 a table shows exactly its immediate entries, each as a leaf. */
  lemma DepthOneShowsEntries(name: string, value: LValue)
    requires value.LTable?
    ensures var r := GetVariable(name, value, 1);
      |r.children| == |value.entries| &&
      forall i :: 0 <= i < |r.children| ==> r.children[i].children == []
  {
    var r := GetVariable(name, value, 1);
    forall i | 0 <= i < |r.children| ensures r.children[i].children == [] {
      ChildAt(name, value, 1, i);
    }
  }

  /**
   * The file shown for a frame: the raw source for a frame without a line,
   * otherwise the fixed path when the path fixer gives one. `fixedPath` is
   * what the Lua path fixer returned, empty when it failed.
   */
  function GetFile(source: string, currentLine: int, fixedPath: string): (r: string)
    ensures currentLine >= 0 && fixedPath != "" ==> r == fixedPath
    ensures r != source ==> currentLine >= 0 && fixedPath != "" && r == fixedPath
    ensures source != "" ==> r != ""
  {
    if currentLine < 0 then source
    else if fixedPath != "" then fixedPath
    else source
  }

  /** The frames counted as stack levels, up to the first frame whose info cannot be read. */
  function StackLevel(frames: seq<Frame>, skipGo: bool): nat {
    if frames == [] || !frames[0].infoOk then 0
    else (if frames[0].currentLine >= 0 || !skipGo then 1 else 0) + StackLevel(frames[1..], skipGo)
  }

  /** Counting all frames gives the number of frames before the first unreadable one. */
  lemma {:induction false} StackLevelAll(frames: seq<Frame>)
    ensures StackLevel(frames, false) <= |frames|
    ensures (forall i :: 0 <= i < |frames| ==> frames[i].infoOk) ==> StackLevel(frames, false) == |frames|
    ensures StackLevel(frames, false) == ReadableFrames(frames)
  {
    if frames != [] {
      StackLevelAll(frames[1..]);
      if forall i :: 0 <= i < |frames| ==> frames[i].infoOk {
        assert forall i :: 0 <= i < |frames[1..]| ==> frames[1..][i].infoOk by {
          forall i | 0 <= i < |frames[1..]| ensures frames[1..][i].infoOk {
            assert frames[1..][i] == frames[i + 1];
          }
        }
      }
    }
  }

  method GetStackLevel(frames: seq<Frame>, skipGo: bool) returns (level: nat)
    ensures level == StackLevel(frames, skipGo)
  {
    level := 0;
    var i := 0;
    while i < |frames|
      invariant 0 <= i <= |frames|
      invariant level + StackLevel(frames[i..], skipGo) == StackLevel(frames, skipGo)
    {
      if !frames[i].infoOk {
        return;
      }
      if frames[i].currentLine >= 0 || !skipGo {
        level := level + 1;
      }
      assert frames[i..][1..] == frames[i + 1..];
      i := i + 1;
    }
  }

  /** Names the compiler generates start with '('. */
  predicate IsInternal(name: string) { |name| > 0 && name[0] == '(' }

  /**
   * The variables of a local or upvalue listing, in order, up to the first
   * empty name, skipping internal names when asked; each expanded one level.
   */
  function Collected(vars: seq<(string, LValue)>, skipInternal: bool): seq<Variable> {
    if vars == [] || vars[0].0 == "" then []
    else if skipInternal && IsInternal(vars[0].0) then Collected(vars[1..], skipInternal)
    else [GetVariable(vars[0].0, vars[0].1, 1)] + Collected(vars[1..], skipInternal)
  }

  /** Collected variables are named, visible, and no more than were listed. */
  lemma {:induction false} CollectedNames(vars: seq<(string, LValue)>, skipInternal: bool)
    ensures |Collected(vars, skipInternal)| <= |vars|
    ensures forall i :: 0 <= i < |Collected(vars, skipInternal)| ==>
      Collected(vars, skipInternal)[i].name != "" &&
      (skipInternal ==> !IsInternal(Collected(vars, skipInternal)[i].name))
  {
    if vars != [] && vars[0].0 != "" {
      CollectedNames(vars[1..], skipInternal);
    }
  }

  method CollectVars(vars: seq<(string, LValue)>, skipInternal: bool) returns (r: seq<Variable>)
    ensures r == Collected(vars, skipInternal)
  {
    r := [];
    var i := 0;
    while i < |vars|
      invariant 0 <= i <= |vars|
      invariant r + Collected(vars[i..], skipInternal) == Collected(vars, skipInternal)
    {
      var (name, value) := vars[i];
      assert vars[i..][1..] == vars[i + 1..];
      if name == "" {
        return;
      }
      if skipInternal && name[0] == '(' {
        i := i + 1;
        continue;
      }
      r := r + [GetVariable(name, value, 1)];
      i := i + 1;
    }
  }

  /** The snapshot of one frame at `level`. */
  function StackOf(f: Frame, level: int): Stack {
    Stack(GetFile(f.source, f.currentLine, f.fixedPath), f.name, level, f.currentLine,
      Collected(f.locals, true),
      if f.upvalues.Some? then Collected(f.upvalues.value, false) else [])
  }

  /** The number of frames before the first one whose info cannot be read. */
  function ReadableFrames(frames: seq<Frame>): nat {
    if frames == [] || !frames[0].infoOk then 0 else 1 + ReadableFrames(frames[1..])
  }

  /**
   * The stack snapshot: one entry per readable frame from level 0 upward,
   * stopping at the first unreadable frame.
   */
  method GetStacks(frames: seq<Frame>) returns (stacks: seq<Stack>)
    ensures |stacks| == ReadableFrames(frames) <= |frames|
    ensures forall k :: 0 <= k < |stacks| ==> frames[k].infoOk && stacks[k] == StackOf(frames[k], k)
  {
    stacks := [];
    var level := 0;
    while level < |frames|
      invariant 0 <= level <= |frames| && |stacks| == level
      invariant level + ReadableFrames(frames[level..]) == ReadableFrames(frames)
      invariant forall k :: 0 <= k < level ==> frames[k].infoOk && stacks[k] == StackOf(frames[k], k)
    {
      var f := frames[level];
      if !f.infoOk {
        break;
      }
      var locals := CollectVars(f.locals, true);
      var upvalues := [];
      if f.upvalues.Some? {
        upvalues := CollectVars(f.upvalues.value, false);
      }
      var stack := Stack(GetFile(f.source, f.currentLine, f.fixedPath), f.name, level, f.currentLine, locals, upvalues);
      stacks := stacks + [stack];
      assert frames[level..][1..] == frames[level + 1..];
      level := level + 1;
    }
    assert level < |frames| ==> frames[level..][0] == frames[level];
  }

  /**
   * The table a listing becomes in the evaluation scope: entries up to the
   * first empty name, internal names skipped when asked; a later entry with
   * the same name replaces an earlier one.
   */
  function TableOf(vars: seq<(string, LValue)>, skipInternal: bool): map<string, LValue> {
    if vars == [] || vars[0].0 == "" then map[]
    else if skipInternal && IsInternal(vars[0].0) then TableOf(vars[1..], skipInternal)
    else map[vars[0].0 := vars[0].1] + TableOf(vars[1..], skipInternal)
  }

  /** The table holds exactly the names the stack snapshot lists for the same listing. */
  lemma {:induction false} TableOfKeys(vars: seq<(string, LValue)>, skipInternal: bool, name: string)
    ensures name in TableOf(vars, skipInternal) <==>
      exists i :: 0 <= i < |Collected(vars, skipInternal)| && Collected(vars, skipInternal)[i].name == name
  {
    if vars != [] && vars[0].0 != "" {
      TableOfKeys(vars[1..], skipInternal, name);
      var rest := Collected(vars[1..], skipInternal);
      if !(skipInternal && IsInternal(vars[0].0)) {
        var all := Collected(vars, skipInternal);
        assert all == [GetVariable(vars[0].0, vars[0].1, 1)] + rest;
        assert all[0].name == vars[0].0;
        assert TableOf(vars, skipInternal).Keys == {vars[0].0} + TableOf(vars[1..], skipInternal).Keys;
        if exists i :: 0 <= i < |rest| && rest[i].name == name {
          var i :| 0 <= i < |rest| && rest[i].name == name;
          assert all[i + 1].name == name;
        }
        if exists i :: 0 <= i < |all| && all[i].name == name {
          var i :| 0 <= i < |all| && all[i].name == name;
          if i > 0 { assert rest[i - 1].name == name; }
        }
      } else {
        assert Collected(vars, skipInternal) == rest;
        assert TableOf(vars, skipInternal) == TableOf(vars[1..], skipInternal);
      }
    }
  }

  method BuildTable(vars: seq<(string, LValue)>, skipInternal: bool) returns (m: map<string, LValue>)
    ensures m == TableOf(vars, skipInternal)
  {
    m := map[];
    var i := 0;
    while i < |vars|
      invariant 0 <= i <= |vars|
      invariant m + TableOf(vars[i..], skipInternal) == TableOf(vars, skipInternal)
    {
      var (name, value) := vars[i];
      assert vars[i..][1..] == vars[i + 1..];
      if name == "" {
        return;
      }
      if skipInternal && name[0] == '(' {
        i := i + 1;
        continue;
      }
      assert m[name := value] + TableOf(vars[i + 1..], skipInternal) ==
        m + (map[name := value] + TableOf(vars[i + 1..], skipInternal));
      m := m[name := value];
      i := i + 1;
    }
  }

  /** The evaluation scope of one frame: its locals and its upvalues, by name. */
  datatype Env = Env(locals: map<string, LValue>, upvalues: map<string, LValue>)

  /**
   * The scope for evaluating at `stackLevel`: none when the level has no
   * frame or its info cannot be read; locals skip internal names, upvalues
   * do not.
   */
  function EnvOf(frames: seq<Frame>, stackLevel: int): Option<Env> {
    if stackLevel < 0 || stackLevel >= |frames| || !frames[stackLevel].infoOk then None
    else
      var f := frames[stackLevel];
      Some(Env(TableOf(f.locals, true), if f.upvalues.Some? then TableOf(f.upvalues.value, false) else map[]))
  }

  /** A scope exists exactly for the levels the stack snapshot reports. */
  lemma {:induction false} EnvOfReadable(frames: seq<Frame>, stackLevel: int)
    requires 0 <= stackLevel < ReadableFrames(frames)
    ensures EnvOf(frames, stackLevel).Some?
  {
    if stackLevel > 0 {
      EnvOfReadable(frames[1..], stackLevel - 1);
    }
  }

  method CreateEnv(frames: seq<Frame>, stackLevel: int) returns (r: Option<Env>)
    ensures r == EnvOf(frames, stackLevel)
  {
    if stackLevel < 0 || stackLevel >= |frames| {
      return None;
    }
    var f := frames[stackLevel];
    if !f.infoOk {
      return None;
    }
    var locals := BuildTable(f.locals, true);
    var upvalues := map[];
    if f.upvalues.Some? {
      upvalues := BuildTable(f.upvalues.value, false);
    }
    r := Some(Env(locals, upvalues));
  }

  /**
   * The name lookup of the evaluation scope: upvalues first, then locals,
   * then globals; a nil binding counts as absent. None means no result.
   */
  function EnvIndexFunction(name: string, upvalues: map<string, LValue>,
                            locals: map<string, LValue>, globals: map<string, LValue>): (r: Option<LValue>)
    ensures r.Some? ==> r.value != LNil
    ensures name in upvalues && upvalues[name] != LNil ==> r == Some(upvalues[name])
    ensures (name !in upvalues || upvalues[name] == LNil) && name in locals && locals[name] != LNil ==>
      r == Some(locals[name])
    ensures (name !in upvalues || upvalues[name] == LNil) && (name !in locals || locals[name] == LNil) ==>
      r == (if name in globals && globals[name] != LNil then Some(globals[name]) else None)
  {
    var v := if name in upvalues then upvalues[name] else LNil;
    if v != LNil then Some(v)
    else
      var v := if name in locals then locals[name] else LNil;
      if v != LNil then Some(v)
      else
        var v := if name in globals then globals[name] else LNil;
        if v != LNil then Some(v) else None
  }
}
