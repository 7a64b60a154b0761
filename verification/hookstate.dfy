/**
 * The stepping states. Step in, step over and step out share one shape: the
 * thread they follow, the stack level where the step started and the level
 * tracked since, plus (for step in and step over) the file and line where
 * the step started. Each line event first refreshes the tracked level, then
 * decides whether to pause.
 */
module HookStates {
  import opened Wrappers
  import opened Lua
  import opened Types
  import opened Inspect

  /**
   * The tracked level after an event on a thread whose stack holds `depth`
   * frames: the level may rise by at most two per event and otherwise
   * follows the stack down; nothing changes when no frame is found.
   */
  function NextLevel(level: int, depth: int): int {
    if level + 1 < 0 || depth <= 0 then level
    else if depth <= level + 2 then depth
    else level + 2
  }

  /** The tracked level never jumps more than two above where it was. */
  lemma NextLevelBounded(level: int, depth: int)
    ensures NextLevel(level, depth) <= level + 2
    ensures level >= -1 && depth > 0 ==> 0 < NextLevel(level, depth) <= depth
    ensures depth <= 0 ==> NextLevel(level, depth) == level
  {
  }

  /** The levels tracked over a run of events, each with the stack depth it saw. */
  function Track(level: int, depths: seq<int>): int {
    if depths == [] then level
    else NextLevel(Track(level, depths[..|depths| - 1]), depths[|depths| - 1])
  }

  /** The stack never grows by more than two frames between events. */
  predicate Gradual(start: int, depths: seq<int>) {
    (forall k :: 0 <= k < |depths| ==> depths[k] > 0) &&
    (|depths| > 0 ==> depths[0] <= start + 2) &&
    (forall k :: 0 < k < |depths| ==> depths[k] <= depths[k - 1] + 2)
  }

  /**
   * When the stack changes gradually, the tracked level is exactly the
   * current depth after every event.
   */
  lemma {:induction false} TrackFollowsDepth(start: int, depths: seq<int>)
    requires start >= -1 && |depths| > 0 && Gradual(start, depths)
    ensures Track(start, depths) == depths[|depths| - 1]
  {
    var n := |depths|;
    if n > 1 {
      var prefix := depths[..n - 1];
      assert Gradual(start, prefix) by {
        assert forall k :: 0 <= k < |prefix| ==> prefix[k] == depths[k];
      }
      TrackFollowsDepth(start, prefix);
      assert Track(start, prefix) == depths[n - 2];
    }
  }

  /** Step in pauses on the first line event at a different line number. */
  predicate StepInPauses(ar: Ar, originLine: int) {
    ar.event == LuaHookLine && ar.currentLine != originLine
  }

  /** Step out pauses once the tracked level is below the starting level. */
  predicate StepOutPauses(newLevel: int, oriLevel: int) {
    newLevel < oriLevel
  }

  /**
   * Step over pauses once the thread has returned below the starting level,
   * or on a different line of the starting file at the starting level (any
   * file when the step started without a line).
   */
  predicate StepOverPauses(ar: Ar, newLevel: int, oriLevel: int, originFile: string, originLine: int) {
    newLevel < oriLevel ||
    (ar.event == LuaHookLine && ar.currentLine != originLine && newLevel == oriLevel &&
     (ar.source == originFile || originLine == -1))
  }

  /**
   * Stepping over a call: an event one frame deeper than the start never
   * pauses, while an event after returning to a shallower frame always does.
   */
  lemma StepOverSkipsCalls(ar: Ar, oriLevel: int, depth: int, originFile: string, originLine: int)
    requires oriLevel >= 0 && depth > 0
    ensures depth == oriLevel + 1 ==>
      !StepOverPauses(ar, NextLevel(oriLevel, depth), oriLevel, originFile, originLine)
    ensures depth < oriLevel ==>
      StepOverPauses(ar, NextLevel(oriLevel, depth), oriLevel, originFile, originLine)
  {
  }

  /** Step out keeps running inside the starting frame and in anything it calls. */
  lemma StepOutWaitsForReturn(start: int, depths: seq<int>)
    requires start >= 0 && |depths| > 0 && Gradual(start, depths)
    ensures StepOutPauses(Track(start, depths), start) <==> depths[|depths| - 1] < start
  {
    TrackFollowsDepth(start, depths);
  }

  class StepState {
    /** The thread being stepped. */
    var currentL: Option<ThreadId>
    var oriStackLevel: int
    var newStackLevel: int
    /** Where the step started (step in and step over only). */
    var file: string
    var line: int

    constructor()
      ensures currentL == None && oriStackLevel == 0 && newStackLevel == 0
      ensures file == "" && line == 0
    {
      currentL := None;
      oriStackLevel := 0;
      newStackLevel := 0;
      file := "";
      line := 0;
    }

    /**
     * Started following `current`, whose stack is `frames`, from its
     * present level; without a thread nothing changed.
     */
    twostate predicate LevelsStarted(current: Option<ThreadId>, frames: seq<Frame>)
      reads this
    {
      if current.Some? then
        currentL == current && oriStackLevel == newStackLevel == StackLevel(frames, false)
      else
        currentL == old(currentL) && oriStackLevel == old(oriStackLevel) && newStackLevel == old(newStackLevel)
    }

    /**
     * Started a step in: the levels as above, and the top frame's file and
     * line when there is a thread with a readable top frame; the origin is
     * kept otherwise.
     */
    twostate predicate StepInStarted(current: Option<ThreadId>, frames: seq<Frame>)
      reads this
    {
      LevelsStarted(current, frames) &&
      if current.Some? && |frames| > 0 && frames[0].infoOk then
        file == frames[0].source && line == frames[0].currentLine
      else
        file == old(file) && line == old(line)
    }

    /**
     * Started a step over: like a step in, except that an unreadable top
     * frame still gives an origin, the empty file at line 0.
     */
    twostate predicate StepOverStarted(current: Option<ThreadId>, frames: seq<Frame>)
      reads this
    {
      LevelsStarted(current, frames) &&
      if current.Some? && |frames| > 0 then
        file == (if frames[0].infoOk then frames[0].source else "") &&
        line == (if frames[0].infoOk then frames[0].currentLine else 0)
      else
        file == old(file) && line == old(line)
    }

    /**
     * Tracked one event on thread `L`, whose stack holds `depth` frames:
     * on the followed thread the level moved to `NextLevel`; nothing else
     * changed.
     */
    twostate predicate Tracked(L: ThreadId, depth: int)
      reads this
    {
      newStackLevel == (if currentL == Some(L) then NextLevel(old(newStackLevel), depth) else old(newStackLevel)) &&
      currentL == old(currentL) && oriStackLevel == old(oriStackLevel) &&
      file == old(file) && line == old(line)
    }

    /** Starts following `current`, whose stack is `frames`; fails without a thread. */
    method StartLevels(current: Option<ThreadId>, frames: seq<Frame>) returns (ok: bool)
      modifies this
      ensures ok == current.Some?
      ensures LevelsStarted(current, frames)
      ensures file == old(file) && line == old(line)
    {
      if current.None? {
        return false;
      }
      currentL := current;
      oriStackLevel := GetStackLevel(frames, false);
      newStackLevel := oriStackLevel;
      ok := true;
    }

    /**
     * Starts a step in: fails when there is no thread, no frame, or the top
     * frame's info cannot be read.
     */
    method StartStepIn(current: Option<ThreadId>, frames: seq<Frame>) returns (ok: bool)
      modifies this
      ensures ok <==> current.Some? && |frames| > 0 && frames[0].infoOk
      ensures StepInStarted(current, frames)
    {
      ok := StartLevels(current, frames);
      if !ok {
        return;
      }
      if |frames| == 0 || !frames[0].infoOk {
        return false;
      }
      file := frames[0].source;
      line := frames[0].currentLine;
    }

    /** Starts a step over: fails when there is no thread or no frame. */
    method StartStepOver(current: Option<ThreadId>, frames: seq<Frame>) returns (ok: bool)
      modifies this
      ensures ok <==> current.Some? && |frames| > 0
      ensures StepOverStarted(current, frames)
    {
      ok := StartLevels(current, frames);
      if !ok {
        return;
      }
      if |frames| == 0 {
        return false;
      }
      if frames[0].infoOk {
        file := frames[0].source;
        line := frames[0].currentLine;
      } else {
        file := "";
        line := 0;
      }
    }

    /**
     * Refreshes the tracked level from an event on thread `L`, whose stack
     * holds `depth` frames: searches downward from one above the tracked
     * level for the highest frame that exists. Events on other threads
     * change nothing.
     */
    method UpdateStackLevel(L: ThreadId, depth: int)
      modifies this
      ensures Tracked(L, depth)
    {
      if currentL != Some(L) {
        return;
      }
      var i := newStackLevel + 1;
      while i >= 0
        invariant i <= old(newStackLevel) + 1
        invariant newStackLevel == old(newStackLevel)
        invariant i + 1 < depth ==> i == old(newStackLevel) + 1
      {
        if i < depth {
          newStackLevel := i + 1;
          return;
        }
        i := i - 1;
      }
    }

    /** One line event while stepping in. */
    method ProcessStepIn(L: ThreadId, ar: Ar, depth: int) returns (pause: bool)
      modifies this
      ensures Tracked(L, depth)
      ensures pause == StepInPauses(ar, line)
    {
      UpdateStackLevel(L, depth);
      pause := ar.event == LuaHookLine && ar.currentLine != line;
    }

    /** One line event while stepping out. */
    method ProcessStepOut(L: ThreadId, ar: Ar, depth: int) returns (pause: bool)
      modifies this
      ensures Tracked(L, depth)
      ensures pause == StepOutPauses(newStackLevel, oriStackLevel)
    {
      UpdateStackLevel(L, depth);
      pause := newStackLevel < oriStackLevel;
    }

    /** One line event while stepping over. */
    method ProcessStepOver(L: ThreadId, ar: Ar, depth: int) returns (pause: bool)
      modifies this
      ensures Tracked(L, depth)
      ensures pause == StepOverPauses(ar, newStackLevel, oriStackLevel, file, line)
    {
      UpdateStackLevel(L, depth);
      if newStackLevel < oriStackLevel {
        return true;
      }
      pause := false;
      if ar.event == LuaHookLine && ar.currentLine != line && newStackLevel == oriStackLevel {
        if ar.source == file || line == -1 {
          pause := true;
        }
      }
    }
  }
}
