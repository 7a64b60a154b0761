/**
 * What the breakpoint registry means: the line index derived from the
 * breakpoint list, removal of the first matching entry, and the lookup of
 * the first breakpoint that matches a (file, line) query.
 */
module Registry {
  import opened Wrappers
  import opened Types
  import opened Paths
  import Proto

  /** The line index: every line that carries a breakpoint. */
  function Lines(bps: seq<BreakPoint>): set<int> {
    if bps == [] then {} else Lines(bps[..|bps| - 1]) + {bps[|bps| - 1].line}
  }

  lemma {:induction false} LinesSpec(bps: seq<BreakPoint>, line: int)
    ensures line in Lines(bps) <==> exists k :: 0 <= k < |bps| && bps[k].line == line
  {
    if bps != [] {
      var init := bps[..|bps| - 1];
      LinesSpec(init, line);
      if line in Lines(init) {
        var k :| 0 <= k < |init| && init[k].line == line;
        assert bps[k].line == line;
      }
      if exists k :: 0 <= k < |bps| && bps[k].line == line {
        var k :| 0 <= k < |bps| && bps[k].line == line;
        if k < |init| { assert init[k].line == line; }
      }
    }
  }

  /** A breakpoint as the registry stores it: lower-cased file and its path parts. */
  function Normalized(bp: BreakPoint): (r: BreakPoint)
    ensures NoUpper(r.file) && |r.pathParts| > 0
    ensures r.line == bp.line && r.condition == bp.condition
  {
    var file := Lower(bp.file);
    bp.(file := file, pathParts := PathParts(file, bp.pathParts))
  }

  /** The breakpoint the session layer builds from a wire breakpoint. */
  function FromWire(w: Proto.BreakPoint): BreakPoint {
    BreakPoint(w.file, w.condition, [], w.line)
  }

  predicate SameEntry(bp: BreakPoint, file: string, line: int) {
    bp.file == file && bp.line == line
  }

  /** The list without its first entry for (file, line), if there is one. */
  function RemoveFirst(bps: seq<BreakPoint>, file: string, line: int): seq<BreakPoint> {
    if bps == [] then []
    else if SameEntry(bps[0], file, line) then bps[1..]
    else [bps[0]] + RemoveFirst(bps[1..], file, line)
  }

  /** Removing an entry that is not there changes nothing. */
  lemma {:induction false} RemoveFirstAbsent(bps: seq<BreakPoint>, file: string, line: int)
    requires forall k :: 0 <= k < |bps| ==> !SameEntry(bps[k], file, line)
    ensures RemoveFirst(bps, file, line) == bps
  {
    if bps != [] {
      RemoveFirstAbsent(bps[1..], file, line);
    }
  }

  /** Only the first matching entry goes; the others keep their order. */
  lemma {:induction false} RemoveFirstAt(bps: seq<BreakPoint>, file: string, line: int, k: nat)
    requires k < |bps| && SameEntry(bps[k], file, line)
    requires forall j :: 0 <= j < k ==> !SameEntry(bps[j], file, line)
    ensures RemoveFirst(bps, file, line) == bps[..k] + bps[k + 1..]
  {
    if k > 0 {
      RemoveFirstAt(bps[1..], file, line, k - 1);
      assert bps[1..][..k - 1] == bps[1..k];
      assert bps[1..][k..] == bps[k + 1..];
      assert [bps[0]] + bps[1..k] == bps[..k];
    }
  }

  /** At most one entry goes: exactly one when some entry matches. */
  lemma {:induction false} RemoveFirstLength(bps: seq<BreakPoint>, file: string, line: int)
    ensures |RemoveFirst(bps, file, line)| ==
      if exists k :: 0 <= k < |bps| && SameEntry(bps[k], file, line) then |bps| - 1 else |bps|
  {
    if bps != [] {
      RemoveFirstLength(bps[1..], file, line);
      if exists k :: 0 <= k < |bps| && SameEntry(bps[k], file, line) {
        var k :| 0 <= k < |bps| && SameEntry(bps[k], file, line);
        if k > 0 { assert SameEntry(bps[1..][k - 1], file, line); }
      }
      if exists k :: 0 <= k < |bps[1..]| && SameEntry(bps[1..][k], file, line) {
        var k :| 0 <= k < |bps[1..]| && SameEntry(bps[1..][k], file, line);
        assert SameEntry(bps[k + 1], file, line);
      }
    }
  }

  /** Every entry for another file or line survives a removal. */
  lemma {:induction false} RemoveFirstKeeps(bps: seq<BreakPoint>, file: string, line: int, bp: BreakPoint)
    requires bp in bps && !SameEntry(bp, file, line)
    ensures bp in RemoveFirst(bps, file, line)
  {
    if bps[0] != bp {
      RemoveFirstKeeps(bps[1..], file, line, bp);
    }
  }

  /** The list after removing each (file, line) of a request in turn; files are lower-cased first. */
  function RemoveEach(bps: seq<BreakPoint>, ws: seq<Proto.BreakPoint>): seq<BreakPoint>
    decreases ws
  {
    if ws == [] then bps
    else RemoveEach(RemoveFirst(bps, Lower(ws[0].file), ws[0].line), ws[1..])
  }

  /** A breakpoint that no request entry names survives the whole request. */
  lemma {:induction false} RemoveEachKeepsOthers(bps: seq<BreakPoint>, ws: seq<Proto.BreakPoint>, bp: BreakPoint)
    requires bp in bps
    requires forall j :: 0 <= j < |ws| ==> !SameEntry(bp, Lower(ws[j].file), ws[j].line)
    ensures bp in RemoveEach(bps, ws)
    decreases ws
  {
    if ws != [] {
      RemoveFirstKeeps(bps, Lower(ws[0].file), ws[0].line, bp);
      RemoveEachKeepsOthers(RemoveFirst(bps, Lower(ws[0].file), ws[0].line), ws[1..], bp);
    }
  }

  /** A request removes no more breakpoints than it names. */
  lemma {:induction false} RemoveEachLength(bps: seq<BreakPoint>, ws: seq<Proto.BreakPoint>)
    ensures |bps| - |ws| <= |RemoveEach(bps, ws)| <= |bps|
    decreases ws
  {
    if ws != [] {
      RemoveFirstLength(bps, Lower(ws[0].file), ws[0].line);
      RemoveEachLength(RemoveFirst(bps, Lower(ws[0].file), ws[0].line), ws[1..]);
    }
  }

  /** The breakpoints an add request registers, in request order. */
  function NormalizedAll(ws: seq<Proto.BreakPoint>): seq<BreakPoint> {
    if ws == [] then [] else NormalizedAll(ws[..|ws| - 1]) + [Normalized(FromWire(ws[|ws| - 1]))]
  }

  /**
   * Registering one more wire breakpoint after `base` and the first `i`
   * appends its normal form.
   */
  lemma NormalizedAllSnoc(base: seq<BreakPoint>, ws: seq<Proto.BreakPoint>, i: int)
    requires 0 <= i < |ws|
    ensures base + NormalizedAll(ws[..i + 1]) == base + NormalizedAll(ws[..i]) + [Normalized(FromWire(ws[i]))]
  {
    assert ws[..i + 1][..i] == ws[..i];
  }

  /** Adding a breakpoint and then removing it by its own file and line restores the list. */
  lemma AddThenRemove(bps: seq<BreakPoint>, bp: BreakPoint)
    requires forall k :: 0 <= k < |bps| ==> !SameEntry(bps[k], Lower(bp.file), bp.line)
    ensures RemoveFirst(bps + [Normalized(bp)], Lower(bp.file), bp.line) == bps
  {
    var all := bps + [Normalized(bp)];
    forall j | 0 <= j < |bps| ensures !SameEntry(all[j], Lower(bp.file), bp.line) {
      assert all[j] == bps[j];
    }
    RemoveFirstAt(all, Lower(bp.file), bp.line, |bps|);
    assert all[..|bps|] == bps;
  }

  /** Appending a breakpoint adds exactly its line to the index. */
  lemma LinesSnoc(bps: seq<BreakPoint>, bp: BreakPoint)
    ensures Lines(bps + [bp]) == Lines(bps) + {bp.line}
  {
    assert (bps + [bp])[..|bps|] == bps;
  }

  /** The query a lookup compares against: the lower-cased file and its path parts. */
  datatype Query = Query(file: string, parts: seq<string>, line: int)

  function QueryOf(file: string, line: int): (q: Query)
    ensures |q.parts| > 0 && NoUpper(q.file) && q.line == line
  {
    var lower := Lower(file);
    Query(lower, PathParts(lower, []), line)
  }

  /** `parts` are the trailing parts of `bpParts`. */
  predicate SuffixOf(parts: seq<string>, bpParts: seq<string>) {
    |bpParts| >= |parts| && bpParts[|bpParts| - |parts|..] == parts
  }

  /** The j-th parts from the end agree. */
  predicate SameFromEnd(a: seq<string>, b: seq<string>, j: nat)
    requires j < |a| && j < |b|
  {
    a[|a| - 1 - j] == b[|b| - 1 - j]
  }

  lemma SuffixOfFromEnd(parts: seq<string>, bpParts: seq<string>)
    requires |bpParts| >= |parts|
    ensures SuffixOf(parts, bpParts) <==> forall j :: 0 <= j < |parts| ==> SameFromEnd(bpParts, parts, j)
  {
    var off := |bpParts| - |parts|;
    if forall j :: 0 <= j < |parts| ==> SameFromEnd(bpParts, parts, j) {
      forall i | 0 <= i < |parts| ensures bpParts[off..][i] == parts[i] {
        assert SameFromEnd(bpParts, parts, |parts| - 1 - i);
      }
    }
  }

  /**
   * A breakpoint answers a query when the lines agree and either the stored
   * file equals the query file, or the last query part matches the last
   * stored part (allowing an extension) and all query parts agree with the
   * trailing stored parts.
   */
  predicate Matches(bp: BreakPoint, q: Query, extNames: seq<string>) {
    bp.line == q.line &&
    (bp.file == q.file ||
     (|bp.pathParts| >= |q.parts| && |q.parts| > 0 &&
      MatchFileName(extNames, q.parts[|q.parts| - 1], bp.pathParts[|bp.pathParts| - 1]) &&
      SuffixOf(q.parts, bp.pathParts)))
  }

  /** The first breakpoint, in registration order, that answers the query. */
  function FirstMatch(bps: seq<BreakPoint>, q: Query, extNames: seq<string>): Option<BreakPoint> {
    if bps == [] then None
    else if Matches(bps[0], q, extNames) then Some(bps[0])
    else FirstMatch(bps[1..], q, extNames)
  }

  lemma {:induction false} FirstMatchNone(bps: seq<BreakPoint>, q: Query, extNames: seq<string>)
    ensures FirstMatch(bps, q, extNames) == None <==>
      forall k :: 0 <= k < |bps| ==> !Matches(bps[k], q, extNames)
  {
    if bps != [] {
      FirstMatchNone(bps[1..], q, extNames);
      if !Matches(bps[0], q, extNames) && FirstMatch(bps, q, extNames) == None {
        forall k | 0 <= k < |bps| ensures !Matches(bps[k], q, extNames) {
          if k > 0 { assert bps[k] == bps[1..][k - 1]; }
        }
      }
    }
  }

  /** A found breakpoint is the earliest one that matches. */
  lemma {:induction false} FirstMatchIsFirst(bps: seq<BreakPoint>, q: Query, extNames: seq<string>)
    requires FirstMatch(bps, q, extNames).Some?
    ensures exists k :: 0 <= k < |bps| && bps[k] == FirstMatch(bps, q, extNames).value &&
                        Matches(bps[k], q, extNames) &&
                        (forall j :: 0 <= j < k ==> !Matches(bps[j], q, extNames))
  {
    if !Matches(bps[0], q, extNames) {
      FirstMatchIsFirst(bps[1..], q, extNames);
      var k :| 0 <= k < |bps[1..]| && bps[1..][k] == FirstMatch(bps[1..], q, extNames).value &&
        Matches(bps[1..][k], q, extNames) &&
        forall j :: 0 <= j < k ==> !Matches(bps[1..][j], q, extNames);
      assert bps[k + 1] == bps[1..][k];
      forall j | 0 <= j < k + 1 ensures !Matches(bps[j], q, extNames) {
        if j > 0 { assert bps[j] == bps[1..][j - 1]; }
      }
    } else {
      assert bps[0] == FirstMatch(bps, q, extNames).value;
    }
  }

  /** Lines not in the index never have a matching breakpoint. */
  lemma FastRejectSound(bps: seq<BreakPoint>, q: Query, extNames: seq<string>)
    requires q.line !in Lines(bps)
    ensures FirstMatch(bps, q, extNames) == None
  {
    forall k | 0 <= k < |bps| ensures !Matches(bps[k], q, extNames) {
      LinesSpec(bps, bps[k].line);
    }
    FirstMatchNone(bps, q, extNames);
  }

  /**
   * The extension tolerance never decides a match: comparing the trailing
   * parts starts with the last ones, which must then be equal.
   */
  lemma ExtensionToleranceInert(bp: BreakPoint, q: Query, extNames: seq<string>)
    requires |q.parts| > 0
    ensures Matches(bp, q, extNames) <==>
      bp.line == q.line && (bp.file == q.file || SuffixOf(q.parts, bp.pathParts))
  {
    var n, m := |q.parts|, |bp.pathParts|;
    if m >= n && SuffixOf(q.parts, bp.pathParts) {
      assert bp.pathParts[m - n..][n - 1] == q.parts[n - 1];
    }
  }

  lemma LowerConcat(a: string, b: string)
    ensures Lower(a + b) == Lower(a) + Lower(b)
  {
    assert forall i :: 0 <= i < |a + b| ==> Lower(a + b)[i] == (Lower(a) + Lower(b))[i];
  }

  /** Lower-casing keeps separators and dots exactly where they were. */
  lemma LowerKeepsPunctuation(s: string)
    ensures NoSep(s) ==> NoSep(Lower(s))
    ensures Lower(s) == "." ==> s == "."
    ensures Lower(s) == ".." ==> s == ".."
    ensures Lower(s) == "" ==> s == ""
  {
    assert forall i :: 0 <= i < |s| ==> Lower(s)[i] == LowerChar(s[i]);
  }

  /** A three-part path with lower-case parts resolves to exactly those parts. */
  lemma ThreePartPath(a: string, b: string, c: string)
    requires NoSep(a) && NoSep(b) && NoSep(c)
    requires a != "" && a != "." && b != ".."
    ensures PathParts(a + "/" + b + "/" + c, []) == [a, b, c]
  {
    assert a + "/" + b + "/" + c == a + ['/'] + (b + "/" + c);
    PathPartsAfterFirst(a, '/', b + "/" + c, []);
    assert Step([], a) == [a];
    assert b + "/" + c == b + ['/'] + c;
    PathPartsAfterFirst(b, '/', c, [a]);
    assert Step([a], b) == [a, b];
    PlainNameIsOnePart(c, [a, b]);
  }

  /** An absolute two-part path resolves to its two parts: the empty root is dropped. */
  lemma AbsoluteTwoPartPath(b: string, c: string)
    requires NoSep(b) && NoSep(c)
    requires b != "" && b != "."
    ensures PathParts("/" + b + "/" + c, []) == [b, c]
  {
    assert "/" + b + "/" + c == "" + ['/'] + (b + "/" + c);
    assert NoSep("");
    PathPartsAfterFirst("", '/', b + "/" + c, []);
    assert Step([], "") == [];
    assert b + "/" + c == b + ['/'] + c;
    PathPartsAfterFirst(b, '/', c, []);
    assert Step([], b) == [b];
    PlainNameIsOnePart(c, [b]);
  }

  lemma LowerPath(a: string, b: string, c: string)
    ensures Lower(a + "/" + b + "/" + c) == Lower(a) + "/" + Lower(b) + "/" + Lower(c)
  {
    LowerConcat(a + "/" + b + "/", c);
    LowerConcat(a + "/" + b, "/");
    LowerConcat(a + "/", b);
    LowerConcat(a, "/");
    assert Lower("/") == "/";
  }

  /**
   * A breakpoint set under any root matches a query for the same directory
   * and file name given from the top: the lookup ignores the root and the
   * letter case of the registered path.
   */
  lemma MatchAcrossRoots(root: string, dir: string, name: string, condition: string, line: int, extNames: seq<string>)
    requires NoSep(root) && NoSep(dir) && NoSep(name)
    requires root != "" && root != "." && dir != "" && dir != "." && dir != ".."
    ensures var bp := Normalized(BreakPoint(root + "/" + dir + "/" + name, condition, [], line));
      FirstMatch([bp], QueryOf("/" + Lower(dir) + "/" + Lower(name), line), extNames) == Some(bp)
  {
    var lr, ld, ln := Lower(root), Lower(dir), Lower(name);
    LowerKeepsPunctuation(root);
    LowerKeepsPunctuation(dir);
    LowerKeepsPunctuation(name);
    var bp := Normalized(BreakPoint(root + "/" + dir + "/" + name, condition, [], line));
    LowerPath(root, dir, name);
    ThreePartPath(lr, ld, ln);
    assert bp.pathParts == [lr, ld, ln];
    var qfile := "/" + ld + "/" + ln;
    LowerPath("", ld, ln);
    LowerKeepsLower(ld);
    LowerKeepsLower(ln);
    assert Lower(qfile) == qfile;
    AbsoluteTwoPartPath(ld, ln);
    var q := QueryOf(qfile, line);
    assert q.parts == [ld, ln];
    assert bp.pathParts[|bp.pathParts| - |q.parts|..] == q.parts;
    assert MatchFileName(extNames, ln, ln);
    assert Matches(bp, q, extNames);
  }

  /** A plain lower-case file name is stored as itself, with itself as its only part. */
  lemma PlainNormalized(file: string, condition: string, line: int)
    requires NoSep(file) && NoUpper(file)
    ensures Normalized(BreakPoint(file, condition, [], line)) == BreakPoint(file, condition, [file], line)
  {
    LowerKeepsLower(file);
    PlainNameIsOnePart(file, []);
  }

  /** A plain lower-case file name is queried as itself, with itself as its only part. */
  lemma PlainQuery(file: string, line: int)
    requires NoSep(file) && NoUpper(file)
    ensures QueryOf(file, line) == Query(file, [file], line)
  {
    LowerKeepsLower(file);
    PlainNameIsOnePart(file, []);
  }

  lemma PlainConcat(a: string, b: string)
    requires NoSep(a) && NoUpper(a) && NoSep(b) && NoUpper(b)
    ensures NoSep(a + b) && NoUpper(a + b)
  {
    assert forall i :: 0 <= i < |a + b| ==> (a + b)[i] == if i < |a| then a[i] else b[i - |a|];
  }

  /** A longer single-part file never answers a single-part query on its own name. */
  lemma LongerPlainMisses(name: string, file: string, line: int, extNames: seq<string>)
    requires |file| > |name|
    ensures FirstMatch([BreakPoint(file, "", [file], line)], Query(name, [name], line), extNames) == None
  {
    var bp := BreakPoint(file, "", [file], line);
    var q := Query(name, [name], line);
    assert [file][0] != [name][0];
    ExtensionToleranceInert(bp, q, extNames);
    assert [bp][1..] == [];
  }

  /**
   * A chunk name without its extension does not find the breakpoint set on
   * the file with that extension, although the two file names match once
   * the extension is appended.
   */
  lemma ExtensionlessChunkMisses(name: string, ext: string, line: int)
    requires NoSep(name) && NoUpper(name) && NoSep(ext) && NoUpper(ext) && ext != []
    ensures var bp := Normalized(BreakPoint(name + ext, "", [], line));
      MatchFileName([ext], name, name + ext) &&
      FirstMatch([bp], QueryOf(name, line), [ext]) == None
  {
    assert name + [ext][0] == name + ext;
    PlainConcat(name, ext);
    PlainNormalized(name + ext, "", line);
    PlainQuery(name, line);
    LongerPlainMisses(name, name + ext, line, [ext]);
  }
}
