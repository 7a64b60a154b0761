/**
 * Path normalisation for breakpoint matching: lower-casing, splitting a
 * path into segments on both separators and resolving "." and ".."
 * segments left to right, and the chunk-name comparison that tolerates a
 * configured file extension.
 */
module Paths {

  predicate IsSep(c: char) { c == '/' || c == '\\' }

  predicate NoSep(s: string) { forall i :: 0 <= i < |s| ==> !IsSep(s[i]) }

  predicate NoUpper(s: string) { forall i :: 0 <= i < |s| ==> !('A' <= s[i] <= 'Z') }

  function LowerChar(c: char): char {
    if 'A' <= c <= 'Z' then (c as int + 32) as char else c
  }

  /** Lower-casing; only ASCII letters are modelled. */
  function Lower(s: string): (r: string)
    ensures |r| == |s| && NoUpper(r)
    ensures forall i :: 0 <= i < |s| && !('A' <= s[i] <= 'Z') ==> r[i] == s[i]
  {
    seq(|s|, i requires 0 <= i < |s| => LowerChar(s[i]))
  }

  /** A string without upper-case letters is its own lower-case form. */
  lemma LowerKeepsLower(s: string)
    requires NoUpper(s)
    ensures Lower(s) == s
  {
  }

  /**
   * The text between separators, in order: a string with k separators has
   * k + 1 segments, each possibly empty.
   */
  function Segments(s: string): (r: seq<string>)
    ensures |r| >= 1
  {
    if s == [] then [[]]
    else
      var init := Segments(s[..|s| - 1]);
      if IsSep(s[|s| - 1]) then init + [[]]
      else init[..|init| - 1] + [init[|init| - 1] + [s[|s| - 1]]]
  }

  /**
   * One resolution step for a segment that was followed by a separator:
   * ".." drops the previous part if there is one; "." and "" are dropped
   * only while nothing has been kept; anything else is kept.
   */
  function Step(parts: seq<string>, part: string): seq<string> {
    if part == ".." && |parts| > 0 then parts[..|parts| - 1]
    else if (part == "." || part == "") && |parts| == 0 then parts
    else parts + [part]
  }

  /** Resolve the segments left to right, starting from `parts`. */
  function Resolve(segs: seq<string>, parts: seq<string>): seq<string> {
    if segs == [] then parts
    else Step(Resolve(segs[..|segs| - 1], parts), segs[|segs| - 1])
  }

  /**
   * The path parts of `file`, continuing from `paths`: every segment but the
   * last is resolved; the last segment is appended as it is.
   */
  function PathParts(file: string, paths: seq<string>): seq<string> {
    var segs := Segments(file);
    Resolve(segs[..|segs| - 1], paths) + [segs[|segs| - 1]]
  }

  /** The parts completed after scanning `s`: every segment but the last, resolved. */
  function Done(s: string, paths: seq<string>): seq<string> {
    var segs := Segments(s);
    Resolve(segs[..|segs| - 1], paths)
  }

  /** The segment still being read after scanning `s`. */
  function Pending(s: string): string {
    var segs := Segments(s);
    segs[|segs| - 1]
  }

  /** Scanning one more character: a separator completes the pending segment. */
  lemma ScanOne(s: string, c: char, paths: seq<string>)
    ensures IsSep(c) ==> Done(s + [c], paths) == Step(Done(s, paths), Pending(s)) && Pending(s + [c]) == []
    ensures !IsSep(c) ==> Done(s + [c], paths) == Done(s, paths) && Pending(s + [c]) == Pending(s) + [c]
  {
    assert (s + [c])[..|s|] == s;
    var segs := Segments(s);
    if IsSep(c) {
      assert Segments(s + [c])[..|segs|] == segs;
    } else {
      assert Segments(s + [c])[..|segs| - 1] == segs[..|segs| - 1];
    }
  }

  /** What scanning `file[i]` does to the completed parts and the pending segment. */
  lemma ScanAt(file: string, i: nat, idx: nat, paths: seq<string>)
    requires idx <= i < |file|
    requires file[idx..i] == Pending(file[..i])
    ensures IsSep(file[i]) ==>
      (Done(file[..i + 1], paths) == Step(Done(file[..i], paths), file[idx..i]) &&
       file[i + 1..i + 1] == Pending(file[..i + 1]))
    ensures !IsSep(file[i]) ==>
      (Done(file[..i + 1], paths) == Done(file[..i], paths) &&
       file[idx..i + 1] == Pending(file[..i + 1]))
  {
    ScanOne(file[..i], file[i], paths);
    assert file[..i + 1] == file[..i] + [file[i]];
    assert file[idx..i + 1] == file[idx..i] + [file[i]];
  }

  lemma StepCases(parts: seq<string>, part: string)
    ensures part == ".." && |parts| > 0 ==> Step(parts, part) == parts[..|parts| - 1]
    ensures !(part == ".." && |parts| > 0) && (part == "." || |part| == 0) && |parts| == 0 ==> Step(parts, part) == parts
    ensures !(part == ".." && |parts| > 0) && !((part == "." || |part| == 0) && |parts| == 0) ==> Step(parts, part) == parts + [part]
  {
  }

  /** The character scan that splits and resolves a path in one pass. */
  method ParsePathParts(file: string, paths: seq<string>) returns (r: seq<string>)
    ensures r == PathParts(file, paths)
    ensures |r| > 0
  {
    var idx := 0;
    var i := 0;
    r := paths;
    while i < |file|
      invariant 0 <= idx <= i <= |file|
      invariant r == Done(file[..i], paths)
      invariant file[idx..i] == Pending(file[..i])
    {
      ScanAt(file, i, idx, paths);
      if IsSep(file[i]) {
        var part := file[idx..i];
        idx := i + 1;
        ghost var before := r;
        StepCases(r, part);
        if part == ".." && |r| > 0 {
          r := r[..|r| - 1];
        } else if (part == "." || |part| == 0) && |r| == 0 {
        } else {
          r := r + [part];
        }
        assert r == Step(before, part);
      }
      i := i + 1;
    }
    assert file[..i] == file;
    r := r + [file[idx..]];
  }

  /**
   * The chunk name matches the file name exactly, or once one of the
   * configured extensions is appended to it.
   */
  predicate MatchFileName(extNames: seq<string>, chunkName: string, fileName: string) {
    chunkName == fileName || exists k :: 0 <= k < |extNames| && chunkName + extNames[k] == fileName
  }

  /** A matching file name always begins with the chunk name. */
  lemma MatchFileNameExtends(extNames: seq<string>, chunkName: string, fileName: string)
    requires MatchFileName(extNames, chunkName, fileName)
    ensures |chunkName| <= |fileName| && fileName[..|chunkName|] == chunkName
  {
    if chunkName != fileName {
      var k :| 0 <= k < |extNames| && chunkName + extNames[k] == fileName;
      assert fileName[..|chunkName|] == (chunkName + extNames[k])[..|chunkName|];
    }
  }

  // ---------------------------------------------------------------------
  // Properties of the path parts

  lemma {:induction false} SegmentsHaveNoSep(s: string)
    ensures forall k :: 0 <= k < |Segments(s)| ==> NoSep(Segments(s)[k])
  {
    if s != [] {
      SegmentsHaveNoSep(s[..|s| - 1]);
    }
  }

  lemma {:induction false} ResolveKeepsNoSep(segs: seq<string>, parts: seq<string>)
    requires forall k :: 0 <= k < |segs| ==> NoSep(segs[k])
    requires forall k :: 0 <= k < |parts| ==> NoSep(parts[k])
    ensures forall k :: 0 <= k < |Resolve(segs, parts)| ==> NoSep(Resolve(segs, parts)[k])
  {
    if segs != [] {
      ResolveKeepsNoSep(segs[..|segs| - 1], parts);
    }
  }

  /** No part contains a separator, as long as the starting parts do not. */
  lemma PathPartsHaveNoSep(file: string, paths: seq<string>)
    requires forall k :: 0 <= k < |paths| ==> NoSep(paths[k])
    ensures forall k :: 0 <= k < |PathParts(file, paths)| ==> NoSep(PathParts(file, paths)[k])
  {
    var segs := Segments(file);
    SegmentsHaveNoSep(file);
    ResolveKeepsNoSep(segs[..|segs| - 1], paths);
  }

  /** The last segment is the text after the last separator. */
  lemma {:induction false} LastSegmentIsTail(s: string)
    ensures var segs := Segments(s); var last := segs[|segs| - 1];
      |last| <= |s| && s[|s| - |last|..] == last &&
      (|last| == |s| || IsSep(s[|s| - |last| - 1]))
  {
    if s != [] {
      LastSegmentIsTail(s[..|s| - 1]);
    }
  }

  /**
   * The last part is the text after the last separator, verbatim: all of
   * `file` when it has no separator, otherwise what follows a separator.
   */
  lemma LastPartIsTail(file: string, paths: seq<string>)
    ensures var r := PathParts(file, paths); var last := r[|r| - 1];
      NoSep(last) && |last| <= |file| && file[|file| - |last|..] == last &&
      (|last| == |file| || IsSep(file[|file| - |last| - 1]))
  {
    LastSegmentIsTail(file);
    SegmentsHaveNoSep(file);
  }

  lemma {:induction false} SegmentsOfPlain(s: string)
    requires NoSep(s)
    ensures Segments(s) == [s]
  {
    if s != [] {
      SegmentsOfPlain(s[..|s| - 1]);
      assert s[..|s| - 1] + [s[|s| - 1]] == s;
    }
  }

  /** A path without separators is a single part, whatever came before. */
  lemma PlainNameIsOnePart(file: string, paths: seq<string>)
    requires NoSep(file)
    ensures PathParts(file, paths) == paths + [file]
  {
    SegmentsOfPlain(file);
  }

  lemma SegmentsSnoc(s: string, c: char)
    ensures IsSep(c) ==> Segments(s + [c]) == Segments(s) + [[]]
    ensures !IsSep(c) ==>
      Segments(s + [c]) == Segments(s)[..|Segments(s)| - 1] + [Segments(s)[|Segments(s)| - 1] + [c]]
  {
    assert (s + [c])[..|s|] == s;
  }

  /** Appending one character to both sides keeps a prefix segment in front. */
  lemma SegmentsConsSnoc(a: string, pre: string, b: string, d: char)
    requires Segments(pre) == [a] + Segments(b)
    ensures Segments(pre + [d]) == [a] + Segments(b + [d])
  {
    if IsSep(d) {
      SegmentsConsSep(a, pre, b, d);
    } else {
      SegmentsConsChar(a, pre, b, d);
    }
  }

  lemma SegmentsConsSep(a: string, pre: string, b: string, d: char)
    requires Segments(pre) == [a] + Segments(b) && IsSep(d)
    ensures Segments(pre + [d]) == [a] + Segments(b + [d])
  {
    SegmentsSnoc(pre, d);
    SegmentsSnoc(b, d);
  }

  lemma SegmentsConsChar(a: string, pre: string, b: string, d: char)
    requires Segments(pre) == [a] + Segments(b) && !IsSep(d)
    ensures Segments(pre + [d]) == [a] + Segments(b + [d])
  {
    var sp, sb := Segments(pre), Segments(b);
    SegmentsSnoc(pre, d);
    SegmentsSnoc(b, d);
    assert sp[..|sp| - 1] == [a] + sb[..|sb| - 1];
    assert sp[|sp| - 1] == sb[|sb| - 1];
  }

  lemma {:induction false} SegmentsAfterFirst(a: string, c: char, b: string)
    requires NoSep(a) && IsSep(c)
    ensures Segments(a + [c] + b) == [a] + Segments(b)
    decreases |b|
  {
    if b == [] {
      SegmentsFirstOnly(a, c);
      assert a + [c] + b == a + [c];
    } else {
      var b', d := b[..|b| - 1], b[|b| - 1];
      SegmentsAfterFirst(a, c, b');
      SegmentsAfterFirstStep(a, c, b', d);
      assert b == b' + [d];
    }
  }

  lemma SegmentsFirstOnly(a: string, c: char)
    requires NoSep(a) && IsSep(c)
    ensures Segments(a + [c]) == [a] + Segments([])
  {
    SegmentsOfPlain(a);
    SegmentsSnoc(a, c);
  }

  lemma SegmentsAfterFirstStep(a: string, c: char, b: string, d: char)
    requires Segments(a + [c] + b) == [a] + Segments(b)
    ensures Segments(a + [c] + (b + [d])) == [a] + Segments(b + [d])
  {
    SegmentsConsSnoc(a, a + [c] + b, b, d);
    assert a + [c] + (b + [d]) == (a + [c] + b) + [d];
  }

  lemma {:induction false} ResolveAfterFirst(a: string, rest: seq<string>, parts: seq<string>)
    ensures Resolve([a] + rest, parts) == Resolve(rest, Step(parts, a))
    decreases |rest|
  {
    if rest == [] {
      assert ([a] + rest)[..0] == [];
    } else {
      var rest' := rest[..|rest| - 1];
      ResolveAfterFirst(a, rest', parts);
      assert ([a] + rest)[..|[a] + rest| - 1] == [a] + rest';
    }
  }

  /**
   * Parts are resolved left to right: the first segment is resolved
   * against `paths` and the rest of the path continues from the result.
   */
  lemma PathPartsAfterFirst(a: string, c: char, b: string, paths: seq<string>)
    requires NoSep(a) && IsSep(c)
    ensures PathParts(a + [c] + b, paths) == PathParts(b, Step(paths, a))
  {
    SegmentsAfterFirst(a, c, b);
    var sb := Segments(b);
    assert ([a] + sb)[..|[a] + sb| - 1] == [a] + sb[..|sb| - 1];
    ResolveAfterFirst(a, sb[..|sb| - 1], paths);
  }

  /**
   * A segment that resolution keeps (anything but ".." after a kept part,
   * and anything but "." or "" at the start) becomes the next part.
   */
  lemma KeptPart(a: string, rest: string, paths: seq<string>)
    requires NoSep(a)
    requires !(a == ".." && paths != []) && !((a == "." || a == "") && paths == [])
    ensures PathParts(a + "/" + rest, paths) == PathParts(rest, paths + [a])
  {
    assert a + "/" + rest == a + ['/'] + rest;
    PathPartsAfterFirst(a, '/', rest, paths);
  }

  /** A kept part followed by ".." cancels out. */
  lemma DotDotCancels(a: string, rest: string, paths: seq<string>)
    requires NoSep(a) && a != ".." && !((a == "." || a == "") && paths == [])
    ensures PathParts(a + "/../" + rest, paths) == PathParts(rest, paths)
  {
    assert a + "/../" + rest == a + "/" + (".." + "/" + rest);
    KeptPart(a, ".." + "/" + rest, paths);
    assert ".." + "/" + rest == ".." + ['/'] + rest;
    assert NoSep("..");
    PathPartsAfterFirst("..", '/', rest, paths + [a]);
    assert (paths + [a])[..|paths + [a]| - 1] == paths;
  }

  // Worked examples of the resolution rules.

  /** A leading "." is dropped. */
  lemma LeadingDotDropped()
    ensures PathParts("./a/b", []) == ["a", "b"]
  {
    assert NoSep(".") && NoSep("a") && NoSep("b");
    assert "./a/b" == "." + ['/'] + "a/b";
    PathPartsAfterFirst(".", '/', "a/b", []);
    assert "a/b" == "a" + "/" + "b";
    KeptPart("a", "b", []);
    assert [] + ["a"] == ["a"];
    PlainNameIsOnePart("b", ["a"]);
  }

  /** ".." pops the part before it. */
  lemma DotDotPops()
    ensures PathParts("a/../b/c", []) == ["b", "c"]
  {
    assert NoSep("a") && NoSep("b") && NoSep("c");
    assert "a/../b/c" == "a" + "/../" + "b/c";
    DotDotCancels("a", "b/c", []);
    assert "b/c" == "b" + "/" + "c";
    KeptPart("b", "c", []);
    assert [] + ["b"] == ["b"];
    PlainNameIsOnePart("c", ["b"]);
  }

  /** A leading ".." has nothing to pop and is kept. */
  lemma LeadingDotDotKept()
    ensures PathParts("../a", []) == ["..", "a"]
  {
    assert NoSep("..") && NoSep("a");
    assert "../a" == ".." + "/" + "a";
    KeptPart("..", "a", []);
    assert [] + [".."] == [".."];
    PlainNameIsOnePart("a", [".."]);
  }

  /** A "." after a kept part is kept. */
  lemma InnerDotKept()
    ensures PathParts("a/./b", []) == ["a", ".", "b"]
  {
    assert NoSep("a") && NoSep(".") && NoSep("b");
    assert "a/./b" == "a" + "/" + "./b";
    KeptPart("a", "./b", []);
    assert [] + ["a"] == ["a"];
    assert "./b" == "." + "/" + "b";
    KeptPart(".", "b", ["a"]);
    assert ["a"] + ["."] == ["a", "."];
    PlainNameIsOnePart("b", ["a", "."]);
  }
}
