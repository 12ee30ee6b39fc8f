/**
 Store paths as strings: splitting, joining and normalization.  Every accepted
 string stands for exactly one sequence of proper segments, which is what the
 other modules call a path.
 */
module Paths {
  import opened Wrappers

  function Split(s: string): (segs: seq<string>)
    ensures segs != []
  {
    if s == "" then [""]
    else
      var rest := Split(s[1..]);
      if s[0] == '/' then [""] + rest else [[s[0]] + rest[0]] + rest[1..]
  }

  function Join(segs: seq<string>): string
  {
    if segs == [] then ""
    else if |segs| == 1 then segs[0]
    else segs[0] + "/" + Join(segs[1..])
  }

  predicate NoSlash(seg: string)
  {
    '/' !in seg
  }

  /** A segment a stored path may consist of. */
  predicate Proper(seg: string)
  {
    seg != "" && seg != "." && seg != ".." && NoSlash(seg)
  }

  predicate AllProper(segs: seq<string>)
  {
    forall seg | seg in segs :: Proper(seg)
  }

  predicate AllSlashes(s: string)
  {
    forall c | c in s :: c == '/'
  }

  /** Empty segments and current-directory markers are collapsed. */
  predicate Collapses(seg: string)
  {
    seg == "" || seg == "."
  }

  /** A segment that makes the whole path invalid. */
  predicate Parent(seg: string)
  {
    seg == ".."
  }

  predicate HasParent(segs: seq<string>)
  {
    exists seg | seg in segs :: Parent(seg)
  }

  /** The segments that normalization keeps. */
  function Kept(segs: seq<string>): seq<string>
  {
    if segs == [] then []
    else (if Collapses(segs[0]) then [] else [segs[0]]) + Kept(segs[1..])
  }

  /** The segments that are not empty: how the tree code splits a path. */
  function NonEmpty(segs: seq<string>): seq<string>
  {
    if segs == [] then []
    else (if segs[0] == "" then [] else [segs[0]]) + NonEmpty(segs[1..])
  }

  datatype PathError = ParentSegment | EmptyPath

  function Normalized(s: string): Result<string, PathError>
  {
    var segs := Split(s);
    if HasParent(segs) then Err(ParentSegment)
    else if Kept(segs) != [] then Ok(Join(Kept(segs)))
    else if AllSlashes(s) then Ok("")
    else Err(EmptyPath)
  }

  // ---------------------------------------------------------------------
  // Splitting and joining
  // ---------------------------------------------------------------------

  /** The first segment ends at the first slash. */
  lemma {:induction false} SplitFirst(s: string, e: nat)
    requires e <= |s| && '/' !in s[..e] && (e < |s| ==> s[e] == '/')
    ensures Split(s) == [s[..e]] + if e < |s| then Split(s[e + 1..]) else []
  {
    if e == 0 {
      assert s[..0] == "";
    } else {
      assert s[0] == s[..e][0];
      assert s[1..][..e - 1] == s[..e][1..];
      SplitFirst(s[1..], e - 1);
      assert s[..e] == [s[0]] + s[1..][..e - 1];
      assert e < |s| ==> s[1..][e..] == s[e + 1..];
    }
  }

  lemma {:induction false} SplitJoin(segs: seq<string>)
    requires segs != [] && forall seg | seg in segs :: NoSlash(seg)
    ensures Split(Join(segs)) == segs
  {
    var s, first := Join(segs), segs[0];
    assert NoSlash(first);
    assert s[..|first|] == first;
    SplitFirst(s, |first|);
    if |segs| > 1 {
      assert s[|first| + 1..] == Join(segs[1..]);
      SplitJoin(segs[1..]);
    }
  }

  lemma {:induction false} SplitHasNoSlash(s: string)
    ensures forall seg | seg in Split(s) :: NoSlash(seg)
  {
    if s != "" {
      SplitHasNoSlash(s[1..]);
      assert NoSlash(Split(s[1..])[0]);
    }
  }

  lemma {:induction false} KeptMembers(segs: seq<string>)
    ensures forall seg :: seg in Kept(segs) <==> seg in segs && !Collapses(seg)
  {
    if segs != [] {
      KeptMembers(segs[1..]);
      assert segs == [segs[0]] + segs[1..];
    }
  }

  lemma {:induction false} KeptProper(segs: seq<string>)
    requires AllProper(segs)
    ensures Kept(segs) == segs == NonEmpty(segs)
  {
    if segs != [] {
      assert Proper(segs[0]);
      KeptProper(segs[1..]);
      assert segs == [segs[0]] + segs[1..];
    }
  }

  // ---------------------------------------------------------------------
  // Normalization
  // ---------------------------------------------------------------------

  /** Strings made of proper segments are their own normal form. */
  lemma {:induction false} ProperIsNormal(segs: seq<string>)
    requires segs != [] && AllProper(segs)
    ensures Split(Join(segs)) == segs
    ensures NonEmpty(Split(Join(segs))) == segs
    ensures Normalized(Join(segs)) == Ok(Join(segs))
  {
    SplitJoin(segs);
    KeptProper(segs);
  }

  /** The segments that name something, in order. */
  function Names(segs: seq<string>): seq<string>
  {
    if segs == [] then []
    else if segs[0] == "" || segs[0] == "." then Names(segs[1..])
    else [segs[0]] + Names(segs[1..])
  }

  lemma {:induction false} KeptIsNames(segs: seq<string>)
    ensures Kept(segs) == Names(segs)
  {
    if segs != [] { KeptIsNames(segs[1..]); }
  }

  lemma {:induction false} SplitChars(s: string, seg: string)
    requires seg in Split(s)
    ensures forall c | c in seg :: c in s
  {
    if s != "" {
      var rest := Split(s[1..]);
      if seg in rest { SplitChars(s[1..], seg); }
      SplitChars(s[1..], rest[0]);
    }
  }

  lemma {:induction false} SomeMember<T>(s: seq<T>)
    ensures s != [] ==> exists x :: x in s
  {
    if s != [] { assert s[0] in s; }
  }

  lemma {:induction false} SlashesNameNothing(s: string)
    requires AllSlashes(s)
    ensures Kept(Split(s)) == []
  {
    SplitHasNoSlash(s);
    forall seg | seg in Split(s) ensures Collapses(seg) {
      SplitChars(s, seg);
      SomeMember(seg);
    }
    KeptMembers(Split(s));
    SomeMember(Kept(Split(s)));
  }

  /** Every accepted path keeps exactly the names of the given one, in order, and they
      are proper; it is the root exactly when the given one is all slashes; normalizing
      again changes nothing. */
  lemma {:induction false} NormalizedIsCanonical(s: string)
    requires Normalized(s).Ok?
    ensures var r := Normalized(s).value;
            && NonEmpty(Split(r)) == Names(Split(s)) && AllProper(Names(Split(s)))
            && (r != "" ==> Split(r) == Names(Split(s)))
            && (r == "" <==> AllSlashes(s))
            && Normalized(r) == Ok(r)
  {
    SplitHasNoSlash(s);
    KeptMembers(Split(s));
    KeptIsNames(Split(s));
    var segs := Kept(Split(s));
    if segs != [] {
      ProperIsNormal(segs);
      assert Proper(segs[0]);
    }
    if AllSlashes(s) { SlashesNameNothing(s); }
    assert NonEmpty(Split("")) == NonEmpty([""]) == [];
  }

  /** A path is refused for `..` exactly when one of its segments is that, and as empty
      exactly when it names nothing and is not all slashes; any other is accepted. */
  lemma {:induction false} AcceptedExactly(s: string)
    ensures Normalized(s) == Err(ParentSegment) <==> ".." in Split(s)
    ensures Normalized(s) == Err(EmptyPath) <==>
            ".." !in Split(s) && !AllSlashes(s) && forall seg | seg in Split(s) :: seg == "" || seg == "."
  {
    KeptMembers(Split(s));
    SomeMember(Kept(Split(s)));
    if AllSlashes(s) { SlashesNameNothing(s); }
  }

  method FindSlash(s: string, start: nat) returns (end: nat)
    requires start <= |s|
    ensures start <= end <= |s| && '/' !in s[start..end] && (end < |s| ==> s[end] == '/')
  {
    end := start;
    while end < |s| && s[end] != '/'
      invariant start <= end <= |s| && '/' !in s[start..end]
    {
      assert s[start..end + 1] == s[start..end] + [s[end]];
      end := end + 1;
    }
  }

  /** The segments of `s` from `start` on; none once past the end. */
  function From(s: string, start: nat): seq<string>
  {
    if start <= |s| then Split(s[start..]) else []
  }

  lemma {:induction false} FromStep(s: string, start: nat, end: nat)
    requires start <= end <= |s| && '/' !in s[start..end] && (end < |s| ==> s[end] == '/')
    ensures From(s, start) == [s[start..end]] + From(s, end + 1)
  {
    var t, e := s[start..], end - start;
    assert t[..e] == s[start..end];
    SplitFirst(t, e);
    if end < |s| {
      assert t[e + 1..] == s[end + 1..];
    }
  }

  lemma {:induction false} KeptSnoc(segs: seq<string>, seg: string)
    ensures Kept(segs + [seg]) == Kept(segs) + if Collapses(seg) then [] else [seg]
  {
    if segs == [] {
      assert segs + [seg] == [seg] && [seg][1..] == [];
    } else {
      assert (segs + [seg])[1..] == segs[1..] + [seg];
      KeptSnoc(segs[1..], seg);
    }
  }

  method Normalize(path: string) returns (r: Result<string, PathError>)
    ensures r == Normalized(path)
  {
    if path == "" { return Ok(""); }
    var segments := CollectSegments(path);
    if segments.Err? { return Err(segments.error); }
    if segments.value == [] {
      var allSlashes := CheckSlashes(path);
      return if allSlashes then Ok("") else Err(EmptyPath);
    }
    var out := JoinSegments(segments.value);
    return Ok(out);
  }

  /** The segments before `start` have been seen, and those to keep are collected. */
  ghost predicate Progress(path: string, start: nat, seen: seq<string>, segments: seq<string>)
  {
    start <= |path| + 1 && Split(path) == seen + From(path, start) && segments == Kept(seen) && !HasParent(seen)
  }

  lemma {:induction false} ProgressStep(path: string, start: nat, end: nat, seen: seq<string>, segments: seq<string>)
    requires Progress(path, start, seen, segments)
    requires start <= end <= |path| && '/' !in path[start..end] && (end < |path| ==> path[end] == '/')
    ensures var seg := path[start..end];
            if Parent(seg) then HasParent(Split(path))
            else Progress(path, end + 1, seen + [seg], if Collapses(seg) then segments else segments + [seg])
  {
    var seg, rest := path[start..end], From(path, end + 1);
    assert Split(path) == (seen + [seg]) + rest by {
      FromStep(path, start, end);
      assert seen + ([seg] + rest) == (seen + [seg]) + rest;
    }
    KeptSnoc(seen, seg);
    assert seg == Split(path)[|seen|];
  }

  lemma {:induction false} ProgressEnd(path: string, start: nat, seen: seq<string>, segments: seq<string>)
    requires Progress(path, start, seen, segments) && start >= |path|
    ensures segments == Kept(Split(path)) && !HasParent(Split(path))
  {
    if start == |path| {
      assert path[start..] == "" && From(path, start) == [""];
      KeptSnoc(seen, "");
    } else {
      assert seen + [] == seen;
    }
  }

  /** Cuts the path at its slashes, keeping neither empty segments nor `.`, and
      stops at the first `..`. */
  method CollectSegments(path: string) returns (r: Result<seq<string>, PathError>)
    ensures r == if HasParent(Split(path)) then Err(ParentSegment) else Ok(Kept(Split(path)))
  {
    var segments: seq<string> := [];
    var start := 0;
    ghost var seen: seq<string> := [];
    assert path[0..] == path && [] + Split(path) == Split(path);
    while start < |path|
      invariant 0 <= start && Progress(path, start, seen, segments)
    {
      var end := FindSlash(path, start);
      var seg := path[start..end];
      ProgressStep(path, start, end, seen, segments);
      if Parent(seg) { return Err(ParentSegment); }
      start := end + 1;
      seen := seen + [seg];
      if Collapses(seg) { continue; }
      segments := segments + [seg];
    }
    ProgressEnd(path, start, seen, segments);
    return Ok(segments);
  }

  method JoinSegments(segments: seq<string>) returns (out: string)
    ensures out == Join(segments)
  {
    out := "";
    assert segments[0..] == segments;
    for i := 0 to |segments|
      invariant i == 0 ==> out == ""
      invariant i < |segments| ==> Join(segments) == out + (if i > 0 then "/" else "") + Join(segments[i..])
      invariant i == |segments| ==> Join(segments) == out
    {
      assert segments[i..][1..] == segments[i + 1..];
      if i > 0 { out := out + "/"; }
      out := out + segments[i];
    }
  }

  method CheckSlashes(s: string) returns (all: bool)
    ensures all == AllSlashes(s)
  {
    for i := 0 to |s|
      invariant forall j | 0 <= j < i :: s[j] == '/'
    {
      if s[i] != '/' {
        assert s[i] in s;
        return false;
      }
    }
    return true;
  }
}
