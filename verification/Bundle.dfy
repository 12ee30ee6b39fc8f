/**
 The header of a bundle file, version 2: a signature line, one line per reference,
 a blank line, then the pack.
 */
module Bundle {
  import opened Wrappers

  const SIGNATURE: string := "# v2 git bundle\n"

  datatype Ref = Ref(name: string, sha: string)

  type RefMap = map<string, string>

  datatype BundleError = NotABundle | MissingSeparator

  datatype Header = Header(refs: RefMap, packOffset: nat)

  // ---------------------------------------------------------------------
  // Writing
  // ---------------------------------------------------------------------

  /** The lines a header may hold.  The writer makes references only. */
  datatype HeaderLine = Reference(ref: Ref) | HeadLine(sha: string) | Prerequisite(text: string) | Word(text: string)

  function Text(l: HeaderLine): string
  {
    match l
    case Reference(r) => r.sha + [' '] + r.name
    case HeadLine(sha) => sha + [' '] + "HEAD"
    case Prerequisite(text) => ['-'] + text
    case Word(text) => text
  }

  function Line(l: HeaderLine): string
  {
    Text(l) + ['\n']
  }

  function Lines(ls: seq<HeaderLine>): string
  {
    if ls == [] then "" else Line(ls[0]) + Lines(ls[1..])
  }

  function Written(ls: seq<HeaderLine>): string
  {
    SIGNATURE + (Lines(ls) + ['\n'])
  }

  function AsLines(refs: seq<Ref>): seq<HeaderLine>
  {
    seq(|refs|, i requires 0 <= i < |refs| => Reference(refs[i]))
  }

  lemma {:induction false} LinesSnoc(ls: seq<HeaderLine>, l: HeaderLine)
    ensures Lines(ls + [l]) == Lines(ls) + Line(l)
  {
    if ls == [] {
      assert ls + [l] == [l] && Lines([l][1..]) == "";
      assert Line(l) + "" == Line(l) == "" + Line(l);
    } else {
      assert (ls + [l])[1..] == ls[1..] + [l];
      LinesSnoc(ls[1..], l);
      assert Line(ls[0]) + (Lines(ls[1..]) + Line(l)) == (Line(ls[0]) + Lines(ls[1..])) + Line(l);
    }
  }

  method WriteHeader(refs: seq<Ref>) returns (header: string)
    ensures header == Written(AsLines(refs))
    ensures "# v2 git bundle\n" <= header
  {
    var body := "";
    for i := 0 to |refs|
      invariant body == Lines(AsLines(refs[..i]))
    {
      assert AsLines(refs[..i + 1]) == AsLines(refs[..i]) + [Reference(refs[i])];
      LinesSnoc(AsLines(refs[..i]), Reference(refs[i]));
      body := body + (refs[i].sha + [' '] + refs[i].name + ['\n']);
    }
    assert refs[..|refs|] == refs;
    header := SIGNATURE + (body + ['\n']);
  }

  // ---------------------------------------------------------------------
  // Reading
  // ---------------------------------------------------------------------

  /** The first `c` at or after `from`; the length of `s` when there is none. */
  function IndexOf(s: string, c: char, from: nat): (i: nat)
    requires from <= |s|
    ensures from <= i <= |s|
    decreases |s| - from
  {
    if from == |s| || s[from] == c then from else IndexOf(s, c, from + 1)
  }

  /** The first pair of newlines at or after `from`; the length of `s` when there is none. */
  function BlankLine(s: string, from: nat): (i: nat)
    requires from <= |s|
    ensures from <= i <= |s| && (i < |s| ==> i + 1 < |s|)
    decreases |s| - from
  {
    if from >= |s| - 1 then |s|
    else if s[from] == '\n' && s[from + 1] == '\n' then from
    else BlankLine(s, from + 1)
  }

  const HEAD: string := "HEAD"

  function AddLine(refs: RefMap, line: string): RefMap
  {
    if line == "" || line[0] == '-' then refs
    else
      var space := IndexOf(line, ' ', 0);
      if space == |line| || line[space + 1..] == HEAD then refs
      else refs[line[space + 1..] := line[..space]]
  }

  function ParseLines(s: string, pos: nat, sep: nat, refs: RefMap): RefMap
    requires pos <= |s|
    decreases |s| - pos
  {
    if pos >= sep then refs
    else
      var eol := IndexOf(s, '\n', pos);
      if eol == |s| || eol > sep then refs
      else ParseLines(s, eol + 1, sep, AddLine(refs, s[pos..eol]))
  }

  function Parsed(data: string): Result<Header, BundleError>
  {
    var start := |SIGNATURE|;
    if |data| < start || data[..start] != SIGNATURE then Err(NotABundle)
    else
      var sep := BlankLine(data, start);
      if sep == |data| then Err(MissingSeparator)
      else Ok(Header(ParseLines(data, start, sep, map[]), sep + 2))
  }

  method FindChar(s: string, c: char, from: nat) returns (i: nat)
    requires from <= |s|
    ensures i == IndexOf(s, c, from)
  {
    i := from;
    while i < |s| && s[i] != c
      invariant from <= i <= |s| && IndexOf(s, c, from) == IndexOf(s, c, i)
    {
      i := i + 1;
    }
  }

  method FindBlankLine(s: string, from: nat) returns (i: nat)
    requires from <= |s|
    ensures i == BlankLine(s, from)
  {
    i := from;
    while i + 1 < |s|
      invariant from <= i <= |s| && BlankLine(s, from) == BlankLine(s, i)
    {
      if s[i] == '\n' && s[i + 1] == '\n' { return; }
      i := i + 1;
    }
    i := |s|;
  }

  method ParseBundleHeader(data: string) returns (r: Result<Header, BundleError>)
    ensures r == Parsed(data)
  {
    if |data| < |SIGNATURE| || data[..|SIGNATURE|] != SIGNATURE { return Err(NotABundle); }
    var sep := FindBlankLine(data, |SIGNATURE|);
    if sep == |data| { return Err(MissingSeparator); }
    var refs: RefMap := map[];
    var pos := |SIGNATURE|;
    while pos < sep
      invariant pos <= |data|
      invariant ParseLines(data, |SIGNATURE|, sep, map[]) == ParseLines(data, pos, sep, refs)
      decreases |data| - pos
    {
      var eol := FindChar(data, '\n', pos);
      if eol == |data| || eol > sep { break; }
      var line := data[pos..eol];
      pos := eol + 1;
      if line == "" { continue; }
      if line[0] == '-' { continue; }
      var space := FindChar(line, ' ', 0);
      if space == |line| { continue; }
      var name := line[space + 1..];
      if name == HEAD { continue; }
      refs := refs[name := line[..space]];
    }
    return Ok(Header(refs, sep + 2));
  }

  // ---------------------------------------------------------------------
  // Round trip
  // ---------------------------------------------------------------------

  /** A reference the format can carry. */
  predicate Portable(r: Ref)
  {
    && '\n' !in r.name && r.name != HEAD
    && '\n' !in r.sha && ' ' !in r.sha && (r.sha != "" ==> r.sha[0] != '-')
  }

  /** A line that reads back as what it is. */
  predicate Readable(l: HeaderLine)
  {
    match l
    case Reference(r) => Portable(r)
    case HeadLine(sha) => '\n' !in sha && ' ' !in sha
    case Prerequisite(text) => '\n' !in text
    case Word(text) => text != "" && '\n' !in text && ' ' !in text
  }

  predicate AllReadable(ls: seq<HeaderLine>)
  {
    forall l | l in ls :: Readable(l)
  }

  lemma {:induction false} ReadableTail(ls: seq<HeaderLine>)
    requires ls != [] && AllReadable(ls)
    ensures Readable(ls[0]) && AllReadable(ls[1..])
  {
    assert ls[0] in ls;
  }

  function Add(refs: RefMap, l: HeaderLine): RefMap
  {
    if l.Reference? then refs[l.ref.name := l.ref.sha] else refs
  }

  /** The references among the lines, in order. */
  function References(ls: seq<HeaderLine>): seq<Ref>
  {
    if ls == [] then []
    else (if ls[0].Reference? then [ls[0].ref] else []) + References(ls[1..])
  }

  /** The references as a map; a later line overrides an earlier one of the same name. */
  function AddAll(refs: RefMap, rs: seq<Ref>): RefMap
    decreases |rs|
  {
    if rs == [] then refs else AddAll(refs[rs[0].name := rs[0].sha], rs[1..])
  }

  lemma {:induction false} IndexOfSkips(s: string, c: char, from: nat, stop: nat)
    requires from <= stop <= |s| && forall i | from <= i < stop :: s[i] != c
    ensures IndexOf(s, c, from) == IndexOf(s, c, stop)
    decreases |s| - from
  {
    if from < stop { IndexOfSkips(s, c, from + 1, stop); }
  }

  lemma {:induction false} BlankLineSkips(s: string, from: nat, stop: nat)
    requires from <= stop < |s| && forall i | from <= i < stop :: s[i] != '\n'
    ensures BlankLine(s, from) == BlankLine(s, stop)
    decreases |s| - from
  {
    if from < stop { BlankLineSkips(s, from + 1, stop); }
  }

  /** Reading one line back: only a reference adds anything. */
  lemma {:induction false} AddLineOf(refs: RefMap, l: HeaderLine)
    requires Readable(l)
    ensures AddLine(refs, Text(l)) == Add(refs, l)
  {
    match l
    case Reference(r) => SpaceAfter(r.sha, r.name);
    case HeadLine(sha) => SpaceAfter(sha, "HEAD");
    case Prerequisite(text) =>
    case Word(text) => IndexOfSkips(text, ' ', 0, |text|);
  }

  lemma {:induction false} SpaceAfter(sha: string, name: string)
    requires ' ' !in sha
    ensures var line := sha + [' '] + name;
            IndexOf(line, ' ', 0) == |sha| && line[..|sha|] == sha && line[|sha| + 1..] == name
  {
    var line := sha + [' '] + name;
    assert forall i | 0 <= i < |sha| :: line[i] == sha[i];
    IndexOfSkips(line, ' ', 0, |sha|);
    assert line[|sha|] == ' ';
  }

  lemma {:induction false} TextIsOneLine(l: HeaderLine)
    requires Readable(l)
    ensures Text(l) != "" && '\n' !in Text(l)
  {
  }

  /** Where the first line ends, in a text that continues with it at `at`. */
  lemma {:induction false} FirstLine(s: string, at: nat, l: HeaderLine)
    requires Readable(l) && at + |Line(l)| <= |s| && s[at..at + |Line(l)|] == Line(l)
    ensures var eol := at + |Line(l)| - 1;
            && eol >= at && s[eol] == '\n' && IndexOf(s, '\n', at) == eol
            && s[at..eol] == Text(l)
            && BlankLine(s, at) == BlankLine(s, eol)
  {
    var line := Text(l);
    var eol := at + |line|;
    TextIsOneLine(l);
    var here := s[at..eol + 1];
    assert here == line + ['\n'] && here[|line|] == s[eol];
    assert s[at..eol] == here[..|line|] == line;
    forall i | at <= i < eol ensures s[i] != '\n' {
      assert s[i] == s[at..eol][i - at] == line[i - at];
    }
    IndexOfSkips(s, '\n', at, eol);
    BlankLineSkips(s, at, eol);
  }

  /** The text from `at` on is the lines of `rs`, a newline, and anything. */
  ghost predicate Holds(s: string, at: nat, ls: seq<HeaderLine>)
  {
    var n := |Lines(ls)|;
    at + n < |s| && s[at..at + n] == Lines(ls) && s[at + n] == '\n'
  }

  lemma {:induction false} HoldsTail(s: string, at: nat, ls: seq<HeaderLine>)
    requires ls != [] && Holds(s, at, ls)
    ensures var next := at + |Line(ls[0])|;
            && next < |s| && s[at..next] == Line(ls[0]) && Holds(s, next, ls[1..])
            && at + |Lines(ls)| == next + |Lines(ls[1..])|
  {
    var k, n := |Line(ls[0])|, |Lines(ls)|;
    assert s[at..at + n][..k] == s[at..at + k];
    assert s[at..at + n][k..] == s[at + k..at + n];
  }

  /** Behind a line, either the next character ends the header or the search goes on. */
  lemma {:induction false} BlankBehind(s: string, at: nat, l: HeaderLine)
    requires Readable(l) && at + |Line(l)| < |s| && s[at..at + |Line(l)|] == Line(l)
    ensures var next := at + |Line(l)|; BlankLine(s, at) == if s[next] == '\n' then next - 1 else BlankLine(s, next)
  {
    FirstLine(s, at, l);
  }

  /** The separator is the end of the last line. */
  lemma {:induction false} SeparatorFound(s: string, at: nat, ls: seq<HeaderLine>)
    requires ls != [] && AllReadable(ls) && Holds(s, at, ls)
    ensures BlankLine(s, at) == at + |Lines(ls)| - 1
    decreases |ls|
  {
    var next := at + |Line(ls[0])|;
    ReadableTail(ls);
    HoldsTail(s, at, ls);
    BlankBehind(s, at, ls[0]);
    if |ls| > 1 {
      SeparatorFound(s, next, ls[1..]);
      NextLineStarts(s, next, ls[1..]);
    } else {
      assert ls[1..] == [];
    }
  }

  lemma {:induction false} ParseOne(s: string, at: nat, l: HeaderLine, sep: nat, refs: RefMap)
    requires Readable(l) && at + |Line(l)| <= |s| && s[at..at + |Line(l)|] == Line(l) && at + |Line(l)| <= sep + 1
    ensures ParseLines(s, at, sep, refs) == ParseLines(s, at + |Line(l)|, sep, Add(refs, l))
  {
    FirstLine(s, at, l);
    AddLineOf(refs, l);
  }

  lemma {:induction false} AddAllStep(refs: RefMap, ls: seq<HeaderLine>)
    requires ls != []
    ensures AddAll(refs, References(ls)) == AddAll(Add(refs, ls[0]), References(ls[1..]))
  {
    var rest := References(ls[1..]);
    if ls[0].Reference? {
      assert References(ls)[1..] == rest;
    } else {
      assert References(ls) == rest;
    }
  }

  lemma {:induction false} ParseNext(s: string, at: nat, ls: seq<HeaderLine>, sep: nat, refs: RefMap)
    requires ls != [] && AllReadable(ls) && Holds(s, at, ls) && at + |Lines(ls)| == sep + 1
    ensures var next := at + |Line(ls[0])|;
            && AllReadable(ls[1..]) && Holds(s, next, ls[1..]) && next + |Lines(ls[1..])| == sep + 1
            && ParseLines(s, at, sep, refs) == ParseLines(s, next, sep, Add(refs, ls[0]))
  {
    ReadableTail(ls);
    HoldsTail(s, at, ls);
    ParseOne(s, at, ls[0], sep, refs);
  }

  /** Every line is read back. */
  lemma {:induction false} LinesRoundTrip(s: string, at: nat, ls: seq<HeaderLine>, sep: nat, refs: RefMap)
    requires AllReadable(ls) && Holds(s, at, ls) && at + |Lines(ls)| == sep + 1
    ensures ParseLines(s, at, sep, refs) == AddAll(refs, References(ls))
    decreases |ls|
  {
    if ls != [] {
      ParseNext(s, at, ls, sep, refs);
      LinesRoundTrip(s, at + |Line(ls[0])|, ls[1..], sep, Add(refs, ls[0]));
      AddAllStep(refs, ls);
    }
  }

  lemma {:induction false} NextLineStarts(s: string, at: nat, ls: seq<HeaderLine>)
    requires ls != [] && AllReadable(ls) && Holds(s, at, ls)
    ensures s[at] != '\n' && at + |Lines(ls)| - 1 > at
  {
    HoldsTail(s, at, ls);
    var l := ls[0];
    ReadableTail(ls);
    assert s[at] == s[at..at + |Line(l)|][0] == Line(l)[0];
  }

  /** Whatever readable lines a header holds, parsing it and any pack behind it gives the
      references among them and the exact offset of the pack: prerequisites, `HEAD` and
      words without a space are passed over. */
  lemma {:induction false} MixedHeader(ls: seq<HeaderLine>, pack: string)
    requires ls != [] && AllReadable(ls)
    ensures Parsed(Written(ls) + pack) == Ok(Header(AddAll(map[], References(ls)), |Written(ls)|))
  {
    var data, start, lines := Written(ls) + pack, |SIGNATURE|, Lines(ls);
    assert data[..start] == SIGNATURE;
    assert data[start..start + |lines|] == lines && data[start + |lines|] == '\n';
    SeparatorFound(data, start, ls);
    LinesRoundTrip(data, start, ls, start + |lines| - 1, map[]);
  }

  lemma {:induction false} AllAreReferences(rs: seq<Ref>)
    ensures References(AsLines(rs)) == rs
  {
    if rs != [] {
      assert AsLines(rs)[1..] == AsLines(rs[1..]);
      AllAreReferences(rs[1..]);
      assert rs == [rs[0]] + rs[1..];
    }
  }

  /** Parsing a written header followed by any pack gives the same references and the
      exact offset of the pack, for every pack, exactly when there is a reference. */
  lemma {:induction false} HeaderRoundTrip(rs: seq<Ref>)
    requires forall r | r in rs :: Portable(r)
    ensures rs != [] <==>
            forall pack: string ::
              Parsed(Written(AsLines(rs)) + pack) == Ok(Header(AddAll(map[], rs), |Written(AsLines(rs))|))
  {
    var ls := AsLines(rs);
    if rs != [] {
      forall pack: string ensures Parsed(Written(ls) + pack) == Ok(Header(AddAll(map[], rs), |Written(ls)|)) {
        AllAreReferences(rs);
        MixedHeader(ls, pack);
      }
    } else {
      assert ls == [];
      EmptyHeaderUnreadable();
    }
  }

  /** Without a reference the signature's own newline is not part of the search. */
  lemma {:induction false} EmptyHeaderUnreadable()
    ensures Parsed(Written([]) + "") == Err(MissingSeparator)
  {
    var data, start := Written([]) + "", |SIGNATURE|;
    assert |data| == start + 1;
    assert data[..start] == SIGNATURE;
  }

  predicate BlankAt(s: string, i: nat)
  {
    i + 1 < |s| && s[i] == '\n' && s[i + 1] == '\n'
  }

  lemma {:induction false} BlankLineFinds(s: string, from: nat)
    requires from <= |s|
    ensures var i := BlankLine(s, from);
            && (i < |s| ==> BlankAt(s, i))
            && forall k | from <= k < i :: !BlankAt(s, k)
    decreases |s| - from
  {
    if from < |s| - 1 && !BlankAt(s, from) { BlankLineFinds(s, from + 1); }
  }

  /** What is refused: data without the signature, and data without a blank line behind
      the signature line; the pack begins behind the first such line. */
  lemma {:induction false} RefusedExactly(data: string)
    ensures Parsed(data) == Err(NotABundle) <==> !(SIGNATURE <= data)
    ensures Parsed(data) == Err(MissingSeparator) <==> SIGNATURE <= data && forall i | i >= |SIGNATURE| :: !BlankAt(data, i)
    ensures Parsed(data).Ok? ==>
              var end := Parsed(data).value.packOffset;
              && |SIGNATURE| <= end - 2 && BlankAt(data, end - 2)
              && forall i | |SIGNATURE| <= i < end - 2 :: !BlankAt(data, i)
  {
    if SIGNATURE <= data { BlankLineFinds(data, |SIGNATURE|); }
  }

  /** With distinct names the references come back one by one. */
  lemma {:induction false} AddAllIsMap(refs: RefMap, rs: seq<Ref>)
    requires forall i, j | 0 <= i < j < |rs| :: rs[i].name != rs[j].name
    ensures forall r | r in rs :: r.name in AddAll(refs, rs) && AddAll(refs, rs)[r.name] == r.sha
    ensures forall n | n in AddAll(refs, rs) :: n in refs || exists r :: r in rs && r.name == n
    ensures forall n | n in refs && (forall r | r in rs :: r.name != n) ::
              n in AddAll(refs, rs) && AddAll(refs, rs)[n] == refs[n]
    decreases |rs|
  {
    if rs != [] {
      var r, rest := rs[0], rs[1..];
      assert rs == [r] + rest;
      forall x | x in rest ensures x.name != r.name {
        var i :| 0 <= i < |rest| && rest[i] == x;
        assert rs[i + 1] == x;
      }
      forall i, j | 0 <= i < j < |rest| ensures rest[i].name != rest[j].name {
        assert rs[i + 1].name != rs[j + 1].name;
      }
      AddAllIsMap(refs[r.name := r.sha], rest);
    }
  }
}
