/**
 The C++ tree rebuild: every level scans the whole change list again and keeps
 the changes whose leading segments equal the current prefix.
 */
module PrefixRebuild {
  import opened Wrappers
  import opened Trees
  import opened Changes
  import opened Rebuild

  // ---------------------------------------------------------------------
  // One level
  // ---------------------------------------------------------------------

  /** The subdirectories the writes go through, with the contents they had. */
  function Captured(m: Entries, ws: seq<Change>): map<Name, Entries>
  {
    map n | n in Heads(ws) && Sub(ws, n) != [] :: Below(m, n)
  }

  datatype Scan = Scan(builder: Entries, captured: map<Name, Entries>)

  /** The removes, in order: one that ends here edits the builder at once, one that
      goes deeper captures its subdirectory as the builder has it at that moment. */
  function ScanRemoves(start: Scan, rs: seq<Change>): Scan
  {
    if rs == [] then start
    else
      ScanRemove(ScanRemoves(start, rs[..|rs| - 1]), rs[|rs| - 1].path)
  }

  function ScanRemove(s: Scan, p: Path): Scan
  {
    if |p| == 1 then s.(builder := s.builder - {p[0]})
    else if |p| >= 2 && p[0] !in s.captured then s.(captured := s.captured[p[0] := Below(s.builder, p[0])])
    else s
  }

  function Scanned(m: Entries, ws: seq<Change>, rs: seq<Change>): Scan
  {
    ScanRemoves(Scan(m, Captured(m, ws)), rs)
  }

  function Leaves(ws: seq<Change>): Entries
  {
    map n | n in Heads(ws) && LastWrite(ws, [n]).Some? :: Blob(LastWrite(ws, [n]).value)
  }

  /** The rebuilt entries: the edited builder, overridden by the rebuilt
      subdirectories, overridden by the writes that end here. */
  function CppRebuilt(m: Entries, ws: seq<Change>, rs: seq<Change>): Entries
    decreases Weight(ws) + Weight(rs), 1
  {
    var s := Scanned(m, ws, rs);
    CapturedNames(m, ws, rs);
    s.builder + Subtrees(s.captured, ws, rs) + Leaves(ws)
  }

  function Subtrees(captured: map<Name, Entries>, ws: seq<Change>, rs: seq<Change>): Entries
    requires forall n | n in captured :: Sub(ws, n) != [] || Sub(rs, n) != []
    decreases Weight(ws) + Weight(rs), 0
  {
    map n | n in captured ::
      SubIsLighter(ws, n); SubIsLighter(rs, n);
      Dir(CppRebuilt(captured[n], Sub(ws, n), Sub(rs, n)))
  }

  // ---------------------------------------------------------------------
  // What the remove scan leaves behind
  // ---------------------------------------------------------------------

  /** Some remove strictly below `q` comes before every remove of `q` itself. */
  predicate BelowFirst(rs: seq<Change>, q: Path)
  {
    rs != [] &&
    var front := rs[..|rs| - 1];
    BelowFirst(front, q) || (q < rs[|rs| - 1].path && !Removed(front, q))
  }

  predicate OnlyRemoves(rs: seq<Change>)
  {
    forall c | c in rs :: c.file.None?
  }

  predicate OnlyWrites(ws: seq<Change>)
  {
    forall c | c in ws :: c.file.Some?
  }

  lemma {:induction false} ScanNames(start: Scan, rs: seq<Change>, n: Name)
    ensures n in ScanRemoves(start, rs).captured <==> n in start.captured || Sub(rs, n) != []
  {
    if rs != [] {
      ScanNames(start, rs[..|rs| - 1], n);
    }
  }

  lemma {:induction false} WritesThrough(ws: seq<Change>, n: Name)
    ensures n in Heads(ws) && Sub(ws, n) != [] <==> Sub(ws, n) != []
  {
    UntouchedName(map[], ws, n);
  }

  lemma {:induction false} CapturedNames(m: Entries, ws: seq<Change>, rs: seq<Change>)
    ensures forall n :: n in Scanned(m, ws, rs).captured <==> Sub(ws, n) != [] || Sub(rs, n) != []
  {
    forall n ensures n in Scanned(m, ws, rs).captured <==> Sub(ws, n) != [] || Sub(rs, n) != [] {
      ScanNames(Scan(m, Captured(m, ws)), rs, n);
      WritesThrough(ws, n);
    }
  }

  lemma {:induction false} ScanBuilder(start: Scan, rs: seq<Change>, n: Name)
    requires OnlyRemoves(rs)
    ensures Get(ScanRemoves(start, rs).builder, n) == if Removed(rs, [n]) then None else Get(start.builder, n)
  {
    if rs != [] {
      var front, c := rs[..|rs| - 1], rs[|rs| - 1];
      assert rs == front + [c];
      ScanBuilder(start, front, n);
      assert c.file.None?;
      if |c.path| == 1 {
        assert c.path == [c.path[0]];
      }
    }
  }

  /** A subdirectory only removes go through is captured with its contents exactly
      when a deeper remove comes before the remove of the subdirectory itself. */
  lemma {:induction false} ScanCaptures(start: Scan, rs: seq<Change>, n: Name)
    requires OnlyRemoves(rs) && n in ScanRemoves(start, rs).captured
    ensures n in start.captured ==> ScanRemoves(start, rs).captured[n] == start.captured[n]
    ensures n !in start.captured ==>
              ScanRemoves(start, rs).captured[n] == if BelowFirst(rs, [n]) then Below(start.builder, n) else map[]
  {
    if rs != [] {
      var front, c := rs[..|rs| - 1], rs[|rs| - 1];
      assert rs == front + [c];
      var s := ScanRemoves(start, front);
      if n in s.captured {
        ScanCaptures(start, front, n);
        ScanNames(start, front, n);
        if n !in start.captured {
          LateRemove(front, c, n);
        }
      } else {
        ScanNames(start, front, n);
        SubChangedBelow(front, n, []);
        NotBelowFirst(front, [n]);
        ScanBuilder(start, front, n);
        assert [n] < c.path;
      }
    }
  }

  lemma {:induction false} NotBelowFirst(rs: seq<Change>, q: Path)
    ensures BelowFirst(rs, q) ==> ChangedBelow(rs, q)
  {
    if BelowFirst(rs, q) {
      var front, c := rs[..|rs| - 1], rs[|rs| - 1];
      assert rs == front + [c];
      if BelowFirst(front, q) {
        NotBelowFirst(front, q);
      }
    }
  }

  lemma {:induction false} RemoveBeforeCapture(rs: seq<Change>, n: Name)
    requires Sub(rs, n) != [] && OnlyRemoves(rs) && !BelowFirst(rs, [n])
    ensures Removed(rs, [n])
  {
    var front, c := rs[..|rs| - 1], rs[|rs| - 1];
    assert rs == front + [c];
    if Sub(front, n) != [] {
      RemoveBeforeCapture(front, n);
    }
  }

  /** Once a name has been captured, a later change does not alter the verdict. */
  lemma {:induction false} LateRemove(front: seq<Change>, c: Change, n: Name)
    requires Sub(front, n) != [] && OnlyRemoves(front)
    ensures BelowFirst(front + [c], [n]) <==> BelowFirst(front, [n])
  {
    assert (front + [c])[..|front|] == front;
    if !BelowFirst(front, [n]) {
      RemoveBeforeCapture(front, n);
    }
  }

  /** What the name `n` holds after one C++ level. */
  lemma {:induction false} CppAt(m: Entries, ws: seq<Change>, rs: seq<Change>, n: Name)
    requires OnlyRemoves(rs)
    ensures var caught := if Sub(ws, n) != [] || BelowFirst(rs, [n]) then Below(m, n) else map[];
            Get(CppRebuilt(m, ws, rs), n) ==
            if LastWrite(ws, [n]).Some? then Some(Blob(LastWrite(ws, [n]).value))
            else if Sub(ws, n) != [] || Sub(rs, n) != [] then Some(Dir(CppRebuilt(caught, Sub(ws, n), Sub(rs, n))))
            else if Removed(rs, [n]) then None
            else Get(m, n)
  {
    var start := Scan(m, Captured(m, ws));
    CapturedNames(m, ws, rs);
    WritesThrough(ws, n);
    UntouchedName(m, ws, n);
    ScanBuilder(start, rs, n);
    if n in Scanned(m, ws, rs).captured {
      ScanCaptures(start, rs, n);
    }
    LastWriteIsMember(ws, [n]);
    if LastWrite(ws, [n]).Some? {
      assert Change([n], LastWrite(ws, [n])).path[0] in Heads(ws);
    }
  }

  // ---------------------------------------------------------------------
  // The rebuild as it is carried out
  // ---------------------------------------------------------------------

  predicate MatchesPrefix(p: Path, prefix: Path)
  {
    |p| > |prefix| && p[..|prefix|] == prefix
  }

  /** The changes a level at `prefix` picks out of the whole list. */
  function Under(cs: seq<Change>, prefix: Path): seq<Change>
  {
    if cs == [] then []
    else
      var rest, c := Under(cs[..|cs| - 1], prefix), cs[|cs| - 1];
      if MatchesPrefix(c.path, prefix) then rest + [Change(c.path[|prefix|..], c.file)] else rest
  }

  lemma {:induction false} MatchesDeeper(p: Path, prefix: Path, n: Name)
    ensures MatchesPrefix(p, prefix + [n]) <==> MatchesPrefix(p, prefix) && |p| > |prefix| + 1 && p[|prefix|] == n
  {
    if |p| > |prefix| + 1 {
      assert p[..|prefix| + 1] == p[..|prefix|] + [p[|prefix|]];
    }
  }

  /** Scanning at a longer prefix is descending one name. */
  lemma {:induction false} UnderDeeper(cs: seq<Change>, prefix: Path, n: Name)
    ensures Under(cs, prefix + [n]) == Sub(Under(cs, prefix), n)
  {
    if cs != [] {
      var front, c := cs[..|cs| - 1], cs[|cs| - 1];
      UnderDeeper(front, prefix, n);
      MatchesDeeper(c.path, prefix, n);
      if MatchesPrefix(c.path, prefix) {
        assert Under(cs, prefix)[..|Under(front, prefix)|] == Under(front, prefix);
        assert |c.path| > |prefix| + 1 ==> c.path[|prefix|..][1..] == c.path[|prefix| + 1..];
      }
    }
  }

  /** At the root a level picks out everything but changes to the root itself. */
  lemma {:induction false} UnderRoot(cs: seq<Change>, n: Name)
    ensures Sub(Under(cs, []), n) == Sub(cs, n)
    ensures LastWrite(Under(cs, []), [n]) == LastWrite(cs, [n])
    ensures Removed(Under(cs, []), [n]) <==> Removed(cs, [n])
    ensures BelowFirst(Under(cs, []), [n]) <==> BelowFirst(cs, [n])
  {
    if cs != [] {
      var front, c := cs[..|cs| - 1], cs[|cs| - 1];
      assert cs == front + [c];
      UnderRoot(front, n);
      if c.path != [] {
        assert c.path[0..] == c.path;
        assert Under(cs, []) == Under(front, []) + [c];
        assert Under(cs, [])[..|Under(front, [])|] == Under(front, []);
      }
    }
  }

  lemma {:induction false} RootIgnored(m: Entries, ws: seq<Change>, rs: seq<Change>)
    requires OnlyRemoves(rs)
    ensures CppRebuilt(m, Under(ws, []), Under(rs, [])) == CppRebuilt(m, ws, rs)
  {
    var ws', rs' := Under(ws, []), Under(rs, []);
    UnderRemoves(rs);
    forall n ensures Get(CppRebuilt(m, ws', rs'), n) == Get(CppRebuilt(m, ws, rs), n) {
      UnderRoot(ws, n);
      UnderRoot(rs, n);
      CppAt(m, ws, rs, n);
      CppAt(m, ws', rs', n);
    }
    SameGets(CppRebuilt(m, ws', rs'), CppRebuilt(m, ws, rs));
  }

  lemma {:induction false} UnderRemoves(rs: seq<Change>)
    requires OnlyRemoves(rs)
    ensures OnlyRemoves(Under(rs, []))
  {
    if rs != [] {
      assert rs[|rs| - 1] in rs;
      UnderRemoves(rs[..|rs| - 1]);
    }
  }

  /** One level at `prefix`: scan the writes, scan the removes, rebuild the
      captured subdirectories, insert the leaves. */
  method CppRebuildTree(base: Entries, prefix: Path, writes: seq<Change>, removes: seq<Change>)
    returns (builder: Entries)
    ensures builder == CppRebuilt(base, Under(writes, prefix), Under(removes, prefix))
    decreases Weight(Under(writes, prefix)) + Weight(Under(removes, prefix)), 2
  {
    var inserts, captured := ScanPending(base, prefix, writes);
    var scan := ScanRemoveSegs(base, captured, prefix, removes);
    ghost var ws, rs := Under(writes, prefix), Under(removes, prefix);
    CapturedNames(base, ws, rs);
    builder := RebuildCaptured(scan, prefix, writes, removes, ws, rs);
    builder := builder + inserts;
  }

  method RebuildCaptured(scan: Scan, prefix: Path, writes: seq<Change>, removes: seq<Change>,
                         ghost ws: seq<Change>, ghost rs: seq<Change>)
    returns (builder: Entries)
    requires ws == Under(writes, prefix) && rs == Under(removes, prefix)
    requires forall n | n in scan.captured :: Sub(ws, n) != [] || Sub(rs, n) != []
    ensures builder == scan.builder + Subtrees(scan.captured, ws, rs)
    decreases Weight(ws) + Weight(rs), 1
  {
    builder := scan.builder;
    var names := scan.captured.Keys;
    ghost var subtrees := Subtrees(scan.captured, ws, rs);
    assert subtrees.Keys == names;
    while names != {}
      invariant names <= subtrees.Keys
      invariant forall n :: Get(builder, n) ==
                  if n in subtrees && n !in names then Some(subtrees[n]) else Get(scan.builder, n)
      decreases names
    {
      var name :| name in names;
      names := names - {name};
      var sub := RebuildSubtree(scan.captured[name], prefix, name, writes, removes, ws, rs);
      builder := builder[name := sub];
    }
    SameGets(builder, scan.builder + subtrees);
  }

  method RebuildSubtree(captured: Entries, prefix: Path, name: Name, writes: seq<Change>, removes: seq<Change>,
                        ghost ws: seq<Change>, ghost rs: seq<Change>)
    returns (sub: Tree)
    requires ws == Under(writes, prefix) && rs == Under(removes, prefix)
    requires Sub(ws, name) != [] || Sub(rs, name) != []
    ensures sub == Dir(CppRebuilt(captured, Sub(ws, name), Sub(rs, name)))
    decreases Weight(ws) + Weight(rs), 0
  {
    LighterBelow(writes, removes, prefix, name);
    var entries := CppRebuildTree(captured, prefix + [name], writes, removes);
    sub := Dir(entries);
  }

  lemma {:induction false} LighterBelow(writes: seq<Change>, removes: seq<Change>, prefix: Path, n: Name)
    requires Sub(Under(writes, prefix), n) != [] || Sub(Under(removes, prefix), n) != []
    ensures Under(writes, prefix + [n]) == Sub(Under(writes, prefix), n)
    ensures Under(removes, prefix + [n]) == Sub(Under(removes, prefix), n)
    ensures Weight(Under(writes, prefix + [n])) + Weight(Under(removes, prefix + [n])) <
            Weight(Under(writes, prefix)) + Weight(Under(removes, prefix))
  {
    UnderDeeper(writes, prefix, n);
    UnderDeeper(removes, prefix, n);
    SubIsLighter(Under(writes, prefix), n);
    SubIsLighter(Under(removes, prefix), n);
  }

  method ScanPending(base: Entries, prefix: Path, writes: seq<Change>)
    returns (inserts: Entries, captured: map<Name, Entries>)
    ensures inserts == Leaves(Under(writes, prefix))
    ensures captured == Captured(base, Under(writes, prefix))
  {
    inserts, captured := map[], map[];
    var depth := |prefix|;
    for i := 0 to |writes|
      invariant inserts == Leaves(Under(writes[..i], prefix))
      invariant captured == Captured(base, Under(writes[..i], prefix))
    {
      var c := writes[i];
      ghost var front := Under(writes[..i], prefix);
      assert writes[..i + 1][..i] == writes[..i];
      if MatchesPrefix(c.path, prefix) {
        ghost var cut := Change(c.path[depth..], c.file);
        assert Under(writes[..i + 1], prefix) == front + [cut];
        LeavesStep(front, cut);
        CapturedStep(base, front, cut);
        var name := c.path[depth];
        if |c.path| == depth + 1 {
          if c.file.Some? {
            inserts := inserts[name := Blob(c.file.value)];
          }
        } else if name !in captured {
          captured := captured[name := Below(base, name)];
        }
      }
    }
    assert writes[..|writes|] == writes;
  }

  lemma {:induction false} HeadsStep(ws: seq<Change>, c: Change)
    requires c.path != []
    ensures Heads(ws + [c]) == Heads(ws) + {c.path[0]}
  {
    forall n ensures n in Heads(ws + [c]) <==> n in Heads(ws) || n == c.path[0] {
      if n == c.path[0] { assert c in ws + [c]; }
      if n in Heads(ws) {
        var d :| d in ws && d.path != [] && d.path[0] == n;
        assert d in ws + [c];
      }
    }
  }

  lemma {:induction false} LeafIsHead(ws: seq<Change>, n: Name)
    ensures LastWrite(ws, [n]).Some? ==> n in Heads(ws)
  {
    LastWriteIsMember(ws, [n]);
    if LastWrite(ws, [n]).Some? {
      assert Change([n], LastWrite(ws, [n])).path[0] in Heads(ws);
    }
  }

  /** One more pending write, seen through the two maps the scan fills. */
  lemma {:induction false} LeavesStep(ws: seq<Change>, c: Change)
    requires c.path != []
    ensures Leaves(ws + [c]) ==
            if |c.path| == 1 && c.file.Some? then Leaves(ws)[c.path[0] := Blob(c.file.value)] else Leaves(ws)
  {
    assert (ws + [c])[..|ws|] == ws;
    HeadsStep(ws, c);
    LeafIsHead(ws, c.path[0]);
    if |c.path| == 1 { assert c.path == [c.path[0]]; }
  }

  lemma {:induction false} CapturedName(m: Entries, ws: seq<Change>, c: Change, n: Name)
    ensures n in Captured(m, ws + [c]) <==> n in Captured(m, ws) || (|c.path| > 1 && n == c.path[0])
  {
    GroupStep(ws, c, n);
    WritesThrough(ws, n);
    WritesThrough(ws + [c], n);
  }

  lemma {:induction false} CapturedStep(m: Entries, ws: seq<Change>, c: Change)
    requires c.path != []
    ensures Captured(m, ws + [c]) ==
            if |c.path| == 1 then Captured(m, ws) else Captured(m, ws)[c.path[0] := Below(m, c.path[0])]
  {
    forall n { CapturedName(m, ws, c, n); }
  }

  method ScanRemoveSegs(base: Entries, captured: map<Name, Entries>, prefix: Path, removes: seq<Change>)
    returns (scan: Scan)
    ensures scan == ScanRemoves(Scan(base, captured), Under(removes, prefix))
  {
    scan := Scan(base, captured);
    var depth := |prefix|;
    for i := 0 to |removes|
      invariant scan == ScanRemoves(Scan(base, captured), Under(removes[..i], prefix))
    {
      var p := removes[i].path;
      ghost var before, front := scan, Under(removes[..i], prefix);
      assert removes[..i + 1][..i] == removes[..i];
      if MatchesPrefix(p, prefix) {
        if |p| == depth + 1 {
          scan := scan.(builder := scan.builder - {p[depth]});
        } else if p[depth] !in scan.captured {
          scan := scan.(captured := scan.captured[p[depth] := Below(scan.builder, p[depth])]);
        }
        assert scan == ScanRemove(before, p[depth..]);
        assert (front + [Change(p[depth..], removes[i].file)])[..|front|] == front;
      }
    }
    assert removes[..|removes|] == removes;
  }
}
