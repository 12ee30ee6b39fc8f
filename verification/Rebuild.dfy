/**
 The group-by-segment tree rebuild of the Rust and Python ports.
 */
module Rebuild {
  import opened Wrappers
  import opened Trees
  import opened Changes

  // ---------------------------------------------------------------------
  // The rebuild, level by level
  // ---------------------------------------------------------------------

  /** What the name `n` holds after the changes that end at this level. */
  function LeafStep(m: Entries, cs: seq<Change>, n: Name): Option<Tree>
  {
    if Removed(cs, [n]) then None
    else match LastWrite(cs, [n])
      case Some(f) => Some(Blob(f))
      case None => Get(m, n)
  }

  function EntriesOf(t: Option<Tree>): Entries
  {
    if t.Some? && t.value.Dir? then t.value.entries else map[]
  }

  function Pruned(m: Entries): Option<Tree>
  {
    if m == map[] then None else Some(Dir(m))
  }

  /** What the name `n` holds after the whole rebuild. */
  function Child(m: Entries, cs: seq<Change>, n: Name): Option<Tree>
    decreases Weight(cs), 0
  {
    var leaf := LeafStep(m, cs, n);
    var sub := Sub(cs, n);
    if sub == [] then leaf
    else
      SubIsLighter(cs, n);
      Pruned(Rebuilt(EntriesOf(leaf), sub))
  }

  function Heads(cs: seq<Change>): set<Name>
  {
    set c | c in cs && c.path != [] :: c.path[0]
  }

  function Rebuilt(m: Entries, cs: seq<Change>): Entries
    decreases Weight(cs), 1
  {
    map n | n in m.Keys + Heads(cs) && Child(m, cs, n).Some? :: Child(m, cs, n).value
  }

  lemma {:induction false} UntouchedName(m: Entries, cs: seq<Change>, n: Name)
    ensures n in Heads(cs) || (Sub(cs, n) == [] && LeafStep(m, cs, n) == Get(m, n))
  {
    if Sub(cs, n) != [] {
      SubChangedBelow(cs, n, []);
      var c :| c in cs && [n] < c.path;
      assert c.path[0] in Heads(cs);
    } else if LeafStep(m, cs, n) != Get(m, n) {
      LastWriteIsMember(cs, [n]);
      var f :| Change([n], f) in cs;
      assert Change([n], f).path[0] in Heads(cs);
    }
  }

  lemma {:induction false} RebuiltAt(m: Entries, cs: seq<Change>, n: Name)
    ensures Get(Rebuilt(m, cs), n) == Child(m, cs, n)
  {
    UntouchedName(m, cs, n);
  }

  // ---------------------------------------------------------------------
  // Refinement of the flat map
  // ---------------------------------------------------------------------

  lemma {:induction false} RebuiltDeeper(m: Entries, cs: seq<Change>, n: Name, q: Path)
    requires q != []
    ensures FileAt(Dir(Rebuilt(m, cs)), [n] + q) ==
            if Sub(cs, n) == [] then FileAt(Dir(EntriesOf(LeafStep(m, cs, n))), q)
            else FileAt(Dir(Rebuilt(EntriesOf(LeafStep(m, cs, n)), Sub(cs, n))), q)
  {
    RebuiltAt(m, cs, n);
    FileAtCons(Rebuilt(m, cs), n, q);
  }

  /** The file at one path of a rebuilt tree, for every base and every change list. */
  lemma {:induction false} RebuildOverlaysAt(m: Entries, cs: seq<Change>, p: Path)
    ensures FileAt(Dir(Rebuilt(m, cs)), p) == Overlay(Dir(m), cs, p)
    decreases |p|
  {
    if |p| == 1 {
      assert p == [p[0]];
      RebuildOverlaysName(m, cs, p[0]);
    } else if p != [] {
      var n, q := p[0], p[1..];
      assert p == [n] + q;
      var inner := EntriesOf(LeafStep(m, cs, n));
      assert inner == if Touched(cs, [n]) then map[] else Below(m, n) by { TouchedAsLeaf(cs, [n]); }
      OverlayDeeper(m, cs, n, q);
      RebuildOverlaysAt(inner, Sub(cs, n), q);
      RebuiltDeeper(m, cs, n, q);
    }
  }

  lemma {:induction false} RebuildOverlaysName(m: Entries, cs: seq<Change>, n: Name)
    ensures FileAt(Dir(Rebuilt(m, cs)), [n]) == Overlay(Dir(m), cs, [n])
  {
    RebuiltAt(m, cs, n);
    FileAtCons(Rebuilt(m, cs), n, []);
    FileAtCons(m, n, []);
    assert [n] + [] == [n];
    SubChangedBelow(cs, n, []);
    TouchedAsLeaf(cs, [n]);
  }

  /** Rebuild refines the flat map. */
  lemma {:induction false} RebuildOverlays(m: Entries, cs: seq<Change>)
    ensures forall p: Path :: FileAt(Dir(Rebuilt(m, cs)), p) == Overlay(Dir(m), cs, p)
  {
    forall p: Path { RebuildOverlaysAt(m, cs, p); }
  }

  /** The same as maps: the rebuilt tree flattens to the files of the overlay. */
  lemma {:induction false} RebuildRefinesFlatMap(m: Entries, cs: seq<Change>)
    ensures var flat := Flatten(Dir(Rebuilt(m, cs)));
            forall p: Path :: (if p in flat then Some(flat[p]) else None) == Overlay(Dir(m), cs, p)
  {
    RebuildOverlays(m, cs);
    FlattenIsFileAt(Dir(Rebuilt(m, cs)));
  }

  // ---------------------------------------------------------------------
  // Canonical trees and the skip-commit test
  // ---------------------------------------------------------------------

  lemma {:induction false} RebuildKeepsCanonical(m: Entries, cs: seq<Change>)
    requires Canonical(m)
    ensures Canonical(Rebuilt(m, cs))
    decreases Weight(cs)
  {
    forall n | n in Rebuilt(m, cs) ensures Solid(Rebuilt(m, cs)[n]) {
      RebuiltAt(m, cs, n);
      if Sub(cs, n) != [] {
        SubIsLighter(cs, n);
        RebuildKeepsCanonical(EntriesOf(LeafStep(m, cs, n)), Sub(cs, n));
      }
    }
  }

  /** No file's content, mode or path changes. */
  ghost predicate NothingChanges(m: Entries, cs: seq<Change>)
  {
    forall p: Path :: Overlay(Dir(m), cs, p) == FileAt(Dir(m), p)
  }

  /** On a canonical base the identity test on trees fires exactly when no
      file's content, mode or path changed. */
  lemma {:induction false} SkipIsNoChange(m: Entries, cs: seq<Change>)
    requires Canonical(m)
    ensures Rebuilt(m, cs) == m <==> NothingChanges(m, cs)
  {
    RebuildOverlays(m, cs);
    RebuildKeepsCanonical(m, cs);
    if NothingChanges(m, cs) {
      CanonicalIsDetermined(Rebuilt(m, cs), m);
    }
  }

  lemma {:induction false} FindEmptyDirectory(t: Tree) returns (d: Path)
    requires !Solid(t)
    ensures At(t, d) == Some(Dir(map[]))
  {
    if t.entries == map[] {
      d := [];
    } else {
      var n :| n in t.entries && !Solid(t.entries[n]);
      var q := FindEmptyDirectory(t.entries[n]);
      d := [n] + q;
      assert d[1..] == q;
    }
  }

  lemma {:induction false} RemoveFromNothing(x: Name)
    ensures Rebuilt(map[], [Change([x], None)]) == map[]
  {
    var cs := [Change([x], None)];
    assert cs[..0] == [];
    assert Sub(cs, x) == [] && cs[0] in cs;
    assert forall n | n in Heads(cs) :: n == x;
  }

  /** Removing a name that is not there from an empty directory prunes it. */
  lemma {:induction false} EmptyDirectoryPruned(m: Entries, n: Name, d: Path, x: Name)
    requires At(Dir(m), [n] + d) == Some(Dir(map[]))
    ensures Child(m, [Change([n] + d + [x], None)], n) != Get(m, n)
    decreases |d|
  {
    var cs, sub := [Change([n] + d + [x], None)], [Change(d + [x], None)];
    assert Sub(cs, n) == sub by {
      assert cs[..0] == [] && cs[0].path[1..] == d + [x];
    }
    assert ([n] + d)[1..] == d;
    assert LeafStep(m, cs, n) == Get(m, n) by {
      LastWriteIsMember(cs, [n]);
      assert Change([n], None) != cs[0];
    }
    var inner := m[n].entries;
    if d == [] {
      assert d + [x] == [x];
      RemoveFromNothing(x);
    } else {
      assert d == [d[0]] + d[1..];
      EmptyDirectoryPruned(inner, d[0], d[1..], x);
      RebuiltAt(inner, sub, d[0]);
    }
  }

  /** A remove inside an empty directory changes no file. */
  lemma {:induction false} EmptyDirectoryHasNoFile(m: Entries, d: Path, x: Name)
    requires At(Dir(m), d) == Some(Dir(map[]))
    ensures NothingChanges(m, [Change(d + [x], None)])
  {
    var r := d + [x];
    forall p: Path ensures Overlay(Dir(m), [Change(r, None)], p) == FileAt(Dir(m), p) {
      OverlayOneRemove(Dir(m), r, p);
      if p < r {
        assert d == p + d[|p|..];
        AtConcat(Dir(m), p, d[|p|..]);
      } else if r <= p {
        assert p == d + p[|d|..];
        AtConcat(Dir(m), d, p[|d|..]);
      }
    }
  }

  /** The identity test is right about every change list exactly on the canonical
      bases: an empty directory below the root always has a change list that prunes
      it and touches no file. */
  lemma {:induction false} SkipExactBases(m: Entries)
    ensures Canonical(m) <==> forall cs: seq<Change> :: Rebuilt(m, cs) == m <==> NothingChanges(m, cs)
  {
    if Canonical(m) {
      forall cs: seq<Change> { SkipIsNoChange(m, cs); }
    } else {
      var n :| n in m && !Solid(m[n]);
      var d := FindEmptyDirectory(m[n]);
      assert ([n] + d)[1..] == d;
      var cs := [Change([n] + d + ["x"], None)];
      EmptyDirectoryPruned(m, n, d, "x");
      EmptyDirectoryHasNoFile(m, [n] + d, "x");
      RebuiltAt(m, cs, n);
      assert Rebuilt(m, cs) != m && NothingChanges(m, cs);
    }
  }

  // ---------------------------------------------------------------------
  // The Python port
  // ---------------------------------------------------------------------

  /** Python descends into the subdirectory as it was in the base, not as the
      changes that end at this level left it. */
  function PythonChild(m: Entries, cs: seq<Change>, n: Name): Option<Tree>
    decreases Weight(cs), 0
  {
    if Sub(cs, n) == [] then LeafStep(m, cs, n)
    else
      SubIsLighter(cs, n);
      Pruned(PythonRebuilt(Below(m, n), Sub(cs, n)))
  }

  function PythonRebuilt(m: Entries, cs: seq<Change>): Entries
    decreases Weight(cs), 1
  {
    map n | n in m.Keys + Heads(cs) && PythonChild(m, cs, n).Some? :: PythonChild(m, cs, n).value
  }

  lemma {:induction false} SubUnnested(cs: seq<Change>, n: Name)
    requires Unnested(cs)
    ensures Unnested(Sub(cs, n))
    ensures Sub(cs, n) != [] ==> !Touched(cs, [n])
  {
    forall c, d | c in Sub(cs, n) && d in Sub(cs, n) ensures c.path != [] && !(c.path < d.path) {
      SubMember(cs, n, c.path, c.file);
      SubMember(cs, n, d.path, d.file);
      var c', d' := Change([n] + c.path, c.file), Change([n] + d.path, d.file);
      assert c' in cs && d' in cs && !(c'.path < d'.path);
    }
    SubChangedBelow(cs, n, []);
  }

  /** With no change below another, Python builds the very tree Rust builds. */
  lemma {:induction false} PythonAgreesWithRust(m: Entries, cs: seq<Change>)
    requires Unnested(cs)
    ensures PythonRebuilt(m, cs) == Rebuilt(m, cs)
    decreases Weight(cs)
  {
    forall n ensures PythonChild(m, cs, n) == Child(m, cs, n) {
      if Sub(cs, n) != [] {
        SubUnnested(cs, n);
        TouchedAsLeaf(cs, [n]);
        SubIsLighter(cs, n);
        PythonAgreesWithRust(Below(m, n), Sub(cs, n));
      }
    }
  }

  // ---------------------------------------------------------------------
  // The rebuild as it is carried out
  // ---------------------------------------------------------------------

  /** Groups the changes by first segment, edits the entries of this level and
      rebuilds each changed subdirectory. */
  method RebuildTree(base: Entries, changes: seq<Change>) returns (entries: Entries)
    ensures entries == Rebuilt(base, changes)
    decreases Weight(changes), 1
  {
    var leafWrites, leafRemoves, subWrites := GroupBySegment(changes);
    var edited := ApplyLeaves(base, leafWrites, leafRemoves);
    assert forall n :: Get(edited, n) == LeafStep(base, changes, n);
    forall dir | dir in subWrites ensures Weight(subWrites[dir]) < Weight(changes) {
      SubIsLighter(changes, dir);
    }
    entries := RebuildSubdirectories(edited, subWrites, Weight(changes));
    forall n ensures Get(entries, n) == Get(Rebuilt(base, changes), n) {
      RebuiltAt(base, changes, n);
    }
    SameGets(entries, Rebuilt(base, changes));
  }

  method RebuildSubdirectories(edited: Entries, subWrites: map<Name, seq<Change>>, ghost bound: nat)
    returns (entries: Entries)
    requires forall dir | dir in subWrites :: Weight(subWrites[dir]) < bound
    ensures forall n :: Get(entries, n) ==
              if n in subWrites then Pruned(Rebuilt(EntriesOf(Get(edited, n)), subWrites[n])) else Get(edited, n)
    decreases bound, 0
  {
    entries := edited;
    var dirs := subWrites.Keys;
    while dirs != {}
      invariant dirs <= subWrites.Keys
      invariant forall n :: Get(entries, n) ==
                  if n in subWrites && n !in dirs then Pruned(Rebuilt(EntriesOf(Get(edited, n)), subWrites[n]))
                  else Get(edited, n)
      decreases dirs
    {
      var dir :| dir in dirs;
      dirs := dirs - {dir};
      var existing;
      existing, entries := OpenSubtree(entries, dir);
      var subtree := RebuildTree(existing, subWrites[dir]);
      entries := PutSubtree(entries, dir, subtree);
    }
  }

  /** The entries to descend into; a file in the way is dropped. */
  method OpenSubtree(entries: Entries, dir: Name) returns (existing: Entries, cleared: Entries)
    ensures existing == EntriesOf(Get(entries, dir))
    ensures forall n | n != dir :: Get(cleared, n) == Get(entries, n)
  {
    existing, cleared := EntriesOf(Get(entries, dir)), entries;
    if dir in entries && entries[dir].Blob? {
      cleared := entries - {dir};
    }
  }

  /** Stores a rebuilt subdirectory, or drops the name when nothing is left in it. */
  method PutSubtree(entries: Entries, dir: Name, subtree: Entries) returns (r: Entries)
    ensures forall n :: Get(r, n) == if n == dir then Pruned(subtree) else Get(entries, n)
  {
    if subtree == map[] {
      r := entries - {dir};
    } else {
      r := entries[dir := Dir(subtree)];
    }
  }

  method ApplyLeaves(base: Entries, leafWrites: map<Name, File>, leafRemoves: seq<Name>) returns (entries: Entries)
    ensures forall n :: Get(entries, n) ==
              if n in leafRemoves then None
              else if n in leafWrites then Some(Blob(leafWrites[n]))
              else Get(base, n)
  {
    entries := base;
    var names := leafWrites.Keys;
    while names != {}
      invariant names <= leafWrites.Keys
      invariant forall n :: Get(entries, n) ==
                  if n in leafWrites && n !in names then Some(Blob(leafWrites[n])) else Get(base, n)
      decreases names
    {
      var n :| n in names;
      names := names - {n};
      entries := entries[n := Blob(leafWrites[n])];
    }
    ghost var written := entries;
    for i := 0 to |leafRemoves|
      invariant forall n :: Get(entries, n) == if n in leafRemoves[..i] then None else Get(written, n)
    {
      entries := entries - {leafRemoves[i]};
    }
  }

  lemma {:induction false} SameGets(a: Entries, b: Entries)
    requires forall n :: Get(a, n) == Get(b, n)
    ensures a == b
  {
    forall n ensures n in a <==> n in b { assert Get(a, n) == Get(b, n); }
    forall n | n in a ensures a[n] == b[n] { assert Get(a, n) == Get(b, n); }
  }

  /** One more change, as seen by one name. */
  lemma {:induction false} GroupStep(cs: seq<Change>, c: Change, n: Name)
    ensures LastWrite(cs + [c], [n]) == if c.path == [n] && c.file.Some? then c.file else LastWrite(cs, [n])
    ensures Removed(cs + [c], [n]) <==> Removed(cs, [n]) || (c.path == [n] && c.file.None?)
    ensures Sub(cs + [c], n) ==
            if |c.path| >= 2 && c.path[0] == n then Sub(cs, n) + [Change(c.path[1..], c.file)] else Sub(cs, n)
  {
    assert (cs + [c])[..|cs|] == cs;
  }

  /** Splits the changes by first segment: writes and removes that end here, and
      the list of changes that go on, per subdirectory and in order. */
  method GroupBySegment(changes: seq<Change>)
    returns (leafWrites: map<Name, File>, leafRemoves: seq<Name>, subWrites: map<Name, seq<Change>>)
    ensures forall n :: (if n in leafWrites then Some(leafWrites[n]) else None) == LastWrite(changes, [n])
    ensures forall n :: n in leafRemoves <==> Removed(changes, [n])
    ensures forall n :: n in subWrites <==> Sub(changes, n) != []
    ensures forall n | n in subWrites :: subWrites[n] == Sub(changes, n)
  {
    leafWrites, leafRemoves, subWrites := map[], [], map[];
    for i := 0 to |changes|
      invariant forall n :: (if n in leafWrites then Some(leafWrites[n]) else None) == LastWrite(changes[..i], [n])
      invariant forall n :: n in leafRemoves <==> Removed(changes[..i], [n])
      invariant forall n :: n in subWrites <==> Sub(changes[..i], n) != []
      invariant forall n | n in subWrites :: subWrites[n] == Sub(changes[..i], n)
    {
      var c := changes[i];
      assert changes[..i + 1] == changes[..i] + [c];
      forall n { GroupStep(changes[..i], c, n); }
      if |c.path| >= 2 {
        var dir, rest := c.path[0], c.path[1..];
        var grouped := if dir in subWrites then subWrites[dir] else [];
        subWrites := subWrites[dir := grouped + [Change(rest, c.file)]];
      } else if |c.path| == 1 {
        assert c.path == [c.path[0]];
        match c.file
        case Some(f) => leafWrites := leafWrites[c.path[0] := f];
        case None => leafRemoves := leafRemoves + [c.path[0]];
      }
    }
    assert changes[..|changes|] == changes;
  }
}
