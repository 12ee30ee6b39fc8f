/**
 The C++ rebuild against the Rust rebuild: what the C++ rebuild does to the flat
 file map, and exactly which change lists make the two ports produce the same
 files from every base tree.
 */
module PortAgreement {
  import opened Wrappers
  import opened Trees
  import opened Changes
  import opened Rebuild
  import opened PrefixRebuild

  // ---------------------------------------------------------------------
  // The C++ rebuild on the flat map
  // ---------------------------------------------------------------------

  /** A remove of `q` comes too late: the contents of `q` are picked up before it. */
  ghost predicate Held(ws: seq<Change>, rs: seq<Change>, q: Path)
  {
    ChangedBelow(ws, q) || BelowFirst(rs, q)
  }

  /** A remove at or above `p` takes effect. */
  ghost predicate Cut(ws: seq<Change>, rs: seq<Change>, p: Path)
  {
    exists r :: r in rs && r.path != [] && r.path <= p && !Held(ws, rs, r.path)
  }

  /** The file at `p` after a C++ rebuild:  a path below a write holds nothing;  a
      written path holds its last write, whatever is removed there or changed below
      it;  another path with a change below it is no file;  a path at or below a
      remove that takes effect holds nothing;  any other path is untouched. */
  ghost function CppOverlay(base: Tree, ws: seq<Change>, rs: seq<Change>, p: Path): Option<File>
  {
    if p == [] || ChangedAbove(ws, p) then None
    else if Touched(ws, p) then LastWrite(ws, p)
    else if ChangedBelow(ws, p) || ChangedBelow(rs, p) || Cut(ws, rs, p) then None
    else FileAt(base, p)
  }

  lemma {:induction false} WritesStay(ws: seq<Change>, n: Name)
    requires OnlyWrites(ws)
    ensures OnlyWrites(Sub(ws, n))
  {
    forall c | c in Sub(ws, n) ensures c.file.Some? { SubMember(ws, n, c.path, c.file); }
  }

  lemma {:induction false} RemovesStay(rs: seq<Change>, n: Name)
    requires OnlyRemoves(rs)
    ensures OnlyRemoves(Sub(rs, n))
  {
    forall c | c in Sub(rs, n) ensures c.file.None? { SubMember(rs, n, c.path, c.file); }
  }

  /** Order below `n` is order in the whole list. */
  lemma {:induction false} SubBelowFirst(rs: seq<Change>, n: Name, q: Path)
    requires q != []
    ensures BelowFirst(Sub(rs, n), q) <==> BelowFirst(rs, [n] + q)
  {
    if rs != [] {
      var front, c := rs[..|rs| - 1], rs[|rs| - 1];
      SubBelowFirst(front, n, q);
      SubTouched(front, n, q);
      ConsPrefix(n, q, c.path);
      if |c.path| >= 2 && c.path[0] == n {
        assert Sub(rs, n)[..|Sub(front, n)|] == Sub(front, n);
      }
    }
  }

  lemma {:induction false} HeldDeeper(ws: seq<Change>, rs: seq<Change>, n: Name, q: Path)
    ensures q != [] ==> (Held(Sub(ws, n), Sub(rs, n), q) <==> Held(ws, rs, [n] + q))
    ensures Held(ws, rs, [n]) <==> Sub(ws, n) != [] || BelowFirst(rs, [n])
  {
    SubChangedBelow(ws, n, q);
    if q != [] { SubBelowFirst(rs, n, q); }
  }

  lemma {:induction false} CutDeeper(ws: seq<Change>, rs: seq<Change>, n: Name, q: Path)
    requires OnlyRemoves(rs)
    ensures Cut(ws, rs, [n] + q) <==>
            (Removed(rs, [n]) && !Held(ws, rs, [n])) || (q != [] && Cut(Sub(ws, n), Sub(rs, n), q))
  {
    if r :| r in rs && r.path != [] && r.path <= [n] + q && !Held(ws, rs, r.path) {
      var rest := r.path[1..];
      assert r.path == [n] + rest;
      if rest == [] {
        assert r.path == [n] && r == Change([n], None);
      } else {
        SubMember(rs, n, rest, r.file);
        HeldDeeper(ws, rs, n, rest);
        assert rest <= q by { assert rest == r.path[1..] && q == ([n] + q)[1..]; }
        assert Change(rest, r.file) in Sub(rs, n);
      }
    }
    if Removed(rs, [n]) && !Held(ws, rs, [n]) {
      assert Change([n], None).path <= [n] + q;
    }
    if r :| r in Sub(rs, n) && r.path != [] && r.path <= q && !Held(Sub(ws, n), Sub(rs, n), r.path) {
      SubMember(rs, n, r.path, r.file);
      HeldDeeper(ws, rs, n, r.path);
      assert Change([n] + r.path, r.file).path <= [n] + q;
    }
  }

  /** Below a name that is not written, C++ sees the changes below that name, on the
      old contents unless the name was removed before they were picked up. */
  lemma {:induction false} CppOverlayDeeper(m: Entries, ws: seq<Change>, rs: seq<Change>, n: Name, q: Path)
    requires OnlyRemoves(rs) && q != [] && !Touched(ws, [n])
    ensures CppOverlay(Dir(m), ws, rs, [n] + q) ==
            if Removed(rs, [n]) && !Held(ws, rs, [n]) then CppOverlay(Dir(map[]), Sub(ws, n), Sub(rs, n), q)
            else CppOverlay(Dir(Below(m, n)), Sub(ws, n), Sub(rs, n), q)
  {
    SubChangedAbove(ws, n, q);
    SubTouched(ws, n, q);
    SubLastWrite(ws, n, q);
    SubChangedBelow(ws, n, q);
    SubChangedBelow(rs, n, q);
    CutDeeper(ws, rs, n, q);
    FileAtCons(m, n, q);
  }

  lemma {:induction false} CppOverlayName(m: Entries, ws: seq<Change>, rs: seq<Change>, n: Name)
    requires OnlyWrites(ws) && OnlyRemoves(rs)
    ensures FileAt(Dir(CppRebuilt(m, ws, rs)), [n]) == CppOverlay(Dir(m), ws, rs, [n])
  {
    CppAt(m, ws, rs, n);
    FileAtCons(CppRebuilt(m, ws, rs), n, []);
    FileAtCons(m, n, []);
    assert [n] + [] == [n];
    LastWriteIsMember(ws, [n]);
    SubChangedBelow(ws, n, []);
    SubChangedBelow(rs, n, []);
    NotBelowFirst(rs, [n]);
    CutDeeper(ws, rs, n, []);
  }

  /** The file at one path of a tree rebuilt by C++, for every base and every list of
      writes and of removes. */
  lemma {:induction false} CppOverlaysAt(m: Entries, ws: seq<Change>, rs: seq<Change>, p: Path)
    requires OnlyWrites(ws) && OnlyRemoves(rs)
    ensures FileAt(Dir(CppRebuilt(m, ws, rs)), p) == CppOverlay(Dir(m), ws, rs, p)
    decreases |p|
  {
    if |p| == 1 {
      assert p == [p[0]];
      CppOverlayName(m, ws, rs, p[0]);
    } else if p != [] {
      var n, q := p[0], p[1..];
      assert p == [n] + q;
      CppAt(m, ws, rs, n);
      FileAtCons(CppRebuilt(m, ws, rs), n, q);
      LastWriteIsMember(ws, [n]);
      if Touched(ws, [n]) {
        SubChangedAbove(ws, n, q);
      } else {
        CppOverlayDeeper(m, ws, rs, n, q);
        HeldDeeper(ws, rs, n, []);
        WritesStay(ws, n);
        RemovesStay(rs, n);
        CppOverlaysAt(if Removed(rs, [n]) && !Held(ws, rs, [n]) then map[] else Below(m, n), Sub(ws, n), Sub(rs, n), q);
        if Sub(ws, n) == [] && Sub(rs, n) != [] && !BelowFirst(rs, [n]) {
          RemoveBeforeCapture(rs, n);
        }
        NotBelowFirst(rs, [n]);
        SubChangedBelow(rs, n, []);
        FileAtCons(m, n, q);
      }
    }
  }

  // ---------------------------------------------------------------------
  // When the two ports agree
  // ---------------------------------------------------------------------

  /** Nothing changes below a write, and a write is not also removed; below an
      outermost remove nothing is written, and nothing removed earlier than it. */
  ghost predicate PortsAgree(ws: seq<Change>, rs: seq<Change>)
  {
    && (forall w | w in ws && w.path != [] :: !ChangedBelow(ws + rs, w.path) && !Removed(rs, w.path))
    && (forall r | r in rs && r.path != [] && !ChangedAbove(rs, r.path) :: !Held(ws, rs, r.path))
  }

  lemma {:induction false} LastWriteConcat(ws: seq<Change>, rs: seq<Change>, p: Path)
    requires OnlyRemoves(rs)
    ensures LastWrite(ws + rs, p) == LastWrite(ws, p)
  {
    if rs == [] {
      assert ws + rs == ws;
    } else {
      var front := rs[..|rs| - 1];
      assert (ws + rs)[..|ws + rs| - 1] == ws + front;
      LastWriteConcat(ws, front, p);
    }
  }

  lemma {:induction false} ConcatFacts(ws: seq<Change>, rs: seq<Change>, p: Path)
    requires OnlyWrites(ws) && OnlyRemoves(rs)
    ensures ChangedBelow(ws + rs, p) <==> ChangedBelow(ws, p) || ChangedBelow(rs, p)
    ensures ChangedAbove(ws + rs, p) <==> ChangedAbove(ws, p) || ChangedAbove(rs, p)
    ensures Removed(ws + rs, p) <==> Removed(rs, p)
    ensures Touched(ws + rs, p) <==> Touched(ws, p) || Removed(rs, p)
    ensures LastWrite(ws + rs, p) == LastWrite(ws, p)
  {
    LastWriteConcat(ws, rs, p);
    LastWriteIsMember(ws, p);
    TouchedAsLeaf(ws, p);
    TouchedAsLeaf(ws + rs, p);
  }

  /** Going up from a change ends at one with no change above it. */
  lemma {:induction false} Outermost(cs: seq<Change>, p: Path) returns (top: Change)
    requires p != [] && (Touched(cs, p) || ChangedAbove(cs, p))
    ensures top in cs && top.path != [] && top.path <= p && !ChangedAbove(cs, top.path)
    decreases |p|
  {
    if ChangedAbove(cs, p) {
      var up :| up in cs && up.path != [] && up.path < p;
      top := Outermost(cs, up.path);
    } else {
      top :| top in cs && top.path == p;
    }
  }

  lemma {:induction false} SameOverlay(base: Tree, ws: seq<Change>, rs: seq<Change>, p: Path)
    requires OnlyWrites(ws) && OnlyRemoves(rs) && PortsAgree(ws, rs)
    ensures CppOverlay(base, ws, rs, p) == Overlay(base, ws + rs, p)
  {
    ConcatFacts(ws, rs, p);
    if w :| w in ws && w.path != [] && w.path < p {
      assert w.path < p && forall c | c in ws + rs :: !(w.path < c.path);
      assert !ChangedBelow(ws + rs, p) && !Touched(ws + rs, p);
    } else if p != [] && (Removed(rs, p) || ChangedAbove(rs, p)) {
      assert Removed(rs, p) ==> Change(p, None).path == p;
      var top := Outermost(rs, p);
    }
  }

  // ---------------------------------------------------------------------
  // And when they do not
  // ---------------------------------------------------------------------

  /** A tree with the single file `f` at `p`. */
  function Nest(p: Path, f: File): Tree
  {
    if p == [] then Blob(f) else Dir(map[p[0] := Nest(p[1..], f)])
  }

  lemma {:induction false} NestHasFile(p: Path, f: File)
    ensures FileAt(Nest(p, f), p) == Some(f)
    decreases |p|
  {
    if p != [] {
      NestHasFile(p[1..], f);
    }
  }

  lemma {:induction false} LongName(p: Path) returns (k: nat)
    ensures forall n | n in p :: |n| <= k
  {
    k := 0;
    if p != [] {
      var rest := LongName(p[1..]);
      k := if |p[0]| > rest then |p[0]| else rest;
    }
  }

  lemma {:induction false} LongestName(cs: seq<Change>) returns (k: nat)
    ensures forall c, n | c in cs && n in c.path :: |n| <= k
  {
    k := 0;
    if cs != [] {
      var rest := LongestName(cs[1..]);
      var first := LongName(cs[0].path);
      k := if first > rest then first else rest;
    }
  }

  /** Some name occurs in no change. */
  lemma {:induction false} FreshName(cs: seq<Change>) returns (z: Name)
    ensures forall c | c in cs :: z !in c.path
  {
    var k := LongestName(cs);
    z := seq(k + 1, _ => 'z');
    assert |z| == k + 1;
  }

  /** A file with a fresh name in a directory whose only remove comes too late: C++
      keeps it. */
  lemma {:induction false} LateRemoveKeeps(ws: seq<Change>, rs: seq<Change>, r: Change, z: Name)
    returns (m: Entries, p: Path)
    requires OnlyRemoves(rs) && r in rs && r.path != [] && Held(ws, rs, r.path)
    requires !Touched(ws, r.path) && !ChangedAbove(ws, r.path) && !ChangedAbove(rs, r.path)
    requires forall c | c in ws || c in rs :: z !in c.path
    ensures p == r.path + [z] && CppOverlay(Dir(m), ws, rs, p).Some?
  {
    var f := File("", MODE_BLOB);
    p := r.path + [z];
    m := Nest(p, f).entries;
    NestHasFile(p, f);
    assert p[|r.path|] == z;
    forall c | (c in ws || c in rs) && (c.path <= p || p < c.path) ensures c.path <= r.path {
      assert z !in c.path;
      assert c.path <= p ==> c.path == p[..|c.path|];
    }
    assert !ChangedAbove(ws, p) && !Touched(ws, p);
    assert !ChangedBelow(ws, p) && !ChangedBelow(rs, p);
    forall c | c in rs && c.path != [] && c.path <= p ensures Held(ws, rs, c.path) {
      assert c.path == r.path || c.path < r.path;
    }
  }

  /** A path where the ports disagree, on some base, whenever the condition fails. */
  lemma {:induction false} Disagreement(ws: seq<Change>, rs: seq<Change>) returns (m: Entries, p: Path)
    requires OnlyWrites(ws) && OnlyRemoves(rs) && !PortsAgree(ws, rs)
    ensures CppOverlay(Dir(m), ws, rs, p) != Overlay(Dir(m), ws + rs, p)
  {
    m := map[];
    if w :| w in ws && w.path != [] && (ChangedBelow(ws + rs, w.path) || Removed(rs, w.path)) {
      var top := Outermost(ws, w.path);
      p := top.path;
      if top.path != w.path {
        assert w in ws + rs;
      }
      LastWriteIsMember(ws, p);
      ConcatFacts(ws, rs, p);
    } else {
      var r :| r in rs && r.path != [] && !ChangedAbove(rs, r.path) && Held(ws, rs, r.path);
      var z := FreshName(ws + rs);
      assert r == Change(r.path, None) && r in ws + rs;
      assert forall c | c in ws || c in rs :: c in ws + rs;
      m, p := LateRemoveKeeps(ws, rs, r, z);
      ConcatFacts(ws, rs, p);
      assert r.path < p && p[|r.path|] == z;
      assert forall c | c in ws + rs :: z !in c.path;
    }
  }

  /** The C++ and the Rust rebuild give the same files from every base tree. */
  ghost predicate SameRebuilds(ws: seq<Change>, rs: seq<Change>)
  {
    forall m: Entries :: SameFiles(Dir(CppRebuilt(m, ws, rs)), Dir(Rebuilt(m, ws + rs)))
  }

  /** The two rebuilds agree from every base if and only if `PortsAgree` holds of the
      change list. */
  lemma {:induction false} PortsAgreeExactly(ws: seq<Change>, rs: seq<Change>)
    requires OnlyWrites(ws) && OnlyRemoves(rs)
    ensures PortsAgree(ws, rs) <==> SameRebuilds(ws, rs)
  {
    if PortsAgree(ws, rs) {
      forall m: Entries, p: Path
        ensures FileAt(Dir(CppRebuilt(m, ws, rs)), p) == FileAt(Dir(Rebuilt(m, ws + rs)), p)
      {
        CppOverlaysAt(m, ws, rs, p);
        RebuildOverlaysAt(m, ws + rs, p);
        SameOverlay(Dir(m), ws, rs, p);
      }
    } else {
      var m, p := Disagreement(ws, rs);
      CppOverlaysAt(m, ws, rs, p);
      RebuildOverlaysAt(m, ws + rs, p);
      assert !SameFiles(Dir(CppRebuilt(m, ws, rs)), Dir(Rebuilt(m, ws + rs)));
    }
  }

  /** In particular they agree on changes of which no two are nested and none is
      both written and removed. */
  lemma {:induction false} IncomparableChangesAgree(ws: seq<Change>, rs: seq<Change>)
    requires OnlyWrites(ws) && OnlyRemoves(rs) && Unnested(ws + rs)
    requires forall w | w in ws :: !Removed(rs, w.path)
    ensures PortsAgree(ws, rs)
  {
    forall c | c in ws + rs ensures !ChangedBelow(ws + rs, c.path) && !Held(ws, rs, c.path) {
      ConcatFacts(ws, rs, c.path);
      NotBelowFirst(rs, c.path);
    }
    assert forall c | c in ws || c in rs :: c in ws + rs;
  }

  // ---------------------------------------------------------------------
  // Empty directories
  // ---------------------------------------------------------------------

  /** C++ takes a name out of a directory and keeps the directory, even when nothing
      is left in it. */
  lemma {:induction false} CppKeepsDirectory(m: Entries, d: Path, x: Name, e: Entries)
    requires At(Dir(m), d) == Some(Dir(e))
    ensures At(Dir(CppRebuilt(m, [], [Change(d + [x], None)])), d) == Some(Dir(e - {x}))
    decreases |d|
  {
    var rs := [Change(d + [x], None)];
    assert rs[..0] == [];
    if d == [] {
      assert d + [x] == [x];
      forall n ensures Get(CppRebuilt(m, [], rs), n) == Get(m - {x}, n) {
        CppAt(m, [], rs, n);
        assert Change([n], None) == rs[0] <==> n == x;
      }
      SameGets(CppRebuilt(m, [], rs), m - {x});
    } else {
      var n, q := d[0], d[1..];
      assert rs[0].path[1..] == q + [x] && [n] < rs[0].path;
      assert Sub(rs, n) == [Change(q + [x], None)];
      CppAt(m, [], rs, n);
      CppKeepsDirectory(m[n].entries, q, x, e);
    }
  }

  /** So removing the only entry of a directory below the root leaves a base on which
      the identity test of the pruning ports is wrong about some change list. */
  lemma {:induction false} CppLeavesEmptyDirectory(m: Entries, d: Path, x: Name, t: Tree)
    requires d != [] && At(Dir(m), d) == Some(Dir(map[x := t]))
    ensures var left := CppRebuilt(m, [], [Change(d + [x], None)]);
            && !Canonical(left)
            && exists cs: seq<Change> :: Rebuilt(left, cs) != left && NothingChanges(left, cs)
  {
    var left := CppRebuilt(m, [], [Change(d + [x], None)]);
    CppKeepsDirectory(m, d, x, map[x := t]);
    assert map[x := t] - {x} == map[];
    if Canonical(left) {
      SolidBelow(left[d[0]], d[1..]);
    }
    SkipExactBases(left);
    forall cs: seq<Change> | Rebuilt(left, cs) == left ensures NothingChanges(left, cs) {
      RebuildOverlays(left, cs);
    }
  }

  lemma {:induction false} SolidBelow(t: Tree, d: Path)
    requires Solid(t) && At(t, d).Some?
    ensures Solid(At(t, d).value)
    decreases |d|
  {
    if d != [] { SolidBelow(t.entries[d[0]], d[1..]); }
  }
}
