/**
 Lists of path changes, and what such a list does to the flat file map.

 `Overlay` is the reference meaning of a change list.  It speaks only of
 paths and files, never of directories, grouping or recursion.
 */
module Changes {
  import opened Wrappers
  import opened Trees

  /** Write `file` at `path`, or remove whatever is there when `file` is `None`. */
  datatype Change = Change(path: Path, file: Option<File>)

  ghost predicate Touched(cs: seq<Change>, p: Path)
  {
    exists c :: c in cs && c.path == p
  }

  predicate Removed(cs: seq<Change>, p: Path)
  {
    Change(p, None) in cs
  }

  /** The last write to `p`. */
  function LastWrite(cs: seq<Change>, p: Path): Option<File>
  {
    if cs == [] then None
    else
      var c := cs[|cs| - 1];
      if c.path == p && c.file.Some? then c.file else LastWrite(cs[..|cs| - 1], p)
  }

  /** Some change lies strictly above `p`.  The root is never a changed path. */
  ghost predicate ChangedAbove(cs: seq<Change>, p: Path)
  {
    exists c :: c in cs && c.path != [] && c.path < p
  }

  /** Some change lies strictly below `p`. */
  ghost predicate ChangedBelow(cs: seq<Change>, p: Path)
  {
    exists c :: c in cs && p < c.path
  }

  /** The file at `p` after the changes:  a path with a change below it is no
      file;  a changed path holds its last write unless it is also removed;  a
      path below a changed path holds nothing;  any other path is untouched. */
  ghost function Overlay(base: Tree, cs: seq<Change>, p: Path): Option<File>
  {
    if p == [] || ChangedBelow(cs, p) then None
    else if Touched(cs, p) then (if Removed(cs, p) then None else LastWrite(cs, p))
    else if ChangedAbove(cs, p) then None
    else FileAt(base, p)
  }

  /** No two changes lie on one root-to-leaf line, except at the same path. */
  predicate Unnested(cs: seq<Change>)
  {
    forall c, d | c in cs && d in cs :: c.path != [] && !(c.path < d.path)
  }

  // ---------------------------------------------------------------------
  // Descending one name
  // ---------------------------------------------------------------------

  /** The changes strictly below the name `n`, made relative to it, in order. */
  function Sub(cs: seq<Change>, n: Name): seq<Change>
  {
    if cs == [] then []
    else
      var c := cs[|cs| - 1];
      var rest := Sub(cs[..|cs| - 1], n);
      if |c.path| >= 2 && c.path[0] == n then rest + [Change(c.path[1..], c.file)] else rest
  }

  /** The total length of the changed paths: what each descent uses up. */
  function Weight(cs: seq<Change>): nat
  {
    if cs == [] then 0 else Weight(cs[..|cs| - 1]) + |cs[|cs| - 1].path|
  }

  lemma {:induction false} SubIsLighter(cs: seq<Change>, n: Name)
    ensures Weight(Sub(cs, n)) + |Sub(cs, n)| <= Weight(cs)
  {
    if cs != [] {
      var front, c := cs[..|cs| - 1], cs[|cs| - 1];
      SubIsLighter(front, n);
      if |c.path| >= 2 && c.path[0] == n {
        assert Sub(cs, n)[..|Sub(front, n)|] == Sub(front, n);
      }
    }
  }

  lemma {:induction false} SubMember(cs: seq<Change>, n: Name, q: Path, f: Option<File>)
    ensures Change(q, f) in Sub(cs, n) <==> q != [] && Change([n] + q, f) in cs
  {
    if cs != [] {
      var front, c := cs[..|cs| - 1], cs[|cs| - 1];
      assert cs == front + [c];
      SubMember(front, n, q, f);
      assert ([n] + q)[1..] == q;
      if |c.path| >= 2 && c.path[0] == n {
        assert c.path == [n] + c.path[1..];
      }
    }
  }

  lemma {:induction false} SubLastWrite(cs: seq<Change>, n: Name, q: Path)
    requires q != []
    ensures LastWrite(Sub(cs, n), q) == LastWrite(cs, [n] + q)
  {
    if cs != [] {
      var front, c := cs[..|cs| - 1], cs[|cs| - 1];
      SubLastWrite(front, n, q);
      assert ([n] + q)[1..] == q;
      if |c.path| >= 2 && c.path[0] == n {
        assert c.path == [n] + c.path[1..];
        assert Sub(cs, n)[..|Sub(front, n)|] == Sub(front, n);
      }
    }
  }

  lemma {:induction false} ConsPrefix(n: Name, q: Path, p: Path)
    ensures [n] + q < p <==> p != [] && p[0] == n && q < p[1..]
    ensures p != [] ==> (p < [n] + q <==> p[0] == n && p[1..] < q)
  {
    if p != [] && p[0] == n {
      assert p == [n] + p[1..];
    }
  }

  lemma {:induction false} SubTouched(cs: seq<Change>, n: Name, q: Path)
    requires q != []
    ensures Touched(Sub(cs, n), q) <==> Touched(cs, [n] + q)
    ensures Removed(Sub(cs, n), q) <==> Removed(cs, [n] + q)
  {
    forall f { SubMember(cs, n, q, f); }
    if Touched(cs, [n] + q) {
      var c :| c in cs && c.path == [n] + q;
      assert Change(q, c.file) in Sub(cs, n);
    }
    if Touched(Sub(cs, n), q) {
      var c :| c in Sub(cs, n) && c.path == q;
      assert Change([n] + q, c.file) in cs;
    }
  }

  lemma {:induction false} SubChangedBelow(cs: seq<Change>, n: Name, q: Path)
    ensures q != [] ==> (ChangedBelow(Sub(cs, n), q) <==> ChangedBelow(cs, [n] + q))
    ensures Sub(cs, n) != [] <==> ChangedBelow(cs, [n])
  {
    if c :| c in cs && [n] + q < c.path {
      ConsPrefix(n, q, c.path);
      assert c.path == [n] + c.path[1..];
      SubMember(cs, n, c.path[1..], c.file);
      assert Change(c.path[1..], c.file) in Sub(cs, n);
    }
    if c :| c in cs && [n] < c.path {
      assert c.path == [n] + c.path[1..];
      SubMember(cs, n, c.path[1..], c.file);
      assert Change(c.path[1..], c.file) in Sub(cs, n);
    }
    if c :| c in Sub(cs, n) && q < c.path {
      SubMember(cs, n, c.path, c.file);
      ConsPrefix(n, q, [n] + c.path);
      assert ([n] + c.path)[1..] == c.path;
      assert Change([n] + c.path, c.file) in cs;
    }
    if Sub(cs, n) != [] {
      var c := Sub(cs, n)[0];
      SubMember(cs, n, c.path, c.file);
      assert Change([n] + c.path, c.file) in cs;
    }
  }

  lemma {:induction false} SubChangedAbove(cs: seq<Change>, n: Name, q: Path)
    requires q != []
    ensures ChangedAbove(cs, [n] + q) <==> Touched(cs, [n]) || ChangedAbove(Sub(cs, n), q)
  {
    if c :| c in cs && c.path != [] && c.path < [n] + q {
      ConsPrefix(n, q, c.path);
      assert c.path == [n] + c.path[1..];
      if c.path[1..] == [] {
        assert c.path == [n];
      } else {
        SubMember(cs, n, c.path[1..], c.file);
        assert Change(c.path[1..], c.file) in Sub(cs, n);
      }
    }
    if c :| c in cs && c.path == [n] {
      assert c.path < [n] + q;
    }
    if c :| c in Sub(cs, n) && c.path != [] && c.path < q {
      SubMember(cs, n, c.path, c.file);
      assert Change([n] + c.path, c.file) in cs;
      assert [n] + c.path < [n] + q;
    }
  }

  lemma {:induction false} LastWriteIsMember(cs: seq<Change>, p: Path)
    ensures LastWrite(cs, p).Some? ==> Change(p, LastWrite(cs, p)) in cs
    ensures LastWrite(cs, p).None? ==> forall c | c in cs && c.path == p :: c.file.None?
  {
    if cs != [] {
      LastWriteIsMember(cs[..|cs| - 1], p);
      assert cs == cs[..|cs| - 1] + [cs[|cs| - 1]];
    }
  }

  /** Unless removed, a touched path has a last write. */
  lemma {:induction false} TouchedAsLeaf(cs: seq<Change>, p: Path)
    ensures Touched(cs, p) <==> Removed(cs, p) || LastWrite(cs, p).Some?
  {
    LastWriteIsMember(cs, p);
    if c :| c in cs && c.path == p {
      assert c.file.None? ==> c == Change(p, None);
    }
    if Removed(cs, p) {
      assert Change(p, None).path == p;
    }
    if LastWrite(cs, p).Some? {
      assert Change(p, LastWrite(cs, p)).path == p;
    }
  }

  /** Looking one name down through an overlay: a change at the name itself has
      emptied what lay below it. */
  lemma {:induction false} OverlayDeeper(m: Entries, cs: seq<Change>, n: Name, q: Path)
    requires q != []
    ensures Overlay(Dir(m), cs, [n] + q) ==
            Overlay(Dir(if Touched(cs, [n]) then map[] else Below(m, n)), Sub(cs, n), q)
  {
    SubChangedBelow(cs, n, q);
    SubTouched(cs, n, q);
    SubLastWrite(cs, n, q);
    SubChangedAbove(cs, n, q);
    FileAtCons(m, n, q);
  }

  /** A single remove takes away what lies at, above and below its path. */
  lemma {:induction false} OverlayOneRemove(base: Tree, r: Path, p: Path)
    requires r != []
    ensures Overlay(base, [Change(r, None)], p) == if p == [] || p <= r || r <= p then None else FileAt(base, p)
  {
    var cs := [Change(r, None)];
    assert cs[0] in cs;
    LastWriteIsMember(cs, p);
  }
}
