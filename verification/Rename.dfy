/**
 Renaming a file or a directory: a list of removes below the old path and writes
 below the new one, applied by the tree rebuild.
 */
module Rename {
  import opened Wrappers
  import opened Trees
  import opened Changes
  import opened Rebuild

  predicate Incomparable(a: Path, b: Path)
  {
    !(a <= b) && !(b <= a)
  }

  /** What a rename puts in front of a relative path and a slash: the root is the empty
      string, so its files are addressed below an empty name. */
  function Stem(p: Path): Path
  {
    if p == [] then [""] else p
  }

  /** The changes of a rename: each file at or below `src` is removed there and
      written, with the same object and mode, at the same place below `dest`. */
  ghost predicate IsRename(base: Tree, src: Path, dest: Path, cs: seq<Change>)
  {
    forall c :: c in cs <==> RemovesOld(base, src, c) || WritesNew(base, src, dest, c)
  }

  ghost predicate RemovesOld(base: Tree, src: Path, c: Change)
  {
    Stem(src) <= c.path && c.file.None? && FileAt(base, src + c.path[|Stem(src)|..]).Some?
  }

  ghost predicate WritesNew(base: Tree, src: Path, dest: Path, c: Change)
  {
    Stem(dest) <= c.path && c.file.Some? && FileAt(base, src + c.path[|Stem(dest)|..]) == c.file
  }

  /** The files after a rename. */
  ghost function Moved(base: Tree, src: Path, dest: Path, p: Path): Option<File>
  {
    if dest <= p then FileAt(base, src + p[|dest|..])
    else if Stem(src) <= p then None
    else FileAt(base, p)
  }

  /** Nothing at `p`, nothing below it, and no file where a directory above it must be. */
  ghost predicate Vacant(base: Tree, p: Path)
  {
    && (forall q | p <= q :: FileAt(base, q) == None)
    && (forall a | a < p :: FileAt(base, a) == None)
  }

  // ---------------------------------------------------------------------
  // There
  // ---------------------------------------------------------------------

  lemma {:induction false} SameStem(p: Path, a: Path, b: Path)
    requires a <= p && b <= p
    ensures a <= b || b <= a
  {
    if |a| <= |b| {
      assert p[..|b|][..|a|] == p[..|a|];
    } else {
      assert p[..|a|][..|b|] == p[..|b|];
    }
  }

  lemma {:induction false} AtDestination(m: Entries, src: Path, dest: Path, cs: seq<Change>, p: Path)
    requires dest != [] && Incomparable(Stem(src), dest) && Vacant(Dir(m), dest) && IsRename(Dir(m), src, dest, cs)
    requires dest <= p
    ensures Overlay(Dir(m), cs, p) == FileAt(Dir(m), src + p[|dest|..])
  {
    var base := Dir(m);
    var origin := src + p[|dest|..];
    forall c | c in cs && p <= c.path
      ensures WritesNew(base, src, dest, c) && origin <= src + c.path[|dest|..]
      ensures c.path == p ==> c.file == FileAt(base, origin)
      ensures c.path != p ==> origin < src + c.path[|dest|..]
    {
      if Stem(src) <= c.path { SameStem(c.path, Stem(src), dest); }
      assert c.path[|dest|..][..|p| - |dest|] == p[|dest|..];
    }
    if FileAt(base, origin).Some? {
      var w := Change(p, FileAt(base, origin));
      assert w in cs;
      LastWriteIsMember(cs, p);
      forall c | c in cs && p < c.path ensures false {
        NoFileUnderFile(base, origin, src + c.path[|dest|..]);
      }
    }
  }

  lemma {:induction false} AtSource(m: Entries, src: Path, dest: Path, cs: seq<Change>, p: Path)
    requires dest != [] && IsRename(Dir(m), src, dest, cs) && Stem(src) <= p && !(dest <= p)
    requires src == [] ==> forall q | Stem(src) <= q :: FileAt(Dir(m), q) == None
    ensures Overlay(Dir(m), cs, p) == None
  {
    if FileAt(Dir(m), p).Some? {
      assert src + p[|src|..] == p;
      assert Change(p, None) in cs;
    }
    assert forall c | c in cs && c.path == p :: c.file.None?;
    LastWriteIsMember(cs, p);
  }

  lemma {:induction false} Elsewhere(m: Entries, src: Path, dest: Path, cs: seq<Change>, p: Path)
    requires dest != [] && Vacant(Dir(m), dest) && IsRename(Dir(m), src, dest, cs) && !(dest <= p) && !(Stem(src) <= p)
    ensures Overlay(Dir(m), cs, p) == FileAt(Dir(m), p)
  {
    var base := Dir(m);
    forall c | c in cs ensures c.path != p && !(c.path < p) && (p < c.path ==> FileAt(base, p) == None) {
      if p < c.path {
        if dest <= c.path {
          SameStem(c.path, p, dest);
        } else if src != [] && FileAt(base, p).Some? {
          assert src + c.path[|src|..] == c.path;
          NoFileUnderFile(base, p, c.path);
        }
      }
    }
  }

  /** A rename to a vacant place moves every file, keeps object and mode, and touches
      nothing else. */
  lemma {:induction false} RenameMoves(m: Entries, src: Path, dest: Path, cs: seq<Change>)
    requires dest != [] && Incomparable(Stem(src), dest) && Vacant(Dir(m), dest) && IsRename(Dir(m), src, dest, cs)
    requires src == [] ==> "" !in m
    ensures forall p: Path :: FileAt(Dir(Rebuilt(m, cs)), p) == Moved(Dir(m), src, dest, p)
  {
    forall p: Path ensures FileAt(Dir(Rebuilt(m, cs)), p) == Moved(Dir(m), src, dest, p) {
      RebuildOverlaysAt(m, cs, p);
      if dest <= p {
        AtDestination(m, src, dest, cs, p);
      } else if Stem(src) <= p {
        AtSource(m, src, dest, cs, p);
      } else {
        Elsewhere(m, src, dest, cs, p);
      }
    }
  }

  /** Renaming the root copies: no file lies below an empty name, so nothing is taken
      away. */
  lemma {:induction false} RenameRootCopies(m: Entries, dest: Path, cs: seq<Change>, p: Path)
    requires dest != [] && dest[0] != "" && Vacant(Dir(m), dest) && IsRename(Dir(m), [], dest, cs) && "" !in m
    ensures FileAt(Dir(Rebuilt(m, cs)), p) == FileAt(Dir(m), if dest <= p then p[|dest|..] else p)
  {
    RenameMoves(m, [], dest, cs);
    if dest <= p {
      assert [] + p[|dest|..] == p[|dest|..];
    }
  }

  // ---------------------------------------------------------------------
  // And back
  // ---------------------------------------------------------------------

  lemma {:induction false} NoFileAbove(t: Tree, a: Path, p: Path)
    requires a < p && At(t, p).Some?
    ensures FileAt(t, a) == None
  {
    AtConcat(t, a, p[|a|..]);
    assert p == a + p[|a|..];
  }

  lemma {:induction false} SourceIsVacant(m: Entries, src: Path, dest: Path, m': Entries)
    requires Incomparable(src, dest) && At(Dir(m), src).Some?
    requires forall p: Path :: FileAt(Dir(m'), p) == Moved(Dir(m), src, dest, p)
    ensures Vacant(Dir(m'), src)
  {
    forall q | src <= q ensures FileAt(Dir(m'), q) == None {
      if dest <= q { SameStem(q, src, dest); }
    }
    forall a | a < src ensures FileAt(Dir(m'), a) == None {
      assert !(src <= a) && !(dest <= a);
      NoFileAbove(Dir(m), a, src);
    }
  }

  lemma {:induction false} MovedTwice(base: Tree, m': Entries, src: Path, dest: Path, p: Path)
    requires Incomparable(src, dest) && Vacant(base, dest)
    requires forall q: Path :: FileAt(Dir(m'), q) == Moved(base, src, dest, q)
    ensures Moved(Dir(m'), dest, src, p) == FileAt(base, p)
  {
    if src <= p {
      var q := dest + p[|src|..];
      assert q[|dest|..] == p[|src|..];
      assert src + p[|src|..] == p;
    }
  }

  /** Renaming there and back yields the identical canonical tree. */
  lemma {:induction false} RenameThereAndBack(m: Entries, src: Path, dest: Path, there: seq<Change>, back: seq<Change>)
    requires Canonical(m) && Incomparable(src, dest) && At(Dir(m), src).Some? && Vacant(Dir(m), dest)
    requires IsRename(Dir(m), src, dest, there)
    requires IsRename(Dir(Rebuilt(m, there)), dest, src, back)
    ensures Rebuilt(Rebuilt(m, there), back) == m
  {
    var m' := Rebuilt(m, there);
    RenameMoves(m, src, dest, there);
    SourceIsVacant(m, src, dest, m');
    RenameMoves(m', dest, src, back);
    forall p: Path ensures FileAt(Dir(Rebuilt(m', back)), p) == FileAt(Dir(m), p) {
      MovedTwice(Dir(m), m', src, dest, p);
    }
    RebuildKeepsCanonical(m, there);
    RebuildKeepsCanonical(m', back);
    CanonicalIsDetermined(Rebuilt(m', back), m);
  }

  // ---------------------------------------------------------------------
  // The rename as it is carried out
  // ---------------------------------------------------------------------

  datatype RenameError = NotFound(path: Path)

  method RenamePath(base: Entries, src: Path, dest: Path) returns (r: Result<seq<Change>, RenameError>)
    ensures At(Dir(base), src).None? ==> r == Err(NotFound(src))
    ensures At(Dir(base), src).Some? ==> r.Ok? && IsRename(Dir(base), src, dest, r.value)
  {
    var entry := EntryAtPath(base, src);
    if entry.None? { return Err(NotFound(src)); }
    ghost var root := Dir(base);
    forall q: Path ensures FileAt(root, src + q) == FileAt(entry.value, q) {
      AtConcat(root, src, q);
    }
    if entry.value.Blob? {
      var f := entry.value.file;
      var writes := [Change(src, None), Change(Stem(dest), Some(f))];
      forall c ensures c in writes <==> RemovesOld(root, src, c) || WritesNew(root, src, dest, c) {
        SingleFile(root, src, dest, c);
      }
      return Ok(writes);
    }
    var files := WalkTree(entry.value.entries, [], []);
    var writes := MoveEach(Stem(src), Stem(dest), files);
    WalkIsRename(root, entry.value, src, dest, files, writes);
    return Ok(writes);
  }

  /** Two changes per file: remove the old path, write the new one. */
  method MoveEach(src: Path, dest: Path, files: seq<Walked>) returns (writes: seq<Change>)
    ensures forall c :: c in writes <==> Moves(src, dest, files, c)
  {
    writes := [];
    for i := 0 to |files|
      invariant forall c :: c in writes <==> Moves(src, dest, files[..i], c)
    {
      var w := files[i];
      assert files[..i + 1] == files[..i] + [w];
      assert forall c :: Moves(src, dest, files[..i + 1], c) <==> Moves(src, dest, files[..i], c) || FromWalk(src, dest, w, c);
      writes := writes + [Change(src + w.path, None)];
      writes := writes + [Change(dest + w.path, Some(w.file))];
    }
    assert files[..|files|] == files;
  }

  ghost predicate Moves(src: Path, dest: Path, files: seq<Walked>, c: Change)
  {
    exists w :: w in files && FromWalk(src, dest, w, c)
  }

  predicate FromWalk(src: Path, dest: Path, w: Walked, c: Change)
  {
    c == Change(src + w.path, None) || c == Change(dest + w.path, Some(w.file))
  }

  lemma {:induction false} SingleFile(root: Tree, src: Path, dest: Path, c: Change)
    requires src != [] && At(root, src).Some? && At(root, src).value.Blob?
    ensures RemovesOld(root, src, c) <==> c == Change(src, None)
    ensures WritesNew(root, src, dest, c) <==> c == Change(Stem(dest), Some(At(root, src).value.file))
  {
    if src <= c.path { OnlyTheFile(root, src, src, c); }
    if Stem(dest) <= c.path { OnlyTheFile(root, src, Stem(dest), c); }
  }

  lemma {:induction false} OnlyTheFile(root: Tree, src: Path, to: Path, c: Change)
    requires At(root, src).Some? && At(root, src).value.Blob? && to <= c.path
    ensures FileAt(root, src + c.path[|to|..]) == if c.path == to then FileAt(root, src) else None
  {
    var rest := c.path[|to|..];
    assert c.path == to + rest;
    if rest != [] {
      NoFileUnderFile(root, src, src + rest);
    } else {
      assert src + rest == src;
    }
  }

  lemma {:induction false} WalkIsRename(root: Tree, t: Tree, src: Path, dest: Path, files: seq<Walked>, writes: seq<Change>)
    requires forall q: Path :: FileAt(root, src + q) == FileAt(t, q)
    requires forall w :: w in files <==> UnderPrefix(t, [], w)
    requires forall c :: c in writes <==> Moves(Stem(src), Stem(dest), files, c)
    ensures IsRename(root, src, dest, writes)
  {
    forall w: Walked ensures w in files <==> FileAt(t, w.path) == Some(w.file) {
      assert w.path[0..] == w.path;
    }
    var from, to := Stem(src), Stem(dest);
    forall c ensures c in writes <==> RemovesOld(root, src, c) || WritesNew(root, src, dest, c) {
      if RemovesOld(root, src, c) {
        var q := c.path[|from|..];
        assert c.path == from + q;
        var w := Walked(q, FileAt(t, q).value);
        assert w in files && FromWalk(from, to, w, c);
      }
      if WritesNew(root, src, dest, c) {
        var q := c.path[|to|..];
        assert c.path == to + q;
        var w := Walked(q, c.file.value);
        assert w in files && FromWalk(from, to, w, c);
      }
      if c in writes {
        var w :| w in files && FromWalk(from, to, w, c);
        assert (from + w.path)[|from|..] == w.path && (to + w.path)[|to|..] == w.path;
      }
    }
  }
}
