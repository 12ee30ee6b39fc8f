/**
 Synchronizing a directory of the store with a directory on disk (checksum mode,
 no ignore files).  The disk is a map from relative path to file.
 */
module Sync {
  import opened Wrappers
  import opened Trees
  import opened Changes
  import opened Rebuild
  import opened Glob
  import Paths

  // ---------------------------------------------------------------------
  // Filters
  // ---------------------------------------------------------------------

  datatype Filters = Filters(only: Option<seq<string>>, skip: Option<seq<string>>)

  /** A pattern is tried on the last name and on the whole relative path. */
  predicate PathMatchesGlob(p: Path, pattern: string)
  {
    GlobMatch(pattern, if p == [] then "" else p[|p| - 1]) || GlobMatch(pattern, Paths.Join(p))
  }

  predicate MatchesFilters(p: Path, f: Filters)
  {
    && (f.only.Some? ==> exists pat | pat in f.only.value :: PathMatchesGlob(p, pat))
    && (f.skip.Some? ==> forall pat | pat in f.skip.value :: !PathMatchesGlob(p, pat))
  }

  // ---------------------------------------------------------------------
  // What a sync does
  // ---------------------------------------------------------------------

  type Disk = map<Path, File>

  /** Files on a disk lie at non-empty paths, and none lies below another. */
  ghost predicate WellFormedDisk(disk: Disk)
  {
    forall q, r | q in disk && r in disk :: q != [] && !(q < r)
  }

  function OnDisk(disk: Disk, q: Path): Option<File>
  {
    if q in disk then Some(disk[q]) else None
  }

  /** `p` is strictly below `dest`, and the filters let it through. */
  predicate InScope(dest: Path, f: Filters, p: Path)
  {
    dest < p && MatchesFilters(p[|dest|..], f)
  }

  /** The changes a sync makes: in scope, and where disk and store differ, write what
      the disk holds or remove what it does not hold. */
  ghost predicate IsSync(base: Tree, disk: Disk, dest: Path, f: Filters, cs: seq<Change>)
  {
    forall c :: c in cs <==> SyncChange(base, disk, dest, f, c)
  }

  ghost predicate SyncChange(base: Tree, disk: Disk, dest: Path, f: Filters, c: Change)
  {
    InScope(dest, f, c.path) && c.file == OnDisk(disk, c.path[|dest|..]) && c.file != FileAt(base, c.path)
  }

  /** In scope the store holds what the disk holds; the rest is as before. */
  ghost function SyncTarget(base: Tree, disk: Disk, dest: Path, f: Filters, p: Path): Option<File>
  {
    if InScope(dest, f, p) then OnDisk(disk, p[|dest|..]) else FileAt(base, p)
  }

  /** The store's file at `p` is in the way of the disk's file `q`: it lies below the
      place of `q`, or above it and out of scope, so that nothing removes it. */
  ghost predicate InTheWay(base: Tree, disk: Disk, dest: Path, f: Filters, q: Path, p: Path)
  {
    && q in disk && MatchesFilters(q, f) && FileAt(base, p).Some?
    && (dest + q < p || (p < dest + q && !InScope(dest, f, p)))
  }

  ghost predicate NoConflict(base: Tree, disk: Disk, dest: Path, f: Filters)
  {
    forall q, p :: !InTheWay(base, disk, dest, f, q, p)
  }

  // ---------------------------------------------------------------------
  // Sync makes equal, exactly when nothing is in the way
  // ---------------------------------------------------------------------

  /** Changes of one sync are nested only where a file gives way to a directory. */
  lemma {:induction false} NestedChanges(base: Tree, disk: Disk, dest: Path, f: Filters, c: Change, d: Change)
    requires WellFormedDisk(disk) && NoConflict(base, disk, dest, f)
    requires SyncChange(base, disk, dest, f, c) && SyncChange(base, disk, dest, f, d) && c.path < d.path
    ensures c.file.None? && d.file.Some?
  {
    var q, r := c.path[|dest|..], d.path[|dest|..];
    assert dest + q == c.path && dest + r == d.path && q < r;
    assert !InTheWay(base, disk, dest, f, q, d.path);
    if c.file.None? && d.file.None? {
      NoFileUnderFile(base, c.path, d.path);
    }
  }

  lemma {:induction false} SyncInScope(m: Entries, disk: Disk, dest: Path, f: Filters, cs: seq<Change>, p: Path)
    requires WellFormedDisk(disk) && NoConflict(Dir(m), disk, dest, f) && IsSync(Dir(m), disk, dest, f, cs)
    requires InScope(dest, f, p)
    ensures Overlay(Dir(m), cs, p) == OnDisk(disk, p[|dest|..])
  {
    var base, want := Dir(m), Change(p, OnDisk(disk, p[|dest|..]));
    assert dest + p[|dest|..] == p;
    LastWriteIsMember(cs, p);
    assert forall c | c in cs && c.path == p :: c == want;
    if want.file != FileAt(base, p) {
      assert want in cs;
      forall c | c in cs && p < c.path ensures want.file.None? {
        NestedChanges(base, disk, dest, f, want, c);
      }
    } else if want.file.Some? {
      forall c | c in cs ensures c.path != p && !(p < c.path) && !(c.path < p) {
        SyncBesideKept(base, disk, dest, f, c, p);
      }
    }
  }

  lemma {:induction false} SyncBesideKept(base: Tree, disk: Disk, dest: Path, f: Filters, c: Change, p: Path)
    requires WellFormedDisk(disk) && NoConflict(base, disk, dest, f) && SyncChange(base, disk, dest, f, c)
    requires InScope(dest, f, p) && FileAt(base, p).Some? && FileAt(base, p) == OnDisk(disk, p[|dest|..])
    ensures c.path != p && !(p < c.path) && !(c.path < p)
  {
    var q, r := p[|dest|..], c.path[|dest|..];
    assert dest + q == p && dest + r == c.path;
    if c.file.None? {
      if p < c.path { NoFileUnderFile(base, p, c.path); }
      if c.path < p { NoFileUnderFile(base, c.path, p); }
    } else {
      assert p < c.path ==> q < r;
      assert c.path < p ==> r < q;
    }
  }

  lemma {:induction false} SyncOutOfScope(m: Entries, disk: Disk, dest: Path, f: Filters, cs: seq<Change>, p: Path)
    requires NoConflict(Dir(m), disk, dest, f) && IsSync(Dir(m), disk, dest, f, cs)
    requires !InScope(dest, f, p)
    ensures Overlay(Dir(m), cs, p) == FileAt(Dir(m), p)
  {
    var base := Dir(m);
    forall c | c in cs ensures c.path != p && (p < c.path || c.path < p ==> FileAt(base, p) == None) {
      var q := c.path[|dest|..];
      assert dest + q == c.path;
      assert !InTheWay(base, disk, dest, f, q, p);
      if c.file.None? && FileAt(base, p).Some? {
        if p < c.path { NoFileUnderFile(base, p, c.path); }
        if c.path < p { NoFileUnderFile(base, c.path, p); }
      }
    }
  }

  lemma {:induction false} SyncReachesTarget(m: Entries, disk: Disk, dest: Path, f: Filters, cs: seq<Change>)
    requires WellFormedDisk(disk) && NoConflict(Dir(m), disk, dest, f) && IsSync(Dir(m), disk, dest, f, cs)
    ensures forall p: Path :: FileAt(Dir(Rebuilt(m, cs)), p) == SyncTarget(Dir(m), disk, dest, f, p)
  {
    forall p: Path ensures FileAt(Dir(Rebuilt(m, cs)), p) == SyncTarget(Dir(m), disk, dest, f, p) {
      RebuildOverlaysAt(m, cs, p);
      if InScope(dest, f, p) {
        SyncInScope(m, disk, dest, f, cs, p);
      } else {
        SyncOutOfScope(m, disk, dest, f, cs, p);
      }
    }
  }

  /** A conflicting file always makes the outcome miss the target somewhere. */
  lemma {:induction false} ConflictMisses(m: Entries, disk: Disk, dest: Path, f: Filters, cs: seq<Change>, q: Path, p: Path)
    returns (miss: Path)
    requires WellFormedDisk(disk) && IsSync(Dir(m), disk, dest, f, cs)
    requires InTheWay(Dir(m), disk, dest, f, q, p)
    ensures FileAt(Dir(Rebuilt(m, cs)), miss) != SyncTarget(Dir(m), disk, dest, f, miss)
  {
    var base, full := Dir(m), dest + q;
    assert full[|dest|..] == q && dest < full;
    var w := Change(full, Some(disk[q]));
    if p < full {
      NoFileUnderFile(base, p, full);
      miss := p;
    } else {
      if FileAt(base, full).Some? { NoFileUnderFile(base, full, p); }
      if InScope(dest, f, p) {
        assert q < p[|dest|..];
        miss := full;
        assert Change(p, None) in cs;
      } else {
        miss := p;
      }
    }
    assert w in cs;
    if miss == p && p != full && full < p {
      forall c | c in cs ensures c.path != p {
      }
    }
    RebuildOverlaysAt(m, cs, miss);
  }

  /** The rebuilt store equals the disk in scope and is unchanged elsewhere if and
      only if no file of the store is in the way. */
  lemma {:induction false} SyncMakesEqual(m: Entries, disk: Disk, dest: Path, f: Filters, cs: seq<Change>)
    requires WellFormedDisk(disk) && IsSync(Dir(m), disk, dest, f, cs)
    ensures NoConflict(Dir(m), disk, dest, f) <==>
            forall p: Path :: FileAt(Dir(Rebuilt(m, cs)), p) == SyncTarget(Dir(m), disk, dest, f, p)
  {
    if NoConflict(Dir(m), disk, dest, f) {
      SyncReachesTarget(m, disk, dest, f, cs);
    } else {
      var q, p :| InTheWay(Dir(m), disk, dest, f, q, p);
      var miss := ConflictMisses(m, disk, dest, f, cs, q, p);
    }
  }

  /** The pattern matches the last name or the whole relative path, every leading dot
      being asked for. */
  predicate Fits(q: Path, pattern: string)
    requires q != []
  {
    MatchesDots(pattern, q[|q| - 1]) || MatchesDots(pattern, Paths.Join(q))
  }

  lemma {:induction false} JoinStarFree(q: Path)
    requires StarFree(q)
    ensures '*' !in Paths.Join(q)
  {
    if q != [] {
      assert q[0] in q;
      JoinStarFree(q[1..]);
    }
  }

  lemma {:induction false} FitsIsGlob(q: Path, pattern: string)
    requires q != [] && StarFree(q)
    ensures PathMatchesGlob(q, pattern) <==> Fits(q, pattern)
  {
    JoinStarFree(q);
    assert q[|q| - 1] in q;
    GlobMatchMeaning(pattern, q[|q| - 1]);
    GlobMatchMeaning(pattern, Paths.Join(q));
  }

  /** With names free of stars, a sync changes the file at a path below `dest` exactly
      when store and disk differ there, no skip pattern fits the path and, if patterns to
      take are given, one of them does. */
  lemma {:induction false} SyncTouchesExactly(base: Tree, disk: Disk, dest: Path, f: Filters, cs: seq<Change>, q: Path)
    requires IsSync(base, disk, dest, f, cs) && q != [] && StarFree(q)
    ensures Touched(cs, dest + q) <==>
            && FileAt(base, dest + q) != OnDisk(disk, q)
            && (f.skip.Some? ==> forall pat | pat in f.skip.value :: !Fits(q, pat))
            && (f.only.Some? ==> exists pat :: pat in f.only.value && Fits(q, pat))
  {
    forall pat ensures PathMatchesGlob(q, pat) <==> Fits(q, pat) { FitsIsGlob(q, pat); }
    assert (dest + q)[|dest|..] == q;
    var c := Change(dest + q, OnDisk(disk, q));
    assert SyncChange(base, disk, dest, f, c) ==> c in cs;
  }

  /** A second sync finds nothing to do and leaves the very same tree. */
  lemma {:induction false} SecondSyncIsEmpty(m: Entries, disk: Disk, dest: Path, f: Filters, first: seq<Change>, second: seq<Change>)
    requires WellFormedDisk(disk) && NoConflict(Dir(m), disk, dest, f)
    requires IsSync(Dir(m), disk, dest, f, first)
    requires IsSync(Dir(Rebuilt(m, first)), disk, dest, f, second)
    ensures second == [] && Rebuilt(Rebuilt(m, first), second) == Rebuilt(m, first)
  {
    SyncReachesTarget(m, disk, dest, f, first);
    if second != [] {
      HasMember(second);
    }
    NothingToRebuild(Rebuilt(m, first));
  }

  lemma {:induction false} HasMember(cs: seq<Change>)
    requires cs != []
    ensures exists c :: c in cs
  {
    assert cs[0] in cs;
  }

  lemma {:induction false} NothingToRebuild(m: Entries)
    ensures Rebuilt(m, []) == m
  {
    forall n ensures Get(Rebuilt(m, []), n) == Get(m, n) {
      RebuiltAt(m, [], n);
    }
    SameGets(Rebuilt(m, []), m);
  }

  // ---------------------------------------------------------------------
  // The sync as it is carried out
  // ---------------------------------------------------------------------

  /** The reported paths. */
  datatype Report = Report(add: seq<Path>, update: seq<Path>, delete: seq<Path>)

  ghost predicate WrittenAt(cs: seq<Change>, p: Path)
  {
    exists f :: Change(p, Some(f)) in cs
  }

  /** Each change is reported once, as what it does to the store. */
  ghost predicate IsReport(base: Tree, cs: seq<Change>, r: Report)
  {
    && NoDuplicates(r.add) && NoDuplicates(r.update) && NoDuplicates(r.delete)
    && (forall p :: p in r.add <==> WrittenAt(cs, p) && FileAt(base, p).None?)
    && (forall p :: p in r.update <==> WrittenAt(cs, p) && FileAt(base, p).Some?)
    && (forall p :: p in r.delete <==> Change(p, None) in cs)
  }

  /** The files on disk that pass the filters. */
  method DiskGlob(disk: Disk, f: Filters) returns (files: seq<Path>)
    ensures NoDuplicates(files)
    ensures forall q :: q in files <==> q in disk && MatchesFilters(q, f)
  {
    files := [];
    var todo := disk.Keys;
    while todo != {}
      invariant todo <= disk.Keys && NoDuplicates(files)
      invariant forall q :: q in files <==> q in disk && q !in todo && MatchesFilters(q, f)
      decreases todo
    {
      var q :| q in todo;
      todo := todo - {q};
      if MatchesFilters(q, f) {
        files := files + [q];
      }
    }
  }

  predicate DistinctFiles(ws: seq<Walked>)
  {
    forall i, j | 0 <= i < j < |ws| :: ws[i].path != ws[j].path
  }

  /** The files below `dest`; none when `dest` is missing or a file. */
  method ExistingFiles(base: Entries, dest: Path) returns (existing: seq<Walked>)
    ensures DistinctFiles(existing)
    ensures forall w :: w in existing <==> w.path != [] && FileAt(Dir(base), dest + w.path) == Some(w.file)
  {
    var entry := EntryAtPath(base, dest);
    forall q: Path
      ensures FileAt(Dir(base), dest + q) == if entry.Some? then FileAt(entry.value, q) else None
    {
      AtConcat(Dir(base), dest, q);
    }
    existing := [];
    if entry.Some? && entry.value.Dir? {
      existing := WalkTree(entry.value.entries, [], []);
      forall w: Walked ensures UnderPrefix(entry.value, [], w) <==> FileAt(entry.value, w.path) == Some(w.file) {
        assert w.path[0..] == w.path;
      }
      assert forall i | 0 <= i < |existing| :: existing[i] in existing;
    }
  }

  method IndexFiles(base: Entries, dest: Path, existing: seq<Walked>) returns (index: map<Path, File>)
    requires forall w :: w in existing <==> w.path != [] && FileAt(Dir(base), dest + w.path) == Some(w.file)
    ensures forall q | q != [] :: (if q in index then Some(index[q]) else None) == FileAt(Dir(base), dest + q)
  {
    index := map[];
    for i := 0 to |existing|
      invariant forall q | q in index :: q != [] && FileAt(Dir(base), dest + q) == Some(index[q])
      invariant forall w | w in existing[..i] :: w.path in index
    {
      assert existing[..i + 1] == existing[..i] + [existing[i]];
      assert existing[i] in existing;
      index := index[existing[i].path := existing[i].file];
    }
    forall q | q != [] && FileAt(Dir(base), dest + q).Some? ensures q in index {
      assert Walked(q, FileAt(Dir(base), dest + q).value) in existing;
    }
  }

  /** Below `dest`, one of `files`, and different in the store. */
  ghost predicate ToCopy(base: Tree, disk: Disk, dest: Path, files: seq<Path>, p: Path)
  {
    dest < p && p[|dest|..] in files && OnDisk(disk, p[|dest|..]) != FileAt(base, p)
  }

  lemma {:induction false} ToCopyStep(base: Tree, disk: Disk, dest: Path, files: seq<Path>, q: Path)
    requires q != []
    ensures forall p :: ToCopy(base, disk, dest, files + [q], p) <==>
              ToCopy(base, disk, dest, files, p) || (p == dest + q && OnDisk(disk, q) != FileAt(base, p))
  {
    assert (dest + q)[|dest|..] == q;
    assert forall p | dest < p :: p[|dest|..] == q <==> p == dest + q;
  }

  method CopyFiles(base: Entries, disk: Disk, dest: Path, files: seq<Path>, index: map<Path, File>)
    returns (writes: seq<Change>, add: seq<Path>, update: seq<Path>)
    requires NoDuplicates(files) && forall q | q in files :: q in disk && q != []
    requires forall q | q != [] :: (if q in index then Some(index[q]) else None) == FileAt(Dir(base), dest + q)
    ensures NoDuplicates(add) && NoDuplicates(update)
    ensures forall c :: c in writes <==>
              ToCopy(Dir(base), disk, dest, files, c.path) && c.file == OnDisk(disk, c.path[|dest|..])
    ensures forall p :: p in add <==> ToCopy(Dir(base), disk, dest, files, p) && FileAt(Dir(base), p).None?
    ensures forall p :: p in update <==> ToCopy(Dir(base), disk, dest, files, p) && FileAt(Dir(base), p).Some?
  {
    writes, add, update := [], [], [];
    for i := 0 to |files|
      invariant NoDuplicates(add) && NoDuplicates(update)
      invariant forall c :: c in writes <==>
                  ToCopy(Dir(base), disk, dest, files[..i], c.path) && c.file == OnDisk(disk, c.path[|dest|..])
      invariant forall p :: p in add <==> ToCopy(Dir(base), disk, dest, files[..i], p) && FileAt(Dir(base), p).None?
      invariant forall p :: p in update <==> ToCopy(Dir(base), disk, dest, files[..i], p) && FileAt(Dir(base), p).Some?
    {
      var q := files[i];
      assert q in files;
      var storePath := dest + q;
      assert storePath[|dest|..] == q && q !in files[..i];
      assert files[..i + 1] == files[..i] + [q];
      ToCopyStep(Dir(base), disk, dest, files[..i], q);
      var changed := q !in index || index[q] != disk[q];
      if changed {
        writes := writes + [Change(storePath, Some(disk[q]))];
        if q in index {
          update := update + [storePath];
        } else {
          add := add + [storePath];
        }
      }
    }
    assert files[..|files|] == files;
  }

  /** A listed file of the store that the disk lacks and the filters let through. */
  ghost predicate ToRemove(dest: Path, f: Filters, files: seq<Path>, existing: seq<Walked>, p: Path)
  {
    exists w :: w in existing && p == dest + w.path && w.path !in files && MatchesFilters(w.path, f)
  }

  lemma {:induction false} NotYetRemoved(dest: Path, existing: seq<Walked>, i: nat)
    requires DistinctFiles(existing) && i < |existing|
    ensures forall v | v in existing[..i] :: dest + existing[i].path != dest + v.path
  {
    forall v | v in existing[..i] ensures dest + existing[i].path != dest + v.path {
      assert (dest + existing[i].path)[|dest|..] == existing[i].path && (dest + v.path)[|dest|..] == v.path;
    }
  }

  method RemoveStale(dest: Path, f: Filters, files: seq<Path>, existing: seq<Walked>)
    returns (removes: seq<Change>, delete: seq<Path>)
    requires DistinctFiles(existing)
    ensures NoDuplicates(delete)
    ensures forall c :: c in removes <==> c.file.None? && ToRemove(dest, f, files, existing, c.path)
    ensures forall p :: p in delete <==> ToRemove(dest, f, files, existing, p)
  {
    removes, delete := [], [];
    for i := 0 to |existing|
      invariant NoDuplicates(delete)
      invariant forall c :: c in removes <==> c.file.None? && ToRemove(dest, f, files, existing[..i], c.path)
      invariant forall p :: p in delete <==> ToRemove(dest, f, files, existing[..i], p)
    {
      var w := existing[i];
      assert existing[..i + 1] == existing[..i] + [w];
      assert forall p :: ToRemove(dest, f, files, existing[..i + 1], p) <==>
               ToRemove(dest, f, files, existing[..i], p) ||
               (p == dest + w.path && w.path !in files && MatchesFilters(w.path, f));
      if w.path !in files && MatchesFilters(w.path, f) {
        NotYetRemoved(dest, existing, i);
        removes := removes + [Change(dest + w.path, None)];
        delete := delete + [dest + w.path];
      }
    }
    assert existing[..|existing|] == existing;
  }

  /** The files of the disk against the files of the store: first what to write, then
      what to remove. */
  method SyncIn(base: Entries, disk: Disk, dest: Path, f: Filters) returns (changes: seq<Change>, report: Report)
    requires WellFormedDisk(disk)
    ensures IsSync(Dir(base), disk, dest, f, changes)
    ensures IsReport(Dir(base), changes, report)
  {
    var files := DiskGlob(disk, f);
    var existing := ExistingFiles(base, dest);
    var index := IndexFiles(base, dest, existing);
    var writes, add, update := CopyFiles(base, disk, dest, files, index);
    var removes, delete := RemoveStale(dest, f, files, existing);
    changes := writes + removes;
    report := Report(add, update, delete);
    forall p ensures ToRemove(dest, f, files, existing, p) <==>
      InScope(dest, f, p) && p[|dest|..] !in disk && FileAt(Dir(base), p).Some?
    {
      StaleExactly(base, disk, dest, f, files, existing, p);
    }
    forall p ensures WrittenAt(changes, p) <==> ToCopy(Dir(base), disk, dest, files, p) {
      if ToCopy(Dir(base), disk, dest, files, p) {
        assert Change(p, OnDisk(disk, p[|dest|..])) in writes;
      }
    }
  }

  lemma {:induction false} StaleExactly(base: Entries, disk: Disk, dest: Path, f: Filters, files: seq<Path>, existing: seq<Walked>, p: Path)
    requires forall q :: q in files <==> q in disk && MatchesFilters(q, f)
    requires forall w :: w in existing <==> w.path != [] && FileAt(Dir(base), dest + w.path) == Some(w.file)
    ensures ToRemove(dest, f, files, existing, p) <==>
            InScope(dest, f, p) && p[|dest|..] !in disk && FileAt(Dir(base), p).Some?
  {
    if InScope(dest, f, p) && p[|dest|..] !in disk && FileAt(Dir(base), p).Some? {
      var w := Walked(p[|dest|..], FileAt(Dir(base), p).value);
      assert p == dest + w.path;
      assert w in existing;
    }
    if ToRemove(dest, f, files, existing, p) {
      var w :| w in existing && p == dest + w.path && w.path !in files && MatchesFilters(w.path, f);
      assert p[|dest|..] == w.path;
    }
  }
}
