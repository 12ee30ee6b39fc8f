/**
 Git trees as values.

 Two objects with the same hash are taken to be the same object, so a tree is
 represented by its contents and "equal object id" is "equal value".  A leaf
 carries a blob id and a file mode; a directory is a finite map from names.
 */
module Trees {
  import opened Wrappers

  type Name = string
  type Path = seq<Name>
  type Oid = string

  const MODE_TREE: nat := 0x4000
  const MODE_BLOB: nat := 0x81A4

  /** Any Git file mode except the one that marks a directory. */
  type FileMode = m: nat | m != MODE_TREE witness MODE_BLOB

  datatype File = File(oid: Oid, mode: FileMode)

  datatype Tree = Blob(file: File) | Dir(entries: Entries)

  type Entries = map<Name, Tree>

  /** The object a path leads to. */
  function At(t: Tree, p: Path): Option<Tree>
    decreases |p|
  {
    if p == [] then Some(t)
    else if t.Dir? && p[0] in t.entries then At(t.entries[p[0]], p[1..])
    else None
  }

  /** The file a path leads to: the flat view of a tree, one path at a time. */
  function FileAt(t: Tree, p: Path): Option<File>
  {
    match At(t, p)
    case Some(Blob(f)) => Some(f)
    case _ => None
  }

  function Get(m: Entries, n: Name): Option<Tree>
  {
    if n in m then Some(m[n]) else None
  }

  /** The entries of the directory called `n`; none when `n` is absent or a file. */
  function Below(m: Entries, n: Name): Entries
  {
    if n in m && m[n].Dir? then m[n].entries else map[]
  }

  ghost function Paths(t: Tree): set<Path>
  {
    match t
    case Blob(_) => {[]}
    case Dir(m) => set n, q | n in m && q in Paths(m[n]) :: [n] + q
  }

  /** The flat path-to-file map of a tree. */
  ghost function Flatten(t: Tree): map<Path, File>
  {
    map p | p in Paths(t) && FileAt(t, p).Some? :: FileAt(t, p).value
  }

  lemma {:induction false} PathsAreFiles(t: Tree, p: Path)
    ensures p in Paths(t) <==> FileAt(t, p).Some?
    decreases t
  {
    match t
    case Blob(_) =>
    case Dir(m) =>
      if p != [] {
        assert p == [p[0]] + p[1..];
        if p[0] in m {
          PathsAreFiles(m[p[0]], p[1..]);
        }
        forall n, q | n in m && q in Paths(m[n]) && [n] + q == p
          ensures n == p[0] && q == p[1..]
        {
          assert ([n] + q)[1..] == q;
        }
      }
  }

  /** `Flatten` holds exactly the files, so two trees flatten to the same map
      if and only if every path leads to the same file in both. */
  lemma {:induction false} FlattenIsFileAt(t: Tree)
    ensures forall p :: p in Flatten(t) <==> FileAt(t, p).Some?
    ensures forall p | p in Flatten(t) :: Some(Flatten(t)[p]) == FileAt(t, p)
  {
    forall p ensures p in Paths(t) <==> FileAt(t, p).Some? {
      PathsAreFiles(t, p);
    }
  }

  ghost predicate SameFiles(a: Tree, b: Tree)
  {
    forall p: Path :: FileAt(a, p) == FileAt(b, p)
  }

  lemma {:induction false} SameFilesIsSameMap(a: Tree, b: Tree)
    ensures SameFiles(a, b) <==> Flatten(a) == Flatten(b)
  {
    FlattenIsFileAt(a);
    FlattenIsFileAt(b);
    if Flatten(a) == Flatten(b) {
      forall p: Path ensures FileAt(a, p) == FileAt(b, p) {
        assert p in Flatten(a) <==> p in Flatten(b);
      }
    }
    if SameFiles(a, b) {
      assert Flatten(a).Keys == Flatten(b).Keys;
    }
  }

  /** Looking one name down. */
  lemma {:induction false} FileAtCons(m: Entries, n: Name, q: Path)
    ensures FileAt(Dir(m), [n] + q) == if n in m then FileAt(m[n], q) else None
  {
    assert ([n] + q)[1..] == q;
  }

  lemma {:induction false} AtConcat(t: Tree, p: Path, q: Path)
    ensures At(t, p + q) == match At(t, p) case Some(u) => At(u, q) case None => None
    decreases |p|
  {
    if p == [] {
      assert p + q == q;
    } else {
      assert (p + q)[1..] == p[1..] + q;
      if t.Dir? && p[0] in t.entries {
        AtConcat(t.entries[p[0]], p[1..], q);
      }
    }
  }

  /** A file has nothing below it. */
  lemma {:induction false} NoFileUnderFile(t: Tree, p: Path, q: Path)
    requires p < q && FileAt(t, p).Some?
    ensures FileAt(t, q) == None
  {
    AtConcat(t, p, q[|p|..]);
    assert q == p + q[|p|..];
  }

  // ---------------------------------------------------------------------
  // Canonical trees: no empty directory below the root
  // ---------------------------------------------------------------------

  /** No empty directory at or below `t`. */
  predicate Solid(t: Tree)
  {
    t.Blob? || (t.entries != map[] && forall n | n in t.entries :: Solid(t.entries[n]))
  }

  /** No empty directory strictly below the root whose entries are `m`. */
  predicate Canonical(m: Entries)
  {
    forall n | n in m :: Solid(m[n])
  }

  lemma {:induction false} SolidHasFile(t: Tree) returns (p: Path)
    requires Solid(t)
    ensures FileAt(t, p).Some?
  {
    if t.Blob? {
      p := [];
    } else {
      var n :| n in t.entries;
      var q := SolidHasFile(t.entries[n]);
      p := [n] + q;
      FileAtCons(t.entries, n, q);
    }
  }

  lemma {:induction false} CanonicalNames(a: Entries, b: Entries, n: Name)
    requires Canonical(a) && SameFiles(Dir(a), Dir(b)) && n in a
    ensures n in b
  {
    var q := SolidHasFile(a[n]);
    FileAtCons(a, n, q);
    FileAtCons(b, n, q);
    assert FileAt(Dir(a), [n] + q) == FileAt(Dir(b), [n] + q);
  }

  lemma {:induction false} SameFilesBelow(a: Entries, b: Entries, n: Name)
    requires SameFiles(Dir(a), Dir(b)) && n in a && n in b
    ensures SameFiles(a[n], b[n])
  {
    forall q: Path ensures FileAt(a[n], q) == FileAt(b[n], q) {
      FileAtCons(a, n, q);
      FileAtCons(b, n, q);
      assert FileAt(Dir(a), [n] + q) == FileAt(Dir(b), [n] + q);
    }
  }

  /** Flattening is injective on canonical trees: the files determine the tree. */
  lemma {:induction false} CanonicalIsDetermined(a: Entries, b: Entries)
    requires Canonical(a) && Canonical(b) && SameFiles(Dir(a), Dir(b))
    ensures a == b
    decreases Dir(a)
  {
    forall n ensures n in a <==> n in b {
      if n in a { CanonicalNames(a, b, n); }
      if n in b { CanonicalNames(b, a, n); }
    }
    forall n | n in a ensures a[n] == b[n] {
      SameFilesBelow(a, b, n);
      assert FileAt(a[n], []) == FileAt(b[n], []);
      if a[n].Dir? {
        CanonicalIsDetermined(a[n].entries, b[n].entries);
      }
    }
    assert a.Keys == b.Keys;
  }

  // ---------------------------------------------------------------------
  // Reading
  // ---------------------------------------------------------------------

  /** Segment-by-segment descent; an intermediate file ends the walk. */
  method EntryAtPath(root: Entries, p: Path) returns (r: Option<Tree>)
    ensures r == At(Dir(root), p)
  {
    if p == [] { return Some(Dir(root)); }
    var current := root;
    var i := 0;
    while true
      invariant 0 <= i < |p|
      invariant At(Dir(root), p) == At(Dir(current), p[i..])
      decreases |p| - i
    {
      if p[i] !in current { return None; }
      var entry := current[p[i]];
      assert p[i..][1..] == p[i + 1..];
      if i == |p| - 1 { return Some(entry); }
      if entry.Blob? { return None; }
      current := entry.entries;
      i := i + 1;
    }
  }

  predicate NoDuplicates<T(==)>(s: seq<T>)
  {
    forall i, j | 0 <= i < j < |s| :: s[i] != s[j]
  }

  datatype Walked = Walked(path: Path, file: File)

  ghost predicate UnderPrefix(t: Tree, prefix: Path, w: Walked)
  {
    prefix <= w.path && FileAt(t, w.path[|prefix|..]) == Some(w.file)
  }

  /** Everything listed is new: nothing in `before` lies under `prefix`. */
  ghost predicate Clear(before: seq<Walked>, prefix: Path)
  {
    forall w | w in before :: !(prefix <= w.path)
  }

  /** Depth-first listing of the files under a directory, pushed onto a shared list.
      Each file is listed exactly once, under its full path. */
  method WalkTree(m: Entries, prefix: Path, before: seq<Walked>) returns (results: seq<Walked>)
    requires NoDuplicates(before) && Clear(before, prefix)
    ensures NoDuplicates(results)
    ensures forall w :: w in results <==> w in before || UnderPrefix(Dir(m), prefix, w)
    decreases Dir(m)
  {
    results := before;
    var todo := m.Keys;
    while todo != {}
      invariant todo <= m.Keys
      invariant NoDuplicates(results)
      invariant forall w :: w in results <==>
                  w in before || (UnderPrefix(Dir(m), prefix, w) && |w.path| > |prefix| && w.path[|prefix|] !in todo)
      decreases todo
    {
      var n :| n in todo;
      todo := todo - {n};
      var full := prefix + [n];
      StepDown(m, prefix, n);
      assert Clear(results, full);
      if m[n].Dir? {
        results := WalkTree(m[n].entries, full, results);
      } else {
        results := results + [Walked(full, m[n].file)];
      }
    }
  }

  /** The files under `prefix` that start with `n` are those under `prefix + [n]`. */
  lemma {:induction false} StepDown(m: Entries, prefix: Path, n: Name)
    requires n in m
    ensures forall w :: UnderPrefix(m[n], prefix + [n], w) <==>
              UnderPrefix(Dir(m), prefix, w) && |w.path| > |prefix| && w.path[|prefix|] == n
    ensures m[n].Blob? ==>
              forall w :: UnderPrefix(m[n], prefix + [n], w) <==> w == Walked(prefix + [n], m[n].file)
  {
    var full := prefix + [n];
    forall w
      ensures UnderPrefix(m[n], full, w) <==>
                UnderPrefix(Dir(m), prefix, w) && |w.path| > |prefix| && w.path[|prefix|] == n
      ensures m[n].Blob? ==> (UnderPrefix(m[n], full, w) <==> w == Walked(full, m[n].file))
    {
      var p := w.path;
      if prefix <= p && |p| > |prefix| && p[|prefix|] == n {
        assert full <= p;
        assert p[|prefix|..] == [n] + p[|full|..];
        FileAtCons(m, n, p[|full|..]);
      }
      if m[n].Blob? && w == Walked(full, m[n].file) {
        assert p[|full|..] == [];
      }
      if m[n].Blob? && UnderPrefix(m[n], full, w) {
        assert p[|full|..] == [];
        assert p == full + p[|full|..];
      }
    }
  }
}
