/**
 The notes tree: a map from commit hashes to notes, stored flat under the full hash
 or fanned out under its first two characters.  Reads accept both layouts, writes
 always use the flat one.
 */
module Notes {
  import opened Wrappers
  import opened Trees

  predicate IsHexDigit(c: char)
  {
    '0' <= c <= '9' || 'a' <= c <= 'f'
  }

  predicate IsHex40(s: string)
  {
    |s| == 40 && forall i | 0 <= i < 40 :: IsHexDigit(s[i])
  }

  /** Forty lower-case hexadecimal digits. */
  lemma {:induction false} HashAlphabet(s: string)
    ensures IsHex40(s) <==> |s| == 40 && forall c | c in s :: c in "0123456789abcdef"
  {
    forall c: char ensures IsHexDigit(c) <==> c in "0123456789abcdef" { HexDigits(c); }
    if |s| == 40 && forall c | c in s :: c in "0123456789abcdef" {
      forall i | 0 <= i < 40 ensures IsHexDigit(s[i]) { assert s[i] in s; }
    }
  }

  lemma {:induction false} HexDigits(c: char)
    ensures IsHexDigit(c) <==> c in "0123456789abcdef"
  {
    var digits := "0123456789abcdef";
    if IsHexDigit(c) {
      var i := if c <= '9' then c as int - '0' as int else c as int - 'a' as int + 10;
      assert digits[i] == c;
    }
  }

  function Prefix(h: string): string
    requires IsHex40(h)
  {
    h[..2]
  }

  function Suffix(h: string): string
    requires IsHex40(h)
  {
    h[2..]
  }

  lemma {:induction false} PrefixSuffix(h: string, k: string)
    requires IsHex40(h) && IsHex40(k)
    ensures h == k <==> Prefix(h) == Prefix(k) && Suffix(h) == Suffix(k)
    ensures !IsHex40(Prefix(h))
  {
    assert h == Prefix(h) + Suffix(h) && k == Prefix(k) + Suffix(k);
  }

  // ---------------------------------------------------------------------
  // Reading
  // ---------------------------------------------------------------------

  function Flat(m: Entries, h: string): Option<Tree>
  {
    if h in m && m[h].Blob? then Some(m[h]) else None
  }

  function Fanned(m: Entries, h: string): Option<Tree>
    requires IsHex40(h)
  {
    Get(Below(m, Prefix(h)), Suffix(h))
  }

  /** The note of `h`: the flat entry if there is one, else the fanned-out one. */
  function Lookup(m: Entries, h: string): Option<Tree>
    requires IsHex40(h)
  {
    if Flat(m, h).Some? then Flat(m, h) else Fanned(m, h)
  }

  /** No hash is in both layouts, and no directory carries a full hash as its name. */
  ghost predicate NoteTree(m: Entries)
  {
    forall h | IsHex40(h) :: (h in m ==> m[h].Blob?) && !(Flat(m, h).Some? && Fanned(m, h).Some?)
  }

  // ---------------------------------------------------------------------
  // One delete, one write
  // ---------------------------------------------------------------------

  /** Takes `h` out of its fan-out directory, and the directory out when it was alone. */
  function WithoutFanned(m: Entries, h: string): Entries
    requires IsHex40(h)
  {
    if Fanned(m, h).None? then m
    else
      var sub := Below(m, Prefix(h)) - {Suffix(h)};
      if sub == map[] then m - {Prefix(h)} else m[Prefix(h) := Dir(sub)]
  }

  function Deleted(m: Entries, h: string): Option<Entries>
    requires IsHex40(h)
  {
    if Flat(m, h).Some? then Some(m - {h})
    else if Fanned(m, h).Some? then Some(WithoutFanned(m, h))
    else None
  }

  function Written(m: Entries, h: string, note: File): Entries
    requires IsHex40(h)
  {
    WithoutFanned(m, h)[h := Blob(note)]
  }

  lemma {:induction false} WithoutFannedLookup(m: Entries, h: string, x: string)
    requires IsHex40(h) && IsHex40(x)
    ensures var v := WithoutFanned(m, h);
            && Get(v, x) == Get(m, x)
            && Fanned(v, x) == if x == h then None else Fanned(m, x)
  {
    PrefixSuffix(h, x);
  }

  lemma {:induction false} DeleteNote(m: Entries, h: string)
    requires NoteTree(m) && IsHex40(h)
    ensures Deleted(m, h).Some? <==> Lookup(m, h).Some?
    ensures Deleted(m, h).Some? ==>
              var v := Deleted(m, h).value;
              NoteTree(v) && forall x | IsHex40(x) :: Lookup(v, x) == if x == h then None else Lookup(m, x)
  {
    if Deleted(m, h).Some? {
      var v := Deleted(m, h).value;
      forall x | IsHex40(x)
        ensures Get(v, x) == if x == h && Flat(m, h).Some? then None else Get(m, x)
        ensures Fanned(v, x) == if x == h then None else Fanned(m, x)
      {
        WithoutFannedLookup(m, h, x);
        PrefixSuffix(h, x);
        PrefixSuffix(x, h);
      }
    }
  }

  lemma {:induction false} WriteNote(m: Entries, h: string, note: File)
    requires NoteTree(m) && IsHex40(h)
    ensures var v := Written(m, h, note);
            && NoteTree(v) && Flat(v, h) == Some(Blob(note)) && Fanned(v, h) == None
            && forall x | IsHex40(x) :: Lookup(v, x) == if x == h then Some(Blob(note)) else Lookup(m, x)
  {
    var v := Written(m, h, note);
    forall x | IsHex40(x)
      ensures Get(v, x) == if x == h then Some(Blob(note)) else Get(m, x)
      ensures Fanned(v, x) == if x == h then None else Fanned(m, x)
    {
      WithoutFannedLookup(m, h, x);
      PrefixSuffix(x, h);
    }
  }

  // ---------------------------------------------------------------------
  // What is no note
  // ---------------------------------------------------------------------

  /** The path of a note, in either layout, or below one. */
  predicate NotePath(p: Path)
  {
    p != [] && (IsHex40(p[0]) || (|p| >= 2 && |p[0]| == 2 && IsHex40(p[0] + p[1])))
  }

  /** Files that are no notes are as they were. */
  ghost predicate OthersKept(m: Entries, v: Entries)
  {
    forall p: Path | !NotePath(p) :: FileAt(Dir(v), p) == FileAt(Dir(m), p)
  }

  /** A path of two names or more, looked up in the directory of its first name. */
  lemma {:induction false} TwoDown(m: Entries, p: Path)
    requires |p| >= 2
    ensures FileAt(Dir(m), p) ==
            match Get(Below(m, p[0]), p[1]) case Some(t) => FileAt(t, p[2..]) case None => None
  {
    assert p == [p[0]] + p[1..] && p[1..] == [p[1]] + p[2..];
    FileAtCons(m, p[0], p[1..]);
    FileAtCons(Below(m, p[0]), p[1], p[2..]);
  }

  lemma {:induction false} ClearKeepsOthers(m: Entries, h: string)
    requires IsHex40(h)
    ensures OthersKept(m, WithoutFanned(m, h))
  {
    var v := WithoutFanned(m, h);
    if Fanned(m, h).Some? {
      assert h == Prefix(h) + Suffix(h);
      var dir := Below(m, Prefix(h));
      assert forall n | n != Suffix(h) && n in dir :: n in dir - {Suffix(h)};
      forall p: Path | !NotePath(p) ensures FileAt(Dir(v), p) == FileAt(Dir(m), p) {
        if |p| >= 2 {
          TwoDown(m, p);
          TwoDown(v, p);
          if p[0] == Prefix(h) {
            assert p[1] != Suffix(h);
            assert Get(Below(v, p[0]), p[1]) == Get(dir, p[1]);
          }
        } else if |p| == 1 {
          assert p == [p[0]] + [];
          FileAtCons(m, p[0], []);
          FileAtCons(v, p[0], []);
        }
      }
    }
  }

  lemma {:induction false} NameKeepsOthers(m: Entries, v: Entries, h: string)
    requires IsHex40(h) && forall n | n != h :: Get(v, n) == Get(m, n)
    ensures OthersKept(m, v)
  {
    forall p: Path | !NotePath(p) ensures FileAt(Dir(v), p) == FileAt(Dir(m), p) {
      if p != [] { assert Get(v, p[0]) == Get(m, p[0]); }
    }
  }

  lemma {:induction false} OneChangeKeepsOthers(m: Entries, h: string, note: File)
    requires IsHex40(h)
    ensures OthersKept(m, Written(m, h, note))
    ensures Deleted(m, h).Some? ==> OthersKept(m, Deleted(m, h).value)
  {
    ClearKeepsOthers(m, h);
    NameKeepsOthers(WithoutFanned(m, h), Written(m, h, note), h);
    if Flat(m, h).Some? { NameKeepsOthers(m, m - {h}, h); }
  }

  // ---------------------------------------------------------------------
  // The whole build
  // ---------------------------------------------------------------------

  datatype Note = Note(hash: string, file: File)

  datatype NoteError = KeyNotFound(hash: string)

  function DeleteAll(m: Entries, hs: seq<string>): Result<Entries, NoteError>
    requires forall h | h in hs :: IsHex40(h)
  {
    if hs == [] then Ok(m)
    else match DeleteAll(m, hs[..|hs| - 1])
      case Err(e) => Err(e)
      case Ok(v) =>
        var h := hs[|hs| - 1];
        match Deleted(v, h)
        case None => Err(KeyNotFound(h))
        case Some(u) => Ok(u)
  }

  function WriteAll(m: Entries, ns: seq<Note>): Entries
    requires forall n | n in ns :: IsHex40(n.hash)
  {
    if ns == [] then m else Written(WriteAll(m, ns[..|ns| - 1]), ns[|ns| - 1].hash, ns[|ns| - 1].file)
  }

  function LastNote(ns: seq<Note>, h: string): Option<File>
  {
    if ns == [] then None
    else if ns[|ns| - 1].hash == h then Some(ns[|ns| - 1].file)
    else LastNote(ns[..|ns| - 1], h)
  }

  /** The deletes succeed exactly when they are distinct and each has a note; then
      they remove those notes and no others. */
  lemma {:induction false} DeleteAllNotes(m: Entries, hs: seq<string>)
    requires NoteTree(m) && forall h | h in hs :: IsHex40(h)
    ensures DeleteAll(m, hs).Ok? <==> NoDuplicates(hs) && forall h | h in hs :: Lookup(m, h).Some?
    ensures DeleteAll(m, hs).Ok? ==>
              var v := DeleteAll(m, hs).value;
              && NoteTree(v) && OthersKept(m, v)
              && forall x | IsHex40(x) :: Lookup(v, x) == if x in hs then None else Lookup(m, x)
  {
    if hs != [] {
      var front, h := hs[..|hs| - 1], hs[|hs| - 1];
      assert hs == front + [h];
      DeleteAllNotes(m, front);
      if DeleteAll(m, front).Ok? {
        DeleteNote(DeleteAll(m, front).value, h);
        OneChangeKeepsOthers(DeleteAll(m, front).value, h, File("", MODE_BLOB));
        if h in front {
          var i :| 0 <= i < |front| && front[i] == h;
          assert hs[i] == hs[|hs| - 1];
        } else {
          assert NoDuplicates(hs);
        }
      }
    }
  }

  lemma {:induction false} WriteAllNotes(m: Entries, ns: seq<Note>)
    requires NoteTree(m) && forall n | n in ns :: IsHex40(n.hash)
    ensures var v := WriteAll(m, ns);
            && NoteTree(v) && OthersKept(m, v)
            && (forall n | n in ns :: Flat(v, n.hash).Some?)
            && forall x | IsHex40(x) :: Lookup(v, x) ==
                 match LastNote(ns, x) case Some(f) => Some(Blob(f)) case None => Lookup(m, x)
  {
    if ns != [] {
      var front, n := ns[..|ns| - 1], ns[|ns| - 1];
      assert n in ns;
      WriteAllNotes(m, front);
      WriteNote(WriteAll(m, front), n.hash, n.file);
      OneChangeKeepsOthers(WriteAll(m, front), n.hash, n.file);
      forall x | x in front ensures Flat(WriteAll(m, ns), x.hash).Some? {
        assert x in ns;
        WithoutFannedLookup(WriteAll(m, front), n.hash, x.hash);
      }
    }
  }

  // ---------------------------------------------------------------------
  // The build as it is carried out
  // ---------------------------------------------------------------------

  ghost predicate OnlyFiles(m: Entries)
  {
    forall n | n in m :: m[n].Blob?
  }

  function Start(base: Option<Entries>): Entries
  {
    if base.Some? then base.value else map[]
  }

  method ClearFanned(treeMap: Entries, h: string) returns (r: Entries, found: bool)
    requires IsHex40(h)
    ensures r == WithoutFanned(treeMap, h) && found == Fanned(treeMap, h).Some?
  {
    r, found := treeMap, false;
    var prefix, suffix := h[..2], h[2..];
    if prefix in treeMap && treeMap[prefix].Dir? {
      var entries := treeMap[prefix].entries;
      if suffix in entries {
        var rest := entries - {suffix};
        if rest == map[] {
          r := treeMap - {prefix};
        } else {
          r := treeMap[prefix := Dir(rest)];
        }
        found := true;
      }
    }
  }

  /** Builds the new notes tree: first the deletes, then the writes. */
  method BuildNoteTree(base: Option<Entries>, writes: seq<Note>, deletes: seq<string>)
    returns (r: Result<Entries, NoteError>)
    requires forall n | n in writes :: IsHex40(n.hash)
    requires forall h | h in deletes :: IsHex40(h)
    requires NoteTree(Start(base))
    ensures r.Ok? <==> NoDuplicates(deletes) && forall h | h in deletes :: Lookup(Start(base), h).Some?
    ensures r.Err? ==>
              exists k :: 0 <= k < |deletes| && r.error.hash == deletes[k] &&
                (deletes[k] in deletes[..k] || Lookup(Start(base), deletes[k]).None?)
    ensures r.Ok? ==> NoteTree(r.value) && OthersKept(Start(base), r.value)
    ensures r.Ok? ==> forall n | n in writes :: Flat(r.value, n.hash).Some?
    ensures r.Ok? ==>
              forall x | IsHex40(x) :: Lookup(r.value, x) ==
                (match LastNote(writes, x)
                 case Some(f) => Some(Blob(f))
                 case None => if x in deletes then None else Lookup(Start(base), x))
  {
    DeleteAllNotes(Start(base), deletes);
    var remaining := ApplyDeletes(Start(base), deletes);
    if remaining.Err? {
      ghost var k :| 0 <= k < |deletes| && StopsAt(Start(base), deletes, k) && remaining.error.hash == deletes[k];
      DeleteAllNotes(Start(base), deletes[..k]);
      DeleteNote(DeleteAll(Start(base), deletes[..k]).value, deletes[k]);
      return Err(remaining.error);
    }
    WriteAllNotes(remaining.value, writes);
    assert base.None? ==> OnlyFiles(remaining.value) by {
      if base.None? { DeletesFromNothing(deletes); }
    }
    var treeMap := ApplyWrites(remaining.value, writes, base.Some?);
    return Ok(treeMap);
  }

  lemma {:induction false} DeletesFromNothing(hs: seq<string>)
    requires (forall h | h in hs :: IsHex40(h)) && DeleteAll(map[], hs).Ok?
    ensures DeleteAll(map[], hs) == Ok(map[])
  {
    if hs != [] {
      DeletesFromNothing(hs[..|hs| - 1]);
    }
  }

  /** The first `k` deletes succeed, and the next one finds nothing. */
  ghost predicate StopsAt(m: Entries, hs: seq<string>, k: nat)
    requires k < |hs| && forall h | h in hs :: IsHex40(h)
  {
    && (forall h | h in hs[..k] :: IsHex40(h))
    && DeleteAll(m, hs[..k]).Ok? && Deleted(DeleteAll(m, hs[..k]).value, hs[k]).None?
  }

  method ApplyDeletes(start: Entries, deletes: seq<string>) returns (r: Result<Entries, NoteError>)
    requires forall h | h in deletes :: IsHex40(h)
    ensures r.Ok? == DeleteAll(start, deletes).Ok?
    ensures r.Ok? ==> r == DeleteAll(start, deletes)
    ensures r.Err? ==> exists k :: 0 <= k < |deletes| && StopsAt(start, deletes, k) && r.error.hash == deletes[k]
  {
    var treeMap := start;
    for i := 0 to |deletes|
      invariant DeleteAll(start, deletes[..i]) == Ok(treeMap)
    {
      var h := deletes[i];
      assert h in deletes;
      assert deletes[..i + 1][..i] == deletes[..i];
      if h in treeMap && treeMap[h].Blob? {
        treeMap := treeMap - {h};
      } else {
        var cleared, found := ClearFanned(treeMap, h);
        if !found {
          DeleteStops(start, deletes, i + 1);
          assert StopsAt(start, deletes, i);
          return Err(KeyNotFound(h));
        }
        treeMap := cleared;
      }
    }
    assert deletes[..|deletes|] == deletes;
    return Ok(treeMap);
  }

  /** Once a delete has failed, the rest does not matter. */
  lemma {:induction false} DeleteStops(m: Entries, hs: seq<string>, i: nat)
    requires (forall h | h in hs :: IsHex40(h)) && i <= |hs| && DeleteAll(m, hs[..i]).Err?
    ensures DeleteAll(m, hs).Err?
  {
    if i == |hs| {
      assert hs[..i] == hs;
    } else {
      assert hs[..|hs| - 1][..i] == hs[..i];
      DeleteStops(m, hs[..|hs| - 1], i);
    }
  }

  method ApplyWrites(start: Entries, writes: seq<Note>, hasBase: bool) returns (treeMap: Entries)
    requires forall n | n in writes :: IsHex40(n.hash)
    requires !hasBase ==> OnlyFiles(start)
    ensures treeMap == WriteAll(start, writes)
  {
    treeMap := start;
    for i := 0 to |writes|
      invariant treeMap == WriteAll(start, writes[..i])
      invariant !hasBase ==> OnlyFiles(treeMap)
    {
      var n := writes[i];
      assert n in writes;
      assert writes[..i + 1][..i] == writes[..i];
      if hasBase {
        var cleared, found := ClearFanned(treeMap, n.hash);
        treeMap := cleared;
      }
      treeMap := treeMap[n.hash := Blob(n.file)];
    }
    assert writes[..|writes|] == writes;
  }

  // ---------------------------------------------------------------------
  // Iteration
  // ---------------------------------------------------------------------

  datatype Listed = Listed(hash: string, note: Tree)

  ghost predicate HashesDiffer(s: seq<Listed>)
  {
    forall i, j | 0 <= i < j < |s| :: s[i].hash != s[j].hash
  }

  /** Reached through one of the given top-level names. */
  ghost predicate Via(m: Entries, names: set<Name>, f: Listed)
  {
    && IsHex40(f.hash)
    && ((f.hash in names && Flat(m, f.hash) == Some(f.note)) ||
        (Prefix(f.hash) in names && Fanned(m, f.hash) == Some(f.note)))
  }

  /** Lists each note exactly once. */
  method IterNotes(m: Entries) returns (result: seq<Listed>)
    requires NoteTree(m)
    ensures HashesDiffer(result)
    ensures forall f :: f in result <==> IsHex40(f.hash) && Lookup(m, f.hash) == Some(f.note)
  {
    result := [];
    var todo := m.Keys;
    while todo != {}
      invariant todo <= m.Keys
      invariant HashesDiffer(result)
      invariant forall f :: f in result <==> Via(m, m.Keys - todo, f)
      decreases todo
    {
      var name :| name in todo;
      ghost var done := m.Keys - todo;
      todo := todo - {name};
      assert m.Keys - todo == done + {name};
      ViaName(m, name);
      if m[name].Dir? && |name| == 2 {
        result := IterFanned(m, name, result, done);
      } else if IsHex40(name) {
        FlatIsNew(m, name, result, done);
        result := result + [Listed(name, m[name])];
      }
    }
    assert m.Keys - todo == m.Keys;
  }

  lemma {:induction false} FlatIsNew(m: Entries, h: string, before: seq<Listed>, done: set<Name>)
    requires NoteTree(m) && IsHex40(h) && h in m && h !in done
    requires forall f :: f in before <==> Via(m, done, f)
    ensures forall i | 0 <= i < |before| :: before[i].hash != h
  {
    forall f | f in before ensures f.hash != h {
      assert Via(m, done, f);
    }
  }

  /** What one top-level name contributes. */
  lemma {:induction false} ViaName(m: Entries, name: Name)
    requires NoteTree(m) && name in m
    ensures m[name].Dir? && |name| == 2 ==>
              forall f :: Via(m, {name}, f) <==>
                IsHex40(f.hash) && Prefix(f.hash) == name && Get(m[name].entries, Suffix(f.hash)) == Some(f.note)
    ensures !(m[name].Dir? && |name| == 2) ==>
              forall f :: Via(m, {name}, f) <==> IsHex40(name) && f == Listed(name, m[name])
  {
  }

  method IterFanned(m: Entries, name: Name, before: seq<Listed>, ghost done: set<Name>) returns (result: seq<Listed>)
    requires NoteTree(m) && name in m && m[name].Dir? && |name| == 2 && name !in done
    requires HashesDiffer(before) && forall f :: f in before <==> Via(m, done, f)
    ensures HashesDiffer(result)
    ensures forall f :: f in result <==> f in before || Via(m, {name}, f)
  {
    result := before;
    var entries := m[name].entries;
    var todo := entries.Keys;
    while todo != {}
      invariant todo <= entries.Keys
      invariant HashesDiffer(result)
      invariant forall f :: f in result <==>
                  f in before || (Via(m, {name}, f) && Suffix(f.hash) !in todo)
      decreases todo
    {
      var sub :| sub in todo;
      todo := todo - {sub};
      var full := name + sub;
      if IsHex40(full) {
        assert Prefix(full) == name && Suffix(full) == sub;
        FannedIsNew(m, name, full, before, done);
        result := result + [Listed(full, entries[sub])];
      }
      forall f: Listed | IsHex40(f.hash) && Prefix(f.hash) == name && Suffix(f.hash) == sub ensures f.hash == full {
        assert f.hash == Prefix(f.hash) + Suffix(f.hash);
      }
    }
  }

  lemma {:induction false} FannedIsNew(m: Entries, name: Name, h: string, before: seq<Listed>, done: set<Name>)
    requires NoteTree(m) && IsHex40(h) && Prefix(h) == name && name !in done && Fanned(m, h).Some?
    requires forall f :: f in before <==> Via(m, done, f)
    ensures forall f | f in before :: f.hash != h
  {
  }
}
