/**
 Staging note changes: the last change to each hash wins, and one build applies
 them all.
 */
module NotesBatch {
  import opened Wrappers
  import opened Trees
  import opened Notes

  /** Set the note of `hash`, or delete it when `file` is `None`. */
  datatype NoteOp = NoteOp(hash: string, file: Option<File>)

  function LastChange(ops: seq<NoteOp>, h: string): Option<NoteOp>
  {
    if ops == [] then None
    else if ops[|ops| - 1].hash == h then Some(ops[|ops| - 1])
    else LastChange(ops[..|ops| - 1], h)
  }

  /** The pending lists hold exactly the last change of every hash, once. */
  ghost predicate Pending(ops: seq<NoteOp>, writes: seq<Note>, deletes: seq<string>)
  {
    && (forall n :: n in writes <==> LastChange(ops, n.hash) == Some(NoteOp(n.hash, Some(n.file))))
    && (forall h :: h in deletes <==> LastChange(ops, h) == Some(NoteOp(h, None)))
    && NoDuplicates(writes) && NoDuplicates(deletes)
  }

  lemma {:induction false} LastNoteOfPending(writes: seq<Note>, h: string)
    ensures LastNote(writes, h).Some? ==> Note(h, LastNote(writes, h).value) in writes
    ensures LastNote(writes, h).None? ==> forall n | n in writes :: n.hash != h
  {
    if writes != [] {
      LastNoteOfPending(writes[..|writes| - 1], h);
    }
  }

  /** The notes after one operation at a time, by their last change. */
  ghost function Expected(m: Entries, ops: seq<NoteOp>, h: string): Option<Tree>
    requires IsHex40(h)
  {
    match LastChange(ops, h)
    case None => Lookup(m, h)
    case Some(op) => if op.file.Some? then Some(Blob(op.file.value)) else None
  }

  /** Applying the operations one build at a time; a delete without a note fails. */
  function InOrder(m: Entries, ops: seq<NoteOp>): Result<Entries, NoteError>
    requires forall op | op in ops :: IsHex40(op.hash)
  {
    if ops == [] then Ok(m)
    else match InOrder(m, ops[..|ops| - 1])
      case Err(e) => Err(e)
      case Ok(v) =>
        var op := ops[|ops| - 1];
        if op.file.Some? then Ok(Written(v, op.hash, op.file.value))
        else match Deleted(v, op.hash)
          case None => Err(KeyNotFound(op.hash))
          case Some(u) => Ok(u)
  }

  /** A delete whose turn comes when there is no note. */
  ghost predicate Misses(m: Entries, ops: seq<NoteOp>, k: nat)
    requires k < |ops| && forall op | op in ops :: IsHex40(op.hash)
  {
    ops[k].file.None? && Expected(m, ops[..k], ops[k].hash).None?
  }

  ghost predicate NoneMisses(m: Entries, ops: seq<NoteOp>)
    requires forall op | op in ops :: IsHex40(op.hash)
  {
    forall k | 0 <= k < |ops| :: !Misses(m, ops, k)
  }

  lemma {:induction false} MissesStep(m: Entries, ops: seq<NoteOp>)
    requires ops != [] && forall op | op in ops :: IsHex40(op.hash)
    ensures NoneMisses(m, ops) <==> NoneMisses(m, ops[..|ops| - 1]) && !Misses(m, ops, |ops| - 1)
  {
    var front := ops[..|ops| - 1];
    forall k | 0 <= k < |front| ensures Misses(m, front, k) <==> Misses(m, ops, k) {
      assert front[..k] == ops[..k];
    }
  }

  /** One build at a time succeeds exactly when every delete finds a note, and then
      leaves the last change of every hash. */
  lemma {:induction false} InOrderNotes(m: Entries, ops: seq<NoteOp>)
    requires NoteTree(m) && forall op | op in ops :: IsHex40(op.hash)
    ensures InOrder(m, ops).Ok? <==> NoneMisses(m, ops)
    ensures InOrder(m, ops).Ok? ==>
              var v := InOrder(m, ops).value;
              NoteTree(v) && forall x | IsHex40(x) :: Lookup(v, x) == Expected(m, ops, x)
  {
    if ops != [] {
      var front, op := ops[..|ops| - 1], ops[|ops| - 1];
      assert op in ops;
      InOrderNotes(m, front);
      MissesStep(m, ops);
      if InOrder(m, front).Ok? {
        var v := InOrder(m, front).value;
        if op.file.Some? {
          WriteNote(v, op.hash, op.file.value);
        } else {
          DeleteNote(v, op.hash);
        }
      }
    }
  }

  class NotesBatch {
    var writes: seq<Note>
    var deletes: seq<string>
    /** The operations staged so far. */
    ghost var staged: seq<NoteOp>

    ghost predicate Valid()
      reads this
    {
      Pending(staged, writes, deletes) && forall op | op in staged :: IsHex40(op.hash)
    }

    constructor ()
      ensures Valid() && staged == []
    {
      writes, deletes, staged := [], [], [];
    }

    method Set(hash: string, file: File)
      requires Valid() && IsHex40(hash)
      modifies this
      ensures Valid() && staged == old(staged) + [NoteOp(hash, Some(file))]
    {
      deletes := Retain(deletes, h => h != hash);
      writes := Retain(writes, (n: Note) => n.hash != hash);
      writes := writes + [Note(hash, file)];
      staged := staged + [NoteOp(hash, Some(file))];
      assert staged[..|staged| - 1] == old(staged);
    }

    method Delete(hash: string)
      requires Valid() && IsHex40(hash)
      modifies this
      ensures Valid() && staged == old(staged) + [NoteOp(hash, None)]
    {
      writes := Retain(writes, (n: Note) => n.hash != hash);
      if hash !in deletes {
        deletes := deletes + [hash];
      }
      staged := staged + [NoteOp(hash, None)];
      assert staged[..|staged| - 1] == old(staged);
    }

    /** The notes tree to commit.  It exists exactly when every hash deleted last has a
        note in the base, and then holds the last change of every hash: the notes that
        the staged operations leave when applied in order. */
    method Commit(base: Option<Entries>) returns (r: Result<Entries, NoteError>)
      requires Valid() && NoteTree(Start(base))
      ensures r.Ok? <==> forall h | LastChange(staged, h) == Some(NoteOp(h, None)) && IsHex40(h) ::
                           Lookup(Start(base), h).Some?
      ensures r.Ok? ==> NoteTree(r.value)
      ensures r.Ok? ==> forall x | IsHex40(x) :: Lookup(r.value, x) == Expected(Start(base), staged, x)
      ensures r.Ok? && InOrder(Start(base), staged).Ok? ==>
                forall x | IsHex40(x) :: Lookup(r.value, x) == Lookup(InOrder(Start(base), staged).value, x)
    {
      PendingHashes(staged, writes, deletes);
      if writes == [] && deletes == [] {
        r := Ok(Start(base));
      } else {
        r := BuildNoteTree(base, writes, deletes);
      }
      forall x | IsHex40(x) ensures r.Ok? ==> Lookup(r.value, x) == Expected(Start(base), staged, x) {
        LastNoteOfPending(writes, x);
        ExpectedOfPending(Start(base), staged, writes, deletes, x);
      }
      InOrderNotes(Start(base), staged);
    }
  }

  lemma {:induction false} PendingHashes(ops: seq<NoteOp>, writes: seq<Note>, deletes: seq<string>)
    requires Pending(ops, writes, deletes) && forall op | op in ops :: IsHex40(op.hash)
    ensures forall n | n in writes :: IsHex40(n.hash)
    ensures forall h | h in deletes :: IsHex40(h)
  {
    forall h ensures LastChange(ops, h).Some? ==> IsHex40(h) {
      LastChangeIsMember(ops, h);
    }
  }

  lemma {:induction false} LastChangeIsMember(ops: seq<NoteOp>, h: string)
    ensures LastChange(ops, h).Some? ==> LastChange(ops, h).value in ops && LastChange(ops, h).value.hash == h
  {
    if ops != [] { LastChangeIsMember(ops[..|ops| - 1], h); }
  }

  lemma {:induction false} ExpectedOfPending(m: Entries, ops: seq<NoteOp>, writes: seq<Note>, deletes: seq<string>, x: string)
    requires Pending(ops, writes, deletes) && IsHex40(x)
    ensures Expected(m, ops, x) ==
            match LastNote(writes, x)
            case Some(f) => Some(Blob(f))
            case None => if x in deletes then None else Lookup(m, x)
  {
    LastNoteOfPending(writes, x);
    LastChangeIsMember(ops, x);
    if LastChange(ops, x).Some? && LastChange(ops, x).value.file.Some? {
      assert Note(x, LastChange(ops, x).value.file.value) in writes;
    }
  }

  /** Keeps, in order, the members that pass the test. */
  method Retain<T(==)>(s: seq<T>, keep: T -> bool) returns (r: seq<T>)
    requires NoDuplicates(s)
    ensures NoDuplicates(r) && forall x :: x in r <==> x in s && keep(x)
  {
    r := [];
    for i := 0 to |s|
      invariant NoDuplicates(r) && forall x :: x in r <==> x in s[..i] && keep(x)
    {
      assert s[..i + 1] == s[..i] + [s[i]];
      assert s[i] !in s[..i];
      if keep(s[i]) {
        r := r + [s[i]];
      }
    }
  }
}
