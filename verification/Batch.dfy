/**
 Batch staging: the pending lists of the C++ port, and why committing them at
 once is committing the staged operations one at a time.
 */
module Batch {
  import opened Wrappers
  import opened Trees
  import opened Changes
  import opened PrefixRebuild
  import opened PortAgreement

  datatype Pending = Pending(writes: seq<Change>, removes: seq<Change>)

  /** The list without its changes at `p`. */
  function Without(cs: seq<Change>, p: Path): seq<Change>
  {
    if cs == [] then []
    else
      var rest := Without(cs[..|cs| - 1], p);
      if cs[|cs| - 1].path == p then rest else rest + [cs[|cs| - 1]]
  }

  /** Staging one operation: a write cancels a pending remove of its path and
      replaces a pending write; a remove cancels a pending write. */
  function Stage(s: Pending, op: Change): Pending
  {
    if op.file.Some? then
      Pending(Without(s.writes, op.path) + [op], Without(s.removes, op.path))
    else
      Pending(Without(s.writes, op.path), if op in s.removes then s.removes else s.removes + [op])
  }

  function StageAll(ops: seq<Change>): Pending
  {
    if ops == [] then Pending([], []) else Stage(StageAll(ops[..|ops| - 1]), ops[|ops| - 1])
  }

  /** The last operation on `p`. */
  function LastOp(ops: seq<Change>, p: Path): Option<Change>
  {
    if ops == [] then None
    else if ops[|ops| - 1].path == p then Some(ops[|ops| - 1])
    else LastOp(ops[..|ops| - 1], p)
  }

  predicate DistinctPaths(cs: seq<Change>)
  {
    forall i, j | 0 <= i < j < |cs| :: cs[i].path != cs[j].path
  }

  lemma {:induction false} WithoutMember(cs: seq<Change>, p: Path)
    ensures forall c :: c in Without(cs, p) <==> c in cs && c.path != p
    ensures DistinctPaths(cs) ==> DistinctPaths(Without(cs, p))
  {
    if cs != [] {
      assert cs == cs[..|cs| - 1] + [cs[|cs| - 1]];
      WithoutMember(cs[..|cs| - 1], p);
    }
  }

  /** The pending lists hold, for every path, exactly its last operation: so they
      are duplicate-free and no path is in both. */
  lemma {:induction false} PendingIsLast(ops: seq<Change>)
    ensures var s := StageAll(ops);
            && OnlyWrites(s.writes) && OnlyRemoves(s.removes)
            && DistinctPaths(s.writes) && DistinctPaths(s.removes)
            && (forall c :: c in s.writes <==> c.file.Some? && LastOp(ops, c.path) == Some(c))
            && (forall c :: c in s.removes <==> c.file.None? && LastOp(ops, c.path) == Some(c))
  {
    if ops != [] {
      var front, op := ops[..|ops| - 1], ops[|ops| - 1];
      PendingIsLast(front);
      var s := StageAll(front);
      WithoutMember(s.writes, op.path);
      WithoutMember(s.removes, op.path);
    }
  }

  lemma {:induction false} LastOpIsMember(ops: seq<Change>, p: Path)
    ensures Touched(ops, p) <==> LastOp(ops, p).Some?
    ensures LastOp(ops, p).Some? ==> LastOp(ops, p).value in ops && LastOp(ops, p).value.path == p
  {
    if ops != [] {
      assert ops == ops[..|ops| - 1] + [ops[|ops| - 1]];
      LastOpIsMember(ops[..|ops| - 1], p);
    }
  }

  // ---------------------------------------------------------------------
  // Batching equals sequencing
  // ---------------------------------------------------------------------

  function CommitOne(m: Entries, op: Change): Entries
  {
    if op.file.Some? then CppRebuilt(m, [op], []) else CppRebuilt(m, [], [op])
  }

  function OneByOne(m: Entries, ops: seq<Change>): Entries
  {
    if ops == [] then m else CommitOne(OneByOne(m, ops[..|ops| - 1]), ops[|ops| - 1])
  }

  /** The tree of a batch commit of the operations. */
  function Batched(m: Entries, ops: seq<Change>): Entries
  {
    CppRebuilt(m, StageAll(ops).writes, StageAll(ops).removes)
  }

  /** Committing the batch leaves the files that committing each operation in order
      leaves, from every base. */
  ghost predicate BatchIsSequence(ops: seq<Change>)
  {
    forall m: Entries :: SameFiles(Dir(Batched(m, ops)), Dir(OneByOne(m, ops)))
  }

  /** At, above or below `p`; changes to the root do nothing. */
  predicate Near(c: Change, p: Path)
  {
    c.path != [] && (c.path <= p || p <= c.path)
  }

  /** The last operation at, above or below `p`. */
  function LastNear(ops: seq<Change>, p: Path): Option<Change>
  {
    if ops == [] then None
    else if Near(ops[|ops| - 1], p) then Some(ops[|ops| - 1])
    else LastNear(ops[..|ops| - 1], p)
  }

  /** The file at `p` after the operations in order: the last one near `p` decides. */
  function InOrder(base: Tree, ops: seq<Change>, p: Path): Option<File>
  {
    if p == [] then None
    else match LastNear(ops, p)
      case None => FileAt(base, p)
      case Some(op) => if op.path == p then op.file else None
  }

  /** What one operation makes of the file that was at `p`. */
  function AfterOne(before: Option<File>, op: Change, p: Path): Option<File>
  {
    if p == [] || !Near(op, p) then before else if op.path == p then op.file else None
  }

  lemma {:induction false} OneWrite(base: Tree, op: Change, p: Path)
    requires base.Dir? && op.file.Some?
    ensures CppOverlay(base, [op], [], p) == AfterOne(FileAt(base, p), op, p)
  {
    var ws, rs: seq<Change> := [op], [];
    assert op in ws;
    LastWriteIsMember(ws, p);
    assert !Cut(ws, rs, p);
  }

  lemma {:induction false} OneRemove(base: Tree, op: Change, p: Path)
    requires base.Dir? && op.file.None?
    ensures CppOverlay(base, [], [op], p) == AfterOne(FileAt(base, p), op, p)
  {
    var ws: seq<Change>, rs := [], [op];
    assert op in rs;
    NotBelowFirst(rs, op.path);
    assert Cut(ws, rs, p) <==> op.path != [] && op.path <= p;
  }

  lemma {:induction false} CommitOneAt(m: Entries, op: Change, p: Path)
    ensures FileAt(Dir(CommitOne(m, op)), p) == AfterOne(FileAt(Dir(m), p), op, p)
  {
    if op.file.Some? {
      OneWrite(Dir(m), op, p);
      CppOverlaysAt(m, [op], [], p);
    } else {
      OneRemove(Dir(m), op, p);
      CppOverlaysAt(m, [], [op], p);
    }
  }

  lemma {:induction false} OneByOneAt(m: Entries, ops: seq<Change>, p: Path)
    ensures FileAt(Dir(OneByOne(m, ops)), p) == InOrder(Dir(m), ops, p)
  {
    if ops != [] {
      var front, op := ops[..|ops| - 1], ops[|ops| - 1];
      OneByOneAt(m, front, p);
      CommitOneAt(OneByOne(m, front), op, p);
    }
  }

  /** When batching is sequencing: a pending write with none above it comes after every
      other operation near it; below a pending remove with no pending change above it
      nothing is written, and nothing removed earlier than it. */
  ghost predicate BatchKeepsOrder(ops: seq<Change>)
  {
    var s := StageAll(ops);
    && (forall w | w in s.writes && w.path != [] && !ChangedAbove(s.writes, w.path) :: LastNear(ops, w.path) == Some(w))
    && (forall r | r in s.removes && r.path != [] && !ChangedAbove(s.writes, r.path) && !ChangedAbove(s.removes, r.path) ::
          !Held(s.writes, s.removes, r.path))
  }

  // ---------------------------------------------------------------------
  // The last operation near a path
  // ---------------------------------------------------------------------

  lemma {:induction false} LastNearIsMember(ops: seq<Change>, p: Path)
    ensures LastNear(ops, p).Some? ==> LastNear(ops, p).value in ops && Near(LastNear(ops, p).value, p)
    ensures LastNear(ops, p).None? ==> forall c | c in ops :: !Near(c, p)
    ensures LastNear(ops, p).Some? && LastNear(ops, p).value.path == p ==> LastOp(ops, p) == LastNear(ops, p)
  {
    if ops != [] {
      assert ops == ops[..|ops| - 1] + [ops[|ops| - 1]];
      LastNearIsMember(ops[..|ops| - 1], p);
    }
  }

  /** Of two nested paths only one can be changed last. */
  lemma {:induction false} OneIsLater(ops: seq<Change>, p: Path, q: Path)
    requires [] < p < q && LastNear(ops, p).Some? && LastNear(ops, q).Some?
    ensures LastNear(ops, p).value.path != p || LastNear(ops, q).value.path != q
  {
    var front, op := ops[..|ops| - 1], ops[|ops| - 1];
    if !Near(op, p) && !Near(op, q) {
      OneIsLater(front, p, q);
    }
  }

  /** The pending lists touch what the operations touch. */
  lemma {:induction false} PendingTouches(ops: seq<Change>, p: Path)
    ensures var s := StageAll(ops);
            && (Touched(ops, p) <==> Touched(s.writes, p) || Touched(s.removes, p))
            && (Touched(s.writes, p) ==> LastOp(ops, p).Some? && LastOp(ops, p).value in s.writes)
            && (Touched(s.writes, p) ==> LastWrite(s.writes, p) == LastOp(ops, p).value.file)
            && (Touched(s.removes, p) ==> LastOp(ops, p) == Some(Change(p, None)))
  {
    var s := StageAll(ops);
    PendingIsLast(ops);
    LastOpIsMember(ops, p);
    LastWriteIsMember(s.writes, p);
  }

  lemma {:induction false} PendingNear(ops: seq<Change>, p: Path)
    ensures var s := StageAll(ops);
            (exists c :: c in ops && Near(c, p)) <==> (exists c :: (c in s.writes || c in s.removes) && Near(c, p))
  {
    var s := StageAll(ops);
    if c :| c in ops && Near(c, p) {
      PendingTouches(ops, c.path);
      assert Touched(ops, c.path);
      var d :| (d in s.writes || d in s.removes) && d.path == c.path;
      assert Near(d, p);
    }
    if c :| (c in s.writes || c in s.removes) && Near(c, p) {
      PendingIsLast(ops);
      LastOpIsMember(ops, c.path);
      assert c in ops;
    }
  }

  // ---------------------------------------------------------------------
  // Sufficiency
  // ---------------------------------------------------------------------

  lemma {:induction false} BelowPendingWrite(base: Tree, ops: seq<Change>, p: Path)
    requires BatchKeepsOrder(ops) && p != [] && ChangedAbove(StageAll(ops).writes, p)
    ensures InOrder(base, ops, p) == None
  {
    var s := StageAll(ops);
    var top := Outermost(s.writes, p);
    LastNearIsMember(ops, top.path);
    LastNearIsMember(ops, p);
    PendingNear(ops, p);
    assert Near(top, p);
    if top.path < p {
      OneIsLater(ops, top.path, p);
    }
  }

  /** Where nothing is written at or above `p`, an operation near `p` leaves no file there. */
  lemma {:induction false} NoPendingWrite(base: Tree, ops: seq<Change>, p: Path)
    requires p != [] && !Touched(StageAll(ops).writes, p)
    ensures InOrder(base, ops, p) == if exists c :: c in ops && Near(c, p) then None else FileAt(base, p)
  {
    LastNearIsMember(ops, p);
    PendingTouches(ops, p);
    if LastNear(ops, p).Some? && LastNear(ops, p).value.path == p {
      assert Touched(ops, p);
    }
  }

  lemma {:induction false} BatchAt(base: Tree, ops: seq<Change>, p: Path)
    requires BatchKeepsOrder(ops)
    ensures var s := StageAll(ops); CppOverlay(base, s.writes, s.removes, p) == InOrder(base, ops, p)
  {
    var s := StageAll(ops);
    if p == [] {
    } else if ChangedAbove(s.writes, p) {
      BelowPendingWrite(base, ops, p);
    } else if Touched(s.writes, p) {
      PendingTouches(ops, p);
      LastOpIsMember(ops, p);
    } else {
      NoPendingWrite(base, ops, p);
      PendingNear(ops, p);
      if Touched(s.removes, p) || ChangedAbove(s.removes, p) {
        var top := Outermost(s.removes, p);
        assert Near(top, p) && !ChangedAbove(s.writes, top.path);
      }
    }
  }

  // ---------------------------------------------------------------------
  // Necessity
  // ---------------------------------------------------------------------

  lemma {:induction false} BatchDiffers(ops: seq<Change>) returns (m: Entries, p: Path)
    requires !BatchKeepsOrder(ops)
    ensures var s := StageAll(ops); CppOverlay(Dir(m), s.writes, s.removes, p) != InOrder(Dir(m), ops, p)
  {
    var s := StageAll(ops);
    PendingIsLast(ops);
    m := map[];
    if w :| w in s.writes && w.path != [] && !ChangedAbove(s.writes, w.path) && LastNear(ops, w.path) != Some(w) {
      p := w.path;
      PendingTouches(ops, p);
      LastNearIsMember(ops, p);
      PendingNear(ops, p);
      assert Near(w, p);
    } else {
      var r :| r in s.removes && r.path != [] && Held(s.writes, s.removes, r.path)
               && !ChangedAbove(s.writes, r.path) && !ChangedAbove(s.removes, r.path);
      PendingTouches(ops, r.path);
      var z := FreshName(s.writes + s.removes);
      assert forall c | c in s.writes || c in s.removes :: c in s.writes + s.removes;
      m, p := LateRemoveKeeps(s.writes, s.removes, r, z);
      assert p[|r.path|] == z;
      assert !Touched(s.writes, p);
      NoPendingWrite(Dir(m), ops, p);
      PendingNear(ops, p);
      assert Near(r, p);
    }
  }

  // ---------------------------------------------------------------------
  // The theorem
  // ---------------------------------------------------------------------

  lemma {:induction false} BatchedAt(m: Entries, ops: seq<Change>, p: Path)
    ensures var s := StageAll(ops); FileAt(Dir(Batched(m, ops)), p) == CppOverlay(Dir(m), s.writes, s.removes, p)
  {
    PendingIsLast(ops);
    CppOverlaysAt(m, StageAll(ops).writes, StageAll(ops).removes, p);
  }

  /** Batching is sequencing if and only if the batch keeps the order. */
  lemma {:induction false} BatchIsSequenceExactly(ops: seq<Change>)
    ensures BatchKeepsOrder(ops) <==> BatchIsSequence(ops)
  {
    if BatchKeepsOrder(ops) {
      forall m: Entries, p: Path ensures FileAt(Dir(Batched(m, ops)), p) == FileAt(Dir(OneByOne(m, ops)), p) {
        BatchedAt(m, ops, p);
        OneByOneAt(m, ops, p);
        BatchAt(Dir(m), ops, p);
      }
    } else {
      var m, p := BatchDiffers(ops);
      BatchedAt(m, ops, p);
      OneByOneAt(m, ops, p);
      assert !SameFiles(Dir(Batched(m, ops)), Dir(OneByOne(m, ops)));
    }
  }

  /** In particular for operations no two of which are nested. */
  lemma {:induction false} UnnestedKeepsOrder(ops: seq<Change>)
    requires Unnested(ops)
    ensures BatchKeepsOrder(ops)
  {
    var s := StageAll(ops);
    PendingIsLast(ops);
    forall c | c in s.writes || c in s.removes
      ensures c in ops && !Held(s.writes, s.removes, c.path) && LastNear(ops, c.path) == Some(c)
    {
      LastOpIsMember(ops, c.path);
      forall d | d in s.writes || d in s.removes ensures !(c.path < d.path) {
        LastOpIsMember(ops, d.path);
      }
      NotBelowFirst(s.removes, c.path);
      LastNearIsMember(ops, c.path);
    }
  }

  // ---------------------------------------------------------------------
  // The batch object
  // ---------------------------------------------------------------------

  datatype BatchError = BatchClosed

  class Batch {
    const base: Entries
    var writes: seq<Change>
    var removes: seq<Change>
    var closed: bool
    /** The operations staged so far. */
    ghost var staged: seq<Change>

    ghost predicate Valid()
      reads this
    {
      Pending(writes, removes) == StageAll(staged)
    }

    constructor (base: Entries)
      ensures Valid() && !closed && staged == [] && this.base == base
    {
      this.base := base;
      writes, removes, closed, staged := [], [], false, [];
    }

    method Write(path: Path, file: File) returns (r: Result<(), BatchError>)
      requires Valid()
      modifies this`writes, this`removes, this`staged
      ensures Valid()
      ensures r == if closed then Err(BatchClosed) else Ok(())
      ensures staged == if closed then old(staged) else old(staged) + [Change(path, Some(file))]
    {
      if closed { return Err(BatchClosed); }
      var op := Change(path, Some(file));
      removes := Erase(removes, path);
      writes := Erase(writes, path);
      writes := writes + [op];
      staged := staged + [op];
      assert staged[..|staged| - 1] == old(staged);
      return Ok(());
    }

    method Remove(path: Path) returns (r: Result<(), BatchError>)
      requires Valid()
      modifies this`writes, this`removes, this`staged
      ensures Valid()
      ensures r == if closed then Err(BatchClosed) else Ok(())
      ensures staged == if closed then old(staged) else old(staged) + [Change(path, None)]
    {
      if closed { return Err(BatchClosed); }
      var op := Change(path, None);
      writes := Erase(writes, path);
      if op !in removes {
        removes := removes + [op];
      }
      staged := staged + [op];
      assert staged[..|staged| - 1] == old(staged);
      return Ok(());
    }

    /** The tree of the commit; a second commit is refused. */
    method Commit() returns (r: Result<Entries, BatchError>)
      requires Valid()
      modifies this`closed
      ensures Valid() && closed
      ensures old(closed) ==> r == Err(BatchClosed)
      ensures !old(closed) ==> r == Ok(Batched(base, staged))
      ensures !old(closed) && BatchKeepsOrder(staged) ==> SameFiles(Dir(r.value), Dir(OneByOne(base, staged)))
    {
      if closed { return Err(BatchClosed); }
      closed := true;
      var entries := CppRebuildTree(base, [], writes, removes);
      PendingIsLast(staged);
      RootIgnored(base, writes, removes);
      BatchIsSequenceExactly(staged);
      return Ok(entries);
    }
  }

  /** Compacts a pending list in place of its changes at `p`. */
  method Erase(cs: seq<Change>, p: Path) returns (r: seq<Change>)
    ensures r == Without(cs, p)
  {
    r := [];
    for i := 0 to |cs|
      invariant r == Without(cs[..i], p)
    {
      assert cs[..i + 1][..i] == cs[..i];
      if cs[i].path != p {
        r := r + [cs[i]];
      }
    }
    assert cs[..|cs|] == cs;
  }
}
