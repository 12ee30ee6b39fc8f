/**
 One branch of the Python port: its tip, its reflog, and the operations that move
 it.  Each operation is one transaction under the repository lock.
 */
module Branch {
  import opened Wrappers
  import opened Trees
  import opened Changes
  import opened Rebuild
  import opened History

  /** What the reflog message says moved the branch. */
  datatype Kind = ByCreation | ByCommit | ByUndo | ByRedo | BySet

  /** One move; `before` is `None` for the zero id of a newly created branch. */
  datatype LogEntry = LogEntry(before: Option<Commit>, after: Commit, kind: Kind)

  datatype State = State(tip: Commit, log: seq<LogEntry>)

  datatype MoveError =
    | BadSteps
    | Stale
    | NotEnoughHistory
    | NoReflog
    | NotInReflog
    | TooFarBack
    | CreationPoint

  /** Moving the ref and appending to its log. */
  function Moved(s: State, to: Commit, kind: Kind): State
  {
    State(to, s.log + [LogEntry(Some(s.tip), to, kind)])
  }

  function Created(c: Commit): State
  {
    State(c, [LogEntry(None, c, ByCreation)])
  }

  // ---------------------------------------------------------------------
  // Redo: by index into the reflog
  // ---------------------------------------------------------------------

  /** The newest entry that moved the branch to `c`. */
  function LatestMoveTo(log: seq<LogEntry>, c: Commit): Option<nat>
  {
    if log == [] then None
    else if log[|log| - 1].after == c then Some(|log| - 1)
    else LatestMoveTo(log[..|log| - 1], c)
  }

  /** `steps` entries back from `index`, each to where the branch was before it. */
  function StepBack(log: seq<LogEntry>, index: int, steps: nat, target: Commit): Result<Commit, MoveError>
    requires index < |log|
    decreases steps
  {
    if steps == 0 then Ok(target)
    else if index < 0 then Err(TooFarBack)
    else match log[index].before
      case None => Err(CreationPoint)
      case Some(c) => StepBack(log, index - 1, steps - 1, c)
  }

  lemma {:induction false} LatestMoveInRange(log: seq<LogEntry>, c: Commit)
    ensures LatestMoveTo(log, c).Some? ==>
              LatestMoveTo(log, c).value < |log| && log[LatestMoveTo(log, c).value].after == c
  {
    if log != [] { LatestMoveInRange(log[..|log| - 1], c); }
  }

  function RedoTarget(log: seq<LogEntry>, current: Commit, steps: nat): Result<Commit, MoveError>
  {
    if log == [] then Err(NoReflog)
    else
      LatestMoveInRange(log, current);
      match LatestMoveTo(log, current)
      case None => Err(NotInReflog)
      case Some(i) => StepBack(log, i, steps, current)
  }

  // ---------------------------------------------------------------------
  // The operations
  // ---------------------------------------------------------------------

  datatype Action =
    | CommitTree(changes: seq<Change>, extra: seq<Commit>, stamp: nat)
    | Undo(steps: int)
    | Redo(steps: int)
    | SetTo(target: Commit)

  /** An action taken with the snapshot its caller holds. */
  datatype Op = Op(snap: Commit, action: Action)

  /** Where the action leads from its snapshot, if anywhere. */
  function Outcome(s: State, op: Op): Result<Commit, MoveError>
  {
    match op.action
    case CommitTree(cs, extra, stamp) =>
      var tree := PythonRebuilt(op.snap.tree, cs);
      if s.tip != op.snap then Err(Stale)
      else if tree == op.snap.tree then Ok(op.snap)
      else Ok(Commit(tree, [op.snap] + extra, stamp))
    case Undo(steps) =>
      if steps < 1 then Err(BadSteps)
      else if Back(op.snap, steps).None? then Err(NotEnoughHistory)
      else if s.tip != op.snap then Err(Stale)
      else Ok(Back(op.snap, steps).value)
    case Redo(steps) =>
      if steps < 1 then Err(BadSteps)
      else if s.tip != op.snap then Err(Stale)
      else RedoTarget(s.log, op.snap, steps)
    case SetTo(target) => Ok(target)
  }

  /** A commit that changes nothing moves nothing. */
  predicate Skips(s: State, op: Op)
  {
    op.action.CommitTree? && PythonRebuilt(op.snap.tree, op.action.changes) == op.snap.tree
  }

  function KindOf(a: Action): Kind
  {
    match a
    case CommitTree(_, _, _) => ByCommit
    case Undo(_) => ByUndo
    case Redo(_) => ByRedo
    case SetTo(_) => BySet
  }

  predicate Moves(s: State, op: Op)
  {
    Outcome(s, op).Ok? && !Skips(s, op)
  }

  function Step(s: State, op: Op): State
  {
    if Moves(s, op) then Moved(s, Outcome(s, op).value, KindOf(op.action)) else s
  }

  // ---------------------------------------------------------------------
  // Runs
  // ---------------------------------------------------------------------

  function Run(s: State, ops: seq<Op>): State
  {
    if ops == [] then s else Step(Run(s, ops[..|ops| - 1]), ops[|ops| - 1])
  }

  /** The tips the branch has had, oldest first: one per move of the run. */
  function Tips(s: State, ops: seq<Op>): (tips: seq<Commit>)
    ensures tips != []
  {
    if ops == [] then [s.tip]
    else
      var front, op := ops[..|ops| - 1], ops[|ops| - 1];
      if Moves(Run(s, front), op) then Tips(s, front) + [Outcome(Run(s, front), op).value] else Tips(s, front)
  }

  /** Each entry starts where the previous one ended; the first created the branch;
      the last ends at the tip. */
  predicate LogIsChain(s: State)
  {
    && s.log != []
    && s.log[0].before == None
    && (forall i | 0 < i < |s.log| :: s.log[i].before == Some(s.log[i - 1].after))
    && s.log[|s.log| - 1].after == s.tip
  }

  /** Over every run the reflog is a chain and records every tip, in order. */
  lemma {:induction false} LogRecordsTips(c: Commit, ops: seq<Op>)
    ensures var s, tips := Run(Created(c), ops), Tips(Created(c), ops);
            && LogIsChain(s)
            && |s.log| == |tips|
            && s.tip == tips[|tips| - 1]
            && forall i | 0 <= i < |tips| :: s.log[i].after == tips[i]
  {
    if ops != [] {
      var front, op := ops[..|ops| - 1], ops[|ops| - 1];
      LogRecordsTips(c, front);
    }
  }

  lemma {:induction false} StepBackOnChain(s: State, index: nat, steps: nat)
    requires LogIsChain(s) && index < |s.log|
    ensures StepBack(s.log, index, steps, s.log[index].after) ==
            if steps <= index then Ok(s.log[index - steps].after) else Err(CreationPoint)
    decreases steps
  {
    if steps > 0 && index > 0 {
      StepBackOnChain(s, index - 1, steps - 1);
    }
  }

  /** On a chained log the newest move to the tip is the last one, so `redo(j)` counts
      back from there. */
  lemma {:induction false} RedoOnChain(s: State, j: int)
    requires LogIsChain(s)
    ensures Outcome(s, Op(s.tip, Redo(j))) ==
            if j < 1 then Err(BadSteps)
            else if j < |s.log| then Ok(s.log[|s.log| - 1 - j].after)
            else Err(CreationPoint)
  {
    if j >= 1 {
      StepBackOnChain(s, |s.log| - 1, j);
    }
  }

  /** After every run, `redo(j)` from the tip lands on the tip as it was `j` moves
      ago, and fails exactly when the branch has not made that many moves. */
  lemma {:induction false} RedoLandsJMovesAgo(c: Commit, ops: seq<Op>, s: State, tips: seq<Commit>, j: int)
    requires s == Run(Created(c), ops) && tips == Tips(Created(c), ops)
    ensures Outcome(s, Op(s.tip, Redo(j))) ==
            if j < 1 then Err(BadSteps)
            else if j < |tips| then Ok(tips[|tips| - 1 - j])
            else Err(CreationPoint)
  {
    LogRecordsTips(c, ops);
    RedoOnChain(s, j);
  }

  /** Every commit the branch ever held is the tip or one `redo` away. */
  lemma {:induction false} EveryTipIsRecoverable(c: Commit, ops: seq<Op>, lost: Commit)
    requires lost in Tips(Created(c), ops)
    ensures var s := Run(Created(c), ops);
            s.tip == lost || exists j :: j >= 1 && Step(s, Op(s.tip, Redo(j))).tip == lost
  {
    var s, tips := Run(Created(c), ops), Tips(Created(c), ops);
    LogRecordsTips(c, ops);
    var i :| 0 <= i < |tips| && tips[i] == lost;
    if i < |tips| - 1 {
      var j := |tips| - 1 - i;
      RedoLandsJMovesAgo(c, ops, s, tips, j);
      assert Step(s, Op(s.tip, Redo(j))).tip == lost;
    }
  }

  // ---------------------------------------------------------------------
  // What each operation does to the branch
  // ---------------------------------------------------------------------

  /** The branch has made one move, and the reflog says so. */
  predicate MovedTo(s: State, t: State, to: Commit, kind: Kind)
  {
    t.tip == to && t.log == s.log + [LogEntry(Some(s.tip), to, kind)]
  }

  /** Only setting the branch disregards that it has moved since the snapshot. */
  lemma {:induction false} StaleMovesNothing(s: State, op: Op)
    requires op.snap != s.tip && !op.action.SetTo?
    ensures Step(s, op) == s
  {
  }

  /** A commit on the tip leaves the branch at the tree with the changes: unmoved if that
      is the tree of the tip, else at a new child of the tip. */
  lemma {:induction false} CommitMoves(s: State, cs: seq<Change>, extra: seq<Commit>, stamp: nat)
    ensures var t := Step(s, Op(s.tip, CommitTree(cs, extra, stamp)));
            && t.tip.tree == PythonRebuilt(s.tip.tree, cs)
            && (t.tip.tree == s.tip.tree ==> t == s)
            && (t.tip.tree != s.tip.tree ==> Parent(t.tip) == Some(s.tip) && MovedTo(s, t, t.tip, ByCommit))
            && (t.tip.tree != s.tip.tree ==> t.tip.parents[1..] == extra && t.tip.stamp == stamp)
  {
  }

  /** For changes that are not nested: the files are those of the overlay, and from a
      tree without empty directories the branch stays put exactly when no file changes. */
  lemma {:induction false} CommitHasChanges(s: State, cs: seq<Change>, extra: seq<Commit>, stamp: nat)
    requires Unnested(cs)
    ensures var t := Step(s, Op(s.tip, CommitTree(cs, extra, stamp)));
            && (forall p: Path :: FileAt(Dir(t.tip.tree), p) == Overlay(Dir(s.tip.tree), cs, p))
            && (Canonical(s.tip.tree) ==> (t == s <==> NothingChanges(s.tip.tree, cs)))
  {
    CommitMoves(s, cs, extra, stamp);
    PythonAgreesWithRust(s.tip.tree, cs);
    RebuildOverlays(s.tip.tree, cs);
    if Canonical(s.tip.tree) { SkipIsNoChange(s.tip.tree, cs); }
  }

  /** Undo goes that many commits down the first-parent chain of the tip, or nowhere. */
  lemma {:induction false} UndoMoves(s: State, n: int)
    ensures var t := Step(s, Op(s.tip, Undo(n)));
            if 1 <= n < |Chain(s.tip)| then MovedTo(s, t, Chain(s.tip)[n], ByUndo) else t == s
  {
    if n >= 1 { BackIsChain(s.tip, n); }
  }

  /** Redo goes that many moves back, or nowhere. */
  lemma {:induction false} RedoMoves(s: State, n: int)
    requires LogIsChain(s)
    ensures var t := Step(s, Op(s.tip, Redo(n)));
            if 1 <= n < |s.log| then MovedTo(s, t, s.log[|s.log| - 1 - n].after, ByRedo) else t == s
  {
    RedoOnChain(s, n);
  }

  lemma {:induction false} SetMoves(s: State, snap: Commit, target: Commit)
    ensures MovedTo(s, Step(s, Op(snap, SetTo(target))), target, BySet)
  {
  }

  /** Over every run of commits, with any snapshots, the tips are one first-parent chain:
      every commit the branch took is an ancestor of the tip. */
  lemma {:induction false} CommitsStayOnBranch(c: Commit, ops: seq<Op>)
    requires forall op | op in ops :: op.action.CommitTree?
    ensures OneChain(Tips(Created(c), ops))
    ensures forall t | t in Tips(Created(c), ops) :: Ancestor(t, Run(Created(c), ops).tip)
  {
    CommitTipsChain(c, ops);
    LogRecordsTips(c, ops);
    var tips := Tips(Created(c), ops);
    forall t | t in tips ensures Ancestor(t, Run(Created(c), ops).tip) {
      var i :| 0 <= i < |tips| && tips[i] == t;
      TipsAreAncestors(tips, i);
    }
  }

  lemma {:induction false} CommitTipsChain(c: Commit, ops: seq<Op>)
    requires forall op | op in ops :: op.action.CommitTree?
    ensures OneChain(Tips(Created(c), ops))
  {
    if ops != [] {
      var front, op := ops[..|ops| - 1], ops[|ops| - 1];
      assert op in ops && op.action.CommitTree?;
      CommitTipsChain(c, front);
      LogRecordsTips(c, front);
      var s, tips, v := Run(Created(c), front), Tips(Created(c), front), Tips(Created(c), ops);
      forall i: nat | 0 < i < |v| ensures FollowsOn(v, i) {
        if i < |tips| { assert FollowsOn(tips, i); }
      }
    }
  }

  // ---------------------------------------------------------------------
  // The branch object
  // ---------------------------------------------------------------------

  class BranchRef {
    var tip: Commit
    var log: seq<LogEntry>

    function Current(): State
      reads this
    {
      State(tip, log)
    }

    constructor (c: Commit)
      ensures Current() == Created(c)
    {
      tip, log := c, [LogEntry(None, c, ByCreation)];
    }

    /** Compare-and-set of the ref, with its reflog entry. */
    method SetTarget(to: Commit, kind: Kind)
      modifies this
      ensures Current() == Moved(old(Current()), to, kind)
    {
      log := log + [LogEntry(Some(tip), to, kind)];
      tip := to;
    }

    method CommitChanges(snap: Commit, changes: seq<Change>, extra: seq<Commit>, stamp: nat)
      returns (r: Result<Commit, MoveError>)
      modifies this
      ensures r == Outcome(old(Current()), Op(snap, CommitTree(changes, extra, stamp)))
      ensures Current() == Step(old(Current()), Op(snap, CommitTree(changes, extra, stamp)))
      ensures r == (if old(tip) != snap then Err(Stale) else Ok(tip))
    {
      var tree := PythonRebuilt(snap.tree, changes);
      if tip != snap { return Err(Stale); }
      if tree == snap.tree { return Ok(snap); }
      var c := Commit(tree, [snap] + extra, stamp);
      SetTarget(c, ByCommit);
      return Ok(c);
    }

    method UndoMove(snap: Commit, steps: int) returns (r: Result<Commit, MoveError>)
      modifies this
      ensures r == Outcome(old(Current()), Op(snap, Undo(steps)))
      ensures Current() == Step(old(Current()), Op(snap, Undo(steps)))
      ensures r == (if steps < 1 then Err(BadSteps)
                    else if steps >= |Chain(snap)| then Err(NotEnoughHistory)
                    else if old(tip) != snap then Err(Stale)
                    else Ok(tip))
    {
      if steps < 1 { return Err(BadSteps); }
      BackIsChain(snap, steps);
      var target := WalkBack(snap, steps);
      if target.Err? { return Err(NotEnoughHistory); }
      if tip != snap { return Err(Stale); }
      SetTarget(target.value, ByUndo);
      return Ok(target.value);
    }

    method RedoMove(snap: Commit, steps: int) returns (r: Result<Commit, MoveError>)
      modifies this
      ensures r == Outcome(old(Current()), Op(snap, Redo(steps)))
      ensures Current() == Step(old(Current()), Op(snap, Redo(steps)))
      ensures r.Ok? ==> r.value == tip && old(tip) == snap && steps >= 1
      ensures steps < 1 ==> r == Err(BadSteps)
      ensures steps >= 1 && old(tip) != snap ==> r == Err(Stale)
    {
      if steps < 1 { return Err(BadSteps); }
      if tip != snap { return Err(Stale); }
      r := FindRedoTarget(log, snap, steps);
      if r.Ok? {
        SetTarget(r.value, ByRedo);
      }
    }

    method SetBranch(target: Commit)
      modifies this
      ensures Current() == Step(old(Current()), Op(target, SetTo(target)))
    {
      SetTarget(target, BySet);
    }
  }

  /** Searches the reflog from its end for the current commit, then walks back. */
  method FindRedoTarget(entries: seq<LogEntry>, current: Commit, steps: nat) returns (r: Result<Commit, MoveError>)
    ensures r == RedoTarget(entries, current, steps)
  {
    if entries == [] { return Err(NoReflog); }
    var i := |entries| - 1;
    assert entries[..|entries|] == entries;
    while i >= 0 && entries[i].after != current
      invariant -1 <= i < |entries|
      invariant LatestMoveTo(entries, current) == LatestMoveTo(entries[..i + 1], current)
    {
      assert entries[..i + 1][..i] == entries[..i];
      i := i - 1;
    }
    if i < 0 { return Err(NotInReflog); }
    var target, index := current, i;
    assert LatestMoveTo(entries[..i + 1], current) == Some(i);
    for step := 0 to steps
      invariant -1 <= index < |entries|
      invariant RedoTarget(entries, current, steps) == StepBack(entries, index, steps - step, target)
    {
      if index < 0 { return Err(TooFarBack); }
      if entries[index].before.None? { return Err(CreationPoint); }
      target := entries[index].before.value;
      index := index - 1;
    }
    return Ok(target);
  }
}
