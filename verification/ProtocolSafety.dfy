/**
 What every interleaving of the branch protocol keeps: the reflog tracks the ref,
 prepared moves stay meaningful, and no commit is lost.
 */
module ProtocolSafety {
  import opened Wrappers
  import opened Trees
  import opened Changes
  import opened Rebuild
  import opened History
  import opened Branch
  import opened Protocol

  // ---------------------------------------------------------------------
  // The reflog tracks the ref
  // ---------------------------------------------------------------------

  /** One entry per tip, each from the previous tip to its own. */
  predicate Tracks(log: seq<LogEntry>, tips: seq<Commit>)
  {
    |log| == |tips| && forall i | 0 <= i < |log| :: Records(log[i], tips, i)
  }

  predicate Records(e: LogEntry, tips: seq<Commit>, i: nat)
    requires i < |tips|
  {
    e.after == tips[i] && e.before == if i == 0 then None else Some(tips[i - 1])
  }

  /** Someone has written the ref and not yet the log. */
  predicate LogPending(w: World)
  {
    w.fileLock.Some? && PcOf(w, w.fileLock.value).Wrote?
  }

  predicate LogOk(w: World)
  {
    && w.tips != []
    && w.tip == w.tips[|w.tips| - 1]
    && if LogPending(w) then
         var pc := PcOf(w, w.fileLock.value);
         |w.tips| >= 2 && pc.to == w.tip && pc.from == w.tips[|w.tips| - 2] && Tracks(w.log, w.tips[..|w.tips| - 1])
       else Tracks(w.log, w.tips)
  }

  /** Steps other than the two writes change neither ref nor log, nor who owes the log. */
  lemma {:induction false} SilentStep(w: World, s: Step)
    requires LocksOk(w) && Enabled(w, s) && !s.action.WriteRef? && !s.action.AppendLog?
    ensures var v := Apply(w, s);
            && v.tip == w.tip && v.tips == w.tips && v.log == w.log
            && LogPending(v) == LogPending(w)
            && (LogPending(w) ==> v.fileLock == w.fileLock && PcOf(v, w.fileLock.value) == PcOf(w, w.fileLock.value))
  {
    assert HoldsFile(PcOf(w, s.client)) <==> w.fileLock == Some(s.client);
    OthersStay(w, s);
  }

  lemma {:induction false} TrackNext(log: seq<LogEntry>, tips: seq<Commit>, kind: Kind)
    requires |tips| >= 2 && Tracks(log, tips[..|tips| - 1])
    ensures Tracks(log + [LogEntry(Some(tips[|tips| - 2]), tips[|tips| - 1], kind)], tips)
  {
    var front := tips[..|tips| - 1];
    forall i: nat | i < |log| ensures Records(log[i], tips, i) {
      assert Records(log[i], front, i);
    }
  }

  lemma {:induction false} StepKeepsLog(w: World, s: Step)
    requires LocksOk(w) && LogOk(w) && Enabled(w, s)
    ensures LogOk(Apply(w, s))
  {
    var v := Apply(w, s);
    if s.action.WriteRef? || s.action.AppendLog? {
      assert HoldsFile(PcOf(w, s.client)) && w.fileLock == Some(s.client) == v.fileLock;
      assert v.tips[..|w.tips|] == w.tips;
      if s.action.AppendLog? {
        TrackNext(w.log, w.tips, KindOfJob(PcOf(w, s.client).job));
      }
    } else {
      SilentStep(w, s);
    }
  }

  // ---------------------------------------------------------------------
  // Prepared moves
  // ---------------------------------------------------------------------

  /** What a prepared move says about itself stays true while others move the branch. */
  ghost predicate JobOk(w: World, job: Job)
  {
    match job
    case CommitJob(snap, cs, _, _, tree) => snap in w.tips && tree == PythonRebuilt(snap.tree, cs)
    case UndoJob(snap, steps, target) => snap in w.tips && steps >= 1 && Back(snap, steps) == Some(target)
    case RedoJob(snap, steps, seen, target) =>
      && snap in w.tips && target in w.tips && steps >= 1 && seen <= |w.log|
      && RedoTarget(w.log[..seen], snap, steps) == Ok(target)
    case SetJob(_) => true
  }

  /** Where a prepared move leads. */
  predicate LeadsTo(job: Job, to: Commit)
  {
    match job
    case CommitJob(snap, _, extra, stamp, tree) => tree != snap.tree && to == Commit(tree, [snap] + extra, stamp)
    case UndoJob(_, _, target) => to == target
    case RedoJob(_, _, _, target) => to == target
    case SetJob(target) => to == target
  }

  /** The move starts at the snapshot it was prepared from. */
  predicate StartsAt(job: Job, from: Commit)
  {
    job.SetJob? || job.snap == from
  }

  ghost predicate ReplyOk(w: World, reply: Reply)
  {
    match reply
    case Landed(job, commit) => JobOk(w, job) && LeadsTo(job, commit) && commit in w.tips
    case NoChange(job) => JobOk(w, job) && job.CommitJob? && job.tree == job.snap.tree
    case Refused => true
  }

  ghost predicate PcOk(w: World, pc: Pc)
  {
    match pc
    case Idle => true
    case Holding(snap) => snap in w.tips
    case Peeked(snap, steps) => snap in w.tips && steps >= 1
    case Ready(job) => JobOk(w, job)
    case InThread(job) => JobOk(w, job)
    case InFile(job) => JobOk(w, job)
    case Passed(job, to) => JobOk(w, job) && LeadsTo(job, to) && StartsAt(job, w.tip)
    case Wrote(job, from, to) => JobOk(w, job) && LeadsTo(job, to) && StartsAt(job, from)
    case Leaving(reply) => ReplyOk(w, reply)
    case LeavingThread(reply) => ReplyOk(w, reply)
    case Returned(reply) => ReplyOk(w, reply)
  }

  ghost predicate ClientsOk(w: World)
  {
    forall c :: PcOk(w, PcOf(w, c))
  }

  /** A redo only ever leads to a commit the branch has held. */
  lemma {:induction false} RedoTargetWasTip(log: seq<LogEntry>, tips: seq<Commit>, current: Commit, steps: nat)
    requires Tracks(log, tips) && RedoTarget(log, current, steps).Ok?
    ensures RedoTarget(log, current, steps).value in tips
  {
    TrackedRedo(log, tips, current, steps);
  }

  /** The ref and the log only grow, so what was true of a client stays true. */
  lemma {:induction false} JobOkGrows(w: World, v: World, job: Job)
    requires JobOk(w, job) && w.tips <= v.tips && w.log <= v.log
    ensures JobOk(v, job)
  {
    assert forall c | c in w.tips :: c in v.tips;
    if job.RedoJob? {
      assert v.log[..job.seen] == w.log[..job.seen];
    }
  }

  lemma {:induction false} PcOkGrows(w: World, v: World, pc: Pc)
    requires PcOk(w, pc) && w.tips <= v.tips && w.log <= v.log
    requires pc.Passed? ==> v.tip == w.tip
    ensures PcOk(v, pc)
  {
    assert forall c | c in w.tips :: c in v.tips;
    match pc
    case Ready(job) => JobOkGrows(w, v, job);
    case InThread(job) => JobOkGrows(w, v, job);
    case InFile(job) => JobOkGrows(w, v, job);
    case Passed(job, _) => JobOkGrows(w, v, job);
    case Wrote(job, _, _) => JobOkGrows(w, v, job);
    case Leaving(reply) => ReplyOkGrows(w, v, reply);
    case LeavingThread(reply) => ReplyOkGrows(w, v, reply);
    case Returned(reply) => ReplyOkGrows(w, v, reply);
    case _ =>
  }

  lemma {:induction false} ReplyOkGrows(w: World, v: World, reply: Reply)
    requires ReplyOk(w, reply) && w.tips <= v.tips && w.log <= v.log
    ensures ReplyOk(v, reply)
  {
    assert forall c | c in w.tips :: c in v.tips;
    if !reply.Refused? {
      JobOkGrows(w, v, reply.job);
    }
  }

  /** The step of the client itself. */
  lemma {:induction false} MoverOk(w: World, s: Step)
    requires LocksOk(w) && LogOk(w) && ClientsOk(w) && Enabled(w, s)
    ensures PcOk(Apply(w, s), PcOf(Apply(w, s), s.client))
  {
    var pc := PcOf(w, s.client);
    assert PcOk(w, pc);
    if s.action.ReadLog? {
      MoverReadsLog(w, s);
    } else if pc.Ready? || pc.InThread? || pc.InFile? || pc.Passed? || pc.Wrote? {
      MoverWithJob(w, s);
    } else {
      assert w.tip in w.tips;
      if pc.Leaving? || pc.LeavingThread? || pc.Returned? {
        ReplyOkGrows(w, Apply(w, s), pc.reply);
      }
    }
  }

  lemma {:induction false} MoverWithJob(w: World, s: Step)
    requires LocksOk(w) && LogOk(w) && ClientsOk(w) && Enabled(w, s)
    requires var pc := PcOf(w, s.client); pc.Ready? || pc.InThread? || pc.InFile? || pc.Passed? || pc.Wrote?
    ensures PcOk(Apply(w, s), PcOf(Apply(w, s), s.client))
  {
    var pc, v := PcOf(w, s.client), Apply(w, s);
    assert PcOk(w, pc);
    JobOkGrows(w, v, pc.job);
    if s.action.AppendLog? {
      assert HoldsFile(pc) && w.fileLock == Some(s.client);
      assert v.tip in v.tips;
    }
  }

  lemma {:induction false} MoverReadsLog(w: World, s: Step)
    requires LocksOk(w) && LogOk(w) && ClientsOk(w) && Enabled(w, s) && s.action.ReadLog?
    ensures PcOk(Apply(w, s), PcOf(Apply(w, s), s.client))
  {
    var pc := PcOf(w, s.client);
    assert PcOk(w, pc);
    assert w.log[..|w.log|] == w.log;
    var logged := if LogPending(w) then w.tips[..|w.tips| - 1] else w.tips;
    if RedoTarget(w.log, pc.snap, pc.steps).Ok? {
      RedoTargetWasTip(w.log, logged, pc.snap, pc.steps);
    }
    assert forall c | c in logged :: c in w.tips;
  }

  lemma {:induction false} BystanderOk(w: World, s: Step, c: Client)
    requires LocksOk(w) && ClientsOk(w) && Enabled(w, s) && c != s.client
    ensures PcOk(Apply(w, s), PcOf(Apply(w, s), c))
  {
    var v := Apply(w, s);
    OthersStay(w, s);
    assert PcOk(w, PcOf(w, c));
    assert HoldsFile(PcOf(w, c)) <==> w.fileLock == Some(c);
    assert HoldsFile(PcOf(w, s.client)) <==> w.fileLock == Some(s.client);
    PcOkGrows(w, v, PcOf(w, c));
  }

  lemma {:induction false} StepKeepsClients(w: World, s: Step)
    requires LocksOk(w) && LogOk(w) && ClientsOk(w) && Enabled(w, s)
    ensures ClientsOk(Apply(w, s))
  {
    MoverOk(w, s);
    forall c | c != s.client {
      BystanderOk(w, s, c);
    }
  }

  /** In every reachable world the locks, the reflog and the prepared moves are sound. */
  lemma {:induction false} AlwaysOk(c0: Commit, schedule: seq<Step>)
    requires After(Init(c0), schedule).Some?
    ensures var w := After(Init(c0), schedule).value; LocksOk(w) && LogOk(w) && ClientsOk(w)
  {
    if schedule != [] {
      var front, s := schedule[..|schedule| - 1], schedule[|schedule| - 1];
      AlwaysOk(c0, front);
      var w := After(Init(c0), front).value;
      StepKeepsLocks(w, s);
      StepKeepsLog(w, s);
      StepKeepsClients(w, s);
    }
  }

  // ---------------------------------------------------------------------
  // Whole runs
  // ---------------------------------------------------------------------

  lemma {:induction false} StepGrows(w: World, s: Step)
    requires Enabled(w, s)
    ensures w.tips <= Apply(w, s).tips && w.log <= Apply(w, s).log
  {
  }

  /** A run passes through the worlds of its prefixes, and never forgets a tip. */
  lemma {:induction false} RunGrows(w: World, schedule: seq<Step>, i: nat)
    requires After(w, schedule).Some? && i <= |schedule|
    ensures After(w, schedule[..i]).Some?
    ensures After(w, schedule[..i]).value.tips <= After(w, schedule).value.tips
  {
    if i == |schedule| {
      assert schedule[..i] == schedule;
    } else {
      var front := schedule[..|schedule| - 1];
      assert front[..i] == schedule[..i];
      RunGrows(w, front, i);
      StepGrows(After(w, front).value, schedule[|schedule| - 1]);
    }
  }

  // ---------------------------------------------------------------------
  // No lost commits
  // ---------------------------------------------------------------------

  /** Clients that only fetch and commit. */
  predicate OnlyCommits(schedule: seq<Step>)
  {
    forall s | s in schedule ::
      !s.action.ChooseUndo? && !s.action.Peek? && !s.action.ReadLog? && !s.action.ChooseSet?
  }

  predicate CommitPc(pc: Pc)
  {
    match pc
    case Ready(job) => job.CommitJob?
    case InThread(job) => job.CommitJob?
    case InFile(job) => job.CommitJob?
    case Passed(job, _) => job.CommitJob?
    case Wrote(job, _, _) => job.CommitJob?
    case Leaving(reply) => reply.Refused? || reply.job.CommitJob?
    case LeavingThread(reply) => reply.Refused? || reply.job.CommitJob?
    case Returned(reply) => reply.Refused? || reply.job.CommitJob?
    case _ => true
  }

  ghost predicate CommitsOk(w: World)
  {
    OneChain(w.tips) && forall c :: CommitPc(PcOf(w, c))
  }

  lemma {:induction false} StepKeepsCommits(w: World, s: Step)
    requires LocksOk(w) && LogOk(w) && ClientsOk(w) && CommitsOk(w) && Enabled(w, s) && OnlyCommits([s])
    ensures CommitsOk(Apply(w, s))
  {
    var v, pc := Apply(w, s), PcOf(w, s.client);
    OthersStay(w, s);
    assert s in [s];
    assert CommitPc(pc) && PcOk(w, pc);
    forall c ensures CommitPc(PcOf(v, c)) {
      assert c != s.client ==> CommitPc(PcOf(w, c));
    }
    forall i: nat | 0 < i < |v.tips| ensures FollowsOn(v.tips, i) {
      if i < |w.tips| {
        assert FollowsOn(w.tips, i);
      } else {
        assert Parent(pc.to) == Some(w.tip);
      }
    }
  }

  lemma {:induction false} CommitRunsOk(c0: Commit, schedule: seq<Step>)
    requires After(Init(c0), schedule).Some? && OnlyCommits(schedule)
    ensures CommitsOk(After(Init(c0), schedule).value)
  {
    if schedule != [] {
      var front, s := schedule[..|schedule| - 1], schedule[|schedule| - 1];
      assert s in schedule && forall t | t in front :: t in schedule;
      CommitRunsOk(c0, front);
      AlwaysOk(c0, front);
      StepKeepsCommits(After(Init(c0), front).value, s);
    }
  }

  /** The tree of a commit that landed is its parent's tree with exactly its changes. */
  ghost predicate CarriesChanges(commit: Commit, job: Job)
  {
    job.CommitJob? && Parent(commit) == Some(job.snap) &&
    commit.tree == PythonRebuilt(job.snap.tree, job.changes) &&
    (Unnested(job.changes) ==>
       forall p: Path :: FileAt(Dir(commit.tree), p) == Overlay(Dir(job.snap.tree), job.changes, p))
  }

  /** In every interleaving of clients that only fetch and commit: every earlier tip,
      and every commit ever returned to a caller, is a first-parent ancestor of every
      later tip; and a returned commit carries exactly its caller's changes. */
  lemma {:induction false} NoLostCommits(c0: Commit, schedule: seq<Step>, v: World, i: nat, w: World, c: Client)
    requires OnlyCommits(schedule) && After(Init(c0), schedule) == Some(v)
    requires i <= |schedule| && After(Init(c0), schedule[..i]) == Some(w)
    ensures OneChain(v.tips) && w.tips <= v.tips && Ancestor(w.tip, v.tip)
    ensures PcOf(w, c).Returned? && PcOf(w, c).reply.Landed? ==>
              var reply := PcOf(w, c).reply;
              Ancestor(reply.commit, v.tip) && CarriesChanges(reply.commit, reply.job)
  {
    RunGrows(Init(c0), schedule, i);
    assert OnlyCommits(schedule[..i]);
    AlwaysOk(c0, schedule[..i]);
    AlwaysOk(c0, schedule);
    CommitRunsOk(c0, schedule[..i]);
    CommitRunsOk(c0, schedule);
    LaterTipHasAll(w, v, c);
  }

  lemma {:induction false} LaterTipHasAll(w: World, v: World, c: Client)
    requires LogOk(w) && ClientsOk(w) && CommitsOk(w) && LogOk(v) && CommitsOk(v) && w.tips <= v.tips
    ensures Ancestor(w.tip, v.tip)
    ensures PcOf(w, c).Returned? && PcOf(w, c).reply.Landed? ==>
              var reply := PcOf(w, c).reply;
              Ancestor(reply.commit, v.tip) && CarriesChanges(reply.commit, reply.job)
  {
    forall t | t in w.tips ensures Ancestor(t, v.tip) {
      var k :| 0 <= k < |w.tips| && w.tips[k] == t;
      TipsAreAncestors(v.tips, k);
    }
    assert w.tip in w.tips;
    var pc := PcOf(w, c);
    assert PcOk(w, pc) && CommitPc(pc);
    if pc.Returned? && pc.reply.Landed? {
      LandedCarries(pc.reply.commit, pc.reply.job);
    }
  }

  lemma {:induction false} LandedCarries(commit: Commit, job: Job)
    requires job.CommitJob? && LeadsTo(job, commit) && job.tree == PythonRebuilt(job.snap.tree, job.changes)
    ensures CarriesChanges(commit, job)
  {
    if Unnested(job.changes) {
      PythonAgreesWithRust(job.snap.tree, job.changes);
      RebuildOverlays(job.snap.tree, job.changes);
    }
  }

  // ---------------------------------------------------------------------
  // Redo in an interleaved run
  // ---------------------------------------------------------------------

  /** The commit is the tip as it was `steps` moves ago. */
  predicate MovesAgo(tips: seq<Commit>, steps: nat, c: Commit)
  {
    steps < |tips| && c == tips[|tips| - 1 - steps]
  }

  /** `to` is the tip of `steps` moves before the newest move to `snap` among the first
      `seen` ones. */
  predicate CountsFrom(log: seq<LogEntry>, tips: seq<Commit>, snap: Commit, seen: nat, steps: nat, to: Commit)
  {
    seen <= |log| &&
    var i := LatestMoveTo(log[..seen], snap);
    i.Some? && steps <= i.value < |tips| && to == tips[i.value - steps]
  }

  /** A redo that has passed its check leads to the tip of `steps` moves before the
      newest move to its snapshot that it had read of; that is the tip of `steps` moves
      ago exactly when reading the reflog again, under the lock, would give the same
      target; and it is when the reflog has not grown since it was read. */
  lemma {:induction false} RedoInRun(c0: Commit, schedule: seq<Step>, w: World, c: Client, job: Job, to: Commit)
    requires After(Init(c0), schedule) == Some(w)
    requires PcOf(w, c) == Passed(job, to) && job.RedoJob?
    ensures CountsFrom(w.log, w.tips, job.snap, job.seen, job.steps, to)
    ensures MovesAgo(w.tips, job.steps, to) <==> RedoTarget(w.log, w.tip, job.steps) == Ok(to)
    ensures job.seen == |w.log| ==> MovesAgo(w.tips, job.steps, to)
  {
    AlwaysOk(c0, schedule);
    assert PcOk(w, PcOf(w, c));
    assert HoldsFile(PcOf(w, c)) && w.fileLock == Some(c);
    PassedRedo(w.log, w.tips, job.snap, job.seen, job.steps, to);
  }

  lemma {:induction false} PassedRedo(log: seq<LogEntry>, tips: seq<Commit>, tip: Commit, seen: nat, steps: nat, to: Commit)
    requires Tracks(log, tips) && tips != [] && tip == tips[|tips| - 1]
    requires seen <= |log| && RedoTarget(log[..seen], tip, steps) == Ok(to)
    ensures CountsFrom(log, tips, tip, seen, steps, to)
    ensures MovesAgo(tips, steps, to) <==> RedoTarget(log, tip, steps) == Ok(to)
    ensures seen == |log| ==> MovesAgo(tips, steps, to)
  {
    TracksPrefix(log, tips, seen);
    TrackedRedo(log[..seen], tips[..seen], tip, steps);
    TrackedRedo(log, tips, tip, steps);
    assert log[..|log|] == log;
  }

  lemma {:induction false} TracksPrefix(log: seq<LogEntry>, tips: seq<Commit>, n: nat)
    requires Tracks(log, tips) && n <= |log|
    ensures Tracks(log[..n], tips[..n])
  {
    forall i: nat | i < n ensures Records(log[..n][i], tips[..n], i) {
      assert Records(log[i], tips, i);
    }
  }

  /** On a log that tracks the tips, a redo counts back from the newest move to `current`;
      if `current` is the newest tip, from the end. */
  lemma {:induction false} TrackedRedo(log: seq<LogEntry>, tips: seq<Commit>, current: Commit, steps: nat)
    requires Tracks(log, tips)
    ensures var i := LatestMoveTo(log, current);
            && (i.Some? ==> i.value < |tips|)
            && (i.Some? && steps <= i.value ==> RedoTarget(log, current, steps) == Ok(tips[i.value - steps]))
            && (i.None? || steps > i.value ==> RedoTarget(log, current, steps).Err?)
            && (log != [] && current == tips[|tips| - 1] ==> i == Some(|tips| - 1))
  {
    LatestMoveInRange(log, current);
    if LatestMoveTo(log, current).Some? {
      var i := LatestMoveTo(log, current).value;
      var s := State(tips[|tips| - 1], log);
      TrackedLogIsChain(s, tips);
      StepBackOnChain(s, i, steps);
      if steps <= i { assert Records(log[i - steps], tips, i - steps); }
    }
    if log != [] { assert Records(log[|log| - 1], tips, |log| - 1); }
  }

  lemma {:induction false} TrackedLogIsChain(s: State, tips: seq<Commit>)
    requires tips != [] && Tracks(s.log, tips) && s.tip == tips[|tips| - 1]
    ensures LogIsChain(s)
  {
    assert Records(s.log[0], tips, 0) && Records(s.log[|s.log| - 1], tips, |s.log| - 1);
    forall i | 0 < i < |s.log| ensures s.log[i].before == Some(s.log[i - 1].after) {
      assert Records(s.log[i], tips, i) && Records(s.log[i - 1], tips, i - 1);
    }
  }

  // ---------------------------------------------------------------------
  // Preparing a move
  // ---------------------------------------------------------------------

  /** An undo is refused exactly when its snapshot has no such ancestor, and a redo when
      its snapshot is not the tip as it begins. */
  lemma {:induction false} PreparedFromSnapshot(w: World, c: Client, snap: Commit, n: nat)
    requires PcOf(w, c) == Holding(snap) && n >= 1
    ensures PcOf(Apply(w, Step(c, ChooseUndo(n))), c) ==
            if n < |Chain(snap)| then Ready(UndoJob(snap, n, Chain(snap)[n])) else Returned(Refused)
    ensures PcOf(Apply(w, Step(c, Peek(n))), c) == if snap == w.tip then Peeked(snap, n) else Returned(Refused)
  {
    BackIsChain(snap, n);
  }

  /** In every reachable world, a redo that reads the reflog is refused exactly when the
      reflog knows no move to its snapshot or not that many moves before it; else it will
      lead to the tip of that many moves before. */
  lemma {:induction false} PreparedFromLog(c0: Commit, schedule: seq<Step>, w: World, c: Client, snap: Commit, n: nat)
    requires After(Init(c0), schedule) == Some(w) && PcOf(w, c) == Peeked(snap, n)
    ensures var i, pc := LatestMoveTo(w.log, snap), PcOf(Apply(w, Step(c, ReadLog)), c);
            if i.Some? && n <= i.value then
              i.value < |w.tips| && pc == Ready(RedoJob(snap, n, |w.log|, w.tips[i.value - n]))
            else pc == Returned(Refused)
  {
    AlwaysOk(c0, schedule);
    TrackedRedo(w.log, if LogPending(w) then w.tips[..|w.tips| - 1] else w.tips, snap, n);
  }

  // ---------------------------------------------------------------------
  // The check under the lock
  // ---------------------------------------------------------------------

  /** In every reachable world, the check refuses a move exactly when it was prepared
      from a snapshot that is not the tip; a commit that passes has the tip as parent
      and the tip's tree with its changes, and one that changes nothing makes no commit;
      an undo that passes leads down the tip's first-parent chain. */
  lemma {:induction false} CheckDecides(c0: Commit, schedule: seq<Step>, w: World, c: Client, job: Job)
    requires After(Init(c0), schedule) == Some(w) && PcOf(w, c) == InFile(job)
    ensures var pc := PcOf(Apply(w, Step(c, Check)), c);
            && (pc == Leaving(Refused) <==> !job.SetJob? && job.snap != w.tip)
            && (pc.Passed? ==> pc.job == job)
            && (job.CommitJob? && job.snap == w.tip ==>
                  var tree := PythonRebuilt(w.tip.tree, job.changes);
                  if tree == w.tip.tree then pc == Leaving(NoChange(job))
                  else pc.Passed? && pc.to == Commit(tree, [w.tip] + job.extra, job.stamp))
            && (job.UndoJob? && job.snap == w.tip ==>
                  pc.Passed? && 1 <= job.steps < |Chain(w.tip)| && pc.to == Chain(w.tip)[job.steps])
            && (job.SetJob? ==> pc.Passed? && pc.to == job.target)
  {
    AlwaysOk(c0, schedule);
    assert PcOk(w, InFile(job)) by { assert PcOk(w, PcOf(w, c)); }
    if job.UndoJob? { BackIsChain(job.snap, job.steps); }
  }
}
