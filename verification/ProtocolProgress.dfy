/**
 What clients can achieve in the branch protocol: a client that nobody disturbs gets
 what it asked for, and two schedules in which a disturbed redo does not.
 */
module ProtocolProgress {
  import opened Wrappers
  import opened Trees
  import opened Changes
  import opened Rebuild
  import opened History
  import opened Branch
  import opened Protocol
  import opened ProtocolSafety

  // ---------------------------------------------------------------------
  // One client's steps
  // ---------------------------------------------------------------------

  /** The schedule goes on with steps of `c` only. */
  predicate Extends(schedule: seq<Step>, longer: seq<Step>, c: Client)
  {
    schedule <= longer && forall i | |schedule| <= i < |longer| :: longer[i].client == c
  }

  lemma {:induction false} OneMore(w: World, schedule: seq<Step>, v: World, s: Step)
    requires After(w, schedule) == Some(v) && Enabled(v, s)
    ensures After(w, schedule + [s]) == Some(Apply(v, s))
    ensures Extends(schedule, schedule + [s], s.client)
  {
    assert (schedule + [s])[..|schedule|] == schedule;
  }

  predicate Free(w: World)
  {
    w.threadLocks == map[] && w.fileLock.None?
  }

  predicate Inside(w: World, c: Client)
  {
    w.threadLocks == map[c.process := c] && w.fileLock == Some(c)
  }

  /** From a prepared move through both locks and the check. */
  lemma {:induction false} Enter(w0: World, schedule: seq<Step>, w: World, c: Client) returns (longer: seq<Step>, v: World)
    requires After(w0, schedule) == Some(w) && Free(w) && PcOf(w, c).Ready?
    ensures Extends(schedule, longer, c) && After(w0, longer) == Some(v) && Inside(v, c)
    ensures v.tip == w.tip && v.tips == w.tips && v.log == w.log
    ensures v.pcs == w.pcs[c := Checked(w, PcOf(w, c).job)]
  {
    var s1, s2, s3 := Step(c, TakeThreadLock), Step(c, TakeFileLock), Step(c, Check);
    var job := PcOf(w, c).job;
    var w1 := Put(w, c, InThread(job)).(threadLocks := w.threadLocks[c.process := c]);
    var w2 := Put(w1, c, InFile(job)).(fileLock := Some(c));
    OneMore(w0, schedule, w, s1);
    OneMore(w0, schedule + [s1], w1, s2);
    OneMore(w0, schedule + [s1] + [s2], w2, s3);
    longer, v := schedule + [s1] + [s2] + [s3], Apply(w2, s3);
    assert v.pcs == w.pcs[c := Checked(w, job)];
  }

  /** From a passed check to the written ref. */
  lemma {:induction false} MoveRef(w0: World, schedule: seq<Step>, w: World, c: Client) returns (longer: seq<Step>, v: World)
    requires After(w0, schedule) == Some(w) && Inside(w, c) && PcOf(w, c).Passed?
    ensures Extends(schedule, longer, c) && After(w0, longer) == Some(v) && Inside(v, c)
    ensures var pc := PcOf(w, c);
            && v.tip == pc.to && v.tips == w.tips + [pc.to] && v.log == w.log
            && v.pcs == w.pcs[c := Wrote(pc.job, w.tip, pc.to)]
  {
    OneMore(w0, schedule, w, Step(c, WriteRef));
    longer, v := schedule + [Step(c, WriteRef)], Apply(w, Step(c, WriteRef));
  }

  /** From the written ref to the written log. */
  lemma {:induction false} LogMove(w0: World, schedule: seq<Step>, w: World, c: Client) returns (longer: seq<Step>, v: World)
    requires After(w0, schedule) == Some(w) && Inside(w, c) && PcOf(w, c).Wrote?
    ensures Extends(schedule, longer, c) && After(w0, longer) == Some(v) && Inside(v, c)
    ensures var pc := PcOf(w, c);
            && v.tip == w.tip && v.tips == w.tips
            && v.log == w.log + [LogEntry(Some(pc.from), pc.to, KindOfJob(pc.job))]
            && v.pcs == w.pcs[c := Leaving(Landed(pc.job, pc.to))]
  {
    OneMore(w0, schedule, w, Step(c, AppendLog));
    longer, v := schedule + [Step(c, AppendLog)], Apply(w, Step(c, AppendLog));
  }

  /** Out of both locks. */
  lemma {:induction false} Leave(w0: World, schedule: seq<Step>, w: World, c: Client) returns (longer: seq<Step>, v: World)
    requires After(w0, schedule) == Some(w) && Inside(w, c) && PcOf(w, c).Leaving?
    ensures Extends(schedule, longer, c) && After(w0, longer) == Some(v) && Free(v)
    ensures v.tip == w.tip && v.tips == w.tips && v.log == w.log
    ensures v.pcs == w.pcs[c := Returned(PcOf(w, c).reply)]
  {
    var s1, s2 := Step(c, ReleaseFileLock), Step(c, ReleaseThreadLock);
    var reply := PcOf(w, c).reply;
    var w1 := Put(w, c, LeavingThread(reply)).(fileLock := None);
    OneMore(w0, schedule, w, s1);
    OneMore(w0, schedule + [s1], w1, s2);
    longer, v := schedule + [s1] + [s2], Apply(w1, s2);
    assert v.pcs == w.pcs[c := Returned(reply)];
  }

  // ---------------------------------------------------------------------
  // A client that nobody disturbs
  // ---------------------------------------------------------------------

  /** The client's own steps lead from `w` to `v`, where its call has returned, the locks
      are free again and the client can go on from the tip. */
  predicate Completes(w: World, own: seq<Step>, v: World, c: Client)
  {
    && Extends([], own, c) && After(w, own) == Some(v) && Free(v)
    && PcOf(v, c).Returned? && Enabled(v, Step(c, Resume))
    && PcOf(Apply(v, Step(c, Resume)), c) == Holding(v.tip)
  }

  /** The call has moved the branch once, to `to`, and says so. */
  predicate Lands(w: World, own: seq<Step>, v: World, c: Client, to: Commit, kind: Kind)
  {
    && Completes(w, own, v, c)
    && PcOf(v, c).reply.Landed? && PcOf(v, c).reply.commit == to
    && v.tip == to && v.tips == w.tips + [to] && v.log == w.log + [LogEntry(Some(w.tip), to, kind)]
  }

  /** The call has found nothing to do, and says so. */
  predicate StaysPut(w: World, own: seq<Step>, v: World, c: Client)
  {
    && Completes(w, own, v, c) && PcOf(v, c).reply.NoChange?
    && v.tip == w.tip && v.tips == w.tips && v.log == w.log
  }

  /** A move prepared on the tip, start to finish. */
  lemma {:induction false} Finish(w: World, before: seq<Step>, u: World, c: Client, job: Job, to: Commit)
    returns (own: seq<Step>, v: World)
    requires After(w, before) == Some(u) && Extends([], before, c) && Free(u)
    requires u.tip == w.tip && u.tips == w.tips && u.log == w.log
    requires PcOf(u, c) == Ready(job) && Checked(u, job) == Passed(job, to)
    ensures Lands(w, own, v, c, to, KindOfJob(job))
  {
    var sched1, u1 := Enter(w, before, u, c);
    var sched2, u2 := MoveRef(w, sched1, u1, c);
    var sched3, u3 := LogMove(w, sched2, u2, c);
    own, v := Leave(w, sched3, u3, c);
  }

  lemma {:induction false} FetchTip(w: World, c: Client) returns (own: seq<Step>, v: World)
    requires PcOf(w, c).Idle?
    ensures After(w, own) == Some(v) && Extends([], own, c) && v == Put(w, c, Holding(w.tip))
  {
    OneMore(w, [], w, Step(c, Fetch));
    own, v := [] + [Step(c, Fetch)], Apply(w, Step(c, Fetch));
  }

  lemma {:induction false} BuildOnTip(w: World, c: Client, cs: seq<Change>, extra: seq<Commit>, stamp: nat, job: Job)
    returns (own: seq<Step>, v: World)
    requires PcOf(w, c).Idle? && job == CommitJob(w.tip, cs, extra, stamp, PythonRebuilt(w.tip.tree, cs))
    ensures After(w, own) == Some(v) && Extends([], own, c) && v == Put(w, c, Ready(job))
  {
    var sched, u := FetchTip(w, c);
    var s := Step(c, Build(cs, extra, stamp));
    OneMore(w, sched, u, s);
    own, v := sched + [s], Apply(u, s);
    assert v.pcs == w.pcs[c := Ready(job)];
  }

  /** A commit that nobody disturbs lands: the branch moves to a child of the tip that has
      the tip's tree with exactly the changes; or, if those change nothing, stays. */
  lemma {:induction false} CommitAlone(w: World, c: Client, cs: seq<Change>, extra: seq<Commit>, stamp: nat)
    returns (own: seq<Step>, v: World, commit: Commit)
    requires Free(w) && PcOf(w, c).Idle?
    ensures if PythonRebuilt(w.tip.tree, cs) == w.tip.tree then StaysPut(w, own, v, c)
            else Lands(w, own, v, c, commit, ByCommit)
    ensures commit.parents == [w.tip] + extra && commit.stamp == stamp && commit.tree == PythonRebuilt(w.tip.tree, cs)
    ensures Unnested(cs) ==> forall p: Path :: FileAt(Dir(commit.tree), p) == Overlay(Dir(w.tip.tree), cs, p)
  {
    var tree := PythonRebuilt(w.tip.tree, cs);
    commit := Commit(tree, [w.tip] + extra, stamp);
    if Unnested(cs) {
      PythonAgreesWithRust(w.tip.tree, cs);
      RebuildOverlays(w.tip.tree, cs);
    }
    var job := CommitJob(w.tip, cs, extra, stamp, tree);
    var sched, u := BuildOnTip(w, c, cs, extra, stamp, job);
    if tree == w.tip.tree {
      var sched1, u1 := Enter(w, sched, u, c);
      own, v := Leave(w, sched1, u1, c);
    } else {
      own, v := Finish(w, sched, u, c, job, commit);
    }
  }

  /** An undo that nobody disturbs goes that many commits down the tip's first-parent chain. */
  lemma {:induction false} UndoAlone(w: World, c: Client, n: nat) returns (own: seq<Step>, v: World)
    requires Free(w) && PcOf(w, c).Idle? && 1 <= n < |Chain(w.tip)|
    ensures Lands(w, own, v, c, Chain(w.tip)[n], ByUndo)
  {
    BackIsChain(w.tip, n);
    var sched, u := FetchTip(w, c);
    var s := Step(c, ChooseUndo(n));
    OneMore(w, sched, u, s);
    own, v := Finish(w, sched + [s], Apply(u, s), c, UndoJob(w.tip, n, Chain(w.tip)[n]), Chain(w.tip)[n]);
  }

  /** A client with nothing to do reads the tip and the reflog for a redo. */
  lemma {:induction false} ReadForRedo(w0: World, schedule: seq<Step>, w: World, c: Client, n: nat)
    returns (longer: seq<Step>, v: World)
    requires After(w0, schedule) == Some(w) && PcOf(w, c).Idle? && n >= 1 && RedoTarget(w.log, w.tip, n).Ok?
    ensures Extends(schedule, longer, c) && After(w0, longer) == Some(v)
    ensures v == Put(w, c, Ready(RedoJob(w.tip, n, |w.log|, RedoTarget(w.log, w.tip, n).value)))
  {
    var s1, s2, s3 := Step(c, Fetch), Step(c, Peek(n)), Step(c, ReadLog);
    var w1, w2 := Put(w, c, Holding(w.tip)), Put(w, c, Peeked(w.tip, n));
    OneMore(w0, schedule, w, s1);
    OneMore(w0, schedule + [s1], w1, s2);
    assert Apply(w1, s2).pcs == w2.pcs;
    OneMore(w0, schedule + [s1] + [s2], w2, s3);
    longer, v := schedule + [s1] + [s2] + [s3], Apply(w2, s3);
    assert v.pcs == w.pcs[c := PcOf(v, c)];
  }

  lemma {:induction false} LogLeadsBack(c0: Commit, schedule: seq<Step>, w: World, n: nat)
    requires After(Init(c0), schedule) == Some(w) && Free(w) && n < |w.tips|
    ensures RedoTarget(w.log, w.tip, n) == Ok(w.tips[|w.tips| - 1 - n])
  {
    AlwaysOk(c0, schedule);
    TrackedRedo(w.log, w.tips, w.tip, n);
  }

  /** In every reachable world, a redo that nobody disturbs goes that many moves back. */
  lemma {:induction false} RedoAlone(c0: Commit, schedule: seq<Step>, w: World, c: Client, n: nat)
    returns (own: seq<Step>, v: World)
    requires After(Init(c0), schedule) == Some(w) && Free(w) && PcOf(w, c).Idle? && 1 <= n < |w.tips|
    ensures Lands(w, own, v, c, w.tips[|w.tips| - 1 - n], ByRedo)
  {
    LogLeadsBack(c0, schedule, w, n);
    var to := w.tips[|w.tips| - 1 - n];
    var sched, u := ReadForRedo(w, [], w, c, n);
    own, v := Finish(w, sched, u, c, RedoJob(w.tip, n, |w.log|, to), to);
  }

  /** Setting the branch moves it there. */
  lemma {:induction false} SetAlone(w: World, c: Client, target: Commit) returns (own: seq<Step>, v: World)
    requires Free(w) && PcOf(w, c).Idle?
    ensures Lands(w, own, v, c, target, BySet)
  {
    var s := Step(c, ChooseSet(target));
    OneMore(w, [], w, s);
    own, v := Finish(w, [] + [s], Apply(w, s), c, SetJob(target), target);
  }

  // ---------------------------------------------------------------------
  // Two ways to a stale read
  // ---------------------------------------------------------------------

  /** A client with nothing to do sets the branch, up to the ref. */
  lemma {:induction false} SetRef(w0: World, schedule: seq<Step>, w: World, c: Client, target: Commit)
    returns (longer: seq<Step>, v: World)
    requires After(w0, schedule) == Some(w) && Free(w) && PcOf(w, c).Idle?
    ensures Extends(schedule, longer, c) && After(w0, longer) == Some(v) && Inside(v, c)
    ensures v.tip == target && v.tips == w.tips + [target] && v.log == w.log
    ensures v.pcs == w.pcs[c := Wrote(SetJob(target), w.tip, target)]
  {
    var s := Step(c, ChooseSet(target));
    OneMore(w0, schedule, w, s);
    var sched, u := Enter(w0, schedule + [s], Apply(w, s), c);
    longer, v := MoveRef(w0, sched, u, c);
  }

  /** The rest of it, and back to nothing to do. */
  lemma {:induction false} Settle(w0: World, schedule: seq<Step>, w: World, c: Client) returns (longer: seq<Step>, v: World)
    requires After(w0, schedule) == Some(w) && Inside(w, c) && PcOf(w, c).Wrote?
    ensures Extends(schedule, longer, c) && After(w0, longer) == Some(v) && Free(v)
    ensures v.tip == w.tip && v.tips == w.tips && v.pcs == w.pcs[c := Idle]
    ensures var pc := PcOf(w, c); v.log == w.log + [LogEntry(Some(pc.from), pc.to, KindOfJob(pc.job))]
  {
    var sched1, u1 := LogMove(w0, schedule, w, c);
    var sched2, u2 := Leave(w0, sched1, u1, c);
    OneMore(w0, sched2, u2, Step(c, Forget));
    longer, v := sched2 + [Step(c, Forget)], Apply(u2, Step(c, Forget));
  }

  lemma {:induction false} SetRun(w0: World, schedule: seq<Step>, w: World, c: Client, target: Commit)
    returns (longer: seq<Step>, v: World)
    requires After(w0, schedule) == Some(w) && Free(w) && PcOf(w, c).Idle?
    ensures Extends(schedule, longer, c) && After(w0, longer) == Some(v) && Free(v)
    ensures v.tip == target && v.tips == w.tips + [target]
    ensures v.log == w.log + [LogEntry(Some(w.tip), target, BySet)]
    ensures v.pcs == w.pcs[c := Idle]
  {
    var sched, u := SetRef(w0, schedule, w, c, target);
    longer, v := Settle(w0, sched, u, c);
  }

  /** The redo has passed its check and leads elsewhere than to the tip of one move ago. */
  predicate Astray(w: World, c: Client)
  {
    var pc := PcOf(w, c);
    pc.Passed? && pc.job.RedoJob? && !MovesAgo(w.tips, pc.job.steps, pc.to)
  }

  /** The branch moves away and comes back between the read and the check. */
  lemma {:induction false} StaleReadLandsElsewhere(a: Commit, b: Commit, d: Commit) returns (schedule: seq<Step>, w: World, c: Client)
    requires a != b && b != d && a != d
    ensures After(Init(a), schedule) == Some(w) && Astray(w, c) && w.tips == [a, b, d, b]
  {
    var other := Client(0, 0);
    c := Client(1, 0);
    var w0 := Init(a);
    var sched1, u1 := SetRun(w0, [], w0, other, b);
    LogLeadsBack(a, sched1, u1, 1);
    var sched2, u2 := ReadForRedo(w0, sched1, u1, c, 1);
    var sched3, u3 := SetRun(w0, sched2, u2, other, d);
    var sched4, u4 := SetRun(w0, sched3, u3, other, b);
    schedule, w := Enter(w0, sched4, u4, c);
  }

  /** The read falls between another client's ref write and log append: the reflog lacks
      the newest tip, and an older move to the same commit is taken for it.  The branch
      has made its last move before the redo even begins. */
  lemma {:induction false} EarlyReadLandsElsewhere(x: Commit, b: Commit, a: Commit)
    returns (schedule: seq<Step>, w: World, c: Client, start: seq<Step>, u: World)
    requires x != b && a != b && x != a
    ensures After(Init(x), schedule) == Some(w) && Astray(w, c) && w.tips == [x, b, a, b]
    ensures start <= schedule && After(Init(x), start) == Some(u) && PcOf(u, c).Idle? && u.tips == w.tips
  {
    var other := Client(0, 0);
    c := Client(1, 0);
    start, u := BetweenTheWrites(x, b, a, other);
    var sched1, u1 := ReadForRedo(Init(x), start, u, c, 1);
    var sched2, u2 := Settle(Init(x), sched1, u1, other);
    schedule, w := Enter(Init(x), sched2, u2, c);
  }

  lemma {:induction false} BetweenTheWrites(x: Commit, b: Commit, a: Commit, other: Client)
    returns (schedule: seq<Step>, w: World)
    requires x != b && a != b && x != a
    ensures After(Init(x), schedule) == Some(w) && w.tip == b && w.tips == [x, b, a, b]
    ensures RedoTarget(w.log, b, 1) == Ok(x) && |w.log| == 3
    ensures Inside(w, other)
    ensures w.pcs == map[other := Wrote(SetJob(b), a, b)]
  {
    var w0 := Init(x);
    var sched1, u1 := SetRun(w0, [], w0, other, b);
    var sched2, u2 := SetRun(w0, sched1, u1, other, a);
    AlwaysOk(x, sched2);
    TrackedRedo(u2.log, u2.tips, b, 1);
    assert u2.log[..2] == u1.log;
    schedule, w := SetRef(w0, sched2, u2, other, b);
  }
}
