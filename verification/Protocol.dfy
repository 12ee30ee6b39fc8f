/**
 The branch protocol of the Python port in small steps.

 Any number of clients, in any number of processes, hold snapshots of one branch.
 A client prepares its move outside the locks, takes the lock of its process and
 then the file lock, checks that the tip is still its snapshot, writes the ref,
 appends to the reflog and releases.  Readers are not excluded: a fetch or a
 reflog read can fall between the ref write and the log append.
 */
module Protocol {
  import opened Wrappers
  import opened Trees
  import opened Changes
  import opened Rebuild
  import opened History
  import opened Branch

  datatype Client = Client(process: nat, thread: nat)

  /** A prepared move.  A redo remembers how much of the reflog it has read. */
  datatype Job =
    | CommitJob(snap: Commit, changes: seq<Change>, extra: seq<Commit>, stamp: nat, tree: Entries)
    | UndoJob(snap: Commit, steps: nat, target: Commit)
    | RedoJob(snap: Commit, steps: nat, seen: nat, target: Commit)
    | SetJob(target: Commit)

  /** What a call answers; `Refused` stands for every error it can raise. */
  datatype Reply = Landed(job: Job, commit: Commit) | NoChange(job: Job) | Refused

  /** Where a client is. */
  datatype Pc =
    | Idle
    | Holding(snap: Commit)
    | Peeked(snap: Commit, steps: nat)
    | Ready(job: Job)
    | InThread(job: Job)
    | InFile(job: Job)
    | Passed(job: Job, to: Commit)
    | Wrote(job: Job, from: Commit, to: Commit)
    | Leaving(reply: Reply)
    | LeavingThread(reply: Reply)
    | Returned(reply: Reply)

  /** `tips` is the history of the ref, kept for the statements only. */
  datatype World = World(
    tip: Commit,
    log: seq<LogEntry>,
    threadLocks: map<nat, Client>,
    fileLock: Option<Client>,
    pcs: map<Client, Pc>,
    tips: seq<Commit>)

  function PcOf(w: World, c: Client): Pc
  {
    if c in w.pcs then w.pcs[c] else Idle
  }

  function Put(w: World, c: Client, pc: Pc): World
  {
    w.(pcs := w.pcs[c := pc])
  }

  function Init(c: Commit): World
  {
    World(c, [LogEntry(None, c, ByCreation)], map[], None, map[], [c])
  }

  // ---------------------------------------------------------------------
  // Steps
  // ---------------------------------------------------------------------

  datatype Action =
    | Fetch
    | Build(changes: seq<Change>, extra: seq<Commit>, stamp: nat)
    | ChooseUndo(steps: nat)
    | Peek(steps: nat)
    | ReadLog
    | ChooseSet(target: Commit)
    | TakeThreadLock
    | TakeFileLock
    | Check
    | WriteRef
    | AppendLog
    | ReleaseFileLock
    | ReleaseThreadLock
    | Resume
    | Forget

  datatype Step = Step(client: Client, action: Action)

  function KindOfJob(job: Job): Kind
  {
    match job
    case CommitJob(_, _, _, _, _) => ByCommit
    case UndoJob(_, _, _) => ByUndo
    case RedoJob(_, _, _, _) => ByRedo
    case SetJob(_) => BySet
  }

  /** The snapshot a successful call returns. */
  function SnapshotOf(reply: Reply): Commit
    requires !reply.Refused?
  {
    match reply
    case Landed(_, commit) => commit
    case NoChange(job) => if job.CommitJob? then job.snap else job.target
  }

  predicate Enabled(w: World, s: Step)
  {
    var pc := PcOf(w, s.client);
    match s.action
    case Fetch => pc.Idle?
    case Build(_, _, _) => pc.Holding?
    case ChooseUndo(steps) => pc.Holding? && steps >= 1
    case Peek(steps) => pc.Holding? && steps >= 1
    case ReadLog => pc.Peeked?
    case ChooseSet(_) => pc.Idle?
    case TakeThreadLock => pc.Ready? && s.client.process !in w.threadLocks
    case TakeFileLock => pc.InThread? && w.fileLock.None?
    case Check => pc.InFile?
    case WriteRef => pc.Passed?
    case AppendLog => pc.Wrote?
    case ReleaseFileLock => pc.Leaving?
    case ReleaseThreadLock => pc.LeavingThread?
    case Resume => pc.Returned? && !pc.reply.Refused?
    case Forget => pc.Returned? || pc.Holding? || pc.Peeked?
  }

  /** The check under the lock: a stale snapshot is refused, an unchanged tree makes
      no commit, anything else may move the ref. */
  function Checked(w: World, job: Job): Pc
  {
    match job
    case CommitJob(snap, _, extra, stamp, tree) =>
      if w.tip != snap then Leaving(Refused)
      else if tree == snap.tree then Leaving(NoChange(job))
      else Passed(job, Commit(tree, [snap] + extra, stamp))
    case UndoJob(snap, _, target) => if w.tip != snap then Leaving(Refused) else Passed(job, target)
    case RedoJob(snap, _, _, target) => if w.tip != snap then Leaving(Refused) else Passed(job, target)
    case SetJob(target) => Passed(job, target)
  }

  function Apply(w: World, s: Step): World
    requires Enabled(w, s)
  {
    var c, pc := s.client, PcOf(w, s.client);
    match s.action
    case Fetch => Put(w, c, Holding(w.tip))
    case Build(cs, extra, stamp) => Put(w, c, Ready(CommitJob(pc.snap, cs, extra, stamp, PythonRebuilt(pc.snap.tree, cs))))
    case ChooseUndo(steps) =>
      Put(w, c, match Back(pc.snap, steps)
        case Some(target) => Ready(UndoJob(pc.snap, steps, target))
        case None => Returned(Refused))
    case Peek(steps) => Put(w, c, if w.tip == pc.snap then Peeked(pc.snap, steps) else Returned(Refused))
    case ReadLog =>
      Put(w, c, match RedoTarget(w.log, pc.snap, pc.steps)
        case Ok(target) => Ready(RedoJob(pc.snap, pc.steps, |w.log|, target))
        case Err(_) => Returned(Refused))
    case ChooseSet(target) => Put(w, c, Ready(SetJob(target)))
    case TakeThreadLock => Put(w, c, InThread(pc.job)).(threadLocks := w.threadLocks[c.process := c])
    case TakeFileLock => Put(w, c, InFile(pc.job)).(fileLock := Some(c))
    case Check => Put(w, c, Checked(w, pc.job))
    case WriteRef => Put(w, c, Wrote(pc.job, w.tip, pc.to)).(tip := pc.to, tips := w.tips + [pc.to])
    case AppendLog =>
      Put(w, c, Leaving(Landed(pc.job, pc.to))).(log := w.log + [LogEntry(Some(pc.from), pc.to, KindOfJob(pc.job))])
    case ReleaseFileLock => Put(w, c, LeavingThread(pc.reply)).(fileLock := None)
    case ReleaseThreadLock => Put(w, c, Returned(pc.reply)).(threadLocks := w.threadLocks - {c.process})
    case Resume => Put(w, c, Holding(SnapshotOf(pc.reply)))
    case Forget => Put(w, c, Idle)
  }

  /** The world after a schedule; `None` when a step of it was not enabled. */
  function After(w: World, schedule: seq<Step>): Option<World>
  {
    if schedule == [] then Some(w)
    else match After(w, schedule[..|schedule| - 1])
      case None => None
      case Some(v) =>
        var s := schedule[|schedule| - 1];
        if Enabled(v, s) then Some(Apply(v, s)) else None
  }

  // ---------------------------------------------------------------------
  // Locks
  // ---------------------------------------------------------------------

  predicate HoldsFile(pc: Pc)
  {
    pc.InFile? || pc.Passed? || pc.Wrote? || pc.Leaving?
  }

  predicate HoldsThread(pc: Pc)
  {
    pc.InThread? || HoldsFile(pc) || pc.LeavingThread?
  }

  /** The file lock is held by exactly the client inside, and the lock of a process by
      exactly its client between taking and releasing it. */
  ghost predicate LocksOk(w: World)
  {
    && (forall c :: HoldsFile(PcOf(w, c)) <==> w.fileLock == Some(c))
    && (forall c :: HoldsThread(PcOf(w, c)) <==> c.process in w.threadLocks && w.threadLocks[c.process] == c)
    && (forall p | p in w.threadLocks :: w.threadLocks[p].process == p)
  }

  predicate TouchesLocks(a: Action)
  {
    a.TakeThreadLock? || a.TakeFileLock? || a.ReleaseFileLock? || a.ReleaseThreadLock?
  }

  /** Only the moving client changes place. */
  lemma {:induction false} OthersStay(w: World, s: Step)
    requires Enabled(w, s)
    ensures forall c | c != s.client :: PcOf(Apply(w, s), c) == PcOf(w, c)
  {
  }

  /** Other steps leave the locks and the client's hold on them as they are. */
  lemma {:induction false} QuietStep(w: World, s: Step)
    requires Enabled(w, s) && !TouchesLocks(s.action)
    ensures var v := Apply(w, s);
            && v.threadLocks == w.threadLocks && v.fileLock == w.fileLock
            && HoldsFile(PcOf(v, s.client)) == HoldsFile(PcOf(w, s.client))
            && HoldsThread(PcOf(v, s.client)) == HoldsThread(PcOf(w, s.client))
  {
  }

  lemma {:induction false} StepKeepsLocks(w: World, s: Step)
    requires LocksOk(w) && Enabled(w, s)
    ensures LocksOk(Apply(w, s))
  {
    OthersStay(w, s);
    if TouchesLocks(s.action) {
      var pc, v := PcOf(w, s.client), Apply(w, s);
      var to := PcOf(v, s.client);
      assert HoldsFile(to) == (s.action.TakeFileLock? || (HoldsFile(pc) && !s.action.ReleaseFileLock?));
      assert HoldsThread(to) == !s.action.ReleaseThreadLock?;
    } else {
      QuietStep(w, s);
    }
  }

  lemma {:induction false} LocksAlwaysOk(c0: Commit, schedule: seq<Step>)
    requires After(Init(c0), schedule).Some?
    ensures LocksOk(After(Init(c0), schedule).value)
  {
    if schedule != [] {
      var front := schedule[..|schedule| - 1];
      LocksAlwaysOk(c0, front);
      StepKeepsLocks(After(Init(c0), front).value, schedule[|schedule| - 1]);
    }
  }

  /** A client that waits for a lock or holds one. */
  predicate Engaged(pc: Pc)
  {
    pc.Ready? || HoldsThread(pc)
  }

  /** No deadlock: whenever some client waits for a lock or holds one, some such
      client can take its next step. */
  lemma {:induction false} NeverStuck(c0: Commit, schedule: seq<Step>, c: Client)
    requires After(Init(c0), schedule).Some?
    requires Engaged(PcOf(After(Init(c0), schedule).value, c))
    ensures var w := After(Init(c0), schedule).value;
            exists s :: Enabled(w, s) && Engaged(PcOf(w, s.client))
  {
    var w := After(Init(c0), schedule).value;
    LocksAlwaysOk(c0, schedule);
    var mover := if w.fileLock.Some? then w.fileLock.value
                 else if c.process in w.threadLocks then w.threadLocks[c.process]
                 else c;
    var pc := PcOf(w, mover);
    assert HoldsThread(pc) || (mover == c && pc.Ready?);
    var s := Step(mover,
      if pc.Ready? then TakeThreadLock
      else if pc.InThread? then TakeFileLock
      else if pc.InFile? then Check
      else if pc.Passed? then WriteRef
      else if pc.Wrote? then AppendLog
      else if pc.Leaving? then ReleaseFileLock
      else ReleaseThreadLock);
    assert Enabled(w, s);
  }
}
