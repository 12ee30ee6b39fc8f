/**
 The three reflog scans behind `redo`: Python goes by index, Rust searches for
 each hash anew, C++ makes one pass over the undo and redo entries.  All three
 take a series of undos back.
 */
module RedoScans {
  import opened Wrappers
  import opened History
  import opened Branch

  // ---------------------------------------------------------------------
  // Rust: repeated search
  // ---------------------------------------------------------------------

  datatype ScanError = NoRedoTarget | NotEnoughRedoHistory

  /** Where the newest move to `c` came from; `None` is the zero id. */
  function CameFrom(log: seq<LogEntry>, c: Option<Commit>): Result<Option<Commit>, ScanError>
  {
    if log == [] then Err(NoRedoTarget)
    else if Some(log[|log| - 1].after) == c then Ok(log[|log| - 1].before)
    else CameFrom(log[..|log| - 1], c)
  }

  function RustRedo(log: seq<LogEntry>, current: Option<Commit>, n: nat): Result<Option<Commit>, ScanError>
    decreases n
  {
    if n == 0 then Ok(current)
    else match CameFrom(log, current)
      case Err(e) => Err(e)
      case Ok(before) => RustRedo(log, before, n - 1)
  }

  /** For each of `n` steps, find the newest entry that led to the commit. */
  method RustFindRedo(log: seq<LogEntry>, current: Commit, n: nat) returns (r: Result<Option<Commit>, ScanError>)
    ensures r == RustRedo(log, Some(current), n)
  {
    var forward := Some(current);
    for i := 0 to n
      invariant RustRedo(log, Some(current), n) == RustRedo(log, forward, n - i)
    {
      var next := FindNewest(log, forward);
      if next.Err? { return next; }
      forward := next.value;
    }
    return Ok(forward);
  }

  method FindNewest(log: seq<LogEntry>, c: Option<Commit>) returns (r: Result<Option<Commit>, ScanError>)
    ensures r == CameFrom(log, c)
  {
    var i := |log|;
    assert log[..i] == log;
    while i > 0
      invariant 0 <= i <= |log|
      invariant CameFrom(log, c) == CameFrom(log[..i], c)
    {
      i := i - 1;
      assert log[..i + 1][..i] == log[..i];
      if Some(log[i].after) == c { return Ok(log[i].before); }
    }
    return Err(NoRedoTarget);
  }

  // ---------------------------------------------------------------------
  // C++: one filtered pass, newest entry first
  // ---------------------------------------------------------------------

  predicate ByUndoOrRedo(e: LogEntry)
  {
    e.kind == ByUndo || e.kind == ByRedo
  }

  function CppRedo(log: seq<LogEntry>, current: Commit, n: nat): Result<Commit, ScanError>
    decreases |log|
  {
    if n == 0 then Ok(current)
    else if log == [] then Err(NotEnoughRedoHistory)
    else
      var front, e := log[..|log| - 1], log[|log| - 1];
      if ByUndoOrRedo(e) && e.after == current && e.before.Some? then CppRedo(front, e.before.value, n - 1)
      else CppRedo(front, current, n)
  }

  method CppFindRedo(log: seq<LogEntry>, current: Commit, n: nat) returns (r: Result<Commit, ScanError>)
    ensures r == CppRedo(log, current, n)
  {
    var cur, found, i := current, 0, |log|;
    assert log[..i] == log;
    while i > 0 && found < n
      invariant 0 <= i <= |log| && 0 <= found <= n
      invariant CppRedo(log, current, n) == CppRedo(log[..i], cur, n - found)
    {
      i := i - 1;
      assert log[..i + 1][..i] == log[..i];
      var e := log[i];
      if !ByUndoOrRedo(e) { continue; }
      if e.after == cur {
        if e.before.Some? {
          cur, found := e.before.value, found + 1;
        }
      }
    }
    if found < n { return Err(NotEnoughRedoHistory); }
    return Ok(cur);
  }

  // ---------------------------------------------------------------------
  // A series of undos
  // ---------------------------------------------------------------------

  function Repeat(e: LogEntry, times: nat): seq<LogEntry>
  {
    if times == 0 then [] else Repeat(e, times - 1) + [e]
  }

  /** One undo by `size` commits, logged `times` times. */
  datatype UndoStep = UndoStep(size: nat, times: nat)

  predicate Proper(steps: seq<UndoStep>)
  {
    forall u | u in steps :: u.size >= 1 && u.times >= 1
  }

  /** The branch after the undos; `None` when history is too short for one of them. */
  function Undone(s: State, steps: seq<UndoStep>): Option<State>
  {
    if steps == [] then Some(s)
    else match Undone(s, steps[..|steps| - 1])
      case None => None
      case Some(t) =>
        var u := steps[|steps| - 1];
        match Back(t.tip, u.size)
        case None => None
        case Some(c) => Some(State(c, t.log + Repeat(LogEntry(Some(t.tip), c, ByUndo), u.times)))
  }

  /** How many commits the undos go back in all. */
  function Total(steps: seq<UndoStep>): nat
  {
    if steps == [] then 0 else Total(steps[..|steps| - 1]) + steps[|steps| - 1].size
  }

  /** The undos go through exactly when the first-parent chain is long enough, and then
      end at that member of it, with the given number of entries logged. */
  lemma {:induction false} UndoneExactly(s: State, steps: seq<UndoStep>)
    ensures Undone(s, steps).Some? <==> Total(steps) < |Chain(s.tip)|
    ensures Undone(s, steps).Some? ==>
              var t := Undone(s, steps).value;
              && t.tip == Chain(s.tip)[Total(steps)] && s.log <= t.log
              && Back(s.tip, Total(steps)) == Some(t.tip)
    decreases |steps|
  {
    if steps != [] {
      var front, u := steps[..|steps| - 1], steps[|steps| - 1];
      UndoneExactly(s, front);
      BackIsChain(s.tip, Total(steps));
      if Total(front) < |Chain(s.tip)| {
        BackTwice(s.tip, Total(front), u.size);
      }
    }
  }

  lemma {:induction false} BackTwice(c: Commit, n: nat, k: nat)
    requires Back(c, n).Some?
    ensures Back(Back(c, n).value, k) == Back(c, n + k)
    decreases n
  {
    if n > 0 { BackTwice(c.parents[0], n - 1, k); }
  }

  /** Entries that only lead to commits with a shorter history than `c`. */
  predicate AllShallower(entries: seq<LogEntry>, c: Commit)
  {
    forall e | e in entries :: Depth(e.after) < Depth(c)
  }

  lemma {:induction false} RepeatMembers(e: LogEntry, times: nat)
    ensures forall x | x in Repeat(e, times) :: x == e
    ensures |Repeat(e, times)| == times
  {
    if times > 0 { RepeatMembers(e, times - 1); }
  }

  lemma {:induction false} SearchSkips(log: seq<LogEntry>, extra: seq<LogEntry>, c: Commit)
    requires AllShallower(extra, c)
    ensures CameFrom(log + extra, Some(c)) == CameFrom(log, Some(c))
  {
    if extra == [] {
      assert log + extra == log;
    } else {
      var front, e := extra[..|extra| - 1], extra[|extra| - 1];
      assert e in extra;
      assert (log + extra)[..|log + extra| - 1] == log + front;
      SearchSkips(log, front, c);
    }
  }

  lemma {:induction false} PassSkips(log: seq<LogEntry>, extra: seq<LogEntry>, c: Commit, n: nat)
    requires AllShallower(extra, c)
    ensures CppRedo(log + extra, c, n) == CppRedo(log, c, n)
    decreases |extra|
  {
    if extra == [] {
      assert log + extra == log;
    } else {
      var front, e := extra[..|extra| - 1], extra[|extra| - 1];
      assert e in extra;
      assert (log + extra)[..|log + extra| - 1] == log + front;
      PassSkips(log, front, c, n);
    }
  }

  /** The last undo of a series: what it logs is newest, and the rest of what it logs
      and all later entries are shallower than the tip before it. */
  lemma {:induction false} LastUndo(t: State, u: UndoStep, c: Commit, extra: seq<LogEntry>)
    requires u.size >= 1 && u.times >= 1 && Back(t.tip, u.size) == Some(c) && AllShallower(extra, c)
    ensures var e := LogEntry(Some(t.tip), c, ByUndo);
            && Repeat(e, u.times) == Repeat(e, u.times - 1) + [e]
            && AllShallower(Repeat(e, u.times) + extra, t.tip)
            && AllShallower(Repeat(e, u.times - 1), t.tip)
  {
    BackIsShallower(t.tip, u.size);
    var e := LogEntry(Some(t.tip), c, ByUndo);
    RepeatMembers(e, u.times);
    RepeatMembers(e, u.times - 1);
  }

  lemma {:induction false} RustTakesUndosBack(s: State, steps: seq<UndoStep>, t: State, extra: seq<LogEntry>)
    requires Proper(steps) && Undone(s, steps) == Some(t) && AllShallower(extra, t.tip)
    ensures RustRedo(t.log + extra, Some(t.tip), |steps|) == Ok(Some(s.tip))
    decreases |steps|
  {
    if steps != [] {
      var front, u := steps[..|steps| - 1], steps[|steps| - 1];
      assert u in steps;
      var b := Undone(s, front).value;
      var e := LogEntry(Some(b.tip), t.tip, ByUndo);
      LastUndo(b, u, t.tip, extra);
      SearchSkips(t.log, extra, t.tip);
      assert t.log[|t.log| - 1] == e;
      assert t.log + extra == b.log + (Repeat(e, u.times) + extra);
      RustTakesUndosBack(s, front, b, Repeat(e, u.times) + extra);
    }
  }

  lemma {:induction false} CppTakesUndosBack(s: State, steps: seq<UndoStep>, t: State, extra: seq<LogEntry>)
    requires Proper(steps) && Undone(s, steps) == Some(t) && AllShallower(extra, t.tip)
    ensures CppRedo(t.log + extra, t.tip, |steps|) == Ok(s.tip)
    decreases |steps|
  {
    if steps != [] {
      var front, u := steps[..|steps| - 1], steps[|steps| - 1];
      assert u in steps;
      var b := Undone(s, front).value;
      var e := LogEntry(Some(b.tip), t.tip, ByUndo);
      LastUndo(b, u, t.tip, extra);
      PassSkips(t.log, extra, t.tip, |steps|);
      assert t.log[|t.log| - 1] == e;
      assert t.log[..|t.log| - 1] == b.log + Repeat(e, u.times - 1);
      CppTakesUndosBack(s, front, b, Repeat(e, u.times - 1));
    }
  }

  lemma {:induction false} PythonTakesUndosBack(s: State, steps: seq<UndoStep>, t: State, k: nat)
    requires Proper(steps) && Undone(s, steps) == Some(t) && (forall u | u in steps :: u.times == 1)
    requires k <= |steps|
    ensures |t.log| == |s.log| + |steps|
    ensures Undone(s, steps[..|steps| - k]).Some?
    ensures StepBack(t.log, |t.log| - 1, k, t.tip) == Ok(Undone(s, steps[..|steps| - k]).value.tip)
    decreases |steps|
  {
    if steps != [] {
      var front, u := steps[..|steps| - 1], steps[|steps| - 1];
      assert u in steps;
      var b := Undone(s, front).value;
      var e := LogEntry(Some(b.tip), t.tip, ByUndo);
      assert Repeat(e, 0) + [e] == [e];
      assert Repeat(e, 1) == [e];
      if k > 0 {
        PythonTakesUndosBack(s, front, b, k - 1);
        assert front[..|front| - (k - 1)] == steps[..|steps| - k];
        StepBackPrefix(b.log, [e], |b.log| - 1, k - 1, b.tip);
      } else {
        PythonTakesUndosBack(s, front, b, 0);
        assert steps[..|steps|] == steps;
      }
    } else {
      assert steps[..0] == steps;
    }
  }

  lemma {:induction false} StepBackPrefix(log: seq<LogEntry>, more: seq<LogEntry>, index: int, steps: nat, c: Commit)
    requires index < |log|
    ensures StepBack(log + more, index, steps, c) == StepBack(log, index, steps, c)
    decreases steps
  {
    if steps > 0 && index >= 0 && log[index].before.Some? {
      StepBackPrefix(log, more, index - 1, steps - 1, log[index].before.value);
    }
  }

  /** Any number of undos of any sizes, then one `redo` by that number: each port is
      back at the original tip.  For the two searches each undo may have been logged
      more than once. */
  lemma {:induction false} UndosThenRedo(s: State, steps: seq<UndoStep>, t: State)
    requires steps != [] && Proper(steps) && Undone(s, steps) == Some(t)
    ensures RustRedo(t.log, Some(t.tip), |steps|) == Ok(Some(s.tip))
    ensures CppRedo(t.log, t.tip, |steps|) == Ok(s.tip)
    ensures (forall u | u in steps :: u.times == 1) ==> RedoTarget(t.log, t.tip, |steps|) == Ok(s.tip)
  {
    assert t.log + [] == t.log;
    RustTakesUndosBack(s, steps, t, []);
    CppTakesUndosBack(s, steps, t, []);
    if forall u | u in steps :: u.times == 1 {
      PythonRedoes(s, steps, t);
    }
  }

  lemma {:induction false} PythonRedoes(s: State, steps: seq<UndoStep>, t: State)
    requires steps != [] && Proper(steps) && Undone(s, steps) == Some(t) && forall u | u in steps :: u.times == 1
    ensures RedoTarget(t.log, t.tip, |steps|) == Ok(s.tip)
  {
    PythonTakesUndosBack(s, steps, t, |steps|);
    assert steps[..0] == [];
    LastEntry(s, steps, t);
  }

  lemma {:induction false} LastEntry(s: State, steps: seq<UndoStep>, t: State)
    requires steps != [] && Proper(steps) && Undone(s, steps) == Some(t)
    ensures t.log != [] && LatestMoveTo(t.log, t.tip) == Some(|t.log| - 1)
  {
    var u := steps[|steps| - 1];
    assert u in steps;
    var b := Undone(s, steps[..|steps| - 1]).value;
    LastUndo(b, u, t.tip, []);
  }

  // ---------------------------------------------------------------------
  // Rust against Python
  // ---------------------------------------------------------------------

  /** The tip of `j` moves ago, which is where Python's `redo(j)` leads. */
  lemma {:induction false} PythonCountsMoves(s: State, j: nat)
    requires LogIsChain(s)
    ensures RedoTarget(s.log, s.tip, j) ==
            if j < |s.log| then Ok(s.log[|s.log| - 1 - j].after) else Err(CreationPoint)
  {
    StepBackOnChain(s, |s.log| - 1, j);
  }

  /** The newest move to the commit that entry `i` led to came from where entry `i` did. */
  predicate EnteredAlike(log: seq<LogEntry>, i: nat)
    requires i < |log|
  {
    CameFrom(log, Some(log[i].after)) == Ok(log[i].before)
  }

  predicate RustAgrees(s: State, j: nat)
  {
    var python := RedoTarget(s.log, s.tip, j);
    python.Ok? && RustRedo(s.log, Some(s.tip), j) == Ok(Some(python.value))
  }

  /** One more step of the repeated search goes on from where the steps before ended. */
  lemma {:induction false} RustOneMore(log: seq<LogEntry>, c: Option<Commit>, n: nat)
    ensures RustRedo(log, c, n + 1) ==
            match RustRedo(log, c, n) case Err(e) => Err(e) case Ok(d) => CameFrom(log, d)
    decreases n
  {
    if n > 0 && CameFrom(log, c).Ok? {
      RustOneMore(log, CameFrom(log, c).value, n - 1);
    }
  }

  /** Rust leads where Python leads for up to `top` steps exactly when, of the last
      `top` moves, each led to a commit that was last entered from the same place. */
  lemma {:induction false} RustAgreesExactly(s: State, top: nat)
    requires LogIsChain(s) && top < |s.log|
    ensures (forall j: nat | j <= top :: RustAgrees(s, j)) <==>
            (forall i: nat | |s.log| - top <= i < |s.log| :: EnteredAlike(s.log, i))
  {
    PythonCountsMoves(s, top);
    if top > 0 {
      RustAgreesExactly(s, top - 1);
      RustOneMore(s.log, Some(s.tip), top - 1);
      PythonCountsMoves(s, top - 1);
      var i := |s.log| - top;
      assert s.log[i].before == Some(s.log[i - 1].after);
      if forall j: nat | j <= top - 1 :: RustAgrees(s, j) {
        assert RustAgrees(s, top - 1);
        assert RustAgrees(s, top) <==> EnteredAlike(s.log, i);
      }
    }
  }

  // ---------------------------------------------------------------------
  // C++ against Python
  // ---------------------------------------------------------------------

  /** Both lead to the same commit, or both refuse. */
  predicate CppAgrees(s: State, j: nat)
  {
    var python, cpp := RedoTarget(s.log, s.tip, j), CppRedo(s.log, s.tip, j);
    if python.Ok? then cpp == Ok(python.value) else cpp.Err?
  }

  /** The last `j` entries were logged by an undo or a redo. */
  predicate LastAreUndosOrRedos(log: seq<LogEntry>, j: nat)
    requires j <= |log|
  {
    forall i | |log| - j <= i < |log| :: ByUndoOrRedo(log[i])
  }

  lemma {:induction false} ShorterChain(s: State)
    requires LogIsChain(s) && |s.log| > 1
    ensures LogIsChain(State(s.log[|s.log| - 2].after, s.log[..|s.log| - 1]))
    ensures s.log[|s.log| - 1].before == Some(s.log[|s.log| - 2].after)
  {
  }

  /** Undos and redos are followed one by one. */
  lemma {:induction false} CppFollows(s: State, j: nat)
    requires LogIsChain(s) && j < |s.log| && LastAreUndosOrRedos(s.log, j)
    ensures CppRedo(s.log, s.tip, j) == Ok(s.log[|s.log| - 1 - j].after)
    decreases j
  {
    if j > 0 {
      ShorterChain(s);
      CppFollows(State(s.log[|s.log| - 2].after, s.log[..|s.log| - 1]), j - 1);
    }
  }

  /** Each step of the pass uses up an entry that has a predecessor. */
  lemma {:induction false} CppRunsOut(log: seq<LogEntry>, c: Commit, j: nat)
    requires j > |log| || (j == |log| > 0 && log[0].before.None?)
    ensures CppRedo(log, c, j).Err?
    decreases |log|
  {
    if log != [] {
      var front, e := log[..|log| - 1], log[|log| - 1];
      CppRunsOut(front, c, j);
      if ByUndoOrRedo(e) && e.after == c && e.before.Some? {
        CppRunsOut(front, e.before.value, j - 1);
      }
    }
  }

  /** No entry leads to `c`. */
  lemma {:induction false} CppFindsNothing(log: seq<LogEntry>, c: Commit, j: nat)
    requires j > 0 && forall e | e in log :: e.after != c
    ensures CppRedo(log, c, j).Err?
    decreases |log|
  {
    if log != [] {
      assert log[|log| - 1] in log;
      CppFindsNothing(log[..|log| - 1], c, j);
    }
  }

  /** The commits the log led to are all different. */
  predicate NoReturn(log: seq<LogEntry>)
  {
    forall i, k | 0 <= i < k < |log| :: log[i].after != log[k].after
  }

  /** Without a return to an earlier commit, the pass stops at the first other move. */
  lemma {:induction false} CppStops(s: State, j: nat)
    requires LogIsChain(s) && NoReturn(s.log) && j < |s.log| && !LastAreUndosOrRedos(s.log, j)
    ensures CppRedo(s.log, s.tip, j).Err?
    decreases j
  {
    var front, e := s.log[..|s.log| - 1], s.log[|s.log| - 1];
    ShorterChain(s);
    if ByUndoOrRedo(e) {
      CppStops(State(s.log[|s.log| - 2].after, front), j - 1);
    } else {
      CppFindsNothing(front, s.tip, j);
    }
  }

  function Kinds(log: seq<LogEntry>): seq<Kind>
  {
    seq(|log|, i requires 0 <= i < |log| => log[i].kind)
  }

  /** A log of the given kinds that leads to a new commit with every move. */
  function FreshCommit(i: nat): Commit
  {
    Commit(map[], [], i)
  }

  function FreshLog(kinds: seq<Kind>): seq<LogEntry>
  {
    seq(|kinds|, i requires 0 <= i < |kinds| =>
      LogEntry(if i == 0 then None else Some(FreshCommit(i - 1)), FreshCommit(i), kinds[i]))
  }

  /** On one log C++ agrees with Python when the last `j` moves were undos and redos, or
      when there were not that many moves; without a return to an earlier commit, then
      only. */
  lemma {:induction false} CppAgreesOn(s: State, j: nat)
    requires LogIsChain(s)
    ensures j >= |s.log| || LastAreUndosOrRedos(s.log, j) ==> CppAgrees(s, j)
    ensures NoReturn(s.log) && CppAgrees(s, j) ==> j >= |s.log| || LastAreUndosOrRedos(s.log, j)
  {
    PythonCountsMoves(s, j);
    if j >= |s.log| {
      CppRunsOut(s.log, s.tip, j);
    } else if LastAreUndosOrRedos(s.log, j) {
      CppFollows(s, j);
    } else if NoReturn(s.log) {
      CppStops(s, j);
    }
  }

  /** C++ agrees with Python on `redo(j)`, whatever commits a log of the given kinds leads
      to, exactly when the last `j` kinds are undos and redos, or when there are not that
      many moves. */
  lemma {:induction false} CppAgreesExactly(kinds: seq<Kind>, j: nat)
    requires kinds != []
    ensures (forall s: State | LogIsChain(s) && Kinds(s.log) == kinds :: CppAgrees(s, j)) <==>
            (j >= |kinds| || forall i | |kinds| - j <= i < |kinds| :: kinds[i] == ByUndo || kinds[i] == ByRedo)
  {
    if j >= |kinds| || forall i | |kinds| - j <= i < |kinds| :: kinds[i] == ByUndo || kinds[i] == ByRedo {
      forall s: State | LogIsChain(s) && Kinds(s.log) == kinds ensures CppAgrees(s, j) {
        assert forall i | 0 <= i < |kinds| :: kinds[i] == Kinds(s.log)[i] == s.log[i].kind;
        CppAgreesOn(s, j);
      }
    } else {
      var s := State(FreshCommit(|kinds| - 1), FreshLog(kinds));
      assert Kinds(s.log) == kinds;
      assert forall i | 0 <= i < |kinds| :: kinds[i] == s.log[i].kind;
      CppAgreesOn(s, j);
    }
  }

  // ---------------------------------------------------------------------
  // Where the scans part
  // ---------------------------------------------------------------------

  /** After a commit, C++ sees nothing to redo where Python and Rust take the commit
      back; after an undo of it, three steps run off the log in Python and round in a
      circle in Rust. */
  lemma {:induction false} ScansDiffer(a: Commit, b: Commit)
    requires a != b
    ensures var log := [LogEntry(None, a, ByCreation), LogEntry(Some(a), b, ByCommit)];
            && RedoTarget(log, b, 1) == Ok(a)
            && RustRedo(log, Some(b), 1) == Ok(Some(a))
            && CppRedo(log, b, 1) == Err(NotEnoughRedoHistory)
    ensures var log := [LogEntry(None, a, ByCreation), LogEntry(Some(a), b, ByCommit), LogEntry(Some(b), a, ByUndo)];
            && RedoTarget(log, a, 3) == Err(CreationPoint)
            && RustRedo(log, Some(a), 3) == Ok(Some(b))
            && CppRedo(log, a, 3) == Err(NotEnoughRedoHistory)
  {
    var e0, e1, e2 := LogEntry(None, a, ByCreation), LogEntry(Some(a), b, ByCommit), LogEntry(Some(b), a, ByUndo);
    var l0, l1, l2, l3 := [], [e0], [e0, e1], [e0, e1, e2];
    assert l3[..2] == l2 && l2[..1] == l1 && l1[..0] == l0;
    assert CppRedo(l0, b, 1) == CppRedo(l1, b, 1) == CppRedo(l2, b, 1) == Err(NotEnoughRedoHistory);
    assert CameFrom(l2, Some(b)) == Ok(Some(a)) && RustRedo(l2, Some(a), 0) == Ok(Some(a));
    assert StepBack(l2, 0, 0, a) == Ok(a);
    assert CameFrom(l3, Some(a)) == Ok(Some(b)) && CameFrom(l3, Some(b)) == CameFrom(l2, Some(b));
    assert RustRedo(l3, Some(b), 0) == Ok(Some(b)) && RustRedo(l3, Some(a), 1) == Ok(Some(b));
    assert RustRedo(l3, Some(b), 2) == Ok(Some(b));
    assert StepBack(l3, 0, 1, a) == Err(CreationPoint) && StepBack(l3, 1, 2, b) == Err(CreationPoint);
    assert CppRedo(l0, b, 2) == CppRedo(l1, b, 2) == CppRedo(l2, b, 2) == Err(NotEnoughRedoHistory);
  }
}
