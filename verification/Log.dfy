/**
 The commit log: a walk along first parents with filters, skip and limit.
 */
module Log {
  import opened Wrappers
  import opened Trees
  import opened History

  /** Which commits to report.  `keep` stands for the time and message filters. */
  datatype Query = Query(keep: Commit -> bool, path: Option<Path>, skip: Option<nat>, limit: Option<nat>)

  /** The object at a path changed between a commit and its first parent; in a first
      commit, it exists. */
  predicate ChangedAt(c: Commit, p: Path)
  {
    var here := At(Dir(c.tree), p);
    match Parent(c)
    case Some(parent) => here != At(Dir(parent.tree), p)
    case None => here.Some?
  }

  predicate Matches(q: Query, c: Commit)
  {
    q.keep(c) && (q.path.Some? ==> ChangedAt(c, q.path.value))
  }

  // ---------------------------------------------------------------------
  // What the log is
  // ---------------------------------------------------------------------

  function Filtered(cs: seq<Commit>, q: Query): seq<Commit>
  {
    if cs == [] then []
    else (if Matches(q, cs[0]) then [cs[0]] else []) + Filtered(cs[1..], q)
  }

  function Drop<T>(s: seq<T>, n: nat): seq<T>
  {
    if n < |s| then s[n..] else []
  }

  function Take<T>(s: seq<T>, n: nat): seq<T>
  {
    if n < |s| then s[..n] else s
  }

  function SkipOf(q: Query): nat
  {
    if q.skip.Some? then q.skip.value else 0
  }

  /** Filter, then skip, then limit, over the first-parent chain.  The walk looks at
      the limit only after reporting a commit, so a limit of zero acts as one. */
  function LogOf(tip: Commit, q: Query): seq<Commit>
  {
    Limited(Drop(Filtered(Chain(tip), q), SkipOf(q)), q)
  }

  // ---------------------------------------------------------------------
  // The walk
  // ---------------------------------------------------------------------

  /** What is left of the history to walk. */
  function Rest(c: Option<Commit>): seq<Commit>
  {
    if c.Some? then Chain(c.value) else []
  }

  lemma {:induction false} RestStep(c: Commit, q: Query)
    ensures Rest(Some(c)) == [c] + Rest(Parent(c))
    ensures Filtered(Rest(Some(c)), q) == (if Matches(q, c) then [c] else []) + Filtered(Rest(Parent(c)), q)
  {
    assert Chain(c)[1..] == Rest(Parent(c));
  }

  /** The matching commits so far were skipped first, then reported, below the limit. */
  ghost predicate Walking(all: seq<Commit>, skipped: seq<Commit>, results: seq<Commit>, rest: seq<Commit>, q: Query)
  {
    && all == skipped + results + rest
    && |skipped| <= SkipOf(q) && (results != [] ==> |skipped| == SkipOf(q))
    && (q.limit.Some? && results != [] ==> |results| < q.limit.value)
  }

  function Limited(found: seq<Commit>, q: Query): seq<Commit>
  {
    match q.limit
    case None => found
    case Some(n) => Take(found, if n == 0 then 1 else n)
  }

  lemma {:induction false} HistoryEnds(all: seq<Commit>, skipped: seq<Commit>, results: seq<Commit>, q: Query)
    requires Walking(all, skipped, results, [], q)
    ensures results == Limited(Drop(all, SkipOf(q)), q)
  {
    assert all == skipped + results;
    if results != [] {
      assert all[|skipped|..] == results;
    }
  }

  lemma {:induction false} LimitReached(all: seq<Commit>, skipped: seq<Commit>, results: seq<Commit>, c: Commit, rest: seq<Commit>, q: Query)
    requires Walking(all, skipped, results, [c] + rest, q)
    requires |skipped| == SkipOf(q) && q.limit.Some? && |results| + 1 >= q.limit.value
    ensures results + [c] == Limited(Drop(all, SkipOf(q)), q)
  {
    var found := all[|skipped|..];
    assert found == results + ([c] + rest);
    assert found[..|results| + 1] == results + [c];
  }

  lemma {:induction false} WalkSkips(all: seq<Commit>, skipped: seq<Commit>, results: seq<Commit>, c: Commit, rest: seq<Commit>, q: Query)
    requires Walking(all, skipped, results, [c] + rest, q) && |skipped| < SkipOf(q)
    ensures Walking(all, skipped + [c], results, rest, q)
  {
    assert skipped + [] + ([c] + rest) == (skipped + [c]) + [] + rest;
  }

  lemma {:induction false} WalkReports(all: seq<Commit>, skipped: seq<Commit>, results: seq<Commit>, c: Commit, rest: seq<Commit>, q: Query)
    requires Walking(all, skipped, results, [c] + rest, q) && |skipped| == SkipOf(q)
    requires q.limit.Some? ==> |results| + 1 < q.limit.value
    ensures Walking(all, skipped, results + [c], rest, q)
  {
    assert skipped + results + ([c] + rest) == skipped + (results + [c]) + rest;
  }

  method CommitLog(tip: Commit, q: Query) returns (results: seq<Commit>)
    ensures results == LogOf(tip, q)
  {
    results := [];
    var skipped := 0;
    var cur := Some(tip);
    ghost var all := Filtered(Chain(tip), q);
    ghost var passed: seq<Commit>, rest := [], all;
    assert [] + [] + all == all;
    while cur.Some?
      invariant skipped == |passed| && rest == Filtered(Rest(cur), q)
      invariant Walking(all, passed, results, rest, q)
      decreases |Rest(cur)|
    {
      var c := cur.value;
      RestStep(c, q);
      rest := Filtered(Rest(Parent(c)), q);
      if Matches(q, c) {
        if q.skip.Some? && skipped < q.skip.value {
          WalkSkips(all, passed, results, c, rest, q);
          skipped := skipped + 1;
          passed := passed + [c];
        } else {
          if q.limit.Some? && |results| + 1 >= q.limit.value {
            LimitReached(all, passed, results, c, rest, q);
            results := results + [c];
            return;
          }
          WalkReports(all, passed, results, c, rest, q);
          results := results + [c];
        }
      } else {
        assert [] + rest == rest;
      }
      cur := Parent(c);
    }
    HistoryEnds(all, passed, results, q);
  }

  // ---------------------------------------------------------------------
  // What the log reports
  // ---------------------------------------------------------------------

  /** The query without skip and limit. */
  function Whole(q: Query): Query
  {
    q.(skip := None, limit := None)
  }

  function ObjectIn(c: Commit, p: Path): Option<Tree>
  {
    At(Dir(c.tree), p)
  }

  /** The object at `p` in the `i`-th commit of a chain differs from the one before it;
      before the oldest commit there was none. */
  predicate Differs(chain: seq<Commit>, i: nat, p: Path)
    requires i < |chain|
  {
    ObjectIn(chain[i], p) != if i + 1 < |chain| then ObjectIn(chain[i + 1], p) else None
  }

  lemma {:induction false} ChainDepths(c: Commit, i: nat)
    requires i < |Chain(c)|
    ensures Depth(Chain(c)[i]) == Depth(c) - i
    ensures Chain(c)[i].parents != [] <==> i + 1 < |Chain(c)|
    ensures i + 1 < |Chain(c)| ==> Parent(Chain(c)[i]) == Some(Chain(c)[i + 1])
    decreases i
  {
    if i > 0 { ChainDepths(c.parents[0], i - 1); }
  }

  /** Newest first: each commit has a longer history than the next. */
  predicate NewestFirst(cs: seq<Commit>)
  {
    forall i | 0 < i < |cs| :: Older(cs[i], cs[i - 1])
  }

  predicate Older(a: Commit, b: Commit)
  {
    Depth(a) < Depth(b)
  }

  lemma {:induction false} FilteredMembers(c: Commit, q: Query)
    ensures forall x :: x in Filtered(Chain(c), q) <==> x in Chain(c) && Matches(q, x)
  {
    RestStep(c, q);
    if Parent(c).Some? { FilteredMembers(c.parents[0], q); }
  }

  lemma {:induction false} FilteredOrder(c: Commit, q: Query)
    ensures NewestFirst(Filtered(Chain(c), q))
    ensures forall x | x in Filtered(Chain(c), q) :: x == c || Older(x, c)
  {
    RestStep(c, q);
    if Parent(c).Some? {
      FilteredOrder(c.parents[0], q);
      assert Older(c.parents[0], c);
      PrependNewest(c, Filtered(Chain(c.parents[0]), q));
    }
  }

  lemma {:induction false} PrependNewest(c: Commit, cs: seq<Commit>)
    requires NewestFirst(cs) && forall x | x in cs :: Older(x, c)
    ensures NewestFirst([c] + cs) && NewestFirst([] + cs)
  {
    assert [] + cs == cs;
    var all := [c] + cs;
    forall i | 0 < i < |all| ensures Older(all[i], all[i - 1]) {
      assert all[i] == cs[i - 1] && cs[i - 1] in cs;
      assert i > 1 ==> all[i - 1] == cs[i - 2];
    }
  }

  /** The whole log is the commits of the first-parent chain, newest first, that pass the
      filters and, if a path is asked for, hold another object there than their parent. */
  lemma {:induction false} LogExactly(tip: Commit, q: Query)
    ensures var chain, log := Chain(tip), LogOf(tip, Whole(q));
            && NewestFirst(log) && (forall c | c in log :: c in chain)
            && forall i | 0 <= i < |chain| ::
                 chain[i] in log <==> q.keep(chain[i]) && (q.path.Some? ==> Differs(chain, i, q.path.value))
  {
    var chain, w := Chain(tip), Whole(q);
    assert Drop(Filtered(chain, w), 0) == Filtered(chain, w);
    FilteredMembers(tip, w);
    FilteredOrder(tip, w);
    forall i | 0 <= i < |chain| ensures Matches(w, chain[i]) <==>
      q.keep(chain[i]) && (q.path.Some? ==> Differs(chain, i, q.path.value))
    {
      ChainDepths(tip, i);
    }
  }

  /** Skip and limit cut a piece out of the whole log; a limit of zero acts as one. */
  lemma {:induction false} SkipAndLimit(tip: Commit, q: Query)
    ensures var all, log := LogOf(tip, Whole(q)), LogOf(tip, q);
            var from := if q.skip.None? then 0 else if q.skip.value < |all| then q.skip.value else |all|;
            var most := if q.limit.None? then |all| else if q.limit.value == 0 then 1 else q.limit.value;
            log == all[from..if from + most < |all| then from + most else |all|]
  {
    var all := Filtered(Chain(tip), q);
    SameFilter(Chain(tip), q);
    assert Drop(all, 0) == all;
  }

  lemma {:induction false} SameFilter(cs: seq<Commit>, q: Query)
    ensures Filtered(cs, Whole(q)) == Filtered(cs, q)
  {
    if cs != [] { SameFilter(cs[1..], q); }
  }

  // ---------------------------------------------------------------------
  // The path log knows the path
  // ---------------------------------------------------------------------

  function PathQuery(p: Path): Query
  {
    Query(_ => true, Some(p), None, None)
  }

  function PathLog(tip: Commit, p: Path): seq<Commit>
  {
    LogOf(tip, PathQuery(p))
  }

  lemma {:induction false} PathLogStep(tip: Commit, p: Path)
    ensures PathLog(tip, p) ==
            (if ChangedAt(tip, p) then [tip] else []) +
            (if Parent(tip).Some? then PathLog(Parent(tip).value, p) else [])
  {
    var q := PathQuery(p);
    RestStep(tip, q);
    assert Drop(Filtered(Chain(tip), q), 0) == Filtered(Chain(tip), q);
    if Parent(tip).Some? {
      var older := Filtered(Chain(Parent(tip).value), q);
      assert Drop(older, 0) == older;
    }
  }

  /** The object at a path is the one in the newest commit that the path log reports,
      and there is none when the log is empty. */
  lemma {:induction false} PathLogKnowsPath(tip: Commit, p: Path)
    ensures var log := PathLog(tip, p);
            ObjectIn(tip, p) == if log == [] then None else ObjectIn(log[0], p)
    decreases tip
  {
    PathLogStep(tip, p);
    if Parent(tip).Some? {
      PathLogKnowsPath(tip.parents[0], p);
    }
  }

  /** Neighbours hold different objects at `p`, and the oldest commit holds an object. */
  predicate TellsHistory(log: seq<Commit>, p: Path)
  {
    forall k | 0 <= k < |log| :: Differs(log, k, p)
  }

  lemma {:induction false} HistoryGrows(c: Commit, log: seq<Commit>, p: Path)
    requires TellsHistory(log, p) && ObjectIn(c, p) != if log == [] then None else ObjectIn(log[0], p)
    ensures TellsHistory([c] + log, p)
  {
    forall k: nat | k < |[c] + log| ensures Differs([c] + log, k, p) {
      if k > 0 { assert Differs(log, k - 1, p); }
    }
  }

  /** The path log tells the history of the path. */
  lemma {:induction false} PathLogIsHistory(tip: Commit, p: Path)
    ensures TellsHistory(PathLog(tip, p), p)
    decreases tip
  {
    PathLogStep(tip, p);
    var older := if Parent(tip).Some? then PathLog(Parent(tip).value, p) else [];
    if Parent(tip).Some? {
      PathLogIsHistory(tip.parents[0], p);
      PathLogKnowsPath(tip.parents[0], p);
    }
    if ChangedAt(tip, p) {
      HistoryGrows(tip, older, p);
    } else {
      assert [] + older == older;
    }
  }
}
