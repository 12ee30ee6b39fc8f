/**
 Commits as values, and the first-parent history of a commit.
 */
module History {
  import opened Wrappers
  import opened Trees

  /** A commit is its tree, its parents (the branch tip it was made from first) and
      a stamp that stands for message, author and time. */
  datatype Commit = Commit(tree: Entries, parents: seq<Commit>, stamp: nat)

  function Parent(c: Commit): Option<Commit>
  {
    if c.parents == [] then None else Some(c.parents[0])
  }

  /** The commit and its first-parent ancestors, newest first. */
  function Chain(c: Commit): (cs: seq<Commit>)
    ensures cs != [] && cs[0] == c
  {
    if c.parents == [] then [c] else [c] + Chain(c.parents[0])
  }

  function Depth(c: Commit): nat
  {
    |Chain(c)|
  }

  /** `a` is `c` or a first-parent ancestor of it. */
  predicate Ancestor(a: Commit, c: Commit)
  {
    a in Chain(c)
  }

  /** The `n`-th first-parent ancestor. */
  function Back(c: Commit, n: nat): Option<Commit>
  {
    if n == 0 then Some(c)
    else if c.parents == [] then None
    else Back(c.parents[0], n - 1)
  }

  lemma {:induction false} BackIsChain(c: Commit, n: nat)
    ensures Back(c, n) == if n < |Chain(c)| then Some(Chain(c)[n]) else None
    decreases n
  {
    if n > 0 && c.parents != [] {
      BackIsChain(c.parents[0], n - 1);
    }
  }

  /** History has no cycle: going back makes the history shorter. */
  lemma {:induction false} BackIsShallower(c: Commit, n: nat)
    requires Back(c, n).Some?
    ensures Depth(Back(c, n).value) == Depth(c) - n
    decreases n
  {
    if n > 0 {
      BackIsShallower(c.parents[0], n - 1);
    }
  }

  method WalkBack(c: Commit, n: nat) returns (r: Result<Commit, nat>)
    ensures r == match Back(c, n) case Some(a) => Ok(a) case None => Err(Depth(c) - 1)
  {
    var current := c;
    for i := 0 to n
      invariant Back(c, n) == Back(current, n - i)
      invariant Depth(c) == Depth(current) + i
    {
      if current.parents == [] {
        return Err(i);
      }
      current := current.parents[0];
    }
    return Ok(current);
  }

  // ---------------------------------------------------------------------
  // A series of commits, each made on the one before
  // ---------------------------------------------------------------------

  /** Successive commits are parent and child. */
  predicate OneChain(tips: seq<Commit>)
  {
    forall i | 0 < i < |tips| :: FollowsOn(tips, i)
  }

  predicate FollowsOn(tips: seq<Commit>, i: nat)
    requires 0 < i < |tips|
  {
    Parent(tips[i]) == Some(tips[i - 1])
  }

  lemma {:induction false} TipsAreAncestors(tips: seq<Commit>, i: nat)
    requires OneChain(tips) && i < |tips|
    ensures Ancestor(tips[i], tips[|tips| - 1])
    decreases |tips|
  {
    if i < |tips| - 1 {
      var front := tips[..|tips| - 1];
      forall k: nat | 0 < k < |front| ensures FollowsOn(front, k) {
        assert FollowsOn(tips, k);
      }
      TipsAreAncestors(front, i);
      assert FollowsOn(tips, |tips| - 1);
    }
  }
}
