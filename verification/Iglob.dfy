/**
 Expansion of a path pattern over a tree, with `**` for any number of
 directories.
 */
module Iglob {
  import opened Trees
  import opened Glob

  /** Which paths a pattern stands for.  `**` stands for zero or more directories
      without a leading dot; the last segment must match the last name. */
  predicate PathMatch(segs: seq<string>, p: Path)
    decreases |segs| + |p|
  {
    if segs == [] || p == [] then false
    else if segs[0] == "**" then
      PathMatch(segs[1..], p) || (|p| >= 2 && !Dotted(p[0]) && PathMatch(segs, p[1..]))
    else if |segs| == 1 then |p| == 1 && GlobMatch(segs[0], p[0])
    else |p| >= 2 && GlobMatch(segs[0], p[0]) && PathMatch(segs[1..], p[1..])
  }

  /** The files of the directory that the pattern stands for. */
  ghost predicate Hit(m: Entries, segs: seq<string>, p: Path)
  {
    FileAt(Dir(m), p).Some? && PathMatch(segs, p)
  }

  /** The hits that one entry of the directory contributes. */
  ghost predicate HitThrough(m: Entries, segs: seq<string>, p: Path)
    requires segs != []
  {
    p != [] && p[0] in m &&
    var t, rest := m[p[0]], p[1..];
    if segs[0] == "**" then !Dotted(p[0]) && t.Dir? && Hit(t.entries, segs, rest)
    else if |segs| == 1 then GlobMatch(segs[0], p[0]) && t.Blob? && rest == []
    else GlobMatch(segs[0], p[0]) && t.Dir? && Hit(t.entries, segs[1..], rest)
  }

  lemma {:induction false} HitSplits(m: Entries, segs: seq<string>, p: Path)
    requires segs != []
    ensures Hit(m, segs, p) <==> (segs[0] == "**" && Hit(m, segs[1..], p)) || HitThrough(m, segs, p)
  {
    if p != [] {
      assert p == [p[0]] + p[1..];
      FileAtCons(m, p[0], p[1..]);
    }
  }

  lemma {:induction false} HitSplitsAll(m: Entries, segs: seq<string>)
    requires segs != []
    ensures forall p :: Hit(m, segs, p) <==> (segs[0] == "**" && Hit(m, segs[1..], p)) || HitThrough(m, segs, p)
  {
    forall p { HitSplits(m, segs, p); }
  }

  /** Pushes onto `results` the full path of every file the pattern stands for. */
  method IglobRecursive(m: Entries, segs: seq<string>, prefix: Path, before: seq<Path>) returns (results: seq<Path>)
    ensures forall q :: q in results <==> q in before || (prefix <= q && Hit(m, segs, q[|prefix|..]))
    decreases Dir(m), |segs|
  {
    if segs == [] { return before; }
    HitSplitsAll(m, segs);
    results := before;
    if segs[0] == "**" {
      results := IglobRecursive(m, segs[1..], prefix, results);
    }
    ghost var base := results;
    var todo := m.Keys;
    while todo != {}
      invariant todo <= m.Keys
      invariant forall q :: q in results <==> q in base || HitBy(m, segs, prefix, m.Keys - todo, q)
      decreases todo
    {
      var n :| n in todo;
      ghost var done := m.Keys - todo;
      todo := todo - {n};
      ghost var pushed := results;
      var full := prefix + [n];
      HitByStep(m, segs, prefix, n);
      if segs[0] == "**" {
        if !Dotted(n) && m[n].Dir? {
          results := IglobRecursive(m[n].entries, segs, full, results);
        }
      } else if GlobMatch(segs[0], n) {
        if |segs| == 1 {
          if m[n].Blob? {
            results := results + [full];
          }
        } else if m[n].Dir? {
          results := IglobRecursive(m[n].entries, segs[1..], full, results);
        }
      }
      assert m.Keys - todo == done + {n};
      assert forall q :: q in results <==> q in pushed || HitBy(m, segs, prefix, {n}, q);
    }
    assert m.Keys - todo == m.Keys;
  }

  /** Hits that come through one of the given names. */
  ghost predicate HitBy(m: Entries, segs: seq<string>, prefix: Path, names: set<Name>, q: Path)
    requires segs != []
  {
    prefix <= q && |q| > |prefix| && q[|prefix|] in names && HitThrough(m, segs, q[|prefix|..])
  }

  /** What the name `n` contributes, told from the path behind it. */
  lemma {:induction false} HitByStep(m: Entries, segs: seq<string>, prefix: Path, n: Name)
    requires segs != [] && n in m
    ensures forall q :: HitBy(m, segs, prefix, {n}, q) <==>
              prefix + [n] <= q &&
              var rest := q[|prefix| + 1..];
              if segs[0] == "**" then !Dotted(n) && m[n].Dir? && Hit(m[n].entries, segs, rest)
              else if |segs| == 1 then GlobMatch(segs[0], n) && m[n].Blob? && q == prefix + [n]
              else GlobMatch(segs[0], n) && m[n].Dir? && Hit(m[n].entries, segs[1..], rest)
  {
    forall q | prefix <= q && |q| > |prefix|
      ensures q[|prefix|..][1..] == q[|prefix| + 1..] && (prefix + [n] <= q <==> q[|prefix|] == n)
      ensures prefix + [n] <= q ==> (q[|prefix| + 1..] == [] <==> q == prefix + [n])
    {
    }
  }

  // ---------------------------------------------------------------------
  // Patterns without `**`, and dotfiles
  // ---------------------------------------------------------------------

  /** Without `**`, each segment stands for one name. */
  lemma {:induction false} PlainPattern(segs: seq<string>, p: Path)
    requires "**" !in segs
    ensures PathMatch(segs, p) <==>
            segs != [] && |p| == |segs| && forall i | 0 <= i < |p| :: GlobMatch(segs[i], p[i])
  {
    if segs != [] && p != [] {
      if |segs| >= 2 && |p| >= 2 {
        assert forall i | 0 <= i < |p| - 1 :: p[1..][i] == p[i + 1];
        assert |p| == |segs| ==> forall i | 0 <= i < |p| - 1 :: segs[1..][i] == segs[i + 1];
        PlainPattern(segs[1..], p[1..]);
        if |p| == |segs| && GlobMatch(segs[0], p[0]) && PathMatch(segs[1..], p[1..]) {
          forall i | 0 <= i < |p| ensures GlobMatch(segs[i], p[i]) {
            assert i > 0 ==> GlobMatch(segs[1..][i - 1], p[1..][i - 1]);
          }
        }
      }
    }
  }

  /** So on names without a star, a pattern without `**` stands for the paths whose names
      its segments match, one by one, each leading dot being asked for. */
  lemma {:induction false} PlainMeaning(segs: seq<string>, p: Path)
    requires "**" !in segs && StarFree(p)
    ensures PathMatch(segs, p) <==>
            segs != [] && |p| == |segs| && forall i | 0 <= i < |p| :: MatchesDots(segs[i], p[i])
  {
    PlainPattern(segs, p);
    forall i | 0 <= i < |p| == |segs| ensures GlobMatch(segs[i], p[i]) <==> MatchesDots(segs[i], p[i]) {
      assert p[i] in p;
      GlobMatchMeaning(segs[i], p[i]);
    }
  }

  /** A pattern none of whose segments asks for a dot stands for no dotted name. */
  lemma {:induction false} NoDotNoDotfile(segs: seq<string>, p: Path)
    requires PathMatch(segs, p) && forall seg | seg in segs :: !Dotted(seg)
    ensures forall n | n in p :: !Dotted(n)
    decreases |segs| + |p|
  {
    assert p == [p[0]] + p[1..];
    if segs[0] == "**" && PathMatch(segs[1..], p) {
      NoDotNoDotfile(segs[1..], p);
    } else if segs[0] == "**" {
      NoDotNoDotfile(segs, p[1..]);
    } else {
      GlobMatchMeaning(segs[0], p[0]);
      if |segs| > 1 { NoDotNoDotfile(segs[1..], p[1..]); }
    }
  }

  /** `iglob` from the root: exactly the files whose path the pattern stands for.  No
      dotfile is found unless asked for; and without `**` the files with names free of
      stars are those that the segments match one by one. */
  method IglobRoot(root: Entries, segs: seq<string>) returns (results: seq<Path>)
    ensures forall p :: p in results <==> FileAt(Dir(root), p).Some? && PathMatch(segs, p)
    ensures (forall seg | seg in segs :: !Dotted(seg)) ==> forall p, n | p in results && n in p :: !Dotted(n)
    ensures "**" !in segs && segs != [] ==>
              forall p: Path | StarFree(p) :: p in results <==>
                FileAt(Dir(root), p).Some? && |p| == |segs| && forall i | 0 <= i < |p| :: MatchesDots(segs[i], p[i])
  {
    results := IglobRecursive(root, segs, [], []);
    assert forall p: Path :: p[0..] == p;
    if forall seg | seg in segs :: !Dotted(seg) {
      forall p | p in results ensures forall n | n in p :: !Dotted(n) { NoDotNoDotfile(segs, p); }
    }
    if "**" !in segs {
      forall p: Path | StarFree(p) { PlainMeaning(segs, p); }
    }
  }

  /** `**` is zero or more leading directories, none with a leading dot. */
  lemma {:induction false} DoubleStarMeaning(rest: seq<string>, p: Path)
    ensures PathMatch(["**"] + rest, p) <==>
            exists k :: 0 <= k < |p| && (forall i | 0 <= i < k :: !Dotted(p[i])) && PathMatch(rest, p[k..])
  {
    assert (["**"] + rest)[1..] == rest;
    if p != [] {
      assert p[0..] == p;
      DoubleStarMeaning(rest, p[1..]);
      if j :| 0 <= j < |p[1..]| && (forall i | 0 <= i < j :: !Dotted(p[1..][i])) && PathMatch(rest, p[1..][j..]) {
        assert p[1..][j..] == p[j + 1..];
        if !Dotted(p[0]) {
          forall i | 0 <= i < j + 1 ensures !Dotted(p[i]) {
            assert i > 0 ==> p[i] == p[1..][i - 1];
          }
        }
      }
      if k :| 0 < k < |p| && (forall i | 0 <= i < k :: !Dotted(p[i])) && PathMatch(rest, p[k..]) {
        assert p[1..][k - 1..] == p[k..];
        assert forall i | 0 <= i < k - 1 :: p[1..][i] == p[i + 1];
      }
    }
  }
}
