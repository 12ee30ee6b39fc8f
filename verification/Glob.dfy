/**
 Wildcard matching of one name: the Rust loop, which goes back only to the last
 star it recorded, and the C++ recursion, against one declarative matcher.
 */
module Glob {
  /** `*` stands for any characters, `?` for one character, the rest for itself. */
  predicate Match(p: string, n: string)
    decreases |p| + |n|
  {
    if p == [] then n == []
    else if p[0] == '*' then Match(p[1..], n) || (n != [] && Match(p, n[1..]))
    else n != [] && (p[0] == '?' || p[0] == n[0]) && Match(p[1..], n[1..])
  }

  predicate AllStars(p: string)
  {
    forall i | 0 <= i < |p| :: p[i] == '*'
  }

  // ---------------------------------------------------------------------
  // The Rust loop
  // ---------------------------------------------------------------------

  /** Where the last recorded star is in the pattern, and where in the name the
      current attempt behind it began. */
  datatype Star = NoStar | Star(pi: nat, ni: nat)

  ghost predicate LoopState(pat: string, name: string, pi: nat, ni: nat, star: Star)
  {
    && pi <= |pat| && ni <= |name|
    && (star.Star? ==> star.pi < pi && star.ni <= ni && pat[star.pi] == '*')
  }

  function Attempts(name: string, star: Star): int
  {
    match star
    case NoStar => |name| + 1
    case Star(_, sn) => |name| - sn
  }

  /** The answer of the loop from a given state. */
  predicate Loop(pat: string, name: string, pi: nat, ni: nat, star: Star)
    requires LoopState(pat, name, pi, ni, star)
    decreases Attempts(name, star), |name| - ni, |pat| - pi
  {
    if ni == |name| then AllStars(pat[pi..])
    else if pi < |pat| && (pat[pi] == '?' || pat[pi] == name[ni]) then Loop(pat, name, pi + 1, ni + 1, star)
    else if pi < |pat| && pat[pi] == '*' then Loop(pat, name, pi + 1, ni, Star(pi, ni))
    else if star.Star? then Loop(pat, name, star.pi + 1, star.ni + 1, Star(star.pi, star.ni + 1))
    else false
  }

  predicate RustFnmatch(pat: string, name: string)
  {
    Loop(pat, name, 0, 0, NoStar)
  }

  method Fnmatch(pat: string, name: string) returns (r: bool)
    ensures r == RustFnmatch(pat, name)
    ensures r ==> Match(pat, name)
    ensures '*' !in name ==> (r <==> Match(pat, name))
  {
    LoopIsSound(pat, name, 0, 0, NoStar);
    assert pat[0..] == pat && name[0..] == name;
    if '*' !in name {
      LoopIsComplete(pat, name, 0, 0, NoStar);
    }
    var pi, ni := 0, 0;
    var starPi, starNi := -1, 0;
    while ni < |name|
      invariant 0 <= pi && 0 <= ni && -1 <= starPi && 0 <= starNi
      invariant LoopState(pat, name, pi, ni, if starPi == -1 then NoStar else Star(starPi, starNi))
      invariant RustFnmatch(pat, name) == Loop(pat, name, pi, ni, if starPi == -1 then NoStar else Star(starPi, starNi))
      decreases if starPi == -1 then |name| + 1 else |name| - starNi, |name| - ni, |pat| - pi
    {
      if pi < |pat| && (pat[pi] == '?' || pat[pi] == name[ni]) {
        pi, ni := pi + 1, ni + 1;
      } else if pi < |pat| && pat[pi] == '*' {
        starPi, starNi := pi, ni;
        pi := pi + 1;
      } else if starPi != -1 {
        pi := starPi + 1;
        starNi := starNi + 1;
        ni := starNi;
      } else {
        return false;
      }
    }
    ghost var rest := pi;
    while pi < |pat| && pat[pi] == '*'
      invariant rest <= pi <= |pat|
      invariant AllStars(pat[rest..pi])
    {
      assert pat[rest..pi + 1] == pat[rest..pi] + [pat[pi]];
      pi := pi + 1;
    }
    assert pi == |pat| ==> pat[rest..] == pat[rest..pi];
    assert pi < |pat| ==> pat[rest..][pi - rest] != '*';
    return pi == |pat|;
  }

  // ---------------------------------------------------------------------
  // Soundness
  // ---------------------------------------------------------------------

  lemma {:induction false} StarsMatchNothing(p: string)
    ensures AllStars(p) <==> Match(p, "")
  {
    if p != [] {
      StarsMatchNothing(p[1..]);
      assert AllStars(p) ==> AllStars(p[1..]) by {
        if AllStars(p) {
          forall i | 0 <= i < |p[1..]| ensures p[1..][i] == '*' { assert p[1..][i] == p[i + 1]; }
        }
      }
      if p[0] == '*' && AllStars(p[1..]) {
        forall i | 0 <= i < |p| ensures p[i] == '*' { assert i > 0 ==> p[i] == p[1..][i - 1]; }
      }
    }
  }

  lemma {:induction false} MatchStep(pat: string, name: string, pi: nat, ni: nat)
    requires pi < |pat| && ni < |name|
    ensures pat[pi] == '*' ==> (Match(pat[pi..], name[ni..]) <==>
              Match(pat[pi + 1..], name[ni..]) || Match(pat[pi..], name[ni + 1..]))
    ensures pat[pi] != '*' ==> (Match(pat[pi..], name[ni..]) <==>
              (pat[pi] == '?' || pat[pi] == name[ni]) && Match(pat[pi + 1..], name[ni + 1..]))
    ensures pat[pi] == '*' && Match(pat[pi + 1..], name[ni + 1..]) ==> Match(pat[pi..], name[ni..])
  {
    assert pat[pi..][1..] == pat[pi + 1..] && name[ni..][1..] == name[ni + 1..];
  }

  /** A loop that answers yes has found a match, here or behind the recorded star. */
  lemma {:induction false} LoopIsSound(pat: string, name: string, pi: nat, ni: nat, star: Star)
    requires LoopState(pat, name, pi, ni, star)
    ensures Loop(pat, name, pi, ni, star) ==>
              Match(pat[pi..], name[ni..]) || (star.Star? && Match(pat[star.pi..], name[star.ni..]))
    decreases Attempts(name, star), |name| - ni, |pat| - pi
  {
    if ni == |name| {
      assert name[ni..] == "";
      StarsMatchNothing(pat[pi..]);
    } else if pi < |pat| && (pat[pi] == '?' || pat[pi] == name[ni]) {
      LoopIsSound(pat, name, pi + 1, ni + 1, star);
      MatchStep(pat, name, pi, ni);
    } else if pi < |pat| && pat[pi] == '*' {
      LoopIsSound(pat, name, pi + 1, ni, Star(pi, ni));
      MatchStep(pat, name, pi, ni);
    } else if star.Star? {
      LoopIsSound(pat, name, star.pi + 1, star.ni + 1, Star(star.pi, star.ni + 1));
      MatchStep(pat, name, star.pi, star.ni);
    }
  }

  // ---------------------------------------------------------------------
  // Completeness on names without a star
  // ---------------------------------------------------------------------

  /** Behind a star some suffix of the name matches. */
  lemma {:induction false} StarUnroll(p: string, n: string) returns (k: nat)
    requires p != [] && p[0] == '*' && Match(p, n)
    ensures k <= |n| && Match(p[1..], n[k..])
    decreases |n|
  {
    if Match(p[1..], n) {
      k := 0;
      assert n[0..] == n;
    } else {
      var j := StarUnroll(p, n[1..]);
      k := j + 1;
      assert n[1..][j..] == n[k..];
    }
  }

  lemma {:induction false} StarAbsorbs(p: string, n: string, k: nat)
    requires p != [] && p[0] == '*' && k <= |n| && Match(p, n[k..])
    ensures Match(p, n)
  {
    if k == 0 {
      assert n[0..] == n;
    } else {
      assert n[k - 1..][1..] == n[k..];
      StarAbsorbs(p, n, k - 1);
    }
  }

  /** A star-free stretch of pattern consumes exactly its own length. */
  lemma {:induction false} StretchConsumes(p: string, n: string, len: nat)
    requires len <= |p| && '*' !in p[..len] && Match(p, n)
    ensures len <= |n| && Match(p[len..], n[len..])
    decreases len
  {
    if len == 0 {
      assert p[0..] == p && n[0..] == n;
    } else {
      assert p[0] == p[..len][0];
      assert p[..len][1..] == p[1..][..len - 1];
      StretchConsumes(p[1..], n[1..], len - 1);
      assert p[1..][len - 1..] == p[len..] && n[1..][len - 1..] == n[len..];
    }
  }

  /** Since the star was recorded, pattern and name have advanced together. */
  ghost predicate InStep(pat: string, name: string, pi: nat, ni: nat, star: Star)
  {
    && LoopState(pat, name, pi, ni, star)
    && (star.Star? ==> ni - star.ni == pi - star.pi - 1 && '*' !in pat[star.pi + 1..pi])
  }

  /** A later attempt behind the recorded star would succeed. */
  ghost predicate LaterAttempt(pat: string, name: string, star: Star)
  {
    star.Star? && star.pi < |pat| && star.ni < |name| && Match(pat[star.pi..], name[star.ni + 1..])
  }

  /** Where a later attempt meets the current pattern position again. */
  lemma {:induction false} LaterAttemptReaches(pat: string, name: string, pi: nat, ni: nat, star: Star) returns (j: nat)
    requires InStep(pat, name, pi, ni, star) && LaterAttempt(pat, name, star)
    ensures ni < j <= |name| && Match(pat[pi..], name[j..])
  {
    var p, n := pat[star.pi..], name[star.ni + 1..];
    var k := StarUnroll(p, n);
    var len := pi - star.pi - 1;
    assert p[1..] == pat[star.pi + 1..] && p[1..][..len] == pat[star.pi + 1..pi];
    StretchConsumes(p[1..], n[k..], len);
    j := star.ni + 1 + k + len;
    assert p[1..][len..] == pat[pi..] && n[k..][len..] == name[j..];
  }

  lemma {:induction false} LoopIsComplete(pat: string, name: string, pi: nat, ni: nat, star: Star)
    requires '*' !in name && InStep(pat, name, pi, ni, star)
    ensures Match(pat[pi..], name[ni..]) || LaterAttempt(pat, name, star) ==> Loop(pat, name, pi, ni, star)
    decreases Attempts(name, star), |name| - ni, |pat| - pi
  {
    if LaterAttempt(pat, name, star) {
      var j := LaterAttemptReaches(pat, name, pi, ni, star);
      if ni < |name| && pi < |pat| && pat[pi] == '*' {
        assert name[ni..][j - ni..] == name[j..];
        StarAbsorbs(pat[pi..], name[ni..], j - ni);
      }
    }
    if ni == |name| {
      assert name[ni..] == "";
      StarsMatchNothing(pat[pi..]);
    } else if pi < |pat| && (pat[pi] == '?' || pat[pi] == name[ni]) {
      MatchStep(pat, name, pi, ni);
      if star.Star? {
        var seg := pat[star.pi + 1..pi];
        assert pat[star.pi + 1..pi + 1] == seg + [pat[pi]];
      }
      LoopIsComplete(pat, name, pi + 1, ni + 1, star);
    } else if pi < |pat| && pat[pi] == '*' {
      MatchStep(pat, name, pi, ni);
      LoopIsComplete(pat, name, pi + 1, ni, Star(pi, ni));
    } else {
      if pi < |pat| { MatchStep(pat, name, pi, ni); }
      if star.Star? {
        LoopIsComplete(pat, name, star.pi + 1, star.ni + 1, Star(star.pi, star.ni + 1));
        if LaterAttempt(pat, name, star) { NextAttempt(pat, name, star); }
      }
    }
  }

  lemma {:induction false} NextAttempt(pat: string, name: string, star: Star)
    requires LaterAttempt(pat, name, star) && pat[star.pi] == '*'
    ensures Match(pat[star.pi + 1..], name[star.ni + 1..]) || LaterAttempt(pat, name, Star(star.pi, star.ni + 1))
  {
    assert pat[star.pi..][1..] == pat[star.pi + 1..];
    if star.ni + 1 < |name| {
      MatchStep(pat, name, star.pi, star.ni + 1);
    }
  }

  // ---------------------------------------------------------------------
  // Exactness, name by name
  // ---------------------------------------------------------------------

  function Questions(k: nat): string
  {
    if k == 0 then "" else ['?'] + Questions(k - 1)
  }

  lemma {:induction false} QuestionsMatch(k: nat, n: string)
    requires |n| == k
    ensures Match(Questions(k), n)
  {
    if k > 0 {
      assert (['?'] + Questions(k - 1))[1..] == Questions(k - 1);
      QuestionsMatch(k - 1, n[1..]);
    }
  }

  lemma {:induction false} QuestionsOnly(k: nat)
    ensures |Questions(k)| == k && forall i | 0 <= i < k :: Questions(k)[i] == '?'
  {
    if k > 0 { QuestionsOnly(k - 1); }
  }

  lemma {:induction false} SelfMatch(u: string, p: string, n: string)
    requires '*' !in u && Match(p, n)
    ensures Match(u + p, u + n)
  {
    if u == [] {
      assert u + p == p && u + n == n;
    } else {
      SelfMatch(u[1..], p, n);
      assert (u + p)[1..] == u[1..] + p && (u + n)[1..] == u[1..] + n;
    }
  }

  /** Without a recorded star the loop runs through a pattern that equals the name
      up to `?`, and says no when a character of the pattern is left over. */
  lemma {:induction false} LockStep(pat: string, name: string, i: nat)
    requires i <= |name| < |pat| && pat[|name|] != '*'
    requires forall j | i <= j < |name| :: pat[j] == '?' || pat[j] == name[j]
    ensures !Loop(pat, name, i, i, NoStar)
    decreases |name| - i
  {
    if i < |name| {
      LockStep(pat, name, i + 1);
    } else {
      assert pat[i..][0] != '*';
    }
  }

  /** For every name with a star in it some pattern matches and the loop says no:
      it takes the star in the pattern for the star in the name. */
  lemma {:induction false} StarInNameMissed(name: string) returns (pat: string)
    requires '*' in name
    ensures Match(pat, name) && !RustFnmatch(pat, name)
  {
    var i := FirstStar(name);
    var u, v := name[..i], name[i..];
    var q := Questions(|v|);
    pat := u + (['*'] + q);
    QuestionsMatch(|v|, v);
    QuestionsOnly(|v|);
    assert (['*'] + q)[1..] == q;
    SelfMatch(u, ['*'] + q, v);
    assert name == u + v;
    assert pat[|name|] == q[|v| - 1];
    LockStep(pat, name, 0);
  }

  lemma {:induction false} FirstStar(name: string) returns (i: nat)
    requires '*' in name
    ensures i < |name| && name[i] == '*' && '*' !in name[..i]
  {
    if name[0] == '*' {
      i := 0;
    } else {
      var j := FirstStar(name[1..]);
      i := j + 1;
      assert name[..i] == [name[0]] + name[1..][..j];
    }
  }

  /** The loop decides every pattern right on exactly the names without a star. */
  lemma {:induction false} LoopExactNames(name: string)
    ensures '*' !in name <==> forall pat: string :: RustFnmatch(pat, name) <==> Match(pat, name)
  {
    if '*' !in name {
      forall pat: string ensures RustFnmatch(pat, name) <==> Match(pat, name) {
        LoopIsSound(pat, name, 0, 0, NoStar);
        LoopIsComplete(pat, name, 0, 0, NoStar);
        assert pat[0..] == pat && name[0..] == name;
      }
    } else {
      var pat := StarInNameMissed(name);
    }
  }

  // ---------------------------------------------------------------------
  // The C++ recursion
  // ---------------------------------------------------------------------

  /** A run of stars matches what one star matches. */
  lemma {:induction false} StarRun(p: string, first: nat, pi: nat, n: string)
    requires first < pi <= |p| && AllStars(p[first..pi])
    ensures Match(p[first..], n) <==> exists k :: 0 <= k <= |n| && Match(p[pi..], n[k..])
    decreases pi - first
  {
    assert p[first] == p[first..pi][0] == '*';
    assert p[first..][1..] == p[first + 1..];
    if Match(p[first..], n) {
      var k := StarUnroll(p[first..], n);
      if first + 1 < pi {
        assert p[first..pi][1..] == p[first + 1..pi];
        StarRun(p, first + 1, pi, n[k..]);
        var j :| 0 <= j <= |n[k..]| && Match(p[pi..], n[k..][j..]);
        assert n[k..][j..] == n[k + j..];
      }
    }
    if k :| 0 <= k <= |n| && Match(p[pi..], n[k..]) {
      if first + 1 < pi {
        assert p[first..pi][1..] == p[first + 1..pi];
        StarRun(p, first + 1, pi, n);
        assert Match(p[first + 1..], n);
      } else {
        StarAbsorbs(p[first..], n, k);
      }
    }
  }

  /** The position behind a bracketed class, and whether the class accepts `ch`. */
  method ScanClass(pattern: string, start: nat, ch: char) returns (pi: nat, accepted: bool)
    requires start < |pattern|
    ensures start < pi <= |pattern|
  {
    pi := start + 1;
    var negate := pi < |pattern| && pattern[pi] == '!';
    if negate { pi := pi + 1; }
    var matched := false;
    while pi < |pattern| && pattern[pi] != ']'
      invariant start < pi <= |pattern|
    {
      if pi + 2 < |pattern| && pattern[pi + 1] == '-' {
        if pattern[pi] <= ch <= pattern[pi + 2] { matched := true; }
        pi := pi + 3;
      } else {
        if ch == pattern[pi] { matched := true; }
        pi := pi + 1;
      }
    }
    if pi < |pattern| { pi := pi + 1; }
    accepted := matched != negate;
  }

  method SkipStars(pattern: string, first: nat) returns (pi: nat)
    requires first <= |pattern|
    ensures first <= pi <= |pattern| && AllStars(pattern[first..pi])
    ensures pi < |pattern| ==> pattern[pi] != '*'
  {
    pi := first;
    while pi < |pattern| && pattern[pi] == '*'
      invariant first <= pi <= |pattern| && AllStars(pattern[first..pi])
    {
      assert pattern[first..pi + 1] == pattern[first..pi] + [pattern[pi]];
      pi := pi + 1;
    }
  }

  /** Tries the rest of the pattern behind a run of stars at every later position.
      A pattern without a bracket is decided exactly as `Match` decides it, and so
      as the Rust loop decides it on names without a star. */
  method CppFnmatch(pattern: string, name: string) returns (r: bool)
    ensures '[' !in pattern ==> (r <==> Match(pattern, name))
    ensures '[' !in pattern && '*' !in name ==> (r <==> RustFnmatch(pattern, name))
    decreases |pattern|, 1
  {
    LoopExactNames(name);
    var pi, ni := 0, 0;
    assert pattern[0..] == pattern && name[0..] == name;
    while pi < |pattern| && ni < |name|
      invariant 0 <= pi <= |pattern| && 0 <= ni <= |name|
      invariant '[' !in pattern ==> (Match(pattern, name) <==> Match(pattern[pi..], name[ni..]))
      decreases |pattern| - pi
    {
      var pc := pattern[pi];
      MatchStep(pattern, name, pi, ni);
      if pc == '*' {
        r := MatchBehindStars(pattern, pi, name, ni);
        return;
      } else if pc == '?' {
        pi, ni := pi + 1, ni + 1;
      } else if pc == '[' {
        var rest, accepted := ScanClass(pattern, pi, name[ni]);
        if !accepted { return false; }
        pi, ni := rest, ni + 1;
      } else {
        if pc != name[ni] { return false; }
        pi, ni := pi + 1, ni + 1;
      }
    }
    var rest := SkipStars(pattern, pi);
    StarsMatchNothing(pattern[pi..]);
    assert rest == |pattern| ==> pattern[pi..] == pattern[pi..rest];
    assert rest < |pattern| ==> pattern[pi..][rest - pi] != '*';
    r := rest == |pattern| && ni == |name|;
  }

  method MatchBehindStars(pattern: string, first: nat, name: string, ni: nat) returns (r: bool)
    requires first < |pattern| && pattern[first] == '*' && ni <= |name|
    ensures '[' !in pattern ==> (r <==> Match(pattern[first..], name[ni..]))
    decreases |pattern|, 0
  {
    var pi := SkipStars(pattern, first);
    StarRun(pattern, first, pi, name[ni..]);
    if pi == |pattern| {
      assert name[ni..][|name| - ni..] == "" == pattern[pi..];
      return true;
    }
    ghost var tail := name[ni..];
    for k := ni to |name| + 1
      invariant '[' !in pattern ==> forall j | 0 <= j < k - ni :: !Match(pattern[pi..], tail[j..])
    {
      assert tail[k - ni..] == name[k..];
      r := CppFnmatch(pattern[pi..], name[k..]);
      if r { return; }
    }
    return false;
  }

  // ---------------------------------------------------------------------
  // The dotfile guard
  // ---------------------------------------------------------------------

  predicate Dotted(s: string)
  {
    s != [] && s[0] == '.'
  }

  /** Rust: a leading dot must be matched by a leading dot. */
  predicate GlobMatch(pattern: string, name: string)
  {
    !(Dotted(name) && !Dotted(pattern)) && RustFnmatch(pattern, name)
  }

  /** On a name without a star: the pattern matches, and a leading dot is asked for. */
  predicate MatchesDots(pattern: string, name: string)
  {
    Match(pattern, name) && (Dotted(name) ==> Dotted(pattern))
  }

  predicate StarFree(names: seq<string>)
  {
    forall n | n in names :: '*' !in n
  }

  lemma {:induction false} GlobMatchMeaning(pattern: string, name: string)
    ensures GlobMatch(pattern, name) ==> MatchesDots(pattern, name)
    ensures '*' !in name ==> (GlobMatch(pattern, name) <==> MatchesDots(pattern, name))
  {
    LoopIsSound(pattern, name, 0, 0, NoStar);
    assert pattern[0..] == pattern && name[0..] == name;
    LoopExactNames(name);
  }
}
