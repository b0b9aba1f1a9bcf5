/** SQL `LIKE`: the greedy matcher with one saved backtrack point against the
    recursive meaning of a pattern. */
module Like {
  import opened Bytes

  const ANY_RUN: char := '%'
  const ANY_ONE: char := '_'

  predicate MatchesOne(p: char, c: char) {
    p == ANY_ONE || (p != ANY_RUN && p == c)
  }

  /** What a pattern means: `%` any run, `_` one character, anything else itself. */
  ghost predicate Matches(t: string, p: string)
    decreases |p|, 0
  {
    if p == "" then t == ""
    else if p[0] == ANY_RUN then MatchesSomeSuffix(t, 0, p[1..])
    else t != "" && MatchesOne(p[0], t[0]) && Matches(t[1..], p[1..])
  }

  /** Some suffix of `t` starting at `from` or later matches `p`. */
  ghost predicate MatchesSomeSuffix(t: string, from: nat, p: string)
    decreases |p|, 1
  {
    exists k :: from <= k <= |t| && Matches(t[k..], p)
  }

  // ----- what the relation says, by parts of the pattern -----

  /** A pattern in two parts matches a text in two parts. */
  lemma {:induction false} MatchesConcat(t: string, p: string, q: string)
    ensures Matches(t, p + q) <==> exists k: nat :: Splits(t, p, q, k)
    decreases |p|
  {
    if p == "" {
      assert p + q == q && t[0..] == t && t[..0] == "";
      assert Matches(t, q) ==> Splits(t, p, q, 0);
    } else {
      assert (p + q)[1..] == p[1..] + q;
      if p[0] == ANY_RUN {
        RunConcat(t, p, q);
      } else if t == "" {
        forall k: nat | Splits(t, p, q, k) ensures false {
        }
      } else {
        MatchesConcat(t[1..], p[1..], q);
        OneConcat(t, p, q);
      }
    }
  }

  ghost predicate Splits(t: string, p: string, q: string, k: nat) {
    k <= |t| && Matches(t[..k], p) && Matches(t[k..], q)
  }

  lemma OneConcat(t: string, p: string, q: string)
    requires t != "" && p != "" && p[0] != ANY_RUN
    ensures (exists k: nat :: Splits(t, p, q, k)) <==> MatchesOne(p[0], t[0]) && exists k: nat :: Splits(t[1..], p[1..], q, k)
  {
    if k: nat :| Splits(t, p, q, k) {
      assert k > 0;
      assert t[..k][1..] == t[1..][..k - 1] && t[1..][k - 1..] == t[k..];
      assert Splits(t[1..], p[1..], q, k - 1);
    }
    if k: nat :| MatchesOne(p[0], t[0]) && Splits(t[1..], p[1..], q, k) {
      assert t[..k + 1][1..] == t[1..][..k] && t[1..][k..] == t[k + 1..];
      assert Splits(t, p, q, k + 1);
    }
  }

  lemma {:induction false} RunConcat(t: string, p: string, q: string)
    requires p != "" && p[0] == ANY_RUN
    ensures MatchesSomeSuffix(t, 0, p[1..] + q) <==> exists k: nat :: Splits(t, p, q, k)
    decreases |p|, 0
  {
    if j :| 0 <= j <= |t| && Matches(t[j..], p[1..] + q) {
      MatchesConcat(t[j..], p[1..], q);
      var k: nat :| Splits(t[j..], p[1..], q, k);
      assert t[..j + k][j..] == t[j..][..k] && t[j + k..] == t[j..][k..];
      assert Splits(t, p, q, j + k);
    }
    if k: nat :| Splits(t, p, q, k) {
      assert MatchesSomeSuffix(t[..k], 0, p[1..]);
      var j :| 0 <= j <= |t[..k]| && Matches(t[..k][j..], p[1..]);
      assert t[..k][j..] == t[j..][..k - j] && t[k..] == t[j..][k - j..];
      assert Splits(t[j..], p[1..], q, k - j);
      MatchesConcat(t[j..], p[1..], q);
    }
  }

  /** `%` matches every text and `_` every single character. */
  lemma Wildcards(t: string)
    ensures Matches(t, "%") && (Matches(t, "_") <==> |t| == 1)
  {
    assert "%"[1..] == "" && "_"[1..] == "";
    assert t[|t|..] == "" && Matches(t[|t|..], "");
    assert t != "" ==> (t[1..] == "" <==> |t| == 1);
  }

  /** A pattern without wildcards matches itself only. */
  lemma {:induction false} LiteralPattern(t: string, p: string)
    requires '%' !in p && '_' !in p
    ensures Matches(t, p) <==> t == p
  {
    if p != "" && t != "" {
      LiteralPattern(t[1..], p[1..]);
      assert t == [t[0]] + t[1..] && p == [p[0]] + p[1..];
    }
  }

  predicate AllAnyRun(p: string) {
    forall i :: 0 <= i < |p| ==> p[i] == ANY_RUN
  }

  lemma {:induction false} EmptyTextMatches(p: string)
    ensures Matches("", p) <==> AllAnyRun(p)
  {
    if p != "" {
      EmptyTextMatches(p[1..]);
      assert ""[0..] == "";
      assert p == [p[0]] + p[1..];
      assert AllAnyRun(p) <==> p[0] == ANY_RUN && AllAnyRun(p[1..]);
      if p[0] == ANY_RUN {
        assert MatchesSomeSuffix("", 0, p[1..]) <==> Matches(""[0..], p[1..]);
      }
    }
  }

  /** Re-basing a suffix search on a suffix. */
  lemma SuffixOfSuffix(t: string, from: nat, p: string)
    requires from <= |t|
    ensures MatchesSomeSuffix(t[from..], 0, p) <==> MatchesSomeSuffix(t, from, p)
  {
    if MatchesSomeSuffix(t[from..], 0, p) {
      var k :| 0 <= k <= |t[from..]| && Matches(t[from..][k..], p);
      assert t[from..][k..] == t[from + k..];
    }
    if MatchesSomeSuffix(t, from, p) {
      var k :| from <= k <= |t| && Matches(t[k..], p);
      assert t[from..][k - from..] == t[k..];
    }
  }

  /** `segment` holds no `%` and matches the first characters of `t` one by one. */
  predicate Consumes(t: string, segment: string) {
    |segment| <= |t| && forall i :: 0 <= i < |segment| ==> MatchesOne(segment[i], t[i])
  }

  /** A segment without `%` takes exactly its own length off the text. */
  lemma {:induction false} SegmentStep(t: string, segment: string, rest: string)
    requires ANY_RUN !in segment
    ensures Matches(t, segment + rest) <==> Consumes(t, segment) && Matches(t[|segment|..], rest)
  {
    if segment == "" {
      assert segment + rest == rest && t[0..] == t;
    } else {
      var p := segment + rest;
      assert p[1..] == segment[1..] + rest;
      if t != "" {
        SegmentStep(t[1..], segment[1..], rest);
        assert |segment| <= |t| ==> t[1..][|segment[1..]|..] == t[|segment|..];
        assert segment == [segment[0]] + segment[1..] && t == [t[0]] + t[1..];
        assert Consumes(t, segment) <==> MatchesOne(segment[0], t[0]) && Consumes(t[1..], segment[1..]);
      }
    }
  }

  /** Why one backtrack point is enough. The text from `st` on has matched the segment
      between two `%`; any later start for the first `%` would leave the second one
      less text, so it can be forgotten. */
  lemma LaterStartIsUseless(t: string, st: nat, segment: string, rest: string)
    requires ANY_RUN !in segment
    requires st + |segment| <= |t|
    requires MatchesSomeSuffix(t, st, segment + [ANY_RUN] + rest)
    ensures Matches(t[st + |segment|..], [ANY_RUN] + rest)
  {
    var k :| st <= k <= |t| && Matches(t[k..], segment + [ANY_RUN] + rest);
    assert segment + [ANY_RUN] + rest == segment + ([ANY_RUN] + rest);
    SegmentStep(t[k..], segment, [ANY_RUN] + rest);
    var n := |segment|;
    assert t[k..][n..] == t[k + n..];
    assert ([ANY_RUN] + rest)[1..] == rest;
    SuffixOfSuffix(t, k + n, rest);
    SuffixOfSuffix(t, st + n, rest);
    var j :| k + n <= j <= |t| && Matches(t[j..], rest);
    assert MatchesSomeSuffix(t, st + n, rest);
  }

  /** The attempt in progress would succeed. */
  ghost predicate Attempt(t: string, p: string, ti: nat, pi: nat) {
    ti <= |t| && pi <= |p| && Matches(t[ti..], p[pi..])
  }

  /** The last `%` seen would succeed with a later start. */
  ghost predicate Later(t: string, p: string, star: Option<(nat, nat)>) {
    star.Some? && star.value.0 < |p| && MatchesSomeSuffix(t, star.value.1 + 1, p[star.value.0 + 1..])
  }

  /** What the loop knows: the whole question equals these two. */
  ghost predicate Reduced(t: string, p: string, ti: nat, pi: nat, star: Option<(nat, nat)>) {
    Matches(t, p) <==> Attempt(t, p, ti, pi) || Later(t, p, star)
  }

  /** The saved point is the last `%` before `pi`, and what follows it has matched so far. */
  predicate SavedPoint(t: string, p: string, ti: nat, pi: nat, star: Option<(nat, nat)>) {
    && ti <= |t| && pi <= |p|
    && (star.None? ==> ti == pi)
    && (star.Some? ==>
          var (sp, st) := star.value;
          && sp < pi && st <= ti && ti - st == pi - sp - 1
          && p[sp] == ANY_RUN && ANY_RUN !in p[sp + 1..pi])
  }

  /** The (text, pattern) positions still ahead of the loop. */
  predicate Ahead(ti: nat, pi: nat, star: Option<(nat, nat)>, a: int, b: int) {
    match star
    case None => a >= ti || b >= pi
    case Some((sp, st)) => b > sp && (a - b > ti - pi || (a - b == ti - pi && a >= ti))
  }

  lemma PairsBound(n: nat, m: nat) returns (all: set<(int, int)>)
    ensures forall x :: x in all <==> 0 <= x.0 < n && 0 <= x.1 < m
    ensures |all| == n * m
  {
    if n == 0 {
      all := {};
    } else {
      var rest := PairsBound(n - 1, m);
      var column := ColumnOf(n - 1, m);
      all := rest + column;
      assert rest !! column;
      assert n * m == (n - 1) * m + m;
    }
  }

  lemma ColumnOf(a: nat, m: nat) returns (column: set<(int, int)>)
    ensures forall x :: x in column <==> x.0 == a && 0 <= x.1 < m
    ensures |column| == m
  {
    if m == 0 {
      column := {};
    } else {
      var rest := ColumnOf(a, m - 1);
      column := rest + {(a, m - 1)};
      assert forall x: (int, int) :: x.0 == a && x.1 == m - 1 ==> x == (a, m - 1);
    }
  }

  lemma SubsetBound(s: set<(int, int)>, all: set<(int, int)>)
    requires s <= all
    ensures |s| <= |all|
  {
    assert all == s + (all - s);
  }

  /** Positions already visited: all behind the loop, inside the grid. */
  ghost predicate Trail(t: string, p: string, ti: nat, pi: nat, star: Option<(nat, nat)>, visited: set<(int, int)>) {
    forall v :: v in visited ==> OnTrail(t, p, ti, pi, star, v.0, v.1)
  }

  predicate OnTrail(t: string, p: string, ti: nat, pi: nat, star: Option<(nat, nat)>, a: int, b: int) {
    && 0 <= a < |t| && 0 <= b <= |p|
    && !Ahead(ti, pi, star, a, b)
    && (star.Some? && b > star.value.0 ==> ANY_RUN !in p[star.value.0 + 1..b])
  }

  /** Whichever way the loop steps, what it has visited stays behind it. */
  lemma TrailStep(t: string, p: string, ti: nat, pi: nat, star: Option<(nat, nat)>, visited: set<(int, int)>)
    requires Trail(t, p, ti, pi, star, visited) && SavedPoint(t, p, ti, pi, star) && ti < |t|
    ensures pi < |p| && p[pi] != ANY_RUN ==> Trail(t, p, ti + 1, pi + 1, star, visited + {(ti, pi)})
    ensures pi < |p| && p[pi] == ANY_RUN ==> Trail(t, p, ti, pi + 1, Some((pi, ti)), visited + {(ti, pi)})
    ensures star.Some? ==>
      Trail(t, p, star.value.1 + 1, star.value.0 + 1, Some((star.value.0, star.value.1 + 1)), visited + {(ti, pi)})
  {
    if star.Some? && pi < |p| && p[pi] == ANY_RUN {
      forall v | v in visited ensures v.1 <= pi {
        assert forall i :: star.value.0 < i < v.1 ==> p[i] == p[star.value.0 + 1..v.1][i - star.value.0 - 1];
      }
    }
  }

  lemma TrailBound(t: string, p: string, ti: nat, pi: nat, star: Option<(nat, nat)>, visited: set<(int, int)>)
    requires Trail(t, p, ti, pi, star, visited) && SavedPoint(t, p, ti, pi, star)
    ensures (ti, pi) !in visited && InGrid(t, p, visited)
  {
    assert Ahead(ti, pi, star, ti, pi);
  }

  /** Pairs of a text position and a pattern position, the pattern's end included. */
  ghost predicate InGrid(t: string, p: string, visited: set<(int, int)>) {
    forall v :: v in visited ==> 0 <= v.0 < |t| && 0 <= v.1 <= |p|
  }

  lemma GridBound(t: string, p: string, visited: set<(int, int)>)
    requires InGrid(t, p, visited)
    ensures |visited| <= |t| * (|p| + 1)
  {
    var all := PairsBound(|t|, |p| + 1);
    SubsetBound(visited, all);
  }

  ghost predicate Invariant(t: string, p: string, ti: nat, pi: nat, star: Option<(nat, nat)>, visited: set<(int, int)>) {
    SavedPoint(t, p, ti, pi, star) && Reduced(t, p, ti, pi, star) && Trail(t, p, ti, pi, star, visited)
  }

  lemma MatchTurn(t: string, p: string, ti: nat, pi: nat, star: Option<(nat, nat)>, visited: set<(int, int)>)
    requires Invariant(t, p, ti, pi, star, visited) && ti < |t|
    requires pi < |p| && MatchesOne(p[pi], t[ti]) && p[pi] != ANY_RUN
    ensures (ti, pi) !in visited && Invariant(t, p, ti + 1, pi + 1, star, visited + {(ti, pi)})
  {
    TrailBound(t, p, ti, pi, star, visited);
    TrailStep(t, p, ti, pi, star, visited);
    MatchStep(t, p, ti, pi, star);
  }

  lemma StarTurn(t: string, p: string, ti: nat, pi: nat, star: Option<(nat, nat)>, visited: set<(int, int)>)
    requires Invariant(t, p, ti, pi, star, visited) && ti < |t|
    requires pi < |p| && p[pi] == ANY_RUN
    ensures (ti, pi) !in visited && Invariant(t, p, ti, pi + 1, Some((pi, ti)), visited + {(ti, pi)})
  {
    TrailBound(t, p, ti, pi, star, visited);
    TrailStep(t, p, ti, pi, star, visited);
    StarStep(t, p, ti, pi, star);
  }

  lemma RetryTurn(t: string, p: string, ti: nat, pi: nat, sp: nat, st: nat, visited: set<(int, int)>)
    requires Invariant(t, p, ti, pi, Some((sp, st)), visited) && ti < |t|
    requires pi == |p| || (p[pi] != ANY_RUN && !MatchesOne(p[pi], t[ti]))
    ensures (ti, pi) !in visited && Invariant(t, p, st + 1, sp + 1, Some((sp, st + 1)), visited + {(ti, pi)})
  {
    TrailBound(t, p, ti, pi, Some((sp, st)), visited);
    TrailStep(t, p, ti, pi, Some((sp, st)), visited);
    RetryStep(t, p, ti, pi, sp, st);
  }

  /** One turn of the loop body. */
  method Turn(t: string, p: string, ti: nat, pi: nat, star: Option<(nat, nat)>, ghost visited: set<(int, int)>)
    returns (failed: bool, ti': nat, pi': nat, star': Option<(nat, nat)>)
    requires Invariant(t, p, ti, pi, star, visited) && ti < |t|
    ensures failed ==> !Matches(t, p) && (ti, pi) !in visited && InGrid(t, p, visited + {(ti, pi)})
    ensures !failed ==> (ti, pi) !in visited && Invariant(t, p, ti', pi', star', visited + {(ti, pi)})
    ensures !failed ==> Forward(ti, star, ti', star')
  {
    failed, ti', pi', star' := false, ti, pi, star;
    if pi < |p| && (p[pi] == ANY_ONE || (p[pi] != ANY_RUN && p[pi] == t[ti])) {
      MatchTurn(t, p, ti, pi, star, visited);
      ti', pi' := ti + 1, pi + 1;
    } else if pi < |p| && p[pi] == ANY_RUN {
      StarTurn(t, p, ti, pi, star, visited);
      star', pi' := Some((pi, ti)), pi + 1;
    } else if star.Some? {
      var (sp, st) := star.value;
      RetryTurn(t, p, ti, pi, sp, st, visited);
      pi', ti', star' := sp + 1, st + 1, Some((sp, st + 1));
    } else {
      FailStep(t, p, ti, pi, visited);
      failed := true;
    }
  }

  /** The saved `%` moves right, or its start in the text does, or the text position does. */
  predicate Forward(ti: nat, star: Option<(nat, nat)>, ti': nat, star': Option<(nat, nat)>) {
    match (star, star')
    case (None, Some(_)) => true
    case (None, None) => ti < ti'
    case (Some((sp, st)), Some((sp', st'))) => sp < sp' || (sp == sp' && (st < st' || (st == st' && ti < ti')))
    case (Some(_), None) => false
  }

  /** `like_matches` after folding: it decides exactly the meaning of the pattern, and its
      loop runs at most `|t| * (|p| + 1)` times since no pair of positions recurs. */
  method Decide(t: string, p: string) returns (matched: bool, iterations: nat)
    ensures matched <==> Matches(t, p)
    ensures iterations <= |t| * (|p| + 1)
  {
    ghost var visited;
    matched, iterations, visited := Search(t, p);
    GridBound(t, p, visited);
  }

  /** The loop; `visited` are the pairs of positions it has looked at, one per iteration. */
  method Search(t: string, p: string) returns (matched: bool, iterations: nat, ghost visited: set<(int, int)>)
    ensures matched <==> Matches(t, p)
    ensures iterations == |visited| && InGrid(t, p, visited)
  {
    var ti: nat, pi: nat := 0, 0;
    var star: Option<(nat, nat)> := None;
    iterations, visited := 0, {};
    Begins(t, p);
    while ti < |t|
      invariant Invariant(t, p, ti, pi, star, visited) && iterations == |visited|
      decreases if star.None? then |p| + 1 else |p| - star.value.0,
                if star.None? then 0 else |t| - star.value.1,
                |t| - ti
    {
      ghost var here := (ti, pi);
      var failed;
      failed, ti, pi, star := Turn(t, p, ti, pi, star, visited);
      iterations, visited := iterations + 1, visited + {here};
      if failed {
        matched := false;
        return;
      }
    }
    Ends(t, p, ti, pi, star, visited);
    matched := forall i :: pi <= i < |p| ==> p[i] == ANY_RUN;
  }

  lemma Begins(t: string, p: string)
    ensures Invariant(t, p, 0, 0, None, {})
  {
    assert t[0..] == t && p[0..] == p;
  }

  lemma Ends(t: string, p: string, ti: nat, pi: nat, star: Option<(nat, nat)>, visited: set<(int, int)>)
    requires Invariant(t, p, ti, pi, star, visited) && ti >= |t|
    ensures InGrid(t, p, visited)
    ensures Matches(t, p) <==> forall i :: pi <= i < |p| ==> p[i] == ANY_RUN
  {
    TrailBound(t, p, ti, pi, star, visited);
    Finish(t, p, ti, pi, star);
  }

  lemma FailStep(t: string, p: string, ti: nat, pi: nat, visited: set<(int, int)>)
    requires SavedPoint(t, p, ti, pi, None) && Reduced(t, p, ti, pi, None) && ti < |t|
    requires pi == |p| || (p[pi] != ANY_RUN && !MatchesOne(p[pi], t[ti]))
    requires Trail(t, p, ti, pi, None, visited)
    ensures !Matches(t, p) && (ti, pi) !in visited && InGrid(t, p, visited + {(ti, pi)})
  {
    assert !Matches(t[ti..], p[pi..]);
    TrailBound(t, p, ti, pi, None, visited);
  }

  lemma MatchStep(t: string, p: string, ti: nat, pi: nat, star: Option<(nat, nat)>)
    requires SavedPoint(t, p, ti, pi, star) && Reduced(t, p, ti, pi, star)
    requires ti < |t| && pi < |p| && MatchesOne(p[pi], t[ti]) && p[pi] != ANY_RUN
    ensures SavedPoint(t, p, ti + 1, pi + 1, star) && Reduced(t, p, ti + 1, pi + 1, star)
  {
    assert t[ti..][1..] == t[ti + 1..] && p[pi..][1..] == p[pi + 1..];
    OneMatches(t[ti..], p[pi..]);
    SavedStep(t, p, ti, pi, star);
  }

  /** A character that matches itself away. */
  lemma OneMatches(t: string, p: string)
    requires t != "" && p != "" && p[0] != ANY_RUN && MatchesOne(p[0], t[0])
    ensures Matches(t, p) <==> Matches(t[1..], p[1..])
  {
  }

  lemma SavedStep(t: string, p: string, ti: nat, pi: nat, star: Option<(nat, nat)>)
    requires SavedPoint(t, p, ti, pi, star) && ti < |t| && pi < |p| && p[pi] != ANY_RUN
    ensures SavedPoint(t, p, ti + 1, pi + 1, star)
  {
    if star.Some? {
      assert p[star.value.0 + 1..pi + 1] == p[star.value.0 + 1..pi] + [p[pi]];
    }
  }

  /** With the text used up, the answer is whether only `%` is left. */
  lemma {:induction false} Finish(t: string, p: string, ti: nat, pi: nat, star: Option<(nat, nat)>)
    requires SavedPoint(t, p, ti, pi, star) && Reduced(t, p, ti, pi, star) && ti == |t|
    ensures Matches(t, p) <==> forall i :: pi <= i < |p| ==> p[i] == ANY_RUN
  {
    assert t[ti..] == "";
    EmptyTextMatches(p[pi..]);
    if star.Some? {
      EndOfText(t, p, ti, pi, star.value.0, star.value.1);
    }
    if AllAnyRun(p[pi..]) {
      forall i | pi <= i < |p| ensures p[i] == ANY_RUN { assert p[i] == p[pi..][i - pi]; }
    }
  }

  /** Meeting a new `%`: the current attempt becomes a suffix search from here, and the
      older saved point loses nothing by being dropped. */
  lemma StarStep(t: string, p: string, ti: nat, pi: nat, star: Option<(nat, nat)>)
    requires SavedPoint(t, p, ti, pi, star) && pi < |p| && p[pi] == ANY_RUN
    requires Reduced(t, p, ti, pi, star)
    ensures SavedPoint(t, p, ti, pi + 1, Some((pi, ti)))
    ensures Reduced(t, p, ti, pi + 1, Some((pi, ti)))
  {
    var rest := p[pi + 1..];
    assert p[pi..] == [ANY_RUN] + rest && p[pi..][1..] == rest;
    SuffixOfSuffix(t, ti, rest);
    SplitFirst(t, ti, rest);
    if star.Some? && MatchesSomeSuffix(t, star.value.1 + 1, p[star.value.0 + 1..]) {
      var (sp, st) := star.value;
      var segment := p[sp + 1..pi];
      AroundRun(p, sp, pi);
      var k :| st + 1 <= k <= |t| && Matches(t[k..], p[sp + 1..]);
      assert MatchesSomeSuffix(t, st, p[sp + 1..]);
      LaterStartIsUseless(t, st, segment, rest);
    }
  }

  lemma AroundRun(p: string, sp: nat, pi: nat)
    requires sp < pi < |p| && p[pi] == ANY_RUN
    ensures p[sp + 1..] == p[sp + 1..pi] + [ANY_RUN] + p[pi + 1..]
  {
    assert p[sp + 1..] == p[sp + 1..pi] + p[pi..];
    assert p[pi..] == [p[pi]] + p[pi + 1..];
  }

  lemma SplitFirst(t: string, from: nat, p: string)
    requires from <= |t|
    ensures MatchesSomeSuffix(t, from, p) <==> Matches(t[from..], p) || MatchesSomeSuffix(t, from + 1, p)
  {
  }

  /** A failed attempt: the saved `%` swallows one more character. */
  lemma RetryStep(t: string, p: string, ti: nat, pi: nat, sp: nat, st: nat)
    requires SavedPoint(t, p, ti, pi, Some((sp, st))) && ti < |t|
    requires pi == |p| || (p[pi] != ANY_RUN && !MatchesOne(p[pi], t[ti]))
    requires Reduced(t, p, ti, pi, Some((sp, st)))
    ensures SavedPoint(t, p, st + 1, sp + 1, Some((sp, st + 1)))
    ensures Reduced(t, p, st + 1, sp + 1, Some((sp, st + 1)))
  {
    assert !Matches(t[ti..], p[pi..]);
    SplitFirst(t, st + 1, p[sp + 1..]);
  }

  /** With the text used up, a later start for the saved `%` cannot match more than the
      current attempt does. */
  lemma EndOfText(t: string, p: string, ti: nat, pi: nat, sp: nat, st: nat)
    requires SavedPoint(t, p, ti, pi, Some((sp, st))) && ti == |t|
    ensures MatchesSomeSuffix(t, st + 1, p[sp + 1..]) ==> Matches(t[ti..], p[pi..])
  {
    if MatchesSomeSuffix(t, st + 1, p[sp + 1..]) {
      var segment := p[sp + 1..pi];
      assert p[sp + 1..] == segment + p[pi..];
      var k :| st + 1 <= k <= |t| && Matches(t[k..], p[sp + 1..]);
      SegmentStep(t[k..], segment, p[pi..]);
      assert false;
    }
  }

  /** Folding each character to its lower-case form, which may be several characters. */
  function Fold(s: string, lower: char -> string): string {
    if s == "" then "" else lower(s[0]) + Fold(s[1..], lower)
  }

  /** Folding goes character by character. */
  lemma {:induction false} FoldConcat(a: string, b: string, c: char, lower: char -> string)
    ensures Fold(a + b, lower) == Fold(a, lower) + Fold(b, lower) && Fold([c], lower) == lower(c)
  {
    assert [c][1..] == "" && lower(c) + "" == lower(c);
    if a == "" {
      assert a + b == b;
    } else {
      assert (a + b)[1..] == a[1..] + b;
      FoldConcat(a[1..], b, c, lower);
    }
  }

  /** `like_matches` with its case-insensitivity flag; `lower` is the character mapping. */
  method LikeMatches(text: string, pattern: string, caseInsensitive: bool, lower: char -> string)
    returns (matched: bool)
    ensures matched <==>
      if caseInsensitive then Matches(Fold(text, lower), Fold(pattern, lower)) else Matches(text, pattern)
  {
    var t := if caseInsensitive then Fold(text, lower) else text;
    var p := if caseInsensitive then Fold(pattern, lower) else pattern;
    var iterations;
    matched, iterations := Decide(t, p);
  }
}
