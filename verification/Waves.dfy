/** Ordering the projects of a cross-project run (orchestration/fanout.py). */
module Waves {
  import opened Wrappers
  import opened Cycles
  import opened Slugs

  type Slug = string

  /** The entries of `s` that are in `keep`, in order. */
  function Keep(s: seq<Slug>, keep: set<Slug>): seq<Slug> {
    if s == [] then [] else (if s[0] in keep then [s[0]] else []) + Keep(s[1..], keep)
  }

  lemma {:induction false} KeepMembers(s: seq<Slug>, keep: set<Slug>)
    ensures forall x :: x in Keep(s, keep) <==> x in s && x in keep
    ensures |Keep(s, keep)| <= |s|
  {
    if s != [] { KeepMembers(s[1..], keep); }
  }

  lemma {:induction false} KeepShrinks(s: seq<Slug>, keep: set<Slug>, x: Slug)
    requires x in s && x !in keep
    ensures |Keep(s, keep)| < |s|
  {
    KeepMembers(s[1..], keep);
    if s[0] != x {
      KeepShrinks(s[1..], keep, x);
    }
  }

  lemma {:induction false} KeepTwice(s: seq<Slug>, a: set<Slug>, b: set<Slug>)
    ensures Keep(Keep(s, a), b) == Keep(s, a * b)
  {
    if s != [] {
      KeepTwice(s[1..], a, b);
      if s[0] in a {
        assert Keep(s, a) == [s[0]] + Keep(s[1..], a);
        assert Keep(s, a)[1..] == Keep(s[1..], a);
      } else {
        assert Keep(s, a) == Keep(s[1..], a);
      }
    }
  }

  lemma {:induction false} KeepAll(s: seq<Slug>, a: set<Slug>)
    requires forall x :: x in s ==> x in a
    ensures Keep(s, a) == s
  {
    if s != [] { KeepAll(s[1..], a); }
  }

  lemma {:induction false} KeepSame(s: seq<Slug>, a: set<Slug>, b: set<Slug>)
    requires forall x :: x in s ==> (x in a <==> x in b)
    ensures Keep(s, a) == Keep(s, b)
  {
    if s != [] { KeepSame(s[1..], a, b); }
  }

  predicate Settled(deps: Relation<Slug>, s: Slug, done: set<Slug>) {
    forall u | u in DepsOf(deps, s) :: u in done
  }

  function ReadySet(deps: Relation<Slug>, remaining: seq<Slug>, done: set<Slug>): set<Slug> {
    set s | s in remaining && Settled(deps, s, done)
  }

  function AsSet(s: seq<Slug>): set<Slug> {
    set x | x in s
  }

  // ---- levels

  /** The level of a slug is one above the highest of its upstreams, and zero without any. */
  ghost predicate IsLevel(deps: Relation<Slug>, level: map<Slug, nat>, s: Slug)
    requires s in level
  {
    && (forall u :: u in DepsOf(deps, s) ==> u in level && level[u] < level[s])
    && (level[s] > 0 ==> exists u :: u in DepsOf(deps, s) && u in level && level[u] == level[s] - 1)
  }

  ghost predicate Levels(deps: Relation<Slug>, level: map<Slug, nat>) {
    forall s :: s in level ==> IsLevel(deps, level, s)
  }

  function AtLevel(level: map<Slug, nat>, w: nat): set<Slug> {
    set s | s in level && level[s] == w
  }

  /** `waves` lists the slugs level by level, each wave in the order of `slugs`. */
  ghost predicate ByLevel(slugs: seq<Slug>, level: map<Slug, nat>, waves: seq<seq<Slug>>) {
    && (forall w :: 0 <= w < |waves| ==> waves[w] != [] && waves[w] == Keep(slugs, AtLevel(level, w)))
    && forall s :: s in level ==> level[s] < |waves|
  }

  /** A chain of upstreams starting at `s`. */
  ghost predicate Chain(deps: Relation<Slug>, s: Slug, p: seq<Slug>) {
    IsPath(deps, p) && p[0] == s
  }

  /** The longest chain of upstreams of `s` has `n` edges. */
  ghost predicate LongestChain(deps: Relation<Slug>, s: Slug, n: nat) {
    && (exists p :: Chain(deps, s, p) && |p| == n + 1)
    && forall p :: Chain(deps, s, p) ==> |p| <= n + 1
  }

  lemma {:induction false} ChainUp(deps: Relation<Slug>, level: map<Slug, nat>, s: Slug) returns (p: seq<Slug>)
    requires Levels(deps, level) && s in level
    ensures Chain(deps, s, p) && |p| == level[s] + 1
    decreases level[s]
  {
    assert IsLevel(deps, level, s);
    if level[s] == 0 {
      p := [s];
    } else {
      var u :| u in DepsOf(deps, s) && u in level && level[u] == level[s] - 1;
      var q := ChainUp(deps, level, u);
      p := [s] + q;
      forall i | 0 <= i < |p| - 1 ensures Edge(deps, p[i], p[i + 1]) {
        if i > 0 { assert Edge(deps, q[i - 1], q[i - 1 + 1]); }
      }
    }
  }

  lemma {:induction false} ChainBound(deps: Relation<Slug>, level: map<Slug, nat>, s: Slug, p: seq<Slug>)
    requires Levels(deps, level) && s in level && Chain(deps, s, p)
    ensures |p| <= level[s] + 1
    decreases |p|
  {
    if |p| > 1 {
      assert IsLevel(deps, level, s);
      assert Edge(deps, p[0], p[0 + 1]);
      var q := p[1..];
      forall i | 0 <= i < |q| - 1 ensures Edge(deps, q[i], q[i + 1]) { assert Edge(deps, p[i + 1], p[i + 1 + 1]); }
      ChainBound(deps, level, p[1], q);
    }
  }

  /** The level is the length of the longest chain of upstreams. */
  lemma LevelIsLongestChain(deps: Relation<Slug>, level: map<Slug, nat>, s: Slug)
    requires Levels(deps, level) && s in level
    ensures LongestChain(deps, s, level[s])
  {
    var _ := ChainUp(deps, level, s);
    forall p | Chain(deps, s, p) ensures |p| <= level[s] + 1 { ChainBound(deps, level, s, p); }
  }

  // ---- the loop

  ghost predicate Progress(slugs: seq<Slug>, deps: Relation<Slug>, waves: seq<seq<Slug>>, done: set<Slug>,
                           remaining: seq<Slug>, level: map<Slug, nat>) {
    && level.Keys == done && done <= AsSet(slugs)
    && remaining == Keep(slugs, AsSet(slugs) - done)
    && Levels(deps, level) && ByLevel(slugs, level, waves)
    && (|waves| > 0 ==> forall s :: s in remaining ==> WaitedForLast(deps, level, |waves|, s))
  }

  /** A slug that was not ready before the last wave has an upstream in it, or not placed yet. */
  ghost predicate WaitedForLast(deps: Relation<Slug>, level: map<Slug, nat>, n: nat, s: Slug) {
    exists u :: u in DepsOf(deps, s) && (u !in level || level[u] == n - 1)
  }

  lemma WavesGrow(slugs: seq<Slug>, waves: seq<seq<Slug>>, level: map<Slug, nat>, now: set<Slug>, ready: seq<Slug>)
    requires ByLevel(slugs, level, waves) && now !! level.Keys
    requires ready == Keep(slugs, now) && ready != []
    ensures ByLevel(slugs, level + map s | s in now :: |waves|, waves + [ready])
  {
    hide Keep;
    var n := |waves|;
    var level' := level + map s | s in now :: n;
    assert AtLevel(level', n) == now;
    forall w | 0 <= w < n ensures AtLevel(level', w) == AtLevel(level, w) {}
  }

  /** What remains after a wave. */
  lemma RestShrinks(slugs: seq<Slug>, done: set<Slug>, remaining: seq<Slug>, now: set<Slug>, ready: seq<Slug>)
    requires done <= AsSet(slugs) && remaining == Keep(slugs, AsSet(slugs) - done)
    requires ready == Keep(remaining, now) && now == AsSet(ready) && ready != []
    ensures now !! done && done + now <= AsSet(slugs) && ready == Keep(slugs, now)
    ensures Keep(remaining, AsSet(remaining) - (done + now)) == Keep(slugs, AsSet(slugs) - (done + now))
    ensures |Keep(remaining, AsSet(remaining) - (done + now))| < |remaining|
    ensures forall s :: s in Keep(remaining, AsSet(remaining) - (done + now)) ==> s in remaining && s !in now
  {
    hide Keep;
    var rest := AsSet(remaining) - (done + now);
    KeepMembers(slugs, AsSet(slugs) - done);
    KeepMembers(remaining, now);
    KeepMembers(remaining, rest);
    KeepTwice(slugs, AsSet(slugs) - done, now);
    assert (AsSet(slugs) - done) * now == now;
    KeepTwice(slugs, AsSet(slugs) - done, rest);
    KeepSame(slugs, (AsSet(slugs) - done) * rest, AsSet(slugs) - (done + now));
    KeepShrinks(remaining, rest, ready[0]);
  }

  lemma NextWave(slugs: seq<Slug>, deps: Relation<Slug>, waves: seq<seq<Slug>>, done: set<Slug>,
                 remaining: seq<Slug>, level: map<Slug, nat>, ready: seq<Slug>)
    requires Progress(slugs, deps, waves, done, remaining, level)
    requires ready == Keep(remaining, ReadySet(deps, remaining, done)) && ready != []
    ensures var now := AsSet(ready);
            var level' := level + map s | s in now :: |waves|;
            && Progress(slugs, deps, waves + [ready], done + now,
                        Keep(remaining, AsSet(remaining) - (done + now)), level')
            && |Keep(remaining, AsSet(remaining) - (done + now))| < |remaining|
  {
    var now := AsSet(ready);
    var n := |waves|;
    var level' := level + map s | s in now :: n;
    KeepMembers(remaining, ReadySet(deps, remaining, done));
    hide Keep, ByLevel, Levels;
    assert now == ReadySet(deps, remaining, done);
    RestShrinks(slugs, done, remaining, now, ready);
    LevelsGrow(slugs, deps, waves, done, remaining, level, now);
    WavesGrow(slugs, waves, level, now, ready);
    var rest := Keep(remaining, AsSet(remaining) - (done + now));
    forall s | s in rest ensures WaitedForLast(deps, level', n + 1, s) {
      var u :| u in DepsOf(deps, s) && u !in done;
    }
  }

  lemma LevelsGrow(slugs: seq<Slug>, deps: Relation<Slug>, waves: seq<seq<Slug>>, done: set<Slug>,
                   remaining: seq<Slug>, level: map<Slug, nat>, now: set<Slug>)
    requires Progress(slugs, deps, waves, done, remaining, level)
    requires now == ReadySet(deps, remaining, done) && now !! done
    ensures Levels(deps, level + map s | s in now :: |waves|)
  {
    var n := |waves|;
    var level' := level + map s | s in now :: n;
    forall s | s in level' ensures IsLevel(deps, level', s) {
      if s in now {
        assert Settled(deps, s, done);
        forall u | u in DepsOf(deps, s) ensures u in level' && level'[u] < n { assert u in done; }
        if n > 0 {
          assert WaitedForLast(deps, level, n, s);
          var u :| u in DepsOf(deps, s) && (u !in level || level[u] == n - 1);
          assert level'[u] == n - 1;
        }
      } else {
        assert IsLevel(deps, level, s);
        forall u | u in DepsOf(deps, s) ensures u in level' && level'[u] == level[u] { assert u in level && u !in now; }
      }
    }
  }

  /** Nothing is ready: every remaining slug waits for a remaining or an unknown one. */
  lemma NothingReady(slugs: seq<Slug>, deps: Relation<Slug>, waves: seq<seq<Slug>>, done: set<Slug>,
                     remaining: seq<Slug>, level: map<Slug, nat>)
    requires Progress(slugs, deps, waves, done, remaining, level) && remaining != []
    requires Keep(remaining, ReadySet(deps, remaining, done)) == []
    ensures !Closed(deps, AsSet(slugs)) || CyclicIn(deps, AsSet(slugs))
  {
    if Closed(deps, AsSet(slugs)) {
      var stuck := AsSet(remaining);
      KeepMembers(slugs, AsSet(slugs) - done);
      KeepMembers(remaining, ReadySet(deps, remaining, done));
      assert remaining[0] in stuck;
      forall x {:trigger WaitsFor(deps, x, stuck)} | x in stuck ensures WaitsFor(deps, x, stuck) {
        assert x !in Keep(remaining, ReadySet(deps, remaining, done));
        var u :| u in DepsOf(deps, x) && u !in done;
        assert Edge(deps, x, u);
      }
      StuckHasCycle(deps, stuck);
      assert stuck <= AsSet(slugs);
    }
  }

  /** Topological waves.  They exist if and only if no upstream is unknown and no slugs depend
      on each other in a circle; wave k then holds, in caller order, the slugs whose longest
      chain of upstreams has k edges. */
  method DependencyWaves(slugs: seq<Slug>, deps: Relation<Slug>)
    returns (r: Result<seq<seq<Slug>>, seq<Slug>>, ghost level: map<Slug, nat>)
    ensures r.Ok? <==> Closed(deps, AsSet(slugs)) && !CyclicIn(deps, AsSet(slugs))
    ensures r.Ok? ==> level.Keys == AsSet(slugs) && ByLevel(slugs, level, r.value)
    ensures r.Ok? ==> forall s :: s in slugs ==> LongestChain(deps, s, level[s])
  {
    hide Progress, Closed, CyclicIn, LongestChain;
    var waves: seq<seq<Slug>> := [];
    var done: set<Slug> := {};
    var remaining := slugs;
    level := map[];
    ProgressStarts(slugs, deps);
    while remaining != []
      invariant Progress(slugs, deps, waves, done, remaining, level)
      decreases |remaining|
    {
      var ready := Keep(remaining, ReadySet(deps, remaining, done));
      if ready == [] {
        NothingReady(slugs, deps, waves, done, remaining, level);
        return Err(remaining), level;
      }
      NextWave(slugs, deps, waves, done, remaining, level, ready);
      var now := AsSet(ready);
      level := level + map s | s in now :: |waves|;
      waves := waves + [ready];
      done := done + now;
      remaining := Keep(remaining, AsSet(remaining) - done);
    }
    AllPlaced(slugs, deps, waves, done, level);
    r := Ok(waves);
  }

  lemma ProgressStarts(slugs: seq<Slug>, deps: Relation<Slug>)
    ensures Progress(slugs, deps, [], {}, slugs, map[])
  {
    KeepAll(slugs, AsSet(slugs) - {});
  }

  lemma AllPlaced(slugs: seq<Slug>, deps: Relation<Slug>, waves: seq<seq<Slug>>, done: set<Slug>, level: map<Slug, nat>)
    requires Progress(slugs, deps, waves, done, [], level)
    ensures level.Keys == AsSet(slugs) && ByLevel(slugs, level, waves)
    ensures Closed(deps, AsSet(slugs)) && !CyclicIn(deps, AsSet(slugs))
    ensures forall s :: s in slugs ==> LongestChain(deps, s, level[s])
  {
    KeepMembers(slugs, AsSet(slugs) - done);
    forall s | s in slugs ensures s in level {
      assert s !in done ==> s in Keep(slugs, AsSet(slugs) - done);
    }
    forall s | s in slugs ensures LongestChain(deps, s, level[s]) { LevelIsLongestChain(deps, level, s); }
    forall x, y | x in AsSet(slugs) && Edge(deps, x, y) ensures y in AsSet(slugs) && level[y] < level[x] {
      assert IsLevel(deps, level, x);
    }
    RankedHasNoCycle(deps, AsSet(slugs), level);
  }

  /** Every slug is in exactly one wave, after all its upstreams. */
  lemma WavesPartition(slugs: seq<Slug>, deps: Relation<Slug>, waves: seq<seq<Slug>>, level: map<Slug, nat>, s: Slug,
                       w: nat)
    requires level.Keys == AsSet(slugs) && ByLevel(slugs, level, waves)
    requires forall x :: x in slugs ==> LongestChain(deps, x, level[x])
    requires s in slugs && w < |waves|
    ensures s in waves[w] <==> w == level[s]
    ensures s in waves[w] ==> forall u :: u in DepsOf(deps, s) && u in slugs ==> level[u] < w && u in waves[level[u]]
  {
    KeepMembers(slugs, AtLevel(level, w));
    forall u | s in waves[w] && u in DepsOf(deps, s) && u in slugs ensures level[u] < w && u in waves[level[u]] {
      KeepMembers(slugs, AtLevel(level, level[u]));
      var q :| Chain(deps, u, q) && |q| == level[u] + 1;
      var p := [s] + q;
      forall i | 0 <= i < |p| - 1 ensures Edge(deps, p[i], p[i + 1]) {
        if i > 0 { assert Edge(deps, q[i - 1], q[i - 1 + 1]); }
      }
      assert Chain(deps, s, p);
    }
  }
}
