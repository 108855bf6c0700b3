/** Directed graphs: what can be reached, and when there is a cycle. */
module Paths {

  /** Edges as pairs of nodes, each from the first to the second. */
  type Graph = set<(nat, nat)>

  /** `b` is `n` edges away from `a`. */
  ghost predicate Steps(g: Graph, a: nat, b: nat, n: nat)
    decreases n
  {
    if n == 0 then a == b else exists c: nat :: (a, c) in g && Steps(g, c, b, n - 1)
  }

  ghost predicate Reaches(g: Graph, a: nat, b: nat) {
    exists n: nat :: Steps(g, a, b, n)
  }

  /** By one edge at least. */
  ghost predicate StepsTo(g: Graph, a: nat, b: nat) {
    exists c: nat :: (a, c) in g && Reaches(g, c, b)
  }

  ghost predicate Cyclic(g: Graph) {
    exists a: nat :: StepsTo(g, a, a)
  }

  lemma ReachesSelf(g: Graph, a: nat)
    ensures Reaches(g, a, a)
  {
    assert Steps(g, a, a, 0);
  }

  lemma ReachesStep(g: Graph, a: nat, c: nat, b: nat)
    requires (a, c) in g && Reaches(g, c, b)
    ensures Reaches(g, a, b) && StepsTo(g, a, b)
  {
    var n: nat :| Steps(g, c, b, n);
    assert Steps(g, a, b, n + 1);
  }

  lemma EdgeReaches(g: Graph, a: nat, b: nat)
    requires (a, b) in g
    ensures Reaches(g, a, b) && StepsTo(g, a, b)
  {
    ReachesSelf(g, b);
    ReachesStep(g, a, b, b);
  }

  lemma {:induction false} StepsJoin(g: Graph, a: nat, b: nat, c: nat, m: nat, n: nat)
    requires Steps(g, a, b, m) && Steps(g, b, c, n)
    ensures Steps(g, a, c, m + n)
    decreases m
  {
    if m > 0 {
      var d: nat :| (a, d) in g && Steps(g, d, b, m - 1);
      StepsJoin(g, d, b, c, m - 1, n);
    }
  }

  lemma ReachesJoin(g: Graph, a: nat, b: nat, c: nat)
    requires Reaches(g, a, b) && Reaches(g, b, c)
    ensures Reaches(g, a, c)
  {
    var m: nat :| Steps(g, a, b, m);
    var n: nat :| Steps(g, b, c, n);
    StepsJoin(g, a, b, c, m, n);
  }

  /** Reaching is either standing still or taking a step. */
  lemma ReachesIff(g: Graph, a: nat, b: nat)
    ensures Reaches(g, a, b) <==> a == b || StepsTo(g, a, b)
  {
    ReachesSelf(g, a);
    if Reaches(g, a, b) {
      var n: nat :| Steps(g, a, b, n);
      if n > 0 {
        var c: nat :| (a, c) in g && Steps(g, c, b, n - 1);
        assert Reaches(g, c, b);
      }
    }
    if StepsTo(g, a, b) {
      var c: nat :| (a, c) in g && Reaches(g, c, b);
      ReachesStep(g, a, c, b);
    }
  }

  lemma StepsToJoin(g: Graph, a: nat, b: nat, c: nat)
    requires StepsTo(g, a, b) && Reaches(g, b, c)
    ensures StepsTo(g, a, c)
  {
    var d: nat :| (a, d) in g && Reaches(g, d, b);
    ReachesJoin(g, d, b, c);
  }

  lemma JoinStepsTo(g: Graph, a: nat, b: nat, c: nat)
    requires Reaches(g, a, b) && StepsTo(g, b, c)
    ensures StepsTo(g, a, c)
  {
    ReachesIff(g, a, b);
    ReachesIff(g, b, c);
    if a != b { StepsToJoin(g, a, b, c); }
  }

  /** A set no edge leaves keeps everything reached from it. */
  lemma {:induction false} ClosedKeepsSteps(g: Graph, s: set<nat>, a: nat, b: nat, n: nat)
    requires a in s && Steps(g, a, b, n)
    requires forall e :: e in g && e.0 in s ==> e.1 in s
    ensures b in s
    decreases n
  {
    if n > 0 {
      var c: nat :| (a, c) in g && Steps(g, c, b, n - 1);
      ClosedKeepsSteps(g, s, c, b, n - 1);
    }
  }

  lemma ClosedKeeps(g: Graph, s: set<nat>, a: nat, b: nat)
    requires a in s && Reaches(g, a, b)
    requires forall e :: e in g && e.0 in s ==> e.1 in s
    ensures b in s
  {
    var n: nat :| Steps(g, a, b, n);
    ClosedKeepsSteps(g, s, a, b, n);
  }

  /** A set no edge enters from outside holds everything that reaches it. */
  lemma {:induction false} ClosedKeepsBack(g: Graph, s: set<nat>, a: nat, b: nat, n: nat)
    requires b in s && Steps(g, a, b, n)
    requires forall e :: e in g && e.1 in s ==> e.0 in s
    ensures a in s
    decreases n
  {
    if n > 0 {
      var c: nat :| (a, c) in g && Steps(g, c, b, n - 1);
      ClosedKeepsBack(g, s, c, b, n - 1);
    }
  }

  lemma {:induction false} MoreEdgesSteps(g: Graph, h: Graph, a: nat, b: nat, n: nat)
    requires g <= h && Steps(g, a, b, n)
    ensures Steps(h, a, b, n)
    decreases n
  {
    if n > 0 {
      var c: nat :| (a, c) in g && Steps(g, c, b, n - 1);
      MoreEdgesSteps(g, h, c, b, n - 1);
    }
  }

  lemma MoreEdges(g: Graph, h: Graph, a: nat, b: nat)
    requires g <= h && Reaches(g, a, b)
    ensures Reaches(h, a, b)
  {
    var n: nat :| Steps(g, a, b, n);
    MoreEdgesSteps(g, h, a, b, n);
  }

  // ---------- Cycles and ranks ----------

  /** Every edge goes to a higher rank. */
  ghost predicate Ranked(g: Graph, rank: map<nat, nat>) {
    forall e :: e in g ==> e.0 in rank && e.1 in rank && rank[e.0] < rank[e.1]
  }

  lemma {:induction false} RankRises(g: Graph, rank: map<nat, nat>, a: nat, b: nat, n: nat)
    requires Ranked(g, rank) && Steps(g, a, b, n) && n > 0
    ensures a in rank && b in rank && rank[a] < rank[b]
    decreases n
  {
    var c: nat :| (a, c) in g && Steps(g, c, b, n - 1);
    if n > 1 { RankRises(g, rank, c, b, n - 1); }
  }

  /** A graph with ranks has no cycle. */
  lemma RankedIsAcyclic(g: Graph, rank: map<nat, nat>)
    requires Ranked(g, rank)
    ensures !Cyclic(g)
  {
    if Cyclic(g) {
      var a: nat :| StepsTo(g, a, a);
      var c: nat :| (a, c) in g && Reaches(g, c, a);
      var n: nat :| Steps(g, c, a, n);
      assert Steps(g, a, a, n + 1);
      RankRises(g, rank, a, a, n + 1);
    }
  }

  lemma {:induction false} RankFalls(g: Graph, rank: map<nat, nat>, a: nat, b: nat, n: nat)
    requires forall e :: e in g ==> e.0 in rank && e.1 in rank && rank[e.1] < rank[e.0]
    requires Steps(g, a, b, n) && n > 0
    ensures a in rank && b in rank && rank[b] < rank[a]
    decreases n
  {
    var c: nat :| (a, c) in g && Steps(g, c, b, n - 1);
    if n > 1 { RankFalls(g, rank, c, b, n - 1); }
  }

  /** Nor has one where every edge goes to a lower rank. */
  lemma FallingIsAcyclic(g: Graph, rank: map<nat, nat>)
    requires forall e :: e in g ==> e.0 in rank && e.1 in rank && rank[e.1] < rank[e.0]
    ensures !Cyclic(g)
  {
    if Cyclic(g) {
      var a: nat :| StepsTo(g, a, a);
      var c: nat :| (a, c) in g && Reaches(g, c, a);
      var n: nat :| Steps(g, c, a, n);
      assert Steps(g, a, a, n + 1);
      RankFalls(g, rank, a, a, n + 1);
    }
  }

  // ---------- New edges from one node ----------

  /** `h` is `g` with edges from `i` added. */
  ghost predicate AddsFrom(g: Graph, h: Graph, i: nat) {
    g <= h && (forall e :: e in g ==> e.0 != i) && forall e :: e in h && e.0 != i ==> e in g
  }

  lemma {:induction false} StepsWithin(g: Graph, h: Graph, i: nat, a: nat, b: nat, n: nat)
    requires AddsFrom(g, h, i) && !Reaches(g, a, i) && Steps(h, a, b, n)
    ensures Steps(g, a, b, n)
    decreases n
  {
    ReachesSelf(g, i);
    if n > 0 {
      var c: nat :| (a, c) in h && Steps(h, c, b, n - 1);
      if Reaches(g, c, i) { ReachesStep(g, a, c, i); }
      StepsWithin(g, h, i, c, b, n - 1);
    }
  }

  lemma {:induction false} StepsThrough(g: Graph, h: Graph, i: nat, a: nat, b: nat, n: nat)
    requires AddsFrom(g, h, i) && Steps(h, a, b, n)
    ensures Steps(g, a, b, n) || (Reaches(h, a, i) && Reaches(h, i, b))
    decreases n
  {
    if n > 0 {
      if a == i {
        ReachesSelf(h, i);
        assert Reaches(h, i, b);
      } else {
        var c: nat :| (a, c) in h && Steps(h, c, b, n - 1);
        StepsThrough(g, h, i, c, b, n - 1);
        if Reaches(h, c, i) { ReachesStep(h, a, c, i); }
      }
    }
  }

  lemma NoReturn(g: Graph, h: Graph, i: nat)
    requires AddsFrom(g, h, i) && forall t: nat :: (i, t) in h ==> !Reaches(g, t, i)
    ensures !StepsTo(h, i, i)
  {
    if StepsTo(h, i, i) {
      var t: nat :| (i, t) in h && Reaches(h, t, i);
      var n: nat :| Steps(h, t, i, n);
      StepsWithin(g, h, i, t, i, n);
      assert Reaches(g, t, i);
    }
  }

  /** Edges from `i` to nodes that do not reach it close no cycle. */
  lemma AddedCloseNoCycle(g: Graph, h: Graph, i: nat)
    requires AddsFrom(g, h, i) && !Cyclic(g) && forall t: nat :: (i, t) in h ==> !Reaches(g, t, i)
    ensures !Cyclic(h)
  {
    NoReturn(g, h, i);
    if Cyclic(h) {
      var a: nat :| StepsTo(h, a, a);
      var c: nat :| (a, c) in h && Reaches(h, c, a);
      var n: nat :| Steps(h, c, a, n);
      assert Steps(h, a, a, n + 1);
      StepsThrough(g, h, i, a, a, n + 1);
      if Steps(g, a, a, n + 1) {
        StepsAreCycle(g, a, n + 1);
      } else {
        StepsToJoin(h, a, a, i);
        JoinStepsTo(h, i, a, i);
      }
    }
  }

  ghost predicate HasNext(g: Graph, s: set<nat>, a: nat) {
    exists b: nat :: b in s && (a, b) in g
  }

  lemma NextAhead(g: Graph, s: set<nat>, t: set<nat>, x: nat, a: nat)
    requires t == (set y | y in s && StepsTo(g, x, y)) && a in t && HasNext(g, s, a)
    ensures HasNext(g, t, a)
  {
    var b: nat :| b in s && (a, b) in g;
    EdgeReaches(g, a, b);
    StepsToJoin(g, x, a, b);
    assert b in t;
  }

  /** Where every node of a finite set has a successor in it, there is a cycle. */
  lemma {:induction false} SuccessorsMakeCycle(g: Graph, s: set<nat>)
    requires s != {} && forall a :: a in s ==> HasNext(g, s, a)
    ensures Cyclic(g)
    decreases |s|
  {
    var x :| x in s;
    if !StepsTo(g, x, x) {
      var t := set y | y in s && StepsTo(g, x, y);
      assert HasNext(g, s, x);
      var y: nat :| y in s && (x, y) in g;
      EdgeReaches(g, x, y);
      assert y in t;
      forall a | a in t ensures HasNext(g, t, a) { NextAhead(g, s, t, x, a); }
      SmallerSet(t, s, x);
      SuccessorsMakeCycle(g, t);
    }
  }

  lemma {:induction false} SmallerSet(t: set<nat>, s: set<nat>, x: nat)
    requires t <= s && x in s && x !in t
    ensures |t| < |s|
  {
    SubsetSize(t, s - {x});
  }

  lemma {:induction false} SubsetSize(t: set<nat>, s: set<nat>)
    requires t <= s
    ensures |t| <= |s|
  {
    if t != {} {
      var x :| x in t;
      SubsetSize(t - {x}, s - {x});
    }
  }

  ghost predicate HasPrevious(g: Graph, s: set<nat>, a: nat) {
    exists b: nat :: b in s && (b, a) in g
  }

  lemma NextBehind(g: Graph, s: set<nat>, t: set<nat>, x: nat, a: nat)
    requires t == (set y | y in s && StepsTo(g, y, x)) && a in t && HasPrevious(g, s, a)
    ensures HasPrevious(g, t, a)
  {
    var b: nat :| b in s && (b, a) in g;
    EdgeReaches(g, b, a);
    JoinStepsTo(g, b, a, x);
    assert b in t;
  }

  /** And where every node has a predecessor in it. */
  lemma {:induction false} PredecessorsMakeCycle(g: Graph, s: set<nat>)
    requires s != {} && forall a :: a in s ==> HasPrevious(g, s, a)
    ensures Cyclic(g)
    decreases |s|
  {
    var x :| x in s;
    if !StepsTo(g, x, x) {
      var t := set y | y in s && StepsTo(g, y, x);
      assert HasPrevious(g, s, x);
      var y: nat :| y in s && (y, x) in g;
      EdgeReaches(g, y, x);
      assert y in t;
      forall a | a in t ensures HasPrevious(g, t, a) { NextBehind(g, s, t, x, a); }
      SmallerSet(t, s, x);
      PredecessorsMakeCycle(g, t);
    }
  }

  lemma {:induction false} StepsAreCycle(g: Graph, a: nat, n: nat)
    requires Steps(g, a, a, n) && n > 0
    ensures Cyclic(g)
  {
    var c: nat :| (a, c) in g && Steps(g, c, a, n - 1);
    assert Reaches(g, c, a);
    assert StepsTo(g, a, a);
  }

  // ---------- Depth in an acyclic graph ----------

  ghost function Targets(g: Graph): set<nat> {
    set e | e in g :: e.1
  }

  /** How many nodes lie ahead of `a`. */
  ghost function Ahead(g: Graph, a: nat): nat {
    |set b | b in Targets(g) && StepsTo(g, a, b)|
  }

  /** Without cycles, fewer nodes lie ahead after every edge. */
  lemma FewerAhead(g: Graph, a: nat, b: nat)
    requires !Cyclic(g) && (a, b) in g
    ensures Ahead(g, b) < Ahead(g, a)
  {
    var s, t := set c | c in Targets(g) && StepsTo(g, a, c), set c | c in Targets(g) && StepsTo(g, b, c);
    EdgeReaches(g, a, b);
    forall c | c in t ensures c in s {
      ReachesIff(g, b, c);
      StepsToJoin(g, a, b, c);
    }
    assert (a, b).1 in Targets(g);
    assert b in s && b !in t;
    SmallerSet(t, s, b);
  }

  // ---------- Renamed nodes ----------

  /** `h` has an edge for every edge of `g`, under the names `f` gives the nodes. */
  ghost predicate Renamed(g: Graph, h: Graph, f: map<nat, nat>) {
    forall e :: e in g ==> e.0 in f && e.1 in f && (f[e.0], f[e.1]) in h
  }

  lemma {:induction false} RenamedSteps(g: Graph, h: Graph, f: map<nat, nat>, a: nat, b: nat, n: nat)
    requires Renamed(g, h, f) && Steps(g, a, b, n) && n > 0
    ensures a in f && b in f && Steps(h, f[a], f[b], n)
    decreases n
  {
    var c: nat :| (a, c) in g && Steps(g, c, b, n - 1);
    assert (f[a], f[c]) in h;
    if n == 1 {
      assert Steps(h, f[c], f[b], 0);
    } else {
      RenamedSteps(g, h, f, c, b, n - 1);
    }
  }

  /** Renaming keeps every cycle. */
  lemma RenamedCycle(g: Graph, h: Graph, f: map<nat, nat>)
    requires Renamed(g, h, f) && Cyclic(g)
    ensures Cyclic(h)
  {
    var a: nat :| StepsTo(g, a, a);
    var c: nat :| (a, c) in g && Reaches(g, c, a);
    var n: nat :| Steps(g, c, a, n);
    assert Steps(g, a, a, n + 1);
    RenamedSteps(g, h, f, a, a, n + 1);
    StepsAreCycle(h, f[a], n + 1);
  }
}
