/** The composition graph of a sequence: which graphs are accepted, and which nodes
    contribute to the root. */
module Composition {
  import opened Options
  import opened Paths

  datatype NodeKind = Operator(definition: nat) | Layer | Root

  datatype Node = Node(id: nat, kind: NodeKind)

  /** An edge names the input of an operator it feeds; one into the root names none. */
  datatype Edge = Edge(from: nat, to: nat, input: Option<string>)

  datatype CompositionGraph = CompositionGraph(nodes: seq<Node>, edges: seq<Edge>)

  datatype GraphError =
    | DuplicateNode(id: nat)
    | MissingOperator(id: nat)
    | RootCount(count: nat)
    | MissingEdgeNode(id: nat)
    | EdgeFromRoot(id: nat)
    | UnknownInput(id: nat, input: Option<string>)
    | DuplicateEdge(id: nat)
    | Cycle

  datatype Checked = Ok | Err(error: GraphError)

  // ---------- The graph on ids ----------

  predicate HasNode(nodes: seq<Node>, id: nat) {
    exists i :: 0 <= i < |nodes| && nodes[i].id == id
  }

  /** All edges, those naming a missing node among them. */
  ghost function AllEdges(edges: seq<Edge>): Graph {
    set i | 0 <= i < |edges| :: (edges[i].from, edges[i].to)
  }

  /** The edges between two nodes that exist. */
  ghost function Between(graph: CompositionGraph): Graph {
    set i | 0 <= i < |graph.edges| && HasNode(graph.nodes, graph.edges[i].from)
        && HasNode(graph.nodes, graph.edges[i].to)
      :: (graph.edges[i].from, graph.edges[i].to)
  }

  // ---------- Counting edges by index ----------

  /** An edge by the indexes of its two nodes. */
  type Pair = (nat, nat)

  /** How many edges into `v` still come from a node not in `done`. */
  function Pending(pairs: seq<Pair>, done: set<nat>, v: nat): nat {
    if pairs == [] then 0
    else (if pairs[0].1 == v && pairs[0].0 !in done then 1 else 0) + Pending(pairs[1..], done, v)
  }

  /** Where the edges from `u` go, in order, one entry for each edge. */
  function Outgoing(pairs: seq<Pair>, u: nat): seq<nat> {
    if pairs == [] then []
    else (if pairs[0].0 == u then [pairs[0].1] else []) + Outgoing(pairs[1..], u)
  }

  function Count(s: seq<nat>, v: nat): nat {
    if s == [] then 0 else (if s[0] == v then 1 else 0) + Count(s[1..], v)
  }

  lemma {:induction false} CountAppend(s: seq<nat>, t: seq<nat>, v: nat)
    ensures Count(s + t, v) == Count(s, v) + Count(t, v)
  {
    if s == [] {
      assert s + t == t;
    } else {
      assert (s + t)[1..] == s[1..] + t;
      CountAppend(s[1..], t, v);
    }
  }

  lemma {:induction false} PendingAppend(a: seq<Pair>, e: Pair, v: nat)
    ensures Pending(a + [e], {}, v) == Pending(a, {}, v) + if e.1 == v then 1 else 0
  {
    if a == [] {
      assert [e][1..] == [] && a + [e] == [e];
    } else {
      assert (a + [e])[1..] == a[1..] + [e];
      PendingAppend(a[1..], e, v);
    }
  }

  lemma {:induction false} OutgoingAppend(a: seq<Pair>, e: Pair, u: nat)
    ensures Outgoing(a + [e], u) == if e.0 == u then Outgoing(a, u) + [e.1] else Outgoing(a, u)
  {
    if a == [] {
      assert [e][1..] == [] && a + [e] == [e];
    } else {
      var head, rest := if a[0].0 == u then [a[0].1] else [], Outgoing(a[1..], u);
      assert (a + [e])[1..] == a[1..] + [e] && (a + [e])[0] == a[0];
      OutgoingAppend(a[1..], e, u);
      assert head + (rest + [e.1]) == (head + rest) + [e.1];
    }
  }

  /** Doing `u` settles exactly the edges from it. */
  lemma {:induction false} PendingDone(pairs: seq<Pair>, done: set<nat>, u: nat, v: nat)
    requires u !in done
    ensures Pending(pairs, done, v) == Pending(pairs, done + {u}, v) + Count(Outgoing(pairs, u), v)
  {
    if pairs != [] {
      PendingDone(pairs[1..], done, u, v);
      CountAppend(if pairs[0].0 == u then [pairs[0].1] else [], Outgoing(pairs[1..], u), v);
      if pairs[0].0 == u { assert Outgoing(pairs, u)[1..] == Outgoing(pairs[1..], u); }
    }
  }

  lemma {:induction false} PendingIff(pairs: seq<Pair>, done: set<nat>, v: nat)
    ensures Pending(pairs, done, v) > 0 <==> exists e :: e in pairs && e.1 == v && e.0 !in done
  {
    if pairs != [] {
      PendingIff(pairs[1..], done, v);
      assert pairs[0] in pairs;
      if e :| e in pairs[1..] && e.1 == v && e.0 !in done { assert e in pairs; }
      if e :| e in pairs && e.1 == v && e.0 !in done && e != pairs[0] { assert e in pairs[1..]; }
    }
  }

  lemma {:induction false} OutgoingIff(pairs: seq<Pair>, u: nat, v: nat)
    ensures v in Outgoing(pairs, u) <==> (u, v) in pairs
  {
    if pairs != [] {
      assert pairs == [pairs[0]] + pairs[1..];
      OutgoingIff(pairs[1..], u, v);
    }
  }

  // ---------- The search for a cycle ----------

  ghost function PairGraph(pairs: seq<Pair>): Graph {
    set e | e in pairs
  }

  ghost predicate Counted(pairs: seq<Pair>, done: set<nat>, degrees: seq<nat>) {
    forall v: nat :: v < |degrees| ==> degrees[v] == Pending(pairs, done, v)
  }

  ghost predicate Distinct(s: seq<nat>) {
    forall i, j :: 0 <= i < j < |s| ==> s[i] != s[j]
  }

  /** `ready` lists exactly the nodes not done that no pending edge enters. */
  ghost predicate IsReady(ready: seq<nat>, done: set<nat>, degrees: seq<nat>) {
    && Distinct(ready)
    && forall v: nat :: v in ready <==> v < |degrees| && v !in done && degrees[v] == 0
  }

  /** Everything before a done node was done before it. */
  ghost predicate DoneInOrder(pairs: seq<Pair>, done: set<nat>, rank: map<nat, nat>) {
    && rank.Keys == done
    && (forall v :: v in done ==> rank[v] < |done|)
    && forall e :: e in pairs && e.1 in done ==> e.0 in done && rank[e.0] < rank[e.1]
  }

  /** No pending edge enters a done node. */
  lemma {:induction false} DoneHasNonePending(pairs: seq<Pair>, done: set<nat>, rank: map<nat, nat>, v: nat)
    requires DoneInOrder(pairs, done, rank) && v in done
    ensures Pending(pairs, done, v) == 0
  {
    PendingIff(pairs, done, v);
  }

  lemma {:induction false} DoOneMore(pairs: seq<Pair>, done: set<nat>, rank: map<nat, nat>, u: nat)
    requires DoneInOrder(pairs, done, rank) && u !in done && Pending(pairs, done, u) == 0
    ensures DoneInOrder(pairs, done + {u}, rank[u := |done|])
  {
    PendingIff(pairs, done, u);
  }

  /** Settling one edge into `w`: the node becomes ready when it was the last. */
  lemma ReadyOneMore(ready: seq<nat>, done: set<nat>, degrees: seq<nat>, w: nat)
    requires IsReady(ready, done, degrees) && w < |degrees| && degrees[w] > 0 && w !in done
    ensures IsReady(if degrees[w] == 1 then ready + [w] else ready, done, degrees[w := degrees[w] - 1])
  {
  }

  /** How far the edges from the node being done are settled. */
  ghost predicate Settling(pairs: seq<Pair>, done: set<nat>, degrees: seq<nat>, rest: seq<nat>) {
    forall v: nat :: v < |degrees| ==> degrees[v] == Pending(pairs, done, v) + Count(rest, v)
  }

  lemma {:induction false} SettlingStarts(pairs: seq<Pair>, done: set<nat>, u: nat, degrees: seq<nat>)
    requires u !in done && Counted(pairs, done, degrees)
    ensures Settling(pairs, done + {u}, degrees, Outgoing(pairs, u))
  {
    forall v: nat | v < |degrees| ensures degrees[v] == Pending(pairs, done + {u}, v) + Count(Outgoing(pairs, u), v) {
      PendingDone(pairs, done, u, v);
    }
  }

  ghost predicate NoneIntoDone(done: set<nat>, degrees: seq<nat>) {
    forall v :: v in done && v < |degrees| ==> degrees[v] == 0
  }

  ghost predicate SettleState(pairs: seq<Pair>, done: set<nat>, degrees: seq<nat>, rest: seq<nat>, ready: seq<nat>) {
    Settling(pairs, done, degrees, rest) && IsReady(ready, done, degrees) && NoneIntoDone(done, degrees)
  }

  lemma SettleOne(pairs: seq<Pair>, done: set<nat>, degrees: seq<nat>, w: nat, rest: seq<nat>, ready: seq<nat>)
    requires SettleState(pairs, done, degrees, [w] + rest, ready) && w < |degrees|
    ensures degrees[w] > 0
    ensures SettleState(pairs, done, degrees[w := degrees[w] - 1], rest, if degrees[w] == 1 then ready + [w] else ready)
  {
    assert ([w] + rest)[1..] == rest;
    ReadyOneMore(ready, done, degrees, w);
  }

  /** Settle the edges of a node just done into `next`, and note what becomes ready. */
  method Settle(ghost pairs: seq<Pair>, ghost done: set<nat>, next: seq<nat>, ready: seq<nat>, indegree: array<nat>)
    returns (ready': seq<nat>)
    requires SettleState(pairs, done, indegree[..], next, ready)
    requires forall w :: w in next ==> w < indegree.Length
    modifies indegree
    ensures SettleState(pairs, done, indegree[..], [], ready')
  {
    ready' := ready;
    var j := 0;
    assert next[0..] == next;
    while j < |next|
      invariant 0 <= j <= |next|
      invariant SettleState(pairs, done, indegree[..], next[j..], ready')
    {
      var w := next[j];
      assert w in next && next[j..] == [w] + next[j + 1..];
      SettleOne(pairs, done, indegree[..], w, next[j + 1..], ready');
      ghost var before := indegree[..];
      indegree[w] := indegree[w] - 1;
      assert indegree[..] == before[w := before[w] - 1];
      if indegree[w] == 0 {
        ready' := ready' + [w];
      }
      j := j + 1;
    }
    assert next[j..] == [];
  }

  lemma {:induction false} LastOnce(rest: seq<nat>, u: nat)
    requires Distinct(rest + [u])
    ensures Distinct(rest) && u !in rest
  {
    var all := rest + [u];
    forall i, j | 0 <= i < j < |rest| ensures rest[i] != rest[j] { assert all[i] == rest[i] && all[j] == rest[j]; }
    forall i | 0 <= i < |rest| ensures rest[i] != u { assert all[i] == rest[i] && all[|rest|] == u; }
  }

  lemma {:induction false} PopReady(ready: seq<nat>, done: set<nat>, degrees: seq<nat>)
    requires IsReady(ready, done, degrees) && ready != []
    ensures var u := ready[|ready| - 1];
            && u < |degrees| && u !in done && degrees[u] == 0
            && IsReady(ready[..|ready| - 1], done + {u}, degrees)
  {
    var u, rest := ready[|ready| - 1], ready[..|ready| - 1];
    assert ready == rest + [u];
    LastOnce(rest, u);
    assert forall v: nat :: v in ready <==> v in rest || v == u;
  }

  lemma {:induction false} StartSettling(pairs: seq<Pair>, done: set<nat>, rank: map<nat, nat>, degrees: seq<nat>,
                                         u: nat, ready: seq<nat>)
    requires DoneInOrder(pairs, done, rank) && Counted(pairs, done, degrees) && IsReady(ready, done, degrees)
    requires ready != [] && u == ready[|ready| - 1]
    requires forall e :: e in pairs ==> e.0 < |degrees| && e.1 < |degrees|
    ensures SettleState(pairs, done + {u}, degrees, Outgoing(pairs, u), ready[..|ready| - 1])
    ensures forall w :: w in Outgoing(pairs, u) ==> w < |degrees|
  {
    PopReady(ready, done, degrees);
    SettlingStarts(pairs, done, u, degrees);
    forall v | v in done && v < |degrees| ensures degrees[v] == 0 { DoneHasNonePending(pairs, done, rank, v); }
    forall w | w in Outgoing(pairs, u) ensures w < |degrees| { OutgoingIff(pairs, u, w); }
  }

  /** Take nodes no pending edge enters until there are none; `done` is those taken. */
  method TakeReady(ghost pairs: seq<Pair>, indegree: array<nat>, outgoing: array<seq<nat>>, ready0: seq<nat>)
    returns (visited: nat, ghost done: set<nat>, ghost rank: map<nat, nat>)
    requires indegree.Length == outgoing.Length
    requires Leaving(pairs, outgoing[..])
    requires forall e :: e in pairs ==> e.0 < indegree.Length && e.1 < indegree.Length
    requires Counted(pairs, {}, indegree[..]) && IsReady(ready0, {}, indegree[..])
    modifies indegree
    ensures visited == |done| && DoneInOrder(pairs, done, rank)
    ensures forall v :: v in done ==> v < indegree.Length
    ensures forall v: nat :: v < indegree.Length && v !in done ==> Pending(pairs, done, v) > 0
  {
    var ready := ready0;
    visited, done, rank := 0, {}, map[];
    while ready != []
      invariant visited == |done| && DoneInOrder(pairs, done, rank)
      invariant forall v :: v in done ==> v < indegree.Length
      invariant Counted(pairs, done, indegree[..]) && IsReady(ready, done, indegree[..])
      invariant Leaving(pairs, outgoing[..])
      decreases indegree.Length - visited
    {
      PopReady(ready, done, indegree[..]);
      var index := ready[|ready| - 1];
      visited := visited + 1;
      assert outgoing[..][index] == outgoing[index] == Outgoing(pairs, index);
      StartSettling(pairs, done, rank, indegree[..], index, ready);
      DoOneMore(pairs, done, rank, index);
      ready := Settle(pairs, done + {index}, outgoing[index], ready[..|ready| - 1], indegree);
      rank := rank[index := |done|];
      done := done + {index};
      BelowSize(done, indegree.Length);
    }
  }

  lemma {:induction false} BelowSize(s: set<nat>, n: nat)
    requires forall v :: v in s ==> v < n
    ensures |s| <= n
    ensures |s| == n ==> forall v: nat :: v < n ==> v in s
  {
    if n > 0 {
      BelowSize(s - {n - 1}, n - 1);
      if n - 1 !in s { assert s - {n - 1} == s; }
    } else {
      assert s == {};
    }
  }

  /** Everything was taken exactly when there is no cycle. */
  lemma {:induction false} TakenIffAcyclic(pairs: seq<Pair>, n: nat, done: set<nat>, rank: map<nat, nat>)
    requires forall e :: e in pairs ==> e.0 < n && e.1 < n
    requires DoneInOrder(pairs, done, rank) && forall v :: v in done ==> v < n
    requires forall v: nat :: v < n && v !in done ==> Pending(pairs, done, v) > 0
    ensures |done| == n <==> !Cyclic(PairGraph(pairs))
  {
    BelowSize(done, n);
    if |done| == n {
      RankedIsAcyclic(PairGraph(pairs), rank);
    } else {
      var rest := set v | 0 <= v < n && v !in done;
      if rest == {} {
        forall v: nat | v < n ensures v in done { assert v !in rest; }
        AllBelow(done, n);
        assert false;
      }
      forall v | v in rest ensures HasPrevious(PairGraph(pairs), rest, v) {
        PendingIff(pairs, done, v);
        var e :| e in pairs && e.1 == v && e.0 !in done;
        assert e in PairGraph(pairs) && e.0 in rest;
      }
      PredecessorsMakeCycle(PairGraph(pairs), rest);
    }
  }

  lemma {:induction false} AllBelow(s: set<nat>, n: nat)
    requires forall v: nat :: v < n ==> v in s
    ensures n <= |s|
  {
    if n > 0 { AllBelow(s - {n - 1}, n - 1); }
  }

  // ---------- From ids to indexes and back ----------

  ghost predicate IsIndex(nodes: seq<Node>, indexes: map<nat, nat>) {
    && (forall id: nat :: id in indexes <==> HasNode(nodes, id))
    && forall id :: id in indexes ==> indexes[id] < |nodes| && nodes[indexes[id]].id == id
  }

  /** Each id's index; of several nodes with one id the last. */
  method IndexNodes(nodes: seq<Node>) returns (indexes: map<nat, nat>)
    ensures IsIndex(nodes, indexes)
  {
    indexes := map[];
    var i := 0;
    while i < |nodes|
      invariant 0 <= i <= |nodes|
      invariant IsIndex(nodes[..i], indexes)
    {
      IndexOneMore(nodes, i, indexes);
      indexes := indexes[nodes[i].id := i];
      i := i + 1;
    }
    assert nodes[..i] == nodes;
  }

  lemma IndexOneMore(nodes: seq<Node>, i: nat, indexes: map<nat, nat>)
    requires i < |nodes| && IsIndex(nodes[..i], indexes)
    ensures IsIndex(nodes[..i + 1], indexes[nodes[i].id := i])
  {
    var before, after, next := nodes[..i], nodes[..i + 1], indexes[nodes[i].id := i];
    forall id: nat ensures id in next <==> HasNode(after, id) {
      if HasNode(before, id) {
        var k :| 0 <= k < |before| && before[k].id == id;
        assert after[k].id == id;
      }
      if id == nodes[i].id { assert after[i].id == id; }
      if HasNode(after, id) && id != nodes[i].id {
        var k :| 0 <= k < |after| && after[k].id == id;
        assert before[k].id == id;
      }
    }
  }

  /** The index pairs of the edges whose two nodes exist. */
  function Pairs(edges: seq<Edge>, indexes: map<nat, nat>): seq<Pair> {
    if edges == [] then []
    else
      (if edges[0].from in indexes && edges[0].to in indexes then [(indexes[edges[0].from], indexes[edges[0].to])]
       else [])
      + Pairs(edges[1..], indexes)
  }

  lemma {:induction false} PairsAppend(a: seq<Edge>, e: Edge, indexes: map<nat, nat>)
    ensures Pairs(a + [e], indexes)
         == if e.from in indexes && e.to in indexes then Pairs(a, indexes) + [(indexes[e.from], indexes[e.to])]
            else Pairs(a, indexes)
  {
    if a == [] {
      assert [e][1..] == [] && a + [e] == [e];
    } else {
      var rest := Pairs(a[1..], indexes);
      var head := if a[0].from in indexes && a[0].to in indexes then [(indexes[a[0].from], indexes[a[0].to])] else [];
      assert (a + [e])[1..] == a[1..] + [e] && (a + [e])[0] == a[0];
      PairsAppend(a[1..], e, indexes);
      if e.from in indexes && e.to in indexes {
        assert head + (rest + [(indexes[e.from], indexes[e.to])]) == (head + rest) + [(indexes[e.from], indexes[e.to])];
      }
    }
  }

  lemma {:induction false} PairsIff(edges: seq<Edge>, indexes: map<nat, nat>, p: Pair)
    ensures p in Pairs(edges, indexes) <==>
            exists e :: e in edges && e.from in indexes && e.to in indexes && p == (indexes[e.from], indexes[e.to])
  {
    if edges != [] {
      assert edges == [edges[0]] + edges[1..];
      PairsIff(edges[1..], indexes, p);
    }
  }

  lemma BetweenIff(graph: CompositionGraph, indexes: map<nat, nat>, a: nat, b: nat)
    requires IsIndex(graph.nodes, indexes)
    ensures (a, b) in Between(graph) <==>
            a in indexes && b in indexes && exists e :: e in graph.edges && e.from == a && e.to == b
  {
    if a in indexes && b in indexes {
      if e :| e in graph.edges && e.from == a && e.to == b {
        var i :| 0 <= i < |graph.edges| && graph.edges[i] == e;
        assert (graph.edges[i].from, graph.edges[i].to) in Between(graph);
      }
    }
  }

  /** The indexed graph has a cycle exactly when the graph on ids has one. */
  lemma {:induction false} IndexedCycleIff(graph: CompositionGraph, indexes: map<nat, nat>, pairs: seq<Pair>)
    requires IsIndex(graph.nodes, indexes) && pairs == Pairs(graph.edges, indexes)
    ensures Cyclic(PairGraph(pairs)) <==> Cyclic(Between(graph))
    ensures forall p :: p in pairs ==> p.0 < |graph.nodes| && p.1 < |graph.nodes|
  {
    var ids := map i: nat | i < |graph.nodes| :: graph.nodes[i].id;
    forall p | p in pairs
      ensures p.0 in ids && p.1 in ids && (ids[p.0], ids[p.1]) in Between(graph)
    {
      PairsIff(graph.edges, indexes, p);
      var e :| e in graph.edges && e.from in indexes && e.to in indexes && p == (indexes[e.from], indexes[e.to]);
      BetweenIff(graph, indexes, e.from, e.to);
    }
    forall e | e in Between(graph)
      ensures e.0 in indexes && e.1 in indexes && (indexes[e.0], indexes[e.1]) in PairGraph(pairs)
    {
      BetweenIff(graph, indexes, e.0, e.1);
      PairsIff(graph.edges, indexes, (indexes[e.0], indexes[e.1]));
    }
    if Cyclic(PairGraph(pairs)) { RenamedCycle(PairGraph(pairs), Between(graph), ids); }
    if Cyclic(Between(graph)) { RenamedCycle(Between(graph), PairGraph(pairs), indexes); }
  }

  ghost predicate Leaving(pairs: seq<Pair>, outgoing: seq<seq<nat>>) {
    forall u: nat :: u < |outgoing| ==> outgoing[u] == Outgoing(pairs, u)
  }

  lemma CountOneMore(pairs: seq<Pair>, e: Pair, degrees: seq<nat>, outgoing: seq<seq<nat>>)
    requires Counted(pairs, {}, degrees) && Leaving(pairs, outgoing)
    requires e.0 < |outgoing| && e.1 < |degrees|
    ensures Counted(pairs + [e], {}, degrees[e.1 := degrees[e.1] + 1])
    ensures Leaving(pairs + [e], outgoing[e.0 := outgoing[e.0] + [e.1]])
  {
    forall v: nat ensures Pending(pairs + [e], {}, v) == Pending(pairs, {}, v) + if e.1 == v then 1 else 0 {
      PendingAppend(pairs, e, v);
    }
    forall u: nat ensures Outgoing(pairs + [e], u) == if e.0 == u then Outgoing(pairs, u) + [e.1]
        else Outgoing(pairs, u) {
      OutgoingAppend(pairs, e, u);
    }
  }

  /** Fill in how many edges enter each node and where those leaving it go. */
  method CountEdges(edges: seq<Edge>, indexes: map<nat, nat>, indegree: array<nat>, outgoing: array<seq<nat>>)
    requires indegree.Length == outgoing.Length
    requires forall id :: id in indexes ==> indexes[id] < indegree.Length
    requires forall i :: 0 <= i < indegree.Length ==> indegree[i] == 0 && outgoing[i] == []
    modifies indegree, outgoing
    ensures Counted(Pairs(edges, indexes), {}, indegree[..]) && Leaving(Pairs(edges, indexes), outgoing[..])
  {
    var i := 0;
    while i < |edges|
      invariant 0 <= i <= |edges|
      invariant Counted(Pairs(edges[..i], indexes), {}, indegree[..])
      invariant Leaving(Pairs(edges[..i], indexes), outgoing[..])
    {
      assert edges[..i + 1] == edges[..i] + [edges[i]];
      PairsAppend(edges[..i], edges[i], indexes);
      if edges[i].from in indexes && edges[i].to in indexes {
        var from, to := indexes[edges[i].from], indexes[edges[i].to];
        ghost var degrees, leaving := indegree[..], outgoing[..];
        CountOneMore(Pairs(edges[..i], indexes), (from, to), degrees, leaving);
        indegree[to] := indegree[to] + 1;
        outgoing[from] := outgoing[from] + [to];
        assert indegree[..] == degrees[to := degrees[to] + 1] && outgoing[..] == leaving[from := leaving[from] + [to]];
      }
      i := i + 1;
    }
    assert edges[..i] == edges;
  }

  /** The nodes no edge enters. */
  method FindReady(indegree: array<nat>) returns (ready: seq<nat>)
    ensures IsReady(ready, {}, indegree[..])
  {
    ready := [];
    var i := 0;
    while i < indegree.Length
      invariant 0 <= i <= indegree.Length
      invariant Distinct(ready) && forall v: nat :: v in ready <==> v < i && indegree[v] == 0
    {
      if indegree[i] == 0 {
        ready := ready + [i];
      }
      i := i + 1;
    }
  }

  /** Accepts exactly the graphs with no cycle among their nodes; edges that name a missing
      node do not matter, and parallel edges each count. */
  method ValidateAcyclic(graph: CompositionGraph) returns (r: Checked)
    ensures r == if Cyclic(Between(graph)) then Err(Cycle) else Ok
  {
    var indexes := IndexNodes(graph.nodes);
    var n := |graph.nodes|;
    var indegree := new nat[n](_ => 0);
    var outgoing := new seq<nat>[n](_ => []);
    ghost var pairs := Pairs(graph.edges, indexes);
    CountEdges(graph.edges, indexes, indegree, outgoing);
    IndexedCycleIff(graph, indexes, pairs);
    var ready := FindReady(indegree);
    var visited, done, rank := TakeReady(pairs, indegree, outgoing, ready);
    TakenIffAcyclic(pairs, n, done, rank);
    r := if visited == n then Ok else Err(Cycle);
  }

  // ---------- The whole check ----------

  ghost predicate DistinctIds(nodes: seq<Node>) {
    forall i, j :: 0 <= i < j < |nodes| ==> nodes[i].id != nodes[j].id
  }

  ghost predicate OperatorsExist(nodes: seq<Node>, definitions: map<nat, seq<string>>) {
    forall i :: 0 <= i < |nodes| && nodes[i].kind.Operator? ==> nodes[i].kind.definition in definitions
  }

  function Roots(nodes: seq<Node>): nat {
    if nodes == [] then 0 else Roots(nodes[..|nodes| - 1]) + if nodes[|nodes| - 1].kind.Root? then 1 else 0
  }

  predicate Takes(kind: NodeKind, input: Option<string>, definitions: map<nat, seq<string>>) {
    || (kind.Root? && input.None?)
    || (kind.Operator? && input.Some? && kind.definition in definitions && input.value in definitions[kind.definition])
  }

  /** An edge leads from a node with an output to an input the other node has. */
  /** The node takes the input: the root the one without a name, an operator each its definition has. */
  ghost predicate HasInput(kind: NodeKind, input: Option<string>, definitions: map<nat, seq<string>>) {
    match kind
    case Root => input == None
    case Layer => false
    case Operator(d) => d in definitions && exists k :: 0 <= k < |definitions[d]| && input == Some(definitions[d][k])
  }

  lemma TakesIff(kind: NodeKind, input: Option<string>, definitions: map<nat, seq<string>>)
    ensures Takes(kind, input, definitions) <==> HasInput(kind, input, definitions)
  {
  }

  ghost predicate EdgeFits(e: Edge, nodes: seq<Node>, definitions: map<nat, seq<string>>) {
    exists i, j :: 0 <= i < |nodes| && 0 <= j < |nodes| && nodes[i].id == e.from && nodes[j].id == e.to
                   && !nodes[i].kind.Root? && HasInput(nodes[j].kind, e.input, definitions)
  }

  ghost predicate EdgesFit(edges: seq<Edge>, nodes: seq<Node>, definitions: map<nat, seq<string>>) {
    && (forall i :: 0 <= i < |edges| ==> EdgeFits(edges[i], nodes, definitions))
    && forall i, j :: 0 <= i < j < |edges| ==> edges[i] != edges[j]
  }

  /** What must hold before cycles are looked for. */
  ghost predicate WellFormed(graph: CompositionGraph, definitions: map<nat, seq<string>>) {
    && DistinctIds(graph.nodes) && OperatorsExist(graph.nodes, definitions) && Roots(graph.nodes) == 1
    && EdgesFit(graph.edges, graph.nodes, definitions)
  }

  /** What an error says of the graph is so. */
  ghost predicate Blames(error: GraphError, graph: CompositionGraph, definitions: map<nat, seq<string>>) {
    match error
    case DuplicateNode(id) => exists i, j :: 0 <= i < j < |graph.nodes| && graph.nodes[i].id == graph.nodes[j].id == id
    case MissingOperator(id) =>
      exists i :: 0 <= i < |graph.nodes| && graph.nodes[i].id == id && graph.nodes[i].kind.Operator?
                  && graph.nodes[i].kind.definition !in definitions
    case RootCount(count) => count == Roots(graph.nodes) != 1
    case MissingEdgeNode(id) => !HasNode(graph.nodes, id) &&
        exists e :: e in graph.edges
          && (e.from == id || e.to == id)
    case EdgeFromRoot(id) => (exists e :: e in graph.edges && e.from == id) && NodeIs(graph.nodes, id, Root)
    case UnknownInput(id, input) =>
      && (exists e :: e in graph.edges && e.to == id && e.input == input)
      && exists i :: 0 <= i < |graph.nodes| && graph.nodes[i].id == id
          && !HasInput(graph.nodes[i].kind, input, definitions)
    case DuplicateEdge(id) =>
        exists i, j :: 0 <= i < j < |graph.edges| && graph.edges[i] == graph.edges[j]
          && graph.edges[j].to == id
    case Cycle => Cyclic(Between(graph))
  }

  predicate NodeIs(nodes: seq<Node>, id: nat, kind: NodeKind) {
    exists i :: 0 <= i < |nodes| && nodes[i] == Node(id, kind)
  }

  /** The nodes in order: repeated ids, operators without a definition, then the roots. */
  method ValidateNodes(graph: CompositionGraph, definitions: map<nat, seq<string>>) returns (r: Checked)
    ensures r == Ok <==> DistinctIds(graph.nodes) && OperatorsExist(graph.nodes, definitions) && Roots(graph.nodes) == 1
    ensures r.Err? ==> Blames(r.error, graph, definitions) && r.error != Cycle
  {
    var nodes := graph.nodes;
    var ids: set<nat>, roots, i := {}, 0, 0;
    while i < |nodes|
      invariant 0 <= i <= |nodes|
      invariant DistinctIds(nodes[..i]) && OperatorsExist(nodes[..i], definitions) && roots == Roots(nodes[..i])
      invariant forall id :: id in ids <==> exists k :: 0 <= k < i && nodes[k].id == id
    {
      var node := nodes[i];
      if node.id in ids {
        return Err(DuplicateNode(node.id));
      }
      if node.kind.Operator? && node.kind.definition !in definitions {
        return Err(MissingOperator(node.id));
      }
      if node.kind.Root? {
        roots := roots + 1;
      }
      ids := ids + {node.id};
      assert nodes[..i + 1][..i] == nodes[..i] && nodes[..i + 1][i] == node;
      i := i + 1;
    }
    assert nodes[..i] == nodes;
    r := if roots != 1 then Err(RootCount(roots)) else Ok;
  }

  function ValidateEdge(e: Edge, nodes: seq<Node>, indexes: map<nat, nat>, definitions: map<nat, seq<string>>,
                        seen: set<Edge>): Checked
    requires IsIndex(nodes, indexes)
  {
    if e.from !in indexes then Err(MissingEdgeNode(e.from))
    else if e.to !in indexes then Err(MissingEdgeNode(e.to))
    else if nodes[indexes[e.from]].kind.Root? then Err(EdgeFromRoot(e.from))
    else if !Takes(nodes[indexes[e.to]].kind, e.input, definitions) then Err(UnknownInput(e.to, e.input))
    else if e in seen then Err(DuplicateEdge(e.to))
    else Ok
  }

  lemma EdgeAccepted(e: Edge, nodes: seq<Node>, indexes: map<nat, nat>, definitions: map<nat, seq<string>>,
                     seen: set<Edge>)
    requires DistinctIds(nodes) && IsIndex(nodes, indexes)
    ensures ValidateEdge(e, nodes, indexes, definitions, seen) == Ok <==> EdgeFits(e, nodes, definitions) && e !in seen
  {
    forall j | 0 <= j < |nodes|
      ensures Takes(nodes[j].kind, e.input, definitions) <==> HasInput(nodes[j].kind, e.input, definitions)
    {
      TakesIff(nodes[j].kind, e.input, definitions);
    }
    if EdgeFits(e, nodes, definitions) {
      var i, j :| 0 <= i < |nodes| && 0 <= j < |nodes| && nodes[i].id == e.from && nodes[j].id == e.to
                  && !nodes[i].kind.Root? && HasInput(nodes[j].kind, e.input, definitions);
      assert HasNode(nodes, e.from) && HasNode(nodes, e.to);
      assert indexes[e.from] == i && indexes[e.to] == j;
    }
  }

  lemma EdgeBlamed(graph: CompositionGraph, definitions: map<nat, seq<string>>, indexes: map<nat, nat>, seen: set<Edge>,
                   i: nat)
    requires IsIndex(graph.nodes, indexes) && i < |graph.edges| && forall e :: e in seen <==> e in graph.edges[..i]
    ensures ValidateEdge(graph.edges[i], graph.nodes, indexes, definitions, seen).Err? ==>
              Blames(ValidateEdge(graph.edges[i], graph.nodes, indexes, definitions, seen).error, graph, definitions)
  {
    var e := graph.edges[i];
    assert e in graph.edges;
    if e.to in indexes { TakesIff(graph.nodes[indexes[e.to]].kind, e.input, definitions); }
    if e in seen {
      var j :| 0 <= j < i && graph.edges[..i][j] == e;
      assert graph.edges[j] == e;
    }
    if e.from in indexes && graph.nodes[indexes[e.from]].kind.Root? {
      assert graph.nodes[indexes[e.from]] == Node(e.from, Root);
    }
  }

  method ValidateEdges(graph: CompositionGraph, definitions: map<nat, seq<string>>) returns (r: Checked)
    requires DistinctIds(graph.nodes) && OperatorsExist(graph.nodes, definitions)
    ensures r == Ok <==> EdgesFit(graph.edges, graph.nodes, definitions)
    ensures r.Err? ==> Blames(r.error, graph, definitions) && r.error != Cycle
  {
    var edges := graph.edges;
    var indexes := IndexNodes(graph.nodes);
    var seen: set<Edge>, i := {}, 0;
    while i < |edges|
      invariant 0 <= i <= |edges|
      invariant EdgesFit(edges[..i], graph.nodes, definitions)
      invariant forall e :: e in seen <==> e in edges[..i]
    {
      EdgeAccepted(edges[i], graph.nodes, indexes, definitions, seen);
      r := ValidateEdge(edges[i], graph.nodes, indexes, definitions, seen);
      if r != Ok {
        EdgeBlamed(graph, definitions, indexes, seen, i);
        return;
      }
      seen := seen + {edges[i]};
      assert edges[..i + 1] == edges[..i] + [edges[i]];
      i := i + 1;
    }
    assert edges[..i] == edges;
    r := Ok;
  }

  /** Accepts exactly the well-formed graphs without a cycle, blames a cycle only on graphs
      with nothing else wrong, and whatever it blames is there. */
  method ValidateCompositionGraph(graph: CompositionGraph, definitions: map<nat, seq<string>>) returns (r: Checked)
    ensures r == Ok <==> WellFormed(graph, definitions) && !Cyclic(Between(graph))
    ensures r == Err(Cycle) <==> WellFormed(graph, definitions) && Cyclic(Between(graph))
    ensures r.Err? ==> Blames(r.error, graph, definitions)
  {
    r := ValidateNodes(graph, definitions);
    if r != Ok {
      return;
    }
    r := ValidateEdges(graph, definitions);
    if r != Ok {
      return;
    }
    r := ValidateAcyclic(graph);
  }

  // ---------- What contributes to the root ----------

  ghost predicate ReachesRoot(graph: CompositionGraph, id: nat) {
    exists i :: 0 <= i < |graph.nodes| && graph.nodes[i].kind.Root?
        && Reaches(AllEdges(graph.edges), id, graph.nodes[i].id)
  }

  ghost predicate IsIncoming(edges: seq<Edge>, incoming: map<nat, seq<nat>>) {
    forall a: nat, b: nat :: (a, b) in AllEdges(edges) <==> b in incoming && a in incoming[b]
  }

  lemma AllEdgesAppend(a: seq<Edge>, e: Edge)
    ensures AllEdges(a + [e]) == AllEdges(a) + {(e.from, e.to)}
  {
    var b := a + [e];
    forall p ensures p in AllEdges(b) <==> p in AllEdges(a) || p == (e.from, e.to) {
      if p in AllEdges(a) {
        var i :| 0 <= i < |a| && p == (a[i].from, a[i].to);
        assert b[i] == a[i];
      }
      if p == (e.from, e.to) { assert b[|a|] == e; }
    }
  }

  method CollectIncoming(edges: seq<Edge>) returns (incoming: map<nat, seq<nat>>)
    ensures IsIncoming(edges, incoming)
  {
    incoming := map[];
    var i := 0;
    while i < |edges|
      invariant 0 <= i <= |edges|
      invariant IsIncoming(edges[..i], incoming)
    {
      var from, to := edges[i].from, edges[i].to;
      assert edges[..i + 1] == edges[..i] + [edges[i]];
      AllEdgesAppend(edges[..i], edges[i]);
      incoming := incoming[to := (if to in incoming then incoming[to] else []) + [from]];
      i := i + 1;
    }
    assert edges[..i] == edges;
  }

  /** The ids that exist or that an edge leaves. */
  ghost function Universe(graph: CompositionGraph): set<nat> {
    (set i | 0 <= i < |graph.nodes| :: graph.nodes[i].id) + set i | 0 <= i < |graph.edges| :: graph.edges[i].from
  }

  ghost predicate IsRoot(graph: CompositionGraph, id: nat) {
    exists i :: 0 <= i < |graph.nodes| && graph.nodes[i].kind.Root? && graph.nodes[i].id == id
  }

  method RootIds(graph: CompositionGraph) returns (ids: seq<nat>)
    ensures forall id: nat :: id in ids <==> IsRoot(graph, id)
  {
    ids := [];
    var i := 0;
    while i < |graph.nodes|
      invariant 0 <= i <= |graph.nodes|
      invariant forall id: nat :: id in ids <==>
                exists k :: 0 <= k < i && graph.nodes[k].kind.Root?
                  && graph.nodes[k].id == id
    {
      if graph.nodes[i].kind.Root? {
        ids := ids + [graph.nodes[i].id];
      }
      i := i + 1;
    }
  }

  /** Everything found or pending reaches a root, and nothing between them is missed. */
  ghost predicate Searching(graph: CompositionGraph, pending: seq<nat>, required: set<nat>) {
    && (forall id: nat :: id in required || id in pending ==> ReachesRoot(graph, id) && id in Universe(graph))
    && (forall id: nat :: IsRoot(graph, id) ==> id in required || id in pending)
    && forall a: nat, b: nat :: (a, b) in AllEdges(graph.edges) && b in required ==> a in required || a in pending
  }

  lemma RootsReachRoots(graph: CompositionGraph, id: nat)
    requires IsRoot(graph, id)
    ensures ReachesRoot(graph, id) && id in Universe(graph)
  {
    var i :| 0 <= i < |graph.nodes| && graph.nodes[i].kind.Root? && graph.nodes[i].id == id;
    ReachesSelf(AllEdges(graph.edges), id);
  }

  /** How many ids are still to be found at most. */
  ghost function Unfound(graph: CompositionGraph, required: set<nat>): nat {
    |Universe(graph) - required|
  }

  lemma FoundBefore(graph: CompositionGraph, rest: seq<nat>, id: nat, required: set<nat>)
    requires Searching(graph, rest + [id], required)
    ensures id in required ==> Searching(graph, rest, required)
    ensures id !in required ==> Unfound(graph, required + {id}) < Unfound(graph, required)
  {
    assert id in rest + [id] && forall x: nat :: x in rest + [id] <==> x in rest || x == id;
    if id !in required {
      SmallerSet(Universe(graph) - (required + {id}), Universe(graph) - required, id);
    }
  }

  lemma FindOneMore(graph: CompositionGraph, rest: seq<nat>, id: nat, required: set<nat>, inputs: seq<nat>)
    requires Searching(graph, rest + [id], required)
    requires forall a: nat :: a in inputs <==> (a, id) in AllEdges(graph.edges)
    ensures Searching(graph, rest + inputs, required + {id})
  {
    assert id in rest + [id] && forall x: nat :: x in rest + [id] <==> x in rest || x == id;
    assert forall x: nat :: x in rest + inputs <==> x in rest || x in inputs;
    forall x: nat | x in inputs ensures ReachesRoot(graph, x) && x in Universe(graph) {
      InputReachesRoot(graph, x, id);
    }
  }

  /** When nothing is pending, everything that reaches a root is found. */
  lemma FoundAll(graph: CompositionGraph, required: set<nat>, id: nat)
    requires Searching(graph, [], required) && ReachesRoot(graph, id)
    ensures id in required
  {
    var i :| 0 <= i < |graph.nodes| && graph.nodes[i].kind.Root?
        && Reaches(AllEdges(graph.edges), id, graph.nodes[i].id);
    assert IsRoot(graph, graph.nodes[i].id);
    var n: nat :| Steps(AllEdges(graph.edges), id, graph.nodes[i].id, n);
    ClosedKeepsBack(AllEdges(graph.edges), required, id, graph.nodes[i].id, n);
  }

  lemma InputReachesRoot(graph: CompositionGraph, a: nat, b: nat)
    requires (a, b) in AllEdges(graph.edges) && ReachesRoot(graph, b)
    ensures ReachesRoot(graph, a) && a in Universe(graph)
  {
    var i :| 0 <= i < |graph.nodes| && graph.nodes[i].kind.Root?
        && Reaches(AllEdges(graph.edges), b, graph.nodes[i].id);
    ReachesStep(AllEdges(graph.edges), a, b, graph.nodes[i].id);
  }

  lemma SearchStarts(graph: CompositionGraph, roots: seq<nat>)
    requires forall id: nat :: id in roots <==> IsRoot(graph, id)
    ensures Searching(graph, roots, {})
  {
    forall id: nat | id in roots ensures ReachesRoot(graph, id) && id in Universe(graph) { RootsReachRoots(graph, id); }
  }

  /** Exactly the ids from which a path of edges leads to a root. */
  method RootDependencies(graph: CompositionGraph) returns (required: set<nat>)
    ensures forall id: nat :: id in required <==> ReachesRoot(graph, id)
  {
    var incoming := CollectIncoming(graph.edges);
    var pending := RootIds(graph);
    required := {};
    SearchStarts(graph, pending);
    while pending != []
      invariant Searching(graph, pending, required)
      decreases Unfound(graph, required), |pending|
    {
      var id, rest := pending[|pending| - 1], pending[..|pending| - 1];
      assert pending == rest + [id];
      FoundBefore(graph, rest, id, required);
      pending := rest;
      if id !in required {
        FindOneMore(graph, rest, id, required, if id in incoming then incoming[id] else []);
        required := required + {id};
        pending := pending + if id in incoming then incoming[id] else [];
      }
    }
    forall id: nat | ReachesRoot(graph, id) ensures id in required { FoundAll(graph, required, id); }
  }
}
