/** Layouts: fixtures and groups of them, which memberships are accepted, and the
    fixtures a group denotes. */
module Layouts {
  import opened Paths

  datatype Kind = Fixture | Group(members: seq<nat>)

  datatype Item = Item(id: nat, kind: Kind)
  {
    function Members(): seq<nat> {
      match kind
      case Fixture => []
      case Group(members) => members
    }
  }

  /** Items in authored order, and the ids at the top level. */
  datatype Layout = Layout(items: seq<Item>, root: seq<nat>)

  datatype LayoutError = MissingFixture(id: nat) | DuplicateMember(id: nat) | Cycle(id: nat) | Unreachable(id: nat)

  datatype Checked = Ok | Err(error: LayoutError)

  type Index = map<nat, Item>

  /** Items by id, the last of several with one id. */
  function IndexOf(items: seq<Item>): Index {
    if items == [] then map[]
    else
      var last := items[|items| - 1];
      IndexOf(items[..|items| - 1])[last.id := last]
  }

  lemma {:induction false} Indexed(items: seq<Item>, id: nat)
    ensures id in IndexOf(items) <==> exists i :: 0 <= i < |items| && items[i].id == id
    ensures id in IndexOf(items) ==> IndexOf(items)[id] in items && IndexOf(items)[id].id == id
  {
    if items != [] {
      var init, last := items[..|items| - 1], items[|items| - 1];
      assert items == init + [last];
      Indexed(init, id);
      if id in IndexOf(init) {
        var i :| 0 <= i < |init| && init[i].id == id;
        assert items[i].id == id;
      }
      if i :| 0 <= i < |items| && items[i].id == id && last.id != id { assert init[i].id == id; }
    }
  }

  /** An edge from each group to each of its members. */
  ghost function MemberGraph(index: Index): Graph {
    set a, b | a in index && b in index[a].Members() :: (a, b)
  }

  // ---------- Member lists ----------

  ghost predicate Distinct(list: seq<nat>) {
    forall i, j :: 0 <= i < j < |list| ==> list[i] != list[j]
  }

  /** The list names existing items, each once. */
  ghost predicate ListFits(list: seq<nat>, index: Index) {
    Distinct(list) && forall i :: 0 <= i < |list| ==> list[i] in index
  }

  ghost predicate ListsFit(layout: Layout, index: Index) {
    ListFits(layout.root, index) && forall i :: 0 <= i < |layout.items| ==> ListFits(layout.items[i].Members(), index)
  }

  /** The list names a missing item, or one item twice. */
  ghost predicate ListBlames(error: LayoutError, list: seq<nat>, index: Index) {
    match error
    case MissingFixture(id) => id in list && id !in index
    case DuplicateMember(id) => exists i, j :: 0 <= i < j < |list| && list[i] == list[j] == id
    case _ => false
  }

  method CheckList(list: seq<nat>, index: Index) returns (r: Checked)
    ensures r == Ok <==> ListFits(list, index)
    ensures r.Err? ==> ListBlames(r.error, list, index)
  {
    var listed: set<nat>, i := {}, 0;
    while i < |list|
      invariant 0 <= i <= |list|
      invariant ListFits(list[..i], index)
      invariant forall x :: x in listed <==> x in list[..i]
    {
      if list[i] !in index {
        return Err(MissingFixture(list[i]));
      }
      if list[i] in listed {
        return Err(DuplicateMember(list[i]));
      }
      listed := listed + {list[i]};
      assert list[..i + 1] == list[..i] + [list[i]];
      i := i + 1;
    }
    assert list[..i] == list;
    r := Ok;
  }

  ghost predicate SomeListBlames(error: LayoutError, layout: Layout, index: Index) {
    || ListBlames(error, layout.root, index)
    || exists i :: 0 <= i < |layout.items| && ListBlames(error, layout.items[i].Members(), index)
  }

  method CheckLists(layout: Layout, index: Index) returns (r: Checked)
    ensures r == Ok <==> ListsFit(layout, index)
    ensures r.Err? ==> SomeListBlames(r.error, layout, index)
  {
    r := CheckList(layout.root, index);
    var i := 0;
    while r == Ok && i < |layout.items|
      invariant 0 <= i <= |layout.items|
      invariant r == Ok ==> ListFits(layout.root, index)
                            && forall k :: 0 <= k < i ==> ListFits(layout.items[k].Members(), index)
      invariant r != Ok ==> !ListsFit(layout, index)
      invariant r.Err? ==> SomeListBlames(r.error, layout, index)
    {
      r := CheckList(layout.items[i].Members(), index);
      i := i + 1;
    }
  }

  // ---------- Depth-first coloring ----------

  datatype Visit = Active | Done

  type State = map<nat, Visit>

  predicate IsDone(state: State, id: nat) { id in state && state[id] == Done }

  predicate IsActive(state: State, id: nat) { id in state && state[id] == Active }

  /** What is done leads only to what is done, and is on no cycle. */
  ghost predicate Settled(g: Graph, state: State) {
    && (forall a: nat, b: nat :: (a, b) in g && IsDone(state, a) ==> IsDone(state, b))
    && forall a: nat :: IsDone(state, a) ==> !StepsTo(g, a, a)
  }

  /** Everything still being visited leads to `id`. */
  ghost predicate ActiveLeadsTo(g: Graph, state: State, id: nat) {
    forall a: nat :: IsActive(state, a) ==> StepsTo(g, a, id)
  }

  /** A visit of `id` took `before` to `after`: it finished what it met and added only
      what `id` reaches. */
  ghost predicate Advances(g: Graph, id: nat, before: State, after: State) {
    && (forall a: nat :: IsActive(after, a) <==> IsActive(before, a))
    && (forall a: nat :: IsDone(before, a) ==> IsDone(after, a))
    && forall a: nat :: a in after ==> a in before || Reaches(g, id, a)
  }

  lemma AdvancesGrows(g: Graph, id: nat, before: State, after: State)
    requires Advances(g, id, before, after)
    ensures before.Keys <= after.Keys
  {
    forall a | a in before ensures a in after { assert IsActive(before, a) || IsDone(before, a); }
  }

  /** Finishing `id` after all its members keeps everything settled. */
  lemma Finish(g: Graph, state: State, id: nat)
    requires Settled(g, state) && !IsDone(state, id)
    requires forall b: nat :: (id, b) in g ==> IsDone(state, b)
    ensures Settled(g, state[id := Done])
  {
    if StepsTo(g, id, id) {
      var c: nat :| (id, c) in g && Reaches(g, c, id);
      var done := set a | a in state && state[a] == Done;
      forall e | e in g && e.0 in done ensures e.1 in done { assert (e.0, e.1) in g && IsDone(state, e.1); }
      assert c in done;
      ClosedKeeps(g, done, c, id);
    }
  }

  lemma Enter(g: Graph, before: State, id: nat)
    requires Settled(g, before) && id !in before
    ensures Settled(g, before[id := Active]) && Advances(g, id, before[id := Active], before[id := Active])
  {
    forall a: nat ensures IsDone(before[id := Active], a) <==> IsDone(before, a) {}
  }

  lemma Leave(g: Graph, before: State, state: State, id: nat)
    requires id !in before && Settled(g, state) && Advances(g, id, before[id := Active], state)
    requires forall b: nat :: (id, b) in g ==> IsDone(state, b)
    ensures Settled(g, state[id := Done]) && Advances(g, id, before, state[id := Done])
  {
    assert IsActive(before[id := Active], id) && IsActive(state, id);
    Finish(g, state, id);
    ReachesSelf(g, id);
    var entered, after := before[id := Active], state[id := Done];
    forall a: nat ensures IsActive(after, a) <==> IsActive(before, a) {
      assert a != id ==> (IsActive(state, a) <==> IsActive(entered, a));
    }
    forall a: nat | IsDone(before, a) ensures IsDone(after, a) { assert IsDone(entered, a); }
  }

  method VisitItem(index: Index, ghost g: Graph, id: nat, before: State) returns (r: Checked, state: State)
    requires g == MemberGraph(index)
    requires Settled(g, before) && ActiveLeadsTo(g, before, id)
    ensures r == Ok ==> Settled(g, state) && Advances(g, id, before, state) && IsDone(state, id)
    ensures r.Err? ==> r.error.Cycle? && StepsTo(g, r.error.id, r.error.id)
    decreases |index.Keys - before.Keys|, 0
  {
    if id in before && before[id] == Done {
      return Ok, before;
    }
    if id in before {
      assert IsActive(before, id);
      return Err(Cycle(id)), before;
    }
    state := before[id := Active];
    Enter(g, before, id);
    if id in index {
      SmallerKeys(index.Keys, before.Keys, id);
      assert state.Keys == before.Keys + {id};
      r, state := VisitMembers(index, g, id, before, state);
      if r != Ok {
        return;
      }
    }
    Leave(g, before, state, id);
    state := state[id := Done];
    r := Ok;
  }

  lemma SmallerKeys(keys: set<nat>, seen: set<nat>, id: nat)
    requires id in keys && id !in seen
    ensures |keys - (seen + {id})| < |keys - seen|
  {
    SmallerSet(keys - (seen + {id}), keys - seen, id);
  }

  /** The first `n` members of `id` are visited, from the state `entered`. */
  ghost predicate MembersVisited(g: Graph, id: nat, entered: State, state: State, members: seq<nat>, n: nat) {
    && n <= |members| && Settled(g, state) && Advances(g, id, entered, state) && entered.Keys <= state.Keys
    && forall k :: 0 <= k < n ==> IsDone(state, members[k])
  }

  lemma VisitOneMore(g: Graph, id: nat, entered: State, previous: State, state: State, members: seq<nat>, n: nat)
    requires MembersVisited(g, id, entered, previous, members, n) && n < |members| && (id, members[n]) in g
    requires Settled(g, state) && Advances(g, members[n], previous, state) && IsDone(state, members[n])
    ensures MembersVisited(g, id, entered, state, members, n + 1)
  {
    AdvancesGrows(g, members[n], previous, state);
    AdvancesThroughMember(g, id, members[n], entered, previous, state);
  }

  /** Visit the members of `id`, which is active now, one after the other. */
  method VisitMembers(index: Index, ghost g: Graph, id: nat, ghost before: State, entered: State)
    returns (r: Checked, state: State)
    requires g == MemberGraph(index) && id in index && id !in before && entered == before[id := Active]
    requires Settled(g, entered) && ActiveLeadsTo(g, before, id)
    ensures r == Ok ==> MembersVisited(g, id, entered, state, index[id].Members(), |index[id].Members()|)
    ensures r.Err? ==> r.error.Cycle? && StepsTo(g, r.error.id, r.error.id)
    decreases |index.Keys - entered.Keys|, 1
  {
    var members, i := index[id].Members(), 0;
    state := entered;
    while i < |members|
      invariant MembersVisited(g, id, entered, state, members, i)
    {
      assert (id, members[i]) in g;
      LeadsToMember(g, state, before, id, members[i]);
      SubsetSize(index.Keys - state.Keys, index.Keys - entered.Keys);
      ghost var previous := state;
      r, state := VisitItem(index, g, members[i], state);
      if r != Ok {
        return;
      }
      VisitOneMore(g, id, entered, previous, state, members, i);
      i := i + 1;
    }
    r := Ok;
  }

  lemma LeadsToMember(g: Graph, state: State, before: State, id: nat, member: nat)
    requires ActiveLeadsTo(g, before, id) && (id, member) in g
    requires Advances(g, id, before[id := Active], state)
    ensures ActiveLeadsTo(g, state, member)
  {
    EdgeReaches(g, id, member);
    forall a: nat | IsActive(state, a) ensures StepsTo(g, a, member) {
      assert IsActive(before[id := Active], a);
      if a != id {
        assert IsActive(before, a);
        StepsToJoin(g, a, id, member);
      }
    }
  }

  lemma AdvancesThroughMember(g: Graph, id: nat, member: nat, entered: State, previous: State, state: State)
    requires (id, member) in g && Advances(g, id, entered, previous) && Advances(g, member, previous, state)
    ensures Advances(g, id, entered, state)
  {
    forall a: nat | a in state && a !in entered ensures Reaches(g, id, a) {
      if a !in previous { ReachesStep(g, id, member, a); }
    }
  }

  // ---------- Membership ----------

  ghost predicate Reachable(layout: Layout, g: Graph, id: nat) {
    exists i :: 0 <= i < |layout.root| && Reaches(g, layout.root[i], id)
  }

  ghost predicate AllReachable(layout: Layout, g: Graph) {
    forall i :: 0 <= i < |layout.items| ==> Reachable(layout, g, layout.items[i].id)
  }

  /** Members name existing items once per list, no group contains itself, and every item
      is reachable from the top level. */
  ghost predicate HasMembership(layout: Layout) {
    var index := IndexOf(layout.items);
    && ListsFit(layout, index)
    && !Cyclic(MemberGraph(index))
    && AllReachable(layout, MemberGraph(index))
  }

  /** The colored items are those reachable from the first `n` top-level ids. */
  ghost predicate ColoredFrom(layout: Layout, g: Graph, state: State, n: nat)
    requires n <= |layout.root|
  {
    && Settled(g, state)
    && (forall a: nat :: a in state ==> IsDone(state, a) && Reachable(layout, g, a))
    && forall i :: 0 <= i < n ==> IsDone(state, layout.root[i])
  }

  method ColorRoot(layout: Layout, index: Index, ghost g: Graph) returns (r: Checked, state: State)
    requires g == MemberGraph(index)
    ensures r == Ok ==> ColoredFrom(layout, g, state, |layout.root|)
    ensures r.Err? ==> r.error.Cycle? && StepsTo(g, r.error.id, r.error.id)
  {
    state := map[];
    var i := 0;
    while i < |layout.root|
      invariant 0 <= i <= |layout.root|
      invariant ColoredFrom(layout, g, state, i)
    {
      ghost var previous := state;
      r, state := VisitItem(index, g, layout.root[i], state);
      if r != Ok {
        return;
      }
      forall a: nat | a in state ensures IsDone(state, a) && Reachable(layout, g, a) {
        assert !IsActive(previous, a) && !IsActive(state, a);
      }
      i := i + 1;
    }
    r := Ok;
  }

  /** What is not colored cannot be reached. */
  lemma UncoloredIsUnreachable(layout: Layout, g: Graph, state: State, id: nat)
    requires ColoredFrom(layout, g, state, |layout.root|) && id !in state
    ensures !Reachable(layout, g, id)
  {
    if Reachable(layout, g, id) {
      var i :| 0 <= i < |layout.root| && Reaches(g, layout.root[i], id);
      var done := set a | a in state && state[a] == Done;
      forall e | e in g && e.0 in done ensures e.1 in done { assert (e.0, e.1) in g && IsDone(state, e.1); }
      assert IsDone(state, layout.root[i]);
      ClosedKeeps(g, done, layout.root[i], id);
    }
  }

  lemma CycleIsIndexed(index: Index, g: Graph)
    requires g == MemberGraph(index) && Cyclic(g)
    ensures exists a: nat :: a in index && StepsTo(g, a, a)
  {
    var a: nat :| StepsTo(g, a, a);
    var c: nat :| (a, c) in g && Reaches(g, c, a);
  }

  lemma AllColoredIsAcyclic(layout: Layout, g: Graph, state: State)
    requires g == MemberGraph(IndexOf(layout.items)) && ColoredFrom(layout, g, state, |layout.root|)
    requires forall i :: 0 <= i < |layout.items| ==> layout.items[i].id in state
    ensures !Cyclic(g) && AllReachable(layout, g)
  {
    forall a | a in IndexOf(layout.items) ensures !StepsTo(g, a, a) {
      Indexed(layout.items, a);
      assert IsDone(state, a);
    }
    if Cyclic(g) { CycleIsIndexed(IndexOf(layout.items), g); }
  }

  /** Every item was colored; the first that was not is unreachable, or on a cycle. */
  method CheckReachable(layout: Layout, index: Index, ghost g: Graph, state: State) returns (r: Checked)
    requires index == IndexOf(layout.items) && g == MemberGraph(index)
    requires ColoredFrom(layout, g, state, |layout.root|)
    ensures r == Ok <==> !Cyclic(g) && AllReachable(layout, g)
    ensures r.Err? ==> if r.error.Cycle? then StepsTo(g, r.error.id, r.error.id)
                       else r.error.Unreachable? && !Reachable(layout, g, r.error.id) && r.error.id in index
  {
    var i := 0;
    while i < |layout.items|
      invariant 0 <= i <= |layout.items|
      invariant forall k :: 0 <= k < i ==> layout.items[k].id in state
    {
      if layout.items[i].id !in state {
        Indexed(layout.items, layout.items[i].id);
        UncoloredIsUnreachable(layout, g, state, layout.items[i].id);
        var unreachable;
        r, unreachable := VisitItem(index, g, layout.items[i].id, map[]);
        if r == Ok {
          r := Err(Unreachable(layout.items[i].id));
        }
        return;
      }
      i := i + 1;
    }
    AllColoredIsAcyclic(layout, g, state);
    r := Ok;
  }

  /** What an error says of the layout is so. */
  ghost predicate Blames(error: LayoutError, layout: Layout) {
    var index := IndexOf(layout.items);
    match error
    case Cycle(id) => StepsTo(MemberGraph(index), id, id)
    case Unreachable(id) => !Reachable(layout, MemberGraph(index), id) && id in index
    case _ => SomeListBlames(error, layout, index)
  }

  /** Accepts exactly the layouts with a membership, and whatever it blames is there. */
  method ValidateMembership(layout: Layout) returns (r: Checked)
    ensures r == Ok <==> HasMembership(layout)
    ensures r.Err? ==> Blames(r.error, layout)
  {
    var index := IndexOf(layout.items);
    ghost var g := MemberGraph(index);
    r := CheckLists(layout, index);
    if r != Ok {
      return;
    }
    var state;
    r, state := ColorRoot(layout, index, g);
    if r != Ok {
      return;
    }
    r := CheckReachable(layout, index, g, state);
  }

  // ---------- The fixtures a group denotes ----------

  /** Each value once, where it first occurs. */
  function FirstOnly(s: seq<nat>): (r: seq<nat>)
    ensures forall x :: x in r <==> x in s
    ensures Distinct(r)
  {
    if s == [] then []
    else
      var init, last := s[..|s| - 1], s[|s| - 1];
      assert s == init + [last];
      if last in FirstOnly(init) then FirstOnly(init) else FirstOnly(init) + [last]
  }

  lemma {:induction false} NothingNew(a: seq<nat>, b: seq<nat>)
    requires forall x :: x in b ==> x in a
    ensures FirstOnly(a + b) == FirstOnly(a)
  {
    if b == [] {
      assert a + b == a;
    } else {
      var init, last := b[..|b| - 1], b[|b| - 1];
      assert b == init + [last];
      assert (a + b)[..|a + b| - 1] == a + init && (a + b)[|a + b| - 1] == last;
      NothingNew(a, init);
    }
  }

  lemma {:induction false} OneNew(a: seq<nat>, x: nat)
    requires x !in a
    ensures FirstOnly(a + [x]) == FirstOnly(a) + [x]
  {
    assert (a + [x])[..|a|] == a;
  }

  /** Every placed fixture below `id`, depth-first in member order, as often as it is
      met. */
  ghost function Expansion(index: Index, g: Graph, id: nat): seq<nat>
    requires g == MemberGraph(index) && !Cyclic(g)
    decreases Ahead(g, id), if id in index then |index[id].Members()| + 1 else 0
  {
    if id !in index then []
    else match index[id].kind
         case Fixture => [id]
         case Group(members) => Expansions(index, g, id, members)
  }

  /** The expansions of some members of `parent`, one after the other. */
  ghost function Expansions(index: Index, g: Graph, parent: nat, members: seq<nat>): seq<nat>
    requires g == MemberGraph(index) && !Cyclic(g) && forall m :: m in members ==> (parent, m) in g
    decreases Ahead(g, parent), |members|
  {
    if members == [] then []
    else
      FewerAhead(g, parent, members[0]);
      Expansion(index, g, members[0]) + Expansions(index, g, parent, members[1..])
  }

  ghost predicate Within(a: seq<nat>, b: seq<nat>) { forall x :: x in a ==> x in b }

  /** What a visit has kept is the first occurrences of what it has expanded, and
      everything seen is expanded or still leads to `id`. */
  ghost predicate Keeping(index: Index, g: Graph, seen: set<nat>, kept: seq<nat>, expanded: seq<nat>, id: nat)
    requires g == MemberGraph(index) && !Cyclic(g)
  {
    && kept == FirstOnly(expanded)
    && (forall x :: x in expanded ==> x in seen)
    && forall s :: s in seen ==> Within(Expansion(index, g, s), expanded) || StepsTo(g, s, id)
  }

  /** A visit took `before` to `after`, all it added expanded. */
  ghost predicate Kept(index: Index, g: Graph, before: set<nat>, after: set<nat>, kept: seq<nat>, expanded: seq<nat>)
    requires g == MemberGraph(index) && !Cyclic(g)
  {
    && kept == FirstOnly(expanded) && before <= after
    && (forall x :: x in expanded ==> x in after)
    && forall s :: s in after && s !in before ==> Within(Expansion(index, g, s), expanded)
  }

  lemma {:induction false} KeepFixture(index: Index, g: Graph, seen: set<nat>, kept: seq<nat>, expanded: seq<nat>,
                                       id: nat)
    requires g == MemberGraph(index) && !Cyclic(g) && Keeping(index, g, seen, kept, expanded, id) && id !in seen
    requires id in index && index[id].kind.Fixture?
    ensures Kept(index, g, seen, seen + {id}, kept + [id], expanded + Expansion(index, g, id))
  {
    OneNew(expanded, id);
  }

  lemma {:induction false} KeepNothing(index: Index, g: Graph, seen: set<nat>, kept: seq<nat>, expanded: seq<nat>,
                                       id: nat)
    requires g == MemberGraph(index) && !Cyclic(g) && Keeping(index, g, seen, kept, expanded, id)
    requires id in seen || id !in index
    ensures Kept(index, g, seen, seen + {id}, kept, expanded + Expansion(index, g, id))
  {
    assert Within(Expansion(index, g, id), expanded);
    NothingNew(expanded, Expansion(index, g, id));
  }

  /** Some of the members of `id`, seen by now, are kept. */
  ghost predicate KeepingMembers(index: Index, g: Graph, id: nat, before: set<nat>, seen: set<nat>, kept: seq<nat>,
                                 expanded: seq<nat>)
    requires g == MemberGraph(index) && !Cyclic(g)
  {
    && kept == FirstOnly(expanded) && before + {id} <= seen
    && (forall x :: x in expanded ==> x in seen)
    && forall s :: s in seen && s != id
        ==> Within(Expansion(index, g, s), expanded)
            || (s in before && StepsTo(g, s, id))
  }

  lemma KeepOneMember(index: Index, g: Graph, id: nat, member: nat, before: set<nat>, seen: set<nat>, kept: seq<nat>,
                      expanded: seq<nat>)
    requires g == MemberGraph(index) && !Cyclic(g) && (id, member) in g
    requires KeepingMembers(index, g, id, before, seen, kept, expanded)
    ensures Keeping(index, g, seen, kept, expanded, member)
  {
    EdgeReaches(g, id, member);
    forall s | s in seen && !Within(Expansion(index, g, s), expanded) ensures StepsTo(g, s, member) {
      if s != id { StepsToJoin(g, s, id, member); }
    }
  }

  lemma KeptOneMember(index: Index, g: Graph, id: nat, before: set<nat>, seen: set<nat>, kept: seq<nat>,
                      expanded: seq<nat>, more: seq<nat>, seen': set<nat>, kept': seq<nat>)
    requires g == MemberGraph(index) && !Cyclic(g)
    requires KeepingMembers(index, g, id, before, seen, kept, expanded)
    requires Kept(index, g, seen, seen', kept', expanded + more)
    ensures KeepingMembers(index, g, id, before, seen', kept', expanded + more)
  {
  }

  lemma {:induction false} ExpansionsStep(index: Index, g: Graph, id: nat, members: seq<nat>, i: nat)
    requires g == MemberGraph(index) && !Cyclic(g) && id in index && members == index[id].Members() && i < |members|
    ensures (id, members[i]) in g && Ahead(g, members[i]) < Ahead(g, id)
    ensures Expansions(index, g, id, members[i..])
         == Expansion(index, g, members[i]) + Expansions(index, g, id, members[i + 1..])
  {
    assert members[i..][1..] == members[i + 1..];
    FewerAhead(g, id, members[i]);
  }

  lemma KeepingStarts(index: Index, g: Graph, id: nat, before: set<nat>, kept: seq<nat>, expanded: seq<nat>)
    requires g == MemberGraph(index) && !Cyclic(g) && Keeping(index, g, before, kept, expanded, id) && id !in before
    ensures KeepingMembers(index, g, id, before, before + {id}, kept, expanded)
  {
  }

  lemma {:induction false} KeepingEnds(index: Index, g: Graph, id: nat, before: set<nat>, seen: set<nat>,
                                       kept: seq<nat>, expanded: seq<nat>, own: seq<nat>)
    requires g == MemberGraph(index) && !Cyclic(g) && id !in before
    requires KeepingMembers(index, g, id, before, seen, kept, expanded + own) && own == Expansion(index, g, id)
    ensures Kept(index, g, before, seen, kept, expanded + own)
  {
    forall s | s in seen && s !in before ensures Within(Expansion(index, g, s), expanded + own) {
      if s == id { assert Within(own, expanded + own); }
    }
  }

  predicate IsFixture(index: Index, id: nat) {
    id in index && index[id].kind.Fixture?
  }

  /** On any layout: what was seen is reached from `root`, the fixtures among it are kept
      once each, and groups seen, those still open apart, have their members seen. */
  ghost predicate Collected(index: Index, g: Graph, root: nat, seen: set<nat>, kept: seq<nat>, open: set<nat>) {
    && (forall x :: x in seen ==> Reaches(g, root, x))
    && Distinct(kept) && (forall x :: x in kept <==> x in seen && IsFixture(index, x))
    && forall a: nat, b: nat :: (a, b) in g && a in seen && a !in open ==> b in seen
  }

  lemma CollectFixture(index: Index, g: Graph, root: nat, seen: set<nat>, kept: seq<nat>, open: set<nat>, id: nat)
    requires g == MemberGraph(index) && Collected(index, g, root, seen, kept, open) && Reaches(g, root, id)
    requires id !in seen && IsFixture(index, id)
    ensures Collected(index, g, root, seen + {id}, kept + [id], open)
  {
    assert forall b: nat :: (id, b) !in g;
  }

  lemma CollectNothing(index: Index, g: Graph, root: nat, seen: set<nat>, kept: seq<nat>, open: set<nat>, id: nat)
    requires g == MemberGraph(index) && Collected(index, g, root, seen, kept, open) && Reaches(g, root, id)
    requires id in seen || id !in index
    ensures Collected(index, g, root, seen + {id}, kept, open)
  {
    if id !in index { assert forall b: nat :: (id, b) !in g; }
  }

  lemma CollectOpens(index: Index, g: Graph, root: nat, seen: set<nat>, kept: seq<nat>, open: set<nat>, id: nat)
    requires g == MemberGraph(index) && Collected(index, g, root, seen, kept, open) && Reaches(g, root, id)
    requires id in index && index[id].kind.Group?
    ensures Collected(index, g, root, seen + {id}, kept, open + {id})
  {
  }

  lemma CollectCloses(index: Index, g: Graph, root: nat, seen: set<nat>, kept: seq<nat>, open: set<nat>, id: nat)
    requires g == MemberGraph(index) && id in index && Collected(index, g, root, seen, kept, open + {id})
    requires forall k :: 0 <= k < |index[id].Members()| ==> index[id].Members()[k] in seen
    ensures Collected(index, g, root, seen, kept, open)
  {
    forall b: nat | (id, b) in g ensures b in seen { assert b in index[id].Members(); }
  }

  /** Keep the fixtures below `id` not seen yet. */
  method KeepItem(index: Index, ghost g: Graph, id: nat, before: set<nat>, kept: seq<nat>, ghost expanded: seq<nat>,
                  ghost root: nat, ghost open: set<nat>)
    returns (seen: set<nat>, members: seq<nat>)
    requires g == MemberGraph(index) && (!Cyclic(g) ==> Keeping(index, g, before, kept, expanded, id))
    requires Collected(index, g, root, before, kept, open) && Reaches(g, root, id)
    ensures before <= seen && id in seen && Collected(index, g, root, seen, members, open)
    ensures !Cyclic(g) ==> Kept(index, g, before, seen, members, expanded + Expansion(index, g, id))
    decreases |index.Keys - before|, 0
  {
    if id in before || id !in index {
      if !Cyclic(g) { KeepNothing(index, g, before, kept, expanded, id); }
      CollectNothing(index, g, root, before, kept, open, id);
      return before + {id}, kept;
    }
    seen, members := before + {id}, kept;
    match index[id].kind {
      case Fixture =>
        if !Cyclic(g) { KeepFixture(index, g, before, kept, expanded, id); }
        CollectFixture(index, g, root, before, kept, open, id);
        members := members + [id];
      case Group(children) =>
        SmallerKeys(index.Keys, before, id);
        CollectOpens(index, g, root, before, kept, open, id);
        seen, members := KeepMembers(index, g, id, before, seen, kept, expanded, root, open);
    }
  }

  /** The members of `id` from `i` on are still to be expanded after `done`. */
  ghost predicate ToExpand(index: Index, g: Graph, id: nat, done: seq<nat>, i: nat)
    requires g == MemberGraph(index) && !Cyclic(g)
  {
    && id in index && i <= |index[id].Members()|
    && done + Expansions(index, g, id, index[id].Members()[i..]) == Expansion(index, g, id)
  }

  lemma ExpandStarts(index: Index, g: Graph, id: nat)
    requires g == MemberGraph(index) && !Cyclic(g) && id in index && index[id].kind.Group?
    ensures ToExpand(index, g, id, [], 0)
  {
    assert index[id].Members()[0..] == index[id].Members();
  }

  lemma {:induction false} ExpandOneMore(index: Index, g: Graph, id: nat, done: seq<nat>, i: nat)
    requires g == MemberGraph(index) && !Cyclic(g) && ToExpand(index, g, id, done, i) && i < |index[id].Members()|
    ensures ToExpand(index, g, id, done + Expansion(index, g, index[id].Members()[i]), i + 1)
  {
    var members := index[id].Members();
    ExpansionsStep(index, g, id, members, i);
    var one, rest := Expansion(index, g, members[i]), Expansions(index, g, id, members[i + 1..]);
    assert done + (one + rest) == (done + one) + rest;
  }

  lemma {:induction false} ExpandEnds(index: Index, g: Graph, id: nat, done: seq<nat>)
    requires g == MemberGraph(index) && !Cyclic(g) && id in index
    requires ToExpand(index, g, id, done, |index[id].Members()|)
    ensures done == Expansion(index, g, id)
  {
    assert index[id].Members()[|index[id].Members()|..] == [];
  }

  /** The members of `id` up to `i` are kept. */
  ghost predicate KeptUpTo(index: Index, g: Graph, id: nat, before: set<nat>, seen: set<nat>, kept: seq<nat>,
                           expanded: seq<nat>, done: seq<nat>, i: nat)
    requires g == MemberGraph(index) && !Cyclic(g)
  {
    ToExpand(index, g, id, done, i) && KeepingMembers(index, g, id, before, seen, kept, expanded + done)
  }

  lemma {:induction false} KeptOneMore(index: Index, g: Graph, id: nat, before: set<nat>, seen: set<nat>,
                                       kept: seq<nat>, expanded: seq<nat>, done: seq<nat>, i: nat, own: seq<nat>,
                                       seen': set<nat>, kept': seq<nat>, done': seq<nat>)
    requires g == MemberGraph(index) && !Cyclic(g)
    requires KeptUpTo(index, g, id, before, seen, kept, expanded, done, i) && i < |index[id].Members()|
    requires own == Expansion(index, g, index[id].Members()[i]) && done' == done + own
    requires Kept(index, g, seen, seen', kept', (expanded + done) + own)
    ensures KeptUpTo(index, g, id, before, seen', kept', expanded, done', i + 1)
  {
    ExpandOneMore(index, g, id, done, i);
    KeptOneMember(index, g, id, before, seen, kept, expanded + done, own, seen', kept');
    assert (expanded + done) + own == expanded + done';
  }

  lemma KeptFromStart(index: Index, g: Graph, id: nat, before: set<nat>, kept: seq<nat>, expanded: seq<nat>)
    requires g == MemberGraph(index) && !Cyclic(g) && Keeping(index, g, before, kept, expanded, id)
    requires id !in before && id in index && index[id].kind.Group?
    ensures KeptUpTo(index, g, id, before, before + {id}, kept, expanded, [], 0)
  {
    ExpandStarts(index, g, id);
    KeepingStarts(index, g, id, before, kept, expanded);
    assert expanded + [] == expanded;
  }

  lemma {:induction false} KeptToEnd(index: Index, g: Graph, id: nat, before: set<nat>, seen: set<nat>, kept: seq<nat>,
                                     expanded: seq<nat>, done: seq<nat>)
    requires g == MemberGraph(index) && !Cyclic(g) && id !in before && id in index
    requires KeptUpTo(index, g, id, before, seen, kept, expanded, done, |index[id].Members()|)
    ensures Kept(index, g, before, seen, kept, expanded + Expansion(index, g, id))
  {
    ExpandEnds(index, g, id, done);
    KeepingEnds(index, g, id, before, seen, kept, expanded, done);
  }

  /** The members of `id` up to `i` are seen, and those found below them collected. */
  ghost predicate CollectedUpTo(index: Index, g: Graph, root: nat, seen: set<nat>, kept: seq<nat>, open: set<nat>,
                                id: nat, i: nat) {
    && Collected(index, g, root, seen, kept, open + {id})
    && id in index && i <= |index[id].Members()| && forall k :: 0 <= k < i ==> index[id].Members()[k] in seen
  }

  /** What the visit of the members of `id` has done up to `i`. */
  ghost predicate VisitedUpTo(index: Index, g: Graph, root: nat, open: set<nat>, id: nat, before: set<nat>,
                              seen: set<nat>, kept: seq<nat>, expanded: seq<nat>, done: seq<nat>, i: nat) {
    && g == MemberGraph(index) && before + {id} <= seen && CollectedUpTo(index, g, root, seen, kept, open, id, i)
    && (!Cyclic(g) ==> KeptUpTo(index, g, id, before, seen, kept, expanded, done, i))
  }

  lemma CollectOneMore(index: Index, g: Graph, root: nat, seen: set<nat>, kept: seq<nat>, open: set<nat>, id: nat,
                       i: nat, seen': set<nat>, kept': seq<nat>)
    requires CollectedUpTo(index, g, root, seen, kept, open, id, i) && i < |index[id].Members()|
    requires Collected(index, g, root, seen', kept', open + {id}) && seen <= seen' && index[id].Members()[i] in seen'
    ensures CollectedUpTo(index, g, root, seen', kept', open, id, i + 1)
  {
  }

  /** Visit one more member of `id`. */
  method KeepChild(index: Index, ghost g: Graph, id: nat, ghost before: set<nat>, seen0: set<nat>, kept: seq<nat>,
                   ghost expanded: seq<nat>, ghost done0: seq<nat>, i: nat, ghost root: nat, ghost open: set<nat>)
    returns (seen: set<nat>, members: seq<nat>, ghost done: seq<nat>)
    requires VisitedUpTo(index, g, root, open, id, before, seen0, kept, expanded, done0, i)
    requires i < |index[id].Members()| && Reaches(g, root, id)
    ensures seen0 <= seen && VisitedUpTo(index, g, root, open, id, before, seen, members, expanded, done, i + 1)
    decreases |index.Keys - seen0|, 1
  {
    var child := index[id].Members()[i];
    MemberReached(index, g, root, id, i);
    if !Cyclic(g) { KeepOneMember(index, g, id, child, before, seen0, kept, expanded + done0); }
    seen, members := KeepItem(index, g, child, seen0, kept, expanded + done0, root, open + {id});
    done := done0;
    CollectOneMore(index, g, root, seen0, kept, open, id, i, seen, members);
    if !Cyclic(g) {
      done := done0 + Expansion(index, g, child);
      KeptOneMore(index, g, id, before, seen0, kept, expanded, done0, i, Expansion(index, g, child), seen, members,
                  done);
    }
  }

  lemma VisitStarts(index: Index, g: Graph, root: nat, open: set<nat>, id: nat, before: set<nat>, kept: seq<nat>,
                    expanded: seq<nat>)
    requires g == MemberGraph(index) && (!Cyclic(g) ==> Keeping(index, g, before, kept, expanded, id))
    requires id !in before && id in index && index[id].kind.Group?
    requires Collected(index, g, root, before + {id}, kept, open + {id})
    ensures VisitedUpTo(index, g, root, open, id, before, before + {id}, kept, expanded, [], 0)
  {
    if !Cyclic(g) { KeptFromStart(index, g, id, before, kept, expanded); }
  }

  lemma {:induction false} VisitEnds(index: Index, g: Graph, root: nat, open: set<nat>, id: nat, before: set<nat>,
                                     seen: set<nat>, kept: seq<nat>, expanded: seq<nat>, done: seq<nat>)
    requires id !in before && id in index
    requires VisitedUpTo(index, g, root, open, id, before, seen, kept, expanded, done, |index[id].Members()|)
    ensures Collected(index, g, root, seen, kept, open)
    ensures !Cyclic(g) ==> Kept(index, g, before, seen, kept, expanded + Expansion(index, g, id))
  {
    if !Cyclic(g) { KeptToEnd(index, g, id, before, seen, kept, expanded, done); }
    CollectCloses(index, g, root, seen, kept, open, id);
  }

  method KeepMembers(index: Index, ghost g: Graph, id: nat, ghost before: set<nat>, entered: set<nat>, kept: seq<nat>,
                     ghost expanded: seq<nat>, ghost root: nat, ghost open: set<nat>)
    returns (seen: set<nat>, members: seq<nat>)
    requires g == MemberGraph(index) && (!Cyclic(g) ==> Keeping(index, g, before, kept, expanded, id))
    requires id !in before && id in index && index[id].kind.Group? && entered == before + {id}
    requires Collected(index, g, root, entered, kept, open + {id}) && Reaches(g, root, id)
    ensures entered <= seen && Collected(index, g, root, seen, members, open)
    ensures !Cyclic(g) ==> Kept(index, g, before, seen, members, expanded + Expansion(index, g, id))
    decreases |index.Keys - entered|, 2
  {
    seen, members := entered, kept;
    var i := 0;
    ghost var done: seq<nat> := [];
    VisitStarts(index, g, root, open, id, before, kept, expanded);
    while i < |index[id].Members()|
      invariant i <= |index[id].Members()| && entered <= seen
      invariant VisitedUpTo(index, g, root, open, id, before, seen, members, expanded, done, i)
    {
      SubsetSize(index.Keys - seen, index.Keys - entered);
      seen, members, done := KeepChild(index, g, id, before, seen, members, expanded, done, i, root, open);
      i := i + 1;
    }
    VisitEnds(index, g, root, open, id, before, seen, members, expanded, done);
  }

  lemma MemberReached(index: Index, g: Graph, root: nat, id: nat, i: nat)
    requires g == MemberGraph(index) && id in index && i < |index[id].Members()| && Reaches(g, root, id)
    ensures Reaches(g, root, index[id].Members()[i])
  {
    assert index[id].Members()[i] in index[id].Members();
    EdgeReaches(g, id, index[id].Members()[i]);
    ReachesJoin(g, root, id, index[id].Members()[i]);
  }

  /** Once no group is open, every fixture reached is kept. */
  lemma CollectedAll(index: Index, g: Graph, root: nat, seen: set<nat>, kept: seq<nat>)
    requires Collected(index, g, root, seen, kept, {}) && root in seen
    ensures Distinct(kept) && forall x :: x in kept <==> IsFixture(index, x) && Reaches(g, root, x)
  {
    forall e | e in g && e.0 in seen ensures e.1 in seen { assert (e.0, e.1) in g; }
    forall x: nat | Reaches(g, root, x) ensures x in seen { ClosedKeeps(g, seen, root, x); }
  }

  /** The placed fixtures `id` denotes: every one reached from it, once, and without cycles in
      depth-first order, each where it first occurs. */
  method Members(layout: Layout, id: nat) returns (members: seq<nat>)
    ensures var index := IndexOf(layout.items);
            Distinct(members) && forall x :: x in members <==> IsFixture(index, x) && Reaches(MemberGraph(index), id, x)
    ensures !Cyclic(MemberGraph(IndexOf(layout.items))) ==>
              members == FirstOnly(Expansion(IndexOf(layout.items), MemberGraph(IndexOf(layout.items)), id))
  {
    var index := IndexOf(layout.items);
    ghost var g := MemberGraph(index);
    var seen;
    ReachesSelf(g, id);
    seen, members := KeepItem(index, g, id, {}, [], [], id, {});
    CollectedAll(index, g, id, seen, members);
    if !Cyclic(g) { assert [] + Expansion(index, g, id) == Expansion(index, g, id); }
  }

  // ---------- Containment ----------

  /** Items by id, the first of several with one id. */
  function FirstIndexOf(items: seq<Item>): Index {
    if items == [] then map[] else FirstIndexOf(items[1..])[items[0].id := items[0]]
  }

  ghost predicate DistinctIds(items: seq<Item>) {
    forall i, j :: 0 <= i < j < |items| ==> items[i].id != items[j].id
  }

  /** Of items with one id the one lookup finds the last, the other the first. */
  lemma {:induction false} LookupsFind(items: seq<Item>, id: nat, i: nat)
    requires i < |items| && items[i].id == id
    ensures (forall k :: i < k < |items| ==> items[k].id != id) ==>
              id in IndexOf(items) && IndexOf(items)[id] == items[i]
    ensures (forall k :: 0 <= k < i ==> items[k].id != id) ==>
              id in FirstIndexOf(items) && FirstIndexOf(items)[id] == items[i]
    decreases |items|
  {
    if i < |items| - 1 { LookupsFind(items[..|items| - 1], id, i); }
    if i > 0 { LookupsFind(items[1..], id, i - 1); }
  }

  lemma {:induction false} FirstIndexed(items: seq<Item>, id: nat)
    ensures id in FirstIndexOf(items) <==> exists i :: 0 <= i < |items| && items[i].id == id
    ensures id in FirstIndexOf(items) ==> FirstIndexOf(items)[id] in items && FirstIndexOf(items)[id].id == id
  {
    if items != [] {
      assert items == [items[0]] + items[1..];
      FirstIndexed(items[1..], id);
      if id in FirstIndexOf(items[1..]) {
        var i :| 0 <= i < |items[1..]| && items[1..][i].id == id;
        assert items[i + 1].id == id;
      }
      if i :| 0 <= i < |items| && items[i].id == id && i > 0 { assert items[1..][i - 1].id == id; }
    }
  }

  /** With distinct ids there is only one item for each. */
  lemma {:induction false} IndexesAgree(items: seq<Item>)
    requires DistinctIds(items)
    ensures FirstIndexOf(items) == IndexOf(items)
  {
    forall id: nat
      ensures id in FirstIndexOf(items) <==> id in IndexOf(items)
      ensures id in FirstIndexOf(items) ==> FirstIndexOf(items)[id] == IndexOf(items)[id]
    {
      FirstIndexed(items, id);
      Indexed(items, id);
    }
  }

  ghost predicate Containing(g: Graph, ancestor: nat, descendant: nat, seen: set<nat>, stack: seq<nat>) {
    && (forall x: nat :: x in seen || x in stack ==> Reaches(g, ancestor, x) && x in Targets(g) + {ancestor})
    && (ancestor in seen || ancestor in stack) && descendant !in seen
    && forall a: nat, b: nat :: (a, b) in g && a in seen ==> b in seen || b in stack
  }

  lemma ContainingSeen(g: Graph, ancestor: nat, descendant: nat, seen: set<nat>, rest: seq<nat>, id: nat)
    requires Containing(g, ancestor, descendant, seen, rest + [id]) && id in seen
    ensures Containing(g, ancestor, descendant, seen, rest)
  {
    assert forall x: nat :: x in rest + [id] <==> x in rest || x == id;
  }

  lemma ContainingMore(g: Graph, ancestor: nat, descendant: nat, seen: set<nat>, rest: seq<nat>, id: nat,
                       members: seq<nat>)
    requires Containing(g, ancestor, descendant, seen, rest + [id]) && id !in seen && id != descendant
    requires forall b: nat :: b in members <==> (id, b) in g
    ensures Containing(g, ancestor, descendant, seen + {id}, rest + members)
    ensures Unseen(g, ancestor, seen + {id}) < Unseen(g, ancestor, seen)
  {
    assert forall x: nat :: x in rest + [id] <==> x in rest || x == id;
    assert forall x: nat :: x in rest + members <==> x in rest || x in members;
    assert id in rest + [id];
    forall b: nat | b in members ensures Reaches(g, ancestor, b) && b in Targets(g) {
      EdgeReaches(g, id, b);
      ReachesJoin(g, ancestor, id, b);
      assert (id, b).1 in Targets(g);
    }
    SmallerKeys(Targets(g) + {ancestor}, seen, id);
  }

  lemma NotContained(g: Graph, ancestor: nat, descendant: nat, seen: set<nat>)
    requires Containing(g, ancestor, descendant, seen, [])
    ensures !Reaches(g, ancestor, descendant)
  {
    if Reaches(g, ancestor, descendant) { ClosedKeeps(g, seen, ancestor, descendant); }
  }

  ghost predicate ListsMembers(index: Index, g: Graph) {
    forall a: nat, b: nat :: (a, b) in g <==> a in index && b in index[a].Members()
  }

  /** How many items may still be seen. */
  ghost function Unseen(g: Graph, ancestor: nat, seen: set<nat>): nat {
    |Targets(g) + {ancestor} - seen|
  }

  /** Note `id`, just taken off the stack, as seen and put its members on. */
  method Push(index: Index, ghost g: Graph, ghost ancestor: nat, ghost descendant: nat, id: nat, seen: set<nat>,
              rest: seq<nat>)
    returns (seen': set<nat>, stack: seq<nat>)
    requires ListsMembers(index, g) && Containing(g, ancestor, descendant, seen, rest + [id]) && id != descendant
    ensures Containing(g, ancestor, descendant, seen', stack)
    ensures if id in seen then seen' == seen
            && stack == rest else Unseen(g, ancestor, seen') < Unseen(g, ancestor, seen)
  {
    if id in seen {
      ContainingSeen(g, ancestor, descendant, seen, rest, id);
      return seen, rest;
    }
    var members := if id in index then index[id].Members() else [];
    ContainingMore(g, ancestor, descendant, seen, rest, id, members);
    return seen + {id}, rest + members;
  }

  lemma ContainingStarts(g: Graph, ancestor: nat, descendant: nat)
    ensures Containing(g, ancestor, descendant, {}, [ancestor])
  {
    ReachesSelf(g, ancestor);
  }

  lemma ContainingFound(g: Graph, ancestor: nat, descendant: nat, seen: set<nat>, rest: seq<nat>)
    requires Containing(g, ancestor, descendant, seen, rest + [descendant])
    ensures Reaches(g, ancestor, descendant)
  {
    assert descendant in rest + [descendant];
  }

  method Search(index: Index, ghost g: Graph, ancestor: nat, descendant: nat) returns (r: bool)
    requires ListsMembers(index, g)
    ensures r <==> Reaches(g, ancestor, descendant)
  {
    var seen: set<nat>, stack := {}, [ancestor];
    ContainingStarts(g, ancestor, descendant);
    while stack != []
      invariant Containing(g, ancestor, descendant, seen, stack)
      decreases Unseen(g, ancestor, seen), |stack|
    {
      var id, rest := stack[|stack| - 1], stack[..|stack| - 1];
      assert stack == rest + [id];
      if id == descendant {
        ContainingFound(g, ancestor, descendant, seen, rest);
        return true;
      }
      seen, stack := Push(index, g, ancestor, descendant, id, seen, rest);
    }
    NotContained(g, ancestor, descendant, seen);
    r := false;
  }

  /** Whether `descendant` is `ancestor` or reachable through its members. */
  method Contains(layout: Layout, ancestor: nat, descendant: nat) returns (r: bool)
    ensures r <==> Reaches(MemberGraph(FirstIndexOf(layout.items)), ancestor, descendant)
  {
    var index := FirstIndexOf(layout.items);
    r := Search(index, MemberGraph(index), ancestor, descendant);
  }
}
