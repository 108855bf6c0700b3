/** Building a layout's groups from an imported profile, whose member lists may name
    nothing, loop, or come to nothing. */
module ImportedGroups {
  import opened Options
  import opened Paths
  import L = Layouts

  datatype ProfileGroup = ProfileGroup(name: string, members: seq<string>)

  /** A resolved entry: a placed fixture by id, or a group by its index in the profile. */
  datatype Member = Fixture(id: nat) | Group(index: nat)

  /** Member lists, one for each profile group. */
  type Lists = seq<seq<Member>>

  // ---------- Resolving names ----------

  /** The index of the group called `name`, the last one's if several are. */
  function GroupIndex(profile: seq<ProfileGroup>, name: string): Option<nat> {
    if profile == [] then None
    else if profile[|profile| - 1].name == name then Some(|profile| - 1)
    else GroupIndex(profile[..|profile| - 1], name)
  }

  /** A fixture of that name, else a group of that name, else nothing. */
  function Resolve(profile: seq<ProfileGroup>, fixtures: map<string, nat>, entry: string): Option<Member> {
    if entry in fixtures then Some(Fixture(fixtures[entry]))
    else
      var group := GroupIndex(profile, entry);
      if group.Some? then Some(Group(group.value)) else None
  }

  /** What an entry resolves to: a fixture placed under the name before any group, and of groups
      with the name the last. */
  lemma {:induction false} ResolveIs(profile: seq<ProfileGroup>, fixtures: map<string, nat>, entry: string)
    ensures forall f: nat :: Resolve(profile, fixtures, entry) == Some(Fixture(f)) <==>
                        entry in fixtures && fixtures[entry] == f
    ensures forall g: nat :: Resolve(profile, fixtures, entry) == Some(Group(g)) <==>
                        && entry !in fixtures && g < |profile| && profile[g].name == entry
                        && forall h :: g < h < |profile| ==> profile[h].name != entry
    ensures Resolve(profile, fixtures, entry).None? <==>
            entry !in fixtures && forall g :: 0 <= g < |profile| ==> profile[g].name != entry
  {
    GroupIndexIs(profile, entry);
  }

  lemma {:induction false} GroupIndexIs(profile: seq<ProfileGroup>, name: string)
    ensures GroupIndex(profile, name).None? <==> forall g :: 0 <= g < |profile| ==> profile[g].name != name
    ensures GroupIndex(profile, name).Some? ==>
              var g := GroupIndex(profile, name).value;
              && g < |profile| && profile[g].name == name
              && forall h :: g < h < |profile| ==> profile[h].name != name
  {
    if profile != [] { GroupIndexIs(profile[..|profile| - 1], name); }
  }

  function ResolveList(profile: seq<ProfileGroup>, fixtures: map<string, nat>, entries: seq<string>): seq<Member> {
    if entries == [] then []
    else
      var member := Resolve(profile, fixtures, entries[0]);
      (if member.Some? then [member.value] else []) + ResolveList(profile, fixtures, entries[1..])
  }

  function ResolveGroups(profile: seq<ProfileGroup>, fixtures: map<string, nat>): (r: Lists)
    ensures |r| == |profile|
  {
    seq(|profile|, i requires 0 <= i < |profile| => ResolveList(profile, fixtures, profile[i].members))
  }

  /** `index` finds each group by its name. */
  ghost predicate FindsGroups(index: map<string, nat>, profile: seq<ProfileGroup>) {
    forall name :: GroupIndex(profile, name) == if name in index then Some(index[name]) else None
  }

  /** Groups by name, a later one in place of an earlier. */
  method IndexGroups(profile: seq<ProfileGroup>) returns (index: map<string, nat>)
    ensures FindsGroups(index, profile)
  {
    index := map[];
    var i := 0;
    while i < |profile|
      invariant 0 <= i <= |profile| && FindsGroups(index, profile[..i])
    {
      assert profile[..i + 1][..i] == profile[..i] && profile[..i + 1][i] == profile[i];
      index := index[profile[i].name := i];
      i := i + 1;
    }
    assert profile[..i] == profile;
  }

  /** The entries of one group, those that name nothing left out. */
  method ResolveEntries(profile: seq<ProfileGroup>, fixtures: map<string, nat>, index: map<string, nat>,
                        entries: seq<string>)
    returns (list: seq<Member>)
    requires FindsGroups(index, profile)
    ensures list == ResolveList(profile, fixtures, entries)
  {
    list := [];
    var i := 0;
    assert entries[0..] == entries;
    while i < |entries|
      invariant 0 <= i <= |entries|
      invariant list + ResolveList(profile, fixtures, entries[i..]) == ResolveList(profile, fixtures, entries)
    {
      var entry := entries[i];
      assert entries[i..][0] == entry && entries[i..][1..] == entries[i + 1..];
      ghost var rest, before := ResolveList(profile, fixtures, entries[i + 1..]), list;
      if entry in fixtures {
        list := list + [Fixture(fixtures[entry])];
      } else if entry in index {
        list := list + [Group(index[entry])];
      }
      ghost var member := Resolve(profile, fixtures, entry);
      assert before + ((if member.Some? then [member.value] else []) + rest) == list + rest;
      i := i + 1;
    }
    assert entries[i..] == [] && list + [] == list;
  }

  method ResolveProfile(profile: seq<ProfileGroup>, fixtures: map<string, nat>) returns (lists: Lists)
    ensures lists == ResolveGroups(profile, fixtures)
  {
    var index := IndexGroups(profile);
    lists := [];
    var i := 0;
    while i < |profile|
      invariant i == |lists| <= |profile|
      invariant forall k :: 0 <= k < i ==> lists[k] == ResolveList(profile, fixtures, profile[k].members)
    {
      var list := ResolveEntries(profile, fixtures, index, profile[i].members);
      lists := lists + [list];
      i := i + 1;
    }
  }

  /** Fixtures named are placed ones; groups named are of this profile. */
  ghost predicate InRange(list: seq<Member>, groups: nat, placed: set<nat>) {
    forall m :: m in list ==> if m.Group? then m.index < groups else m.id in placed
  }

  ghost predicate AllInRange(lists: Lists, placed: set<nat>) {
    forall i :: 0 <= i < |lists| ==> InRange(lists[i], |lists|, placed)
  }

  lemma {:induction false} ResolvedInRange(profile: seq<ProfileGroup>, fixtures: map<string, nat>, entries: seq<string>)
    ensures InRange(ResolveList(profile, fixtures, entries), |profile|, fixtures.Values)
  {
    if entries != [] {
      ResolvedInRange(profile, fixtures, entries[1..]);
      GroupIndexIs(profile, entries[0]);
    }
  }

  // ---------- Breaking loops ----------

  /** An edge from each group to each group it lists. */
  ghost function GroupGraph(lists: Lists): Graph {
    set a, m | 0 <= a < |lists| && m in lists[a] && m.Group? :: (a, m.index)
  }

  lemma GroupEdge(lists: Lists, a: nat, b: nat)
    ensures (a, b) in GroupGraph(lists) <==> a < |lists| && Group(b) in lists[a]
  {
    if a < |lists| && Group(b) in lists[a] { assert (a, Group(b).index) in GroupGraph(lists); }
  }

  /** What was seen since `before`, `open` apart, leads only to what is seen. */
  ghost predicate Explored(g: Graph, before: set<nat>, seen: set<nat>, open: set<nat>) {
    before <= seen && forall a: nat, b: nat :: (a, b) in g && a in seen && a !in before && a !in open ==> b in seen
  }

  ghost function Below(count: nat): (r: set<nat>)
    ensures forall i: nat :: i in r <==> i < count
  {
    if count == 0 then {} else Below(count - 1) + {count - 1}
  }

  /** How many groups may still be seen. */
  ghost function Unseen(count: nat, seen: set<nat>): nat {
    |Below(count) - seen|
  }

  lemma SeesMore(count: nat, seen: set<nat>, i: nat)
    requires i < count && i !in seen
    ensures Unseen(count, seen + {i}) < Unseen(count, seen)
  {
    SmallerSet(Below(count) - (seen + {i}), Below(count) - seen, i);
  }

  lemma SeesNoFewer(count: nat, seen: set<nat>, more: set<nat>)
    requires seen <= more
    ensures Unseen(count, more) <= Unseen(count, seen)
  {
    SubsetSize(Below(count) - more, Below(count) - seen);
  }

  /** Whether following group members from `from` leads to `to`; `seen` are not followed
      again. */
  method FollowTo(lists: Lists, ghost g: Graph, from: nat, to: nat, before: set<nat>) returns (r: bool, seen: set<nat>)
    requires g == GroupGraph(lists) && from < |lists| && to !in before
    requires forall i, m :: 0 <= i < |lists| && m in lists[i] && m.Group? ==> m.index < |lists|
    ensures r ==> Reaches(g, from, to)
    ensures !r ==> from in seen && to !in seen && Explored(g, before, seen, {})
    decreases Unseen(|lists|, before), 0
  {
    if from == to {
      ReachesSelf(g, from);
      return true, before;
    }
    if from in before {
      return false, before;
    }
    SeesMore(|lists|, before, from);
    r, seen := FollowMembers(lists, g, from, to, before, before + {from});
  }

  /** Whether some member of `from`, seen now, leads to `to`. */
  method FollowMembers(lists: Lists, ghost g: Graph, from: nat, to: nat, ghost before: set<nat>, entered: set<nat>)
    returns (r: bool, seen: set<nat>)
    requires g == GroupGraph(lists) && from < |lists| && to !in entered
    requires forall i, m :: 0 <= i < |lists| && m in lists[i] && m.Group? ==> m.index < |lists|
    requires from !in before && entered == before + {from}
    ensures r ==> Reaches(g, from, to)
    ensures !r ==> from in seen && to !in seen && Explored(g, before, seen, {})
    decreases Unseen(|lists|, entered), 1
  {
    seen := entered;
    var i := 0;
    while i < |lists[from]|
      invariant 0 <= i <= |lists[from]| && entered <= seen && to !in seen
      invariant Explored(g, before, seen, {from})
      invariant forall k :: 0 <= k < i && lists[from][k].Group? ==> lists[from][k].index in seen
    {
      var member := lists[from][i];
      if member.Group? {
        GroupEdge(lists, from, member.index);
        SeesNoFewer(|lists|, entered, seen);
        r, seen := FollowTo(lists, g, member.index, to, seen);
        if r {
          ReachesStep(g, from, member.index, to);
          return;
        }
      }
      i := i + 1;
    }
    forall b: nat | (from, b) in g ensures b in seen { GroupEdge(lists, from, b); }
    r := false;
  }

  method LeadsTo(lists: Lists, ghost g: Graph, from: nat, to: nat) returns (r: bool)
    requires g == GroupGraph(lists) && from < |lists|
    requires forall i, m :: 0 <= i < |lists| && m in lists[i] && m.Group? ==> m.index < |lists|
    ensures r <==> Reaches(g, from, to)
  {
    var seen;
    r, seen := FollowTo(lists, g, from, to, {});
    if !r && Reaches(g, from, to) {
      forall e | e in g && e.0 in seen ensures e.1 in seen { assert (e.0, e.1) in g; }
      ClosedKeeps(g, seen, from, to);
    }
  }

  /** `after` is `before` in order, without some groups that lead back to `group`. */
  ghost predicate Dropping(g: Graph, group: nat, before: seq<Member>, after: seq<Member>) {
    if before == [] then after == []
    else
      || (after != [] && after[0] == before[0] && Dropping(g, group, before[1..], after[1..]))
      || (before[0].Group? && Reaches(g, before[0].index, group) && Dropping(g, group, before[1..], after))
  }

  /** A member, unless it is a group that leads back to `group`. */
  ghost function Kept(g: Graph, group: nat, m: Member): seq<Member> {
    if m.Group? && Reaches(g, m.index, group) then [] else [m]
  }

  /** `list` in order, without the groups that lead back to `group`. */
  ghost function Loopless(g: Graph, group: nat, list: seq<Member>): seq<Member> {
    if list == [] then [] else Kept(g, group, list[0]) + Loopless(g, group, list[1..])
  }

  lemma {:induction false} LooplessAppend(g: Graph, group: nat, list: seq<Member>, m: Member)
    ensures Loopless(g, group, list + [m]) == Loopless(g, group, list) + Kept(g, group, m)
  {
    var more := list + [m];
    if list == [] {
      assert more == [m] && more[1..] == [] && Kept(g, group, m) + [] == Kept(g, group, m);
    } else {
      var first, rest := Kept(g, group, list[0]), Loopless(g, group, list[1..]);
      assert more[1..] == list[1..] + [m] && more[0] == list[0];
      LooplessAppend(g, group, list[1..], m);
      assert first + (rest + Kept(g, group, m)) == (first + rest) + Kept(g, group, m);
    }
  }

  lemma {:induction false} LooplessDrops(g: Graph, group: nat, list: seq<Member>)
    ensures Dropping(g, group, list, Loopless(g, group, list))
    ensures forall m :: m in Loopless(g, group, list) && m.Group? ==> !Reaches(g, m.index, group)
  {
    if list != [] {
      LooplessDrops(g, group, list[1..]);
      var rest := Loopless(g, group, list[1..]);
      assert ([list[0]] + rest)[1..] == rest && [] + rest == rest;
    }
  }

  lemma {:induction false} DroppingInMore(g: Graph, h: Graph, group: nat, before: seq<Member>, after: seq<Member>)
    requires g <= h && Dropping(g, group, before, after)
    ensures Dropping(h, group, before, after)
  {
    if before != [] {
      if after != [] && after[0] == before[0] && Dropping(g, group, before[1..], after[1..]) {
        DroppingInMore(g, h, group, before[1..], after[1..]);
      } else {
        MoreEdges(g, h, before[0].index, group);
        DroppingInMore(g, h, group, before[1..], after);
      }
    }
  }

  lemma {:induction false} DroppedWithin(g: Graph, group: nat, before: seq<Member>, after: seq<Member>)
    requires Dropping(g, group, before, after)
    ensures forall m :: m in after ==> m in before
    ensures forall m :: m in before && m.Fixture? ==> m in after
  {
    if before != [] {
      assert before == [before[0]] + before[1..];
      if after != [] && after[0] == before[0] && Dropping(g, group, before[1..], after[1..]) {
        assert after == [after[0]] + after[1..];
        DroppedWithin(g, group, before[1..], after[1..]);
      } else {
        DroppedWithin(g, group, before[1..], after);
      }
    }
  }

  /** Where nothing leads back to the group, nothing is dropped. */
  lemma {:induction false} NothingDropped(g: Graph, group: nat, before: seq<Member>, after: seq<Member>)
    requires Dropping(g, group, before, after)
    requires forall m :: m in before && m.Group? ==> !Reaches(g, m.index, group)
    ensures after == before
  {
    if before != [] {
      assert before[0] in before && before == [before[0]] + before[1..];
      NothingDropped(g, group, before[1..], after[1..]);
      assert after == [after[0]] + after[1..];
    }
  }

  /** Keep the members of `group` that do not lead back to it. */
  method KeepLoopless(lists: Lists, ghost g: Graph, group: nat, taken: seq<Member>) returns (kept: seq<Member>)
    requires g == GroupGraph(lists)
    requires forall i, m :: 0 <= i < |lists| && m in lists[i] && m.Group? ==> m.index < |lists|
    requires forall m :: m in taken && m.Group? ==> m.index < |lists|
    ensures kept == Loopless(g, group, taken)
  {
    kept := [];
    var i := 0;
    while i < |taken|
      invariant 0 <= i <= |taken| && kept == Loopless(g, group, taken[..i])
    {
      var member, loops := taken[i], false;
      assert taken[..i + 1] == taken[..i] + [member] && member in taken;
      if member.Group? {
        loops := LeadsTo(lists, g, member.index, group);
      }
      LooplessAppend(g, group, taken[..i], member);
      if !loops {
        kept := kept + [member];
      }
      i := i + 1;
    }
    assert taken[..i] == taken;
  }

  /** Lists with some members left out make a smaller graph. */
  lemma SmallerGraph(lists: Lists, more: Lists)
    requires |lists| <= |more| && forall i, m :: 0 <= i < |lists| && m in lists[i] ==> m in more[i]
    ensures GroupGraph(lists) <= GroupGraph(more)
  {
    forall e | e in GroupGraph(lists) ensures e in GroupGraph(more) {
      GroupEdge(lists, e.0, e.1);
      GroupEdge(more, e.0, e.1);
    }
  }

  /** Putting back the list of group `i`, without what leads back to it, closes no cycle
      among the groups up to it. */
  lemma OneMoreLoopless(emptied: Lists, i: nat, kept: seq<Member>)
    requires i < |emptied| && emptied[i] == [] && !Cyclic(GroupGraph(emptied[..i]))
    requires forall m :: m in kept && m.Group? ==> !Reaches(GroupGraph(emptied), m.index, i)
    ensures !Cyclic(GroupGraph(emptied[i := kept][..i + 1]))
  {
    var before, after := emptied[..i], emptied[i := kept][..i + 1];
    var g, h := GroupGraph(before), GroupGraph(after);
    SmallerGraph(before, emptied);
    SmallerGraph(before, after);
    forall e | e in h && e.0 != i ensures e in g {
      GroupEdge(after, e.0, e.1);
      GroupEdge(before, e.0, e.1);
    }
    forall t: nat | (i, t) in h ensures !Reaches(g, t, i) {
      GroupEdge(after, i, t);
      if Reaches(g, t, i) { MoreEdges(g, GroupGraph(emptied), t, i); }
    }
    AddedCloseNoCycle(g, h, i);
  }

  /** Loops are broken in the first `n` groups; the others are as they were. */
  ghost predicate BrokenUpTo(before: Lists, lists: Lists, n: nat) {
    && |lists| == |before| && n <= |lists| && !Cyclic(GroupGraph(lists[..n]))
    && (forall i: nat :: i < n ==> Dropping(GroupGraph(before), i, before[i], lists[i]))
    && forall i: nat :: n <= i < |lists| ==> lists[i] == before[i]
  }

  lemma BrokenWithin(before: Lists, lists: Lists, n: nat)
    requires BrokenUpTo(before, lists, n)
    ensures forall i, m :: 0 <= i < |lists| && m in lists[i] ==> m in before[i]
  {
    forall i: nat | i < n ensures forall m :: m in lists[i] ==> m in before[i] {
      DroppedWithin(GroupGraph(before), i, before[i], lists[i]);
    }
  }

  lemma {:induction false} BreakOneMore(before: Lists, lists: Lists, n: nat, kept: seq<Member>)
    requires BrokenUpTo(before, lists, n) && n < |lists|
    requires kept == Loopless(GroupGraph(lists[n := []]), n, lists[n])
    ensures BrokenUpTo(before, lists[n := kept], n + 1)
  {
    LooplessDrops(GroupGraph(lists[n := []]), n, lists[n]);
    BrokenWithin(before, lists, n);
    SmallerGraph(lists[n := []], before);
    DroppingInMore(GroupGraph(lists[n := []]), GroupGraph(before), n, lists[n], kept);
    assert lists[n := []][..n] == lists[..n] && lists[n := []][n := kept] == lists[n := kept];
    OneMoreLoopless(lists[n := []], n, kept);
  }

  /** The lists after the first `n` groups, one by one, lost the members that lead back to
      them through the lists as they then are. */
  ghost function Broken(before: Lists, n: nat): (lists: Lists)
    requires n <= |before|
    ensures |lists| == |before|
  {
    if n == 0 then before
    else
      var lists := Broken(before, n - 1);
      lists[n - 1 := Loopless(GroupGraph(lists[n - 1 := []]), n - 1, lists[n - 1])]
  }

  /** What is left is acyclic, and everything left out did lead back in the lists as they
      came. */
  lemma {:induction false} BrokenIsLoopless(before: Lists, n: nat)
    requires n <= |before|
    ensures BrokenUpTo(before, Broken(before, n), n)
  {
    if n == 0 {
      assert GroupGraph([]) == {} && before[..0] == [];
      EmptyIsAcyclic();
    } else {
      BrokenIsLoopless(before, n - 1);
      var lists := Broken(before, n - 1);
      BreakOneMore(before, lists, n - 1, Loopless(GroupGraph(lists[n - 1 := []]), n - 1, lists[n - 1]));
    }
  }

  /** Leave out, group by group, members that would put a group inside itself. */
  method BreakLoops(members: array<seq<Member>>)
    requires forall i, m :: 0 <= i < members.Length && m in members[i] && m.Group? ==> m.index < members.Length
    modifies members
    ensures members[..] == Broken(old(members[..]), members.Length)
  {
    ghost var before := members[..];
    var group := 0;
    while group < members.Length
      invariant 0 <= group <= members.Length && members[..] == Broken(before, group)
    {
      ghost var lists := members[..];
      BrokenIsLoopless(before, group);
      BrokenWithin(before, lists, group);
      var taken := members[group];
      members[group] := [];
      assert members[..] == lists[group := []];
      var kept := KeepLoopless(members[..], GroupGraph(members[..]), group, taken);
      members[group] := kept;
      assert members[..] == lists[group := kept];
      group := group + 1;
    }
  }

  lemma EmptyIsAcyclic()
    ensures !Cyclic({})
  {
  }

  /** Lists without a loop stay as they are. */
  lemma {:induction false} LooplessUnchanged(before: Lists)
    requires !Cyclic(GroupGraph(before))
    ensures Broken(before, |before|) == before
  {
    var lists := Broken(before, |before|);
    BrokenIsLoopless(before, |before|);
    forall i: nat | i < |lists| ensures lists[i] == before[i] {
      forall m | m in before[i] && m.Group? ensures !Reaches(GroupGraph(before), m.index, i) {
        GroupEdge(before, i, m.index);
        if Reaches(GroupGraph(before), m.index, i) { assert StepsTo(GroupGraph(before), i, i); }
      }
      NothingDropped(GroupGraph(before), i, before[i], lists[i]);
    }
  }

  // ---------- Groups that come to nothing ----------

  ghost predicate ListsFixture(list: seq<Member>) {
    exists m :: m in list && m.Fixture?
  }

  /** Some group reached from `group` lists a fixture. */
  ghost predicate ReachesFixture(lists: Lists, group: nat) {
    exists h: nat :: h < |lists| && Reaches(GroupGraph(lists), group, h) && ListsFixture(lists[h])
  }

  predicate AllEmpty(list: seq<Member>, empty: seq<bool>) {
    forall m :: m in list ==> m.Group? && m.index < |empty| && empty[m.index]
  }

  /** Groups marked empty list only groups marked empty. */
  ghost predicate EmptySound(lists: Lists, empty: seq<bool>) {
    |empty| == |lists| && forall i :: 0 <= i < |empty| && empty[i] ==> AllEmpty(lists[i], empty)
  }

  /** Among the first `n`, groups that list only groups marked empty are marked. */
  ghost predicate EmptyComplete(lists: Lists, empty: seq<bool>, n: nat) {
    n <= |empty| == |lists| && forall i :: 0 <= i < n && AllEmpty(lists[i], empty) ==> empty[i]
  }

  lemma MarkEmpty(lists: Lists, empty: seq<bool>, i: nat)
    requires EmptySound(lists, empty) && i < |empty| && AllEmpty(lists[i], empty)
    ensures EmptySound(lists, empty[i := true])
  {
    forall k | 0 <= k < |empty| && empty[i := true][k] ensures AllEmpty(lists[k], empty[i := true]) {
      assert AllEmpty(lists[k], empty);
    }
  }

  function Unmarked(empty: seq<bool>): nat {
    if empty == [] then 0 else (if empty[0] then 0 else 1) + Unmarked(empty[1..])
  }

  lemma {:induction false} MarkOne(empty: seq<bool>, i: nat)
    requires i < |empty| && !empty[i]
    ensures Unmarked(empty[i := true]) < Unmarked(empty)
  {
    if i > 0 {
      assert empty[i := true][1..] == empty[1..][i - 1 := true];
      MarkOne(empty[1..], i - 1);
    } else {
      assert empty[i := true][1..] == empty[1..];
    }
  }

  /** One pass over the groups, marking those that list only groups marked already. */
  method MarkPass(members: array<seq<Member>>, empty: array<bool>) returns (changed: bool)
    requires EmptySound(members[..], empty[..])
    modifies empty
    ensures EmptySound(members[..], empty[..])
    ensures if changed then Unmarked(empty[..]) < Unmarked(old(empty[..])) else empty[..] == old(empty[..])
    ensures !changed ==> EmptyComplete(members[..], empty[..], members.Length)
  {
    changed := false;
    var group := 0;
    while group < members.Length
      invariant 0 <= group <= members.Length == empty.Length
      invariant EmptySound(members[..], empty[..])
      invariant if changed then Unmarked(empty[..]) < Unmarked(old(empty[..])) else empty[..] == old(empty[..])
      invariant !changed ==> EmptyComplete(members[..], empty[..], group)
    {
      if !empty[group] && AllEmpty(members[group], empty[..]) {
        MarkEmpty(members[..], empty[..], group);
        MarkOne(empty[..], group);
        ghost var marked := empty[..][group := true];
        empty[group] := true;
        assert empty[..] == marked;
        changed := true;
      }
      group := group + 1;
    }
  }

  /** Mark groups until a pass marks nothing more. */
  method FindEmpty(members: array<seq<Member>>) returns (empty: array<bool>)
    ensures fresh(empty)
    ensures EmptySound(members[..], empty[..]) && EmptyComplete(members[..], empty[..], members.Length)
  {
    empty := new bool[members.Length](_ => false);
    var changed := true;
    while changed
      invariant EmptySound(members[..], empty[..]) && fresh(empty)
      invariant !changed ==> EmptyComplete(members[..], empty[..], members.Length)
      decreases Unmarked(empty[..]), changed
    {
      changed := MarkPass(members, empty);
    }
  }

  lemma EmptyReachesNothing(lists: Lists, empty: seq<bool>, group: nat)
    requires EmptySound(lists, empty) && group < |empty| && empty[group]
    ensures !ReachesFixture(lists, group)
  {
    var marked, g := (set i: nat | i < |empty| && empty[i]), GroupGraph(lists);
    forall h: nat | h in marked ensures !ListsFixture(lists[h]) { assert AllEmpty(lists[h], empty); }
    if ReachesFixture(lists, group) {
      var h: nat :| h < |lists| && Reaches(g, group, h) && ListsFixture(lists[h]);
      forall e | e in g && e.0 in marked ensures e.1 in marked {
        GroupEdge(lists, e.0, e.1);
        assert AllEmpty(lists[e.0], empty);
      }
      ClosedKeeps(g, marked, group, h);
    }
  }

  lemma ReachesOn(lists: Lists, a: nat, b: nat)
    requires (a, b) in GroupGraph(lists) && ReachesFixture(lists, b)
    ensures ReachesFixture(lists, a)
  {
    var h: nat :| h < |lists| && Reaches(GroupGraph(lists), b, h) && ListsFixture(lists[h]);
    ReachesStep(GroupGraph(lists), a, b, h);
  }

  /** An unmarked group that reaches no fixture lists another one. */
  lemma NextFixtureless(lists: Lists, empty: seq<bool>, placed: set<nat>, stuck: set<nat>, a: nat)
    requires EmptyComplete(lists, empty, |lists|) && AllInRange(lists, placed)
    requires stuck == (set i: nat | i < |lists| && !empty[i] && !ReachesFixture(lists, i)) && a in stuck
    ensures HasNext(GroupGraph(lists), stuck, a)
  {
    assert !AllEmpty(lists[a], empty) && InRange(lists[a], |lists|, placed);
    var m :| m in lists[a] && !(m.Group? && m.index < |empty| && empty[m.index]);
    if m.Fixture? {
      ReachesSelf(GroupGraph(lists), a);
      assert ListsFixture(lists[a]);
    } else {
      GroupEdge(lists, a, m.index);
      if ReachesFixture(lists, m.index) { ReachesOn(lists, a, m.index); }
      assert m.index in stuck;
    }
  }

  /** Without loops, a group is left unmarked exactly when it reaches a fixture. */
  lemma SurvivesIffReachesFixture(lists: Lists, empty: seq<bool>, placed: set<nat>, group: nat)
    requires EmptySound(lists, empty) && EmptyComplete(lists, empty, |lists|) && AllInRange(lists, placed)
    requires !Cyclic(GroupGraph(lists)) && group < |lists|
    ensures !empty[group] <==> ReachesFixture(lists, group)
  {
    if empty[group] {
      EmptyReachesNothing(lists, empty, group);
    } else if !ReachesFixture(lists, group) {
      var stuck := set i: nat | i < |lists| && !empty[i] && !ReachesFixture(lists, i);
      assert group in stuck;
      forall a | a in stuck ensures HasNext(GroupGraph(lists), stuck, a) {
        NextFixtureless(lists, empty, placed, stuck, a);
      }
      SuccessorsMakeCycle(GroupGraph(lists), stuck);
    }
  }

  // ---------- The layout's groups and top level ----------

  /** Ids for the surviving groups, in order after the fixtures'. */
  function NewIds(empty: seq<bool>, fixtures: nat): map<nat, nat> {
    if empty == [] then map[]
    else
      var last := |empty| - 1;
      var ids := NewIds(empty[..last], fixtures);
      if empty[last] then ids else ids[last := fixtures + |ids| + 1]
  }

  lemma {:induction false} NewIdsKeys(empty: seq<bool>, fixtures: nat, g: nat)
    ensures g in NewIds(empty, fixtures) <==> g < |empty| && !empty[g]
    ensures g in NewIds(empty, fixtures)
            ==> fixtures < NewIds(empty, fixtures)[g] <= fixtures + |NewIds(empty, fixtures)|
  {
    if empty != [] {
      var last := |empty| - 1;
      NewIdsKeys(empty[..last], fixtures, g);
      NewIdsKeys(empty[..last], fixtures, last);
    }
  }

  lemma {:induction false} NewIdsAscend(empty: seq<bool>, fixtures: nat, g: nat, h: nat)
    requires g in NewIds(empty, fixtures) && h in NewIds(empty, fixtures) && g < h
    ensures NewIds(empty, fixtures)[g] < NewIds(empty, fixtures)[h]
  {
    var last := |empty| - 1;
    NewIdsKeys(empty, fixtures, h);
    NewIdsKeys(empty[..last], fixtures, g);
    if h != last { NewIdsAscend(empty[..last], fixtures, g, h); }
  }

  lemma {:induction false} NewIdsAre(empty: seq<bool>, fixtures: nat)
    ensures forall g: nat :: g in NewIds(empty, fixtures) <==> g < |empty| && !empty[g]
    ensures AreIds(NewIds(empty, fixtures), |empty|, fixtures)
  {
    forall g: nat
      ensures g in NewIds(empty, fixtures) <==> g < |empty| && !empty[g]
      ensures g in NewIds(empty, fixtures) ==> fixtures < NewIds(empty, fixtures)[g]
    {
      NewIdsKeys(empty, fixtures, g);
    }
    forall g, h | g in NewIds(empty, fixtures) && h in NewIds(empty, fixtures) && g < h
      ensures NewIds(empty, fixtures)[g] < NewIds(empty, fixtures)[h]
    {
      NewIdsAscend(empty, fixtures, g, h);
    }
  }

  lemma {:induction false} NewIdsStep(empty: seq<bool>, fixtures: nat, n: nat)
    requires n < |empty|
    ensures NewIds(empty[..n + 1], fixtures)
         == if empty[n] then NewIds(empty[..n], fixtures)
            else NewIds(empty[..n], fixtures)[n := fixtures + |NewIds(empty[..n], fixtures)| + 1]
  {
    assert empty[..n + 1][..n] == empty[..n];
  }

  /** A surviving group's list, without the groups left out. */
  function ListOf(list: seq<Member>, ids: map<nat, nat>): seq<nat> {
    if list == [] then []
    else
      var m := list[0];
      (if m.Fixture? then [m.id] else if m.index in ids then [ids[m.index]] else []) + ListOf(list[1..], ids)
  }

  /** Surviving group `g` as a layout item. */
  function ItemOf(lists: Lists, ids: map<nat, nat>, g: nat): L.Item
    requires g in ids && g < |lists|
  {
    L.Item(ids[g], L.Group(ListOf(lists[g], ids)))
  }

  /** The surviving groups among the first `n`, as layout items. */
  function ItemsOf(lists: Lists, ids: map<nat, nat>, n: nat): seq<L.Item>
    requires n <= |lists|
  {
    if n == 0 then []
    else
      ItemsOf(lists, ids, n - 1)
      + if n - 1 in ids then [ItemOf(lists, ids, n - 1)] else []
  }

  predicate Listed(items: seq<L.Item>, id: nat) {
    exists i :: 0 <= i < |items| && id in items[i].Members()
  }

  predicate HasItem(items: seq<L.Item>, id: nat) {
    exists i :: 0 <= i < |items| && items[i].id == id
  }

  /** The groups no group lists. */
  function TopGroups(items: seq<L.Item>, all: seq<L.Item>): seq<nat> {
    if items == [] then []
    else (if Listed(all, items[0].id) then [] else [items[0].id]) + TopGroups(items[1..], all)
  }

  /** The fixtures no group lists, as the name table gives them. */
  function LooseFixtures(fixtures: seq<nat>, all: seq<L.Item>): seq<nat> {
    if fixtures == [] then []
    else (if Listed(all, fixtures[0]) then [] else [fixtures[0]]) + LooseFixtures(fixtures[1..], all)
  }

  function InsertId(id: nat, sorted: seq<nat>): seq<nat> {
    if sorted == [] || id <= sorted[0] then [id] + sorted else [sorted[0]] + InsertId(id, sorted[1..])
  }

  function SortIds(ids: seq<nat>): seq<nat> {
    if ids == [] then [] else InsertId(ids[0], SortIds(ids[1..]))
  }

  function Root(items: seq<L.Item>, fixtures: seq<nat>): seq<nat> {
    TopGroups(items, items) + SortIds(LooseFixtures(fixtures, items))
  }

  lemma {:induction false} ListOfHas(list: seq<Member>, ids: map<nat, nat>, x: nat)
    ensures x in ListOf(list, ids) <==>
            Fixture(x) in list || exists g: nat :: Group(g) in list && g in ids && ids[g] == x
  {
    if list != [] {
      assert list == [list[0]] + list[1..];
      ListOfHas(list[1..], ids, x);
      if g: nat :| Group(g) in list[1..] && g in ids && ids[g] == x { assert Group(g) in list; }
      if g: nat :| Group(g) in list && g in ids && ids[g] == x && Group(g) != list[0] { assert Group(g) in list[1..]; }
    }
  }

  ghost predicate IsItem(lists: Lists, ids: map<nat, nat>, n: nat, item: L.Item) {
    exists g: nat :: g < n && g in ids && g < |lists| && item == ItemOf(lists, ids, g)
  }

  /** The items are the surviving groups with their ids and lists, in ascending order. */
  lemma {:induction false} ItemsAre(lists: Lists, ids: map<nat, nat>, n: nat)
    requires n <= |lists| && (forall g, h :: g in ids && h in ids && g < h ==> ids[g] < ids[h])
    ensures forall item :: item in ItemsOf(lists, ids, n) <==> IsItem(lists, ids, n, item)
    ensures forall i, j :: 0 <= i < j < |ItemsOf(lists, ids, n)|
              ==> ItemsOf(lists, ids, n)[i].id < ItemsOf(lists, ids, n)[j].id
  {
    if n > 0 {
      var init := ItemsOf(lists, ids, n - 1);
      ItemsAre(lists, ids, n - 1);
      if n - 1 in ids {
        forall i | 0 <= i < |init| ensures init[i].id < ids[n - 1] {
          assert init[i] in init && IsItem(lists, ids, n - 1, init[i]);
        }
      }
      forall item ensures IsItem(lists, ids, n, item)
                       <==> IsItem(lists, ids, n - 1, item) || (n - 1 in ids && item == ItemOf(lists, ids, n - 1))
      {
      }
    }
  }

  lemma HasItemCons(first: L.Item, rest: seq<L.Item>, x: nat)
    ensures HasItem([first] + rest, x) <==> first.id == x || HasItem(rest, x)
  {
    var items := [first] + rest;
    assert items[0].id == first.id;
    if HasItem(rest, x) {
      var i :| 0 <= i < |rest| && rest[i].id == x;
      assert items[i + 1].id == x;
    }
    if HasItem(items, x) && first.id != x {
      var i :| 0 <= i < |items| && items[i].id == x;
      assert rest[i - 1].id == x;
    }
  }

  lemma {:induction false} TopGroupsHas(items: seq<L.Item>, all: seq<L.Item>, x: nat)
    ensures x in TopGroups(items, all) <==> !Listed(all, x) && HasItem(items, x)
  {
    if items != [] {
      assert items == [items[0]] + items[1..];
      TopGroupsHas(items[1..], all, x);
      HasItemCons(items[0], items[1..], x);
    }
  }

  lemma {:induction false} TopGroupsDistinct(items: seq<L.Item>, all: seq<L.Item>)
    requires forall i, j :: 0 <= i < j < |items| ==> items[i].id < items[j].id
    ensures L.Distinct(TopGroups(items, all))
  {
    if items != [] {
      TopGroupsDistinct(items[1..], all);
      TopGroupsHas(items[1..], all, items[0].id);
    }
  }

  lemma {:induction false} LooseAre(fixtures: seq<nat>, all: seq<L.Item>)
    requires L.Distinct(fixtures)
    ensures forall x :: x in LooseFixtures(fixtures, all) <==> x in fixtures && !Listed(all, x)
    ensures L.Distinct(LooseFixtures(fixtures, all))
  {
    if fixtures != [] {
      assert fixtures == [fixtures[0]] + fixtures[1..];
      LooseAre(fixtures[1..], all);
    }
  }

  predicate Ascending(s: seq<nat>) {
    |s| < 2 || (s[0] < s[1] && Ascending(s[1..]))
  }

  lemma {:induction false} InsertedId(id: nat, sorted: seq<nat>)
    requires Ascending(sorted) && id !in sorted
    ensures Ascending(InsertId(id, sorted))
    ensures forall x :: x in InsertId(id, sorted) <==> x == id || x in sorted
  {
    if sorted == [] || id <= sorted[0] {
      assert ([id] + sorted)[1..] == sorted;
    } else {
      var first, rest := sorted[0], sorted[1..];
      assert sorted == [first] + rest;
      InsertedId(id, rest);
      assert ([first] + InsertId(id, rest))[1..] == InsertId(id, rest);
    }
  }

  lemma {:induction false} SortedIds(ids: seq<nat>)
    requires L.Distinct(ids)
    ensures Ascending(SortIds(ids)) && forall x :: x in SortIds(ids) <==> x in ids
  {
    if ids != [] {
      assert ids == [ids[0]] + ids[1..];
      SortedIds(ids[1..]);
      InsertedId(ids[0], SortIds(ids[1..]));
    }
  }

  lemma {:induction false} AscendingIsDistinct(s: seq<nat>)
    requires Ascending(s)
    ensures L.Distinct(s) && forall i :: 0 < i < |s| ==> s[0] < s[i]
  {
    if |s| > 1 { AscendingIsDistinct(s[1..]); }
  }

  // ---------- The imported layout ----------

  /** A placed fixture for each id from 1 to `count`. */
  function PlacedItems(count: nat): (r: seq<L.Item>)
    ensures |r| == count && forall i :: 0 <= i < count ==> r[i] == L.Item(i + 1, L.Kind.Fixture)
  {
    if count == 0 then [] else PlacedItems(count - 1) + [L.Item(count, L.Kind.Fixture)]
  }

  /** Ids of the surviving groups, ascending and after the fixtures'. */
  ghost predicate AreIds(ids: map<nat, nat>, groups: nat, count: nat) {
    && (forall g :: g in ids ==> g < groups && count < ids[g])
    && forall g, h :: g in ids && h in ids && g < h ==> ids[g] < ids[h]
  }

  ghost predicate HasId(ids: map<nat, nat>, id: nat) {
    exists g :: g in ids && ids[g] == id
  }

  ghost function ImportedIndex(lists: Lists, ids: map<nat, nat>, count: nat): L.Index {
    L.IndexOf(PlacedItems(count) + ItemsOf(lists, ids, |lists|))
  }

  lemma {:induction false} IndexedOnly(lists: Lists, ids: map<nat, nat>, count: nat, id: nat)
    requires AreIds(ids, |lists|, count) && id in ImportedIndex(lists, ids, count)
    ensures var item := ImportedIndex(lists, ids, count)[id];
            && item.id == id && if id <= count then 1 <= id
                && item == L.Item(id, L.Kind.Fixture) else IsItem(lists, ids, |lists|, item)
  {
    var items := ItemsOf(lists, ids, |lists|);
    ItemsAre(lists, ids, |lists|);
    L.Indexed(PlacedItems(count) + items, id);
    var item := ImportedIndex(lists, ids, count)[id];
    assert item in PlacedItems(count) || item in items;
  }

  lemma IndexedFixture(lists: Lists, ids: map<nat, nat>, count: nat, id: nat)
    requires AreIds(ids, |lists|, count) && 1 <= id <= count
    ensures id in ImportedIndex(lists, ids, count)
    ensures ImportedIndex(lists, ids, count)[id] == L.Item(id, L.Kind.Fixture)
  {
    var all := PlacedItems(count) + ItemsOf(lists, ids, |lists|);
    assert all[id - 1].id == id;
    L.Indexed(all, id);
    IndexedOnly(lists, ids, count, id);
  }

  lemma IndexedGroup(lists: Lists, ids: map<nat, nat>, count: nat, g: nat)
    requires AreIds(ids, |lists|, count) && g in ids
    ensures ids[g] in ImportedIndex(lists, ids, count)
    ensures ImportedIndex(lists, ids, count)[ids[g]] == ItemOf(lists, ids, g)
  {
    var items := ItemsOf(lists, ids, |lists|);
    ItemsAre(lists, ids, |lists|);
    assert IsItem(lists, ids, |lists|, ItemOf(lists, ids, g));
    var i :| 0 <= i < |items| && items[i] == ItemOf(lists, ids, g);
    assert (PlacedItems(count) + items)[count + i].id == ids[g];
    L.Indexed(PlacedItems(count) + items, ids[g]);
    IndexedOnly(lists, ids, count, ids[g]);
    var h: nat :| h in ids && h < |lists| && ImportedIndex(lists, ids, count)[ids[g]] == ItemOf(lists, ids, h);
  }

  // ---------- Its membership ----------

  /** A group's members in the layout: fixtures placed, groups kept. */
  lemma {:induction false} MemberOfItem(lists: Lists, ids: map<nat, nat>, count: nat, placed: set<nat>, g: nat, x: nat)
    requires AreIds(ids, |lists|, count) && AllInRange(lists, placed) && g in ids && x in ListOf(lists[g], ids)
    requires forall f :: f in placed ==> 1 <= f <= count
    ensures x in ImportedIndex(lists, ids, count)
    ensures if x <= count then Fixture(x) in lists[g] else
            exists h :: h in ids && ids[h] == x
              && (g, h) in GroupGraph(lists)
  {
    ListOfHas(lists[g], ids, x);
    assert InRange(lists[g], |lists|, placed);
    if Fixture(x) in lists[g] {
      IndexedFixture(lists, ids, count, x);
    } else {
      var h: nat :| Group(h) in lists[g] && h in ids && ids[h] == x;
      IndexedGroup(lists, ids, count, h);
      GroupEdge(lists, g, h);
    }
  }

  /** Depth in the layout: fixtures lowest, each group above its members. */
  ghost function Depths(lists: Lists, ids: map<nat, nat>, count: nat): map<nat, nat>
    requires AreIds(ids, |lists|, count)
  {
    map id | id in ImportedIndex(lists, ids, count) :: DepthOf(lists, ids, id)
  }

  ghost function DepthOf(lists: Lists, ids: map<nat, nat>, id: nat): nat {
    if exists g :: g in ids && ids[g] == id then
      var g :| g in ids && ids[g] == id;
      Ahead(GroupGraph(lists), g) + 1
    else 0
  }

  lemma GroupDepth(lists: Lists, ids: map<nat, nat>, count: nat, g: nat)
    requires AreIds(ids, |lists|, count) && g in ids
    ensures DepthOf(lists, ids, ids[g]) == Ahead(GroupGraph(lists), g) + 1
  {
    var h :| h in ids && ids[h] == ids[g];
    forall h | h in ids && ids[h] == ids[g] ensures h == g {}
  }

  lemma {:induction false} MembersAreLower(lists: Lists, ids: map<nat, nat>, count: nat, placed: set<nat>, g: nat,
                                           x: nat)
    requires AreIds(ids, |lists|, count) && AllInRange(lists, placed) && g in ids && x in ListOf(lists[g], ids)
    requires (forall f :: f in placed ==> 1 <= f <= count) && !Cyclic(GroupGraph(lists))
    ensures DepthOf(lists, ids, x) < DepthOf(lists, ids, ids[g])
  {
    MemberOfItem(lists, ids, count, placed, g, x);
    GroupDepth(lists, ids, count, g);
    if x > count {
      var h :| h in ids && ids[h] == x && (g, h) in GroupGraph(lists);
      GroupDepth(lists, ids, count, h);
      FewerAhead(GroupGraph(lists), g, h);
    }
  }

  lemma {:induction false} MemberEdge(lists: Lists, ids: map<nat, nat>, count: nat, a: nat, b: nat)
    requires AreIds(ids, |lists|, count)
    ensures (a, b) in L.MemberGraph(ImportedIndex(lists, ids, count)) <==>
            exists g :: g in ids && ids[g] == a && b in ListOf(lists[g], ids)
  {
    var index := ImportedIndex(lists, ids, count);
    if (a, b) in L.MemberGraph(index) {
      IndexedOnly(lists, ids, count, a);
      var g: nat :| g in ids && g < |lists| && index[a] == ItemOf(lists, ids, g);
    }
    if g :| g in ids && ids[g] == a && b in ListOf(lists[g], ids) { IndexedGroup(lists, ids, count, g); }
  }

  /** The imported groups have no cycle. */
  lemma ImportedIsAcyclic(lists: Lists, ids: map<nat, nat>, count: nat, placed: set<nat>)
    requires AreIds(ids, |lists|, count) && AllInRange(lists, placed) && !Cyclic(GroupGraph(lists))
    requires forall f :: f in placed ==> 1 <= f <= count
    ensures !Cyclic(L.MemberGraph(ImportedIndex(lists, ids, count)))
  {
    var g, depths := L.MemberGraph(ImportedIndex(lists, ids, count)), Depths(lists, ids, count);
    forall e | e in g ensures e.0 in depths && e.1 in depths && depths[e.1] < depths[e.0] {
      MemberEdge(lists, ids, count, e.0, e.1);
      var group :| group in ids && ids[group] == e.0 && e.1 in ListOf(lists[group], ids);
      IndexedGroup(lists, ids, count, group);
      MemberOfItem(lists, ids, count, placed, group, e.1);
      MembersAreLower(lists, ids, count, placed, group, e.1);
    }
    FallingIsAcyclic(g, depths);
  }

  lemma {:induction false} ListedIff(lists: Lists, ids: map<nat, nat>, count: nat, x: nat)
    requires AreIds(ids, |lists|, count)
    ensures Listed(ItemsOf(lists, ids, |lists|), x) <==> exists g :: g in ids && x in ListOf(lists[g], ids)
  {
    var items := ItemsOf(lists, ids, |lists|);
    ItemsAre(lists, ids, |lists|);
    if Listed(items, x) {
      var i :| 0 <= i < |items| && x in items[i].Members();
      assert items[i] in items && IsItem(lists, ids, |lists|, items[i]);
      var g: nat :| g in ids && g < |lists| && items[i] == ItemOf(lists, ids, g);
    }
    if g :| g in ids && x in ListOf(lists[g], ids) {
      assert IsItem(lists, ids, |lists|, ItemOf(lists, ids, g));
      var i :| 0 <= i < |items| && items[i] == ItemOf(lists, ids, g);
    }
  }

  /** The top level: what no kept group lists, once each. */
  lemma {:induction false} RootIs(lists: Lists, ids: map<nat, nat>, count: nat, fixtures: seq<nat>)
    requires AreIds(ids, |lists|, count) && L.Distinct(fixtures) && forall f :: f in fixtures ==> f <= count
    ensures var items, root := ItemsOf(lists, ids, |lists|), Root(ItemsOf(lists, ids, |lists|), fixtures);
            && (forall x :: x in root <==> !Listed(items, x) && (x in fixtures || HasId(ids, x)))
            && L.Distinct(root)
  {
    var items := ItemsOf(lists, ids, |lists|);
    var groups, loose := TopGroups(items, items), LooseFixtures(fixtures, items);
    ItemsAre(lists, ids, |lists|);
    TopGroupsDistinct(items, items);
    forall x: nat ensures x in groups <==> !Listed(items, x) && HasItem(items, x) { TopGroupsHas(items, items, x); }
    LooseAre(fixtures, items);
    SortedIds(loose);
    AscendingIsDistinct(SortIds(loose));
    forall x: nat ensures HasItem(items, x) <==> HasId(ids, x) { ItemIds(lists, ids, count, x); }
    DistinctJoin(groups, SortIds(loose), count);
  }

  lemma {:induction false} ItemIds(lists: Lists, ids: map<nat, nat>, count: nat, x: nat)
    requires AreIds(ids, |lists|, count)
    ensures HasItem(ItemsOf(lists, ids, |lists|), x) <==> HasId(ids, x)
  {
    var items := ItemsOf(lists, ids, |lists|);
    ItemsAre(lists, ids, |lists|);
    if HasItem(items, x) {
      var i :| 0 <= i < |items| && items[i].id == x;
      assert items[i] in items && IsItem(lists, ids, |lists|, items[i]);
    }
    if HasId(ids, x) {
      var g :| g in ids && ids[g] == x;
      assert IsItem(lists, ids, |lists|, ItemOf(lists, ids, g));
      var i :| 0 <= i < |items| && items[i] == ItemOf(lists, ids, g);
    }
  }

  lemma DistinctJoin(a: seq<nat>, b: seq<nat>, bound: nat)
    requires L.Distinct(a) && L.Distinct(b) && (forall x :: x in a ==> bound < x) && forall x :: x in b ==> x <= bound
    ensures L.Distinct(a + b)
  {
    forall i, j | 0 <= i < |a| && |a| <= j < |a + b| ensures (a + b)[i] != (a + b)[j] {
      assert a[i] in a && b[j - |a|] in b;
    }
  }

  lemma RootReaches(layout: L.Layout, g: Graph, x: nat)
    requires x in layout.root
    ensures L.Reachable(layout, g, x)
  {
    var i :| 0 <= i < |layout.root| && layout.root[i] == x;
    ReachesSelf(g, x);
  }

  lemma ReachableOn(layout: L.Layout, g: Graph, a: nat, b: nat)
    requires L.Reachable(layout, g, a) && (a, b) in g
    ensures L.Reachable(layout, g, b)
  {
    var i :| 0 <= i < |layout.root| && Reaches(g, layout.root[i], a);
    EdgeReaches(g, a, b);
    ReachesJoin(g, layout.root[i], a, b);
  }

  /** Everything a reachable kept group lists is reachable. */
  lemma {:induction false} ListedReachable(lists: Lists, ids: map<nat, nat>, count: nat, layout: L.Layout, g: nat,
                                           x: nat)
    requires AreIds(ids, |lists|, count) && g in ids && x in ListOf(lists[g], ids)
    requires L.Reachable(layout, L.MemberGraph(ImportedIndex(lists, ids, count)), ids[g])
    ensures L.Reachable(layout, L.MemberGraph(ImportedIndex(lists, ids, count)), x)
  {
    MemberEdge(lists, ids, count, ids[g], x);
    ReachableOn(layout, L.MemberGraph(ImportedIndex(lists, ids, count)), ids[g], x);
  }

  /** The groups kept, the fixtures named, and the layout made of them. */
  ghost predicate IsImported(lists: Lists, ids: map<nat, nat>, count: nat, fixtures: seq<nat>, layout: L.Layout) {
    && AreIds(ids, |lists|, count) && AllInRange(lists, (set f | f in fixtures)) && !Cyclic(GroupGraph(lists))
    && L.Distinct(fixtures) && (forall f: nat :: f in fixtures ==> 1 <= f <= count)
    && layout == L.Layout(PlacedItems(count) + ItemsOf(lists, ids, |lists|),
                          Root(ItemsOf(lists, ids, |lists|), fixtures))
  }

  ghost function Unreached(lists: Lists, ids: map<nat, nat>, count: nat, layout: L.Layout): set<nat> {
    set h | h in ids && !L.Reachable(layout, L.MemberGraph(ImportedIndex(lists, ids, count)), ids[h])
  }

  lemma {:induction false} UnlistedIsRoot(lists: Lists, ids: map<nat, nat>, count: nat, fixtures: seq<nat>, g: nat)
    requires AreIds(ids, |lists|, count) && g in ids && !Listed(ItemsOf(lists, ids, |lists|), ids[g])
    ensures ids[g] in Root(ItemsOf(lists, ids, |lists|), fixtures)
  {
    assert HasId(ids, ids[g]);
    ItemIds(lists, ids, count, ids[g]);
    TopGroupsHas(ItemsOf(lists, ids, |lists|), ItemsOf(lists, ids, |lists|), ids[g]);
  }

  lemma {:induction false} ListedIsEdge(lists: Lists, ids: map<nat, nat>, count: nat, placed: set<nat>, h: nat, g: nat)
    requires AreIds(ids, |lists|, count) && AllInRange(lists, placed) && h in ids && g in ids
             && ids[g] in ListOf(lists[h], ids)
    requires forall f :: f in placed ==> 1 <= f <= count
    ensures (h, g) in GroupGraph(lists)
  {
    MemberOfItem(lists, ids, count, placed, h, ids[g]);
    var k :| k in ids && ids[k] == ids[g] && (h, k) in GroupGraph(lists);
    assert k == g;
  }

  /** A kept group not at the top level is listed by another one. */
  lemma NestedHasParent(lists: Lists, ids: map<nat, nat>, count: nat, fixtures: seq<nat>, layout: L.Layout, g: nat)
    returns (h: nat)
    requires IsImported(lists, ids, count, fixtures, layout) && g in ids && ids[g] !in layout.root
    ensures h in ids && ids[g] in ListOf(lists[h], ids) && (h, g) in GroupGraph(lists)
  {
    assert Listed(ItemsOf(lists, ids, |lists|), ids[g]) by {
      if !Listed(ItemsOf(lists, ids, |lists|), ids[g]) { UnlistedIsRoot(lists, ids, count, fixtures, g); }
    }
    ListedIff(lists, ids, count, ids[g]);
    h :| h in ids && ids[g] in ListOf(lists[h], ids);
    ListedIsEdge(lists, ids, count, (set f | f in fixtures), h, g);
  }

  lemma UnreachedHasPrevious(lists: Lists, ids: map<nat, nat>, count: nat, fixtures: seq<nat>, layout: L.Layout,
                             stuck: set<nat>, g: nat)
    requires IsImported(lists, ids, count, fixtures, layout) && stuck == Unreached(lists, ids, count, layout)
             && g in stuck
    ensures HasPrevious(GroupGraph(lists), stuck, g)
  {
    if ids[g] in layout.root { RootReaches(layout, L.MemberGraph(ImportedIndex(lists, ids, count)), ids[g]); }
    var h := NestedHasParent(lists, ids, count, fixtures, layout, g);
    if h !in stuck { ListedReachable(lists, ids, count, layout, h, ids[g]); }
  }

  /** Every kept group is reachable from the top level. */
  lemma GroupsReachable(lists: Lists, ids: map<nat, nat>, count: nat, fixtures: seq<nat>, layout: L.Layout)
    requires IsImported(lists, ids, count, fixtures, layout)
    ensures forall g :: g in ids ==> L.Reachable(layout, L.MemberGraph(ImportedIndex(lists, ids, count)), ids[g])
  {
    var stuck := Unreached(lists, ids, count, layout);
    if stuck != {} {
      forall g | g in stuck ensures HasPrevious(GroupGraph(lists), stuck, g) {
        UnreachedHasPrevious(lists, ids, count, fixtures, layout, stuck, g);
      }
      PredecessorsMakeCycle(GroupGraph(lists), stuck);
    }
    forall g | g in ids ensures L.Reachable(layout, L.MemberGraph(ImportedIndex(lists, ids, count)), ids[g]) {
      assert g !in stuck;
    }
  }

  /** So is every placed fixture with a name. */
  lemma FixtureReachable(lists: Lists, ids: map<nat, nat>, count: nat, fixtures: seq<nat>, layout: L.Layout, f: nat)
    requires IsImported(lists, ids, count, fixtures, layout) && f in fixtures
    ensures L.Reachable(layout, L.MemberGraph(ImportedIndex(lists, ids, count)), f)
  {
    RootIs(lists, ids, count, fixtures);
    ListedIff(lists, ids, count, f);
    if Listed(ItemsOf(lists, ids, |lists|), f) {
      var g :| g in ids && f in ListOf(lists[g], ids);
      GroupsReachable(lists, ids, count, fixtures, layout);
      ListedReachable(lists, ids, count, layout, g, f);
    } else {
      RootReaches(layout, L.MemberGraph(ImportedIndex(lists, ids, count)), f);
    }
  }

  /** One without a name is not: nothing lists it. */
  lemma UnnamedIsUnreachable(lists: Lists, ids: map<nat, nat>, count: nat, fixtures: seq<nat>, layout: L.Layout, f: nat)
    requires IsImported(lists, ids, count, fixtures, layout) && f <= count && f !in fixtures
    ensures !L.Reachable(layout, L.MemberGraph(ImportedIndex(lists, ids, count)), f)
  {
    var g := L.MemberGraph(ImportedIndex(lists, ids, count));
    RootIs(lists, ids, count, fixtures);
    forall e | e in g ensures e.1 != f {
      MemberEdge(lists, ids, count, e.0, e.1);
      var h :| h in ids && ids[h] == e.0 && e.1 in ListOf(lists[h], ids);
      ListOfHas(lists[h], ids, e.1);
      assert InRange(lists[h], |lists|, (set f | f in fixtures));
    }
    if L.Reachable(layout, g, f) {
      var i :| 0 <= i < |layout.root| && Reaches(g, layout.root[i], f);
      assert layout.root[i] in layout.root;
      ClosedKeeps(g, ({layout.root[i]} + Targets(g)) - {f}, layout.root[i], f);
    }
  }

  /** Every placed fixture is named. */
  ghost predicate AllNamed(fixtures: seq<nat>, count: nat) {
    forall f: nat :: 1 <= f <= count ==> f in fixtures
  }

  lemma AllReachableIff(lists: Lists, ids: map<nat, nat>, count: nat, fixtures: seq<nat>, layout: L.Layout)
    requires IsImported(lists, ids, count, fixtures, layout)
    ensures L.AllReachable(layout, L.MemberGraph(ImportedIndex(lists, ids, count))) <==> AllNamed(fixtures, count)
  {
    var g := L.MemberGraph(ImportedIndex(lists, ids, count));
    if AllNamed(fixtures, count) {
      GroupsReachable(lists, ids, count, fixtures, layout);
      ItemsAre(lists, ids, |lists|);
      forall i | 0 <= i < |layout.items| ensures L.Reachable(layout, g, layout.items[i].id) {
        if i < count {
          FixtureReachable(lists, ids, count, fixtures, layout, i + 1);
        } else {
          assert layout.items[i] in ItemsOf(lists, ids, |lists|);
          assert IsItem(lists, ids, |lists|, layout.items[i]);
        }
      }
    } else {
      var f: nat :| 1 <= f <= count && f !in fixtures;
      UnnamedIsUnreachable(lists, ids, count, fixtures, layout, f);
      assert layout.items[f - 1].id == f;
    }
  }

  /** No kept group's list repeats a member. */
  ghost predicate NoRepeats(lists: Lists, ids: map<nat, nat>)
    requires forall g :: g in ids ==> g < |lists|
  {
    forall g :: g in ids ==> L.Distinct(ListOf(lists[g], ids))
  }

  lemma RootFits(lists: Lists, ids: map<nat, nat>, count: nat, fixtures: seq<nat>, layout: L.Layout)
    requires IsImported(lists, ids, count, fixtures, layout)
    ensures L.ListFits(layout.root, ImportedIndex(lists, ids, count))
  {
    RootIs(lists, ids, count, fixtures);
    forall i | 0 <= i < |layout.root| ensures layout.root[i] in ImportedIndex(lists, ids, count) {
      var x := layout.root[i];
      assert x in layout.root;
      if x in fixtures {
        IndexedFixture(lists, ids, count, x);
      } else {
        var g :| g in ids && ids[g] == x;
        IndexedGroup(lists, ids, count, g);
      }
    }
  }

  lemma {:induction false} GroupFitsIff(lists: Lists, ids: map<nat, nat>, count: nat, fixtures: seq<nat>,
                                        layout: L.Layout, g: nat)
    requires IsImported(lists, ids, count, fixtures, layout) && g in ids
    ensures L.ListFits(ListOf(lists[g], ids), ImportedIndex(lists, ids, count)) <==> L.Distinct(ListOf(lists[g], ids))
  {
    forall i | 0 <= i < |ListOf(lists[g], ids)| ensures ListOf(lists[g], ids)[i] in ImportedIndex(lists, ids, count) {
      MemberOfItem(lists, ids, count, (set f | f in fixtures), g, ListOf(lists[g], ids)[i]);
    }
  }

  lemma GroupHasItem(lists: Lists, ids: map<nat, nat>, count: nat, fixtures: seq<nat>, layout: L.Layout, g: nat)
    requires IsImported(lists, ids, count, fixtures, layout) && g in ids
    ensures ItemOf(lists, ids, g) in layout.items
  {
    ItemsAre(lists, ids, |lists|);
    assert IsItem(lists, ids, |lists|, ItemOf(lists, ids, g));
  }

  lemma ItemFits(lists: Lists, ids: map<nat, nat>, count: nat, fixtures: seq<nat>, layout: L.Layout, item: L.Item)
    requires IsImported(lists, ids, count, fixtures, layout) && item in layout.items && NoRepeats(lists, ids)
    ensures L.ListFits(item.Members(), ImportedIndex(lists, ids, count))
  {
    ItemsAre(lists, ids, |lists|);
    if item in ItemsOf(lists, ids, |lists|) {
      assert IsItem(lists, ids, |lists|, item);
      var g: nat :| g in ids && item == ItemOf(lists, ids, g);
      GroupFitsIff(lists, ids, count, fixtures, layout, g);
    }
  }

  lemma ListsFitIff(lists: Lists, ids: map<nat, nat>, count: nat, fixtures: seq<nat>, layout: L.Layout)
    requires IsImported(lists, ids, count, fixtures, layout)
    ensures L.ListsFit(layout, ImportedIndex(lists, ids, count)) <==> NoRepeats(lists, ids)
  {
    var index := ImportedIndex(lists, ids, count);
    RootFits(lists, ids, count, fixtures, layout);
    if NoRepeats(lists, ids) {
      forall i | 0 <= i < |layout.items| ensures L.ListFits(layout.items[i].Members(), index) {
        ItemFits(lists, ids, count, fixtures, layout, layout.items[i]);
      }
    }
    if L.ListsFit(layout, index) {
      forall g | g in ids ensures L.Distinct(ListOf(lists[g], ids)) {
        GroupHasItem(lists, ids, count, fixtures, layout, g);
        var i :| 0 <= i < |layout.items| && layout.items[i] == ItemOf(lists, ids, g);
        GroupFitsIff(lists, ids, count, fixtures, layout, g);
      }
    }
  }

  /** What the importer builds from any member lists is a layout the membership check
      accepts exactly when every fixture is named and no kept list repeats a member. */
  lemma ImportHasMembership(lists: Lists, ids: map<nat, nat>, count: nat, fixtures: seq<nat>, layout: L.Layout)
    requires IsImported(lists, ids, count, fixtures, layout)
    ensures L.HasMembership(layout) <==> AllNamed(fixtures, count) && NoRepeats(lists, ids)
  {
    ListsFitIff(lists, ids, count, fixtures, layout);
    ImportedIsAcyclic(lists, ids, count, (set f | f in fixtures));
    AllReachableIff(lists, ids, count, fixtures, layout);
  }

  // ---------- The importer ----------

  /** Ids for the groups not left out, counting up. */
  method AssignIds(empty: array<bool>, count: nat) returns (ids: map<nat, nat>)
    ensures ids == NewIds(empty[..], count)
  {
    ids := map[];
    var group := 0;
    while group < empty.Length
      invariant 0 <= group <= empty.Length && ids == NewIds(empty[..group], count)
    {
      NewIdsStep(empty[..], count, group);
      assert empty[..group] == empty[..][..group] && empty[..group + 1] == empty[..][..group + 1];
      if !empty[group] {
        ids := ids[group := count + |ids| + 1];
      }
      group := group + 1;
    }
    assert empty[..group] == empty[..];
  }

  lemma {:induction false} ListOfAppend(list: seq<Member>, m: Member, ids: map<nat, nat>)
    ensures ListOf(list + [m], ids)
         == ListOf(list, ids) + if m.Fixture? then [m.id] else if m.index in ids then [ids[m.index]] else []
  {
    if list == [] {
      assert [m][1..] == [] && list + [m] == [m];
    } else {
      var first := list[0];
      var head := if first.Fixture? then [first.id] else if first.index in ids then [ids[first.index]] else [];
      var tail := if m.Fixture? then [m.id] else if m.index in ids then [ids[m.index]] else [];
      assert (list + [m])[1..] == list[1..] + [m] && (list + [m])[0] == first;
      ListOfAppend(list[1..], m, ids);
      assert head + (ListOf(list[1..], ids) + tail) == (head + ListOf(list[1..], ids)) + tail;
    }
  }

  /** A group's list in the layout; notes the fixtures and the groups it holds. */
  method CollectList(list: seq<Member>, ids: map<nat, nat>, grouped0: set<nat>, nested0: set<nat>)
    returns (r: seq<nat>, grouped: set<nat>, nested: set<nat>)
    ensures r == ListOf(list, ids)
    ensures grouped == grouped0 + set m | m in list && m.Fixture? :: m.id
    ensures nested == nested0 + set m | m in list && m.Group? && m.index in ids :: ids[m.index]
  {
    r, grouped, nested := [], grouped0, nested0;
    var i := 0;
    while i < |list|
      invariant 0 <= i <= |list| && r == ListOf(list[..i], ids)
      invariant grouped == grouped0 + set m | m in list[..i] && m.Fixture? :: m.id
      invariant nested == nested0 + set m | m in list[..i] && m.Group? && m.index in ids :: ids[m.index]
    {
      var m := list[i];
      assert list[..i + 1] == list[..i] + [m];
      ListOfAppend(list[..i], m, ids);
      match m {
        case Fixture(id) =>
          grouped, r := grouped + {id}, r + [id];
        case Group(index) =>
          if index in ids {
            nested, r := nested + {ids[index]}, r + [ids[index]];
          }
      }
      i := i + 1;
    }
    assert list[..i] == list;
  }

  /** The fixtures and the groups that kept groups among the first `n` list. */
  ghost predicate Noted(lists: Lists, ids: map<nat, nat>, n: nat, grouped: set<nat>, nested: set<nat>) {
    && n <= |lists|
    && (forall x: nat :: x in grouped <==> exists g: nat :: g < n && g in ids && Fixture(x) in lists[g])
    && forall x: nat :: x in nested <==>
        exists g: nat, h: nat :: g < n && g in ids && Group(h) in lists[g]
          && h in ids && ids[h] == x
  }

  method CollectItems(lists: Lists, ids: map<nat, nat>)
    returns (items: seq<L.Item>, grouped: set<nat>, nested: set<nat>)
    ensures items == ItemsOf(lists, ids, |lists|) && Noted(lists, ids, |lists|, grouped, nested)
  {
    items, grouped, nested := [], {}, {};
    var group := 0;
    while group < |lists|
      invariant 0 <= group <= |lists| && items == ItemsOf(lists, ids, group)
      invariant Noted(lists, ids, group, grouped, nested)
    {
      if group in ids {
        var list;
        ghost var grouped0, nested0 := grouped, nested;
        list, grouped, nested := CollectList(lists[group], ids, grouped, nested);
        NoteOneMore(lists, ids, group, grouped0, nested0, grouped, nested);
        items := items + [L.Item(ids[group], L.Group(list))];
      }
      group := group + 1;
    }
  }

  lemma NoteOneMore(lists: Lists, ids: map<nat, nat>, n: nat, grouped0: set<nat>, nested0: set<nat>, grouped: set<nat>,
                    nested: set<nat>)
    requires n < |lists| && n in ids && Noted(lists, ids, n, grouped0, nested0)
    requires grouped == grouped0 + set m | m in lists[n] && m.Fixture? :: m.id
    requires nested == nested0 + set m | m in lists[n] && m.Group? && m.index in ids :: ids[m.index]
    ensures Noted(lists, ids, n + 1, grouped, nested)
  {
    forall x: nat ensures x in grouped <==> exists g: nat :: g < n + 1 && g in ids && Fixture(x) in lists[g] {
      if x in grouped && x !in grouped0 { assert Fixture(x) in lists[n]; }
      if x in grouped0 {
        var g: nat :| g < n && g in ids && Fixture(x) in lists[g];
      }
      if g: nat :| g < n + 1 && g in ids && Fixture(x) in lists[g] {
        if g == n { assert Fixture(x).id in grouped; }
      }
    }
    forall x: nat
      ensures x in nested <==>
              exists g: nat, h: nat :: g < n + 1 && g in ids && Group(h) in lists[g] && h in ids
                && ids[h] == x
    {
      if x in nested && x !in nested0 {
        var m :| m in lists[n] && m.Group? && m.index in ids && ids[m.index] == x;
        assert Group(m.index) in lists[n];
      }
      if x in nested0 {
        var g: nat, h: nat :| g < n && g in ids && Group(h) in lists[g] && h in ids && ids[h] == x;
      }
      if g: nat, h: nat :| g < n + 1 && g in ids && Group(h) in lists[g] && h in ids && ids[h] == x {
        if g == n { assert ids[Group(h).index] in nested; }
      }
    }
  }

  /** What is noted is what is listed. */
  lemma {:induction false} NotedIsListed(lists: Lists, ids: map<nat, nat>, count: nat, placed: set<nat>,
                                         grouped: set<nat>, nested: set<nat>, x: nat)
    requires AreIds(ids, |lists|, count) && AllInRange(lists, placed) && Noted(lists, ids, |lists|, grouped, nested)
    requires forall f :: f in placed ==> f <= count
    ensures Listed(ItemsOf(lists, ids, |lists|), x) <==> if x <= count then x in grouped else x in nested
  {
    ListedIff(lists, ids, count, x);
    if g :| g in ids && x in ListOf(lists[g], ids) { ListOfHas(lists[g], ids, x); }
    if x in grouped {
      var g: nat :| g < |lists| && g in ids && Fixture(x) in lists[g];
      ListOfHas(lists[g], ids, x);
      assert InRange(lists[g], |lists|, placed);
    }
    if x in nested {
      var g: nat, h: nat :| g < |lists| && g in ids && Group(h) in lists[g] && h in ids && ids[h] == x;
      ListOfHas(lists[g], ids, x);
    }
    forall g: nat | g < |lists| && Fixture(x) in lists[g]
      ensures x <= count { assert InRange(lists[g], |lists|, placed); }
  }

  /** The groups not nested, then the fixtures not grouped, sorted. */
  method TopLevel(items: seq<L.Item>, named: seq<nat>, grouped: set<nat>, nested: set<nat>) returns (root: seq<nat>)
    requires forall i :: 0 <= i < |items| ==> (Listed(items, items[i].id) <==> items[i].id in nested)
    requires forall f :: f in named ==> (Listed(items, f) <==> f in grouped)
    ensures root == Root(items, named)
  {
    root := [];
    var i := |items|;
    while i > 0
      invariant 0 <= i <= |items| && root == TopGroups(items[i..], items)
    {
      i := i - 1;
      assert items[i..][1..] == items[i + 1..];
      root := (if items[i].id in nested then [] else [items[i].id]) + root;
    }
    assert items[0..] == items;
    var loose, k := [], |named|;
    while k > 0
      invariant 0 <= k <= |named| && loose == LooseFixtures(named[k..], items)
    {
      k := k - 1;
      assert named[k] in named && named[k..][1..] == named[k + 1..];
      loose := (if named[k] in grouped then [] else [named[k]]) + loose;
    }
    assert named[0..] == named;
    root := root + SortIds(loose);
  }

  lemma ResolvedGroups(profile: seq<ProfileGroup>, fixtures: map<string, nat>)
    ensures AllInRange(ResolveGroups(profile, fixtures), fixtures.Values)
  {
    forall i | 0 <= i < |profile| ensures InRange(ResolveGroups(profile, fixtures)[i], |profile|, fixtures.Values) {
      ResolvedInRange(profile, fixtures, profile[i].members);
    }
  }

  lemma {:induction false} BrokenInRange(before: Lists, placed: set<nat>)
    requires AllInRange(before, placed)
    ensures AllInRange(Broken(before, |before|), placed) && !Cyclic(GroupGraph(Broken(before, |before|)))
  {
    var lists := Broken(before, |before|);
    BrokenIsLoopless(before, |before|);
    BrokenWithin(before, lists, |lists|);
    assert lists[..|lists|] == lists;
    forall i | 0 <= i < |lists| ensures InRange(lists[i], |lists|, placed) {
      assert InRange(before[i], |before|, placed);
    }
  }

  /** The kept groups as items, and the top level. */
  method BuildItems(lists: Lists, ids: map<nat, nat>, named: seq<nat>, count: nat, ghost placed: set<nat>)
    returns (items: seq<L.Item>, root: seq<nat>)
    requires AreIds(ids, |lists|, count) && AllInRange(lists, placed) && forall f :: f in placed ==> f <= count
    requires forall f :: f in named ==> f <= count
    ensures items == ItemsOf(lists, ids, |lists|) && root == Root(items, named)
  {
    var grouped, nested;
    items, grouped, nested := CollectItems(lists, ids);
    forall x: nat ensures Listed(items, x) <==> if x <= count then x in grouped else x in nested {
      NotedIsListed(lists, ids, count, placed, grouped, nested, x);
    }
    ItemsAre(lists, ids, |lists|);
    forall i | 0 <= i < |items| ensures count < items[i].id { assert IsItem(lists, ids, |lists|, items[i]); }
    root := TopLevel(items, named, grouped, nested);
  }

  /** The member lists of a profile's groups, their loops broken. */
  ghost function KeptLists(profile: seq<ProfileGroup>, fixtures: map<string, nat>): Lists {
    Broken(ResolveGroups(profile, fixtures), |profile|)
  }

  /** Which groups come to nothing: those that reach no fixture. */
  ghost function Fixtureless(lists: Lists): seq<bool> {
    seq(|lists|, g requires 0 <= g < |lists| => !ReachesFixture(lists, g))
  }

  ghost function KeptIds(profile: seq<ProfileGroup>, fixtures: map<string, nat>, count: nat): map<nat, nat> {
    NewIds(Fixtureless(KeptLists(profile, fixtures)), count)
  }

  /** The groups that keep an id, as items. */
  ghost function KeptItems(profile: seq<ProfileGroup>, fixtures: map<string, nat>, count: nat): seq<L.Item> {
    ItemsOf(KeptLists(profile, fixtures), KeptIds(profile, fixtures, count), |profile|)
  }

  /** The member lists kept and the groups left out. */
  method KeepGroups(profile: seq<ProfileGroup>, fixtures: map<string, nat>)
    returns (members: array<seq<Member>>, empty: array<bool>)
    ensures fresh(members) && fresh(empty) && members.Length == empty.Length == |profile|
    ensures members[..] == KeptLists(profile, fixtures) && empty[..] == Fixtureless(members[..])
    ensures AllInRange(members[..], fixtures.Values) && !Cyclic(GroupGraph(members[..]))
  {
    var resolved := ResolveProfile(profile, fixtures);
    ResolvedGroups(profile, fixtures);
    members := new seq<Member>[|profile|](i requires 0 <= i < |profile| => resolved[i]);
    assert members[..] == resolved;
    forall i, m | 0 <= i < members.Length && m in members[i] && m.Group? ensures m.index < members.Length {
      assert InRange(resolved[i], |resolved|, fixtures.Values);
    }
    BreakLoops(members);
    BrokenInRange(resolved, fixtures.Values);
    empty := FindEmpty(members);
    forall g: nat | g < |profile| ensures empty[g] <==> !ReachesFixture(members[..], g) {
      SurvivesIffReachesFixture(members[..], empty[..], fixtures.Values, g);
    }
  }

  // ---------- Entries listed twice ----------

  /** Two entries of the list name the member. */
  ghost predicate ListedTwice(profile: seq<ProfileGroup>, fixtures: map<string, nat>, entries: seq<string>, m: Member) {
    exists i, j :: 0 <= i < j < |entries|
                   && Resolve(profile, fixtures, entries[i]) == Resolve(profile, fixtures, entries[j]) == Some(m)
  }

  /** Some entry of the list names the member. */
  ghost predicate ListedOnce(profile: seq<ProfileGroup>, fixtures: map<string, nat>, entries: seq<string>, m: Member) {
    exists i :: 0 <= i < |entries| && Resolve(profile, fixtures, entries[i]) == Some(m)
  }

  lemma {:induction false} ResolvedHas(profile: seq<ProfileGroup>, fixtures: map<string, nat>, entries: seq<string>,
                                       m: Member)
    ensures m in ResolveList(profile, fixtures, entries) <==> ListedOnce(profile, fixtures, entries, m)
  {
    if entries != [] {
      ResolvedHas(profile, fixtures, entries[1..], m);
      forall i | 0 < i < |entries| ensures entries[i] == entries[1..][i - 1] {}
    }
  }

  lemma ListedTwiceCons(profile: seq<ProfileGroup>, fixtures: map<string, nat>, first: string, rest: seq<string>,
                        m: Member)
    ensures ListedTwice(profile, fixtures, [first] + rest, m)
        <==> ListedTwice(profile, fixtures, rest, m)
             || (Resolve(profile, fixtures, first) == Some(m) && ListedOnce(profile, fixtures, rest, m))
  {
    var all := [first] + rest;
    if ListedTwice(profile, fixtures, all, m) {
      var i, j :| 0 <= i < j < |all|
          && Resolve(profile, fixtures, all[i]) == Resolve(profile, fixtures, all[j]) == Some(m);
      assert all[j] == rest[j - 1];
      if i > 0 { assert all[i] == rest[i - 1]; }
    }
    if ListedTwice(profile, fixtures, rest, m) {
      var i, j :| 0 <= i < j < |rest|
          && Resolve(profile, fixtures, rest[i]) == Resolve(profile, fixtures, rest[j]) == Some(m);
      assert all[i + 1] == rest[i] && all[j + 1] == rest[j];
    }
    if Resolve(profile, fixtures, first) == Some(m) && ListedOnce(profile, fixtures, rest, m) {
      var j :| 0 <= j < |rest| && Resolve(profile, fixtures, rest[j]) == Some(m);
      assert all[0] == first && all[j + 1] == rest[j];
    }
  }

  lemma {:induction false} ResolvedTwice(profile: seq<ProfileGroup>, fixtures: map<string, nat>, entries: seq<string>,
                                         m: Member)
    ensures multiset(ResolveList(profile, fixtures, entries))[m] > 1 <==> ListedTwice(profile, fixtures, entries, m)
  {
    if entries == [] {
      assert multiset(ResolveList(profile, fixtures, entries)) == multiset{};
    } else {
      var rest := ResolveList(profile, fixtures, entries[1..]);
      assert entries == [entries[0]] + entries[1..];
      ResolvedTwice(profile, fixtures, entries[1..], m);
      ResolvedHas(profile, fixtures, entries[1..], m);
      ListedTwiceCons(profile, fixtures, entries[0], entries[1..], m);
      assert m in rest <==> multiset(rest)[m] > 0;
    }
  }

  lemma {:induction false} LooplessCount(g: Graph, group: nat, list: seq<Member>, m: Member)
    ensures multiset(Loopless(g, group, list))[m] == if Kept(g, group, m) == [] then 0 else multiset(list)[m]
  {
    if list != [] {
      assert list == [list[0]] + list[1..];
      LooplessCount(g, group, list[1..], m);
    }
  }

  /** Breaking loops leaves out a member wherever a list has it, or nowhere. */
  lemma {:induction false} BrokenCount(before: Lists, n: nat, i: nat, m: Member)
    requires n <= |before| && i < |before| && m in Broken(before, n)[i]
    ensures multiset(Broken(before, n)[i])[m] == multiset(before[i])[m]
  {
    if n > 0 {
      var lists := Broken(before, n - 1);
      if i == n - 1 {
        var g := GroupGraph(lists[n - 1 := []]);
        assert Broken(before, n)[i] == Loopless(g, i, lists[i]);
        LooplessCount(g, i, lists[i], m);
        assert m in lists[i] by { assert multiset(lists[i])[m] > 0; }
      }
      BrokenCount(before, n - 1, i, m);
    }
  }

  /** The member has an id in the layout. */
  predicate HasItsId(ids: map<nat, nat>, m: Member) {
    m.Group? ==> m.index in ids
  }

  lemma {:induction false} ListOfDistinctIff(list: seq<Member>, ids: map<nat, nat>, groups: nat, count: nat)
    requires AreIds(ids, groups, count) && forall m :: m in list && m.Fixture? ==> m.id <= count
    ensures L.Distinct(ListOf(list, ids)) <==> forall m :: HasItsId(ids, m) ==> multiset(list)[m] <= 1
  {
    if list == [] {
      assert multiset(list) == multiset{};
    } else {
      var first, rest := list[0], list[1..];
      assert list == [first] + rest;
      ListOfDistinctIff(rest, ids, groups, count);
      OneMore(first, rest, ids);
      if HasItsId(ids, first) {
        var x := if first.Fixture? then first.id else ids[first.index];
        ListOfHas(rest, ids, x);
        assert x in ListOf(rest, ids) <==> first in rest;
        DistinctCons(x, ListOf(rest, ids));
        assert ListOf(list, ids) == [x] + ListOf(rest, ids);
      } else {
        assert ListOf(list, ids) == ListOf(rest, ids);
      }
    }
  }

  lemma OneMore(first: Member, rest: seq<Member>, ids: map<nat, nat>)
    ensures (forall m :: HasItsId(ids, m) ==> multiset([first] + rest)[m] <= 1)
        <==> (forall m :: HasItsId(ids, m) ==> multiset(rest)[m] <= 1) && (HasItsId(ids, first) ==> first !in rest)
  {
    var all := multiset([first] + rest);
    forall m ensures all[m] == multiset(rest)[m] + if m == first then 1 else 0 {}
    if first in rest { assert all[first] > 1; }
  }

  lemma DistinctCons(x: nat, s: seq<nat>)
    ensures L.Distinct([x] + s) <==> L.Distinct(s) && x !in s
  {
    var t := [x] + s;
    if L.Distinct(t) {
      forall i, j | 0 <= i < j < |s| ensures s[i] != s[j] { assert t[i + 1] != t[j + 1]; }
      forall i | 0 <= i < |s| ensures s[i] != x { assert t[0] != t[i + 1]; }
    }
  }

  /** The member stays in the list of group `g`: it closed no loop, and is a fixture or
      leads to one. */
  ghost predicate Stays(lists: Lists, g: nat, m: Member) {
    g < |lists| && m in lists[g] && (m.Group? ==> ReachesFixture(lists, m.index))
  }

  /** No group lists a member twice that stays. */
  ghost predicate NothingKeptTwice(profile: seq<ProfileGroup>, fixtures: map<string, nat>) {
    forall g: nat, m :: g < |profile| && ListedTwice(profile, fixtures, profile[g].members, m)
                        ==> !Stays(KeptLists(profile, fixtures), g, m)
  }

  lemma KeptIdIff(profile: seq<ProfileGroup>, fixtures: map<string, nat>, count: nat, g: nat)
    ensures g in KeptIds(profile, fixtures, count) <==> g < |profile| && ReachesFixture(KeptLists(profile, fixtures), g)
    ensures AreIds(KeptIds(profile, fixtures, count), |profile|, count)
  {
    NewIdsAre(Fixtureless(KeptLists(profile, fixtures)), count);
  }

  /** Who lists a member that stays is kept. */
  lemma {:induction false} StaysIffHasIds(profile: seq<ProfileGroup>, fixtures: map<string, nat>, count: nat, g: nat,
                                          m: Member)
    requires g < |profile| && m in KeptLists(profile, fixtures)[g]
    ensures var lists, ids := KeptLists(profile, fixtures), KeptIds(profile, fixtures, count);
            Stays(lists, g, m) <==> g in ids && HasItsId(ids, m)
  {
    var lists, ids := KeptLists(profile, fixtures), KeptIds(profile, fixtures, count);
    KeptIdIff(profile, fixtures, count, g);
    ResolvedGroups(profile, fixtures);
    BrokenInRange(ResolveGroups(profile, fixtures), fixtures.Values);
    assert InRange(lists[g], |lists|, fixtures.Values);
    if m.Group? {
      KeptIdIff(profile, fixtures, count, m.index);
      GroupEdge(lists, g, m.index);
      if Stays(lists, g, m) { ReachesOn(lists, g, m.index); }
    } else {
      ReachesSelf(GroupGraph(lists), g);
      assert ListsFixture(lists[g]);
    }
  }

  /** A kept group's list names each member once exactly when no entry that stays is listed
      twice. */
  lemma KeptListDistinctIff(profile: seq<ProfileGroup>, fixtures: map<string, nat>, count: nat, g: nat)
    requires g in KeptIds(profile, fixtures, count) && g < |profile| && forall f :: f in fixtures.Values ==> f <= count
    ensures L.Distinct(ListOf(KeptLists(profile, fixtures)[g], KeptIds(profile, fixtures, count)))
        <==> forall m :: ListedTwice(profile, fixtures, profile[g].members, m)
               ==> !Stays(KeptLists(profile, fixtures), g, m)
  {
    var before, lists, ids := ResolveGroups(profile, fixtures), KeptLists(profile, fixtures),
        KeptIds(profile, fixtures, count);
    KeptIdIff(profile, fixtures, count, g);
    ResolvedGroups(profile, fixtures);
    BrokenInRange(before, fixtures.Values);
    assert InRange(lists[g], |lists|, fixtures.Values);
    ListOfDistinctIff(lists[g], ids, |profile|, count);
    forall m
      ensures HasItsId(ids, m) && multiset(lists[g])[m] > 1
         <==> ListedTwice(profile, fixtures, profile[g].members, m) && Stays(lists, g, m)
    {
      if m in lists[g] {
        StaysIffHasIds(profile, fixtures, count, g, m);
        BrokenCount(before, |profile|, g, m);
        ResolvedTwice(profile, fixtures, profile[g].members, m);
      }
    }
  }

  lemma NoRepeatsIff(profile: seq<ProfileGroup>, fixtures: map<string, nat>, count: nat)
    requires forall f :: f in fixtures.Values ==> f <= count
    ensures forall g :: g in KeptIds(profile, fixtures, count) ==> g < |profile|
    ensures NoRepeats(KeptLists(profile, fixtures), KeptIds(profile, fixtures, count))
            <==> NothingKeptTwice(profile, fixtures)
  {
    var lists, ids := KeptLists(profile, fixtures), KeptIds(profile, fixtures, count);
    forall g: nat ensures g in ids ==> g < |profile| { KeptIdIff(profile, fixtures, count, g); }
    forall g | g in ids
      ensures L.Distinct(ListOf(lists[g], ids))
          <==> forall m :: ListedTwice(profile, fixtures, profile[g].members, m) ==> !Stays(lists, g, m)
    {
      KeptListDistinctIff(profile, fixtures, count, g);
    }
    forall g: nat, m | g < |profile| && Stays(lists, g, m)
      ensures g in ids { StaysIffHasIds(profile, fixtures, count, g, m); }
  }

  // ---------- Whether the imported layout passes ----------

  /** The layout built from a profile: `named` are the fixtures with a name, as the name
      table gives them. */
  ghost function ImportedLayout(profile: seq<ProfileGroup>, fixtures: map<string, nat>, named: seq<nat>,
                                count: nat): L.Layout {
    L.Layout(PlacedItems(count) + KeptItems(profile, fixtures, count), Root(KeptItems(profile, fixtures, count), named))
  }

  /** The name table's fixtures, each once, are placed ones. */
  ghost predicate NamesPlaced(fixtures: map<string, nat>, named: seq<nat>, count: nat) {
    && L.Distinct(named) && (forall f :: f in named <==> f in fixtures.Values)
    && forall f :: f in named ==> 1 <= f <= count
  }

  /** From any profile, looping or not, the layout has a membership exactly when every
      fixture is named and no group lists a member twice that stays. */
  lemma ImportedMembershipIff(profile: seq<ProfileGroup>, fixtures: map<string, nat>, named: seq<nat>, count: nat)
    requires NamesPlaced(fixtures, named, count)
    ensures L.HasMembership(ImportedLayout(profile, fixtures, named, count))
        <==> AllNamed(named, count) && NothingKeptTwice(profile, fixtures)
  {
    var lists, ids := KeptLists(profile, fixtures), KeptIds(profile, fixtures, count);
    KeptIdIff(profile, fixtures, count, 0);
    ResolvedGroups(profile, fixtures);
    BrokenInRange(ResolveGroups(profile, fixtures), fixtures.Values);
    assert fixtures.Values == (set f | f in named);
    NoRepeatsIff(profile, fixtures, count);
    ImportHasMembership(lists, ids, count, named, ImportedLayout(profile, fixtures, named, count));
  }

  /** Every list names each entry once, and no two names are one fixture's. */
  ghost predicate EntriesDistinct(profile: seq<ProfileGroup>, fixtures: map<string, nat>) {
    && (forall g, i, j :: 0 <= g < |profile| && 0 <= i < j < |profile[g].members|
         ==> profile[g].members[i] != profile[g].members[j])
    && forall a, b :: a in fixtures && b in fixtures && a != b ==> fixtures[a] != fixtures[b]
  }

  lemma ResolveIsInjective(profile: seq<ProfileGroup>, fixtures: map<string, nat>, a: string, b: string)
    requires forall x, y :: x in fixtures && y in fixtures && x != y ==> fixtures[x] != fixtures[y]
    requires Resolve(profile, fixtures, a).Some? && Resolve(profile, fixtures, a) == Resolve(profile, fixtures, b)
    ensures a == b
  {
    GroupIndexIs(profile, a);
    GroupIndexIs(profile, b);
  }

  /** Lists as the readers give them, each entry once, always import to a layout with a
      membership when the fixtures have names of their own. */
  lemma DistinctEntriesHaveMembership(profile: seq<ProfileGroup>, fixtures: map<string, nat>, named: seq<nat>,
                                      count: nat)
    requires NamesPlaced(fixtures, named, count) && AllNamed(named, count) && EntriesDistinct(profile, fixtures)
    ensures L.HasMembership(ImportedLayout(profile, fixtures, named, count))
  {
    forall g: nat, m | g < |profile| ensures !ListedTwice(profile, fixtures, profile[g].members, m) {
      var entries := profile[g].members;
      if ListedTwice(profile, fixtures, entries, m) {
        var i, j :| 0 <= i < j < |entries|
                    && Resolve(profile, fixtures, entries[i]) == Resolve(profile, fixtures, entries[j]) == Some(m);
        ResolveIsInjective(profile, fixtures, entries[i], entries[j]);
      }
    }
    ImportedMembershipIff(profile, fixtures, named, count);
  }

  /** Without loops, whether the layout has a membership shows in the entries: no group may
      list a fixture twice, or twice a group that leads to one. */
  lemma LooplessMembershipIff(profile: seq<ProfileGroup>, fixtures: map<string, nat>, named: seq<nat>, count: nat)
    requires NamesPlaced(fixtures, named, count) && !Cyclic(GroupGraph(ResolveGroups(profile, fixtures)))
    ensures L.HasMembership(ImportedLayout(profile, fixtures, named, count))
        <==> AllNamed(named, count)
             && forall g: nat, m :: g < |profile| && ListedTwice(profile, fixtures, profile[g].members, m)
                                    ==> m.Group? && !ReachesFixture(ResolveGroups(profile, fixtures), m.index)
  {
    var lists := ResolveGroups(profile, fixtures);
    LooplessUnchanged(lists);
    forall g: nat, m | g < |profile| && ListedTwice(profile, fixtures, profile[g].members, m) ensures m in lists[g] {
      ResolvedHas(profile, fixtures, profile[g].members, m);
    }
    ImportedMembershipIff(profile, fixtures, named, count);
  }

  /** A group that names its one fixture twice: the layout built has no membership. */
  lemma {:induction false} RepeatedEntryFails()
    ensures var profile, fixtures := [ProfileGroup("a", ["f", "f"])], map["f" := 1];
            && NamesPlaced(fixtures, [1], 1) && AllNamed([1], 1)
            && !L.HasMembership(ImportedLayout(profile, fixtures, [1], 1))
  {
    var profile, fixtures := [ProfileGroup("a", ["f", "f"])], map["f" := 1];
    var before, m := ResolveGroups(profile, fixtures), Fixture(1);
    var entries := profile[0].members;
    assert Resolve(profile, fixtures, entries[0]) == Resolve(profile, fixtures, entries[1]) == Some(m);
    assert ListedTwice(profile, fixtures, entries, m);
    ResolvedHas(profile, fixtures, entries, m);
    BrokenIsLoopless(before, 1);
    DroppedWithin(GroupGraph(before), 0, before[0], KeptLists(profile, fixtures)[0]);
    assert fixtures["f"] == 1;
    ImportedMembershipIff(profile, fixtures, [1], 1);
  }

  /** The layout's groups and top level, from the profile's groups and the ids of the
      fixtures placed; `named` holds those ids in the order the name table gives them. */
  method ImportGroups(profile: seq<ProfileGroup>, fixtures: map<string, nat>, named: seq<nat>, count: nat)
    returns (items: seq<L.Item>, root: seq<nat>)
    requires NamesPlaced(fixtures, named, count)
    ensures L.Layout(PlacedItems(count) + items, root) == ImportedLayout(profile, fixtures, named, count)
    ensures L.HasMembership(L.Layout(PlacedItems(count) + items, root))
        <==> AllNamed(named, count) && NothingKeptTwice(profile, fixtures)
    ensures AllNamed(named, count) && EntriesDistinct(profile, fixtures)
            ==> L.HasMembership(L.Layout(PlacedItems(count) + items, root))
  {
    var members, marks := KeepGroups(profile, fixtures);
    NewIdsAre(marks[..], count);
    var ids := AssignIds(marks, count);
    items, root := BuildItems(members[..], ids, named, count, fixtures.Values);
    ImportedMembershipIff(profile, fixtures, named, count);
    if AllNamed(named, count) && EntriesDistinct(profile, fixtures) {
      DistinctEntriesHaveMembership(profile, fixtures, named, count);
    }
  }
}
