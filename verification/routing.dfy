/** Pixels to controller slots: run-length encoding what a profile says, claiming slots
    so that no two fixtures share any, and the check a patch must pass. */
module Routing {
  import opened Options

  /** An output port of a controller: of the profile, or of the project. */
  type Port = (nat, nat)

  /** Where a pixel's first channel is. */
  datatype Slot = Slot(controller: nat, output: nat, offset: nat)
  {
    function Port(): Port { (controller, output) }
  }

  /** `count` pixels from pixel `start` on, at consecutive slots from `first` on. */
  datatype Run = Run(first: Slot, start: nat, count: nat)
  {
    function End(channels: nat): nat { first.offset + count * channels }
  }

  datatype UnroutedReason = UnsupportedController(controller: nat) | SplitPixel

  datatype RunsResult = Runs(runs: seq<Run>) | Unrouted(reason: UnroutedReason)

  // ---------- Runs ----------

  /** Whether pixel `pixel` at `slot` continues the run. */
  predicate Continues(run: Run, slot: Slot, pixel: nat, channels: nat) {
    && run.first.Port() == slot.Port()
    && run.End(channels) == slot.offset
    && run.start + run.count == pixel
  }

  /** Why the pixel has no slot, if it has none: its output was not built, or the port
      ends inside it. `ports` gives each output's slot count. */
  function PixelProblem(slot: Slot, channels: nat, ports: map<Port, nat>): Option<UnroutedReason> {
    if slot.Port() !in ports then Some(UnsupportedController(slot.controller))
    else if slot.offset + channels > ports[slot.Port()] then Some(SplitPixel)
    else None
  }

  /** The pixel's output was built, and its channels end within the port. */
  predicate PixelFits(slot: Slot, channels: nat, ports: map<Port, nat>) {
    slot.Port() in ports && slot.offset + channels <= ports[slot.Port()]
  }

  /** The slots of the run's pixels. */
  function ExpandRun(run: Run, channels: nat): (r: seq<Slot>)
    ensures |r| == run.count
    decreases run.count
  {
    if run.count == 0 then []
    else
      ExpandRun(run.(count := run.count - 1), channels)
      + [Slot(run.first.controller, run.first.output, run.first.offset + (run.count - 1) * channels)]
  }

  function Expand(runs: seq<Run>, channels: nat): seq<Slot> {
    if runs == [] then [] else Expand(runs[..|runs| - 1], channels) + ExpandRun(runs[|runs| - 1], channels)
  }

  /** No pixel of the next run would have continued this one. */
  predicate Separate(a: Run, b: Run, channels: nat) {
    !(a.first.Port() == b.first.Port() && a.End(channels) == b.first.offset)
  }

  /** The runs cover pixels one after the other, none of them empty, no two adjacent ones
      mergeable, each within its port. */
  ghost predicate IsRuns(runs: seq<Run>, channels: nat, ports: map<Port, nat>) {
    && (forall i :: 0 <= i < |runs| ==> RunFits(runs[i], channels, ports))
    && (runs != [] ==> runs[0].start == 0)
    && forall i, j :: 0 <= i && j == i + 1 < |runs| ==>
         runs[j].start == runs[i].start + runs[i].count && Separate(runs[i], runs[j], channels)
  }

  ghost predicate RunFits(run: Run, channels: nat, ports: map<Port, nat>) {
    run.count > 0 && run.first.Port() in ports && run.End(channels) <= ports[run.first.Port()]
  }

  /** How many pixels the runs cover. */
  function Covered(runs: seq<Run>): nat {
    if runs == [] then 0 else runs[|runs| - 1].start + runs[|runs| - 1].count
  }

  lemma EndNext(run: Run, channels: nat)
    ensures run.(count := run.count + 1).End(channels) == run.End(channels) + channels
  {
  }

  /** One more pixel extends the last run. */
  lemma {:induction false} ExtendLast(runs: seq<Run>, slot: Slot, channels: nat, ports: map<Port, nat>)
    requires runs != [] && IsRuns(runs, channels, ports) && PixelProblem(slot, channels, ports).None?
    requires Continues(runs[|runs| - 1], slot, Covered(runs), channels)
    ensures var last := |runs| - 1;
            var more := runs[last := runs[last].(count := runs[last].count + 1)];
            && IsRuns(more, channels, ports) && Covered(more) == Covered(runs) + 1
            && Expand(more, channels) == Expand(runs, channels) + [slot]
  {
    var last := |runs| - 1;
    var run := runs[last];
    var longer := run.(count := run.count + 1);
    var more := runs[last := longer];
    EndNext(run, channels);
    assert more[..last] == runs[..last];
    assert longer.(count := longer.count - 1) == run;
    assert ExpandRun(longer, channels) == ExpandRun(run, channels) + [slot];
  }

  /** One more pixel starts a run. */
  lemma {:induction false} StartRun(runs: seq<Run>, slot: Slot, channels: nat, ports: map<Port, nat>)
    requires IsRuns(runs, channels, ports) && PixelProblem(slot, channels, ports).None?
    requires runs != [] ==> !Continues(runs[|runs| - 1], slot, Covered(runs), channels)
    ensures var more := runs + [Run(slot, Covered(runs), 1)];
            && IsRuns(more, channels, ports) && Covered(more) == Covered(runs) + 1
            && Expand(more, channels) == Expand(runs, channels) + [slot]
  {
    var run := Run(slot, Covered(runs), 1);
    var more := runs + [run];
    assert more[..|more| - 1] == runs;
    assert ExpandRun(run, channels) == [slot] by { assert ExpandRun(run.(count := 0), channels) == []; }
    assert run.End(channels) == slot.offset + channels;
  }

  /** The runs are those of the first `n` pixels, all of which have a slot. */
  ghost predicate RunsUpTo(runs: seq<Run>, slots: seq<Slot>, n: nat, channels: nat, ports: map<Port, nat>) {
    && n <= |slots| && IsRuns(runs, channels, ports) && Expand(runs, channels) == slots[..n] && Covered(runs) == n
    && forall k :: 0 <= k < n ==> PixelProblem(slots[k], channels, ports).None?
  }

  /** Extend the last run by the next pixel, or start another with it. */
  method AddPixel(runs0: seq<Run>, slots: seq<Slot>, pixel: nat, channels: nat, ports: map<Port, nat>)
    returns (runs: seq<Run>)
    requires RunsUpTo(runs0, slots, pixel, channels, ports) && pixel < |slots|
    requires PixelProblem(slots[pixel], channels, ports).None?
    ensures RunsUpTo(runs, slots, pixel + 1, channels, ports)
  {
    var slot := slots[pixel];
    assert slots[..pixel + 1] == slots[..pixel] + [slot];
    if runs0 != [] && Continues(runs0[|runs0| - 1], slot, pixel, channels) {
      ExtendLast(runs0, slot, channels, ports);
      var last := |runs0| - 1;
      runs := runs0[last := runs0[last].(count := runs0[last].count + 1)];
    } else {
      StartRun(runs0, slot, channels, ports);
      runs := runs0 + [Run(slot, pixel, 1)];
    }
  }

  /** A fixture's slots as runs: expanding them gives back every pixel's slot. The first
      pixel without a slot decides why there are none. */
  method FindRuns(slots: seq<Slot>, channels: nat, ports: map<Port, nat>) returns (r: RunsResult)
    ensures r.Runs?
            ==> IsRuns(r.runs, channels, ports) && Expand(r.runs, channels) == slots
                && Covered(r.runs) == |slots|
    ensures r.Runs? <==> forall i :: 0 <= i < |slots| ==> PixelFits(slots[i], channels, ports)
    ensures r.Unrouted? ==>
              exists i :: 0 <= i < |slots| && !PixelFits(slots[i], channels, ports)
                          && (forall k :: 0 <= k < i ==> PixelFits(slots[k], channels, ports))
                          && match r.reason
                             case UnsupportedController(controller) =>
                               slots[i].Port() !in ports && controller == slots[i].controller
                             case SplitPixel =>
                               slots[i].Port() in ports && slots[i].offset + channels > ports[slots[i].Port()]
  {
    var runs, pixel := [], 0;
    while pixel < |slots|
      invariant RunsUpTo(runs, slots, pixel, channels, ports)
    {
      var problem := PixelProblem(slots[pixel], channels, ports);
      if problem.Some? {
        return Unrouted(problem.value);
      }
      runs := AddPixel(runs, slots, pixel, channels, ports);
      pixel := pixel + 1;
    }
    assert slots[..pixel] == slots;
    r := Runs(runs);
  }

  // ---------- Claims ----------

  /** Slots `from` up to `to` of a port, and the fixture they are patched to. */
  datatype Claim = Claim(from: nat, to: nat, owner: string)

  /** A fixture of the profile: how many pixels it has, where they are patched, and how
      many channels each takes. */
  datatype Fixture = Fixture(name: string, pixels: nat, slots: Option<seq<Slot>>, channels: nat)

  /** A fixture put in the layout under an id, with the runs its pixels are patched in. */
  datatype Placed = Placed(id: nat, fixture: Fixture, runs: seq<Run>)

  predicate Meets(from: nat, to: nat, claim: Claim) {
    from < claim.to && claim.from < to
  }

  ghost predicate RunsMeet(a: Run, aChannels: nat, b: Run, bChannels: nat) {
    && a.first.Port() == b.first.Port()
    && a.first.offset < b.End(bChannels) && b.first.offset < a.End(aChannels)
  }

  ghost predicate FixturesMeet(a: Placed, b: Placed) {
    exists i, j :: 0 <= i < |a.runs| && 0 <= j < |b.runs|
        && RunsMeet(a.runs[i], a.fixture.channels, b.runs[j], b.fixture.channels)
  }

  ghost predicate MeetsNone(placed: seq<Placed>, p: Placed) {
    forall i :: 0 <= i < |placed| ==> !FixturesMeet(placed[i], p)
  }

  /** No two fixtures share a slot. */
  ghost predicate Apart(placed: seq<Placed>) {
    forall i, j :: 0 <= i < j < |placed| ==> !FixturesMeet(placed[i], placed[j])
  }

  predicate IsClaimOf(claim: Claim, port: Port, p: Placed) {
    exists j :: 0 <= j < |p.runs| && p.runs[j].first.Port() == port
                && claim == Claim(p.runs[j].first.offset, p.runs[j].End(p.fixture.channels), p.fixture.name)
  }

  function ClaimsOn(claimed: map<Port, seq<Claim>>, port: Port): seq<Claim> {
    if port in claimed then claimed[port] else []
  }

  /** The claims on each port are those of the fixtures placed. */
  ghost predicate ClaimsAre(claimed: map<Port, seq<Claim>>, placed: seq<Placed>) {
    forall port: Port, claim :: claim in ClaimsOn(claimed, port)
      <==> exists i :: 0 <= i < |placed| && IsClaimOf(claim, port, placed[i])
  }

  /** The owner of the first claim the slots meet. */
  method FindMeeting(claims: seq<Claim>, from: nat, to: nat) returns (owner: Option<string>)
    ensures owner.None? <==> forall c :: c in claims ==> !Meets(from, to, c)
    ensures owner.Some? ==> exists c :: c in claims && Meets(from, to, c) && c.owner == owner.value
  {
    var i := 0;
    while i < |claims|
      invariant 0 <= i <= |claims|
      invariant forall k :: 0 <= k < i ==> !Meets(from, to, claims[k])
    {
      if Meets(from, to, claims[i]) {
        assert claims[i] in claims;
        return Some(claims[i].owner);
      }
      i := i + 1;
    }
    owner := None;
  }

  /** The owner of a claim one of the runs meets, if any does. */
  method FindOverlap(runs: seq<Run>, channels: nat, claimed: map<Port, seq<Claim>>) returns (owner: Option<string>)
    ensures owner.None? <==> forall j :: 0 <= j < |runs| ==> RunFree(runs[j], channels, claimed)
    ensures owner.Some? ==> exists j, c :: 0 <= j < |runs| && c in ClaimsOn(claimed, runs[j].first.Port())
                                          && Meets(runs[j].first.offset, runs[j].End(channels), c)
                                              && c.owner == owner.value
  {
    var j := 0;
    while j < |runs|
      invariant 0 <= j <= |runs|
      invariant forall k :: 0 <= k < j ==> RunFree(runs[k], channels, claimed)
    {
      owner := FindMeeting(ClaimsOn(claimed, runs[j].first.Port()), runs[j].first.offset, runs[j].End(channels));
      if owner.Some? {
        return;
      }
      j := j + 1;
    }
    owner := None;
  }

  ghost predicate RunFree(run: Run, channels: nat, claimed: map<Port, seq<Claim>>) {
    forall c :: c in ClaimsOn(claimed, run.first.Port()) ==> !Meets(run.first.offset, run.End(channels), c)
  }

  lemma FreeRunMeetsNone(claimed: map<Port, seq<Claim>>, placed: seq<Placed>, i: nat, k: nat, run: Run, channels: nat)
    requires ClaimsAre(claimed, placed) && RunFree(run, channels, claimed) && i < |placed| && k < |placed[i].runs|
    ensures !RunsMeet(placed[i].runs[k], placed[i].fixture.channels, run, channels)
  {
    var other, width := placed[i].runs[k], placed[i].fixture.channels;
    var claim := Claim(other.first.offset, other.End(width), placed[i].fixture.name);
    assert IsClaimOf(claim, other.first.Port(), placed[i]);
    assert claim in ClaimsOn(claimed, other.first.Port());
  }

  /** A fixture whose runs are free meets no fixture placed. */
  lemma FreeIsApart(claimed: map<Port, seq<Claim>>, placed: seq<Placed>, p: Placed)
    requires ClaimsAre(claimed, placed)
    requires forall j :: 0 <= j < |p.runs| ==> RunFree(p.runs[j], p.fixture.channels, claimed)
    ensures MeetsNone(placed, p)
  {
    forall i, k, j | 0 <= i < |placed| && 0 <= k < |placed[i].runs| && 0 <= j < |p.runs|
      ensures !RunsMeet(placed[i].runs[k], placed[i].fixture.channels, p.runs[j], p.fixture.channels)
    {
      FreeRunMeetsNone(claimed, placed, i, k, p.runs[j], p.fixture.channels);
    }
  }

  /** A fixture with a claimed slot meets a fixture placed, of the name the claim has. */
  lemma ClaimedMeets(claimed: map<Port, seq<Claim>>, placed: seq<Placed>, p: Placed, j: nat, c: Claim)
    requires ClaimsAre(claimed, placed) && j < |p.runs| && c in ClaimsOn(claimed, p.runs[j].first.Port())
    requires Meets(p.runs[j].first.offset, p.runs[j].End(p.fixture.channels), c)
    ensures exists i :: 0 <= i < |placed| && FixturesMeet(placed[i], p) && placed[i].fixture.name == c.owner
  {
    var port := p.runs[j].first.Port();
    var i :| 0 <= i < |placed| && IsClaimOf(c, port, placed[i]);
    var k :| 0 <= k < |placed[i].runs| && placed[i].runs[k].first.Port() == port
             && c == Claim(placed[i].runs[k].first.offset, placed[i].runs[k].End(placed[i].fixture.channels),
                           placed[i].fixture.name);
    assert RunsMeet(placed[i].runs[k], placed[i].fixture.channels, p.runs[j], p.fixture.channels);
  }

  /** Add the claims of one run. */
  function Claimed(claimed: map<Port, seq<Claim>>, run: Run, fixture: Fixture): map<Port, seq<Claim>> {
    var port := run.first.Port();
    claimed[port := ClaimsOn(claimed, port) + [Claim(run.first.offset, run.End(fixture.channels), fixture.name)]]
  }

  lemma ClaimOneRun(claimed: map<Port, seq<Claim>>, placed: seq<Placed>, p: Placed, k: nat)
    requires k < |p.runs| && ClaimsAre(claimed, placed + [p.(runs := p.runs[..k])])
    ensures ClaimsAre(Claimed(claimed, p.runs[k], p.fixture), placed + [p.(runs := p.runs[..k + 1])])
  {
    var before, after := placed + [p.(runs := p.runs[..k])], placed + [p.(runs := p.runs[..k + 1])];
    var run := p.runs[k];
    var claim := Claim(run.first.offset, run.End(p.fixture.channels), p.fixture.name);
    var next := Claimed(claimed, run, p.fixture);
    forall port: Port, c
      ensures c in ClaimsOn(next, port) <==> exists i :: 0 <= i < |after| && IsClaimOf(c, port, after[i])
    {
      assert c in ClaimsOn(next, port) <==> c in ClaimsOn(claimed, port) || (port == run.first.Port() && c == claim);
      assert IsClaimOf(c, port, after[|placed|])
        <==> IsClaimOf(c, port, before[|placed|]) || (port == run.first.Port() && c == claim) by {
        var a, b := p.runs[..k], p.runs[..k + 1];
        assert b == a + [run];
        if IsClaimOf(c, port, before[|placed|]) {
          var j :| 0 <= j < |a| && a[j].first.Port() == port
              && c == Claim(a[j].first.offset, a[j].End(p.fixture.channels), p.fixture.name);
          assert b[j] == a[j];
        }
        if port == run.first.Port() && c == claim { assert b[k] == run; }
        if IsClaimOf(c, port, after[|placed|]) {
          var j :| 0 <= j < |b| && b[j].first.Port() == port
              && c == Claim(b[j].first.offset, b[j].End(p.fixture.channels), p.fixture.name);
          if j < k { assert a[j] == b[j]; }
        }
      }
      forall i | 0 <= i < |placed| ensures after[i] == before[i] {}
      if exists i :: 0 <= i < |before| && IsClaimOf(c, port, before[i]) {
        var i :| 0 <= i < |before| && IsClaimOf(c, port, before[i]);
        assert IsClaimOf(c, port, after[i]);
      }
      if exists i :: 0 <= i < |after| && IsClaimOf(c, port, after[i]) {
        var i :| 0 <= i < |after| && IsClaimOf(c, port, after[i]);
        if i < |placed| { assert IsClaimOf(c, port, before[i]); }
      }
    }
  }

  lemma NoClaimsYet(claimed: map<Port, seq<Claim>>, placed: seq<Placed>, p: Placed)
    requires ClaimsAre(claimed, placed)
    ensures ClaimsAre(claimed, placed + [p.(runs := p.runs[..0])])
  {
    var after := placed + [p.(runs := p.runs[..0])];
    forall port: Port, c
      ensures c in ClaimsOn(claimed, port) <==> exists i :: 0 <= i < |after| && IsClaimOf(c, port, after[i])
    {
      if exists i :: 0 <= i < |placed| && IsClaimOf(c, port, placed[i]) {
        var i :| 0 <= i < |placed| && IsClaimOf(c, port, placed[i]);
        assert IsClaimOf(c, port, after[i]);
      }
      if exists i :: 0 <= i < |after| && IsClaimOf(c, port, after[i]) {
        var i :| 0 <= i < |after| && IsClaimOf(c, port, after[i]);
        assert i < |placed|;
      }
    }
  }

  method ClaimRuns(claimed0: map<Port, seq<Claim>>, ghost placed: seq<Placed>, p: Placed)
    returns (claimed: map<Port, seq<Claim>>)
    requires ClaimsAre(claimed0, placed)
    ensures ClaimsAre(claimed, placed + [p])
  {
    claimed := claimed0;
    NoClaimsYet(claimed, placed, p);
    var k := 0;
    while k < |p.runs|
      invariant 0 <= k <= |p.runs| && ClaimsAre(claimed, placed + [p.(runs := p.runs[..k])])
    {
      ClaimOneRun(claimed, placed, p, k);
      claimed := Claimed(claimed, p.runs[k], p.fixture);
      k := k + 1;
    }
    assert p.(runs := p.runs[..k]) == p;
  }

  /** What is placed of the fixtures, in order and numbered from 1: each with its runs, unless
      it shares a slot with one placed before it. */
  ghost predicate PlacedFrom(fixtures: seq<Fixture>, ports: map<Port, nat>, placed: seq<Placed>) {
    if fixtures == [] then placed == []
    else
      var init, last := fixtures[..|fixtures| - 1], fixtures[|fixtures| - 1];
      || (PlacedFrom(init, ports, placed) && SharesSlot(last, ports, placed))
      || (placed != [] && placed[|placed| - 1].fixture == last && placed[|placed| - 1].id == |placed|
          && RunsOf(last, placed[|placed| - 1].runs, ports)
          && MeetsNone(placed[..|placed| - 1], placed[|placed| - 1]) && PlacedFrom(init, ports, placed[..|placed| - 1]))
  }

  /** With its runs, the fixture shares a slot with one placed. */
  ghost predicate SharesSlot(f: Fixture, ports: map<Port, nat>, placed: seq<Placed>) {
    exists runs :: RunsOf(f, runs, ports) && !MeetsNone(placed, Placed(|placed| + 1, f, runs))
  }

  /** What is placed shares no slot, and has the runs of its fixtures. */
  lemma {:induction false} PlacedIsApart(fixtures: seq<Fixture>, ports: map<Port, nat>, placed: seq<Placed>)
    requires PlacedFrom(fixtures, ports, placed)
    ensures Apart(placed) && forall p :: p in placed ==> RunsOf(p.fixture, p.runs, ports) && p.fixture in fixtures
    decreases |fixtures|
  {
    if fixtures != [] {
      var init, last := fixtures[..|fixtures| - 1], fixtures[|fixtures| - 1];
      if PlacedFrom(init, ports, placed) && SharesSlot(last, ports, placed) {
        PlacedIsApart(init, ports, placed);
      } else {
        PlacedIsApart(init, ports, placed[..|placed| - 1]);
        assert placed == placed[..|placed| - 1] + [placed[|placed| - 1]];
      }
    }
  }

  lemma {:induction false} PlacedNumbered(fixtures: seq<Fixture>, ports: map<Port, nat>, placed: seq<Placed>)
    requires PlacedFrom(fixtures, ports, placed)
    ensures forall a: nat :: a < |placed| ==> placed[a].id == a + 1
    decreases |fixtures|
  {
    if fixtures != [] {
      var init, last := fixtures[..|fixtures| - 1], fixtures[|fixtures| - 1];
      if PlacedFrom(init, ports, placed) && SharesSlot(last, ports, placed) {
        PlacedNumbered(init, ports, placed);
      } else {
        PlacedNumbered(init, ports, placed[..|placed| - 1]);
      }
    }
  }

  /** The runs are the fixture's; none when it is not patched or some pixel has no slot. */
  ghost predicate RunsOf(f: Fixture, runs: seq<Run>, ports: map<Port, nat>) {
    if f.slots.Some? && forall i :: 0 <= i < |f.slots.value| ==> PixelFits(f.slots.value[i], f.channels, ports)
    then IsRuns(runs, f.channels, ports) && Expand(runs, f.channels) == f.slots.value
    else runs == []
  }

  method RunsOfFixture(fixture: Fixture, ports: map<Port, nat>) returns (runs: seq<Run>)
    ensures RunsOf(fixture, runs, ports)
  {
    if fixture.slots.None? {
      return [];
    }
    var found := FindRuns(fixture.slots.value, fixture.channels, ports);
    runs := if found.Runs? then found.runs else [];
  }

  /** Place the fixture unless an earlier one has claimed one of its slots. */
  method PlaceFixture(ghost before: seq<Fixture>, fixture: Fixture, ports: map<Port, nat>, placed0: seq<Placed>,
                      claimed0: map<Port, seq<Claim>>)
    returns (placed: seq<Placed>, claimed: map<Port, seq<Claim>>)
    requires PlacedFrom(before, ports, placed0) && ClaimsAre(claimed0, placed0)
    ensures PlacedFrom(before + [fixture], ports, placed) && ClaimsAre(claimed, placed)
  {
    var runs := RunsOfFixture(fixture, ports);
    var next := Placed(|placed0| + 1, fixture, runs);
    var owner := FindOverlap(runs, fixture.channels, claimed0);
    if owner.Some? {
      SharesWithPlaced(claimed0, placed0, next, owner.value);
      assert !MeetsNone(placed0, next);
      assert (before + [fixture])[..|before|] == before;
      return placed0, claimed0;
    }
    FreeIsApart(claimed0, placed0, next);
    claimed := ClaimRuns(claimed0, placed0, next);
    placed := placed0 + [next];
    assert (before + [fixture])[..|before|] == before && placed[..|placed0|] == placed0;
  }

  /** The first `n` fixtures are placed, and their claims noted. */
  ghost predicate PlacedUpTo(fixtures: seq<Fixture>, ports: map<Port, nat>, n: nat, placed: seq<Placed>,
                             claimed: map<Port, seq<Claim>>) {
    n <= |fixtures| && PlacedFrom(fixtures[..n], ports, placed) && ClaimsAre(claimed, placed)
  }

  method PlaceNext(fixtures: seq<Fixture>, i: nat, ports: map<Port, nat>, placed0: seq<Placed>,
                   claimed0: map<Port, seq<Claim>>)
    returns (placed: seq<Placed>, claimed: map<Port, seq<Claim>>)
    requires i < |fixtures| && PlacedUpTo(fixtures, ports, i, placed0, claimed0)
    ensures PlacedUpTo(fixtures, ports, i + 1, placed, claimed)
  {
    assert fixtures[..i + 1] == fixtures[..i] + [fixtures[i]];
    placed, claimed := PlaceFixture(fixtures[..i], fixtures[i], ports, placed0, claimed0);
  }

  /** Place each fixture whose slots no earlier one has claimed. */
  method PlaceFixtures(fixtures: seq<Fixture>, ports: map<Port, nat>) returns (placed: seq<Placed>)
    ensures PlacedFrom(fixtures, ports, placed) && Apart(placed)
  {
    placed := [];
    var claimed: map<Port, seq<Claim>>, i := map[], 0;
    while i < |fixtures|
      invariant PlacedUpTo(fixtures, ports, i, placed, claimed)
    {
      placed, claimed := PlaceNext(fixtures, i, ports, placed, claimed);
      i := i + 1;
    }
    assert fixtures[..i] == fixtures;
    PlacedIsApart(fixtures, ports, placed);
  }

  lemma SharesWithPlaced(claimed: map<Port, seq<Claim>>, placed: seq<Placed>, p: Placed, owner: string)
    requires ClaimsAre(claimed, placed)
    requires exists j, c :: 0 <= j < |p.runs| && c in ClaimsOn(claimed, p.runs[j].first.Port())
                            && Meets(p.runs[j].first.offset, p.runs[j].End(p.fixture.channels), c) && c.owner == owner
    ensures exists i :: 0 <= i < |placed| && FixturesMeet(placed[i], p) && placed[i].fixture.name == owner
  {
    var j, c :| 0 <= j < |p.runs| && c in ClaimsOn(claimed, p.runs[j].first.Port())
                && Meets(p.runs[j].first.offset, p.runs[j].End(p.fixture.channels), c) && c.owner == owner;
    ClaimedMeets(claimed, placed, p, j, c);
  }

  // ---------- Checking a patch ----------

  datatype RouteProblem =
    | DuplicateId
    | InvalidEncoding
    | Target(message: string)
    | SpanExceedsTarget
    | MissingController
    | MissingPort
    | ChannelOverflow
    | OutputExceedsPort
    | OutputsOverlap

  /** The target of a route: its pixel count, or why it has none. */
  datatype Target = Pixels(count: nat) | Missing(message: string)

  datatype Span = Span(start: nat, count: nat)

  /** A route of a project's patch; `encodingFits` says whether its encoding, gamma and
      brightness are in range. */
  datatype Route = Route(id: nat, encodingFits: bool, fixture: nat, target: Target, span: Option<Span>,
                         controller: nat, port: nat, startSlot: nat, channels: nat)

  datatype PatchResult = PatchOk | PatchErr(route: nat, problem: RouteProblem)

  /** Slot counts of each port of each controller. */
  type Controllers = map<nat, map<nat, nat>>

  const U32_MAX := 0xFFFF_FFFF

  /** A half-open range of slots of a port. */
  datatype Range = Range(port: Port, start: nat, end: nat)
  {
    predicate Overlaps(other: Range) {
      port == other.port && start < end && other.start < other.end && start < other.end && other.start < end
    }
  }

  /** How many pixels the route sends, if it may. */
  function PixelsSent(route: Route): Option<nat> {
    if route.target.Missing? then None
    else if route.span.None? then Some(route.target.count)
    else
      var span := route.span.value;
      if span.count == 0 || span.start + span.count > U32_MAX || span.start + span.count > route.target.count then None
      else Some(span.count)
  }

  /** The slots the route sends to, when every check on it alone passes. */
  function RangeOf(route: Route, controllers: Controllers): Option<Range> {
    var pixels := PixelsSent(route);
    if !route.encodingFits || pixels.None? || route.controller !in controllers
        || route.port !in controllers[route.controller]
    then None
    else
      var width := pixels.value * route.channels;
      if width > U32_MAX || route.startSlot + width > U32_MAX
         || route.startSlot + width > controllers[route.controller][route.port] then None
      else Some(Range((route.controller, route.port), route.startSlot, route.startSlot + width))
  }

  /** Why a route is refused on its own account, in the order the checks are made. */
  function OwnProblem(route: Route, controllers: Controllers): Option<RouteProblem> {
    if !route.encodingFits then Some(InvalidEncoding)
    else if route.target.Missing? then Some(Target(route.target.message))
    else if PixelsSent(route).None? then Some(SpanExceedsTarget)
    else if route.controller !in controllers then Some(MissingController)
    else if route.port !in controllers[route.controller] then Some(MissingPort)
    else if PixelsSent(route).value * route.channels > U32_MAX then Some(ChannelOverflow)
    else if RangeOf(route, controllers).None? then Some(OutputExceedsPort)
    else None
  }

  /** Ids are distinct, every route is in range, and no two share a slot. */
  ghost predicate PatchFits(routes: seq<Route>, controllers: Controllers) {
    && (forall i, j :: 0 <= i < j < |routes| ==> routes[i].id != routes[j].id)
    && (forall i :: 0 <= i < |routes| ==> RangeOf(routes[i], controllers).Some?)
    && forall i, j :: 0 <= i < j < |routes| ==>
         !RangeOf(routes[i], controllers).value.Overlaps(RangeOf(routes[j], controllers).value)
  }

  /** How many pixels a route sends: those of its span, or all of its fixture's. */
  function Sent(route: Route): nat
    requires route.target.Pixels?
  {
    if route.span.Some? then route.span.value.count else route.target.count
  }

  /** On its own fields: its encoding is in range, its target is there, a span is of one or more
      pixels within it, its port exists, and what it sends ends within the port. */
  predicate RouteFits(route: Route, controllers: Controllers) {
    && route.encodingFits && route.target.Pixels?
    && (route.span.Some? ==>
          && 0 < route.span.value.count && route.span.value.start + route.span.value.count <= route.target.count
          && route.span.value.start + route.span.value.count <= 0xFFFF_FFFF)
    && route.controller in controllers && route.port in controllers[route.controller]
    && Sent(route) * route.channels <= 0xFFFF_FFFF && route.startSlot + Sent(route) * route.channels <= 0xFFFF_FFFF
    && route.startSlot + Sent(route) * route.channels <= controllers[route.controller][route.port]
  }

  /** The route sends to that slot of that port. */
  predicate SendsTo(route: Route, controller: nat, port: nat, slot: nat)
    requires route.target.Pixels?
  {
    && route.controller == controller && route.port == port
    && route.startSlot <= slot < route.startSlot + Sent(route) * route.channels
  }

  ghost predicate ShareSlot(a: Route, b: Route)
    requires a.target.Pixels? && b.target.Pixels?
  {
    exists controller: nat, port: nat, slot: nat ::
      SendsTo(a, controller, port, slot) && SendsTo(b, controller, port, slot)
  }

  /** Ids are distinct, every route fits, and no slot is sent to by two routes. */
  ghost predicate IsPatch(routes: seq<Route>, controllers: Controllers) {
    && (forall i, j :: 0 <= i < j < |routes| ==> routes[i].id != routes[j].id)
    && (forall i :: 0 <= i < |routes| ==> RouteFits(routes[i], controllers))
    && forall i, j :: 0 <= i < j < |routes| ==> !ShareSlot(routes[i], routes[j])
  }

  lemma RouteFitsIff(route: Route, controllers: Controllers)
    ensures RangeOf(route, controllers).Some? <==> RouteFits(route, controllers)
    ensures RouteFits(route, controllers) ==>
              RangeOf(route, controllers).value == Range((route.controller, route.port), route.startSlot,
                                                         route.startSlot + Sent(route) * route.channels)
  {
  }

  lemma ShareSlotIff(a: Route, b: Route, controllers: Controllers)
    requires RouteFits(a, controllers) && RouteFits(b, controllers)
    ensures RangeOf(a, controllers).Some? && RangeOf(b, controllers).Some?
    ensures RangeOf(a, controllers).value.Overlaps(RangeOf(b, controllers).value) <==> ShareSlot(a, b)
  {
    RouteFitsIff(a, controllers);
    RouteFitsIff(b, controllers);
    if RangeOf(a, controllers).value.Overlaps(RangeOf(b, controllers).value) {
      var slot := if a.startSlot < b.startSlot then b.startSlot else a.startSlot;
      assert SendsTo(a, a.controller, a.port, slot) && SendsTo(b, a.controller, a.port, slot);
    }
  }

  lemma PatchFitsIff(routes: seq<Route>, controllers: Controllers)
    ensures PatchFits(routes, controllers) <==> IsPatch(routes, controllers)
  {
    forall i | 0 <= i < |routes|
      ensures RangeOf(routes[i], controllers).Some? <==> RouteFits(routes[i], controllers)
    {
      RouteFitsIff(routes[i], controllers);
    }
    forall i, j | 0 <= i < j < |routes| && RouteFits(routes[i], controllers) && RouteFits(routes[j], controllers)
      ensures RangeOf(routes[i], controllers).value.Overlaps(RangeOf(routes[j], controllers).value)
         <==> ShareSlot(routes[i], routes[j])
    {
      ShareSlotIff(routes[i], routes[j], controllers);
    }
  }

  /** What the problem says of the route, after those before it, is so. */
  ghost predicate IsSo(problem: RouteProblem, before: seq<Route>, route: Route, controllers: Controllers) {
    match problem
    case DuplicateId => exists k :: 0 <= k < |before| && before[k].id == route.id
    case InvalidEncoding => !route.encodingFits
    case Target(message) => route.target == Missing(message)
    case SpanExceedsTarget =>
      && route.span.Some? && route.target.Pixels?
      && (route.span.value.count == 0 || route.span.value.start + route.span.value.count > route.target.count
          || route.span.value.start + route.span.value.count > 0xFFFF_FFFF)
    case MissingController => route.controller !in controllers
    case MissingPort => route.controller in controllers && route.port !in controllers[route.controller]
    case ChannelOverflow => route.target.Pixels? && Sent(route) * route.channels > 0xFFFF_FFFF
    case OutputExceedsPort =>
      && route.target.Pixels? && route.controller in controllers && route.port in controllers[route.controller]
      && (route.startSlot + Sent(route) * route.channels > 0xFFFF_FFFF
          || route.startSlot + Sent(route) * route.channels > controllers[route.controller][route.port])
    case OutputsOverlap =>
      && route.target.Pixels?
      && exists k :: 0 <= k < |before| && before[k].target.Pixels? && ShareSlot(before[k], route)
  }

  /** The first route at fault has the problem reported. */
  lemma FaultIsSo(routes: seq<Route>, controllers: Controllers, i: nat, problem: RouteProblem)
    requires Faults(routes, controllers, i, problem)
    ensures IsPatch(routes[..i], controllers) && IsSo(problem, routes[..i], routes[i], controllers)
  {
    var before, route := routes[..i], routes[i];
    PatchFitsIff(before, controllers);
    if problem == OutputsOverlap {
      assert routes[..i + 1] == before + [route];
      PatchFitsIff(before + [route], controllers);
      RouteFitsIff(route, controllers);
      LastSharesSlot(before, route, controllers);
    }
  }

  lemma LastSharesSlot(before: seq<Route>, route: Route, controllers: Controllers)
    requires IsPatch(before, controllers) && !IsPatch(before + [route], controllers) && RouteFits(route, controllers)
    requires forall k :: 0 <= k < |before| ==> before[k].id != route.id
    ensures exists k :: 0 <= k < |before| && before[k].target.Pixels? && ShareSlot(before[k], route)
  {
    var all := before + [route];
    forall i, j | 0 <= i < j < |all| ensures all[i].id != all[j].id {}
    forall i | 0 <= i < |all| ensures RouteFits(all[i], controllers) {}
    forall i, j | 0 <= i < j < |before| ensures !ShareSlot(all[i], all[j]) {
      assert before[i] == all[i] && before[j] == all[j];
    }
    var i, j :| 0 <= i < j < |all| && ShareSlot(all[i], all[j]);
  }

  /** The nonempty ranges taken on each port. */
  ghost predicate OccupiedBy(occupied: map<Port, seq<Range>>, routes: seq<Route>, controllers: Controllers) {
    forall port: Port, r :: r in (if port in occupied then occupied[port] else [])
      <==> r.port == port && r.start < r.end &&
           exists i :: 0 <= i < |routes|
             && RangeOf(routes[i], controllers) == Some(r)
  }

  method MeetsAny(ranges: seq<Range>, range: Range) returns (r: bool)
    ensures r <==> exists k :: 0 <= k < |ranges| && range.start < ranges[k].end && ranges[k].start < range.end
  {
    var k := 0;
    while k < |ranges|
      invariant 0 <= k <= |ranges|
      invariant forall j :: 0 <= j < k ==> !(range.start < ranges[j].end && ranges[j].start < range.end)
    {
      if range.start < ranges[k].end && ranges[k].start < range.end {
        return true;
      }
      k := k + 1;
    }
    r := false;
  }

  lemma OverlappingIsOccupied(occupied: map<Port, seq<Range>>, routes: seq<Route>, controllers: Controllers,
                              range: Range, ranges: seq<Range>, other: Range)
    requires OccupiedBy(occupied, routes, controllers)
             && ranges == if range.port in occupied then occupied[range.port] else []
    requires exists i :: 0 <= i < |routes| && RangeOf(routes[i], controllers) == Some(other)
    ensures other.Overlaps(range) ==>
              exists k :: 0 <= k < |ranges| && range.start < ranges[k].end && ranges[k].start < range.end
  {
    if other.Overlaps(range) {
      assert other in ranges;
      var k :| 0 <= k < |ranges| && ranges[k] == other;
    }
  }

  /** A range that meets none occupied leaves the patch fitting; one that meets some does not. */
  lemma FitsOneMore(occupied: map<Port, seq<Range>>, routes: seq<Route>, controllers: Controllers, route: Route,
                    range: Range, ranges: seq<Range>)
    requires PatchFits(routes, controllers) && OccupiedBy(occupied, routes, controllers)
    requires RangeOf(route, controllers) == Some(range)
             && ranges == if range.port in occupied then occupied[range.port] else []
    requires forall i :: 0 <= i < |routes| ==> routes[i].id != route.id
    ensures PatchFits(routes + [route], controllers) <==>
            !(range.start < range.end
              && exists k :: 0 <= k < |ranges| && range.start < ranges[k].end && ranges[k].start < range.end)
  {
    var more := routes + [route];
    if range.start < range.end &&
        exists k :: 0 <= k < |ranges| && range.start < ranges[k].end
          && ranges[k].start < range.end {
      var k :| 0 <= k < |ranges| && range.start < ranges[k].end && ranges[k].start < range.end;
      assert ranges[k] in ranges;
      var i :| 0 <= i < |routes| && RangeOf(routes[i], controllers) == Some(ranges[k]);
      assert more[i] == routes[i] && more[|routes|] == route;
      assert RangeOf(more[i], controllers).value.Overlaps(RangeOf(more[|routes|], controllers).value);
    } else {
      forall i | 0 <= i < |routes| ensures !RangeOf(routes[i], controllers).value.Overlaps(range) {
        OverlappingIsOccupied(occupied, routes, controllers, range, ranges, RangeOf(routes[i], controllers).value);
      }
    }
  }

  lemma OccupyOneMore(occupied: map<Port, seq<Range>>, routes: seq<Route>, controllers: Controllers, route: Route,
                      range: Range, ranges: seq<Range>)
    requires OccupiedBy(occupied, routes, controllers) && RangeOf(route, controllers) == Some(range)
    requires ranges == if range.port in occupied then occupied[range.port] else []
    ensures OccupiedBy(occupied[range.port := if range.start < range.end then ranges + [range] else ranges],
                       routes + [route], controllers)
  {
    var more := routes + [route];
    forall r: Range
      ensures (exists i :: 0 <= i < |more| && RangeOf(more[i], controllers) == Some(r))
         <==> r == range || exists i :: 0 <= i < |routes| && RangeOf(routes[i], controllers) == Some(r)
    {
      if i :| 0 <= i < |routes| && RangeOf(routes[i], controllers) == Some(r) { assert more[i] == routes[i]; }
      if r == range { assert more[|routes|] == route; }
    }
  }

  /** The first route at fault is route `i`, for this problem. */
  ghost predicate Faults(routes: seq<Route>, controllers: Controllers, i: nat, problem: RouteProblem) {
    && i < |routes| && PatchFits(routes[..i], controllers)
    && if exists k :: 0 <= k < i && routes[k].id == routes[i].id then problem == DuplicateId
       else if OwnProblem(routes[i], controllers).Some? then problem == OwnProblem(routes[i], controllers).value
       else problem == OutputsOverlap && !PatchFits(routes[..i + 1], controllers)
  }

  /** The first `n` routes pass; their ids and the slots they take are noted. */
  ghost predicate PassedUpTo(routes: seq<Route>, controllers: Controllers, n: nat, ids: set<nat>,
                             occupied: map<Port, seq<Range>>) {
    && n <= |routes| && PatchFits(routes[..n], controllers) && OccupiedBy(occupied, routes[..n], controllers)
    && forall id :: id in ids <==> exists k :: 0 <= k < n && routes[k].id == id
  }

  /** Check one route against those before it, and note its slots if it passes. */
  method CheckRoute(routes: seq<Route>, controllers: Controllers, i: nat, ids: set<nat>,
                    occupied0: map<Port, seq<Range>>)
    returns (problem: Option<RouteProblem>, occupied: map<Port, seq<Range>>)
    requires PassedUpTo(routes, controllers, i, ids, occupied0) && i < |routes|
    ensures problem.Some? ==> Faults(routes, controllers, i, problem.value) && !PatchFits(routes[..i + 1], controllers)
    ensures problem.None? ==> PassedUpTo(routes, controllers, i + 1, ids + {routes[i].id}, occupied)
  {
    var route := routes[i];
    assert routes[..i + 1] == routes[..i] + [route];
    occupied := occupied0;
    if route.id in ids {
      return Some(DuplicateId), occupied;
    }
    problem := OwnProblem(route, controllers);
    if problem.Some? {
      assert routes[..i + 1][i] == route;
      return;
    }
    var range := RangeOf(route, controllers).value;
    var ranges := if range.port in occupied then occupied[range.port] else [];
    var meets := MeetsAny(ranges, range);
    FitsOneMore(occupied, routes[..i], controllers, route, range, ranges);
    if range.start < range.end && meets {
      return Some(OutputsOverlap), occupied;
    }
    OccupyOneMore(occupied, routes[..i], controllers, route, range, ranges);
    occupied := occupied[range.port := if range.start < range.end then ranges + [range] else ranges];
  }

  /** The check accepts exactly the patches whose routes are in range and share no slot, and
      reports what is wrong with the first route at fault. */
  method ValidatePatch(routes: seq<Route>, controllers: Controllers) returns (r: PatchResult)
    ensures r == PatchOk <==> IsPatch(routes, controllers)
    ensures r.PatchErr? ==> exists i: nat :: Faults(routes, controllers, i, r.problem) && r.route == routes[i].id
                                             && IsSo(r.problem, routes[..i], routes[i], controllers)
  {
    PatchFitsIff(routes, controllers);
    var ids: set<nat>, occupied: map<Port, seq<Range>>, i := {}, map[], 0;
    while i < |routes|
      invariant PassedUpTo(routes, controllers, i, ids, occupied)
    {
      var problem;
      problem, occupied := CheckRoute(routes, controllers, i, ids, occupied);
      if problem.Some? {
        PrefixFits(routes, controllers, i + 1);
        FaultIsSo(routes, controllers, i, problem.value);
        return PatchErr(routes[i].id, problem.value);
      }
      ids := ids + {routes[i].id};
      i := i + 1;
    }
    assert routes[..i] == routes;
    r := PatchOk;
  }

  lemma PrefixFits(routes: seq<Route>, controllers: Controllers, n: nat)
    requires n <= |routes|
    ensures PatchFits(routes, controllers) ==> PatchFits(routes[..n], controllers)
  {
  }

  // ---------- Imported routes ----------

  /** Each run of each fixture placed, in order. */
  function PlacedRuns(placed: seq<Placed>): seq<(Placed, Run)> {
    if placed == [] then []
    else PlacedRuns(placed[..|placed| - 1]) + RunsWith(placed[|placed| - 1], placed[|placed| - 1].runs)
  }

  function RunsWith(p: Placed, runs: seq<Run>): (r: seq<(Placed, Run)>)
    ensures |r| == |runs| && forall i :: 0 <= i < |r| ==> r[i] == (p, runs[i])
  {
    if runs == [] then [] else [(p, runs[0])] + RunsWith(p, runs[1..])
  }

  /** The route of a run: its fixture as the target, its span unless it covers every pixel,
      and its first slot cut to 16 bits. */
  function RouteOf(id: nat, p: Placed, run: Run, outputs: map<Port, Port>): Route
    requires run.first.Port() in outputs
  {
    var (controller, port) := outputs[run.first.Port()];
    Route(id, true, p.id, Pixels(p.fixture.pixels),
          if run.count != p.fixture.pixels then Some(Span(run.start, run.count)) else None,
          controller, port, run.first.offset % 0x1_0000, p.fixture.channels)
  }

  /** The routes, numbered from 1. */
  function RoutesFor(runs: seq<(Placed, Run)>, outputs: map<Port, Port>): (r: seq<Route>)
    requires forall i :: 0 <= i < |runs| ==> runs[i].1.first.Port() in outputs
    ensures |r| == |runs| && forall i :: 0 <= i < |r| ==> r[i] == RouteOf(i + 1, runs[i].0, runs[i].1, outputs)
  {
    seq(|runs|, i requires 0 <= i < |runs| => RouteOf(i + 1, runs[i].0, runs[i].1, outputs))
  }

  /** Each output the importer built is a port of its own, as wide as the profile says, of
      at most 65,535 slots. */
  ghost predicate OutputsFit(outputs: map<Port, Port>, ports: map<Port, nat>, controllers: Controllers) {
    && outputs.Keys == ports.Keys
    && (forall a, b :: a in outputs && b in outputs && outputs[a] == outputs[b] ==> a == b)
    && forall a :: a in outputs ==>
         && outputs[a].0 in controllers && outputs[a].1 in controllers[outputs[a].0]
         && controllers[outputs[a].0][outputs[a].1] == ports[a] <= 0xFFFF
  }

  /** The fixture's pixels are those patched, each of at least one channel, and its runs
      cover them. */
  ghost predicate PlacedFits(p: Placed, ports: map<Port, nat>) {
    && p.fixture.channels > 0 && p.fixture.pixels <= U32_MAX
    && (p.runs != [] ==> IsRuns(p.runs, p.fixture.channels, ports) && Covered(p.runs) == p.fixture.pixels)
  }

  lemma {:induction false} RunWithinCovered(runs: seq<Run>, i: nat)
    requires i < |runs| &&
             forall k, j :: 0 <= k && j == k + 1 < |runs|
               ==> runs[j].start == runs[k].start + runs[k].count
    ensures runs[i].start + runs[i].count <= Covered(runs)
    decreases |runs| - i
  {
    if i + 1 < |runs| { RunWithinCovered(runs, i + 1); }
  }

  lemma AtLeastCount(count: nat, channels: nat)
    requires channels > 0 && count > 0
    ensures count * channels > 0
  {
  }

  /** A run's route sends exactly to the run's slots. */
  lemma RouteSendsRun(id: nat, p: Placed, run: Run, j: nat, outputs: map<Port, Port>, ports: map<Port, nat>,
                      controllers: Controllers)
    requires OutputsFit(outputs, ports, controllers) && PlacedFits(p, ports) && j < |p.runs| && run == p.runs[j]
    ensures run.first.Port() in outputs && run.first.offset < run.End(p.fixture.channels)
    ensures RangeOf(RouteOf(id, p, run, outputs), controllers)
         == Some(Range(outputs[run.first.Port()], run.first.offset, run.End(p.fixture.channels)))
  {
    assert RunFits(run, p.fixture.channels, ports);
    RunWithinCovered(p.runs, j);
    AtLeastCount(run.count, p.fixture.channels);
    assert run.first.offset % 0x1_0000 == run.first.offset;
  }

  /** No two of the fixture's own runs share a slot. */
  ghost predicate OwnApart(p: Placed) {
    forall i, j :: 0 <= i < j < |p.runs| ==> !RunsMeet(p.runs[i], p.fixture.channels, p.runs[j], p.fixture.channels)
  }

  ghost predicate PairMeets(a: (Placed, Run), b: (Placed, Run)) {
    RunsMeet(a.1, a.0.fixture.channels, b.1, b.0.fixture.channels)
  }

  ghost predicate PairsApart(runs: seq<(Placed, Run)>) {
    forall i, j :: 0 <= i < j < |runs| ==> !PairMeets(runs[i], runs[j])
  }

  lemma PairsApartAppend(a: seq<(Placed, Run)>, b: seq<(Placed, Run)>)
    ensures PairsApart(a + b) <==> PairsApart(a) && PairsApart(b) &&
                                   forall x, y :: x in a && y in b
                                     ==> !PairMeets(x, y)
  {
    var c := a + b;
    if PairsApart(c) {
      forall i, j | 0 <= i < j < |a| ensures !PairMeets(a[i], a[j]) { assert c[i] == a[i] && c[j] == a[j]; }
      forall i, j | 0 <= i < j < |b| ensures !PairMeets(b[i], b[j]) { assert c[|a| + i] == b[i] && c[|a| + j] == b[j]; }
      forall x, y | x in a && y in b ensures !PairMeets(x, y) {
        var i :| 0 <= i < |a| && a[i] == x;
        var j :| 0 <= j < |b| && b[j] == y;
        assert c[i] == x && c[|a| + j] == y;
      }
    }
    if PairsApart(a) && PairsApart(b) && forall x, y :: x in a && y in b ==> !PairMeets(x, y) {
      forall i, j | 0 <= i < j < |c| ensures !PairMeets(c[i], c[j]) {
        if i < |a| <= j { assert c[i] in a && c[j] in b; }
      }
    }
  }

  lemma {:induction false} PlacedRunsHas(placed: seq<Placed>, x: (Placed, Run))
    ensures x in PlacedRuns(placed) <==> x.0 in placed && x.1 in x.0.runs
  {
    if placed != [] {
      var init, last := placed[..|placed| - 1], placed[|placed| - 1];
      assert placed == init + [last];
      PlacedRunsHas(init, x);
      if x.0 == last && x.1 in last.runs {
        var j :| 0 <= j < |last.runs| && last.runs[j] == x.1;
        assert RunsWith(last, last.runs)[j] == x;
      }
    }
  }

  lemma {:induction false} OwnPairs(p: Placed)
    ensures PairsApart(RunsWith(p, p.runs)) <==> OwnApart(p)
  {
    var pairs := RunsWith(p, p.runs);
    if PairsApart(pairs) {
      forall i, j | 0 <= i < j < |p.runs|
        ensures !RunsMeet(p.runs[i], p.fixture.channels, p.runs[j], p.fixture.channels)
      {
        assert !PairMeets(pairs[i], pairs[j]);
      }
    }
  }

  /** Fixtures apart from each other have all runs apart exactly when each has its own
      runs apart. */
  lemma {:induction false} AllApartIff(placed: seq<Placed>)
    requires Apart(placed)
    ensures PairsApart(PlacedRuns(placed)) <==> forall p :: p in placed ==> OwnApart(p)
  {
    if placed != [] {
      var init, last := placed[..|placed| - 1], placed[|placed| - 1];
      assert placed == init + [last];
      AllApartIff(init);
      OwnPairs(last);
      PairsApartAppend(PlacedRuns(init), RunsWith(last, last.runs));
      forall x, y | x in PlacedRuns(init) && y in RunsWith(last, last.runs) ensures !PairMeets(x, y) {
        PlacedRunsHas(init, x);
        ApartPairs(placed, x, y);
      }
    }
  }

  lemma ApartPairs(placed: seq<Placed>, x: (Placed, Run), y: (Placed, Run))
    requires Apart(placed) && placed != [] && x.0 in placed[..|placed| - 1] && x.1 in x.0.runs
    requires y.0 == placed[|placed| - 1] && y.1 in y.0.runs
    ensures !PairMeets(x, y)
  {
    var i :| 0 <= i < |placed| - 1 && placed[i] == x.0;
    var j :| 0 <= j < |x.0.runs| && x.0.runs[j] == x.1;
    var k :| 0 <= k < |y.0.runs| && y.0.runs[k] == y.1;
    assert !FixturesMeet(placed[i], placed[|placed| - 1]);
  }

  /** Routes of fixtures apart from each other are all in range, and they pass the patch check
      exactly when no fixture's own runs overlap. */
  lemma {:induction false} RoutesFitIff(placed: seq<Placed>, outputs: map<Port, Port>, ports: map<Port, nat>,
                                        controllers: Controllers)
    requires Apart(placed) && OutputsFit(outputs, ports, controllers)
    requires forall p :: p in placed ==> PlacedFits(p, ports)
    ensures forall i :: 0 <= i < |PlacedRuns(placed)| ==> PlacedRuns(placed)[i].1.first.Port() in outputs
    ensures PatchFits(RoutesFor(PlacedRuns(placed), outputs), controllers) <==> forall p :: p in placed ==> OwnApart(p)
  {
    var runs := PlacedRuns(placed);
    forall i | 0 <= i < |runs|
      ensures runs[i].1.first.Port() in outputs && runs[i].1.first.offset < runs[i].1.End(runs[i].0.fixture.channels)
      ensures RangeOf(RouteOf(i + 1, runs[i].0, runs[i].1, outputs), controllers)
           == Some(Range(outputs[runs[i].1.first.Port()], runs[i].1.first.offset,
                         runs[i].1.End(runs[i].0.fixture.channels)))
    {
      assert runs[i] in runs;
      PlacedRunsHas(placed, runs[i]);
      var j :| 0 <= j < |runs[i].0.runs| && runs[i].0.runs[j] == runs[i].1;
      RouteSendsRun(i + 1, runs[i].0, runs[i].1, j, outputs, ports, controllers);
    }
    AllApartIff(placed);
    SendApartIff(runs, outputs, ports, controllers);
  }

  /** Routes overlap exactly where the runs they send meet. */
  lemma SendApartIff(runs: seq<(Placed, Run)>, outputs: map<Port, Port>, ports: map<Port, nat>,
                     controllers: Controllers)
    requires OutputsFit(outputs, ports, controllers)
    requires forall i :: 0 <= i < |runs| ==> runs[i].1.first.Port() in outputs
                                             && runs[i].1.first.offset < runs[i].1.End(runs[i].0.fixture.channels)
    requires forall i :: 0 <= i < |runs| ==>
               RangeOf(RouteOf(i + 1, runs[i].0, runs[i].1, outputs), controllers)
               == Some(Range(outputs[runs[i].1.first.Port()], runs[i].1.first.offset,
                             runs[i].1.End(runs[i].0.fixture.channels)))
    ensures PatchFits(RoutesFor(runs, outputs), controllers) <==> PairsApart(runs)
  {
    var routes := RoutesFor(runs, outputs);
    forall i, j | 0 <= i < j < |runs|
      ensures RangeOf(routes[i], controllers).value.Overlaps(RangeOf(routes[j], controllers).value)
         <==> PairMeets(runs[i], runs[j])
    {
      assert routes[i] == RouteOf(i + 1, runs[i].0, runs[i].1, outputs);
      assert routes[j] == RouteOf(j + 1, runs[j].0, runs[j].1, outputs);
    }
  }

  // ---------- From pixels to a checked patch ----------

  /** The channels of two pixels share a slot. */
  predicate SlotsMeet(a: Slot, b: Slot, channels: nat) {
    a.Port() == b.Port() && a.offset < b.offset + channels && b.offset < a.offset + channels
  }

  /** No two pixels share a slot. */
  predicate PixelsApart(slots: seq<Slot>, channels: nat) {
    forall i, j :: 0 <= i < j < |slots| ==> !SlotsMeet(slots[i], slots[j], channels)
  }

  predicate NoneMeet(a: seq<Slot>, b: seq<Slot>, channels: nat) {
    forall x, y :: x in a && y in b ==> !SlotsMeet(x, y, channels)
  }

  lemma PixelsApartAppend(a: seq<Slot>, b: seq<Slot>, channels: nat)
    ensures PixelsApart(a + b, channels)
            <==> PixelsApart(a, channels) && PixelsApart(b, channels)
                 && NoneMeet(a, b, channels)
  {
    var c := a + b;
    if PixelsApart(c, channels) {
      forall i, j | 0 <= i < j < |a| ensures !SlotsMeet(a[i], a[j], channels) { assert c[i] == a[i] && c[j] == a[j]; }
      forall i, j | 0 <= i < j < |b| ensures !SlotsMeet(b[i], b[j], channels) {
        assert c[|a| + i] == b[i] && c[|a| + j] == b[j];
      }
      forall x, y | x in a && y in b ensures !SlotsMeet(x, y, channels) {
        var i :| 0 <= i < |a| && a[i] == x;
        var j :| 0 <= j < |b| && b[j] == y;
        assert c[i] == x && c[|a| + j] == y;
      }
    }
    if PixelsApart(a, channels) && PixelsApart(b, channels) && NoneMeet(a, b, channels) {
      forall i, j | 0 <= i < j < |c| ensures !SlotsMeet(c[i], c[j], channels) {
        if i < |a| <= j { assert c[i] in a && c[j] in b; }
      }
    }
  }

  /** The slot of the run's pixel `k`. */
  function PixelOf(run: Run, k: nat, channels: nat): Slot {
    Slot(run.first.controller, run.first.output, run.first.offset + k * channels)
  }

  lemma {:induction false} ExpandedRun(run: Run, channels: nat)
    ensures forall k :: 0 <= k < run.count ==> ExpandRun(run, channels)[k] == PixelOf(run, k, channels)
    decreases run.count
  {
    if run.count > 0 { ExpandedRun(run.(count := run.count - 1), channels); }
  }

  lemma LaterPixel(k: nat, l: nat, channels: nat)
    requires k < l
    ensures (k + 1) * channels <= l * channels && (k + 1) * channels == k * channels + channels
  {
    assert l * channels == (k + 1) * channels + (l - (k + 1)) * channels;
  }

  /** A run's own pixels are apart. */
  lemma {:induction false} RunIsApart(run: Run, channels: nat)
    ensures PixelsApart(ExpandRun(run, channels), channels)
  {
    ExpandedRun(run, channels);
    forall k, l | 0 <= k < l < run.count
      ensures !SlotsMeet(PixelOf(run, k, channels), PixelOf(run, l, channels), channels) {
      LaterPixel(k, l, channels);
    }
  }

  lemma NoFewerSlots(k: nat, l: nat, channels: nat)
    ensures k <= l ==> k * channels <= l * channels
  {
    if k < l { LaterPixel(k, l, channels); }
  }

  /** The pixel of a run that holds the slot `offset`. */
  lemma PixelAt(run: Run, offset: nat, channels: nat) returns (k: nat)
    requires channels > 0 && run.first.offset <= offset < run.End(channels)
    ensures k < run.count && PixelOf(run, k, channels).offset <= offset < PixelOf(run, k, channels).offset + channels
  {
    var d := offset - run.first.offset;
    k := d / channels;
    assert d == k * channels + d % channels;
    NoFewerSlots(run.count, k, channels);
  }

  lemma PixelInRun(run: Run, k: nat, channels: nat)
    requires k < run.count
    ensures run.first.offset <= PixelOf(run, k, channels).offset
    ensures PixelOf(run, k, channels).offset + channels <= run.End(channels)
  {
    LaterPixel(k, run.count, channels);
  }

  /** The run pixel `i` is in. */
  lemma {:induction false} RunOfPixel(runs: seq<Run>, channels: nat, i: nat) returns (j: nat)
    requires runs != [] ==> runs[0].start == 0
    requires forall k, l :: 0 <= k && l == k + 1 < |runs| ==> runs[l].start == runs[k].start + runs[k].count
    requires i < |Expand(runs, channels)|
    ensures j < |runs| && runs[j].start <= i < runs[j].start + runs[j].count
    ensures Expand(runs, channels)[i] == PixelOf(runs[j], i - runs[j].start, channels)
  {
    var init, last := runs[..|runs| - 1], runs[|runs| - 1];
    CoveredIs(init, channels);
    if i < |Expand(init, channels)| {
      j := RunOfPixel(init, channels, i);
    } else {
      j := |runs| - 1;
      ExpandedRun(last, channels);
    }
  }

  lemma {:induction false} LaterRun(runs: seq<Run>, j: nat, k: nat)
    requires j < k < |runs|
    requires forall k, l :: 0 <= k && l == k + 1 < |runs| ==> runs[l].start == runs[k].start + runs[k].count
    ensures runs[j].start + runs[j].count <= runs[k].start
  {
    if j + 1 < k { LaterRun(runs, j, k - 1); }
  }

  /** Pixel `k` of run `j` is pixel `runs[j].start + k`. */
  lemma {:induction false} PixelOfRun(runs: seq<Run>, channels: nat, j: nat, k: nat)
    requires runs != [] ==> runs[0].start == 0
    requires forall k, l :: 0 <= k && l == k + 1 < |runs| ==> runs[l].start == runs[k].start + runs[k].count
    requires j < |runs| && k < runs[j].count
    ensures runs[j].start + k < |Expand(runs, channels)|
    ensures Expand(runs, channels)[runs[j].start + k] == PixelOf(runs[j], k, channels)
  {
    CoveredIs(runs, channels);
    RunWithinCovered(runs, j);
    var i := runs[j].start + k;
    var j' := RunOfPixel(runs, channels, i);
    if j' < j {
      LaterRun(runs, j', j);
    } else if j < j' {
      LaterRun(runs, j, j');
    }
  }

  /** Two runs share a slot exactly when two of their pixels do: then the first pixel of the
      one that starts later shares one. */
  lemma {:induction false} RunsMeetIff(a: Run, b: Run, channels: nat)
    requires channels > 0 && a.count > 0 && b.count > 0
    ensures RunsMeet(a, channels, b, channels) <==> !NoneMeet(ExpandRun(a, channels), ExpandRun(b, channels), channels)
  {
    var xs, ys := ExpandRun(a, channels), ExpandRun(b, channels);
    ExpandedRun(a, channels);
    ExpandedRun(b, channels);
    if RunsMeet(a, channels, b, channels) {
      if a.first.offset <= b.first.offset {
        var k := PixelAt(a, b.first.offset, channels);
        assert xs[k] in xs && ys[0] in ys && SlotsMeet(xs[k], ys[0], channels);
      } else {
        var k := PixelAt(b, a.first.offset, channels);
        assert xs[0] in xs && ys[k] in ys && SlotsMeet(xs[0], ys[k], channels);
      }
    }
    if x, y :| x in xs && y in ys && SlotsMeet(x, y, channels) {
      var k :| 0 <= k < |xs| && xs[k] == x;
      var l :| 0 <= l < |ys| && ys[l] == y;
      PixelInRun(a, k, channels);
      PixelInRun(b, l, channels);
    }
  }

  /** The slot is that of a pixel of some run. */
  predicate SomeRunHas(runs: seq<Run>, channels: nat, s: Slot) {
    exists i :: 0 <= i < |runs| && s in ExpandRun(runs[i], channels)
  }

  lemma {:induction false} SomeRunAppend(runs: seq<Run>, last: Run, channels: nat, s: Slot)
    ensures SomeRunHas(runs + [last], channels, s) <==> SomeRunHas(runs, channels, s) || s in ExpandRun(last, channels)
  {
    var all := runs + [last];
    if SomeRunHas(runs, channels, s) {
      var i :| 0 <= i < |runs| && s in ExpandRun(runs[i], channels);
      assert all[i] == runs[i];
    }
    if SomeRunHas(all, channels, s) {
      var i :| 0 <= i < |all| && s in ExpandRun(all[i], channels);
      if i < |runs| { assert runs[i] == all[i]; }
    }
    assert all[|runs|] == last;
  }

  lemma {:induction false} ExpandedHas(runs: seq<Run>, channels: nat, s: Slot)
    ensures s in Expand(runs, channels) <==> SomeRunHas(runs, channels, s)
  {
    if runs != [] {
      ExpandedHas(runs[..|runs| - 1], channels, s);
      SomeRunAppend(runs[..|runs| - 1], runs[|runs| - 1], channels, s);
      assert runs == runs[..|runs| - 1] + [runs[|runs| - 1]];
    }
  }

  /** No run meets the last one exactly when no pixel of the others meets one of its. */
  lemma {:induction false} MeetLastIff(runs: seq<Run>, last: Run, channels: nat)
    requires channels > 0 && last.count > 0 && forall i :: 0 <= i < |runs| ==> runs[i].count > 0
    ensures (forall i :: 0 <= i < |runs| ==> !RunsMeet(runs[i], channels, last, channels))
        <==> NoneMeet(Expand(runs, channels), ExpandRun(last, channels), channels)
  {
    var xs, ys := Expand(runs, channels), ExpandRun(last, channels);
    forall i | 0 <= i < |runs|
      ensures RunsMeet(runs[i], channels, last, channels) <==> !NoneMeet(ExpandRun(runs[i], channels), ys, channels)
    {
      RunsMeetIff(runs[i], last, channels);
    }
    forall s ensures s in xs <==> SomeRunHas(runs, channels, s) {
      ExpandedHas(runs, channels, s);
    }
  }

  ghost predicate RunsApart(runs: seq<Run>, channels: nat) {
    forall i, j :: 0 <= i < j < |runs| ==> !RunsMeet(runs[i], channels, runs[j], channels)
  }

  /** Runs share no slot exactly when the pixels they stand for share none. */
  lemma {:induction false} RunsApartIff(runs: seq<Run>, channels: nat)
    requires channels > 0 && forall i :: 0 <= i < |runs| ==> runs[i].count > 0
    ensures RunsApart(runs, channels) <==> PixelsApart(Expand(runs, channels), channels)
  {
    if runs != [] {
      var init, last := runs[..|runs| - 1], runs[|runs| - 1];
      RunsApartIff(init, channels);
      RunIsApart(last, channels);
      MeetLastIff(init, last, channels);
      PixelsApartAppend(Expand(init, channels), ExpandRun(last, channels), channels);
    }
  }

  lemma {:induction false} CoveredIs(runs: seq<Run>, channels: nat)
    requires runs != [] ==> runs[0].start == 0
    requires forall k, j :: 0 <= k && j == k + 1 < |runs| ==> runs[j].start == runs[k].start + runs[k].count
    ensures Covered(runs) == |Expand(runs, channels)|
  {
    if runs != [] { CoveredIs(runs[..|runs| - 1], channels); }
  }

  /** A fixture as the readers give it: at least one channel a pixel, a slot for each pixel
      if it is patched. */
  predicate IsPatched(f: Fixture) {
    f.channels > 0 && f.pixels <= U32_MAX && (f.slots.Some? ==> |f.slots.value| == f.pixels)
  }

  /** All pixels of the fixture have a slot, and some two of them share one. */
  predicate OverlapsItself(f: Fixture, ports: map<Port, nat>) {
    && f.slots.Some? && !PixelsApart(f.slots.value, f.channels)
    && forall i :: 0 <= i < |f.slots.value| ==> PixelFits(f.slots.value[i], f.channels, ports)
  }

  lemma PlacedFitsItsFixture(p: Placed, ports: map<Port, nat>)
    requires RunsOf(p.fixture, p.runs, ports) && IsPatched(p.fixture)
    ensures PlacedFits(p, ports) && (OwnApart(p) <==> !OverlapsItself(p.fixture, ports))
  {
    var channels := p.fixture.channels;
    if IsRuns(p.runs, channels, ports) {
      CoveredIs(p.runs, channels);
      forall i | 0 <= i < |p.runs| ensures p.runs[i].count > 0 { assert RunFits(p.runs[i], channels, ports); }
      RunsApartIff(p.runs, channels);
    }
  }

  /** The routes imported from any fixtures are in range, and they pass the patch check
      exactly when no fixture placed has two pixels sharing a slot. */
  lemma {:induction false} ImportedPatchFits(fixtures: seq<Fixture>, placed: seq<Placed>, outputs: map<Port, Port>,
                                             ports: map<Port, nat>, controllers: Controllers)
    requires PlacedFrom(fixtures, ports, placed) && OutputsFit(outputs, ports, controllers)
    requires forall f :: f in fixtures ==> IsPatched(f)
    ensures forall i :: 0 <= i < |PlacedRuns(placed)| ==> PlacedRuns(placed)[i].1.first.Port() in outputs
    ensures PatchFits(RoutesFor(PlacedRuns(placed), outputs), controllers)
        <==> forall p :: p in placed ==> !OverlapsItself(p.fixture, ports)
  {
    PlacedIsApart(fixtures, ports, placed);
    forall p | p in placed ensures PlacedFits(p, ports) && (OwnApart(p) <==> !OverlapsItself(p.fixture, ports)) {
      PlacedFitsItsFixture(p, ports);
    }
    RoutesFitIff(placed, outputs, ports, controllers);
  }

  /** Pixel `i` of one fixture and pixel `k` of the other take a slot of one output in common. */
  predicate PixelsMeet(a: Fixture, i: nat, b: Fixture, k: nat)
    requires a.slots.Some? && b.slots.Some? && i < |a.slots.value| && k < |b.slots.value|
  {
    var x, y := a.slots.value[i], b.slots.value[k];
    x.Port() == y.Port() && x.offset < y.offset + b.channels && y.offset < x.offset + a.channels
  }

  ghost predicate SharePixels(a: Fixture, b: Fixture) {
    && a.slots.Some? && b.slots.Some?
    && exists i: nat, k: nat :: i < |a.slots.value| && k < |b.slots.value| && PixelsMeet(a, i, b, k)
  }

  lemma MeetAtPixels(a: Run, aChannels: nat, b: Run, bChannels: nat) returns (k: nat, l: nat)
    requires RunsMeet(a, aChannels, b, bChannels) && aChannels > 0 && bChannels > 0 && a.count > 0 && b.count > 0
    ensures k < a.count && l < b.count
    ensures PixelOf(a, k, aChannels).offset < PixelOf(b, l, bChannels).offset + bChannels
    ensures PixelOf(b, l, bChannels).offset < PixelOf(a, k, aChannels).offset + aChannels
  {
    k, l := 0, 0;
    if a.first.offset <= b.first.offset {
      k := PixelAt(a, b.first.offset, aChannels);
    } else {
      l := PixelAt(b, a.first.offset, bChannels);
    }
  }

  lemma {:induction false} MeetingShares(a: Placed, b: Placed, ports: map<Port, nat>, m: nat, n: nat)
    requires RunsOf(a.fixture, a.runs, ports) && RunsOf(b.fixture, b.runs, ports)
    requires a.fixture.channels > 0 && b.fixture.channels > 0 && m < |a.runs| && n < |b.runs|
    requires RunsMeet(a.runs[m], a.fixture.channels, b.runs[n], b.fixture.channels)
    ensures SharePixels(a.fixture, b.fixture)
  {
    assert RunFits(a.runs[m], a.fixture.channels, ports) && RunFits(b.runs[n], b.fixture.channels, ports);
    var k, l := MeetAtPixels(a.runs[m], a.fixture.channels, b.runs[n], b.fixture.channels);
    PixelOfRun(a.runs, a.fixture.channels, m, k);
    PixelOfRun(b.runs, b.fixture.channels, n, l);
    assert PixelsMeet(a.fixture, a.runs[m].start + k, b.fixture, b.runs[n].start + l);
  }

  /** The run of a fixture's pixel holds the pixel's channels. */
  lemma {:induction false} RunHolds(p: Placed, ports: map<Port, nat>, i: nat) returns (m: nat)
    requires RunsOf(p.fixture, p.runs, ports) && p.runs != []
    requires p.fixture.slots.Some? && i < |p.fixture.slots.value|
    ensures m < |p.runs| && p.runs[m].first.Port() == p.fixture.slots.value[i].Port()
    ensures p.runs[m].first.offset <= p.fixture.slots.value[i].offset
    ensures p.fixture.slots.value[i].offset + p.fixture.channels <= p.runs[m].End(p.fixture.channels)
  {
    m := RunOfPixel(p.runs, p.fixture.channels, i);
    PixelInRun(p.runs[m], i - p.runs[m].start, p.fixture.channels);
  }

  /** Two fixtures with runs meet exactly when a pixel of one shares a slot with one of the other. */
  lemma {:induction false} FixturesMeetIff(a: Placed, b: Placed, ports: map<Port, nat>)
    requires RunsOf(a.fixture, a.runs, ports) && RunsOf(b.fixture, b.runs, ports) && a.runs != [] && b.runs != []
    requires a.fixture.channels > 0 && b.fixture.channels > 0
    ensures FixturesMeet(a, b) <==> SharePixels(a.fixture, b.fixture)
  {
    if FixturesMeet(a, b) {
      var m, n :| 0 <= m < |a.runs| && 0 <= n < |b.runs|
                  && RunsMeet(a.runs[m], a.fixture.channels, b.runs[n], b.fixture.channels);
      MeetingShares(a, b, ports, m, n);
    }
    if SharePixels(a.fixture, b.fixture) {
      var i: nat, k: nat :| i < |a.fixture.slots.value| && k < |b.fixture.slots.value|
                            && PixelsMeet(a.fixture, i, b.fixture, k);
      var m := RunHolds(a, ports, i);
      var n := RunHolds(b, ports, k);
      assert RunsMeet(a.runs[m], a.fixture.channels, b.runs[n], b.fixture.channels);
    }
  }

  // ---------- Where each pixel is sent ----------

  /** The route sends pixel `i` of fixture `id`: its span has it, or it sends the whole fixture. */
  predicate SendsPixel(route: Route, id: nat, i: nat) {
    && route.fixture == id && route.target.Pixels?
    && if route.span.Some? then route.span.value.start <= i < route.span.value.start + route.span.value.count
       else i < route.target.count
  }

  /** The first pixel the route sends. */
  function FirstSent(route: Route): nat { if route.span.Some? then route.span.value.start else 0 }

  /** Of all routes exactly one sends pixel `i` of the fixture placed: it goes to the output built
      for the pixel's slot, and sends the pixel where the slot is. */
  ghost predicate PixelIsSent(routes: seq<Route>, p: Placed, i: nat, outputs: map<Port, Port>)
    requires p.fixture.slots.Some? && i < |p.fixture.slots.value|
  {
    exists m: nat ::
      && m < |routes| && SendsPixel(routes[m], p.id, i)
      && (forall n: nat :: n < |routes| && SendsPixel(routes[n], p.id, i) ==> n == m)
      && SentTo(routes[m], p.fixture.slots.value[i], i, outputs) && routes[m].channels == p.fixture.channels
      && routes[m].target == Pixels(p.fixture.pixels) && routes[m].encodingFits
  }

  ghost predicate PixelsAreSent(routes: seq<Route>, p: Placed, outputs: map<Port, Port>) {
    && p.fixture.slots.Some? && |p.fixture.slots.value| == p.fixture.pixels
    && forall i: nat :: i < |p.fixture.slots.value| ==> PixelIsSent(routes, p, i, outputs)
  }

  predicate SentTo(route: Route, slot: Slot, i: nat, outputs: map<Port, Port>) {
    && slot.Port() in outputs && (route.controller, route.port) == outputs[slot.Port()]
    && FirstSent(route) <= i && route.startSlot + (i - FirstSent(route)) * route.channels == slot.offset
  }

  lemma {:induction false} PairIds(placed: seq<Placed>, x: (Placed, Run))
    requires forall a: nat :: a < |placed| ==> placed[a].id == a + 1
    requires x in PlacedRuns(placed)
    ensures x.0.id <= |placed|
  {
    PlacedRunsHas(placed, x);
    var a: nat :| a < |placed| && placed[a] == x.0;
  }

  /** The runs of one fixture are listed in the order of its pixels. */
  lemma {:induction false} SameFixtureAscends(placed: seq<Placed>, ports: map<Port, nat>, m: nat, n: nat)
    requires forall a: nat :: a < |placed| ==> placed[a].id == a + 1
    requires forall p :: p in placed ==> PlacedFits(p, ports)
    requires m < n < |PlacedRuns(placed)| && PlacedRuns(placed)[m].0.id == PlacedRuns(placed)[n].0.id
    ensures PlacedRuns(placed)[m].1.start + PlacedRuns(placed)[m].1.count <= PlacedRuns(placed)[n].1.start
  {
    var init, last := placed[..|placed| - 1], placed[|placed| - 1];
    assert placed == init + [last];
    var before := PlacedRuns(init);
    forall x | x in before ensures x.0.id <= |init| { PairIds(init, x); }
    if n < |before| {
      SameFixtureAscends(init, ports, m, n);
    } else if m < |before| {
      assert false;
    } else {
      assert PlacedFits(last, ports);
      LaterRun(last.runs, m - |before|, n - |before|);
    }
  }

  /** What the route of run `j` sends are the run's pixels. */
  lemma {:induction false} RouteSendsPixels(id: nat, p: Placed, j: nat, outputs: map<Port, Port>,
                                            ports: map<Port, nat>, controllers: Controllers, i: nat)
    requires OutputsFit(outputs, ports, controllers) && PlacedFits(p, ports) && j < |p.runs|
    ensures p.runs[j].first.Port() in outputs
    ensures var run, route := p.runs[j], RouteOf(id, p, p.runs[j], outputs);
            && (SendsPixel(route, p.id, i) <==> run.start <= i < run.start + run.count)
            && FirstSent(route) == run.start && route.startSlot == run.first.offset
            && (route.controller, route.port) == outputs[run.first.Port()]
  {
    RunWithinCovered(p.runs, j);
    RouteSendsRun(id, p, p.runs[j], j, outputs, ports, controllers);
    assert RunFits(p.runs[j], p.fixture.channels, ports);
    assert p.runs[j].End(p.fixture.channels) <= 0xFFFF;
  }

  /** The pixels of a fixture placed are each sent by one route, to its slot. */
  lemma {:induction false} EveryPixelSent(placed: seq<Placed>, outputs: map<Port, Port>, ports: map<Port, nat>,
                                          controllers: Controllers, routes: seq<Route>, p: Placed, i: nat)
    requires forall a: nat :: a < |placed| ==> placed[a].id == a + 1
    requires OutputsFit(outputs, ports, controllers) && forall p :: p in placed ==> PlacedFits(p, ports)
    requires forall m :: 0 <= m < |PlacedRuns(placed)| ==> PlacedRuns(placed)[m].1.first.Port() in outputs
    requires routes == RoutesFor(PlacedRuns(placed), outputs)
    requires p in placed && p.runs != [] && p.fixture.slots.Some? && i < |p.fixture.slots.value|
    requires Expand(p.runs, p.fixture.channels) == p.fixture.slots.value
    ensures PixelIsSent(routes, p, i, outputs)
  {
    var pairs := PlacedRuns(placed);
    assert PlacedFits(p, ports);
    var j := RunOfPixel(p.runs, p.fixture.channels, i);
    PlacedRunsHas(placed, (p, p.runs[j]));
    var m: nat :| m < |pairs| && pairs[m] == (p, p.runs[j]);
    RouteSendsPixels(m + 1, p, j, outputs, ports, controllers, i);
    assert routes[m] == RouteOf(m + 1, p, p.runs[j], outputs);
    forall n: nat | n < |routes| && SendsPixel(routes[n], p.id, i) ensures n == m {
      OtherSends(placed, outputs, ports, controllers, n, i);
      if n < m {
        SameFixtureAscends(placed, ports, n, m);
      } else if m < n {
        SameFixtureAscends(placed, ports, m, n);
      }
    }
    assert SentTo(routes[m], p.fixture.slots.value[i], i, outputs);
  }

  /** Whatever route sends pixel `i` of a fixture, its run has the pixel. */
  lemma {:induction false} OtherSends(placed: seq<Placed>, outputs: map<Port, Port>, ports: map<Port, nat>,
                                      controllers: Controllers, n: nat, i: nat)
    requires OutputsFit(outputs, ports, controllers) && forall p :: p in placed ==> PlacedFits(p, ports)
    requires n < |PlacedRuns(placed)| && PlacedRuns(placed)[n].1.first.Port() in outputs
    ensures var pair := PlacedRuns(placed)[n];
            var route := RouteOf(n + 1, pair.0, pair.1, outputs);
            && route.fixture == pair.0.id
            && (SendsPixel(route, pair.0.id, i) ==> pair.1.start <= i < pair.1.start + pair.1.count)
  {
    var pair := PlacedRuns(placed)[n];
    assert pair in PlacedRuns(placed);
    PlacedRunsHas(placed, pair);
    var j: nat :| j < |pair.0.runs| && pair.0.runs[j] == pair.1;
    RouteSendsPixels(n + 1, pair.0, j, outputs, ports, controllers, i);
  }

  lemma {:induction false} AllPixelsSent(fixtures: seq<Fixture>, placed: seq<Placed>, outputs: map<Port, Port>,
                                         ports: map<Port, nat>, controllers: Controllers, routes: seq<Route>)
    requires PlacedFrom(fixtures, ports, placed) && OutputsFit(outputs, ports, controllers)
    requires forall f :: f in fixtures ==> IsPatched(f)
    requires forall m :: 0 <= m < |PlacedRuns(placed)| ==> PlacedRuns(placed)[m].1.first.Port() in outputs
    requires routes == RoutesFor(PlacedRuns(placed), outputs)
    ensures forall p :: p in placed && p.runs != [] ==> PixelsAreSent(routes, p, outputs)
  {
    PlacedIsApart(fixtures, ports, placed);
    PlacedNumbered(fixtures, ports, placed);
    forall p | p in placed ensures PlacedFits(p, ports) { PlacedFitsItsFixture(p, ports); }
    forall p | p in placed && p.runs != [] ensures PixelsAreSent(routes, p, outputs) {
      forall i: nat | i < |p.fixture.slots.value| ensures PixelIsSent(routes, p, i, outputs) {
        EveryPixelSent(placed, outputs, ports, controllers, routes, p, i);
      }
    }
  }

  /** Place the fixtures, and route their runs to the outputs built: each pixel that is patched is
      sent by one route, to its own slot. The routes pass the patch check exactly when no fixture
      placed has two pixels sharing a slot. */
  method ImportRoutes(fixtures: seq<Fixture>, outputs: map<Port, Port>, ports: map<Port, nat>,
                      ghost controllers: Controllers)
    returns (placed: seq<Placed>, routes: seq<Route>)
    requires OutputsFit(outputs, ports, controllers) && forall f :: f in fixtures ==> IsPatched(f)
    ensures PlacedFrom(fixtures, ports, placed)
    ensures forall i :: 0 <= i < |PlacedRuns(placed)| ==> PlacedRuns(placed)[i].1.first.Port() in outputs
    ensures routes == RoutesFor(PlacedRuns(placed), outputs)
    ensures forall m :: 0 <= m < |routes| ==> routes[m].id == m + 1
    ensures forall p :: p in placed && p.runs != [] ==> PixelsAreSent(routes, p, outputs)
    ensures IsPatch(routes, controllers) <==> forall p :: p in placed ==> !OverlapsItself(p.fixture, ports)
  {
    placed := PlaceFixtures(fixtures, ports);
    ImportedPatchFits(fixtures, placed, outputs, ports, controllers);
    routes := RoutesFor(PlacedRuns(placed), outputs);
    PatchFitsIff(routes, controllers);
    AllPixelsSent(fixtures, placed, outputs, ports, controllers, routes);
  }

  /** A fixture with both pixels at one slot is imported as a patch that does not pass. */
  lemma {:induction false} OverlappingFixtureFails(placed: seq<Placed>, outputs: map<Port, Port>,
                                                   controllers: Controllers)
    requires PlacedFrom([Fixture("f", 2, Some([Slot(0, 0, 0), Slot(0, 0, 0)]), 3)], map[(0, 0) := 512], placed)
    requires OutputsFit(outputs, map[(0, 0) := 512], controllers)
    ensures forall i :: 0 <= i < |PlacedRuns(placed)| ==> PlacedRuns(placed)[i].1.first.Port() in outputs
    ensures !PatchFits(RoutesFor(PlacedRuns(placed), outputs), controllers)
  {
    var s, ports: map<Port, nat> := Slot(0, 0, 0), map[(0, 0) := 512];
    var f := Fixture("f", 2, Some([s, s]), 3);
    ImportedPatchFits([f], placed, outputs, ports, controllers);
    assert placed != [] && placed[|placed| - 1].fixture == f by {
      assert [f][..0] == [];
    }
    assert placed[|placed| - 1] in placed;
    assert SlotsMeet(f.slots.value[0], f.slots.value[1], 3);
  }
}
