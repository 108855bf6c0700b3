/** Picking beats from framewise logits: local maxima, adjacent ones merged in pairs, and
    downbeats moved onto the closest beat. */
module Peaks {
  import opened Options

  /** Frames on each side a peak must dominate. */
  const PEAK_RADIUS := 3

  const FRAMES_PER_SECOND := 50.0

  // ---------- Peak frames ----------

  /** A positive logit that none within the radius exceeds. */
  predicate IsPeak(logits: seq<real>, frame: nat)
    requires frame < |logits|
  {
    && logits[frame] > 0.0
    && forall k :: 0 <= k < |logits| && frame - PEAK_RADIUS <= k <= frame + PEAK_RADIUS ==> logits[k] <= logits[frame]
  }

  /** The logit is positive, and none up to three frames before or after is more. */
  ghost predicate IsLocalMaximum(logits: seq<real>, frame: nat)
    requires frame < |logits|
  {
    0.0 < logits[frame] && forall k :: 0 <= k < |logits| && frame - 3 <= k <= frame + 3 ==> logits[k] <= logits[frame]
  }

  /** The peaks among the first `n` frames. */
  function PeakFrames(logits: seq<real>, n: nat): seq<nat>
    requires n <= |logits|
  {
    if n == 0 then [] else PeakFrames(logits, n - 1) + if IsPeak(logits, n - 1) then [n - 1] else []
  }

  lemma PeakFramesStep(logits: seq<real>, n: nat)
    requires n < |logits|
    ensures PeakFrames(logits, n + 1) == if IsPeak(logits, n) then PeakFrames(logits, n) + [n]
            else PeakFrames(logits, n)
  {
    assert PeakFrames(logits, n) + [] == PeakFrames(logits, n);
  }

  ghost predicate Increasing(frames: seq<nat>) {
    forall i, j :: 0 <= i < j < |frames| ==> frames[i] < frames[j]
  }

  lemma {:induction false} PeaksAre(logits: seq<real>, n: nat)
    requires n <= |logits|
    ensures forall f: nat :: f in PeakFrames(logits, n) <==> f < n && IsLocalMaximum(logits, f)
    ensures Increasing(PeakFrames(logits, n))
  {
    if n > 0 {
      var init := PeakFrames(logits, n - 1);
      PeaksAre(logits, n - 1);
      forall i | 0 <= i < |init| ensures init[i] < n - 1 { assert init[i] in init; }
    }
  }

  // ---------- Merging ----------

  /** A peak frame, or two adjacent ones from `frame` on. */
  datatype Group = One(frame: nat) | Two(frame: nat)
  {
    function Frames(): seq<nat> { if One? then [frame] else [frame, frame + 1] }

    function Mean(): real { if One? then frame as real else frame as real + 0.5 }

    function Count(): real { if One? then 1.0 else 2.0 }
  }

  /** Peaks in the groups their times come from: a peak right after a lone one joins it. */
  function Groups(peaks: seq<nat>): seq<Group> {
    if peaks == [] then []
    else
      var groups, peak := Groups(peaks[..|peaks| - 1]), peaks[|peaks| - 1];
      var last := |groups| - 1;
      if groups != [] && groups[last].One?
          && peak == groups[last].frame + 1 then groups[last := Two(groups[last].frame)]
      else groups + [One(peak)]
  }

  function TimesOf(groups: seq<Group>): (r: seq<real>)
    ensures |r| == |groups| && forall i :: 0 <= i < |r| ==> r[i] == groups[i].Mean() / FRAMES_PER_SECOND
  {
    seq(|groups|, i requires 0 <= i < |groups| => groups[i].Mean() / FRAMES_PER_SECOND)
  }

  function AllFrames(groups: seq<Group>): seq<nat> {
    if groups == [] then [] else AllFrames(groups[..|groups| - 1]) + groups[|groups| - 1].Frames()
  }

  lemma {:induction false} LastFrames(groups: seq<Group>, g: Group)
    ensures AllFrames(groups + [g]) == AllFrames(groups) + g.Frames()
  {
    assert (groups + [g])[..|groups|] == groups;
  }

  lemma JoinedFrames(groups: seq<Group>, peak: nat)
    requires groups != [] && peak > 0 && groups[|groups| - 1] == One(peak - 1)
    ensures AllFrames(groups[|groups| - 1 := Two(peak - 1)]) == AllFrames(groups) + [peak]
  {
    var before := groups[..|groups| - 1];
    assert groups == before + [One(peak - 1)] && groups[|groups| - 1 := Two(peak - 1)] == before + [Two(peak - 1)];
    LastFrames(before, One(peak - 1));
    LastFrames(before, Two(peak - 1));
  }

  /** Every peak is in one group, in order, and no other frame is. */
  lemma {:induction false} EveryPeakOnce(peaks: seq<nat>)
    ensures AllFrames(Groups(peaks)) == peaks
  {
    if peaks != [] {
      var init, peak := peaks[..|peaks| - 1], peaks[|peaks| - 1];
      var groups := Groups(init);
      EveryPeakOnce(init);
      assert peaks == init + [peak];
      if groups != [] && groups[|groups| - 1].One? && peak == groups[|groups| - 1].frame + 1 {
        JoinedFrames(groups, peak);
      } else {
        LastFrames(groups, One(peak));
      }
    }
  }

  /** The last frame of the last group is the last peak. */
  lemma {:induction false} LastPeak(peaks: seq<nat>)
    requires peaks != []
    ensures Groups(peaks) != []
    ensures var g := Groups(peaks)[|Groups(peaks)| - 1];
            peaks[|peaks| - 1] == if g.One? then g.frame else g.frame + 1
  {
  }

  /** Groups lie at least a frame and a half apart. */
  lemma {:induction false} GroupsApart(peaks: seq<nat>)
    requires Increasing(peaks)
    ensures forall i, j :: 0 <= i && j == i + 1 < |Groups(peaks)|
              ==> Groups(peaks)[j].Mean() - Groups(peaks)[i].Mean() >= 1.5
  {
    if |peaks| > 1 {
      var init := peaks[..|peaks| - 1];
      GroupsApart(init);
      LastPeak(init);
      assert init[|init| - 1] < peaks[|peaks| - 1];
    }
  }

  lemma {:induction false} FurtherApart(groups: seq<Group>, i: nat, j: nat)
    requires forall a, b :: 0 <= a && b == a + 1 < |groups| ==> groups[b].Mean() - groups[a].Mean() >= 1.5
    requires i < j < |groups|
    ensures groups[j].Mean() - groups[i].Mean() >= 1.5
    decreases j
  {
    if i + 1 < j { FurtherApart(groups, i, j - 1); }
  }

  /** Times come at least a frame and a half apart, the later ones later. */
  lemma {:induction false} TimesApart(logits: seq<real>, i: nat, j: nat)
    requires i < j < |TimesOf(Groups(PeakFrames(logits, |logits|)))|
    ensures var times := TimesOf(Groups(PeakFrames(logits, |logits|)));
            times[j] - times[i] >= 0.03
  {
    var groups := Groups(PeakFrames(logits, |logits|));
    PeaksAre(logits, |logits|);
    GroupsApart(PeakFrames(logits, |logits|));
    FurtherApart(groups, i, j);
  }

  lemma ThreePeaks()
    ensures PeakFrames([1.0, 1.0, 1.0], 3) == [0, 1, 2]
  {
    var logits := [1.0, 1.0, 1.0];
    PeakFramesStep(logits, 0);
    PeakFramesStep(logits, 1);
    PeakFramesStep(logits, 2);
  }

  lemma ThreeGrouped()
    ensures Groups([0, 1, 2]) == [Two(0), One(2)]
  {
    assert [0, 1, 2][..2] == [0, 1] && [0, 1][..1] == [0] && [0][..0] == [];
    assert Groups([0]) == [One(0)] && Groups([0, 1]) == [Two(0)];
  }

  /** Three peaks in a row do not merge into their mean: the third stands alone. */
  lemma ThreeInARow()
    ensures TimesOf(Groups(PeakFrames([1.0, 1.0, 1.0], 3))) == [0.01, 0.04]
  {
    ThreePeaks();
    ThreeGrouped();
  }

  // ---------- When a whole run becomes its mean ----------

  /** `count` adjacent frames from `first` on. */
  datatype Stretch = Stretch(first: nat, count: nat)
  {
    function Mean(): real { first as real + (count as real - 1.0) / 2.0 }
  }

  /** Peaks in whole runs of adjacent frames. */
  function Stretches(peaks: seq<nat>): seq<Stretch> {
    if peaks == [] then []
    else
      var before, peak := Stretches(peaks[..|peaks| - 1]), peaks[|peaks| - 1];
      var last := |before| - 1;
      if before != [] && peak == before[last].first + before[last].count
      then before[last := Stretch(before[last].first, before[last].count + 1)]
      else before + [Stretch(peak, 1)]
  }

  ghost predicate NoThreeAdjacent(peaks: seq<nat>) {
    forall i, k :: 0 <= i && k == i + 2 < |peaks| ==> peaks[k] != peaks[i] + 2
  }

  /** The last group once `peak` is added. */
  lemma {:induction false} NextGroup(init: seq<nat>, peak: nat)
    requires Groups(init) != []
    ensures var g, groups := Groups(init)[|Groups(init)| - 1], Groups(init + [peak]);
            groups != [] && groups[|groups| - 1] == if g.One? && peak == g.frame + 1 then Two(g.frame) else One(peak)
  {
    assert (init + [peak])[..|init|] == init;
  }

  /** The last stretch once `peak` is added. */
  lemma {:induction false} NextStretch(init: seq<nat>, peak: nat)
    requires Stretches(init) != []
    ensures var s, stretches := Stretches(init)[|Stretches(init)| - 1], Stretches(init + [peak]);
            stretches != []
            && stretches[|stretches| - 1] == if peak == s.first + s.count then Stretch(s.first, s.count + 1)
                else Stretch(peak, 1)
  {
    assert (init + [peak])[..|init|] == init;
  }

  /** The stretch and the group both end on `peak`. */
  predicate EndAt(s: Stretch, g: Group, peak: nat) {
    && s.count > 0 && peak == s.first + s.count - 1
    && g == if s.count % 2 == 1 then One(peak) else Two(s.first + s.count - 2)
  }

  lemma EndAtNext(s: Stretch, g: Group, peak: nat, next: nat)
    requires EndAt(s, g, peak) && peak < next
    ensures EndAt(if next == s.first + s.count then Stretch(s.first, s.count + 1) else Stretch(next, 1),
                  if g.One? && next == g.frame + 1 then Two(g.frame) else One(next), next)
    ensures next == s.first + s.count <==> peak + 1 == next
  {
  }

  /** The last stretch and the last group end on the last peak. */
  lemma {:induction false} LastStretch(peaks: seq<nat>)
    requires Increasing(peaks) && peaks != []
    ensures Stretches(peaks) != [] && Groups(peaks) != []
    ensures var s, g := Stretches(peaks)[|Stretches(peaks)| - 1], Groups(peaks)[|Groups(peaks)| - 1];
            && EndAt(s, g, peaks[|peaks| - 1])
            && (s.count > 1 <==> |peaks| > 1 && peaks[|peaks| - 2] + 1 == peaks[|peaks| - 1])
  {
    if |peaks| > 1 {
      var init, peak := peaks[..|peaks| - 1], peaks[|peaks| - 1];
      assert peaks == init + [peak];
      LastStretch(init);
      NextGroup(init, peak);
      NextStretch(init, peak);
      EndAtNext(Stretches(init)[|Stretches(init)| - 1], Groups(init)[|Groups(init)| - 1], peaks[|peaks| - 2], peak);
    } else {
      assert Stretches(peaks) == [Stretch(peaks[0], 1)] && Groups(peaks) == [One(peaks[0])];
    }
  }

  lemma OneMorePeak(init: seq<nat>, peak: nat)
    requires Increasing(init + [peak])
    ensures NoThreeAdjacent(init + [peak]) <==> NoThreeAdjacent(init) && (|init| > 1 ==> peak != init[|init| - 2] + 2)
  {
    var peaks := init + [peak];
    if NoThreeAdjacent(peaks) {
      forall i, k | 0 <= i && k == i + 2 < |init|
        ensures init[k] != init[i] + 2 { assert peaks[k] == init[k] && peaks[i] == init[i]; }
      if |init| > 1 { assert peaks[|init|] == peak && peaks[|init| - 2] == init[|init| - 2]; }
    }
  }

  lemma AdjacentTwice(init: seq<nat>, peak: nat)
    requires Increasing(init + [peak]) && |init| > 1
    ensures peak == init[|init| - 2] + 2 <==> init[|init| - 2] + 1 == init[|init| - 1] && init[|init| - 1] + 1 == peak
  {
    var peaks := init + [peak];
    assert peaks[|init| - 2] == init[|init| - 2] && peaks[|init| - 1] == init[|init| - 1] && peaks[|init|] == peak;
  }

  /** Groups are whole runs exactly when no three peaks are adjacent. */
  lemma {:induction false} GroupsAreStretches(peaks: seq<nat>)
    requires Increasing(peaks)
    ensures |Stretches(peaks)| <= |Groups(peaks)|
    ensures NoThreeAdjacent(peaks) <==> |Stretches(peaks)| == |Groups(peaks)|
    ensures NoThreeAdjacent(peaks) ==>
              forall i :: 0 <= i < |Groups(peaks)| ==> Groups(peaks)[i].Mean() == Stretches(peaks)[i].Mean()
  {
    if |peaks| > 1 {
      var init, peak := peaks[..|peaks| - 1], peaks[|peaks| - 1];
      assert peaks == init + [peak];
      GroupsAreStretches(init);
      LastStretch(init);
      LastStretch(peaks);
      OneMorePeak(init, peak);
      if |init| > 1 { AdjacentTwice(init, peak); }
    } else if |peaks| == 1 {
      assert Stretches(peaks) == [Stretch(peaks[0], 1)] && Groups(peaks) == [One(peaks[0])];
    }
  }

  /** Every run of adjacent peaks becomes its mean exactly when none is longer than two. */
  lemma {:induction false} RunsBecomeMeansIff(logits: seq<real>)
    ensures NoThreeAdjacent(PeakFrames(logits, |logits|)) <==>
            (var times, runs := TimesOf(Groups(PeakFrames(logits, |logits|))), Stretches(PeakFrames(logits, |logits|));
             |times| == |runs| && forall i :: 0 <= i < |runs| ==> times[i] == runs[i].Mean() / FRAMES_PER_SECOND)
  {
    PeaksAre(logits, |logits|);
    GroupsAreStretches(PeakFrames(logits, |logits|));
  }

  // ---------- The pass over the frames ----------

  /** The times before the run, and the mean and size of the run itself. */
  datatype Run = Run(mean: real, count: real)

  ghost predicate InProgress(groups: seq<Group>, times: seq<real>, run: Option<Run>) {
    if groups == [] then times == [] && run.None?
    else
      var last := groups[|groups| - 1];
      times == TimesOf(groups[..|groups| - 1]) && run == Some(Run(last.Mean(), last.Count()))
  }

  lemma {:induction false} NextPeak(peaks: seq<nat>, peak: nat, times: seq<real>, run: Option<Run>)
    requires Increasing(peaks + [peak]) && InProgress(Groups(peaks), times, run)
    ensures run.None? ==> InProgress(Groups(peaks + [peak]), times, Some(Run(peak as real, 1.0)))
    ensures run.Some? && peak as real - run.value.mean <= 1.0 ==>
              var count := run.value.count + 1.0;
              count != 0.0
              && InProgress(Groups(peaks + [peak]), times,
                            Some(Run(run.value.mean + (peak as real - run.value.mean) / count, count)))
    ensures run.Some? && peak as real - run.value.mean > 1.0 ==>
              InProgress(Groups(peaks + [peak]), times + [run.value.mean / FRAMES_PER_SECOND],
                         Some(Run(peak as real, 1.0)))
  {
    var all := peaks + [peak];
    assert all[..|all| - 1] == peaks;
    var groups := Groups(peaks);
    if peaks != [] {
      LastPeak(peaks);
      assert all[|peaks| - 1] < all[|peaks|];
      var last := groups[|groups| - 1];
      if peak as real - last.Mean() <= 1.0 {
        assert last.One? && peak == last.frame + 1;
        assert Groups(all)[..|groups| - 1] == groups[..|groups| - 1];
      } else {
        assert Groups(all) == groups + [One(peak)];
        assert Groups(all)[..|groups|] == groups && groups == groups[..|groups| - 1] + [last];
      }
    }
  }

  /** A peak joins the run when it is within a frame of its mean, else it starts another. */
  method AddPeak(ghost peaks: seq<nat>, peak: nat, times0: seq<real>, run0: Option<Run>)
    returns (times: seq<real>, run: Option<Run>)
    requires Increasing(peaks + [peak]) && InProgress(Groups(peaks), times0, run0)
    ensures InProgress(Groups(peaks + [peak]), times, run)
  {
    NextPeak(peaks, peak, times0, run0);
    times := times0;
    if run0.None? {
      run := Some(Run(peak as real, 1.0));
    } else if peak as real - run0.value.mean <= 1.0 {
      var count := run0.value.count + 1.0;
      run := Some(Run(run0.value.mean + (peak as real - run0.value.mean) / count, count));
    } else {
      times := times + [run0.value.mean / FRAMES_PER_SECOND];
      run := Some(Run(peak as real, 1.0));
    }
  }

  lemma Finished(groups: seq<Group>, times: seq<real>, run: Option<Run>)
    requires InProgress(groups, times, run)
    ensures TimesOf(groups) == times + if run.Some? then [run.value.mean / FRAMES_PER_SECOND] else []
  {
  }

  /** The times and the run after the first `n` frames. */
  ghost predicate After(logits: seq<real>, n: nat, times: seq<real>, run: Option<Run>) {
    n <= |logits| && InProgress(Groups(PeakFrames(logits, n)), times, run)
  }

  method AddFrame(logits: seq<real>, frame: nat, times0: seq<real>, run0: Option<Run>)
    returns (times: seq<real>, run: Option<Run>)
    requires frame < |logits| && After(logits, frame, times0, run0)
    ensures After(logits, frame + 1, times, run)
  {
    PeakFramesStep(logits, frame);
    if !IsPeak(logits, frame) {
      return times0, run0;
    }
    PeaksAre(logits, frame + 1);
    times, run := AddPeak(PeakFrames(logits, frame), frame, times0, run0);
  }

  /** Peak times of a song. */
  method PeakTimes(logits: seq<real>) returns (times: seq<real>)
    ensures times == TimesOf(Groups(PeakFrames(logits, |logits|)))
  {
    var run: Option<Run>, frame := None, 0;
    times := [];
    while frame < |logits|
      invariant After(logits, frame, times, run)
    {
      times, run := AddFrame(logits, frame, times, run);
      frame := frame + 1;
    }
    Finished(Groups(PeakFrames(logits, |logits|)), times, run);
    if run.Some? {
      times := times + [run.value.mean / FRAMES_PER_SECOND];
    }
  }

  // ---------- Downbeats ----------

  function Distance(a: real, b: real): (d: real)
    ensures 0.0 <= d && (d == a - b || d == b - a)
  {
    if a < b then b - a else a - b
  }

  /** Beat `i` is the closest to `time`, the first of several as close. */
  ghost predicate IsNearest(beats: seq<real>, time: real, i: nat) {
    && i < |beats|
    && (forall j :: 0 <= j < |beats| ==> Distance(beats[i], time) <= Distance(beats[j], time))
    && forall j :: 0 <= j < i ==> Distance(beats[i], time) < Distance(beats[j], time)
  }

  ghost predicate IsNearestBeat(beats: seq<real>, time: real, beat: real) {
    exists i: nat :: IsNearest(beats, time, i) && beat == beats[i]
  }

  method Nearest(beats: seq<real>, time: real) returns (r: Option<real>)
    ensures r.None? <==> beats == []
    ensures r.Some? ==> IsNearestBeat(beats, time, r.value)
  {
    if beats == [] {
      return None;
    }
    var best, i := 0, 1;
    while i < |beats|
      invariant 0 <= best < i <= |beats|
      invariant forall j :: 0 <= j < i ==> Distance(beats[best], time) <= Distance(beats[j], time)
      invariant forall j :: 0 <= j < best ==> Distance(beats[best], time) < Distance(beats[j], time)
    {
      if Distance(beats[i], time) < Distance(beats[best], time) {
        best := i;
      }
      i := i + 1;
    }
    assert IsNearest(beats, time, best);
    r := Some(beats[best]);
  }

  ghost predicate Rising(times: seq<real>) {
    forall i, j :: 0 <= i < j < |times| ==> times[i] < times[j]
  }

  /** A later time is never closest to an earlier beat. */
  lemma NearestIsMonotone(beats: seq<real>, s: real, t: real, i: nat, j: nat)
    requires Rising(beats) && s <= t && IsNearest(beats, s, i) && IsNearest(beats, t, j)
    ensures i <= j
  {
    var earlier, later := beats[i], beats[j];
    assert Distance(later, t) <= Distance(earlier, t) && Distance(earlier, s) <= Distance(later, s);
  }

  /** Each time's closest beat. */
  ghost predicate AreNearest(beats: seq<real>, times: seq<real>, moved: seq<real>) {
    && |moved| == |times|
    && forall k :: 0 <= k < |times| ==> IsNearestBeat(beats, times[k], moved[k])
  }

  /** Repeated neighbors once. */
  function Dedup(s: seq<real>): (r: seq<real>)
    ensures forall x :: x in r <==> x in s
    ensures r == [] <==> s == []
    ensures s != [] ==> r[|r| - 1] == s[|s| - 1]
  {
    if s == [] then []
    else
      var init, last := s[..|s| - 1], s[|s| - 1];
      assert s == init + [last];
      var r := Dedup(init);
      if r != [] && r[|r| - 1] == last then r else r + [last]
  }

  lemma {:induction false} DedupRises(s: seq<real>)
    requires forall i, j :: 0 <= i < j < |s| ==> s[i] <= s[j]
    ensures Rising(Dedup(s))
  {
    if s != [] {
      var init, last := s[..|s| - 1], s[|s| - 1];
      var r := Dedup(init);
      DedupRises(init);
      if init != [] && r[|r| - 1] != last {
        assert r[|r| - 1] == init[|init| - 1] <= last;
      }
    }
  }

  lemma NearestRise(beats: seq<real>, times: seq<real>, moved: seq<real>)
    requires Rising(beats) && Rising(times) && AreNearest(beats, times, moved)
    ensures forall k, m :: 0 <= k < m < |moved| ==> moved[k] <= moved[m]
  {
    forall k, m | 0 <= k < m < |moved| ensures moved[k] <= moved[m] {
      var i: nat :| IsNearest(beats, times[k], i) && moved[k] == beats[i];
      var j: nat :| IsNearest(beats, times[m], j) && moved[m] == beats[j];
      NearestIsMonotone(beats, times[k], times[m], i, j);
    }
  }

  datatype BeatTimes = BeatTimes(beats: seq<real>, downbeats: seq<real>)

  lemma {:induction false} PeakTimesRise(logits: seq<real>)
    ensures Rising(TimesOf(Groups(PeakFrames(logits, |logits|))))
  {
    var times := TimesOf(Groups(PeakFrames(logits, |logits|)));
    forall i, j | 0 <= i < j < |times| ensures times[i] < times[j] { TimesApart(logits, i, j); }
  }

  method MoveToBeats(beats: seq<real>, times: seq<real>) returns (moved: seq<real>)
    requires beats != []
    ensures AreNearest(beats, times, moved)
  {
    moved := [];
    var k := 0;
    while k < |times|
      invariant 0 <= k <= |times| && AreNearest(beats, times[..k], moved)
    {
      var near := Nearest(beats, times[k]);
      assert times[..k + 1] == times[..k] + [times[k]];
      moved := moved + [near.value];
      k := k + 1;
    }
    assert times[..k] == times;
  }

  /** Moved downbeats without repeats. */
  lemma {:induction false} MovedDownbeats(beats: seq<real>, times: seq<real>, moved: seq<real>)
    requires Rising(beats) && Rising(times) && AreNearest(beats, times, moved)
    ensures Rising(Dedup(moved)) && forall d :: d in Dedup(moved) ==> d in beats
    ensures forall t :: t in times ==> exists d :: d in Dedup(moved) && IsNearestBeat(beats, t, d)
    ensures forall d :: d in Dedup(moved) ==> exists t :: t in times && IsNearestBeat(beats, t, d)
  {
    NearestRise(beats, times, moved);
    DedupRises(moved);
    forall d | d in Dedup(moved) ensures d in beats && exists t :: t in times && IsNearestBeat(beats, t, d) {
      var m :| 0 <= m < |moved| && moved[m] == d;
      assert times[m] in times && IsNearestBeat(beats, times[m], d);
    }
    forall t | t in times ensures exists d :: d in Dedup(moved) && IsNearestBeat(beats, t, d) {
      var m :| 0 <= m < |times| && times[m] == t;
      assert moved[m] in Dedup(moved) && IsNearestBeat(beats, t, moved[m]);
    }
  }

  /** Beats and downbeats of a song: both strictly later and later, the downbeats exactly the
      beats closest to downbeat peaks. */
  method FindBeats(beat: seq<real>, downbeat: seq<real>) returns (r: BeatTimes)
    ensures r.beats == TimesOf(Groups(PeakFrames(beat, |beat|)))
    ensures Rising(r.beats) && Rising(r.downbeats)
    ensures forall d :: d in r.downbeats ==> d in r.beats
    ensures r.beats != [] ==> forall t :: t in TimesOf(Groups(PeakFrames(downbeat, |downbeat|))) ==>
              exists d :: d in r.downbeats && IsNearestBeat(r.beats, t, d)
    ensures forall d :: d in r.downbeats ==>
              exists t :: t in TimesOf(Groups(PeakFrames(downbeat, |downbeat|))) && IsNearestBeat(r.beats, t, d)
  {
    var beats := PeakTimes(beat);
    var times := PeakTimes(downbeat);
    PeakTimesRise(beat);
    PeakTimesRise(downbeat);
    if beats == [] {
      return BeatTimes(beats, []);
    }
    var moved := MoveToBeats(beats, times);
    MovedDownbeats(beats, times, moved);
    r := BeatTimes(beats, Dedup(moved));
  }
}
