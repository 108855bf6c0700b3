/** Background polls of the desktop program: each is claimed by at most one thread, started
    by whoever activates its source and ended by the thread that finds it idle. */
module Polls {

  // ---------- The claim flags ----------

  /** One flag for each poll: whether some thread has claimed it. */
  class Claims {
    const flags: array<bool>

    constructor (polls: nat)
      ensures fresh(flags) && flags.Length == polls && forall p :: 0 <= p < polls ==> !flags[p]
    {
      flags := new bool[polls](_ => false);
    }

    /** Start `poll` unless it already runs: swap the flag to true and see what it was. */
    method Claim(poll: nat) returns (claimed: bool)
      requires poll < flags.Length
      modifies flags
      ensures (claimed, flags[..]) == Swapped(old(flags[..]), poll)
    {
      var was := flags[poll];
      flags[poll] := true;
      claimed := !was;
    }

    method Release(poll: nat)
      requires poll < flags.Length
      modifies flags
      ensures flags[..] == Cleared(old(flags[..]), poll)
    {
      flags[poll] := false;
    }
  }

  /** Claiming as one indivisible step: whether it succeeds, and the flags after it. */
  function Swapped(flags: seq<bool>, poll: nat): (bool, seq<bool>)
    requires poll < |flags|
  {
    (!flags[poll], flags[poll := true])
  }

  function Cleared(flags: seq<bool>, poll: nat): seq<bool>
    requires poll < |flags|
  {
    flags[poll := false]
  }

  // ---------- Threads, step by step ----------

  /** Where a thread is. One that activated a source is to claim its poll; one that claimed it
      polls until a tick says to stop, is then to release it, to look whether the source has
      become active meanwhile, and if so to claim it again. */
  datatype Place = ToClaim | Polling | ToRelease | ToRecheck | ToReclaim | Ended

  datatype Thread = Thread(poll: nat, place: Place)
  {
    /** The thread has the claim. */
    predicate Owns(p: nat) { poll == p && (place == Polling || place == ToRelease) }

    /** The thread is yet to claim, or to look whether it must. */
    predicate MayClaim(p: nat) { poll == p && (place == ToClaim || place == ToRecheck || place == ToReclaim) }
  }

  /** The flags, whether each source is active, and every thread there ever was. */
  datatype State = State(flags: seq<bool>, active: seq<bool>, threads: seq<Thread>)

  /** What can happen next: a source is activated, by someone who then starts its poll; a
      source becomes idle; or a thread takes its next step, a tick saying whether to go on. */
  datatype Event = Activate(poll: nat) | Deactivate(poll: nat) | Step(thread: nat, goOn: bool)

  predicate Shaped(s: State) {
    |s.active| == |s.flags| && forall t :: t in s.threads ==> t.poll < |s.flags|
  }

  /** One thread's step: the flags and its place after it. */
  function Advance(s: State, t: Thread, goOn: bool): (seq<bool>, Place)
    requires Shaped(s) && t.poll < |s.flags|
  {
    match t.place
    case ToClaim => var (claimed, flags) := Swapped(s.flags, t.poll); (flags, if claimed then Polling else Ended)
    case Polling => (s.flags, if goOn then Polling else ToRelease)
    case ToRelease => (Cleared(s.flags, t.poll), ToRecheck)
    case ToRecheck => (s.flags, if s.active[t.poll] then ToReclaim else Ended)
    case ToReclaim => var (claimed, flags) := Swapped(s.flags, t.poll); (flags, if claimed then Polling else Ended)
    case Ended => (s.flags, Ended)
  }

  /** The state after an event; events naming no poll or thread change nothing. */
  function Next(s: State, e: Event): State
    requires Shaped(s)
  {
    match e
    case Activate(p) =>
      if p < |s.flags| then s.(active := s.active[p := true], threads := s.threads + [Thread(p, ToClaim)]) else s
    case Deactivate(p) => if p < |s.flags| then s.(active := s.active[p := false]) else s
    case Step(i, goOn) =>
      if i < |s.threads| then
        assert s.threads[i] in s.threads;
        var (flags, place) := Advance(s, s.threads[i], goOn);
        s.(flags := flags, threads := s.threads[i := s.threads[i].(place := place)])
      else s
  }

  /** No source active, no thread. */
  function Initial(polls: nat): State {
    State(seq(polls, _ => false), seq(polls, _ => false), [])
  }

  function After(polls: nat, events: seq<Event>): (s: State)
    ensures Shaped(s) && |s.flags| == polls
  {
    if events == [] then Initial(polls)
    else
      var s := After(polls, events[..|events| - 1]);
      StaysShaped(s, events[|events| - 1]);
      Next(s, events[|events| - 1])
  }

  lemma StaysShaped(s: State, e: Event)
    requires Shaped(s)
    ensures Shaped(Next(s, e)) && |Next(s, e).flags| == |s.flags|
  {
  }

  // ---------- What every step keeps ----------

  ghost predicate Owned(s: State, p: nat) {
    exists i :: 0 <= i < |s.threads| && s.threads[i].Owns(p)
  }

  ghost predicate ClaimComing(s: State, p: nat) {
    exists i :: 0 <= i < |s.threads| && s.threads[i].MayClaim(p)
  }

  /** At most one thread has the claim, exactly when the flag is set. */
  ghost predicate OneOwner(s: State)
    requires Shaped(s)
  {
    && (forall i, j :: 0 <= i < j < |s.threads| && s.threads[i].Owns(s.threads[i].poll)
         ==> !s.threads[j].Owns(s.threads[i].poll))
    && forall p: nat :: p < |s.flags| ==> (s.flags[p] <==> Owned(s, p))
  }

  /** An active source nobody polls is about to be claimed, or looked at again. */
  ghost predicate NoneLost(s: State)
    requires Shaped(s)
  {
    forall p: nat :: p < |s.flags| && s.active[p] && !s.flags[p] ==> ClaimComing(s, p)
  }

  lemma OneOwnerKept(s: State, e: Event)
    requires Shaped(s) && OneOwner(s)
    ensures Shaped(Next(s, e)) && OneOwner(Next(s, e))
  {
    StaysShaped(s, e);
    var s' := Next(s, e);
    forall p: nat | p < |s'.flags| ensures s'.flags[p] <==> Owned(s', p) {
      OwnershipKept(s, e, p);
    }
  }

  lemma OwnershipKept(s: State, e: Event, p: nat)
    requires Shaped(s) && OneOwner(s) && p < |s.flags|
    ensures Shaped(Next(s, e)) && |Next(s, e).flags| == |s.flags|
    ensures Next(s, e).flags[p] <==> Owned(Next(s, e), p)
  {
    StaysShaped(s, e);
    var s' := Next(s, e);
    if Owned(s, p) {
      var i :| 0 <= i < |s.threads| && s.threads[i].Owns(p);
      assert s'.threads[i].Owns(p) || (e.Step? && e.thread == i);
    }
    if e.Step? && e.thread < |s.threads| && s'.threads[e.thread].Owns(p) { assert Owned(s', p); }
    if Owned(s', p) {
      var i :| 0 <= i < |s'.threads| && s'.threads[i].Owns(p);
      if i < |s.threads| && s.threads[i].Owns(p) { assert Owned(s, p); }
    }
  }

  lemma NoneLostKept(s: State, e: Event)
    requires Shaped(s) && OneOwner(s) && NoneLost(s)
    ensures Shaped(Next(s, e)) && NoneLost(Next(s, e))
  {
    StaysShaped(s, e);
    var s' := Next(s, e);
    forall p: nat | p < |s'.flags| && s'.active[p] && !s'.flags[p] ensures ClaimComing(s', p) {
      if e == Activate(p) {
        assert s'.threads[|s.threads|].MayClaim(p);
      } else if e.Step? && e.thread < |s.threads| && s'.threads[e.thread].MayClaim(p) {
      } else {
        assert s.active[p] && !s.flags[p];
        assert ClaimComing(s, p);
        var i :| 0 <= i < |s.threads| && s.threads[i].MayClaim(p);
        assert s'.threads[i].MayClaim(p);
      }
    }
  }

  /** A source is active exactly when it was activated and not deactivated since. */
  lemma {:induction false} ActiveIff(polls: nat, events: seq<Event>, p: nat)
    requires p < polls
    ensures After(polls, events).active[p] <==>
            exists i :: 0 <= i < |events| && events[i] == Activate(p)
                        && forall k :: i < k < |events| ==> events[k] != Deactivate(p)
  {
    if events != [] {
      var init, last := events[..|events| - 1], events[|events| - 1];
      ActiveIff(polls, init, p);
      forall k | 0 <= k < |init| ensures init[k] == events[k] {}
      if last == Activate(p) { assert events[|init|] == Activate(p); }
      if After(polls, init).active[p] && last != Deactivate(p) {
        var i :| 0 <= i < |init| && init[i] == Activate(p) && forall k :: i < k < |init| ==> init[k] != Deactivate(p);
        assert events[i] == Activate(p);
      }
      if After(polls, events).active[p] && last != Activate(p) { assert After(polls, init).active[p]; }
    }
  }

  /** However threads interleave: at most one has each poll's claim, and no activation is
      lost. */
  lemma {:induction false} AlwaysSafe(polls: nat, events: seq<Event>)
    ensures OneOwner(After(polls, events)) && NoneLost(After(polls, events))
  {
    if events != [] {
      var before := After(polls, events[..|events| - 1]);
      AlwaysSafe(polls, events[..|events| - 1]);
      OneOwnerKept(before, events[|events| - 1]);
      NoneLostKept(before, events[|events| - 1]);
    }
  }

  /** Once every thread has ended or polls, each active source is polled, by exactly one. */
  lemma {:induction false} SettledIsPolled(polls: nat, events: seq<Event>, p: nat)
    requires p < polls && After(polls, events).active[p]
    requires forall t :: t in After(polls, events).threads ==> t.place == Ended || t.place == Polling
    ensures exists i :: 0 <= i < |After(polls, events).threads| && After(polls, events).threads[i] == Thread(p, Polling)
                        && forall j :: 0 <= j < |After(polls, events).threads| && j != i
                            ==> !After(polls, events).threads[j].Owns(p)
  {
    var s := After(polls, events);
    AlwaysSafe(polls, events);
    forall i | 0 <= i < |s.threads| ensures !s.threads[i].MayClaim(p) { assert s.threads[i] in s.threads; }
    assert Owned(s, p);
    var i :| 0 <= i < |s.threads| && s.threads[i].Owns(p);
    assert s.threads[i] in s.threads;
  }
}
