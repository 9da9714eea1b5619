/**
 * Abort signals the pushers' condition without the mutex: it sets the flag `aborted`, tests `waiting` and
 * wakes a sleeper, and other threads may run between these three accesses. Here they are three steps, and
 * every run with them is matched by a run of PacketProtocol, where the signal is one step.
 */
module PacketSignal {
  import opened PacketRing
  import opened PacketSections
  import opened PacketProtocol

  /** How far a thread has got in admCond::abort. */
  datatype Phase = Outside | FlagSet | WillWake

  datatype Fine = Fine(core: State, phases: seq<Phase>)

  datatype FineEvent =
    | Coarse(e: Event)
    | SetAborted(t: nat)
    | TestWaiting(t: nat)
    | WakeSleeper(t: nat, woken: nat)

  ghost predicate FineStep(c: Fine, e: FineEvent, c': Fine) {
    && !c.core.failed && |c.phases| == |c.core.threads|
    && match e
       case Coarse(step) => !step.Signal? && Step(c.core, step, c'.core) && c'.phases == c.phases
       case SetAborted(t) =>
         && t < |c.phases| && c.core.threads[t] == Ready(AbortSignal) && c.phases[t].Outside?
         && c' == Fine(c.core.(pusher := c.core.pusher.(aborted := true)), c.phases[t := FlagSet])
       case TestWaiting(t) =>
         && t < |c.phases| && c.phases[t].FlagSet?
         && c' == if c.core.pusher.waiting then c.(phases := c.phases[t := WillWake])
                  else Fine(c.core.(threads := c.core.threads[t := Idle]), c.phases[t := Outside])
       case WakeSleeper(t, w) =>
         && t < |c.phases| && c.phases[t].WillWake? && WakeChoice(c.core.threads, true, w)
         && c' == Fine(c.core.(threads := Wake(c.core.threads, true, w)[t := Idle]), c.phases[t := Outside])
  }

  ghost predicate IsFineRun(run: seq<Fine>, events: seq<FineEvent>) {
    && |run| == |events| + 1
    && Init(run[0].core) && |run[0].phases| == |run[0].core.threads|
    && (forall t :: 0 <= t < |run[0].phases| ==> run[0].phases[t].Outside?)
    && forall i :: 0 <= i < |events| ==> FineStepAt(run, events, i)
  }

  ghost predicate FineStepAt(run: seq<Fine>, events: seq<FineEvent>, i: nat)
    requires |run| == |events| + 1 && i < |events|
  {
    FineStep(run[i], events[i], run[i + 1])
  }

  /** The coarse state has seen the signal later, and differs in nothing else. */
  ghost predicate Matches(c: Fine, a: State) {
    && a == c.core.(pusher := c.core.pusher.(aborted := a.pusher.aborted))
    && (a.pusher.aborted ==> c.core.pusher.aborted)
    && (c.core.pusher.aborted ==> c.core.aborted)
    && |c.phases| == |c.core.threads|
    && forall t :: 0 <= t < |c.phases| && !c.phases[t].Outside? ==>
         c.core.threads[t] == Ready(AbortSignal) && c.core.pusher.aborted
  }

  // ---------------------------------------------------------------------------------------------
  // Critical sections
  // ---------------------------------------------------------------------------------------------

  /** With the ring reset for good, Push returns 0 and Pop finds the end of the stream. */
  lemma SectionsReturn(s: State, t: nat)
    requires Safe(s) && s.aborted && t < |s.threads| && s.threads[t].Ready?
    ensures Runnable(s.ring)
    ensures IsPushSite(s.threads[t].site) ==>
              PushSection(s.ring, s.eof, s.threads[t].site.SpaceLoop?, s.threads[t].site.p).1.Refused?
    ensures PopSection(s.ring, s.eof).1.EndOfStream?
  {
    SafeIsRunnable(s);
    if IsPushSite(s.threads[t].site) {
      assert SiteOk(s, s.threads[t]);
      PushKeepsShape(s.ring, [], Start(s), true, s.threads[t].site.SpaceLoop?, s.threads[t].site.p);
    }
    PopKeepsShape(s.ring, [], Start(s), true);
  }

  /** Behind Abort's reset no section tests or changes the pushers' condition, whatever is done to it meanwhile. */
  lemma SectionIgnoresPusher(s: State, t: nat, w: nat, c: Condition)
    requires Safe(s) && s.aborted && t < |s.threads| && s.threads[t].Ready? && !s.threads[t].site.AbortSignal?
    ensures Runnable(s.ring)
    ensures SectionStep(s.(pusher := c), t, w) == SectionStep(s, t, w).(pusher := c)
    ensures SectionStep(s, t, w).pusher == s.pusher
  {
    SectionsReturn(s, t);
  }

  /** Nor does it move another thread that is about to signal. */
  lemma SectionKeepsSignallers(s: State, t: nat, w: nat, u: nat)
    requires Safe(s) && s.aborted && t < |s.threads| && s.threads[t].Ready? && !s.threads[t].site.AbortSignal?
    requires Runnable(s.ring) && u < |s.threads| && s.threads[u] == Ready(AbortSignal)
    ensures SectionStep(s, t, w).aborted && |SectionStep(s, t, w).threads| == |s.threads|
    ensures SectionStep(s, t, w).threads[u] == Ready(AbortSignal)
  {
    SectionsReturn(s, t);
  }

  // ---------------------------------------------------------------------------------------------
  // Step by step
  // ---------------------------------------------------------------------------------------------

  /** A section in the fine run is the same section in the coarse one. */
  lemma SectionMatches(c: Fine, a: State, e: Event, c': Fine) returns (a': State)
    requires Matches(c, a) && Safe(a) && FineStep(c, Coarse(e), c') && e.Section?
    ensures Step(a, e, a') && Matches(c', a')
  {
    a' := c'.core.(pusher := c'.core.pusher.(aborted := a.pusher.aborted));
    if c.core.pusher.aborted {
      assert c.core == a.(pusher := c.core.pusher);
      SectionIgnoresPusher(a, e.t, e.woken, c.core.pusher);
      forall u | 0 <= u < |c.phases| && !c.phases[u].Outside? ensures c'.core.threads[u] == Ready(AbortSignal) {
        SectionKeepsSignallers(a, e.t, e.woken, u);
      }
    } else {
      assert a == c.core;
      SectionKeepsFlags(a, e.t, e.woken);
    }
  }

  /** No section aborts the pushers' condition or resizes the list of threads. */
  predicate FlagsKept(s: State, s': State) {
    s'.pusher.aborted == s.pusher.aborted && |s'.threads| == |s.threads|
  }

  lemma AcceptKeepsFlags(s: State, t: nat, w: nat, r': Ring, p: Packet)
    requires t < |s.threads|
    ensures FlagsKept(s, AcceptStep(s, t, w, r', p))
  {
  }

  lemma DeliverKeepsFlags(s: State, t: nat, w: nat, r': Ring, p: Packet)
    requires t < |s.threads| && WellSized(r')
    ensures FlagsKept(s, DeliverStep(s, t, w, r', p))
  {
  }

  lemma WaitKeepsFlags(s: State, t: nat, site: Site)
    requires t < |s.threads|
    ensures FlagsKept(s, WaitOnPusher(s, t, site)) && FlagsKept(s, WaitOnPoper(s, t, site)) && FlagsKept(s, Leave(s, t, Idle))
  {
  }

  lemma PushKeepsFlags(s: State, t: nat, w: nat)
    requires t < |s.threads| && s.threads[t].Ready? && IsPushSite(s.threads[t].site) && Runnable(s.ring)
    ensures FlagsKept(s, PushStep(s, t, w))
  {
    var site := s.threads[t].site;
    var (r', o) := PushSection(s.ring, s.eof, site.SpaceLoop?, site.p);
    match o
    case Accepted => AcceptKeepsFlags(s, t, w, r', site.p);
    case WaitForSlot => WaitKeepsFlags(s, t, SlotLoop(site.p));
    case WaitForSpace => WaitKeepsFlags(s, t, SpaceLoop(site.p));
    case Refused => WaitKeepsFlags(s, t, site);
  }

  lemma PopKeepsFlags(s: State, t: nat, w: nat)
    requires t < |s.threads| && s.threads[t] == Ready(PopLoop) && Runnable(s.ring)
    ensures FlagsKept(s, PopStep(s, t, w))
  {
    var (r', o) := PopSection(s.ring, s.eof);
    match o
    case Delivered(p) => DeliverKeepsFlags(s, t, w, r', p);
    case PositionFailure =>
    case _ => WaitKeepsFlags(s, t, PopLoop);
  }

  lemma SectionKeepsFlags(s: State, t: nat, w: nat)
    requires t < |s.threads| && s.threads[t].Ready? && !s.threads[t].site.AbortSignal? && Runnable(s.ring)
    ensures FlagsKept(s, SectionStep(s, t, w))
  {
    match s.threads[t].site
    case SlotLoop(_) => PushKeepsFlags(s, t, w);
    case SpaceLoop(_) => PushKeepsFlags(s, t, w);
    case PopLoop => PopKeepsFlags(s, t, w);
    case _ =>
  }

  lemma ElsewhereMatches(c: Fine, a: State, e: Event, c': Fine) returns (a': State)
    requires Matches(c, a) && FineStep(c, Coarse(e), c') && !e.Section?
    ensures Step(a, e, a') && Matches(c', a')
  {
    a' := c'.core.(pusher := c'.core.pusher.(aborted := a.pusher.aborted));
  }

  lemma SomeSleeper(threads: seq<Thread>) returns (w: nat)
    ensures WakeChoice(threads, true, w)
  {
    w := 0;
    if u :| 0 <= u < |threads| && AsleepOnPusher(threads[u]) {
      w := u;
    }
  }

  /** A test that finds nobody waiting is the coarse signal. */
  lemma TestMatches(c: Fine, a: State, t: nat, c': Fine) returns (w: nat, a': State)
    requires Matches(c, a) && FineStep(c, TestWaiting(t), c') && !c.core.pusher.waiting
    ensures Step(a, Signal(t, w), a') && Matches(c', a')
  {
    w := SomeSleeper(a.threads);
    a' := c'.core;
  }

  /** So is the wakeup of a sleeper, while the flag says that somebody waits. */
  lemma WakeMatches(c: Fine, a: State, t: nat, w: nat, c': Fine)
    requires Matches(c, a) && FineStep(c, WakeSleeper(t, w), c') && a.pusher.waiting
    ensures Step(a, Signal(t, w), c'.core) && Matches(c', c'.core)
  {
  }

  /** When the flag has been cleared behind the test, it is the coarse signal and a spurious wakeup. */
  lemma LateWakeMatches(c: Fine, a: State, t: nat, w: nat, c': Fine) returns (a': State)
    requires Matches(c, a) && FineStep(c, WakeSleeper(t, w), c') && !a.pusher.waiting
    requires w < |c.core.threads| && AsleepOnPusher(c.core.threads[w])
    ensures Step(a, Signal(t, w), a') && Step(a', Spurious(w), c'.core) && Matches(c', c'.core)
  {
    a' := a.(pusher := a.pusher.(aborted := true), threads := a.threads[t := Idle]);
    assert c'.core.threads == a'.threads[w := Woken(a.threads[w].site)];
  }

  lemma EmptyWakeMatches(c: Fine, a: State, t: nat, w: nat, c': Fine)
    requires Matches(c, a) && FineStep(c, WakeSleeper(t, w), c') && !a.pusher.waiting
    requires !(w < |c.core.threads| && AsleepOnPusher(c.core.threads[w]))
    ensures Step(a, Signal(t, w), c'.core) && Matches(c', c'.core)
  {
  }

  // ---------------------------------------------------------------------------------------------
  // Whole runs
  // ---------------------------------------------------------------------------------------------

  /** One more fine step: nothing, one or two coarse steps. */
  lemma StepIsMatched(c: Fine, e: FineEvent, c': Fine, run0: seq<State>, events0: seq<Event>)
      returns (run: seq<State>, events: seq<Event>)
    requires FineStep(c, e, c') && IsRun(run0, events0) && Matches(c, run0[|events0|])
    ensures IsRun(run, events) && run[0] == run0[0] && Matches(c', run[|events|])
  {
    var a := run0[|events0|];
    run, events := run0, events0;
    RunIsSafe(run0, events0, |events0|);
    match e
    case Coarse(step) =>
      var a': State;
      if step.Section? {
        a' := SectionMatches(c, a, step, c');
      } else {
        a' := ElsewhereMatches(c, a, step, c');
      }
      run, events := OneMoreStep(run, events, step, a');
    case SetAborted(t) =>
      assert SiteOk(a, a.threads[t]);
    case TestWaiting(t) =>
      if !c.core.pusher.waiting {
        var w, a' := TestMatches(c, a, t, c');
        run, events := OneMoreStep(run, events, Signal(t, w), a');
      }
    case WakeSleeper(t, w) =>
      run, events := WakeIsMatched(c, t, w, c', run, events);
  }

  lemma WakeIsMatched(c: Fine, t: nat, w: nat, c': Fine, run0: seq<State>, events0: seq<Event>)
      returns (run: seq<State>, events: seq<Event>)
    requires FineStep(c, WakeSleeper(t, w), c') && IsRun(run0, events0) && Matches(c, run0[|events0|])
    ensures IsRun(run, events) && run[0] == run0[0] && Matches(c', run[|events|])
  {
    var a := run0[|events0|];
    if a.pusher.waiting {
      WakeMatches(c, a, t, w, c');
      run, events := OneMoreStep(run0, events0, Signal(t, w), c'.core);
    } else if w < |c.core.threads| && AsleepOnPusher(c.core.threads[w]) {
      var a' := LateWakeMatches(c, a, t, w, c');
      run, events := OneMoreStep(run0, events0, Signal(t, w), a');
      run, events := OneMoreStep(run, events, Spurious(w), c'.core);
    } else {
      EmptyWakeMatches(c, a, t, w, c');
      run, events := OneMoreStep(run0, events0, Signal(t, w), c'.core);
    }
  }

  lemma OneMoreStep(run0: seq<State>, events0: seq<Event>, e: Event, s': State) returns (run: seq<State>, events: seq<Event>)
    requires IsRun(run0, events0) && Step(run0[|events0|], e, s')
    ensures IsRun(run, events) && run[0] == run0[0] && run[|events|] == s'
  {
    run, events := run0 + [s'], events0 + [e];
    forall i | 0 <= i < |events| ensures StepAt(run, events, i) {
      if i < |events0| {
        assert StepAt(run0, events0, i);
      }
    }
  }

  /** Every state of every fine run is, up to a signal on its way, the state of a run with atomic signals. */
  lemma {:induction false} FineRunIsMatched(fine: seq<Fine>, fineEvents: seq<FineEvent>, i: nat)
      returns (run: seq<State>, events: seq<Event>)
    requires IsFineRun(fine, fineEvents) && i < |fine|
    ensures IsRun(run, events) && run[0] == fine[0].core && Matches(fine[i], run[|events|])
  {
    if i == 0 {
      run, events := [fine[0].core], [];
    } else {
      run, events := FineRunIsMatched(fine, fineEvents, i - 1);
      assert FineStepAt(fine, fineEvents, i - 1);
      run, events := StepIsMatched(fine[i - 1], fineEvents[i - 1], fine[i], run, events);
    }
  }

  /** So the guarantees that hold in every state hold with signals that fall inside other threads' sections. */
  lemma FineRunIsSafe(fine: seq<Fine>, fineEvents: seq<FineEvent>, i: nat)
    requires IsFineRun(fine, fineEvents) && i < |fine|
    ensures Safe(fine[i].core)
    ensures !fine[i].core.aborted ==> fine[i].core.pushed == fine[i].core.popped + Queued(fine[i].core)
  {
    var run, events := FineRunIsMatched(fine, fineEvents, i);
    RunIsSafe(run, events, |events|);
    var c, a := fine[i].core, run[|events|];
    forall t | 0 <= t < |c.threads| ensures SiteOk(c, c.threads[t]) {
      assert SiteOk(a, a.threads[t]);
    }
  }
}
