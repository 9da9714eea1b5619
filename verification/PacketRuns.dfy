/**
 * Runs by the number of producing and consuming threads: the position check stops the program already with
 * one of each, and no wakeup is lost for exactly the numbers given in NoWakeupIsLostIff, because `waiting` is
 * one flag for all sleepers of a condition.
 */
module PacketRuns {
  import opened PacketRing
  import opened PacketSections
  import opened PacketProtocol

  // ---------------------------------------------------------------------------------------------
  // Who may call what
  // ---------------------------------------------------------------------------------------------

  /**
   * The first `producers` threads may push, packets that fit, and the next `consumers` threads may pop; any
   * thread may finish or abort.
   */
  datatype Roles = Roles(producers: nat, consumers: nat)

  predicate MayBegin(d: Roles, s: State, t: nat, site: Site) {
    && (IsPushSite(site) ==> t < d.producers && |site.p.payload| <= |s.ring.buffer|)
    && (site.PopLoop? ==> d.producers <= t < d.producers + d.consumers)
  }

  predicate Allowed(d: Roles, s: State, e: Event) {
    e.Begin? ==> MayBegin(d, s, e.t, e.site)
  }

  ghost predicate IsRunOf(d: Roles, run: seq<State>, events: seq<Event>) {
    && IsRun(run, events)
    && d.producers + d.consumers <= |run[0].threads|
    && forall i :: 0 <= i < |events| ==> Allowed(d, run[i], events[i])
  }

  /** Every thread inside the queue's code is where its role allows it to be. */
  ghost predicate InRoles(d: Roles, s: State) {
    && d.producers + d.consumers <= |s.threads|
    && forall t :: 0 <= t < |s.threads| && !s.threads[t].Idle? ==> MayBegin(d, s, t, s.threads[t].site)
  }

  /** No thread enters Push or Pop: those inside were inside before, with the same packet. */
  ghost predicate NobodyEnters(s: State, s': State) {
    && |s'.threads| == |s.threads| && |s'.ring.buffer| == |s.ring.buffer|
    && forall t :: 0 <= t < |s.threads| && !s'.threads[t].Idle? ==>
         && (IsPushSite(s'.threads[t].site) ==>
               !s.threads[t].Idle? && IsPushSite(s.threads[t].site) && s.threads[t].site.p == s'.threads[t].site.p)
         && (s'.threads[t].site.PopLoop? ==> !s.threads[t].Idle? && s.threads[t].site.PopLoop?)
  }

  lemma SizesStay(r: Ring, eof: bool, pastSlotLoop: bool, p: Packet)
    requires Runnable(r)
    ensures |PushSection(r, eof, pastSlotLoop, p).0.buffer| == |r.buffer| == |PopSection(r, eof).0.buffer|
  {
  }

  lemma AcceptEnters(s: State, t: nat, w: nat, r': Ring, p: Packet)
    requires t < |s.threads| && |r'.buffer| == |s.ring.buffer|
    ensures NobodyEnters(s, AcceptStep(s, t, w, r', p))
  {
  }

  lemma DeliverEnters(s: State, t: nat, w: nat, r': Ring, p: Packet)
    requires t < |s.threads| && WellSized(r') && |r'.buffer| == |s.ring.buffer|
    ensures NobodyEnters(s, DeliverStep(s, t, w, r', p))
  {
  }

  lemma WaitEnters(s: State, t: nat, site: Site)
    requires t < |s.threads| && s.threads[t].Ready? && IsPushSite(s.threads[t].site) && IsPushSite(site)
    requires site.p == s.threads[t].site.p
    ensures NobodyEnters(s, WaitOnPusher(s, t, site))
  {
  }

  lemma LeaveEnters(s: State, t: nat)
    requires t < |s.threads|
    ensures NobodyEnters(s, Leave(s, t, Idle))
  {
  }

  lemma PushEnters(s: State, t: nat, w: nat)
    requires t < |s.threads| && s.threads[t].Ready? && IsPushSite(s.threads[t].site) && Runnable(s.ring)
    ensures NobodyEnters(s, PushStep(s, t, w))
  {
    var site := s.threads[t].site;
    SizesStay(s.ring, s.eof, site.SpaceLoop?, site.p);
    var (r', o) := PushSection(s.ring, s.eof, site.SpaceLoop?, site.p);
    match o
    case Accepted => AcceptEnters(s, t, w, r', site.p);
    case Refused => LeaveEnters(s, t);
    case WaitForSlot => WaitEnters(s, t, SlotLoop(site.p));
    case WaitForSpace => WaitEnters(s, t, SpaceLoop(site.p));
  }

  lemma PopEnters(s: State, t: nat, w: nat)
    requires t < |s.threads| && s.threads[t] == Ready(PopLoop) && Runnable(s.ring)
    ensures NobodyEnters(s, PopStep(s, t, w))
  {
    SizesStay(s.ring, s.eof, false, Packet([], 0));
    var (r', o) := PopSection(s.ring, s.eof);
    match o
    case Delivered(p) => DeliverEnters(s, t, w, r', p);
    case _ => assert forall u :: 0 <= u < |s.threads| && u != t ==> PopStep(s, t, w).threads[u] == s.threads[u];
  }

  lemma FinishEnters(s: State, t: nat, w: nat, next: Thread)
    requires t < |s.threads| && (next == Idle || next == Ready(AbortReset))
    ensures NobodyEnters(s, FinishStep(s, t, w, next))
  {
  }

  lemma SectionEnters(s: State, t: nat, w: nat)
    requires t < |s.threads| && s.threads[t].Ready? && !s.threads[t].site.AbortSignal? && Runnable(s.ring)
    ensures NobodyEnters(s, SectionStep(s, t, w))
  {
    match s.threads[t].site
    case SlotLoop(_) => PushEnters(s, t, w);
    case SpaceLoop(_) => PushEnters(s, t, w);
    case PopLoop => PopEnters(s, t, w);
    case FinishSite => FinishEnters(s, t, w, Idle);
    case AbortFinish => FinishEnters(s, t, w, Ready(AbortReset));
    case AbortReset =>
  }

  lemma ElsewhereEnters(s: State, e: Event, s': State)
    requires Step(s, e, s') && !e.Section? && !e.Begin?
    ensures NobodyEnters(s, s')
  {
  }

  lemma StaysInRoles(d: Roles, s: State, e: Event, s': State)
    requires InRoles(d, s) && Step(s, e, s') && Allowed(d, s, e)
    ensures InRoles(d, s')
  {
    if e.Section? {
      SectionEnters(s, e.t, e.woken);
    } else if !e.Begin? {
      ElsewhereEnters(s, e, s');
    }
  }

  lemma {:induction false} RunStaysInRoles(d: Roles, run: seq<State>, events: seq<Event>, i: nat)
    requires IsRunOf(d, run, events) && i < |run|
    ensures InRoles(d, run[i])
  {
    if i > 0 {
      RunStaysInRoles(d, run, events, i - 1);
      assert StepAt(run, events, i - 1) && Allowed(d, run[i - 1], events[i - 1]);
      StaysInRoles(d, run[i - 1], events[i - 1], run[i]);
    }
  }

  // ---------------------------------------------------------------------------------------------
  // Runs step by step
  // ---------------------------------------------------------------------------------------------

  lemma {:induction false} ExtendRun(d: Roles, run: seq<State>, events: seq<Event>, e: Event, s': State)
    requires IsRunOf(d, run, events) && Step(run[|events|], e, s') && Allowed(d, run[|events|], e)
    ensures IsRunOf(d, run + [s'], events + [e])
  {
    forall i | 0 <= i < |events| + 1
      ensures StepAt(run + [s'], events + [e], i) && Allowed(d, (run + [s'])[i], (events + [e])[i])
    {
      if i < |events| {
        assert StepAt(run, events, i) && Allowed(d, run[i], events[i]);
      }
    }
  }

  /** An idle thread t pushes a packet on the empty queue, waking w if the flag says someone waits. */
  lemma PushOne(d: Roles, run0: seq<State>, events0: seq<Event>, t: nat, p: Packet, w: nat) returns (run: seq<State>, events: seq<Event>)
    requires IsRunOf(d, run0, events0)
    requires var s := run0[|events0|];
             && t < |s.threads| && s.threads[t] == Idle && MayBegin(d, s, t, SlotLoop(p)) && !s.failed && !s.eof && !s.aborted
             && Queued(s) == [] && |p.payload| <= |s.ring.buffer| && WakeChoice(s.threads, false, w)
    ensures IsRunOf(d, run, events) && run[0] == run0[0]
    ensures var s, s' := run0[|events0|], run[|events|];
            && s' == s.(ring := s'.ring, pushed := s.pushed + [p],
                        threads := if s.poper.waiting then Wake(s.threads, false, w) else s.threads)
            && Queued(s') == [p] && |s'.ring.buffer| == |s.ring.buffer|
  {
    var s := run0[|events0|];
    var s1 := s.(threads := s.threads[t := Ready(SlotLoop(p))]);
    ExtendRun(d, run0, events0, Begin(t, SlotLoop(p)), s1);
    run, events := run0 + [s1], events0 + [Begin(t, SlotLoop(p))];
    RunIsSafe(run, events, |events|);
    assert WakeChoice(s1.threads, false, w) by {
      if u :| 0 <= u < |s1.threads| && AsleepOnPoper(s1.threads[u]) {
        assert AsleepOnPoper(s.threads[u]);
      }
    }
    PushIsAccepted(s1, t, p, w);
    var s2 := SectionStep(s1, t, w);
    ExtendRun(d, run, events, Section(t, w), s2);
    run, events := run + [s2], events + [Section(t, w)];
    assert s2.threads == if s.poper.waiting then Wake(s.threads, false, w) else s.threads;
  }

  lemma PushIsAccepted(s: State, t: nat, p: Packet, w: nat)
    requires Safe(s) && t < |s.threads| && s.threads[t] == Ready(SlotLoop(p)) && !s.failed && !s.eof && !s.aborted
    requires Queued(s) == [] && |p.payload| <= |s.ring.buffer|
    ensures Runnable(s.ring)
    ensures var s' := SectionStep(s, t, w);
            && s' == s.(ring := s'.ring, pushed := s.pushed + [p],
                        threads := (if s.poper.waiting then Wake(s.threads, false, w) else s.threads)[t := Idle])
            && Queued(s') == [p] && |s'.ring.buffer| == |s.ring.buffer|
  {
    SafeIsRunnable(s);
    PushKeepsShape(s.ring, [], Start(s), false, false, p);
    SafePush(s, t, w);
  }

  lemma DeliversTheFront(s: State, t: nat, p: Packet, w: nat)
    requires Safe(s) && t < |s.threads| && s.threads[t] == Ready(PopLoop) && !s.failed
    requires Queued(s) == [p] && Start(s) < |s.ring.buffer|
    ensures Runnable(s.ring)
    ensures var s' := PopStep(s, t, w);
            && s' == s.(ring := s'.ring, popped := s.popped + [p],
                        threads := (if s.pusher.waiting then Wake(s.threads, true, w) else s.threads)[t := Idle])
            && Queued(s') == [] && |s'.ring.buffer| == |s.ring.buffer|
  {
    SafeIsRunnable(s);
    PopKeepsShape(s.ring, [p], Start(s), s.eof);
    UsedSlotsCounts(s.ring, [p], Start(s));
    SafePop(s, t, w);
    assert PopStep(s, t, w) == DeliverStep(s, t, w, PopSection(s.ring, s.eof).0, p);
  }

  /** A woken consumer t clears the flag and takes the packet. */
  lemma PopOne(d: Roles, run0: seq<State>, events0: seq<Event>, t: nat, p: Packet) returns (run: seq<State>, events: seq<Event>)
    requires IsRunOf(d, run0, events0)
    requires var s := run0[|events0|];
             && t < |s.threads| && s.threads[t] == Woken(PopLoop) && !s.failed && s.mutex.Free?
             && Queued(s) == [p] && Start(s) < |s.ring.buffer| && !s.aborted && !s.pusher.waiting
             && (forall u :: 0 <= u < |s.threads| ==> !AsleepOnPusher(s.threads[u]))
    ensures IsRunOf(d, run, events) && run[0] == run0[0]
    ensures var s, s' := run0[|events0|], run[|events|];
            && s' == s.(ring := s'.ring, popped := s.popped + [p],
                        poper := s.poper.(waiting := false), threads := s.threads[t := Idle])
            && |s'.ring.buffer| == |s.ring.buffer|
  {
    var s := run0[|events0|];
    var s1 := s.(poper := s.poper.(waiting := false), threads := s.threads[t := Ready(PopLoop)]);
    ExtendRun(d, run0, events0, Return(t), s1);
    run, events := run0 + [s1], events0 + [Return(t)];
    RunIsSafe(run, events, |events|);
    DeliversTheFront(s1, t, p, 0);
    var s2 := PopStep(s1, t, 0);
    ExtendRun(d, run, events, Section(t, 0), s2);
    run, events := run + [s2], events + [Section(t, 0)];
  }

  /** An idle thread t takes the packet that is queued, waking w if the flag says someone waits. */
  lemma PopQueued(d: Roles, run0: seq<State>, events0: seq<Event>, t: nat, p: Packet, w: nat) returns (run: seq<State>, events: seq<Event>)
    requires IsRunOf(d, run0, events0)
    requires var s := run0[|events0|];
             && t < |s.threads| && s.threads[t] == Idle && MayBegin(d, s, t, PopLoop) && !s.failed
             && Queued(s) == [p] && Start(s) < |s.ring.buffer| && WakeChoice(s.threads, true, w)
    ensures IsRunOf(d, run, events) && run[0] == run0[0]
    ensures var s, s' := run0[|events0|], run[|events|];
            && s' == s.(ring := s'.ring, popped := s.popped + [p],
                        threads := if s.pusher.waiting then Wake(s.threads, true, w) else s.threads)
            && Queued(s') == [] && |s'.ring.buffer| == |s.ring.buffer|
  {
    var s := run0[|events0|];
    var s1 := s.(threads := s.threads[t := Ready(PopLoop)]);
    ExtendRun(d, run0, events0, Begin(t, PopLoop), s1);
    run, events := run0 + [s1], events0 + [Begin(t, PopLoop)];
    RunIsSafe(run, events, |events|);
    assert WakeChoice(s1.threads, true, w) by {
      if u :| 0 <= u < |s1.threads| && AsleepOnPusher(s1.threads[u]) {
        assert AsleepOnPusher(s.threads[u]);
      }
    }
    DeliversTheFront(s1, t, p, w);
    var s2 := PopStep(s1, t, w);
    ExtendRun(d, run, events, Section(t, w), s2);
    run, events := run + [s2], events + [Section(t, w)];
    assert s2.threads == if s.pusher.waiting then Wake(s.threads, true, w) else s.threads;
  }

  /** A Pop that finds its packet laid down at the buffer size stops the program. */
  lemma PopFails(d: Roles, run0: seq<State>, events0: seq<Event>, t: nat) returns (run: seq<State>, events: seq<Event>)
    requires IsRunOf(d, run0, events0)
    requires var s := run0[|events0|];
             && t < |s.threads| && s.threads[t] == Idle && MayBegin(d, s, t, PopLoop) && !s.failed && Queued(s) != []
             && HeadAfter(s.popped, 0, |s.ring.buffer|) == |s.ring.buffer|
             && (forall u :: 0 <= u < |s.threads| ==> !AsleepOnPusher(s.threads[u]))
    ensures IsRunOf(d, run, events) && run[0] == run0[0]
    ensures run[|events|].failed && run[|events|].pushed == run0[|events0|].pushed && run[|events|].popped == run0[|events0|].popped
  {
    var s := run0[|events0|];
    var s1 := s.(threads := s.threads[t := Ready(PopLoop)]);
    ExtendRun(d, run0, events0, Begin(t, PopLoop), s1);
    run, events := run0 + [s1], events0 + [Begin(t, PopLoop)];
    RunIsSafe(run, events, |events|);
    SafePop(s1, t, 0);
    var s2 := PopStep(s1, t, 0);
    ExtendRun(d, run, events, Section(t, 0), s2);
    run, events := run + [s2], events + [Section(t, 0)];
  }

  /** An idle thread t starts a Push while a packet is queued, and falls asleep. */
  lemma PushSleeps(d: Roles, run0: seq<State>, events0: seq<Event>, t: nat, p: Packet, w: nat) returns (run: seq<State>, events: seq<Event>)
    requires IsRunOf(d, run0, events0)
    requires var s := run0[|events0|];
             t < |s.threads| && s.threads[t] == Idle && MayBegin(d, s, t, SlotLoop(p)) && !s.failed && !s.aborted && Queued(s) != []
             && WakeChoice(s.threads, false, w)
    ensures IsRunOf(d, run, events) && run[0] == run0[0]
    ensures var s := run0[|events0|];
            run[|events|] == s.(pusher := s.pusher.(waiting := true), threads := s.threads[t := Asleep(SlotLoop(p))])
  {
    var s := run0[|events0|];
    var s1 := s.(threads := s.threads[t := Ready(SlotLoop(p))]);
    ExtendRun(d, run0, events0, Begin(t, SlotLoop(p)), s1);
    run, events := run0 + [s1], events0 + [Begin(t, SlotLoop(p))];
    RunIsSafe(run, events, |events|);
    assert WakeChoice(s1.threads, false, w) by {
      if u :| 0 <= u < |s1.threads| && AsleepOnPoper(s1.threads[u]) {
        assert AsleepOnPoper(s.threads[u]);
      }
    }
    PushHasToWait(s1, t, p, w);
    var s2 := s.(pusher := s.pusher.(waiting := true), threads := s.threads[t := Asleep(SlotLoop(p))]);
    ExtendRun(d, run, events, Section(t, w), s2);
    run, events := run + [s2], events + [Section(t, w)];
  }

  lemma PushHasToWait(s: State, t: nat, p: Packet, w: nat)
    requires Safe(s) && t < |s.threads| && s.threads[t] == Ready(SlotLoop(p)) && !s.failed && !s.aborted && Queued(s) != []
    ensures Runnable(s.ring)
    ensures SectionStep(s, t, w) == s.(pusher := s.pusher.(waiting := true), threads := s.threads[t := Asleep(SlotLoop(p))])
  {
    SafeIsRunnable(s);
    PushKeepsShape(s.ring, Queued(s), Start(s), s.eof, false, p);
  }

  /** A woken producer t clears the flag and lays its packet down. */
  lemma PushResumes(d: Roles, run0: seq<State>, events0: seq<Event>, t: nat, p: Packet) returns (run: seq<State>, events: seq<Event>)
    requires IsRunOf(d, run0, events0)
    requires var s := run0[|events0|];
             && t < |s.threads| && s.threads[t] == Woken(SlotLoop(p)) && !s.failed && !s.eof && !s.aborted
             && Queued(s) == [] && |p.payload| <= |s.ring.buffer| && !s.poper.waiting
             && (forall u :: 0 <= u < |s.threads| ==> !AsleepOnPoper(s.threads[u]))
    ensures IsRunOf(d, run, events) && run[0] == run0[0]
    ensures var s, s' := run0[|events0|], run[|events|];
            && s' == s.(ring := s'.ring, pushed := s.pushed + [p],
                        pusher := s.pusher.(waiting := false), threads := s.threads[t := Idle])
            && Queued(s') == [p] && |s'.ring.buffer| == |s.ring.buffer|
  {
    var s := run0[|events0|];
    RunIsSafe(run0, events0, |events0|);
    var s1 := s.(pusher := s.pusher.(waiting := false), threads := s.threads[t := Ready(SlotLoop(p))]);
    ExtendRun(d, run0, events0, Return(t), s1);
    run, events := run0 + [s1], events0 + [Return(t)];
    RunIsSafe(run, events, |events|);
    PushIsAccepted(s1, t, p, 0);
    var s2 := SectionStep(s1, t, 0);
    ExtendRun(d, run, events, Section(t, 0), s2);
    run, events := run + [s2], events + [Section(t, 0)];
  }

  /** The consumer t finds the queue empty and falls asleep. */
  lemma PopSleeps(d: Roles, run0: seq<State>, events0: seq<Event>, t: nat, w: nat) returns (run: seq<State>, events: seq<Event>)
    requires IsRunOf(d, run0, events0)
    requires var s := run0[|events0|];
             && t < |s.threads| && s.threads[t] == Idle && MayBegin(d, s, t, PopLoop) && !s.failed && !s.eof && !s.aborted && Queued(s) == []
             && WakeChoice(s.threads, true, w)
    ensures IsRunOf(d, run, events) && run[0] == run0[0]
    ensures var s := run0[|events0|];
            run[|events|] == s.(poper := s.poper.(waiting := true), threads := s.threads[t := Asleep(PopLoop)])
  {
    var s := run0[|events0|];
    var s1 := s.(threads := s.threads[t := Ready(PopLoop)]);
    ExtendRun(d, run0, events0, Begin(t, PopLoop), s1);
    run, events := run0 + [s1], events0 + [Begin(t, PopLoop)];
    RunIsSafe(run, events, |events|);
    SafePop(s1, t, w);
    PopKeepsShape(s1.ring, [], Start(s1), false);
    assert WakeChoice(s1.threads, true, w) by {
      if u :| 0 <= u < |s1.threads| && AsleepOnPusher(s1.threads[u]) {
        assert AsleepOnPusher(s.threads[u]);
      }
    }
    var s2 := SectionStep(s1, t, w);
    ExtendRun(d, run, events, Section(t, w), s2);
    run, events := run + [s2], events + [Section(t, w)];
  }

  /**
   * The position check is reached: one producer and one consumer, a packet of exactly the buffer size,
   * and any packet that fits behind it; the second Pop stops the program.
   */
  lemma PositionCheckCanFail(s0: State, full: Packet, next: Packet) returns (run: seq<State>, events: seq<Event>)
    requires Init(s0) && 2 <= |s0.threads|
    requires |full.payload| == |s0.ring.buffer| && |next.payload| <= |s0.ring.buffer|
    ensures IsRunOf(Roles(1, 1), run, events) && run[0] == s0
    ensures run[|events|].failed && run[|events|].pushed == [full, next] && run[|events|].popped == [full]
  {
    var d := Roles(1, 1);
    run, events := [s0], [];
    run, events := PushOne(d, run, events, 0, full, 0);
    RunIsSafe(run, events, |events|);
    run, events := PopQueued(d, run, events, 1, full, 0);
    RunIsSafe(run, events, |events|);
    run, events := PushOne(d, run, events, 0, next, 0);
    assert HeadAfter([full], 0, |full.payload|) == |full.payload|;
    run, events := PopFails(d, run, events, 1);
  }

  // ---------------------------------------------------------------------------------------------
  // Lost wakeups
  // ---------------------------------------------------------------------------------------------

  /**
   * Nothing is on its way, and some thread sleeps on although what it waits for is there: a producer in
   * front of an empty queue, or a consumer in front of a packet.
   */
  ghost predicate Forgotten(s: State) {
    && !s.eof && !s.failed
    && (forall t :: 0 <= t < |s.threads| ==> s.threads[t].Idle? || s.threads[t].Asleep?)
    && exists t :: 0 <= t < |s.threads| &&
         (if Queued(s) == [] then AsleepOnPusher(s.threads[t]) else AsleepOnPoper(s.threads[t]))
  }

  /** A push wakes the first consumer only, which clears the flag, takes the packet and goes away. */
  lemma OneConsumerIsServed(d: Roles, s0: State, p: Packet) returns (run: seq<State>, events: seq<Event>)
    requires Init(s0) && 1 <= d.producers && 2 <= d.consumers && d.producers + d.consumers <= |s0.threads|
    requires |p.payload| < |s0.ring.buffer|
    ensures IsRunOf(d, run, events) && run[0] == s0
    ensures var s := run[|events|];
            && s.threads == s0.threads[d.producers + 1 := Asleep(PopLoop)] && !s.poper.waiting && !s.pusher.waiting
            && s.pushed == s.popped == [p] && !s.eof && !s.failed && !s.aborted && |s.ring.buffer| == |s0.ring.buffer|
  {
    var b, c := d.producers, d.producers + 1;
    run, events := [s0], [];
    run, events := PopSleeps(d, run, events, b, 0);
    run, events := PopSleeps(d, run, events, c, 0);
    assert run[|events|].threads == s0.threads[b := Asleep(PopLoop)][c := Asleep(PopLoop)];
    run, events := PushOne(d, run, events, 0, p, b);
    assert run[|events|].threads == s0.threads[b := Woken(PopLoop)][c := Asleep(PopLoop)];
    RunIsSafe(run, events, |events|);
    run, events := PopOne(d, run, events, b, p);
  }

  /**
   * With two consumers there is a run after which a packet is queued, the producer and a consumer are
   * both asleep and no wakeup is on its way.
   */
  lemma SecondConsumerCanBeForgotten(d: Roles, s0: State, p: Packet) returns (run: seq<State>, events: seq<Event>)
    requires Init(s0) && 1 <= d.producers && 2 <= d.consumers && d.producers + d.consumers <= |s0.threads|
    requires |p.payload| < |s0.ring.buffer|
    ensures IsRunOf(d, run, events) && run[0] == s0 && Forgotten(run[|events|])
    ensures var s := run[|events|];
            && s.threads == s0.threads[0 := Asleep(SlotLoop(p))][d.producers + 1 := Asleep(PopLoop)] && Queued(s) == [p]
  {
    var c := d.producers + 1;
    run, events := OneConsumerIsServed(d, s0, p);
    run, events := PushOne(d, run, events, 0, p, c);
    run, events := PushSleeps(d, run, events, 0, p, c);
    assert AsleepOnPoper(run[|events|].threads[c]);
  }

  /** The first two producers fall asleep behind one packet. */
  lemma BothProducersSleep(d: Roles, s0: State, p: Packet) returns (run: seq<State>, events: seq<Event>)
    requires Init(s0) && 2 <= d.producers && 1 <= d.consumers && d.producers + d.consumers <= |s0.threads|
    requires |p.payload| < |s0.ring.buffer|
    ensures IsRunOf(d, run, events) && run[0] == s0
    ensures var s := run[|events|];
            && s == s0.(ring := s.ring, pusher := Condition(true, false), pushed := [p],
                        threads := s0.threads[0 := Asleep(SlotLoop(p))][1 := Asleep(SlotLoop(p))])
            && Queued(s) == [p] && |s.ring.buffer| == |s0.ring.buffer|
  {
    run, events := [s0], [];
    run, events := PushOne(d, run, events, 0, p, 0);
    run, events := PushSleeps(d, run, events, 0, p, 0);
    run, events := PushSleeps(d, run, events, 1, p, 0);
  }

  /** A consumer takes the packet, waking the first producer. */
  lemma OneProducerIsWoken(d: Roles, s0: State, p: Packet) returns (run: seq<State>, events: seq<Event>)
    requires Init(s0) && 2 <= d.producers && 1 <= d.consumers && d.producers + d.consumers <= |s0.threads|
    requires |p.payload| < |s0.ring.buffer|
    ensures IsRunOf(d, run, events) && run[0] == s0
    ensures var s := run[|events|];
            && s.threads == s0.threads[0 := Woken(SlotLoop(p))][1 := Asleep(SlotLoop(p))] && s.pusher == Condition(true, false)
            && s.poper == Condition(false, false) && s.pushed == s.popped == [p] && Queued(s) == []
            && !s.eof && !s.failed && !s.aborted && s.mutex == Free && |s.ring.buffer| == |s0.ring.buffer|
  {
    run, events := BothProducersSleep(d, s0, p);
    assert Start(run[|events|]) == 0;
    run, events := PopQueued(d, run, events, d.producers, p, 0);
  }

  /**
   * With two producers there is a run after which the queue is empty, a producer and the consumer are
   * both asleep and no wakeup is on its way.
   */
  lemma SecondProducerCanBeForgotten(d: Roles, s0: State, p: Packet) returns (run: seq<State>, events: seq<Event>)
    requires Init(s0) && 2 <= d.producers && 1 <= d.consumers && d.producers + d.consumers <= |s0.threads|
    requires |p.payload| < |s0.ring.buffer|
    ensures IsRunOf(d, run, events) && run[0] == s0 && Forgotten(run[|events|])
    ensures var s := run[|events|];
            && s.threads == s0.threads[1 := Asleep(SlotLoop(p))][d.producers := Asleep(PopLoop)] && Queued(s) == []
  {
    run, events := OneProducerIsWoken(d, s0, p);
    run, events := PushResumes(d, run, events, 0, p);
    assert run[|events|].threads == s0.threads[1 := Asleep(SlotLoop(p))];
    assert HeadAfter([p], 0, |s0.ring.buffer|) == |p.payload|;
    run, events := PopQueued(d, run, events, d.producers, p, 1);
    run, events := PopSleeps(d, run, events, d.producers, 1);
    assert AsleepOnPusher(run[|events|].threads[1]);
  }

  lemma NoProducerNoPush(d: Roles, s: State, e: Event, s': State)
    requires Step(s, e, s') && InRoles(d, s) && d.producers == 0
    ensures s'.pushed == s.pushed
  {
    if e.Section? {
      assert !IsPushSite(s.threads[e.t].site);
    }
  }

  /** Without producers nothing is ever pushed. */
  lemma {:induction false} NothingIsPushed(d: Roles, run: seq<State>, events: seq<Event>, i: nat)
    requires IsRunOf(d, run, events) && i < |run| && d.producers == 0
    ensures run[i].pushed == []
  {
    if i > 0 {
      NothingIsPushed(d, run, events, i - 1);
      RunStaysInRoles(d, run, events, i - 1);
      assert StepAt(run, events, i - 1);
      NoProducerNoPush(d, run[i - 1], events[i - 1], run[i]);
    }
  }

  /** Without consumers nothing is ever popped, and whoever sleeps in Push sleeps behind a packet. */
  ghost predicate OnlyPushed(s: State) {
    s.popped == [] && forall t :: 0 <= t < |s.threads| && AsleepOnPusher(s.threads[t]) ==> s.pushed != []
  }

  lemma PushWaitsBehindPackets(s: State, t: nat)
    requires Safe(s) && !s.failed && t < |s.threads| && s.threads[t].Ready? && IsPushSite(s.threads[t].site)
    requires |s.threads[t].site.p.payload| <= |s.ring.buffer|
    ensures Runnable(s.ring)
    ensures var o := PushSection(s.ring, s.eof, s.threads[t].site.SpaceLoop?, s.threads[t].site.p).1;
            && (o.WaitForSlot? ==> s.pushed != []) && !o.WaitForSpace?
  {
    SafeIsRunnable(s);
    assert SiteOk(s, s.threads[t]);
    PushKeepsShape(s.ring, Queued(s), Start(s), s.eof, false, s.threads[t].site.p);
    assert Queued(s) != [] ==> s.pushed != [];
  }

  lemma PushStaysOnly(s: State, t: nat, w: nat)
    requires OnlyPushed(s) && t < |s.threads| && s.threads[t].Ready? && IsPushSite(s.threads[t].site) && Runnable(s.ring)
    requires var o := PushSection(s.ring, s.eof, s.threads[t].site.SpaceLoop?, s.threads[t].site.p).1;
             && (o.WaitForSlot? ==> s.pushed != []) && !o.WaitForSpace?
    ensures OnlyPushed(PushStep(s, t, w))
  {
    var (_, o) := PushSection(s.ring, s.eof, s.threads[t].site.SpaceLoop?, s.threads[t].site.p);
    if o.Accepted? {
      assert PushStep(s, t, w).pushed == s.pushed + [s.threads[t].site.p];
    } else {
      assert forall u :: 0 <= u < |s.threads| && u != t ==> PushStep(s, t, w).threads[u] == s.threads[u];
    }
  }

  lemma ControlStaysOnly(s: State, t: nat, w: nat)
    requires OnlyPushed(s) && t < |s.threads| && s.threads[t].Ready? && !s.threads[t].site.AbortSignal? && Runnable(s.ring)
    requires !IsPushSite(s.threads[t].site) && !s.threads[t].site.PopLoop?
    ensures OnlyPushed(SectionStep(s, t, w))
  {
  }

  lemma ElsewhereStaysOnly(s: State, e: Event, s': State)
    requires OnlyPushed(s) && Step(s, e, s') && !e.Section?
    ensures OnlyPushed(s')
  {
  }

  lemma StaysOnly(d: Roles, s: State, e: Event, s': State)
    requires OnlyPushed(s) && Safe(s) && InRoles(d, s) && d.consumers == 0 && Step(s, e, s')
    ensures OnlyPushed(s')
  {
    if !e.Section? {
      ElsewhereStaysOnly(s, e, s');
    } else if IsPushSite(s.threads[e.t].site) {
      PushWaitsBehindPackets(s, e.t);
      PushStaysOnly(s, e.t, e.woken);
    } else {
      assert !s.threads[e.t].site.PopLoop?;
      ControlStaysOnly(s, e.t, e.woken);
    }
  }

  lemma {:induction false} NothingIsPopped(d: Roles, run: seq<State>, events: seq<Event>, i: nat)
    requires IsRunOf(d, run, events) && i < |run| && d.consumers == 0
    ensures OnlyPushed(run[i])
  {
    if i > 0 {
      NothingIsPopped(d, run, events, i - 1);
      RunStaysInRoles(d, run, events, i - 1);
      RunIsSafe(run, events, i - 1);
      assert StepAt(run, events, i - 1);
      StaysOnly(d, run[i - 1], events[i - 1], run[i]);
    }
  }

  lemma OneOfEachIsAwake(run: seq<State>, events: seq<Event>, i: nat)
    requires IsRunOf(Roles(1, 1), run, events) && i < |run|
    ensures Awake(run[i])
  {
    forall k | 0 <= k < |run| ensures OneProducerOneConsumer(run[k]) {
      RunStaysInRoles(Roles(1, 1), run, events, k);
    }
    RunIsAwake(run, events, i);
  }

  lemma NobodyIsForgotten(d: Roles, run: seq<State>, events: seq<Event>, i: nat)
    requires IsRunOf(d, run, events) && i < |run|
    requires d.producers == 0 || d.consumers == 0 || d == Roles(1, 1)
    ensures !Forgotten(run[i])
  {
    RunStaysInRoles(d, run, events, i);
    RunIsSafe(run, events, i);
    if d.producers == 0 {
      NothingIsPushed(d, run, events, i);
    } else if d.consumers == 0 {
      NothingIsPopped(d, run, events, i);
    } else {
      OneOfEachIsAwake(run, events, i);
    }
  }

  /**
   * From any initial state, whatever the ring's sizes: no run loses a wakeup iff nobody produces, nobody
   * consumes, or exactly one thread does each.
   */
  lemma NoWakeupIsLostIff(d: Roles, s0: State)
    requires Init(s0) && d.producers + d.consumers <= |s0.threads|
    ensures (forall run, events, i | IsRunOf(d, run, events) && run[0] == s0 && 0 <= i < |run| :: !Forgotten(run[i]))
       <==> d.producers == 0 || d.consumers == 0 || d == Roles(1, 1)
  {
    if d.producers == 0 || d.consumers == 0 || d == Roles(1, 1) {
      forall run, events, i | IsRunOf(d, run, events) && run[0] == s0 && 0 <= i < |run| ensures !Forgotten(run[i]) {
        NobodyIsForgotten(d, run, events, i);
      }
    } else if d.consumers >= 2 {
      var run, events := SecondConsumerCanBeForgotten(d, s0, Packet([], 0));
      assert Forgotten(run[|events|]);
    } else {
      var run, events := SecondProducerCanBeForgotten(d, s0, Packet([], 0));
      assert Forgotten(run[|events|]);
    }
  }
}
