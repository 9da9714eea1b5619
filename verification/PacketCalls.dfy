/**
 * What each critical section does in every run, in terms of the queued packets and not of the code, and
 * what Finished and Abort have established from then on.
 */
module PacketCalls {
  import opened PacketRing
  import opened PacketSections
  import opened PacketProtocol

  ghost predicate IsSectionAt(run: seq<State>, events: seq<Event>, i: nat, site: Site) {
    && IsRun(run, events) && i < |events|
    && events[i].Section? && events[i].t < |run[i].threads| && run[i].threads[events[i].t] == Ready(site)
  }

  // ---------------------------------------------------------------------------------------------
  // Push and Pop
  // ---------------------------------------------------------------------------------------------

  /**
   * Push: asleep behind a queued packet, or for space that there never is; returning 0 without a trace
   * when the stream is finished; else the packet alone is queued and a waiting consumer woken.
   */
  ghost predicate PushDoes(s: State, t: nat, w: nat, site: Site, s': State)
    requires t < |s.threads| && IsPushSite(site)
  {
    if site.SlotLoop? && Queued(s) != [] then
      s' == s.(pusher := Condition(true, s.pusher.aborted), threads := s.threads[t := Asleep(SlotLoop(site.p))])
    else if s.eof then s' == s.(threads := s.threads[t := Idle])
    else if |site.p.payload| > |s.ring.buffer| then
      s' == s.(pusher := Condition(true, s.pusher.aborted), threads := s.threads[t := Asleep(SpaceLoop(site.p))])
    else
      && Queued(s) == [] && Queued(s') == [site.p]
      && s' == s.(ring := s'.ring, pushed := s.pushed + [site.p],
                  threads := (if s.poper.waiting then Wake(s.threads, false, w) else s.threads)[t := Idle])
  }

  lemma PushStepDoes(s: State, t: nat, w: nat)
    requires Safe(s) && !s.failed && t < |s.threads| && s.threads[t].Ready? && IsPushSite(s.threads[t].site)
    ensures Runnable(s.ring) && PushDoes(s, t, w, s.threads[t].site, PushStep(s, t, w))
  {
    var site := s.threads[t].site;
    assert SiteOk(s, s.threads[t]);
    SafePush(s, t, w);
    PushKeepsShape(s.ring, Queued(s), Start(s), s.eof, site.SpaceLoop?, site.p);
    var (r', o) := PushSection(s.ring, s.eof, site.SpaceLoop?, site.p);
    if o.Accepted? {
      assert PushStep(s, t, w).pushed == s.pushed + [site.p];
    }
  }

  lemma PushIs(run: seq<State>, events: seq<Event>, i: nat, site: Site)
    requires IsSectionAt(run, events, i, site) && IsPushSite(site)
    ensures PushDoes(run[i], events[i].t, events[i].woken, site, run[i + 1])
  {
    RunIsSafe(run, events, i);
    assert StepAt(run, events, i);
    PushStepDoes(run[i], events[i].t, events[i].woken);
  }

  /**
   * Pop: asleep on an empty queue, or returning 0 when the stream is finished; the end of the program when
   * the packet was laid down at the buffer size; else the packet is out and a waiting producer woken.
   */
  ghost predicate PopDoes(s: State, t: nat, w: nat, s': State)
    requires t < |s.threads|
  {
    if Queued(s) == [] then
      if s.eof then s' == s.(threads := s.threads[t := Idle])
      else s' == s.(poper := Condition(true, s.poper.aborted), threads := s.threads[t := Asleep(PopLoop)])
    else if Start(s) == |s.ring.buffer| then s' == s.(failed := true)
    else
      && Queued(s') == []
      && s' == s.(ring := s'.ring, popped := s.popped + Queued(s),
                  threads := (if s.pusher.waiting then Wake(s.threads, true, w) else s.threads)[t := Idle])
  }

  lemma PopStepDoes(s: State, t: nat, w: nat)
    requires Safe(s) && !s.failed && t < |s.threads| && s.threads[t] == Ready(PopLoop)
    ensures Runnable(s.ring) && PopDoes(s, t, w, PopStep(s, t, w))
  {
    SafePop(s, t, w);
    PopKeepsShape(s.ring, Queued(s), Start(s), s.eof);
    var (r', o) := PopSection(s.ring, s.eof);
    if o.Delivered? {
      PopDelivers(s, t, w, o.packet);
    }
  }

  lemma PopDelivers(s: State, t: nat, w: nat, p: Packet)
    requires Safe(s) && !s.failed && t < |s.threads| && s.threads[t] == Ready(PopLoop) && Runnable(s.ring)
    requires PopSection(s.ring, s.eof).1 == Delivered(p) && Queued(s) == [p] && Start(s) != |s.ring.buffer|
    ensures PopDoes(s, t, w, PopStep(s, t, w))
  {
    SafePop(s, t, w);
    PopKeepsShape(s.ring, Queued(s), Start(s), s.eof);
    assert PopStep(s, t, w) == DeliverStep(s, t, w, PopSection(s.ring, s.eof).0, p);
  }

  lemma PopIs(run: seq<State>, events: seq<Event>, i: nat)
    requires IsSectionAt(run, events, i, PopLoop)
    ensures PopDoes(run[i], events[i].t, events[i].woken, run[i + 1])
  {
    RunIsSafe(run, events, i);
    assert StepAt(run, events, i);
    PopStepDoes(run[i], events[i].t, events[i].woken);
  }

  // ---------------------------------------------------------------------------------------------
  // Finished and Abort
  // ---------------------------------------------------------------------------------------------

  predicate IsFinishing(site: Site) {
    site.FinishSite? || site.AbortFinish?
  }

  /** Finished, called alone or as the first thing of Abort. */
  lemma FinishedIs(run: seq<State>, events: seq<Event>, i: nat, site: Site)
    requires IsSectionAt(run, events, i, site) && IsFinishing(site)
    ensures var s, t, w := run[i], events[i].t, events[i].woken;
            run[i + 1] == s.(eof := true, poper := Condition(s.poper.waiting, true),
                             threads := (if s.poper.waiting then Wake(s.threads, false, w) else s.threads)
                                        [t := if site.FinishSite? then Idle else Ready(AbortReset)])
  {
    assert StepAt(run, events, i);
  }

  /** Abort's own section, and its signal: the ring is empty, then the pushers' condition is aborted. */
  lemma AbortIs(run: seq<State>, events: seq<Event>, i: nat)
    requires IsSectionAt(run, events, i, AbortReset)
    ensures var s, t := run[i], events[i].t;
            && run[i + 1] == s.(aborted := true, ring := EmptyRing(s.ring.slots, s.ring.buffer),
                                threads := s.threads[t := Ready(AbortSignal)])
            && Queued(run[i + 1]) == []
  {
    assert StepAt(run, events, i);
  }

  lemma SignalIs(run: seq<State>, events: seq<Event>, i: nat)
    requires IsRun(run, events) && i < |events| && events[i].Signal?
    ensures var s, t, w := run[i], events[i].t, events[i].woken;
            && t < |s.threads| && s.threads[t] == Ready(AbortSignal)
            && run[i + 1] == s.(pusher := Condition(s.pusher.waiting, true),
                                threads := (if s.pusher.waiting then Wake(s.threads, true, w) else s.threads)[t := Idle])
  {
    assert StepAt(run, events, i);
  }

  /** A call begins at its first section. */
  lemma BeginIs(run: seq<State>, events: seq<Event>, i: nat)
    requires IsRun(run, events) && i < |events| && events[i].Begin?
    ensures var s, t, site := run[i], events[i].t, events[i].site;
            && t < |s.threads| && s.threads[t] == Idle && run[i + 1] == s.(threads := s.threads[t := Ready(site)])
            && (site.SlotLoop? || site.PopLoop? || site.FinishSite? || site.AbortFinish?)
  {
    assert StepAt(run, events, i);
  }

  /** A woken thread takes the mutex, clears the flag and looks again, where it slept and with its packet. */
  lemma ReturnIs(run: seq<State>, events: seq<Event>, i: nat)
    requires IsRun(run, events) && i < |events| && events[i].Return?
    ensures var s, t := run[i], events[i].t;
            && t < |s.threads| && s.threads[t].Woken?
            && var s' := s.(threads := s.threads[t := Ready(s.threads[t].site)]);
               run[i + 1] == if IsPushSite(s.threads[t].site) then s'.(pusher := Condition(false, s.pusher.aborted))
                             else s'.(poper := Condition(false, s.poper.aborted))
  {
    assert StepAt(run, events, i);
  }

  /** The flags are never taken back. */
  lemma FlagsStay(s: State, e: Event, s': State)
    requires Safe(s) && Step(s, e, s')
    ensures (s.eof ==> s'.eof) && (s.poper.aborted ==> s'.poper.aborted)
    ensures (s.aborted ==> s'.aborted) && (s.pusher.aborted ==> s'.pusher.aborted)
  {
    if e.Section? {
      if IsPushSite(s.threads[e.t].site) {
        PushStepDoes(s, e.t, e.woken);
      } else if s.threads[e.t].site.PopLoop? {
        PopStepDoes(s, e.t, e.woken);
      }
    }
  }

  lemma {:induction false} FlagsStayOn(run: seq<State>, events: seq<Event>, i: nat, j: nat)
    requires IsRun(run, events) && i <= j < |run|
    ensures (run[i].eof ==> run[j].eof) && (run[i].poper.aborted ==> run[j].poper.aborted)
    ensures (run[i].aborted ==> run[j].aborted) && (run[i].pusher.aborted ==> run[j].pusher.aborted)
  {
    if i < j {
      FlagsStayOn(run, events, i, j - 1);
      RunIsSafe(run, events, j - 1);
      assert StepAt(run, events, j - 1);
      FlagsStay(run[j - 1], events[j - 1], run[j]);
    }
  }

  /** Finished, or Abort's call of it, holds from then on. */
  lemma FinishedForGood(run: seq<State>, events: seq<Event>, i: nat, site: Site, j: nat)
    requires IsSectionAt(run, events, i, site) && IsFinishing(site) && i < j < |run|
    ensures run[j].eof && run[j].poper.aborted
  {
    FinishedIs(run, events, i, site);
    FlagsStayOn(run, events, i + 1, j);
  }

  /** Behind Abort's section the queue is empty and no Push and no Pop succeeds any more. */
  lemma AbortedForGood(run: seq<State>, events: seq<Event>, i: nat, j: nat)
    requires IsSectionAt(run, events, i, AbortReset) && i < j < |run|
    ensures run[j].aborted && Queued(run[j]) == []
    ensures run[j].pushed == run[i].pushed && run[j].popped == run[i].popped
  {
    AbortIs(run, events, i);
    NothingAfterAbort(run, events, i + 1, j);
  }

  /**
   * One producer, one consumer: behind Finished the consumer is not asleep, and when its turn comes its Pop
   * returns, with the packet that is queued or with 0.
   */
  lemma FinishedReleasesPop(run: seq<State>, events: seq<Event>, i: nat, site: Site, j: nat)
    requires IsDisciplinedRun(run, events) && IsSectionAt(run, events, i, site) && IsFinishing(site) && i < j < |run|
    ensures !run[j].threads[1].Asleep?
    ensures j < |events| && IsSectionAt(run, events, j, PopLoop) && !run[j + 1].failed
            ==> run[j + 1].threads[1] == Idle && run[j + 1].popped == run[j].popped + Queued(run[j])
  {
    FinishedForGood(run, events, i, site, j);
    NeverBothAsleep(run, events, j);
    if j < |events| && IsSectionAt(run, events, j, PopLoop) {
      PopIs(run, events, j);
      RunIsSafe(run, events, j);
    }
  }

  // ---------------------------------------------------------------------------------------------
  // The signal
  // ---------------------------------------------------------------------------------------------

  /** Once the pushers' condition is aborted, the producer is not asleep on it. */
  ghost predicate Signalled(s: State) {
    |s.threads| >= 2 && (s.pusher.aborted ==> !AsleepOnPusher(s.threads[0]))
  }

  lemma SectionStaysSignalled(s: State, t: nat, w: nat)
    requires Safe(s) && Signalled(s) && !s.failed && t < |s.threads| && s.threads[t].Ready? && !s.threads[t].site.AbortSignal?
    ensures Runnable(s.ring) && Signalled(SectionStep(s, t, w))
  {
    SafeIsRunnable(s);
    if IsPushSite(s.threads[t].site) {
      PushStepDoes(s, t, w);
    } else if s.threads[t].site.PopLoop? {
      PopStepDoes(s, t, w);
    }
  }

  lemma StaysSignalled(s: State, e: Event, s': State)
    requires Awake(s) && Signalled(s) && Step(s, e, s')
    ensures Signalled(s')
  {
    if e.Section? {
      SectionStaysSignalled(s, e.t, e.woken);
    }
  }

  lemma {:induction false} RunStaysSignalled(run: seq<State>, events: seq<Event>, i: nat)
    requires IsDisciplinedRun(run, events) && i < |run|
    ensures Signalled(run[i])
  {
    if i > 0 {
      RunStaysSignalled(run, events, i - 1);
      RunIsAwake(run, events, i - 1);
      assert StepAt(run, events, i - 1);
      StaysSignalled(run[i - 1], events[i - 1], run[i]);
    }
  }

  /** One producer, one consumer: behind Abort's signal neither is ever asleep again. */
  lemma AbortReleasesBoth(run: seq<State>, events: seq<Event>, i: nat, j: nat)
    requires IsDisciplinedRun(run, events) && i < |events| && events[i].Signal? && i < j < |run|
    ensures run[j].pusher.aborted && !run[j].threads[0].Asleep? && !run[j].threads[1].Asleep?
  {
    SignalIs(run, events, i);
    RunIsSafe(run, events, i);
    assert SiteOk(run[i], run[i].threads[events[i].t]);
    FlagsStayOn(run, events, i, j);
    FlagsStayOn(run, events, i + 1, j);
    RunIsSafe(run, events, j);
    RunStaysSignalled(run, events, j);
    NeverBothAsleep(run, events, j);
    assert SiteOk(run[j], run[j].threads[0]) && OneProducerOneConsumer(run[j]);
  }
}
