/**
 * The locking protocol of PacketQueue for any number of threads, with the mutex and condition classes
 * it uses: the mutex is recursive, a wait on a live condition drops it, sleeps, takes it again, clears
 * `waiting` and drops it; a wait on an aborted condition returns at once WITHOUT dropping it. The
 * callers lock again after every wait. One step is one critical section, so that steps interleave in
 * every order the mutex allows. The signal at the end of Abort, which is sent without the mutex, is a step
 * of its own; PacketSignal takes it apart.
 */
module PacketProtocol {
  import opened PacketRing
  import opened PacketSections

  datatype Condition = Condition(waiting: bool, aborted: bool)

  /** Where a thread is inside the queue's code. Every site but AbortSignal takes the mutex first. */
  datatype Site =
    | SlotLoop(p: Packet)   // Push, first loop
    | SpaceLoop(p: Packet)  // Push, second loop
    | PopLoop
    | FinishSite            // Finished
    | AbortFinish           // Abort: its call of Finished
    | AbortReset            // Abort: positions back to 0
    | AbortSignal           // Abort: aborts the pushers' condition, without the mutex

  datatype Thread = Idle | Ready(site: Site) | Asleep(site: Site) | Woken(site: Site)

  datatype Mutex = Free | Held(owner: nat, depth: nat)

  datatype State = State(
    ring: Ring, eof: bool, aborted: bool,
    pusher: Condition, poper: Condition,
    mutex: Mutex, threads: seq<Thread>,
    failed: bool,              // ADM_assert hit: the program is gone
    pushed: seq<Packet>,       // packets whose Push returned 1, in order
    popped: seq<Packet>)       // packets handed out by Pop, in order

  datatype Event =
    | Begin(t: nat, site: Site)
    | Section(t: nat, woken: nat)
    | Signal(t: nat, woken: nat)
    | Return(t: nat)
    | Spurious(t: nat)

  predicate IsPushSite(site: Site) {
    site.SlotLoop? || site.SpaceLoop?
  }

  predicate AsleepOnPusher(th: Thread) {
    th.Asleep? && IsPushSite(th.site)
  }

  predicate AsleepOnPoper(th: Thread) {
    th.Asleep? && th.site.PopLoop?
  }

  /** pthread_cond_signal: some sleeper, if there is one, is `w`. */
  ghost predicate WakeChoice(threads: seq<Thread>, onPusher: bool, w: nat) {
    (exists u :: 0 <= u < |threads| && (if onPusher then AsleepOnPusher(threads[u]) else AsleepOnPoper(threads[u])))
    ==> w < |threads| && (if onPusher then AsleepOnPusher(threads[w]) else AsleepOnPoper(threads[w]))
  }

  function Wake(threads: seq<Thread>, onPusher: bool, w: nat): (threads': seq<Thread>)
    ensures |threads'| == |threads|
  {
    if w < |threads| && (if onPusher then AsleepOnPusher(threads[w]) else AsleepOnPoper(threads[w]))
    then threads[w := Woken(threads[w].site)] else threads
  }

  // ---------------------------------------------------------------------------------------------
  // Steps
  // ---------------------------------------------------------------------------------------------

  function Depth(s: State): nat {
    if s.mutex.Held? then s.mutex.depth else 0
  }

  /** A section locks once and unlocks once: the mutex is as deep as before it. */
  function Leave(s: State, t: nat, next: Thread): State
    requires t < |s.threads|
  {
    s.(threads := s.threads[t := next])
  }

  function WaitOnPusher(s: State, t: nat, site: Site): State
    requires t < |s.threads|
  {
    if s.pusher.aborted
    then s.(mutex := Held(t, Depth(s) + 1), threads := s.threads[t := Ready(site)])
    else s.(pusher := s.pusher.(waiting := true), threads := s.threads[t := Asleep(site)])
  }

  function WaitOnPoper(s: State, t: nat, site: Site): State
    requires t < |s.threads|
  {
    if s.poper.aborted
    then s.(mutex := Held(t, Depth(s) + 1), threads := s.threads[t := Ready(site)])
    else s.(poper := s.poper.(waiting := true), threads := s.threads[t := Asleep(site)])
  }

  /** Ready to run at all: proved of every reachable state, so it hides no behaviour. */
  predicate Runnable(r: Ring) {
    WellSized(r) && (!IsEmpty(r) ==> FrontSlot(r).size <= |r.buffer|)
  }

  function PushStep(s: State, t: nat, w: nat): State
    requires t < |s.threads| && s.threads[t].Ready? && IsPushSite(s.threads[t].site) && Runnable(s.ring)
  {
    var site := s.threads[t].site;
    var (r', o) := PushSection(s.ring, s.eof, site.SpaceLoop?, site.p);
    match o
    case WaitForSlot => WaitOnPusher(s, t, SlotLoop(site.p))
    case WaitForSpace => WaitOnPusher(s, t, SpaceLoop(site.p))
    case Refused => Leave(s, t, Idle)
    case Accepted => AcceptStep(s, t, w, r', site.p)
  }

  function AcceptStep(s: State, t: nat, w: nat, r': Ring, p: Packet): State
    requires t < |s.threads|
  {
    var s1 := s.(ring := r', pushed := s.pushed + [p]);
    var s2 := if s.poper.waiting then s1.(threads := Wake(s1.threads, false, w)) else s1;
    Leave(s2, t, Idle)
  }

  function PopStep(s: State, t: nat, w: nat): State
    requires t < |s.threads| && s.threads[t] == Ready(PopLoop) && Runnable(s.ring)
  {
    var (r', o) := PopSection(s.ring, s.eof);
    match o
    case WaitForPacket => WaitOnPoper(s, t, PopLoop)
    case EndOfStream => Leave(s, t, Idle)
    case PositionFailure => s.(failed := true)
    case Delivered(p) => DeliverStep(s, t, w, r', p)
  }

  function DeliverStep(s: State, t: nat, w: nat, r': Ring, p: Packet): State
    requires t < |s.threads| && WellSized(r')
  {
    var s1 := s.(ring := r', popped := s.popped + [p]);
    if s.pusher.waiting && AvailableSpace(r') < |p.payload| then s1.(failed := true)
    else
      var s2 := if s.pusher.waiting && WorthWakingPusher(r')
                then s1.(threads := Wake(s1.threads, true, w)) else s1;
      Leave(s2, t, Idle)
  }

  function FinishStep(s: State, t: nat, w: nat, next: Thread): State
    requires t < |s.threads|
  {
    var s1 := s.(eof := true, poper := s.poper.(aborted := true));
    var s2 := if s.poper.waiting then s1.(threads := Wake(s1.threads, false, w)) else s1;
    Leave(s2, t, next)
  }

  function SectionStep(s: State, t: nat, w: nat): State
    requires t < |s.threads| && s.threads[t].Ready? && !s.threads[t].site.AbortSignal? && Runnable(s.ring)
  {
    match s.threads[t].site
    case SlotLoop(_) => PushStep(s, t, w)
    case SpaceLoop(_) => PushStep(s, t, w)
    case PopLoop => PopStep(s, t, w)
    case FinishSite => FinishStep(s, t, w, Idle)
    case AbortFinish => FinishStep(s, t, w, Ready(AbortReset))
    case AbortReset => Leave(s.(aborted := true, ring := Reset(s.ring)), t, Ready(AbortSignal))
  }

  predicate MayLock(s: State, t: nat) {
    s.mutex.Free? || s.mutex.owner == t
  }

  ghost predicate Step(s: State, e: Event, s': State) {
    && !s.failed
    && e.t < |s.threads|
    && match e
       case Begin(t, site) =>
         && s.threads[t].Idle?
         && (site.SlotLoop? || site.PopLoop? || site.FinishSite? || site.AbortFinish?)
         && s' == s.(threads := s.threads[t := Ready(site)])
       case Section(t, w) =>
         && s.threads[t].Ready? && !s.threads[t].site.AbortSignal?
         && MayLock(s, t) && Runnable(s.ring)
         && WakeChoice(s.threads, s.threads[t].site.PopLoop?, w)
         && s' == SectionStep(s, t, w)
       case Signal(t, w) =>
         && s.threads[t] == Ready(AbortSignal)
         && WakeChoice(s.threads, true, w)
         && var s1 := s.(pusher := s.pusher.(aborted := true));
            var s2 := if s.pusher.waiting then s1.(threads := Wake(s1.threads, true, w)) else s1;
            s' == s2.(threads := s2.threads[t := Idle])
       case Return(t) =>
         && s.threads[t].Woken? && s.mutex.Free?
         && var site := s.threads[t].site;
            s' == s.(pusher := if IsPushSite(site) then s.pusher.(waiting := false) else s.pusher,
                     poper := if IsPushSite(site) then s.poper else s.poper.(waiting := false),
                     threads := s.threads[t := Ready(site)])
       case Spurious(t) =>
         && s.threads[t].Asleep?
         && s' == s.(threads := s.threads[t := Woken(s.threads[t].site)])
  }

  ghost predicate Init(s: State) {
    && WellSized(s.ring)
    && s.ring == EmptyRing(s.ring.slots, s.ring.buffer)
    && !s.eof && !s.aborted && !s.failed
    && s.pusher == s.poper == Condition(false, false)
    && s.mutex == Free
    && (forall t :: 0 <= t < |s.threads| ==> s.threads[t] == Idle)
    && s.pushed == s.popped == []
  }

  ghost predicate IsRun(run: seq<State>, events: seq<Event>) {
    && |run| == |events| + 1
    && Init(run[0])
    && forall i :: 0 <= i < |events| ==> StepAt(run, events, i)
  }

  ghost predicate StepAt(run: seq<State>, events: seq<Event>, i: nat)
    requires |run| == |events| + 1 && i < |events|
  {
    Step(run[i], events[i], run[i + 1])
  }

  // ---------------------------------------------------------------------------------------------
  // Safety, for every number of threads calling anything in any order
  // ---------------------------------------------------------------------------------------------

  /** The packets still queued: those pushed and not yet popped, unless Abort threw them away. */
  function Queued(s: State): seq<Packet> {
    if s.aborted || |s.pushed| < |s.popped| then [] else s.pushed[|s.popped|..]
  }

  predicate SiteOk(s: State, th: Thread) {
    && (!th.Idle? && th.site.SpaceLoop? ==> |th.site.p.payload| > |s.ring.buffer|)
    && (th.Asleep? || th.Woken? ==> IsPushSite(th.site) || th.site.PopLoop?)
    && (!th.Idle? && th.site.AbortReset? ==> s.eof)
    && (!th.Idle? && th.site.AbortSignal? ==> s.aborted)
  }

  ghost predicate Safe(s: State) {
    && s.mutex.Free?
    && s.popped <= s.pushed
    && Fits(s.pushed, |s.ring.buffer|)
    && (s.aborted ==> s.eof)
    && (s.pusher.aborted ==> s.aborted)
    && (s.poper.aborted <==> s.eof)
    && (forall t :: 0 <= t < |s.threads| ==> SiteOk(s, s.threads[t]))
    && Holds(s.ring, Queued(s), Start(s))
    && (s.aborted ==> s.ring.bufferHead == 0)
    && (s.failed ==> Queued(s) != [] && HeadAfter(s.popped, 0, |s.ring.buffer|) == |s.ring.buffer|)
  }

  lemma {:induction false} HeadAfterAppend(ps: seq<Packet>, p: Packet, start: nat, n: nat)
    ensures HeadAfter(ps + [p], start, n) == NextHead(HeadAfter(ps, start, n), |p.payload|, n)
  {
    DescriptorsAppend(ps, p, start, n);
  }

  lemma SafeInit(s: State)
    requires Init(s)
    ensures Safe(s)
  {
    EmptyLayout(s.ring.slots, s.ring.buffer);
  }

  lemma ThreadsStayOk(s: State, s': State)
    requires Safe(s)
    requires |s'.ring.buffer| == |s.ring.buffer|
    requires s.eof ==> s'.eof
    requires s.aborted ==> s'.aborted
    requires |s'.threads| == |s.threads|
    requires forall u :: 0 <= u < |s.threads| ==>
               || s'.threads[u] == s.threads[u]
               || (s.threads[u].Asleep? && s'.threads[u] == Woken(s.threads[u].site))
               || SiteOk(s', s'.threads[u])
    ensures forall t :: 0 <= t < |s'.threads| ==> SiteOk(s', s'.threads[t])
  {
    forall t | 0 <= t < |s'.threads| ensures SiteOk(s', s'.threads[t]) {
      assert SiteOk(s, s.threads[t]);
    }
  }

  function Start(s: State): nat {
    if s.aborted then 0 else HeadAfter(s.popped, 0, |s.ring.buffer|)
  }

  lemma SafeAccept(s: State, t: nat, w: nat, r': Ring, p: Packet)
    requires Safe(s) && !s.failed && t < |s.threads|
    requires Queued(s) == [] && !s.aborted && |p.payload| <= |s.ring.buffer|
    requires |r'.buffer| == |s.ring.buffer| && Holds(r', [p], Start(s))
    ensures Safe(AcceptStep(s, t, w, r', p))
    ensures Queued(AcceptStep(s, t, w, r', p)) == [p]
  {
    var s' := AcceptStep(s, t, w, r', p);
    assert s.pushed == s.popped;
    assert Queued(s') == [p];
    ThreadsStayOk(s, s');
  }

  lemma SafeDeliver(s: State, t: nat, w: nat, r': Ring, p: Packet)
    requires Safe(s) && !s.failed && t < |s.threads|
    requires Queued(s) == [p] && Start(s) < |s.ring.buffer|
    requires |r'.buffer| == |s.ring.buffer| && Holds(r', [], HeadAfter(s.popped + [p], 0, |s.ring.buffer|))
    requires AvailableSpace(r') == |r'.buffer|
    ensures var s' := DeliverStep(s, t, w, r', p);
            Safe(s') && !s'.failed && s'.popped == s.pushed && Queued(s') == []
  {
    var s' := DeliverStep(s, t, w, r', p);
    assert s.pushed == s.popped + [p];
    assert |p.payload| <= |s.ring.buffer|;
    assert Queued(s') == [];
    ThreadsStayOk(s, s');
  }

  lemma SafePush(s: State, t: nat, w: nat)
    requires Safe(s) && !s.failed && t < |s.threads| && s.threads[t].Ready? && IsPushSite(s.threads[t].site)
    ensures Runnable(s.ring) && Safe(PushStep(s, t, w))
    ensures PushStep(s, t, w).pushed != s.pushed ==> Queued(s) == [] && Queued(PushStep(s, t, w)) == [s.threads[t].site.p]
  {
    var site := s.threads[t].site;
    assert SiteOk(s, s.threads[t]);
    SafeIsRunnable(s);
    PushKeepsShape(s.ring, Queued(s), Start(s), s.eof, site.SpaceLoop?, site.p);
    var (r', o) := PushSection(s.ring, s.eof, site.SpaceLoop?, site.p);
    if o.Accepted? {
      SafeAccept(s, t, w, r', site.p);
    } else {
      ThreadsStayOk(s, PushStep(s, t, w));
    }
  }

  lemma SafePop(s: State, t: nat, w: nat)
    requires Safe(s) && !s.failed && t < |s.threads| && s.threads[t] == Ready(PopLoop)
    ensures Runnable(s.ring) && Safe(PopStep(s, t, w))
    ensures PopStep(s, t, w).failed <==> Queued(s) != [] && HeadAfter(s.popped, 0, |s.ring.buffer|) == |s.ring.buffer|
    ensures PopStep(s, t, w).failed <==> PopSection(s.ring, s.eof).1.PositionFailure?
  {
    SafeIsRunnable(s);
    PopKeepsShape(s.ring, Queued(s), Start(s), s.eof);
    var (r', o) := PopSection(s.ring, s.eof);
    if o.Delivered? {
      FrontIsOldest(s.ring, Queued(s), Start(s));
      HeadAfterAppend(s.popped, o.packet, 0, |s.ring.buffer|);
      SafeDeliver(s, t, w, r', o.packet);
    } else if !o.PositionFailure? {
      ThreadsStayOk(s, PopStep(s, t, w));
    }
  }

  lemma SafeFinish(s: State, t: nat, w: nat, next: Thread)
    requires Safe(s) && !s.failed && t < |s.threads| && s.threads[t].Ready?
    requires next == Idle || next == Ready(AbortReset)
    ensures Safe(FinishStep(s, t, w, next))
  {
    ThreadsStayOk(s, FinishStep(s, t, w, next));
  }

  lemma SafeReset(s: State, t: nat)
    requires Safe(s) && !s.failed && t < |s.threads| && s.threads[t] == Ready(AbortReset)
    ensures Safe(Leave(s.(aborted := true, ring := Reset(s.ring)), t, Ready(AbortSignal)))
  {
    assert SiteOk(s, s.threads[t]);
    EmptyLayout(s.ring.slots, s.ring.buffer);
    ThreadsStayOk(s, Leave(s.(aborted := true, ring := Reset(s.ring)), t, Ready(AbortSignal)));
  }

  lemma SafeIsRunnable(s: State)
    requires Safe(s)
    ensures Runnable(s.ring)
  {
    UsedSlotsCounts(s.ring, Queued(s), Start(s));
    FrontIsOldestIfAny(s.ring, Queued(s), Start(s));
  }

  lemma SafeSection(s: State, t: nat, w: nat)
    requires Safe(s) && !s.failed && t < |s.threads| && s.threads[t].Ready? && !s.threads[t].site.AbortSignal?
    ensures Runnable(s.ring) && Safe(SectionStep(s, t, w))
  {
    SafeIsRunnable(s);
    match s.threads[t].site
    case SlotLoop(_) => SafePush(s, t, w);
    case SpaceLoop(_) => SafePush(s, t, w);
    case PopLoop => SafePop(s, t, w);
    case FinishSite => SafeFinish(s, t, w, Idle);
    case AbortFinish => SafeFinish(s, t, w, Ready(AbortReset));
    case AbortReset => SafeReset(s, t);
  }

  lemma SafeElsewhere(s: State, e: Event, s': State)
    requires Safe(s) && Step(s, e, s') && !e.Section?
    ensures Safe(s') && !s'.failed
  {
    assert SiteOk(s, s.threads[e.t]);
    assert s'.ring == s.ring && s'.eof == s.eof && s'.aborted == s.aborted;
    assert s'.pushed == s.pushed && s'.popped == s.popped && s'.mutex == s.mutex && !s'.failed;
    ThreadsStayOk(s, s');
  }

  lemma SafeStep(s: State, e: Event, s': State)
    requires Safe(s) && Step(s, e, s')
    ensures Safe(s')
  {
    if e.Section? {
      SafeSection(s, e.t, e.woken);
    } else {
      SafeElsewhere(s, e, s');
    }
  }

  lemma {:induction false} RunIsSafe(run: seq<State>, events: seq<Event>, i: nat)
    requires IsRun(run, events) && i < |run|
    ensures Safe(run[i])
  {
    if i == 0 {
      SafeInit(run[0]);
    } else {
      RunIsSafe(run, events, i - 1);
      assert StepAt(run, events, i - 1);
      SafeStep(run[i - 1], events[i - 1], run[i]);
    }
  }

  /**
   * In every run, at every moment: what was popped is a prefix of what was pushed; until Abort the ring
   * holds exactly the rest, byte for byte; and never more than one packet.
   */
  lemma FifoInEveryRun(run: seq<State>, events: seq<Event>, i: nat)
    requires IsRun(run, events) && i < |run|
    ensures var s := run[i];
            && s.popped <= s.pushed
            && WellSized(s.ring) && UsedSlots(s.ring) <= 1
            && (!s.aborted ==> && s.pushed == s.popped + s.pushed[|s.popped|..]
                               && UsedSlots(s.ring) == |s.pushed| - |s.popped|
                               && Layout(s.ring, s.pushed[|s.popped|..], HeadAfter(s.popped, 0, |s.ring.buffer|)))
  {
    RunIsSafe(run, events, i);
    var s := run[i];
    UsedSlotsCounts(s.ring, Queued(s), Start(s));
  }

  /**
   * In every run the mutex is free between sections and no thread ever waits on an aborted condition,
   * where admCond::wait would return with the mutex held and the caller would lock it a second time.
   */
  lemma MutexIsAlwaysReleased(run: seq<State>, events: seq<Event>, i: nat)
    requires IsRun(run, events) && i < |events|
    ensures run[i].mutex == Free && run[i + 1].mutex == Free
    ensures run[i + 1].pusher.waiting && !run[i].pusher.waiting ==> !run[i].pusher.aborted
    ensures run[i + 1].poper.waiting && !run[i].poper.waiting ==> !run[i].poper.aborted
  {
    RunIsSafe(run, events, i);
    RunIsSafe(run, events, i + 1);
    assert StepAt(run, events, i);
    WaitsOnlyWhileLive(run[i], events[i], run[i + 1]);
  }

  lemma PushWaitsOnlyWhileLive(s: State, t: nat, w: nat)
    requires t < |s.threads| && s.threads[t].Ready? && IsPushSite(s.threads[t].site) && Runnable(s.ring)
    ensures var s' := PushStep(s, t, w);
            && (s'.pusher.waiting && !s.pusher.waiting ==> !s.pusher.aborted)
            && s'.poper == s.poper
  {
  }

  lemma PopWaitsOnlyWhileLive(s: State, t: nat, w: nat)
    requires t < |s.threads| && s.threads[t] == Ready(PopLoop) && Runnable(s.ring)
    ensures var s' := PopStep(s, t, w);
            && (s'.poper.waiting && !s.poper.waiting ==> !s.poper.aborted)
            && s'.pusher == s.pusher
  {
  }

  lemma WaitsOnlyWhileLive(s: State, e: Event, s': State)
    requires Step(s, e, s')
    ensures s'.pusher.waiting && !s.pusher.waiting ==> !s.pusher.aborted
    ensures s'.poper.waiting && !s.poper.waiting ==> !s.poper.aborted
  {
    if e.Section? {
      if IsPushSite(s.threads[e.t].site) {
        PushWaitsOnlyWhileLive(s, e.t, e.woken);
      } else if s.threads[e.t].site.PopLoop? {
        PopWaitsOnlyWhileLive(s, e.t, e.woken);
      }
    }
  }

  /** availableSpace decides a push only on an empty ring, where it is the whole buffer. */
  lemma SpaceIsMeasuredOnEmptyRing(run: seq<State>, events: seq<Event>, i: nat)
    requires IsRun(run, events) && i < |run| && WellSized(run[i].ring)
    ensures !SlotGuardBlocks(run[i].ring) ==> AvailableSpace(run[i].ring) == |run[i].ring.buffer|
    ensures SlotGuardBlocks(run[i].ring) <==> Queued(run[i]) != []
  {
    RunIsSafe(run, events, i);
    var s := run[i];
    var start := Start(s);
    UsedSlotsCounts(s.ring, Queued(s), start);
    AvailableSpaceMeasures(s.ring, Queued(s), start);
  }

  /**
   * Pop's position check brings the program down exactly when a packet is queued and the bytes already
   * popped are a positive multiple of the buffer size; that is, when the push before the queued packet
   * left the write position at the buffer size.
   */
  lemma PositionCheckFailsIff(run: seq<State>, events: seq<Event>, i: nat)
    requires IsRun(run, events) && i < |events|
    requires events[i].Section? && events[i].t < |run[i].threads| && run[i].threads[events[i].t] == Ready(PopLoop)
    ensures 0 < |run[i].ring.buffer|
    ensures run[i + 1].failed <==>
              && Queued(run[i]) != []
              && Bytes(run[i].popped) != []
              && |Bytes(run[i].popped)| % |run[i].ring.buffer| == 0
    ensures run[i + 1].failed <==>
              Queued(run[i]) != [] && HeadAfter(run[i].popped, 0, |run[i].ring.buffer|) == |run[i].ring.buffer|
  {
    RunIsSafe(run, events, i);
    assert StepAt(run, events, i);
    var s := run[i];
    SafePop(s, events[i].t, events[i].woken);
    HeadAtEndIff(s.popped, |s.ring.buffer|);
  }

  /** No other step can bring the program down; the second assertion in Pop always holds. */
  lemma OnlyThePositionCheckFails(run: seq<State>, events: seq<Event>, i: nat)
    requires IsRun(run, events) && i < |events| && run[i + 1].failed
    ensures events[i].Section? && events[i].t < |run[i].threads| && run[i].threads[events[i].t] == Ready(PopLoop)
    ensures Runnable(run[i].ring) && PopSection(run[i].ring, run[i].eof).1.PositionFailure?
  {
    RunIsSafe(run, events, i);
    assert StepAt(run, events, i);
    if events[i].Section? {
      FailsOnlyInPop(run[i], events[i].t, events[i].woken);
    } else {
      SafeElsewhere(run[i], events[i], run[i + 1]);
    }
  }

  lemma FailsOnlyInPop(s: State, t: nat, w: nat)
    requires Safe(s) && !s.failed && t < |s.threads| && s.threads[t].Ready? && !s.threads[t].site.AbortSignal?
    requires Runnable(s.ring) && SectionStep(s, t, w).failed
    ensures s.threads[t] == Ready(PopLoop) && PopSection(s.ring, s.eof).1.PositionFailure?
  {
    match s.threads[t].site
    case SlotLoop(_) =>
    case SpaceLoop(_) =>
    case PopLoop => SafePop(s, t, w);
    case FinishSite =>
    case AbortFinish =>
    case AbortReset =>
  }

  lemma FrontIsOldestIfAny(r: Ring, ps: seq<Packet>, start: nat)
    requires Layout(r, ps, start)
    ensures ps != [] ==> FrontSlot(r).size == |ps[0].payload| <= |r.buffer|
  {
    if ps != [] {
      FrontIsOldest(r, ps, start);
    }
  }

  /** Once Abort has reset the queue no Push and no Pop succeeds any more. */
  lemma {:induction false} NothingAfterAbort(run: seq<State>, events: seq<Event>, i: nat, j: nat)
    requires IsRun(run, events) && i <= j < |run| && run[i].aborted
    ensures run[j].aborted && run[j].pushed == run[i].pushed && run[j].popped == run[i].popped
  {
    if i < j {
      NothingAfterAbort(run, events, i, j - 1);
      RunIsSafe(run, events, j - 1);
      assert StepAt(run, events, j - 1);
      AbortedStays(run[j - 1], events[j - 1], run[j]);
    }
  }

  lemma AbortedStays(s: State, e: Event, s': State)
    requires Safe(s) && s.aborted && Step(s, e, s')
    ensures s'.aborted && s'.pushed == s.pushed && s'.popped == s.popped
  {
    UsedSlotsCounts(s.ring, [], 0);
    if e.Section? {
      match s.threads[e.t].site
      case SlotLoop(_) =>
      case SpaceLoop(_) =>
      case PopLoop =>
      case FinishSite =>
      case AbortFinish =>
      case AbortReset =>
    }
  }

  /**
   * A critical section of Push either adds its packet to an empty queue and returns 1, or changes neither
   * queue nor histories; if it then returns 0, it changes nothing at all, and the queue was finished.
   */
  lemma RefusedPushLeavesNoTrace(run: seq<State>, events: seq<Event>, i: nat)
    requires IsRun(run, events) && i < |events|
    requires events[i].Section? && events[i].t < |run[i].threads|
    requires run[i].threads[events[i].t].Ready? && IsPushSite(run[i].threads[events[i].t].site)
    ensures var s, s', t := run[i], run[i + 1], events[i].t;
            if s'.pushed == s.pushed then
              && s'.ring == s.ring && s'.popped == s.popped && |s'.threads| == |s.threads|
              && (s'.threads[t] == Idle ==> s.eof && s' == s.(threads := s.threads[t := Idle]))
            else
              && s'.pushed == s.pushed + [s.threads[t].site.p]
              && Queued(s) == [] && !s.eof && t < |s'.threads| && s'.threads[t] == Idle
  {
    RunIsSafe(run, events, i);
    assert StepAt(run, events, i);
    var s, t, w := run[i], events[i].t, events[i].woken;
    SafeIsRunnable(s);
    assert run[i + 1] == PushStep(s, t, w);
    PushOutcomes(s, t, w);
  }

  lemma PushOutcomes(s: State, t: nat, w: nat)
    requires Safe(s) && !s.failed && t < |s.threads| && s.threads[t].Ready? && IsPushSite(s.threads[t].site) && Runnable(s.ring)
    ensures var s' := PushStep(s, t, w);
            if s'.pushed == s.pushed then
              && s'.ring == s.ring && s'.popped == s.popped && |s'.threads| == |s.threads|
              && (s'.threads[t] == Idle ==> s.eof && s' == s.(threads := s.threads[t := Idle]))
            else
              && s'.pushed == s.pushed + [s.threads[t].site.p]
              && Queued(s) == [] && !s.eof && t < |s'.threads| && s'.threads[t] == Idle
  {
    SafePush(s, t, w);
    var (r', o) := PushSection(s.ring, s.eof, s.threads[t].site.SpaceLoop?, s.threads[t].site.p);
    match o
    case Accepted => assert PushStep(s, t, w).pushed == s.pushed + [s.threads[t].site.p];
    case Refused =>
    case WaitForSlot =>
    case WaitForSpace =>
  }

  // ---------------------------------------------------------------------------------------------
  // No lost wakeup, with one pushing and one popping thread
  // ---------------------------------------------------------------------------------------------

  /** Thread 0 alone pushes, packets that fit; thread 1 alone pops; any thread may finish or abort. */
  ghost predicate OneProducerOneConsumer(s: State) {
    && 2 <= |s.threads|
    && forall t :: 0 <= t < |s.threads| && !s.threads[t].Idle? ==>
         && (IsPushSite(s.threads[t].site) ==> t == 0 && |s.threads[t].site.p.payload| <= |s.ring.buffer|)
         && (s.threads[t].site.PopLoop? ==> t == 1)
  }

  predicate InWait(th: Thread) {
    (th.Asleep? || th.Woken?) && (IsPushSite(th.site) || th.site.PopLoop?)
  }

  ghost predicate AbortIsComing(s: State) {
    s.aborted && exists t :: 0 <= t < |s.threads| && s.threads[t] == Ready(AbortSignal)
  }

  ghost predicate Awake(s: State) {
    && Safe(s)
    && OneProducerOneConsumer(s)
    && (s.pusher.waiting <==> InWait(s.threads[0]) && IsPushSite(s.threads[0].site))
    && (s.poper.waiting <==> InWait(s.threads[1]) && s.threads[1].site.PopLoop?)
    && (AsleepOnPusher(s.threads[0]) ==> Queued(s) != [] || AbortIsComing(s))
    && (AsleepOnPoper(s.threads[1]) ==> Queued(s) == [] && !s.eof)
  }

  lemma AwakeAccept(s: State, t: nat, w: nat, r': Ring, p: Packet)
    requires Awake(s) && !s.failed && t < |s.threads| && s.threads[t].Ready? && IsPushSite(s.threads[t].site)
    requires WakeChoice(s.threads, false, w) && |r'.buffer| == |s.ring.buffer|
    requires Safe(AcceptStep(s, t, w, r', p)) && Queued(AcceptStep(s, t, w, r', p)) == [p]
    ensures Awake(AcceptStep(s, t, w, r', p))
  {
    var s' := AcceptStep(s, t, w, r', p);
    assert AsleepOnPoper(s.threads[1]) ==> s.poper.waiting;
    forall u | 0 <= u < |s'.threads| && !s'.threads[u].Idle?
      ensures !s.threads[u].Idle? && s'.threads[u].site == s.threads[u].site
    {
    }
  }

  lemma AwakePush(s: State, t: nat, w: nat)
    requires Awake(s) && !s.failed && t < |s.threads| && s.threads[t].Ready? && IsPushSite(s.threads[t].site)
    requires Runnable(s.ring) && WakeChoice(s.threads, false, w)
    requires OneProducerOneConsumer(PushStep(s, t, w))
    ensures Awake(PushStep(s, t, w))
  {
    var site, s' := s.threads[t].site, PushStep(s, t, w);
    SafePush(s, t, w);
    PushKeepsShape(s.ring, Queued(s), Start(s), s.eof, site.SpaceLoop?, site.p);
    var (r', o) := PushSection(s.ring, s.eof, site.SpaceLoop?, site.p);
    if o.Accepted? {
      AwakeAccept(s, t, w, r', site.p);
    } else {
      AbortStaysComing(s, s', t);
    }
  }

  /** A delivering Pop empties the queue and wakes the producer, if it sleeps. */
  lemma AwakeDeliver(s: State, t: nat, w: nat, r': Ring, p: Packet)
    requires Awake(s) && !s.failed && t < |s.threads| && s.threads[t] == Ready(PopLoop)
    requires WakeChoice(s.threads, true, w) && |r'.buffer| == |s.ring.buffer| && WellSized(r') && WorthWakingPusher(r')
    requires var s' := DeliverStep(s, t, w, r', p);
             Safe(s') && !s'.failed && Queued(s') == [] && OneProducerOneConsumer(s')
    ensures Awake(DeliverStep(s, t, w, r', p))
    ensures AsleepOnPusher(s.threads[0]) ==> DeliverStep(s, t, w, r', p).threads[0] == Woken(s.threads[0].site)
  {
    assert t == 1;
    assert AsleepOnPusher(s.threads[0]) ==> s.pusher.waiting;
    assert AsleepOnPusher(s.threads[0]) ==> w == 0;
  }

  /** A Pop that delivers nothing sleeps on an empty queue, returns or fails. */
  lemma AwakeEmptyPop(s: State, t: nat, w: nat)
    requires Awake(s) && !s.failed && t < |s.threads| && s.threads[t] == Ready(PopLoop) && Runnable(s.ring)
    requires var s' := PopStep(s, t, w); Safe(s') && OneProducerOneConsumer(s')
    requires !PopSection(s.ring, s.eof).1.Delivered?
    requires PopSection(s.ring, s.eof).1.WaitForPacket? ==> Queued(s) == [] && !s.eof
    ensures Awake(PopStep(s, t, w))
  {
    AbortStaysComing(s, PopStep(s, t, w), t);
  }

  lemma AwakePop(s: State, t: nat, w: nat)
    requires Awake(s) && !s.failed && t < |s.threads| && s.threads[t] == Ready(PopLoop)
    requires Runnable(s.ring) && WakeChoice(s.threads, true, w)
    requires OneProducerOneConsumer(PopStep(s, t, w))
    ensures Awake(PopStep(s, t, w))
    ensures PopSection(s.ring, s.eof).1.Delivered? && AsleepOnPusher(s.threads[0])
            ==> PopStep(s, t, w).threads[0] == Woken(s.threads[0].site)
  {
    SafePop(s, t, w);
    PopKeepsShape(s.ring, Queued(s), Start(s), s.eof);
    var (r', o) := PopSection(s.ring, s.eof);
    if o.Delivered? {
      AwakeDeliver(s, t, w, r', o.packet);
    } else {
      AwakeEmptyPop(s, t, w);
    }
  }

  /** A step of thread t leaves every other thread's way out of Abort as it was. */
  lemma AbortStaysComing(s: State, s': State, t: nat)
    requires AbortIsComing(s) ==> s'.aborted && |s'.threads| == |s.threads|
    requires t < |s.threads| && s.threads[t] != Ready(AbortSignal)
    requires forall u :: 0 <= u < |s.threads| && |s'.threads| == |s.threads| && u != t && !s.threads[u].Asleep?
               ==> s'.threads[u] == s.threads[u]
    ensures AbortIsComing(s) ==> AbortIsComing(s')
  {
    if AbortIsComing(s) {
      var u :| 0 <= u < |s.threads| && s.threads[u] == Ready(AbortSignal);
      assert s'.threads[u] == Ready(AbortSignal);
    }
  }

  /** Finished sets the end of the stream and wakes the consumer, if it sleeps. */
  lemma AwakeFinish(s: State, t: nat, w: nat, next: Thread)
    requires Awake(s) && !s.failed && t < |s.threads| && (s.threads[t] == Ready(FinishSite) || s.threads[t] == Ready(AbortFinish))
    requires next == Idle || next == Ready(AbortReset)
    requires WakeChoice(s.threads, false, w) && OneProducerOneConsumer(FinishStep(s, t, w, next))
    ensures Awake(FinishStep(s, t, w, next))
  {
    var s' := FinishStep(s, t, w, next);
    SafeFinish(s, t, w, next);
    AbortStaysComing(s, s', t);
    assert AsleepOnPoper(s.threads[1]) ==> s.poper.waiting;
  }

  lemma AwakeReset(s: State, t: nat)
    requires Awake(s) && !s.failed && t < |s.threads| && s.threads[t] == Ready(AbortReset)
    requires OneProducerOneConsumer(Leave(s.(aborted := true, ring := Reset(s.ring)), t, Ready(AbortSignal)))
    ensures Awake(Leave(s.(aborted := true, ring := Reset(s.ring)), t, Ready(AbortSignal)))
  {
    var s' := Leave(s.(aborted := true, ring := Reset(s.ring)), t, Ready(AbortSignal));
    assert SiteOk(s, s.threads[t]);
    SafeReset(s, t);
    assert s'.threads[t] == Ready(AbortSignal);
  }

  lemma AwakeControl(s: State, t: nat, w: nat)
    requires Awake(s) && !s.failed && t < |s.threads| && s.threads[t].Ready? && !s.threads[t].site.AbortSignal?
    requires !IsPushSite(s.threads[t].site) && !s.threads[t].site.PopLoop?
    requires Runnable(s.ring) && WakeChoice(s.threads, false, w)
    requires OneProducerOneConsumer(SectionStep(s, t, w))
    ensures Awake(SectionStep(s, t, w))
  {
    match s.threads[t].site
    case FinishSite => AwakeFinish(s, t, w, Idle);
    case AbortFinish => AwakeFinish(s, t, w, Ready(AbortReset));
    case AbortReset => AwakeReset(s, t);
  }

  lemma AwakeStep(s: State, e: Event, s': State)
    requires Awake(s) && Step(s, e, s') && OneProducerOneConsumer(s')
    ensures Awake(s')
  {
    if e.Section? {
      if IsPushSite(s.threads[e.t].site) {
        AwakePush(s, e.t, e.woken);
      } else if s.threads[e.t].site.PopLoop? {
        AwakePop(s, e.t, e.woken);
      } else {
        AwakeControl(s, e.t, e.woken);
      }
    } else {
      AwakeElsewhere(s, e, s');
    }
  }

  lemma AwakeSignal(s: State, e: Event, s': State)
    requires Awake(s) && Step(s, e, s') && e.Signal? && OneProducerOneConsumer(s')
    ensures Awake(s')
  {
    SafeElsewhere(s, e, s');
    assert SiteOk(s, s.threads[e.t]);
    assert AsleepOnPusher(s.threads[0]) ==> s.pusher.waiting;
  }

  /** A call begins, or a woken thread takes the mutex again and clears the flag. */
  lemma AwakeBeginOrReturn(s: State, e: Event, s': State)
    requires Awake(s) && Step(s, e, s') && (e.Begin? || e.Return?) && OneProducerOneConsumer(s')
    ensures Awake(s')
  {
    SafeElsewhere(s, e, s');
    assert SiteOk(s, s.threads[e.t]);
    AbortStaysComing(s, s', e.t);
  }

  lemma AwakeSpurious(s: State, e: Event, s': State)
    requires Awake(s) && Step(s, e, s') && e.Spurious? && OneProducerOneConsumer(s')
    ensures Awake(s')
  {
    SafeElsewhere(s, e, s');
    AbortStaysComing(s, s', e.t);
  }

  lemma AwakeElsewhere(s: State, e: Event, s': State)
    requires Awake(s) && Step(s, e, s') && !e.Section? && OneProducerOneConsumer(s')
    ensures Awake(s')
  {
    match e
    case Signal(_, _) => AwakeSignal(s, e, s');
    case Spurious(_) => AwakeSpurious(s, e, s');
    case _ => AwakeBeginOrReturn(s, e, s');
  }

  ghost predicate IsDisciplinedRun(run: seq<State>, events: seq<Event>) {
    && IsRun(run, events)
    && forall i :: 0 <= i < |run| ==> OneProducerOneConsumer(run[i])
  }

  lemma {:induction false} RunIsAwake(run: seq<State>, events: seq<Event>, i: nat)
    requires IsDisciplinedRun(run, events) && i < |run|
    ensures Awake(run[i])
  {
    if i == 0 {
      SafeInit(run[0]);
    } else {
      RunIsAwake(run, events, i - 1);
      assert StepAt(run, events, i - 1);
      AwakeStep(run[i - 1], events[i - 1], run[i]);
    }
  }

  /** No reachable state has both threads asleep; and each sleeper has a reason that still holds. */
  lemma NeverBothAsleep(run: seq<State>, events: seq<Event>, i: nat)
    requires IsDisciplinedRun(run, events) && i < |run|
    ensures !(run[i].threads[0].Asleep? && run[i].threads[1].Asleep?)
    ensures run[i].threads[1].Asleep? ==> Queued(run[i]) == [] && !run[i].eof
    ensures run[i].threads[0].Asleep? ==> Queued(run[i]) != [] || AbortIsComing(run[i])
  {
    RunIsAwake(run, events, i);
    var s := run[i];
    assert SiteOk(s, s.threads[0]) && SiteOk(s, s.threads[1]);
  }

  /** Every Pop that delivers a packet wakes a sleeping producer. */
  lemma PopWakesProducer(run: seq<State>, events: seq<Event>, i: nat)
    requires IsDisciplinedRun(run, events) && i < |events|
    requires run[i].threads[0].Asleep? && |run[i + 1].popped| > |run[i].popped|
    ensures run[i + 1].threads[0] == Woken(run[i].threads[0].site)
  {
    RunIsAwake(run, events, i);
    var s, e := run[i], events[i];
    assert StepAt(run, events, i);
    assert SiteOk(s, s.threads[0]);
    if e.Section? && s.threads[e.t].site.PopLoop? {
      AwakePop(s, e.t, e.woken);
    }
  }

  /**
   * After Finished the popping thread is never asleep, and when its turn comes its Pop returns: with
   * the packet that is queued, or with 0.
   */
  lemma PopReturnsAfterFinished(run: seq<State>, events: seq<Event>, i: nat)
    requires IsDisciplinedRun(run, events) && i < |events| && run[i].eof
    ensures !run[i].threads[1].Asleep?
    ensures events[i].Section? && events[i].t == 1 && run[i].threads[1] == Ready(PopLoop) && !run[i + 1].failed
            ==> && run[i + 1].threads[1] == Idle
                && run[i + 1].popped == run[i].popped + Queued(run[i])
  {
    RunIsAwake(run, events, i);
    var s, e := run[i], events[i];
    assert StepAt(run, events, i);
    assert SiteOk(s, s.threads[1]);
    PopKeepsShape(s.ring, Queued(s), Start(s), s.eof);
  }

  /** Once Abort has signalled, the pushing thread is not left asleep either. */
  lemma NoSleeperAfterAbort(run: seq<State>, events: seq<Event>, i: nat)
    requires IsDisciplinedRun(run, events) && i < |run| && run[i].aborted && !AbortIsComing(run[i])
    ensures !run[i].threads[0].Asleep? && !run[i].threads[1].Asleep?
  {
    NeverBothAsleep(run, events, i);
    RunIsAwake(run, events, i);
  }
}
