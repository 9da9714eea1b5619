/**
 * What one critical section of PacketQueue does: from taking the mutex to either giving it up in
 * admCond::wait or returning. The functions are the specification; the class below performs the
 * sections in place on its arrays.
 */
module PacketSections {
  import opened PacketRing

  datatype PushOutcome = WaitForSlot | WaitForSpace | Accepted | Refused

  datatype PopOutcome = WaitForPacket | EndOfStream | PositionFailure | Delivered(packet: Packet)

  /** The slot guard as coded: it blocks when exactly one slot is in use. */
  predicate SlotGuardBlocks(r: Ring)
    requires WellSized(r)
  {
    UsedSlots(r) == 1
  }

  /** One pass of Push; `pastSlotLoop` when it resumes in the second loop, after waiting for space. */
  function PushSection(r: Ring, eof: bool, pastSlotLoop: bool, p: Packet): (res: (Ring, PushOutcome))
    requires WellSized(r)
    ensures WellSized(res.0)
    ensures !res.1.Accepted? ==> res.0 == r
  {
    if !pastSlotLoop && SlotGuardBlocks(r) then (r, WaitForSlot)
    else if eof then (r, Refused)
    else if AvailableSpace(r) >= |p.payload| then (Commit(r, p), Accepted)
    else (r, WaitForSpace)
  }

  function PopSection(r: Ring, eof: bool): (res: (Ring, PopOutcome))
    requires WellSized(r) && (!IsEmpty(r) ==> FrontSlot(r).size <= |r.buffer|)
    ensures WellSized(res.0)
    ensures !res.1.Delivered? ==> res.0 == r
  {
    if IsEmpty(r) && !eof then (r, WaitForPacket)
    else if IsEmpty(r) then (r, EndOfStream)
    else if !PositionAgrees(r) then (r, PositionFailure)
    else (RemoveFront(r), Delivered(Front(r)))
  }

  /** Abort throws the queued packets away. */
  function Reset(r: Ring): Ring {
    r.(slotHead := 0, slotQueue := 0, bufferHead := 0, bufferQueue := 0)
  }

  /** Pop's wakeup threshold: more than two thirds of the buffer free. */
  predicate WorthWakingPusher(r: Ring)
    requires WellSized(r)
  {
    AvailableSpace(r) > (2 * |r.buffer|) / 3
  }

  /**
   * The reachable shape of the queue: at most one packet is queued, because the slot guard lets a push
   * through only when none is, and a push that resumes behind the guard asks for more than the buffer.
   */
  ghost predicate Holds(r: Ring, queued: seq<Packet>, start: nat) {
    Layout(r, queued, start) && |queued| <= 1
  }

  lemma PushKeepsShape(r: Ring, queued: seq<Packet>, start: nat, eof: bool, pastSlotLoop: bool, p: Packet)
    requires Holds(r, queued, start)
    requires pastSlotLoop ==> |p.payload| > |r.buffer|
    ensures var (r', o) := PushSection(r, eof, pastSlotLoop, p);
            && (o.Accepted? <==> queued == [] && !eof && |p.payload| <= |r.buffer|)
            && (o.Accepted? ==> Holds(r', [p], r.bufferHead) && r'.bufferHead == NextHead(r.bufferHead, |p.payload|, |r.buffer|))
            && (o.WaitForSlot? <==> !pastSlotLoop && queued != [])
            && (o.WaitForSpace? <==> (pastSlotLoop || queued == []) && !eof && |p.payload| > |r.buffer|)
            && (o.Refused? <==> (pastSlotLoop || queued == []) && eof)
  {
    UsedSlotsCounts(r, queued, start);
    AvailableSpaceMeasures(r, queued, start);
    var (r', o) := PushSection(r, eof, pastSlotLoop, p);
    if o.Accepted? {
      assert |p.payload| <= |r.buffer|;
      assert queued == [];
      CommitAppends(r, [], start, p);
      assert [] + [p] == [p];
    }
  }

  lemma PopKeepsShape(r: Ring, queued: seq<Packet>, start: nat, eof: bool)
    requires Holds(r, queued, start)
    ensures !IsEmpty(r) ==> FrontSlot(r).size <= |r.buffer|
    ensures var (r', o) := PopSection(r, eof);
            && (o.Delivered? <==> queued != [] && start < |r.buffer|)
            && (o.Delivered? ==> queued == [o.packet]
                                 && Holds(r', [], r'.bufferHead) && r'.bufferHead == r.bufferHead
                                 && AvailableSpace(r') == |r.buffer| && WorthWakingPusher(r'))
            && (o.PositionFailure? <==> queued != [] && start == |r.buffer|)
            && (o.WaitForPacket? <==> queued == [] && !eof)
            && (o.EndOfStream? <==> queued == [] && eof)
  {
    UsedSlotsCounts(r, queued, start);
    if queued != [] {
      FrontIsOldest(r, queued, start);
      if start != |r.buffer| {
        var r' := PopSection(r, eof).0;
        var next := NextHead(start, |queued[0].payload|, |r.buffer|);
        assert queued[1..] == [] && queued == [queued[0]];
        AvailableSpaceMeasures(r', [], next);
      }
    }
  }
}

module PacketQueues {
  import opened PacketRing
  import opened PacketSections

  /** memcpy between two distinct arrays. */
  method Memcpy(dst: array<Byte>, at: nat, src: array<Byte>, from: nat, n: nat)
    requires dst != src
    requires at + n <= dst.Length && from + n <= src.Length
    modifies dst
    ensures forall k :: 0 <= k < dst.Length ==>
              dst[k] == if at <= k < at + n then src[from + k - at] else old(dst[k])
  {
    var i := 0;
    while i < n
      invariant i <= n
      invariant forall k :: 0 <= k < dst.Length ==>
                  dst[k] == if at <= k < at + i then src[from + k - at] else old(dst[k])
    {
      dst[at + i] := src[from + i];
      i := i + 1;
    }
  }

  class PacketQueue {
    const slots: array<Slot>
    const buffer: array<Byte>
    var slotHead: nat
    var slotQueue: nat
    var bufferHead: nat
    var bufferQueue: nat
    var eof: bool
    var aborted: bool

    /** The packets a Pop will still deliver, and the write position the oldest of them was given. */
    ghost var queued: seq<Packet>
    ghost var start: nat

    ghost function State(): Ring
      reads this, slots, buffer
    {
      Ring(slots[..], buffer[..], slotHead, slotQueue, bufferHead, bufferQueue)
    }

    ghost predicate Valid()
      reads this, slots, buffer
    {
      Holds(State(), queued, start)
    }

    constructor (nbSlot: nat, buffSize: nat)
      requires 2 <= nbSlot < 0x8000_0000 && 1 <= buffSize < 0x8000_0000
      ensures Valid() && fresh(slots) && fresh(buffer)
      ensures slots.Length == nbSlot && buffer.Length == buffSize
      ensures queued == [] && bufferHead == 0 && !eof && !aborted
    {
      buffer := new Byte[buffSize];
      slots := new Slot[nbSlot];
      slotQueue, slotHead := 0, 0;
      bufferQueue, bufferHead := 0, 0;
      eof, aborted := false, false;
      queued, start := [], 0;
      new;
      EmptyLayout(slots[..], buffer[..]);
    }

    method QueryIsEmpty() returns (r: bool)
      requires Valid()
      ensures r <==> queued == []
    {
      UsedSlotsCounts(State(), queued, start);
      r := slotHead == slotQueue;
    }

    method QueryIsEof() returns (r: bool)
      requires Valid()
      ensures r <==> (eof || aborted) && queued == []
    {
      UsedSlotsCounts(State(), queued, start);
      r := (eof || aborted) && slotHead == slotQueue;
    }

    method QueryAvailableSpace() returns (space: nat)
      requires Valid()
      ensures space == AvailableSpace(State())
      ensures queued == [] ==> space == buffer.Length
    {
      AvailableSpaceMeasures(State(), queued, start);
      space := buffer.Length + bufferHead - bufferQueue;
      space := space % buffer.Length;
      space := buffer.Length - space;
    }

    /** Copies a payload in, in one part or split at the buffer end, and moves the write position. */
    method CopyIn(ptr: array<Byte>, size: nat)
      requires WellSized(State()) && size <= ptr.Length && size <= buffer.Length && ptr != buffer
      modifies this`bufferHead, buffer
      ensures buffer[..] == Write(old(buffer[..]), old(bufferHead), old(ptr[..size]))
      ensures bufferHead == NextHead(old(bufferHead), size, buffer.Length)
    {
      WriteElements(buffer[..], bufferHead, ptr[..size]);
      if buffer.Length >= bufferHead + size {
        Memcpy(buffer, bufferHead, ptr, 0, size);
        bufferHead := bufferHead + size;
      } else {
        var part1 := buffer.Length - bufferHead;
        Memcpy(buffer, bufferHead, ptr, 0, part1);
        Memcpy(buffer, 0, ptr, part1, size - part1);
        bufferHead := size - part1;
      }
    }

    /** Copies a payload out the same way; the read position, unlike the other, does wrap at the end. */
    method CopyOut(dst: array<Byte>, size: nat)
      requires WellSized(State()) && size <= dst.Length && size <= buffer.Length && dst != buffer
      modifies this`bufferQueue, dst
      ensures dst[..size] == Read(buffer[..], old(bufferQueue), size)
      ensures dst[size..] == old(dst[size..])
      ensures bufferQueue == if old(bufferQueue) + size <= buffer.Length
                             then (old(bufferQueue) + size) % buffer.Length
                             else size - (buffer.Length - old(bufferQueue))
    {
      CopyBytesOut(dst, size);
      if buffer.Length >= bufferQueue + size {
        bufferQueue := bufferQueue + size;
        bufferQueue := bufferQueue % buffer.Length;
      } else {
        var part1 := buffer.Length - bufferQueue;
        bufferQueue := size - part1;
      }
    }

    method CopyBytesOut(dst: array<Byte>, size: nat)
      requires bufferQueue < buffer.Length && size <= dst.Length && size <= buffer.Length && dst != buffer
      modifies dst
      ensures dst[..size] == Read(buffer[..], bufferQueue, size)
      ensures dst[size..] == old(dst[size..])
    {
      if buffer.Length >= bufferQueue + size {
        Memcpy(dst, 0, buffer, bufferQueue, size);
      } else {
        var part1 := buffer.Length - bufferQueue;
        Memcpy(dst, 0, buffer, bufferQueue, part1);
        Memcpy(dst, part1, buffer, 0, size - part1);
      }
    }

    /** Lays a granted packet down: its slot, then its payload. */
    method Store(ptr: array<Byte>, size: nat, sample: nat)
      requires WellSized(State()) && size <= ptr.Length && size <= buffer.Length && ptr != buffer
      modifies this`slotHead, this`bufferHead, slots, buffer
      ensures State() == Commit(old(State()), Packet(old(ptr[..size]), sample))
    {
      var slot := slotHead;
      slotHead := slotHead + 1;
      slotHead := slotHead % slots.Length;
      slots[slot] := Slot(size, sample, bufferHead);
      CopyIn(ptr, size);
    }

    /** Takes the oldest packet out: its slot, then its payload. */
    method Fetch(dst: array<Byte>) returns (size: nat, sample: nat)
      requires WellSized(State()) && dst != buffer
      requires FrontSlot(State()).size <= buffer.Length && FrontSlot(State()).size <= dst.Length
      modifies this`slotQueue, this`bufferQueue, dst
      ensures size == old(FrontSlot(State()).size)
      ensures Packet(dst[..size], sample) == old(Front(State())) && dst[size..] == old(dst[size..])
      ensures State() == old(RemoveFront(State()))
    {
      var slot := slotQueue;
      slotQueue := slotQueue + 1;
      slotQueue := slotQueue % slots.Length;
      size := slots[slot].size;
      sample := slots[slot].sample;
      CopyOut(dst, size);
    }

    /** Push, from holding the mutex to wait or return. */
    method PushPass(pastSlotLoop: bool, ptr: array<Byte>, size: nat, sample: nat) returns (outcome: PushOutcome)
      requires Valid() && size <= ptr.Length && ptr != buffer
      requires pastSlotLoop ==> size > buffer.Length  // how WaitForSpace was left
      modifies this`slotHead, this`bufferHead, this`queued, this`start, slots, buffer
      ensures Valid()
      ensures (State(), outcome) == PushSection(old(State()), eof, pastSlotLoop, Packet(old(ptr[..size]), sample))
      ensures outcome.WaitForSlot? <==> !pastSlotLoop && old(queued) != []
      ensures outcome.Refused? <==> (pastSlotLoop || old(queued) == []) && eof
      ensures outcome.Accepted? <==> old(queued) == [] && !eof && size <= buffer.Length
      ensures outcome.Accepted? ==> queued == [Packet(old(ptr[..size]), sample)]
      ensures !outcome.Accepted? ==> queued == old(queued) && State() == old(State())
      ensures outcome.WaitForSpace? ==> size > buffer.Length
    {
      PushKeepsShape(State(), queued, start, eof, pastSlotLoop, Packet(ptr[..size], sample));
      if !pastSlotLoop && (slots.Length + slotHead - slotQueue) % slots.Length == 1 {
        return WaitForSlot;
      }
      if eof {
        return Refused;
      }
      var available := QueryAvailableSpace();
      if available >= size {
        start, queued := bufferHead, [Packet(ptr[..size], sample)];
        Store(ptr, size, sample);
        return Accepted;
      }
      return WaitForSpace;
    }

    /** Pop, from holding the mutex to wait or return; the payload goes to dst[..size]. */
    method PopPass(dst: array<Byte>) returns (outcome: PopOutcome, size: nat, sample: nat)
      requires Valid() && dst != buffer
      requires queued != [] ==> |queued[0].payload| <= dst.Length
      modifies this`slotQueue, this`bufferQueue, this`queued, this`start, dst
      ensures Valid()
      ensures !old(IsEmpty(State())) ==> old(FrontSlot(State()).size) <= buffer.Length
      ensures (State(), outcome) == PopSection(old(State()), eof)
      ensures outcome.Delivered? ==> old(queued) == [outcome.packet] && queued == []
      ensures outcome.Delivered? ==> size <= dst.Length && outcome.packet == Packet(dst[..size], sample)
      ensures !outcome.Delivered? ==> queued == old(queued) && State() == old(State())
      ensures outcome.PositionFailure? <==> old(queued) != [] && old(start) == buffer.Length
      ensures outcome.WaitForPacket? <==> old(queued) == [] && !eof
      ensures outcome.EndOfStream? <==> old(queued) == [] && eof
      ensures outcome.EndOfStream? ==> size == 0
    {
      ghost var s0 := State();
      PopKeepsShape(s0, queued, start, eof);
      size, sample := 0, 0;
      if slotHead == slotQueue {
        outcome := if eof then EndOfStream else WaitForPacket;
        return;
      }
      var slot := slotQueue;
      if bufferQueue != slots[slot].startAt {
        return PositionFailure, 0, 0;
      }
      size, sample := Fetch(dst);
      outcome := Delivered(Packet(dst[..size], sample));
      queued, start := [], bufferHead;
    }

    /** The part of Finished done under the mutex. */
    method MarkFinished()
      requires Valid()
      modifies this`eof
      ensures Valid() && eof && State() == old(State())
    {
      eof := true;
    }

    /** The part of Abort done under the mutex. */
    method MarkAborted()
      requires Valid()
      modifies this`aborted, this`slotHead, this`slotQueue, this`bufferHead, this`bufferQueue, this`queued, this`start
      ensures Valid() && aborted && queued == [] && State() == Reset(old(State()))
      ensures slotHead == slotQueue == bufferHead == bufferQueue == 0
    {
      aborted := true;
      slotHead, slotQueue := 0, 0;
      bufferQueue, bufferHead := 0, 0;
      queued, start := [], 0;
    }
  }
}
