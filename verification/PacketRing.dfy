/**
 * The storage discipline of PacketQueue: a byte ring holding payloads end to end and a second ring of
 * slots describing them, for a queue of any length. Everything here is a function of one `Ring` value;
 * the class in PacketQueue.dfy updates the same fields in place.
 */
module PacketRing {
  import opened Arithmetic

  /** Reduces an index below 2n into [0, n). Agrees with % there, and stays linear. */
  function Wrap(i: nat, n: nat): nat {
    if i < n then i else i - n
  }

  lemma WrapIsModulo(i: nat, n: nat)
    requires 0 < n && i < 2 * n
    ensures i % n == Wrap(i, n)
  {
    if n <= i {
      assert i == n + (i - n);
    }
  }

  // ---------------------------------------------------------------------------------------------
  // Cyclic segments
  // ---------------------------------------------------------------------------------------------

  /** `s` lies in `a` from position `start` on, continuing at index 0 after the last index. */
  ghost predicate At<T>(a: seq<T>, start: nat, s: seq<T>) {
    && start <= |a|
    && |s| <= |a|
    && forall k :: 0 <= k < |s| ==> a[Wrap(start + k, |a|)] == s[k]
  }

  /** The one or two memcpy calls that store `t` from position `pos` on. */
  function Write<T>(a: seq<T>, pos: nat, t: seq<T>): (b: seq<T>)
    requires pos <= |a| && |t| <= |a|
    ensures |b| == |a|
  {
    if pos + |t| <= |a| then
      a[..pos] + t + a[pos + |t|..]
    else
      var part1 := |a| - pos;
      t[part1..] + a[|t| - part1..pos] + t[..part1]
  }

  /** The one or two memcpy calls that read `size` elements from position `pos` on. */
  function Read<T>(a: seq<T>, pos: nat, size: nat): (t: seq<T>)
    requires pos <= |a| && size <= |a|
    ensures |t| == size
  {
    if pos + size <= |a| then a[pos..pos + size]
    else a[pos..] + a[..size - (|a| - pos)]
  }

  lemma ReadAt<T>(a: seq<T>, pos: nat, s: seq<T>, t: seq<T>)
    requires At(a, pos, s + t)
    ensures Read(a, pos, |s|) == s
  {
    forall k | 0 <= k < |s| ensures Read(a, pos, |s|)[k] == s[k] {
      assert (s + t)[k] == s[k];
      assert Read(a, pos, |s|)[k] == a[Wrap(pos + k, |a|)];
    }
  }

  lemma WriteElements<T>(a: seq<T>, pos: nat, t: seq<T>)
    requires pos <= |a| && |t| <= |a|
    ensures forall k :: 0 <= k < |a| ==>
              Write(a, pos, t)[k] == if pos <= k < pos + |t| then t[k - pos]
                                     else if k + |a| < pos + |t| then t[k + |a| - pos]
                                     else a[k]
  {
  }

  /** Storing `t` right behind `s` extends the segment and disturbs nothing of it. */
  lemma WriteBehind<T>(a: seq<T>, start: nat, s: seq<T>, pos: nat, t: seq<T>)
    requires At(a, start, s) && start < |a| && pos <= |a|
    requires |s| + |t| <= |a|
    requires Wrap(pos, |a|) == Wrap(start + |s|, |a|)
    ensures At(Write(a, pos, t), start, s + t)
  {
    var b, u := Write(a, pos, t), s + t;
    WriteElements(a, pos, t);
    forall k | 0 <= k < |u| ensures b[Wrap(start + k, |a|)] == u[k] {
      if k < |s| {
        assert u[k] == s[k];
      } else {
        assert u[k] == t[k - |s|];
      }
    }
  }

  lemma DropAt<T>(a: seq<T>, start: nat, s: seq<T>, t: seq<T>)
    requires At(a, start, s + t) && start < |a|
    ensures At(a, Wrap(start + |s|, |a|), t)
  {
    forall k | 0 <= k < |t| ensures a[Wrap(Wrap(start + |s|, |a|) + k, |a|)] == t[k] {
      assert (s + t)[|s| + k] == t[k];
    }
  }

  // ---------------------------------------------------------------------------------------------
  // The ring and its operations, as coded
  // ---------------------------------------------------------------------------------------------

  type Byte = x: int | 0 <= x < 256

  datatype Packet = Packet(payload: seq<Byte>, sample: nat)

  datatype Slot = Slot(size: nat, sample: nat, startAt: nat)

  datatype Ring = Ring(
    slots: seq<Slot>, buffer: seq<Byte>,
    slotHead: nat, slotQueue: nat,
    bufferHead: nat, bufferQueue: nat)

  /** Both sizes stay below 2^31, so that the source's 32-bit unsigned sums do not wrap. */
  predicate WellSized(r: Ring) {
    && 2 <= |r.slots| < 0x8000_0000
    && 1 <= |r.buffer| < 0x8000_0000
    && r.slotHead < |r.slots| && r.slotQueue < |r.slots|
    && r.bufferHead <= |r.buffer| && r.bufferQueue < |r.buffer|
  }

  function EmptyRing(slots: seq<Slot>, buffer: seq<Byte>): Ring {
    Ring(slots, buffer, 0, 0, 0, 0)
  }

  predicate IsEmpty(r: Ring) {
    r.slotHead == r.slotQueue
  }

  function UsedSlots(r: Ring): nat
    requires WellSized(r)
  {
    (|r.slots| + r.slotHead - r.slotQueue) % |r.slots|
  }

  function AvailableSpace(r: Ring): nat
    requires WellSized(r)
  {
    var space := (|r.buffer| + r.bufferHead - r.bufferQueue) % |r.buffer|;
    |r.buffer| - space
  }

  /** Where the write position goes: it is left AT the buffer size by a packet ending exactly there. */
  function NextHead(head: nat, size: nat, bufferSize: nat): nat {
    if head + size <= bufferSize then head + size else head + size - bufferSize
  }

  /** Push once a slot and the space are granted. */
  function Commit(r: Ring, p: Packet): (r': Ring)
    requires WellSized(r) && |p.payload| <= |r.buffer|
    ensures WellSized(r')
  {
    r.(slots := r.slots[r.slotHead := Slot(|p.payload|, p.sample, r.bufferHead)],
       slotHead := (r.slotHead + 1) % |r.slots|,
       buffer := Write(r.buffer, r.bufferHead, p.payload),
       bufferHead := NextHead(r.bufferHead, |p.payload|, |r.buffer|))
  }

  function FrontSlot(r: Ring): Slot
    requires WellSized(r)
  {
    r.slots[r.slotQueue]
  }

  /** The position check in Pop; the source aborts the program when it fails. */
  predicate PositionAgrees(r: Ring)
    requires WellSized(r)
  {
    r.bufferQueue == FrontSlot(r).startAt
  }

  function Front(r: Ring): Packet
    requires WellSized(r) && FrontSlot(r).size <= |r.buffer|
  {
    Packet(Read(r.buffer, r.bufferQueue, FrontSlot(r).size), FrontSlot(r).sample)
  }

  function RemoveFront(r: Ring): (r': Ring)
    requires WellSized(r) && FrontSlot(r).size <= |r.buffer|
    ensures WellSized(r')
  {
    var sz := FrontSlot(r).size;
    r.(slotQueue := (r.slotQueue + 1) % |r.slots|,
       bufferQueue := if r.bufferQueue + sz <= |r.buffer|
                      then (r.bufferQueue + sz) % |r.buffer|
                      else sz - (|r.buffer| - r.bufferQueue))
  }

  // ---------------------------------------------------------------------------------------------
  // The layout invariant, for a queue of any length
  // ---------------------------------------------------------------------------------------------

  function Bytes(ps: seq<Packet>): seq<Byte> {
    if ps == [] then [] else ps[0].payload + Bytes(ps[1..])
  }

  /** The slots describing packets laid down from write position `start` on. */
  function Descriptors(ps: seq<Packet>, start: nat, bufferSize: nat): (d: seq<Slot>)
    ensures |d| == |ps|
  {
    if ps == [] then []
    else [Slot(|ps[0].payload|, ps[0].sample, start)]
         + Descriptors(ps[1..], NextHead(start, |ps[0].payload|, bufferSize), bufferSize)
  }

  /** The write position after laying down `ps` from `start` on. */
  function HeadAfter(ps: seq<Packet>, start: nat, bufferSize: nat): nat {
    if ps == [] then start
    else HeadAfter(ps[1..], NextHead(start, |ps[0].payload|, bufferSize), bufferSize)
  }

  /**
   * `r` holds exactly the packets `ps`, oldest first. `start` is the write position that the oldest
   * one was given: it equals the read position, or is the buffer size where the read position is 0.
   */
  ghost predicate Layout(r: Ring, ps: seq<Packet>, start: nat) {
    && WellSized(r)
    && |ps| < |r.slots|
    && r.slotHead == Wrap(r.slotQueue + |ps|, |r.slots|)
    && At(r.slots, r.slotQueue, Descriptors(ps, start, |r.buffer|))
    && At(r.buffer, r.bufferQueue, Bytes(ps))
    && start <= |r.buffer| && Wrap(start, |r.buffer|) == r.bufferQueue
    && r.bufferHead == HeadAfter(ps, start, |r.buffer|)
    && Wrap(r.bufferHead, |r.buffer|) == Wrap(r.bufferQueue + |Bytes(ps)|, |r.buffer|)
  }

  lemma EmptyLayout(slots: seq<Slot>, buffer: seq<Byte>)
    requires WellSized(EmptyRing(slots, buffer))
    ensures Layout(EmptyRing(slots, buffer), [], 0)
  {
  }

  lemma {:induction false} BytesAppend(ps: seq<Packet>, p: Packet)
    ensures Bytes(ps + [p]) == Bytes(ps) + p.payload
  {
    if ps == [] {
      assert Bytes([p]) == p.payload + Bytes([p][1..]) == p.payload;
    } else {
      assert (ps + [p])[1..] == ps[1..] + [p];
      BytesAppend(ps[1..], p);
    }
  }

  lemma {:induction false} DescriptorsAppend(ps: seq<Packet>, p: Packet, start: nat, n: nat)
    ensures Descriptors(ps + [p], start, n)
         == Descriptors(ps, start, n) + [Slot(|p.payload|, p.sample, HeadAfter(ps, start, n))]
    ensures HeadAfter(ps + [p], start, n) == NextHead(HeadAfter(ps, start, n), |p.payload|, n)
  {
    if ps == [] {
      assert (ps + [p])[1..] == [];
    } else {
      assert (ps + [p])[1..] == ps[1..] + [p];
      DescriptorsAppend(ps[1..], p, NextHead(start, |ps[0].payload|, n), n);
    }
  }

  /** The occupancy formula of the slot guard counts the queued packets. */
  lemma UsedSlotsCounts(r: Ring, ps: seq<Packet>, start: nat)
    requires Layout(r, ps, start)
    ensures UsedSlots(r) == |ps|
    ensures IsEmpty(r) <==> ps == []
  {
    WrapIsModulo(|r.slots| + r.slotHead - r.slotQueue, |r.slots|);
  }

  /** availableSpace is right except that it cannot tell a full byte ring from an empty one. */
  lemma AvailableSpaceMeasures(r: Ring, ps: seq<Packet>, start: nat)
    requires Layout(r, ps, start)
    ensures AvailableSpace(r) == if |Bytes(ps)| == |r.buffer| then |r.buffer| else |r.buffer| - |Bytes(ps)|
  {
    CyclicDistance(r.bufferHead, r.bufferQueue, |r.buffer|);
  }

  lemma CyclicDistance(h: nat, q: nat, n: nat)
    requires h <= n && q < n
    ensures (n + h - q) % n == if q <= h < q + n then h - q else if h < q then n + h - q else 0
  {
    DivMod(n + h - q, if q <= h < q + n then 1 else if h < q then 0 else 2,
              if q <= h < q + n then h - q else if h < q then n + h - q else 0, n);
  }

  /** Laying down one more packet keeps every queued byte and slot and appends the packet. */
  lemma CommitAppends(r: Ring, ps: seq<Packet>, start: nat, p: Packet)
    requires Layout(r, ps, start)
    requires |ps| + 1 < |r.slots| && |Bytes(ps)| + |p.payload| <= |r.buffer|
    ensures Layout(Commit(r, p), ps + [p], start)
  {
    BytesAppend(ps, p);
    CommitExtendsBytes(r, ps, start, p);
    CommitExtendsSlots(r, ps, start, p);
    CommitMovesHeads(r, ps, start, p);
  }

  lemma CommitMovesHeads(r: Ring, ps: seq<Packet>, start: nat, p: Packet)
    requires Layout(r, ps, start)
    requires |ps| + 1 < |r.slots| && |Bytes(ps)| + |p.payload| <= |r.buffer|
    ensures var r' := Commit(r, p);
            && r'.slotHead == Wrap(r.slotQueue + |ps| + 1, |r.slots|)
            && r'.bufferHead == HeadAfter(ps + [p], start, |r.buffer|)
            && Wrap(r'.bufferHead, |r.buffer|) == Wrap(r.bufferQueue + |Bytes(ps)| + |p.payload|, |r.buffer|)
  {
    DescriptorsAppend(ps, p, start, |r.buffer|);
    NextSlotWraps(r.slotQueue, |ps|, |r.slots|);
    NextHeadWraps(r.bufferQueue, |Bytes(ps)|, r.bufferHead, |p.payload|, |r.buffer|);
  }

  lemma NextSlotWraps(q: nat, k: nat, n: nat)
    requires q < n && k + 1 < n
    ensures (Wrap(q + k, n) + 1) % n == Wrap(q + k + 1, n)
  {
    WrapIsModulo(Wrap(q + k, n) + 1, n);
  }

  lemma NextHeadWraps(q: nat, t: nat, h: nat, s: nat, n: nat)
    requires q < n && h <= n && t + s <= n && Wrap(h, n) == Wrap(q + t, n)
    ensures Wrap(NextHead(h, s, n), n) == Wrap(q + t + s, n)
  {
  }

  lemma CommitExtendsBytes(r: Ring, ps: seq<Packet>, start: nat, p: Packet)
    requires Layout(r, ps, start) && |Bytes(ps)| + |p.payload| <= |r.buffer|
    ensures At(Commit(r, p).buffer, r.bufferQueue, Bytes(ps) + p.payload)
  {
    WriteBehind(r.buffer, r.bufferQueue, Bytes(ps), r.bufferHead, p.payload);
  }

  lemma CommitExtendsSlots(r: Ring, ps: seq<Packet>, start: nat, p: Packet)
    requires Layout(r, ps, start) && |ps| + 1 < |r.slots| && |p.payload| <= |r.buffer|
    ensures At(Commit(r, p).slots, r.slotQueue, Descriptors(ps + [p], start, |r.buffer|))
  {
    var d, slot := Descriptors(ps, start, |r.buffer|), Slot(|p.payload|, p.sample, r.bufferHead);
    DescriptorsAppend(ps, p, start, |r.buffer|);
    WriteBehind(r.slots, r.slotQueue, d, r.slotHead, [slot]);
    assert Write(r.slots, r.slotHead, [slot]) == r.slots[r.slotHead := slot];
  }

  /**
   * Pop reads back the oldest packet, every byte of it, and leaves the others. Its position check
   * fails exactly when that packet was laid down with the write position at the buffer size.
   */
  lemma FrontIsOldest(r: Ring, ps: seq<Packet>, start: nat)
    requires Layout(r, ps, start) && ps != []
    ensures FrontSlot(r).size == |ps[0].payload| <= |r.buffer|
    ensures PositionAgrees(r) <==> start != |r.buffer|
    ensures Front(r) == ps[0]
    ensures Layout(RemoveFront(r), ps[1..], NextHead(start, |ps[0].payload|, |r.buffer|))
  {
    FrontIsDescribed(r, ps, start);
    FrontIsRead(r, ps, start);
    RestIsLaidOut(r, ps, start);
  }

  lemma FrontIsRead(r: Ring, ps: seq<Packet>, start: nat)
    requires Layout(r, ps, start) && ps != [] && FrontSlot(r) == Slot(|ps[0].payload|, ps[0].sample, start)
    ensures |ps[0].payload| <= |r.buffer| && Front(r) == ps[0]
    ensures PositionAgrees(r) <==> start != |r.buffer|
  {
    ReadAt(r.buffer, r.bufferQueue, ps[0].payload, Bytes(ps[1..]));
  }

  lemma RestIsLaidOut(r: Ring, ps: seq<Packet>, start: nat)
    requires Layout(r, ps, start) && ps != [] && FrontSlot(r) == Slot(|ps[0].payload|, ps[0].sample, start)
    requires At(r.slots, Wrap(r.slotQueue + 1, |r.slots|),
                Descriptors(ps[1..], NextHead(start, |ps[0].payload|, |r.buffer|), |r.buffer|))
    ensures Layout(RemoveFront(r), ps[1..], NextHead(start, |ps[0].payload|, |r.buffer|))
  {
    DropAt(r.buffer, r.bufferQueue, ps[0].payload, Bytes(ps[1..]));
    WrapIsModulo(r.slotQueue + 1, |r.slots|);
    QueueMoves(r, |ps[0].payload|);
  }

  lemma QueueMoves(r: Ring, n: nat)
    requires WellSized(r) && FrontSlot(r).size == n && n <= |r.buffer|
    ensures RemoveFront(r).bufferQueue == Wrap(r.bufferQueue + n, |r.buffer|)
  {
    if r.bufferQueue + n <= |r.buffer| {
      WrapIsModulo(r.bufferQueue + n, |r.buffer|);
    }
  }

  lemma FrontIsDescribed(r: Ring, ps: seq<Packet>, start: nat)
    requires Layout(r, ps, start) && ps != []
    ensures FrontSlot(r) == Slot(|ps[0].payload|, ps[0].sample, start)
    ensures At(r.slots, Wrap(r.slotQueue + 1, |r.slots|),
               Descriptors(ps[1..], NextHead(start, |ps[0].payload|, |r.buffer|), |r.buffer|))
  {
    var d := Descriptors(ps, start, |r.buffer|);
    assert d[0] == r.slots[Wrap(r.slotQueue + 0, |r.slots|)];
    assert d == [d[0]] + d[1..];
    DropAt(r.slots, r.slotQueue, [d[0]], d[1..]);
  }

  // ---------------------------------------------------------------------------------------------
  // When the write position is left at the buffer size
  // ---------------------------------------------------------------------------------------------

  function Fits(ps: seq<Packet>, bufferSize: nat): bool {
    forall i :: 0 <= i < |ps| ==> |ps[i].payload| <= bufferSize
  }

  /**
   * After packets of total length t the write position is the representative of t in [1, n], and 0
   * only while nothing but empty packets were pushed.
   */
  lemma {:induction false} HeadAfterTotal(ps: seq<Packet>, n: nat)
    requires 0 < n && Fits(ps, n)
    ensures HeadAfter(ps, 0, n) <= n
    ensures HeadAfter(ps, 0, n) % n == |Bytes(ps)| % n
    ensures HeadAfter(ps, 0, n) == 0 <==> Bytes(ps) == []
  {
    if ps != [] {
      var last := |ps| - 1;
      var qs, p := ps[..last], ps[last];
      assert ps == qs + [p];
      HeadAfterTotal(qs, n);
      DescriptorsAppend(qs, p, 0, n);
      BytesAppend(qs, p);
      var h, t, s := HeadAfter(qs, 0, n), |Bytes(qs)|, |p.payload|;
      SameResidueAfter(h, t, s, n);
      if n < h + s {
        assert (h + s - n) % n == (h + s) % n by { ResidueMinus(h + s, n); }
      }
    }
  }

  lemma ResidueMinus(a: nat, n: nat)
    requires 0 < n <= a
    ensures (a - n) % n == a % n
  {
    var q, r := a / n, a % n;
    assert a - n == (q - 1) * n + r;
    DivMod(a - n, q - 1, r, n);
  }

  lemma SameResidueAfter(h: nat, t: nat, s: nat, n: nat)
    requires 0 < n && h % n == t % n
    ensures (h + s) % n == (t + s) % n
  {
    var c := (t + s) % n;
    var q := (t + s) / n + h / n - t / n;
    assert h == h / n * n + h % n;
    assert t == t / n * n + t % n;
    assert t + s == (t + s) / n * n + c;
    assert q * n == (t + s) / n * n + h / n * n - t / n * n;
    assert h + s == q * n + c;
    DivMod(h + s, q, c, n);
  }

  /** The write position sits at the buffer size exactly after a positive multiple of it was pushed. */
  lemma HeadAtEndIff(ps: seq<Packet>, n: nat)
    requires 0 < n && Fits(ps, n)
    ensures HeadAfter(ps, 0, n) == n <==> Bytes(ps) != [] && |Bytes(ps)| % n == 0
  {
    HeadAfterTotal(ps, n);
    var h := HeadAfter(ps, 0, n);
    if h == n {
      DivMod(n, 1, 0, n);
    } else {
      DivMod(h, 0, h, n);
    }
  }
}
