/**
 * The cost of BVector's growth, over whole runs: how many elements setCapacity copies for how many that
 * were put in.
 */
module BVectorCost {

  const DEFAULT_SIZE := 5

  /** `full` counts the growths that started from a full buffer of odd capacity. */
  datatype Cost = Cost(size: nat, capacity: nat, copied: nat, inserted: nat, full: nat)

  /** Put(k): any operation that makes room for k elements and puts them in. */
  datatype Op = Put(k: nat) | Take | Clear

  function Larger(a: nat, b: nat): nat {
    if a > b then a else b
  }

  /** setCapacity(size + k): no shrinking, and growth by at least one half. */
  function Reserve(c: Cost, k: nat): Cost {
    if c.size + k < c.capacity then c
    else
      c.(capacity := Larger(c.size + k, c.capacity * 3 / 2), copied := c.copied + c.size,
         full := c.full + if c.size == c.capacity && c.capacity % 2 == 1 then 1 else 0)
  }

  function Step(c: Cost, op: Op): Cost {
    match op
    case Put(k) => Reserve(c, k).(size := c.size + k, inserted := c.inserted + k)
    case Take => if c.size > 0 then c.(size := c.size - 1) else c
    case Clear => c.(size := 0)
  }

  function Run(c: Cost, ops: seq<Op>): Cost
    decreases |ops|
  {
    if ops == [] then c else Run(Step(c, ops[0]), ops[1..])
  }

  const START: Cost := Cost(0, DEFAULT_SIZE, 0, 0, 0)

  /** What every vector from the default constructor keeps. */
  predicate Bounded(c: Cost) {
    && c.size <= c.capacity && DEFAULT_SIZE <= c.capacity && c.size <= c.inserted
    && (c.capacity == DEFAULT_SIZE ==> c.copied == 0)
    && (c.capacity > DEFAULT_SIZE ==> 2 * c.capacity <= 3 * c.inserted)
    && c.copied <= 2 * (c.capacity - DEFAULT_SIZE) + c.full
    && 3 * c.copied <= 8 * (c.capacity - DEFAULT_SIZE)
  }

  lemma StepIsBounded(c: Cost, op: Op)
    requires Bounded(c)
    ensures Bounded(Step(c, op))
    ensures Step(c, op).capacity >= c.capacity
  {
    if op.Put? && c.size + op.k >= c.capacity {
      var larger := c.capacity * 3 / 2;
      assert larger > DEFAULT_SIZE;
      assert 2 * larger >= 3 * c.capacity - 1;
      assert c.capacity % 2 == 0 ==> 2 * larger == 3 * c.capacity;
    }
  }

  lemma {:induction false} RunIsBounded(c: Cost, ops: seq<Op>)
    requires Bounded(c)
    ensures Bounded(Run(c, ops)) && Run(c, ops).capacity >= c.capacity
    decreases |ops|
  {
    if ops != [] {
      StepIsBounded(c, ops[0]);
      RunIsBounded(Step(c, ops[0]), ops[1..]);
    }
  }

  /** Fewer than 3 copies an element, on every run that grows a full odd buffer less than ten times. */
  lemma ThreePerElement(ops: seq<Op>)
    ensures var c := Run(START, ops); c.inserted > 0 && c.full < 10 ==> c.copied < 3 * c.inserted
  {
    RunIsBounded(START, ops);
  }

  predicate OneByOne(op: Op) {
    op.Put? ==> op.k == 1
  }

  /** A vector that only ever grows by single elements is never full between two calls. */
  lemma {:induction false} NeverFull(c: Cost, ops: seq<Op>)
    requires Bounded(c) && c.size < c.capacity && c.full == 0
    requires forall i :: 0 <= i < |ops| ==> OneByOne(ops[i])
    ensures Run(c, ops).full == 0 && Run(c, ops).size < Run(c, ops).capacity
    decreases |ops|
  {
    if ops != [] {
      StepIsBounded(c, ops[0]);
      assert OneByOne(ops[0]);
      forall i | 0 <= i < |ops[1..]| ensures OneByOne(ops[1..][i]) {
        assert ops[1..][i] == ops[i + 1];
      }
      NeverFull(Step(c, ops[0]), ops[1..]);
    }
  }

  /** So without appending whole vectors the bound of 3 holds on every run. */
  lemma ThreePerElementOneByOne(ops: seq<Op>)
    requires forall i :: 0 <= i < |ops| ==> OneByOne(ops[i])
    ensures var c := Run(START, ops); c.inserted > 0 ==> c.copied < 3 * c.inserted
  {
    NeverFull(START, ops);
    RunIsBounded(START, ops);
  }

  /** Vectors appended so that the buffer is exactly full each time, and at last an empty one. */
  const GROWTH: seq<Op> :=
    [Put(4), Put(3), Put(3), Put(5), Put(7), Put(11), Put(16), Put(24), Put(36), Put(54), Put(81), Put(122),
     Put(183), Put(274), Put(411), Put(617), Put(925), Put(0)]

  lemma {:induction false} RunConcat(c: Cost, a: seq<Op>, b: seq<Op>)
    ensures Run(c, a + b) == Run(Run(c, a), b)
    decreases |a|
  {
    if a == [] {
      assert a + b == b;
    } else {
      assert (a + b)[1..] == a[1..] + b;
      RunConcat(Step(c, a[0]), a[1..], b);
    }
  }

  /** On this run 8328 copies are made for 2776 elements: not fewer than 3 each. */
  lemma ThreeIsNotEnough()
    ensures Run(START, GROWTH) == Cost(2776, 4164, 8328, 2776, 10)
  {
    var a, b, c := GROWTH[..6], GROWTH[6..12], GROWTH[12..];
    assert GROWTH == a + (b + c);
    RunConcat(START, a, b + c);
    RunConcat(Run(START, a), b, c);
    FirstThird();
    SecondThird();
    LastThird();
  }

  lemma FirstThird()
    ensures Run(START, GROWTH[..6]) == Cost(33, 33, 58, 33, 2)
  {
    assert GROWTH[..6] == [Put(4), Put(3), Put(3), Put(5), Put(7), Put(11)];
    Six(START, Put(4), Put(3), Put(3), Put(5), Put(7), Put(11));
    assert Step(Step(START, Put(4)), Put(3)) == Cost(7, 7, 4, 7, 0);
    assert Step(Step(Cost(7, 7, 4, 7, 0), Put(3)), Put(5)) == Cost(15, 15, 21, 15, 1);
    assert Step(Step(Cost(15, 15, 21, 15, 1), Put(7)), Put(11)) == Cost(33, 33, 58, 33, 2);
  }

  lemma SecondThird()
    ensures Run(Cost(33, 33, 58, 33, 2), GROWTH[6..12]) == Cost(366, 366, 729, 366, 7)
  {
    assert GROWTH[6..12] == [Put(16), Put(24), Put(36), Put(54), Put(81), Put(122)];
    Six(Cost(33, 33, 58, 33, 2), Put(16), Put(24), Put(36), Put(54), Put(81), Put(122));
    assert Step(Step(Cost(33, 33, 58, 33, 2), Put(16)), Put(24)) == Cost(73, 73, 140, 73, 4);
    assert Step(Step(Cost(73, 73, 140, 73, 4), Put(36)), Put(54)) == Cost(163, 163, 322, 163, 6);
  }

  lemma LastThird()
    ensures Run(Cost(366, 366, 729, 366, 7), GROWTH[12..]) == Cost(2776, 4164, 8328, 2776, 10)
  {
    assert GROWTH[12..] == [Put(183), Put(274), Put(411), Put(617), Put(925), Put(0)];
    Six(Cost(366, 366, 729, 366, 7), Put(183), Put(274), Put(411), Put(617), Put(925), Put(0));
    assert Step(Step(Cost(366, 366, 729, 366, 7), Put(183)), Put(274)) == Cost(823, 823, 1644, 823, 8);
    assert Step(Step(Cost(823, 823, 1644, 823, 8), Put(411)), Put(617)) == Cost(1851, 1851, 3701, 1851, 9);
  }

  lemma Six(s: Cost, a: Op, b: Op, c: Op, d: Op, e: Op, f: Op)
    ensures Run(s, [a, b, c, d, e, f]) == Step(Step(Step(Step(Step(Step(s, a), b), c), d), e), f)
  {
    var t := Step(Step(Step(s, a), b), c);
    assert [a, b, c, d, e, f] == [a, b, c] + [d, e, f];
    RunConcat(s, [a, b, c], [d, e, f]);
    Three(s, a, b, c);
    Three(t, d, e, f);
  }

  lemma Three(s: Cost, a: Op, b: Op, c: Op)
    ensures Run(s, [a, b, c]) == Step(Step(Step(s, a), b), c)
  {
    assert [a, b, c][1..] == [b, c] && [b, c][1..] == [c] && [c][1..] == [];
    assert Run(Step(s, a), [b, c]) == Run(Step(Step(s, a), b), [c]);
    assert Run(Step(Step(s, a), b), [c]) == Step(Step(Step(s, a), b), c);
  }

  /** Do fewer than `limit` growths from a full odd buffer keep a run below 3 copies an element? */
  ghost predicate FewGrowthsSuffice(limit: nat) {
    forall ops: seq<Op> :: Run(START, ops).full < limit && Run(START, ops).inserted > 0 ==>
                             Run(START, ops).copied < 3 * Run(START, ops).inserted
  }

  /** They do iff the limit is at most 10: with ten such growths a run exists that misses the bound. */
  lemma ThreeHoldsIff(limit: nat)
    ensures FewGrowthsSuffice(limit) <==> limit <= 10
  {
    if limit <= 10 {
      forall ops: seq<Op> | Run(START, ops).full < limit && Run(START, ops).inserted > 0
        ensures Run(START, ops).copied < 3 * Run(START, ops).inserted
      {
        ThreePerElement(ops);
      }
    } else {
      ThreeIsNotEnough();
      assert Run(START, GROWTH).full < limit;
    }
  }

  lemma TwoSteps(s: Cost, a: Op, b: Op)
    ensures Run(s, [a, b]) == Step(Step(s, a), b)
  {
    assert [a, b][1..] == [b] && [b][1..] == [];
    assert Run(Step(s, a), [b]) == Step(Step(s, a), b);
  }

  lemma FourPerElement(ops: seq<Op>)
    ensures var c := Run(START, ops); c.inserted > 0 ==> c.copied < 4 * c.inserted
  {
    RunIsBounded(START, ops);
  }

  /** Is `bound` enough copies an element on every run? */
  ghost predicate BoundsEveryRun(bound: nat) {
    forall ops: seq<Op> :: Run(START, ops).inserted > 0 ==> Run(START, ops).copied < bound * Run(START, ops).inserted
  }

  /** 4 is the smallest whole number that is. */
  lemma FourIsTheBound(bound: nat)
    ensures BoundsEveryRun(bound) <==> bound >= 4
  {
    if bound >= 4 {
      forall ops: seq<Op> | Run(START, ops).inserted > 0
        ensures Run(START, ops).copied < bound * Run(START, ops).inserted
      {
        FourPerElement(ops);
        NoSmaller(4, bound, Run(START, ops).inserted);
      }
    } else {
      ThreeIsNotEnough();
      NoSmaller(bound, 3, 2776);
      assert Run(START, GROWTH).copied >= bound * Run(START, GROWTH).inserted;
    }
  }

  lemma NoSmaller(a: nat, b: nat, n: nat)
    requires a <= b
    ensures a * n <= b * n
  {
    assert (b - a) * n >= 0;
  }
}

/** The vector itself: a growing array, with element moves in place. */
module BVectors {
  import opened BVectorCost

  class BVector<T(0)> {
    var buffer: array<T>
    var currentIndex: nat
    ghost var cost: Cost

    ghost predicate Valid()
      reads this, buffer
    {
      && currentIndex <= buffer.Length
      && cost.size == currentIndex && cost.capacity == buffer.Length
    }

    ghost function Contents(): seq<T>
      reads this, buffer
      requires Valid()
    {
      buffer[..currentIndex]
    }

    /** Sizes and capacities are C ints, and growth computes three times the capacity. */
    ghost predicate Fits(k: nat)
      reads this
    {
      3 * buffer.Length < 0x8000_0000 && currentIndex + k < 0x8000_0000
    }

    constructor ()
      ensures Valid() && Contents() == [] && fresh(buffer)
      ensures cost == START
    {
      buffer := new T[DEFAULT_SIZE];
      currentIndex := 0;
      cost := START;
    }

    constructor WithCapacity(inSize: nat)
      ensures Valid() && Contents() == [] && fresh(buffer)
      ensures cost == Cost(0, inSize, 0, 0, 0)
    {
      buffer := new T[inSize];
      currentIndex := 0;
      cost := Cost(0, inSize, 0, 0, 0);
    }

    /** Copies count elements from one place of `from` to one of `to`, also where the two overlap. */
    static method Move(to: array<T>, dest: nat, from: array<T>, src: nat, count: nat)
      requires dest + count <= to.Length && src + count <= from.Length
      modifies to
      ensures to[..] == old(to[..dest]) + old(from[src..src + count]) + old(to[dest + count..])
    {
      forall i | 0 <= i < count {
        to[dest + i] := from[src + i];
      }
    }

    /** Asked for less than there is, it does nothing, however little was asked for. */
    method SetCapacity(inCapacity: int)
      requires Valid() && (inCapacity >= buffer.Length ==> Fits(0))
      modifies this
      ensures Valid() && Contents() == old(Contents()) && currentIndex == old(currentIndex)
      ensures buffer.Length >= old(buffer.Length) && buffer.Length >= inCapacity
      ensures inCapacity >= old(buffer.Length) ==> buffer.Length == inCapacity || buffer.Length == old(buffer.Length) * 3 / 2
      ensures buffer == old(buffer) || fresh(buffer)
      ensures cost == if inCapacity < currentIndex then old(cost) else Reserve(old(cost), inCapacity - currentIndex)
    {
      if inCapacity < buffer.Length {
        return;
      }
      cost := Reserve(cost, inCapacity - currentIndex);
      var target: nat := inCapacity;
      if buffer.Length * 3 / 2 > target {
        target := buffer.Length * 3 / 2;
      }
      var nbuffer := new T[target];
      Move(nbuffer, 0, buffer, 0, currentIndex);
      buffer := nbuffer;
    }

    method Append(value: T)
      requires Valid() && Fits(1)
      modifies this, buffer
      ensures Valid() && Contents() == old(Contents()) + [value]
      ensures buffer == old(buffer) || fresh(buffer)
      ensures cost == Step(old(cost), Put(1))
    {
      SetCapacity(currentIndex + 1);
      buffer[currentIndex] := value;
      currentIndex := currentIndex + 1;
      cost := cost.(size := currentIndex, inserted := cost.inserted + 1);
    }

    /** The loop of append: puts the elements of another vector behind those already there. */
    method CopyFrom(other: BVector<T>)
      requires Valid() && other.Valid() && other != this && other.buffer != buffer
      requires currentIndex + other.currentIndex <= buffer.Length
      modifies this`currentIndex, buffer
      ensures currentIndex == old(currentIndex) + other.currentIndex
      ensures buffer[..currentIndex] == old(Contents()) + other.Contents()
    {
      ghost var start := currentIndex;
      var index := 0;
      while index < other.currentIndex
        invariant index <= other.currentIndex && currentIndex == start + index
        invariant buffer[..start] == old(Contents())
        invariant forall i :: 0 <= i < index ==> buffer[start + i] == other.buffer[i]
      {
        buffer[currentIndex] := other.buffer[index];
        currentIndex := currentIndex + 1;
        index := index + 1;
      }
      assert buffer[..currentIndex] == buffer[..start] + buffer[start..currentIndex];
      assert buffer[start..currentIndex] == other.buffer[..index];
    }

    /** append of a whole vector; of the vector itself it would not end. */
    method AppendAll(other: BVector<T>)
      requires Valid() && other.Valid() && Fits(other.currentIndex)
      requires other != this || other.currentIndex == 0
      requires other != this ==> other.buffer != buffer
      modifies this, buffer
      ensures Valid() && Contents() == old(Contents()) + old(other.Contents())
      ensures buffer == old(buffer) || fresh(buffer)
      ensures cost == Step(old(cost), Put(old(other.currentIndex)))
    {
      ghost var k := other.currentIndex;
      SetCapacity(currentIndex + other.currentIndex);
      if other != this {
        CopyFrom(other);
      }
      cost := cost.(size := currentIndex, inserted := cost.inserted + k);
    }

    method Clear()
      requires Valid()
      modifies this
      ensures Valid() && Contents() == [] && buffer == old(buffer)
      ensures cost == Step(old(cost), BVectorCost.Clear)
    {
      currentIndex := 0;
      cost := cost.(size := 0);
    }

    /** operator=: assigned to itself the vector ends up empty. */
    method Assign(other: BVector<T>)
      requires Valid() && other.Valid() && 3 * buffer.Length < 0x8000_0000 && other.currentIndex < 0x8000_0000
      requires other != this ==> other.buffer != buffer
      modifies this, buffer
      ensures Valid() && Contents() == if other == this then [] else old(other.Contents())
      ensures buffer == old(buffer) || fresh(buffer)
      ensures cost == Run(old(cost), [BVectorCost.Clear, Put(if other == this then 0 else old(other.currentIndex))])
    {
      ghost var k := if other == this then 0 else other.currentIndex;
      TwoSteps(cost, BVectorCost.Clear, Put(k));
      Clear();
      AppendAll(other);
    }

    method PopBack()
      requires Valid()
      modifies this
      ensures Valid() && buffer == old(buffer)
      ensures Contents() == if old(Contents()) == [] then [] else old(Contents())[..|old(Contents())| - 1]
      ensures cost == Step(old(cost), Take)
    {
      if currentIndex != 0 {
        currentIndex := currentIndex - 1;
        cost := Step(cost, Take);
      }
    }

    method PopFront()
      requires Valid()
      modifies this, buffer
      ensures Valid() && buffer == old(buffer)
      ensures Contents() == if old(Contents()) == [] then [] else old(Contents())[1..]
      ensures cost == Step(old(cost), Take)
    {
      if currentIndex != 0 {
        Move(buffer, 0, buffer, 1, currentIndex - 1);
        currentIndex := currentIndex - 1;
        cost := Step(cost, Take);
      }
    }

    method PushFront(value: T)
      requires Valid() && Fits(1)
      modifies this, buffer
      ensures Valid() && Contents() == [value] + old(Contents())
      ensures buffer == old(buffer) || fresh(buffer)
      ensures cost == Step(old(cost), Put(1))
    {
      if currentIndex == 0 {
        Append(value);
        return;
      }
      SetCapacity(currentIndex + 1);
      GapFilled(buffer[..], 0, currentIndex, value);
      Move(buffer, 1, buffer, 0, currentIndex);
      buffer[0] := value;
      currentIndex := currentIndex + 1;
      cost := cost.(size := currentIndex, inserted := cost.inserted + 1);
    }

    /** Moving a stretch up by one and writing into the gap inserts. */
    static lemma GapFilled(a: seq<T>, position: nat, n: nat, value: T)
      requires position < n < |a|
      ensures var b := a[..position + 1] + a[position..n] + a[n + 1..];
              |b| == |a| && b[position := value][..n + 1] == a[..n][..position] + [value] + a[..n][position..]
    {
    }

    method Insert(position: nat, value: T)
      requires Valid() && Fits(1) && position <= currentIndex
      modifies this, buffer
      ensures Valid() && Contents() == old(Contents())[..position] + [value] + old(Contents())[position..]
      ensures buffer == old(buffer) || fresh(buffer)
      ensures cost == Step(old(cost), Put(1))
    {
      if currentIndex == position {
        Append(value);
        return;
      }
      InsertInside(position, value);
    }

    /** The elements from position on move up by one. */
    method InsertInside(position: nat, value: T)
      requires Valid() && Fits(1) && position < currentIndex
      modifies this, buffer
      ensures Valid() && Contents() == old(Contents())[..position] + [value] + old(Contents())[position..]
      ensures buffer == old(buffer) || fresh(buffer)
      ensures cost == Step(old(cost), Put(1))
    {
      var last := currentIndex;
      SetCapacity(last + 1);
      var tail := last - position;
      GapFilled(buffer[..], position, last, value);
      Move(buffer, position + 1, buffer, position, tail);
      buffer[position] := value;
      currentIndex := currentIndex + 1;
      cost := cost.(size := currentIndex, inserted := cost.inserted + 1);
    }

    method RemoveAt(position: nat)
      requires Valid() && position < currentIndex
      modifies this, buffer
      ensures Valid() && buffer == old(buffer)
      ensures Contents() == old(Contents())[..position] + old(Contents())[position + 1..]
      ensures cost == Step(old(cost), Take)
    {
      if position == currentIndex - 1 {
        PopBack();
        return;
      }
      var tail := currentIndex - position - 1;
      Move(buffer, position, buffer, position + 1, tail);
      currentIndex := currentIndex - 1;
      cost := Step(cost, Take);
    }
  }
}
