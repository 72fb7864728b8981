/** include/app/spsc_ring_buffer.hpp: the bounded single-producer single-consumer ring.
    Every method touches at most one shared position, so any interleaving of whole
    methods covers every schedule; a load may return any older value of the other
    side's position that coherence still allows. */
module SpscRing {
  import opened MarketTypes

  /** Private and shared positions, the slots, and what has passed through so far. */
  datatype Ring<T> = Ring(
    slots: seq<T>, writePosition: nat, readPosition: nat, published: nat, released: nat,
    reserved: bool, holding: bool, seenReleased: nat, seenPublished: nat,
    ghost pushed: seq<T>, ghost popped: seq<T>)

  /** The calls either side can make, with the value its acquire load returns. */
  datatype Call<T> =
    | TryReserve(loaded: nat) | WriteSlot(value: T) | Publish | CancelPush
    | TryBegin(loaded: nat) | FinishPop

  /** A load returns a value the position has held, no older than the last one seen. */
  predicate LoadOk<T>(r: Ring<T>, c: Call<T>) {
    match c
    case TryReserve(loaded) => r.seenReleased <= loaded <= r.released
    case TryBegin(loaded) => r.seenPublished <= loaded <= r.published
    case _ => true
  }

  /** One call; a misuse throws and changes nothing, and a slot is only written while reserved. */
  ghost function Next<T>(r: Ring<T>, c: Call<T>): Ring<T>
    requires |r.slots| > 0
  {
    match c
    case TryReserve(loaded) =>
      if r.reserved then r
      else r.(seenReleased := loaded, reserved := r.writePosition - loaded < |r.slots|)
    case WriteSlot(value) =>
      if !r.reserved then r
      else r.(slots := r.slots[r.writePosition % |r.slots| := value])
    case Publish =>
      if !r.reserved then r
      else r.(reserved := false, writePosition := r.writePosition + 1, published := r.writePosition + 1,
              pushed := r.pushed + [r.slots[r.writePosition % |r.slots|]])
    case CancelPush => if !r.reserved then r else r.(reserved := false)
    case TryBegin(loaded) =>
      if r.holding then r
      else r.(seenPublished := loaded, holding := r.readPosition != loaded)
    case FinishPop =>
      if !r.holding then r
      else r.(holding := false, readPosition := r.readPosition + 1, released := r.readPosition + 1,
              popped := r.popped + [r.slots[r.readPosition % |r.slots|]])
  }

  /** What every interleaving keeps. */
  ghost predicate RingOk<T>(r: Ring<T>) {
    var capacity := |r.slots|;
    && capacity > 0
    && r.published == r.writePosition == |r.pushed|
    && r.released == r.readPosition == |r.popped|
    && r.seenReleased <= r.released <= r.published <= r.released + capacity
    && r.readPosition <= r.seenPublished <= r.published
    && (r.reserved ==> r.published < r.released + capacity)
    && (r.holding ==> r.readPosition < r.seenPublished)
    && r.popped == r.pushed[..r.released]
    && (forall k | r.released <= k < r.published :: r.slots[k % capacity] == r.pushed[k])
  }

  lemma {:induction false} SlotsDiffer(a: nat, b: nat, capacity: nat)
    requires a < b < a + capacity
    ensures a % capacity != b % capacity
  {
    var laps := b / capacity - a / capacity;
    assert b - a == laps * capacity + (b % capacity - a % capacity);
    assert laps >= 1 ==> laps * capacity >= capacity;
    assert laps <= -1 ==> laps * capacity + capacity <= 0;
  }

  lemma {:induction false} WriteKeeps<T>(r: Ring<T>, value: T)
    requires RingOk(r) && r.reserved
    ensures RingOk(Next(r, WriteSlot(value)))
  {
    forall k | r.released <= k < r.published
      ensures Next(r, WriteSlot(value)).slots[k % |r.slots|] == r.pushed[k]
    {
      SlotsDiffer(k, r.writePosition, |r.slots|);
    }
  }

  /** Every call of either side, after any loads, keeps the ring's invariant. */
  lemma {:induction false} CallKeeps<T>(r: Ring<T>, c: Call<T>)
    requires RingOk(r) && LoadOk(r, c)
    ensures RingOk(Next(r, c))
    ensures |Next(r, c).slots| == |r.slots|
    ensures r.pushed <= Next(r, c).pushed && r.popped <= Next(r, c).popped
  {
    if c.WriteSlot? && r.reserved {
      WriteKeeps(r, c.value);
    }
    if c.FinishPop? && r.holding {
      assert r.slots[r.released % |r.slots|] == r.pushed[r.released];
      assert r.pushed[..r.released + 1] == r.pushed[..r.released] + [r.pushed[r.released]];
    }
  }

  ghost predicate LoadsOk<T>(r: Ring<T>, calls: seq<Call<T>>)
    requires RingOk(r)
    decreases |calls|
  {
    |calls| > 0 ==> LoadOk(r, calls[0]) && (CallKeeps(r, calls[0]); LoadsOk(Next(r, calls[0]), calls[1..]))
  }

  ghost function RunCalls<T>(r: Ring<T>, calls: seq<Call<T>>): Ring<T>
    requires RingOk(r) && LoadsOk(r, calls)
    decreases |calls|
  {
    if |calls| == 0 then r else CallKeeps(r, calls[0]); RunCalls(Next(r, calls[0]), calls[1..])
  }

  /** Under every interleaving and every admissible stale load: what was read is a prefix,
      in order, of what was published; never more than the capacity is outstanding; and a
      reserved slot is no unread slot, in particular not the one being read. */
  lemma {:induction false} FifoUnderAllSchedules<T>(r: Ring<T>, calls: seq<Call<T>>)
    requires RingOk(r) && LoadsOk(r, calls)
    ensures var t := RunCalls(r, calls);
      && |t.slots| == |r.slots|
      && t.popped <= t.pushed
      && |t.pushed| - |t.popped| <= |t.slots|
      && (t.reserved ==> forall k | t.released <= k < t.published :: k % |t.slots| != t.writePosition % |t.slots|)
      && (t.holding ==> |t.popped| < |t.pushed| && t.slots[t.readPosition % |t.slots|] == t.pushed[|t.popped|])
    decreases |calls|
  {
    if |calls| > 0 {
      CallKeeps(r, calls[0]);
      FifoUnderAllSchedules(Next(r, calls[0]), calls[1..]);
    } else if r.reserved {
      forall k | r.released <= k < r.published ensures k % |r.slots| != r.writePosition % |r.slots| {
        SlotsDiffer(k, r.writePosition, |r.slots|);
      }
    }
  }

  /** A stale load only ever errs towards refusing: with an up-to-date load the ring
      refuses a push exactly when full and a pop exactly when empty. */
  lemma {:induction false} RefusalsAreExact<T>(r: Ring<T>, loaded: nat)
    requires RingOk(r) && !r.reserved && !r.holding
    ensures r.seenReleased <= loaded <= r.released && Next(r, TryReserve(loaded)).reserved ==>
              |r.pushed| - |r.popped| < |r.slots|
    ensures Next(r, TryReserve(r.released)).reserved <==> |r.pushed| - |r.popped| < |r.slots|
    ensures r.seenPublished <= loaded <= r.published && Next(r, TryBegin(loaded)).holding ==>
              |r.popped| < |r.pushed|
    ensures Next(r, TryBegin(r.published)).holding <==> |r.popped| < |r.pushed|
  {
  }

  /** The object itself, its slots an array written in place. The two `seen` fields are what
      each side's last acquire load returned: a later load is never older. */
  class Buffer<T(0)> {
    const storage: array<T>
    var producerWritePosition: nat
    var consumerReadPosition: nat
    var producerHasReservation: bool
    var consumerHasValue: bool
    var publishedWritePosition: nat
    var releasedReadPosition: nat
    var seenReleased: nat
    var seenPublished: nat
    ghost var pushed: seq<T>
    ghost var popped: seq<T>

    ghost function Value(): Ring<T>
      reads this, storage
    {
      Ring(storage[..], producerWritePosition, consumerReadPosition, publishedWritePosition, releasedReadPosition,
           producerHasReservation, consumerHasValue, seenReleased, seenPublished, pushed, popped)
    }

    ghost predicate Valid()
      reads this, storage
    {
      RingOk(Value())
    }

    constructor (capacity: nat)
      requires capacity > 0
      ensures Valid() && fresh(storage) && storage.Length == capacity
      ensures pushed == [] && popped == []
    {
      storage := new T[capacity];
      producerWritePosition, consumerReadPosition := 0, 0;
      producerHasReservation, consumerHasValue := false, false;
      publishedWritePosition, releasedReadPosition := 0, 0;
      seenReleased, seenPublished, pushed, popped := 0, 0, [], [];
    }

    /** `None` is the null pointer; `threw` the logic error of a second reservation. */
    method TryReservePush(loaded: nat) returns (slot: Option<nat>, threw: bool)
      requires Valid() && LoadOk(Value(), TryReserve(loaded))
      modifies this
      ensures Valid() && Value() == Next(old(Value()), TryReserve(loaded))
      ensures threw == old(producerHasReservation)
      ensures !threw ==> slot.Some? == producerHasReservation
      ensures slot.Some? ==> slot.value == producerWritePosition % storage.Length
    {
      CallKeeps(Value(), TryReserve(loaded));
      if producerHasReservation { return None, true; }
      seenReleased := loaded;
      if producerWritePosition - loaded >= storage.Length { return None, false; }
      producerHasReservation := true;
      return Some(producerWritePosition % storage.Length), false;
    }

    /** The producer's direct write into its reserved slot. */
    method Write(slot: nat, value: T)
      requires Valid() && producerHasReservation && slot == producerWritePosition % storage.Length
      modifies storage
      ensures Valid() && Value() == Next(old(Value()), WriteSlot(value))
    {
      CallKeeps(Value(), WriteSlot(value));
      ghost var next := Next(Value(), WriteSlot(value));
      storage[slot] := value;
      assert storage[..] == next.slots;
    }

    method PublishPush() returns (threw: bool)
      requires Valid()
      modifies this
      ensures Valid() && Value() == Next(old(Value()), Publish) && threw == !old(producerHasReservation)
    {
      CallKeeps(Value(), Call<T>.Publish);
      if !producerHasReservation { return true; }
      pushed := pushed + [storage[producerWritePosition % storage.Length]];
      producerHasReservation := false;
      producerWritePosition := producerWritePosition + 1;
      publishedWritePosition := producerWritePosition;
      return false;
    }

    method Cancel() returns (threw: bool)
      requires Valid()
      modifies this
      ensures Valid() && Value() == Next(old(Value()), CancelPush) && threw == !old(producerHasReservation)
    {
      CallKeeps(Value(), Call<T>.CancelPush);
      if !producerHasReservation { return true; }
      producerHasReservation := false;
      return false;
    }

    /** The value is the oldest one published and not yet popped. */
    method TryBeginPop(loaded: nat) returns (value: Option<T>, threw: bool)
      requires Valid() && LoadOk(Value(), TryBegin(loaded))
      modifies this
      ensures Valid() && Value() == Next(old(Value()), TryBegin(loaded))
      ensures threw == old(consumerHasValue)
      ensures !threw ==> value.Some? == consumerHasValue
      ensures value.Some? ==> |popped| < |pushed| && value.value == pushed[|popped|]
    {
      CallKeeps(Value(), TryBegin(loaded));
      if consumerHasValue { return None, true; }
      seenPublished := loaded;
      if consumerReadPosition == loaded { return None, false; }
      consumerHasValue := true;
      return Some(storage[consumerReadPosition % storage.Length]), false;
    }

    method FinishPopped() returns (threw: bool)
      requires Valid()
      modifies this
      ensures Valid() && Value() == Next(old(Value()), FinishPop) && threw == !old(consumerHasValue)
    {
      CallKeeps(Value(), Call<T>.FinishPop);
      if !consumerHasValue { return true; }
      popped := popped + [storage[consumerReadPosition % storage.Length]];
      consumerHasValue := false;
      consumerReadPosition := consumerReadPosition + 1;
      releasedReadPosition := consumerReadPosition;
      return false;
    }
  }
}
