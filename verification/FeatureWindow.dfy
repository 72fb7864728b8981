/** The 64-entry rolling window in its C++ and RTL forms, and the proof that the
    incremental sums are the plain sums of the latest entries. */
module FeatureWindow {
  import opened MarketTypes

  const WINDOW: nat := 64

  /** One event's measurements; also used for the three running sums. */
  datatype Entry = Entry(orderFlow: int, tradeFlow: int, midpointChange: int)

  const ZERO: Entry := Entry(0, 0, 0)

  function Plus(a: Entry, b: Entry): Entry {
    Entry(a.orderFlow + b.orderFlow, a.tradeFlow + b.tradeFlow, a.midpointChange + b.midpointChange)
  }

  function Minus(a: Entry, b: Entry): Entry {
    Entry(a.orderFlow - b.orderFlow, a.tradeFlow - b.tradeFlow, a.midpointChange - b.midpointChange)
  }

  type Slots = s: seq<Entry> | |s| == WINDOW witness seq(WINDOW, _ => ZERO)

  type SlotIndex = i: nat | i < WINDOW

  datatype Window = Window(slots: Slots, next: SlotIndex, size: nat, sums: Entry)

  const EIGHT_ZEROS: seq<Entry> := [ZERO, ZERO, ZERO, ZERO, ZERO, ZERO, ZERO, ZERO]
  const NO_SLOTS: Slots :=
    EIGHT_ZEROS + EIGHT_ZEROS + EIGHT_ZEROS + EIGHT_ZEROS +
    EIGHT_ZEROS + EIGHT_ZEROS + EIGHT_ZEROS + EIGHT_ZEROS
  const EMPTY_WINDOW: Window := Window(NO_SLOTS, 0, 0, ZERO)

  function PushEntry(w: Window, entry: Entry): Window
  {
    var kept := if w.size == WINDOW then Minus(w.sums, w.slots[w.next]) else w.sums;
    Window(w.slots[w.next := entry], (w.next + 1) % WINDOW,
           if w.size == WINDOW then w.size else w.size + 1, Plus(kept, entry))
  }

  // ---------- The plain meaning ----------

  function Sum(entries: seq<Entry>): Entry {
    if |entries| == 0 then ZERO
    else Plus(Sum(entries[..|entries| - 1]), entries[|entries| - 1])
  }

  function Latest(history: seq<Entry>): seq<Entry> {
    if |history| <= WINDOW then history else history[|history| - WINDOW..]
  }

  /** Read from the oldest slot on, the memory is the latest stretch of a history. */
  ghost predicate SlotsHold(w: Window, history: seq<Entry>) {
    && w.size == |Latest(history)|
    && (|history| < WINDOW ==> w.next == |history| && w.slots[..w.next] == history)
    && (|history| >= WINDOW ==> w.slots[w.next..] + w.slots[..w.next] == Latest(history))
  }

  /** The window holds the latest entries of a history, and their plain sums. */
  ghost predicate Holds(w: Window, history: seq<Entry>) {
    SlotsHold(w, history) && w.sums == Sum(Latest(history))
  }

  lemma {:induction false} SumDropFirst(entries: seq<Entry>)
    requires |entries| > 0
    ensures Sum(entries) == Plus(entries[0], Sum(entries[1..]))
    decreases |entries|
  {
    if |entries| == 1 {
      assert Sum(entries[1..]) == ZERO && Sum(entries[..0]) == ZERO;
    } else {
      SumDropFirst(entries[..|entries| - 1]);
      assert entries[..|entries| - 1][1..] == entries[1..][..|entries| - 2];
    }
  }

  lemma {:induction false} NextIndex(w: Window, entry: Entry)
    ensures PushEntry(w, entry).next == if w.next + 1 == WINDOW then 0 else w.next + 1
    ensures PushEntry(w, entry).slots == w.slots[w.next := entry]
    ensures PushEntry(w, entry).size == if w.size == WINDOW then w.size else w.size + 1
  {
  }

  lemma {:induction false} Rotate(slots: Slots, next: SlotIndex, entry: Entry)
    ensures var t := slots[next := entry];
      var from := if next + 1 == WINDOW then 0 else next + 1;
      t[from..] + t[..from] == (slots[next..] + slots[..next])[1..] + [entry]
  {
  }

  lemma {:induction false} PushKeepsSlots(w: Window, history: seq<Entry>, entry: Entry)
    requires SlotsHold(w, history)
    ensures SlotsHold(PushEntry(w, entry), history + [entry])
  {
    NextIndex(w, entry);
    if |history| < WINDOW {
      StoreNext(w.slots, w.next, entry, history);
    } else {
      Rotate(w.slots, w.next, entry);
      LatestSlides(history, entry);
    }
  }

  lemma {:induction false} StoreNext(slots: Slots, next: SlotIndex, entry: Entry, history: seq<Entry>)
    requires slots[..next] == history
    ensures slots[next := entry][..next + 1] == history + [entry]
    ensures var t := slots[next := entry]; t[0..] + t[..0] == t && t[..WINDOW] == t
  {
  }

  lemma {:induction false} LatestSlides(history: seq<Entry>, entry: Entry)
    requires |history| >= WINDOW
    ensures Latest(history + [entry]) == Latest(history)[1..] + [entry]
  {
  }

  lemma {:induction false} LatestGrows(history: seq<Entry>, entry: Entry)
    ensures Sum(Latest(history + [entry])) ==
            if |history| < WINDOW then Plus(Sum(Latest(history)), entry)
            else Plus(Minus(Sum(Latest(history)), history[|history| - WINDOW]), entry)
  {
    var n, more := |history|, history + [entry];
    if n < WINDOW {
      assert Latest(more)[..n] == Latest(history);
    } else {
      SumDropFirst(Latest(history));
      assert Latest(more)[..WINDOW - 1] == Latest(history)[1..];
    }
  }

  lemma {:induction false} PushHolds(w: Window, history: seq<Entry>, entry: Entry)
    requires Holds(w, history)
    ensures Holds(PushEntry(w, entry), history + [entry])
  {
    PushKeepsSlots(w, history, entry);
    LatestGrows(history, entry);
    if |history| >= WINDOW {
      assert w.slots[w.next] == (w.slots[w.next..] + w.slots[..w.next])[0];
    }
  }

  /** After any sequence of pushes. */
  function PushAll(w: Window, entries: seq<Entry>): Window
    decreases |entries|
  {
    if |entries| == 0 then w
    else PushAll(PushEntry(w, entries[0]), entries[1..])
  }

  lemma {:induction false} Regroup(history: seq<Entry>, entries: seq<Entry>)
    requires |entries| > 0
    ensures history + entries == (history + [entries[0]]) + entries[1..]
  {
  }

  lemma {:induction false} PushAllHolds(w: Window, history: seq<Entry>, entries: seq<Entry>, whole: seq<Entry>)
    requires Holds(w, history) && whole == history + entries
    ensures Holds(PushAll(w, entries), whole)
    decreases |entries|
  {
    if |entries| == 0 {
      assert history + [] == history;
    } else {
      Regroup(history, entries);
      PushHolds(w, history, entries[0]);
      PushAllHolds(PushEntry(w, entries[0]), history + [entries[0]], entries[1..], whole);
    }
  }

  lemma {:induction false} EmptyHolds()
    ensures Holds(EMPTY_WINDOW, [])
  {
  }

  /** From the empty window on, the incremental sums are the plain sums. */
  lemma {:induction false} RollingSumsArePlainSums(entries: seq<Entry>)
    ensures Holds(PushAll(EMPTY_WINDOW, entries), entries)
  {
    EmptyHolds();
    PushAllHolds(EMPTY_WINDOW, [], entries, entries);
  }

  // ---------- Bounds of the sums ----------

  /** What one book event can feed the window: quantities and prices fit 32 bits. */
  predicate EntryBounded(entry: Entry) {
    && -U32_MAX <= entry.orderFlow <= U32_MAX
    && -U32_MAX <= entry.tradeFlow <= U32_MAX
    && 0 <= entry.midpointChange <= I32_MAX
  }

  predicate AllBounded(entries: seq<Entry>) {
    forall k | 0 <= k < |entries| :: EntryBounded(entries[k])
  }

  lemma {:induction false} SumBounded(entries: seq<Entry>)
    requires AllBounded(entries)
    ensures var s := Sum(entries);
      && -|entries| * U32_MAX <= s.orderFlow <= |entries| * U32_MAX
      && -|entries| * U32_MAX <= s.tradeFlow <= |entries| * U32_MAX
      && 0 <= s.midpointChange <= |entries| * I32_MAX
    decreases |entries|
  {
    if |entries| > 0 {
      SumBounded(entries[..|entries| - 1]);
    }
  }

  /** With book-produced entries the sums fit 64 bits, and so do the scaled sums the
      features divide. */
  lemma {:induction false} WindowFitsI64(w: Window, history: seq<Entry>)
    requires Holds(w, history) && AllBounded(history)
    ensures -(WINDOW * U32_MAX) <= w.sums.orderFlow <= WINDOW * U32_MAX
    ensures -(WINDOW * U32_MAX) <= w.sums.tradeFlow <= WINDOW * U32_MAX
    ensures 0 <= w.sums.midpointChange <= WINDOW * I32_MAX
    ensures WINDOW * U32_MAX * 0x1_0000 <= I64_MAX
  {
    SumBounded(Latest(history));
    var n := |Latest(history)|;
    assert n * U32_MAX <= WINDOW * U32_MAX && n * I32_MAX <= WINDOW * I32_MAX;
  }

  /** A window some run of bounded pushes can have left. */
  ghost predicate WindowOk(w: Window) {
    exists history: seq<Entry> :: Holds(w, history) && AllBounded(history)
  }

  lemma {:induction false} EmptyOk()
    ensures WindowOk(EMPTY_WINDOW)
  {
    EmptyHolds();
    assert AllBounded([]);
  }

  lemma {:induction false} OkBecause(w: Window, history: seq<Entry>)
    requires Holds(w, history) && AllBounded(history)
    ensures WindowOk(w)
  {
  }

  lemma {:induction false} BoundedAppend(history: seq<Entry>, entry: Entry)
    requires AllBounded(history) && EntryBounded(entry)
    ensures AllBounded(history + [entry])
  {
  }

  lemma {:induction false} PushOk(w: Window, entry: Entry)
    requires WindowOk(w) && EntryBounded(entry)
    ensures WindowOk(PushEntry(w, entry))
  {
    var history: seq<Entry> :| Holds(w, history) && AllBounded(history);
    PushHolds(w, history, entry);
    BoundedAppend(history, entry);
    OkBecause(PushEntry(w, entry), history + [entry]);
  }

  // ---------- The two implementations ----------

  /** The C++ object: subtract the old entry, store the new one, add it. */
  class RollingWindow {
    const entries: array<Entry>
    var next: SlotIndex
    var size: nat
    var orderFlowSum: int
    var tradeFlowSum: int
    var midpointChangeSum: int

    ghost predicate Valid() {
      entries.Length == WINDOW
    }

    ghost function Value(): Window
      requires Valid()
      reads this, entries
    {
      Window(entries[..], next, size, Entry(orderFlowSum, tradeFlowSum, midpointChangeSum))
    }

    constructor ()
      ensures Valid() && fresh(entries) && Value() == EMPTY_WINDOW
    {
      entries := new Entry[WINDOW](_ => ZERO);
      next, size := 0, 0;
      orderFlowSum, tradeFlowSum, midpointChangeSum := 0, 0, 0;
    }

    method Push(orderFlow: int, tradeFlow: int, midpointChange: int)
      requires Valid()
      modifies this, entries
      ensures Valid()
      ensures Value() == PushEntry(old(Value()), Entry(orderFlow, tradeFlow, midpointChange))
    {
      if size == WINDOW {
        var oldest := entries[next];
        orderFlowSum := orderFlowSum - oldest.orderFlow;
        tradeFlowSum := tradeFlowSum - oldest.tradeFlow;
        midpointChangeSum := midpointChangeSum - oldest.midpointChange;
      } else {
        size := size + 1;
      }
      entries[next] := Entry(orderFlow, tradeFlow, midpointChange);
      orderFlowSum := orderFlowSum + orderFlow;
      tradeFlowSum := tradeFlowSum + tradeFlow;
      midpointChangeSum := midpointChangeSum + midpointChange;
      next := (next + 1) % WINDOW;
    }
  }

  /** Three parallel memories read as one. */
  function Zip(a: seq<int>, b: seq<int>, c: seq<int>): seq<Entry>
    requires |a| == |b| == |c|
  {
    seq(|a|, k requires 0 <= k < |a| => Entry(a[k], b[k], c[k]))
  }

  lemma {:induction false} ZeroSlots(k: nat)
    requires k < WINDOW
    ensures NO_SLOTS[k] == ZERO
  {
  }

  lemma {:induction false} ZeroMemories(a: seq<int>, b: seq<int>, c: seq<int>)
    requires |a| == |b| == |c| == WINDOW
    requires forall k | 0 <= k < WINDOW :: a[k] == b[k] == c[k] == 0
    ensures Zip(a, b, c) == NO_SLOTS
  {
    forall k | 0 <= k < WINDOW ensures Zip(a, b, c)[k] == NO_SLOTS[k] {
      ZeroSlots(k);
    }
  }

  /** The RTL module: three memories, a six-bit index, sums updated in one edge. */
  class WindowRegisters {
    const orderFlowEntries: array<int>
    const tradeFlowEntries: array<int>
    const midpointEntries: array<int>
    var nextIndex: SlotIndex
    var size: nat
    var orderFlowSum: int
    var tradeFlowSum: int
    var midpointChangeSum: int

    ghost function Memories(): set<object> {
      {this, orderFlowEntries, tradeFlowEntries, midpointEntries}
    }

    ghost predicate Valid() {
      && orderFlowEntries.Length == tradeFlowEntries.Length == midpointEntries.Length == WINDOW
      && orderFlowEntries != tradeFlowEntries && orderFlowEntries != midpointEntries
      && tradeFlowEntries != midpointEntries
    }

    ghost function Value(): Window
      requires Valid()
      reads Memories()
    {
      Window(Zip(orderFlowEntries[..], tradeFlowEntries[..], midpointEntries[..]),
             nextIndex, size, Entry(orderFlowSum, tradeFlowSum, midpointChangeSum))
    }

    constructor ()
      ensures Valid() && fresh(Memories()) && Value() == EMPTY_WINDOW
    {
      orderFlowEntries := new int[WINDOW](_ => 0);
      tradeFlowEntries := new int[WINDOW](_ => 0);
      midpointEntries := new int[WINDOW](_ => 0);
      nextIndex, size := 0, 0;
      orderFlowSum, tradeFlowSum, midpointChangeSum := 0, 0, 0;
      new;
      ZeroMemories(orderFlowEntries[..], tradeFlowEntries[..], midpointEntries[..]);
    }

    method ClearMemory(memory: array<int>)
      requires memory.Length == WINDOW
      modifies memory
      ensures forall k | 0 <= k < WINDOW :: memory[k] == 0
    {
      for index := 0 to WINDOW
        invariant forall k | 0 <= k < index :: memory[k] == 0
      {
        memory[index] := 0;
      }
    }

    method Reset()
      requires Valid()
      modifies Memories()
      ensures Value() == EMPTY_WINDOW
    {
      nextIndex, size := 0, 0;
      orderFlowSum, tradeFlowSum, midpointChangeSum := 0, 0, 0;
      ClearMemory(orderFlowEntries);
      ClearMemory(tradeFlowEntries);
      ClearMemory(midpointEntries);
      ZeroMemories(orderFlowEntries[..], tradeFlowEntries[..], midpointEntries[..]);
    }

    /** One rising edge. */
    method Clock(rstN: bool, pushValid: bool, orderFlow: int, tradeFlow: int, midpointChange: int)
      requires Valid()
      modifies Memories()
      ensures Valid()
      ensures Value() == if !rstN then EMPTY_WINDOW
                         else if pushValid then PushEntry(old(Value()), Entry(orderFlow, tradeFlow, midpointChange))
                         else old(Value())
    {
      if !rstN {
        Reset();
        return;
      }
      if !pushValid { return; }
      var i := nextIndex;
      if size == WINDOW {
        orderFlowSum := orderFlowSum - orderFlowEntries[i] + orderFlow;
        tradeFlowSum := tradeFlowSum - tradeFlowEntries[i] + tradeFlow;
        midpointChangeSum := midpointChangeSum - midpointEntries[i] + midpointChange;
      } else {
        size := size + 1;
        orderFlowSum := orderFlowSum + orderFlow;
        tradeFlowSum := tradeFlowSum + tradeFlow;
        midpointChangeSum := midpointChangeSum + midpointChange;
      }
      orderFlowEntries[i] := orderFlow;
      tradeFlowEntries[i] := tradeFlow;
      midpointEntries[i] := midpointChange;
      nextIndex := (i + 1) % WINDOW;
    }
  }
}
