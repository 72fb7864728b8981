/** The three host threads of a live run (RTL worker, GPU worker, coordinator) as one
    interleaved transition system over their shared accesses: src/app/live_coordinator.cpp,
    src/verilator/verilator_worker.cpp, src/gpu/gpu_worker.cpp, src/gpu/model_update_mailbox.cpp. */
module HostProtocol {
  import opened MarketTypes
  import opened ModelMailbox
  import Strategy

  /** The RTL worker: streaming, then the take / closed? / has-update? loop. */
  datatype RtlPc = Streaming | AtTake | AtClosed | AtHas | RtlExited

  /** One pass of the GPU worker's loop. */
  datatype GpuPc = AtPoll | AtPop | AtComplete | AtEmpty(sawComplete: bool) | GpuExited

  datatype CoordinatorPc = AwaitDrained | SignalComplete | JoinGpu | CloseMailbox | JoinRtl | Done

  datatype State = State(
    total: nat, produced: nat, consumed: nat,
    rtl: RtlPc, gpu: GpuPc, coordinator: CoordinatorPc,
    drained: bool, inputComplete: bool, box: Box,
    initial: ModelUpdate, active: ModelUpdate, nextVersion: U64, inFlight: bool,
    threw: bool, published: seq<ModelUpdate>, taken: seq<ModelUpdate>)

  function Start(total: nat, initial: ModelUpdate): State
    requires initial.version + 1 < 0x1_0000_0000_0000_0000
  {
    State(total, 0, 0, Streaming, AtPoll, AwaitDrained, false, false, Box(None, false),
          initial, initial, initial.version + 1, false, false, [], [])
  }

  /** One shared access of one thread, with what its environment decides. */
  datatype Action =
    | RtlPublish | RtlStreamTake | RtlDrain | RtlTake | RtlReadClosed | RtlReadHas
    | GpuPoll(finished: Option<Strategy.Bank>) | GpuPop(sees: bool, submits: bool)
    | GpuReadComplete | GpuReadEmpty(loaded: nat)
    | CoordinatorStep

  /** `take`, validate against the active version, upload. */
  function TakeAndApply(s: State): State {
    if s.box.latest.None? then s
    else
      var u := s.box.latest.value;
      var t := s.(box := s.box.(latest := None), taken := s.taken + [u]);
      if Validate(u, s.active.version).Some? then t.(threw := true) else t.(active := u)
  }

  /** A finished device update is published under the version it was submitted with. */
  function PublishUpdate(s: State, bank: Strategy.Bank): State {
    var u := ModelUpdate(s.nextVersion, bank);
    if PublishRefusal(s.box, u).Some? then s.(threw := true)
    else s.(box := s.box.(latest := Some(u)), published := s.published + [u], inFlight := false,
            nextVersion := (s.nextVersion + 1) % 0x1_0000_0000_0000_0000)
  }

  function Next(s: State, a: Action): State {
    match a
    case RtlPublish => s.(produced := s.produced + 1)
    case RtlStreamTake => TakeAndApply(s)
    case RtlDrain => s.(drained := true, rtl := AtTake)
    case RtlTake => TakeAndApply(s).(rtl := AtClosed)
    case RtlReadClosed => s.(rtl := if s.box.closed then AtHas else AtTake)
    case RtlReadHas => s.(rtl := if s.box.latest.Some? then AtTake else RtlExited)
    case GpuPoll(finished) =>
      (if s.inFlight && finished.Some? then PublishUpdate(s, finished.value) else s).(gpu := AtPop)
    case GpuPop(sees, submits) =>
      if s.inFlight || !sees || s.consumed == s.produced then s.(gpu := AtComplete)
      else s.(consumed := s.consumed + 1, inFlight := submits, gpu := AtComplete)
    case GpuReadComplete => s.(gpu := AtEmpty(s.inputComplete))
    case GpuReadEmpty(loaded) =>
      s.(gpu := if s.gpu.AtEmpty? && s.gpu.sawComplete && s.consumed == loaded && !s.inFlight then GpuExited else AtPoll)
    case CoordinatorStep =>
      match s.coordinator
      case AwaitDrained => if s.drained then s.(coordinator := SignalComplete) else s
      case SignalComplete => s.(inputComplete := true, coordinator := JoinGpu)
      case JoinGpu => if s.gpu.GpuExited? then s.(coordinator := CloseMailbox) else s
      case CloseMailbox => s.(box := s.box.(closed := true), coordinator := JoinRtl)
      case JoinRtl => if s.rtl.RtlExited? then s.(coordinator := Done) else s
      case Done => s
  }

  /** When a thread can take the step: its own program counter, results left to stream,
      banks with ordered thresholds from the device, current loads. */
  predicate Enabled(s: State, a: Action) {
    match a
    case RtlPublish => s.rtl == Streaming && s.produced < s.total
    case RtlStreamTake => s.rtl == Streaming
    case RtlDrain => s.rtl == Streaming && s.produced == s.total
    case RtlTake => s.rtl == AtTake
    case RtlReadClosed => s.rtl == AtClosed
    case RtlReadHas => s.rtl == AtHas
    case GpuPoll(finished) => s.gpu == AtPoll && (finished.Some? ==> finished.value.buy > finished.value.sell)
    case GpuPop(_, _) => s.gpu == AtPop
    case GpuReadComplete => s.gpu == AtComplete
    case GpuReadEmpty(loaded) => s.gpu.AtEmpty? && loaded == s.produced
    case CoordinatorStep => true
  }

  function Run(s: State, actions: seq<Action>): State
    decreases |actions|
  {
    if |actions| == 0 then s else Run(Next(s, actions[0]), actions[1..])
  }

  /** Every action is one its thread can take, and versions have room to grow. */
  predicate Legal(s: State, actions: seq<Action>)
    decreases |actions|
  {
    |actions| > 0 ==>
      && Enabled(s, actions[0]) && s.nextVersion + 1 < 0x1_0000_0000_0000_0000
      && Legal(Next(s, actions[0]), actions[1..])
  }

  // ---------- The invariant ----------

  ghost predicate Increasing(us: seq<ModelUpdate>) {
    forall i, j | 0 <= i < j < |us| :: us[i].version < us[j].version
  }

  function LastOr(us: seq<ModelUpdate>, default: ModelUpdate): ModelUpdate {
    if |us| == 0 then default else us[|us| - 1]
  }

  /** Versions: what was published, what was taken, what waits. */
  ghost predicate VersionsOk(s: State) {
    && Increasing(s.published) && Increasing(s.taken)
    && s.active == LastOr(s.taken, s.initial)
    && s.initial.version <= s.active.version < s.nextVersion
    && (forall k | 0 <= k < |s.published| :: s.initial.version < s.published[k].version < s.nextVersion)
    && (forall k | 0 <= k < |s.taken| :: s.taken[k] in s.published)
    && (if s.box.latest.Some? then
          && |s.published| > 0 && s.box.latest.value == s.published[|s.published| - 1]
          && s.active.version < s.box.latest.value.version && s.box.latest.value.bank.buy > s.box.latest.value.bank.sell
        else s.active == LastOr(s.published, s.initial))
  }

  /** Shutdown ordering: who may have passed which point. */
  ghost predicate OrderOk(s: State) {
    && s.consumed <= s.produced <= s.total
    && (s.drained <==> s.rtl != Streaming) && (s.drained ==> s.produced == s.total)
    && (s.coordinator != AwaitDrained ==> s.drained)
    && (s.inputComplete <==> s.coordinator != AwaitDrained && s.coordinator != SignalComplete)
    && (s.box.closed <==> s.coordinator == JoinRtl || s.coordinator == Done)
    && (s.coordinator == CloseMailbox || s.box.closed ==> s.gpu.GpuExited?)
    && (s.gpu.AtEmpty? && s.gpu.sawComplete ==> s.inputComplete)
    && (s.gpu.GpuExited? ==> s.inputComplete && s.consumed == s.total && !s.inFlight)
    && (s.rtl == AtHas ==> s.box.closed)
    && (s.rtl.RtlExited? ==> s.box.closed && s.box.latest.None?)
    && (s.coordinator == Done ==> s.rtl.RtlExited?)
  }

  ghost predicate HostOk(s: State) {
    !s.threw && VersionsOk(s) && OrderOk(s)
  }

  lemma {:induction false} StartOk(total: nat, initial: ModelUpdate)
    requires initial.version + 1 < 0x1_0000_0000_0000_0000
    ensures HostOk(Start(total, initial))
  {
  }

  /** A waiting update always passes validation when taken. */
  lemma {:induction false} TakeKeeps(s: State)
    requires VersionsOk(s) && !s.threw
    ensures VersionsOk(TakeAndApply(s)) && !TakeAndApply(s).threw && TakeAndApply(s).box.latest.None?
  {
    if s.box.latest.Some? {
      var t := TakeAndApply(s);
      forall i, j | 0 <= i < j < |t.taken| ensures t.taken[i].version < t.taken[j].version {
        if j == |s.taken| && i < |s.taken| - 1 {
          assert s.taken[i].version < s.taken[|s.taken| - 1].version;
        }
      }
    }
  }

  lemma {:induction false} IncreasingAppend(us: seq<ModelUpdate>, u: ModelUpdate)
    requires Increasing(us) && forall k | 0 <= k < |us| :: us[k].version < u.version
    ensures Increasing(us + [u])
  {
  }

  /** A finished update is never refused by an open mailbox. */
  lemma {:induction false} PublishKeeps(s: State, bank: Strategy.Bank)
    requires VersionsOk(s) && !s.threw && !s.box.closed && bank.buy > bank.sell
    requires s.nextVersion + 1 < 0x1_0000_0000_0000_0000 && s.nextVersion > 0
    ensures VersionsOk(PublishUpdate(s, bank)) && !PublishUpdate(s, bank).threw
  {
    var t := PublishUpdate(s, bank);
    IncreasingAppend(s.published, ModelUpdate(s.nextVersion, bank));
    assert t.published == s.published + [ModelUpdate(s.nextVersion, bank)];
    forall k | 0 <= k < |t.taken| ensures t.taken[k] in t.published {
      assert t.taken[k] in s.published;
    }
  }

  /** Steps that touch no version carry the version invariant. */
  lemma {:induction false} VersionsCarry(s: State, t: State)
    requires VersionsOk(s)
    requires t.published == s.published && t.taken == s.taken && t.active == s.active && t.initial == s.initial
    requires t.nextVersion == s.nextVersion && t.box.latest == s.box.latest
    ensures VersionsOk(t)
  {
  }

  lemma {:induction false} StepKeepsVersions(s: State, a: Action)
    requires HostOk(s) && Enabled(s, a) && s.nextVersion + 1 < 0x1_0000_0000_0000_0000
    ensures VersionsOk(Next(s, a)) && !Next(s, a).threw
  {
    match a
    case RtlStreamTake => TakeKeeps(s);
    case RtlTake =>
      TakeKeeps(s);
      VersionsCarry(TakeAndApply(s), Next(s, a));
    case GpuPoll(finished) =>
      if s.inFlight && finished.Some? {
        PublishKeeps(s, finished.value);
        VersionsCarry(PublishUpdate(s, finished.value), Next(s, a));
      } else {
        VersionsCarry(s, Next(s, a));
      }
    case _ => VersionsCarry(s, Next(s, a));
  }

  lemma {:induction false} RtlKeepsOrder(s: State, a: Action)
    requires OrderOk(s) && Enabled(s, a)
    requires a.RtlPublish? || a.RtlStreamTake? || a.RtlDrain? || a.RtlTake? || a.RtlReadClosed? || a.RtlReadHas?
    ensures OrderOk(Next(s, a))
  {
  }

  lemma {:induction false} GpuKeepsOrder(s: State, a: Action)
    requires OrderOk(s) && Enabled(s, a)
    requires a.GpuPoll? || a.GpuPop? || a.GpuReadComplete? || a.GpuReadEmpty?
    ensures OrderOk(Next(s, a))
  {
  }

  lemma {:induction false} CoordinatorKeepsOrder(s: State)
    requires OrderOk(s)
    ensures OrderOk(Next(s, CoordinatorStep))
  {
  }

  lemma {:induction false} StepKeepsOrder(s: State, a: Action)
    requires OrderOk(s) && Enabled(s, a)
    ensures OrderOk(Next(s, a))
  {
    if a.CoordinatorStep? {
      CoordinatorKeepsOrder(s);
    } else if a.GpuPoll? || a.GpuPop? || a.GpuReadComplete? || a.GpuReadEmpty? {
      GpuKeepsOrder(s, a);
    } else {
      RtlKeepsOrder(s, a);
    }
  }

  lemma {:induction false} StepKeeps(s: State, a: Action)
    requires HostOk(s) && Enabled(s, a) && s.nextVersion + 1 < 0x1_0000_0000_0000_0000
    ensures HostOk(Next(s, a))
  {
    StepKeepsVersions(s, a);
    StepKeepsOrder(s, a);
  }

  lemma {:induction false} RunKeeps(s: State, actions: seq<Action>)
    requires HostOk(s) && Legal(s, actions)
    ensures HostOk(Run(s, actions))
    decreases |actions|
  {
    if |actions| > 0 {
      StepKeeps(s, actions[0]);
      RunKeeps(Next(s, actions[0]), actions[1..]);
    }
  }

  // ---------- What a finished run guarantees ----------

  ghost predicate AppliedOrSuperseded(s: State, u: ModelUpdate) {
    u in s.taken || exists k | 0 <= k < |s.taken| :: s.taken[k].version > u.version
  }

  lemma {:induction false} NothingLost(s: State, u: ModelUpdate)
    requires VersionsOk(s) && s.box.latest.None? && u in s.published
    ensures AppliedOrSuperseded(s, u)
  {
    var i :| 0 <= i < |s.published| && s.published[i] == u;
    var last := |s.published| - 1;
    assert s.initial.version < s.published[last].version;
    assert s.active == s.published[last];
    assert |s.taken| > 0 && s.taken[|s.taken| - 1] == s.published[last];
  }

  /** In every run in which no thread throws for outside reasons: nothing throws inside,
      every streamed result is consumed, the mailbox ends empty, every published update
      was applied or superseded by a newer one, and the active model is the last published. */
  lemma {:induction false} NoLostFinalModel(total: nat, initial: ModelUpdate, actions: seq<Action>)
    requires initial.version + 1 < 0x1_0000_0000_0000_0000
    requires Legal(Start(total, initial), actions)
    ensures var s := Run(Start(total, initial), actions);
      && !s.threw && Increasing(s.taken)
      && (s.box.closed ==> s.gpu.GpuExited? && s.consumed == total)
      && (s.coordinator == Done ==>
            && s.produced == s.consumed == total && s.box.latest.None?
            && s.active == LastOr(s.published, initial)
            && forall u | u in s.published :: AppliedOrSuperseded(s, u))
  {
    var s := Run(Start(total, initial), actions);
    StartOk(total, initial);
    RunKeeps(Start(total, initial), actions);
    RunFixed(Start(total, initial), actions);
    if s.coordinator == Done {
      forall u | u in s.published ensures AppliedOrSuperseded(s, u) {
        NothingLost(s, u);
      }
    }
  }

  lemma {:induction false} StepFixed(s: State, a: Action)
    ensures Next(s, a).initial == s.initial && Next(s, a).total == s.total
  {
  }

  lemma {:induction false} RunFixed(s: State, actions: seq<Action>)
    ensures Run(s, actions).initial == s.initial && Run(s, actions).total == s.total
    decreases |actions|
  {
    if |actions| > 0 {
      StepFixed(s, actions[0]);
      RunFixed(Next(s, actions[0]), actions[1..]);
    }
  }

  /** Nothing is published once the mailbox is closed. */
  lemma {:induction false} NoPublishAfterClose(s: State, a: Action)
    requires HostOk(s) && Enabled(s, a) && s.box.closed
    ensures Next(s, a).published == s.published
  {
  }

  /** The current load in the GPU worker's emptiness test is needed: after the completion
      flag, a stale write position makes it leave with a result unread. */
  lemma {:induction false} StaleEmptinessLosesResults(s: State, loaded: nat)
    requires HostOk(s) && s.gpu == AtEmpty(true) && !s.inFlight && s.consumed <= loaded <= s.produced
    ensures Next(s, GpuReadEmpty(loaded)).gpu.GpuExited? && s.consumed < s.total <==>
            loaded == s.consumed && loaded < s.produced
  {
  }
}
