/** src/gpu/gpu_protocol.cpp and src/gpu/model_update_mailbox.cpp: the checked model
    replacement and the latest-value mailbox that carries it to the RTL worker. */
module ModelMailbox {
  import opened MarketTypes
  import Strategy

  datatype ModelUpdate = ModelUpdate(version: U64, bank: Strategy.Bank)

  datatype Refusal = StaleVersion | ThresholdsNotOrdered | MailboxClosed | NotNewerThanUnread

  /** `validate_model_update`; `None` means it does not throw. */
  function Validate(u: ModelUpdate, activeVersion: int): Option<Refusal> {
    if u.version <= activeVersion then Some(StaleVersion)
    else if u.bank.buy <= u.bank.sell then Some(ThresholdsNotOrdered)
    else None
  }

  /** Each reason on the raw fields: a stale version comes first. */
  lemma {:induction false} ValidateExactly(u: ModelUpdate, activeVersion: int)
    ensures Validate(u, activeVersion) == None <==> u.version > activeVersion && u.bank.buy > u.bank.sell
    ensures Validate(u, activeVersion) == Some(StaleVersion) <==> u.version <= activeVersion
    ensures Validate(u, activeVersion) == Some(ThresholdsNotOrdered) <==>
            u.version > activeVersion && u.bank.buy <= u.bank.sell
  {
  }

  datatype Box = Box(latest: Option<ModelUpdate>, closed: bool)

  /** What publishing does to a box, or why it throws. */
  function PublishRefusal(b: Box, u: ModelUpdate): Option<Refusal> {
    if Validate(u, 0).Some? then Validate(u, 0)
    else if b.closed then Some(MailboxClosed)
    else if b.latest.Some? && u.version <= b.latest.value.version then Some(NotNewerThanUnread)
    else None
  }

  class Mailbox {
    var latestUpdate: Option<ModelUpdate>
    var isClosed: bool

    ghost function Value(): Box
      reads this
    {
      Box(latestUpdate, isClosed)
    }

    constructor ()
      ensures Value() == Box(None, false)
    {
      latestUpdate, isClosed := None, false;
    }

    method Publish(u: ModelUpdate) returns (refusal: Option<Refusal>)
      modifies this
      ensures refusal == PublishRefusal(old(Value()), u)
      ensures Value() == if refusal.None? then old(Value()).(latest := Some(u)) else old(Value())
      ensures refusal == None <==>
              && u.version > 0 && u.bank.buy > u.bank.sell && !old(isClosed)
              && (old(latestUpdate).Some? ==> u.version > old(latestUpdate).value.version)
      ensures refusal == Some(StaleVersion) <==> u.version == 0
      ensures refusal == Some(ThresholdsNotOrdered) <==> u.version > 0 && u.bank.buy <= u.bank.sell
      ensures refusal == Some(MailboxClosed) <==> u.version > 0 && u.bank.buy > u.bank.sell && old(isClosed)
    {
      refusal := Validate(u, 0);
      if refusal.Some? { return; }
      if isClosed { return Some(MailboxClosed); }
      if latestUpdate.Some? && u.version <= latestUpdate.value.version { return Some(NotNewerThanUnread); }
      latestUpdate := Some(u);
    }

    method Take() returns (u: Option<ModelUpdate>)
      modifies this
      ensures u == old(latestUpdate) && Value() == Box(None, old(isClosed))
    {
      u := latestUpdate;
      latestUpdate := None;
    }

    method Close()
      modifies this
      ensures Value() == old(Value()).(closed := true)
    {
      isClosed := true;
    }
  }
}
