/** The objects the terminal creates and calls but whose code is not part of this
    model: Session, Channel and AccessControlEnforcer, reduced to the state the
    terminal reads and the effects it relies on. */
module Collaborators {
  import opened Errors
  import opened Apdu

  /** A logical channel. Its fields are only recorded, never read back by the terminal. */
  class Channel {
    ghost const session: Session?
    ghost const number: int
    ghost const selectResponse: Option<seq<byte>>
    ghost var hasSelectedAid: bool
    ghost var selectedAid: Option<seq<byte>>

    constructor (session: Session?, number: int, selectResponse: Option<seq<byte>>)
      ensures this.session == session && this.number == number
      ensures this.selectResponse == selectResponse
      ensures !hasSelectedAid && selectedAid == None
    {
      this.session := session;
      this.number := number;
      this.selectResponse := selectResponse;
      hasSelectedAid := false;
      selectedAid := None;
    }

    method HasSelectedAid(has: bool, aid: Option<seq<byte>>)
      modifies this
      ensures hasSelectedAid == has && selectedAid == aid
    {
      hasSelectedAid := has;
      selectedAid := aid;
    }
  }

  /** A client session. `closed` and `basicChannel` are what `isClosed` and
      `getBasicChannel` answer; `closeFault` is what closing its channels reports. */
  class Session {
    var closed: bool
    var basicChannel: Channel?
    const closeFault: Option<Fault>

    constructor (closeFault: Option<Fault>)
      ensures !closed && basicChannel == null && this.closeFault == closeFault
    {
      closed := false;
      basicChannel := null;
      this.closeFault := closeFault;
    }

    /** The session keeps the basic channel it opened through the terminal. */
    method SetBasicChannel(c: Channel?)
      modifies this`basicChannel
      ensures basicChannel == c
    {
      basicChannel := c;
    }

    /** Closes every channel; an error already in the slot is kept, otherwise the
        session's own close fault is recorded. */
    method CloseChannels(error: Option<Fault>) returns (error': Option<Fault>)
      modifies this`basicChannel
      ensures basicChannel == null
      ensures error' == if error.Some? then error else closeFault
    {
      basicChannel := null;
      error' := if error.Some? then error else closeFault;
    }

    method SetClosed()
      modifies this`closed
      ensures closed
    {
      closed := true;
    }
  }

  /** What the enforcer's `initialize` produces: its boolean result, or an exception. */
  datatype InitAnswer = Initialized(success: bool) | InitThrows

  /** The access-control enforcer, counting the calls the terminal makes on it. */
  class Enforcer {
    ghost var resets: nat
    ghost var initializations: nat

    constructor ()
      ensures resets == 0 && initializations == 0
    {
      resets := 0;
      initializations := 0;
    }

    method Reset()
      modifies this
      ensures resets == old(resets) + 1 && initializations == old(initializations)
    {
      resets := resets + 1;
    }

    /** `initialize(true, callback)`; its answer is supplied by the caller. */
    method Initialize(answer: InitAnswer) returns (r: InitAnswer)
      modifies this
      ensures r == answer
      ensures resets == old(resets) && initializations == old(initializations) + 1
    {
      initializations := initializations + 1;
      r := answer;
    }
  }
}
