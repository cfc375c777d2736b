/** The `Terminal` class of Terminal.java: APDU transmission with response chaining,
    the basic channel, the session registry, the access-control enforcer slot, and
    the `SmartcardServiceReader` facade that hands out sessions. */
module Terminals {
  import opened Errors
  import opened Apdu
  import opened Card
  import opened Transmission
  import opened Collaborators
  import opened Registry

  /** `new byte[aid.length + 6]`, filled by indexed writes and `System.arraycopy`;
      the last byte keeps the zero of a fresh Java array and is the Le field. */
  method NewSelectCommand(aid: seq<byte>) returns (c: array<byte>)
    ensures fresh(c) && c[..] == SelectApdu(aid)
  {
    c := new byte[|aid| + 6](_ => 0x00);
    c[0] := 0x00;
    c[1] := INS_SELECT;
    c[2] := 0x04;
    c[3] := 0x00;
    c[4] := LengthByte(|aid|);
    var i := 0;
    while i < |aid|
      invariant 0 <= i <= |aid|
      invariant c[..5] == [0x00, INS_SELECT, 0x04, 0x00, LengthByte(|aid|)]
      invariant c[5..5 + i] == aid[..i]
      invariant c[|aid| + 5] == 0x00
    {
      c[5 + i] := aid[i];
      i := i + 1;
    }
    assert c[..] == c[..5] + c[5..|aid| + 5] + [c[|aid| + 5]];
  }

  /** The five-byte `00 A4 04 00 00` that re-selects the default application. */
  method NewDefaultSelectCommand() returns (c: array<byte>)
    ensures fresh(c) && c[..] == DefaultSelectApdu()
  {
    c := new byte[5](_ => 0x00);
    c[0] := 0x00;
    c[1] := INS_SELECT;
    c[2] := 0x04;
    c[3] := 0x00;
    c[4] := 0x00;
  }

  /** What the enforcer's `setUpChannelAccess` grants, reduced to yes or no. */
  datatype ChannelAccess = ChannelAccess(granted: bool)

  class Terminal {
    const name: string
    /** `mTerminalService`. */
    const transport: Transport
    /** `AccessControlEnforcer.getDefaultAccessControlAid()`, a constant of the enforcer. */
    const defaultAccessControlAid: seq<byte>
    /** `mSessions`. */
    var sessions: seq<Session>
    /** `mDefaultApplicationSelectedOnBasicChannel`. */
    var defaultApplicationSelected: bool
    /** `mAccessControlEnforcer`: the single, lazily created enforcer slot. */
    var enforcer: Enforcer?

    /** The registry never tracks a session twice. */
    ghost predicate Valid()
      reads this
    {
      Distinct(sessions)
    }

    constructor (name: string, transport: Transport, defaultAccessControlAid: seq<byte>)
      ensures Valid()
      ensures this.name == name && this.transport == transport
      ensures this.defaultAccessControlAid == defaultAccessControlAid
      ensures sessions == [] && defaultApplicationSelected && enforcer == null
    {
      this.name := name;
      this.transport := transport;
      this.defaultAccessControlAid := defaultAccessControlAid;
      sessions := [];
      defaultApplicationSelected := true;
      enforcer := null;
    }

    /** `transmit`: sends `cmd`, follows `6Cxx` with one retry and `61xx` with GET
        RESPONSE, then checks length and status word. */
    method Transmit(cmd: array<byte>, minRspLength: int, swExpected: bv32, swMask: bv32)
      returns (r: Result<Option<seq<byte>>>)
      modifies cmd, transport`replies, transport`sent
      ensures var run := TransmitRun(old(cmd[..]), old(transport.replies), minRspLength, swExpected, swMask);
        && r == run.out
        && transport.replies == run.rest
        && transport.sent == old(transport.sent) + run.sent
        && cmd[..] == run.command
    {
      ghost var cmd0 := cmd[..];
      ghost var sent0 := transport.sent;
      var first := transport.Exchange(cmd[..]);
      var rsp: Option<seq<byte>>;
      match first
      case TransportFailure(nse) =>
        return Err(Remote(nse));
      case NullResponse =>
        return Err(NullPointer);
      case Response(d) =>
        rsp := Some(d);
        if |d| >= 2 {
          var sw1 := d[|d| - 2];
          if sw1 == SW1_WRONG_LENGTH {
            if cmd.Length == 0 {
              return Err(IndexOutOfBounds);
            }
            cmd[cmd.Length - 1] := d[|d| - 1];
            assert cmd[..] == cmd0[..|cmd0| - 1] + [Sw2(d)];
            var second := transport.Exchange(cmd[..]);
            assert transport.sent == sent0 + [cmd0, cmd[..]];
            match second
            case TransportFailure(nse) =>
              return Err(Remote(nse));
            case NullResponse =>
              rsp := None;
            case Response(d2) =>
              rsp := Some(d2);
          } else if sw1 == SW1_MORE_DATA {
            if cmd.Length == 0 {
              return Err(IndexOutOfBounds);
            }
            var chained := GetResponses(cmd[0], d);
            if chained.Err? {
              return Err(chained.fault);
            }
            rsp := Some(chained.value);
          }
        }
      r := CheckResponse(rsp, minRspLength, swExpected, swMask);
    }

    /** The GET RESPONSE loop of `transmit` (lines 466-482) after a first reply `first`
        ending in `61xx`: one `getResponseCmd` array whose Le byte is overwritten before
        every exchange. */
    method GetResponses(cla: byte, first: seq<byte>) returns (r: Result<seq<byte>>)
      requires MoreData(first)
      modifies transport`replies, transport`sent
      ensures var c := GetResponseChain(cla, Sw2(first), first[..|first| - 2], old(transport.replies));
        && r == c.out
        && transport.replies == c.rest
        && transport.sent == old(transport.sent) + c.sent
    {
      var getResponseCmd := new byte[5](_ => 0x00);
      getResponseCmd[0], getResponseCmd[1] := cla, INS_GET_RESPONSE;
      assert getResponseCmd[..4] == [cla, INS_GET_RESPONSE, 0x00, 0x00];
      var response := first[..|first| - 2];
      var last := first;
      ghost var target := GetResponseChain(cla, Sw2(first), response, transport.replies);
      ghost var sentInLoop: seq<seq<byte>> := [];
      assert sentInLoop + target.sent == target.sent;
      while true
        invariant fresh(getResponseCmd) && getResponseCmd.Length == 5
        invariant getResponseCmd[..4] == [cla, INS_GET_RESPONSE, 0x00, 0x00]
        invariant MoreData(last)
        invariant transport.sent == old(transport.sent) + sentInLoop
        invariant target == After(sentInLoop, GetResponseChain(cla, Sw2(last), response, transport.replies))
        decreases |transport.replies|
      {
        var gr := GetResponseApdu(cla, Sw2(last));
        ghost var replies := transport.replies;
        var next := SendGetResponse(getResponseCmd, cla, last[|last| - 1]);
        if next.Response? && MoreData(next.data) {
          var d := next.data;
          ChainAdvance(target, sentInLoop, cla, Sw2(last), response, replies, d);
          response := AppendResponse(response, d, |d| - 2);
          last := d;
          sentInLoop := sentInLoop + [gr];
        } else {
          ChainFinish(target, sentInLoop, cla, Sw2(last), response, replies);
          match next
          case TransportFailure(nse) =>
            return Err(Remote(nse));
          case NullResponse =>
            return Err(NullPointer);
          case Response(d) =>
            response := AppendResponse(response, d, |d|);
            break;
        }
      }
      r := Ok(response);
    }

    /** One turn of the loop: `getResponseCmd[4] = rsp[rsp.length - 1]`, then the
        array, now the GET RESPONSE for `le` bytes, is sent. */
    method SendGetResponse(getResponseCmd: array<byte>, cla: byte, le: byte) returns (next: Reply)
      requires getResponseCmd.Length == 5
      requires getResponseCmd[..4] == [cla, INS_GET_RESPONSE, 0x00, 0x00]
      modifies getResponseCmd, transport`replies, transport`sent
      ensures getResponseCmd[..4] == old(getResponseCmd[..4])
      ensures getResponseCmd[..] == GetResponseApdu(cla, le)
      ensures next == NextReply(old(transport.replies))
      ensures transport.replies == Remaining(old(transport.replies))
      ensures transport.sent == old(transport.sent) + [GetResponseApdu(cla, le)]
    {
      getResponseCmd[4] := le;
      assert getResponseCmd[..] == getResponseCmd[..4] + [le];
      next := transport.Exchange(getResponseCmd[..]);
    }

    /** `getBasicChannel`: the basic channel of the first tracked session that has one. */
    method GetBasicChannel() returns (c: Channel?)
      ensures c == null <==> NoBasicChannel(sessions)
      ensures c != null ==> exists i :: 0 <= i < |sessions| && sessions[i].basicChannel == c
                              && forall j :: 0 <= j < i ==> sessions[j].basicChannel == null
    {
      var i := 0;
      while i < |sessions|
        invariant 0 <= i <= |sessions|
        invariant forall j :: 0 <= j < i ==> sessions[j].basicChannel == null
      {
        if sessions[i].basicChannel != null {
          return sessions[i].basicChannel;
        }
        i := i + 1;
      }
      return null;
    }

    /** `openBasicChannel`: channel 0 for `session`, either on the default application
        or after a SELECT of `aid`. `callback` says whether a callback was passed. */
    method OpenBasicChannel(session: Session?, aid: Option<seq<byte>>, callback: bool)
      returns (r: Result<Channel>)
      modifies this`defaultApplicationSelected, transport`replies, transport`sent
      ensures !callback ==> r == Err(NullPointer) && unchanged(this, transport)
      ensures callback && !old(NoBasicChannel(sessions)) ==>
                r == Err(BasicChannelInUse) && unchanged(this, transport)
      ensures callback && old(NoBasicChannel(sessions)) && aid.None? ==>
                && unchanged(this, transport)
                && (!old(defaultApplicationSelected) ==> r == Err(DefaultNotSelected))
                && (old(defaultApplicationSelected) ==>
                      && r.Ok? && fresh(r.value) && r.value.session == session && r.value.number == 0
                      && r.value.selectResponse == None
                      && !r.value.hasSelectedAid && r.value.selectedAid == None)
      ensures callback && old(NoBasicChannel(sessions)) && aid.Some? ==>
                var run := TransmitRun(SelectApdu(aid.value), old(transport.replies), 2, 0x9000, 0xFFFF);
                && transport.replies == run.rest
                && transport.sent == old(transport.sent) + run.sent
                && (run.out.Err? ==>
                      r == Err(NotFound) && defaultApplicationSelected == old(defaultApplicationSelected))
                && (run.out.Ok? ==>
                      && r.Ok? && fresh(r.value) && r.value.session == session && r.value.number == 0
                      && r.value.selectResponse == run.out.value
                      && r.value.hasSelectedAid && r.value.selectedAid == aid
                      && !defaultApplicationSelected)
    {
      if !callback {
        return Err(NullPointer);
      }
      var inUse := GetBasicChannel();
      if inUse != null {
        return Err(BasicChannelInUse);
      }
      var basicChannel: Channel;
      if aid.None? {
        if !defaultApplicationSelected {
          return Err(DefaultNotSelected);
        }
        basicChannel := new Channel(session, 0, None);
        basicChannel.HasSelectedAid(false, None);
      } else {
        var selectCommand := NewSelectCommand(aid.value);
        var selectResponse := Transmit(selectCommand, 2, 0x9000, 0xFFFF);
        if selectResponse.Err? {
          return Err(NotFound);
        }
        basicChannel := new Channel(session, 0, selectResponse.value);
        basicChannel.HasSelectedAid(true, aid);
        defaultApplicationSelected := false;
      }
      r := Ok(basicChannel);
    }

    /** Basic-channel exclusivity across sessions: once a tracked session keeps the basic
        channel it was given, no session obtains another one. The session recording its
        channel stands for `Session.openBasicChannel`, which is not part of this model. */
    method SecondBasicChannelRefused(holder: Session, other: Session?, aid: Option<seq<byte>>,
                                     otherAid: Option<seq<byte>>)
      returns (first: Result<Channel>, second: Result<Channel>)
      requires holder in sessions
      modifies this`defaultApplicationSelected, transport`replies, transport`sent, holder`basicChannel
      ensures first.Ok? ==> holder.basicChannel == first.value && second == Err(BasicChannelInUse)
    {
      first := OpenBasicChannel(holder, aid, true);
      if first.Ok? {
        holder.SetBasicChannel(first.value);
      }
      second := OpenBasicChannel(other, otherAid, true);
    }

    /** `internalCloseLogicalChannel`: channel 0 is not closed on the card but the default
        application is re-selected, falling back to the access-control application when
        that fails and an enforcer exists; then the terminal service is asked to close. */
    method InternalCloseLogicalChannel(channelNumber: int) returns (o: Outcome)
      modifies transport`replies, transport`sent, transport`closeAnswers, transport`closeRequests
      ensures
        var d := TransmitRun(DefaultSelectApdu(), old(transport.replies), 2, 0x9000, 0xFFFF);
        var fallback := channelNumber == 0 && d.out.Err? && enforcer != null;
        var f := TransmitRun(SelectApdu(defaultAccessControlAid), d.rest, 2, 0x9000, 0xFFFF);
        var aborted := fallback && f.out.Err? && !IsNoSuchElement(f.out.fault);
        && transport.sent == old(transport.sent) + (if channelNumber == 0 then d.sent else [])
                                                 + (if fallback then f.sent else [])
        && transport.replies == (if fallback then f.rest
                                 else if channelNumber == 0 then d.rest
                                 else old(transport.replies))
        && (aborted ==>
              && o == Fail(f.out.fault)
              && transport.closeAnswers == old(transport.closeAnswers)
              && transport.closeRequests == old(transport.closeRequests))
        && (!aborted ==>
              && o == NextClose(old(transport.closeAnswers))
              && transport.closeAnswers == Remaining(old(transport.closeAnswers))
              && transport.closeRequests == old(transport.closeRequests) + [channelNumber])
    {
      if channelNumber == 0 {
        var selectCommand := NewDefaultSelectCommand();
        var selected := Transmit(selectCommand, 2, 0x9000, 0xFFFF);
        if selected.Err? {
          if enforcer != null {
            selectCommand := NewSelectCommand(defaultAccessControlAid);
            var fallback := Transmit(selectCommand, 2, 0x9000, 0xFFFF);
            if fallback.Err? && !IsNoSuchElement(fallback.fault) {
              return Fail(fallback.fault);
            }
          }
        }
      }
      o := transport.CloseLogicalChannel(channelNumber);
    }

    /** `resetAccessControl`: resets the enforcer, if there is one. */
    method ResetAccessControl()
      modifies enforcer
      ensures enforcer != null ==>
                enforcer.resets == old(enforcer.resets) + 1
                && enforcer.initializations == old(enforcer.initializations)
    {
      if enforcer != null {
        enforcer.Reset();
      }
    }

    /** `initializeAccessControl`: with a card present, optionally resets the enforcer,
        creates it if the slot is empty and returns what its `initialize` answers; with
        no card, or when presence cannot be read, returns true and leaves the slot alone. */
    method InitializeAccessControl(reset: bool, answer: InitAnswer) returns (r: Result<bool>)
      modifies this`enforcer, enforcer, transport`presence
      ensures transport.presence == Remaining(old(transport.presence))
      ensures NextPresence(old(transport.presence)) != Present ==>
                r == Ok(true) && enforcer == old(enforcer)
                && (enforcer != null ==> unchanged(enforcer))
      ensures NextPresence(old(transport.presence)) == Present ==>
                && enforcer != null
                && (old(enforcer) != null ==>
                      && enforcer == old(enforcer)
                      && enforcer.resets == old(enforcer.resets) + (if reset then 1 else 0)
                      && enforcer.initializations == old(enforcer.initializations) + 1)
                && (old(enforcer) == null ==>
                      fresh(enforcer) && enforcer.resets == 0 && enforcer.initializations == 1)
                && r == (match answer
                         case Initialized(success) => Ok(success)
                         case InitThrows => Err(EnforcerFailed))
    {
      var result := true;
      var presence := transport.IsCardPresent();
      var isCardPresent := presence == Present;
      if isCardPresent {
        if reset {
          ResetAccessControl();
        }
        if enforcer == null {
          enforcer := new Enforcer();
        }
        var initialized := enforcer.Initialize(answer);
        if initialized.InitThrows? {
          return Err(EnforcerFailed);
        }
        result := result && initialized.success;
      }
      r := Ok(result);
    }

    /** `setUpChannelAccess`, of which only the guard against a missing enforcer is
        modelled; `decision` is what the enforcer would answer. */
    method SetUpChannelAccess(aid: seq<byte>, packageName: string, decision: Result<ChannelAccess>)
      returns (r: Result<ChannelAccess>)
      ensures enforcer == null ==> r == Err(AccessControlNotSetUp)
      ensures enforcer != null ==> r == decision
    {
      if enforcer == null {
        return Err(AccessControlNotSetUp);
      }
      r := decision;
    }

    /** `closeSession`: closes the session's channels and marks it closed unless it
        already is, and always drops it from the registry. The result carries the
        error slot after closing. */
    method CloseSession(session: Session?, error: Option<Fault>) returns (r: Result<Option<Fault>>)
      requires Valid()
      modifies this`sessions, session
      ensures Valid()
      ensures session == null ==> r == Err(NullPointer) && sessions == old(sessions)
      ensures session != null ==>
                && sessions == RemoveFirst(old(sessions), session) && session !in sessions
                && session.closed
                && (old(session.closed) ==> r == Ok(error) && unchanged(session))
                && (!old(session.closed) ==>
                      && session.basicChannel == null
                      && r == Ok(if error.Some? then error else session.closeFault))
    {
      if session == null {
        return Err(NullPointer);
      }
      var slot := error;
      if !session.closed {
        slot := session.CloseChannels(slot);
        session.SetClosed();
      }
      sessions := RemoveFirst(sessions, session);
      r := Ok(slot);
    }

    /** `closeSessions`: closes the first tracked session until none is left. Every
        session tracked at the start ends closed, the registry ends empty, and the error
        slot keeps the first error recorded. */
    method CloseSessions(error: Option<Fault>) returns (error': Option<Fault>)
      requires Valid()
      modifies this`sessions, set s | s in sessions
      ensures Valid() && sessions == []
      ensures forall s :: s in old(sessions) ==> s.closed
      ensures error' == if error.Some? then error else FirstSome(old(CloseFaults(sessions)))
    {
      ghost var tracked := sessions;
      ghost var faults := CloseFaults(sessions);
      ghost var k := 0;
      var slot := error;
      while |sessions| > 0
        invariant 0 <= k <= |tracked| && sessions == tracked[k..]
        invariant Valid()
        invariant faults == old(CloseFaults(sessions))
        invariant forall j :: 0 <= j < k ==> tracked[j].closed
        invariant forall j :: k <= j < |tracked| ==> tracked[j].closed == old(tracked[j].closed)
        invariant slot == if error.Some? then error else FirstSome(faults[..k])
        decreases |sessions|
      {
        var session := sessions[0];
        var closed := CloseSession(session, slot);
        assert sessions == tracked[k + 1..];
        FirstSomeAppend(faults[..k], faults[k]);
        assert faults[..k + 1] == faults[..k] + [faults[k]];
        slot := closed.value;
        k := k + 1;
      }
      assert faults[..k] == faults;
      sessions := [];
      error' := slot;
    }

    /** `onSmartcardServiceShutdown`, of which only the session teardown is modelled;
        its error is swallowed. */
    method OnServiceShutdown()
      requires Valid()
      modifies this`sessions, set s | s in sessions
      ensures Valid() && sessions == []
      ensures forall s :: s in old(sessions) ==> s.closed
    {
      var _ := CloseSessions(None);
    }
  }

  /** `SmartcardServiceReader`, the facade a client uses to reach this terminal. */
  class ServiceReader {
    const terminal: Terminal

    constructor (terminal: Terminal)
      ensures this.terminal == terminal
    {
      this.terminal := terminal;
    }

    /** `isSecureElementPresent`: false, with the error set, when presence cannot be read. */
    method IsSecureElementPresent() returns (present: bool, error: Option<Fault>)
      modifies terminal.transport`presence
      ensures terminal.transport.presence == Remaining(old(terminal.transport.presence))
      ensures var p := NextPresence(old(terminal.transport.presence));
        present == (p == Present) && error == (if p == Unavailable then Some(Remote(false)) else None)
    {
      var p := terminal.transport.IsCardPresent();
      if p == Unavailable {
        return false, Some(Remote(false));
      }
      return p == Present, None;
    }

    /** `openSession`: no session without a card or when access control fails to
        initialise; otherwise exactly one new session is tracked, whatever the
        enforcer's `initialize` answered. Access control is initialised without a reset:
        an existing enforcer is kept and initialised once more, a missing one is created. */
    method OpenSession(answer: InitAnswer, closeFault: Option<Fault>) returns (r: Result<Session>)
      requires terminal.Valid()
      modifies terminal`sessions, terminal`enforcer, terminal.enforcer, terminal.transport`presence
      ensures terminal.Valid()
      ensures var p := NextPresence(old(terminal.transport.presence));
        var p' := NextPresence(Remaining(old(terminal.transport.presence)));
        && (p != Present ==>
              && r == (if p == Absent then Err(NotPresent) else Err(Remote(false)))
              && terminal.sessions == old(terminal.sessions)
              && terminal.enforcer == old(terminal.enforcer)
              && terminal.transport.presence == Remaining(old(terminal.transport.presence)))
        && (p == Present ==>
              && terminal.transport.presence == Remaining(Remaining(old(terminal.transport.presence)))
              && (p' == Present ==> terminal.enforcer != null))
        && (p == Present && p' == Present && old(terminal.enforcer) != null ==>
              && terminal.enforcer == old(terminal.enforcer)
              && terminal.enforcer.resets == old(terminal.enforcer.resets)
              && terminal.enforcer.initializations == old(terminal.enforcer.initializations) + 1)
        && (p == Present && p' == Present && old(terminal.enforcer) == null ==>
              && fresh(terminal.enforcer)
              && terminal.enforcer.resets == 0 && terminal.enforcer.initializations == 1)
        && (!(p == Present && p' == Present) ==>
              && terminal.enforcer == old(terminal.enforcer)
              && (terminal.enforcer != null ==> unchanged(terminal.enforcer)))
        && (p == Present && p' == Present && answer.InitThrows? ==>
              r == Err(EnforcerFailed) && terminal.sessions == old(terminal.sessions))
        && (p == Present && !(p' == Present && answer.InitThrows?) ==>
              && r.Ok? && fresh(r.value)
              && terminal.sessions == old(terminal.sessions) + [r.value]
              && !r.value.closed && r.value.basicChannel == null && r.value.closeFault == closeFault)
    {
      var p := terminal.transport.IsCardPresent();
      if p == Unavailable {
        return Err(Remote(false));
      }
      if p == Absent {
        return Err(NotPresent);
      }
      var initialized := terminal.InitializeAccessControl(false, answer);
      if initialized.Err? {
        return Err(initialized.fault);
      }
      var session := new Session(closeFault);
      AppendDistinct(terminal.sessions, session);
      terminal.sessions := terminal.sessions + [session];
      r := Ok(session);
    }

    /** `closeSessions`: closes every session and fails with the first error recorded. */
    method CloseSessions() returns (o: Outcome)
      requires terminal.Valid()
      modifies terminal`sessions, set s | s in terminal.sessions
      ensures terminal.Valid() && terminal.sessions == []
      ensures forall s :: s in old(terminal.sessions) ==> s.closed
      ensures var f := FirstSome(old(CloseFaults(terminal.sessions)));
        o == if f.Some? then Fail(f.value) else Pass
    {
      var error := terminal.CloseSessions(None);
      if error.Some? {
        return Fail(error.value);
      }
      o := Pass;
    }
  }
}
