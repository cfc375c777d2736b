/** The terminal service behind `mTerminalService`, reduced to a scripted responder:
    each call consumes the next scripted answer and the commands sent are logged.
    An exhausted script answers with a transport failure, so a card that keeps
    replying `61xx` is bounded by the length of its script. */
module Card {
  import opened Errors
  import opened Apdu

  /** What `internalTransmit` produces: a response, `null`, or an exception. */
  datatype Reply =
    | Response(data: seq<byte>)
    | NullResponse
    | TransportFailure(noSuchElement: bool)

  /** What `isCardPresent` produces, `Unavailable` being an exception. */
  datatype Presence = Present | Absent | Unavailable

  function NextReply(replies: seq<Reply>): (r: Reply)
    ensures !r.TransportFailure? ==> |replies| > 0
  {
    if |replies| == 0 then TransportFailure(false) else replies[0]
  }

  function Remaining<T>(script: seq<T>): seq<T> {
    if |script| == 0 then [] else script[1..]
  }

  function NextPresence(answers: seq<Presence>): Presence {
    if |answers| == 0 then Unavailable else answers[0]
  }

  function NextClose(answers: seq<Outcome>): Outcome {
    if |answers| == 0 then Fail(Remote(false)) else answers[0]
  }

  class Transport {
    /** Scripted answers to `internalTransmit`, one consumed per call. */
    var replies: seq<Reply>
    /** Every command handed to `internalTransmit`, in order. */
    var sent: seq<seq<byte>>
    /** Scripted answers to `isCardPresent`. */
    var presence: seq<Presence>
    /** Scripted answers to `internalCloseLogicalChannel`. */
    var closeAnswers: seq<Outcome>
    /** Every channel number handed to `internalCloseLogicalChannel`, in order. */
    var closeRequests: seq<int>

    constructor (replies: seq<Reply>, presence: seq<Presence>, closeAnswers: seq<Outcome>)
      ensures this.replies == replies && this.presence == presence && this.closeAnswers == closeAnswers
      ensures sent == [] && closeRequests == []
    {
      this.replies := replies;
      this.presence := presence;
      this.closeAnswers := closeAnswers;
      sent := [];
      closeRequests := [];
    }

    method Exchange(cmd: seq<byte>) returns (r: Reply)
      modifies this`replies, this`sent
      ensures r == NextReply(old(replies)) && replies == Remaining(old(replies))
      ensures sent == old(sent) + [cmd]
    {
      r := NextReply(replies);
      replies := Remaining(replies);
      sent := sent + [cmd];
    }

    method IsCardPresent() returns (p: Presence)
      modifies this`presence
      ensures p == NextPresence(old(presence)) && presence == Remaining(old(presence))
    {
      p := NextPresence(presence);
      presence := Remaining(presence);
    }

    method CloseLogicalChannel(channelNumber: int) returns (o: Outcome)
      modifies this`closeAnswers, this`closeRequests
      ensures o == NextClose(old(closeAnswers)) && closeAnswers == Remaining(old(closeAnswers))
      ensures closeRequests == old(closeRequests) + [channelNumber]
    {
      o := NextClose(closeAnswers);
      closeAnswers := Remaining(closeAnswers);
      closeRequests := closeRequests + [channelNumber];
    }
  }
}
