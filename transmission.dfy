/** What `Terminal.transmit` (Terminal.java lines 452-504) does, as functions of the
    command and the scripted replies, and the properties of ISO/IEC 7816-4 response
    handling proved about them. */
module Transmission {
  import opened Errors
  import opened Apdu
  import opened Card

  /** The GET RESPONSE loop: its result, the commands it sent, the replies left. */
  datatype Chain = Chain(out: Result<seq<byte>>, sent: seq<seq<byte>>, rest: seq<Reply>)

  /** A whole exchange: the result, the commands sent, the replies left and the
      contents of the caller's command array afterwards. */
  datatype Run = Run(out: Result<Option<seq<byte>>>, sent: seq<seq<byte>>, rest: seq<Reply>,
                     command: seq<byte>)

  /** The `while (true)` loop of lines 471-481: send `CLA C0 00 00 le`, keep the data of a
      `61xx` reply and go on with its SW2, keep any other reply in full and stop. */
  function GetResponseChain(cla: byte, le: byte, acc: seq<byte>, replies: seq<Reply>): Chain
    decreases |replies|
  {
    var cmd := GetResponseApdu(cla, le);
    match NextReply(replies)
    case TransportFailure(nse) => Chain(Err(Remote(nse)), [cmd], Remaining(replies))
    case NullResponse => Chain(Err(NullPointer), [cmd], Remaining(replies))
    case Response(d) =>
      if MoreData(d) then
        var c := GetResponseChain(cla, Sw2(d), AppendResponse(acc, d, |d| - 2), Remaining(replies));
        Chain(c.out, [cmd] + c.sent, c.rest)
      else
        Chain(Ok(AppendResponse(acc, d, |d|)), [cmd], Remaining(replies))
  }

  /** The commands `sent` already sent, then the rest of the loop `c`. */
  function After(sent: seq<seq<byte>>, c: Chain): Chain {
    Chain(c.out, sent + c.sent, c.rest)
  }

  /** One turn of the loop on a `61xx` reply: what is left to do is the loop on the rest
      of the replies with the reply's SW2 as the next Le. */
  lemma ChainAdvance(target: Chain, sent: seq<seq<byte>>, cla: byte, le: byte, acc: seq<byte>,
                     replies: seq<Reply>, d: seq<byte>)
    requires target == After(sent, GetResponseChain(cla, le, acc, replies))
    requires NextReply(replies) == Response(d) && MoreData(d)
    ensures target == After(sent + [GetResponseApdu(cla, le)],
                            GetResponseChain(cla, Sw2(d), AppendResponse(acc, d, |d| - 2), Remaining(replies)))
  {
    var inner := GetResponseChain(cla, Sw2(d), AppendResponse(acc, d, |d| - 2), Remaining(replies));
    assert sent + ([GetResponseApdu(cla, le)] + inner.sent) == sent + [GetResponseApdu(cla, le)] + inner.sent;
  }

  /** The turn on which the loop ends: a failed exchange, or a reply that is not `61xx`,
      which is kept in full. */
  lemma ChainFinish(target: Chain, sent: seq<seq<byte>>, cla: byte, le: byte, acc: seq<byte>,
                    replies: seq<Reply>)
    requires target == After(sent, GetResponseChain(cla, le, acc, replies))
    requires !(NextReply(replies).Response? && MoreData(NextReply(replies).data))
    ensures target.sent == sent + [GetResponseApdu(cla, le)] && target.rest == Remaining(replies)
    ensures NextReply(replies).TransportFailure? ==> target.out == Err(Remote(NextReply(replies).noSuchElement))
    ensures NextReply(replies).NullResponse? ==> target.out == Err(NullPointer)
    ensures NextReply(replies).Response? ==> target.out == Ok(acc + NextReply(replies).data)
  {
    if NextReply(replies).Response? {
      var d := NextReply(replies).data;
      assert d[..|d|] == d;
    }
  }

  /** The loop reads the script from the front: what is left is a suffix of it, one reply
      shorter per command sent, except for the last command when the script ran out. */
  lemma {:induction false} ChainConsumes(cla: byte, le: byte, acc: seq<byte>, replies: seq<Reply>)
    ensures var c := GetResponseChain(cla, le, acc, replies);
      && |c.rest| <= |replies| && c.rest == replies[|replies| - |c.rest|..]
      && |replies| - |c.rest| <= |c.sent|
      && (c.rest != [] ==> |replies| - |c.rest| == |c.sent|)
    decreases |replies|
  {
    match NextReply(replies)
    case TransportFailure(_) =>
    case NullResponse =>
    case Response(d) =>
      if MoreData(d) {
        var acc' := AppendResponse(acc, d, |d| - 2);
        var tail := replies[1..];
        assert Remaining(replies) == tail;
        ChainConsumes(cla, Sw2(d), acc', tail);
        var inner := GetResponseChain(cla, Sw2(d), acc', tail);
        assert tail[|tail| - |inner.rest|..] == replies[|replies| - |inner.rest|..];
      }
  }

  /** Every command the loop sends is a GET RESPONSE with the command's CLA, the first one
      asking for `le` bytes; the replies left are what remains of the script after one reply
      per command sent (one command fewer only when the script ran out); and the data
      collected so far is never lost. */
  lemma {:induction false} ChainShape(cla: byte, le: byte, acc: seq<byte>, replies: seq<Reply>)
    ensures var c := GetResponseChain(cla, le, acc, replies);
      && c.sent != [] && c.sent[0] == GetResponseApdu(cla, le)
      && (forall i :: 0 <= i < |c.sent| ==> |c.sent[i]| == 5 && c.sent[i][..4] == [cla, INS_GET_RESPONSE, 0x00, 0x00])
      && |c.rest| <= |replies| && c.rest == replies[|replies| - |c.rest|..]
      && |replies| - |c.rest| <= |c.sent|
      && (c.rest != [] ==> |replies| - |c.rest| == |c.sent|)
      && (c.out.Ok? ==> acc <= c.out.value)
    decreases |replies|
  {
    ChainConsumes(cla, le, acc, replies);
    var c := GetResponseChain(cla, le, acc, replies);
    match NextReply(replies)
    case TransportFailure(_) =>
    case NullResponse =>
    case Response(d) =>
      if MoreData(d) {
        var acc' := AppendResponse(acc, d, |d| - 2);
        ChainShape(cla, Sw2(d), acc', Remaining(replies));
        var inner := GetResponseChain(cla, Sw2(d), acc', Remaining(replies));
        assert c.sent == [GetResponseApdu(cla, le)] + inner.sent;
        assert c.out.Ok? ==> acc <= acc' <= c.out.value;
      } else {
        assert c.out.Ok? ==> c.out.value == acc + d;
      }
  }

  function Lift(r: Result<seq<byte>>): Result<Option<seq<byte>>> {
    match r
    case Ok(v) => Ok(Some(v))
    case Err(f) => Err(f)
  }

  /** Lines 459-484: the response after `6Cxx` retry and `61xx` chaining, before the checks. */
  function Resolve(cmd: seq<byte>, replies: seq<Reply>): Run {
    var rest := Remaining(replies);
    match NextReply(replies)
    case TransportFailure(nse) => Run(Err(Remote(nse)), [cmd], rest, cmd)
    case NullResponse => Run(Err(NullPointer), [cmd], rest, cmd)
    case Response(d) =>
      if WrongLength(d) then
        if |cmd| == 0 then Run(Err(IndexOutOfBounds), [cmd], rest, cmd)
        else
          var retry := cmd[..|cmd| - 1] + [Sw2(d)];
          var out := match NextReply(rest)
                     case TransportFailure(nse) => Err(Remote(nse))
                     case NullResponse => Ok(None)
                     case Response(d2) => Ok(Some(d2));
          Run(out, [cmd, retry], Remaining(rest), retry)
      else if MoreData(d) then
        if |cmd| == 0 then Run(Err(IndexOutOfBounds), [cmd], rest, cmd)
        else
          var c := GetResponseChain(cmd[0], Sw2(d), d[..|d| - 2], rest);
          Run(Lift(c.out), [cmd] + c.sent, c.rest, cmd)
      else
        Run(Ok(Some(d)), [cmd], rest, cmd)
  }

  /** What resolution does to the exchange: the caller's command goes first; the command
      array changes at most in its last byte, and only when it is sent once more; a null
      result comes only from the retry; and after a first `61xx` reply the result starts
      with that reply's data. */
  lemma ResolveShape(cmd: seq<byte>, replies: seq<Reply>)
    ensures var run := Resolve(cmd, replies);
      && run.sent != [] && run.sent[0] == cmd
      && |run.command| == |cmd| && (|cmd| > 0 ==> run.command[..|cmd| - 1] == cmd[..|cmd| - 1])
      && (run.command != cmd ==> run.sent == [cmd, run.command])
      && (run.out == Ok(None) ==> run.sent == [cmd, run.command])
      && (NextReply(replies).Response? && MoreData(NextReply(replies).data) && run.out.Ok? ==>
            var d := NextReply(replies).data;
            run.out.value.Some? && d[..|d| - 2] <= run.out.value.value)
  {
    match NextReply(replies)
    case Response(d) =>
      if MoreData(d) && |cmd| > 0 {
        ChainShape(cmd[0], Sw2(d), d[..|d| - 2], Remaining(replies));
      }
    case _ =>
  }

  /** The whole of `transmit`: resolution, then the length and status-word checks.
      A returned response always passes the checks, and `transmit` fails exactly when
      resolution fails or the resolved response does not pass them. */
  function TransmitRun(cmd: seq<byte>, replies: seq<Reply>, minRspLength: int,
                       swExpected: bv32, swMask: bv32): (run: Run)
    ensures var res := Resolve(cmd, replies);
      && run.sent == res.sent && run.rest == res.rest && run.command == res.command
      && (run.out.Ok? <==> res.out.Ok? && Accepts(res.out.value, minRspLength, swExpected, swMask))
      && (run.out.Ok? ==> run.out == res.out)
    ensures run.out.Ok? ==> Accepts(run.out.value, minRspLength, swExpected, swMask)
    ensures swMask != 0 && run.out.Ok? ==> run.out.value.Some?
  {
    var res := Resolve(cmd, replies);
    match res.out
    case Err(_) => res
    case Ok(rsp) => res.(out := CheckResponse(rsp, minRspLength, swExpected, swMask))
  }

  // ---------------------------------------------------------------------------
  // Reference descriptions of chaining

  function Responses(ds: seq<seq<byte>>): seq<Reply> {
    if ds == [] then [] else [Response(ds[0])] + Responses(ds[1..])
  }

  predicate AllMoreData(ds: seq<seq<byte>>) {
    forall i :: 0 <= i < |ds| ==> MoreData(ds[i])
  }

  /** The data of a series of `61xx` replies, without their status words. */
  function Payloads(ds: seq<seq<byte>>): seq<byte>
    requires AllMoreData(ds)
  {
    if ds == [] then [] else ds[0][..|ds[0]| - 2] + Payloads(ds[1..])
  }

  /** The GET RESPONSE commands for a series of `61xx` replies: the first asks for `le`
      bytes, each later one for the SW2 of the reply before it. */
  function GetResponseCommands(cla: byte, le: byte, ds: seq<seq<byte>>): seq<seq<byte>>
    requires AllMoreData(ds)
    decreases |ds|
  {
    [GetResponseApdu(cla, le)] + if ds == [] then [] else GetResponseCommands(cla, Sw2(ds[0]), ds[1..])
  }

  /** A `61xx` reply at the head of the script: one GET RESPONSE, then the loop on the rest. */
  lemma ChainOnMoreData(cla: byte, le: byte, acc: seq<byte>, m: seq<byte>, rest: seq<Reply>)
    requires MoreData(m)
    ensures GetResponseChain(cla, le, acc, [Response(m)] + rest)
            == After([GetResponseApdu(cla, le)], GetResponseChain(cla, Sw2(m), acc + m[..|m| - 2], rest))
  {
    assert Remaining([Response(m)] + rest) == rest;
  }

  /** Any other reply at the head of the script ends the loop with that reply in full. */
  lemma ChainOnLast(cla: byte, le: byte, acc: seq<byte>, last: seq<byte>, tail: seq<Reply>)
    requires !MoreData(last)
    ensures GetResponseChain(cla, le, acc, [Response(last)] + tail)
            == Chain(Ok(acc + last), [GetResponseApdu(cla, le)], tail)
  {
    assert Remaining([Response(last)] + tail) == tail;
    assert last[..|last|] == last;
  }

  lemma AllMoreDataTail(ds: seq<seq<byte>>)
    requires AllMoreData(ds) && ds != []
    ensures MoreData(ds[0]) && AllMoreData(ds[1..])
  {
    forall i | 0 <= i < |ds[1..]| ensures MoreData(ds[1..][i]) {
      assert ds[1..][i] == ds[i + 1];
    }
  }

  lemma ConcatAssoc<T>(a: seq<T>, b: seq<T>, c: seq<T>, d: seq<T>)
    ensures a + b + c + d == a + (b + c) + d
  {
  }

  lemma ResponsesCons(ds: seq<seq<byte>>)
    requires ds != []
    ensures Responses(ds) == [Response(ds[0])] + Responses(ds[1..])
  {
  }

  lemma PayloadsCons(ds: seq<seq<byte>>)
    requires ds != [] && AllMoreData(ds)
    ensures Payloads(ds) == ds[0][..|ds[0]| - 2] + Payloads(ds[1..])
  {
  }

  lemma CommandsCons(cla: byte, le: byte, ds: seq<seq<byte>>)
    requires ds != [] && AllMoreData(ds)
    ensures GetResponseCommands(cla, le, ds)
            == [GetResponseApdu(cla, le)] + GetResponseCommands(cla, Sw2(ds[0]), ds[1..])
  {
  }

  /** The inductive step of `ChainCollects`: a `61xx` reply in front of a series whose
      outcome is known. */
  lemma ChainCollectsStep(cla: byte, le: byte, acc: seq<byte>, mids: seq<seq<byte>>,
                          last: seq<byte>, tail: seq<Reply>)
    requires mids != [] && AllMoreData(mids)
    requires var m := mids[0];
      GetResponseChain(cla, Sw2(m), acc + m[..|m| - 2], Responses(mids[1..]) + [Response(last)] + tail)
      == Chain(Ok(acc + m[..|m| - 2] + Payloads(mids[1..]) + last),
               GetResponseCommands(cla, Sw2(m), mids[1..]), tail)
    ensures GetResponseChain(cla, le, acc, Responses(mids) + [Response(last)] + tail)
            == Chain(Ok(acc + Payloads(mids) + last), GetResponseCommands(cla, le, mids), tail)
  {
    var m := mids[0];
    var rest := Responses(mids[1..]) + [Response(last)] + tail;
    ResponsesCons(mids);
    assert Responses(mids) + [Response(last)] + tail == [Response(m)] + rest;
    var pm, pr := m[..|m| - 2], Payloads(mids[1..]);
    ChainOnMoreData(cla, le, acc, m, rest);
    PayloadsCons(mids);
    CommandsCons(cla, le, mids);
    assert Payloads(mids) == pm + pr;
    ConcatAssoc(acc, pm, pr, last);
  }

  /** The base case of `ChainCollects`: no `61xx` reply before the last one. */
  lemma ChainCollectsBase(cla: byte, le: byte, acc: seq<byte>, last: seq<byte>, tail: seq<Reply>)
    requires !MoreData(last)
    ensures GetResponseChain(cla, le, acc, Responses([]) + [Response(last)] + tail)
            == Chain(Ok(acc + Payloads([]) + last), GetResponseCommands(cla, le, []), tail)
  {
    assert Responses([]) + [Response(last)] + tail == [Response(last)] + tail;
    ChainOnLast(cla, le, acc, last, tail);
    assert acc + Payloads([]) + last == acc + last;
  }

  /** The loop collects the data of every `61xx` reply and ends with the first other
      reply, status word included, sending one GET RESPONSE per reply. */
  lemma {:induction false} ChainCollects(cla: byte, le: byte, acc: seq<byte>, mids: seq<seq<byte>>,
                                         last: seq<byte>, tail: seq<Reply>)
    requires AllMoreData(mids) && !MoreData(last)
    ensures GetResponseChain(cla, le, acc, Responses(mids) + [Response(last)] + tail)
            == Chain(Ok(acc + Payloads(mids) + last), GetResponseCommands(cla, le, mids), tail)
    decreases |mids|
  {
    if mids == [] {
      ChainCollectsBase(cla, le, acc, last, tail);
    } else {
      var m := mids[0];
      AllMoreDataTail(mids);
      ChainCollects(cla, Sw2(m), acc + m[..|m| - 2], mids[1..], last, tail);
      ChainCollectsStep(cla, le, acc, mids, last, tail);
    }
  }

  /** `61xx` chaining: the first reply's data, then each intermediate reply's data, then
      the final reply in full; GET RESPONSE carries the command's CLA. */
  lemma MoreDataChained(cmd: seq<byte>, first: seq<byte>, mids: seq<seq<byte>>, last: seq<byte>,
                        tail: seq<Reply>)
    requires |cmd| > 0 && MoreData(first) && AllMoreData(mids) && !MoreData(last)
    ensures Resolve(cmd, [Response(first)] + Responses(mids) + [Response(last)] + tail)
            == Run(Ok(Some(first[..|first| - 2] + Payloads(mids) + last)),
                   [cmd] + GetResponseCommands(cmd[0], Sw2(first), mids), tail, cmd)
  {
    var replies := [Response(first)] + Responses(mids) + [Response(last)] + tail;
    assert Remaining(replies) == Responses(mids) + [Response(last)] + tail;
    ChainCollects(cmd[0], Sw2(first), first[..|first| - 2], mids, last, tail);
  }

  /** `6Cxx`: exactly one retry, with the command's last byte replaced by SW2, and the
      retry's reply returned as it is, even when it is itself `61xx` or `6Cxx`. */
  lemma WrongLengthRetriedOnce(cmd: seq<byte>, first: seq<byte>, second: Reply, tail: seq<Reply>)
    requires |cmd| > 0 && WrongLength(first)
    ensures var retry := cmd[..|cmd| - 1] + [Sw2(first)];
      && |retry| == |cmd| && retry[|cmd| - 1] == Sw2(first) && retry[..|cmd| - 1] == cmd[..|cmd| - 1]
      && Resolve(cmd, [Response(first), second] + tail)
         == Run(match second
                case TransportFailure(nse) => Err(Remote(nse))
                case NullResponse => Ok(None)
                case Response(d) => Ok(Some(d)),
                [cmd, retry], tail, retry)
  {
    var replies := [Response(first), second] + tail;
    assert Remaining(replies) == [second] + tail;
    assert Remaining([second] + tail) == tail;
  }

  /** A reply shorter than two bytes, or with SW1 other than 61 and 6C, is passed on as is. */
  lemma OtherRepliesPassThrough(cmd: seq<byte>, first: seq<byte>, tail: seq<Reply>)
    requires !MoreData(first) && !WrongLength(first)
    ensures Resolve(cmd, [Response(first)] + tail) == Run(Ok(Some(first)), [cmd], tail, cmd)
  {
    assert Remaining([Response(first)] + tail) == tail;
  }

  /** Resolution raises NoSuchElementException only when the terminal service reported one. */
  lemma {:induction false} ChainNoSuchElement(cla: byte, le: byte, acc: seq<byte>, replies: seq<Reply>)
    ensures var c := GetResponseChain(cla, le, acc, replies);
      c.out.Err? && IsNoSuchElement(c.out.fault) ==> c.out.fault == Remote(true)
    decreases |replies|
  {
    match NextReply(replies)
    case TransportFailure(_) =>
    case NullResponse =>
    case Response(d) =>
      if MoreData(d) {
        ChainNoSuchElement(cla, Sw2(d), AppendResponse(acc, d, |d| - 2), Remaining(replies));
      }
  }

  lemma TransmitNoSuchElement(cmd: seq<byte>, replies: seq<Reply>, minRspLength: int,
                              swExpected: bv32, swMask: bv32)
    ensures var run := TransmitRun(cmd, replies, minRspLength, swExpected, swMask);
      run.out.Err? && IsNoSuchElement(run.out.fault) ==> run.out.fault == Remote(true)
  {
    match NextReply(replies)
    case Response(d) =>
      if !WrongLength(d) && MoreData(d) && |cmd| > 0 {
        ChainNoSuchElement(cmd[0], Sw2(d), d[..|d| - 2], Remaining(replies));
      }
    case _ =>
  }

  // ---------------------------------------------------------------------------
  // Two exchanges written out

  /** `00 A4 04 00 02 3F 00` answered by `61 05`, then GET RESPONSE `00 C0 00 00 05`
      answered by `AA BB CC DD EE 90 00`, yields `AA BB CC DD EE 90 00`. */
  lemma SelectWithGetResponse()
    ensures var cmd: seq<byte> := [0x00, 0xA4, 0x04, 0x00, 0x02, 0x3F, 0x00];
      var last: seq<byte> := [0xAA, 0xBB, 0xCC, 0xDD, 0xEE, 0x90, 0x00];
      TransmitRun(cmd, [Response([0x61, 0x05]), Response(last)], 2, 0x9000, 0xFFFF)
      == Run(Ok(Some(last)), [cmd, [0x00, 0xC0, 0x00, 0x00, 0x05]], [], cmd)
  {
    var cmd: seq<byte> := [0x00, 0xA4, 0x04, 0x00, 0x02, 0x3F, 0x00];
    var first: seq<byte> := [0x61, 0x05];
    var last: seq<byte> := [0xAA, 0xBB, 0xCC, 0xDD, 0xEE, 0x90, 0x00];
    var replies := [Response(first), Response(last)];
    assert replies == [Response(first)] + Responses([]) + [Response(last)] + [];
    MoreDataChained(cmd, first, [], last, []);
    var getResponse := GetResponseCommands(cmd[0], Sw2(first), []);
    assert getResponse == [[0x00, 0xC0, 0x00, 0x00, 0x05]];
    assert first[..0] + Payloads([]) + last == last;
    var res := Resolve(cmd, replies);
    assert res == Run(Ok(Some(last)), [cmd] + getResponse, [], cmd);
    assert SwMatches(last, 0x9000, 0xFFFF);
    assert Accepts(Some(last), 2, 0x9000, 0xFFFF);
  }

  /** A four-byte response fails a minimum length of ten. */
  lemma ShortResponseRejected()
    ensures TransmitRun([0x00, 0xB0, 0x00, 0x00, 0x00], [Response([0x01, 0x02, 0x90, 0x00])], 10, 0, 0).out
            == Err(ResponseTooSmall)
  {
    OtherRepliesPassThrough([0x00, 0xB0, 0x00, 0x00, 0x00], [0x01, 0x02, 0x90, 0x00], []);
    assert [Response([0x01, 0x02, 0x90, 0x00])] == [Response([0x01, 0x02, 0x90, 0x00])] + [];
  }
}
