/** Command and response APDUs of ISO/IEC 7816-4 as the terminal uses them. */
module Apdu {
  import opened Errors

  /** A Java byte, read as unsigned (`b & 0xFF`). */
  type byte = bv8

  const INS_SELECT: byte := 0xA4
  const INS_GET_RESPONSE: byte := 0xC0
  /** SW1 = 0x61: SW2 more response bytes are available (section 5.1.3 of ISO/IEC 7816-4). */
  const SW1_MORE_DATA: byte := 0x61
  /** SW1 = 0x6C: wrong Le field, SW2 gives the exact length. */
  const SW1_WRONG_LENGTH: byte := 0x6C

  function Sw1(rsp: seq<byte>): byte
    requires |rsp| >= 2
  {
    rsp[|rsp| - 2]
  }

  function Sw2(rsp: seq<byte>): byte
    requires |rsp| >= 2
  {
    rsp[|rsp| - 1]
  }

  /** The response ends in `61 xx`. */
  predicate MoreData(rsp: seq<byte>) {
    |rsp| >= 2 && Sw1(rsp) == SW1_MORE_DATA
  }

  /** The response ends in `6C xx`. */
  predicate WrongLength(rsp: seq<byte>) {
    |rsp| >= 2 && Sw1(rsp) == SW1_WRONG_LENGTH
  }

  /** The status word `(sw1 << 8) | sw2`, as the bit pattern of a 32-bit Java int. */
  function StatusWord(rsp: seq<byte>): bv32
    requires |rsp| >= 2
  {
    ((Sw1(rsp) as bv32) << 8) | (Sw2(rsp) as bv32)
  }

  /** Util.appendResponse(a, b, n) is not part of this model; from its use it appends
      the first n bytes of b to a. */
  function AppendResponse(a: seq<byte>, b: seq<byte>, n: nat): (r: seq<byte>)
    requires n <= |b|
    ensures |r| == |a| + n
    ensures r[..|a|] == a && r[|a|..] == b[..n]
  {
    a + b[..n]
  }

  /** GET RESPONSE `CLA C0 00 00 Le` (section 7.6.1 of ISO/IEC 7816-4). */
  function GetResponseApdu(cla: byte, le: byte): seq<byte> {
    [cla, INS_GET_RESPONSE, 0x00, 0x00, le]
  }

  /** The Java cast `(byte) n`: the low eight bits of a length. */
  function LengthByte(n: nat): byte {
    (n % 256) as byte
  }

  /** SELECT by DF name `00 A4 04 00 Lc AID 00` (section 7.1.1 of ISO/IEC 7816-4), with the
      Java `(byte) aid.length` cast that keeps only the low eight bits of the length. */
  function SelectApdu(aid: seq<byte>): (c: seq<byte>)
    ensures |c| == |aid| + 6
  {
    [0x00, INS_SELECT, 0x04, 0x00, LengthByte(|aid|)] + aid + [0x00]
  }

  /** The SELECT that re-selects the default application: `00 A4 04 00 00`, a case 2 command
      with no Lc and no data field, and Le = 00. */
  function DefaultSelectApdu(): seq<byte> {
    [0x00, INS_SELECT, 0x04, 0x00, 0x00]
  }

  /** Reads a SELECT-by-DF-name command back: the AID, when the one-byte Lc field
      holds the data length. */
  function SelectedAid(c: seq<byte>): Option<seq<byte>> {
    if |c| >= 6 && c[..4] == [0x00, INS_SELECT, 0x04, 0x00]
       && |c| - 6 < 256 && c[4] == LengthByte(|c| - 6) && c[|c| - 1] == 0x00
    then Some(c[5..|c| - 1])
    else None
  }

  /** The command a SELECT builds names exactly its AID, unless the length does not fit
      into the one-byte Lc field, where the truncated Lc makes the command malformed. */
  lemma SelectRoundTrip(aid: seq<byte>)
    ensures SelectedAid(SelectApdu(aid)) == if |aid| < 256 then Some(aid) else None
    ensures |aid| >= 256 ==> SelectApdu(aid)[4] as int != |aid|
  {
    var c := SelectApdu(aid);
    assert c[..4] == [0x00, INS_SELECT, 0x04, 0x00];
    assert c[5..|c| - 1] == aid;
  }

  /** The masked comparison `(sw & swMask) == (swExpected & swMask)`. */
  predicate SwMatches(rsp: seq<byte>, swExpected: bv32, swMask: bv32)
    requires |rsp| >= 2
  {
    StatusWord(rsp) & swMask == swExpected & swMask
  }

  /** What `transmit` accepts after its length and status-word checks (Terminal.java
      lines 485-503), stated as two independent conditions. */
  predicate Accepts(rsp: Option<seq<byte>>, minRspLength: int, swExpected: bv32, swMask: bv32) {
    && (minRspLength > 0 ==> rsp.Some? && |rsp.value| >= minRspLength)
    && (swMask != 0 ==>
          rsp.Some? && |rsp.value| >= 2
          && SwMatches(rsp.value, swExpected, swMask))
  }

  /** The checks in the order the code runs them, with the exception each one throws. */
  function CheckResponse(rsp: Option<seq<byte>>, minRspLength: int, swExpected: bv32, swMask: bv32)
    : (r: Result<Option<seq<byte>>>)
    ensures r.Ok? <==> Accepts(rsp, minRspLength, swExpected, swMask)
    ensures r.Ok? ==> r.value == rsp
    ensures minRspLength > 0 && (rsp.None? || |rsp.value| < minRspLength) ==> r == Err(ResponseTooSmall)
    ensures r.Err? && r.fault.SwMismatch? ==>
              swMask != 0 && rsp.Some? && |rsp.value| >= 2 && r.fault.sw == StatusWord(rsp.value)
    ensures r.Err? ==> !IsNoSuchElement(r.fault)
  {
    if minRspLength > 0 && (rsp.None? || |rsp.value| < minRspLength) then
      Err(ResponseTooSmall)
    else if swMask != 0 && (rsp.None? || |rsp.value| < 2) then
      Err(SwUnavailable)
    else if swMask != 0 && !SwMatches(rsp.value, swExpected, swMask) then
      Err(SwMismatch(StatusWord(rsp.value)))
    else
      Ok(rsp)
  }
}
