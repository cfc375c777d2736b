# Terminal of the SmartCard service, modelled in Dafny

This project models the `Terminal` class of the Open Mobile API SmartCard service
(`org.simalliance.openmobileapi.service.Terminal`). A terminal is one secure element.
It sends command APDUs to the card. It resolves the ISO/IEC 7816-4 "more data" (`61xx`)
and "wrong length" (`6Cxx`) status words, then checks the response's length and status word.
It also hands out the basic channel (channel 0) to at most one session and keeps the list of
open sessions. Finally, it owns the single, lazily created access-control enforcer, and its
`SmartcardServiceReader` facade opens sessions only while a card is present.

Files:

- `errors.dfy`: the exceptions the terminal throws or passes on, as a `Fault` value. It also
  defines `Result`, `Outcome` and `Option`.
- `apdu.dfy`: the status-word reading and the SELECT and GET RESPONSE commands. It also has
  the length and status-word checks of `transmit`.
- `card.dfy`: the terminal service (`mTerminalService`) as a scripted responder. Each
  `internalTransmit`, `isCardPresent` and `internalCloseLogicalChannel` call consumes the next
  scripted answer. The transmit and close calls also log the command or channel number sent. Once the script is used up, the responder answers
  with a transport failure, which bounds the `61xx` loop.
- `transmission.dfy`: `transmit` as functions of the command and the script. The chaining,
  retry and check properties are proved about these functions.
- `collaborators.dfy`: `Session`, `Channel` and `AccessControlEnforcer`, reduced to the state
  the terminal reads and changes.
- `registry.dfy`: the session list `mSessions` and the first-error rule of bulk closing.
- `terminal.dfy`: the `Terminal` class and the `SmartcardServiceReader` facade as imperative
  classes. The command arrays of the source stay `array<byte>`, and the caller's `cmd` is
  changed in place on a `6Cxx` retry.

`Util.appendResponse` is not part of this model. Its uses at Terminal.java lines 475 and 478
show that `appendResponse(a, b, n)` appends the first `n` bytes of `b` to `a`. `Apdu.AppendResponse`
assumes exactly that.

Three behaviours of the code worth knowing:

- After a `6Cxx` reply, the retry's reply is returned as it is (Terminal.java line 464). A `61xx`
  answer to the retry is not chained further.
- Closing channel 0 first re-selects the default application with the five bytes
  `00 A4 04 00 00`: a case 2 command of ISO/IEC 7816-4 with no Lc and no data field,
  and Le = 00. If that fails and an enforcer exists, it selects the
  access-control application. The fallback's own failure is swallowed only when it is a
  `NoSuchElementException`. Any other failure propagates, and the terminal service is then not
  asked to close the channel.
- `initializeAccessControl` returns the enforcer's `initialize` answer. An exception thrown by
  `initialize` propagates. `openSession` still adds a session when `initialize` answered false.

## Model

| member | source | states |
|---|---|---|
| `Apdu.SelectApdu` | src/org/simalliance/openmobileapi/service/Terminal.java:408-414 | the SELECT-by-DF-name command for an AID is six bytes longer than the AID |
| `Apdu.SelectRoundTrip` | src/org/simalliance/openmobileapi/service/Terminal.java:408-414 | reading a built SELECT back gives the AID when its length fits the one-byte Lc. For longer AIDs the `(byte)` cast makes Lc differ from the AID length, and the command is not read back |
| `Apdu.AppendResponse` | src/org/simalliance/openmobileapi/service/Terminal.java:475-478 | the assumed `Util.appendResponse(a, b, n)`: the result is `a` followed by the first `n` bytes of `b` |
| `Apdu.CheckResponse` | src/org/simalliance/openmobileapi/service/Terminal.java:485-503 | a response is returned iff it passes both checks: length at least `minRspLength` when that is positive, and when `swMask != 0`, at least 2 bytes with a matching masked status word. A short response fails with "response too small". A mismatch reports the received status word |
| `Card.NextReply` | src/org/simalliance/openmobileapi/service/Terminal.java:343-353 | the terminal service answers with a response or null only while its script lasts |
| `Card.Transport.constructor` | src/org/simalliance/openmobileapi/service/Terminal.java:343-380 | a fresh terminal service holds its scripts and has sent nothing |
| `Card.Transport.Exchange` | src/org/simalliance/openmobileapi/service/Terminal.java:343-353 | `internalTransmit` consumes one scripted reply and logs the command |
| `Card.Transport.IsCardPresent` | src/org/simalliance/openmobileapi/service/Terminal.java:378-380 | `isCardPresent` consumes one scripted presence answer |
| `Card.Transport.CloseLogicalChannel` | src/org/simalliance/openmobileapi/service/Terminal.java:328-334 | the remote close consumes one scripted outcome and logs the channel number |
| `Transmission.ChainShape` | src/org/simalliance/openmobileapi/service/Terminal.java:466-481 | the GET RESPONSE loop (`GetResponseChain`) sends only `CLA C0 00 00 Le` commands with the command's CLA, the first asking for the SW2 it starts from. The replies left are a suffix of the script: one reply is used per command sent, except for the last command when the script ran out. It never drops data already collected |
| `Transmission.ChainAdvance` | src/org/simalliance/openmobileapi/service/Terminal.java:471-476 | a `61xx` reply in the loop keeps its data and continues with its SW2 as the next Le |
| `Transmission.ChainFinish` | src/org/simalliance/openmobileapi/service/Terminal.java:477-480 | the loop ends on the first reply that is not `61xx`, kept in full, or on a failed exchange |
| `Transmission.ResolveShape` | src/org/simalliance/openmobileapi/service/Terminal.java:459-484 | resolution (`Resolve`) sends the caller's command first. The command array changes at most in its last byte, and then it is sent exactly once more. A null result comes only from the `6Cxx` retry. After a first `61xx` reply the result starts with that reply's data |
| `Transmission.TransmitRun` | src/org/simalliance/openmobileapi/service/Terminal.java:452-504 | `transmit` fails exactly when resolution fails or the resolved response fails a check. Any returned response passes both checks |
| `Transmission.ChainOnMoreData` | src/org/simalliance/openmobileapi/service/Terminal.java:471-476 | one GET RESPONSE per `61xx` reply, then the loop on the rest of the script |
| `Transmission.ChainOnLast` | src/org/simalliance/openmobileapi/service/Terminal.java:477-480 | a final non-`61xx` reply is appended with its status word |
| `Transmission.ChainCollectsStep` | src/org/simalliance/openmobileapi/service/Terminal.java:471-481 | the inductive step of the chaining result |
| `Transmission.ChainCollects` | src/org/simalliance/openmobileapi/service/Terminal.java:466-482 | for any number of `61xx` replies, the loop returns their data without status words, then the last reply in full. It sends one GET RESPONSE per reply, each asking for the previous SW2 |
| `Transmission.MoreDataChained` | src/org/simalliance/openmobileapi/service/Terminal.java:465-482 | `61xx` chaining: the first reply's data, each intermediate reply's data, then the final reply including its SW. Every GET RESPONSE is `CLA C0 00 00 Le` with the command's CLA |
| `Transmission.WrongLengthRetriedOnce` | src/org/simalliance/openmobileapi/service/Terminal.java:459-464 | after `6Cxx`, exactly one retry, with the caller's command changed in place so that its last byte is SW2. The retry's reply is used as is |
| `Transmission.OtherRepliesPassThrough` | src/org/simalliance/openmobileapi/service/Terminal.java:459-460 | a reply shorter than 2 bytes, or with SW1 other than `61` and `6C`, is passed on unchanged after one exchange |
| `Transmission.ChainNoSuchElement` | src/org/simalliance/openmobileapi/service/Terminal.java:471-481 | the GET RESPONSE loop raises `NoSuchElementException` only when the terminal service reported one |
| `Transmission.TransmitNoSuchElement` | src/org/simalliance/openmobileapi/service/Terminal.java:452-504 | the same for the whole of `transmit`. The close-basic-channel fallback depends on this |
| `Transmission.SelectWithGetResponse` | src/org/simalliance/openmobileapi/service/Terminal.java:452-504 | `00 A4 04 00 02 3F 00` answered by `61 05`, then GET RESPONSE `00 C0 00 00 05` answered by `AA BB CC DD EE 90 00`, returns `AA BB CC DD EE 90 00` |
| `Transmission.ShortResponseRejected` | src/org/simalliance/openmobileapi/service/Terminal.java:485-490 | a 4-byte response fails a minimum length of 10 with "response too small" |
| `Collaborators.Channel.constructor` | src/org/simalliance/openmobileapi/service/Terminal.java:399 | a channel records its session, number and select response |
| `Collaborators.Channel.HasSelectedAid` | src/org/simalliance/openmobileapi/service/Terminal.java:400 | the channel records whether, and which, AID was selected |
| `Collaborators.Session.constructor` | src/org/simalliance/openmobileapi/service/Terminal.java:591 | a new session is open and holds no basic channel |
| `Collaborators.Session.SetBasicChannel` | src/org/simalliance/openmobileapi/service/Terminal.java:246-254 | what `getBasicChannel` of the session answers afterwards |
| `Collaborators.Session.CloseChannels` | src/org/simalliance/openmobileapi/service/Terminal.java:228 | closing the channels drops the basic channel. An error already in the slot is kept |
| `Collaborators.Session.SetClosed` | src/org/simalliance/openmobileapi/service/Terminal.java:229 | the session reports closed |
| `Collaborators.Enforcer.constructor` | src/org/simalliance/openmobileapi/service/Terminal.java:188 | a new enforcer has not been reset or initialised |
| `Collaborators.Enforcer.Reset` | src/org/simalliance/openmobileapi/service/Terminal.java:536 | counts one reset |
| `Collaborators.Enforcer.Initialize` | src/org/simalliance/openmobileapi/service/Terminal.java:190 | counts one initialisation and returns the enforcer's answer |
| `Registry.RemoveFirst` | src/org/simalliance/openmobileapi/service/Terminal.java:231 | `ArrayList.remove` drops one occurrence of the session when it is tracked and changes nothing otherwise. Every other session stays, and a list free of duplicates stays so without the removed session |
| `Registry.RemoveFirstKeepsOrder` | src/org/simalliance/openmobileapi/service/Terminal.java:231 | the occurrence removed is the first one, and the sessions before and after it keep their order |
| `Registry.AppendDistinct` | src/org/simalliance/openmobileapi/service/Terminal.java:591-592 | adding a new session keeps the list free of duplicates |
| `Registry.FirstSomeAppend` | src/org/simalliance/openmobileapi/service/Terminal.java:234-244 | the shared error slot keeps the first error of a bulk close |
| `Registry.FirstSomeFound` | src/org/simalliance/openmobileapi/service/Terminal.java:599-605 | an error is reported iff some session recorded one, and it is one of those recorded |
| `Terminals.NewSelectCommand` | src/org/simalliance/openmobileapi/service/Terminal.java:408-414 | the indexed writes build `00 A4 04 00 Lc AID 00` |
| `Terminals.NewDefaultSelectCommand` | src/org/simalliance/openmobileapi/service/Terminal.java:293-298 | the indexed writes build `00 A4 04 00 00` |
| `Terminals.Terminal.constructor` | src/org/simalliance/openmobileapi/service/Terminal.java:64-85 | a new terminal tracks no session, has the default application selected and has no enforcer |
| `Terminals.Terminal.Transmit` | src/org/simalliance/openmobileapi/service/Terminal.java:452-504 | the result, the commands sent, the replies consumed and the caller's command array afterwards are those of `TransmitRun` |
| `Terminals.Terminal.GetResponses` | src/org/simalliance/openmobileapi/service/Terminal.java:466-482 | the GET RESPONSE loop over one reused command array computes the chain of `GetResponseChain` |
| `Terminals.Terminal.SendGetResponse` | src/org/simalliance/openmobileapi/service/Terminal.java:472-473 | overwriting the Le byte makes the array the GET RESPONSE for the previous SW2, which is then sent |
| `Terminals.Terminal.GetBasicChannel` | src/org/simalliance/openmobileapi/service/Terminal.java:246-254 | null iff no tracked session holds a basic channel. Otherwise the basic channel of the first such session in list order |
| `Terminals.Terminal.OpenBasicChannel` | src/org/simalliance/openmobileapi/service/Terminal.java:382-429 | a null callback is refused first, then a basic channel in use. Without an AID: illegal state unless the default application is selected, else channel 0 with no select response and the flag unchanged. With an AID: the SELECT is sent expecting `9000`/`FFFF` and minimum length 2. Any failure becomes not-found with the flag unchanged. Success records the response and clears the flag |
| `Terminals.Terminal.SecondBasicChannelRefused` | src/org/simalliance/openmobileapi/service/Terminal.java:387-393 | once a tracked session holds the basic channel, a second `openBasicChannel` from any session fails with "basic channel in use" |
| `Terminals.Terminal.InternalCloseLogicalChannel` | src/org/simalliance/openmobileapi/service/Terminal.java:291-335 | channel 0 first re-selects the default application, falling back to the access-control AID when that fails and an enforcer exists. A fallback failure other than NoSuchElement aborts. Otherwise the remote close is requested and its outcome returned |
| `Terminals.Terminal.ResetAccessControl` | src/org/simalliance/openmobileapi/service/Terminal.java:534-538 | resets the enforcer if there is one |
| `Terminals.Terminal.InitializeAccessControl` | src/org/simalliance/openmobileapi/service/Terminal.java:167-197 | an absent card, or a failed presence query, returns true and leaves the slot untouched. With a card present: reset first when asked, create the enforcer only if the slot is empty, and return what `initialize` answers |
| `Terminals.Terminal.SetUpChannelAccess` | src/org/simalliance/openmobileapi/service/Terminal.java:516-528 | without an enforcer, fails with "Access Control Enforcer not properly set up". Otherwise the enforcer's decision |
| `Terminals.Terminal.CloseSession` | src/org/simalliance/openmobileapi/service/Terminal.java:223-232 | null fails. Otherwise channels are closed and the session marked closed only if it was open, and the session is always removed from the list |
| `Terminals.Terminal.CloseSessions` | src/org/simalliance/openmobileapi/service/Terminal.java:234-244 | ends with an empty list and every session tracked at the start closed. The error slot holds the first error recorded |
| `Terminals.Terminal.OnServiceShutdown` | src/org/simalliance/openmobileapi/service/Terminal.java:199-203 | shutdown closes every session and ignores the error |
| `Terminals.ServiceReader.constructor` | src/org/simalliance/openmobileapi/service/Terminal.java:545 | the facade is bound to its terminal |
| `Terminals.ServiceReader.IsSecureElementPresent` | src/org/simalliance/openmobileapi/service/Terminal.java:553-562 | answers the presence query. A failed query answers false and sets the error |
| `Terminals.ServiceReader.OpenSession` | src/org/simalliance/openmobileapi/service/Terminal.java:565-596 | an absent card (not-present error), a failed presence query or a throwing `initializeAccessControl` gives no session and leaves the list unchanged. Otherwise exactly one fresh open session is appended, even when `initialize` answered false. Access control is initialised without a reset: with a card present, an existing enforcer is kept, not reset and initialised once more, and a missing one is created and initialised once. When initialisation is skipped, the enforcer slot and the enforcer are unchanged |
| `Terminals.ServiceReader.CloseSessions` | src/org/simalliance/openmobileapi/service/Terminal.java:599-606 | closes every session and fails with the first error recorded, if any |

## Left out

- Service binding and unbinding, the broadcast receiver and the `InitialiseTask` background task
  (Terminal.java lines 84-159 and 204-211): platform plumbing and concurrency. Of the shutdown
  sequence, only the session teardown is modelled.
- `synchronized` and `mLock`: all operations are modelled as sequential. The serialisation of
  concurrent callers is not modelled.
- `internalOpenLogicalChannel`, `getAtr`, `simIOExchange` and `isConnected` are thin remote
  wrappers. They are not modelled. `internalTransmit`, `isCardPresent` and the remote close are
  modelled as the scripted `Card.Transport`.
- `getName` returns the constant `Terminal.name`. It has no member of its own.
- `AccessControlEnforcer` internals are left out: rule evaluation, `setPackageManager`, and the
  value of the default access-control AID. The AID is a constant of the terminal. The enforcer's
  `initialize` answer and channel-access decision are parameters.
- `Session` and `Channel` internals are not part of this model. In particular, a session whose
  channel close closes other sessions is not modelled. A session's close error is a fixed value.
- Log messages and the text of exception messages; `dump`.
- A card that answers `61xx` forever: the scripted responder fails once its script is used up,
  so the GET RESPONSE loop is bounded by the script's length.
- Java's unchecked `(byte)` narrowing is modelled only where it matters: the Lc byte keeps the
  low eight bits of the AID length.
- `Session.closeChannels` and `SmartcardError` are not part of this model. `Session.CloseChannels`
  assumes that an error already in the slot is kept. The first-error clause of `Terminal.CloseSessions`
  and `ServiceReader.CloseSessions` rests on that assumption.
