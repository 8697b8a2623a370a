# A verified model of SIPp's call engine

SIPp drives SIP calls through a scripted scenario. This project models the parts of it whose
behaviour is hardest to see from the code, and proves what they promise: how a call ends and is
counted, what is sent again over UDP, how two ends agree on SRTP keys, how digest credentials are
printed, read and checked, how a message is rendered, what is read of an SDP, how calls are
opened by rate or by users, and the small structures underneath (dialogs, request sources, TDM
circuits, the block pool, the retransmission hash).

`dafny verify dfyconfig.toml` checks all of it. Each file holds one module.

| file | models |
|---|---|
| `Basics.dfy`, `Text.dfy`, `Decimal.dfy` | characters, blanks, decimal numbers and what else the others share |
| `AuthParams.dfy` | the quote-aware scanner of header parameters |
| `Rfc7616.dfy`, `DigestResponse.dfy` | what RFC 7616 hashes, and the response that is computed |
| `AuthDigest.dfy` | the digest credentials: their printer and their check |
| `AuthUser.dfy` | when the check accepts the credentials printed for a user, and what a value does to it that does not close |
| `AuthChallenge.dfy` | the splitter of challenges and the choice of one |
| `AkaKey.dfy` | the bytes of an AKA key |
| `CallLife.dfy` | the call state machine: its steps, its ends, `<exec verify>`, circuits |
| `Retransmission.dfy`, `Backoff.dfy` | UDP retransmissions: the timer, and the replay of answers |
| `Circuits.dfy` | the TDM circuit allocator and the printed circuits |
| `Srtp.dfy` | the SRTP offer and answer of two ends |
| `Sdp.dfy` | the media sections of an SDP |
| `Rendering.dfy` | the last steps of building a message: [len] and [authentication] |
| `Dialogs.dfy` | the dialogs of a call, swapped in and out |
| `RequestSources.dfy` | where requests came from, for their responses |
| `CallGeneration.dfy` | the opening of calls by rate or by users |
| `NodePool.dfy` | the pool of blocks carved from slabs |
| `Sdbm.dfy` | the hash that tells retransmissions apart |

The network, the clock, random numbers, the regular expressions and actions of a scenario, and
the SSL library are parameters, or arbitrary: a send is sent, waits or fails, a step of a call
happens in any order. Strings are sequences of characters; the widths of integers are written
out where they matter (32 bits in the timer and in [len], 64 in the hash).

## What was found

The proofs say where the code does what is expected of it, and where it does not.

- A header printed by `createAuthHeaderDigest` is accepted by `verifyAuthHeader` whenever every
  quoted value leaves the scanner outside quotes (`CredentialsAccepted`). The condition is exact
  (`AcceptedIffAllClose`): for every user name in which the check finds none of its own
  parameters, realm, nonce, URI and opaque values without quotes that hold no response
  parameter, and a quality of protection that is a plain word, the header is accepted if and only if the quotes written after the user name, the
  realm, the URI and the nonce close them. One that does not close, as a name that ends in a lone
  backslash (`LoneBackslash`), hides the response (`OpenValueHides`). `BackslashRefused` has a
  user and a challenge whose credentials are refused.
- The response is the one of RFC 7616: H(A1), H(A2) and their -sess and auth-int forms, hashed
  piece by piece, for all credentials, or none exactly when a digest cannot be computed
  (`CreateAuthResponse`, with the RFC's worked example in `RfcExample`).
- The challenge selected is the first digest one that `createAuthHeader` does not refuse for its
  algorithm, or for want of a qop with it (`SelectsFirstAnswered`). A selected one is then
  answered, for every text, unless it is one of a `-sess` algorithm whose last parameter is an
  opening quote after `qop=` followed only by blanks and commas (`SelectedIsAnswered`, with such a
  text in `DanglingQopIsRefused`).
- Every call is counted once, except that one which got no TDM circuit is counted when it is
  made and again if anything but its own turn ends it (`CountedTwice`). So the counters add up in
  every run in which each call got a circuit, and in general exactly when no call that got none
  was ended otherwise than by its turn (`CallLife.Process.AnyRun`); `AnyStep` says of each event
  whether it does that.
- Where nothing branches or jumps, a call that ends as successful has gone on from every message
  that is not optional, in order and once each, unless its connection closed in its last wait
  (`CallLife.Process.AnyRun`). Where commands of a twin come, a <nop> may be passed over. A
  message that is optional everywhere and advances breaks this even without a label: the code
  takes a label of -1 for one, although a comment says that a label must be explicit, so when it
  comes late the call goes back to what follows it (`GoesBack`).
- A request that was answered gets that message again, or the last response to it since, whatever
  else happened that answered no other request (`Replays`), and then the answer of its transaction
  (`ReplaysInTransaction`); a message of a hash not received yet gets nothing (`AnyRun`).
- A retransmission that waits for its socket doubles the delay and counts, although nothing was
  sent, so the delay is a function of the attempts. A provisional response to a request other
  than INVITE sets the timer even if it was stopped.
- After an offer and an answer the two ends agree exactly when the line taken has an
  UNENCRYPTED_SRTP keyword of its own suite, if any, and was decoded, and no line before it is of
  the suite for the answerer only (`Negotiate`). If all keywords are of their lines' suites that is
  whether the first line of the answered suite was decoded (`MatchedSettle`); a keyword of another
  suite keeps the ends apart (`UnmatchedApart`).
- The address of a media is read of the first c= line of its section, or without one there of the
  first c= line of the session, exactly when those parts are clear (`RemoteIsOfCLine`, `Clear`):
  no earlier line holds the line's `c=IN IP4 ` or `c=IN IP6 ` inside, something ends the address,
  and no IPv4 address is read before an IPv6 one. (Which line it is read of: another line may
  happen to hold the same address.) An attribute `a=c=IN IP4 6` before the c= line is read instead
  of it (`MisreadAddress`, of a whole SDP), and a c= line that is last in its section and has no
  carriage return is not read (`ReadsNoLastLine`).
- The section that counts, the first of its kind, or the second if the first has port 0, is the one
  found exactly when a space comes after each port that is looked at and no section of the kind is passed over up to
  it (`FindsChosen`, `Fit`); `m=audio 0` without one hides the `m=audio 8 A` after it
  (`UnspacedHides`). The crypto lines read are those after that space, which are the section's own
  exactly when its m= line has it (`CryptoIsFounds`); otherwise they may be of a later section
  (`UnspacedReadsOn`). A crypto line that no line feed ends is not read.
- The number at [len] is the length of the body of the message as it is sent, exactly when that
  has at most five digits and the message is not cut once more after its credentials were put
  in, or when a longer body is cut off whole (`LengthIsBody`).
- A run of the call generator that stops after its millisecond is continued by the next one in
  users mode. In rate mode, and while ramping, the next one opens nothing at the same time exactly
  when the rate had set the number of calls: what was not opened then counts as opened
  (`RunTwice`, with both kinds of input in `CutRun`), although a comment in the source says that
  it continues.
- A response goes to the source of the latest request with its branch, exactly unless at some
  time since there were four branches with a later request from elsewhere (`Lookup`), or the
  socket it came over is closed (`Route`).

## Model

| member | source | states |
|---|---|---|
| AuthParams.FindAuthParameter | src/auth.cpp:244-267 | the index loop with its quote flag finds exactly what the scan of the remaining text finds |
| AuthParams.ValueAt | src/auth.cpp:252-259 | a name is matched only where a name may open, and its value starts after the blanks around the equals sign |
| AuthParams.ScanQuoted | src/auth.cpp:244-267 | nothing inside a quoted text that closes is taken for a parameter, escaped characters included |
| AuthParams.ScanInWord | src/auth.cpp:256-258 | inside a word no name starts, so `nonce` is not found in `cnonce` |
| AuthParams.ReadPrinted | src/auth.cpp:269-285 | a quoted or bare value printed before other text reads back as itself |
| AuthParams.LookupRoundTrip | src/auth.cpp:244-285 | for every list of parameters and every name, the lookup in the printed header is the lookup in the list: the first parameter of that name, or nothing |
| DigestResponse.HashToHex | src/auth.cpp:106-125 | the loop fills the buffer with the two digits of each byte, in order |
| DigestResponse.HexRoundTrip | src/auth.cpp:106-125 | the digits give the bytes back |
| DigestResponse.Hex8RoundTrip | src/auth.cpp:543-547 | the eight digits of a nonce count are its value |
| DigestResponse.AlgorithmByName | src/auth.cpp:170-194 | each algorithm is known by its RFC name in any case, and by no other |
| DigestResponse.CreateAuthResponse | src/auth.cpp:438-520 | for all credentials, the texts put in piece by piece give KD(H(A1), data) of RFC 7616 with its -sess and auth-int forms, or none exactly when a digest fails or differs in length |
| DigestResponse.ResponseByDigests | src/auth.cpp:438-520 | the response of RFC 7616 by the five digests that are computed |
| DigestResponse.RfcExample | src/auth.cpp:894-925 | the response to the example of section 3.9.1 of RFC 7616 is the one it prints |
| AuthDigest.QopIsOffered | src/auth.cpp:532-541 | auth-int is preferred to auth, what is chosen is offered, and something is if anything is |
| AuthDigest.CreateAuthHeaderDigest | src/auth.cpp:522-633 | the header appended piece by piece is the printed list of the chosen parameters and the response, and each of the four errors comes when the specification has it |
| AuthDigest.PrintResult | src/auth.cpp:579-625 | what is appended step by step is the printed list of user, realm, cnonce, nc, qop, uri, nonce, response and algorithm |
| AuthDigest.HeaderReadsBack | src/auth.cpp:522-633 | each printed parameter scans back to its exact value, whatever the opaque text after it |
| AuthDigest.QopReadsBack | src/auth.cpp:522-633 | so do cnonce, nc and qop, or their absence |
| AuthDigest.OpaqueHoldsNone | src/auth.cpp:626-630 | an opaque value, whatever its text, holds no parameter that the check reads |
| AuthDigest.CheckedByResponse | src/auth.cpp:635-680 | a printed header is accepted if and only if the response recomputed from what it says is the one it carries |
| AuthUser.AcceptedIffAllClose | src/auth.cpp:635-680 | for every user name in which the check finds none of its parameters, and other values without quotes that hold no response parameter, with a qop that is a plain word, the header made for the user is accepted if and only if the quotes after the user name, the realm, the URI and the nonce close them |
| AuthUser.CredentialsAccepted | src/auth.cpp:196-237 | the round trip: what `createAuthHeader` prints for a non-AKA algorithm, `verifyAuthHeader` accepts, for every user, password, method, body and challenge whose quoted values close |
| AuthUser.BackslashRefused | src/auth.cpp:635-680 | the credentials of a user named by one backslash are made for the challenge `Digest realm="r",nonce="n"`, and refused |
| AuthUser.ClosedCloses | src/auth.cpp:244-267 | a text whose quotes and backslashes are escaped closes and hides nothing |
| AuthUser.CheckedByResponse | src/auth.cpp:635-680 | after such a name that closes, even one with quotes of its own, the header is accepted if and only if the response recomputed is the one it carries |
| AuthUser.ReadAsNameless | src/auth.cpp:244-285 | a name that closes and hides nothing leaves every other parameter as with an empty name |
| AuthUser.ScanOver | src/auth.cpp:244-267 | a text in which the scan finds nothing and the quote after it are passed over, to a state that only depends on how the text ends |
| AuthUser.NoQuoteUser | src/auth.cpp:244-267 | a user name without quotes hides nothing, and the quote after it closes it if and only if its backslashes are escaped |
| AuthUser.LoneBackslash | src/auth.cpp:244-267 | a name that ends in a lone backslash does not close |
| AuthUser.OpenValueHides | src/auth.cpp:244-285 | a user name, realm, URI or nonce that does not close hides the response, whatever the others hold but quotes and a response parameter |
| AuthUser.ScanToLast | src/auth.cpp:244-285 | the scan comes to the response inside a quoted string if and only if one of them does not close |
| AuthDigest.PlainIsClosed | src/auth.cpp:244-267 | every text without quotes and backslashes closes |
| AuthDigest.NoQuoteRead | src/auth.cpp:269-285 | no value that is read holds a quote, so it can be printed again |
| AuthChallenge.NextChallenge | src/auth.cpp:290-312 | the index loop finds the next challenge that the scan of the remaining text finds |
| AuthChallenge.SplitsWhereJoined | src/auth.cpp:290-312 | on challenges joined by ", ", with bare lists and commas in quoted strings, and commas and blanks after the last, the next challenge found is the next one joined |
| AuthChallenge.FirstIsCut | src/auth.cpp:314-335 | and the first part cut off is the first challenge |
| AuthChallenge.SelectChallenge | src/auth.cpp:314-335 | the loop over the challenges gives the selection of the specification |
| AuthChallenge.ChosenIsFirstGood | src/auth.cpp:314-335 | the challenge chosen is the first answerable Digest one of the list, or none |
| AuthChallenge.SelectsFirstAnswered | src/auth.cpp:314-335 | with spaces before the list, and commas and blanks after it that do not start with a tab, it is the text of the first digest challenge, in order, that `createAuthHeader` does not refuse for its algorithm or for a qop, or all the text if there is none |
| AuthChallenge.FirstAnswered | src/auth.cpp:314-335 | every list has such a first one, or none |
| AuthChallenge.AnswerableIffAnswered | src/auth.cpp:320-330 | for every text, a challenge is taken if and only if `createAuthHeader` fails neither for an unknown nor for an unsupported algorithm nor for a missing qop |
| AuthChallenge.LibraryDecides | src/auth.cpp:326-328 | which algorithms are taken, by what the library has and the qop |
| AuthChallenge.SelectsFirstGood | src/auth.cpp:314-335 | the same by the parameters of the challenges |
| AuthChallenge.SelectedIsAnswered | src/auth.cpp:196-237 | for every text, a selected challenge does not make `createAuthHeader` fail for its algorithm, and for a missing qop if and only if it is a `-sess` one with a dangling qop quote |
| AuthChallenge.DanglingQopIsRefused | src/auth.cpp:549-554 | a text whose selected challenge is refused for its qop |
| AuthChallenge.TrimQop | src/auth.cpp:314-335 | cutting the junk at the end of a challenge empties its qop if and only if its value is a quote and junk |
| AuthChallenge.TrimAlgorithm | src/auth.cpp:314-335 | and never makes a known algorithm unknown |
| AkaKey.GetAkaKey | src/auth.cpp:706-722 | the buffer holds the text's bytes, or those of its hex digits up to the first other character, and zeros after |
| AkaKey.HexKeyRoundTrip | src/auth.cpp:706-722 | a key written in hex after "0x" is read back, cut or filled with zeros to the length asked for |
| AkaKey.DigitsAre | src/auth.cpp:706-722 | the digits are the sixteen of both cases, with their values |
| CallLife.Process.AnyRun | src/call.cpp:2494-2637 | over every run of calls made, stepped and commands reaped: created = live + failed + successful + uncounted if every call got a circuit, and otherwise if and only if no call that got none ended otherwise than by its own turn; where nothing branches, no call ends as successful short of a message that is due, or out of order; every command points at a live call or none; circuits are busy exactly when one call has them |
| CallLife.Process.AnyStep | src/call.cpp:2494-2637 | anything that happens to a call keeps all of that, and touches no other call; a second count comes exactly from a call without a circuit that is gone and did not have its turn; the members of a call that is gone are as they were when it was deleted |
| CallLife.Process.NewCall | src/call.cpp:1386-1400 | a call is counted as created, is at its first message, gets a free circuit if there is one, and is counted as failed at once, and as refused, if there is none |
| CallLife.Process.PrintedApart | src/call.cpp:3450-3456 | of a map as large as the circuits, no two calls ever print the same circuit |
| CallLife.Process.Reap | src/call.cpp:4882-4900 | the call of a reaped command ends if and only if it is past its last message and this was its last command; no other call is touched |
| CallLife.CountedTwice | src/call.cpp:1386-1397 | two calls and one circuit: two created, two failed, one still open |
| CallLife.GoesBack | src/call.cpp:4698-4711 | a scenario in which a late message that is optional everywhere takes the call back to message 1 |
| CallLife.Call.AnyEvent | src/call.cpp:2494-2637 | after any event the call is between two steps, or gone and counted once, or without a circuit and dropped by its own turn |
| CallLife.Call.Count | src/call.cpp:2028-2142 | an end is counted in one counter, and the call is no longer open |
| CallLife.Call.Delete | src/call.cpp:1474-1528 | the call's commands point at no call any more, its circuit is free, and nothing else changes; its members are kept as they are for what comes after |
| CallLife.Call.Terminate | src/call.cpp:2028-2142 | a call ends as successful if no check failed before and it is asked to, or only waits for retransmissions, and as failed otherwise, once |
| CallLife.Call.SendRaw | src/call.cpp:1824-1831 | a message of the scenario that cannot be sent ends the call, counted as failed; one that waits changes nothing |
| CallLife.Call.FailAndAbort | src/call.cpp:2550-2584 | a failed call is counted once, whether it is aborted or just deleted |
| CallLife.Call.Abort | src/call.cpp:2825-2830 | an aborted call is counted as failed and gone |
| CallLife.Call.AbortCall | src/call.cpp:2847-2925 | aborting deletes without counting |
| CallLife.Call.Next | src/call.cpp:2144-2182 | the call goes to the label of its message exactly if there is one, its test holds and its chance is drawn, and to the message after it otherwise; it ends exactly if that is past the last and no command runs, as successful if no check failed and as failed otherwise |
| CallLife.Call.Matched | src/call.cpp:4692-4711 | a message matched at an index takes the call on from that index exactly if it advances and is not optional, or has a label other than 0 whose test holds; otherwise the call stays |
| CallLife.Call.FindAhead | src/call.cpp:4425-4444 | a message is looked for up to the first that is not optional |
| CallLife.Call.FindBehind | src/call.cpp:4446-4532 | and then back among those that are optional without a break, or everywhere |
| CallLife.Call.FindCommand | src/call.cpp:3624-3632 | a command is for the first <recvCmd>, past optional messages and <nop> only |
| CallLife.Call.TakeCommand | src/call.cpp:3633-3688 | it takes the call on from there, is kept if a <recvCmd> follows what the call waits for, or ends the call as failed |
| CallLife.Call.ActAndNext | src/call.cpp:2418-2424 | after the actions of a message the call goes on from it, unless they end it or jump |
| CallLife.Call.Receive | src/call.cpp:4154-4225 | a message is kept at a <nop> or <sendCmd>, ignored past the last message or in a pause if so set, and looked up otherwise |
| CallLife.Call.StartVerify | src/call.cpp:4841-4855 | one more running command points at the call, and it waits for one more |
| CallLife.Call.VerifyDone | src/call.cpp:4858-4880 | a call past its last message ends exactly when its last command does, as successful if no check failed and as failed otherwise |
| CallLife.Call.ExecuteAction | src/call.cpp:5208-5220 | actions leave the call where it is, or at a message they jump to, waiting for the commands they started |
| CallLife.Call.HandleActionResult | src/call.cpp:4905-4920 | false exactly for stop_call and a failed setdest, with the call gone and counted as failed; any other failed check is kept for the call's end |
| CallLife.Call.RejectCall | src/call.cpp:2927-2933 | a rejected call is counted as failed and gone |
| CallLife.Call.SendCommand | src/call.cpp:2936-3001 | a command that cannot be sent ends the call, counted as failed |
| CallLife.Call.ExecuteMessage | src/call.cpp:2184-2492 | true only if the call is there, between two steps; otherwise it is so, or ended once |
| CallLife.Call.ExecuteSend | src/call.cpp:2258-2430 | a message that is still sent again, or waits, leaves the call where it is; one that fails or times out ends it as failed; one that is sent takes it on from there |
| CallLife.Call.ExecuteRecv | src/call.cpp:2432-2490 | the same of a message waited for, with its timeout and its kept message |
| CallLife.Call.TimeOut | src/call.cpp:2550-2584 | a timeout goes on at its label if that is before the end of the scenario, and ends the call as failed otherwise, once |
| CallLife.Call.Run | src/call.cpp:2494-2637 | a call without a circuit is dropped on its turn, one past its last message waits, and any other is left between two steps, or ended once |
| CallLife.Call.Resume | src/call.cpp:2601-2637 | a pause that is not over, a playback that goes on and commands that are awaited hold the call where it is |
| CallLife.Call.ProcessUnexpected | src/call.cpp:2749-2823 | an unexpected message ends the call as failed, once, if that is the behaviour asked for, and changes nothing otherwise |
| CallLife.Call.AutomaticResponse | src/call.cpp:5725-5841 | an automatic answer keeps the call only for the messages it just answers; otherwise it ends it once, as failed, or uncounted for a ping, if that is asked for |
| CallLife.Call.ProcessIncoming | src/call.cpp:4154-4747 | true only if the call is there, between two steps, whatever the message is; unchanged if the message is ignored |
| CallLife.Call.ProcessTwin | src/call.cpp:3613-3690 | the same of a command of the other SIPp |
| CallLife.Call.TcpClose | src/call.cpp:1989-2002 | a lost connection ends the call, counted once |
| Retransmission.Retransmitter.KeepRecvRetransMsg | src/call.cpp:5859-5865 | what the aliased pair denotes is the same before and after, and no longer the last message |
| Retransmission.Retransmitter.Send | src/call.cpp:2258-2424 | a message is sent exactly when no timer runs and the socket takes it; the copy to replay becomes it if it answers the last request, and is unchanged otherwise; so does the response of its transaction |
| Retransmission.Retransmitter.Remember | src/call.cpp:2346-2411 | the pair denotes the copy of the answer after every send |
| Retransmission.Retransmitter.Expire | src/call.cpp:2539-2599 | at most the least of the two limits of retransmissions; each sends the armed message and doubles the delay, up to T2 but for an INVITE |
| Retransmission.Retransmitter.Incoming | src/call.cpp:4226-4297 | a request with the hash of the answered one gets exactly the copied bytes, one with the hash of the last received gets nothing, one of an earlier transaction gets the last response sent in it, if any, and any other is new |
| Retransmission.Retransmitter.OfTransaction | src/call.cpp:4278-4297 | the loop finds the first transaction that the request started, and its response goes again |
| Retransmission.Retransmitter.Received | src/call.cpp:4592-4702 | by reply code, method and index, what comes stops the timer, sets it to T2, or leaves it; a request that starts a transaction is kept with no response; the last message and the copy are unchanged |
| Retransmission.Retransmitter.AnyRun | src/call.cpp:4226-4277 | over every run of sends, receptions and expiries the pair denotes the copy made when the entry was last set, a message of a hash not received yet is new and gets nothing, and no message is sent again more than allowed |
| Retransmission.Retransmitter.Replays | src/call.cpp:2379-2411 | a request received and answered, in no transaction that another started: after any later events that answer no other request, the request again puts exactly that message on the wire, or the last response to it since |
| Retransmission.Retransmitter.ReplaysInTransaction | src/call.cpp:4278-4297 | a request answered in its transaction gets that answer after any events in others, once neither the entry nor the last message is of it |
| Retransmission.AnswersStop | src/call.cpp:4624-4649 | final responses stop the timer, provisional ones to an INVITE too, and to another request slow it; ACK, CANCEL, BYE and PRACK stop it; nothing does that comes before the message sent |
| Retransmission.InviteByMethod | src/call.cpp:2542-2544 | the requests with the limit and the delays of an INVITE are those of that method |
| Retransmission.InviteTimer | src/call.cpp:2587-2599 | with no provisional response, after k attempts of an INVITE the delay is d*2^k while that is below 2^32 |
| Retransmission.OtherTimer | src/call.cpp:2587-2599 | and of another request min(d*2^k, T2), for any k if d and T2 can be doubled in 32 bits |
| Backoff.InviteDelay | src/call.cpp:2587-2593 | k doublings in 32 bits are a multiplication by 2^k while it fits |
| Backoff.OtherDelay | src/call.cpp:2587-2593 | k doublings capped by T2 are the least of d*2^k and T2, without bound on k |
| Backoff.OtherDelayBelow | src/call.cpp:2587-2593 | or, without a condition on T2, while d*2^k fits |
| Circuits.FindFree | src/call.cpp:320-344 | the circular probe from any start finds the first free circuit in its order, and none if and only if all are busy |
| Circuits.PartsAreDigits | src/call.cpp:3450-3456 | the printed parts of a circuit number are within their ranges, ends included, and are its mixed-radix digits |
| Circuits.NamesDiffer | src/call.cpp:3450-3456 | two different circuits of the map are never printed alike |
| Srtp.End.WritePrimary | src/call.cpp:5915-5978 | the slot to send with is the line written, of the suite its UNENCRYPTED_SRTP keyword leaves; an answer that takes the second offered suite swaps the slots to receive with |
| Srtp.End.SendSdp | src/call.cpp:5885-5911 | an SDP sent leaves its lines in the slots to send with, tagged 0 if there is none, and moves the session on |
| Srtp.End.TakeAnswered | src/call.cpp:752-763 | the answered line becomes the primary one, or both tags are 0 |
| Srtp.End.ReceiveSdp | src/call.cpp:5983-6034 | an SDP that comes leaves its decoded lines in the slots to receive with, and takes the answer if one was awaited |
| Srtp.FirstOf | src/call.cpp:719-735 | the line found is the first that its writer keeps with the suite |
| Srtp.TagChooses | src/call.cpp:719-735 | of two lines of the suite the tag chooses, and otherwise the suite does |
| Srtp.TakeAnswer | src/call.cpp:752-763 | after an offer of two lines and any answer, the offerer sends with the line of the suite, and of two with the one of the tag, or with none |
| Srtp.SuiteByCipher | src/jlsrtp.cpp:1457-1500 | each suite is the name of its cipher and its hash |
| Srtp.Negotiate | src/call.cpp:3573-3594 | after one offer and one answer, from any earlier contexts: if the answered suite was offered, the offerer sends with what the answerer receives with if and only if the line taken settles it; the other way round, if and only if the answer was decoded and its keyword is of its suite; if the suite was not offered, both tags of the offerer are 0 |
| Srtp.MatchedSettle | src/call.cpp:719-735 | when every keyword is of its line's suite, that is whether the first offered line of the suite was decoded |
| Srtp.UnmatchedApart | src/call.cpp:5935-5960 | a decoded line whose keyword is of another suite settles nothing, whichever suite is answered |
| Sdp.AnyText | src/call.cpp:428-432 | every text is the print of a document of session lines and sections, so the results below are about all texts |
| Sdp.CutSection | src/call.cpp:428-432 | the section cut from an SDP is its m= line and the lines up to the next one |
| Sdp.CutSession | src/call.cpp:437-444 | the session part is what is before the first m= line |
| Sdp.FindsChosen | src/call.cpp:523-562 | if a section of the kind counts, it is the one found, with the port of its own m= line, if and only if a space comes after each port looked at, up to which no other of the kind is passed over; if these are so and none counts, none is found |
| Sdp.FindsAny | src/call.cpp:523-562 | for every SDP and any reader of numbers, the section, the port and the place to read on of what is found, by its sections |
| Sdp.PortIsOwn | src/call.cpp:523-539 | the port read is that of the m= line if and only if it is 0 or a space comes after it, in the line or later |
| Sdp.UnspacedHides | src/call.cpp:523-539 | an SDP whose second audio counts and is not found, as the m= line of the first has port 0 and no space |
| Sdp.RemoteIsFound | src/call.cpp:544-562 | for every SDP, the port of the section found, and the address read of its own lines, or else of the session lines |
| Sdp.ReadsAddress | src/call.cpp:415-425 | of each part, the line read is its first c= line if and only if no earlier line holds its pattern, its address is ended and, for an IPv6 one, no IPv4 one is read |
| Sdp.RemoteIsOfCLine | src/call.cpp:544-562 | for every SDP, the line that the address is read of is the first c= line of the section found, or without one the first of the session, if and only if these parts are clear, and the address is then that line's |
| Sdp.RemoteIgnoresOthers | src/call.cpp:544-562 | SDPs with the same session lines and the same chosen section give the same, whatever the other sections, of other kinds or of its own |
| Sdp.ReadsFirstHolder | src/call.cpp:395-413 | in a section or in the session, the value comes from the first line that holds the pattern, which is the first that starts with it if and only if no earlier line holds it inside |
| Sdp.ReadsValue | src/call.cpp:395-413 | and then it is the line's value if and only if something ends it |
| Sdp.FindsFirst | src/call.cpp:397-402 | a search finds the first place that starts with the pattern, and none exactly if there is none |
| Sdp.ReadsUpTo | src/call.cpp:403-412 | for every value without a space, a slash, a carriage return and a line feed, and each of these after it, the value is what is read |
| Sdp.ReadsBare | src/call.cpp:403-412 | no value that is read holds one of the four |
| Sdp.ReadsNothing | src/call.cpp:408-410 | a value that none of them ends is not read |
| Sdp.MeantIsWritten | src/call.cpp:415-425 | the address meant is what is written after the pattern, up to one of them |
| Sdp.WrittenFirst | src/call.cpp:544-562 | in SDPs with carriage returns, a media with its own c= line goes to that address, without its TTL |
| Sdp.WrittenSecond | src/call.cpp:544-562 | and one without goes to that of the session |
| Sdp.WrittenRemotes | src/call.cpp:544-562 | an SDP with a multicast audio and a video, and where each goes |
| Sdp.MisreadAddress | src/call.cpp:544-562 | a whole SDP whose c= line says 1 and whose media goes to 6 |
| Sdp.ReadsNoLastLine | src/call.cpp:395-413 | a c= line that is last in its section is not read if its address is not ended there |
| Sdp.CryptoIsFounds | src/call.cpp:902-945 | for every SDP, the crypto lines read are the first two after the first space behind the port that a line feed ends; the lines after it are the section's own if and only if its m= line has the space |
| Sdp.CryptoIsChosens | src/call.cpp:902-945 | so they are the first two of the section that counts, if it is found and its m= line has the space |
| Sdp.CryptoIgnoresOthers | src/call.cpp:902-945 | they are the same in SDPs with the same chosen section, last in both or in neither, whatever the other sections |
| Sdp.UnspacedReadsOn | src/call.cpp:523-539 | in any SDP, with session lines and sections of other kinds before, without a space after the port the lines read are those after the first space, even of a later section |
| Rendering.BuildMessage | src/call.cpp:3033-3597 | the loop over the components and the fix-ups give the message of the specification, or its error |
| Rendering.Build | src/call.cpp:3549-3553 | a message never exceeds the buffer |
| Rendering.BuildShows | src/call.cpp:3033-3597 | a message that fits is the texts of its components in order, with the length of its body for its last [len] and the credentials for its [authentication], or the error for a missing challenge or bad credentials |
| Rendering.HasNumber | src/call.cpp:3489-3506 | there is a number for a [len] unless its offset makes it negative or longer than five digits |
| Rendering.BuildElse | src/call.cpp:3489-3506 | two [authentication], or one in the body of a message with a [len], are the errors they are; a [len] of a message without a body ends it |
| Rendering.AssembleMarked | src/call.cpp:3056-3253 | the places remembered for [len] and [authentication] hold their placeholders, apart |
| Rendering.SettleMarked | src/call.cpp:3468-3480 | and still do, or are forgotten, once the text is cut |
| Rendering.PutMoves | src/call.cpp:3547-3547 | credentials without an empty line, put before the first one, only move it |
| Rendering.FilledTells | src/call.cpp:3489-3506 | the number filled in at [len] is the length of the body, 0 with the end of the headers added if they had none |
| Rendering.TellsBody | src/call.cpp:3489-3547 | for all components, challenges and credentials, replacing the placeholder afterwards keeps the number right, at the place it then has |
| Rendering.LengthIsBody | src/call.cpp:3489-3553 | read from the message that is sent, it is the body's length if and only if that has at most five digits and nothing was cut after the credentials, or it had more and was cut off whole; a second cut into the headers leaves no body |
| Rendering.CutAgain | src/call.cpp:3549-3553 | after a second cut in the body a number that was right is right if and only if nothing was cut; one told as 0 if and only if nothing of the body is left |
| Dialogs.CallDialogs.Switch | src/call.cpp:3901-3917 | the map from dialogs to their states is unchanged, but for a new dialog at the base CSeq; Call-IDs stay, and the entry of the current dialog is the unused default one |
| Dialogs.CallDialogs.SetCallId | src/call.cpp:3954-3963 | recording a Call-ID changes no dialog's state and no other entry, and adds a new one at the base CSeq |
| Dialogs.CallDialogs.Swap | src/call.cpp:3906-3913 | all six members and the entry change places |
| Dialogs.AnyRun | src/call.cpp:3892-3917 | every run of switches, Call-IDs and updates agrees with the same run on a plain map; the current dialog's entry is always the unused default one |
| RequestSources.Table.RememberMessage | src/call.cpp:4103-4147 | which messages are remembered, and from where; at most four entries of distinct branches, each socket held as often as its others and its entries say |
| RequestSources.Table.Remember | src/call.cpp:4123-4146 | the entry of the branch goes, the new one comes last, the oldest of four makes room |
| RequestSources.Table.Forget | src/call.cpp:4089-4095 | an entry gives back one hold on its socket; the last hold deletes it, and no entry points at a deleted one |
| RequestSources.Table.Lookup | src/call.cpp:1799-1813 | the source of the latest request with the branch is found if and only if there never were, since, four branches with a later request from elsewhere; otherwise nothing is |
| RequestSources.Table.Route | src/call.cpp:1797-1813 | the response goes to that source's address or over its socket, which exists, or as the call's other messages if there is none or its socket is closed |
| RequestSources.AnswersBack | src/call.cpp:4103-4147 | a response to a request just received goes back to its address or over its connection, if these are not the call's own and the connection is open |
| RequestSources.Table.Clear | src/call.cpp:1481-1483 | at the end of the call every socket has the holds of the others only |
| RequestSources.RecordIsLatest | src/call.cpp:4103-4147 | the unbounded record holds exactly the sources of the branches whose latest request came from elsewhere |
| RequestSources.KeptUpToFour | src/call.cpp:4134-4137 | the entry of a branch is there if and only if there never were four branches with a later request from elsewhere |
| RequestSources.PeakBound | src/call.cpp:4134-4137 | so it takes at least four later requests from elsewhere to lose it |
| RequestSources.SinceCounts | src/call.cpp:4134-4137 | those requests are the ones from elsewhere after the last of the branch |
| RequestSources.AnyRun | src/call.cpp:4089-4147 | over all requests, lookups, and sockets opened, held and closed: at most four distinct entries, the end of the full record, and no hold left over |
| CallGeneration.Generator.Run | src/call_generation_task.cpp:104-227 | how many calls are opened, within the users, the calls due, the last call to make and the limit of open calls; in users mode every call takes a free user |
| CallGeneration.Generator.OpenCalls | src/call_generation_task.cpp:152-203 | the loop opens the calls asked for that there is time for, at least one if any is asked for, and never takes from an empty list |
| CallGeneration.Generator.RunTwice | src/call_generation_task.cpp:134-216 | what the next run opens, at the same time, of the calls that a run cut short did not: by users all of them, and by rate or while ramping none if and only if the rate had set their number |
| CallGeneration.LeftToOpen | src/call_generation_task.cpp:134-158 | the arithmetic of it, for every number of calls due, open, created and to make |
| CallGeneration.CutRun | src/call_generation_task.cpp:134-216 | at a million calls per second, a run cut after one call whose other calls are lost, and one whose other 99 are opened by the next |
| CallGeneration.Generator.SetRate | src/call_generation_task.cpp:248-281 | a change of the rate starts the count anew, with the user's limit of open calls, or else three times the rate times the longest duration, at least 1 |
| CallGeneration.LimitIsThreeTimes | src/call_generation_task.cpp:262-279 | that limit is the whole number of calls that the rate opens in three times the longest of a second and the durations, or 1 |
| CallGeneration.LimitAtTen | src/call_generation_task.cpp:262-279 | 30 at ten calls per second, and 1800 with a scenario or a duration of a minute |
| CallGeneration.Generator.SetUsers | src/call_generation_task.cpp:283-320 | users are added first from the retired ones and then with the next ids, exactly as many as asked for; lowering them moves none; the free users and the calls still cover the users |
| CallGeneration.Generator.AddUser | src/call_generation_task.cpp:295-306 | one user more: a retired id if there is one, else the next number |
| CallGeneration.Generator.EndUserCall | src/call_generation_task.cpp:322-333 | the id of a call that ends is free or retired, and no id is lost or doubled |
| CallGeneration.Generator.SetPaused | src/call_generation_task.cpp:229-246 | going on after a pause keeps the users, the rate and the user's limit of open calls, and all the above |
| CallGeneration.UniformGrows | src/call_generation_task.cpp:96-102 | the floor of elapsed * rate / period never falls as time passes |
| CallGeneration.AnyUsersRun | src/call_generation_task.cpp:118-158 | over every interleaving of users set, runs and ends of calls: free users + calls >= users, and no more calls than asked for |
| CallGeneration.AnyRaisingRun | src/call_generation_task.cpp:295-306 | if users are only raised from 0, each id from 1 to the users is about exactly once |
| CallGeneration.AnyRateRun | src/call_generation_task.cpp:96-202 | over every run the calls opened since the last change of the rate are no more than are due, all calls no more than asked for, and the open calls no more than the limit set |
| NodePool.Pool.Allocate | include/node_pool.hpp:34-52 | a block handed out is in memory, was in use by nobody, and links no slab; it is the first free one, or of a new slab |
| NodePool.Pool.Deallocate | include/node_pool.hpp:54-64 | a block given back is the first free one; the last one after the end leaves no memory |
| NodePool.Pool.Write | include/node_pool.hpp:67-70 | what a user writes over its block does not disturb the pool |
| NodePool.Pool.Release | include/node_pool.hpp:72-80 | every slab is deleted, none is read after |
| NodePool.Pool.Exit | include/node_pool.hpp:82-90 | at the end of the process an unused pool gives back all its memory |
| NodePool.CarveSlab | include/node_pool.hpp:37-48 | a slab's first block links the slabs and all the others are free, once each |
| NodePool.DeleteSlabs | include/node_pool.hpp:72-80 | the loop frees all memory, reading each link before its slab is gone |
| NodePool.Conserved | include/node_pool.hpp:34-64 | used + free + slabs = all blocks of all slabs |
| NodePool.AnyRun | include/node_pool.hpp:34-90 | over every sequence of allocations, writes, deallocations and ends: the blocks held are exactly those handed out, the count is right, and once ended with none in use no slab remains |
| Sdbm.SdbmHash | src/call.cpp:1084-1098 | four characters at a time, with wrapped powers, give the hash of the one-character loop |
| Sdbm.Hash | src/call.cpp:1084-1098 | so it is in 64 bits, for texts of every length and characters of both signs |
| Sdbm.RoundMultiplies | src/call.cpp:1112-1114 | a round of the loop with its shifts is a multiplication by 65599 and an addition |

## Left out

- Sockets, name resolution, processes, logging, the screens, Lua and pcap playing: input and output only.
- AuthUser.AcceptedIffAllClose: a user name in which the check finds a parameter of its own is read as what it then says, so that acceptance hangs on the values of the hash; such names are not covered.
- AuthChallenge.SelectsFirstGood: a tab right after the last parameter is not covered, as it is read as part of a bare value.
- AKA authentication but for the bytes of its keys; what the SSL library computes is a parameter.
- CallLife.Call.Run: a message that comes may run the call again inside its handling; the nesting is bounded by a parameter of any size, because a label for unexpected messages at a message that matches nothing makes the code nest without end.
- CallLife.Call.ExecuteRecv: the same bound; with none left a kept message stays kept.
- CallLife.Call.ExecuteAction: the actions themselves, variables and regular expressions are arbitrary results.
- CallLife.Call.FindAhead: whether a message received is one of the scenario is arbitrary, but for its kind.
- CallLife.Call.Dispatch: some steps return false although the call is there, as the code does; only that true means it is there is stated.
- Retransmission.Retransmitter.Incoming: the counters of retransmissions are not modelled, nor is an answer that goes to another destination.
- Retransmission over TCP, where nothing is sent again.
- Srtp.Negotiate: more than one media, an answer of two lines, two offered lines with the same key, and what JLSRTP does with the keys beyond its documented swap and suite names; the base64 decoding of a key is a result of either kind.
- Sdp.FindsChosen: if no section of the kind counts, the converse is not stated: some that are misread do not count either. The reader of numbers is any that does not read past a line.
- Sdp.RemoteIgnoresOthers: of SDPs whose section is found as Sdp.FindsChosen says; of others the other sections do matter.
- Sdp.CryptoIgnoresOthers: the same, with a space in the m= line, as the lines read are otherwise not the section's (Sdp.CryptoIsFounds).
- The reading of the fields of a crypto line, and the media addresses of pcap plays.
- Rendering.BuildMessage: the text of each keyword is a parameter, and an [authentication] that comes out of an input file is not modelled.
- Rendering.BuildShows: for a message that fits the buffer before its credentials are put in, and a [len] of five characters; longer ones are cut as Rendering.LengthIsBody says.
- Rendering.LengthIsBody: for a [len] without an offset, and credentials without an empty line that do not end with a line end.
- RequestSources.Table.RememberMessage: the extraction of the branch is not modelled; a message over a connection comes with a socket that the connection holds.
- CallGeneration.AnyRaisingRun: ids are not unique once users were lowered and raised again; the code does not keep that.
- CallGeneration.Generator.SetRate: the rounding of float is not modelled; the calls due are any function of time that does not fall.
- CallGeneration.Generator.Run: the scheduling of the generator, incoming calls and TDM circuits.
- NodePool.Pool.Allocate: for slabs of at least two blocks; the address of a slab is any that is not in use.
- Counting of outcomes other than the ends of calls, such as the reasons of failures and repartition tables.
- The time wheel, WebSocket, DNS ordering, pollers and the index of input files.
- Setters, option parsing, the scenario parser and dead calls: they would only add easy members.
