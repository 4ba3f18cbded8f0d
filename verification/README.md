# Mockttp in Dafny

A model of the parts of Mockttp that carry state or a wire format, with proofs about every run, every
interleaving or every input:

| files | what they model |
|---|---|
| `BodyBuffering.dfy` | one body stream feeding a size-capped buffer and any number of lazy replay streams |
| `BodyEvents.dfy` | timer-batched body events |
| `RuleScheduler.dfy`, `RuleRuns.dfy`, `RuleOverlap.dfy`, `RuleInterruption.dfy`, `RuleSequence.dfy`, `RuleLevels.dfy`, `RuleAgreement.dfy` | choosing a rule for a request: one selection, interleaved selections and what overlap and interruption do, whole sequential runs over one priority and over all, and which rules are safe from interruption |
| `Matching.dfy` | `matchesAll`: the synchronous pass and the race of promises |
| `Channel.dfy`, `ChannelOrder.dfy`, `ChannelProgress.dfy`, `Framing.dfy` | the multiplexed request/response channel and its line framing |
| `ProxyConfig.dfy` | proxy configuration sent over that channel |
| `Socks.dfy`, `SocksRoundTrip.dfy` | the SOCKS4, 4a and 5 handshake (RFC 1928, RFC 1929), and from client bytes to destination |
| `AgentPool.dfy` | upstream agents pooled per downstream connection |
| `BigEndian.dfy`, `Der.dfy`, `CertificateTransparency.dfy` | DER (X.690), SCT lists (RFC 6962) and P-256 scalars |
| `Headers.dfy`, `HeaderObjects.dfy`, `RequestFraming.dfy`, `CallbackFraming.dfy` | raw headers, header objects, and request framing after a transform or a callback |
| `RawHttp.dfy` | splitting buffers, printing and parsing raw responses |
| `Prelude.dfy`, `Text.dfy` | shared vocabulary: options, flattening, number and string operations |

## How to read it

Event-driven code is a state value, a `Step` function on it (one turn of the event loop) and `Run` over any
list of possible events; the main theorems quantify over all such lists. The closures and classes of the
source that update this state are classes here, and each of their methods is proved to do exactly its step
to the whole state. Loops are methods proved equal to a specification function, and the specification
functions are what the lemmas are about. `dafny verify dfyconfig.toml` checks the whole project.

## Where code and intent differ

Each of these is proved, with the exact condition under which the code does what it says:

- Updating raw headers is meant to "remove all previous values" but does not step back after a removal, so
  of each run of k adjacent headers of one name floor(k/2) survive (`Headers.RunLeavesHalf`). It does what it
  says exactly when no two headers of an updated name are separated only by headers of names updated before
  it (`Headers.RemovalIsCompleteIff`).
- "It's impossible to send a request with framing that doesn't match the body": it is possible, with an
  `updateHeaders` that removes content-length or transfer-encoding, or sets them under a name that is not
  lowercase, because the fix-up then looks at the original headers; with several content-lengths, or with a
  request that has several (`RequestFraming.OutgoingIsFramedIff`, `RequestFraming.FramingHoldsIffReliable`,
  `RequestFraming.FramingHoldsForAllIff`). After a `beforeRequest` callback that returned something it is
  possible, unless the headers say chunked, with a content-length in another casing or with several of them
  and, if it returned headers and no body, whenever the body is larger than what is buffered: the length set
  is then that of what was kept (`CallbackFraming.CallbackIsFramedIff`, `CallbackFraming.CallbackFramesAllIff`,
  `CallbackFraming.WrongMeasureMisframes`).
- "Returns a stream for the full body": a stream opened after the buffer dropped its data and before
  `completedBuffer` is set (one microtask) only ever holds a proper suffix of the body
  (`BodyBuffering.StreamIsWholeIffOpenedBeforeDrop`).
- "The last option at each priority repeats indefinitely": if a later rule completes while a selection
  waits, an earlier default rule is passed over (`RuleInterruption.InterleavedSelection` says exactly when in
  a run). Read off the rules before any request: it can happen to a request exactly when some level has a
  matching default rule, after all of those a matching rule with a limit above zero and no matching
  `always()`, and all matching rules above that level are limited (`RuleAgreement.SelectionsAgreeIff`).
- A rule limited to n requests can take as many more as overlap, less one, for every n and every degree of
  overlap; the limit holds exactly when selections do not overlap (`RuleOverlap.LimitHoldsIffNoOverlap`).
- A request over the channel is settled exactly unless its response is read before the write of the request
  has called back (`ChannelProgress.NoRequestIsLost`), and never if its own end closes first
  (`ChannelProgress.DisposalLeavesRequestsUnsettled`).
- A data event that ends inside a message breaks that message (`Framing.CutIsHarmlessIffBetweenLines`).
- A proxy config sent over the channel loses meaning exactly if a parameter reference has an empty key, or a
  callback that decides for some host answers with a certificate in a buffer: fixed settings have theirs
  turned into text, but a callback's answer is sent as JSON, and the certificate is then read as
  "[object Object]" (`ProxyConfig.MeaningIsKeptIff`, `ProxyConfig.BufferFromCallbackIsLost`).
- A bracketed IPv6 host without a port is split inside its brackets (`SocksRoundTrip.BareHostIsKeptIff`).
- A read of zero bytes does not return, so a SOCKS5 client is answered exactly if it offers at least one
  method and announces no empty name, password or metadata (`SocksRoundTrip.MethodListIsAnsweredIff`,
  `SocksRoundTrip.CredentialsAreAnsweredIff`).
- Every 0.0.0.x address, 0.0.0.0 included, is taken to announce a SOCKS4a domain, so without one the request
  is not answered (`SocksRoundTrip.Socks4IsAnsweredIff`).
- SOCKS5 failure replies are 8 bytes, where section 6 of RFC 1928 has 10
  (`SocksRoundTrip.UnsupportedRequestIsRefused`).
- An empty header value is falsy, so leading empty values of a repeated header are lost
  (`HeaderObjects.ObjectIsNormalForm`).
- DER lengths of 65536 and more are truncated (`Der.LengthComesBackIff`, `Der.SignatureComesBackIff`).
- A limit of 0 or 1 parts is no limit for `splitBuffer` (`RawHttp.LimitsFromTwoHold`).

## Model

| member | source | states |
|---|---|---|
| BodyBuffering.BodyReader.OnData | src/util/buffer-utils.ts:99-126 | the buffer's data listener, with truncation, does exactly `Collect` to the whole state: the lazy streams take the buffered chunks before they are dropped |
| BodyBuffering.BodyReader.EmitData | src/util/buffer-utils.ts:99-127 | a data event reaches the buffer's listener and then the pipes that were attached when it was emitted |
| BodyBuffering.BodyReader.OnRead | src/util/buffer-utils.ts:35-61 | the first read of a lazy stream takes what is buffered and follows the input, or fails if the body failed; later reads change nothing |
| BodyBuffering.BodyReader.EmitTruncate | src/util/buffer-utils.ts:69-73 | every stream that was not read yet is read now, the others are left alone |
| BodyBuffering.BodyReader.AsBuffer | src/util/request-utils.ts:165-175 | buffering starts once, and resolves or fails at once or later when the input is already over |
| BodyBuffering.BodyReader.AsStream | src/util/request-utils.ts:156-164 | a replay of the completed buffer, or a lazy stream over the buffer in progress |
| BodyBuffering.BodyReader.EmitEnd | src/util/buffer-utils.ts:129-131 | the end resolves the buffer with what is kept and ends the pipes |
| BodyBuffering.BodyReader.EmitError | src/util/buffer-utils.ts:133-136 | an error rejects the buffer and reaches every pipe |
| BodyBuffering.BodyReader.OnResolved | src/util/request-utils.ts:165-175 | the microtask that records the completed buffer |
| BodyBuffering.ReceivedIsTheData | src/util/buffer-utils.ts:84-144 | the `received` of the theorems is the concatenation of the chunks of the run's own data events |
| BodyBuffering.NextKeepsInv | src/util/buffer-utils.ts:84-144 | one inductive invariant of buffer, size, promise and completion that every event keeps |
| BodyBuffering.BufferAgreesWithInput | src/util/buffer-utils.ts:84-144 | in every interleaving: pending while the input lives within maxSize, then resolved to all chunks concatenated if it ends, to empty as soon as it overflows, and rejected exactly if it dies before either; never more than maxSize kept between events |
| BodyBuffering.SettledForGood | src/util/buffer-utils.ts:84-97 | a settled promise never changes again in any run |
| BodyBuffering.ImmediateSettles | src/util/buffer-utils.ts:86-97 | a buffer asked for after the input died is rejected by the queued immediate, and then nothing that is over is left pending |
| BodyBuffering.RunKnowsItsEvents | src/util/buffer-utils.ts:84-144 | the input flags used above are exactly which events came, and only asStream opens streams |
| BodyBuffering.FirstReadDecides | src/util/buffer-utils.ts:30-66 | a stream first read after the body failed fails and stays empty; any other takes what is buffered then and follows the input, its end and its death |
| BodyBuffering.PipedFollowsInput | src/util/buffer-utils.ts:40-56 | a stream being read gets every later chunk in order, ends exactly with the input and fails exactly with its error, whatever else happens |
| BodyBuffering.StreamIsWholeIffOpenedBeforeDrop | src/util/buffer-utils.ts:27-76 | every read stream holds exactly the bytes received, once and in order, if and only if it was opened before the drop; it ends with the input, and a drop leaves no such stream unread |
| BodyBuffering.LateStreamReplaysBuffer | src/util/request-utils.ts:156-175 | once the promise has resolved and its microtask has run, every stream opened replays the resolved value, whatever happens in between and later |
| BodyEvents.BodyDataEmitter.FlushPendingContent | src/util/request-utils.ts:710-737 | a flush does exactly `Flush` to the closure's variables |
| BodyEvents.BodyDataEmitter.OnData | src/util/request-utils.ts:739-756 | data is appended to the pending content and arms the timer if none is armed |
| BodyEvents.EventsConserveData | src/util/request-utils.ts:700-763 | in every run: until finished, content is pending iff a timer is armed, and emitted plus pending is what was received; a finished feed has emitted everything iff nothing came late; only the last callback can say ended |
| BodyEvents.CallbacksAreExactly | src/util/request-utils.ts:700-763 | for every run exactly which callbacks were made, read off its events: which flushes call back, with which bytes, at which time, and that isEnded is said exactly if the message had ended; and when the feed is finished |
| BodyEvents.TerminalFinishes | src/util/request-utils.ts:758-762 | error, end or close leaves the feed finished with exactly one more callback, unless it was finished |
| BodyEvents.FinishedIsFinal | src/util/request-utils.ts:710-711 | nothing follows the finishing callback in any run |
| BodyEvents.BatchIsOneCallback | src/util/request-utils.ts:746-756 | chunks that arrive before the timer leave as one callback with their concatenation and the first one's time |
| RuleScheduler.PickFromMeetsIntent | src/server/mockttp-server.ts:892-914 | filter, scan, second filter, take last: the first matching incomplete rule, else the last matching maybe-complete one, and none iff every matching rule is completed |
| RuleScheduler.PicksIsUnique | src/server/mockttp-server.ts:880-887 | the documented choice is unique |
| RuleScheduler.FindMeetsIntent | src/server/mockttp-server.ts:888-917 | an uninterrupted selection returns that rule of the highest priority that has one, and nothing exactly when all matching rules everywhere are completed |
| RuleRuns.UnmatchedForGood | src/server/mockttp-server.ts:888-917 | once a request would be unmatched it stays so in every run from there, and no request like it is handed a rule, however its selection is interrupted |
| RuleScheduler.RequestRule.RunSteps | src/rules/requests/request-rule.ts:86-96 | the loop handles the steps up to and including the first that does not go on, and rejects exactly if that one throws |
| RuleScheduler.RequestRule.Handle | src/rules/requests/request-rule.ts:98-130 | whatever the steps come to, the request is recorded if asked for and counted once, and nothing else of the rule changes |
| RuleScheduler.Filter | src/util/promise.ts:4-10 | the promise filter keeps the elements whose test answered true, in order |
| RuleScheduler.StartMatching | src/server/mockttp-server.ts:893-896 | the rules not definitely complete, in order, each with its match |
| RuleScheduler.ScanMatches | src/server/mockttp-server.ts:898-904 | the loop returns the first candidate that matches and is incomplete |
| RuleScheduler.LastMatch | src/server/mockttp-server.ts:909-910 | the last element of the filtered candidates |
| RuleScheduler.FindMatchingRule | src/server/mockttp-server.ts:888-917 | the nested loops with early return, on the live rule objects, give exactly the specified choice |
| RuleScheduler.DescendingIsSorted | src/server/mockttp-server.ts:892 | reversed natural-number keys are every priority once, highest first |
| RuleScheduler.ReversedKeys | src/server/mockttp-server.ts:892 | the order in which the rule sets are visited |
| RuleScheduler.MockttpServer.AddToRuleSets | src/server/mockttp-server.ts:274-280 | a rule goes to the end of its priority's list; the sets go on grouping exactly the rules added |
| RuleScheduler.MockttpServer.SetRequestRules | src/server/mockttp-server.ts:282-289 | the sets hold exactly the given rules, grouped by priority, in order |
| RuleRuns.UninterruptedIsFind | src/server/mockttp-server.ts:888-917 | the suspended selection, resumed by itself, returns what the specification says |
| RuleRuns.ChosenBelowCapacity | src/server/mockttp-server.ts:898-914 | a limited rule is only ever returned while its counter is below its limit |
| RuleRuns.StepKeepsBound | src/server/mockttp-server.ts:755-776 | count plus selected-but-unhandled stays within n - 1 + W in every step |
| RuleRuns.CounterBound | src/server/mockttp-server.ts:755-776 | in every interleaving with at most W requests between selection and counting, a rule limited to n ends at most at n - 1 + W |
| RuleRuns.NeverAboveLimit | src/server/mockttp-server.ts:755-776 | with one such request at a time, never above n |
| RuleOverlap.BoundIsReached | src/rules/requests/request-rule.ts:80-130 | for every n >= 1 and W >= 1, and every checker with limit n, a run from a server that has seen nothing reaches n - 1 + W |
| RuleOverlap.LimitHoldsIffNoOverlap | src/server/mockttp-server.ts:755-776 | the limit holds in all runs with at most W requests in the window exactly when W <= 1 (or the limit is zero) |
| RuleInterruption.StepKeepsInformed | src/server/mockttp-server.ts:892-914 | what every suspended selection knows in every interleaving: each rule not complete is a candidate, none scanned over is open, and no passed level has an open matching rule |
| RuleInterruption.InterleavedSelection | src/server/mockttp-server.ts:888-917 | in every interleaving a returned rule is its level's choice at that moment, and the answer is the uninterrupted one exactly if no level given up on holds a matching default rule that could repeat |
| RuleInterruption.FilterAgreesInEveryRun | src/server/mockttp-server.ts:906-914 | in every run the second filter agrees with an uninterrupted choice made at that moment exactly unless the last candidate has completed while a default rule is there to repeat |
| RuleAgreement.SelectionsAgreeIff | src/server/mockttp-server.ts:888-917 | for rules that have seen nothing and requests that they match in one way: all such requests are answered as if uninterrupted, in every interleaving with any other requests, exactly unless some level can pass over a default rule, which is a condition on the rules alone |
| RuleAgreement.PassedOver | src/server/mockttp-server.ts:906-914 | for every such level, a run from a server that has seen nothing in which its last default rule should answer and the request goes on to the levels below |
| RuleAgreement.InterruptionSkipsDefaultRule | src/server/mockttp-server.ts:906-914 | for every such list of rules alone on a server, a run from the beginning that leaves a request unmatched which the last default rule would answer |
| RuleAgreement.StepKeepsTold | src/server/mockttp-server.ts:892-914 | what giving up on a level tells of its rules, in every interleaving: no default rule, or one that can be passed over |
| RuleSequence.SequentialRunsInClosedForm | src/server/mockttp-server.ts:892-916 | for every list of rules, matching or not: which rule serves the k-th of n like requests (prefix sums of the limits of those that match, then the last default rule, then none), and every counter after them |
| RuleSequence.ServesIsUnique | src/rules/completion-checkers.ts:9-73 | the closed form names at most one rule |
| RuleLevels.SequentialRunsOverLevels | src/server/mockttp-server.ts:888-917 | the closed form over all priorities: which level and rule serve the k-th of n like requests, and every counter after them |
| RuleLevels.ServesAtIsUnique | src/rules/completion-checkers.ts:9-73 | that closed form names at most one level and rule |
| RuleLevels.ServedInTurn | src/server/mockttp-server.ts:755-776 | from every state of the server, a run in which n like requests come one by one leaves exactly those counters |
| RuleSequence.EveryRequestIsAccountedFor | src/rules/requests/request-rule.ts:125-144 | whatever the rules and matches, counters grow by exactly the requests that were not left unmatched |
| Matching.SynchronousPass | src/rules/matchers.ts:641-652 | false iff some matcher refused at once (calling none after the first refusal), true iff all accepted at once, otherwise a race over exactly the promises |
| Matching.OuterPromise.OnSettle | src/rules/matchers.ts:655-661 | the reactions to one settlement do exactly one step of the race |
| Matching.OuterPromise.OnAll | src/rules/matchers.ts:663-665 | the reaction of Promise.all |
| Matching.OutcomeIsFirstDecisive | src/rules/matchers.ts:655-666 | in every settle order the outcome is the first false or rejection, and true only after all |
| Matching.PromiseAllWaitsForAll | src/rules/matchers.ts:663-665 | in every settle order Promise.all is broken by the first rejection, resolved exactly once all have settled without one, and its reaction due from then on |
| Matching.AnswerIsConjunction | src/rules/matchers.ts:655-666 | without rejections every schedule answers the conjunction; one false answers even if others never settle |
| Matching.MatchesAllAnswers | src/rules/matchers.ts:641-667 | matchesAll as a whole, for every mix and every settle order, with and without rejections: when there is an answer and which; without a rejection it is whether all matchers accept |
| Channel.EachRequestSettlesOnceWithItsAnswer | src/serialization/serialization.ts:184-260 | over all interleavings of topics and calls each request settles at most once, and only with the one answer of the handler call that ran that very request, for an action that is handled |
| Channel.StepKeepsCorrelation | src/serialization/serialization.ts:184-260 | the invariant of ids, listeners, running handlers and answers that every step keeps |
| ChannelOrder.TopicsAreSeparateAndOrdered | src/serialization/serialization.ts:154-171 | each end sees exactly its topic's messages in send order, says goodbye at most once and last, and is open exactly until it says or reads one |
| ChannelOrder.GoodbyeSilences | src/serialization/serialization.ts:262-278 | an end that has read the other's goodbye writes nothing more on its topic in any run |
| ChannelOrder.SaysUntilGoodbye | src/serialization/serialization.ts:196-278 | in every run: a call, a reply or a goodbye is written, with its own data, exactly if its end has neither said nor read a goodbye; a call fails otherwise; disposing closes; and a call is listened for once its write has called back |
| ChannelOrder.DataEventIsDelivery | src/serialization/serialization.ts:154-171 | the loop over the lines of one data event is, for each channel, their delivery one by one in the model of the runs |
| ChannelOrder.GoodbyeIsNotAnswered | src/serialization/serialization.ts:262-278 | reading a message, a goodbye included, writes nothing, so disposal never echoes |
| ChannelOrder.OtherTopicsAreIgnored | src/serialization/serialization.ts:166-169 | a channel's state depends only on the lines of its own topic |
| Channel.ClientServerChannel.Ask | src/serialization/serialization.ts:196-218 | a request is written, or fails if the channel is closed; nothing is listened for yet |
| Channel.ClientServerChannel.OnWritten | src/serialization/serialization.ts:214-217 | the callback of the write starts listening for that id |
| Channel.ClientServerChannel.DisposeChannel | src/serialization/serialization.ts:264-277 | one goodbye if none was received, and no listeners left |
| Channel.ClientServerChannel.ReadFromRawStream | src/serialization/serialization.ts:154-171 | the loop over the lines of a data event has the effect specified, and writes nothing |
| ChannelProgress.NoRequestIsLost | src/serialization/serialization.ts:184-260 | while both ends are open, a request with a handler is settled once the streams are read out and its call is done, exactly unless its response was read before its write had called back |
| ChannelProgress.MissedIsNeverSettled | src/serialization/serialization.ts:198-217 | a request that missed its response is never settled |
| ChannelProgress.DisposalLeavesRequestsUnsettled | src/serialization/serialization.ts:262-278 | a request still open when its own end closes, from either side, is never settled |
| ChannelProgress.StepKeepsTracked | src/serialization/serialization.ts:184-260 | every step keeps each request waiting or settled, and each answered one settled or on its way back |
| Framing.FramedLinesComeBack | src/serialization/serialization.ts:143-156 | whole lines in one data event are read back as they were written |
| Framing.AlignedChunksComeBack | src/serialization/serialization.ts:143-156 | and so they are for every grouping into events at line boundaries |
| Framing.CutIsHarmlessIffBetweenLines | src/serialization/serialization.ts:154-156 | cutting a data event in two changes nothing iff the cut is not inside a line |
| ProxyConfig.GetProxySetting | src/rules/proxy-config.ts:88-102 | the recursive loop returns the first setting, as the evaluation function says |
| ProxyConfig.SerializationKeepsMeaning | src/serialization/serialization.ts:316-375 | for every nested config and all parameters: an undefined reference is reported by its key, and otherwise the received config gives the setting of the original with its references replaced, for every host, exactly if no callback that decides answers with a buffer |
| ProxyConfig.FixedSettingArrives | src/serialization/serialization.ts:338-352 | a fixed setting arrives whole, a buffer certificate as text of exactly its bytes |
| ProxyConfig.JsonKeepsMeaningIffPortable | src/serialization/serialization.ts:246-252 | a setting sent as JSON reads the same exactly if none of its certificates is a buffer |
| ProxyConfig.MeaningIsKeptIff | src/serialization/serialization.ts:316-375 | meaning is kept under all parameters exactly when no reference has an empty key and, at every host, the source that decides without references is not a callback answering with a buffer |
| ProxyConfig.BufferFromCallbackIsLost | src/serialization/serialization.ts:341-368 | for every certificate: a callback's buffer arrives garbled, the same setting given outright does not |
| ProxyConfig.EmptyKeyLosesItsParameter | src/rules/rule-parameters.ts:21-32 | a concrete reference with an empty key that loses its setting |
| Socks.ChunkingIsIrrelevant | src/server/socks-server.ts:329-361 | for every split of the bytes into arrivals: same state, replies, outcome and unread bytes as in one arrival |
| Socks.DrainAppend | src/server/socks-server.ts:329-361 | what was read before more bytes arrived does not depend on them |
| Socks.ReadUntilNullByte | src/server/socks-server.ts:344-361 | returns everything before the first null byte of the stream and puts back exactly what follows it |
| Socks.PrintIpv6 | src/server/socks-server.ts:239-245 | the loop over byte pairs prints the eight hextets |
| Socks.Ipv4TextReads | src/server/socks-server.ts:227 | split at its dots, the printed address gives the four bytes in order as numbers |
| Socks.Ipv6TextReads | src/server/socks-server.ts:239-245 | split at its colons, the printed address gives the eight pairs of bytes in order as hexadecimal numbers |
| Socks.AsciiReads | src/server/socks-server.ts:303-309 | text and bytes have the same character codes in both directions |
| Text.PrintedNumbers | src/server/socks-server.ts:239-245 | numbers are printed most significant digit first, in decimal and hexadecimal |
| Text.ParseIntIs | src/util/url.ts:82-90 | what parseInt reads: white space, a sign or none, and the leading digits, whatever follows them; and when it reads nothing |
| Text.AsciiSpaces | src/util/request-utils.ts:904-908 | which ASCII characters trim() and parseInt() take for white space |
| SocksRoundTrip.UnknownVersionIsDropped | src/server/socks-server.ts:88-102 | any first byte but 4 and 5 ends the connection without a reply |
| Socks.ConnectOnlyAfterAuth | src/server/socks-server.ts:112-263 | whatever arrives, at most one connect, last, right after the success reply, and in SOCKS5 only after the chosen handler succeeded |
| Socks.AdvanceKeepsScript | src/server/socks-server.ts:112-327 | exactly which replies have been sent at each stage of every handshake |
| Socks.CloseNeverConnects | src/server/socks-server.ts:191-203 | a socket closing in mid-handshake adds no connect |
| Socks.CloseOutcome | src/server/socks-server.ts:191-203 | for every handshake: a close is answered by 0x05 0x01 exactly while the last thing done was to choose a method that needs credentials, and leaves a finished handshake alone |
| Socks.SelectIsConfigured | src/server/socks-server.ts:170-181 | the first configured method that the client offers is selected; none iff none is both |
| Socks.SocksConnection.OnReadable | src/server/socks-server.ts:329-342 | an arrival resumes the reads for as long as they can be met |
| Socks.SocksConnection.OnClosed | src/server/socks-server.ts:191-203 | a close fails the pending read, answered only during authentication |
| SocksRoundTrip.RequestIsUnderstood | src/server/socks-server.ts:205-263 | every CONNECT of section 4 of RFC 1928 is answered by success and parsed to an address that, read back by an independent reader, is the client's, with later bytes left in the socket |
| SocksRoundTrip.CredentialsAreAccepted | src/server/socks-server.ts:270-327 | RFC 1929 and custom metadata messages are read back exactly |
| SocksRoundTrip.Socks5RoundTrip | src/server/http-combo-server.ts:264-281 | any SOCKS5 conversation, however split, gives exactly the replies expected, an address that reads as the client's bytes and the tunnelled bytes untouched; printed and read by `getDestination` it gives that host text and port |
| SocksRoundTrip.Socks4RoundTrip | src/server/socks-server.ts:112-164 | the same for SOCKS4 and 4a: the literal reply, an address that reads as the client's bytes, untouched tunnelled bytes for every split, and the printed address read back to the same host text and port |
| SocksRoundTrip.ZeroPrefixIffZeroBytes | src/server/socks-server.ts:131 | the text test for SOCKS4a is a test for three zero bytes |
| SocksRoundTrip.UnsupportedRequestIsRefused | src/server/socks-server.ts:213-251 | every other request is answered by its code of section 6 of RFC 1928 and the socket ended |
| SocksRoundTrip.UnacceptableMethodsAreRefused | src/server/socks-server.ts:170-181 | no acceptable method is answered by 0xFF |
| SocksRoundTrip.UserMessageOutcome | src/server/socks-server.ts:296-327 | what becomes of every RFC 1929 message, empty parts included: waiting for ever, refused with the code of its fault, or accepted |
| SocksRoundTrip.WrongCredentialsAreRefused | src/server/socks-server.ts:303-319 | a wrong name and unparseable metadata are refused with different codes exactly when neither part is empty |
| SocksRoundTrip.CustomMessageOutcome | src/server/socks-server.ts:270-294 | what becomes of every custom metadata message: waiting for ever, refused, or accepted |
| SocksRoundTrip.MethodListIsAnsweredIff | src/server/socks-server.ts:166-189 | with all its bytes there, a method list is answered exactly when it is not empty |
| SocksRoundTrip.CredentialsAreAnsweredIff | src/server/socks-server.ts:270-327 | with all their bytes there, credentials are answered exactly when no announced length is zero |
| SocksRoundTrip.Socks4IsAnsweredIff | src/server/socks-server.ts:126-163 | without a domain, a SOCKS4 request is answered exactly when its address does not begin with three zero bytes |
| SocksRoundTrip.ZeroAddressWaits | src/server/socks-server.ts:131-133 | otherwise what follows is kept as the beginning of a domain |
| SocksRoundTrip.Socks4IsRefused | src/server/socks-server.ts:113-124 | SOCKS4 is refused without no-auth and for other commands |
| SocksRoundTrip.NoMethodsOfferedHangs | src/server/socks-server.ts:167-170 | no methods offered: nothing is ever answered or read again |
| SocksRoundTrip.PrintedPortComesBack | src/util/url.ts:65-92 | with a printed port every host comes back, less one pair of brackets |
| SocksRoundTrip.DefaultPorts | src/util/url.ts:44-56 | the default ports of the four protocols, and that there is no other |
| SocksRoundTrip.BareHostIsKeptIff | src/util/url.ts:65-92 | without a port the host is kept exactly when it has no colon and no brackets |
| SocksRoundTrip.BracketedIpv6IsMisSplit | src/util/url.ts:69-72 | the concrete mis-split |
| SocksRoundTrip.Ipv4TextDeterminesBytes | src/server/socks-server.ts:227 | the dotted text determines the four bytes |
| SocksRoundTrip.Ipv6TextDeterminesBytes | src/server/socks-server.ts:239-245 | the printed text determines the sixteen bytes |
| AgentPool.PoolIsSafe | src/rules/http-agents.ts:56-197 | in every interleaving: no two agents for a connection and key, no agent of two connections, every call gets agents of its own connection and of exactly the kind it asked for and aborts only if that was destroyed, and an agent is destroyed exactly if its connection has closed, whose map is then empty |
| AgentPool.CallsAreAnswered | src/rules/http-agents.ts:132-197 | in every run an await that comes back aborts its call exactly on a destroyed connection, waits for certificates exactly if the proxy has no agent there yet, and otherwise returns what the protocol asks for |
| AgentPool.CloseDestroysAll | src/rules/http-agents.ts:56-73 | in every run the close event destroys every agent ever built for its connection and empties its map, and changes nothing else |
| AgentPool.RunKeepsDestroyed | src/rules/http-agents.ts:132-197 | destroyed and closed connections stay so, and a call that has returned keeps its answer |
| AgentPool.StepKeepsInv | src/rules/http-agents.ts:132-197 | the pool invariant that every step keeps |
| AgentPool.NothingBuiltWhenDestroyed | src/rules/http-agents.ts:147-176 | no step builds for a destroyed connection |
| AgentPool.AgentsAreNeverShared | src/rules/http-agents.ts:117-121 | in every run, two calls that got one agent, alone or in a pair, came in on the connection it was built for |
| AgentPool.Downstream.GetConnectionAgents | src/rules/http-agents.ts:56-73 | the map is created on first use and kept |
| AgentPool.Downstream.GetOrCreateConnectionAgent | src/rules/http-agents.ts:75-87 | the pooled agent, or a new one stored under its key |
| AgentPool.Downstream.OnClose | src/rules/http-agents.ts:61-70 | every pooled agent is destroyed and the map cleared |
| Der.DerInteger | src/util/certificate-transparency.ts:199-205 | the loop computes the INTEGER of the specification function |
| Der.LengthComesBackIff | src/util/certificate-transparency.ts:207-211 | a length is written in the shortest form and read back exactly when it is below 65536 |
| Der.IntegerContentIsMinimal | src/util/certificate-transparency.ts:199-205 | the content is minimal (section 8.3.2 of X.690), non-negative and of the same value, exactly for non-empty input |
| Der.TlvComesBackIff | src/util/certificate-transparency.ts:189-211 | a tagged value is read back below 65536 bytes, and from there on never, since its length is truncated |
| Der.IntegerComesBackIff | src/util/certificate-transparency.ts:199-205 | decoding an INTEGER gives the unsigned value, whatever follows, exactly for non-empty input of less than 65536 content bytes |
| Der.SignatureComesBackIff | src/util/certificate-transparency.ts:189-197 | for every raw signature: decoding gives the values of the two halves exactly when both have a byte and the body is below 65536 bytes, and fails otherwise |
| Der.SignatureLength | src/util/certificate-transparency.ts:189-197 | 64 bytes give at most 72, and up to 65525 bytes the lengths fit |
| CertificateTransparency.FrameAllComesBack | src/util/certificate-transparency.ts:143-147 | framed SCTs parse back one by one |
| BigEndian.MostSignificantFirst | src/util/certificate-transparency.ts:143-147 | lengths are written and read, and bytes printed, most significant first |
| CertificateTransparency.ListComesBackIffItFits | src/util/certificate-transparency.ts:143-150 | the list of section 3.3 of RFC 6962 parses back to exactly the SCTs; writing fails exactly on 16-bit overflow |
| CertificateTransparency.SctComesBack | src/util/certificate-transparency.ts:50-88 | an SCT parses back to its log id, timestamp and signature |
| CertificateTransparency.P256ListNeverOverflows | src/util/certificate-transparency.ts:127-150 | with P-256 signatures the two operators' list is at most 244 bytes and parses back |
| CertificateTransparency.DeriveScalar | src/util/certificate-transparency.ts:218-224 | every 32-byte value gives a scalar in [1, order - 1] that is the value or the value less the order, with 1 for zero, printed as exactly 32 bytes of that scalar |
| CertificateTransparency.ScalarIsResidue | src/util/certificate-transparency.ts:218-221 | which is the value modulo the order, with 1 for zero |
| CertificateTransparency.OrderIsAlmostTwoTo256 | src/util/certificate-transparency.ts:9 | one subtraction is enough |
| CertificateTransparency.TemplateIsWellFormed | src/util/certificate-transparency.ts:19-33 | template and scalar are one nested DER value with correct lengths |
| CertificateTransparency.TemplateConstantsAreWellFormed | src/util/certificate-transparency.ts:23-33 | and so are its constant parts |
| Headers.RemoveKey | src/util/header-utils.ts:195-204 | the loop with its two splices is the removal pass, on both arrays |
| Headers.LowerIs | src/util/header-utils.ts:193-196 | lowercasing names changes exactly the letters, place by place |
| Headers.UpdateRawHeaders | src/util/header-utils.ts:188-221 | the whole function is removals for each key in order, then additions in order |
| Headers.RunLeavesHalf | src/util/header-utils.ts:197-204 | of a run of k adjacent matches a pass keeps the 2nd, 4th, ..., and the rest of the list is passed over as if alone |
| Headers.EvensAre | src/util/header-utils.ts:197-204 | that is floor(k/2) headers, at the odd indices |
| Headers.PassKeepsOthers | src/util/header-utils.ts:197-204 | headers of other names survive in order |
| Headers.PassIsCompleteIff | src/util/header-utils.ts:198-203 | a pass removes all values of a name exactly when no two are adjacent |
| Headers.RemovalIsCompleteIff | src/util/header-utils.ts:188-204 | the removals are complete, and remove nothing else, exactly when no two headers of a name are separated only by headers of names updated before it; a second condition covers keys that are equal when lowercased |
| Headers.RemovableIffSeparated | src/util/header-utils.ts:195-204 | for different names the two conditions are the same |
| Headers.UpdateReplacesIff | src/util/header-utils.ts:179-221 | the result is the unmentioned headers followed by the additions exactly under those conditions |
| Headers.SingleNamesAreRemoved | src/util/header-utils.ts:188-204 | the condition holds when each updated name occurs at most once |
| Headers.PairFlatRawHeaders | src/util/header-utils.ts:53-59 | the stepping loop pairs the list, with undefined after an odd end |
| Headers.FlattenPairedRawHeaders | src/util/header-utils.ts:61-68 | the preallocated array is filled with the flattened pairs |
| Headers.FlattenUndoesPairingIff | src/util/header-utils.ts:53-68 | flattening undoes pairing exactly on even lengths |
| Headers.PairingUndoesFlattening | src/util/header-utils.ts:53-68 | pairing always undoes flattening |
| HeaderObjects.RawHeadersToObject | src/util/header-utils.ts:77-93 | the reduce, branch by branch, is the fold of the specification |
| HeaderObjects.ObjectIsNormalForm | src/util/header-utils.ts:77-93 | each lowercased name, in order of first occurrence, with its values minus leading empty ones |
| HeaderObjects.TrimmedDropsLeadingEmpties | src/util/header-utils.ts:85-89 | what is dropped: the empty values before the first other one, or all but the last |
| HeaderObjects.ObjectHeadersToRaw | src/util/header-utils.ts:139-155 | one raw header for each value, none for undefined |
| HeaderObjects.ObjectComesBackIff | src/util/header-utils.ts:77-155 | an object survives the way to raw headers and back exactly when it is in normal form |
| HeaderObjects.ObjectOfRawComesBack | src/util/header-utils.ts:77-155 | so raw to object to raw to object is the identity after the first step |
| HeaderObjects.RawHeadersToObjectPreservingCase | src/util/header-utils.ts:104-137 | the reduce with its name map is the fold of the specification |
| HeaderObjects.PreservingCaseAgrees | src/util/header-utils.ts:104-137 | its keys are first casings, and lowercased it is the plain object |
| RequestFraming.FixedIsFramedIff | src/util/header-utils.ts:188-221 | when a length is set, the request has that one and no other exactly if no two content-lengths were adjacent |
| RequestFraming.Http2IsLeftAlone | src/rules/passthrough-handling.ts:477-478 | over HTTP/2 no length is ever set |
| RequestFraming.OutgoingIsFramedIff | src/rules/requests/request-step-impls.ts:544-618 | for every request, transform and body, exactly when what is sent is chunked or has the right content-length |
| RequestFraming.ReliableTransformsFrame | src/rules/requests/request-step-impls.ts:544-618 | a reliable transform leaves every request with at most one content-length, with every new body, chunked or with exactly the right content-length |
| RequestFraming.BlindUpdatesMisframe | src/rules/requests/request-step-impls.ts:602-612 | for every blind update, a well-framed request that it misframes |
| RequestFraming.FramingHoldsIffReliable | src/rules/passthrough-handling.ts:460-505 | for every transform: framing is right for all requests with at most one content-length and all bodies exactly when it is reliable |
| RequestFraming.FramingHoldsForAllIff | src/rules/passthrough-handling.ts:460-505 | and for requests with any number of them exactly when it adds chunked, or replaces all headers with safe ones |
| CallbackFraming.CallbackIsFramedIff | src/rules/requests/request-step-impls.ts:648-695 | for every request, callback result and body: exactly when what is sent is chunked or has the right content-length |
| CallbackFraming.CallbackFramesAllIff | src/rules/requests/request-step-impls.ts:680-694 | framing is right for all bodies exactly when the headers say chunked, or content-length is in lowercase only and comes once or starts with no length |
| CallbackFraming.WrongMeasureMisframes | src/rules/requests/request-step-impls.ts:680-692 | if the length measured is not that of the body sent, as when the buffer dropped it, only chunked headers are right |
| CallbackFraming.UntouchedIsFramedIff | src/rules/requests/request-step-impls.ts:662-694 | a callback that returns neither headers nor a body leaves every well-framed request well framed |
| CallbackFraming.OnlyOfObject | src/util/header-utils.ts:139-155 | which raw headers an object gives for a name, in all its casings |
| RawHttp.SplitBuffer | src/util/buffer-utils.ts:146-163 | the loop over the shrinking buffer, with its early break, is the specification |
| RawHttp.SplitLosesNothing | src/util/buffer-utils.ts:146-163 | unlimited parts contain no separator and rejoin to the input up to one at its end |
| RawHttp.LimitsFromTwoHold | src/util/buffer-utils.ts:157-160 | limits from two hold; below two there is no limit |
| RawHttp.ResponseComesBackIff | src/util/request-utils.ts:890-912 | parsing a printed response followed by any body returns its status, message and ordered headers exactly when they are printable |
| RawHttp.PrintedText | src/rules/websockets/websocket-step-impls.ts:220-229 | a response printed to the letter |
| RawHttp.HeaderComesBack | src/rules/websockets/websocket-step-impls.ts:220-229 | a printable header's line is read back as that header |
| RawHttp.ParsedIsPrintable | src/util/request-utils.ts:890-912 | whatever the input, what the parser returns is printable |
| RawHttp.OnlyEmptyInputFails | src/util/request-utils.ts:893-894 | only an empty input is an error |
| RawHttp.ShortStatusLines | src/util/request-utils.ts:895-905 | a status line without a message keeps its status, one of a single word has none |

## Left out

- Sockets, TLS, HTTP/2, WebSocket and GraphQL behaviour, backpressure, signing, hashing and content codecs: foreign code; they appear as environment steps, parameters or plain bytes.
- Text is ASCII: UTF-8 decoding, Unicode case folding and non-ASCII white space are not modelled.
- JSON text: messages are values in the channel, and lines in the framing; values that JSON cannot carry are not modelled, except for buffers in the settings of a remote proxy callback. That such a callback may throw is not modelled either.
- JavaScript objects: integer-like and prototype keys of header objects, null header values, and priorities that are not natural numbers.
- RuleScheduler.RequestRule.Handle: what the steps do is given by how each ends, and the promise recorded for a request by the request itself; when that promise resolves is not modelled. Websocket rules have the same counter and selection code.
- Matchers one by one: a request is represented by the set of rules that accept it, fixed for the request.
- In the channel, request ids are taken to be fresh and data events to end between lines (`Framing.CutIsHarmlessIffBetweenLines` says when that matters). Not modelled: requests without an action name handled by several handlers, one end both requesting and handling, the raw stream's own errors, and the queueing of writes behind one that has not called back.
- `PassThroughStepImpl.handle` as a whole: only the header transform or callback and the content-length fix-up of the request, with what else the same function assigns (host, content-type, pseudo-headers) taken as not touching the two framing headers. The response variant of the fix-up is similar.
- The agent pool takes it that a connection is destroyed before its close event, and treats proxy matching and certificates as environment answers.
- SocksRoundTrip.BracketedIpv6IsMisSplit: one instance; the general statement is `SocksRoundTrip.BareHostIsKeptIff`.
- `normalizeUrl`, URL patterns, `matchesNoProxy`, the h1/h2 header filters, admin server and client, and caches: easier members, or meaning that lives in libraries.
