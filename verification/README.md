# VirtualFlightRadar-Backend in Dafny

VirtualFlightRadar-Backend collects position reports of aircraft from several network feeds, keeps
them in a store, and serves them as NMEA sentences. This project models the parts of it whose
correctness is hard to see from the code, and proves what they guarantee over all inputs and runs.

`dafny verify dfyconfig.toml` checks everything.

| files | what they model |
|---|---|
| `Connector.dfy`, `ClientProtocol.dfy`, `ClientSafety.dfy`, `ClientRecovery.dfy`, `Client.dfy` | the connection protocol of the four input clients on the asynchronous connector |
| `Aircraft.dfy`, `AircraftStore.dfy`, `AircraftData.dfy`, `AircraftHistory.dfy` | the aircraft store: update rule, processing round, index, served text |
| `TimeStamp.dfy` | time stamps completed with the day of the receiving clock |
| `Server.dfy` | the output server's connection table and its accept handlers |
| `Nmea.dfy`, `Gga.dfy` | sentence framing with checksum, and printing and parsing of GGA sentences |
| `Regex.dfy`, `GgaExpression.dfy` | regular expressions, and the one for GGA sentences |
| `Sbs.dfy` | the SBS field scanner |
| `Options.dfy`, `Text.dfy`, `Commas.dfy`, `Numbers.dfy` | options, decimal text, comma-separated text, unit conversions |

## How the model is built

**Input clients.** A `World` is one client with its connector: client state, socket, pending
operations, FIFO queue of completions, at most one handler in flight (dispatched, but perhaps still
waiting for the mutex), whether the connector is stopped, and the number of connections given up so
far. Runs are arbitrary sequences of environment completions, dispatches, handlers, and stops by
another thread. Nothing in the code tells one connection from the next, and one timer serves
reconnect, keep-alive and deadline; that the handlers nevertheless never act on a leftover of an
earlier connection is the invariant of `ClientSafety`. The class `Clients.Client` has the handlers
themselves, in place, and each is proved to be its step of the state machine. What is assumed of
Boost.Asio is listed at the head of `Connector.dfy`: completions are dispatched in FIFO order by one
thread; closing, cancelling and re-arming append one failed completion for each operation pending at
that moment; a queued completion keeps its result; a wait fails only by cancellation; a successful
connect leaves the socket open; nothing is dispatched after stop.

**Aircraft store.** `AircraftStore` is a plain ordered list; `AircraftDatas.AircraftData` is the
vector with its index, whose loop ages, retypes, erases, re-indexes and renders in place, and it is
proved to do to the vector what the list does. `AircraftHistory` then says from outside, for every
run, what the store holds. Rendering is a parameter, and it may throw for any records in any round.

**Server.** The table operations are atomic under the mutex. The event thread dispatches an accept
before its handler has the mutex, and re-arms the accept in a second locked section; stop and send
may come at any point. A dispatched accept has its socket in place; an accept on a socket that is
still open fails, as Boost.Asio has it. The table may have any number of slots.

**Text.** A `char` is a byte. Doubles are exact reals, `printf` rounds to the nearest decimal with
ties to even, integers are unbounded except where the code relies on 8 or 32 bits (the connection
counter, the day number, the sign of a checksum). A `char` is signed, as on x86; where it is not
(Linux on ARM), no checksum is negative and every finished sentence passes the gate.

Where code and documentation differ, the code is modelled:
`TimeStamp::operator>` is strictly greater (its comment says less or equal); `Client::run` does not
wait for queued handlers after a stop; `Client::scheduleStop` waits at most 100 ms for `run`.

Properties that do not hold of the code in general are stated with the exact condition under which
they do, and with a run or an input for which they fail:

| property | holds if and only if | failure |
|---|---|---|
| the server counts its connections, writes to them, and accepts on a closed socket | the table has fewer than 256 slots (`ServerRuns.ConsistentIff`, `DeliversIff`, `ListensIff`) | `ServerRuns.CounterWraps`, `JammedIsDeaf` |
| STOPPING is never overwritten with CONNECTING | no successful handleTimedConnect is in flight at the stop (`ClientSafety.StopOverwrittenIff`) | `ClientSafety.StopMayBeOverwritten` |
| a single error in the payload of a text with its last `*` at a given place is detected | it is neither the first payload byte of a text without `*`, nor one of the first two of a text whose only `*` stands for the `$` (`Nmea.UndetectedIff`) | in `Nmea.UndetectedIff`: "30", "*bi", "*00" |
| a finished sentence passes the gate | it has an even number of bytes above 127 (`Nmea.FramedIffEven`) | any other sentence |
| a sentence with direction S or W, in either case, gives a negative coordinate | the letter is a capital (`Gga.UnpackMeans`) | `Gga.SmallSouthIsNorth` |
| GGA sentences give back the position | nothing is negative, at most 99 satellites (`Gga.RoundTripIff`) | `Gga.HalfDegreeSouth` |
| the day of a time stamp is right | midnight does not pass between the two readings of the clock (`TimeStamps.ExactIffSameDay`) | `TimeStamps.CompletedTooEarly` |
| an accepted time string is a time of day | its first number that is not zero is positive (`TimeStamps.AcceptedIff`) | `TimeStamps.MinusOneHour` |

## Model

| member | source | states |
|---|---|---|
| `ClientSafety.NoStaleCompletion` | src/client/Client.cpp:137-159 | in every reachable state before stop, a completion in flight whose handler's state guard holds belongs to the current connection |
| `ClientSafety.NoStaleLookup` | src/client/net/impl/ConnectorImplBoost.cpp:137-155 | the same of a queued name lookup, which close does not cancel and whose handler has no guard |
| `ClientSafety.UnguardedIgnored` | src/client/Client.cpp:137-159 | a handler whose state guard does not hold changes nothing |
| `ClientSafety.LostIsGivenUp` | src/client/SensorClient.cpp:47-63 | before stop, an expired deadline and a failed connect, handshake, read or beacon make the client CONNECTING with a closed socket, the next generation, and the reconnect wait as the only pending operation |
| `ClientSafety.OthersKeepConnection` | src/client/AprscClient.cpp:110-135 | any other completion leaves generation and socket alone, and a running client running |
| `ClientSafety.BranchesNotTaken` | src/client/Client.cpp:122-135 | what the two branches do that no client takes before stop: a failed reconnect wait stops the client, a failed keep-alive wait is issued again without a beacon |
| `ClientSafety.RunsAfterHandshake` | src/client/GpsdClient.cpp:44-98 | a client becomes RUNNING in exactly one way: its connect, or with GPSD and APRSC its handshake, of the current generation has succeeded |
| `ClientSafety.HandshakeFollowsConnect` | src/client/AprscClient.cpp:65-82 | after the connect of a GPSD or APRSC client its handshake is the only outstanding operation |
| `ClientSafety.AttemptStartsWithLookup` | src/client/Client.cpp:73-78 | the first attempt and every attempt after a wait start with a name lookup as the only outstanding operation |
| `ClientSafety.ReconnectStartsClean` | src/client/Client.cpp:80-95 | whenever handleTimedConnect runs before stop, its wait has succeeded and nothing else is pending or queued |
| `ClientSafety.NeitherWedgedNorDoubled` | src/client/Client.cpp:73-95 | before stop, a connecting client has exactly one outstanding connect, handshake or reconnect wait; a running one has none, an open socket and exactly one read |
| `ClientSafety.DeadlineNeverLost` | src/client/SensorClient.cpp:41-86 | a running sensor client always has exactly one deadline wait, although every read cancels the shared timer |
| `ClientSafety.KeepAliveStaysSingle` | src/client/AprscClient.cpp:84-135 | a running APRSC client has exactly one keep-alive wait and its handler never sees a failure |
| `ClientSafety.NeverGivesUp` | src/client/Client.cpp:122-135 | in every run without scheduleStop and without a feed returning false, the client is connecting or running for ever and `run` does not return |
| `ClientSafety.ReturnsOnlyAfterStop` | src/client/Client.cpp:42-52 | the event loop runs out of work only after the connector was stopped |
| `ClientSafety.StopIsFinal` | src/client/Client.cpp:97-114 | from a STOPPING state on, no continuation passes a message to a feed or becomes RUNNING, also with a handler in flight |
| `ClientSafety.StopOverwrittenIff` | src/client/Client.cpp:122-129 | some continuation of a reachable STOPPING client ends in CONNECTING iff a handleTimedConnect whose wait succeeded is in flight |
| `ClientSafety.StopMayBeOverwritten` | src/client/Client.cpp:80-135 | a client of every kind can reach such a state |
| `ClientSafety.StopStops` | src/client/Client.cpp:97-114 | scheduleStop can come in any state before stop and makes a client of any kind STOPPING with a stopped connector, a closed socket and no wait, read or write pending; a running GPSD client first says farewell |
| `ClientSafety.FarewellStops` | src/client/GpsdClient.cpp:63-79 | whatever happens during the farewell, it ends in the same state |
| `ClientSafety.StoppedReturns` | src/client/Client.cpp:42-52 | a stopped client returns from run as soon as the handler in flight, if any, has run |
| `ClientSafety.FeedStops` | src/client/Client.cpp:140-151 | a feed that returns false stops the client, and a GPSD client sends exactly one Unwatch before |
| `ClientSafety.StepKeepsInv` | src/client/Client.cpp:42-159 | every step of every client kind keeps the protocol invariant |
| `ClientSafety.ReconnectWaits` | src/client/Client.cpp:80-89 | giving up a connection leaves exactly the reconnect wait pending and everything cancelled ahead of it |
| `ClientSafety.MessageReachesEveryFeed` | src/client/Client.cpp:140-151 | a message received while running reaches every feed once, and the client stops iff some feed returned false |
| `ClientSafety.OnlyReadsDeliver` | src/client/Client.cpp:137-159 | no step but a successful read while RUNNING passes a message to a feed |
| `ClientSafety.MessagePostponesDeadline` | src/client/SensorClient.cpp:41-45 | after a message no wait is left that could expire at the old deadline |
| `ClientSafety.KeepAliveSendsBeacon` | src/client/AprscClient.cpp:110-135 | every expired keep-alive wait issues exactly one beacon |
| `ClientSafety.StopSendsUnwatch` | src/client/GpsdClient.cpp:63-79 | a running GPSD client told to stop first issues one Unwatch on an open socket and then stops |
| `ClientRecovery.AlwaysRecovers` | src/client/Client.cpp:80-135 | from every reachable state before stop, every continuation without a further failure and without a stop request that is longer than a bound known in advance passes through RUNNING |
| `ClientRecovery.CanAlwaysRecover` | src/client/Client.cpp:80-135 | and there is such a continuation |
| `Connectors.CancelKeeps` | src/client/net/impl/ConnectorImplBoost.cpp:63-73 | cancelling moves operations from pending to queued and neither loses nor adds one |
| `Connectors.CancelFails` | src/client/net/impl/ConnectorImplBoost.cpp:63-73 | cancelling leaves queued completions alone and appends one failure for each cancelled operation |
| `Connectors.SelectingIsOrdered` | src/client/net/impl/ConnectorImplBoost.cpp:63-73 | in the order of issue |
| `Connectors.ResetLeaves` | src/client/net/impl/ConnectorImplBoost.cpp:116-119 | after re-arming no wait is pending, and everything else is |
| `Connectors.CloseLeaves` | src/client/net/impl/ConnectorImplBoost.cpp:63-73 | after closing the socket is closed and no wait is pending; if it was open, exactly the name lookups are |
| `Connectors.TimeoutIssues` | src/client/net/impl/ConnectorImplBoost.cpp:106-114 | the wait is the last pending operation, and the only wait if the timer is armed for it |
| `Connectors.DispatchKeeps` | src/client/net/impl/ConnectorImplBoost.cpp:126-197 | dispatching conserves outstanding operations, except that a lookup turns into a connect and an Unwatch ends |
| `Connectors.Connector.ResetTimer` | src/client/net/impl/ConnectorImplBoost.cpp:116-119 | re-arming cancels the pending waits and nothing else |
| `Connectors.Connector.Close` | src/client/net/impl/ConnectorImplBoost.cpp:63-73 | closing cancels waits, and socket operations if the socket is open, but not a name lookup |
| `Connectors.Connector.Stop` | src/client/net/impl/ConnectorImplBoost.cpp:54-61 | closes, and nothing is dispatched any more |
| `Connectors.Connector.OnConnect` | src/client/net/impl/ConnectorImplBoost.cpp:75-82 | one lookup is pending |
| `Connectors.Connector.OnSocket` | src/client/net/impl/ConnectorImplBoost.cpp:84-104 | a read or write is pending, or dropped if the socket is closed |
| `Connectors.Connector.OnTimeout` | src/client/net/impl/ConnectorImplBoost.cpp:106-114 | one wait is added, after re-arming if a timeout is given |
| `Clients.Client.Start` | src/client/Client.cpp:42-48 | run up to its event loop is the step Start, and nothing for a client that is not in state NONE |
| `Clients.Client.Return` | src/client/Client.cpp:49-51 | run after its event loop is the step Return |
| `Clients.Client.ScheduleStop` | src/client/Client.cpp:107-114 | stop by another thread is the step ScheduleStop |
| `Clients.Client.FinishStop` | src/client/GpsdClient.cpp:76-78 | the second half of a GPSD stop is the step FinishStop |
| `Clients.Client.HandleRead` | src/client/Client.cpp:137-159 | the loop over the feeds, of which any may stop the client, followed by the next read, is a fold over their answers |
| `Clients.Client.RunHandler` | src/client/Client.cpp:122-159 | the handler in flight, of whichever of the four client kinds, takes the step Handle |
| `AircraftDatas.AircraftData.constructor` | src/data/AircraftData.cpp:41-45 | an empty store with a matching index |
| `AircraftDatas.AircraftData.Update` | src/data/AircraftData.cpp:56-68 | keeps the index exact, does to the vector what the list update does, and returns true iff the report is accepted |
| `AircraftDatas.AircraftData.Insert` | src/data/AircraftData.cpp:113-117 | appends a record and keeps the index exact |
| `AircraftDatas.AircraftData.Pass` | src/data/AircraftData.cpp:78-110 | one loop pass keeps the loop invariant, never looks up a missing id, and makes progress also when rendering throws |
| `AircraftDatas.AircraftData.ProcessAircrafts` | src/data/AircraftData.cpp:70-111 | ends, keeps the index exact after any number of deletions and throws, and turns the vector into the round of the list |
| `AircraftDatas.AircraftData.GetSerialized` | src/data/AircraftData.cpp:47-54 | appends the texts of all records that are not outdated, in order |
| `AircraftHistory.StoreIsHistory` | src/data/AircraftData.cpp:56-111 | after every run the record of each id is exactly determined by its own history: its last accepted report, the rounds since and the first of them |
| `AircraftHistory.HistoryIsLast` | src/object/Object.cpp:31-39 | that history has the last report of the id that the store accepted, the number of rounds since then, and the first of them |
| `AircraftHistory.StoredIsLastReport` | src/data/AircraftData.cpp:83-87 | a stored record has all fields of that report, except that from age 4 on it is a transponder target |
| `AircraftHistory.ExactLifetime` | src/data/AircraftData.cpp:78-111 | without throws an id is stored iff fewer than 120 rounds passed since its last accepted report, and its age is that number |
| `AircraftHistory.FlarmIsYoung` | src/data/AircraftData.cpp:83-87 | in every reachable store FLARM records are younger than 4 and all records younger than 120 |
| `AircraftHistory.AcceptanceRule` | src/object/Aircraft.cpp:55-69 | in every reachable store a report replaces a record iff it is newer and, while the record is younger than 4, not a transponder report against FLARM and not of lower priority |
| `AircraftHistory.ServedIsDue` | src/data/AircraftData.cpp:47-111 | the served text is, in order, for each record aged 1 to 3 the report rendered from its current fields and the reference of its first round, and nothing else |
| `AircraftHistory.InsertionOrder` | src/data/AircraftData.cpp:113-117 | the store is always in the order in which its ids were inserted |
| `AircraftHistory.GetRound` | src/data/AircraftData.cpp:78-110 | a round acts on each record by itself |
| `AircraftHistory.GetUpdate` | src/object/Object.cpp:31-39 | an accepted report replaces everything but the id of its record, and no other record |
| `TimeStamps.ParseDigits` | include/object/TimeStamp.hpp:92-132 | a text whose numbers are digits, with any separators and any rest, is accepted iff they are those of a time of day, and gets today's day if that is past and yesterday's otherwise |
| `TimeStamps.ShortIsRejected` | include/object/TimeStamp.hpp:99-121 | a text that ends before its last number is not accepted |
| `TimeStamps.YesterdayIsBefore` | include/object/TimeStamp.hpp:127-131 | the day before, modulo 2^32 |
| `Text.StoiReads` | include/object/TimeStamp.hpp:99-121 | std::stoi reads white space, a sign and digits, and ignores the rest |
| `Text.StoiReadsOnly` | include/object/TimeStamp.hpp:99-121 | and rejects everything else |
| `TimeStamps.ParsePrint` | include/object/TimeStamp.hpp:92-132 | in particular, parsing a printed time of day gives it back |
| `TimeStamps.AcceptedIff` | include/object/TimeStamp.hpp:92-132 | any accepted text, also with signs, becomes the latest instant with its time of day iff the first of its numbers that is not zero is positive |
| `TimeStamps.MinusOneHour` | include/object/TimeStamp.hpp:121-131 | "-1:00:00.000" is accepted as a negative time of today |
| `TimeStamps.ExactIffSameDay` | include/object/TimeStamp.hpp:92-132 | the reconstructed instant is in the 24 hours before now iff midnight does not pass between the two readings of the clock |
| `TimeStamps.LatestIsUnique` | include/object/TimeStamp.hpp:127-131 | there is only one such instant with that time of day |
| `TimeStamps.CompletedTooEarly` | include/object/TimeStamp.hpp:127-131 | with the day read before and the time after midnight the result is exactly one day early |
| `TimeStamps.StampIsSendTime` | include/object/TimeStamp.hpp:92-132 | a report received at most 24 hours after it was sent is stamped with the instant of sending |
| `TimeStamps.OrderedBySendTime` | include/object/TimeStamp.hpp:147-152 | operator> orders such reports by the time of sending, across midnights, formats and delays |
| `ServerRuns.TableStaysConsistent` | include/server/Server.hpp:165-273 | over all runs, for tables of any size, peers are distinct and the counter is the number of occupied slots modulo 256 |
| `ServerRuns.ConsistentIff` | include/parameters.h:72-83 | the counter is the number of occupied slots in every reachable state iff the table has fewer than 256 slots |
| `ServerRuns.CounterWraps` | include/server/Server.hpp:241-254 | with 256 slots or more, a state with 256 connections and counter 0 is reachable |
| `ServerRuns.AdmittedIffRoom` | include/server/Server.hpp:238-266 | for tables of any size, a peer is admitted iff it is unknown and a slot is free; it gets a free slot, the others keep theirs; otherwise the table and the counter stay; the socket is left open only for an unknown peer at a full table whose counter is below its size |
| `ServerRuns.SendDropsLost` | include/server/Server.hpp:190-210 | a send frees exactly the slots whose write fails and counts them down, or does nothing if the message is empty or the counter is 0 |
| `ServerRuns.FailedAcceptIgnored` | include/server/Server.hpp:267-272 | a failed accept changes nothing, nor does a stop of a server that does not run |
| `ServerRuns.DeliversIff` | include/server/Server.hpp:190-197 | a send drops every lost connection in every reachable state iff the table has fewer than 256 slots |
| `ServerRuns.AlwaysAccepting` | include/server/Server.hpp:212-218 | while the server runs an accept is pending, or its handler is on the way to the next accept |
| `ServerRuns.ListensIff` | include/server/Server.hpp:241-254 | every accept is made on a closed socket in every reachable state iff the table has fewer than 256 slots |
| `ServerRuns.JammedIsDeaf` | src/server/net/impl/NetworkInterfaceImplBoost.cpp:80-88 | once an accept is made on an open socket, no peer arrives in any continuation |
| `ServerRuns.StopIsFinal` | include/server/Server.hpp:165-188 | after stop no later handler and none in flight occupies a slot, for tables of any size |
| `Servers.Server.IsConnected` | include/server/Server.hpp:220-231 | true iff some slot holds the address |
| `Servers.Server.Admit` | include/server/Server.hpp:238-266 | the locked part of the accept handler, with its throwing cases |
| `Servers.Server.AttemptConnection` | include/server/Server.hpp:233-273 | the accept handler is the step Attempted |
| `Servers.Server.Send` | include/server/Server.hpp:190-210 | prunes the table and counts down for each lost connection |
| `Servers.Server.Stop` | include/server/Server.hpp:165-188 | empties the table and closes the interface if running |
| `Servers.Server.Accept` | include/server/Server.hpp:212-218 | an accept is pending if the acceptor is open |
| `Nmea.Checksum` | include/util/math.hpp:124-133 | the loop computes the signed exclusive or of the payload |
| `Nmea.XorIsParity` | include/util/math.hpp:124-133 | each bit of the checksum says whether an odd number of payload bytes have it |
| `Nmea.FramedIffEven` | src/feed/parser/GpsParser.cpp:88-89 | a finished sentence passes the parsers' checksum gate iff its payload has an even number of bytes above 127 |
| `Nmea.ReceivedIff` | src/feed/parser/GpsParser.cpp:88-89 | a body with any two hexadecimal digits, of either case, behind it passes the gate iff they are its checksum and that is below 128 |
| `Nmea.UpperCaseIff` | src/feed/parser/WindParser.cpp:38-39 | in particular with its checksum in capital letters |
| `Nmea.StoiHexMeans` | src/feed/parser/GpsParser.cpp:88-89 | what std::stoi with base 16 makes of any two characters |
| `Nmea.PrintHexMeans` | include/data/processor/Processor.hpp:55-60 | the checksum is printed with two small hexadecimal digits, a negative one with eight |
| `Nmea.SingleErrorDetected` | src/feed/parser/WindParser.cpp:38-39 | a text that passes the gate fails it with any one payload byte replaced that is not one of the two characters stating the checksum |
| `Nmea.SentenceErrorDetected` | src/feed/parser/GpsParser.cpp:88-89 | the same of finished sentences, at every position between the dollar sign and the star |
| `Nmea.UndetectedIff` | src/feed/parser/GpsParser.cpp:88-89 | an error at a given position of a text with its last star at a given position can pass iff it is in the first payload byte of a text without star, or in the first two of a text whose only star is its first character |
| `Nmea.HexRoundTrip` | include/data/processor/Processor.hpp:55-60 | two printed hexadecimal digits are read back |
| `Nmea.Processor.FinishSentence` | include/data/processor/Processor.hpp:55-60 | appends the checksum of whatever is in the buffer, and a line end |
| `Nmea.Processor.AppendSentence` | src/data/processor/GpsProcessor.cpp:51-59 | appends any text as far as it fits the buffer with the checksum of what is stored, which for a body that fits is the framed sentence |
| `GgaExpression.MatchIsSplit` | src/feed/parser/GpsParser.cpp:77-79 | a text matches the GGA regular expression iff its comma-separated fields have their shapes, and in no other way |
| `Regex.SeparatedIsJoin` | src/feed/parser/GpsParser.cpp:77-79 | a text matches expressions with commas in between iff it is a join of texts that match them one by one |
| `Gga.UnpackMeans` | src/feed/parser/GpsParser.cpp:83-126 | any text is accepted iff it passes the gate, matches the expression and has a time of day; then every member of the position is the number in its field, and only capital S and W negate |
| `Gga.DegMinMeans` | include/util/math.hpp:99-105 | digits with decimals are read as degrees and sixtieths |
| `Gga.SmallSouthIsNorth` |  src/feed/parser/GpsParser.cpp:103-112 | a sentence with direction s is accepted and read as north |
| `Gga.RoundTripIff` | src/data/processor/GpsProcessor.cpp:47-82 | the printed sentence is accepted and gives back altitude, satellites and time exactly and the coordinates within 0.00005/60 degree iff nothing is negative and there are at most 99 satellites |
| `Gga.PrintedComesBack` | src/data/processor/GpsProcessor.cpp:47-82 | for every position in range: when its sentence is accepted, and that negative coordinates come back moved by twice their floor, all others within 0.00005/60 degree |
| `Gga.RecomposedIffNonNegative` | src/data/processor/GpsProcessor.cpp:74-82 | degrees and rounded minutes recompose a coordinate iff it is not negative |
| `Gga.HalfDegreeSouth` | src/data/processor/GpsProcessor.cpp:74-82 | any sentence for latitude -0.5 with the other values representable is accepted, and read as latitude -2.5 |
| `Gga.DmToDegComposed` | include/util/math.hpp:99-105 | dmToDeg splits degrees and minutes correctly, also for 60.0000 minutes |
| `Gga.CoordinateShape` | src/feed/parser/GpsParser.cpp:77-79 | a printed coordinate has the shape the expression wants iff its minutes are below 100 |
| `Gga.IntegerField` | include/util/math.hpp:88-92 | a printed altitude is accepted iff it is not negative, and then read exactly |
| `Gga.IntegerReadsBack` | src/data/processor/GpsProcessor.cpp:51-58 | every printed integer, also a negative one, denotes itself |
| `Gga.NearestIsEven` | src/data/processor/GpsProcessor.cpp:51-58 | of two equally near decimals the even one is printed |
| `Gga.GpsProcessor.EvalPosition` | src/data/processor/GpsProcessor.cpp:74-82 | directions, degrees and minutes of both coordinates |
| `Gga.GpsProcessor.AppendGga` | src/data/processor/GpsProcessor.cpp:47-60 | appends exactly the framed sentence that the round trip is about |
| `SbsParser.Unpack` | src/feed/parser/SbsParser.cpp:61-84 | the scanning loop succeeds iff the plain split has type 3, fields 2 to 15 ended by commas, well-formed numbers and an altitude in bounds, and sets exactly fields 4, 7, 11, 14 and 15 |
| `SbsParser.ReportedMeans` | src/feed/parser/SbsParser.cpp:61-111 | of any head of six characters followed by fields, type 3 is required, and id, time, altitude, latitude and longitude are the fields 2, 5, 9, 12 and 13 behind the head, counted from 0; nothing else changes but the constant types |
| `SbsParser.AltitudeInMetres` | src/feed/parser/SbsParser.cpp:98-100 | the altitude is within half a metre of 0.3048 times the feet |
| `Numbers.NearestAwayFromZero` | include/util/math.hpp:88-92 | doubleToInt is the nearest integer, halves away from zero |
| `SbsParser.ParseField` | src/feed/parser/SbsParser.cpp:86-111 | succeeds iff the field is not malformed, and sets one member |

## Left out

- `Clients.Client.Start`: a second `run` after the first has returned is not described.
- `Clients.Client.RunHandler`: `stop` called by a handler of a GPSD client blocks the event thread for up to 500 ms; this is one step, because nothing can be dispatched in between.
- `Gga.GpsProcessor.AppendGga`: for sentences that fit the buffer; fix quality is always printed as 1, as in the code.
- `SbsParser.Unpack`: after a failure the members already set are not described; callers discard the record.
- `AircraftHistory.ExactLifetime`: for runs without throws; `AircraftHistory.StoreIsHistory` has the age with them.
- `scheduleStop` before `run` has started: the wait is bounded and stop does nothing then.
- A second `run` of the server.
- Binary floating-point rounding, infinities and 32-bit overflow of converted doubles.
- Distance, bearing and pressure arithmetic and the layout of PFLAU and PFLAA sentences: a parameter of the store.
- GPRMC sentences and APRS messages: only easy members beside GGA and SBS.
- The update rules of GPS, wind and atmosphere data, ground mode, configuration, feeds, client manager and signal handling.
- Sockets, name lookup, threads, the mutex, logging, and exceptions other than those named.
- Aircraft records are values, because the vector owns them; their in-place updates are functions to the new record.
