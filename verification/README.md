# Verified model of the SoftPLC stack

This project models the parts of the repository that carry state, and proves what they are for:

- the simulated PLC: growing device memory (`DeviceMemory` over `CellSpec`), the MC 3E frames it
  answers (`Mc3e`, `McServer`), which of them it accepts and what those read and write
  (`McAccess`, `McProperties`, `McFailures`), and the stream loop that cuts them out of a
  connection (`Framing`, `SoftPlcServer`). The frames are the QnA-compatible 3E binary frames of
  the MELSEC Communication Protocol;
- the bit-edge log and what its readers may rely on (`BitEdges`, `EdgeSessions`), edge replay for
  the memory and for the EtherNet/IP assemblies (`EdgeReplay`, `MemoryEdges`, `IoBuffers`);
- the watch stream and its client (`WatchStream`, `WatchCoherence`, `WatchEdges`);
- the trigger / BUSY / response handshake as a transition system (`Handshake`), its progress
  (`HandshakeProgress`) and what timeouts do to it (`HandshakeFreshness`, `HandshakeRuns`), the
  PLCLINK client and a device over one memory that take its steps (`PlcLinkClient`), and the
  assembly accesses of the Field Network client (`FieldNetworkClient`, `Layout`);
- the words of a command (`Packing`, `Commands`, `CommandWords`), the layout of its area in terms
  of what was entered (`CommandAreas`), and readers that show what the words determine
  (`CommandReading`);
- the sequence interpreter: its meaning (`Sequence`), what each kind of card comes to
  (`SequenceCards`), the engine with fields and a depth counter (`SequenceEngine`), a stack
  machine without either (`SequenceMachine`), and properties of every run (`SequenceProperties`,
  `SequenceNesting`).

Code that updates state in place is modelled by classes and loops; each method is tied to a
function of the old state, and the theorems are about those functions. Times are real-valued
inputs. Exceptions are `Option`, `ok` flags or signals. `dafny verify dfyconfig.toml` checks
everything.

## Where the code falls short of the simple claim

- A `send_command` without a connection is refused before a pending ignored command is awaited,
  so it can leave the trigger on. `Handshake.TriggerDiscipline` gives the exact condition,
  `HandshakeRuns.RefusedCallLeavesTrigger` a run.
- After a timeout a call can return the answer to an earlier command, because the echoed code is
  not compared (`HandshakeRuns.StaleAnswer`). It returns its own exactly if, when the command was
  raised, the device was ready again or had latched nothing that differs from it
  (`HandshakeFreshness.FreshExactly`).
- The 16-bit length field of a response is wrong exactly for accepted word reads of more than
  32766 points (`McProperties.LengthFieldExact`); `McProperties.LongReadOverflows` is one.
- An OCV pair with position 0 ends the pair list early, so different inputs can have the same words
  (`CommandReading.OcvReadBack` for the exact condition, `CommandReading.TwoEntriesCollide`).
- Nothing enforces distinct watch ids, and duplicates break the deltas
  (`WatchCoherence.DeltaExact`, `WatchCoherence.DuplicateIdsBreakDeltas`).
- Edges are sorted by stamp within each poll, so edges stamped backwards can mislead the client
  about the memory (`WatchEdges.BackwardStampsMislead`). They do exactly if the sort of some poll
  moves an edge of the bit by an odd number of places (`WatchEdges.MemoryWatchCoherent`); stamps
  that go backwards only between polls, or by even moves, do no harm. With a positive minimum
  interval no stamp goes backwards (`WatchEdges.AssemblyWatchCoherent`).
- `suggest_layout_from_sizes` can fail for good sizes when the preferred response size is even and
  below 4, which no caller in the repository asks for: always below 492 input bytes, never from 508
  on, and in between exactly as `Layout.SuggestLayout` says.

## Model

| member | source | states |
|---|---|---|
| Handshake.ExactlyOnce | backend/plc_link/client.py:109-198 | In every interleaving with a conforming device and without timeouts, ignored commands included, each command is latched once, in order, with exactly the words built for it; every waiting call returns AK if the answer to that very command begins with the double word 1 and NK if with 8, and no other answer exists |
| Handshake.TriggerDiscipline | backend/plc_link/client.py:119-198 | Against any device, with any timeouts and lost connections: the rest of the command area is frozen while the trigger is on; no earlier trigger is on while a command is written; after a waiting call the trigger is 0, except exactly when the call was refused while an ignored command still held its trigger |
| HandshakeRuns.RefusedCallLeavesTrigger | backend/plc_link/client.py:120-123 | That exception occurs, on both transports: the connection check comes before the pending ignored command is awaited |
| Handshake.StepKeeps | backend/plc_link/client.py:142-198 | Every step of client, background task and device keeps the invariant behind exactly-once |
| HandshakeProgress.EffectiveBounded | backend/plc_link/client.py:123-179 | In every conforming run only so many steps can change anything, by a bound that counts the work left |
| HandshakeProgress.SomethingMoves | backend/plc_link/client.py:123-227 | In every reachable state with a call to make or a command pending, some step of client, task or device changes something: no deadlock |
| HandshakeProgress.RunsComplete | backend/plc_link/client.py:109-198 | Every conforming run can be continued to one in which every call has returned and every command was latched and answered once |
| HandshakeProgress.EitherResultIsReturned | backend/plc_link/client.py:157-179 | For every waiting command a conforming run has not decided yet and for either result, the run can be completed so that this very call returns AK (1) or NK (8) with the words the device wrote |
| HandshakeFreshness.FreshExactly | backend/plc_link/client.py:142-179 | After any history of timeouts, refusals and rejects, a waiting call that ends without a timeout of its own returns the answer to its own command if and only if, when it was raised, the device was ready or had latched nothing yet that differs from it |
| HandshakeFreshness.FreshOnwards | backend/plc_link/client.py:142-179 | From such a command on every later call is fresh, too, while nothing times out again |
| HandshakeRuns.StaleAnswer | backend/field_network/client.py:187-228 | On either transport there is a run with one timeout and a conforming device in which the second call returns the answer to the first command, since the echoed code is not compared |
| PlcLinkClient.PlcLinkClient.SendCommand | backend/plc_link/client.py:109-179 | The call over the real memory: the whole state it leaves, refused, rejected, ignored or waiting, for every script of what happens during its sleeps; its memory accesses are steps of the transition system, conforming ones if the device conforms and nothing times out |
| PlcLinkClient.PlcLinkClient.AwaitIgnoreTask | backend/plc_link/client.py:181-189 | Wakes the background completion after every sleep until it is over; ends with no ignored command pending, whatever the device does |
| PlcLinkClient.PlcLinkClient.ResumeIgnored | backend/plc_link/client.py:191-198 | At each wake-up the background completion takes every step of the transition system it can, and is over, with the trigger lowered, if its wait gives up |
| PlcLinkClient.PlcLinkClient.WaitBit | backend/plc_link/client.py:200-213 | Polls before every sleep, ends on seeing the expected BUSY, or gives up without it with the deadline passed or the connection lost; either way command area, results and task are as before |
| PlcLinkClient.PlcLinkClient.WaitResponseReady | backend/plc_link/client.py:215-227 | Polls before every sleep, ends on seeing the double word 1 or 8, or gives up without it with the deadline passed or the connection lost; either way command area, results and task are as before |
| PlcLinkClient.PlcLinkClient.Completes | backend/plc_link/client.py:157-179 | Before every sleep a waiting call has taken every step it can, and at the end it has returned, or given up at a sleep with the deadline passed or the connection lost; either way the trigger is 0 and there is exactly one more result, AK for 1 and NK for 8 in the response |
| PlcLinkClient.OneOutcome | backend/plc_link/client.py:157-227 | For every state and every script of what happens during the sleeps a waiting call has only one end: it takes every step it can and sleeps only where it can take none, until it has returned or, with the deadline passed or the connection lost at a sleep, gives up |
| PlcLinkClient.PlcLinkClient.LastCallIsAnswered | backend/plc_link/client.py:109-179 | After a waiting call in a conforming history, the device object has latched every command once and the result is its answer to the last one |
| PlcLinkClient.PlacedTrigger | backend/plc_link/client.py:149-165 | Writing the trigger double word changes that part of the command area and no other cell of the memory |
| FieldNetworkClient.FieldNetworkClient.WriteOutputRegion | backend/field_network/client.py:113-122 | The words of the assembly are the old ones overwritten from the index; a range that does not fit changes nothing; the changed watched bits are reported |
| FieldNetworkClient.FieldNetworkClient.WriteTrigger | backend/field_network/client.py:191-226 | Sets the trigger in the command area of the assembly and leaves the rest of that area, the reserved words and the input ports alone |
| FieldNetworkClient.FieldNetworkClient.WriteCommand | backend/field_network/client.py:187-189 | The command area holds exactly the words; everything before it is unchanged |
| FieldNetworkClient.FieldNetworkClient.ReadInputDword | backend/field_network/client.py:131-141 | The signed double word of two input words, or an error exactly when they are not both inside |
| SequenceMachine.InterpreterRefinesMachine | backend/engine.py:193-233 | The recursive interpreter with its signals halts in exactly the state and signal of a stack machine in which a break drops to the nearest loop |
| SequenceEngine.SequenceEngine.Run | backend/engine.py:168-191 | The engine with its fields, loops and depth counter does what the interpreter says, and leaves loop_depth at 0 |
| SequenceEngine.SequenceEngine.RunSteps | backend/engine.py:193-233 | State and signal are those of the interpreter at the nesting loop_depth tells; loop_depth is restored on every way out |
| SequenceEngine.SequenceEngine.RunLoop | backend/engine.py:594-612 | Iterations, stop checks and break as the interpreter has them; loop_depth is restored even when an exception passes |
| SequenceEngine.SequenceEngine.RunIf | backend/engine.py:569-592 | Runs the branch the condition on the last result selects, after the condition event |
| SequenceEngine.SequenceEngine.RunDelay | backend/engine.py:561-567 | Sleeps in slices of at most 100 ms, and ends with a stop if one is seen before a slice |
| SequenceEngine.SequenceEngine.RunCommand | backend/engine.py:450-559 | Sends, remembers and shows the reply of a command card and fails for NK and ER unless the response is ignored |
| SequenceEngine.SequenceEngine.ResolveArguments | backend/engine.py:235-244 | Arguments with the named variables in place, or an error exactly if a named variable is unknown |
| SequenceEngine.SequenceEngine.StoreVariable | backend/engine.py:251-287 | Stores what the source of a variable card reads, or fails without storing |
| SequenceCards.IfBranches | backend/engine.py:569-592 | The then branch runs exactly if the status, the joined responses or, without a result, the empty text equals the value, contains it, or does not; the else branch otherwise |
| SequenceCards.CommandCardRuns | backend/engine.py:450-559 | What a command card comes to: refused before it is sent, an exception of the device, or a reply that is remembered under the card and shown response by response; it fails exactly for NK and ER, unless the response is ignored and the command is not a local one |
| SequenceCards.ArgumentsResolved | backend/engine.py:235-244 | Fails exactly for a named variable that is not known; otherwise each key has the value of the last variable named for it, and every other argument stays |
| SequenceCards.DelayCard | backend/engine.py:561-567 | Sleeps once per tenth of a second begun, or stops before the first sleep at which stop is set |
| SequenceCards.VariableCard | backend/engine.py:251-287 | Stores under the stripped name what its source holds, or fails without storing for a blank name or a source that holds nothing |
| SequenceCards.BreakCard | backend/engine.py:203-212 | Outside every loop a break fails; inside it is reported, completed, and leaves the list |
| SequenceCards.NoteCard | backend/engine.py:213-216 | A note is reported and completed |
| SequenceCards.CardsInTurn | backend/engine.py:193-233 | Cards run one after the other, and the first signal ends the list |
| SequenceCards.StoppedBeforeCard | backend/engine.py:194-196 | With stop set no card of a list begins, and nothing changes |
| SequenceCards.LoopCutShort | backend/engine.py:594-612 | After any number of whole iterations a stop set by then, or a body that stops or fails, ends the loop as it is |
| SequenceCards.WholeRun | backend/engine.py:168-191 | A run forgets variables, remembered cards, last response and numbering but not the last result, and ends as its cards end |
| SequenceProperties.LoopIsRepetition | backend/engine.py:594-612 | A loop ends normally in a state if and only if that state is reached by successive runs of its body, count times or up to the first break that belongs to it |
| SequenceProperties.BreaksStayInside | backend/engine.py:203-212 | No program lets a loop-break exception out of run; a program that passes the static check never raises the misplaced-BREAK error |
| SequenceProperties.CheckedSteps | frontend/app.js:5286-5294 | If findOrphanBreak finds nothing at a nesting, running the cards at that nesting never fails for a misplaced break |
| SequenceProperties.OrphanExactly | frontend/app.js:5286-5294 | The static check objects exactly to a list with a BREAK card outside all its loops, at any depth of If cards |
| SequenceProperties.NoStartAfterStop | backend/engine.py:614-616 | Once the stop event is set no later event of the run is a step_started |
| SequenceNesting.RunsNest | backend/engine.py:193-233 | In every run started and completed events nest like brackets, with If cards given up only between a break and its loop; a completed run leaves nothing open |
| SequenceNesting.CompletedRunsSettle | backend/engine.py:193-233 | In a completed run every started card is later completed, or is an If card with a later break |
| SequenceEngine.IndexStepPositions | backend/engine.py:55-75 | Positions and total of the cards in page order, both branches and each loop body once |
| SequenceEngine.StructuredInPageOrder | backend/engine.py:62-71 | In page order a structured card comes before its then branch, then the else branch or the body, then the cards behind it |
| SequenceEngine.PositionsExact | backend/engine.py:58-67 | Exactly the ids that are not blank have positions; of several cards with one id the last one counts |
| SequenceEngine.PositionsInPageOrder | backend/engine.py:58-67 | With distinct ids the position of a card is its place in page order |
| McServer.HandleRequest | backend/plc_link/mc3e.py:189-215 | Every byte string is answered; response, memory and edge log are those of the specification of the frame |
| McProperties.ResponseShape | backend/plc_link/mc3e.py:137-235 | Every response has subheader D0 00, end code 0 or 0xC050, the data of an accepted request, and the routing bytes of the request, with the station's own where the request is too short to have them |
| McProperties.LengthFieldExact | backend/plc_link/mc3e.py:143-150 | The length field equals the body length if and only if the request is not an accepted word read of more than 32766 points |
| McProperties.LongReadOverflows | backend/plc_link/mc3e.py:310-313 | Such a read: 32767 words of D from address 0 are answered with 65536 bytes and length field 0 |
| McProperties.ParseInvertsBuild | backend/plc_link/mc3e.py:104-186 | Parsing recovers every field and the payload of every request with a 24-bit head and a payload that fits the length field |
| McAccess.ParsesExactly | backend/plc_link/mc3e.py:154-186 | Exactly which byte strings parse, and where each field comes from |
| McAccess.WordReadExact | backend/plc_link/mc3e.py:310-313 | A word read is accepted exactly if the range fits; the answer holds the cells of D, or sixteen points of M per word, and nothing changes |
| McAccess.BitReadExact | backend/plc_link/mc3e.py:315-319 | A bit read is accepted exactly for M and a range that fits; the answer holds two points a byte, the first in the upper half |
| McAccess.WordWriteExact | backend/plc_link/mc3e.py:321-330 | A word write is accepted exactly if its payload has two bytes a point and the range fits; then the cells, or groups of sixteen points, hold the payload and no other cell has changed |
| McAccess.BitWriteExact | backend/plc_link/mc3e.py:332-340 | A bit write is accepted exactly for M, a payload with two points a byte and a range that fits; then the points are those of the payload and no other cell has changed |
| McAccess.OtherwiseRefused | backend/plc_link/mc3e.py:310-345 | No other command or subcommand is accepted as a batch access |
| McAccess.RandomReadExact | backend/plc_link/mc3e.py:258-292 | A random read is accepted exactly if every entry names a device and fits; the answer holds the words of the entries in order, one word each and then two words each |
| McAccess.RandomWriteExact | backend/plc_link/mc3e.py:294-307 | A random write is accepted exactly if every entry is complete, names a device and fits; then its words have been written in order, of two words the first at the head |
| McAccess.OneWriteDone | backend/plc_link/mc3e.py:246-255 | One such word stands in its cell of D or its sixteen points of M and nothing else has changed, or it does not fit and nothing has |
| McProperties.WordWriteIsBitWrite | backend/plc_link/memory.py:82-87 | Writing words to M at any head is writing their bits side by side, and is accepted exactly if all of them fit |
| McProperties.ViewsAgree | backend/plc_link/memory.py:70-80 | Word i of an M word read is the sixteen points from head + 16 i, least significant first, at any head |
| McProperties.WordWriteThenRead | backend/plc_link/mc3e.py:310-330 | An accepted word write read back by device, head and points yields the payload, and no other cell has changed |
| McProperties.BitWriteThenRead | backend/plc_link/mc3e.py:332-340 | An accepted bit write read back yields its canonical nibbles, and no other cell has changed |
| McProperties.PackInvertsUnpack | backend/plc_link/mc3e.py:67-83 | Packing unpacked points gives a payload back if and only if its nibbles are canonical |
| McProperties.UnpackInvertsPack | backend/plc_link/mc3e.py:67-83 | Unpacking packed points gives the points back |
| McServer.PackBitsLoop | backend/plc_link/mc3e.py:67-74 | The byte buffer filled in place is the packed form, first point of a byte in the upper nibble |
| McServer.UnpackBitsLoop | backend/plc_link/mc3e.py:77-83 | The list is the points of the payload |
| McServer.ExecuteRandomAccess | backend/plc_link/mc3e.py:258-307 | Data, memory and log of a random read or write are those of its entries, words first and then double words |
| McServer.ExecuteBatch | backend/plc_link/mc3e.py:310-345 | Data, memory and log of a batch access are those of the specification |
| McFailures.PartialWrites | backend/plc_link/mc3e.py:258-340 | An M word write or a random write leaves exactly the effect of a prefix of its 16-bit word writes, in order; of all of them when accepted |
| McFailures.FailureChangesNothing | backend/plc_link/mc3e.py:310-345 | Any other request answered with an error leaves memory and edge log alone |
| SoftPlcServer.SoftPlcServer.ConsumeFrames | backend/plc_link/server.py:350-382 | Cuts off exactly the complete requests, serves them in order, and keeps the remaining bytes; tells whether it wrote and whether a request was accepted |
| Framing.ChunkingIrrelevant | backend/plc_link/server.py:359-371 | For every stream and every way of cutting it into chunks, the requests and the leftover bytes are those of the whole stream |
| Framing.ServedAlike | backend/plc_link/server.py:350-382 | Responses, memory and logged edges (up to their times) do not depend on the chunks either |
| Framing.ServedInOrder | backend/plc_link/server.py:350-382 | Requests are answered one by one in their order, each in the memory the ones before it have left |
| Framing.PipelinedRequests | backend/plc_link/mc3e.py:348-355 | Built requests with garbage around them are cut out exactly and in order, and each parses to what was sent |
| Framing.SkipGarbage | backend/plc_link/server.py:363-367 | Bytes in which no request can start are skipped without loss of the request behind them |
| Framing.CutsWhole | backend/plc_link/server.py:350-382 | Whatever arrives, each request cut out begins with 50 00 and is as long as its length field says, and what is kept is shorter than nine bytes or an incomplete request |
| DeviceMemory.DeviceMemory.WriteBits | backend/plc_link/memory.py:53-68 | Acceptance, contents and reported changes are those of fixed zero-filled areas; a refused write changes nothing |
| CellSpec.ChangesExact | backend/plc_link/memory.py:53-68 | Exactly the bits that differ are reported, once, by rising address, with their new values |
| DeviceMemory.DeviceMemory.WriteWords | backend/plc_link/memory.py:42-46 | Acceptance and contents are those of a fixed zero-filled area of 1,048,576 cells, values cut to 16 bits |
| DeviceMemory.DeviceMemory.ReadWords | backend/plc_link/memory.py:37-40 | Reads the fixed area; growth is invisible |
| DeviceMemory.DeviceMemory.ReadBits | backend/plc_link/memory.py:48-51 | Reads the fixed area; growth is invisible |
| DeviceMemory.DeviceMemory.ReadBitWords | backend/plc_link/memory.py:70-80 | Reads sixteen points per word from the fixed area, or fails if a group lies outside |
| DeviceMemory.DeviceMemory.WriteBitWords | backend/plc_link/memory.py:82-87 | Writes group after group; after a group that does not fit the earlier ones stay |
| DeviceMemory.DeviceMemory.Clear | backend/plc_link/memory.py:20-35 | All cells 0, and one falling edge reported for each watched M bit that was on |
| DeviceMemory.DeviceMemory.ReadDword | backend/plc_link/memory.py:97-103 | The signed 32-bit value of two cells |
| DeviceMemory.DeviceMemory.WriteDword | backend/plc_link/memory.py:105-107 | The two cells take the low and the high word |
| DeviceMemory.DeviceMemory.EnsureDRange | backend/plc_link/memory.py:109-117 | Succeeds exactly for a range of the fixed area and never changes what the area shows |
| DeviceMemory.DeviceMemory.EnsureMRange | backend/plc_link/memory.py:119-127 | Succeeds exactly for a range of the fixed area and never changes what the area shows |
| BitEdges.BitEdgeLog.Record | backend/bit_edges.py:76-97 | A watched key gains one edge with the next number and its spaced time, and the ring drops its oldest; other keys change nothing |
| BitEdges.BitEdgeLog.Arm | backend/bit_edges.py:61-67 | Ring and remembered times are emptied, the keys replaced, and the counter returned as cursor |
| BitEdges.BitEdgeLog.Disarm | backend/bit_edges.py:69-70 | Arms no key, so that nothing is recorded |
| BitEdges.BitEdgeLog.Take | backend/bit_edges.py:99-103 | The edges of the ring beyond the cursor, and the next cursor |
| EdgeSessions.CursorDelivery | backend/bit_edges.py:61-103 | Under every interleaving of records and polls since an arm: ring numbers contiguous up to the counter, and what was delivered is recorded, increasing, and never delivered twice |
| EdgeSessions.PollLosesOnlyOldest | backend/bit_edges.py:99-103 | A poll after k records returns them all in order but for the oldest max(0, k - maxlen) |
| EdgeSessions.NothingLost | backend/bit_edges.py:61-103 | If no poll comes more than maxlen records after the one before, all polls together are the whole history |
| EdgeSessions.SpacingClosedForm | backend/bit_edges.py:76-97 | With interval d > 0 the k-th stored time of a key is the maximum over j <= k of t_j + (k - j) d, in every run |
| EdgeSessions.SpacedIsLeast | backend/bit_edges.py:82-86 | That list is never early, has gaps of at least d, and lies pointwise below every list that does |
| EdgeSessions.NoIntervalStoresInputs | backend/bit_edges.py:81-87 | Without an interval the offered times are stored unchanged |
| MemoryEdges.MemoryEdgeReplay | backend/plc_link/memory.py:20-95 | Over every run of MC frames, bit and word writes, clears and polls since an arm, the edges of a watched M bit alternate and lead from its value at the arm to its value now; the ring holds them while nothing was evicted |
| MemoryEdges.FrameAccounts | backend/plc_link/mc3e.py:189-215 | What one frame reports for a bit is exactly the alternation from its old to its new value, for accepted and failed frames alike |
| IoBuffers.AssemblyEdgeReplay | backend/field_network/eip_scanner.py:78-175 | The same over every run of packets, output writes, single-bit writes and clears of the assemblies |
| IoBuffers.BitAtWeight | backend/field_network/eip_scanner.py:109-175 | Address a of an assembly is bit a mod 8, least significant first, of byte a div 8 |
| IoBuffers.IoBuffers.WriteInput | backend/field_network/eip_scanner.py:128-149 | New contents, sequence number and count, and one edge for every watched input bit that differs; a wrong size changes nothing |
| IoBuffers.IoBuffers.WriteOutput | backend/field_network/eip_scanner.py:93-103 | New contents and one edge for every watched output bit that differs; a wrong size changes nothing |
| IoBuffers.IoBuffers.SetOutputBit | backend/field_network/eip_scanner.py:109-126 | Changes the one bit and no other, with an edge exactly if it differs |
| IoBuffers.IoBuffers.Clear | backend/field_network/eip_scanner.py:78-91 | Both assemblies 0, output edges before input edges |
| IoBuffers.IoBuffers.RecordBitChanges | backend/field_network/eip_scanner.py:151-175 | Reports each watched bit that differs and lies in both contents, once |
| EdgeReplay.ReplayIsRun | backend/bit_edges.py:76-103 | Batches of reports and polls are runs of single records and takes, so the session theorems apply to them |
| WatchCoherence.ValuesCoherent | backend/watch_stream.py:127-152 | With distinct ids, after every tick of every run the merged full and delta messages are exactly the rows read at that tick |
| WatchCoherence.FullTicks | backend/watch_stream.py:127-152 | In every run the message of tick n is full exactly if n is 1 or a multiple of full_every or the reading before had no rows; otherwise it carries the rows that differ from the reading before |
| WatchCoherence.FullAboutOnceASecond | backend/watch_stream.py:123 | full_every is the number of whole intervals, of at least a millisecond, in a second, but at least 20 |
| WatchCoherence.EdgeRowsAre | backend/watch_stream.py:65-88 | One row for every edge and every bit item of M, IN or OUT that watches its bit, in item order, with the edge's value and its time in milliseconds |
| WatchCoherence.DeltaExact | backend/watch_stream.py:91-106 | A delta leaves the client with the rows read if and only if no id vanished and no id whose last row repeats its old sample has another row that differs |
| WatchCoherence.DuplicateIdsBreakDeltas | backend/watch_stream.py:91-106 | Two rows of one id with different samples do break the scheme at the second tick |
| WatchEdges.MemoryWatchCoherent | backend/watch_stream.py:65-152 | If the ring never overflows, the edge rows delivered for a bit alternate and lead from its value at the arm to the value the sample reads if and only if in every poll the sort by stamp and number moves each of its edges by an even number of places |
| WatchEdges.ForwardPollsCohere | backend/watch_stream.py:78-87 | So they do while the stamps of the bit do not go backwards inside any one poll |
| WatchEdges.AssemblyWatchCoherent | backend/watch_stream.py:65-152 | For the assemblies they always do, since their log has a positive interval |
| WatchEdges.SpacingKeepsStampsForward | backend/bit_edges.py:81-86 | With a positive interval the stored stamps of a key never go backwards |
| WatchEdges.BackwardStampsMislead | backend/watch_stream.py:78-87 | A run of the memory in which a bit is set at time 2 and cleared at time 1 before one poll: the client ends with the bit on |
| WatchStream.FormatBitEdges | backend/watch_stream.py:65-88 | The rows are the edges sorted by stamp and number, one row for each bit item that watches the key |
| WatchStream.DiffValues | backend/watch_stream.py:91-106 | The rows that differ from the previous samples, and the samples of all rows |
| WatchStream.WatchLoop.Sample | backend/watch_stream.py:127-170 | Full at the first tick, every full_every ticks and after nothing, otherwise the changes; the message time is not before any of its edges; a failed read sends an error and changes nothing |
| WatchStream.WatchClient.Receive | frontend/app.js:2046-2065 | A full message replaces the table, a delta overlays it; the ids whose display changes are returned |
| WatchCoherence.TouchedIds | frontend/app.js:2058-2064 | With distinct ids a delta marks as changed exactly the ids whose sample it changes or adds |
| WatchCoherence.KnownIds | frontend/app.js:2050-2055 | With distinct ids a full message marks exactly the known ids whose sample it changes |
| CommandReading.OcvReadBack | backend/plc_link/commands.py:1012-1081 | The block list of an OCV command is read back from its words, whatever follows, if and only if no position is 0 and no text holds a NUL |
| CommandReading.OcvInjective | backend/plc_link/commands.py:1012-1118 | Two such commands of one code with the same area transmit the same arguments, block by block |
| CommandReading.ZeroPositionCollides | backend/plc_link/commands.py:1039-1051 | With a position 0 it fails, for every command with a further block and four words of room: an empty pair at the end of the last block leaves the area as it was |
| CommandReading.TwoEntriesCollide | backend/plc_link/commands.py:946-975 | Two inputs a user may enter, with the further block ",BL2" or ",BL2,FM0", give the same area |
| CommandReading.ImportReadBack | backend/plc_link/commands.py:893-925 | The words of an import determine the kind, the numeric variant, every integer the kind sends, and the path |
| CommandReading.ExportReadBack | backend/plc_link/commands.py:862-890 | The words of an export determine the kind, every integer the kind sends, and the folder |
| CommandReading.StandardReadBack | backend/plc_link/commands.py:715-744 | The parameters of a standard command come back in order by the kinds its specification gives |
| CommandReading.BuiltArea | backend/plc_link/commands.py:1096-1118 | A successful build has exactly the size of the area, trigger 0, the code, the parameters and zeros |
| CommandAreas.OcvWords | backend/plc_link/commands.py:978-1081 | An OCV command is built exactly if its entries are enterable and fit, and then its words are group and task for three codes, camera, line, the number of a multiple check or 0, the number of blocks, the first block with its defaults, and the further blocks |
| CommandAreas.ExportWords | backend/plc_link/commands.py:862-890 | An export is built exactly if kind, integers and folder are enterable and fit, and then its words are the kind, progress, version, the integers the kind sends and the folder |
| CommandAreas.ImportWords | backend/plc_link/commands.py:893-925 | An import likewise; in numeric mode four kinds are sent with 100 added and the adjustment in its place |
| CommandAreas.TablesByArgument | backend/plc_link/commands.py:146-242 | Which kinds send which argument, in one order common to all exports and one common to all imports |
| CommandAreas.StandardWords | backend/plc_link/commands.py:703-744 | A command in catalogue order is built exactly if every parameter has a value of its kind and all fit; texts are sent as they are, x and y in thousandths rounded half to even, a folder as its number where asked for, defaults where blank |
| CommandWords.BuildCommandWords | backend/plc_link/commands.py:1096-1118 | The shared list the packers append to, padded, is the specified area, with an error in the same cases |
| Commands.PrimaryBlock | backend/plc_link/commands.py:978-1009 | The first block has at most one pair of either kind, each with characters; enabled, it has its text or the position it replaces |
| CommandWords.WordList.PackPayload | backend/plc_link/commands.py:1108-1109 | Reads the arguments and appends what the packer of the command makes of them, with an error in the same cases |
| CommandWords.WordList.PackOcv | backend/plc_link/commands.py:1072-1081 | Appends header and blocks, or fails for 0 or more than 20 blocks or a text over its limit in characters |
| CommandWords.WordList.PackOcvBlock | backend/plc_link/commands.py:1012-1051 | Appends one block, its list ended by a position 0 |
| CommandWords.WordList.PackImport | backend/plc_link/commands.py:893-925 | Appends the kind (plus 100 for the numeric variant), the integers of the kind and the path |
| CommandWords.WordList.PackExport | backend/plc_link/commands.py:862-890 | Appends the kind, progress, version, the integers of the kind and the folder |
| CommandWords.WordList.PackStandard | backend/plc_link/commands.py:715-744 | Appends the parameters in order, defaults and blanks filled in, a folder as its code where that is asked for, x and y in thousandths |
| Packing.DecodeInvertsPack | backend/plc_link/monitor.py:273-290 | Decoding gives back exactly the texts without a NUL, in both byte orders; a text of n bytes takes 2 ceil((n + 1) / 4) words |
| Packing.PackedBytes | backend/plc_link/commands.py:605-618 | Two bytes of a text to a word, the first in the upper or the lower half as the byte order says, zeros behind the text |
| Packing.DecodeStringLoop | backend/plc_link/monitor.py:279-290 | The bytes before the first NUL |
| Packing.PackStringLoop | backend/plc_link/commands.py:599-618 | The terminated text, padded to whole double words |
| Bytes.DwordRoundTrip | backend/plc_link/commands.py:621-632 | Reading a stored double word gives the value modulo 2^32, the value itself in the signed range |
| Layout.SuggestLayout | backend/field_network/layout.py:164-243 | Succeeds exactly for sizes that are multiples of 4 and at least 12, unless the preferred response is even and below 4 and the cheapest number of output ports leaves fewer than 244 words; the result is the first of all candidates and has exactly the given sizes; a customary layout of the sizes is the result |
| Layout.SuggestionIsBest | backend/field_network/layout.py:178-222 | No other division of the two assemblies has a command nearer to the preferred size, nor, with the same input ports, less against it: distance of the response from its preferred size, of the result from 238 or 240 words, and 10 for unequal ports |
| Layout.SuggestionRecovers | backend/field_network/layout.py:164-243 | A layout with equal ports, 238 or 240 result words and the preferred command and response is recovered from its sizes alone |
| Layout.SuggestionFits | backend/field_network/layout.py:222-264 | The first candidates always have the given sizes and build a layout whenever the response has four words, so the final checks cannot fail for the default preferences |
| Layout.TooSmallBounds | backend/field_network/layout.py:191-217 | Such a preference always fails below 492 input bytes and never from 508 on |
| Layout.SuggestedResponse | backend/field_network/layout.py:191-220 | For such a preference the first candidate has the cheapest output ports, and a response below four words exactly if they leave fewer than 244 |
| Layout.SuggestionIsUnique | backend/field_network/layout.py:187-220 | The lexicographic minimum determines the layout |
| Layout.RegionsAreAdjacent | backend/field_network/layout.py:34-104 | The regions of a built layout follow one another without gap or overlap and fill both assemblies |

## Left out

- Handshake.ExactlyOnce: the area, BUSY and the response area are the whole state; the MC frames by which a real device reaches them are modelled in McServer but not composed with the handshake. A device that conforms is the one described in the module.
- PlcLinkClient.PlcLinkClient.SendCommand: cancellation of the caller is not modelled (no caller in the repository cancels); the commands to come are fixed at construction, settings are those that pass validation, the whole response area stands for the four double words read from it, and a script of turns that runs out stands for a deadline that passes.
- PlcLinkClient.PlcLinkClient.AwaitIgnoreTask: a caller cancelled here would cancel the background task without lowering its trigger, which is not modelled.
- FieldNetworkClient.FieldNetworkClient.WriteTrigger: the polling loops of the Field Network client have no class of their own. They are those of PlcLinkClient over the accesses modelled here, without clearing the response area, which Handshake covers with its clears flag.
- HandshakeRuns.StaleAnswer: Field Network input arrives packet by packet; the device of the transition system writes its answer word by word.
- CommandWords.BuildCommandWords: the packers sli, slp, sfs, dfa and region would only add easy members.
- CommandWords.WordList.PackOcv: further blocks arrive parsed, the regular expression for them being left out.
- SequenceEngine.SequenceEngine.RunCommand: the device, upper-casing and argument checks are functions of a World parameter; transport choice, the argument display, the TCP framing and the position and total fields of events are not part of the trace (positions are proved separately).
- SequenceEngine.SequenceEngine.StoreVariable: reads of ports and result data, and stripping, are functions of the World parameter.
- SequenceEngine.SequenceEngine.RunDelay: milliseconds are integers, so the rounding of the remaining seconds in floating point, which can add a slice, is not modelled; the wall clock is a counter of awaits.
- WatchStream.WatchLoop.Sample: the wall-clock fields, pacing and rescheduling of the loop are not modelled.
- WatchStream.WatchClient.Receive: the display updates that follow are not modelled.
- IoBuffers.IoBuffers.WriteInput: the transmit counter and the statistics are not modelled.
- DeviceMemory.DeviceMemory.Clear: the order in which a set is iterated is returned as a value instead of being fixed; the same holds for the assembly writes.
- Locks, threads, sockets, asyncio scheduling and keepalive: all writers run on one event loop, so their steps are taken one after the other.
- EtherNet/IP session, Forward Open and real UDP traffic: they depend on devices and sockets.
- Character encodings, the EDS parser and the OCV additional-block syntax: they rest on libraries that are not part of this model. A text is a byte string, and a parameter tells its number of characters; integers arrive as a number, a blank or no number.
- Formatting of result data and output ports, status-signal mapping, settings models, command catalogue: data and straight-line validation.
- TCP client, checksums and port lists: easy members only.
- The rest of the page (charts, storage, drag and drop): user interface.
