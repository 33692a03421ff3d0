# Monitoring agents and workers: a verified model

An agent on a monitored host collects lines from its collectors, batches, compresses and encrypts
them, and sends them over one framed TCP connection to a worker. The worker rebuilds the frames,
authenticates the connection, decrypts each batch and runs every record through an ordered list of
detection rules. A master hands the agents' keys to the workers and keeps the agents' status. This
project models that data path, and the small state machines beside it, in Dafny and proves what
holds in every run. `dafny verify dfyconfig.toml` checks all of it.

## How the model is built

Whatever the program does between two points where something else may run is one step: a function
from state to state. A run is any sequence of steps, so it covers every interleaving of goroutines,
every chunking of a byte stream, every pace of asynchronous callbacks and every loss of a connection.
The main theorems are about all runs. Code that updates its state in place is also given as a class or
a method with a loop, proved equal to the step or the function the theorems are about.

| file | models |
|---|---|
| `Frames.dfy` | the frame format, encoding and decoding of byte streams |
| `FrameParser.dfy` | `SocketFrameParser`: re-entrant `append`, one asynchronous callback at a time |
| `AgentLink.dfy` | the agent's connection: dial and Auth under `connMutex`, senders and heartbeat under `writeMutex`, failed writes, closing, the read loop |
| `AgentRuns.dfy` | whose batch each frame carries, which connection is current |
| `WorkerSessions.dfy` | the worker's sockets: authentication, admission, decryption, records, alerts |
| `WorkerWire.dfy` | what the worker writes and a client reads |
| `SocketRegistry.dfy` | `activeAgentSockets` |
| `TcpReceiver.dfy` | the receiver's handlers in place |
| `Lines.dfy`, `BatchCodec.dfy` | line reading, batching, packing and unpacking |
| `EndToEnd.dfy` | the data path as a whole |
| `Shared.dfy` | what several modules share |
| `Threshold.dfy` | the threshold counters |
| `RuleEngine.dfy`, `RuleShadowing.dfy`, `RuleMatcher.dfy` | conditions, the rule walk, shadowed rules, the engine with its module state, the parser in front of it |
| `RuleDetection.dfy` | what threshold rules detect in a whole list of rules, on whole streams |
| `KeySync.dfy`, `KeyNodes.dfy` | key distribution between master and workers, and its two ends in place |
| `AgentStatus.dfy` | online and offline |
| `FileMonitor.dfy`, `FimBaseline.dfy` | the inotify walk, debouncing, the baseline |
| `Inventory.dfy` | the software list |

Cryptography, token verification, compression, JSON, regular expressions and JavaScript's conversions
are function-valued parameters; where a theorem needs a law of theirs (decompression inverts
compression, RFC 1952; opening inverts sealing with a 16-byte tag, NIST SP 800-38D section 7; trimming
a JSON text does not change it) the law is a hypothesis. Clocks, metadata of files and the outcomes of
network calls are inputs of the steps.

## Where the code does not do what one would expect

These are theorems with a concrete run or an exact condition, not assumptions.

- A noise path on a watched record stops the file monitor for good: the `continue` skips the advance
  of the offset (`FileMonitor.WalkEndsIff`, `FileMonitor.NoiseRecordStopsWalk`). A debounced record is
  tried again until 500 ms have passed.
- The rule for SSH brute force fires or not depending on the order the database returns: never when
  rule 4001 is in front of it, as in the file, and otherwise it can
  (`RuleDetection.BruteForceRuleFiresIff`, `RuleDetection.OrderDecidesBruteForce`).
- A shadowed rule with a pattern that does not compile hides the alerts of the rules behind it
  (`RuleShadowing.DeletionIsVisibleIff`, `RuleShadowing.BadPatternHidesAlert`).
- A close that is handled after the same worker id registered again unregisters the new connection,
  and keys of later handshakes do not reach that worker (`KeySync.LateCloseLosesKeys`).
- A socket that authenticates as two agents leaves a stale registry entry
  (`SocketRegistry.SecondAuthLeavesStaleEntry`).
- A frame of 2^32 bytes or more is written with a wrapped length (`Frames.EncodeInvertibleIff`).
- Events with dashes in their group fields can be counted together though they differ
  (`RuleDetection.GroupsCountApart`, `RuleDetection.DashesMixGroups`).
- Deleting an agent takes its key from no worker (`KeySync.DeletedStaysOut`).
- A package listed twice in one scan can leave the receiver with a wrong version
  (`Inventory.DuplicateNameMisleads`).
- The header comment of the receiver lists frame types 0x01 to 0x05; the code also sends 0x06, and the
  model follows the code.

## Hypotheses of the main theorems

- `EndToEnd.MessagesReachHandlers` asks that every sender was started with what `Pack` makes of its batch,
  as sendBatch does, that the worker's cache has never held another key for the
  agent, which `EndToEnd.WorkersHoldOnlyCreatedKeys` derives from the key protocol, that all frames are
  under 2^32 bytes, and `BatchCodec.Laws`, the laws of compression, encryption and JSON named above.
- `KeySync.DrainedWorkerHasAllKeys` asks for orderly runs: a worker id registers again only after the
  close of its earlier registration was handled, and the key query succeeds. Agent ids are fresh.
- `SocketRegistry.RegistryIsLive` asks for one Auth frame per socket, first, which
  `EndToEnd.SocketSeesWriteOrder` proves of the agent, and for tokens that name non-empty ids.
- `RuleEngine.EvaluateIsFirstToFire`, the theorems that a rule never counts and those of `RuleDetection`
  ask for distinct rule ids (`DistinctIds`), which the primary key on `rule_id` gives. `RuleShadowing.DeletingShadowedRuleIsInvisible`
  asks that the shadowed rule's patterns compile (`AllCompile`); `DeletionIsVisibleIff` says exactly what
  happens otherwise.
- `FileMonitor.WalkEndsIff` and `FimBaseline.Monitor.Walk` ask for a buffer of whole records
  (`WellFormed`), as the kernel delivers them, and for a clock that does not stop (`ClockAdvances`).
  `WalkEndsIffNoNoise` also asks that no descriptor added during the walk is one the buffer already names
  (`FreshDescriptors`): its records were read before.
- `Threshold` theorems ask for a window of at least zero seconds; `BurstIsDetected` for a count of at
  least two. A count below two alerts on every event and has no bound to speak of.

## Model

| member | source | states |
|---|---|---|
| EndToEnd.MessagesReachHandlers | src/Server/worker/receiver/tcpReceiver.js:44-170 | For every interleaving of an agent's senders, each started with its packed batch, every chunking, every pace of callbacks: a socket whose token was refused handles nothing; a granted one gives the rule handlers exactly the messages of the senders whose frames were called back, in the order they took the write lock, once each, under the token's agent, or a prefix of them while a callback runs; an idle parser has called back every frame that arrived, so once all bytes of the connection are in, every message was handled |
| EndToEnd.GrantedAdmitsAll | src/Server/worker/receiver/tcpReceiver.js:104-144 | While the cache has held only one key for an agent, every Data frame on a socket granted to it is admitted with that key; none is turned away |
| EndToEnd.SocketSeesWriteOrder | src/agents/agentCollector/main.go:477-490 | The worker's callback sees a prefix of one Auth frame followed by the senders' frames in the order they took the write lock; Auth is first and only first |
| EndToEnd.SocketsHoldWhatArrived | src/Server/worker/receiver/tcpReceiver.js:38-66 | In every run of the server, each socket's delivered frames, re-encoded, and its buffer are exactly the bytes that arrived at that socket |
| EndToEnd.AgentReadsAnswerThenFrames | src/agents/agentCollector/main.go:333-371 | With Auth sent first, the handshake read sees the worker's answer to it and accepts exactly if that answer is 0x00; the read loop behind it sees a prefix of the frames written next, all of them once all bytes have arrived; with one Auth, the agent accepts exactly if the worker granted it, and those frames are empty Pongs and Alerts |
| EndToEnd.WorkersHoldOnlyCreatedKeys | src/Server/worker/socket_client/handlers/handlerMasterSocket.js:34-43 | A worker that learned its keys from the master has never held another key for an agent than the one created for it: the hypothesis of the data path, from the key protocol |
| Frames.EncodeInvertibleIff | src/agents/agentCollector/main.go:464-468 | A written frame is read back as itself if and only if its payload is shorter than 2^32 bytes |
| Frames.TakeIsEncoded | src/Server/worker/receiver/tcpReceiver.js:49-66 | A frame cut off the buffer and the remaining bytes are the buffer, byte for byte |
| Frames.DecodeIsExact | src/Server/worker/receiver/tcpReceiver.js:48-66 | Decoding any byte stream loses and invents nothing, and stops only when no complete frame is left |
| Frames.DecodeEncoded | src/Server/worker/receiver/tcpReceiver.js:48-66 | Decoding inverts encoding in front of any further bytes |
| Frames.DecodePrefix | src/Server/worker/receiver/tcpReceiver.js:48-66 | A prefix of an encoded stream decodes to a prefix of the frames that were written |
| Frames.BytesOnTheWire | src/Server/worker/receiver/tcpReceiver.js:19-30 | The bytes themselves: type, length with the highest byte first, payload; and the values of the six types |
| FrameParser.ReachableInv | src/Server/worker/receiver/tcpReceiver.js:31-78 | In every run of re-entrant appends and settling callbacks: delivered frames, re-encoded, and the buffer are all bytes appended; at most one callback is unfinished and isProcessing says so; an idle parser holds no complete frame |
| FrameParser.DeliveryFollowsStream | src/Server/worker/receiver/tcpReceiver.js:38-66 | Frames delivered and frames still in the buffer are the frames of the concatenated bytes, at every moment |
| FrameParser.ChunkIndependence | src/Server/worker/receiver/tcpReceiver.js:38-66 | Idle parsers that were sent the same bytes are in the same state and made the same calls, however the bytes were cut and whenever callbacks settled |
| FrameParser.DeliversWhatWasEncoded | src/Server/worker/receiver/tcpReceiver.js:38-66 | An idle parser that was sent the encoding of some frames has delivered those frames and holds no byte |
| FrameParser.SettlingDrains | src/Server/worker/receiver/tcpReceiver.js:44-77 | No frame waits for a further append: once as many callbacks settle as frames are waiting, plus one, all are delivered and the parser is idle |
| FrameParser.SocketFrameParser.Append | src/Server/worker/receiver/tcpReceiver.js:38-46 | append: the object's new state is one Receive segment of the model, also when a callback is pending |
| FrameParser.SocketFrameParser.CallbackSettled | src/Server/worker/receiver/tcpReceiver.js:68-72 | The loop's continuation after a callback, normal or failed, is one Settle segment |
| FrameParser.SocketFrameParser.RunToAwait | src/Server/worker/receiver/tcpReceiver.js:48-69 | One turn of the loop up to its await, or out of it |
| FrameParser.SocketFrameParser.Process | src/Server/worker/receiver/tcpReceiver.js:44-77 | The undisturbed loop delivers every complete frame in order and keeps the incomplete rest |
| AgentLink.WritesAreWholeFrames | src/agents/agentCollector/main.go:304-371 | For every interleaving of any number of senders and the heartbeat: the bytes of a connection before its first failed write are the beginning of Auth, with the connection's token, and then whole Data and Ping frames in write-lock order, exactly so between senders; nothing follows Auth before the connection is published, which takes a 0x00 answer |
| AgentRuns.FramesCarryTheirJobs | src/agents/agentCollector/main.go:464-490 | The i-th frame of a connection is the job of the goroutine that took the write lock as the i-th: a Data frame with exactly the bytes its batch was started with, or an empty Ping |
| AgentRuns.SuccessIsFinal | src/agents/agentCollector/main.go:459-504 | Once a sender has written its batch without an error, it never takes the write lock again, on any connection |
| AgentRuns.CurrentIsTheOpenOne | src/agents/agentCollector/main.go:263-388 | A connection is published exactly if a 0x00 answer was read on it, and current exactly while it is published and not closed; one on which a write failed is current only until the sender that failed has closed it |
| AgentRuns.TokensAreDialed | src/agents/agentCollector/main.go:296-325 | Every connection authenticates with a token it was dialed with |
| AgentLink.ReceiverSeesWriteOrder | src/agents/agentCollector/main.go:482-488 | Through any chunking and callback pace, the worker's parser delivers a prefix of Auth and the frames in write-lock order |
| AgentLink.AcceptsExactly | src/agents/agentCollector/main.go:333-368 | The handshake accepts a reply exactly when it starts with an encoded Auth Response carrying the one byte 0x00 |
| AgentLink.ReadLoop | src/agents/agentCollector/main.go:510-556 | The read loop sees exactly the frames a stream decodes to, and stops at the incomplete rest |
| WorkerSessions.RecordsHandledInOrder | src/Server/worker/receiver/tcpReceiver.js:127-170 | On every socket of every run the records handled are those of the admitted Data frames, of the handled types, in order and once each, all of one frame under the id verified last before it |
| WorkerSessions.SessionSafety | src/Server/worker/receiver/tcpReceiver.js:89-170 | A handled record comes from a Data frame after a successful Auth on that socket, under the id of the last verified token, decrypted with the key the cache held for that id at the step that admitted the frame |
| WorkerSessions.ReachableOk | src/Server/worker/receiver/tcpReceiver.js:44-170 | The invariant behind both, kept by every step of the server: parser state, admission, authentication and log of every socket agree |
| WorkerWire.ClientReadsWhatWasWritten | src/Server/worker/receiver/tcpReceiver.js:114-119 | No Alert is written to a socket before an Auth Response 0x00; if Auth came first, the first byte read is type 0x04 and its payload is one byte; what arrives decodes to a prefix of the frames written |
| WorkerWire.EveryFrameIsAnswered | src/Server/worker/receiver/tcpReceiver.js:90-188 | In every run the frames written to a socket, apart from alerts, are in order and nothing else one Pong for each Ping and one Auth Response for each Auth received, which carries 2 exactly if the token does not verify, 1 exactly if its agent has no cached key at that step, 0 otherwise, up to the end of the connection; the socket is destroyed exactly if an Auth or a Data frame was refused, and granted exactly if an Auth was answered 0 |
| WorkerWire.AlertIsWritten | src/Server/worker/receiver/tcpReceiver.js:228-250 | An alert of a registered agent with an open socket is written to that socket, whole and behind everything else; otherwise nothing is written |
| WorkerWire.ReachableWires | src/Server/worker/receiver/tcpReceiver.js:215-245 | Kept by every step: registered sockets were answered 0x00, and what is written to any socket is made of well-formed frames |
| SocketRegistry.RegistryIsLive | src/Server/worker/receiver/tcpReceiver.js:114-119 | If each socket's only Auth frame is its first, every registry entry names an authenticated socket of that agent whose close has not been handled |
| SocketRegistry.AuthKeepsRegistryIff | src/Server/worker/receiver/tcpReceiver.js:94-119 | Without that assumption: one Auth keeps the registry right if and only if the socket is not registered under another id and, when the key is known, is not closed |
| SocketRegistry.RegistryFollowsGrants | src/Server/worker/receiver/tcpReceiver.js:114-119 | Every change of the registry and no other: an Auth that verifies and has a cached key registers its socket; a close takes the entry of its agent if it names this socket |
| SocketRegistry.EntryOutlivesOthers | src/Server/worker/receiver/tcpReceiver.js:201-206 | In one step an entry goes only by the close of its own socket, and is replaced only by the socket whose newest frame, called back in that step, is an Auth of the same agent; closing a superseded socket leaves its replacement |
| SocketRegistry.SecondAuthLeavesStaleEntry | src/Server/worker/receiver/tcpReceiver.js:201-206 | The assumption is needed: a run in which a socket authenticates as two agents and its close leaves the first entry behind |
| TcpReceiver.Receiver.OnAuthFrame | src/Server/worker/receiver/tcpReceiver.js:90-126 | The Auth handler in place, proved equal to the step WorkerWire.EveryFrameIsAnswered and SocketRegistry.RegistryFollowsGrants are about: 0x02 and destroy, 0x01 and destroy, or authenticate, register and 0x00 |
| TcpReceiver.Receiver.OnFrameReceived | src/Server/worker/receiver/tcpReceiver.js:90-188 | The callback's dispatch over Auth, Data, Ping and unknown types, up to its first await |
| TcpReceiver.Receiver.HandleRecords | src/Server/worker/receiver/tcpReceiver.js:153-168 | The undisturbed loop over a batch logs one entry per record of a handled type, in order |
| TcpReceiver.Receiver.OnSocketClosed | src/Server/worker/receiver/tcpReceiver.js:201-206 | The close handler: the entry goes only if it names this very socket |
| TcpReceiver.Receiver.SendAlertToAgent | src/Server/worker/receiver/tcpReceiver.js:228-250 | An alert goes to the registered socket or nowhere |
| TcpReceiver.Receiver.UpdateKeyCache | src/Server/worker/middleware/verifyAgentSession.js:10-12 | The key cache in place: last write wins |
| Threshold.BurstIsDetected | src/Server/worker/engine/ruleMatcher.js:91-117 | Whatever a group's counter held before, any 2*count-2 further events of the group at most window_seconds * 1000 ms apart, in any order, raise an alert (count at least 2) |
| Threshold.DetectionBoundIsTight | src/Server/worker/engine/ruleMatcher.js:91-117 | For every such limit with a window of at least one millisecond, some history and burst of 2*count-3 events raise none |
| Threshold.AlertsAreSound | src/Server/worker/engine/ruleMatcher.js:94-117 | Each alert is raised by exactly count consecutive events of its group, all at most window_seconds * 1000 ms after the first of them, and no event is in two alerts |
| Threshold.EventsAreConserved | src/Server/worker/engine/ruleMatcher.js:94-117 | Events seen = count * alerts + events discarded by expiry + events still counted |
| Threshold.CounterStaysInRange | src/Server/worker/engine/ruleMatcher.js:94-117 | Every stored counter is at least 1 and below count |
| Threshold.GroupsDoNotInterfere | src/Server/worker/engine/ruleMatcher.js:82-117 | In any interleaving, each group gets the answers and ends with the counter it would have had alone |
| Threshold.OneEventMeans | src/Server/worker/engine/ruleMatcher.js:94-117 | One event: more than window_seconds * 1000 ms after the first one counted, it starts anew and does not alert; in time, it counts, and alerts and starts anew exactly if it is the count-th |
| RuleEngine.EvaluateIsFirstToFire | src/Server/worker/engine/ruleMatcher.js:126-201 | evaluateData is: the first rule in order that matches and has no threshold or reaches it raises the only alert; each matching threshold rule up to there advances its counter once; no other counter changes; alertObj and the pushes mean packet_level at least 10; a pattern that does not compile met on the way throws |
| RuleEngine.OperatorsMean | src/Server/worker/engine/ruleMatcher.js:27-60 | What the operators mean: being the same primitive, equality with an entry, having the text inside, being larger by some amount that is not negative, the pattern testing true, an address in no private range |
| RuleEngine.OperatorsAreTwoValued | src/Server/worker/engine/ruleMatcher.js:27-60 | On a present value each operator and its negation disagree and only an invalid pattern throws; on an absent or null value every operator fails, and an unknown operator always |
| RuleShadowing.HoldsIffAllHold | src/Server/worker/engine/ruleMatcher.js:138-147 | The condition loop with its early exit is the conjunction of all conditions, and throws exactly if a condition throws behind conditions that hold |
| RuleShadowing.MatchMeans | src/Server/worker/engine/ruleMatcher.js:131-147 | When a rule matches: the first of its three type fields that is set, if any, is the type of the event, and every condition is met by its field of the payload |
| RuleShadowing.DeletingShadowedRuleIsInvisible | src/Server/worker/engine/ruleMatcher.js:126-201 | Deleting a later rule shadowed by an earlier one without threshold leaves every outcome, push and counter of every event stream unchanged, if its patterns compile |
| RuleShadowing.ShadowedRuleNeverCounts | src/Server/worker/engine/ruleMatcher.js:126-201 | A shadowed rule raises no alert and its counters stay empty in every run |
| RuleShadowing.DeletionIsVisibleIff | src/Server/worker/engine/ruleMatcher.js:42-44 | Without the pattern proviso, wherever the shadowed rule stands: one event gets different outcomes from the two lists if and only if no rule in front fires or throws, a pattern of the shadowed rule throws, and the rules behind it do not throw as well |
| RuleShadowing.BadPatternHidesAlert | src/Server/worker/engine/ruleMatcher.js:42-44 | The proviso is needed: a list of three rules and an event where the shadowed rule's pattern does not compile and the alert of the rule behind it is lost |
| RuleMatcher.Matcher.CheckThreshold | src/Server/worker/engine/ruleMatcher.js:77-118 | checkThreshold in place: the counter of this rule and group takes the step Threshold.OneEventMeans describes, all other groups and rules keep theirs |
| RuleMatcher.Matcher.CountHit | src/Server/worker/engine/ruleMatcher.js:92-117 | The in-place update of one rule's cache is that step on one group |
| RuleMatcher.Matcher.MatchConditions | src/Server/worker/engine/ruleMatcher.js:138-147 | The loop over the conditions gives the verdict of the first that does not hold |
| RuleMatcher.Matcher.EvaluateData | src/Server/worker/engine/ruleMatcher.js:126-201 | The loop over the rules with early return, against Evaluate: outcome, counters and pushed alerts |
| RuleMatcher.ParsedEventsIgnoreTheClock | src/Server/worker/engine/parser.js:11-34 | A record without agent or type gets to no rule; any other is evaluated at its own time: for every rule list, outcome, counters and pushes are the same whenever the engine gets to it |
| RuleDetection.RuleRunsOnItsHits | src/Server/worker/engine/ruleMatcher.js:126-201 | In any rule list with distinct ids and on any stream, a threshold rule alerts on exactly those events that get past the rules in front of it and match it on which checkThreshold, run over these hits alone, says so; its counters are those of that run |
| RuleDetection.EngineDetectsBursts | src/Server/worker/engine/ruleMatcher.js:77-201 | Detection bound for evaluateData: after any stream, and with any other events in between, 2*count-2 consecutive hits of a group within one window of each other make the rule alert for that group (count at least 2) |
| RuleDetection.EngineConservesHits | src/Server/worker/engine/ruleMatcher.js:77-201 | For evaluateData on any stream: the hits of a group are count per alert, or discarded by expiry, or still counted, and the counter stays below count |
| RuleDetection.EngineAlertsAreSound | src/Server/worker/engine/ruleMatcher.js:77-201 | For evaluateData on any stream: each alert of a threshold rule is raised by count consecutive hits of its group, all at most window_seconds * 1000 ms after the first, none of them in another alert |
| RuleDetection.RecordsAreDetected | src/Server/worker/engine/parser.js:19-27 | From an agent's records: 2*count-2 of one group that match the rule and none in front of it, dated within the window, raise an alert naming the agent, the rule and the contents of one of them, however late they are evaluated |
| RuleDetection.GroupsCountApart | src/Server/worker/engine/ruleMatcher.js:82-89 | For agent ids of one length and group fields that are texts without a dash, events count together exactly if they have the same agent and the same group values |
| RuleDetection.DashesMixGroups | src/Server/worker/engine/ruleMatcher.js:85-89 | With dashes in the values, two events that differ in both group fields have one group key |
| RuleDetection.MissingIsUnknown | src/Server/worker/engine/ruleMatcher.js:86 | A group field that is missing, empty, zero, false or null counts as unknown |
| RuleDetection.BruteForceRuleFiresIff | demo_rule.json:196-231 | In any list with distinct ids, if the rules in front of 4002 other than 4001 fail on some event that 4002 matches: some stream makes 4002 alert if and only if 4001 is not in front of it |
| RuleDetection.OrderDecidesBruteForce | src/Server/master/socket_server/services/ruleLoader.js:5-33 | The loader's query fixes no order: with 4002 first the brute-force rule can fire, with 4001 first it cannot |
| KeySync.DrainedWorkerHasAllKeys | src/Server/master/socket_server/handlers/workerHandler.js:43-71 | In every orderly run, a live worker that is completely registered and has drained its channel holds the right key of every undeleted agent whose handshake was answered, at whatever moments handshakes, queries and deliveries fell |
| KeySync.OrderlyRunsAreCovered | src/Server/master/controllers/agentAuthController.js:76-84 | The invariant behind it: every such key is in the cache, on its way, or yet to be read for the snapshot |
| EndToEnd.CacheIsLastLearned | src/Server/worker/middleware/verifyAgentSession.js:8-12 | In every run of the worker, the cache holds for each agent the key learned last, and drops none |
| KeySync.CachedKeysAreGenuine | src/Server/worker/socket_client/handlers/handlerMasterSocket.js:34-43 | In every run, orderly or not, every key in a cache, a channel or a snapshot is the one created for its agent |
| KeySync.DeletedStaysOut | src/Server/master/controllers/dashController.js:219-233 | A deleted agent is gone for good: its row never comes back and it is in no snapshot that was not already read; the caches are not touched |
| KeySync.CloseKeepsRegisteredIff | src/Server/master/socket_server/handlers/workerHandler.js:179-184 | Handling a close keeps live connections registered if and only if no live connection of the same worker id exists |
| KeySync.LateCloseLosesKeys | src/Server/master/socket_server/handlers/workerHandler.js:179-184 | The proviso is needed: a run in which a late close unregisters the new connection and a later agent stays unknown to a connected, drained worker |
| KeyNodes.RunsAreWellRegistered | src/Server/master/socket_server/handlers/workerHandler.js:44-45 | In every run each registry entry is a connection of that worker |
| KeyNodes.Master.CreateAgent | src/Server/master/controllers/dashController.js:24-40 | A fresh id gets its key once |
| KeyNodes.Master.DeleteAgent | src/Server/master/controllers/dashController.js:219-233 | The row goes exactly if it exists and belongs to the caller; keys already sent stay sent |
| KeyNodes.Master.AnswerHandshake | src/Server/master/controllers/agentAuthController.js:76-84 | The loop over activeWorkers sends the key on every registered connection that is open and on no other |
| KeyNodes.Master.RegisterWorker | src/Server/master/socket_server/handlers/workerHandler.js:44-48 | The id is registered before the first query |
| KeyNodes.Master.OnClose | src/Server/master/socket_server/handlers/workerHandler.js:179-184 | The close handler deletes the id without comparing connections |
| KeyNodes.Master.BuildAgentKeys | src/Server/master/socket_server/handlers/workerHandler.js:61-70 | The snapshot loop: exactly one decrypted key for every row |
| KeyNodes.Worker.MergeKeys | src/Server/worker/socket_client/handlers/handlerMasterSocket.js:34-38 | The loop over a snapshot is a merge in which the snapshot wins and other agents keep their keys |
| KeyNodes.Worker.OnMessage | src/Server/worker/socket_client/handlers/handlerMasterSocket.js:27-43 | The message handler is Apply of the protocol model |
| BatchCodec.BatchRoundTrip | src/agents/agentCollector/main.go:421-456 | Unpacking what sendBatch packs gives the parsed records of exactly that batch, in order, whatever blanks surround the messages |
| BatchCodec.PackNeedsAesKey | src/agents/agentCollector/main.go:437-446 | sendBatch gets past its cipher exactly with a key of 16, 24 or 32 characters; the worker takes only 32 |
| BatchCodec.RecordsAreConserved | src/agents/agentCollector/main.go:244-261 | In every run of the batcher, the records unpacked from the flushed batches and those still waiting are the messages received, in order |
| BatchCodec.BatchesConserveMessages | src/agents/agentCollector/main.go:244-261 | Flushed batches and the pending one concatenate to the messages received; no batch is empty |
| BatchCodec.TicksMakeBatches | src/agents/agentCollector/main.go:250-259 | The batches are exactly the messages between one tick and the next, and a tick leaves nothing behind |
| BatchCodec.MessagesAreSendable | src/agents/agentCollector/main.go:221-241 | Nothing a collector's connection forwards contains a newline or is refused by the parser |
| BatchCodec.DecryptAgentPayload | src/Server/worker/engine/decodedRawData.js:18-66 | The slicing and the line loop, against Unpack, with null for short buffers, wrong keys, failed decryption and invalid lines |
| BatchCodec.UnpackSucceedsIff | src/Server/worker/engine/decodedRawData.js:20-65 | A payload is taken exactly if it has 28 bytes, the key is an AES-256 key, the tag fits, the rest decompresses and every line that is not blank is JSON |
| BatchCodec.LinesSentOn | src/agents/agentCollector/main.go:226-236 | A line is sent on exactly if it is accepted and not empty, as it is but without a carriage return at the end |
| BatchCodec.HandleConnection | src/agents/agentCollector/main.go:221-241 | The line reader forwards exactly the accepted lines, also a last one without a newline |
| BatchCodec.DataProcessor.OnMessage | src/agents/agentCollector/main.go:252-253 | A message is appended to the batch |
| BatchCodec.DataProcessor.OnTick | src/agents/agentCollector/main.go:254-258 | A tick flushes the batch if it is not empty |
| Lines.SplitJoined | src/Server/worker/engine/decodedRawData.js:51-60 | Newline-terminated non-blank lines, joined and split again, come back one by one, trimmed |
| Lines.TextsOfTrimmed | src/Server/worker/engine/decodedRawData.js:51-60 | Trimming the whole text first changes no line |
| Lines.TrimMeans | src/Server/worker/engine/decodedRawData.js:51-56 | Trimming takes all blanks away at both ends and nothing else; which ASCII characters are blanks |
| Inventory.PartialListsRefineFullOnes | src/agents/SoftwareCollector/main.go:57-140 | With distinct names per scan, after every iteration of every run, folding all lists ever sent gives each installed package its current version, over any mix of full, partial and skipped sends |
| Inventory.IterationIsUpToDateIff | src/agents/SoftwareCollector/main.go:77-99 | For any scan: one iteration brings the receiver up to date if and only if a full list is due or each package's last entry decides whether it is sent |
| Inventory.IterationSends | src/agents/SoftwareCollector/main.go:82-136 | What one iteration sends: the full list if the last is twelve hours old, else exactly the packages not remembered in their version, if any; what is sent is remembered |
| Inventory.DuplicateNameMisleads | src/agents/SoftwareCollector/main.go:77-85 | The assumption is needed: a package listed twice, old version last, leaves the receiver wrong |
| Inventory.SoftwareCollector.Compare | src/agents/SoftwareCollector/main.go:74-85 | The loop builds the version map and the list of new or updated packages |
| Inventory.SoftwareCollector.OnScan | src/agents/SoftwareCollector/main.go:73-136 | One iteration in place, against Iterate |
| AgentStatus.StatusIsTimely | src/Server/master/controllers/agentAuthController.js:69-122 | In every run: online means idle for at most ten minutes plus the time since the last sweep; offline means never active or idle for more than ten minutes |
| AgentStatus.RowsAreTheHistory | src/Server/master/socket_server/services/agentService.js:3-8 | The table holds exactly the agents created and not deleted, each with the time it last shook hands or was reported active |
| AgentStatus.SweepIsExact | src/Server/master/controllers/agentAuthController.js:102-109 | Right after a sweep, online if and only if active within ten minutes |
| AgentStatus.PunctualSweepsBoundIdleness | src/Server/master/controllers/agentAuthController.js:102-122 | With sweeps at most a minute apart, an online agent was active within eleven minutes |
| AgentStatus.AgentTable.SetActive | src/Server/master/socket_server/services/agentService.js:3-8 | The update touches the agent's row if there is one and no other |
| AgentStatus.AgentTable.SweepIdle | src/Server/master/controllers/agentAuthController.js:102-117 | The sweep sets exactly the expired rows offline and returns exactly their ids |
| FileMonitor.WalkEndsIff | src/agents/FileCollector/main.go:202-309 | On well-formed records, under any clock that does not stop for good, and whatever watches are added meanwhile: the walk reaches the end of the buffer if and only if it never meets a noise path on a watched, reported record |
| FileMonitor.WalkEndsIffNoNoise | src/agents/FileCollector/main.go:203-308 | This can be told from the buffer beforehand, also when directories are created meanwhile, if their descriptors are new to the buffer: it ends if and only if no record is such a noise record |
| FileMonitor.VisitsInOrder | src/agents/FileCollector/main.go:202-309 | At any moment, the records visited and those ahead are the records of the buffer, each once and in order |
| FileMonitor.RecordRoundTrip | src/agents/FileCollector/main.go:204-213 | Wherever a record lies in the buffer, it is read as it was written: descriptor, mask, and name without its padding |
| FileMonitor.ClassifyMeans | src/agents/FileCollector/main.go:222-234 | Which mask bits make an event and of which kind: creation before deletion before a change |
| FileMonitor.NoiseMeans | src/agents/FileCollector/main.go:119-125 | What is noise: a path that ends in .N or .tmp, or has cups, systemd or apt anywhere in it |
| FileMonitor.StuckForEver | src/agents/FileCollector/main.go:251-253 | At a noise record the walk stays for ever and sends nothing more, also when the record's directory is watched again under another name |
| FileMonitor.NoiseRecordStopsWalk | src/agents/FileCollector/main.go:251-253 | One 32-byte record of a write to /etc/x.tmp is a well-formed buffer the walk never leaves, whatever the clock does |
| FileMonitor.StepProgresses | src/agents/FileCollector/main.go:104-117 | Every other iteration passes the record exactly if it is not debounced; else the record waits for the same deadline, or its path has grown and fewer known paths can hold it up |
| FileMonitor.SteadyClockAdvances | src/agents/FileCollector/main.go:106-117 | A clock that never goes back and does not stop meets the hypothesis of the walk, with any number of iterations in one millisecond |
| FimBaseline.BaselineIsLastRead | src/agents/FileCollector/main.go:255-297 | In every run, for every path, the baseline holds exactly the metadata read when the path was last reported and could be read, whole; the start entry if it never was; nothing after a delete |
| FimBaseline.StepTellsRecord | src/agents/FileCollector/main.go:206-297 | Every pass, in any state: an event names the file of its record and its kind by the mask, and shows the metadata as they were read, which are stored whole; a delete takes the file out; what cannot be read changes nothing; a new directory is watched under its path |
| FimBaseline.BaselineIsEventSourced | src/agents/FileCollector/main.go:255-304 | In every run over any buffers, replaying the events sent gives the collector's baseline, and each event reports exactly the old hash, mode and owner that the replayed baseline held just before, where they changed |
| FimBaseline.ProcessTells | src/agents/FileCollector/main.go:255-297 | One processed record against the file: the event shows the metadata read, hash only if there is one, and they are stored whole; nothing is stored of a file that cannot be read |
| FimBaseline.EventsAreDebounced | src/agents/FileCollector/main.go:104-117 | In every run two events of one path are at least 500 ms apart, and a quiet record is reported if and only if no event of its path was sent in the last 500 ms |
| FimBaseline.Monitor.Walk | src/agents/FileCollector/main.go:202-309 | The loop terminates, by bytes left, paths that can still hold the record up, and iterations left until it is no longer debounced, when it meets no such noise record; it has then visited every record once and in order |
| FimBaseline.Monitor.Visited | src/agents/FileCollector/main.go:203-308 | One pass through the loop body, in place, against Step |
| FimBaseline.Monitor.Handle | src/agents/FileCollector/main.go:255-304 | The baseline update and the event for one record, in place, proved equal to the step FimBaseline.ProcessTells describes |

## Left out

- The dashboard: React UI, charts, browser sockets, queries and paging; it only displays and edits what the master stores.
- SQL text, mail, vulnerability lookups, logging, packaging, deployment scripts: plumbing.
- Real cryptography, tokens, gzip, regular expressions and JSON: parameters, with laws as hypotheses.
- The handshake's replay window and signature check: a step that is enabled when the check succeeded.
- UPDATE_LAST_ACTIVE messages from worker to master: `AgentStatus` lets activity reports come at any time.
- The limit of three attempts in sendBatch and its pauses: the model allows any number of retries, which
  includes every real run; a failed dial and an empty token change nothing and are not steps.
- Whether a written batch is sent again after a failure: the theorems speak of each connection's bytes, so
  a batch retried on a second connection may be handled twice.
- The HTTP receiver path, LogCollector and NetProCollector.
- `created_at` of alerts, which only stamps the time of evaluation.
- Threshold counts that are not whole numbers, group fields named like members of JavaScript's
  Object.prototype, and rules without a list of conditions.
- Bytes of UTF-8: lines are sequences of characters, file names one character per byte.
- Failing addWatch calls, the initial scan of directories, and the unix-socket writer behind the event
  channel; the walk starts from given watches and a given baseline.
- Malformed inotify buffers, which the kernel does not produce.
- parsePackages and failed package scans, which change no state.
- A failing sweep or status update, which is as if it had not happened.
- FileMonitor.WalkEndsIffNoNoise: does not cover a link created during the walk to a directory that
  records of the same buffer name and whose path then changes; FileMonitor.WalkEndsIff covers it with a
  condition on the run.
- TcpReceiver.Receiver.HandleRecords: states the loop without interruption; that other events may come
  between two records is in WorkerSessions, where each record is a step.
- FrameParser.SocketFrameParser.Process: states the loop without interruption; interleaved appends are in
  the run theorems.
