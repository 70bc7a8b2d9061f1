# Wazuh agent and API: a verified model

This project models the parts of Wazuh that keep state across threads, messages and
requests, and proves what they keep over whole runs. `dafny verify dfyconfig.toml` checks it.

| file | models |
|---|---|
| `Ring.dfy` | the index arithmetic of the ring macros |
| `EventBuffer.dfy`, `BufferRuns.dfy`, `AgentBuffer.dfy` | the anti-flooding event buffer: its steps, its runs, and the array program with resize |
| `Requests.dfy`, `RequestRuns.dfy`, `RequestManager.dfy` | the remote-request manager: table, pool and two threads |
| `Failover.dfy` | connecting to a manager: retries, enrollment, next server |
| `FileReceiver.dfy`, `ReceiverRuns.dfy` | the shared-file transfer driven by the manager's messages, with the unpacking of the merged configuration; its runs |
| `MessageTexts.dfy`, `MergedConfiguration.dfy` | the transfer's texts, as the manager sends and the agent reads them; a configuration from manager to agent |
| `RateLimit.dfy`, `IpBlocker.dfy` | the API's request limiter and login guard |
| `MergeFormat.dfy` | the merged archive of a WPK package and its unpacker |
| `RuleFilter.dfy`, `RuleUpload.dfy` | rule listing by removal, rule upload with rollback |
| `AgentIds.dfy`, `AgentNames.dfy` | agent ID allocation and formatting, name cleaning in place |
| `Paths.dfy` | relative paths and the places they lead to |
| `Text.dfy` | optional values, C strings, decimal numbers |

How it is built. Programs that change state are classes or array methods; each method is tied
to a function on values (a `View()` of the object), and the theorems are about those functions.
A concurrent protocol is a state machine with one step per mutex section, plus one per visible
action taken outside a mutex. A run is any schedule of steps; a step whose thread would block
leaves the state unchanged. Sockets, clocks, file operations, MD5 and message encryption are
parameters, so every theorem holds for all their outcomes.

Where code and documentation disagree, the model follows the code:

- `agentd.h` promises that a resize preserves the oldest messages. The configuration reload
  overwrites `agt->buflength` before it calls the resize, and the resize takes the queue length
  modulo that value. `ResizeInDocumentedOrder` proves the promise when the old capacity is
  still configured; `ResizeInCallerOrder` gives the exact states in which it holds in the
  caller's order, and `ResizeInCallerOrderCanFail` one in which it does not.
- `check_rate_limit` says it returns 0 when the counter is greater than the maximum; it returns
  the error code. A window restarted by a call lets one request more than the maximum pass
  (`RestartedWindow`).
- `get_rules` reports requested IDs without a rule. An existing ID requested more often than
  rules have it is reported too (`MissingReportIsRightIff`).
- `upload_rule_file` rolls back failed uploads, except: a new file uploaded with overwriting on
  stays after a failure; a new file stays when the log test ends in an exception that is not a
  `WazuhError`, such as a missing socket; an overwritten file is not restored when the restoring
  move itself fails (`RollsBackIff`, `EscapingLogTestKeepsTheFile`,
  `OverwriteOfNothingKeepsTheFile`).
- `UnmergeFiles` reports a name with a ".." component as refused, but creates its file, empty,
  wherever the path leads. So an archive does not come apart into what was packed
  (`UnmergeUndoesMergeIff`, `ParentNameIsEmptied`), and a received configuration can empty files
  outside the shared directory (`OnlySharedFilesChangeIff`, `ArchiveCanClimb`) and inside it
  (`ArchiveCanComeBack`).
- The clean-up after unpacking keeps the entries named like the unpacked files without their
  directories. A file packed in a subdirectory is therefore unpacked, reported as success and
  deleted, unless some record has the subdirectory's name as its base name
  (`MergedConfigurationArrives`, `SubdirectoryIsLost`).
- A response is headed by the request's counter only up to 55 characters: the heading is printed
  into 64 bytes, but as many bytes are copied from there as the whole heading has
  (`ResponseIsMessageIff`).

## Model

| member | source | states |
|---|---|---|
| Ring.MacroForms | src/client-agent/agentd.h:21-27 | the remainders in the ring macros are the successor index, the occupancy and the window offset |
| Ring.ReportedLengthIsEuclidean | src/client-agent/buffer.c:305-308 | truncating remainder plus fix-up is the true residue of i - j, for all indices and capacities |
| EventBuffer.Payload | src/client-agent/buffer.c:148-157 | a negative length stores through the first terminator, any other length exactly that many bytes |
| EventBuffer.StepKeepsWellFormed | src/client-agent/buffer.c:100-275 | every step of producers and dispatcher keeps messages exactly in the live window, the one in flight in the gap slot, and each block allocated once and owned by one slot |
| BufferRuns.FirstInFirstOut | src/client-agent/buffer.c:100-275 | in every interleaving: messages accepted = messages handed to send_msg, then the one in flight, then the ring, in order |
| BufferRuns.RefusedExactlyWhenFull | src/client-agent/buffer.c:141-165 | an append is refused exactly when buflength messages wait, a refusal changes no message, and the reported length is the queue length |
| BufferRuns.LateClearingIsSafe | src/client-agent/buffer.c:230-275 | the slot nulled after the mutex is released is the gap slot in every interleaving; no waiting message is erased, no block freed twice; with nothing in flight only waiting messages occupy slots |
| BufferRuns.AlarmSoundness | src/client-agent/buffer.c:105-228 | in every reachable state the alarm level follows the occupancy within one message of its thresholds, in both directions |
| BufferRuns.Conservation | src/client-agent/buffer.c:141-232 | between any two points of a run the occupancy changes by accepted minus taken |
| BufferRuns.Hysteresis | src/client-agent/buffer.c:105-228 | between two warning flags a normal flag is raised; before it (warn_level - normal_level) percent of the capacity is dispatched, after it as much is accepted |
| BufferRuns.ReturnIsPossibleIff | src/client-agent/buffer.c:197-232 | from every reachable state above NORMAL some continuation returns to NORMAL if and only if normal_level percent of the capacity is at least one message |
| BufferRuns.DrainsToNormal | src/client-agent/buffer.c:197-275 | in that case the dispatcher's own steps are enough |
| BufferRuns.FloodNeedsTolerance | src/client-agent/buffer.c:126-132 | FLOOD is entered only from an unbroken FULL period that began at an append finding the ring exactly full, at least tolerance seconds earlier |
| BufferRuns.FlagsIff | src/client-agent/buffer.c:105-228 | each flag is raised, in every run, exactly when its event happens: a full ring found below FULL, the warning level found at NORMAL, the tolerance passed in FULL, the normal level found by a take above NORMAL |
| BufferRuns.LevelFollowsFlag | src/client-agent/buffer.c:105-228 | the level after a step is that of the flag raised; without one it stays, except that a take at or below the warning level ends FULL and FLOOD |
| BufferRuns.FullRingIsReported | src/client-agent/buffer.c:105-124 | after an append that finds the ring full the level is FULL or FLOOD, and FULL is reported, with that append's time, exactly when the level was lower |
| BufferRuns.FloodFollowsTolerance | src/client-agent/buffer.c:126-132 | if the ring, once reported full, is never taken from at or below the warning level, an append tolerance seconds later leaves the level at FLOOD |
| AgentBuffer.AgentBuffer.constructor | src/client-agent/buffer.c:79-97 | a new buffer is empty, well formed and of the configured capacity |
| AgentBuffer.AgentBuffer.Append | src/client-agent/buffer.c:100-165 | the array program performs the append step, with its return code and raised flag |
| AgentBuffer.AgentBuffer.TakeOldest | src/client-agent/buffer.c:196-233 | the dispatcher's mutex section performs the take step |
| AgentBuffer.AgentBuffer.SendTaken | src/client-agent/buffer.c:270-271 | the message handed to send_msg is the one taken, whatever happened to the ring since |
| AgentBuffer.AgentBuffer.FreeTaken | src/client-agent/buffer.c:272 | the taken block leaves the heap; a second free would be recorded |
| AgentBuffer.AgentBuffer.NullTaken | src/client-agent/buffer.c:273-274 | the taken slot becomes null, nothing else changes |
| AgentBuffer.AgentBuffer.Length | src/client-agent/buffer.c:299-312 | the report is the C remainder with its fix-up, or -1 when the buffer is off |
| AgentBuffer.AgentBuffer.FreeSlots | src/client-agent/buffer.c:415-420 | every block still in a slot is freed, none twice, no other block is touched |
| AgentBuffer.AgentBuffer.CopyForGrowth | src/client-agent/buffer.c:375-387 | contiguous, wrapped and empty rings are all copied into the queue in order, followed by null slots |
| AgentBuffer.AgentBuffer.MoveForShrink | src/client-agent/buffer.c:400-409 | exactly the oldest messages move, their old slots become null |
| AgentBuffer.AgentBuffer.Resize | src/client-agent/buffer.c:342-436 | all return codes, and the new ring, indices and heap as a function of the old state and the reported length |
| AgentBuffer.AgentBuffer.FreeAll | src/client-agent/buffer.c:314-340 | with nothing in flight every allocated block is freed, once |
| AgentBuffer.ResizeCodes | src/client-agent/buffer.c:342-436 | a resize is refused exactly for capacity 0, or for another capacity with the buffer off, and then nothing changes; otherwise it returns 0 and the ring has the new size |
| AgentBuffer.ResizeInDocumentedOrder | src/client-agent/agentd.h:77-89 | with the old capacity configured every resize keeps the oldest min(n, desired) messages in order, frees exactly the others, once, and leaves a well-formed ring |
| AgentBuffer.ResizedKeepsOldestIff | src/client-agent/buffer.c:369-431 | a resize that goes through keeps the oldest if and only if the reported length is right up to the new capacity |
| AgentBuffer.ResizeInCallerOrder | src/client-agent/agentd.c:191-216 | with the new capacity already configured the resize keeps the oldest if and only if a condition on indices and capacities holds; for j <= i that is n <= desired or n + 1 a multiple of desired + 1 |
| AgentBuffer.ResizeInCallerOrderCanFail | src/client-agent/agentd.c:191-216 | growing a wrapped ring from 2 to 3 in the caller's order makes one message into two |
| Requests.ParseRequest | src/client-agent/request.c:118-146 | counter, target and payload are read back from a rendered request, whatever the payload holds |
| Requests.ParseAck | src/client-agent/request.c:128-132 | "counter ack" acknowledges that counter |
| Requests.ParseMalformed | src/client-agent/request.c:120-144 | one word has no target, two words other than an ACK no payload |
| Requests.ParseCovers | src/client-agent/request.c:118-146 | every message has one of these four forms, read back exactly |
| Requests.MessageIsReadBack | src/client-agent/request.c:311-319 | a message starts with the request header; its first word is the counter, the rest the reply, or an error for an empty one |
| Requests.ErrorMessageIs | src/client-agent/request.c:165-206 | an error reply is that message cut at 63 characters |
| Requests.StepKeepsInv | src/client-agent/request.c:128-342 | every step of either thread keeps the ownership of nodes and the table exact |
| RequestRuns.TableAndPoolOwnership | src/client-agent/request.c:128-342 | in every interleaving the table lists exactly the nodes inserted and not yet deleted, under their own counters; only owned nodes are allocated; nothing is touched after its free; an ACK waiting for a node holds a live one |
| RequestRuns.AnsweredInOrder | src/client-agent/request.c:180-342 | answers are a prefix of admissions, entry by entry with the same counter; what is missing is the request being served, then the pool |
| Requests.ResponseIsMessageIff | src/client-agent/request.c:317-324 | the rebuilt response is the counter's heading and the reply, whatever memory follows the heading's buffer, if and only if the counter has at most 55 characters |
| RequestRuns.OneResponsePerAnswer | src/client-agent/request.c:317-331 | an answer is one message made from the counter of the oldest unanswered admission, and headed by it if and only if it has at most 55 characters; no other step answers |
| RequestRuns.AdmittedOnce | src/client-agent/request.c:174-216 | every node is admitted at most once, in order of creation |
| RequestRuns.NeverTwiceWhileOutstanding | src/client-agent/request.c:176-191 | of two admissions with the same counter the first was answered and removed from the table before |
| RequestRuns.PoolBound | src/client-agent/request.c:194-213 | the pool holds at most request_pool - 1 nodes and an offer is rejected exactly then |
| RequestRuns.StepsDecreaseWork | src/client-agent/request.c:174-343 | without new messages every step of either thread lowers a measure |
| RequestRuns.NoDeadlock | src/client-agent/request.c:128-137 | the threads never block each other: one can step unless both are idle |
| RequestRuns.SettlesWithinWork | src/client-agent/request.c:128-343 | without new messages, any schedule of enabled steps from a reachable state is at most Work(s) steps long and can go on, within that bound, to a state where only a new message can be taken in |
| RequestRuns.Quiescence | src/client-agent/request.c:174-343 | in such a state everything admitted is answered, the table is empty and no node is left allocated |
| RequestRuns.NodesAreAsTheyCame | src/client-agent/request.c:128-216 | in every interleaving an allocated node is the one that came, but for a payload an ACK wrote over |
| RequestRuns.PayloadServedIff | src/client-agent/request.c:131-132 | the text of the payload being answered is the one that came with the request if and only if no ACK was applied to its node, or the text was that of an ACK anyway |
| RequestRuns.AckReachesItsNode | src/client-agent/request.c:128-137 | in every run "c ack" makes the pusher wait for the outstanding request with counter c, and does nothing when there is none |
| RequestRuns.RequestBecomesNode | src/client-agent/request.c:138-175 | in every run a request text becomes a new node with its parts; if its target refuses the connection an error goes back under its counter and nothing changes |
| RequestRuns.DroppedNodeIsAnswered | src/client-agent/request.c:180-208 | in every run a node let go without admission was a duplicate, failed to be inserted or found the pool full; exactly in the last two cases one error, naming the cause, is sent under its counter |
| RequestRuns.ServedNodeIsStable | src/client-agent/request.c:248-333 | while a request is being served its node does not change |
| RequestManager.RequestManager.constructor | src/client-agent/request.c:52-68 | an empty table and pool satisfy the invariant |
| RequestManager.RequestManager.Push | src/client-agent/request.c:109-175 | the pusher's first section: malformed messages, ACK lookup, refused targets with their reply, node creation |
| RequestManager.RequestManager.AddToTable | src/client-agent/request.c:176-191 | insertion, duplicate counter or allocation failure |
| RequestManager.RequestManager.OfferToPool | src/client-agent/request.c:193-215 | the pool array takes the node or the node is rejected |
| RequestManager.RequestManager.UnregisterRejected | src/client-agent/request.c:200-203 | a rejected node leaves the table |
| RequestManager.RequestManager.DropNode | src/client-agent/request.c:180-208 | the error reply, if any, then the free |
| RequestManager.RequestManager.UpdateAcked | src/client-agent/request.c:131-137 | the ACK replaces the text of a live node's buffer and releases the table |
| RequestManager.RequestManager.TakeFromPool | src/client-agent/request.c:238-246 | the receiver's pool section |
| RequestManager.RequestManager.Answer | src/client-agent/request.c:248-333 | lock and response of the taken node; the message sent is built in the reply's buffer, an empty reply replaced by an error |
| RequestManager.RequestManager.Retire | src/client-agent/request.c:335-342 | table deletion, then the free |
| RequestManager.BuildResponse | src/client-agent/request.c:317-324 | the rebuilt buffer is the copied heading, the reply, the terminator |
| Failover.Agent.ConnectServer | src/client-agent/start_agent.c:48-117 | the current server changes exactly when the connection succeeds; the old connection is closed either way |
| Failover.Agent.Handshake | src/client-agent/start_agent.c:301-365 | one attempt is made; on an ACK the agent is connected to that server |
| Failover.Agent.StartAgent | src/client-agent/start_agent.c:120-172 | by any number of visits it has returned, connected to the server of the first ACK of the plan, exactly when the world gives one, and otherwise every planned handshake failed; the log goes in turns (`InTurn`): visit v to the server v places after rip_id, in a circle, with max_retries handshakes, at least one, and one more exactly when enrollment is on and succeeds |
| Failover.Agent.Visit | src/client-agent/start_agent.c:132-156 | one visit ends at its first ACK or makes all its handshakes |
| Failover.BoundedFailover | src/client-agent/start_agent.c:131-171 | if some server always acknowledges, the run ends within the sum over all servers of max_retries, at least one each, plus one |
| Failover.RoundIsRotationInvariant | src/client-agent/start_agent.c:163-170 | a full round costs the same from every starting server |
| FileReceiver.Receiver.Rename | src/client-agent/receiver.c:195-205 | the loop leaves the first line with every slash and a leading dot replaced |
| FileReceiver.Receiver.HandleUpdate | src/client-agent/receiver.c:169-215 | sum, name and open file of an update, or no change when it is malformed or climbs to a parent |
| FileReceiver.Receiver.WriteFiles | src/shared/file_op.c:852-857 | the unpacked files are in place, at the places their paths lead to, later ones over earlier ones |
| FileReceiver.Receiver.CleanShared | src/shared/file_op.c:2310-2341 | exactly the files at or below entries that are not kept are removed, except those whose removal fails |
| FileReceiver.Receiver.HandleClose | src/client-agent/receiver.c:217-275 | the file is kept or removed, the name cleared, a merged configuration unpacked and the directory cleaned if all went well; the failure notice is sent exactly when unpacking was tried and failed |
| FileReceiver.Receiver.ReceiveMessage | src/client-agent/receiver.c:92-291 | the dispatch over all message kinds; the failure notice is sent exactly when a close unpacks and the unpacking fails |
| FileReceiver.UpdateIsConfined | src/client-agent/receiver.c:181-209 | every accepted update names a file directly inside the shared directory |
| MessageTexts.ControlTextsPass | src/client-agent/receiver.c:98-160 | the control messages for other parts of the agent leave the transfer alone, whatever follows their word |
| MessageTexts.OnlyThesePass | src/client-agent/receiver.c:98-160 | no other control message does |
| MessageTexts.OtherControlCloses | src/client-agent/receiver.c:162-166 | every other control message ends the transfer of the open file |
| MessageTexts.NameIs | src/client-agent/receiver.c:195-205 | the name of an update, character by character: its first line, with '-' for a slash and for a leading dot |
| MessageTexts.UpdateIsRead | src/client-agent/receiver.c:169-209 | how any update text is read: refused for a ".." component, otherwise the sum cut at 33 and the path at 1023 characters |
| MessageTexts.PlainUpdateIsRead | src/remoted/manager.c:1660-1661 | the update the manager sends for a plain name announces exactly that file in the shared directory |
| MessageTexts.CloseIsRead | src/client-agent/receiver.c:217-218 | the close text is read as a close, whatever follows |
| MessageTexts.SendFile | src/remoted/manager.c:1659-1710 | the messages the manager sends for a file: update, blocks of 900 bytes as C strings, close |
| MessageTexts.FileIsReadAsSentIff | src/remoted/manager.c:1679-1700 | the agent reads the file as it was sent if and only if none of its 900-byte blocks begins like a control message or holds a terminator |
| Paths.ParentIsAComponent | src/shared/file_op.c:2622-2661 | the scan for parents finds exactly the ".." components |
| Paths.EndsBelowIff | src/shared/file_op.c:776-853 | a name leads properly below a directory if and only if the walk over its components ends below it, or comes back into it by the directory's own names |
| Paths.NoParentEndsBelow | src/shared/file_op.c:776-853 | a name without ".." that is not spelled as a directory leads below the directory, through its names |
| ReceiverRuns.OnlySharedFilesChangeIff | src/client-agent/receiver.c:92-291 | over every run of messages, every file created, written or removed is properly below the shared directory, wherever the paths lead, if and only if each record that gets as far as its rename ends below it, a test walked over the record's own name; nothing else changes, and the open file is the pending one |
| ReceiverRuns.OutsideIsKeptOrEmptied | src/shared/file_op.c:776-853 | over every run, a file outside the shared directory is as it was or empty |
| ReceiverRuns.SuccessStaysInside | src/shared/file_op.c:776-881 | an unpacking that reports success has stayed inside |
| ReceiverRuns.ArchiveCanClimb | src/shared/file_op.c:776-853 | an archive with the record "../b" empties the file b next to the shared directory, for every entry name b |
| ReceiverRuns.ArchiveCanComeBack | src/shared/file_op.c:776-853 | an archive with the record "a/../b" stays inside and empties the file b there |
| ReceiverRuns.FileIsTheConcatenation | src/client-agent/receiver.c:162-166 | between update and close the file grows by exactly the data received before the first control message that closes it, in order |
| ReceiverRuns.WholeTransfer | src/client-agent/receiver.c:169-290 | after update, data mixed with control messages, and close: the data in order, kept, and unpacked if it is the merged configuration, exactly when readable with the announced MD5; nothing open or pending |
| ReceiverRuns.UnopenedTransfer | src/client-agent/receiver.c:207-275 | when the open fails the data is lost, and the close judges the file that was there before by the new sum |
| MergedConfiguration.MergedConfigurationArrives | src/client-agent/receiver.c:169-290 | end to end on message texts, for every archive without ".." whose names and paths fit, in any number of messages with no failing operation: the exact files afterwards; all packed files are there if and only if the first component of each is merged.mg or the base name of some record; those there have their contents |
| MergedConfiguration.ManagerToAgent | src/remoted/manager.c:1659-1710 | the same from the manager's side: what it sends for such an archive, if every block is read as sent, leaves the agent with exactly those files |
| MergedConfiguration.UnreadableArchive | src/shared/file_op.c:738-742 | an archive that cannot be opened again changes nothing |
| MergedConfiguration.InterruptedUnpacking | src/shared/file_op.c:852-857 | a rename that fails leaves exactly the records before it in place, reports failure and removes nothing |
| MergedConfiguration.CleanedIff | src/shared/file_op.c:2310-2341 | the clean-up removes exactly the files at or below entries that are not kept, except those whose own removal failed |
| MergedConfiguration.FlatNamesAreKept | src/client-agent/receiver.c:241-254 | a file without a directory in its name is always kept |
| MergedConfiguration.SubdirectoryIsLost | src/shared/file_op.c:859-874 | an archive with the record "sub/a" is unpacked with success and its file deleted |
| FileReceiver.CloseSettles | src/client-agent/receiver.c:217-275 | after every close, from any state, no file is open and no name pending |
| RateLimit.Limiter.Check | api/api/middlewares.py:169-181 | the two globals and the returned code, with one clock reading per use |
| RateLimit.SlidingWindowBound | api/api/middlewares.py:169-181 | over every run, at most 2 * max + 1 calls are allowed in any closed 60-second interval, none for a negative max |
| RateLimit.BoundIsTight | api/api/middlewares.py:169-181 | for every max some run reaches that bound within one second |
| RateLimit.AllowedInOneWindow | api/api/middlewares.py:172-181 | the exact number of calls allowed inside one window |
| RateLimit.FirstWindow | api/api/middlewares.py:169-181 | of the calls within 60 seconds of the first one ever, the first max are allowed |
| RateLimit.RestartedWindow | api/api/middlewares.py:174-181 | a restarted window lets max + 1 calls pass exactly when max calls follow the restart |
| IpBlocker.LoginGuard.CheckBlocked | api/api/middlewares.py:127-141 | expiry and test of one address |
| IpBlocker.LoginGuard.PreventBruteforce | api/api/error_handler.py:29-39 | counting and blocking of one address |
| IpBlocker.LoginGuard.Handle | api/api/middlewares.py:212-217 | a request is checked only on the login endpoints, and a failure is counted only when it was not denied |
| IpBlocker.StepKeepsInv | api/api/error_handler.py:29-39 | blocked addresses are tracked, and blocked exactly when their count has reached the limit |
| IpBlocker.BruteforceBound | api/api/error_handler.py:100-107 | over every run an address gets at most 2 * max(1, max_login_attempts) - 1 evaluated failures in any half-open interval of block_time seconds |
| IpBlocker.BoundIsTight | api/api/error_handler.py:29-39 | for every limit and block time some run reaches that bound |
| IpBlocker.DeniedExactlyInBlockTime | api/api/middlewares.py:130-141 | a login is denied exactly while its address is blocked and the window's first failure is less than block_time old |
| IpBlocker.BlockedUntilBlockTime | api/api/middlewares.py:130-141 | a blocked address stays blocked through any traffic until its first login at or after block_time, which is let through |
| IpBlocker.LoginsAre | api/api/middlewares.py:214-215 | the four path and verb pairs that are logins |
| IpBlocker.HarmlessTraffic | api/api/error_handler.py:29-39 | over every run, requests that are no logins, logins of other addresses and successful logins within the window change nothing recorded of an address, and an unblocked one is not denied |
| IpBlocker.FailuresAreCounted | api/api/error_handler.py:29-39 | n failed logins in one window are recorded as min(n, limit) attempts from the first one's time; the first limit are evaluated, the others denied; the address is blocked exactly from the limit on |
| MergeFormat.Archive.constructor | packages/wpk/wpkpack.py:29-32 | the archive starts with its tag line, or empty |
| MergeFormat.Archive.AppendTree | packages/wpk/wpkpack.py:40-52 | a tree appends the records of its leaf files, depth first under their full paths, and raises exactly when some path is neither file nor directory |
| MergeFormat.Archive.AppendAll | packages/wpk/wpkpack.py:35-38 | a list of sources appends their records in order |
| MergeFormat.LeavesIff | packages/wpk/wpkpack.py:40-52 | a name and a content are packed if and only if following the components of the name through the tree leads to a file with that content |
| MergeFormat.PlainIff | packages/wpk/wpkpack.py:46-52 | packing raises exactly when some path of the tree is neither file nor directory |
| MergeFormat.AllLeavesConcat | packages/wpk/wpkpack.py:46-49 | directories are packed in listing order |
| MergeFormat.ReadContent | src/shared/file_op.c:820-846 | the block-wise loop reads exactly the announced size, or what is left of the archive |
| MergeFormat.AnnouncedSize | src/shared/file_op.c:758-846 | whatever size a header announces, as much is read, at most all that is left; a negative size takes all |
| MergeFormat.BrokenLineFails | src/shared/file_op.c:766-770 | a '!' line without a space is passed over and failure is reported |
| MergeFormat.UnmergeFiles | src/shared/file_op.c:722-882 | the files written and the success returned for every archive, up to a failed rename; a rename to a path spelled as a directory fails |
| MergeFormat.UnmergeUndoesMergeIff | src/shared/file_op.c:722-882 | unpacking writes the packer's files under their names with their contents if and only if every name is a single line, not spelled as a directory, whose path fits 2047 characters and has no ".." component unless the file is empty, and every header fits the line buffer, or is one character too long for a content of newlines only |
| MergeFormat.UnmergeReportsIff | src/shared/file_op.c:776-818 | packed records that are read back are all written, and success is reported if and only if no path has a ".." component |
| MergeFormat.ParentNameIsEmptied | src/shared/file_op.c:776-853 | "../dir/f" with content "x" becomes an empty file outside the directory |
| MergeFormat.UniquelyDecodable | packages/wpk/wpkpack.py:29-52 | archives with single-line names and tags are equal only if tags and record lists are |
| MergeFormat.TreesWithEqualArchives | packages/wpk/wpkpack.py:35-52 | source trees with equal archives have the same tag and leaf files |
| RuleFilter.IsRejected | framework/wazuh/rule.py:123-132 | the parameter loop rejects a rule exactly when some filter does |
| RuleFilter.GetRules | framework/wazuh/rule.py:115-135 | removing the first equal element for each rejected rule ends in the stable filter with duplicates kept, never fails, and reports the requested IDs minus the loaded ones |
| RuleFilter.FilteredPass | framework/wazuh/rule.py:120-132 | a rule is listed exactly when it was loaded and passes every filter |
| RuleFilter.ListedIff | framework/wazuh/rule.py:123-132 | a rule is listed exactly when it was loaded and meets every parameter, each spelled out: list membership, part of the directory, file names, IDs, statuses, one level or a range |
| RuleFilter.MissingReportIsRightIff | framework/wazuh/rule.py:119-135 | exactly the requested IDs without a rule are reported, if and only if no existing ID is requested more often than rules have it |
| RuleFilter.DuplicateRequestIsReported | framework/wazuh/rule.py:119-122 | requesting an existing ID twice reports it |
| RuleUpload.RuleStore.DeleteFile | framework/wazuh/rule.py:535-555 | a file is removed or the failure reported, never raised |
| RuleUpload.RuleStore.TryUpload | framework/wazuh/rule.py:468-508 | the try block up to the state the finally clause finds |
| RuleUpload.RuleStore.UploadFile | framework/wazuh/rule.py:468-512 | result and files of one call, with any combination of failing steps, including escaping log-test errors and a failing restoring move |
| RuleUpload.UploadContract | framework/wazuh/rule.py:468-512 | no outcome touches a file other than the target and its backup; success installs the content and nothing else |
| RuleUpload.ResultIff | framework/wazuh/rule.py:468-512 | exactly when an upload succeeds, fails with a reported error, or ends in an exception |
| RuleUpload.BackupLeftIff | framework/wazuh/rule.py:484-512 | a backup stays behind exactly when one was made, the call did not succeed, and the restoring move failed |
| RuleUpload.RollsBackIff | framework/wazuh/rule.py:481-512 | for each choice of what may be relied on, every remaining fault is rolled back if and only if the content is empty, or the target exists and is not overwritten or can be restored, or it is new, not to be overwritten, deletions work and failing log tests are reported |
| RuleUpload.EscapingLogTestKeepsTheFile | framework/wazuh/rule.py:497-507 | a new file stays when the log test's socket is down |
| RuleUpload.OverwriteOfNothingKeepsTheFile | framework/wazuh/rule.py:497-507 | a new file uploaded with overwriting on stays after a reported failure |
| RuleUpload.RunsLeaveNoBackup | framework/wazuh/rule.py:484-512 | while restoring moves work, every run of uploads leaves no backup file, whatever else fails |
| RuleUpload.RunIsItsCommits | framework/wazuh/rule.py:468-512 | a run of uploads, each of whose faults is one that is rolled back, has the effect of its successful uploads alone |
| AgentIds.IsValidId | src/addagent/validate.c:68-92 | valid exactly when present, at most eight characters, all digits |
| AgentIds.NumberOfValidId | src/addagent/validate.c:49-53 | strtol consumes a valid ID entirely, and its value, clamped to a long and narrowed to an int, is the ID's |
| AgentIds.FormatId | src/addagent/validate.c:470-480 | the buffer is rewritten to the formatted ID, or left alone when it is empty or not a number |
| AgentIds.FormattedIds | src/addagent/validate.c:470-480 | formatting keeps the number, is idempotent, and identifies two valid IDs exactly when they are numerically equal |
| AgentIds.Format3Shape | src/addagent/validate.c:470-480 | numbers below 1000 take three characters, larger ones have no leading zero, negative ones a sign and at least two digits |
| AgentIds.FormattedText | src/addagent/validate.c:470-480 | any text strtol can read is replaced by its number, clamped to a long and narrowed to an int, exactly when nothing follows the digits |
| AgentIds.StoredIds | src/addagent/validate.c:44-54 | over every run a given ID is stored as it came and raises the counter to its number if that is larger; otherwise the next number is stored |
| AgentIds.Keystore.AddNewAgent | src/addagent/validate.c:35-65 | the counter and the stored ID for given and automatic IDs |
| AgentIds.AutomaticIdsAreNew | src/addagent/validate.c:44-54 | over every run an automatic ID differs as number and string from every ID before it |
| AgentIds.CounterBound | src/addagent/validate.c:44-54 | valid IDs cannot drive the counter past the 32-bit range in fewer than 2^31 - 10^8 additions |
| AgentNames.ListAndTestAgree | src/addagent/validate.c:218-219 | the character list used for cleaning and the test used for validation agree on every character |
| AgentNames.IsValidName | src/addagent/validate.c:207-225 | valid exactly with 2 to 128 characters, all allowed |
| AgentNames.ConvertToValidAgentName | src/addagent/validate.c:227-235 | the loop terminates and leaves exactly the allowed characters in order, terminated |
| AgentNames.CleanedNames | src/addagent/validate.c:207-235 | cleaning is idempotent, keeps valid names, and yields a valid name exactly when 2 to 128 characters are kept |

## Left out

- AgentBuffer.AgentBuffer.Append: single-precision rounding of the thresholds; the comparison is exact, by cross-multiplication.
- AgentBuffer.AgentBuffer.Resize: modelled with no message in flight and with the configured capacity equal to the old or the new one; a reload that races with the dispatcher has no invariant, because the capacity changes without the mutex.
- AgentBuffer.AgentBuffer.TakeOldest: the stop signal of the dispatcher thread and its send rate.
- MergeFormat.UnmergeUndoesMergeIff: tags with a '!' where the 2047-character line buffer cuts them, which are read as headers, and sizes of more than 2045 digits.
- MergeFormat.UnmergeFiles: a temporary file that is created but cannot be opened or written; announced sizes are not clamped to a long.
- MessageTexts.SendFile: a connection that fails while the file is being sent, and the delays between messages.
- FileReceiver.Receiver.HandleClose: the reload after a new configuration. Only files are held, so directories that a path creates on its way are not; symbolic links do not exist.
- RequestRuns.PayloadServedIff: the length that an applied ACK also overwrites, as in UpdateAcked.
- RequestManager.RequestManager.UpdateAcked: the bytes after the text "ack": the source copies as many bytes as the whole message has, and keeps that length.
- RateLimit.Limiter.Check: the choice between the general and the event limiter, where the second result replaces the first.
- RuleFilter.GetRules: levels are given as integers; text that is not a number is not modelled.
- RuleUpload.RuleStore.UploadFile: partial effects of a failing copy, write or move; each works or changes nothing.
- AgentIds.Keystore.AddNewAgent: key generation, and overflow of the counter, which takes more additions than `CounterBound` states.
- Waking of waiting threads: a step is enabled when its condition holds, so lost wake-ups are not modelled.
- The pending alarm flags between their raising and the dispatcher's report, which are read and cleared without the mutex.
- Access control, search, sorting and paging of rule listings, and the XML and log-test validators, which are outcomes here.
- Windows builds replace the sockets and threads modelled here with other system calls; key initialisation, notifications and logging do not change the modelled state.
- The rest of the repository (engine, cluster, FIM, inventory, active responses, configuration readers, packaging) shares no state with these parts.
