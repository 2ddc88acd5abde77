# Test Environment: verified models

Dafny models of the parts of the Test Environment which keep real state or do
real arithmetic, with proofs of what their callers rely on. `dafny verify
dfyconfig.toml` checks everything.

| file | what it models |
|---|---|
| `TailQueue.dfy`, `SinglyTailQueue.dfy`, `CircularQueue.dfy` | the intrusive queues of `include/te_queue.h`. An entry knows the *address* of the pointer which leads to it; such addresses are values `HeadFirst(h)` and `NextOf(e)`. `TAILQ_LAST` and `TAILQ_PREV`, which read an entry as if it were a head, read the word behind a cell (`WordAfter`). Each queue has a ghost sequence `elems`; its `Valid()` is the cell invariant, and every macro is proved to be an operation on that sequence. |
| `TestResult.dfy` | test results, a client of the queues: freeing and duplicating them while requests for memory may fail |
| `FrameDelay.dfy`, `FrameDelayRuns.dfy`, `FrameDelayProgram.dfy` | the BPF program which delays a frame. The first file is the state machine (frames to wait, held frame) around one arriving frame; the second one proves what whole runs do; the third one is the program itself with its maps and chunks, re-entered by its own clone, and is proved to be that state machine. |
| `StagedPort.dfy`, `ArlTable.dfy`, `VlanPorts.dfy` | configuration of a switch: the staged STP port entry and the cache per request group, the printer and the parser of ARL entries with their buffer, VLAN ports counted in 8 bits |
| `PointerIds.dfy`, `RpcCalls.dfy` | the table which gives out identifiers for pointers, and asynchronous RPC calls over such a table as interleaved steps of the server, of the threads it starts, and of the rest of the server |
| `Overlapped.dfy`, `OverlappedCalls.dfy` | buffers of overlapped operations. Every block of memory has one owner: an object, a reply, or nobody any more (`Lost`). The objects whose operations are in progress and the blocks a call frees are kept track of. |
| `ThreadPool.dfy` | the thread pool of the agents as interleaved steps of starters and threads; a call is known by its starter, and a thread reads the routine and the parameters of a slot in two steps |
| `Checksum.dfy`, `RandRange.dfy` | the Internet checksum (RFC 1071, sections 1 and 2) and random numbers from a range |
| `Routes.dfy` | naming, listing, parsing and finding routes |
| `Text.dfy`, `Sequences.dfy`, `Wrappers.dfy` | what the others share: numbers as text, lists separated by spaces, truncation by `snprintf()`, sequence operations |

System calls, kernel helpers, the switch and Winsock are parameters: a step is
told how they answer. Where the code promises more than it does, the model
keeps the code, and a lemma says exactly when the promise holds:

* A held frame costs another one its place exactly when it is released while
  the current frame cannot be cloned, or is longer and cannot be cut
  (`FrameDelayRuns.ConservedIffHarmless`).
* The VLAN handlers accept port 0. A VLAN may then have 256 ports, and deleting
  a port never ends, as the 8-bit counter never reaches the number of ports
  (`VlanPorts.EndsIffLoopEnds`, `VlanPorts.RunsWithPortZero`,
  `VlanPorts.AllPortsCanBeAdded`).
* The VLAN handlers keep the last 32 bits of a number, so that 4294967303 is
  taken for port 7 (`VlanPorts.ArgWraps`).
* `stp_port_list()` reserves two digits a port. List and lookup agree on the
  ports from 0 to 50 exactly when every such port which does not fit is shown
  otherwise, and no number which is cut off reads as a port that is not there
  (`StagedPort.ListAgreesWithFind`). With ports up to 255 both can fail: six
  numbers of three digits push a port off the list, although it is found
  (`StagedPort.LongPortsHideOther`), and of five such ports the last one is
  listed as its first two digits (`StagedPort.LongPortIsMistaken`).
* `arl_list()` is refused exactly when the port numbers have more than three
  digits on average, a VLAN name with a space in it being cut off there. It can
  be read back exactly when no VLAN name has a space (`ArlTable.List`,
  `ArlTable.FitsWithoutSpaces`, `ArlTable.ListIsReadBack`).
* An overlapped call frees buffers of an operation in progress exactly when the
  operation of its own object is in progress and has buffers; calls for other
  objects and replies never do (`OverlappedCalls.FreedInUse`,
  `OverlappedCalls.Agent.SendWhilePending`). A call with the
  identifier of an object which is gone leaves its buffers behind exactly when
  it is reported as pending (`OverlappedCalls.Agent.Send`,
  `OverlappedCalls.Agent.Recv`).
* An asynchronous call ends with an error only if the table of identifiers has
  had no room for its thread or its argument (`RpcCalls.WaitReturnsCallWait`);
  only such a call leaves identifiers behind, and which ones is proved
  (`RpcCalls.OnlyDeniedCallsLeave`, `RpcCalls.WhatCallsLeave`).
* A route whose prefix is longer than an address is listed but cannot be looked
  up (`Routes.ParseReadsName`, `Routes.FindListed`).
* `te_test_result_dup()` does not check its first request for memory and fails
  on a null pointer exactly when that one is not met (`TestResult.Dup`).

## Model

| member | source | states |
|---|---|---|
| `TailQueue.Head.constructor` | `include/te_queue.h:541-545` | a new head is an empty queue |
| `TailQueue.Head.Init` | `include/te_queue.h:541-545` | a head in use becomes an empty queue, its entries are not touched |
| `TailQueue.Head.InsertHead` | `include/te_queue.h:572-583` | keeps the cell invariant and puts the entry in front of all others |
| `TailQueue.Head.InsertTail` | `include/te_queue.h:585-593` | keeps the cell invariant and puts the entry behind all others |
| `TailQueue.Head.InsertAfter` | `include/te_queue.h:547-560` | keeps the cell invariant and puts the entry right behind the given one |
| `TailQueue.Head.InsertBefore` | `include/te_queue.h:562-570` | keeps the cell invariant and puts the entry right in front of the given one, without access to the head |
| `TailQueue.Head.Remove` | `include/te_queue.h:603-617` | keeps the cell invariant, takes out just the given entry, whose own pointers stay as they were |
| `TailQueue.Head.Concat` | `include/te_queue.h:516-525` | all entries of the second queue move behind those of the first one, and the second one is empty and valid |
| `TailQueue.Head.Last` | `include/te_queue.h:595-596` | the final cell read as a head leads to the last entry, or to null for an empty queue |
| `TailQueue.Head.Prev` | `include/te_queue.h:600-601` | the cell which holds an entry, read as a head, leads to the entry before it, or to null for the first one |
| `TailQueue.Head.Forward` | `include/te_queue.h:531-534` | the loop visits all entries once, in order |
| `TailQueue.Head.Backward` | `include/te_queue.h:536-539` | the reverse loop, by `TAILQ_LAST` and `TAILQ_PREV`, visits the mirror image |
| `TailQueue.Head.ChecksDecideValid` | `include/te_queue.h:485-508` | for a chain of forward pointers whose tail cell is its own, the head, tail and next checks hold if and only if the whole cell invariant does; the prev check follows |
| `SinglyTailQueue.Head.constructor` | `include/te_queue.h:285-288` | a new head is an empty queue |
| `SinglyTailQueue.Head.Init` | `include/te_queue.h:285-288` | a head in use becomes an empty queue |
| `SinglyTailQueue.Head.InsertHead` | `include/te_queue.h:296-300` | keeps the invariant and puts the entry in front |
| `SinglyTailQueue.Head.InsertTail` | `include/te_queue.h:302-306` | keeps the invariant and puts the entry at the end |
| `SinglyTailQueue.Head.InsertAfter` | `include/te_queue.h:290-294` | keeps the invariant and puts the entry right behind the given one |
| `SinglyTailQueue.Head.RemoveHead` | `include/te_queue.h:335-339` | takes out the first entry |
| `SinglyTailQueue.Head.Remove` | `include/te_queue.h:320-333` | the walk finds the entry before the given one, wherever that is, and takes out just the given one |
| `SinglyTailQueue.Head.Concat` | `include/te_queue.h:267-273` | all entries of the second queue move behind those of the first one, and the second one is empty |
| `SinglyTailQueue.Head.Last` | `include/te_queue.h:312-316` | the entry around the final cell is the last one, null for an empty queue |
| `CircularQueue.Head.constructor` | `include/te_queue.h:680-683` | a new head is an empty ring |
| `CircularQueue.Head.InsertAfter` | `include/te_queue.h:685-693` | keeps the ring and puts the entry right behind the given one |
| `CircularQueue.Head.InsertBefore` | `include/te_queue.h:695-703` | keeps the ring and puts the entry right in front of the given one |
| `CircularQueue.Head.InsertHead` | `include/te_queue.h:705-713` | keeps the ring and puts the entry in front |
| `CircularQueue.Head.InsertTail` | `include/te_queue.h:715-723` | keeps the ring and puts the entry at the end |
| `CircularQueue.Head.Remove` | `include/te_queue.h:725-734` | keeps the ring and takes out just the given entry |
| `CircularQueue.Head.Replace` | `include/te_queue.h:761-767` | insertion behind the old entry and removal of the old entry substitute one entry in its place, be it first, last, only or inner |
| `CircularQueue.Head.Forward` | `include/te_queue.h:667-670` | the loop visits all entries once, in order |
| `CircularQueue.Head.Backward` | `include/te_queue.h:672-675` | the reverse loop visits the mirror image |
| `CircularQueue.Head.StepsAreInverse` | `include/te_queue.h:641-663` | one step forward and one step back, in either order, lead to where one was, through the head too |
| `TestResult.Allocator.FreeVerdict` | `include/te_test_result.h:180-186` | frees one allocated node with its string |
| `TestResult.FreeFirst` | `include/te_test_result.h:197-201` | one round of the freeing loop takes out and frees the first node and nothing else |
| `TestResult.FreeVerdicts` | `include/te_test_result.h:188-202` | the loop ends with an empty queue; each node is freed, and freed once |
| `TestResult.CopyOne` | `include/te_test_result.h:245-261` | one round of the copying loop: a fresh node with the same string, or nothing at all if a request fails |
| `TestResult.VerdictsCpy` | `include/te_test_result.h:239-265` | fresh nodes with the same strings in order, behind what the destination has; exactly as many copies as requests allow; success if and only if every single request is met |
| `TestResult.CopiedAll` | `include/te_test_result.h:245-261` | everything is copied if and only if all the requests, one or two a verdict, are met |
| `TestResult.CopiedIsLongest` | `include/te_test_result.h:245-261` | what is copied is the longest prefix all of whose requests are met |
| `TestResult.AskedUntilRefused` | `include/te_test_result.h:247-257` | no request is made after one which is not met: the requests made are all those which are needed, or those up to the first one refused |
| `TestResult.Result.constructor` | `include/te_test_result.h:171-178` | an incomplete result with two empty queues |
| `TestResult.Result.Clean` | `include/te_test_result.h:208-217` | both queues are empty and all their nodes are freed |
| `TestResult.Result.Free` | `include/te_test_result.h:224-229` | both queues' nodes are freed, and the result with them |
| `TestResult.CopyLists` | `include/te_test_result.h:290-294` | both lists are copied if and only if all requests for both are met |
| `TestResult.FillDup` | `include/te_test_result.h:290-297` | both lists are copied, or nothing of them stays allocated, nor the result itself |
| `TestResult.Dup` | `include/te_test_result.h:275-300` | same status, verdicts and artifacts on fresh nodes; null if and only if a request fails, with everything allocated so far freed, the result included, and no further request made; a null pointer is accessed if and only if it is the first request that fails |
| `TestResult.CopyBoth` | `include/te_test_result.h:314-315` | each list is copied as far as its own requests are met: its length is that of the longest prefix whose requests are met, the requests for the artifacts coming after those made for the verdicts, also after a failure in the verdicts |
| `TestResult.Cpy` | `include/te_test_result.h:308-316` | both lists are copied to fresh nodes with the same strings in order, each of just that length; both are complete if and only if all requests are met |
| `FrameDelayProgram.ChunkFits` | `bpf/tc_delay.c:29-31` | each full chunk lies within the frame, and what is left is the last chunk |
| `FrameDelayProgram.Program.LoadChunk` | `bpf/tc_delay.c:113-127` | copies one piece of the frame into one chunk and touches no other; fails if the key, the helper or the length does not do |
| `FrameDelayProgram.Program.StoreChunk` | `bpf/tc_delay.c:138-153` | overwrites one piece of the frame with one chunk |
| `FrameDelayProgram.Program.LoadFrame` | `bpf/tc_delay.c:163-174` | succeeds if and only if every chunk can be loaded, and then the chunks hold the frame byte for byte, for any frame and chunk size |
| `FrameDelayProgram.Program.StoreFrame` | `bpf/tc_delay.c:184-195` | succeeds if and only if every chunk can be stored and the frame is long enough, and then the frame begins with every saved byte once and ends as before |
| `FrameDelayProgram.Program.TcDelay` | `bpf/tc_delay.c:202-316` | one invocation is the step `Handle` of the state machine, including the invocation by its own clone, which passes without a change |
| `FrameDelayProgram.Program.CloneRedirect` | `bpf/tc_delay.c:288-299` | the re-entered program lets the clone pass unchanged and changes nothing but what the user writes meanwhile |
| `FrameDelayProgram.Program.Arrival` | `bpf/tc_delay.c:202-316` | around one frame, the second pass of a redirected frame included, program and kernel are the step `Step` |
| `FrameDelayProgram.Program.Traffic` | `bpf/tc_delay.c:202-316` | a whole run of frames and writes is the run `Run` of the state machine |
| `FrameDelayRuns.StepKeepsComplete` | `bpf/tc_delay.c:258-313` | a held frame is always a complete one |
| `FrameDelayRuns.QuietArrival` | `bpf/tc_delay.c:218-273` | a frame which does not release the held one is kept or passes unchanged, and the held one stays |
| `FrameDelayRuns.ReleasingArrival` | `bpf/tc_delay.c:274-313` | the held frame leaves right behind the current one, or is held again |
| `FrameDelayRuns.CounterAfter` | `bpf/tc_delay.c:238-313` | the counter after every arrival: one less if the frame is taken or passes while one is held; after a release what the user wrote meanwhile, one less if the frame sent is taken again on its second pass |
| `FrameDelayRuns.RunKeepsOrder` | `bpf/tc_delay.c:202-316` | in every harmless run the frames which were never held come out in their order, none missing |
| `FrameDelayRuns.RunReturnsHeld` | `bpf/tc_delay.c:202-316` | in every harmless run the frames which were held come back in the order in which they were taken, the last one possibly still held |
| `FrameDelayRuns.RunCount` | `bpf/tc_delay.c:274-313` | every failing clone at a release leaves a run exactly one frame short |
| `FrameDelayRuns.RunBytes` | `bpf/tc_delay.c:274-313` | in every run: a failing cut at a release lets the run send exactly the excess bytes, and a failing clone loses exactly the bytes of its frame |
| `FrameDelayRuns.ConservedIffHarmless` | `bpf/tc_delay.c:202-316` | sent and held frames are exactly the received ones if and only if no release meets a frame which cannot be cloned, or a longer one which cannot be cut |
| `FrameDelayRuns.HeldRun` | `bpf/tc_delay.c:265-307` | while a frame is held, the next ones pass and it follows right behind the one which finds the counter at 0; only the helpers which the program then needs have to work |
| `FrameDelayRuns.DelayDisplaces` | `bpf/tc_delay.c:231-307` | if N is written while idle, the first frame of the configured size is sent right behind the N-th frame after it, all others keep their places, and the program is idle again; a helper has to work only where the program cannot do without it |
| `StagedPort.StagedSinceAdd` | `agents/switch-ctl/conf.c:2004-2118` | what is staged goes back to one addition and to the last writes since, with no deletion or creation in between |
| `StagedPort.CreatedIsWrittenSinceAdd` | `agents/switch-ctl/conf.c:3196-3242` | in every log the handlers can leave, an entry given to the switch was added, and its priority and path cost are the last ones written since that addition |
| `StagedPort.Agent.constructor` | `agents/switch-ctl/conf.c:2004-2008` | nothing is staged and nothing is cached, whatever the entry holds |
| `StagedPort.FlagsNeedPort` | `agents/switch-ctl/conf.c:2004-2020` | in every state the handlers keep, a set flag comes with that of the port number, and tells just which fields were written since the addition |
| `StagedPort.Agent.CacheUpdate` | `agents/switch-ctl/conf.c:2129-2158` | the switch is read once a group; a failure leaves the cache empty and the group unread |
| `StagedPort.Agent.Find` | `agents/switch-ctl/conf.c:2174-2228` | ports out of 0..50 are refused; otherwise the first cached entry for the port, else the staged one |
| `StagedPort.Agent.SetPrio` | `agents/switch-ctl/conf.c:3021-3047` | writes the priority of the entry which is found, and stages it if that is the staged one |
| `StagedPort.Agent.SetPathCost` | `agents/switch-ctl/conf.c:2951-2977` | writes the path cost likewise |
| `StagedPort.Agent.Add` | `agents/switch-ctl/conf.c:3061-3090` | a port which is not found is staged, with neither priority nor path cost; with another one staged the caller is told to try again |
| `StagedPort.Agent.Del` | `agents/switch-ctl/conf.c:3103-3134` | takes exactly the first row of the port from the switch, the others keeping their order, or gives up the staged entry |
| `StagedPort.Agent.Commit` | `agents/switch-ctl/conf.c:3195-3242` | the first row the switch has for a known port becomes the cached entry, and no other one changes; the staged entry is created exactly if all three fields are written, and stays staged if the switch refuses |
| `StagedPort.Agent.SetPrioAndCommit` | `agents/switch-ctl/conf.c:3021-3242` | a priority set for a known port and committed is what the switch has for it then, with the path cost which was read; nothing else changes |
| `StagedPort.Agent.SetPathCostAndCommit` | `agents/switch-ctl/conf.c:2951-3242` | the same for a path cost |
| `StagedPort.PortIdReads` | `agents/switch-ctl/conf.c:2181-2190` | a printed port number is taken as it is up to 50, and refused beyond that or with anything behind it |
| `StagedPort.ValueOfReads` | `agents/switch-ctl/conf.c:3031-3037` | a printed value is taken as it is, up to the greatest one of a `long`; a negative one or one with anything behind it is refused |
| `StagedPort.Agent.Get` | `agents/switch-ctl/conf.c:2989-3009` | a field of the staged entry which has not been written since it was added reads as empty |
| `StagedPort.Agent.List` | `agents/switch-ctl/conf.c:3147-3185` | all cached ports and the staged one, in order, cut off where the buffer ends |
| `StagedPort.Print` | `agents/switch-ctl/conf.c:3160-3182` | printing item by item into what is left of the buffer is cutting off the whole list |
| `StagedPort.ListIsComplete` | `agents/switch-ctl/conf.c:3160-3182` | split at its spaces, the list gives all ports if and only if they fit the buffer but for the last space |
| `StagedPort.ListedPorts` | `agents/switch-ctl/conf.c:3160-3182` | the numbers on the list are exactly the ports which fit, and the number which the digits still going into the buffer make of the next one |
| `StagedPort.ListedIffFound` | `agents/switch-ctl/conf.c:3147-3185` | within a group, for a port in 0..50: it is on the list if and only if it is found, exactly unless it is a known port beyond the end of the buffer or a number cut off a longer one |
| `StagedPort.ListAgreesWithFind` | `agents/switch-ctl/conf.c:2174-3185` | list and lookup agree on all ports in 0..50 if and only if a number which is cut off is out of range or a port as well, and each port in range which does not fit is on the list otherwise |
| `StagedPort.Agent.ListThenFind` | `agents/switch-ctl/conf.c:2129-3185` | a listing and a later lookup in one request group are about one table, unless it could be read for the lookup only; so with harmless cuts what is listed is what is found |
| `StagedPort.ShortPortsFit` | `agents/switch-ctl/conf.c:3160-3165` | with all ports below 100 the list fits its buffer and gives all names |
| `StagedPort.LongPortsHideOther` | `agents/switch-ctl/conf.c:3160-3182` | behind any six ports with three digits a seventh one in 0..50 is found but not listed |
| `StagedPort.LongPortIsMistaken` | `agents/switch-ctl/conf.c:3160-3182` | of any five ports from 100 to 255 the last one is listed as its first two digits, a port which is not found |
| `ArlTable.Print` | `agents/switch-ctl/conf.c:1968-1986` | for all names: refused if and only if the names up to their first spaces do not fit the buffer; otherwise all names but the last one end at their first spaces |
| `ArlTable.List` | `agents/switch-ctl/conf.c:1942-1991` | the list is refused if and only if the digits of the port numbers exceed three a port plus what VLAN names have from their first spaces on; otherwise exactly what is printed |
| `ArlTable.FitsWithoutSpaces` | `agents/switch-ctl/conf.c:1962-1986` | if no VLAN name has a space, the list is refused if and only if the ports have more than three digits on average |
| `ArlTable.ListIsWhole` | `agents/switch-ctl/conf.c:1968-1986` | and otherwise it shows all names in full |
| `ArlTable.LongPortIsRefused` | `agents/switch-ctl/conf.c:1962-1986` | the list of a single entry with a port above 999 is refused |
| `ArlTable.ItemsAreShort` | `agents/switch-ctl/conf.c:1968-1986` | the items of a list which is not refused are all names up to their first spaces, and then what is shown of the last name behind its first space |
| `ArlTable.SpacesCutNames` | `agents/switch-ctl/conf.c:1968-1986` | of a list which is not refused each entry has its item, which is parsed to it with the VLAN name up to its first space |
| `ArlTable.ShortPortsFit` | `agents/switch-ctl/conf.c:1962-1966` | with ports up to 999 no list is refused |
| `ArlTable.ParseReadsName` | `agents/switch-ctl/conf.c:1635-1687` | a printed name is parsed back to its entry |
| `ArlTable.ParseReadsSpelled` | `agents/switch-ctl/conf.c:1635-1687` | so is a name with its address in upper case; refused if and only if the VLAN name does not fit its field |
| `ArlTable.KindIsChecked` | `agents/switch-ctl/conf.c:1645-1651` | the number in front of a name, as far as 32 bits keep it, has to be 0 or 1 |
| `ArlTable.DotsAreNeeded` | `agents/switch-ctl/conf.c:1645-1674` | a name in which a part has no dot behind it is refused |
| `ArlTable.ScanHexReadsOther` | `agents/switch-ctl/conf.c:1660-1666` | a byte may follow spaces, be one digit or have a sign, of which the lowest 8 bits are kept; a prefix `0x` is refused |
| `ArlTable.ListIsReadBack` | `agents/switch-ctl/conf.c:1635-1991` | a list which is not refused, split at its spaces and parsed, is the whole table in order if and only if no VLAN name has a space |
| `ArlTable.Find` | `agents/switch-ctl/conf.c:1701-1728` | the first entry with the address and the VLAN of the name |
| `ArlTable.ListedNameFinds` | `agents/switch-ctl/conf.c:1701-1728` | looking up a printed name finds that entry if and only if no earlier one has the same address and VLAN |
| `VlanPorts.EndsIffLoopEnds` | `agents/switch-ctl/conf.c:3553-3554` | a loop with an 8-bit counter ends if and only if there are at most 255 ports, or the port at which it is left is among the first 256 |
| `VlanPorts.Agent.PortAdd` | `agents/switch-ctl/conf.c:3530-3578` | the port is put at the end of the array, or refused as known; every error leaves the table as it is; endless if and only if the 8-bit loop does not end |
| `VlanPorts.Agent.PortDel` | `agents/switch-ctl/conf.c:3590-3634` | the port is taken out and the others keep their order; every error leaves the table as it is; endless if and only if the VLAN has more than 255 ports |
| `VlanPorts.ArgReads` | `agents/switch-ctl/conf.c:3544-3546` | a printed number is taken as it is up to the limit, and refused beyond that or with anything behind it |
| `VlanPorts.ArgWraps` | `agents/switch-ctl/conf.c:3544-3546` | of longer and of negative numbers the last 32 bits are taken |
| `VlanPorts.Agent.AddNumbered` | `agents/switch-ctl/conf.c:3256-3578` | a port added by its number to the VLAN with a tag, which may be called "default" if it is 1, is at the end of the ports of the first VLAN with that tag |
| `VlanPorts.Agent.DelNumbered` | `agents/switch-ctl/conf.c:3256-3634` | a port deleted by its number is taken from the first VLAN with the tag; refused if and only if it is not there, endless if and only if there are more than 255 |
| `VlanPorts.MoveUp` | `agents/switch-ctl/conf.c:3612-3616` | the compaction in place, for arrays on which its loop ends, keeps the other ports in order at the front and leaves the rest of the array alone |
| `VlanPorts.StepKeepsDistinct` | `agents/switch-ctl/conf.c:3530-3634` | no port is twice in the array; an addition adds just its port, and a deletion takes just its port, the others staying in order |
| `VlanPorts.DelUndoesAdd` | `agents/switch-ctl/conf.c:3530-3634` | deleting a port which was just added restores the array |
| `VlanPorts.RunsWithoutPortZeroEnd` | `agents/switch-ctl/conf.c:3530-3634` | in every run over ports from 1 to 255 there are at most 255 of them and all loops end |
| `VlanPorts.RunsWithPortZero` | `agents/switch-ctl/conf.c:3530-3634` | with port 0, additions still end, and a deletion never ends if and only if all the ports from 0 to 255 are there |
| `VlanPorts.AllPortsCanBeAdded` | `agents/switch-ctl/conf.c:3530-3578` | adding the ports one by one leads to such a VLAN |
| `PointerIds.MakeIsReadBack` | `lib/rpc_types/te_rpc_types.h:121-158` | an identifier leads back to namespace and index; only the very last one looks like the null pointer |
| `PointerIds.Table.SearchIndex` | `lib/rpcserver/rcf_pch_mem.c:167-182` | while nodes are free, the round-robin search finds the first free one from where the last search ended |
| `PointerIds.Table.TakeIndex` | `lib/rpcserver/rcf_pch_mem.c:131-228` | gives that node and changes no other, growing the array if all are used; fails if and only if the array cannot grow; the next search begins behind the node |
| `PointerIds.Table.Alloc` | `lib/rpcserver/rcf_pch_mem.c:306-350` | an identifier which stood for nothing stands for the pointer, and all others stand for what they did |
| `PointerIds.Table.Free` | `lib/rpcserver/rcf_pch_mem.c:237-419` | an identifier in use stands for nothing afterwards, all others for what they did; anything else is refused without a change |
| `PointerIds.Table.Get` | `lib/rpcserver/rcf_pch_mem.c:455-502` | the pointer of an identifier in use of the namespace, else null |
| `RpcCalls.StepKeepsInv` | `agents/win32/tarpc_server.h:356-448` | every step of every call keeps the table accounted for: each identifier is owned by one call, in the position which says so |
| `RpcCalls.WaitReturnsCallWait` | `agents/win32/tarpc_server.h:799-844` | in every run of interleaved calls, a call which was waited for has returned what the synchronous call returns, and its argument is freed only after its thread is gone; there is an error instead only if the table had no room for it |
| `RpcCalls.ExitCodeLeadsToArgument` | `agents/win32/tarpc_server.h:397-448` | a thread looks running if and only if it is; its exit code leads to just the pointer given to `thread_exit()` until the join frees it, unless the table had no room |
| `RpcCalls.DoneMeansFinal` | `agents/win32/tarpc_server.h:784-824` | if the flag a client looks at through its identifier is set, the output is final |
| `RpcCalls.DoneIsSeen` | `agents/win32/tarpc_server.h:768-824` | as long as a call has the identifier of its flag, the flag is seen set if and only if the thread has acted and passed the assignment, as it has when it exits |
| `RpcCalls.CallsBegin` | `agents/win32/tarpc_server.h:799-815` | a request begins a call of its own at any time |
| `RpcCalls.RestOfServer` | `agents/win32/tarpc_server.h:356-448` | what the rest of the server puts into the table is there until it takes it out, and nothing else changes |
| `RpcCalls.OnlyDeniedCallsLeave` | `agents/win32/tarpc_server.h:356-448` | after all calls, identifiers are left behind only by calls for which the table had no room |
| `RpcCalls.WhatCallsLeave` | `agents/win32/tarpc_server.h:356-844` | a call which is over leaves nothing behind if it has returned, and else exactly the identifier of its `done` flag and the exit code of its thread, as far as there was room for them |
| `RpcCalls.TableIsRestored` | `agents/win32/tarpc_server.h:356-448` | after all waits the table has just what the rest of the server put there |
| `RpcCalls.CallGoesOn` | `agents/win32/tarpc_server.h:356-448` | in every reachable state a call which is not over has a step that brings it nearer to its end |
| `RpcCalls.NoStepGoesBack` | `agents/win32/tarpc_server.h:356-448` | and no step of anyone takes it away from there |
| `OverlappedCalls.ChangeKeepsOthers` | `agents/win32/tarpc_wsa.c:85-165` | a change for some owners keeps the ownership invariant and what all other owners have |
| `OverlappedCalls.OwnersAreApart` | `agents/win32/tarpc_wsa.c:45-52` | no block belongs to two of the objects and replies |
| `OverlappedCalls.FreedInUse` | `agents/win32/tarpc_wsa.c:85-165` | a call frees blocks of an operation in progress if and only if its own object has one with buffers |
| `OverlappedCalls.OnlyLostBlocksRemain` | `agents/win32/tarpc_wsa.c:85-165` | when replies are freed and objects are empty, no memory but lost blocks is left |
| `OverlappedCalls.Agent.FreeBuffers` | `agents/win32/tarpc_wsa.c:85-100` | frees each block of the object once and nothing else |
| `OverlappedCalls.Agent.Fill` | `agents/win32/tarpc_wsa.c:109-133` | one buffer a vector: the length is kept, there is room for the longer of length and base, the common prefix is copied and the rest is zero; old buffers are freed |
| `OverlappedCalls.Agent.Move` | `agents/win32/tarpc_wsa.c:142-165` | the buffers become the vectors of the reply with the bytes, sizes and lengths they had; only the two arrays are freed |
| `OverlappedCalls.Agent.Prepare` | `agents/win32/tarpc_wsa.c:551-568` | the object of the request, or one of the call itself, gets the buffers |
| `OverlappedCalls.Agent.CreateOverlapped` | `agents/win32/tarpc_wsa.c:461-472` | a new object without buffers |
| `OverlappedCalls.Agent.DeleteOverlapped` | `agents/win32/tarpc_wsa.c:474-483` | the object goes with all of its buffers, which are in use if and only if its operation is in progress and has any |
| `OverlappedCalls.Agent.Send` | `agents/win32/tarpc_wsa.c:583-605` | afterwards the object has buffers if and only if the operation is pending, which it is not if the call returned 0; blocks are lost if and only if it is pending without an object; blocks in use are freed if and only if the object had an operation in progress with buffers |
| `OverlappedCalls.Agent.RecvFinish` | `agents/win32/tarpc_wsa.c:630-650` | the buffers are moved to the reply, kept, or freed, in exactly the coded cases |
| `OverlappedCalls.Agent.Recv` | `agents/win32/tarpc_wsa.c:652-679` | the same for the whole call: received data and the rest of each request vector arrive in the reply or stay with the object; blocks in use are freed under the same condition as by a sending call |
| `OverlappedCalls.Agent.GetOverlappedResult` | `agents/win32/tarpc_wsa.c:506-540` | the buffers leave with the reply if and only if the operation is complete and data is asked for; no block in use is freed |
| `OverlappedCalls.Agent.GetReceived` | `agents/win32/tarpc_wsa.c:506-540` | data which arrives while an operation is pending is in the reply to the call which ends it, with the rest of each request vector behind it |
| `OverlappedCalls.Agent.SendWhilePending` | `agents/win32/tarpc_wsa.c:583-605` | two sending calls with one object, of which the first one is pending: the second one frees blocks which are in use |
| `OverlappedCalls.Agent.FreeReply` | `lib/rpcserver/rpc_server.c:866-868` | the vectors of a reply and their buffers, which are blocks of their own, can be freed one by one once it is encoded: nothing of an object or of another reply goes with them |
| `ThreadPool.StepKeepsInv` | `agents/unix/main.c:794-884` | every step of starters and threads keeps the invariant of lock, slots and semaphores |
| `ThreadPool.RunIsSafe` | `agents/unix/main.c:794-884` | in every run a thread which has posted its semaphore has the routine and the parameters of the very call which has created it; live threads have slots of their own below 16, with semaphores; whenever the lock is free, exactly the slots of live threads are active and every semaphore is 0 |
| `ThreadPool.NewThreadHasFreeSlot` | `agents/win32/win32.c:416-500` | a thread is created in a slot in which no live thread is |
| `ThreadPool.StartedMeansPosted` | `agents/unix/main.c:867-875` | a start succeeds only after its own thread has read the routine and the parameters of the call and has posted; it returns the slot of that thread, whose semaphore is 0 again |
| `ThreadPool.RefusedWhenFull` | `agents/unix/main.c:840-882` | a start is refused for want of slots only while all of them have live threads |
| `ThreadPool.FailedMeansFailure` | `agents/unix/main.c:845-866` | a start fails if and only if a system call does which it needs: for the semaphore of a slot never used before, or for the thread |
| `ThreadPool.WorkingStartsDoNotFail` | `agents/unix/main.c:826-888` | a start whose system calls all work never fails: it gets a slot unless all have live threads |
| `ThreadPool.SemaphoreIsThere` | `agents/unix/main.c:856-864` | the semaphore of a slot is created once, when the slot is first used |
| `ThreadPool.NoDeadlock` | `agents/unix/main.c:794-884` | in every reachable state somebody can go on until all starts have returned and all threads are gone |
| `ThreadPool.RunsEnd` | `agents/unix/main.c:794-884` | no run takes more than 29 steps a start; as somebody can always go on, every start returns and every thread ends, however the steps interleave |
| `Checksum.FoldedIsResidue` | `include/tad_common.h:138-139` | two folds and the cut to 16 bits give 0 for 0 and otherwise the representative in 1..65535, for every 32-bit sum |
| `Checksum.NoOverflow` | `include/tad_common.h:109-128` | less than 64k of data and a 16-bit start value do not overflow 32 bits |
| `Checksum.SumUp` | `include/tad_common.h:127-136` | the loop adds all words and a last byte with a zero byte, modulo 2^32 |
| `Checksum.Part` | `include/tad_common.h:122-140` | the residue of start value and data |
| `Checksum.Calculate` | `include/tad_common.h:154-158` | the residue of the data |
| `Checksum.ResidueIsUnique` | `include/tad_common.h:138-139` | there is no other such representative |
| `Checksum.PiecesMakeWhole` | `include/tad_common.h:116-140` | summing up in two pieces split at an even offset is summing up at once |
| `Checksum.SwappedWordsSwapChecksum` | `include/tad_common.h:122-140` | reading all words in the other byte order swaps the bytes of the result, odd lengths included (RFC 1071, section 2) |
| `Checksum.ComplementMakesAllOnes` | `include/tad_common.h:113-140` | with the complement in place of a zero word the total is 0xFFFF |
| `RandRange.StaysInRange` | `include/te_defs.h:400-408` | for all bounds, under the condition under which the code picks the type, no operation overflows (the difference of the bounds, the same plus one, `RAND_MAX` plus one, the product), and the value is within the bounds |
| `RandRange.WrongBoundsAreShown` | `include/te_defs.h:399-400` | bounds in the wrong order give -RAND_MAX, and no bounds above it in the right order do |
| `RandRange.CommonTypes` | `include/te_defs.h:403-408` | a 64-bit type is just large enough for the greatest RAND_MAX of 31 bits, a 32-bit one is too small for the least one |
| `RandRange.IsMonotone` | `include/te_defs.h:400-408` | a greater number drawn never gives a smaller value |
| `RandRange.HitsAreEven` | `include/te_defs.h:400-408` | each value is given by m / w of the m numbers drawn, or by one more, w being the number of values |
| `RandRange.ReachesAll` | `include/te_defs.h:393-408` | every value is reached if there are as many numbers as values |
| `Routes.WholeItemsAreFound` | `agents/win32/conf.c:1251-1268` | the search for a name between spaces succeeds if and only if the name is one of the items |
| `Routes.ListName` | `agents/win32/conf.c:1261-1273` | a name is appended if and only if it is not there yet |
| `Routes.ListedRows` | `agents/win32/conf.c:1108-1132` | all rows are listed but local ones with a full prefix, multicast ones (224.0.0.0/4 and ff00::/8), and the broadcast address |
| `Routes.List` | `agents/win32/conf.c:1231-1282` | the names of the rows which are shown, in the order of the rows, or the error of reading the forwarding table |
| `Routes.ListShowsNames` | `agents/win32/conf.c:1231-1282` | split at its spaces, the list has the name of every listed row, each once, and nothing else |
| `Routes.Find` | `agents/win32/conf.c:1156-1213` | the first listed row with the name, and what the name, the gateway and the interface of that row tell; a name which cannot be parsed is refused before the forwarding table is read, whose errors are passed on |
| `Routes.FoundIffShown` | `agents/win32/conf.c:1264-1273` | of the rows listed under a name, exactly the one for which it was put on the list is found |
| `Routes.ParseReadsName` | `lib/rcfpch/rcf_pch_ta_cfg.c:424-505` | the name of a row is parsed back to its destination, prefix and metric, and refused if and only if the prefix is longer than an address |
| `Routes.FindListed` | `agents/win32/conf.c:1156-1282` | looking up a name on the list gives the very row for which it was put there, or an error if the prefix is longer than an address |
| `Text.StrtolReadsDecimal` | `agents/switch-ctl/conf.c:1645-1660` | a printed number is read back, whatever follows it |
| `Text.StrtolReadsAny` | `agents/switch-ctl/conf.c:1645-1660` | a printed number of any size is read as the nearest value of a `long` |
| `Text.StrtolReadsSigned` | `agents/switch-ctl/conf.c:1645-1660` | so is one with a sign |
| `Text.StrtolInParts` | `agents/switch-ctl/conf.c:1645-1660` | of any text, the number is that of the digits behind spaces and a sign, and nothing is read if there are none |
| `Text.WhiteSpace` | `agents/switch-ctl/conf.c:1645-1666` | what `strtol()` and `sscanf()` skip in front of a number: the white space of the C locale |
| `Text.ItemsAreWords` | `agents/switch-ctl/conf.c:3169-3180` | no item of a list is empty |
| `Text.SpaceInFront` | `agents/switch-ctl/conf.c:3169-3180` | and a space in front of it makes no difference |
| `Text.TruncatedList` | `agents/switch-ctl/conf.c:3160-3182` | a truncated list still gives its items if and only if nothing but the last space is missing |
| `Text.TruncatedWords` | `agents/switch-ctl/conf.c:3160-3182` | split at its spaces, a truncated list gives the items which fit and the piece of the next one that is not cut off |
| `Text.CutDecimal` | `agents/switch-ctl/conf.c:3169-3170` | the first digits of a printed number read as the number divided by a power of ten |

## Left out

- `LIST` and `SLIST` of `include/te_queue.h`: their operations are those of the tail queues with less to keep; the direct `CIRCLEQ_REPLACE`, which treats the head both as a pointer and as a structure; the `_SAFE` loops; debug tracing and trashing of pointers.
- The string tables of test results.
- Read-only STP attributes, reuse of request groups after a failed read, other managers which change the switch within a group, `cos_set`.
- StagedPort.Agent.Find: a null port name is not distinguished from an empty one.
- ArlTable.ParseReadsName: conversion to the port type and the size of the VLAN field are parameters.
- ArlTable.Find: an address with the prefix `0x` in a byte is refused, as section 7.21.6.2 of ISO C demands; libraries which read the prefix as 0 are not modelled.
- `init_checked_arg()` and `check_args()`, wrappers of foreign calls, completion routines, the extension functions of Winsock.
- ThreadPool.StepKeepsInv: does not model cancellation and killing at shutdown; a routine posts its semaphore exactly once.
- `store_pid()`, `kill_tasks()` and `compare_files()` of the agents.
- RandRange.StaysInRange: does not model the variant which computes in `double`.
- FrameDelayProgram.Program.TcDelay: does not model a failing lookup of the `cloned` cell, which is the only one of an array map; without it the re-entered program would take the clone for another frame. The counter is not written concurrently within one step but while the clone is sent and between two passes.
- StagedPort.LongPortIsMistaken: the width of the port type `poe_pid` is not part of this model; the ports of the lemmas are those which the VLAN handlers accept as well.
- VlanPorts.MoveUp: requires that its loop ends; when it does not, the deletion as a whole is endless.
- PointerIds.Table.TakeIndex: does not model the unsafe way of allocation (`TE_RPC_PTR_UNSAFE`).
- PointerIds.Table.Alloc: does not model the unsafe way of allocation, offsets and lookup by address.
- RpcCalls.WaitReturnsCallWait: does not model a failing thread creation or `thread_cancel()`; the actions of a call are a function of its arguments, the same in a thread as in the server.
- OverlappedCalls.Agent.Recv: does not model addresses, flags and byte counts of the reply; sizes are not bounded to 32 bits. What Winsock writes into the buffers is a parameter.
- OverlappedCalls.Agent.GetOverlappedResult: does not model byte count and flags of the reply.
- Routes.Find: does not model `inet_ntop()` and `inet_pton()`, which are parameters that read back what they print.
