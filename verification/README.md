# Distributed lock manager: a verified model

This project models the distributed lock manager of the repository and the parts it rests on, and proves what they promise.

- **The lock protocol.** N lock servers run the Ricart & Agrawala algorithm (README.md:6) over synchronous RPC. For each lock number a server keeps a local mutex, a request flag, its current sequence number, a clock and a list of parked requests. Acquire takes the mutex, raises the flag, picks clock + 1 and asks its peers *one at a time*; a peer raises its clock and then answers or parks the caller; release wakes the parked callers and frees the mutex.
- **What the protocol depends on.** The client joins the node names in a growing buffer, the server splits them and drops its own; the tie-breaker is a hardware address packed from six bytes.
- **The codecs.** The XDR routines for lock requests and for thread contexts, over the wire forms of sections 4.1, 4.2, 4.5, 4.10, 4.12 and 4.14 of RFC 4506.

## How it is organised

| file | contents |
|---|---|
| `Protocol.dfy` | one lock as a state machine; every action is one access to shared memory or one message event |
| `Invariants.dfy`, `Safety.dfy`, `Bypass.dfy` | what every action keeps; exclusion, entry order, conservation, clock bounds; bounded bypass |
| `Premises.dfy`, `LostUpdate.dfy`, `StaleClock.dfy` | the premises of mutual exclusion, each shown necessary; exactly which systems need the clock update to be atomic |
| `Moves.dfy`, `Progress.dfy`, `Termination.dfy` | handlers as uninterrupted moves; no wait cycles, a falling measure, everyone served |
| `AsWritten.dfy`, `Interleaved.dfy` | exactly when requests are stranded, for the code as written and under any interleaving |
| `Systems.dfy`, `SystemProgress.dfy` | all locks together, over encoded messages, showing of each lock exactly the runs of the one-lock protocol |
| `Server.dfy` | the lock server as mutable objects, each handler proved to do what the protocol says |
| `NodeList.dfy`, `Mac.dfy`, `Deployment.dfy` | node names, hardware addresses, and the step from a deployment to the premises of exclusion |
| `Xdr.dfy`, `Shapes.dfy`, `Tapes.dfy`, `XdrStreams.dfy`, `Layout.dfy` | the representation, the interface files as shapes, the codec routines over a mutable stream, and what stands where on the wire |

## What the proofs found

- *Mutual exclusion holds* in every run, with the statements of lines 125, 126, 170 and 172-174 of `psu_dist_lock_mgr_server.c` interleaved freely, whether or not release lowers the request flag; and it holds if and only if hardware addresses are distinct and every server lists every other (`Premises.ExactPremises`).
- *The clock update must not be lost.* Line 170 reads and writes the clock without a lock. With the two as separate steps, and node lists as initialisation builds them, mutual exclusion holds in every run if and only if there are at most two nodes, whatever the addresses, the order of the lists and the kind of release (`StaleClock.SafeIffTwoNodes`, `Deployment.DeployedLostUpdate`). With more nodes, a stale write that takes a clock back lets two nodes in at once; runs without such a write are safe in every system (`LostUpdate.NoLostUpdateIsSafe`).
- *The code never lowers the request flag.* README.md:6 names the Ricart & Agrawala algorithm, whose release does; lines 144-163 do not. The model follows the code and takes the difference as a parameter, `clears`. With lowering, everyone is served (`Termination.EveryoneServed`); without it, an acquire made at rest, with nobody else acquiring meanwhile, is served if and only if no other node has ever held the lock, and otherwise never enters (`AsWritten.LoneAcquire`). Hence the code as written serves every acquire of a lock if and only if at most one node uses that lock (`AsWritten.ServedIffOneUser`).
- *Lowering the flag is not enough when statements interleave.* A request handled between lines 125 and 126 of another node's acquire is compared with that node's old number and can be parked for ever, at the very first use of a lock (`Interleaved.FirstUseCanStrand`). Parks at a node that claims nothing earlier are exactly what goes wrong: a run that cannot go on has served everybody if and only if it contains none (`Interleaved.ServedUnlessUntimelyPark`), for one lock and for the whole system (`SystemProgress.SystemServed`). Under free interleaving, with either release, all runs serve everybody if and only if at most one node uses the lock (`Interleaved.RunsServedIffOneUser`).

## Assumptions

RPC is reliable and the result at line 136 is ignored, as in the source; only the holder releases (psu_dist_lock_mgr_test.c:15-19); initialisation finishes before the first acquire; memory is sequentially consistent; appending to a deferred list together with parking (lines 180-184), and waking and renewing the list (lines 150-157), are each one step. The local mutex is locked by one handler and unlocked by another, so it is a binary semaphore. `entries`, the record of who entered when, is added by the model.

## Model

| member | source | states |
|---|---|---|
| `Protocol.StepInRange` | psu_dist_lock_mgr_server.c:116-187 | every statement of the three handlers, as an action, leads from well-formed states to well-formed states |
| `Protocol.ExecConcat` | psu_dist_lock_mgr_server.c:116-187 | runs compose: running a then b is running a + b |
| `Invariants.StepBase` | psu_dist_lock_mgr_server.c:116-187 | every action keeps, in every system whatever its addresses and node lists: one thread past each mutex, calls matching waiting threads, deferred lists matching parked calls, clocks bounding numbers |
| `Invariants.RunBase` | psu_dist_lock_mgr_server.c:116-187 | so does every run |
| `Invariants.InitialInv` | psu_dist_lock_mgr_server.c:56-62 | freshly created lock variables satisfy the protocol invariant |
| `Invariants.KeepLocalExclusion` | psu_dist_lock_mgr_server.c:123-159 | at most one local thread is past the mutex, and then the mutex is taken; kept by every action |
| `Invariants.KeepCallsMatch` | psu_dist_lock_mgr_server.c:127-139 | waiting acquires and outstanding calls correspond one to one, each call addressed to the peer whose turn it is and carrying the sender's current stamp |
| `Invariants.KeepParkedListed` | psu_dist_lock_mgr_server.c:150-184 | a call is parked exactly when its destination's deferred list names it, and then once |
| `Invariants.KeepClockOrder` | psu_dist_lock_mgr_server.c:125-170 | myseqno never exceeds highestseqno + 1, also while the new number is computed but not written, and a claiming node shows its flag |
| `Invariants.KeepSeqnos` | psu_dist_lock_mgr_server.c:126-170 | no action lowers any node's sequence number or clock |
| `Invariants.KeepStampWhileInside` | psu_dist_lock_mgr_server.c:123-140 | while a thread holds the mutex and has its number, nobody changes that number |
| `Invariants.KeepClaim` | psu_dist_lock_mgr_server.c:125-141 | from reading the clock to releasing, the stamp a thread claims the lock with does not change |
| `Invariants.KeepLaterClaim` | psu_dist_lock_mgr_server.c:125-126 | a node whose clock has seen x can only make or keep claims later than x |
| `Invariants.KeepGranted` | psu_dist_lock_mgr_server.c:125-184 | once a node stands behind a request stamp (its clock has seen it and it claims nothing that is not later), it still does after every action of every node |
| `Invariants.AnswerGrants` | psu_dist_lock_mgr_server.c:172-186 | a handler that answers does so only where its node claims nothing or claims later, although flag and number are read at different times |
| `Invariants.FlushGrants` | psu_dist_lock_mgr_server.c:150-157 | everyone release wakes was parked there and is granted by having been woken |
| `Invariants.StepInv` | psu_dist_lock_mgr_server.c:116-187 | every action keeps the whole invariant, for both kinds of release |
| `Invariants.RunInv` | psu_dist_lock_mgr_server.c:116-187 | so does every run |
| `Safety.MutualExclusion` | psu_dist_lock_mgr_server.c:116-187 | in every run no two threads, on one node or on two, are between acquire and release of one lock |
| `Safety.CriticalUnique` | psu_dist_lock_mgr_server.c:127-141 | two holders would each stand behind the other, so they are one |
| `Safety.CriticalGranted` | psu_dist_lock_mgr_server.c:127-139 | a thread that holds the lock, or may enter, is granted by every other node |
| `Safety.EntryOrder` | psu_dist_lock_mgr_server.c:126-184 | over any run the entries are non-decreasing in (seqno, mac), strictly increasing whenever the holder changes node |
| `Safety.Conservation` | psu_dist_lock_mgr_server.c:127-184 | in every reachable state of every system, equal addresses included, a waiting acquire has exactly one call, in one stage; deferred lists hold exactly the calls parked there, from pairwise different nodes |
| `Safety.OneAnswerPerPeer` | psu_dist_lock_mgr_server.c:127-139 | a completed acquire has been answered by exactly the entries of its node list, each once and in their order |
| `Safety.ClockBound` | psu_dist_lock_mgr_server.c:58-170 | in every system, every sequence number is at most the number of acquires that have read the clock, so int does not overflow in runs with fewer than 2^31 - 1 of them |
| `Safety.Monotone` | psu_dist_lock_mgr_server.c:126-170 | clocks and sequence numbers never go back over any stretch of any run of any system |
| `Bypass.BoundedBypass` | psu_dist_lock_mgr_server.c:126-174 | once a node's clock has seen an outstanding request, the node enters at most once before it, and not at all unless it had begun an earlier claim |
| `Bypass.TotalBypass` | psu_dist_lock_mgr_server.c:126-174 | once every other clock has seen it, at most N - 1 entries by anyone precede it |
| `Bypass.EnterUsesPass` | psu_dist_lock_mgr_server.c:126-141 | entering ahead of an outstanding request uses up the node's only chance to do so |
| `Premises.ExactPremises` | psu_dist_lock_mgr_server.c:83-187 | mutual exclusion holds in every run if and only if addresses are distinct and every server lists every other |
| `Premises.MissingPeerBreaks` | psu_dist_lock_mgr_server.c:127-139 | a server that lists not every other has a run with two holders |
| `Premises.EqualMacsBreak` | psu_dist_lock_mgr_server.c:172-174 | two servers with one address have a run with two holders |
| `LostUpdate.NoLostUpdateIsSafe` | psu_dist_lock_mgr_server.c:170 | with the clock update as a read and a write, mutual exclusion holds in every run in which no write takes a clock back, given distinct addresses and complete node lists |
| `LostUpdate.LooseIsRun` | psu_dist_lock_mgr_server.c:170 | such a run is a run of the protocol, state for state |
| `LostUpdate.StoreIsUpdate` | psu_dist_lock_mgr_server.c:170 | a write that does not take the clock back has the effect of the one-step update |
| `LostUpdate.NeverLoses` | psu_dist_lock_mgr_server.c:170 | with at most two nodes, neither listing itself, no run ever takes a clock back: each node has one caller, and that makes one call at a time |
| `StaleClock.LostUpdateBreaks` | psu_dist_lock_mgr_server.c:125-184 | in every system of three or more nodes that each list the others once, a stale write leads to a state with two holders, whatever release does |
| `StaleClock.SafeIffTwoNodes` | psu_dist_lock_mgr_server.c:116-187 | with the clock update as a read and a write: mutual exclusion in every run if and only if there are at most two nodes |
| `StaleClock.StoreStale` | psu_dist_lock_mgr_server.c:170 | a handler that read the clock before another's update and writes after it takes the clock back |
| `StaleClock.AskOn` | psu_dist_lock_mgr_server.c:127-139 | a thread none of whose next peers would park it gets all their answers, and only the clocks of those peers change |
| `Moves.DefersIsBefore` | psu_dist_lock_mgr_server.c:172-174 | the handler's condition is: flag raised and own stamp before the caller's in lexicographic order |
| `Moves.MoveIsBurst` | psu_dist_lock_mgr_server.c:125-184 | a handler run without interruption, its tests stopping as soon as the answer is known, has exactly the effect of its move |
| `Moves.TieBreak` | psu_dist_lock_mgr_server.c:174 | at a node that claims with the caller's own number, the handler answers the smaller address and parks the larger |
| `Moves.NumberFirst` | psu_dist_lock_mgr_server.c:173 | with different numbers it answers the smaller number and parks the larger, whatever the addresses |
| `Moves.JudgedRight` | psu_dist_lock_mgr_server.c:172-174 | the three tests in sequence, each stopping as soon as the answer is known, are the condition of the source |
| `Moves.PlayIsRun` | psu_dist_lock_mgr_server.c:116-187 | every play of moves is a run of the interleaved protocol |
| `Progress.PlayCalm` | psu_dist_lock_mgr_server.c:125-184 | every play keeps: a taken mutex has an owner and, when release lowers the flag, a raised flag has a claim and a parked request waits behind an earlier stamp |
| `Progress.NoWaitCycle` | psu_dist_lock_mgr_server.c:172-184 | no reachable state of any system has a cycle of nodes parked at each other |
| `Progress.ParkedBehindSomeone` | psu_dist_lock_mgr_server.c:172-184 | whoever keeps a request parked claims the lock with an earlier stamp |
| `Progress.LeastIsNotParked` | psu_dist_lock_mgr_server.c:125-184 | the least outstanding request is never parked: it is the holder's or can be taken further |
| `Progress.UnparkedMoves` | psu_dist_lock_mgr_server.c:123-187 | whoever is past the mutex and not parked has a move |
| `Progress.NotStuck` | psu_dist_lock_mgr_server.c:116-187 | while any acquire or release is unfinished, some serving move is possible |
| `Termination.StepMeasure` | psu_dist_lock_mgr_server.c:116-187 | every single action other than a new acquire lowers a measure of the sends, tests, answers and releases to come |
| `Termination.RunIsBounded` | psu_dist_lock_mgr_server.c:116-187 | hence every run without new acquires is finite, within that measure, in every system |
| `Termination.MeasureFalls` | psu_dist_lock_mgr_server.c:125-184 | and every serving move lowers it |
| `Termination.PlayIsBounded` | psu_dist_lock_mgr_server.c:116-187 | a play without new acquires has at most Measure moves |
| `Termination.PlayPending` | psu_dist_lock_mgr_server.c:116-163 | pending acquires turn into entries one for one, and none is lost |
| `Termination.EveryoneServed` | psu_dist_lock_mgr_server.c:116-187 | with a release that lowers the flag, in every system: a play without new acquires is finite, and where it cannot go on every pending acquire has entered exactly once and nothing is left over |
| `AsWritten.NeverServed` | psu_dist_lock_mgr_server.c:125-184 | a request parked at a node that claims nothing earlier is never served, in any continuation, whatever anybody does |
| `AsWritten.ClearedNeverStrands` | psu_dist_lock_mgr_server.c:144-184 | when release lowers the flag, no play strands a request |
| `AsWritten.RestFlags` | psu_dist_lock_mgr_server.c:125-163 | with release as written, at rest a flag is up exactly where the lock has ever been held, and every other clock has seen that node's number |
| `AsWritten.LoneAcquire` | psu_dist_lock_mgr_server.c:125-184 | with release as written, an acquire made at rest with no other around is served if no other node has ever held the lock, and otherwise never enters |
| `AsWritten.OneUserServed` | psu_dist_lock_mgr_server.c:116-187 | with either release and in any system, acquires of a lock that all come from one node are all served |
| `AsWritten.ServedIffOneUser` | psu_dist_lock_mgr_server.c:144-184 | with release as written, every play of acquires by a set of nodes serves them all if and only if the set has at most one node |
| `AsWritten.FinishPlay` | psu_dist_lock_mgr_server.c:116-187 | from every state, serving moves can be made until none is left |
| `AsWritten.StrandingReachable` | psu_dist_lock_mgr_server.c:125-184 | with release as written, in every system of two or more nodes: after one node has held and released, another's acquire is stranded and never enters in any continuation |
| `Interleaved.ClaimsOrGrants` | psu_dist_lock_mgr_server.c:170-174 | after the clock update a node either claims before the request or stands behind it |
| `Interleaved.StrandedByUntimelyPark` | psu_dist_lock_mgr_server.c:172-184 | a request becomes stranded only by being parked at a node that claims nothing before it |
| `Interleaved.RunStranded` | psu_dist_lock_mgr_server.c:116-187 | a run leaves a request stranded if and only if such a park occurred in it |
| `Interleaved.ServedUnlessUntimelyPark` | psu_dist_lock_mgr_server.c:116-187 | any interleaving, both kinds of release: a run that ends where nobody can act has served every acquire exactly once if and only if no such park occurred |
| `Interleaved.ArrivalsConserved` | psu_dist_lock_mgr_server.c:116-163 | every acquire made is still pending or has become exactly one entry |
| `Interleaved.StrandingFreezes` | psu_dist_lock_mgr_server.c:126-184 | a stranded request that every clock has seen leaves at most N - 1 entries by anyone, for ever |
| `Interleaved.FirstUseCanStrand` | psu_dist_lock_mgr_server.c:125-184 | in every system of two or more nodes, before anybody has entered, a request handled between lines 125 and 126 of another acquire is stranded and never served |
| `Interleaved.FinishRun` | psu_dist_lock_mgr_server.c:116-187 | from every state, actions can be taken until nobody can act |
| `Interleaved.RunsServedIffOneUser` | psu_dist_lock_mgr_server.c:116-187 | any interleaving, both kinds of release: every run of acquires by a set of nodes serves them all if and only if the set has at most one node |
| `Systems.WireRoundTrip` | psu_dist_lock_mgr_msg_xdr.c:3-14 | every signed lock number and sequence number and every 64-bit address survive the wire in 16 bytes, whatever follows |
| `Systems.WakesNobodyElse` | psu_dist_lock_mgr_server.c:148-157 | releasing one lock changes no call of another |
| `Systems.StepSimulates` | psu_dist_lock_mgr_server.c:120-187 | every action of the whole system is, in the view of the lock it concerns, the same action of the one-lock protocol, and nothing in any other view |
| `Systems.SystemRefines` | psu_dist_lock_mgr_server.c:39-187 | projecting any run over all locks and encoded messages onto one number gives a run of the one-lock protocol, state for state, in every system |
| `Systems.SystemMutualExclusion` | psu_dist_lock_mgr_server.c:39-187 | mutual exclusion for every lock of the whole system |
| `Systems.WireAlwaysFits` | psu_dist_lock_mgr_server.c:126-136 | with fewer than 2^31 - 1 acquires of a lock, whatever a server has to send about it fits the message |
| `SystemProgress.EnabledLifts` | psu_dist_lock_mgr_server.c:116-187 | what the one-lock protocol can do in a lock's view, the whole system can do |
| `SystemProgress.RunLifts` | psu_dist_lock_mgr_server.c:39-187 | conversely, every run of the one-lock protocol with fewer than 2^31 - 1 acquires is what some run of the whole system shows of the lock |
| `SystemProgress.SystemServed` | psu_dist_lock_mgr_server.c:39-187 | any run of the whole system: where nothing more can happen about a lock, everybody who acquired it has been served exactly once if and only if no untimely park occurred for it |
| `SystemProgress.SystemBounded` | psu_dist_lock_mgr_server.c:39-187 | without new acquires of a lock, the whole system acts on it only finitely often, within the measure |
| `SystemProgress.SystemEntryOrder` | psu_dist_lock_mgr_server.c:39-187 | entries to every lock of the whole system come in stamp order |
| `Server.Waiter.constructor` | psu_dist_lock_mgr_server.c:176-184 | a parked caller sleeps |
| `Server.LockVar.constructor` | psu_dist_lock_mgr_server.c:56-62 | a new record has the given number, both counters zero, flag down, mutex free, nobody parked |
| `Server.LockVar.Handle` | psu_dist_lock_mgr_server.c:170-184 | raises the clock to the caller's number, then appends the caller and puts it to sleep exactly when the protocol defers it |
| `Server.LockVar.Flush` | psu_dist_lock_mgr_server.c:150-157 | wakes everyone on the deferred list and starts an empty one; the flag stays up |
| `Server.LockServer.constructor` | psu_dist_lock_mgr_server.c:28-37 | starts with no nodes, no lock variables, the given address |
| `Server.LockServer.FindLockVar` | psu_dist_lock_mgr_server.c:39-67 | the list refines a map with at most one record per number; a lookup returns that number's record, or appends a fresh one exactly when asked to, and replaces none |
| `Server.LockServer.Init` | psu_dist_lock_mgr_server.c:70-114 | appends to the node list, in order, exactly the names that are not local |
| `Server.LockServer.TakeLocal` | psu_dist_lock_mgr_server.c:116-123 | creates the record if missing; takes the mutex if it is free and otherwise changes nothing |
| `Server.LockServer.Begin` | psu_dist_lock_mgr_server.c:125-126 | raises the flag and numbers the request clock + 1, changing that lock's record only |
| `Server.LockServer.Ask` | psu_dist_lock_mgr_server.c:127-136 | the i-th node is sent this lock's number, this node's sequence number and its address; no record changes |
| `Server.LockServer.Request` | psu_dist_lock_mgr_server.c:166-187 | does to the table what the protocol's handling of the request says, creating the record if missing, and puts the caller to sleep exactly when the protocol defers it |
| `Server.LockServer.Release` | psu_dist_lock_mgr_server.c:144-163 | wakes everyone who sleeps on the lock and nobody else, empties the list, frees the mutex and leaves the flag up |
| `Server.LockServer.OneRecord` | psu_dist_lock_mgr_server.c:148-154 | those who sleep on a lock are those on the list of its one record |
| `Server.TableHas` | psu_dist_lock_mgr_server.c:44-52 | searching a list of distinct numbers finds the map's record |
| `Server.TableUpdate` | psu_dist_lock_mgr_server.c:44-52 | writing one record changes the map at its number only |
| `NodeList.StringBuffer.Grow` | psu_dist_lock_mgr.c:23-24 | one more kilobyte, the text kept |
| `NodeList.StringBuffer.Append` | psu_dist_lock_mgr.c:26-28 | the text is extended by the string, terminator included, inside the buffer |
| `NodeList.StringBuffer.Reserve` | psu_dist_lock_mgr.c:21-25 | the growth loop ends, with exactly as many kilobytes as the text, the next name, a comma and a terminator need |
| `NodeList.StringBuffer.Add` | psu_dist_lock_mgr.c:18-29 | one round of the loop appends the name, and a comma unless it is the last |
| `NodeList.JoinNames` | psu_dist_lock_mgr.c:13-29 | the growth loop ends, text and terminator fit the buffer, its size is the fewest kilobytes that do, and the text is the names separated by commas |
| `NodeList.JoinLength` | psu_dist_lock_mgr.c:26-28 | the text has the characters of the names and one comma between each two, none after the last |
| `NodeList.JoinIsShortest` | psu_dist_lock_mgr.c:18-29 | no shorter text splits into the names, and no other of its length |
| `NodeList.TokensWord` | psu_dist_lock_mgr_server.c:83 | a text without commas is one token, or none if empty |
| `NodeList.TokensAcross` | psu_dist_lock_mgr_server.c:83 | a comma anywhere in any text separates the tokens before it from those after it |
| `NodeList.NextToken` | psu_dist_lock_mgr_server.c:83 | one tokenising step: the next non-empty piece and the text after it |
| `NodeList.IsLocal` | psu_dist_lock_mgr_server.c:86-94 | found exactly when the name is one of the local addresses |
| `NodeList.InitNodes` | psu_dist_lock_mgr_server.c:79-99 | the node list is extended by the names that are not local, in order |
| `NodeList.SplitJoin` | psu_dist_lock_mgr_server.c:79-83 | splitting what the client joined gives the names back, for every list of non-empty comma-free names |
| `NodeList.PrefixIsJoin` | psu_dist_lock_mgr.c:18-29 | the text the loop builds name by name is the comma-separated join |
| `NodeList.KeptHas` | psu_dist_lock_mgr_server.c:95-98 | a name is kept if and only if it was given and is not local |
| `NodeList.KeptOrder` | psu_dist_lock_mgr_server.c:83-99 | the kept names stand in the order given: at strictly increasing places, which are exactly the places of names that are not local |
| `NodeList.KeptDistinct` | psu_dist_lock_mgr_server.c:95-98 | distinct names stay distinct |
| `Mac.PackAddress` | utility.c:87-88 | the shift-or loop yields the bytes as a number, most significant first |
| `Mac.OrDisjoint` | utility.c:88 | or-ing a byte into bits that are still zero adds it |
| `Mac.PackStep` | utility.c:87-88 | one iteration multiplies what is packed by 256 and adds the byte |
| `Mac.GetMacAddress` | utility.c:73-96 | the first interface with a nonzero address decides; zero exactly when there is none |
| `Mac.SelectedAt` | utility.c:81-92 | if interface k has a nonzero address and every earlier one has none or zero, the result is k's six bytes packed |
| `Mac.PackedOrder` | utility.c:87-88 | numeric order is the lexicographic order of the bytes, and packing is injective |
| `Mac.PackedFits` | utility.c:73-88 | a packed address is below 2^48 |
| `Deployment.HardwareSelected` | utility.c:81-92 | the address selected is that of the first interface whose six bytes are not all zero |
| `Deployment.Membership` | psu_dist_lock_mgr_server.c:83-99 | if every server gets the same names and exactly one is local to each, each server's list holds exactly the others, once |
| `Deployment.MembershipExact` | psu_dist_lock_mgr_server.c:83-99 | that list is the given one without the server's own name, in the given order |
| `Deployment.MacsDiffer` | utility.c:73-96 | different selected hardware addresses give different 64-bit tie-breakers |
| `Deployment.DeploymentIsSafe` | psu_dist_lock_mgr_server.c:28-99 | such a deployment meets every premise of mutual exclusion |
| `Deployment.PeersOnce` | psu_dist_lock_mgr_server.c:83-99 | a server's list holds no server twice, and not itself |
| `Deployment.DeployedLostUpdate` | psu_dist_lock_mgr_server.c:28-187 | with the clock update as a read and a write, such a deployment excludes in every run if and only if it has at most two machines |
| `Deployment.DeployedMutualExclusion` | psu_dist_lock_mgr_server.c:28-187 | in such a deployment no lock is ever held twice, in any run of the whole system |
| `Xdr.WordInverse` | psu_thread_msg_xdr.c:50-70 | reading a 4-byte unit undoes writing it; which byte comes first is `Layout.WordIsPacked` |
| `Xdr.TruncatedRefused` | psu_thread_msg_xdr.c:7-175 | every encoding, of any shape, cut short anywhere is refused |
| `Layout.WordIsPacked` | psu_thread_msg_xdr.c:52 | the four bytes of a unit spell its number, most significant first |
| `Layout.FromWordIsPacked` | psu_thread_msg_xdr.c:69 | reading any four bytes gives the number they spell |
| `Layout.WordOrder` | psu_thread_msg_xdr.c:52 | units sort byte by byte as the numbers they carry |
| `Layout.HyperIsPacked` | psu_dist_lock_mgr_msg_xdr.c:11 | the eight bytes of a 64-bit number spell it, most significant first |
| `Layout.ShortLayout` | psu_thread_msg_xdr.c:87-94 | a 16-bit number stands in the last two bytes of its unit, the first two being zero |
| `Layout.IntLayout` | psu_dist_lock_mgr_msg_xdr.c:7-10 | a signed number is spelled modulo 2^32, its sign in the first bit |
| `Layout.OpaqueLayout` | psu_thread_msg_xdr.c:155 | variable-length data is its length, its bytes, and zeros up to the next unit |
| `Layout.UnsignedRead` | psu_thread_msg_xdr.c:3-4 | any four bytes read as an unsigned int are what they spell, and as a 16-bit number what the last two spell |
| `Layout.SignedRead` | psu_thread_msg_xdr.c:153 | any four bytes read as a signed int are the one number of its range they spell modulo 2^32 |
| `Layout.HyperRead` | psu_thread_msg_xdr.c:5 | any eight bytes read as a 64-bit number are what they spell |
| `Layout.OpaqueRead` | psu_thread_msg_xdr.c:155 | padding is skipped whatever it holds |
| `Layout.Ranges` | psu_thread_msg_xdr.c:3-5 | exactly the numbers of each C type, and the lengths below 2^32, have a place on the wire |
| `Layout.ElementPlace` | psu_thread_msg_xdr.c:103-111 | element i of an array stands behind i elements |
| `Layout.FpxRegPlaces` | psu_thread_msg_xdr.c:18-32 | significand, exponent and padding of an x87 register at bytes 0, 16 and 20 |
| `Layout.FpxRegConcat` | psu_thread_msg_xdr.c:18-32 | an x87 register is those three encodings in that order |
| `Layout.FpStatePlaces` | psu_thread_msg_xdr.c:82-113 | the eleven members of a floating-point state at their offsets |
| `Layout.McontextPlaces` | psu_thread_msg_xdr.c:134-147 | registers, floating-point state and reserved words at bytes 0, 184 and 832 |
| `Layout.StackPlaces` | psu_thread_msg_xdr.c:149-158 | the stack flags, then the stack with its length |
| `Layout.ContextPlaces` | psu_thread_msg_xdr.c:160-175 | the five members of a context at their offsets, those after the stack moving with its padded length |
| `Layout.ContextConcat` | psu_thread_msg_xdr.c:160-175 | a context is the encodings of flags, stack, machine context, signal mask and saved floating-point state in that order |
| `Layout.WireLayout` | psu_dist_lock_mgr_msg_xdr.c:3-14 | a request on the wire is the lock number, the sequence number, and the high and low halves of the address, one unit each |
| `Layout.EncodeRequest` | psu_dist_lock_mgr_msg_xdr.c:3-14 | the routine, given the members in the order of the interface file, leaves exactly those bytes in the stream |
| `Layout.DecodeRequest` | psu_dist_lock_mgr_msg_xdr.c:3-14 | and reading them back returns the members in that order |
| `Xdr.RoundTrip` | psu_thread_msg_xdr.c:7-175 | for every shape and value, decoding its encoding followed by any bytes returns the value and leaves exactly those bytes |
| `Xdr.EncodeInjective` | psu_thread_msg_xdr.c:7-175 | equal encodings come from equal values |
| `Xdr.EncodedSize` | psu_thread_msg_xdr.c:3-175 | an encoding's length is the sum over all nested vectors and structures plus the padded variable-length data |
| `Xdr.OpaqueRoundTrip` | psu_thread_msg_xdr.c:155 | variable-length bytes with their padding round-trip at every length below 2^32 |
| `Shapes.ContextSize` | psu_thread_msg_xdr.c:3-175 | every context encodes to 1688 bytes plus its stack length rounded up to a multiple of 4 |
| `Shapes.FpStateSize` | psu_thread_msg_xdr.c:82-113 | a floating-point state takes 648 bytes, each 16-bit field one 4-byte unit |
| `Shapes.McontextSize` | psu_thread_msg_xdr.c:134-147 | a machine context takes 896 bytes |
| `Shapes.ContextDropped` | psu_thread_msg_xdr.c:149-175 | freeing a context gives up its stack and nothing else |
| `Shapes.RequestSize` | psu_dist_lock_mgr_msg_xdr.c:3-14 | every lock request takes 16 bytes |
| `Tapes.FieldsNext` | psu_thread_msg_xdr.c:160-175 | coding one more member in sequence extends the coded part of the structure |
| `Tapes.FieldsStop` | psu_thread_msg_xdr.c:160-175 | a member that fails makes the whole structure fail |
| `Tapes.FieldsEnd` | psu_thread_msg_xdr.c:160-175 | all members done is the structure done, bytes, value and position |
| `XdrStreams.XdrStream.VectorOf` | psu_thread_msg_xdr.c:12-13 | an array routine codes its elements in order and stops at the first failure |
| `XdrStreams.XdrStream.BytesCode` | psu_thread_msg_xdr.c:155 | variable-length bytes: their length, themselves and zeros up to the next unit; freeing gives them up |
| `XdrStreams.XdrStream.Sigset` | psu_thread_msg_xdr.c:7-16 | encodes, decodes or frees a signal mask, failing exactly when room or bytes run out |
| `XdrStreams.XdrStream.FpxReg` | psu_thread_msg_xdr.c:18-32 | the same for an x87 register |
| `XdrStreams.XdrStream.PutInline` | psu_thread_msg_xdr.c:50-53 | the inline encode loop leaves in the reserved space exactly the bytes of the array routine |
| `XdrStreams.XdrStream.GetInline` | psu_thread_msg_xdr.c:67-70 | the inline decode loop reads exactly the values of the array routine |
| `XdrStreams.XdrStream.XmmReg` | psu_thread_msg_xdr.c:34-80 | all three directions: whichever path the transport offers, the register is coded alike, and freeing leaves register and stream as they are |
| `XdrStreams.XdrStream.FpState` | psu_thread_msg_xdr.c:82-113 | codes all eleven members, any mix of paths for the sixteen registers |
| `XdrStreams.XdrStream.Mcontext` | psu_thread_msg_xdr.c:124-147 | encodes, decodes or frees a machine context |
| `XdrStreams.XdrStream.Stack` | psu_thread_msg_xdr.c:149-158 | codes the flags and a stack of any length |
| `XdrStreams.XdrStream.Ucontext` | psu_thread_msg_xdr.c:160-175 | encodes, decodes or frees a whole context |
| `XdrStreams.XdrStream.RequestPack` | psu_dist_lock_mgr_msg_xdr.c:3-14 | encodes, decodes or frees a lock request |
| `XdrStreams.InlineDecode` | psu_thread_msg_xdr.c:58-70 | decoding k units out of 4k bytes taken from the stream is decoding from the stream and advancing by 4k |
| `XdrStreams.PathsAgree` | psu_thread_msg_xdr.c:40-108 | for every object and stream, any two mixes of paths give the same outcome, bytes, value and position |
| `XdrStreams.FreeContext` | psu_thread_msg_xdr.c:160-175 | freeing a context through the routine gives up its stack, whatever its length, and nothing else |
| `XdrStreams.SendContext` | psu_thread_msg_xdr.c:160-175 | a context written to one stream and read from another, whatever follows it, arrives unchanged and leaves what followed; it fails exactly when the writer has too little room |

## Left out

- Interleaving inside list operations: appending with parking, and waking with renewing the list, are single steps; what concurrent appends do to the underlying array is not modelled.
- Progress.NotStuck: stated for handlers that run without interruption (lines 125-126 and 170-184 each one step); under free interleaving it is false, and `Interleaved` states exactly when everybody is served.
- Server.LockServer.Release: requires the lock's record to exist, because the source asserts it; and it runs as one segment.
- Server.LockServer.Begin: the handlers of `Server` are segments up to the point where the source blocks, run one at a time; their interleaving is the subject of `Protocol`.
- Systems.SystemRefines: a request is sent only if it fits the 16-byte message; `Systems.WireAlwaysFits` shows that it does in runs with fewer than 2^31 - 1 acquires of the lock.
- LostUpdate.NoLostUpdateIsSafe: a sufficient condition on the run; the exact condition on the system is `StaleClock.SafeIffTwoNodes`, for node lists as initialisation builds them.
- XdrStreams.XdrStream.Ucontext: freeing is what happens to the value, not to memory; after a failed decode the stream position is left open; room in the output and inline grants are whatever the transport decides; a decoded 16-bit field keeps the low 16 bits of its unit, as the RPC library does.
- XdrStreams.XdrStream.XmmReg: the stream is updated in place, but the coded objects are passed in and returned as values, so aliasing between fields is not captured.
- RPC failure, timeouts, client creation and destruction, service mains, stubs and the dispatcher: delivery is reliable and each request runs on its own thread.
- The client's check of has_initialized (psu_dist_lock_mgr.c:43-63), which only refuses calls before initialisation, and all printing.
- Enumeration of network interfaces and of local addresses: given as inputs.
- Memory allocation and freeing, and failure of either.
- The distributed shared memory manager (psu_dsm_server.c, psu_dsm.c, util.c) and its codec: the directory protocol is unfinished in the source, and the codec would repeat the thread codec.
- Thread migration (psu_thread.c, psu_thread_server.c): saving and restoring machine contexts and raw stack copies are calls into the operating system.
