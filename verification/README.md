# Proofs about the cluster bus, the append-only file, ACLs and the ledger

This project models the parts of the repository whose correctness is hardest
to see: six components of the Redis 6.0.1 sources under `redis-stable/src` and
the ledger of the JavaScript blockchain. `dafny verify dfyconfig.toml` checks it.

| component | files |
|---|---|
| cluster bus: epochs, elections, collisions | `ClusterBus`, `BusNode`, `Failover`, `EpochBound`, `Election`, `ElectionCounterexample`, `EpochCollision` |
| cluster slots: ownership, claims, saved ranges | `SlotTable`, `Convergence`, `SlotText` |
| append-only file: log text, flush, rewrite | `CommandLog`, `DamagedLog`, `AofFlush`, `AofObjects`, `AofSnapshot`, `AofRewrite`, `AofServer` |
| ACL rules, what they permit, their description, saving and loading | `Acl`, `AclChecks`, `AclRoundTrip`, `AclFile`, `AclUsers`, on `Arguments` |
| CRC64 and bit operations | `Crc64`, `Popcount`, `Bitpos`, `Bitop`, `Bitfield`, on `Word64` and `BitString` |
| blocked clients on linked lists | `Blocked`, `WaitingRoom`, `BlockedIndex`, `WaiterList`, `Adlist` |
| blockchain ledger | `Ledger` |

`Decimal`, `Text` and `Arguments` are the C text functions the formats rely on;
`Basics` holds what several modules share.

## How the code is modelled

Code that updates fields is a class (`ClusterNode`, `ClusterState`,
`AppendOnlyFile`, `RewriteBuffer`, the `Server` of `AofServer`, `AclUser`, `List`,
`KeyWaiters`, `LinkedIndex`, the `Server` of `Blocked`, `Blockchain`); loops are
methods with loops. Each method is proved to do what a function or a step of a
state machine says. What that means is said without the function: by clauses on
the fields, and by theorems about the function.

The bus is a state machine over any number of nodes and a bag of packets that
can be delayed, reordered, lost or repeated. Clocks, the failure detector and
random delays only decide whether a step happens, so a step may happen at any
time. Files and pipes are strings; every write may be short or fail. Command
tables, SHA-256, signatures and the time of mining are parameters. The number of
slots is arbitrary.

## What the proofs found

These properties hold only under a condition. Each has the exact condition for
all inputs and an input that violates it.

- Two replicas can win one epoch. A vote that arrives after the counter was
  reset for a new attempt (cluster.c:3107) and before the epoch is raised
  (cluster.c:3168) counts for the new attempt: `Election.StepStaysHonestExactly`,
  `ElectionCounterexample.EarlyVoteElectsTwo`.
- A known config epoch can exceed the node's `currentEpoch`. It happens when an
  UPDATE from a handshake placeholder is obeyed, whose random 160-bit name must
  equal the name of a real node, and when a node that was hard-reset during an
  election later takes over with the forgotten epoch:
  `EpochBound.StepKeepsBoundExactly`, `EpochBound.UnheardUpdateBreaksBound`,
  `EpochBound.HardResetBreaksBound`.
- Slot ownership depends on the order of packets exactly for slots whose
  greatest claimed epoch is shared: `Convergence.ConvergesExactlyWithClearWinner`,
  `Convergence.TieDependsOnOrder`.
- A replica that was given slots with CLUSTER ADDSLOTS fails the assertion of
  `clusterSetMaster` when its master loses its last slot; the outcome `Crashed`
  of `SlotTable.ClusterState.UpdateSlotsConfigWith` says exactly when, and
  `SlotTable.ReplicaWithSlotCrashes` gets there.
- The description of an ACL user restores a user with the ALLCOMMANDS flag even
  if the user had every bit set one by one and not the flag:
  `AclRoundTrip.RestoredExactly`, `AclRoundTrip.FlagNotRestored`.
- A user's line in the ACL file is split back into its words (sds.c:959) exactly
  if the name is not empty and has no space, no name, key pattern or subcommand
  holds a quote of either kind, and no subcommand a space, tab, carriage return
  or line feed. The rules accept such patterns and subcommands. A quote can make
  ACL LOAD reject the whole file: `AclRoundTrip.LineSplitsExactly`,
  `AclFile.QuoteInPattern`, `AclFile.SubcommandBreaksLine`,
  `AclFile.TabInSubcommand`, `AclFile.QuoteLosesFile`. With every word quoted by
  sdscatrepr no condition is needed: `Arguments.QuotedSplits`.
- BITFIELD SET under SAT stores the maximum instead of the minimum for negative
  values of unsigned fields and for very small values of signed ones (there the
  code subtracts with signed overflow, which is taken to wrap):
  `Bitfield.StoredIsIntendedExactly`, `Bitfield.UnsignedSetWrongEnd`,
  `Bitfield.SignedSetWrongEnd`.
- A log that ends inside a command of a transaction is cut behind its MULTI, not
  before it (aof.c:880-911 against aof.c:863-868). What is appended to the file
  afterwards joins the open transaction. It is lost at the next start unless an
  EXEC was appended too, which then runs all of it:
  `CommandLog.TruncatedFileIsCleanExactly`, `CommandLog.OpenFileSwallows`,
  `CommandLog.ExecRunsSwallowed`, `CommandLog.TornTransactionSwallowsNext`.
- The loader cuts off the end of a damaged file exactly if what is left is the
  beginning of some command, or a first line with a zero byte, or if a
  transaction is open; any other damage is refused. A header that is torn behind
  a leading zero of its count is refused as well, though it begins a command:
  `DamagedLog.CutExactly`, `DamagedLog.ZeroByteIsCut`,
  `DamagedLog.LeadingZeroIsRefused`.
- On a big-endian machine the CRC tables come out as zeros, because the
  generator hashes the first byte of an `int` (crcspeed.c:38):
  `Crc64.InitNative`.
- In the ledger a mining call that throws leaves its reward queued. Without
  other chains every later call throws too, so nothing is paid twice; after the
  one adoption of another node's chain that a process makes (FullNode.js:223),
  the reward is: `Ledger.BalancesSumToRewards`, `Ledger.BalancesAfterAdoption`,
  `Ledger.RewardPaidTwice`. A ledger whose blocks are at least 23 milliseconds
  apart starts to throw after 30 blocks: `Ledger.SlowLedgerStops`.

## Model

| member | source | states |
|---|---|---|
| `ClusterBus.NextWellFormed` | redis-stable/src/cluster.c:1677-2140 | Every step of the bus keeps every node in its own table and every known master among the known nodes, so no handler looks up a missing node. |
| `ClusterBus.DeliveryMeans` | redis-stable/src/cluster.c:1677-2140 | A delivery takes one copy of the packet out of the network, changes the receiver only, and puts its vote in exactly if it votes. |
| `BusNode.FailoverIsEnabled` | redis-stable/src/cluster.c:3031-3200 | Whatever the failover handler does, in any state of the cluster and at any time, is a step of the bus machine. |
| `BusNode.ClusterNode.GetMaxEpoch` | redis-stable/src/cluster.c:1010-1023 | The loop returns an upper bound of `currentEpoch` and of all known config epochs that one of them attains. |
| `BusNode.ClusterNode.BumpConfigEpoch` | redis-stable/src/cluster.c:1054-1071 | In place, the bump of the machine. It moves to the next epoch exactly if our epoch is zero or smaller than `currentEpoch` or another known one, and changes nothing else. |
| `BusNode.ClusterNode.HandleConfigEpochCollision` | redis-stable/src/cluster.c:1119-1134 | In place, the collision step: we move to the next epoch exactly if both are masters with one epoch and our ID is the smaller one. |
| `BusNode.ClusterNode.ProcessHeader` | redis-stable/src/cluster.c:1742-1755 | In place: epochs of a known sender never go back and reach the header's, no other node changes; a sender in handshake changes nothing, and its epochs read as zero afterwards. |
| `BusNode.PingMeans` | redis-stable/src/cluster.c:1850-2038 | What a heartbeat does when the slot table does not react: the sender has the role it says, no third node changes, and we move to a new epoch exactly if it is a master with our epoch and a greater ID. |
| `BusNode.UpdateMeans` | redis-stable/src/cluster.c:2112-2133 | What an UPDATE does then: the node's epoch is the greater one, a replica with a newer epoch of its own becomes a master, an UPDATE about us clears our master, and nothing else changes. |
| `BusNode.UpdateThenEffect` | redis-stable/src/cluster.c:2112-2133 | An UPDATE about another node takes effect on the slots exactly if its epoch is newer. |
| `BusNode.HeaderMeans` | redis-stable/src/cluster.c:2329-2378 | A header names its sender and its `currentEpoch`; a replica advertises its master's config epoch, a master its own. |
| `BusNode.MembersMean` | redis-stable/src/cluster.c:1364-1372 | A node that is met is a placeholder in handshake, without slots and epoch, until it is renamed; then it keeps what was known of it; a forgotten node is unknown; nobody else changes. |
| `BusNode.ResetsMean` | redis-stable/src/cluster.c:545-591 | After a reset the node is alone, a master without slots; a hard reset also clears name, epochs and vote. |
| `BusNode.SetConfigEpochMeans` | redis-stable/src/cluster.c:4760-4790 | CLUSTER SET-CONFIG-EPOCH gives this node the epoch; `currentEpoch` is at least that and does not go back. |
| `BusNode.ClusterNode.ProcessPing` | redis-stable/src/cluster.c:1850-2038 | In place, the PING step of the machine: checks that reject the packet leave only the effect of the header; otherwise the collision check follows, for any effect of the slot table in between. |
| `BusNode.ClusterNode.ProcessUpdate` | redis-stable/src/cluster.c:2112-2133 | In place, the UPDATE step of the machine with all its early exits: a slave becomes a master, and an UPDATE about oneself clears one's master. |
| `BusNode.ClusterNode.SendFailoverAuthIfNeeded` | redis-stable/src/cluster.c:2791-2892 | In place, the vote step. A vote is sent exactly if we are a master with slots, the sender is a replica, its epoch is not behind ours, we have not voted in our epoch, and the checks that do not concern epochs permit it; then the epoch is recorded as voted in. |
| `BusNode.ClusterNode.ProcessAck` | redis-stable/src/cluster.c:2087-2099 | In place, the counting step: one vote more exactly if it is from a master with slots and not older than the election. |
| `BusNode.ClusterNode.ProcessPacket` | redis-stable/src/cluster.c:1677-2140 | Handling any packet, also one of the types that act by their header only, is exactly a Deliver step, and the reply is exactly the packet that step sends. |
| `BusNode.ClusterNode.BecomeMaster` | redis-stable/src/cluster.c:3182-3195 | In place: the winner is a master without a master, under the greater of its epoch and the election's. |
| `BusNode.ClusterNode.HandleSlaveFailover` | redis-stable/src/cluster.c:3031-3200 | The handler makes exactly the step `FailoverStep` names, or none. It changes something or asks only if it is a replica of a node with slots and a failover is called for; it asks exactly if no attempt is due, waiting, expired or asked already, under the next epoch; it becomes a master only with more than half of the cluster's votes, after it asked. |
| `Failover.WinElection` | redis-stable/src/cluster.c:3103-3200 | For every replica and every voter: a new attempt, the request, votes of that epoch from more than half of the masters and the next call end with this node a master without a master, under the epoch of the election. |
| `Failover.VoteCounts` | redis-stable/src/cluster.c:2087-2099 | Every vote of the election's epoch from a known master with slots is counted. |
| `Failover.FailoverSucceeds` | redis-stable/src/cluster.c:2791-2892 | On the bus: if more than half of the masters have slots, know the replica and have not voted in its next epoch, then there is a run of attempt, request, votes and takeover that makes it the master. |
| `Election.BackedWinsAgree` | redis-stable/src/cluster.c:2791-2892 | In every run with fixed voters, two wins of one epoch that each counted a majority of votes of that epoch have one winner. |
| `Election.StepStaysHonestExactly` | redis-stable/src/cluster.c:3103-3170 | The counter stays equal to the number of voters who voted in this election if and only if the step does not count a vote before the election has started. |
| `Election.ElectionSafety` | redis-stable/src/cluster.c:2087-2099 | Over every run with fixed voters, restarts from the saved epochs included, and no hard resets, no repeated votes and no vote counted early, no two replicas win the same epoch. |
| `Election.StepKeepsInv` | redis-stable/src/cluster.c:2791-2892 | Every step keeps: one vote per voter and epoch, one ACK per vote, counters made of votes, wins backed by majorities. |
| `Election.RestartStep` | redis-stable/src/cluster.c:139-152 | A restart from a file that holds the epochs and the last vote keeps it too. |
| `Election.RunKeepsInv` | redis-stable/src/cluster.c:3103-3200 | The same over every run. |
| `Election.MajoritiesMeet` | redis-stable/src/cluster.c:3034-3034 | Two sets of voters of the size of the quorum have a common member. |
| `ElectionCounterexample.EarlyVoteElectsTwo` | redis-stable/src/cluster.c:3103-3170 | A run from an initial state, with one master and two replicas, in which both replicas win epoch 2. |
| `EpochBound.StepKeepsBoundExactly` | redis-stable/src/cluster.c:1742-1755 | From any state in which every known epoch, the epoch of a pending election and every epoch in flight is at most the holder's `currentEpoch`, a step keeps that if and only if it is neither of the two exceptions above. |
| `EpochBound.EpochsStayBounded` | redis-stable/src/cluster.c:1119-1128 | Every run without the two exceptions keeps the bound, with loss, repetition, joins, forgetting, restarts, elections and collisions. |
| `EpochBound.BumpYieldsStrictMaximum` | redis-stable/src/cluster.c:1054-1071 | On a bounded view the bump ends in a strict maximum of all known epochs, and declines exactly when the node already holds a maximum. |
| `EpochBound.CollisionYieldsStrictMaximum` | redis-stable/src/cluster.c:1119-1134 | The collision bump always ends in a strict maximum. |
| `EpochBound.UnheardUpdateBreaksBound` | redis-stable/src/cluster.c:2112-2126 | A run from a bounded cluster in which a node obeys an UPDATE from a handshake placeholder and leaves the bound. |
| `EpochBound.HardResetBreaksBound` | redis-stable/src/cluster.c:574-591 | For every node hard-reset during an election with votes, taking over later breaks the bound. |
| `EpochBound.SavedViewRestarts` | redis-stable/src/cluster.c:298-303 | What a node of a bounded cluster holds can be saved and restarted from. |
| `EpochCollision.CollisionsAreFew` | redis-stable/src/cluster.c:1119-1134 | Among n masters with distinct IDs, every run in which nobody but collisions changes epochs makes at most 2^n - 1 - n bumps, under any delay, order, loss or repetition, whatever happens to slots. |
| `EpochCollision.SettledExactlyWhenDistinct` | redis-stable/src/cluster.c:2031-2038 | Masters that know each other stay put on all latest headers if and only if their epochs differ. |
| `EpochCollision.CollisionsResolve` | redis-stable/src/cluster.c:1119-1134 | After every run, if no latest header moves anybody, all epochs differ. |
| `EpochCollision.PingMaster` | redis-stable/src/cluster.c:2031-2038 | What one heartbeat does to a master: whose epoch changes, when, and that it grows. |
| `EpochCollision.HeaderMaster` | redis-stable/src/cluster.c:1742-1755 | Of all packets of masters only an accepted heartbeat of a greater ID with the same epoch moves the receiver. |
| `SlotTable.AddAgrees` | redis-stable/src/cluster.c:3762-3767 | Assigning a free slot keeps: a slot maps to a node exactly when the node's bitmap has the bit, and counters count bits. |
| `SlotTable.DelAgrees` | redis-stable/src/cluster.c:3772-3779 | Freeing a slot keeps the agreement, and the owner's bit was set, so the assertion of clusterDelSlot holds. |
| `SlotTable.ForgetAgrees` | redis-stable/src/cluster.c:947-974 | A node without slots can be removed without breaking the agreement. |
| `SlotTable.NoSlots` | redis-stable/src/cluster.c:3721-3756 | A node's counter is zero exactly when no slot maps to it. |
| `SlotTable.DirtyExactly` | redis-stable/src/cluster.c:1595-1632 | The dirty slots are exactly our slots with keys that the claim takes from us. |
| `SlotTable.ReboundPlainly` | redis-stable/src/cluster.c:1595-1632 | The loop over the slots gives the sender exactly the claimed slots that are not being imported and are free or held under a smaller epoch. |
| `SlotTable.ClusterState.constructor` | redis-stable/src/cluster.c:443-534 | A new node knows itself, owns nothing, and its tables agree. |
| `SlotTable.ClusterState.AddSlot` | redis-stable/src/cluster.c:3762-3767 | Fails exactly for a busy slot; otherwise changes that slot only; tables keep agreeing. |
| `SlotTable.ClusterState.DelSlot` | redis-stable/src/cluster.c:3772-3779 | Frees the slot and lowers exactly the owner's counter; its assertion cannot fail. |
| `SlotTable.ClusterState.DelNodeSlots` | redis-stable/src/cluster.c:3783-3793 | Frees exactly the node's slots and returns their number. |
| `SlotTable.ClusterState.DropSlots` | redis-stable/src/cluster.c:953-960 | Frees the node's slots and ends the imports and migrations that involve it, and nothing else. |
| `SlotTable.ClusterState.DelNode` | redis-stable/src/cluster.c:947-974 | Forgets the node, its slots and its moves; its replicas are left without a master; all other nodes keep roles, epochs and slots. |
| `SlotTable.ClusterState.SetMaster` | redis-stable/src/cluster.c:3989-4005 | Becomes a replica; imports and migrations end only if it was a master. |
| `SlotTable.ClusterState.RebindSlots` | redis-stable/src/cluster.c:1595-1632 | The loop in place: owners, the new master and the dirty slots it reports; roles and epochs stay. |
| `SlotTable.ClusterState.UpdateSlotsConfigWith` | redis-stable/src/cluster.c:1572-1665 | A slot changes its owner exactly if it is claimed, is not being imported, and is free or held under a smaller epoch. We follow the sender or crash exactly if our master (or we) lost its last slot to the claim, and crash exactly if we still own a slot; then roles change only for us. Otherwise the reported dirty slots are exactly ours with keys that were taken. |
| `SlotTable.ClusterState.ReceiveClaim` | redis-stable/src/cluster.c:1970-1985 | The slot part of a PING is the function `HearClaim`; skipping an unchanged bitmap makes no difference; slots that are being imported stay. |
| `SlotTable.ClusterState.ReplaceYourMaster` | redis-stable/src/cluster.c:2993-3009 | A replica becomes a master and takes over exactly its master's slots; a master changes nothing. |
| `SlotTable.ClusterState.Reset` | redis-stable/src/cluster.c:545-591 | Leaves only this node, a master without slots; a hard reset also changes its name and clears its epoch. |
| `SlotTable.ClusterState.ClaimsAreCurrent` | redis-stable/src/cluster.c:2863-2882 | The voter's loop accepts exactly when no claimed slot is held under a greater epoch. |
| `SlotTable.ClusterState.ChangeSlots` | redis-stable/src/cluster.c:4333-4381 | CLUSTER ADDSLOTS and DELSLOTS: refused exactly for a bad, busy, free or repeated slot, then nothing changes; otherwise exactly the listed slots change. |
| `SlotTable.ClusterState.ApplySlots` | redis-stable/src/cluster.c:4366-4379 | The second pass: its assertion cannot fail, imports of changed slots end. |
| `SlotTable.ClusterState.SetSlotNode` | redis-stable/src/cluster.c:4425-4472 | Refused exactly for replicas, unknown nodes and slots that still hold keys; otherwise exactly that slot moves, and a new epoch is due exactly when an import ends. |
| `SlotTable.ClusterState.AddNode` | redis-stable/src/cluster.c:928-934 | A node without slots joins; the tables keep agreeing. |
| `SlotTable.ReplicaWithSlotCrashes` | redis-stable/src/cluster.c:1647-1651 | A replica that owns a slot, made by the commands above, crashes on the claim that takes its master's last slot. |
| `Convergence.ClaimsConverge` | redis-stable/src/cluster.c:1595-1632 | With distinct epochs, once every master was heard, each slot that is not being imported belongs to its claimant of greatest epoch, whatever the order or repetition. |
| `Convergence.ConvergesExactlyWithClearWinner` | redis-stable/src/cluster.c:1595-1632 | A slot that is not being imported ends with the same owner in every order if and only if its greatest claimed epoch has one claimant. |
| `Convergence.TieDependsOnOrder` | redis-stable/src/cluster.c:1595-1632 | Two masters that claim a slot under one epoch: the first heard owns it. |
| `Convergence.OwnerIsFirstGreatest` | redis-stable/src/cluster.c:1970-1985 | After any sequence of claims, a slot that is being imported has its old owner, and any other the first heard among its claimants of greatest epoch. |
| `Convergence.OwnerIsUnique` | redis-stable/src/cluster.c:1595-1632 | That description names one owner. |
| `Convergence.HeardSlot` | redis-stable/src/cluster.c:1970-1985 | What hearing one claim does to one slot. |
| `SlotText.RunsAreApart` | redis-stable/src/cluster.c:4074-4092 | The printed ranges are in order and maximal: no two touch. |
| `SlotText.RunsCover` | redis-stable/src/cluster.c:4074-4092 | They cover exactly the set bits, also for a run that ends at the last slot. |
| `SlotText.PrintSlots` | redis-stable/src/cluster.c:4074-4092 | The printing loop writes exactly those ranges. |
| `SlotText.LoadsRanges` | redis-stable/src/cluster.c:272-285 | Loading ranges gives the node exactly the free slots in them. |
| `SlotText.LoadsExactly` | redis-stable/src/cluster.c:242-286 | Any line: it is refused exactly if a token has a slot out of range; otherwise the node gets exactly the free slots that some range covers. |
| `SlotText.MoveToken` | redis-stable/src/cluster.c:245-258 | The token of a slot on the move is good exactly if there is such a slot. |
| `SlotText.LineRoundTrip` | redis-stable/src/cluster.c:135-286 | A node's line, printed, split as `sdssplitargs` does and parsed, adds exactly its free slots. |
| `SlotText.SaveLoadRestores` | redis-stable/src/cluster.c:4074-4092 | Saving all nodes in any order and loading into an empty table restores the table. |
| `SlotText.AddSlots` | redis-stable/src/cluster.c:285-285 | The loop over one range, in place. |
| `SlotText.LoadLine` | redis-stable/src/cluster.c:242-286 | The loader on one line, in place: what it loads, which lines it refuses, and that tokens of slots on the move assign nothing. |
| `CommandLog.CatCommand` | redis-stable/src/aof.c:522-545 | Appends the array-of-bulk-strings form of the command. |
| `CommandLog.LoadAppendOnlyFile` | redis-stable/src/aof.c:705-923 | The loader's loops compute `Load`: commands run, MULTI queues, the offset the file is cut at, and every error. |
| `CommandLog.LoadCommand` | redis-stable/src/aof.c:774-820 | The reading of one command, with short reads and format errors told apart. |
| `CommandLog.ReadsCommand` | redis-stable/src/aof.c:774-820 | A printed command, with any bytes in its arguments and anything behind it, is read back exactly. |
| `CommandLog.ShortCommand` | redis-stable/src/aof.c:774-820 | A command cut at any byte is a short read, never a format error or another command. |
| `CommandLog.CompleteExactly` | redis-stable/src/aof.c:853-857 | `Complete` is the greatest number of commands whose text fits in the prefix. |
| `CommandLog.PrintLoadRoundTrip` | redis-stable/src/aof.c:522-545 | Loading a printed log of single commands and MULTI/EXEC transactions runs exactly the commands it means, in order, and keeps the file. |
| `CommandLog.TruncatedLoadRunsCompleteCommands` | redis-stable/src/aof.c:831-911 | For every prefix of a log, with MULTI anywhere: which commands run and where the file is cut, for a short read and for an end between commands; without truncated loading, when it is refused. |
| `CommandLog.PlainTruncatedLoad` | redis-stable/src/aof.c:880-911 | Without MULTI exactly the complete commands run and the file is cut at their end. |
| `CommandLog.TruncatedFileIsCleanExactly` | redis-stable/src/aof.c:863-911 | The file left by truncated loading holds whole commands, and ends between transactions if and only if none was open, or the log ended between two commands and its transaction holds no MULTI. |
| `CommandLog.OpenFileSwallows` | redis-stable/src/aof.c:831-868 | What is appended to a file that ends inside a transaction, if no EXEC is among it, does not run when it is loaded again. |
| `CommandLog.ExecRunsSwallowed` | redis-stable/src/aof.c:831-868 | The first EXEC that is appended runs the torn transaction and everything appended before it; the rest of the log is read as usual. |
| `CommandLog.TornTransactionSwallowsNext` | redis-stable/src/aof.c:831-911 | For every transaction torn inside its command and every command appended next: the second load runs nothing and cuts the file to zero. |
| `CommandLog.FeedEntries` | redis-stable/src/aof.c:833-850 | A spelled log leaves no transaction open and runs its commands in order. |
| `CommandLog.MachineNumbersFit` | redis-stable/src/aof.c:763-763 | Every 64-bit length fits the loader's line buffer. |
| `DamagedLog.NoStarIsRefused` | redis-stable/src/aof.c:780-780 | For every log and both settings of truncated loading: if something else than a command follows, the loader exits after running exactly the commands before it, and cuts nothing. |
| `DamagedLog.NoCountIsRefused` | redis-stable/src/aof.c:780-783 | The same for a command that announces fewer than one argument. |
| `DamagedLog.NoDollarIsRefused` | redis-stable/src/aof.c:791-801 | The same for a command with something else in the place of an argument, after any number of good ones. |
| `DamagedLog.NoLengthIsRefused` | redis-stable/src/aof.c:802-812 | The same for an argument of negative length. |
| `DamagedLog.UnknownIsRefused` | redis-stable/src/aof.c:822-829 | The same for a whole command that is not in the table. |
| `DamagedLog.QueuedDiscardEnds` | redis-stable/src/aof.c:836-850 | An EXEC after a DISCARD that was queued, anywhere in an open transaction, ends the process; nothing of the transaction has run. |
| `DamagedLog.PreambleExactly` | redis-stable/src/aof.c:724-741 | A file is taken for empty exactly if it is, and for a snapshot exactly if it starts with `REDIS`. |
| `DamagedLog.EveryFile` | redis-stable/src/aof.c:759-922 | What the loader makes of any text at all: the commands up to the first that cannot be read, is unknown or ends the process run; the file is refused, unless it ends there or what is left is torn and may be cut off; an open transaction is cut before its last MULTI. |
| `DamagedLog.ShortExactly` | redis-stable/src/aof.c:774-820 | A read is short if and only if the text begins some command and the number of arguments can be seen so far, or its first line holds a zero byte and is not finished. |
| `DamagedLog.CutExactly` | redis-stable/src/aof.c:863-911 | Truncated loading cuts something off if and only if the file is whole commands that run, followed by such a torn command or with a transaction open. |
| `DamagedLog.TornLogIsPrefix` | redis-stable/src/aof.c:880-911 | Such a file is a proper prefix of a file of whole commands, or ends inside a transaction, or in a first line with a zero byte. |
| `DamagedLog.ZeroByteIsCut` | redis-stable/src/aof.c:781-781 | A star and a zero byte are cut off, though no command begins so. |
| `DamagedLog.LeadingZeroIsRefused` | redis-stable/src/aof.c:782-783 | A count torn behind a leading zero is refused, though the whole command is accepted. |
| `AofFlush.AppendOnlyFile.Append` | redis-stable/src/aof.c:637-638 | Feeding appends to the buffer only. |
| `AofFlush.AppendOnlyFile.Write` | redis-stable/src/aof.c:300-317 | For any results of write(2), the file grows by exactly the returned prefix of the buffer, or by nothing on an error; if no write fails it is the whole buffer. |
| `AofFlush.AppendOnlyFile.Flush` | redis-stable/src/aof.c:338-494 | For short, failed and complete writes and for successful or failed truncation, file and buffer together stay the same bytes and the recorded size is the file's. A write waits less than two seconds for a background fsync, and otherwise everything is written if no write fails. It exits only under the policy Always. When the file is synced, under each policy: under Always a flush leaves nothing that is not on disk. |
| `AofFlush.AppendOnlyFile.TryFsync` | redis-stable/src/aof.c:455-494 | The synced offset never goes back; under Always it reaches the file's size, every second at most once a second and not during a background fsync, and without fsync it stays. |
| `AofFlush.AppendOnlyFile.Switch` | redis-stable/src/aof.c:1765-1787 | If the rewritten file is a snapshot and all bytes fed since the fork, then so are the new file and buffer: the dropped buffer is not lost. |
| `AofFlush.RunEvents` | redis-stable/src/aof.c:338-494 | Through any sequence of feeds and flushes, file followed by buffer is everything fed, and the recorded size is the file's; under Always, after a flush everything fed is on disk. |
| `AofRewrite.RewriteBuffer.Append` | redis-stable/src/aof.c:125-168 | The blocks together grow by exactly the bytes, and blocks are filled before a new one is allocated. |
| `AofRewrite.RewriteBuffer.SendDiff` | redis-stable/src/aof.c:95-122 | For any partial writes, what was sent followed by what is left is what there was; nothing is sent after the stop, no more than the writes take, something if the first write takes something, and everything if each takes its block. |
| `AofRewrite.RewriteBuffer.WriteAll` | redis-stable/src/aof.c:174-194 | Writes all blocks, or reports failure exactly if a block write is short. |
| `AofRewrite.RewriteBuffer.Reset` | redis-stable/src/aof.c:70-76 | No block is left. |
| `AofRewrite.StepKeepsInv` | redis-stable/src/aof.c:1433-1471 | Every step of parent, child and pipe keeps the fed bytes, in order, across child, pipe and blocks. |
| `AofRewrite.RunKeepsInv` | redis-stable/src/aof.c:1505-1526 | The same over every interleaving. |
| `AofRewrite.RewriteKeepsEverything` | redis-stable/src/aof.c:1677-1787 | Whatever the interleaving of feeds, partial writes, reads and the stop/ack exchange, a completed rewrite is the snapshot followed by every byte fed since the fork, once and in order. |
| `AofRewrite.RewriteCanComplete` | redis-stable/src/aof.c:1433-1526 | However the parts were interleaved so far, a rewrite that is alive can be completed without further feeds, in at most six steps. |
| `AofRewrite.ReplayFed` | redis-stable/src/aof.c:584-648 | Replaying the diff runs every command on its own database, whatever database the snapshot ends with. |
| `AofRewrite.RewrittenFileReplays` | redis-stable/src/aof.c:1621-1625 | Loading the new file runs the snapshot's commands and then every fed command, transactions included, on the database it was meant for. |
| `AofRewrite.SwitchKeepsData` | redis-stable/src/aof.c:1677-1787 | If old log and snapshot rebuild the same data at the fork, old log and new file still do at the switch. |
| `AofServer.Server.Feed` | redis-stable/src/aof.c:584-648 | The text goes to the file's buffer and, during a rewrite, to the diff: both stay what was fed. |
| `AofServer.Server.Fork` | redis-stable/src/aof.c:1588-1630 | A rewrite starts with an empty diff and an unset database, if none is running. |
| `AofServer.Server.SendDiff` | redis-stable/src/aof.c:95-122 | Bytes move from the blocks to the pipe, in order, and nothing else changes; all of them if every write takes its block, none after the stop. |
| `AofServer.ChildDoesTheRest` | redis-stable/src/aof.c:1433-1526 | Every step that completes a rewrite, but the switch, is one of the child or the answer to it. |
| `AofServer.Server.RewriteDone` | redis-stable/src/aof.c:1677-1826 | Switches exactly when the child is done and every write and the rename succeed; then file and buffer are the snapshot and everything fed since the fork, otherwise nothing has changed. |
| `AofServer.DoneIsWhole` | redis-stable/src/aof.c:1699-1704 | The child's file and the blocks not sent to it are the snapshot and everything fed since the fork. |
| `AofServer.RunServer` | redis-stable/src/aof.c:338-494 | Over every sequence of feeds, flushes, forks, partial sends, child steps and rewrite ends, file and buffer hold the last snapshot switched to and everything fed since its fork, once and in order; a fork takes place exactly when no rewrite runs, a switch exactly when the child is done and all writes and the rename succeed. |
| `AofServer.SinceSwitch` | redis-stable/src/aof.c:1765-1787 | What the record of `RunServer` says: the last switch and the fork before it decide, the file is the snapshot of that fork and everything fed since the fork. |
| `AofServer.BeforeSwitch` | redis-stable/src/aof.c:584-648 | Before the first switch it is everything fed. |
| `AofObjects.Rewrite` | redis-stable/src/aof.c:945-975 | The loop with its running count writes exactly the chunked commands, so each header announces the items that follow. |
| `AofObjects.ExecuteChunks` | redis-stable/src/aof.c:945-1145 | Cutting the items into commands of at most 64 makes no difference to what their execution does to the key and the database. |
| `AofObjects.ObjectRebuilt` | redis-stable/src/aof.c:945-1145 | Executing the emitted SET, RPUSH, SADD, ZADD or HMSET commands on an absent key rebuilds the string, list, set, sorted set or hash, of any size and in any iteration order, and touches no other key. |
| `AofObjects.RewriteDatabase` | redis-stable/src/aof.c:1344-1376 | The loop over the keys writes exactly their commands. |
| `AofSnapshot.RewriteAll` | redis-stable/src/aof.c:1313-1376 | The loop over the databases writes exactly a SELECT and the commands of every database that holds something. |
| `AofSnapshot.SnapshotReplays` | redis-stable/src/aof.c:1319-1330 | Replaying the snapshot runs every command on the database it was saved from, whatever database was selected before. |
| `AofSnapshot.SnapshotSurvives` | redis-stable/src/aof.c:1313-1392 | The rewritten text of all databases, loaded and executed on an empty server, rebuilds every object under its key in its database, and nothing else. |
| `AofObjects.ChunkPrintable` | redis-stable/src/server.h:102-102 | No command is without items or has more than 64 of them. |
| `AofObjects.ChunksLoadable` | redis-stable/src/aof.c:945-1145 | The loader accepts every emitted command. |
| `Acl.SetUserKeepsGood` | redis-stable/src/acl.c:717-892 | No rule, valid or not, leads out of the consistent users: bitmap off the table repeats the reserved bit, subcommands only of clear bits, no passwords with nopass, and so on. |
| `Acl.ReachableGood` | redis-stable/src/acl.c:717-892 | So every user made by any list of rules is consistent. |
| `AclChecks.CheckCredentials` | redis-stable/src/acl.c:945-979 | The loop accepts a password exactly if the user is on and needs none, or the hash is listed. |
| `AclChecks.CheckCommand` | redis-stable/src/acl.c:1051-1122 | The loops over subcommands and keys: a command is denied exactly if neither its bit nor its first argument allows it, and otherwise the first key that no pattern matches is denied; AUTH needs no permission. |
| `AclChecks.PasswordRemoved` | redis-stable/src/acl.c:782-800 | `<password` and `!hash`, for every consistent user: that hash is gone, the others stay in order, nothing else changes; it is an error exactly if the hash was not listed. |
| `AclChecks.PasswordAdded` | redis-stable/src/acl.c:751-781 | `>password` and `#hash`: the hash is listed, at the end if it was not; nopass ends, nothing else changes. |
| `AclChecks.AddThenRemove` | redis-stable/src/acl.c:751-800 | Adding a password that was not listed and removing it again leaves the list as it was; in between the password opens the user. |
| `AclChecks.RemovedDoesNotLogIn` | redis-stable/src/acl.c:782-800 | A removed password opens the user no more; every other password does as before. |
| `AclChecks.BadHash` | redis-stable/src/acl.c:755-790 | A hash of the wrong length or, to be added, of other characters is refused. |
| `AclChecks.SwitchRules` | redis-stable/src/acl.c:719-724 | `on` and `off` change that and nothing else. |
| `AclChecks.PasswordWords` | redis-stable/src/acl.c:745-750 | After `nopass` a user that is on accepts every password, after `resetpass` none; nothing else changes. |
| `AclChecks.KeyWords` | redis-stable/src/acl.c:725-732 | After `allkeys` every key may be touched, after `resetkeys` none. |
| `AclChecks.CommandWords` | redis-stable/src/acl.c:733-744 | After `allcommands` every command may be run, after `nocommands` none, not even with a subcommand. |
| `AclChecks.ResetForgets` | redis-stable/src/acl.c:882-886 | `reset` gives the user of creation, whatever rules came before; it is the same as the four rules it applies. |
| `AclChecks.PatternAdded` | redis-stable/src/acl.c:801-817 | `~pattern` adds exactly the keys that match; it is refused exactly for a user with all keys and for a pattern with a space or a zero byte. |
| `AclChecks.CommandSet` | redis-stable/src/acl.c:818-875 | `+command` and `-command` allow and forbid that command with every argument, and no other command changes. |
| `AclChecks.SubcommandAdded` | redis-stable/src/acl.c:827-867 | `+command|subcommand` allows the command with that first argument, in any case, and changes nothing else; it is refused without a subcommand and for a command that is allowed as a whole. |
| `AclChecks.CategorySet` | redis-stable/src/acl.c:876-881 | `+@category` and `-@category` allow and forbid exactly the commands of the category. |
| `AclChecks.UnknownCommand` | redis-stable/src/acl.c:818-875 | A rule for a command that is not in the table is refused. |
| `AclChecks.UnknownCategory` | redis-stable/src/acl.c:876-881 | So is one for an unknown category. |
| `AclChecks.UnknownRule` | redis-stable/src/acl.c:887-890 | And anything that is neither a word nor marked. |
| `AclRoundTrip.DescribeRestores` | redis-stable/src/acl.c:423-567 | Applying a user's description to a new user restores on/off, nopass, passwords, patterns, bitmap and subcommands; the ALLCOMMANDS flag is recomputed from the bitmap. |
| `AclRoundTrip.EveryUserIsRestored` | redis-stable/src/acl.c:523-567 | The same for the user any list of rules makes, over any command table with distinct ids and names. |
| `AclRoundTrip.RestoredExactly` | redis-stable/src/acl.c:523-567 | The whole user comes back if and only if the flag is set or some bit is clear. |
| `AclRoundTrip.FlagNotRestored` | redis-stable/src/acl.c:523-567 | For every command, removing and adding it again gives a user without the flag that is restored with it. |
| `AclRoundTrip.BitmapMatches` | redis-stable/src/acl.c:501-514 | The bitmap the describer predicts is the user's: its panic is unreachable. |
| `AclRoundTrip.LineSplitsExactly` | redis-stable/src/acl.c:1400-1416 | A user's line splits back into its words if and only if the name is a word and no key pattern or subcommand holds a character the splitter acts on. |
| `AclFile.QuoteInPattern` | redis-stable/src/acl.c:804-817 | The rule `~a"b` makes a user whose line has unbalanced quotes, under every name. |
| `AclFile.SubcommandBreaksLine` | redis-stable/src/acl.c:819-868 | Every subcommand with a space, tab, end of line or quote, of every command, makes a user whose line does not split into its words. |
| `AclFile.TabInSubcommand` | redis-stable/src/acl.c:819-868 | A tab does, for one. |
| `AclFile.SaveThenLoad` | redis-stable/src/acl.c:1244-1386 | ACL SAVE and then ACL LOAD restores all users, in any order, if every line splits; ALLCOMMANDS is recomputed. |
| `AclFile.LoadsExactly` | redis-stable/src/acl.c:1260-1386 | ACL LOAD of any text at all: if one line is neither blank nor starts with `user`, a name without spaces and rules that all apply, the users stay as before; otherwise each named user is the one its last line gives, and of the others there is only the default user, as new. |
| `AclFile.DefaultMayAll` | redis-stable/src/acl.c:922-928 | The default user is on, needs no password and may do everything. |
| `AclFile.TrimExactly` | redis-stable/src/acl.c:1286-1286 | Of a line exactly the spaces, tabs and ends of lines at both ends are dropped. |
| `AclFile.UnbalancedFileIsRejected` | redis-stable/src/acl.c:1291-1298 | One line with unbalanced quotes, and the users stay as they were before the load. |
| `AclFile.QuoteLosesFile` | redis-stable/src/acl.c:1291-1298 | The user of that pattern is such a case. |
| `AclFile.Save` | redis-stable/src/acl.c:1392-1416 | The loop over the users writes their lines. |
| `AclFile.TryRules` | redis-stable/src/acl.c:1324-1336 | The fake user meets an error exactly if the rules do not apply cleanly. |
| `AclFile.Load` | redis-stable/src/acl.c:1244-1386 | The loop over the lines, with every error, loads what `LoadUsers` says. |
| `Arguments.GetToken` | redis-stable/src/sds.c:968-1050 | The loop that reads one argument, in and out of both kinds of quotes, with its escapes and errors. |
| `Arguments.SplitLine` | redis-stable/src/sds.c:959-1067 | The splitter computes `SplitArgs`, and fails exactly where that does. |
| `Arguments.ArgsFit` | redis-stable/src/sds.c:959-1067 | The arguments read from a text, joined by spaces, are no longer than the text, and as long only if no quote was opened. |
| `Arguments.SplitsBackExactly` | redis-stable/src/sds.c:959-1067 | Words joined by spaces are split into the same words if and only if none is empty, starts with a space, or holds a quote or a space that ends a word. |
| `Arguments.CatRepr` | redis-stable/src/sds.c:884-907 | The loop quotes a string byte by byte. |
| `Arguments.QuotedSplits` | redis-stable/src/sds.c:951-952 | Any byte strings, quoted and joined by spaces, are split into the same strings. |
| `Arguments.SingleQuotes` | redis-stable/src/sds.c:1011-1025 | A string in single quotes that does not end in a backslash is read as it is if a space or nothing follows, and is an error otherwise. |
| `Arguments.DoubleQuoteNeedsSpace` | redis-stable/src/sds.c:1000-1004 | A closing double quote must be followed by a space or nothing. |
| `Arguments.SingleNeverClosed` | redis-stable/src/sds.c:1020-1022 | A single quote that is never closed is an error. |
| `Arguments.HexDigitsRead` | redis-stable/src/sds.c:911-938 | Hexadecimal digits of either case stand for their value. |
| `AclRoundTrip.CountCategory` | redis-stable/src/acl.c:394-414 | The numbers of commands of a category whose bit is set and clear. |
| `AclRoundTrip.CategoryIsNamed` | redis-stable/src/acl.c:452-467 | The describer names a category exactly if more of its commands differ from the base rule than follow it. |
| `AclRoundTrip.DescribeCategories` | redis-stable/src/acl.c:452-467 | The loop over the categories emits the specified rules while its fake user follows them. |
| `AclRoundTrip.DescribeCommand` | redis-stable/src/acl.c:473-495 | One turn of the loop over the commands. |
| `AclRoundTrip.DescribeFixes` | redis-stable/src/acl.c:469-496 | The loop over the commands. |
| `AclRoundTrip.DescribeCommands` | redis-stable/src/acl.c:423-515 | The whole describer emits the specified rules and never panics. |
| `AclUsers.AclUser.SetCommandBit` | redis-stable/src/acl.c:357-365 | In place, the bit and the flag of the specification. |
| `AclUsers.AclUser.SetBitsForCategory` | redis-stable/src/acl.c:373-388 | The loop over the table, in place. |
| `AclUsers.AclUser.ResetSubcommandsForCommand` | redis-stable/src/acl.c:582-589 | Drops exactly that command's subcommands. |
| `AclUsers.AclUser.AddAllowedSubcommand` | redis-stable/src/acl.c:610-637 | The search and append, in place: no duplicates, order kept. |
| `AclUsers.AclUser.AllowCommand` | redis-stable/src/acl.c:819-868 | Adding a command or one of its subcommands, in place, with all errors leaving the user unchanged. |
| `AclUsers.AclUser.SetMarked` | redis-stable/src/acl.c:751-882 | The rules recognised by their first characters, in place, with all errors; what they change about a user's rights is said by `AclChecks`. |
| `AclUsers.AclUser.SetUser` | redis-stable/src/acl.c:717-892 | The whole interpreter, in place; an error leaves the user as it was. |
| `AclUsers.AclUser.CopyFrom` | redis-stable/src/acl.c:290-311 | The copy equals the source and the source is unchanged. |
| `AclUsers.MakeUser` | redis-stable/src/acl.c:717-892 | Rules applied in place to a new user give the user of the specification, which is consistent. |
| `Crc64.CrcReflect` | redis-stable/src/crc64.c:69-78 | The shifting loop reverses the 64 bits. |
| `Crc64.CrcByte` | redis-stable/src/crc64.c:94-107 | The loop over the bits of one byte is eight division steps on the reflected register. |
| `Crc64.BitwiseCrc` | redis-stable/src/crc64.c:88-111 | The bit-by-bit form started from 0 is the reflected CRC. |
| `Crc64.CrcConcat` | redis-stable/src/crc64.c:88-111 | The CRC of a concatenation continues the CRC of the first part. |
| `Crc64.FillColumn` | redis-stable/src/crcspeed.c:41-48 | The inner loop gives column n the entries of the specification and touches no other. |
| `Crc64.InitTable` | redis-stable/src/crcspeed.c:33-49 | The generator fills table[k][n] from the CRC of the first byte of the int n. |
| `Crc64.SliceBy8Divides` | redis-stable/src/crcspeed.c:122-134 | Eight table lookups, xored, divide a whole word: XOR-linearity of the tables. |
| `Crc64.CrcOfWord` | redis-stable/src/crcspeed.c:122-136 | Feeding eight bytes one by one is feeding them as one word. |
| `Crc64.CrcSpeedLittle` | redis-stable/src/crcspeed.c:111-143 | Slice-by-8 equals the reflected CRC from any start value, for every byte string and start address. |
| `Crc64.InitNative` | redis-stable/src/crcspeed.c:86-94 | The tables of the machine's own generator are right if and only if it is little-endian; on a big-endian one they are all zeros. |
| `Crc64.BigDivides` | redis-stable/src/crcspeed.c:192-204 | The lookups in them divide a byte-reversed word. |
| `Crc64.CrcSpeedBig` | redis-stable/src/crcspeed.c:182-212 | Given byte-reversed tables, the big-endian form computes the same CRC, for every string and address. |
| `Popcount.CountSeven` | redis-stable/src/bitops.c:54-87 | One turn of the 28-byte loop, with 32-bit wrap-around, counts the one bits. |
| `Popcount.RedisPopcount` | redis-stable/src/bitops.c:40-92 | The result is the number of one bits, for every string and start address. |
| `Bitpos.RedisBitpos` | redis-stable/src/bitops.c:101-186 | The result is the least position of the bit (for a zero in all ones, the position after the end; for a one in all zeros, -1), for every string and address; the panic is unreachable. |
| `Bitpos.LoadWord` | redis-stable/src/bitops.c:151-159 | The partial last word is padded with zeros. |
| `Bitpos.ScanWord` | redis-stable/src/bitops.c:166-186 | The scan of one word finds the first matching bit. |
| `Bitpos.WordBit` | redis-stable/src/bitops.c:168-180 | Shifting a mask over the big-endian word visits the bits of the string in order. |
| `Bitop.BitOp` | redis-stable/src/bitops.c:591-766 | The result is as long as the longest source, and each bit is set exactly if it is set in all sources, in some, in an odd number, or not in the only one, with zeros behind short sources, whichever path is taken; NOT of several keys is an error. |
| `Bitop.FoldedBit` | redis-stable/src/bitops.c:731-745 | The fold over the bytes, bit by bit. |
| `Bitop.FastPath` | redis-stable/src/bitops.c:667-729 | The unrolled path computes the fold on the bytes it covers. |
| `Bitop.SlowPath` | redis-stable/src/bitops.c:731-745 | The byte loop completes it. |
| `Bitop.BlockStep` | redis-stable/src/bitops.c:680-690 | Four words combine byte by byte, and nothing else changes. |
| `Bitop.OpBytes` | redis-stable/src/bitops.c:678-727 | A word operation is eight byte operations. |
| `Bitfield.GetUnsigned` | redis-stable/src/bitops.c:229-241 | Reads the number the bits spell. |
| `Bitfield.SetUnsigned` | redis-stable/src/bitops.c:209-222 | Writes the low bits of the value and leaves every other bit alone. |
| `Bitfield.GetSigned` | redis-stable/src/bitops.c:243-263 | Sign extension of what the bits spell. |
| `Bitfield.SetSigned` | redis-stable/src/bitops.c:224-227 | Writes the two's complement of the value. |
| `Bitfield.GetAfterSet` | redis-stable/src/bitops.c:209-241 | Get after set is the value reduced to the width; all other bits are unchanged. |
| `Bitfield.GetAfterSetSigned` | redis-stable/src/bitops.c:224-263 | The same for signed fields; values in range come back unchanged. |
| `Bitfield.UnsignedCheckExact` | redis-stable/src/bitops.c:288-323 | For a value in range the check is nonzero exactly when value plus increment leaves the range; WRAP is congruent, SAT is the nearest bound. |
| `Bitfield.UnsignedSetExact` | redis-stable/src/bitops.c:288-323 | The same for any 64-bit value to be SET. |
| `Bitfield.SignedCheckExact` | redis-stable/src/bitops.c:325-375 | The same for signed fields of 1 to 63 bits, with the differences computed in 64 bits. |
| `Bitfield.SignedSetExact` | redis-stable/src/bitops.c:325-375 | A signed value to be SET is clamped to the right end if and only if its distance to the maximum fits 64 bits. |
| `Bitfield.SignedSetWrongEnd` | redis-stable/src/bitops.c:325-375 | The smallest 64-bit value saturates a signed byte at 127. |
| `Bitfield.StoredIsIntendedExactly` | redis-stable/src/bitops.c:1026-1100 | What the code's checks store is the value, the congruent value or the nearest bound, as WRAP, SAT and FAIL promise, if and only if it is not one of the SETs above; those end at the maximum instead of the minimum. |
| `Bitfield.UnsignedSetWrongEnd` | redis-stable/src/bitops.c:288-323 | -1 stored in an unsigned byte under SAT gives 255. |
| `Bitfield.StoredInRange` | redis-stable/src/bitops.c:288-375 | What is stored fits the field; nothing is stored exactly when FAIL refuses a value out of range. |
| `Bitfield.GetField` | redis-stable/src/bitops.c:1101-1134 | GET through its nine-byte window reads the zero-padded string. |
| `Bitfield.Execute` | redis-stable/src/bitops.c:1026-1100 | SET and INCRBY: the stored field, the reply, and that FAIL and all other bits leave the string unchanged. |
| `Adlist.List.AddNodeHead` | redis-stable/src/adlist.c:88-106 | A new node in front; existing nodes keep their values and order. |
| `Adlist.List.AddNodeTail` | redis-stable/src/adlist.c:114-132 | A new node at the end. |
| `Adlist.List.InsertNode` | redis-stable/src/adlist.c:134-161 | A new node next to the given one, at either side. |
| `Adlist.List.DelNode` | redis-stable/src/adlist.c:167-180 | Exactly that node leaves the chain. |
| `Adlist.List.RotateTailToHead` | redis-stable/src/adlist.c:330-342 | The last node becomes the first; short lists are unchanged. |
| `Adlist.List.RotateHeadToTail` | redis-stable/src/adlist.c:345-357 | The first node becomes the last. |
| `Adlist.List.Join` | redis-stable/src/adlist.c:361-376 | One chain of all nodes, the other list empty. |
| `Adlist.List.SearchKey` | redis-stable/src/adlist.c:290-308 | The first match, or null exactly when there is none. |
| `Adlist.List.Index` | redis-stable/src/adlist.c:315-327 | The node at the index, counting from the tail for negative ones. |
| `Adlist.List.Dup` | redis-stable/src/adlist.c:250-279 | New nodes with the same values in the same order. |
| `Adlist.List.Empty` | redis-stable/src/adlist.c:56-71 | The walk meets no null pointer and releases every node once, in order; no node is left. |
| `WaiterList.KeyWaiters.Add` | redis-stable/src/blocked.c:580-593 | Appending a client to a real list appends a numbered waiter. |
| `WaiterList.KeyWaiters.Remove` | redis-stable/src/blocked.c:612-618 | Deleting the node that is kept elsewhere removes exactly its waiter. |
| `WaiterList.KeyWaiters.Rotate` | redis-stable/src/blocked.c:226-231 | Rotating the list moves its first waiter to the end. |
| `WaiterList.LinkedIndex.Add` | redis-stable/src/blocked.c:566-593 | A client joins the list of a key, which is made if need be, and keeps the new node; all other lists and pointers stay. |
| `WaiterList.LinkedIndex.Leave` | redis-stable/src/blocked.c:612-625 | The client's node leaves the key's list through the kept pointer; an empty list goes; all other lists and pointers stay. |
| `WaiterList.LinkedIndex.Rotate` | redis-stable/src/blocked.c:226-231 | One list turns; no pointer changes. |
| `BlockedIndex.OccursOnce` | redis-stable/src/blocked.c:555-596 | In every consistent index a client lists a key exactly when it is in the key's list, and then once and at the stored node. |
| `BlockedIndex.AddKeepsIndex` | redis-stable/src/blocked.c:555-596 | Appending a client to a list keeps the two-way index. |
| `BlockedIndex.RemoveKeepsIndex` | redis-stable/src/blocked.c:600-634 | Removing it keeps the index and leaves no empty list. |
| `BlockedIndex.RotateKeepsIndex` | redis-stable/src/blocked.c:226-231 | Rotation keeps it too. |
| `Blocked.Server.PointersAreLive` | redis-stable/src/blocked.c:591-593 | On the linked lists: every kept pointer is a node of the key's list that holds the client, and no other node of it does. |
| `Blocked.Server.NodesAreStored` | redis-stable/src/blocked.c:591-593 | And every node of a list is the one its client keeps for the key. |
| `Blocked.Server.BlockForKeys` | redis-stable/src/blocked.c:555-596 | On the linked lists: the client waits at the end of exactly the given keys' lists, once each; other lists are unchanged; nobody is left waiting for an element that is there. |
| `Blocked.Server.UnblockWaitingData` | redis-stable/src/blocked.c:600-634 | On the linked lists: the client leaves exactly its lists through its pointers; the order of the others is kept; the assertion on the list cannot fail. |
| `Blocked.Server.UnblockClient` | redis-stable/src/blocked.c:146-167 | The counter matches the blocked clients and the client is queued for reprocessing once. |
| `Blocked.Server.QueueForReprocessing` | redis-stable/src/blocked.c:135-142 | A client is queued once, however often it is unblocked. |
| `Blocked.Server.SignalKeyAsReady` | redis-stable/src/blocked.c:643-664 | A key becomes ready once, and only if clients wait for it; list and dictionary agree. |
| `Blocked.Server.Push` | redis-stable/src/t_list.c:197-224 | Refused exactly for a key of another type; otherwise the elements are added, and a list that is new and waited for becomes ready, so nobody is left waiting for it unnoticed. |
| `Blocked.Server.BlockingPop` | redis-stable/src/t_list.c:679-733 | Pops one element from the first list that is there, stops at a key of another type, or waits for exactly the given keys; in a transaction it does not wait; what it does not touch is unchanged. |
| `Blocked.Server.ServeOne` | redis-stable/src/blocked.c:234-258 | Serving one client unblocks it alone; its element is gone, moved to the target, which may become ready, or put back if the target holds something else. |
| `Blocked.Server.Deliver` | redis-stable/src/t_list.c:649-672 | The element for the target of BRPOPLPUSH: one more element there, or back where it was if the target holds something else. |
| `Blocked.Server.ServeFirst` | redis-stable/src/blocked.c:223-258 | One turn of the loop: the first client is served, turned to the end if it waits for something else, or left if there is no element. |
| `Blocked.Server.ServeListKey` | redis-stable/src/blocked.c:214-267 | Those served, followed by the list clients that still wait, are the list clients that waited, in blocking order; one still waits only if the list ran empty and is deleted; the others keep their keys. |
| `Blocked.Server.HandleClientsBlockedOnKeys` | redis-stable/src/blocked.c:473-526 | Ends although serving may make keys ready; then no key is ready, no list is empty, and no client waits for an element of a list that is there. Only clients that wait for lists are released, in the order they came, and the first clients of each list are released as far as its elements go. |
| `Blocked.Server.WaitsForAny` | redis-stable/src/t_list.c:679-733 | A client that blocks on any keys, at one of which no list client waits, is free again after elements are pushed there and the ready keys are handled. |
| `WaitingRoom.WithinStockIsServed` | redis-stable/src/blocked.c:214-267 | In every history of serving that is settled in the end, each client that stood within the number of elements of some key was served, by that key or another. |
| `WaitingRoom.ServedInOrder` | redis-stable/src/blocked.c:214-267 | Whoever is served from a key is served after everybody who stood before it in that key's queue. |
| `WaitingRoom.ServedOnce` | redis-stable/src/blocked.c:234-258 | Nobody is served twice. |
| `WaitingRoom.ElementsAreKept` | redis-stable/src/blocked.c:234-258 | No element is lost or made: the elements left and those carried away by clients are as many as there were. |
| `WaitingRoom.WhoIsFree` | redis-stable/src/blocked.c:473-526 | At the end only list clients are free that were not before, and all that stood within the number of elements of a key are. |
| `Ledger.ChainStaysValid` | Blockchain.js:209-261 | isChainValid holds after every run of additions and mining calls on a new ledger, with the difficulty the chain asks for. |
| `Ledger.ChainVerdictExactly` | Blockchain.js:209-261 | isChainValid holds for exactly the chains whose blocks all link to the one before; a missing signature makes it throw. |
| `Ledger.RunIsPaced` | Blockchain.js:23-65 | The difficulty of every block after every run: it starts at one, every tenth block after the twentieth moves it by at most one by the time the blocks before took, and any other block takes it over, with one for zero. |
| `Ledger.DifficultyIsBounded` | Blockchain.js:23-65 | So it is never negative in a block, and at most one and a tenth of the block's number. |
| `Ledger.TotalPaid` | Blockchain.js:145-163 | Balances over all addresses grow by 100 for every reward that reaches the chain; transfers cancel out. |
| `Ledger.BalancesSumToRewards` | Blockchain.js:91-134 | From a new ledger, additions and mining calls, throwing or not, leave balances that sum to 100 per block that rewards somebody. |
| `Ledger.ThrowingIsForGood` | Blockchain.js:23-65 | Once a mining call throws, every later one does, until another chain is adopted. |
| `Ledger.BalancesAfterAdoption` | FullNode.js:204-223 | From any chain and queue, the balances grow by 100 per such block if and only if no reward was queued or no block is mined. |
| `Ledger.RewardPaidTwice` | FullNode.js:217-223 | A ledger mines 30 slow blocks, throws, adopts the longer chain of a ledger that was mined faster, and mines a block that pays two rewards. |
| `Ledger.SlowLedgerStops` | Blockchain.js:23-65 | A ledger whose blocks are at least 23 milliseconds apart mines at most 30; then its difficulty is negative and mining throws. |
| `Ledger.Blockchain.AddTransaction` | Blockchain.js:192-207 | Throws and changes nothing exactly if an address is missing or empty, the signature is missing or it does not verify; otherwise the transaction is queued. |
| `Ledger.Blockchain.MineBlock` | Block.js:48-63 | Finds the first nonce whose hash matches the difficulty. |
| `Ledger.Blockchain.MinePendingTransactions` | Blockchain.js:91-134 | In place, on any chain, adopted ones included: the mining step of the machine, or the throwing one exactly when the difficulty is negative or cannot be computed. The new block links to the last, holds the queue and the reward, and its hash has the zeros it needs; a valid chain stays valid. |
| `Ledger.Blockchain.GetBalanceOfAddress` | Blockchain.js:145-163 | The loops add up what came in and went out. |
| `Ledger.Blockchain.IsChainValid` | Blockchain.js:209-261 | The loop returns or throws as `ChainVerdict` says; it holds exactly if every block's transactions are valid, its hash is that of its contents, and it names the hash of the block before. |
| `Ledger.Blockchain.HasValidTransactions` | Block.js:68-76 | Holds exactly if every transaction has no sender or is signed and verifies; otherwise the first that does not decides, and throws exactly if it has no signature. |

## Left out

- ClusterBus: the failure detector, gossip, timing and replica migration are any-time steps; that an election can succeed is stated, that it eventually does is not.
- ClusterBus: epochs are unbounded naturals, not 64-bit words.
- Election.ElectionSafety: assumes that the masters that vote do not change, that nobody is hard-reset or restarts from a file without its last vote (such a voter may vote twice) and that no vote packet arrives twice.
- EpochCollision.CollisionsAreFew: a master's table is taken to hold only masters, as in a cluster without replicas.
- SlotTable.ClusterState.SetSlotNode: reports that an import ended; the epoch bump itself is `BusNode.ClusterNode.BumpConfigEpoch`; MIGRATING, IMPORTING and STABLE only set one entry and are not modelled.
- SlotText.LoadLine: the imports and migrations that `[slot->-node]` tokens restore, and the fields before the slots.
- CommandLog.LoadAppendOnlyFile: RDB preambles, WATCH and the replies of commands; a queued DISCARD, which the server never logs, ends the process; `atoi` overflow does not arise because lengths are bounded.
- AofFlush: the clock is a parameter; fsync has no effect on contents.
- AofServer: turning the append-only file on and off at run time, and the child's failures, which leave the old file alone.
- AofRewrite: EXPIRE and SETEX translation in feedAppendOnlyFile; a failing child or pipe only means that no result is produced.
- AofObjects.Rewrite: integers and scores are given as the text the source prints; streams, module types and expire times.
- Acl: command renaming, module commands and the 64-bit-word layout of the bitmap.
- AclFile.SaveThenLoad: one way only; the rules read from a line that does not split may by chance make the same user, and the exact condition is stated for the split, not for the users.
- AclFile.Load: the file is text without zero bytes; users are values, not changed in place; reading, writing and renaming files.
- AclUsers.AclUser.CopyFrom: requires a source user that rules can produce.
- Crc64: CRC16 and the 16-bit big-endian form.
- Bitfield.SignedCheckExact: fields of 64 bits, for which the source shifts by the whole word.
- Bitop.BitOp: storing the result and keyspace events.
- Adlist: iterators as objects, and the user's dup, free and match callbacks.
- Blocked: one database; sorted-set, stream and module waiters are only rotated past; values are list lengths; keys of other types do not change; timeouts.
- Ledger: amounts are reals, SHA-256 and signatures are arbitrary functions, and transactions are not changed after they are added.
- HTTP, MongoDB and demo scripts, CONFIG, MIGRATE, DUMP and RESTORE.
