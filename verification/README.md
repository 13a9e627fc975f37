# Redis 3.0.2, modelled and proved in Dafny

The repository carries the Redis 3.0.2 sources under `redis-stable/src`. This
project models the parts of them whose correctness is not visible from any
single function, and proves what those parts are for:

* **The cluster control plane** (`cluster.c`). `FailoverAuth` and `Election`
  are failover elections, from the two handlers to whole runs of slaves,
  masters and a network. `ConfigEpochs`, `EpochCollision` and `EpochOrder` are
  the epochs: who may raise one, when collisions end, what order always holds.
  `SlotIndex` is the slot table with the nodes' bitmaps (`ClusterNodes`,
  `Bitmap`), `SlotConvergence` what the owners of slots become under claims in
  any order, `NodeTable` the printing and loading of slots and epochs.
  `SlotAgreement` puts elections and collisions together with slots.
* **The append only file** (`aof.c`). `AofLog` is the text: printer, reader and
  what any prefix of a log loads as. `AofSyntax` describes the texts that are
  read as commands by what is in them, and `AofLoader` is the loader, with what
  becomes of files cut short or damaged. `AofFlush` is the write path with short
  writes, `AofSync` what the fsync policies keep; `RewriteBuffer` and
  `AofRewrite` are the rewrite with its child process, which `RewriteSteps`
  connects; `ChunkedRewrite` writes collections out again and `Snapshot` the
  whole dataset, to be rebuilt by the commands of `DataTypes` under their
  documented names. `Persistence` is all of it
  together, over runs in which rewrites replace the file (`Replay` is what
  running commands means, `Datasets` that every dataset has a snapshot).
* **Bit algorithms** (`bitops.c`, `crc64.c`, `crc16.c`). `Popcount`
  (`WordCounters`), `Bitpos` and `Bitop` are word-at-a-time code against a
  per-bit meaning. `Crc64`, `Crc16`, `KeySlot` and `DumpPayload` are table
  driven checksums against polynomial division (`BinaryPolynomial`,
  `BitOrder`), and what the checksum detects.
* **Background jobs** (`bio.c`, `adlist.c`). `AdList` is the linked list on
  mutable nodes, `Bio` the queue between any number of producers and a worker.

Code that changes fields in place is a class whose methods are proved against
functions or predicates on values; runs of several nodes, processes or threads
are state machines over those functions. `Bytes`, `Decimal`, `Option` and
`SetFacts` are shared.

## Findings

The model follows the code. In two places the code does not do what its own
comment says.

* *One winner per election epoch* (cluster.c:991-993 says that two slaves cannot
  get the same epoch in an election). The vote counter is zeroed when an
  election is scheduled (cluster.c:2757), but the epoch an ack is compared with
  changes only when votes are asked for (cluster.c:2818), and the comparison is
  `>=` (cluster.c:1916). An ack of the previous attempt that arrives in between
  is counted for the next one. With m masters, two slaves can win the same epoch
  exactly when at least 2(m/2 + 1) - m such acks are counted: one for odd m, two
  for even m (`Election.TwoWinnersExactlyWhen`; the runs are two CLUSTER
  FAILOVER FORCE, so they exist for every m). With none there is one winner
  (`Election.OneWinnerPerEpoch`).
* *clusterDelNodeSlots* returns the number of slots there are rather than, as
  its comment says, of those deleted (cluster.c:3361-3369).

Four results hold under a condition that the code does not check.

* *Slot ownership* does not follow from the claims alone. A node that the
  receiver knows under an epoch as great as that of the greatest claimant keeps
  a slot it has, or gets first; `SlotConvergence.AlwaysWinsExactlyWhen` is the
  exact condition. A slot given up by CLUSTER DELSLOTS on the old owner and
  taken by CLUSTER ADDSLOTS on a node with a smaller configEpoch is such a case,
  since neither command makes a new epoch (`SlotConvergence.ClaimantCanLose`).
* *The assertion in clusterSetMaster* fails exactly when the slave to be
  reconfigured owns slots, which CLUSTER ADDSLOTS lets it
  (`SlotIndex.SlotTable.UpdateSlotsConfigWith`, and `SlotIndex.AssertionCanFail`
  for such a run). The same function takes for granted that a slave knows its
  master. Every operation modelled keeps that so (`Follows`), CLUSTER FORGET
  because it refuses the master; a nodes.conf that does not name the master of
  a slave is the only other way the model knows of, and is outside it.
* *A rewritten file* is complete exactly when the child's last read emptied the
  pipe (`AofRewrite.InstalledExactlyWhen`). The loop that reads it
  (aof.c:1006-1010, called at aof.c:1147) stops at the first read that returns
  no bytes and does not look at the reason: `AofRewrite.InterruptedReadLoses` is
  a run in which that is not an empty pipe. Where a non-blocking read of a pipe
  that holds data always returns some of it, there is no such run, and
  `AofRewrite.RewriteLosesNothing` and `Persistence.EveryCommandIsKept` apply.
* *The last write under everysec.* The time of the last fsync moves on even
  where one still pending keeps the new one from being started (aof.c:428-431),
  and a flush with nothing in the buffer does nothing (aof.c:278). What a flush
  has written is therefore covered by an fsync asked for then, or by any flush
  before more is fed, exactly if the second is a new one, none is pending and
  none is forbidden (`AofSync.WrittenIsCoveredExactlyWhen`); in the run of
  `AofSync.StaysUnsynced` none is ever asked for, however long nothing is fed,
  where redis.conf:493-494 speaks of one second of writes. Under "always" there
  is no such gap (`AofSync.FlushedIsSynced`).

## Model

| member | source | states |
|---|---|---|
| FailoverAuth.DataIsTooOld | redis-stable/src/cluster.c:2730-2749 | although the node timeout is taken off only from ages above it, data is too old exactly when its whole age exceeds the ping period plus one more timeout than the validity factor says, and never with a factor of 0 |
| FailoverAuth.SchedulesExactlyWhen | redis-stable/src/cluster.c:2710-2781 | an election is scheduled if and only if a slave whose master has slots and has failed, or that was told to take over, has data fresh enough or was told to, and the last attempt is more than twice the timeout old |
| FailoverAuth.AsksExactlyWhen | redis-stable/src/cluster.c:2803-2826 | votes are asked for if and only if such a slave has an election scheduled, its time has come, the timeout has not passed and none have been asked for |
| FailoverAuth.WinsExactlyWhen | redis-stable/src/cluster.c:2803-2847 | an election is won if and only if such a slave has asked, the timeout has not passed and the counter has reached a majority of the masters with slots |
| FailoverAuth.OnlyFreshDataActs | redis-stable/src/cluster.c:2737-2749 | scheduling, asking and winning all imply a manual failover, a validity factor of 0 or data within the limit; and with those a slave is scheduled once the retry time has passed |
| FailoverAuth.WhatFailoverLeaves | redis-stable/src/cluster.c:2684-2849 | every field a call leaves, by its outcome |
| FailoverAuth.VotesFarApart | redis-stable/src/cluster.c:2480-2548 | over any sequence of requests a master that votes twice does so in increasing epochs, and for slaves of the same master at least twice the node timeout apart |
| FailoverAuth.ActsWithinTimeout | redis-stable/src/cluster.c:2803-2848 | votes are asked for and elections won only from the scheduled time on and before the timeout, by an eligible slave; the quorum test looks at an election whose votes have been asked for |
| FailoverAuth.ElectionDelay | redis-stable/src/cluster.c:2751-2807 | however many calls lie between, an election that is not manual asks for votes no sooner than 500 ms after it was scheduled, plus a second for every better replica counted then or by any later call that looked |
| FailoverAuth.Elections.ClaimsAreCurrent | redis-stable/src/cluster.c:2523-2540 | true exactly when no claimed slot has an owner with a configEpoch above that of the request |
| FailoverAuth.Elections.SendFailoverAuthIfNeeded | redis-stable/src/cluster.c:2448-2548 | granted exactly by a master with slots, to a slave of a failed or overruled master, in a current epoch not yet voted in, long enough after the last vote for that master, with no newer claim to a slot; the vote is recorded even if the ack cannot be sent, and the ack carries the epoch voted in |
| FailoverAuth.Elections.ReceiveAuthAck | redis-stable/src/cluster.c:1910-1922 | the counter goes up exactly for an ack of a master with slots whose epoch is not below failover_auth_epoch |
| FailoverAuth.Elections.ScheduleElection | redis-stable/src/cluster.c:2754-2769 | counter zeroed, attempt unsent, rank and delay set, epochs untouched |
| FailoverAuth.Elections.HandleSlaveFailover | redis-stable/src/cluster.c:2684-2849 | the outcome is one of these cases and the fields are left as it says, over any sequence of which the delay, timeout and election properties hold |
| Election.FailoverEffect | redis-stable/src/cluster.c:2751-2848 | of all outcomes only scheduling zeroes the counter and only asking changes the epochs, giving the next currentEpoch as failover_auth_epoch; winning needs the quorum |
| Election.StepKeeps | redis-stable/src/cluster.c:2448-2548 | every step keeps: at most one vote per master and epoch, lastVoteEpoch and failover_auth_epoch at most currentEpoch, and a counter that is the number of voters heard plus the acks counted too early |
| Election.RivalsNeedStaleAcks | redis-stable/src/cluster.c:1910-1922 | two different winners of one epoch need as many voters of that epoch as both quorums together, less the acks counted before votes were asked for |
| Election.OneWinnerPerEpoch | redis-stable/src/cluster.c:2684-2849 | in every run with fixed masters in which no ack arrives between scheduling and asking, all winners of one epoch are the same slave |
| Election.TwoWinners | redis-stable/src/cluster.c:2753-2758 | for every number of masters there is a run in which just enough early acks give one epoch two winners |
| Election.TwoWinnersExactlyWhen | redis-stable/src/cluster.c:1910-1922 | with at most k early acks an epoch can have two winners if and only if k is at least twice the quorum less the number of masters |
| ConfigEpochs.EpochTable.GetMaxEpoch | redis-stable/src/cluster.c:922-935 | the greatest of currentEpoch and all known configEpochs |
| ConfigEpochs.EpochTable.CoverOnLoad | redis-stable/src/cluster.c:269-274 | currentEpoch becomes the least number not below what it was and any configEpoch in the table |
| ConfigEpochs.BumpMakesGreatest | redis-stable/src/cluster.c:966-983 | where no configEpoch is above currentEpoch, a bump leaves the node with a positive configEpoch that is currentEpoch and not below any in the table; nothing changes if and only if that was so before, and otherwise the epoch is above every number known before |
| ConfigEpochs.EpochTable.BumpConfigEpochWithoutConsensus | redis-stable/src/cluster.c:966-983 | a new epoch is taken exactly when the node's own is 0 or not the greatest number it knows of, and this is reported |
| ConfigEpochs.EpochTable.HandleConfigEpochCollision | redis-stable/src/cluster.c:1031-1046 | only a master that finds its epoch equal to that of a master with a greater ID takes currentEpoch + 1, and nothing else changes |
| ConfigEpochs.EpochTable.ProcessHeader | redis-stable/src/cluster.c:1583-1595 | a header of a known node raises currentEpoch and that node's configEpoch, never lowers them, and touches no other node |
| ConfigEpochs.EpochTable.ProcessPing | redis-stable/src/cluster.c:1854-1861 | header first; between two masters the one with the smaller ID takes a new epoch when the other reports its own |
| ConfigEpochs.EpochTable.ProcessUpdate | redis-stable/src/cluster.c:1935-1949 | header first; if both nodes are known the reported node is afterwards not behind the reported epoch, and nothing but that epoch or a header has moved it |
| EpochCollision.ReceiveEffect | redis-stable/src/cluster.c:1031-1046 | a packet changes a node's own epoch only if it came from a greater ID with that same epoch, and then to a currentEpoch above the old one |
| EpochCollision.StepKeeps | redis-stable/src/cluster.c:1031-1046 | every configEpoch a node has left was at some time that of a greater ID; epochs only grow; what others know of a node is not newer than the node |
| EpochCollision.UsedBound | redis-stable/src/cluster.c:1020-1030 | the k greatest IDs have between them never had more than k different configEpochs |
| EpochCollision.MovesInAnyRun | redis-stable/src/cluster.c:1020-1046 | under any delay, loss and repetition a master moves at most once for every greater ID |
| EpochCollision.CollisionsEnd | redis-stable/src/cluster.c:1010-1030 | a run of any length among n masters has at most n(n - 1)/2 moves |
| EpochCollision.EveryNodeCanMoveItsRank | redis-stable/src/cluster.c:1031-1046 | for every number of masters some run moves each exactly as often as it has greater IDs above it |
| EpochCollision.QuietPingsMeanDistinct | redis-stable/src/cluster.c:1854-1861 | once every pair has exchanged a fresh ping with no move, all configEpochs are different |
| EpochCollision.CollisionsResolve | redis-stable/src/cluster.c:1016-1030 | of any number of rounds in which every pair of n masters exchanges fresh pings, at most n(n - 1)/2 end with two configEpochs equal |
| EpochCollision.EventuallyDistinct | redis-stable/src/cluster.c:1026-1030 | so within n(n - 1)/2 + 1 such rounds all configEpochs are different |
| EpochOrder.LoadCovers | redis-stable/src/cluster.c:269-274 | after loading, no configEpoch in the table is above currentEpoch, which is changed only if one was |
| EpochOrder.StepKeeps | redis-stable/src/cluster.c:1583-1595 | each rule that changes an epoch keeps all tables and packets ordered and no currentEpoch falls |
| EpochOrder.EpochsStayOrdered | redis-stable/src/cluster.c:2127-2129 | over every run no currentEpoch decreases or is below a configEpoch in its table, and no header or UPDATE in flight carries an epoch above its currentEpoch |
| EpochOrder.BumpInAnyRun | redis-stable/src/cluster.c:966-983 | so in every state of every run a bump makes the node's configEpoch the greatest number it knows of |
| EpochOrder.UpdateKeepsExactlyWhen | redis-stable/src/cluster.c:1935-1949 | an UPDATE keeps the order if and only if its sender is out of handshake or the reported epoch is not above currentEpoch |
| EpochOrder.NoPacketFromHandshake | redis-stable/src/cluster.c:1274-1278 | that the random name of a node in handshake is no name of the cluster is assumed when the node is added; every run keeps it, so no packet is from a sender the receiver holds in handshake |
| Bitmap.BitOfByte | redis-stable/src/cluster.c:3297-3301 | a bit is the one its number says, eight to a byte, the lowest first |
| Bitmap.SetBitEffect | redis-stable/src/cluster.c:3304-3308 | setting a bit sets that bit and leaves all others |
| Bitmap.ClearBitEffect | redis-stable/src/cluster.c:3311-3315 | clearing a bit clears that bit and leaves all others |
| SlotIndex.SlotTable.SetSlotBit | redis-stable/src/cluster.c:3318-3323 | the old bit is returned and numslots counts a new one |
| SlotIndex.SlotTable.ClearSlotBit | redis-stable/src/cluster.c:3326-3331 | the old bit is returned and numslots drops if it was set |
| SlotIndex.SlotTable.AddSlot | redis-stable/src/cluster.c:3342-3347 | fails and changes nothing on an owned slot, else binds it; table, bitmaps and numslots stay in agreement |
| SlotIndex.SlotTable.DelSlot | redis-stable/src/cluster.c:3352-3359 | frees an owned slot; its assertion holds in every reachable state because the owner's bit is set |
| SlotIndex.SlotTable.DelNodeSlots | redis-stable/src/cluster.c:3363-3371 | exactly the node's slots are freed; the value returned is the number of all slots |
| SlotIndex.SlotTable.ReleaseSlot | redis-stable/src/cluster.c:865-872 | one turn of the loop in clusterDelNode frees the slot and its open states if they are the node's |
| SlotIndex.SlotTable.DelNode | redis-stable/src/cluster.c:859-886 | the node's slots and open slots are released, it leaves the table, and no slot still points at it |
| SlotIndex.SlotTable.AddNode | redis-stable/src/cluster.c:840-846 | a node joins with no slots and the agreement is kept |
| SlotIndex.SlotTable.Forget | redis-stable/src/cluster.c:4085-4103 | refused for this node and for its master; otherwise the node and its slots are gone, and a slave still knows its master |
| SlotIndex.SlotTable.Replicate | redis-stable/src/cluster.c:4104-4140 | refused, done, or failing the assertion in clusterSetMaster, each exactly when it should |
| SlotIndex.SlotTable.ReplaceYourMaster | redis-stable/src/cluster.c:2646-2674 | a slave with a master becomes a master that owns exactly its master's slots besides its own; otherwise nothing changes |
| SlotIndex.SlotTable.RebindSlots | redis-stable/src/cluster.c:1453-1490 | exactly the claimed slots that are not the claimant's, not importing, and free or under a smaller epoch change hands; losses of curmaster and slots with keys are reported exactly |
| SlotIndex.ReboundExactlyWhen | redis-stable/src/cluster.c:1453-1490 | a scan changes a slot if and only if it is claimed, not being imported here, not the claimant's, and free or held under a smaller epoch |
| SlotIndex.SlotTable.SetMaster | redis-stable/src/cluster.c:3562-3578 | the node becomes a slave of the given one; a former master's open slots are closed |
| SlotIndex.SlotTable.UpdateSlotsConfigWith | redis-stable/src/cluster.c:1430-1518 | the new table; reconfiguration exactly when curmaster lost slots and is left with none; the exact conditions of the NULL dereference and of the failing assertion; the slots whose keys are deleted |
| SlotIndex.AssertionCanFail | redis-stable/src/cluster.c:3562-3564 | a run of REPLICATE, ADDSLOTS and one claim that ends in the failing assertion |
| SlotIndex.SlotTable.CheckSlots | redis-stable/src/cluster.c:3855-3878 | the arguments pass exactly when all are slots, none twice, each assigned for DELSLOTS and free for ADDSLOTS |
| SlotIndex.SlotTable.AddOrDelSlots | redis-stable/src/cluster.c:3846-3895 | all the slots or none are changed, importing states cleared, and the assertion on the return value holds |
| SlotIndex.SlotTable.SetSlotNode | redis-stable/src/cluster.c:3933-3980 | refused exactly when the node would give away a slot with keys; otherwise the slot moves, and closing an import asks for a new epoch |
| SlotIndex.NumslotsCountsBits | redis-stable/src/cluster.c:3318-3331 | numslots is the number of bits set in the node's bitmap |
| SlotConvergence.SkippingChangesNothing | redis-stable/src/cluster.c:1796-1808 | the scan skipped when the bitmaps match would have changed nothing |
| SlotConvergence.ReplacedOnlyByGreater | redis-stable/src/cluster.c:1464-1488 | an owner is only ever replaced by the claimant, under a strictly greater epoch |
| SlotConvergence.KeptByGreatest | redis-stable/src/cluster.c:1468-1470 | a node known under an epoch no claim exceeds keeps its slot through any packets |
| SlotConvergence.AlwaysWinsExactlyWhen | redis-stable/src/cluster.c:1453-1490 | every order and repetition of the claims gives a slot to its greatest-epoch claimant if and only if no other possible owner is or becomes known under an epoch as great |
| SlotConvergence.ClaimantCanLose | redis-stable/src/cluster.c:1464-1470 | a view, reached by DELSLOTS on one node and ADDSLOTS on another, in which the only claimant never gets its slot, whatever packets arrive |
| SlotConvergence.ReceiversAgree | redis-stable/src/cluster.c:1430-1490 | receivers with different starting views and different orders agree on every claimed slot |
| SlotConvergence.OnlyTheFirstOwnerMatters | redis-stable/src/cluster.c:1583-1595 | when the receiver knows no claimant under a greater epoch than it claims, only the first owner can be in the way |
| SlotConvergence.TableRebinds | redis-stable/src/cluster.c:1453-1490 | the scan of the slot table is the Rebind of these theorems for every slot not being imported |
| SlotAgreement.AgreeAfterQuietRound | redis-stable/src/cluster.c:1854-1861 | once every pair of masters has exchanged fresh pings with no move, all receivers agree on every claimed slot |
| SlotAgreement.ElectionsKeepEpochsDistinct | redis-stable/src/cluster.c:2836-2838 | in every run of elections with timely acks, masters that claim under epochs they won, or different ones from before, claim under different epochs |
| SlotAgreement.AgreeAfterElections | redis-stable/src/cluster.c:1430-1490 | and so receivers agree on every claimed slot |
| SlotAgreement.WinnerTakesSlot | redis-stable/src/cluster.c:2836-2845 | the last slave to win an election for a slot gets it from every receiver that knew only epochs from before and whose first owner claims nothing newer |
| NodeTable.PrintSlots | redis-stable/src/cluster.c:3646-3664 | the printed ranges are ascending, apart and maximal, and hold every set bit |
| NodeTable.LoadSlots | redis-stable/src/cluster.c:222-257 | exactly the free slots named by the tokens are bound to the node |
| NodeTable.TokenReadsBack | redis-stable/src/cluster.c:3657-3661 | a printed token, single or range, is read as the same range |
| NodeTable.PrintedSlotsReadBack | redis-stable/src/cluster.c:3646-3664 | the printed tokens name exactly the slots set in the bitmap |
| NodeTable.LineReadsBack | redis-stable/src/cluster.c:219-257 | loading a printed line binds the node's slots that are still free and sets its configEpoch |
| NodeTable.TableReadsBack | redis-stable/src/cluster.c:219-257 | for disjoint bitmaps, saving and loading gives back every owner, every free slot and every configEpoch |
| NodeTable.LoadConfig | redis-stable/src/cluster.c:219-257 | loading lines into a slot table, slot by slot, leaves the owners and epochs of those theorems, table and bitmaps in agreement |
| NodeTable.RestoreTable | redis-stable/src/cluster.c:219-257 | loaded from the printed lines of disjoint bitmaps, the slot table has every slot with the node that serves it and every node at its configEpoch |
| NodeTable.OwnerIsServer | redis-stable/src/cluster.c:3342-3347 | the owner loaded for a served slot is the node that served it |
| RewriteBuffer.Buffer.Append | redis-stable/src/aof.c:123-159 | the contents grow by exactly the bytes given, in order, over however many blocks |
| RewriteBuffer.Buffer.ChildWriteDiffData | redis-stable/src/aof.c:94-120 | what was sent followed by what is left is what was there; told to stop it sends nothing, and otherwise as much as its writes take (SentBy); it uninstalls itself exactly when stopped or empty |
| RewriteBuffer.EveryWriteCounts | redis-stable/src/aof.c:103-118 | as long as writes take something, each sends at least a byte until there is nothing left |
| RewriteBuffer.EnoughWritesEmpty | redis-stable/src/aof.c:103-118 | with a write for every block that could take all of it, everything is sent |
| RewriteBuffer.Buffer.Write | redis-stable/src/aof.c:172-192 | succeeds if and only if every write, one for each block that holds anything, takes all of it, and has then written the contents; otherwise written are the blocks before the first that failed and what its write took |
| RewriteBuffer.Buffer.Size | redis-stable/src/aof.c:78-89 | the number of bytes in the buffer |
| AofRewrite.HandlerIsEvents | redis-stable/src/aof.c:94-120 | what one call of the pipe handler can do to buffer, pipe and its own installation is a legal sequence of protocol steps |
| RewriteSteps.FeedRewrite | redis-stable/src/aof.c:541-542 | appending to the blocks is the Feed step of the protocol |
| RewriteSteps.SendToChild | redis-stable/src/aof.c:94-120 | whatever its writes return, a call of the pipe handler is a legal sequence of protocol steps with the same buffer and pipe after it |
| RewriteSteps.FinishRewrite | redis-stable/src/aof.c:1386-1391 | writing out the buffer is the protocol's last step; the file is installed if and only if every write is complete, and is then the child's file with the whole buffer behind it |
| AofRewrite.StepKeeps | redis-stable/src/aof.c:94-192 | every byte fed is in exactly one of child, pipe and buffer, in order, and an ack means the server has stopped sending |
| AofRewrite.InstalledExactlyWhen | redis-stable/src/aof.c:1135-1154 | an installed file is the snapshot followed by all bytes fed since the fork if and only if the child's last read emptied the pipe |
| AofRewrite.InterruptedReadLoses | redis-stable/src/aof.c:1146-1154 | for whatever was fed and sent there is a run whose file holds none of it, the last read having failed |
| AofRewrite.RewriteLosesNothing | redis-stable/src/aof.c:1364-1470 | in every interleaving without an interrupted last read, a successful rewrite loses, repeats and reorders nothing |
| AofRewrite.InstalledFileRuns | redis-stable/src/aof.c:1310-1316 | because the diff starts with a SELECT, the installed file loads as the snapshot's commands and then the fed ones, each in its own database |
| AofLog.CatGenericCommand | redis-stable/src/aof.c:435-458 | the destination grows by the multibulk text of the command |
| AofLog.Feed | redis-stable/src/aof.c:497-530 | a SELECT is written first exactly when the database is not the one selected last |
| AofLog.SelectsExactlyOnChange | redis-stable/src/aof.c:497-545 | one more command adds its own text, with a SELECT of its database in front if and only if the command before was in another |
| AofLog.OneArgument | redis-stable/src/aof.c:435-458 | the bytes written for a command with one argument |
| AofLog.MultibulkParses | redis-stable/src/aof.c:639-675 | a written command is read back as itself, whatever follows it |
| AofLog.MultibulkCut | redis-stable/src/aof.c:639-675 | a command cut at any byte reads as a short read, never as another command or a format error |
| AofLog.LoadOfPrefix | redis-stable/src/aof.c:625-709 | any byte prefix of a log loads as the commands whole in it, complete or truncated as the cut falls |
| AofLog.LoadAnyPrefix | redis-stable/src/aof.c:497-545 | of commands fed from aof_selected_db == -1, any byte prefix of the log runs exactly those whole in it, each in its own database |
| AofLog.ValidUpTo | redis-stable/src/aof.c:695 | valid_up_to is the end of the last whole command; not one more fits; the load is complete exactly if nothing follows |
| AofLog.LoadBehind | redis-stable/src/aof.c:625-696 | behind a complete log anything loads as it would alone |
| AofLog.RewrittenFileLoads | redis-stable/src/aof.c:1310-1316 | a snapshot followed by a freshly fed log loads as the one and then the other |
| AofSyntax.ParsesExactlyWhen | redis-stable/src/aof.c:639-675 | the loader reads a command if and only if the text of one stands there: a line with '*' and the count, and for every argument a line with '$' and the length, the bytes, and two more |
| AofSyntax.ShortReadIsCut | redis-stable/src/aof.c:639-675 | what is taken for a command cut short is the front of such a text, but for a NUL in place of the count at the end of the file |
| AofSyntax.DamageIsNoticed | redis-stable/src/aof.c:639-675 | bytes that neither start with a command nor begin one are a read or format error or out of memory |
| AofSyntax.AnotherByte | redis-stable/src/aof.c:645 | any first byte but '*' is damage and a format error |
| AofSyntax.WrittenIsText | redis-stable/src/aof.c:435-458 | what the server writes for a command is such a text |
| AofSyntax.DamagedLog | redis-stable/src/aof.c:625-748 | a log followed by damage loads as exactly the log, and with an error |
| AofSyntax.LoadedPart | redis-stable/src/aof.c:717-736 | the part of a file up to valid_up_to loads completely as the same commands, and a truncated file goes on with what could be completed |
| AofLoader.ReadBulk | redis-stable/src/aof.c:655-674 | one argument is read, or the same error found, as ParseBulk says |
| AofLoader.ReadCommand | redis-stable/src/aof.c:639-675 | one command is read, or the same error found, as ParseCommand says |
| AofLoader.LoadAppendOnlyFile | redis-stable/src/aof.c:599-748 | the commands run and the ending; the file is cut only with aof-load-truncated on, only in front of what further bytes could complete to a command (or a NUL for the count at its end), and what is kept loads completely and runs the same; a log with damage behind it is left alone, has run exactly, and ends the server |
| AofFlush.AppendOnlyFile.Feed | redis-stable/src/aof.c:531-535 | the buffer grows and nothing else changes |
| AofFlush.AppendOnlyFile.WriteBuffer | redis-stable/src/aof.c:311-411 | unless the server exits, file and buffer together keep their bytes and aof_current_size is the file's length, for every short write and ftruncate outcome |
| AofFlush.AppendOnlyFile.FsyncIfNeeded | redis-stable/src/aof.c:413-432 | which fsync follows a complete write, and that the time of the last one moves on even if a pending one keeps it from starting |
| AofFlush.AppendOnlyFile.Flush | redis-stable/src/aof.c:273-433 | postponed, failed, exited or written exactly when it should; conservation, error status, fsync and the count of delayed fsyncs in each case |
| AofFlush.FlushConserves | redis-stable/src/aof.c:273-433 | over every run file and buffer are exactly what was fed, and the file alone is always a prefix of it, even when the server exits |
| AofFlush.AnyStopLoads | redis-stable/src/aof.c:273-433 | whatever is on disk when the server stops, even in the middle of a write, loads as the commands whole in it from the first one fed on |
| AofSync.EndsExactlyWhen | redis-stable/src/aof.c:273-433 | each ending of a flush, and which fsync follows it, by the exact condition on fields, argument, clock and what it meets |
| AofSync.FlushedIsSynced | redis-stable/src/aof.c:369-427 | under "always", after any flush the server does not exit from, every byte fed is in the file and synced |
| AofSync.SyncsFarApart | redis-stable/src/aof.c:428-431 | under "everysec" no two fsyncs are started in the same second, whatever the clock does |
| AofSync.PostponedForLess | redis-stable/src/aof.c:283-302 | a write is put off for less than two seconds |
| AofSync.WrittenIsCoveredExactlyWhen | redis-stable/src/aof.c:413-431 | under "everysec" what was just written is covered by an fsync, then or for as long as nothing is fed, if and only if the second is new, no fsync is pending and none is forbidden |
| AofSync.StaysUnsynced | redis-stable/src/aof.c:278-431 | a run in which a byte is written after two seconds of waiting and no fsync is asked for in any number of later flushes |
| Persistence.StepKeeps | redis-stable/src/aof.c:1364-1470 | feeding, flushing, forking, every step of a rewrite and its installation keep log, buffer, file size, selected database and dataset in agreement |
| Persistence.EveryCommandIsKept | redis-stable/src/aof.c:497-545 | at every moment of every run, whatever rewrites have replaced the file, loading file and buffer rebuilds what all commands ever fed make of the empty dataset |
| Persistence.FileAloneIsPrefix | redis-stable/src/aof.c:273-433 | the file alone, even after the server has exited in the middle of a write, loads and rebuilds what the first m of all commands ever fed make, and m is at least the number fed before the last rewritten file was put in place |
| Datasets.SnapshotCanBeForked | redis-stable/src/aof.c:1021-1109 | what the child writes of some databases rebuilds the dataset they hold, as Persistence asks of a snapshot |
| Datasets.KeyspaceIsDataset | redis-stable/src/aof.c:1045-1106 | every dataset that commands make is that of some databases with entries the child can write |
| Datasets.ForkAlwaysPossible | redis-stable/src/aof.c:1021-1109 | at any moment of any run, whatever has been fed, there is such a snapshot to fork with |
| ChunkedRewrite.CommandOpens | redis-stable/src/aof.c:781-788 | the count declared is the number of arguments that follow |
| ChunkedRewrite.RewriteItems | redis-stable/src/aof.c:780-797 | the wrapping counter emits exactly the commands of Chunks for any positive limit |
| ChunkedRewrite.RewriteListObject | redis-stable/src/aof.c:770-823 | RPUSH commands of at most 64 elements |
| ChunkedRewrite.RewriteSetObject | redis-stable/src/aof.c:827-870 | SADD commands of at most 64 members |
| ChunkedRewrite.RewriteSortedSetObject | redis-stable/src/aof.c:874-939 | ZADD commands of at most 64 scores and members |
| ChunkedRewrite.RewriteHashObject | redis-stable/src/aof.c:973-997 | HMSET commands of at most 64 fields and values |
| ChunkedRewrite.ChunksAreFew | redis-stable/src/aof.c:781-797 | there are as few commands as the limit allows |
| ChunkedRewrite.NameIsKnown | redis-stable/src/aof.c:787 | the names written are those under which the command table has RPUSH, SADD, ZADD and HMSET |
| ChunkedRewrite.ChunksWritable | redis-stable/src/aof.c:781-797 | no command has more items than the limit, and all can be read back |
| ChunkedRewrite.ChunksRun | redis-stable/src/aof.c:770-997 | run in turn by name (RPUSH appends where LPUSH would reverse), the commands add every item in order to the value at the key and touch no other key |
| ChunkedRewrite.Rebuilds | redis-stable/src/aof.c:770-997 | the emitted text loads completely and rebuilds the value where the key did not exist |
| ChunkedRewrite.RewriteKeepsLists | redis-stable/src/aof.c:770-823 | the same list, order and repeats included |
| ChunkedRewrite.RewriteKeepsSets | redis-stable/src/aof.c:827-870 | the same set |
| ChunkedRewrite.RewriteKeepsSortedSets | redis-stable/src/aof.c:874-939 | the same members with the same scores |
| ChunkedRewrite.RewriteKeepsHashes | redis-stable/src/aof.c:973-997 | the same fields with the same values |
| Snapshot.RewriteEntry | redis-stable/src/aof.c:1075-1093 | a string is one SET, a collection its commands |
| Snapshot.RewriteAppendOnlyFile | redis-stable/src/aof.c:1045-1109 | the text is that of SnapshotCommands: SELECT and every entry for every database that is not empty |
| Snapshot.NothingForEmpty | redis-stable/src/aof.c:1045-1053 | databases without keys leave no trace, not even a SELECT |
| Snapshot.DbCommandsRun | redis-stable/src/aof.c:1061-1106 | the commands of different keys do not disturb each other |
| Snapshot.HoldingIsEntries | redis-stable/src/aof.c:1061-1106 | a database holds exactly its keys, each with its value |
| Snapshot.SnapshotRestores | redis-stable/src/aof.c:1021-1109 | loading the snapshot rebuilds every database, key and value, and nothing else |
| Snapshot.InstalledFileRestores | redis-stable/src/aof.c:1149-1154 | the file a rewrite puts in place rebuilds the dataset of the fork with every command fed since run on it |
| BinaryPolynomial.SerialIsRemainder | redis-stable/src/crc64.c:173-181 | a bit-serial register computes the remainder of polynomial long division |
| Crc64.TableCorrect | redis-stable/src/crc64.c:42-171 | each of the 256 entries is eight bit steps of the reflected polynomial |
| Crc64.Compute | redis-stable/src/crc64.c:173-181 | for every byte string the table loop is bit-at-a-time division, low bit first |
| Crc64.ChecksumOfConcat | redis-stable/src/crc64.c:173-181 | going on from the checksum of a over b gives that of a followed by b |
| Crc64.ComputeInTwoParts | redis-stable/src/crc64.c:173-181 | on the words: crc64(crc64(c, a), b) is crc64(c, a + b) and no other word |
| Crc64.ChecksumIsRemainder | redis-stable/src/crc64.c:173-181 | from 0, the checksum is the remainder of the message times x^64 |
| Crc64.GeneratorIsJones | redis-stable/src/crc64.c:1-11 | the generator is the Jones polynomial the file's header gives |
| Crc16.TableCorrect | redis-stable/src/crc16.c:47-80 | each of the 256 entries is eight bit steps of polynomial 0x1021 |
| Crc16.Compute | redis-stable/src/crc16.c:82-88 | for every byte string the table loop gives the remainder of the message times x^16, high bit first |
| KeySlot.KeyHashSlot | redis-stable/src/cluster.c:613-632 | the slot is the low 14 bits of the remainder of the tag, or of the whole key |
| KeySlot.TagDecides | redis-stable/src/cluster.c:607-632 | keys with the same nonempty first tag hash alike, whatever surrounds it |
| KeySlot.TaggedOrWhole | redis-stable/src/cluster.c:613-632 | what is hashed is either the whole key or a nonempty tag between the first brace and the next closing one |
| DumpPayload.CreateDumpPayload | redis-stable/src/cluster.c:4304-4331 | the payload is the serialized value, the version and a checksum that make it intact |
| DumpPayload.VerifyDumpPayload | redis-stable/src/cluster.c:4337-4354 | accepted exactly when long enough, of this version, and with the right checksum |
| DumpPayload.OtherVersionRejected | redis-stable/src/cluster.c:4342-4348 | shorter than ten bytes, or of another version than 6, no payload is accepted |
| DumpPayload.IntactLeavesZero | redis-stable/src/cluster.c:4350-4353 | dividing an intact payload, checksum included, leaves zero |
| DumpPayload.BitBurstRejected | redis-stable/src/cluster.c:4350-4353 | a payload of the same length that differs only inside 64 consecutive bits is rejected |
| DumpPayload.ByteBurstRejected | redis-stable/src/cluster.c:4350-4353 | and likewise inside 8 consecutive bytes |
| Popcount.TableCorrect | redis-stable/src/bitops.c:65 | each entry of the table is the number of bits of its index |
| Popcount.FoldValue | redis-stable/src/bitops.c:87-101 | the shifts and masks leave each byte's bit count in its place |
| WordCounters.SevenWords | redis-stable/src/bitops.c:101-107 | up to seven words of counts, summed and gathered in 32-bit arithmetic, lose no carry |
| Popcount.CountSevenWords | redis-stable/src/bitops.c:75-108 | the 28-byte step counts exactly the bits it passes |
| Popcount.Popcount | redis-stable/src/bitops.c:61-113 | for every length and alignment the count is the sum over all bytes |
| Popcount.BitCountIsTrues | redis-stable/src/bitops.c:58-60 | that sum is the number of set bits in the whole string |
| Bitpos.SkipsWord | redis-stable/src/bitops.c:148-155 | comparing a machine word with all zeros or all ones compares its eight bytes |
| Bitpos.LoadWord | redis-stable/src/bitops.c:158-173 | the loaded word holds the next eight bytes, high end first, zeros behind the string |
| Bitpos.ScanWord | redis-stable/src/bitops.c:182-194 | the first of 64 masks under which the word has the wanted bit, or none of them |
| Bitpos.PanicUnreachable | redis-stable/src/bitops.c:196-198 | the scan never ends without finding the bit |
| Bitpos.Bitpos | redis-stable/src/bitops.c:122-200 | the least position with the wanted bit in GETBIT's numbering, or -1 or 8 times the length, for every length and alignment |
| Bitop.LookUp | redis-stable/src/bitops.c:319-351 | absent keys are empty strings; another type stops the command; maxlen is the greatest length and minlen no more than any |
| Bitop.FoldFourWords | redis-stable/src/bitops.c:373-384 | four word operations are the byte operation on 32 bytes and leave the others |
| Bitop.CombineBlock | redis-stable/src/bitops.c:371-421 | one turn of the outer loop leaves 32 bytes combined over all sources |
| Bitop.FastPath | redis-stable/src/bitops.c:359-422 | every byte below the returned index is combined over all sources |
| Bitop.CombineByte | redis-stable/src/bitops.c:425-437 | one turn of the byte loop, absent bytes taken as zero |
| Bitop.Bitop | redis-stable/src/bitops.c:288-458 | fast path and byte loop together give the zero-padded bytewise operation at every index, and the errors and the empty result as the command does |
| Bitop.ResultBits | redis-stable/src/bitops.c:425-437 | bit by bit the result is all, any, an odd number, or not, of the sources' bits |
| AdList.List.AddNodeHead | redis-stable/src/adlist.c:80-98 | the value is put first |
| AdList.List.AddNodeTail | redis-stable/src/adlist.c:106-124 | the value is put last, and the nodes before it stay |
| AdList.List.InsertNode | redis-stable/src/adlist.c:126-153 | the value is put right after or right before the given node |
| AdList.List.DelNode | redis-stable/src/adlist.c:159-172 | exactly the given node is taken out |
| AdList.List.Rotate | redis-stable/src/adlist.c:328-341 | the last element becomes the first |
| AdList.List.Index | redis-stable/src/adlist.c:313-325 | the node at an index from the head, or from the tail for negative ones, or NULL |
| AdList.ListIter.Next | redis-stable/src/adlist.c:221-232 | the current node is returned and the iterator moves one on |
| AdList.RemoveUnless | redis-stable/src/cluster.c:713-727 | removing the node just returned while iterating filters the list |
| Bio.Jobs.CreateBackgroundJob | redis-stable/src/bio.c:126-138 | the job joins the end of the queue and is counted |
| Bio.Jobs.TakeJob | redis-stable/src/bio.c:162-172 | the worker waits exactly on an empty queue, or takes the first job in hand without removing it |
| Bio.Jobs.RunJob | redis-stable/src/bio.c:174-182 | the job run is the first of the queue |
| Bio.Jobs.RetireJob | redis-stable/src/bio.c:184-188 | the job run is taken off the queue and off the count |
| Bio.Jobs.PendingJobs | redis-stable/src/bio.c:193-199 | the number of jobs created and not retired; a caller that reads 0 knows that every job created has run |
| Bio.QueueIsFaithful | redis-stable/src/bio.c:126-199 | in every interleaving jobs run in creation order, once each; the counter is the queue's length and created less retired; zero means all created jobs have run |

## Left out

- Election.OneWinnerPerEpoch: assumes masters that hold slots are the same in every node's view and do not change, no ack is repeated, no restart (lastVoteEpoch is not scheduled for saving after a vote, cluster.c:2542-2547) and no CLUSTER RESET or TAKEOVER; acks from nodes in handshake are not modelled.
- Election.TwoWinnersExactlyWhen: is about one configuration of masters; that a winner joins the masters afterwards is not modelled.
- FailoverAuth.Elections.HandleSlaveFailover: reads the clock once per call, ends at the test of the quorum (the takeover of the slots is SlotIndex.SlotTable.ReplaceYourMaster), and takes the replica's rank and the age of its data as given.
- FailoverAuth.Elections.SendFailoverAuthIfNeeded: takes the bitmap of the request as a sequence of truth values.
- EpochOrder.EpochsStayOrdered: assumes, as cluster.c does, that the random name of a node in handshake is the name of no node of the cluster; hard reset and a hand-edited nodes.conf are outside the runs.
- SlotConvergence.AlwaysWinsExactlyWhen: is for receivers that import no slot and do not process claims about themselves.
- SlotIndex.SlotTable.UpdateSlotsConfigWith: the lists of slaves, the replication link and the deletion of keys are not modelled beyond which slots they concern.
- SlotIndex.SlotTable.Replicate: a node still in handshake, which is flagged neither master nor slave and which the command would take, counts as no master.
- SlotIndex.SlotTable.DelNode: failure reports, links and the slaves' pointers to the deleted node are not modelled.
- NodeTable.LoadConfig: starts from lines already split into arguments, with their nodes in the table; addresses, flags and open slots on the line are not modelled.
- AofRewrite.RewriteLosesNothing: the writes of one call of the pipe handler are separate steps; the temporary file's name, fsync and rename are only whether the server's part succeeded.
- RewriteBuffer.Buffer.Append: the logging of the block count and the installation of the event handler are left to AofRewrite.
- AofLoader.LoadAppendOnlyFile: takes every command name as known, and leaves out MULTI in the log, the progress callbacks, and numbers beyond the C types in foreign files.
- AofLog.Feed: is the untranslated branch; EXPIRE and SETEX translation depend on the clock.
- AofSync.WrittenIsCoveredExactlyWhen: is about fsyncs asked for from the write on; one already pending may happen to take the new bytes in.
- AofFlush.AppendOnlyFile.Flush: logging and latency samples are left out, and errno is not kept.
- ChunkedRewrite.Rebuilds: scores are kept as the text they are printed as; of the commands that build values, DataTypes has SET, RPUSH, LPUSH, SADD, ZADD and HMSET without options.
- Snapshot.SnapshotRestores: expires (PEXPIREAT, and keys passed over because they have expired) and errors in writing are left out; SET and the order in which keys are visited are as given.
- Persistence.EveryCommandIsKept: the append only file stays on and the server is not restarted; the child's last read empties the pipe; the dataset is changed by commands only.
- DumpPayload.CreateDumpPayload: the serialized value is an arbitrary byte string.
- Bitop.Bitop: parsing of the operation name, the keyspace and the reply are left out; the sources' bytes are values, so a target that is also a source needs no care.
- AdList.List.AddNodeTail: memory allocation does not fail, and a value has no free function.
- Bio.QueueIsFaithful: is for one type of job, which has its own list, counter, mutex and worker; killing the threads is left out.
- clusterCron, gossip, failure detection and manual failover by pausing clients: scheduling and flags that the models take as arbitrary inputs.
- The Rails application around the sources, config.c, replies, MIGRATE and pub/sub: flat dispatch and glue that would only add easy lemmas.
