# Verified model of inmem

inmem is an in-memory cache that speaks the Redis protocol. This project models three layers of it
and the paths that tie them together, and proves what they promise.

- **Storage engine.** The flat hash index (`FlatMap.dfy`, `SlotOccupancy.dfy`), the S3-FIFO eviction
  policy (`S3Fifo.dfy`), the five value types (`ZSets.dfy`, `Values.dfy`), one shard (`Shard.dfy`)
  and the sharded store (`Store.dfy`). `Keyspace.dfy` is the reference they refine: one mathematical
  map that deletes expired keys before each call.
- **Protocol.** Numbers as text (`Decimal.dfy`), the owned and the zero-copy request parsers
  (`Resp.dfy`), the encoder and its round trip (`Frames.dfy`), byte streams cut into reads
  (`Streams.dfy`) and replies (`Replies.dfy`).
- **Commands and what is built on them.** Dispatch (`Commands.dfy`), glob patterns (`Glob.dfy`), the
  zero-copy fast path (`FastPath.dfy`), the write flag and log completeness (`CommandLog.dfy`,
  `ExpiryFree.dfy`), replay and torn logs (`Persistence.dfy`), snapshots (`Snapshot.dfy`,
  `SnapshotSizes.dfy`, `SnapshotLimits.dfy`), restart (`Recovery.dfy`), replication
  (`Replication.dfy`, `ReplicationRaces.dfy`, `ReplicaSession.dfy`, `ReplicatedStores.dfy`), counters
  (`Counters.dfy`) and inputs at which ranges and long lines leave the reference (`RangeLimits.dfy`).

The parts of the source that update state in place are classes and methods with loops, each proved
against a specification; the laws are lemmas about those specifications. Time is a parameter: one
clock reading per command. The hash functions of the index and of the shard router are parameters
too, and nothing is assumed about collisions.

Under a memory limit a call is specified as a function of the whole shard (`Shards.CallImage`):
entries and eviction policy together. So "the same effect" means the same next state of every shard,
evictions included, and not only the same visible keys.

Results that span the system:

1. Any run of the index answers like a mathematical map (`FlatMaps.Run`), and which slots are
   occupied depends only on the keys present, not on how they came and went
   (`SlotOccupancy.ChurnLeavesNoTrace`).
2. Any run of the policy evicts only tracked keys and finds one whenever there is one, within an
   explicit number of steps; a key is in the main queue only if its last insertion found it in the
   ghost set or it was touched twice since (`S3Fifos.Run`, `S3Fifos.S3Fifo.EvictOne`).
3. Any run of store calls answers like the eager single-map reference, and under a memory limit it
   ends within the limit; every prefix of a run is a run (`Stores.Run`).
4. How a stream is cut into reads does not matter, if and only if no inline line exceeds the guard
   (`Streams.ChunkingIndependence`).
5. A log cut at any byte restores a moment of the past (`Recovery.CrashRecovery`), and a snapshot
   restores the dataset exactly under a condition on the dataset (`SnapshotLimits.SnapshotIsExact`,
   `SnapshotSizes.DumpFitsIff`, `Recovery.CopyBySnapshot`).
6. A replica shows a moment of its primary's past in every reachable state of the protocol unless a
   write that raced the handshake mattered (`Replication.ReplicaFollowsPrimary`,
   `Replication.RaceIsExact`), and that moment never moves back (`Replication.ReplicaNeverGoesBack`).
   Between two real stores and a socket that may fail at any byte, what the primary shows, what is on
   the wire, how much of it arrives and what the replica then shows are functions of the commands
   served, up to the order of the dump (`ReplicatedStores.Replicate`); the same commands leave a log
   from which a restart shows a moment of the past (`ReplicatedStores.Restart`).
7. The fast path is the general path: the same bytes and the same next state of the whole store, with
   or without a memory limit (`FastPath.ServeFast`). The glob matcher is the declarative meaning of
   the pattern (`Glob.GlobMatch`).

Promises that turned out false of the code, each with an input that shows it and the exact condition
under which it holds:

- Sorted-set range windows are those of Redis unless, exactly, clamping shows: it pulls a start past
  the end onto the last member and a stop before the beginning onto the first
  (`ZSets.ClampedIsWindow`; `ZRANGE k 5 10` on one member, `RangeLimits.ZrangePastTheEnd`).
- List range windows are the reference window if and only if `stop` is below the largest signed
  64-bit number or nothing lies at or after `start`; at that number `stop + 1` wraps
  (`Values.ListRangeIsWindow`; `RangeLimits.LrangeToTheLargest`).
- Chunking independence fails for inline lines over 64 KiB (`Streams.LongLineBreaks`; a line of 70000
  letters, `RangeLimits.LongLineIsCut`).
- A dump restores the dataset if and only if every score survives its text form and every expiry fits
  a signed 64-bit number (`SnapshotLimits.SnapshotIsExact`). Negative zero does not survive
  (`SnapshotLimits.NegativeZeroIsLost`); one `SET` with the largest `PX` leads to an expiry that does
  not (`SnapshotLimits.ForeverIsLost`).
- A dump can be parsed back whole if and only if every entry fits the parser's two limits
  (`SnapshotSizes.DumpFitsIff`); otherwise exactly the entries before the first that does not fit come
  back (`Recovery.CopyBySnapshot`). A list of 1048575 items that was pushed one item at a time is such
  an entry, and the dump of it restores nothing (`SnapshotLimits.LongListIsLost`).
- A replica that joins while a write is in flight equals the primary, until the next flagged write, if
  and only if the write changes nothing in the dumped keyspace (`Replication.RaceIsExact`;
  `ReplicationRaces.LostWrite` and `ReplicationRaces.RepeatedWrite` are runs in which it does). A later
  overwrite of the same key can make the two equal again.

Where code and comments disagree the model follows the code. The comment at
crates/server/src/repl.rs:11-13 says a write that races the handshake could be applied twice; the
dump is taken before the socket is registered (crates/server/src/conn.rs:109-113), so such a write
can also be lost. The protocol model has both.

## Model

| member | source | states |
|---|---|---|
| `FlatMaps.CapacityFor` | crates/core/src/map.rs:60-69 | the raw size covers the request at 7/8 load |
| `FlatMaps.FreeSlotExists` | crates/core/src/map.rs:100-103 | a table with fewer entries than slots has a free slot, so every probe halts |
| `FlatMaps.AbsentAtFreeSlot` | crates/core/src/map.rs:118-130 | a probe that reaches a free slot proves the key absent |
| `FlatMaps.PlaceAtFreeSlot` | crates/core/src/map.rs:167-192 | an entry placed where its probe ended keeps every chain unbroken and adds exactly its binding |
| `FlatMaps.RemoveOpensHole` | crates/core/src/map.rs:201-218 | emptying a slot breaks only chains that pass through it, and removes exactly its binding |
| `FlatMaps.ShiftBack` | crates/core/src/map.rs:222-237 | moving a displaced entry into the hole moves the break to the slot it left |
| `FlatMaps.ShiftSkip` | crates/core/src/map.rs:222-237 | an entry that may not move leaves the break where it is |
| `FlatMaps.RepairDone` | crates/core/src/map.rs:222-237 | a free slot ends the repair with every chain whole, across the wrap-around |
| `FlatMaps.FlatMap.constructor` | crates/core/src/map.rs:50-57 | a new index is empty and valid under any hash |
| `FlatMaps.FlatMap.WithCapacity` | crates/core/src/map.rs:60-69 | the requested number of entries fits without growing |
| `FlatMaps.FlatMap.Probe` | crates/core/src/map.rs:118-130 | the probe loop ends at the key's slot or at a free slot, never round in circles |
| `FlatMaps.FlatMap.Get` | crates/core/src/map.rs:118-130 | the lookup of the mathematical map |
| `FlatMaps.FlatMap.Reserve` | crates/core/src/map.rs:167-172 | there is room for one more entry afterwards and nothing is lost |
| `FlatMaps.FlatMap.Insert` | crates/core/src/map.rs:167-192 | the map update, the old value returned, the count right for new and overwritten keys |
| `FlatMaps.FlatMap.Remove` | crates/core/src/map.rs:201-218 | the map without the key, its value returned, the count right |
| `FlatMaps.FlatMap.BackwardShift` | crates/core/src/map.rs:222-237 | repairs every probe chain around the ring and halts |
| `FlatMaps.FlatMap.Grow` | crates/core/src/map.rs:239-250 | the same contents in twice the slots |
| `FlatMaps.FlatMap.Iter` | crates/core/src/map.rs:253-257 | every binding once and nothing else |
| `FlatMaps.Run` | crates/core/src/map.rs:322-361 | any sequence of lookups, inserts, overwrites and removals under any hash answers like a mathematical map |
| `SlotOccupancy.OccupiedInBoth` | crates/core/src/map.rs:222-268 | a slot occupied in one of two tables with the same keys is occupied in the other (cyclic pigeonhole) |
| `SlotOccupancy.OccupancyIsHistoryIndependent` | crates/core/src/map.rs:4-6 | two tables of equal size with the same keys occupy the same slots |
| `SlotOccupancy.ChurnLeavesNoTrace` | crates/core/src/map.rs:4-6 | the same for any two valid indexes, whatever histories led to them |
| `S3Fifos.LiveIsQueued` | crates/core/src/s3fifo.rs:156-160 | a positive live count means a non-empty queue, so the reconcile branches are never reached |
| `S3Fifos.EarnedInsert` | crates/core/src/s3fifo.rs:81-104 | an admission into main is of a key found in the ghost set, and only such |
| `S3Fifos.EarnedEvict` | crates/core/src/s3fifo.rs:175-209 | a key evicted from small may be remembered, one evicted from main is not, and everything remembered last left small |
| `S3Fifos.PassesSurvive` | crates/core/src/s3fifo.rs:156-210 | searching for a victim never adds a hit, never demotes, and promotes only keys touched more than once |
| `S3Fifos.EvictIs` | crates/core/src/s3fifo.rs:133-153 | the victim and the queues it leaves do not depend on how many passes are allowed beyond enough |
| `S3Fifos.S3Fifo.Insert` | crates/core/src/s3fifo.rs:81-104 | the key joins the back of main if remembered as evicted, of small otherwise |
| `S3Fifos.S3Fifo.Touch` | crates/core/src/s3fifo.rs:108-112 | the key's counter goes up to its cap; untracked keys change nothing |
| `S3Fifos.S3Fifo.Remove` | crates/core/src/s3fifo.rs:115-123 | exactly the key leaves; its queue references stay behind |
| `S3Fifos.S3Fifo.EvictOne` | crates/core/src/s3fifo.rs:133-153 | a live victim if and only if any key is live, exactly it leaves, at most 2\|small\|+\|main\|+sum(freq)+1 steps, and the victim is the one the passes over the queues find |
| `S3Fifos.S3Fifo.StepSmall` | crates/core/src/s3fifo.rs:156-184 | one pass over the front of small, the potential drops unless a victim is found |
| `S3Fifos.S3Fifo.StepMain` | crates/core/src/s3fifo.rs:187-210 | one pass over the front of main, the potential drops unless a victim is found |
| `S3Fifos.S3Fifo.PushGhost` | crates/core/src/s3fifo.rs:212-224 | remembered keys stay disjoint from live ones and number at most max(16, live), the oldest forgotten first |
| `S3Fifos.Run` | crates/core/src/s3fifo.rs:81-224 | any run follows its course as a function of the calls; at its end, so after every call, every victim was tracked, evictions failed only when nothing was, ghosts are disjoint from live keys and within max(16, live) after a push, and every main key was found in the ghost set at its last insertion or touched twice since |
| `Decimal.ValueOfDigits` | crates/proto/src/resp.rs:252-265 | the digits of a number have its value |
| `Decimal.ParseWritten` | crates/proto/src/resp.rs:44-58 | every signed 64-bit number is parsed back from its text |
| `Decimal.ParseCounterWritten` | crates/core/src/store.rs:458-470 | a counter text the store wrote is read back exactly through the trim |
| `Decimal.TwentyDigitsSuffice` | crates/proto/src/resp.rs:252-256 | every unsigned 64-bit number fits the 20-byte buffer |
| `Decimal.WriteUint` | crates/proto/src/resp.rs:252-265 | the hand-rolled loop writes the decimal text within its buffer |
| `Resp.ReadLine` | crates/proto/src/resp.rs:33-42 | the bytes up to the first CRLF at or after the start, and where the next line begins |
| `Resp.ReadBulk` | crates/proto/src/resp.rs:84-110 | one bulk string, with every size, sign, marker and terminator check |
| `Resp.ParseArrayCommand` | crates/proto/src/resp.rs:71-114 | the owned array parser computes the frame function |
| `Resp.ParseCommand` | crates/proto/src/resp.rs:60-69 | the owned parser computes the frame function for array and inline forms |
| `Resp.ParseArrayRanges` | crates/proto/src/resp.rs:141-186 | the zero-copy array parser agrees with the owned one and its ranges are in bounds |
| `Resp.TokenRanges` | crates/proto/src/resp.rs:187-209 | the index loop over an inline line finds the tokens that splitting finds |
| `Resp.ParseCommandRanges` | crates/proto/src/resp.rs:137-209 | on every buffer the two parsers agree: same class, same consumption, every range in bounds and its slice the owned argument |
| `Frames.EncodeCommand` | crates/server/src/persistence.rs:45-56 | the one wire form of the log, the replication feed and the dump |
| `Frames.FrameStable` | crates/proto/src/resp.rs:60-130 | a parsed frame and a rejected array frame stay what they are whatever bytes follow |
| `Frames.FrameRoundTrip` | crates/proto/src/resp.rs:71-114 | an encoded command parses back to itself, consuming exactly its bytes, if and only if it fits the limits |
| `Frames.ParsedFits` | crates/proto/src/resp.rs:71-114 | every command that arrived as an array can be encoded and parsed again |
| `Frames.StrictPrefixNeedsMore` | crates/proto/src/resp.rs:71-114 | every strict prefix of an encoded command asks for more |
| `Streams.EarlyRejectIsFinal` | crates/proto/src/resp.rs:116-125 | on a bounded stream a rejection of the bytes so far is the rejection of the stream |
| `Streams.DrainExtends` | crates/server/src/conn.rs:70-174 | what one read settles is what the longer stream starts with |
| `Streams.FeedIsDrain` | crates/server/src/repl.rs:108-131 | the loop over reads yields the commands, consumption and error of the whole stream |
| `Streams.LongLineBreaks` | crates/proto/src/resp.rs:116-125 | an over-long inline line has a cut at which the loop rejects it |
| `Streams.ChunkingIndependence` | crates/server/src/conn.rs:70-174 | every way of cutting the stream gives the same outcome if and only if no inline line exceeds the guard |
| `Streams.Inbox.Arguments` | crates/server/src/conn.rs:94-97 | ranges relative to the cursor denote the parsed arguments in the whole buffer |
| `Streams.Inbox.OnRead` | crates/server/src/conn.rs:70-174 | one read yields exactly what draining the buffer yields, and keeps the unfinished rest |
| `ZSets.SortedIsAscending` | crates/core/src/store.rs:30-47 | the reference order lists every member once, by score and then by member |
| `ZSets.AscendingIsSorted` | crates/core/src/store.rs:30-47 | any ascending listing of the same members is that order |
| `ZSets.InsertRankIs` | crates/core/src/store.rs:57-68 | inserting into the ordered index keeps it the order of the larger set |
| `ZSets.RemoveRankIs` | crates/core/src/store.rs:57-76 | removing from the ordered index keeps it the order of the smaller set |
| `ZSets.ClampedIsWindow` | crates/core/src/store.rs:83-104 | the clamped range is the reference window if and only if a condition on start, stop and length holds |
| `ZSets.ZSet.Insert` | crates/core/src/store.rs:57-68 | score map and index stay one relation when a member is added, moved or left in place |
| `ZSets.ZSet.Remove` | crates/core/src/store.rs:70-76 | both sides lose exactly the member |
| `ZSets.ZSet.Range` | crates/core/src/store.rs:83-104 | the clamped rank window of the ordered members |
| `Values.ValueBytes` | crates/core/src/store.rs:132-160 | the loops over a collection compute its accounted footprint |
| `Values.CostlyEntries` | crates/core/src/store.rs:162-164 | every entry costs more than one byte, so a one-byte budget holds nothing |
| `Values.PushEach` | crates/core/src/store.rs:533-546 | pushing one by one is appending, or prepending reversed |
| `Values.PopEach` | crates/core/src/store.rs:548-567 | popping one by one takes the ends in pop order and stops at the end of the list |
| `Values.InsertEach` | crates/core/src/store.rs:612-625 | pairs merge with the last one winning, and the count is of names that were new |
| `Values.RemoveEach` | crates/core/src/store.rs:635-642 | the names leave, and the count is of those that were there, duplicates once |
| `Values.AddEach` | crates/core/src/store.rs:663-669 | union, and the count of new members |
| `Values.DiscardEach` | crates/core/src/store.rs:671-677 | difference, and the count of members that were there |
| `Values.RunEdit` | crates/core/src/store.rs:533-724 | each closure of a collection write computes the reference edit and its answer |
| `Values.ListRangeIsWindow` | crates/core/src/store.rs:577-608 | the list range is the reference window if and only if its upper bound does not wrap |
| `Keyspace.ApplyKeepsNoneEmpty` | crates/core/src/store.rs:293-302 | no call leaves an empty collection behind |
| `Keyspace.FailedCallChangesNothing` | crates/core/src/store.rs:454-485 | a call that fails changes nothing visible |
| `Shards.Shard.DropKey` | crates/core/src/store.rs:200-210 | the key leaves map, account and policy together |
| `Shards.Shard.Touch` | crates/core/src/store.rs:216-220 | a hit reaches the policy exactly when there is a budget |
| `Shards.Shard.IsLive` | crates/core/src/store.rs:223-234 | an expired key is dropped when asked for, a live one is left alone |
| `Shards.Shard.EnforceBudget` | crates/core/src/store.rs:236-248 | ends within budget, takes away only whole entries, and takes no more than needed |
| `Shards.Shard.PutNew` | crates/core/src/store.rs:251-257 | a new entry enters map, account and policy together |
| `Shards.Shard.Read` | crates/core/src/store.rs:337-366 | the answer of the lazy reference, and a hit recorded for data reads of live keys |
| `Shards.Shard.Set` | crates/core/src/store.rs:368-398 | NX, XX and KEEPTTL as in the reference, in place over any type, account kept |
| `Shards.Shard.Del` | crates/core/src/store.rs:400-407 | deletes a live key, reports an expired one as absent |
| `Shards.Shard.SetExpiry` | crates/core/src/store.rs:428-440 | sets or clears the expiry of a live key at no cost to the account |
| `Shards.Shard.Incr` | crates/core/src/store.rs:454-485 | the sum or one of three errors, expiry kept, account kept |
| `Shards.Shard.AppendTo` | crates/core/src/store.rs:487-516 | the concatenation, expiry kept, account kept |
| `Shards.Shard.WithCollection` | crates/core/src/store.rs:269-307 | the reference edit; an emptied collection disappears; a wrong type changes nothing |
| `Shards.Shard.Purge` | crates/core/src/store.rs:774-793 | exactly the expired entries go |
| `Shards.Shard.Call` | crates/core/src/store.rs:337-751 | every single-key call: exact answer, exact entries unless the result would not fit the budget, the whole next state a function of the old one, account equal to the sum of costs and within budget |
| `Stores.LazyIsEager` | crates/core/src/store.rs:223-234 | expiring only the key asked for answers and shows the same as deleting everything expired first |
| `Stores.RoutedCall` | crates/core/src/store.rs:325-328 | a call in the key's own shard is a call on the union of all shards |
| `Stores.WithinLimit` | crates/core/src/store.rs:310-322 | the shard accounts together never exceed the limit, even when it is below the shard count |
| `Stores.Store.constructor` | crates/core/src/store.rs:310-322 | an empty store with the given limit and router, its budget split over the smallest power of two of shards that is not below the number asked for |
| `Stores.Store.CallKey` | crates/core/src/store.rs:325-328 | a single-key call on the sharded store is the lazy reference on the union whenever the key's shard has room, and under a limit the next state of that shard and no other |
| `Stores.Store.AllKeys` | crates/core/src/store.rs:795-808 | the live keys of all shards |
| `Stores.Store.Flush` | crates/core/src/store.rs:767-772 | an empty store of the same shape |
| `Stores.Store.Purge` | crates/core/src/store.rs:774-793 | the sweep shows nothing and removes exactly what has expired |
| `Stores.Store.Call` | crates/core/src/store.rs:337-808 | any call: the reference's answer, its visible state unless the shard had no room, and in every case the next state of the whole store as a function of the old one |
| `Stores.Store.NeverOverLimit` | crates/core/src/store.rs:236-248 | the accounted bytes of a valid store with a limit are within it |
| `Stores.Run` | crates/core/src/store.rs:310-808 | any run of calls: without a limit the answers and the visible state of the eager reference; with one, accounted bytes within it at the end, so always; in both cases the run as a function of the calls, on a store with the limit, the router and the shard count asked for |
| `Counters.TallyIsSum` | crates/core/src/store.rs:473-475 | no addition is refused if and only if every partial sum fits |
| `Counters.CounterTally` | crates/core/src/store.rs:454-485 | after any run the counter is the start plus every increment that did not overflow |
| `Counters.CounterAnswers` | crates/core/src/store.rs:454-485 | each increment answers with its own partial result or the overflow error |
| `Counters.CounterExact` | crates/core/src/store.rs:1060-1081 | with partial sums in range the counter ends at the start plus all deltas, for every interleaving of them |
| `Counters.CounterText` | crates/core/src/store.rs:476-482 | the stored text is the decimal of the total |
| `Counters.CountingClients` | crates/core/src/store.rs:1060-1081 | on a real unbounded store with any past that left the key free or numeric, whoever reads after any interleaving gets the text of that number plus all deltas |
| `Glob.MatchClass` | crates/server/src/commands.rs:798-822 | the class loop decides membership and consumes the class, ranges, negation and missing bracket included, in the counted number of rounds |
| `Glob.LaterStarSubsumes` | crates/server/src/commands.rs:824-869 | forgetting an earlier star loses no match |
| `Glob.NoRoomLeft` | crates/server/src/commands.rs:824-869 | running out of text under a star means no match |
| `Glob.GlobMatch` | crates/server/src/commands.rs:797-869 | equals the recursive meaning of the pattern; the work of its rounds, class and trailing-star loops included, is at most \|s\|(\|pat\|+1)+\|pat\|+1 |
| `Replies.WriteBulk` | crates/proto/src/resp.rs:212-219 | appends what encoding a bulk reply gives |
| `Replies.WriteInt` | crates/proto/src/resp.rs:240-249 | appends what encoding an integer reply gives, down to the smallest one |
| `Replies.WriteNull` | crates/proto/src/resp.rs:221-224 | appends the null of either protocol version |
| `Replies.WriteSimple` | crates/proto/src/resp.rs:226-231 | appends what encoding a simple reply gives |
| `Replies.WriteError` | crates/proto/src/resp.rs:233-238 | appends what encoding an error reply gives |
| `FastPath.RunPlan` | crates/server/src/commands.rs:97-303 | a command on the real store leaves the state and gives the outcome of its calls in order, with any limit; without one they are the reference's |
| `FastPath.DispatchOfFast` | crates/server/src/commands.rs:130-134 | dispatch makes the fast path's single call and builds its reply from the same answer |
| `FastPath.FastGet` | crates/server/src/conn.rs:215-222 | the borrowed GET: bytes, flag and next state of the whole store as dispatch and encode give them, with any limit |
| `FastPath.FastSet` | crates/server/src/conn.rs:223-227 | the plain SET: bytes, flag and next state of the whole store as dispatch and encode give them, with any limit |
| `FastPath.FastIncr` | crates/server/src/conn.rs:239-254 | INCR and DECR with their errors: bytes, flag and next state of the whole store as dispatch and encode give them, with any limit |
| `FastPath.ServeFast` | crates/server/src/conn.rs:204-236 | for every command it accepts and every store, limited or not, reply bytes in both versions, write flag and next state of every shard and policy equal those of dispatch then encode; what it declines is untouched |
| `CommandLog.FlagIsExact` | crates/server/src/commands.rs:34-64 | an unflagged command changes nothing visible, and a flagged one is a write command |
| `CommandLog.EvalSeesLive` | crates/server/src/commands.rs:97-303 | a command's outcome depends only on what is visible |
| `CommandLog.LogRebuilds` | crates/server/src/conn.rs:151-159 | replaying only the flagged commands at their own times rebuilds everything visible, expiries included |
| `ExpiryFree.ExecuteIsTimeless` | crates/server/src/commands.rs:424-498 | a command that names no time does the same at any time |
| `ExpiryFree.LoggedIsTimeless` | crates/server/src/conn.rs:151-159 | which of them are logged does not depend on the clock |
| `ExpiryFree.LogRebuildsAnytime` | crates/server/src/persistence.rs:66-91 | the log of an expiry-free history rebuilds the same keyspace whenever it is replayed |
| `Persistence.TornLog` | crates/server/src/persistence.rs:66-91 | for every cut, parsing yields exactly the commands that lie wholly before it |
| `Persistence.WholeLog` | crates/server/src/persistence.rs:66-91 | an uncut log is read back whole |
| `Persistence.ReplayFile` | crates/server/src/persistence.rs:66-91 | the replay loop leaves the store, limited or not, where the parsed commands lead it; an unbounded one shows what they build |
| `Snapshot.RecreateRestores` | crates/core/src/store.rs:861-909 | the recreating command of each type restores exactly its value |
| `Snapshot.ExpiryRestores` | crates/server/src/commands.rs:707-741 | the absolute expiry command restores exactly the expiry, or removes a key whose time has come |
| `Snapshot.RestoreEntry` | crates/core/src/store.rs:812-828 | an entry's one or two commands restore it among what is already restored |
| `Snapshot.SnapshotRoundTrip` | crates/core/src/store.rs:812-828 | replaying a dump at any later times shows the same keys, values, list orders and expiries |
| `Snapshot.EncodeRecreate` | crates/core/src/store.rs:861-909 | the writer emits a recreating command for every type |
| `Snapshot.DumpEntry` | crates/core/src/store.rs:818-824 | one entry's commands, its expiry after its value |
| `Snapshot.DumpCommands` | crates/core/src/store.rs:812-828 | the bytes are the encodings of a dump of exactly the live entries of all shards, each key once |
| `SnapshotLimits.ZSetSurvivesIffPrintable` | crates/core/src/store.rs:892-918 | the recreating command restores a sorted set if and only if every score survives its text form |
| `SnapshotLimits.NegativeZeroIsLost` | crates/core/src/store.rs:912-918 | a sorted set holding negative zero is not restored |
| `SnapshotLimits.ExpirySurvivesIffI64` | crates/server/src/commands.rs:707-741 | an expiry is restored if and only if it fits a signed 64-bit number |
| `SnapshotLimits.EntryRestoredIff` | crates/core/src/store.rs:818-824 | the commands of one entry restore it if and only if it survives, and touch no other key |
| `SnapshotLimits.SnapshotIsExact` | crates/core/src/store.rs:812-828 | with every clock and at every time the replayed dump shows the original, if and only if every score survives its text form and every expiry fits 64 bits |
| `SnapshotLimits.IntegersSurvive` | crates/core/src/store.rs:912-918 | with integral scores printed through the saturating cast and read back as the nearest 64-bit float, exactly those from -2^63 to 2^63, both included, survive |
| `SnapshotLimits.ForeverIsLost` | crates/server/src/commands.rs:424-473 | one SET with the largest PX leads to a dataset whose dump does not restore it |
| `SnapshotLimits.LongListIsLost` | crates/core/src/store.rs:861-872 | a list pushed one item at a time, every command within the parser's limits: its dump restores it up to 1048574 items and restores nothing beyond |
| `SnapshotSizes.RecreateFits` | crates/core/src/store.rs:861-909 | the recreating command of an entry parses back if and only if the entry's sizes fit |
| `SnapshotSizes.DumpFitsIff` | crates/core/src/store.rs:812-828 | every dump of a dataset can be parsed back whole if and only if every entry fits |
| `SnapshotSizes.DrainStops` | crates/proto/src/resp.rs:71-114 | parsing a log stops with an error exactly at the first command that does not fit |
| `RangeLimits.ZrangePastTheEnd` | crates/core/src/store.rs:83-104 | ZRANGE k 5 10 lists the only member of a sorted set |
| `RangeLimits.LrangeToTheLargest` | crates/core/src/store.rs:577-608 | LRANGE to the largest index lists nothing of a non-empty list |
| `RangeLimits.LongLineIsCut` | crates/proto/src/resp.rs:116-125 | a line of 70000 letters is accepted at once and rejected when cut before its last byte |
| `Recovery.LogPrefix` | crates/server/src/conn.rs:151-159 | every prefix of the log is the log of a prefix of the history, the longest that logs no more |
| `Recovery.LogReachGrows` | crates/server/src/conn.rs:151-159 | a longer history and a longer log reach at least as far |
| `Recovery.CrashRecovery` | crates/server/src/persistence.rs:59-91 | a log cut at any byte rebuilds the keyspace after the longest prefix of the history whose log survived whole |
| `Recovery.RecoverLog` | crates/server/src/persistence.rs:59-91 | start-up on a real store with a torn log shows that keyspace |
| `Recovery.DumpRestores` | crates/server/src/persistence.rs:66-91 | replaying the bytes of a dump restores the entries before the first that does not fit, all of them if all fit |
| `Recovery.CopyBySnapshot` | crates/server/src/persistence.rs:98-112 | dump, parse and dispatch into a fresh store of any layout: from then on it shows the original dataset if every entry fits, and otherwise exactly the entries listed before the first that does not |
| `Replication.ServeExtendsLog` | crates/server/src/conn.rs:138-149 | a command served after the dump joins what was flagged since exactly if it is flagged |
| `Replication.PropagateEarly` | crates/server/src/conn.rs:151-160 | a command propagated before the registration reaches nobody, and is lost if it was served after the dump |
| `Replication.PropagateLate` | crates/server/src/conn.rs:160-165 | a command propagated after the registration lengthens the stream by itself, as a repetition if the dump has it |
| `Replication.ReadKeeps` | crates/server/src/repl.rs:108-131 | a read of any size keeps the replica at what the bytes so far encode, and never meets a corrupt frame |
| `Replication.EveryRunKeepsInvariant` | crates/server/src/repl.rs:51-131 | every reachable state of primary, wire and replica satisfies the protocol invariant |
| `Replication.ReplicaHolds` | crates/server/src/repl.rs:108-131 | in every reachable state with the snapshot applied the replica holds the dumped keyspace and on top of it the propagated commands that arrived |
| `Replication.PrimaryHolds` | crates/server/src/conn.rs:138-165 | the primary holds the dumped keyspace and on top of it everything flagged since |
| `Replication.ReplicaFollowsPrimary` | crates/server/src/repl.rs:51-131 | in every reachable state in which nothing harmful raced the handshake, once the snapshot is applied the replica equals the primary after a prefix of what it served, the longest whose flagged commands arrived; read to the end of an unbroken link, it equals the primary |
| `Replication.FrontierAdvances` | crates/server/src/repl.rs:51-131 | whatever steps follow, that prefix does not get shorter, and what was served and applied is only added to |
| `Replication.ReplicaNeverGoesBack` | crates/server/src/repl.rs:105-131 | of two states of a run the later one shows the same moment of the primary's history as the earlier, or a later moment |
| `Replication.ReplicaPartway` | crates/server/src/repl.rs:105-131 | until the snapshot is through, the replica holds exactly the entries of it that arrived, in dump order |
| `Replication.CatchesUp` | crates/server/src/repl.rs:108-131 | with the link up and no harmful race, reading what is left on the wire makes the replica equal to the primary |
| `Replication.RaceIsExact` | crates/server/src/conn.rs:103-165 | at the end of the handshake the replica equals the primary if and only if the commands that raced it change nothing in the dumped keyspace |
| `ReplicationRaces.LostWrite` | crates/server/src/conn.rs:109-113 | a run in which a write between dump and registration is missing from the replica, later writes and an unbroken link notwithstanding |
| `ReplicationRaces.RepeatedWrite` | crates/server/src/repl.rs:11-13 | a run in which an increment served before the dump and propagated after the registration counts twice |
| `ReplicaSession.Socket.WriteAll` | crates/server/src/repl.rs:53-57 | all bytes on success, on failure those before the byte at which the socket fails; it succeeds exactly if that byte lies behind them |
| `ReplicaSession.Aof.Append` | crates/server/src/persistence.rs:34-41 | the command's encoding joins the file, as far as there is room, and success means all of it |
| `ReplicaSession.PassOn` | crates/server/src/conn.rs:153-165 | a flagged command goes to the log, if there is one, and to every replica |
| `ReplicaSession.Registry.AddReplicaWithSnapshot` | crates/server/src/repl.rs:51-58 | a replica is registered only behind a snapshot written whole |
| `ReplicaSession.Registry.Propagate` | crates/server/src/repl.rs:61-69 | every registered socket is written to once and stays, in order, exactly if it took everything |
| `ReplicaSession.ServeAndPropagate` | crates/server/src/conn.rs:138-165 | fast path or dispatch, with any limit: the store, flags and reply of dispatch, the command's encoding to the log and to every replica exactly when it is flagged, and an error reply and the end of the connection exactly when the log could not take it |
| `ReplicaSession.PropagateDelivers` | crates/server/src/repl.rs:61-69 | the wire always carries the snapshot and the feed up to the byte at which the socket fails |
| `ReplicaSession.ServeSync` | crates/server/src/conn.rs:103-114 | the socket gets a dump of the live dataset and is registered only if it took all of it |
| `ReplicaSession.ServeIsSteps` | crates/server/src/conn.rs:138-165 | what the connection loop does with a command is a serve and a propagate step of the protocol, and it is flagged exactly if the protocol logs it |
| `ReplicaSession.SyncIsSteps` | crates/server/src/conn.rs:103-114 | what `SYNC` does is a dump and a register step of the protocol |
| `ReplicaSession.ApplyBuffer` | crates/server/src/repl.rs:113-130 | the inner loop applies every whole frame, to a limited store or not, and keeps the rest |
| `ReplicaSession.SyncOnce` | crates/server/src/repl.rs:105-132 | a session applies exactly the commands the reads carry, to a limited store or not, whatever the reads' sizes |
| `ReplicaSession.SessionFollows` | crates/server/src/repl.rs:89-132 | the primary's bytes cut after any of them and read in any pieces give a moment of its past, the last whose flagged commands are among them, if nothing harmful raced the handshake |
| `ReplicaSession.RunReplica` | crates/server/src/repl.rs:89-132 | an empty unbounded replica store shows that moment after the session |
| `ReplicatedStores.RunCommands` | crates/server/src/conn.rs:79-165 | any script on a real store, log, registry and socket is a run of the protocol, and the log file holds the flagged commands as far as there is room |
| `ReplicatedStores.PrimarySession` | crates/server/src/conn.rs:79-165 | a script, `SYNC` and another script are a run of the protocol without a race, whenever the socket or the disk fails; the store shows what the scripts build and the log file is their log |
| `ReplicatedStores.ArrivedShows` | crates/server/src/repl.rs:105-132 | the first bytes of the wire, read in any pieces and applied at any times, are the entries of the snapshot among them or the primary's keyspace after the longest prefix whose flagged commands are |
| `ReplicatedStores.Receive` | crates/server/src/repl.rs:89-132 | a fresh replica store shows exactly that from its last command on |
| `ReplicatedStores.Replicate` | crates/server/src/repl.rs:51-132 | between two real stores: the primary shows what the scripts build, the socket holds a dump and the flagged commands up to the byte it fails at, the replica applies the whole commands before the cut and shows exactly what they stand for; if nothing failed, what the primary shows |
| `ReplicatedStores.Restart` | crates/server/src/persistence.rs:34-91 | the primary's own log file, cut at any byte or by a full disk and loaded into a fresh store of any layout, shows the primary's keyspace after the longest prefix whose log survived whole |

## Left out

- Sockets, TLS, the io_uring runtime, threads, file-system calls and configuration: input and output only. File contents and reads are byte sequences, and a socket accepts bytes until it fails.
- The hash functions and locks: hashes are arbitrary functions of the key (the masked index is a remainder by a power of two), and a single-key call is one atomic step.
- Floating point: a score is its key in the IEEE 754 total order, and its two text forms are parameters; the shortest-digits printer is not modelled.
- Replies that only describe the server (HELLO, CLIENT, CONFIG, INFO, COMMAND, AUTH, DBSIZE, SAVE and BGSAVE) are one opaque reply, and so is the quotation of an unknown command name outside ASCII; listings whose order is the hash order are unordered, and the map, boolean and double reply forms are not modelled.
- The authentication gate and the read-only gate of the connection loop: two early replies before dispatch.
- `usize` overflow of byte accounts and of lengths.
- Shards and the policy hold mathematical maps where the source holds the flat index, and a stored sorted set is its score map where the source holds a map and an ordered index; `FlatMaps.FlatMap` and `ZSets.ZSet` are proved to be such.
- The borrowed and the cloning string read (`read_str` and `get`) are one call of the model, so that GET has the same effect on the store through both paths holds by construction; their replies are compared.
- Bulk-string parsing is one method called by both parsers where the source repeats it.
- Read-your-writes under a memory limit: eviction may take the key just written.
- Queue lengths of the policy: stale references accumulate, so only membership is claimed.
- Replaying a log that sets expiries at other times than the original: relative times are logged as given.
- Repeated crashes: the log is reopened for append behind a torn tail.
- Replicas that reconnect, and several writing connections at once.
- Atomicity of commands over several keys or shards, and dumps taken while a command runs.
- FastPath.ServeFast: stored strings are assumed shorter than 2^64 bytes, as any addressable one is.
- ReplicaSession.ServeAndPropagate: leaves open the bytes of replies that have no modelled wire form, the opaque and unordered ones named above.
- ReplicatedStores.Replicate: commands that name no time, served one after the other, `SYNC` between two of them, and a dataset that a snapshot can carry; races and other datasets are covered by the protocol and snapshot results.
- S3Fifos.S3Fifo.StepSmall: the branch for a drained queue is not written out, because `S3Fifos.LiveIsQueued` shows it is never reached.
- S3Fifos.S3Fifo.StepMain: the same holds for its drained branch.
- Replication.ReplicaFollowsPrimary: covers one session of one replica and one writing connection, commands that name no time, an unbounded replica, and frames and scores within the limits of the snapshot theorem.
