# Arbore, modelled and proved

Arbore is a peer-to-peer file store. Its nodes and its data live on a ring of
160-bit keys, routed with a leafset and a prefix table in the manner of Pastry
and Chimera. This project models four parts of it in Dafny and proves what they
keep over whole networks and whole runs.

**Routing.** `KeyLimbs` and `KeyStrings` are the five-limb keys, their borrow
subtraction, order, distance, printing and parsing. `Keys` is the same arithmetic
on numbers, and every other module uses those numbers. `Leafsets` is the pair of
bounded sorted vectors; `NearestLeaves` says what they hold, `LeafsetNetwork`
where lookups lead in a filled network, `Ownership` who claims a key.
`TableCells` is the prefix table as a value and what a lookup makes of it,
`RoutingTables` the vector and its loops, `PrefixRouting` what a chain of hops
gains. `Routings` puts leafset and table together, `Delivery` says which nodes
the two always reach, `InvalidHosts` when they have no host to give. `Hosts` is
the success window of a host. `RouteRuns` is `Chimera::Route` as a function of
what the node knows and what the wire does, `RouteEnds` answers the question its
author left in the resend loop: when it ends. `Retries` runs it on the objects.

**Sparse files.** `FileChunks` is the interval algebra and the byte buffers,
`FileLists` the list of chunks seen as a partial map from offsets to bytes,
`FileContents` the operations on that list and on the disk copy, `Requests` the
dispatch of pending chunks over the peers that share a file.

**Wire format.** `ByteOrder` is network byte order down to the bytes in memory,
`Wire` the encoded values, `Packets` the schema-driven arguments and the packet,
`PacketLayouts` where each byte lies and what an accepted buffer must hold.

**Scheduler.** `SchedulerQueues` is the job queue and one pass over it by a
single worker. `SchedulerConcurrency` is any number of workers and callers
interleaving on that queue.

## Reading the model

- Classes and methods follow the source where it updates fields in place. Each
  such method is proved against a function on values; the properties are lemmas
  about those functions.
- A host is an object with a fixed key. Where hosts meet in a network, distinct
  hosts have distinct keys.
- Clocks, handler answers, and whether the network, the disk or a write works
  are parameters. Times, latencies and success averages are `real`; `BAD_LINK`
  is the exact value of the double nearest to 0.3, and it matters: an average of
  6/20 is above it.
- `std::set` and `std::map` are sequences in iteration order.
- The pending requests and the sharers of a `FileContent` are a class of their own,
  `Requests.RequestQueue`; they share no state with the chunk list.
- A reader that would run past its buffer yields nothing.
- A table index past the end of the vector is an outcome of the lookup
  (`OutOfRange`), as `vector::at` throws there; `Thrown` is the exception on its
  way out of `Routing::routeLookup` and `Route`.
- The resend loop need not end, so the model runs it for a given number of rounds
  and says where it stands then (`Sending`), for every such number.

## Where the code and its documentation part

- `leafset.h` says that a key inside the leafset is answered with the peer
  responsible for it. The code returns a host only for an equal key; for any
  other key it returns the extremity, also when the key lies between two leaves.
  `LeafsetNetwork.SettlesIff` says which keys a walk comes to rest for.
- A comment in `Route` asks whether its loop is infinite. It can be, in three
  ways, and `RouteEnds.EndsIff` says exactly when. A lookup may give the invalid
  host (`InvalidHosts.NoHostIff`), after additions of good hosts only
  (`InvalidHosts.ReachInvalidHost`), and a failed send to it records nothing and
  removes nothing but a host with key 0. A lookup may give the local host, which
  is never removed, so that failed sends to it go on
  (`RouteEnds.NothingWorks`). And a closed socket records no failure, so that a
  good host is tried again and again. With no table entry at depth 1 of column 0,
  an open socket and sends to itself that work, the loop ends
  (`RouteEnds.SparseEnds`).
- A lookup can also throw out of `Route` (`InvalidHosts.ThrownIff`), because the
  clockwise walk of the table looks into a column that does not exist.
- `chimera.h` describes `ClosestTo` as being the closest known host. The code
  compares with the nearest leaf on each side only, so two nodes around key 0
  can both claim (`Ownership.TwoOwnersAcrossZero`); `Ownership.OneOwnerIff`
  says exactly when one does.
- `key.h` says that a short hexadecimal string is a key. Parsing writes only the
  limbs the string reaches (`KeyStrings.ParseIsExactIff`).
- `key_index` walks 40 characters of a 42-character string that starts with
  "0x": it is at least 2, and the last two digits never count.
- The ring distance is taken modulo 2^160 - 1, so key 0 and the greatest key are
  at distance 0.
- `SetChunk` over held bytes may drop the end of a chunk or insert an empty
  chunk at offset 0 (`FileLists.EndIsDropped`, `EmptyIsInserted`).
  `SetChunkView`, `SetChunkCompleteIff` and `SetChunkWellFormedIff` say exactly
  when.
- A failed write in `SyncToHdd` drops the chunk from memory all the same
  (`FileContents.FlushKeepsFileIff`, `FailedWriteLosesByte`).
- A worker's look at the queue and its pop are separate holds of the lock, so a
  job can be started before its time (`SchedulerConcurrency.StartsEarlyIff`).

## Model

| member | source | states |
|---|---|---|
| Keys.DistanceIsShorterArc | lib/util/key.cpp:215-228 | the distance is the shorter of the two arcs on a ring of 2^160 - 1 points, symmetric, at most Key_Half, and zero only for equal keys and the pair of 0 and Key_Max |
| Keys.DistanceTriangle | lib/util/key.cpp:215-228 | the triangle inequality |
| Keys.Common | lib/util/key.cpp:258-278 | the first digit in which two keys differ: all before agree, that one does not |
| Keys.KeyIndex | lib/util/key.cpp:258-278 | two more than the shared digits, never below 2, and 39 as soon as 37 digits are shared |
| Keys.SharedDigitsAreClose | lib/util/key.cpp:174-184 | numbers of w digits that share the first n differ by less than 16^(w-n) |
| Keys.PrefixBoundsDistance | lib/util/key.cpp:258-278 | the row index bounds the ring distance: the longer the common prefix, the nearer |
| KeyLimbs.Less | lib/util/key.cpp:162-172 | the limb loop decides the numeric order |
| KeyLimbs.Greater | lib/util/key.cpp:150-160 | the limb loop decides the numeric order |
| KeyLimbs.ValInjective | lib/util/key.cpp:132-139 | limb-wise equality is equality of the numbers |
| KeyLimbs.BorrowStep | lib/util/key.cpp:339-372 | one round of the borrow loop keeps the partial difference exact up to the outstanding borrow |
| KeyLimbs.Subtract | lib/util/key.cpp:339-372 | exactly a - b when a >= b, else zero |
| KeyLimbs.InitMax | lib/util/key.cpp:290-298 | the limbs denote 2^160 - 1 |
| KeyLimbs.InitHalf | lib/util/key.cpp:300-309 | the limbs denote 2^159 - 1 |
| KeyLimbs.DistanceTo | lib/util/key.cpp:215-228 | the limb computation gives the ring distance of the two numbers |
| KeyStrings.GetStrIsDigits | lib/util/key.cpp:174-184 | a printed key is "0x" and the forty hexadecimal digits of its number |
| KeyStrings.KeyIndexOf | lib/util/key.cpp:258-278 | comparing printed keys character by character computes the row index defined on numbers |
| KeyStrings.HexalphaToInt | lib/chimera/routing_table.cpp:213-227 | the value of a lower-case digit, 0 for any other character |
| KeyStrings.Parse | lib/util/key.cpp:96-121 | the parsing loop sets eight digits a limb from the right and keeps the limbs it does not reach |
| KeyStrings.StripOfDigits | lib/util/key.cpp:96-121 | a string of digits loses nothing before it is parsed, and one that starts with "0x" only that |
| KeyStrings.StripElsewhere | lib/util/key.cpp:96-121 | with "0x" behind two or more digits, the first two digits are dropped and "0x" stays |
| KeyStrings.ParseLong | lib/util/key.cpp:96-121 | of a string with more digits than the limbs hold only the last ones count |
| KeyStrings.AssignedValue | lib/util/key.cpp:96-121 | the number after parsing is the number written plus what the untouched limbs held |
| KeyStrings.ParseIsExactIff | lib/util/key.cpp:96-121 | a string of at most 40 digits gives its number exactly when the untouched limbs were zero |
| KeyStrings.ShortKeyKeepsStaleLimbs | lib/util/key.cpp:96-121 | an input for which it does not |
| KeyStrings.PrintThenParse | lib/util/key.cpp:96-121 | parsing a printed key restores it, whatever the target held |
| Hosts.Host.constructor | lib/net/host.cpp:88-106 | a new host has ten failures followed by ten successes on record and average one half |
| Hosts.Host.UpdateStat | lib/net/host.cpp:113-131 | the circular buffer drops the oldest outcome and appends the new one, and the average follows |
| Hosts.LatencyStaysInRange | lib/net/host.cpp:133-142 | over every run of samples the latency of a new host lies among the samples that are not negative, or is still 0 when there is none |
| Hosts.LatencyConverges | lib/net/host.cpp:133-142 | under equal samples, after any run, the difference between latency and sample shrinks by a tenth each time, and a latency below 0.00001 is replaced at once |
| Hosts.BadLinkIff | lib/net/host.cpp:113-131 | a link is bad exactly when at most five of the last twenty sends worked |
| Hosts.FifteenFailuresAreBad | lib/net/host.cpp:113-131 | fifteen failures in a row make any link bad, whatever came before |
| Hosts.FreshHostTurnsBad | lib/net/host.cpp:88-131 | for a new host exactly fifteen are needed |
| Leafsets.Leafset.Add | lib/chimera/leafset.cpp:51-120 | a host whose key is there or is the local one changes nothing; any other goes on the side of its key behind all that are nearer to the local key and before all that are farther, and of five the farthest is dropped; the result tells whether anything changed |
| Leafsets.Leafset.Remove | lib/chimera/leafset.cpp:122-152 | of each side exactly the host with the key goes and every other stays in order, so that the keys are the old ones without that one; the result tells whether there was one |
| Leafsets.Leafset.Clear | lib/chimera/leafset.cpp:154-159 | both sides are empty, the local host stays |
| Leafsets.Leafset.KeyUpdate | lib/chimera/leafset.cpp:161-166 | an empty leafset around the new host |
| Leafsets.Leafset.RouteLookup | lib/chimera/leafset.cpp:168-201 | a host with that very key, else the leaf with the greatest key if the key is above the local one, the least if below, else the local host; the flag tells whether the key is stored |
| Leafsets.Inserted | lib/chimera/leafset.cpp:60-89 | the insertion loop of one side refines sorted insertion followed by truncation |
| Leafsets.RemovesTheHost | lib/chimera/leafset.cpp:122-152 | on values and without the removal function: each side is the old one without the one host that has the key |
| Leafsets.AddsTheHost | lib/chimera/leafset.cpp:51-120 | the same for an addition |
| Leafsets.LookupIsAnswer | lib/chimera/leafset.cpp:168-201 | and for a lookup: in a valid leafset the extremity on the side of the key is the farthest leaf there |
| Leafsets.RunKeepsValid | lib/chimera/leafset.cpp:51-166 | every run of additions, removals and key updates keeps order, side, bound and distinctness |
| NearestLeaves.AddsKeepTheNearest | lib/chimera/leafset.cpp:51-120 | after any additions a side holds exactly the nearest of all the keys added on that side, nearest first |
| NearestLeaves.FilledSides | lib/chimera/leafset.cpp:51-120 | each side is the nearest of the keys added there, has four hosts, or all there are if fewer, and each of them was added |
| NearestLeaves.NearestIsUnique | lib/chimera/leafset.cpp:51-120 | being the nearest four determines the keys and their order |
| NearestLeaves.AdditionOrderIsIrrelevant | lib/chimera/leafset.cpp:51-120 | the order and repetition of additions do not matter |
| LeafsetNetwork.NeighboursAreLeaves | lib/chimera/leafset.cpp:51-120 | in a network where everyone added everyone else, the leaves of a node are its four neighbours in rank either way |
| LeafsetNetwork.HopTowardsNode | lib/chimera/leafset.cpp:168-201 | one lookup towards an existing node moves four ranks, or all the way if it is nearer |
| LeafsetNetwork.HopTowardsAbsent | lib/chimera/leafset.cpp:168-201 | one lookup towards a key no node has moves four ranks up or down, or to the end of the key line |
| LeafsetNetwork.ArrivesInExactly | lib/chimera/leafset.cpp:168-201 | iterating the lookup reaches a node r ranks away after ceil(r/4) hops and after no smaller number |
| LeafsetNetwork.StaysThere | lib/chimera/leafset.cpp:168-201 | and then rests there |
| LeafsetNetwork.RestsOnlyAtEnds | lib/chimera/leafset.cpp:168-201 | a lookup returns the local node exactly for its own key or beyond the end of the key line |
| LeafsetNetwork.AbsentKeyNeverSettles | lib/chimera/leafset.cpp:168-201 | a key between the nodes that belongs to none is passed on for ever |
| LeafsetNetwork.ReachesAndRests | lib/chimera/leafset.cpp:168-201 | the key of a node, or one beyond an end of the key line, is at its node, or at that end, after n hops exactly if n is at least ceil(r/4) |
| LeafsetNetwork.SettlesIff | lib/chimera/leafset.cpp:168-201 | a walk comes to rest exactly for the key of a node or a key beyond either end |
| Ownership.ClosestTo | lib/chimera/chimera.cpp:111-128 | the test compares with the first leaf of each side, a tie going to the lower key |
| Ownership.ClaimsIsLocal | lib/chimera/chimera.cpp:111-128 | in a filled network the test is a comparison with the two neighbours in rank |
| Ownership.SomeNodeClaims | lib/chimera/chimera.cpp:111-128 | every key has an owner: the nearest node, the lower among equals, claims it |
| Ownership.OneOwnerWithoutWrap | lib/chimera/chimera.cpp:111-128 | when no plain difference exceeds Key_Half, a node claims exactly if it is the nearest |
| Ownership.InteriorClaimIsRight | lib/chimera/chimera.cpp:111-128 | a node with neighbours on both sides claims only if it is nearest, also across the wrap |
| Ownership.OneOwnerIff | lib/chimera/chimera.cpp:111-128 | the owner is unique exactly when the ends of the key line, unless nearest, lose to their neighbour, and 0 and Key_Max are not both nodes with that point nearest (in a network of four or more) |
| Ownership.SecondClaimant | lib/chimera/chimera.cpp:111-128 | in the latter case the node before Key_Max ties with node 0 and claims as well |
| Ownership.TwoOwnersAcrossZero | lib/chimera/chimera.cpp:111-128 | a network of three in which two nodes claim key 0, one of them not the nearest |
| TableCells.IndexIsBijective | lib/chimera/routing_table.cpp:36-49 | rows, columns and depths correspond one to one to the indices of the flat vector |
| TableCells.FirstRowsEmpty | lib/chimera/routing_table.cpp:91-132 | rows 0 and 1 of a well-placed table are empty |
| TableCells.BestUsableIsChosen | lib/chimera/routing_table.cpp:236-259 | the selection is a usable entry that no usable entry of the cell beats in prefix, success and latency, and none only if none is usable |
| TableCells.BestUsableInNumbers | lib/chimera/routing_table.cpp:236-259 | in numbers: its average is above BAD_LINK, and by shared prefix, then success, then latency it is ahead of all usable ones before it or as good, and ahead of all after it |
| TableCells.WorstAndBestInNumbers | lib/chimera/routing_table.cpp:161-211 | the worst entry has the least success and of those the greatest latency, the best the other way round |
| TableCells.ClockwiseIs | lib/chimera/routing_table.cpp:262-303 | the clockwise candidate stands at depth 1 of column 0 in the first row in which the local cell is not right of where the walk comes in, or is the local host |
| TableCells.CounterStops | lib/chimera/routing_table.cpp:304-343 | left of the wanted cell the first cell that is not empty gives the counter-clockwise candidate, unless the local cell comes first |
| TableCells.CounterGoesDown | lib/chimera/routing_table.cpp:304-343 | the local cell sends the walk on from the last column of the next row, and behind the last row to the local host |
| TableCells.CounterRunsOut | lib/chimera/routing_table.cpp:304-343 | with nothing on the way to column 0 the candidate is the local host, and from column 0 itself the best entry there if there is one |
| TableCells.FoundIsNearer | lib/chimera/routing_table.cpp:345-361 | a host found without a match is one of the two candidates and no farther from the key than either; on a tie only the local host is given |
| TableCells.ThrowsIff | lib/chimera/routing_table.cpp:262-303 | a table lookup throws exactly when nothing in the cell of the key is usable and depths 1 and 2 of column 0 are taken in the row where the clockwise walk passes the last column |
| TableCells.InvalidIff | lib/chimera/routing_table.cpp:345-361 | it gives the invalid host exactly when nothing in the cell is usable and the clockwise candidate is another host, as far from the key as the counter-clockwise one |
| TableCells.LookupIsSeen | lib/chimera/routing_table.cpp:229-362 | a host that is found is the local one or stands in the table |
| TableCells.EmptiesTheFirst | lib/chimera/routing_table.cpp:134-159 | a removal empties the first cell with the key and no other |
| RoutingTables.RoutingTable.Clear | lib/chimera/routing_table.cpp:51-55 | no cell is occupied |
| RoutingTables.RoutingTable.KeyUpdate | lib/chimera/routing_table.cpp:84-89 | an empty, well-placed table for the new host |
| RoutingTables.RoutingTable.FindWorstEntry | lib/chimera/routing_table.cpp:161-185 | the first worst entry, by success then latency, of those before the first gap; none only in an empty cell |
| RoutingTables.RoutingTable.FindSlot | lib/chimera/routing_table.cpp:105-122 | the scan of a cell stops at the entry itself, at the first gap, or at the end |
| RoutingTables.RoutingTable.Add | lib/chimera/routing_table.cpp:91-132 | every stored host stays in the row and column its key calls for, the local key never enters; the whole new table: unchanged, the first gap filled, or the worst entry of the full cell replaced |
| RoutingTables.RoutingTable.Remove | lib/chimera/routing_table.cpp:134-159 | an entry with the key goes if there is one anywhere in the table, and it is the first with it; every other cell is as it was |
| RoutingTables.BestEntry | lib/chimera/routing_table.cpp:407-434 | the first of two entries only if it beats the second in prefix, then success, then latency |
| RoutingTables.ChooseFrom | lib/chimera/routing_table.cpp:236-259 | the loop makes the selection, which no usable entry of the cell beats |
| RoutingTables.RoutingTable.PerfectMatch | lib/chimera/routing_table.cpp:236-259 | the same for the cell of the key |
| RoutingTables.RoutingTable.FindBestEntry | lib/chimera/routing_table.cpp:187-211 | the first best entry, by success then latency, of those before the first gap; none exactly if the first depth is empty; thrown exactly if the scan leaves the vector |
| RoutingTables.RoutingTable.ClockwiseBest | lib/chimera/routing_table.cpp:262-303 | the walk looks at no cell until it has ended; its candidate is then what stands at depth 1 of column 0 in the row it crosses, the local host if nothing does, and it throws if depth 2 is taken as well |
| RoutingTables.RoutingTable.CounterClockwiseBest | lib/chimera/routing_table.cpp:304-343 | the walk ends and never throws; its candidate is the best entry of the first cell on the way that is not empty, or the local host |
| RoutingTables.RoutingTable.RouteLookup | lib/chimera/routing_table.cpp:229-362 | the selection in the cell of the key, else the nearer of the two candidates, with the invalid host and the throw as `TableCells.InvalidIff` and `ThrowsIff` say; the flag tells whether the cell had a usable entry |
| PrefixRouting.MatchIsPerfectHop | lib/chimera/routing_table.cpp:229-259 | whenever the cell of the key has a usable entry, the lookup takes a perfect-match hop |
| PrefixRouting.HopLengthensPrefix | lib/chimera/routing_table.cpp:229-259 | a perfect-match hop strictly lengthens the common prefix below 38 digits, and never falls back below 38 |
| PrefixRouting.ChainGains | lib/chimera/routing_table.cpp:229-259 | t hops gain at least t digits until 38 are shared |
| PrefixRouting.ChainSettles | lib/chimera/routing_table.cpp:229-259 | after at most 38 hops 38 digits agree and the distance is below 256 |
| PrefixRouting.SettledNodesMayPingPong | lib/chimera/routing_table.cpp:229-259 | beyond that any two nodes sharing 38 digits with the key can have tables that send it back and forth |
| Routings.Routing.Add | lib/chimera/routing.cpp:42-49 | the leafset first; the table exactly when the leafset did not change |
| Routings.Routing.Remove | lib/chimera/routing.cpp:51-58 | one copy goes exactly when a host with the key is stored anywhere: the leaf with the key if there is one, and then the table is untouched, else the first entry with it, and then the leafset is; everything else stays |
| Routings.Routing.RouteLookup | lib/chimera/routing.cpp:60-97 | the leaf with the key, else a perfect match, else the nearer of what leafset and table offer, the invalid host counting as key 0 |
| Routings.LookedIsKnown | lib/chimera/routing.cpp:60-97 | a host that is found is the local one or stored |
| Routings.DropsTheCopy | lib/chimera/routing.cpp:51-58 | which copy a removal takes, on values |
| Routings.AnswerIsDirect | lib/chimera/routing.cpp:60-78 | for the local key the local host, for the key of a leaf the host with it, and for a cell with a usable entry one of its usable entries |
| Routings.AnswerIsNearer | lib/chimera/routing.cpp:79-97 | otherwise the answer is the host of the leafset or the host of the table and no farther from the key than either; on a tie the one of the table, unless that of the leafset is the local host |
| Routings.LeafsetDecides | lib/chimera/routing.cpp:60-97 | with an empty table: the farthest leaf towards the key if it is nearer to the key than the local host, else the local host |
| Delivery.LeafHop | lib/chimera/routing.cpp:60-97 | in a network with filled leafsets the key of a node at most four ranks away is sent there at once |
| Delivery.TableHop | lib/chimera/routing.cpp:60-97 | that of a node farther away, with a usable entry in its cell, is sent to a node that shares more digits with it, or 38 |
| Delivery.DeliversWithin40 | lib/chimera/routing.cpp:60-97 | with such an entry in every table for every node that is no leaf, each node is reached from each in 40 hops and kept, if no node has two others that share 38 digits with it and are no leaves of it |
| Delivery.DeliversWithin39 | lib/chimera/routing.cpp:60-97 | in 39 if none has even one |
| Delivery.CrowdedGoesAround | lib/chimera/routing.cpp:60-97 | if one has two, there are such tables that send its key to and fro between the two for ever |
| Delivery.DeliversIff | lib/chimera/routing.cpp:60-97 | so all nodes are always reached exactly if no node has two |
| InvalidHosts.NoHostIff | lib/chimera/routing.cpp:60-97 | the lookup gives the invalid host exactly when neither leafset nor perfect match answers, the two table candidates tie and are not the local host, and key 0 is nearer to the key than the leafset's answer, or as near and that answer is not the local host |
| InvalidHosts.ThrownIff | lib/chimera/routing.cpp:60-97 | it throws exactly when neither answers and the clockwise walk leaves the vector |
| InvalidHosts.ReachInvalidHost | lib/chimera/routing.cpp:42-97 | eleven additions of hosts with good links after which a lookup gives the invalid host and no host with key 0 is stored |
| InvalidHosts.SendForEver | lib/chimera/chimera.cpp:214-228 | from there, with sends to the invalid host failing, any number of rounds of the loop is made and leaves the node as stuck as it was |
| InvalidHosts.ReachThrow | lib/chimera/routing.cpp:42-97 | one more addition, and the same lookup throws |
| RouteRuns.AffordStep | lib/net/host.cpp:113-131 | of the failures a host can afford, at most fourteen, one is used up by each failure that leaves its link good |
| RouteRuns.DroppedKeeps | lib/chimera/routing.cpp:51-58 | one copy fewer exactly if the key was stored, nothing changed if not; which copy goes; order, places and what is known of hosts are kept |
| RouteRuns.OtherTurnsPay | lib/chimera/chimera.cpp:214-228 | a failed round that is not idle uses up a failure some host can afford, or drops a copy |
| RouteRuns.IdleRepeats | lib/chimera/chimera.cpp:214-228 | after an idle one (a send to the local host, to the invalid host with no key 0 stored, or through a closed socket to a good host) leafset and table are as before and the lookup answers the same |
| RouteRuns.FailureOfHost | lib/chimera/chimera.cpp:214-228 | after a failed send to a stored host leafset and table are unchanged exactly if the average of its window, with one more failure if the socket is open, is at least BAD_LINK; else exactly one copy of its key is gone |
| RouteRuns.FailureOfOthers | lib/chimera/chimera.cpp:214-228 | a failed send to the local host changes neither, and one to the invalid host costs at most a copy of key 0 |
| RouteRuns.SurvivesIff | lib/chimera/chimera.cpp:214-228 | a host stored once is still stored after f failed sends to it exactly if none of the f made its average fall below BAD_LINK |
| RouteRuns.NewHostSurvivesIff | lib/chimera/chimera.cpp:214-228 | a new host survives f failed sends exactly if f is less than 15 |
| RouteRuns.UsableIff | lib/chimera/routing_table.cpp:236-259 | a match is usable for a lookup exactly if its average would spare it in the loop, that is with at least six successes on record |
| RouteRuns.StartIs | lib/chimera/chimera.cpp:179-211 | a packet for the local key is delivered and nothing changes; a JOIN answered with its own key loses that copy and no more; then delivery, throw or first send, each exactly as the lookup says |
| RouteEnds.OutcomeIsLookedUp | lib/chimera/chimera.cpp:179-237 | delivery here, forwarding, the throw and going on each come with the last lookup that says so and with the sends made for it: none, one that worked as the last, or as many as rounds |
| RouteEnds.BeyondTheBoundItSpins | lib/chimera/chimera.cpp:214-228 | with H hosts in C copies, whatever the network does: a packet still being sent after more than 14 H + C failed sends makes only idle rounds from then on |
| RouteEnds.EndsIff | lib/chimera/chimera.cpp:213-228 | routing ends exactly if it has ended after 14 H + C + 1 rounds or a later send to the place it then sends to works |
| RouteEnds.StuckFromTheStart | lib/chimera/chimera.cpp:192-228 | if the lookup gives the invalid host, no key 0 is stored and sends to the invalid host fail, it is sent to for ever |
| RouteEnds.SparseAnswers | lib/chimera/routing.cpp:60-97 | with no entry at depth 1 of column 0 in any row, every lookup gives a host |
| RouteEnds.SparseNeverFails | lib/chimera/chimera.cpp:179-237 | then no run throws or sends to the invalid host |
| RouteEnds.SparseSpinsAtMe | lib/chimera/chimera.cpp:214-228 | and with an open socket it is only to the local host that it sends for ever |
| RouteEnds.SparseEnds | lib/chimera/chimera.cpp:179-237 | so if those sends work, it ends within 14 H + C + 1 rounds, delivering or forwarding |
| RouteEnds.NothingWorks | lib/chimera/chimera.cpp:214-228 | if no send works, such a node delivers here at once or sends for ever |
| RouteEnds.JoinGoesElsewhere | lib/chimera/chimera.cpp:192-204 | a JOIN is first sent to a host with its own key only if a copy of that key was removed and another was stored |
| Retries.Network.Send | lib/net/network.cpp:253-307 | through a closed socket a send fails and records nothing; else a failed one records one failure in the window of that host, the local one included, and one that works changes no host |
| Retries.Network.SendVoid | lib/net/network.cpp:253-307 | a send to the invalid host, whether it works or not, changes no host |
| Retries.SendNow | lib/chimera/chimera.cpp:215-216 | of all windows and latencies one window at most changes, and a failure is timed |
| Retries.Recover | lib/chimera/chimera.cpp:222-226 | a key to be dropped loses one copy, and the loop goes on with what the lookup gives then |
| Retries.VoidRound | lib/chimera/chimera.cpp:214-228 | a round of the invalid host drops key 0 if its send fails, and nothing otherwise |
| Retries.HostRound | lib/chimera/chimera.cpp:214-228 | a send that works leaves leafset and table as they are; when one to a stored host fails, they are so exactly if the average of its window is then at least BAD_LINK, else one copy of its key is gone |
| Retries.Turn | lib/chimera/chimera.cpp:214-228 | a round leaves node and next hop as `RouteRuns.AfterFailure` and the lookup say |
| Retries.FirstHop | lib/chimera/chimera.cpp:192-204 | what the lookup gives; for a JOIN whose answer has the very key, what it gives once a copy of that key is gone |
| Retries.RetryLoop | lib/chimera/chimera.cpp:213-228 | after any number of rounds the loop stands where that many of `RouteRuns.AfterTurns` lead |
| Retries.Route | lib/chimera/chimera.cpp:179-237 | outcome, leafset, table, windows and number of sends are those of `RouteRuns.Routed`, for any network and any number of rounds; the outcome is tied to the last lookup; beyond 14 H + C rounds it spins, and does not with a table as in `SparseEnds` |
| FileChunks.OverlapsIff | lib/files/file_chunk_desc.cpp:63-83 | overlapping is sharing an offset, and it is symmetric; containing is having all offsets |
| FileChunks.CommonPartIsIntersection | lib/files/file_chunk_desc.cpp:69-78 | the common part has exactly the shared offsets |
| FileChunks.FileChunk.constructor | lib/files/file_chunk.cpp:36-47 | a chunk over a copy of the bytes |
| FileChunks.FileChunk.Merge | lib/files/file_chunk.cpp:118-136 | the buffer, in place, gets the bytes of the other chunk where the two overlap |
| FileChunks.Merged | lib/files/file_chunk.cpp:118-136 | same extent; the other chunk's byte wherever it has one, the old byte elsewhere |
| FileChunks.FileChunk.Concatenate | lib/files/file_chunk.cpp:138-173 | the new buffer holds the old bytes followed by the other chunk's |
| FileChunks.Joined | lib/files/file_chunk.cpp:138-173 | from the start of the first to the end of the second; a chunk without data takes over the other |
| FileChunks.FileChunk.GetPart | lib/files/file_chunk.cpp:175-189 | a fresh chunk with the bytes of the common part; the original keeps its bytes |
| FileChunks.Part | lib/files/file_chunk.cpp:175-189 | the common extent with the same bytes, or the empty chunk at offset 0 |
| FileLists.SetChunkView | lib/files/file_content.cpp:258-311 | after one SetChunk of any nonempty chunk, the byte at every offset: no held byte is lost, those in range are overwritten, none outside changes, and which new ones are taken |
| FileLists.SetChunkWellFormedIff | lib/files/file_content.cpp:258-311 | the list stays sorted, disjoint and without empty chunks exactly unless what is touched reaches the end of the write and another chunk follows |
| FileLists.SetChunkCompleteIff | lib/files/file_content.cpp:258-311 | exactly when all of the written chunk is held afterwards |
| FileLists.EndIsDropped | lib/files/file_content.cpp:258-311 | four bytes written over a list that holds the first two: the last two are not held afterwards |
| FileLists.EmptyBefore | lib/files/file_content.cpp:258-311 | whenever what is touched reaches the end of the write and another chunk follows, an empty chunk at offset 0 comes before it and all from there on move up |
| FileLists.EmptyIsInserted | lib/files/file_content.cpp:258-311 | a write inside a chunk that another follows inserts an empty chunk at offset 0 between them |
| FileLists.DisjointSetChunk | lib/files/file_content.cpp:258-311 | a chunk that shares no held byte is added as a union and keeps the list well formed |
| FileLists.TruncateView | lib/files/file_content.cpp:313-349 | truncation is restriction to the offsets below the cut |
| FileLists.Run | lib/files/file_content.cpp:258-349 | every run of disjoint writes and truncations keeps the list well formed and equal, offset by offset, to the partial map |
| FileContents.FileContent.LoadFd | lib/files/file_content.cpp:83-102 | the size known afterwards, and the reset to zero on failure |
| FileContents.FileContent.SetChunk | lib/files/file_content.cpp:258-311 | the loops compute the list of `FileLists.WithChunk`, drop one equal pending request and mark the file as unsynced |
| FileContents.WithoutFirstIs | lib/files/file_content.cpp:264-269 | of the requests out, the first equal to the chunk goes, and only that one |
| FileContents.FileContent.MergeFrom | lib/files/file_content.cpp:289-294 | the loop merges the chunk into every chunk that starts before its end |
| FileContents.FileContent.FileContentHaveChunk | lib/files/file_content.cpp:193-216 | true exactly when every byte of the nonempty interval is held |
| FileContents.FileContent.GetChunk | lib/files/file_content.cpp:167-191 | exactly the held bytes of the interval, which is all of it when all is held; the view does not change |
| FileContents.FileContent.Truncate | lib/files/file_content.cpp:313-349 | the list is cut, and so is the disk file when it can be opened |
| FileContents.FileContent.OnDiskWrite | lib/files/file_content.cpp:104-124 | the bytes are on disk at their offset when both open and write work, and that chunk alone is marked, else disk and list are as they were; the size known to the program is right |
| FileContents.FileContent.SyncToHdd | lib/files/file_content.cpp:351-393 | chunks leave from the front; no byte of memory over disk changes exactly if every chunk that leaves was written or on disk already; with working writes no hole appears; a forced sync leaves only chunks past the size on record, which never falls while the file opens and is that of the disk if it was; one that is not forced writes at most one chunk, and exactly which chunks it leaves |
| FileContents.FlushKeepsFile | lib/files/file_content.cpp:351-393 | with working writes the file as the user sees it is unchanged, and the disk gained only bytes that were in memory |
| FileContents.FlushKeepsFileIff | lib/files/file_content.cpp:351-393 | a flush changes no byte of the file exactly when each chunk it drops was on disk, was written, or agrees with the disk |
| FileContents.FailedWriteLosesByte | lib/files/file_content.cpp:351-393 | a file with one byte in memory and none on disk, synced by force with a write that fails: the byte is gone |
| FileContents.SetChunkKeepsSynced | lib/files/file_content.cpp:258-311 | after a write every chunk still marked as on disk is on disk as it is in memory |
| FileContents.TruncateKeepsSynced | lib/files/file_content.cpp:313-349 | and so after a truncation |
| FileContents.AllHeldIsGapFree | lib/files/file_content.cpp:193-216 | an interval that is all held is covered by adjoining chunks, which is what GetChunk joins |
| FileContents.CopyFitsIff | lib/files/file_content.cpp:167-191 | joining the parts of a run of chunks stays inside the buffer exactly when the chunks adjoin |
| Requests.RequestQueue.NetworkFlushRequests | lib/files/file_content.cpp:429-489 | the loop ends, and its requests, rest and last peer are those of the recursive dispatch; nothing happens without sharers |
| Requests.RequestQueue.ChooseSharer | lib/files/file_content.cpp:443-483 | the first covering sharer, cyclically after the last one asked, if any covers |
| Requests.RequestQueue.AskFor | lib/files/file_content.cpp:439-487 | one pending chunk: asked of that sharer, who becomes the last one asked, and taken off the list; or left in it |
| Requests.DispatchSplits | lib/files/file_content.cpp:429-489 | one request for each pending chunk some sharer covers, in order, and exactly the others stay, in order |
| Requests.LastIsKept | lib/files/file_content.cpp:429-489 | the last peer asked is remembered, and the old one if none was |
| Requests.EachGoesRound | lib/files/file_content.cpp:429-489 | each request goes to the first covering sharer at or after its start, going round by ascending key; the start is the place after the peer asked before, or the first if that was nobody or is no sharer |
| Requests.TurnsAreTaken | lib/files/file_content.cpp:429-489 | when all sharers cover everything, how often each is asked |
| Requests.RequestsAreFair | lib/files/file_content.cpp:429-489 | then the counts differ by at most one |
| Requests.FairIff | lib/files/file_content.cpp:429-489 | for any keys, exactly which dispatches are fair: those without a zero key, with one sharer, or with no more chunks than the turn of the sharer with the zero key allows |
| Requests.AlwaysFairIff | lib/files/file_content.cpp:429-489 | all dispatches of chunks that all sharers have are fair exactly when no key is zero or there is one sharer |
| Requests.ZeroKeyIsAlwaysAsked | lib/files/file_content.cpp:429-489 | how often each sharer is asked when one has the zero key: those from the start on once, and then only that one |
| ByteOrder.HtonlIsNetworkOrder | lib/net/netutil.cpp:29-33 | on a little-endian machine the bytes stored are those of the integer, most significant first, and swapping twice is nothing |
| ByteOrder.HtonllIsNetworkOrder | lib/util/tools.cpp:87-91 | swapped halves of swapped words store the eight bytes most significant first |
| ByteOrder.HtonllTwice | lib/util/tools.cpp:93-97 | reading back with the same function restores the integer |
| ByteOrder.ReadDump | lib/net/netutil.cpp:63-73 | reading what was written gives the integer, for any width |
| PacketLayouts.DumpAt | lib/net/netutil.cpp:29-43 | byte i of w is the digit of 256^(w-1-i) |
| Wire.ReadDumpStr | lib/net/netutil.cpp:51-84 | a string comes back up to its first NUL, whole exactly if it has none, and takes its serialised size |
| Wire.UpToNulIff | lib/net/netutil.cpp:75-84 | what is kept of a string ends right before its first NUL |
| Wire.ReadDumpAddr | lib/net/pf_addr.cpp:46-64 | an address comes back from its 38 bytes |
| Wire.ReadDumpAddrs | lib/net/addr_list.cpp:28-54 | a list of addresses comes back, whatever follows |
| Wire.WriteAddrs | lib/net/addr_list.cpp:42-54 | the writing loop emits the elements one after another |
| Wire.ParseAddrs | lib/net/addr_list.cpp:28-40 | the parsing loop reads what the recursive reader reads |
| Wire.ReadDumpStrs | lib/dht/datastring.cpp:35-92 | a set of strings comes back as the same set |
| Wire.ReadStrsIs | lib/dht/datastring.cpp:35-45 | whatever order or repetition a peer sent, the set read holds exactly the strings in the buffer, in the order of the set |
| Wire.WriteStrs | lib/dht/datastring.cpp:73-92 | the writing loop emits the strings in the order of the set |
| Wire.ParseStrs | lib/dht/datastring.cpp:35-45 | the parsing loop inserts each string read |
| Wire.ReadDumpKeys | lib/dht/datakey.cpp:36-93 | a set of keys comes back as the same set |
| Wire.ReadKeysIs | lib/dht/datakey.cpp:36-46 | the same for keys |
| Wire.WriteKeys | lib/dht/datakey.cpp:74-93 | the writing loop emits the keys in the order of the set |
| Wire.ParseKeys | lib/dht/datakey.cpp:36-46 | the parsing loop inserts each key read |
| Packets.Dumped | lib/net/packet.cpp:281-350 | a value takes exactly its getSerialisedSize bytes |
| Packets.ReadDumpedStrings | lib/dht/data.cpp:39-59 | the tag brings back a set of strings |
| Packets.ReadDumpedKeys | lib/dht/data.cpp:39-59 | the tag brings back a set of keys |
| Packets.ArgRoundTrip | lib/net/packet.cpp:214-350 | every argument comes back, and reading goes on exactly behind it |
| Packets.StrRoundTripIff | lib/net/packet.cpp:214-350 | a string argument comes back exactly if it has no NUL |
| Packets.ArgsRoundTrip | lib/net/packet.cpp:214-350 | so does every list of arguments of any schema |
| Packets.ReadArgsNoNul | lib/net/packet.cpp:214-279 | no string that is read holds a NUL, whatever the buffer |
| Packets.HeaderRoundTrip | lib/net/packet.cpp:71-158 | the header comes back and takes its 56 bytes |
| Packets.PacketRoundTrip | lib/net/packet.cpp:71-158 | for every schema and argument list the receiving constructor gives back header and arguments exactly when no string holds a NUL |
| PacketLayouts.HeaderLayout | lib/net/packet.cpp:119-158 | source key at byte 0, destination key at 20, type at 40, size at 44, sequence number at 48, flags at 52, each word most significant byte first |
| PacketLayouts.AddrLayout | lib/net/pf_addr.cpp:46-64 | four address words, the port at byte 16, the key at 18 |
| PacketLayouts.ArgLayout | lib/net/packet.cpp:281-350 | the bytes of each kind of argument: lengths and counts first, tag 1 for strings and 2 for keys, element i where the elements before it end |
| PacketLayouts.PacketLayout | lib/net/packet.cpp:119-158 | header at byte 0, argument i at 56 plus the serialised sizes of those before it |
| PacketLayouts.ReadHeaderIff | lib/net/packet.cpp:71-106 | a header is read exactly from a buffer that starts with the bytes it is written as |
| PacketLayouts.ReadDataTag | lib/dht/data.cpp:39-59 | set data is read as strings only behind tag 1, as keys only behind tag 2, and refused behind any other |
| PacketLayouts.AcceptedHolds | lib/net/packet.cpp:71-117 | whatever arrives: a datagram that is accepted starts with its header, is of a known type, is as long as its header says and gives arguments of the types of its schema from within it |
| Packets.Packet.SetArg | lib/net/packet.h:183-191 | the list grows with NULLs up to the argument and keeps the others |
| Packets.Packet.BuildDataFromArgs | lib/net/packet.cpp:281-350 | the loop leaves the concatenation of the arguments and its size; a packet with data keeps it |
| Packets.Packet.DumpBuffer | lib/net/packet.cpp:119-158 | the bytes sent are the header followed by the arguments, or by the data the packet already has |
| Packets.Packet.FromBuffer | lib/net/packet.cpp:71-117 | a packet with the header and arguments read, or the exception for an unknown type, a wrong size or arguments that do not parse |
| Packets.Packet.BuildArgsFromData | lib/net/packet.cpp:214-279 | the moving-pointer loop reads what the recursive reader reads |
| SchedulerQueues.Job.DoStart | lib/scheduler/job.cpp:33-56 | the next start and the doubled delay, and whether the job goes on |
| SchedulerQueues.SchedulerQueue.Queue | lib/scheduler/scheduler_queue.cpp:41-58 | the job goes in at a place p: all jobs before start no later, all from p on, in a sorted queue, strictly later, and none of them moves |
| SchedulerQueues.SchedulerQueue.PopJob | lib/scheduler/scheduler_queue.cpp:60-68 | the first job leaves the queue; none from an empty one |
| SchedulerQueues.SchedulerQueue.Cancel | lib/scheduler/scheduler_queue.cpp:70-80 | the first occurrence goes, and only a queued job is deleted |
| SchedulerQueues.QueueKeepsSorted | lib/scheduler/scheduler_queue.cpp:41-58 | queueing keeps the order of start times |
| SchedulerQueues.FirstInFirstOut | lib/scheduler/scheduler_queue.cpp:41-80 | of two jobs with equal start times the one queued first is popped first, whatever is queued, popped or cancelled in between |
| SchedulerQueues.Loop | lib/scheduler/scheduler.cpp:59-81 | the pass ends; exactly the jobs that were due are started, once each and in order; deleted are exactly those started that do not repeat or answer no; no job due is left, and every job is queued or deleted |
| SchedulerConcurrency.StepCarries | lib/scheduler/scheduler.cpp:65-80 | each atomic step moves every job to one place and fills a place from one place only |
| SchedulerConcurrency.RunKeepsJobs | lib/scheduler/scheduler.cpp:65-80 | from any state in order, every interleaving keeps each job at exactly one place, the queue sorted with equals in order of arrival, and a non-repeating job started at most once |
| SchedulerConcurrency.EveryRunKeepsJobs | lib/scheduler/scheduler.cpp:35-81 | the same from the start, for any number of workers |
| SchedulerConcurrency.NeverTwice | lib/scheduler/scheduler.cpp:65-80 | no job is held by two workers, deleted twice, or deleted while queued or held |
| SchedulerConcurrency.DrainedIsDeleted | lib/scheduler/scheduler.cpp:65-80 | once queue and workers are empty, every job ever queued has been deleted exactly once |
| SchedulerConcurrency.PopTakesEarliest | lib/scheduler/scheduler_queue.cpp:60-68 | a pop takes the earliest job and, among equals, the first to arrive |
| SchedulerConcurrency.LoneWorkerIsNeverEarly | lib/scheduler/scheduler.cpp:65-80 | with one worker and no Cancel, only due jobs are started, whatever is queued meanwhile |
| SchedulerConcurrency.StartsEarlyIff | lib/scheduler/scheduler.cpp:65-80 | some run starts a job before its time exactly with two or more workers, or with one and a Cancel |

## Left out

- Retries.Route: for a node whose routing no other thread changes meanwhile, and a socket that stays closed once it is. The row information sent after a JOIN was forwarded is not part of this model.
- Retries.Network.Send: the resend list, sequence numbers and acknowledgements of lib/net/network.cpp are not part of this model.
- Retries.Network.SendVoid: whether the system accepts address 0 and port 0 is a parameter.
- RoutingTables.RoutingTable.Add: nothing is said about duplicates, since a hole left by a removal before a copy lets the host in twice.
- Packets.PacketRoundTrip: on packets the program sends; of malformed input only what an accepted datagram holds (`PacketLayouts.AcceptedHolds`). T_CHUNK arguments are left out: reader and writer disagree on the width of the size.
- FileContents.FileContent.SetChunk: chunks are held by value, as the program copies them into its list; running out of memory is not modelled. Runs of overlapping writes are left out once the list is no longer well formed.
- FileContents.FileContent.GetChunk: for an interval whose held chunks adjoin; across a gap the original copies past its buffer (`FileContents.CopyFitsIff`).
- FileChunks.FileChunk.Concatenate: for the same reason, for chunks that adjoin.
- FileContents.FileContent.Truncate: for a disk copy that starts at offset 0.
- FileChunks.FileChunk.Merge: for chunks that are not empty; so too GetPart, SetChunk and the queries on the list.
- FileContents.FileContent.OnDiskWrite: a write that fails leaves the disk as it was; a short one, which leaves part of the bytes there, is not modelled.
- FileContents.FileContent.SyncToHdd: for a disk copy that starts at offset 0 and a known size no greater than the file's.
- SchedulerQueues.Loop: for handlers that queue nothing, repeat delays that are not negative and a clock that does not go back; otherwise the pass need not end.
- KeyStrings.Parse: for strings of hexadecimal digits; what other characters are read as is up to the stream library.
- SchedulerConcurrency.RunKeepsJobs: callers queue each job once. The lock itself, the sleep of the loop and CancelType are not modelled.
- `Key::operator+`, `Key::between`, hashing, random keys, the string constructor on short strings and `Routing::KeyUpdate`, whose parameter hides the field.
- `OnDiskLoad`, `OnDiskHaveChunk` and `GetSharedContent`: loading merges disk bytes over newer bytes in memory.
- `Storage`, the file tree, the caches, join and update messages, configuration, sockets, logging and bindings.
