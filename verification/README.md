# Order-book, session and feed models of an FPGA trading stack

The repository's hardware is diffed against reference programs in C and Python: ITCH order tables and books, a
backlog simulator, an order-entry session over SoupBinTCP, OUCH and TCP, a MoldUDP64 packer and receiver, and the
strategy with its risk gate and sweep detector. This project models those programs and proves what each of them is
relied on for. State that the programs change in place is modelled by classes and loops over arrays, sequences and
maps, each tied to a specification function whose properties are proved for all inputs. Sizes, ways and hashes are
parameters; messages arrive parsed.

| files | part |
|---|---|
| `Cyclic`, `Slots`, `ProbeTable`, `LiveOrders`, `SymbolPeaks`, `LiveHistory` | circular probing with backward-shift delete, in `itch_hist` and `sym_conc` |
| `History` | what a feed leaves of each order, told from its messages |
| `TombTable` | the parser's tombstone table |
| `SetAssoc`, `SetHistory`, `MoreWays`, `SetAssocTable`, `UnevenReplace` | the set-associative table of `otable_sim` |
| `Itch`, `Levels`, `BookModel`, `BookHistory`, `BookTop`, `BboDump`, `PriceLadder`, `ItchParser`, `BookDelta` | the book three ways, and its BBO stream |
| `ModArith`, `Backlog`, `BacklogSim`, `BacklogFacts` | the backlog simulator |
| `BigEndian`, `SoupBin`, `Ouch`, `Tokens`, `Session`, `SessionSafety`, `SessionObjects`, `Layouts` | the order session of host and venue |
| `Checksum`, `TcpFrame`, `Capture`, `Reassembly`, `ReassemblyFacts`, `RoundTrip`, `Generators`, `SessionDump`, `SessionGen` | frames, capture decoding, end-to-end round trips |
| `Mold`, `MoldWire`, `MoldPlan`, `MoldFeed`, `MoldBeats`, `MoldLines` | the MoldUDP64 receiver and packers |
| `Strategy`, `StrategySafety`, `StrategyEdges`, `StrategyRule` | the imbalance rule and the risk gate |
| `Runs`, `SweepDetector`, `RunFacts`, `SweepFeed` | sweep runs, online and offline, and from a feed |
| `Wrappers`, `MinMax`, `Shares` | what several parts share |

The specification functions are in turn tied to their inputs by theorems that do not mention them: what a table holds by
the messages that posted and took each order, what is printed by the live orders, what is delivered by the messages
packed, what is sent by the quotes' numbers, what is on the wire byte by byte.

Assumptions the programs make of their input are stated where they are used: refs are nonzero and fresh while live,
shares are positive, a probing table keeps an empty slot, an acknowledgement comes at least one record after its
order, and a symbol's messages carry its locate. Where the executed amount is subtracted raw (`itch_parser.c`), an
execution must not exceed its order unless that order rests alone on its level: `RawReduceExactIff` shows that this is
exactly when the level survives.

Where code and comments differ, the code is followed and the difference is proved. `sweep_grid.py` speaks of "less
than" the gap between executions of a run, but only a gap larger than the limit ends one: `ExactGapContinues` shows an
equal gap continuing it, and `StrictGapIff` says when the two readings group alike. `itch2mold.py` promises a heartbeat
after every 97th data packet; `MissingHeartbeat` gives a feed of 866 messages that lacks one, and `HeartbeatsIff` says
for which feeds the promise holds. The comment of `dump_sweep.py` that the frontier count equals the distinct prices
holds for monotone runs; `WalkedVersusPrices` gives the exact condition. `gen_session.py` leaves the TCP checksum zero:
`FirstReplyDoesNotVerify` shows that its first default frame would be rejected by a receiver that checked it, and
`ReplyTcpVerifiesIff` says which frames would not. More ways do not always lose fewer orders: `MoreWaysCanBeWorse`
gives, for any number, a feed on which two ways lose that many inserts where one way loses two, and
`MoreWaysNeverWorseIff` says exactly when they do not. The golden lines of `gen_session.py` are what its frames decode
to exactly when the stock survives its field, by `GeneratedSessionDecodes`.

## Model

| member | source | states |
|---|---|---|
| Cyclic.NextIsModulo | step1-sw-parser/itch_hist.c:147 | Stepping to the next slot with a wrap is the masked increment |
| Cyclic.ShiftTest | step1-sw-parser/itch_hist.c:166 | The two-sided range test of the shift holds exactly when the probe from the entry's home to its slot crosses the hole, across the wrap |
| Slots.RoomLeft | step1-sw-parser/itch_hist.c:143-150 | An empty slot exists exactly while entries are fewer than slots, which is what ends every probe |
| Slots.SlotsAreEntries | step1-sw-parser/sym_conc.c:49-65 | Occupied slots with a given payload are as many as map entries with it, wherever shifting has put them |
| ProbeTables.ShiftKeeps | step1-sw-parser/itch_hist.c:168 | Moving an entry whose probe crosses the hole keeps every entry present and findable, with the hole at its old slot |
| ProbeTables.HoleCloses | step1-sw-parser/itch_hist.c:164 | When the scan meets an empty slot no entry's probe needs the hole any more |
| ProbeTables.WalkMisses | step1-sw-parser/itch_hist.c:145-149 | A probe that reaches an empty slot proves the ref absent |
| ProbeTables.ProbeTable.Find | step1-sw-parser/itch_hist.c:143-150 | Returns the slot of the ref with the mapped payload, or -1 exactly when the map does not hold it; the probe ends |
| ProbeTables.ProbeTable.Insert | step1-sw-parser/itch_hist.c:151-157 | The map gains exactly this entry, in the empty slot at the returned distance from its home, every slot before it being taken; the count rises by one |
| ProbeTables.ProbeTable.Scan | step1-sw-parser/itch_hist.c:162-167 | The inner loop ends, either at an entry that must move into the hole or with every probe intact |
| ProbeTables.ProbeTable.DeleteSlot | step1-sw-parser/itch_hist.c:158-170 | Only the target leaves the map, all survivors stay reachable from their homes, the count falls by one, and the nested loops end |
| LiveOrders.Tracker.Feed | step1-sw-parser/itch_hist.c:235-242 | After each message the table is the map of live orders the message means, and the peak and miss counters follow it |
| LiveOrders.Tracker.LiveIsSize | step1-sw-parser/itch_hist.c:156-164 | live is always the size of the map |
| LiveOrders.Replay | step1-sw-parser/itch_hist.c:219-245 | Over a whole run, any size and hash: the table is the map of live orders, live is its size, peak and misses are those of the map |
| LiveOrders.PeakBounds | step1-sw-parser/itch_hist.c:156 | The peak bounds the live count at every prefix of the run |
| LiveOrders.PeakIsReached | step1-sw-parser/itch_hist.c:156 | The peak is the live count at some prefix |
| History.HeldIff | step1-sw-parser/itch_hist.c:171-181 | Whatever posts are kept, an order is held exactly if it stands on one: that post was kept, none after it posts, deletes or replaces the ref, and the reductions since leave shares; it then has the shares posted less those reductions |
| History.StandsOnce | step1-sw-parser/itch_hist.c:151-157 | An order stands on one message only |
| LiveHistory.LiveIff | step1-sw-parser/itch_hist.c:235-242 | On every feed a ref is live exactly if it stands on some add or replace, with the shares posted there less the later reductions |
| LiveHistory.MissesAreCounted | step1-sw-parser/itch_hist.c:171-181 | The miss counter is the number of messages that name a ref without a standing post |
| SymbolPeaks.Tracker.CountersCountSlots | step1-sw-parser/sym_conc.c:49-65 | For every locate the live counter is the number of occupied slots tagged with it |
| SymbolPeaks.Tracker.DelSlot | step1-sw-parser/sym_conc.c:52-65 | Exactly the target's locate is decremented although the shift reuses its slot; every counter stays the true count |
| SymbolPeaks.Tracker.Feed | step1-sw-parser/sym_conc.c:89-98 | Each message does to orders and peaks what it means, a replace inheriting the old order's locate |
| SymbolPeaks.Replay | step1-sw-parser/sym_conc.c:84-101 | Over a whole run every locate's live counter is its live orders and its peak the maximum over all prefixes |
| SymbolPeaks.PeakBounds | step1-sw-parser/sym_conc.c:47 | A locate's peak bounds its live orders at every prefix |
| SymbolPeaks.PeakIsReached | step1-sw-parser/sym_conc.c:47 | And is reached at one |
| LiveHistory.SymbolLiveIff | step1-sw-parser/sym_conc.c:89-98 | The per-locate table holds the same orders, each under the locate of its add or, through a replace, of the live order replaced |
| TombTables.EmptySlotExists | step1-sw-parser/itch_parser.c:92 | While used and tombstone slots together do not fill the table an EMPTY slot exists |
| TombTables.InsertKeeps | step1-sw-parser/itch_parser.c:93-97 | Reusing the first slot not in use keeps both counters exact, the map plus one entry, and no live ref hidden behind EMPTY |
| TombTables.RemoveKeeps | step1-sw-parser/itch_parser.c:100-104 | A tombstone removes exactly its entry, keeps both counters exact, and hides no other ref |
| TombTables.TombTable.Find | step1-sw-parser/itch_parser.c:67-74 | Finds exactly the live refs, with their orders, and ends |
| TombTables.TombTable.Grow | step1-sw-parser/itch_parser.c:78-89 | Twice the slots, the same map, no tombstones, below the load limit; it never re-enters itself |
| TombTables.TombTable.Insert | step1-sw-parser/itch_parser.c:91-98 | Adds exactly this order, growing exactly when loaded at 70 percent |
| TombTables.TombTable.Remove | step1-sw-parser/itch_parser.c:100-104 | Removes exactly the order of the slot |
| SetAssoc.TracksASubMap | step1-sw-parser/otable_sim.c:62-104 | What the table tracks is always part of the exact order map, with equal quantities |
| SetAssoc.CountersBound | step1-sw-parser/otable_sim.c:80-82 | No set ever holds more orders than ways; max_occ and live_peak bound every state |
| SetAssoc.MaxOccIsReached | step1-sw-parser/otable_sim.c:80 | max_occ is the occupancy of some set after some message |
| SetAssoc.LivePeakIsReached | step1-sw-parser/otable_sim.c:82 | live_peak is the tracked count after some message |
| SetAssoc.OverflowIffCrowded | step1-sw-parser/otable_sim.c:214 | Overflow stays 0 if and only if no prefix has more live orders hashing to one set than ways |
| SetAssoc.OverflowIffDiffers | step4a-order-table/scripts/dump_book.py:10-13 | Overflow stays 0 if and only if the table equals the exact map after every message, the condition of the golden model |
| SetHistory.ExactIff | step1-sw-parser/otable_sim.c:186-193 | The exact map holds exactly the orders that stand on an add of a tracked locate or a replace of an order it held, with the shares left of them |
| SetHistory.TrackedIff | step1-sw-parser/otable_sim.c:74-104 | On every feed the table tracks exactly the orders that stand on a message that asked for an insert when the order's set had a way left, with the shares left of them |
| SetHistory.CountersCount | step1-sw-parser/otable_sim.c:81-103 | inserts, overflow, deletes, decs and miss are the numbers of messages that insert, find no way left, remove a tracked order, reduce one, and name an untracked ref |
| MoreWays.MoreWaysNeverWorseIff | step1-sw-parser/otable_sim.c:74-104 | At equal hash the table with more ways holds a superset, leads in no set by more than the extra ways and has lost no more inserts after every message, if and only if every replace that moves an order in it alone finds room: in its new set within the extra ways or, that set being full, with a lost insert in hand |
| MoreWays.MoreWaysNeverWorse | step1-sw-parser/otable_sim.c:191-193 | So on every feed whose replaces name orders that both or neither table tracks |
| MoreWays.NoReplacesNeverWorse | step1-sw-parser/otable_sim.c:182-189 | And on every feed without replaces more ways track a superset and lose no more inserts |
| UnevenReplace.MoreWaysCanBeWorse | step1-sw-parser/otable_sim.c:191-193 | With other replaces it fails: for every n a feed loses two inserts with one way and n with two |
| SetAssocTables.FreeWayIff | step1-sw-parser/otable_sim.c:77-78 | A set has a free way exactly when it tracks fewer orders than ways |
| SetAssocTables.Table.Ins | step1-sw-parser/otable_sim.c:74-86 | The way scan on the flat array inserts or counts an overflow as the specification says, all counters included |
| SetAssocTables.Table.Find | step1-sw-parser/otable_sim.c:87-92 | Finds exactly the tracked refs |
| SetAssocTables.Table.Del | step1-sw-parser/otable_sim.c:93-97 | Removes a tracked order or counts a miss, and reports which |
| SetAssocTables.Table.Dec | step1-sw-parser/otable_sim.c:98-104 | Reduces or removes a tracked order or counts a miss |
| SetAssocTables.Replay | step1-sw-parser/otable_sim.c:179-195 | Over a whole run the array, occ of every set, live and all report counters are those of the specification |
| Levels.LadderAt | step1-sw-parser/itch_parser.c:106-112 | A level exists exactly when its orders have shares, and shows the sum of the live orders at that side and price |
| Levels.TakeFromOrder | step4b-book/scripts/dump_bbo.py:69-79 | Taking shares off an order, all of them if it goes, is taking them off its level |
| Levels.BestPx | step4b-book/scripts/dump_bbo.py:46-49 | The best price of a side with levels is one of them and none is higher on the bid, or lower on the ask |
| BookModel.LevelsFollowOrders | step4b-book/scripts/dump_bbo.py:61-98 | For every message, working on the levels keeps them equal to the sums over the live orders |
| BookHistory.BookIff | step4b-book/scripts/dump_bbo.py:61-98 | On every feed an order is in the book exactly if it stands on an add of the locate or a replace of a booked order; it has that message's price, that add's side or the replaced order's, and the shares left of it |
| BookTop.LevelSum | step4b-book/scripts/dump_bbo.py:69-79 | A level's quantity is the sum of the shares of the live orders at its side and price |
| BookTop.TopIs | step4b-book/scripts/dump_bbo.py:46-49 | The top of book is the one reading with, on each side, the price no live order betters and all the shares resting there, or 0:0 exactly for a side without live orders |
| BookTop.PrintedIsTop | step4b-book/scripts/dump_bbo.py:44-53 | After every message of every feed the last record printed is that reading of the live orders, or none is printed and there are none; a message prints one record, with its own time, exactly if it moves the top |
| BookTop.EveryRecordIsTop | step4b-book/scripts/dump_bbo.py:50-53 | Every record is that reading after some message, with that message's time, and was not before it |
| BboDump.Dump.Emit | step4b-book/scripts/dump_bbo.py:44-53 | One record exactly when best prices or quantities differ from the last ones |
| BboDump.Dump.Feed | step4b-book/scripts/dump_bbo.py:61-98 | Orders, levels and the record follow the meaning of the message |
| BboDump.Run | step4b-book/scripts/dump_bbo.py:55-99 | The dump is the change-detected top of book of the live orders after every message |
| PriceLadders.PriceLadder.Find | step1-sw-parser/itch_parser.c:115-125 | Binary search finds exactly the levels held, and otherwise the place that keeps the order |
| PriceLadders.PriceLadder.Add | step1-sw-parser/itch_parser.c:127-139 | The sorted array gains the quantity at its price; the overflow exit is taken exactly when a new level has no slot |
| PriceLadders.PriceLadder.Reduce | step1-sw-parser/itch_parser.c:141-152 | The level loses the quantity, or goes away when it has no more than that; a missing level is left alone |
| PriceLadders.FirstIsBest | step1-sw-parser/itch_parser.c:186-189 | Index 0 is the true best bid or ask of the side |
| ItchParser.RawReduceExactIff | step1-sw-parser/itch_parser.c:318-319 | Subtracting the raw amount leaves the level the sum of its orders if and only if the amount does not exceed the order or the order rests there alone |
| ItchParser.FirstTop | step1-sw-parser/itch_parser.c:184-190 | Whatever a first added order leaves as top of book differs from the two programs' different "nothing yet" marks |
| ItchParser.Parser.Feed | step1-sw-parser/itch_parser.c:274-359 | One message of an exact feed, lone orders executed past their quantity included, leaves table, ladders and records as it means, or takes the overflow exit exactly when a side outgrows its array |
| ItchParser.Run | step1-sw-parser/itch_parser.c:258-369 | The whole parse prints the change-detected top of book, or overflows exactly when some book of the run does not fit |
| ItchParser.PrintBoth | step4b-book/scripts/dump_bbo.py:1-8 | The sorted-array book and the dictionary book print the same record sequence on every feed that executes past an order only where it rests alone on its level |
| BookDelta.SharedTableIsEachBook | step4a-order-table/scripts/dump_book.py:4-10 | One table shared by several symbols holds for each exactly the book it has alone |
| BookDelta.FoldIsLadder | step4a-order-table/scripts/dump_book.py:43-76 | Folding one symbol's rem and add deltas gives, after every message, the ladders of its live orders |
| BookDelta.DeltaMoves | step4a-order-table/scripts/dump_book.py:43-76 | Every message moves the shares resting at each locate, side and price by exactly what its delta says, and by nothing if it has none |
| BookDelta.TwoStagesPrintTheSame | step4b-book/scripts/dump_bbo.py:2-8 | Hence the delta stream folded into ladders prints the records of the fused book |
| BookDelta.Dump.Feed | step4a-order-table/scripts/dump_book.py:43-76 | One message updates the shared map and emits its delta, or nothing |
| BookDelta.Run | step4a-order-table/scripts/dump_book.py:37-78 | The whole delta stream is the specified one |
| Backlog.DoneClosedForm | step1-sw-parser/itch_hist.c:94-97 | Busy-until is the largest, over all arrivals so far, of arrival time plus service demanded from it on |
| Backlog.WaitClosedForm | step1-sw-parser/itch_hist.c:92-96 | A message's wait is Lindley's closed form over all earlier messages, or zero |
| Backlog.RingHoldsInFlight | step1-sw-parser/itch_hist.c:88-103 | While it has not overflowed the ring holds exactly the messages not yet done, in order |
| Backlog.DrainKeepsNotDone | step1-sw-parser/itch_hist.c:88-91 | Popping only from the head finds every finished message |
| BacklogFacts.DrainIs | step1-sw-parser/itch_hist.c:88-91 | The pop loop takes off the finished messages at the head and stops at the first that is not |
| BacklogFacts.QueueNext | step1-sw-parser/itch_hist.c:97-103 | A message joins what it finds unfinished with its own completion time and length, unless the ring is full |
| BacklogFacts.MaxBacklogBounds | step1-sw-parser/itch_hist.c:104-106 | The reported backlogs in messages and bytes bound the queue after every message |
| BacklogFacts.MaxMsgsIsReached | step1-sw-parser/itch_hist.c:105 | The first is the queue's length after some message, whose timestamp is reported |
| BacklogFacts.MaxBytesIsReached | step1-sw-parser/itch_hist.c:106 | The second is its bytes after some message |
| BacklogFacts.LossesAreCounted | step1-sw-parser/itch_hist.c:98-107 | The spill and overflow figures are the numbers of messages that leave more waiting than the FIFO holds, and that find the ring full |
| Backlog.MaxWaitBounds | step1-sw-parser/itch_hist.c:96 | The reported worst delay bounds every message's wait |
| Backlog.MaxWaitIsReached | step1-sw-parser/itch_hist.c:96 | And is one message's wait, with its timestamp |
| Backlog.FasterIsDoneSooner | step1-sw-parser/itch_hist.c:86-110 | With pointwise smaller service times every message is done no later and waits no longer, and at every time no more messages or bytes are unfinished |
| Backlog.FasterIsNeverWorse | step1-sw-parser/itch_hist.c:112-115 | After every message the faster server's wait, queue in messages and in bytes, and reported extremes and spill count are no larger, and its ring does not overflow if the slower one's does not |
| BacklogSim.Server.Feed | step1-sw-parser/itch_hist.c:86-110 | The wrapping-counter ring does what the queue specification says, every reported extreme included |
| BacklogSim.WireDeliversInOrder | step1-sw-parser/itch_hist.c:122-125 | Whatever order timestamps come in, the wire delivers in order |
| BacklogFacts.WireClosedForm | step1-sw-parser/itch_hist.c:122-125 | The wire is done at the largest, over the messages so far, of a timestamp in picoseconds plus 80 ps for each byte and two of framing of everything from it on |
| BacklogFacts.TraceAt | step1-sw-parser/itch_hist.c:112-129 | A message is available when the wire has delivered it, and needs 3103 ps of the splitter, 22725 or for a replace 40905 of the iterative table, 4545 of the pipe |
| BacklogSim.PipeNeverWorse | step1-sw-parser/itch_hist.c:126-129 | On every feed that does not overflow the iterative table's ring the pipe shows no larger wait, queue, backlog or spill count |
| BacklogSim.Run | step1-sw-parser/itch_hist.c:122-130 | One wire cursor and three servers, over a whole feed, reach exactly the states of the three traces |
| BigEndian.DecEnc | step7-host/host/ouch.py:33 | A packed number unpacks to itself |
| BigEndian.FieldAt | step7-host/host/ouch.py:46-59 | Slicing at a field's offsets gives the field back |
| Layouts.FirstByteLeads | step7-host/host/ouch.py:33 | The first byte of a number is its most significant |
| SoupBin.ParseInPieces | step7-host/host/soupbin.py:80-88 | Parsing a stream is parsing a prefix and then its rest followed by the remaining bytes |
| SoupBin.ChunkingDoesNotMatter | step7-host/host/soupbin.py:71-88 | However feeds cut the stream and whenever packets are taken, fully or abandoned early, packets taken plus packets still buffered are the one-shot parse |
| SoupBin.ParseOfPackAll | step7-host/host/soupbin.py:38-41 | Concatenated packed packets parse back to the packets, leaving an incomplete tail as it is |
| SoupBin.PacketsOfEach | step7-host/host/soupbin.py:63-68 | Bodies framed one after another come back, with nothing left over |
| Layouts.PackBytes | step7-host/host/soupbin.py:38-41 | Two length bytes counting type and payload, the type byte, the payload |
| Layouts.FirstIs | step7-host/host/soupbin.py:82-88 | A packet is complete exactly when its length bytes and as many more are there; its type is the first of them, its payload the others, and what follows is left |
| SoupBin.Reader.Next | step7-host/host/soupbin.py:82-88 | One packet is taken exactly when one is complete |
| SoupBin.Reader.Drain | step7-host/host/soupbin.py:80-88 | Running the generator to its end yields the one-shot parse and leaves its rest |
| Ouch.EnterOrderRoundTrip | step7-host/host/ouch.py:24-58 | The venue reads back the order sent: numbers exactly, the token as padded, names cut to width without outer blanks |
| Ouch.AcceptedRoundTrip | step7-host/host/ouch.py:62-75 | An accept reads back likewise |
| Ouch.ExecutedRoundTrip | step7-host/host/ouch.py:78-89 | A fill reads back likewise |
| Ouch.EnterLayout | step7-host/host/ouch.py:30-42 | Every field of an order is at its offset in the 49 bytes |
| Ouch.AcceptedLayout | step7-host/host/ouch.py:62-67 | Every field of an accept is at its offset in the 40 bytes |
| Ouch.ExecutedLayout | step7-host/host/ouch.py:78-81 | Every field of a fill is at its offset in the 31 bytes |
| Layouts.StripIs | step7-host/host/ouch.py:51-54 | Stripping takes off exactly the blanks at both ends |
| Layouts.TokenReads | step7-host/host/session.py:153 | The token is the prefix in six bytes and the counter in upper-case hex, most significant first, eight digits or as many more as it needs |
| Tokens.TokensDiffer | step7-host/host/session.py:153 | Different counters give different tokens |
| Tokens.TokenFitsIff | step7-host/host/session.py:153 | The token is the 14-byte wire field exactly while the counter is below 2^32 |
| SessionSafety.StepKeeps | step7-host/host/session.py:126-218 | Every send, chunk, venue read and host read keeps the ledger of orders up, replies down, counts and money |
| SessionSafety.AlwaysLedger | step7-host/host/mock_exchange.py:75-117 | The ledger holds in every state of every run with at most 2^32 orders, bytes chunked arbitrarily |
| SessionSafety.InFlightIsExact | step7-host/host/session.py:201-218 | No exception is raised; inflight is the orders on their way up plus accepts on their way down; acks are accepts plus rejects |
| SessionSafety.ReadAccept | step7-host/host/session.py:203-205 | Reading an accept releases exactly one of the orders in flight, so the clamp at zero never acts |
| SessionSafety.ReadExecuted | step7-host/host/session.py:207-212 | Reading a fill adds its shares to the position for a known buy and subtracts them otherwise |
| SessionSafety.ReadReject | step7-host/host/session.py:214-218 | Reading a reject counts it and releases one order, if one is in flight |
| SessionSafety.SendBytesTell | step7-host/host/session.py:153-156 | The 52 bytes of an order, one by one: length, type, token, side, shares, the session's stock, price, the session's firm, and the fixed fields |
| SessionSafety.VenueTells | step7-host/host/mock_exchange.py:102-117 | The venue's answer reads as an accept with the order's own values and the next order reference and, when filling, a fill of all its shares at its price with the next match reference |
| SessionSafety.LoginBytes | step7-host/host/soupbin.py:44-56 | The login packets byte by byte: names filled with blanks, a blank session, sequence number 1 on the right |
| SessionSafety.DrainedSessionSettles | step7-host/host/session.py:207-213 | Drained: the host is connected under its account, inflight is 0, every order accepted and, when the venue fills, filled once; the venue has read exactly the orders sent in order, each with its token, side, shares and price, the session's stock and firm, and the fixed codes; the position is shares bought less shares sold |
| SessionSafety.EchoMatchesIff | step7-host/host/session.py:153-157 | The echoed token finds its order exactly while the counter is below 2^32 |
| SessionObjects.HostSession.SendOrder | step7-host/host/session.py:140-160 | Refused on the card's session, raising on numbers the wire cannot hold, otherwise the bookkeeping and one packet whose bytes are the order's token, side, shares and price with the session's stock and firm and the fixed fields |
| SessionObjects.HostSession.ReceiveOne | step7-host/host/session.py:226-234 | While logging in at most one packet is taken and further ones stay in the reader |
| SessionObjects.HostSession.Handle | step7-host/host/session.py:194-218 | One packet changes the counters and the position as specified and is answered only if a heartbeat |
| SessionObjects.HostSession.Poll | step7-host/host/session.py:188-192 | One read handles every complete packet, unless one raises |
| SessionObjects.AnswerBytes | step7-host/host/session.py:195-197 | A server heartbeat is answered with the three bytes of a client heartbeat, and nothing else is |
| SessionObjects.PollKeeps | step7-host/host/session.py:179-192 | A poll is single packets taken in turn, so it keeps the ledger |
| SessionObjects.MockExchange.OnOrder | step7-host/host/mock_exchange.py:102-117 | Every order is recorded and accepted with the next reference, and filled in full when filling |
| SessionObjects.MockExchange.Receive | step7-host/host/mock_exchange.py:88-100 | One read answers every complete packet in order until logout |
| SessionObjects.VenueReadKeeps | step7-host/host/mock_exchange.py:75-100 | A read of the venue keeps the ledger |
| Reassembly.Insert | step8-hw/scripts/dump_session.py:78 | Stable insertion by sequence number: sorted, the same segments plus one |
| Reassembly.Merge | step8-hw/scripts/dump_session.py:83-91 | Over sorted segments the loop outputs each covered byte once, in order, and reports exactly the uncovered positions |
| Reassembly.Reassemble | step8-hw/scripts/dump_session.py:74-92 | For any segments in any order: the covered bytes in sequence order, each once, from the first segment by start and arrival that covers it; the holes are exactly the uncovered positions, and the maximal gaps when no segment is empty |
| Reassembly.OneStream | step8-hw/scripts/dump_session.py:16-18 | When the segments are slices of one stream the output is that stream's covered bytes |
| Reassembly.ArrivalOrderDoesNotMatter | step8-hw/scripts/dump_session.py:17-20 | Two captures covering the same positions give the same bytes and the same holes, whatever arrival order, duplicates and overlaps |
| Reassembly.CompleteCapture | step8-hw/scripts/dump_session.py:20-22 | With everything covered there is no hole and the output is the stream |
| ReassemblyFacts.CollectAt | step8-hw/scripts/dump_session.py:83-92 | As many bytes come out as positions are covered, and the byte of a covered position comes after one for each covered position before it |
| ReassemblyFacts.SpelledIs | step8-hw/scripts/dump_session.py:78-91 | Where segments disagree the byte is that of the one with the lowest start and, among those, the earliest to arrive |
| ReassemblyFacts.GapsAreHoles | step8-hw/scripts/dump_session.py:86-88 | The gaps are exactly the maximal uncovered runs, in order |
| Checksum.Fold | step6-strategy/scripts/dump_tcp.py:78-79 | The carry loop ends in 0..65535 with the sum's residue modulo 65535, zero only for zero |
| Checksum.Compute | step6-strategy/scripts/dump_tcp.py:71-80 | The loops compute the complement of that residue over the zero-padded words |
| Layouts.SumIs | step6-strategy/scripts/dump_tcp.py:71-77 | The words summed have their high byte first |
| Checksum.FieldVerifiesIff | step8-hw/scripts/gen_session.py:58-64 | A value in an aligned zeroed field makes the whole fold to 0xFFFF exactly when it is the checksum of the zeroed form, or all ones when that checksum is zero |
| Checksum.ChecksumVerifies | step6-strategy/scripts/dump_tcp.py:90-97 | Writing the checksum into its aligned field makes the whole fold to 0xFFFF, odd lengths included |
| TcpFrame.IpHeaderVerifies | step8-hw/scripts/gen_session.py:86-90 | The IPv4 header of every order and reply frame folds to 0xFFFF |
| TcpFrame.TcpSegmentVerifies | step6-strategy/scripts/dump_tcp.py:92-97 | Pseudo-header, TCP header and payload of every order frame fold to 0xFFFF |
| TcpFrame.ReplyTcpVerifiesIff | step8-hw/scripts/gen_session.py:77-84 | A reply's TCP checksum, left zero, verifies exactly when addresses, ports, numbers, length and payload words sum to a multiple of 65535 |
| SessionGen.FirstReplyDoesNotVerify | step8-hw/scripts/gen_session.py:67-97 | The generator's first frame with its default numbers, a buy of 100 AAPL, has the word sum 405827 and does not verify |
| SessionGen.FirstOfSession | step8-hw/scripts/gen_session.py:138-154 | That payload is the first of every session generated for AAPL |
| Capture.InboundSegments | step8-hw/scripts/dump_session.py:48-71 | The loop returns the payloads of inbound frames in capture order, or raises at the first frame that reads out of range |
| Capture.FrameLayout | step6-strategy/scripts/dump_tcp.py:83-99 | Every byte of both builders' frames: addresses, lengths, identification, flags, ports, numbers, window, checksums, payload and padding, each at its offset |
| Capture.OrderFrameBytes | step6-strategy/scripts/dump_tcp.py:83-99 | An order frame byte by byte, whose IPv4 header, and whose addresses, protocol and length with the whole segment, fold to 0xFFFF |
| Capture.ReplyFrameBytes | step8-hw/scripts/gen_session.py:67-97 | A reply frame byte by byte, with a zero TCP checksum and zeros up to sixty bytes |
| Capture.ExtractWithOptions | step8-hw/scripts/gen_session.py:73-76 | Frames with IP or TCP options: the decoder reads both header lengths and takes exactly the payload the total length announces |
| Capture.ExtractOutcome | step8-hw/scripts/dump_session.py:52-68 | A frame is passed over exactly if it is short, not IPv4, not TCP, not for the card or without payload, and raises exactly if its TCP header would start past its end |
| Capture.ExtractOfFrame | step8-hw/scripts/dump_session.py:48-71 | From a frame of either builder the decoder takes exactly its sequence number and payload, never padding, and only when addressed to the card |
| RoundTrip.Stream | step8-hw/scripts/dump_session.py:122-123 | Reassembly reports no hole exactly for a complete capture |
| RoundTrip.InboundIsSegments | step8-hw/scripts/dump_session.py:122 | From any capture of payload frames mixed with frames going elsewhere, extraction gives the payloads' segments and nothing else |
| RoundTrip.CaptureIsSource | step8-hw/scripts/dump_session.py:74-92 | If each payload arrives at least once, in any order, reassembly gives the payloads joined in sending order with no hole |
| Generators.GenerateReplies | step8-hw/scripts/gen_session.py:138-160 | The reply loop numbers frames without a gap and raises exactly when a number outgrows its field |
| Generators.ReplyFrameIs | step8-hw/scripts/gen_session.py:149-155 | Reply i has a sequence number past all earlier payloads, acknowledges i + 1 orders, and has identification 0x7000 + i |
| Generators.FrameOrders | step6-strategy/scripts/dump_tcp.py:102-112 | Frame i carries the sequence number the earlier payloads bring it to modulo 2^32 and the identification advanced by i modulo 2^16 |
| Generators.FramedOrders | step6-strategy/scripts/dump_tcp.py:102-112 | While the numbers do not wrap those frames are the payloads in order |
| Generators.BuildIsEnterOrder | step6-strategy/scripts/dump_ouch.py:61-74 | The card's packet is byte for byte the host encoder's order, and can be built exactly while counter, quantity and price fit 32 bits |
| Generators.BuiltBytes | step6-strategy/scripts/dump_ouch.py:61-74 | The 52 bytes of a card order, one by one: length, type, token, side, quantity, the given stock, price, the given firm, and the fixed fields |
| Generators.BuildAll | step6-strategy/scripts/dump_ouch.py:77-89 | Orders are numbered from zero and the run stops exactly at one that cannot be built |
| Generators.OrdersRoundTrip | step7-host/host/ouch.py:45-58 | The card's orders, framed and captured in any order with duplicates, are parsed back each once and in order |
| Generators.SendOrders | step6-strategy/scripts/dump_ouch.py:77-89 | Orders built, numbered and framed in the loops of both tools, while the sequence numbers do not wrap, are captured and de-framed as exactly their order packets, complete and with nothing left over |
| SessionDump.DescribeBody | step8-hw/scripts/dump_session.py:95-110 | Accepts, fills and rejects are described with the values they were built from |
| SessionDump.ShownTell | step8-hw/scripts/dump_session.py:95-110 | One line for each reply, in order, with its own token, side, shares, stock, price and reference |
| SessionDump.OtherLines | step8-hw/scripts/dump_session.py:128-135 | Heartbeats print nothing, other packets their type, and OUCH messages of another type their type and length |
| SessionDump.Dump | step8-hw/scripts/dump_session.py:113-146 | The decoder prints the lines of the de-framed reassembled stream and returns zero exactly with no hole and no trailing bytes |
| SessionDump.RepliesRoundTrip | step8-hw/scripts/gen_session.py:138-160 | For any list of replies, framed, permuted, duplicated and mixed with outbound frames, the decoder prints exactly one line per reply in order, with status zero |
| SessionDump.GeneratedRepliesDecode | step8-hw/scripts/gen_session.py:24-27 | In particular the generator's own frames decode to its replies |
| SessionDump.GoldenIff | step8-hw/scripts/gen_session.py:158-160 | A printed line is the generator's golden line exactly when the stock fits its field without outer blanks |
| SessionGen.GenerateSession | step8-hw/scripts/gen_session.py:138-160 | The loop makes up the tokens, alternating sides and prices, and gives the frames and golden lines of all replies, or raises exactly when a reply or a frame's numbers cannot be packed |
| SessionGen.ReplyIs | step8-hw/scripts/gen_session.py:141-147 | Reply i is a buy for even i, of 100 shares at 2800000 + 100 i with reference 0x5000 + i, under the token FPGA01 and eight decimal digits that read i |
| SessionGen.ShownIsGoldenIff | step8-hw/scripts/gen_session.py:158-160 | The lines of the generated replies are the golden lines exactly when there are none or the stock survives its field |
| SessionGen.GeneratedSessionDecodes | step8-hw/scripts/gen_session.py:24-27 | For every count the generated frames decode, complete and with nothing left over, to exactly the golden lines if and only if the stock is unchanged by cutting to eight and stripping |
| Mold.Receive | step3a-mold-stripper/scripts/dump_mold.py:27-53 | The receiver loop prints gaps, messages, heartbeats and the end as specified, and stops at the end packet |
| MoldLines.PrintedIff | step3a-mold-stripper/scripts/dump_mold.py:36-53 | For every packet stream a line is printed exactly if some packet before the end prints it: a message under its number with the body found there, a gap from the first number not yet told, a heartbeat, an end; a data packet that starts at or before a number told prints none |
| MoldLines.LinesGrow | step3a-mold-stripper/scripts/dump_mold.py:30-53 | Lines printed stay printed, in their places |
| MoldLines.MessagesAt | step3a-mold-stripper/scripts/dump_mold.py:47-52 | A packet's messages are printed in order, each with its own number and its own body |
| Mold.EveryNumberOnce | step3a-mold-stripper/scripts/dump_mold.py:12-14 | For every packet stream the numbers delivered and reported missing are, in the order printed, exactly 1, 2, ... up to the number expected next |
| MoldPlan.MoldPack | step1-sw-parser/gen_itch.py:202-228 | The packer emits the plan's packets, and raises exactly when a number, a message, a packet or the blocks of a loss outgrow their field, a duplicate has nothing to repeat, or the plan does not cover the messages |
| MoldPlan.PlanDelivers | step1-sw-parser/gen_itch.py:231-261 | Exactly the messages sent before the end are delivered; losses are reported exactly when data or a heartbeat follows, so all are if and only if none is last |
| MoldLines.PlanBodies | step1-sw-parser/gen_itch.py:202-228 | Each message delivered of a plan has the body of its own number, in increasing order, and a number is delivered exactly if a data item before the end covers it |
| MoldLines.PacketsAre | step1-sw-parser/gen_itch.py:211-226 | The packets of a plan are, in order, its data items' messages under the next number, repeats of the last data packet, heartbeats and ends; a loss sends none |
| MoldPlan.PlanRun | step3a-mold-stripper/scripts/dump_mold.py:36-38 | What is received of a plan is what its part before the first end gives, then that end, whatever follows it |
| MoldPlan.SelfCheck | step1-sw-parser/gen_itch.py:231-261 | The self-check agrees with the receiver on deliveries, gaps and duplicates, and passes exactly when the receiver expects the number after the last message |
| MoldLines.RepeatsAreCounted | step1-sw-parser/gen_itch.py:249-251 | The duplicates are the data packets that start at or before a number told already |
| MoldLines.GapsIff | step1-sw-parser/gen_itch.py:244-246 | The gaps listed are the first missing number and the length of each gap printed |
| MoldPlan.SelfCheckPassesIff | step1-sw-parser/gen_itch.py:259-261 | On a packed plan it passes exactly when the plan reaches the last message before its end and every loss is reported |
| MoldFeed.Packetize | step1-sw-parser/itch2mold.py:53-89 | The packing loop emits the pattern's packets, the heartbeats and the end, and raises exactly when one of them does not fit |
| MoldFeed.SmallMessagesPack | step1-sw-parser/itch2mold.py:54-56 | It never raises on messages of at most 8187 bytes |
| MoldBeats.CycleWants | step1-sw-parser/itch2mold.py:29 | Eight packets in turn take 1, 2, 3, 5, 8, 4, 7 and 6 messages |
| MoldBeats.HeartbeatsIff | step1-sw-parser/itch2mold.py:75-88 | There is one heartbeat for every 97 data packets exactly for the feeds that do not end inside such a packet |
| MoldBeats.MissingHeartbeat | step1-sw-parser/itch2mold.py:86-87 | A feed of 866 messages has 194 data packets and one heartbeat |
| MoldFeed.FeedArrives | step1-sw-parser/itch2mold.py:53-89 | A packed feed is received gap-free and complete: every message once in order, the end numbered after the last |
| MoldLines.FeedBodies | step1-sw-parser/itch2mold.py:53-89 | A packed feed is delivered message for message: the i-th has number i and the i-th body |
| MoldFeed.SelfCheckFeed | step1-sw-parser/itch2mold.py:98-120 | The self-check fails exactly on a data packet out of turn and otherwise counts what is delivered |
| MoldFeed.FeedPassesCheck | step1-sw-parser/itch2mold.py:93-94 | A packed feed passes, and the count it asserts is the number of messages |
| MoldWire.FileRoundTrip | step1-sw-parser/gen_itch.py:205-207 | Packets written to a file read back the same, with every message body intact |
| Layouts.MoldBytes | step1-sw-parser/gen_itch.py:205-207 | A packet in a file: its length, ten session bytes, eight of sequence number, two of count, and the blocks |
| Layouts.BlockAt | step1-sw-parser/gen_itch.py:220-221 | Message i follows the blocks of the earlier ones, after its two length bytes |
| MoldWire.CountIsNotEos | step1-sw-parser/gen_itch.py:205-207 | No packet that fits holds as many messages as the end marker's count |
| MoldPlan.PackedIsWritable | step1-sw-parser/gen_itch.py:202-228 | Every packet of a plan that packs within its messages is well formed and can be written and read back |
| Strategy.Trader.GateAndEmit | step6-strategy/scripts/dump_orders.py:124-138 | Validity, in-flight limit and position limit in that order decide one order; only a passing one changes anything |
| Strategy.Trader.OnBbo | step6-strategy/scripts/dump_orders.py:143-164 | Acks land first, the held book is the last complete one, and an order fires on a rising edge, buy before sell |
| Strategy.Run | step6-strategy/scripts/dump_orders.py:140-176 | The event loop's orders, position and in-flight count are those of the specification |
| StrategySafety.PositionBounded | step6-strategy/scripts/dump_orders.py:26-29 | On every stream the position is the signed sum of the orders and never past the limit on either side, and sizes are valid |
| StrategySafety.FlowHolds | step6-strategy/scripts/dump_orders.py:31-36 | Orders in flight are exactly those of the last ack_gap records, and no ack_gap consecutive records hold more orders than the limit |
| StrategySafety.InflightIsScheduled | step6-strategy/scripts/dump_orders.py:138-146 | The in-flight counter is the number of acks still scheduled, between zero and the limit |
| StrategyEdges.MemoryIs | step6-strategy/scripts/dump_orders.py:108-112 | The edge detectors hold the last record's conditions and the held quote is the last two-sided one |
| StrategyEdges.OrdersPriced | step6-strategy/scripts/dump_orders.py:161-173 | Each order has the side, price and size of the quote that justifies it, never a missing side's zero price, and at a record its condition has just become true |
| StrategyEdges.RisingEdge | step6-strategy/scripts/dump_orders.py:22-24 | Between two imbalance orders on one side the condition was false at some record |
| StrategyRule.SendsIff | step6-strategy/scripts/dump_orders.py:124-173 | On every stream an event sends order o if and only if it calls for it (a record whose complete, tight quote outweighs its other side by the shift when the last record's did not, buying before selling; or a sweep, from the last complete quote; at the other side's price for the smaller of the configured and shown sizes) and its size, the orders of the last ack_gap records and the position allow it |
| StrategyRule.OutGrows | step6-strategy/scripts/dump_orders.py:161-173 | No event sends more than one order |
| StrategyRule.Pow2Sum | step6-strategy/scripts/dump_orders.py:155 | The shift doubles once a step |
| Runs.AllRunsPartition | step6-strategy/scripts/sweep_grid.py:145-149 | The runs partition the executions, each starting where direction changes or the gap is exceeded and broken nowhere inside |
| Runs.PartitionUnique | step6-strategy/scripts/sweep_grid.py:145-149 | There is only one such partition |
| Runs.Refines | step6-strategy/scripts/sweep_grid.py:155-158 | Each run of a smaller gap lies within one run of a larger gap |
| RunFacts.SharesRunIff | step6-strategy/scripts/sweep_grid.py:155-160 | Every execution is in exactly one run, and shares it with the one before exactly if both are on one side and no more than the gap apart |
| RunFacts.SharesSplit | step6-strategy/scripts/dump_sweep.py:147 | A run's shares are those of its parts, down to single executions |
| Runs.StrictGapIff | step6-strategy/scripts/sweep_grid.py:145-158 | Grouping with differences strictly below the gap gives the same runs exactly when no two consecutive executions on one side are exactly the gap apart |
| Runs.ExactGapContinues | step6-strategy/scripts/sweep_grid.py:155-158 | Two executions on one side exactly the gap apart form one run, not two |
| Runs.FrontierIsFurthest | step6-strategy/scripts/dump_sweep.py:143-145 | The frontier is the furthest price of the run in its direction |
| RunFacts.FrontierIsExtreme | step6-strategy/scripts/dump_sweep.py:143-145 | A buying run's frontier is its highest price, a selling run's its lowest |
| RunFacts.WalkedCounts | step6-strategy/scripts/dump_sweep.py:143-145 | The levels walked are the executions of the run that go further than all before them |
| RunFacts.PricesAre | step6-strategy/scripts/dump_sweep.py:146 | The price set of a run is the prices of its executions |
| Runs.WalkedVersusPrices | step6-strategy/scripts/dump_sweep.py:86-92 | The frontier count never exceeds the distinct-price count and equals it exactly when no execution trades a new price behind the frontier |
| Runs.MonotoneWalksAll | step6-strategy/scripts/dump_sweep.py:88-90 | On prices monotone in the run's direction the two counts agree |
| SweepDetector.RunsForGap | step6-strategy/scripts/sweep_grid.py:145-167 | The offline loop returns one group for each run of the partition, in order |
| SweepDetector.Detector.CloseRun | step6-strategy/scripts/dump_sweep.py:84-103 | Closing reports the run if it walked enough levels, counts it if the two counts differ, and resets the state |
| SweepDetector.Detector.OnExec | step6-strategy/scripts/dump_sweep.py:134-148 | One execution continues the run or closes it and starts the next, keeping every running figure true |
| SweepDetector.Detect | step6-strategy/scripts/dump_sweep.py:105-180 | The online detector reports exactly the partition's runs with enough levels, in order, and the runs a price set would count differently |
| RunFacts.SweepsReport | step6-strategy/scripts/dump_sweep.py:93-99 | The sweeps report, one each and in order, exactly the runs that walk enough levels: side, last time, duration, levels, shares |
| RunFacts.GroupsReport | step6-strategy/scripts/sweep_grid.py:156-166 | The offline groups have each run's last time, side and levels |
| RunFacts.MiscountedCounts | step6-strategy/scripts/dump_sweep.py:94-95 | The other figure counts the runs whose distinct prices are not as many as the levels walked |
| SweepFeed.DumpSweep | step6-strategy/scripts/dump_sweep.py:105-180 | On any feed the sweeps are those of the executions of the tracked symbol's orders, each at its order's price and never for more than it still had |
| SweepFeed.ExecsAreTrades | step6-strategy/scripts/dump_sweep.py:122-148 | The executions are those of the messages that execute a live order, one each and in order: at the message's time and the order's price, against its side, for the smaller of the shares named and left |
| SweepFeed.SharesConserved | step6-strategy/scripts/dump_sweep.py:113-149 | At every side and price the shares posted by adds and replaces are those executed, those cancelled, deleted, replaced or displaced, and those still resting |
| SweepFeed.ExecutionsWithinPosted | step6-strategy/scripts/dump_sweep.py:113-149 | So the shares executed plus the shares still resting never exceed the shares posted there |
| SweepDetector.SweepsAreLongGroups | step6-strategy/scripts/dump_sweep.py:185-186 | The detector's sweeps are the offline groups filtered by level count |

## Left out

- Reading and writing files, gzip, sockets, timeouts, command lines, and the formatting of timestamps and prices: messages, byte sequences and records are passed in and returned directly.
- Histograms, percentiles, message-type counts and the forward-return statistics of the sweep tools: derived figures that no other part reads.
- The 64-bit width of the counters, level quantities and timestamps, and the 32-bit width of shares: numbers are unbounded except where a field is packed or a counter is seen to wrap.
- The literal hash functions and table sizes: any hash into range and any size the loops accept.
- The literal order in which Python dictionaries and C arrays free or reuse memory.
- Price ladder overflow, out-of-memory and the other process exits: the overflow exit is the result `ok` of the parser, the rest do not occur.
- Trade lines and warnings printed by `itch_parser.c`, and its system-event and directory lines.
- ItchParser.Run: the stock field of adds and directory messages is a flag that is assumed to agree with the locate, so a feed that lists one symbol under two locates is not covered.
- Decoding ITCH bytes into messages: the three tools read the same fixed offsets.
- The level dictionaries and mid-price timeline of the sweep tools, and the reader of `sweep_grid.py`, which collects the same executions after looking the locate up in the directory messages.
- The merge of BBO and sweep logs by timestamp in `dump_orders.py`: the event stream is any sequence.
- Several venue connections at once, logout from the host, and orders injected verbatim through `send_ouch_payload`.
- The account name the venue records per order, the log lists of both sides, the sequence number parsed from the login answer, and device register writes other than counting order acknowledgements.
- Text decoding of names and tokens: they are byte sequences, and only ASCII blanks are stripped.
- TCP sequence numbers that wrap during a capture, which reassembly does not handle; sending wraps, and the round trip of orders asks that it does not.
- Lines that the capture decoder prints before a parser raises are dropped with the result.
- Partial or malformed MoldUDP64 packets: the receiver works on whole packets, and the file reader rejects what is cut short.
- The session name of MoldUDP64 packets is written and skipped, not compared.
- Register maps, RTL blocks and device bring-up.
