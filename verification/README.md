# Reverse Traceroute: verified model of the core

This project models the parts of the Reverse Traceroute system that hold state or run loops, and proves what they are
for. `dafny verify dfyconfig.toml` checks everything. Sources are cited by path and line in the repository.

| directory | what it models |
|---|---|
| `spoof/` | the spoofed-probe protocol: ids and counted channels in the controller, the registration table in the plcontroller, and the two joined by an unreliable transport |
| `warts/` | the binary parser for warts files, with a printer written as its specification: it takes a plan for every place where the format leaves a choice |
| `uuencode/` | the text encoding that carries warts output (POSIX.1-2017, Shell and Utilities, `uuencode`, STDOUT, "uuencode Historical Algorithm", backquote for zero) |
| `atlas/` | the in-memory hop index in front of the database, path extraction, traceroute comparison, the registry of running traceroutes |
| `controller/` | the record-route cache and its keys, database insertion in batches, the cache/database/dispatch split of a traceroute request |
| `survey/` | the enumeration of source and destination pairs in permutation order |

`Common.dfy` and `Seqs.dfy` hold shared types and sequence facts.

## How to read it

Code that changes things step by step is a class or a method with loops; its `ensures` ties the new state to a
specification function, and the theorems are about that function and about runs of it. One step of a run is one lock
region. Where Go iterates over a map, the order is arbitrary: methods pick any remaining key, and specification
functions take the order as an argument. Clocks, the network, the cache and database answers and their failures are
arguments.

What the specification functions do is in turn told without them: `ControllerHistory` and `PlHistory` speak of the
steps of a run and their clocks, `WartsLayout` of bytes, `AtlasHopIndex.Covered` of table rows, `RRCache.UpdatedIff` of
the recorded responses, `TraceSplit.Answered` and `Dispatched` of the request.

Behaviour of the code that a reader may not expect, and that the model keeps:

- The flag reader counts bytes in eight bits, so flags are exact only up to 255 (`WartsFlags.FlagsExactIff`).
- `io.EOF` inside a record ends `Parse` without an error (`WartsSilent.RecordShort` says where); an unterminated list
  description or monitor is dropped silently and takes the rest of the input; a traceroute with nothing left reads as
  one without flags; records of other types return their header and their body is not skipped; cycle definitions are
  returned as cycle starts.
- Announced parameter lengths and record lengths are not used by the reader: any numbers may stand there.
- Inline addresses longer than eight bytes are read as address 0 (`WartsAddress.InlineValueIff`).
- A file cut off within the strings of a list parses without an error, and its last list may lack a string
  (`WartsCut.CutFileIff`, `WartsCut.CutListExample`).
- `uuencode/uuencode.go:72-75` appends `remain` zeros and relies on spare capacity when one byte remains; the model pads
  to `uselen`, the multiple of three the loop uses.
- The terminator line does not end `UUDecode`, so concatenated encodings decode to the concatenated bytes.
- A load of the hop index that fails after an insertion is ignored, and the index stays as it was at the last load
  that succeeded (`AtlasServer.TurnedAwayIff`, `AtlasServer.FailedLoadMisses`). Queries with a window above a day reach
  traceroutes no load puts in the index (`AtlasServer.WindowIff`, `AtlasServer.LongWindowMisses`).
- `CompareOldAndNewTraceroute` starts from a zero hop at TTL zero, and compares nothing when the old id is the larger one
  (`AtlasCompare.ReportsNewStart`, `AtlasCompare.MissesChange`).
- The distance of a record-route intersection wraps when the destination lies in the first half of the guessed segment
  (`AtlasPaths.RRDistanceIff`, `AtlasPaths.RRDistanceWraps`); a record-route hop placed on one TTL is marked differently
  by the two path queries (`AtlasPaths.RRPathsAgreeIff`, `AtlasPaths.RRPathsDiffer`).
- A request to `TryAdd` that repeats a source hands it out more than once (`AtlasRunningTraces.HandedOutTwice`).
- A spoofed measurement from address zero looks under another key than its reply is stored under when a site is known
  for that address (`RRCache.ZeroSpooferMisses`).
- A spoofer that changes its site leaves its replies under the old one (`RRCache.MovedSpoofer`); a reply may stay
  unfiled because a reply under another hop knows its target nearer (`RRCache.NearerElsewhere`).
- `UpdateRRIntersectionTracerouteNonStale(oldID, newID)` gives the rows of the new traceroute to the old one
  (`AtlasServer.Server.MoveRRIntersections`).
- `doTraceroute` dispatches a measurement even after reporting that PlanetLab is not known.
- A survey sends one pair before it looks at its limit, and always sends a last batch, which may be empty.

In the table below the main results are marked; the rows around them are the steps and the in-place code they rest on.

## Model

| member | source | states |
|---|---|---|
| ControllerMap.StepKeepsIds | controller/controller.go:366-368 | no step hands out an id twice or lets two requests share one, while fewer than 2^32 ids are given out |
| ControllerMap.StepKeepsMap | controller/spoofmap.go:50-93 | every mapped id leads to the group it was added with, and that group is not cleaned up |
| ControllerMap.StepKeepsGroup | controller/spoofmap.go:34-93 | every lock region keeps each group's invariant: counter, closed flag and buffer agree with the ids still mapped |
| ControllerMap.NotifyIsSafe | controller/spoofmap.go:34-47 | a reply to an id whose group satisfies the invariant finds an open channel with room |
| ControllerMap.NotifyKeepsOwnGroup | controller/spoofmap.go:74-93 | delivering or dropping one reply removes exactly its id and keeps the group's invariant |
| ControllerMap.NotifyKeepsGroup | controller/spoofmap.go:74-93 | a reply for one group leaves the invariant of every other group intact |
| ControllerMap.CleanupKeepsGroup | controller/spoofmap.go:61-71 | the clean-up of one killed group leaves it without mapped ids and touches no other group |
| ControllerMap.AddedGroup | controller/controller.go:922-929 | a request that is added gets its ids on one channel with nothing sent on it: each of them leads to it, every other id leads where it did, the counter is their number, and the channel is open exactly when there is an id |
| ControllerMap.RunGroup | controller/spoofmap.go:34-93 | in every reachable state every group satisfies its invariant |
| ControllerMap.CountIsMapped | controller/spoofmap.go:17-37 | over all runs the counter of a group not cleaned up is the number of its ids still mapped |
| ControllerMap.NoPanicNoBlock | controller/spoofmap.go:34-47 | **Main result.** over all runs no channel is sent to after close, none is closed twice, and no send waits while the locks are held |
| ControllerMap.RepliesAreOwn | controller/spoofmap.go:74-93 | **Main result.** over all runs a request is sent only replies to its own ids, and each id at most once |
| ControllerMap.ClosedIffAllDelivered | controller/spoofmap.go:44-46 | **Main result.** the channel of a request that was not killed is closed exactly when every one of its ids was delivered |
| ControllerMap.NotifyDelivers | controller/spoofmap.go:80-92 | a reply to an open id of a live request is appended to its channel and unmapped, and closes the channel exactly when it was the last |
| ControllerHistory.GroupIdsIff | controller/controller.go:902-929 | over all runs a request is in the table exactly when it was added, and its ids are exactly those handed out to it before, in that order; the n-th id handed out is n |
| ControllerHistory.OpenIff | controller/spoofmap.go:50-93 | **Main result.** over all runs an id leads to a request if and only if it was handed out to that request, the request was added, and since then neither a reply to the id was notified nor the request killed and cleaned up |
| ControllerHistory.CleanedIsUnmapped | controller/spoofmap.go:61-71 | over all runs, once a request that was killed is cleaned up none of its ids leads anywhere |
| ControllerHistory.KilledIff | controller/controller.go:1019-1027 | a request counts as killed exactly when it closed its kill channel after it was added |
| ControllerHistory.AddedIsDelivered | controller/spoofmap.go:74-93 | **Main result.** over all runs the first reply to an id handed out to a request that was added and not killed is appended to what that request reads, closes its channel exactly when it was the last one open, and changes no other channel |
| ControllerHistory.KilledMayDrop | controller/spoofmap.go:34-47 | the reply to an open id of a killed request is dropped or appended, as the select goes, and its id is closed both ways |
| ControllerHistory.TakesInOrder | controller/controller.go:992-1030 | however often a request reads, it gets what it was sent one by one from the first, and nothing else changes |
| SpoofMaps.Channel.Send | controller/spoofmap.go:34-47 | the in-place send changes counter, buffer and closed flag as the abstract send does, for either choice of the select |
| SpoofMaps.SpoofMap.Add | controller/spoofmap.go:50-72 | adding a group in place gives the abstract table; the new channel has the request's ids, counts them and is open unless there are none, each id leads to it and every other id where it did |
| SpoofMaps.SpoofMap.PutAll | controller/spoofmap.go:56-59 | the loop maps every id to the new channel and changes no group |
| SpoofMaps.SpoofMap.Notify | controller/spoofmap.go:74-93 | the in-place notification has the outcome and the table of the abstract one |
| SpoofMaps.SpoofMap.DropAll | controller/spoofmap.go:66-69 | the loop removes exactly the ids of the channel |
| SpoofMaps.SpoofMap.Cleanup | controller/spoofmap.go:61-71 | the clean-up in place gives the abstract table, and leaves exactly the ids that the channel does not have |
| SpoofMaps.SpoofMap.Take | controller/controller.go:992-1030 | a request takes the first answer it has not taken off its channel, and one answer less is left |
| SpoofMaps.SpoofMap.Kill | controller/controller.go:1019-1027 | closing the kill channel marks the group only, as in the abstract step |
| PlTable.BatchesAreCollected | spoofmap/spoofMap.go:134-149 | the batches of one tick hold every answered entry exactly once, for any iteration orders and send failures |
| PlTable.BucketIs | spoofmap/spoofMap.go:135-137 | a batch holds exactly the answers of its sender |
| PlTable.CollectedCount | spoofmap/spoofMap.go:135-141 | a tick takes each answered registration out once and no other |
| PlTable.OverdueCount | spoofmap/spoofMap.go:173-177 | a clean-up takes each registration older than 120 seconds out once and no other |
| PlTable.RegisterLive | spoofmap/spoofMap.go:75-94 | after a registration exactly the new one and the old ones of other ids are in the table |
| PlTable.RegisterFates | spoofmap/spoofMap.go:75-94 | a registration ends exactly the one it replaces, once |
| PlTable.RegisterKeepsFate | spoofmap/spoofMap.go:75-94 | registering keeps the one fate of every registration, also when it replaces one |
| PlTable.ExactlyOneFate | spoofmap/spoofMap.go:75-187 | **Main result.** over all runs every registration is in the table or left it exactly once: handed over, expired or replaced |
| PlTable.ForwardedIsRegistered | spoofmap/spoofMap.go:97-149 | whatever is handed to a transport was received for a registration of its id and is in its sender's batch |
| PlTable.DroppedIsOld | spoofmap/spoofMap.go:79-87 | the log names no age of at most 60 seconds for a replacement or 120 for an expiry |
| PlHistory.EntryIs | spoofmap/spoofMap.go:75-111 | over all runs the entry of a live registration holds the clock of the step that made it and the latest answer to its id since that step, none for a new one |
| PlHistory.AcceptedIff | spoofmap/spoofMap.go:75-94 | **Main result.** over all runs a registration is accepted if and only if no live one of its id was made by a step whose clock is at most 60 seconds before its own; a refused one changes nothing |
| PlHistory.LeavesIff | spoofmap/spoofMap.go:75-187 | **Main result.** over all runs a live registration leaves the table in exactly these steps: a tick once an answer came since it was made, a registration of its id more than 60 seconds, or a clean-up more than 120 seconds, after the clock of the step that made it |
| PlHistory.DroppedByClock | spoofmap/spoofMap.go:75-187 | the age logged for every replacement and expiry is the time between the clocks of the two steps, more than 60 or 120 seconds |
| PlDelivery.ReceivedIsForwarded | spoofmap/spoofMap.go:97-149 | **Main result.** an answer to a registered id is in its sender's batch at the next tick, after any steps that do not answer, replace or expire that id |
| SpoofTables.SpoofTable.Register | spoofmap/spoofMap.go:75-94 | registering in place refuses exactly an id registered at most 60 seconds ago, and otherwise puts it in with the clock and no answer, as in the specified step |
| SpoofTables.SpoofTable.Receive | spoofmap/spoofMap.go:97-111 | an answer is stored exactly when its id is registered |
| SpoofTables.SpoofTable.Collect | spoofmap/spoofMap.go:134-141 | the first loop of a tick removes the answered entries and groups them by sender |
| SpoofTables.SpoofTable.SendAll | spoofmap/spoofMap.go:142-149 | the second loop sends one batch for each sender |
| SpoofTables.SpoofTable.SendSpoofs | spoofmap/spoofMap.go:133-150 | a tick in place gives the specified table and batches for the order in which the map was walked |
| SpoofTables.SpoofTable.CleanOld | spoofmap/spoofMap.go:169-183 | the clean-up in place gives the specified table for the order in which the map was walked and the clock read for each entry |
| SpoofEndToEnd.SentWasHandedOver | controller/controller.go:1292-1294 | everything on a request's channel was handed over in a batch, which may have failed part of the way |
| SpoofEndToEnd.HandedOverIsRegistered | spoofmap/spoofMap.go:97-149 | in every run of both ends a probe handed over was received at the plcontroller under a registered id |
| SpoofEndToEnd.EndToEnd | spoofmap/spoofMap.go:75-150 | **Main result.** in every run, with probes repeated, unknown or lost and sends that fail part of the way: what a request reads was received at the plcontroller under a registered id, answers one of its own ids, and no id answers twice |
| SpoofEndToEnd.ClosedMeansAnswered | controller/spoofmap.go:74-93 | **Main result.** in every run of both ends an unkilled request's channel is closed exactly when all its ids were answered, and the controller never panics or blocks |
| SpoofEndToEnd.OneFateEach | spoofmap/spoofMap.go:75-187 | in every run of both ends every registration has exactly one fate |
| SpoofEndToEnd.AnswerReachesRequest | spoofmap/spoofMap.go:97-149 | **Main result.** an answer to an id registered at the plcontroller can be notified from the next tick on, and when the id was handed out to a request that was added, not killed and not answered under that id, it is appended to what that request reads |
| WartsWire.Uint16RoundTrip | warts/utils.go:79-96 | a 16-bit number is read back from its big-endian form, leaving what follows |
| WartsWire.Uint32RoundTrip | warts/utils.go:42-61 | a 32-bit number is read back from its big-endian form, leaving what follows |
| WartsWire.TimeValRoundTrip | warts/utils.go:98-111 | seconds and signed microseconds are read back |
| WartsWire.StringRoundTrip | warts/utils.go:113-132 | a zero-free string is read back up to its terminator |
| WartsWire.GetStringExact | warts/utils.go:113-132 | a string read stops behind the first zero byte and fails exactly when there is none |
| WartsFlags.GetFlagsReadsBitmap | warts/flags.go:35-55 | on a bitmap the reader returns its set positions in order, each in eight bits, and stops right behind the first byte whose bit 8 is clear |
| WartsFlags.GetFlagsFails | warts/flags.go:45-51 | the reader fails exactly when no byte ends the bitmap, and then with io.EOF |
| WartsFlags.PositionsAre | warts/flags.go:40-44 | the positions are strictly increasing and contain f exactly when bit (f-1)%7 of byte (f-1)/7 is set |
| WartsFlags.FlagsExactIff | warts/flags.go:38-53 | **Main result.** the eight-bit results are the positions exactly when all are below 256, as they are in up to 36 bytes |
| WartsFlags.FlagsWrapExample | warts/flags.go:38-53 | flag 256, in a 37th byte, is read as flag 0 |
| WartsFlags.BitmapRoundTrip | warts/flags.go:35-55 | the shortest bitmap of a set of flags is read back as that set in order |
| WartsAddress.InlineRoundTrip | warts/address.go:106-118 | an inline address is read back and takes the next id of the table |
| WartsAddress.AddressRoundTrip | warts/address.go:93-120 | an address written inline in any bytes that spell it, by any id that holds it, or in the default form is read back, with the table the writer expects |
| WartsAddress.ManyRoundTrip | warts/ping.go:433-443 | items that are read back one by one are read back as a list |
| WartsAddress.AddressesRoundTrip | warts/ping.go:609-624 | any list of addresses, each in any of these forms, is read back, from any table |
| WartsAddress.TableIsInlineLog | warts/address.go:65-71 | after any run of address reads the table holds exactly the inline addresses read, in order, under the ids 0 to n-1 |
| WartsAddress.InlineValueIff | warts/utils.go:158-167 | an inline address keeps its value exactly when it has at most eight bytes or is zero |
| WartsTable.PingTableIsLog | warts/ping.go:409-431 | **Main result.** on any input, after a ping with its replies the table is the log of the inline addresses met, in order, under the ids 0 to n-1 |
| WartsTable.TracerouteTableIsLog | warts/traceroute.go:250-274 | **Main result.** on any input, after a traceroute with its hops the table is the log of the inline addresses met |
| WartsTable.ReferenceIs | warts/address.go:74-76 | in a table that is a log a reference below its length stands for that entry, and any other for the zero address |
| WartsTable.StructLogged | warts/ping.go:647-805 | on any input a structure adds to the table exactly the inline addresses in its fields |
| WartsFields.ExtensionsRoundTrip | warts/traceroute.go:109-126 | on a list whose announced length is that of its extensions the reader returns them in order and stops right behind them |
| WartsFields.ValueRoundTrip | warts/ping.go:647-805 | every kind of optional field is read back, given the fields before it |
| WartsFields.FieldsRoundTrip | warts/ping.go:462-556 | fields written in flag order are read back as a whole, including data whose length is an earlier field |
| WartsFields.StructRoundTrip | warts/ping.go:445-560 | any bitmap that says the flags, any parameter length, and the fields of one structure are read back, for any table of fields |
| WartsFields.StructsRoundTrip | warts/traceroute.go:276-286 | a list of structures is read back, addresses referring to earlier structures included |
| WartsFrame.FieldsFrame | warts/ping.go:647-805 | fields depend on the bytes they consume and on the table: what follows may be replaced |
| WartsFrame.StructFrame | warts/ping.go:445-560 | a structure depends on the bytes it consumes, at least one, and on the table |
| WartsRecords.HeaderRoundTrip | warts/header.go:41-66 | magic, type and length of a header are read back |
| WartsRecords.ListRoundTrip | warts/list.go:65-91 | a list record is read back from its body |
| WartsRecords.CycleRoundTrip | warts/cycle.go:131-153 | a cycle start record is read back from its body |
| WartsRecords.CycleStopRoundTrip | warts/cycle.go:155-172 | a cycle stop record is read back from its body |
| WartsRecords.PingRoundTrip | warts/ping.go:409-431 | a ping record with its replies is read back from its body |
| WartsRecords.TracerouteRoundTrip | warts/traceroute.go:250-274 | a traceroute record with its hops is read back from its body |
| WartsRecords.RecordTakesHeader | warts/warts.go:69-94 | every successful parseNext consumes at least the eight header bytes, on any input |
| WartsRecords.RecordFrame | warts/warts.go:69-94 | **Main result.** on any input a record is read from its own bytes alone, unless it is a list with a string that has no end |
| WartsRecords.OpenTakesAll | warts/flags.go:84-97 | a list with a string that has no end is read without error and leaves nothing |
| WartsRecords.RecordRoundTrip | warts/warts.go:69-94 | parseNext returns a well-formed record, written by any plan, and consumes exactly its encoding, whatever follows |
| WartsRecords.ParseRoundTrip | warts/warts.go:98-117 | **Main result.** however the records of a file are written (repeated inline addresses, any id that holds an address, longer bitmaps, announced empty strings, any lengths), Parse returns exactly those of the wanted types, in order |
| WartsCut.ParseIs | warts/warts.go:98-117 | on any input Parse returns the wanted ones of the records read, or fails, as the first failing read ends with io.EOF or not |
| WartsCut.FrontRecords | warts/warts.go:98-117 | the records of any byte string are the first records of every longer one, unless it ends in a string of a list; then all but that list are |
| WartsCut.ParseConcat | warts/warts.go:98-117 | **Main result.** whatever encodings are used, a file read to its end followed by any bytes parses to its records and then those of the bytes |
| WartsCut.CutRecords | warts/warts.go:98-117 | of the first n bytes of a written file exactly the complete records are read, and behind them the list cut within its strings, if it is one; and the reading ends silently or not as the place of the cut says |
| WartsSilent.RecordShort | warts/warts.go:69-94 | a cut record that cannot be read is reported as io.EOF exactly at the silent places: in front of it, in front of its body unless it is a traceroute, in a bitmap, in front of the value of an inline address, of data or of the data of an extension, in the name of a list, in a host name, at the end of a cycle stop |
| WartsSilent.AddressShort | warts/address.go:93-120 | a cut address is silent exactly when its length and type are there and nothing else |
| WartsSilent.ManyShort | warts/ping.go:433-443 | items that are cut one by one as they should be are so as a list |
| WartsSilent.FieldsShort | warts/ping.go:647-805 | which cuts within the fields of a structure are silent |
| WartsSilent.BitmapShort | warts/flags.go:35-55 | a bitmap without its end is silent, whatever is missing of it |
| WartsSilent.ItemsShort | warts/ping.go:409-431 | which cuts within flags, count and counted structures are silent |
| WartsSilent.TracerouteShort | warts/traceroute.go:250-274 | a cut traceroute reports an error of its own when its whole body is missing or part of its end word |
| WartsCut.CutFile | warts/warts.go:98-117 | **Main result.** the parse of the first n bytes of a written file, exactly: an error, or the wanted ones of those records when no record is cut, a list is cut within its strings, or the missing bytes are missed silently |
| WartsCut.CutFileIff | warts/warts.go:98-117 | **Main result.** a cut file gives an error or the first of the wanted records if and only if lists are not wanted or the cut takes no non-empty string from a list |
| WartsCut.DescriptionLost | warts/flags.go:84-97 | any list that has only a description, cut in front of it, is read as a list without one |
| WartsCut.CutListExample | warts/flags.go:84-97 | a file whose cut takes the description "A" |
| WartsLayout.PingFlag | warts/ping.go:626-808 | **Main result.** for each of the 28 flags of a ping, in bytes: a ping with that flag alone reads as the value its field's bytes mean (one, two or four bytes highest first, seconds and signed microseconds, an address, two addresses), and what follows is left |
| WartsLayout.PingReplyFlag | warts/ping.go:445-560 | **Main result.** for each of the 17 flags of a ping reply, in bytes: a reply with that flag alone reads as the value its field's bytes mean |
| WartsLayout.TracerouteFlag | warts/traceroute.go:416-586 | **Main result.** for each of the 28 flags of a traceroute, in bytes: a traceroute with that flag alone reads as the value its field's bytes mean |
| WartsLayout.HopFlag | warts/traceroute.go:288-414 | **Main result.** for each of the 19 flags of a hop, in bytes: a hop with that flag alone reads as the value its field's bytes mean; the time of flag 19 is dropped |
| WartsLayout.OtherFlags | warts/traceroute.go:409-411 | a flag up to 256 that a structure does not have is an error |
| WartsLayout.PingData | warts/ping.go:693-702 | fields follow in the order of their flags, and the data of flag 9 has the length of flag 8 |
| WartsLayout.HopReference | warts/address.go:74-103 | a hop that refers to address 0 has the address the traceroute gave inline first |
| WartsLayout.RecordBytes | warts/warts.go:69-94 | magic, type and length are the first two, the next two and the next four bytes; any other magic is an error, and the type decides what is read |
| WartsLayout.ListBytes | warts/list.go:65-91 | which bytes of a list are its ids, name, length, description and monitor, for each of its flags bytes |
| WartsLayout.CycleBytes | warts/cycle.go:131-153 | which bytes of a cycle start are its ids, start time, length, stop time and host name, for each of its flags bytes |
| WartsLayout.CycleStopBytes | warts/cycle.go:155-172 | which bytes of a cycle stop are its id and stop time |
| WartsLayout.ParseOne | warts/warts.go:98-135 | a file of one record is returned exactly when its type number is asked for; cycle definitions count as cycle starts |
| WartsLayout.PingFile | warts/ping.go:409-560 | a whole file with one ping whose reply carries a TTL and a size, byte by byte |
| WartsBytes.StampsRead | warts/ping.go:580-607 | the first count of a timestamp option is that of the times, the second that of the addresses |
| WartsBytes.ExtensionRead | warts/traceroute.go:78-126 | the bytes of an ICMP extension: length of all, own length, class, type and data |
| WartsReader.Buffer.Read | warts/utils.go:146-156 | a read takes a prefix of the unread bytes, and reports io.EOF exactly when bytes are wanted and none is left |
| WartsReader.GetFlagsFromBuffer | warts/flags.go:35-55 | the flag loop consumes and returns what the reading function says |
| WartsReader.SliceToUint64Loop | warts/utils.go:158-167 | the shifting loop computes the big-endian value |
| WartsReader.ReadAddressFrom | warts/address.go:93-120 | reading an address changes buffer and table as the reading function says |
| WartsReader.ReadAddressesFrom | warts/ping.go:609-624 | the counted loop reads addresses as the reading function says |
| WartsReader.ReadExtensionsInto | warts/traceroute.go:109-126 | the extension loop, whose counter may wrap, ends on every input and reads as the reading function says |
| WartsReader.ReadFieldsFrom | warts/ping.go:647-805 | the loop over flags fills the fields as the reading function says |
| WartsReader.ReadStructsFrom | warts/ping.go:433-443 | the counted loop fills the structures as the reading function says |
| WartsReader.ReadListFrom | warts/list.go:65-91 | the list reader changes the buffer as the reading function says |
| WartsReader.ReadCycleFrom | warts/cycle.go:131-153 | the cycle reader changes the buffer as the reading function says |
| WartsReader.ReadCycleStopFrom | warts/cycle.go:155-172 | the cycle stop reader changes the buffer as the reading function says |
| WartsReader.ReadPingFrom | warts/ping.go:409-431 | the ping reader changes the buffer as the reading function says |
| WartsReader.ReadTracerouteFrom | warts/traceroute.go:250-274 | the traceroute reader changes the buffer as the reading function says |
| WartsReader.Parse | warts/warts.go:98-117 | **Main result.** the parse loop ends on every input, and on any encoding of well-formed records returns those of the wanted types, in order |
| UUCode.GroupRoundTrip | uuencode/uuencode.go:99-106 | three bytes are recovered from their four characters, all between 33 and 96 |
| UUCode.GroupsRoundTrip | uuencode/uudecode.go:87-93 | any whole number of groups is recovered and takes four characters for three bytes |
| UUCode.LineRoundTrip | uuencode/uuencode.go:58-90 | a line of 1 to 45 bytes, padded to a multiple of three, is recovered without its padding |
| UUCode.SplitLine | uuencode/uudecode.go:66-66 | splitting at newlines recovers a newline-free line and the lines after it |
| UUCode.DecodeFrom | uuencode/uudecode.go:67-77 | decoding continues behind an encoding with its bytes appended, whatever follows |
| UUCode.RoundTrip | uuencode/uudecode.go:62-95 | every byte string is recovered from its encoding |
| UUCode.RoundTripConcat | uuencode/uudecode.go:71-75 | **Main result.** encodings written one after the other decode to the bytes one after the other |
| UUCode.EncodedBytes | uuencode/uuencode.go:92-106 | only newlines and bytes in 33..96 are written |
| UUCode.EncodedLength | uuencode/uuencode.go:36-90 | the output length: 62 for each 45 bytes, four for each started group of the last line and two around them, two to end |
| UUCode.GroupSpells | uuencode/uuencode.go:99-106 | the four characters of a group spell the 24 bits of its three bytes, the first ones first, a backquote for six zeros |
| UUCode.GroupReads | uuencode/uudecode.go:97-109 | decoding a group reads its 24 bits in the same order; space and backquote are both zero |
| UUCode.GroupsDecodeIff | uuencode/uudecode.go:80-109 | groups decode exactly when they are whole and every byte is in 32..96; a whole group with another byte is an error, and otherwise a cut one is an index out of range |
| UUCode.LinesStop | uuencode/uudecode.go:66-78 | what follows the first empty line or bad length byte is ignored |
| UUCode.EncodeExamples | uuencode/uuencode.go:36-106 | the encodings of "Cat" and of a single byte |
| UUWriter.FillGroups | uuencode/uuencode.go:80-88 | the loop writes group i behind the length byte and the groups before it |
| UUWriter.EncodeLineInto | uuencode/uuencode.go:58-90 | the line buffer ends up as the encoded line |
| UUWriter.UUEncode | uuencode/uuencode.go:36-56 | what the encoder returns decodes to what it was given |
| UUWriter.DecodeLineInto | uuencode/uudecode.go:80-95 | the group loop decodes a line, or stops with its error |
| UUWriter.UUDecode | uuencode/uudecode.go:62-78 | **Main result.** the decoder recovers any two encodings written one after the other |
| UUWriter.UUDecodingWriter.Write | uuencode/uudecode.go:48-54 | a write appends the decoded bytes, and a failed one changes nothing |
| AtlasHopIndex.CollectRows | atlas/repo/repo.go:1265-1286 | the first loop collects the hops and clusters of every destination, and all clusters |
| AtlasHopIndex.AddAlias | atlas/repo/repo.go:1317-1321 | one alias goes to exactly the destinations that have its cluster |
| AtlasHopIndex.AddAliases | atlas/repo/repo.go:1308-1322 | the second loop adds exactly the aliases of the clusters of each destination |
| AtlasHopIndex.AliasesAreClosure | atlas/repo/repo.go:945-971 | hops and collected aliases together are what traceroutes of the last day to the destination went through, and all that shares a cluster with that |
| AtlasHopIndex.NoClusters | atlas/repo/repo.go:1292-1294 | the early return without clusters loses nothing |
| AtlasHopIndex.FreshIff | atlas/repo/repo.go:947-966 | the inner selects return an address for a destination exactly when a traceroute to it of the last 24 hours, stale or not, has a hop or a record-route hop of its own with that address |
| AtlasHopIndex.Load | atlas/repo/repo.go:1249-1324 | **Main result.** right after a load an address is in the index for a destination if and only if some traceroute to it of the last 24 hours, stale or not, has among its own hops or record-route hops that address or one that shares a cluster with it; a load fails exactly when a query it sends fails |
| AtlasServer.FoundIsCovered | atlas/repo/repo.go:139-230 | whatever a query with a window of at most a day finds is in the closure |
| AtlasServer.CoveredIsFound | atlas/repo/repo.go:139-230 | **Main result.** when nothing is stale and no platform is left out, an address is covered if and only if the queries with a window of one day find it, or find an alias of it among what was recorded |
| AtlasServer.OneTraceFound | atlas/repo/repo.go:139-230 | what the queries find in a table of one traceroute: not stale, to the destination, of a platform asked for, within the window in minutes, from another source if wanted, through the address |
| AtlasServer.IndexIsLastLoad | atlas/server/server.go:1813-1824 | over all runs, failed loads included, the index is exactly the closure at the last load that succeeded |
| AtlasServer.TurnedAwayIff | atlas/server/server.go:983-1009 | **Main result.** over all runs, what the queries would find is turned away exactly when no load succeeded yet or its pair was not covered at the last one that did |
| AtlasServer.StepCoversNoMore | atlas/server/server.go:780-821 | failed loads, stale marks and time bring nothing new into the closure |
| AtlasServer.LongWindowMisses | atlas/server/server.go:983-1009 | for every window above a day there is a run in which, right after a load, the gate turns away a traceroute both queries find |
| AtlasServer.WindowIff | atlas/server/server.go:983-1009 | **Main result.** no query with a window is ever turned away after such a load from what it would find if and only if the window is at most a day |
| AtlasServer.NoFalseNegatives | atlas/server/server.go:983-1009 | over all runs, with nothing inserted or moved and no alias change since the last successful load, whatever queries with a window of at most a day would find passes the gate |
| AtlasServer.FailedLoadMisses | atlas/server/server.go:818-820 | a run whose load after an insertion failed turns away a traceroute the query finds |
| AtlasServer.ChunkRows | atlas/server/server.go:792-806 | storing one more chunk behind the first k traceroutes gives the database and the ids of one insertion of all of them |
| AtlasServer.Server.constructor | atlas/server/server.go:237-238 | the server starts with one load |
| AtlasServer.Server.Refresh | atlas/server/server.go:1813-1824 | the index is replaced as a whole, or kept when the load fails |
| AtlasServer.Server.StoreAll | atlas/server/server.go:790-806 | storing in chunks of 5000 gives the rows and ids of one insertion, up to the first chunk that fails |
| AtlasServer.Server.InsertTraceroutes | atlas/server/server.go:780-821 | an insertion stores every traceroute under its own id with its own source, destination and hops, and nothing else; after a load that succeeded every fresh one has its hops and what was recorded for it under its own destination; after a failed chunk the index is not rebuilt |
| AtlasServer.Server.MoveRRIntersections | atlas/repo/repo.go:942-943 | record-route rows move from the new traceroute to the old one, as the statement has it, and no load follows |
| AtlasServer.Server.MarkStaleIds | atlas/repo/repo.go:931-940 | exactly the traceroutes named are stale afterwards and differ in nothing else; no load follows |
| AtlasServer.Server.Gate | atlas/server/server.go:983-1009 | the database is asked exactly when the index has the address for the destination; window 0 means 60 minutes |
| AtlasPaths.FindPath | atlas/repo/repo.go:582-622 | the path is the traceroute from the first hop equal to the matched address, with its distance, and is missing exactly when there is no such hop |
| AtlasPaths.ScannedIs | atlas/repo/repo.go:591-615 | after any number of rows the loop variables hold the hops from the first match, the TTL of the last match and the distance so far |
| AtlasPaths.DistanceNeverWraps | atlas/repo/repo.go:599-612 | for rows ordered by TTL the distance is the TTL difference from the last match to the last row of the destination, without wrapping |
| AtlasPaths.SameRouterIs | atlas/repo/repo.go:183-192 | both path queries take the same addresses for the queried one: itself and all that share a cluster |
| AtlasPaths.CheckPath | atlas/repo/repo.go:315-403 | the checked path starts at the first hop of the queried router and marks none, or else at the record-route hop and marks exactly the hops up to its end |
| AtlasPaths.FoundIsSuffixOfChecked | atlas/repo/repo.go:343-365 | **Main result.** the path found is a suffix of the path checked for the same traceroute and address, and all of it exactly when the first hop of the router is the match |
| AtlasPaths.OneAliasSamePath | atlas/repo/repo.go:343-365 | the two paths are equal when one address of the router is on the traceroute |
| AtlasPaths.FindRRPath | atlas/repo/repo.go:466-522 | the record-route path is the queried address in front of the hops not before it; exactly the hops up to the end of the segment are marked, none when the segment is one TTL; it is missing exactly when every row is before the segment |
| AtlasPaths.RRDistanceIs | atlas/repo/repo.go:463-514 | the record-route distance counts, in 32 bits, from the middle of the segment to the last row of the destination that is not before it, and is 0 when there is none |
| AtlasPaths.RRDistanceIff | atlas/repo/repo.go:463-514 | for a segment between two rows the record-route distance is counted from its middle exactly when the destination is at least half the segment behind its start; otherwise it is within half a segment of 2^32 and a later row ends the segment |
| AtlasPaths.DestinationLastIsRight | atlas/repo/repo.go:463-514 | on a traceroute that ends at its destination the distance is always right |
| AtlasPaths.RRDistanceWraps | atlas/repo/repo.go:463-514 | three rows for which the distance comes out as 2^32 - 1 |
| AtlasPaths.KeptIsSuffix | atlas/repo/repo.go:486-510 | for rows ordered by TTL the kept hops are the end of the traceroute, from the first row not before the segment, marked up to the end of the segment |
| AtlasPaths.RRPathsAgreeIff | atlas/repo/repo.go:381-397 | **Main result.** the two record-route paths mark the same hops unless the hop sits on one TTL of the traceroute |
| AtlasPaths.RRPathsDiffer | atlas/repo/repo.go:381-397 | one row for which the two paths differ |
| AtlasCompare.Compare | atlas/repo/repo.go:1199-1245 | the loop reports a change exactly when some new row contradicts the remembered old hop, and an intersection exactly when some new row has the address |
| AtlasCompare.CurrentOldFirst | atlas/repo/repo.go:1229-1238 | with the old id first the remembered hop is the old hop of the same TTL, if there is one |
| AtlasCompare.ChangedOldFirst | atlas/repo/repo.go:929-929 | **Main result.** with the old id below the new one a change is reported exactly when a shared TTL differs or only the new traceroute has a non-zero first hop |
| AtlasCompare.ReportsNewStart | atlas/repo/repo.go:1199-1245 | a new traceroute that alone answers at TTL zero is reported although no shared TTL differs |
| AtlasCompare.ChangedIsMergeJoin | atlas/repo/repo.go:1199-1245 | **Main result.** with a source hop in both, a change is reported exactly when some shared TTL has different hops |
| AtlasCompare.ChangedNewFirst | atlas/repo/repo.go:929-929 | with the old id above the new one no shared TTL is compared |
| AtlasCompare.MissesChange | atlas/repo/repo.go:1199-1245 | two traceroutes that differ at a shared TTL and are not reported |
| AtlasCompare.StillIntersects | atlas/repo/repo.go:1239-1241 | the second answer is whether the new traceroute contains the address |
| AtlasRunningTraces.Merge | atlas/server/server.go:1899-1926 | the three loops return the sorted union and exactly what the old list lacks, repeated elements included |
| AtlasRunningTraces.RunningTraces.TryAdd | atlas/server/server.go:1894-1932 | the registry grows by exactly the sources returned, which are those not yet running |
| AtlasRunningTraces.RunningTraces.Remove | atlas/server/server.go:1862-1885 | the registry keeps exactly the sources not done, each once, and drops an address without any |
| AtlasRunningTraces.StoredIsInFlight | atlas/server/server.go:1862-1932 | **Main result.** over all runs the stored sources are those handed out minus those removed |
| AtlasRunningTraces.HandsOutOnceIff | atlas/server/server.go:1894-1932 | a call hands out each source once and none in flight exactly when its request names each once |
| AtlasRunningTraces.HandedOutTwice | atlas/server/server.go:1894-1932 | a run in which a repeated source is handed out while in flight |
| AtlasRunningTraces.NeverTwice | atlas/server/server.go:1862-1932 | **Main result.** over all runs of duplicate-free requests no source is handed out while in flight, and every other one asked for is |
| AtlasRunningTraces.RunHandsOutOnceIff | atlas/server/server.go:1862-1932 | **Main result.** over any run every call hands out each source once and none in flight if and only if every request names each of its sources once |
| CacheKeys.DecimalUnique | datamodel/ping.go:53-63 | decimal notation determines the number |
| CacheKeys.DecimalDenotes | datamodel/ping.go:53-63 | decimal notation consists of digits that stand for the number, without leading zeros |
| RRCache.RRKeyExample | datamodel/ping.go:53-63 | a record-route key in full |
| TraceSplit.KeyExample | datamodel/traceroute.go:138-140 | a traceroute key in full |
| CacheKeys.KeyUnique | datamodel/ping.go:53-63 | distinct sites, sources and hops have distinct keys, whatever the sites contain |
| CacheKeys.PairKeyUnique | datamodel/traceroute.go:138-140 | distinct sources and destinations have distinct traceroute keys |
| RRCache.MeasuredIff | controller/controller.go:1214-1231 | a reply is measured for exactly the hops it recorded at or after its destination, other than zero and the source, at such a position |
| RRCache.ChosenIsRecorded | controller/controller.go:1266-1286 | a reply is stored only under its destination or a hop it recorded from there on |
| RRCache.CachedIff | controller/controller.go:1238-1263 | a hop's cached position is where the last reply returned that records it has it last |
| RRCache.UpdatedIff | controller/controller.go:1198-1290 | **Main result.** for every site, source and hop: the entry after an update is the reply if and only if site and source are its own, the write succeeded, and either it reached its destination, recorded the hop from there on, the hop is neither zero nor its source, and no nearer position of it was returned by the cache, or it did not reach its destination and the hop is that; every other entry is untouched. The position that counts is the last recorded |
| RRCache.SitesAre | controller/controller.go:1198-1212 | a reply that was not spoofed has site 0, and addresses without a site have different ones |
| RRCache.Cache.Update | controller/controller.go:1198-1290 | an update asks only for the keys of hops recorded from the destination on, and then stores the reply under exactly the hops that UpdatedIff names |
| RRCache.Cache.Write | controller/controller.go:1275-1285 | the loop writes every chosen hop and nothing else |
| RRCache.Measure | controller/controller.go:1214-1231 | the nested loops compute the distances from the destination on |
| RRCache.ReadHits | controller/controller.go:1238-1263 | the loop over cached entries skips dummies and computes their distances |
| RRCache.RunIsSound | controller/controller.go:1198-1290 | **Main result.** over all runs every stored reply was processed in some step of the run, and its key names its source, the site its spoofer had in that step, and its destination or a hop it recorded from there on |
| RRCache.FoundAnswers | controller/controller.go:603-616 | over all runs what a measurement finds has its source, has its target as destination or as a hop recorded from there on, and came from the site the measurement asks for when it was processed |
| RRCache.FoundFromSite | controller/controller.go:603-616 | **Main result.** over all runs with one site map the reply a measurement finds answers it and comes from the site it asks for |
| RRCache.MovedSpoofer | controller/controller.go:603-616 | a reply found for a site that its spoofer has left |
| RRCache.LookupIsReplyKeyIff | datamodel/ping.go:53-115 | for one site map a measurement's key is its reply's key, unless the spoofer is address zero with another site |
| RRCache.ZeroSpooferMisses | datamodel/ping.go:53-115 | a measurement that does not look where its reply is stored |
| RRCache.ReplyIsFoundIff | controller/controller.go:1265-1286 | **Main result.** a processed reply is found where its measurement looks if and only if its write succeeds, no nearer position of the target was cached, and the keys agree; otherwise that entry is untouched, also when it is missing |
| RRCache.NearerElsewhere | controller/controller.go:1265-1286 | a run in which a nearer position under another hop keeps the reply from its own key, where nothing is |
| InsertBatcher.StepKeeps | controller/controller.go:199-257 | every event keeps both queues and the token count in order |
| InsertBatcher.RunKeeps | controller/controller.go:184-257 | **Main result.** over all runs launched batches followed by what is pending are what was received, batches are non-empty and within the limit, and free tokens and running flushes add up |
| InsertBatcher.TickLaunchesAll | controller/controller.go:214-231 | after a tick nothing is left pending |
| InsertBatcher.FullOrByTick | controller/controller.go:233-253 | over all runs a batch that no tick launched has exactly 20000 pings or 1000 traceroutes |
| InsertBatcher.TokensNeverOverflow | controller/controller.go:184-197 | free tokens and running flushes are always 500 together, and returning one never finds the channel full |
| InsertBatcher.Inserter.constructor | controller/controller.go:207-210 | the filling loop leaves as many tokens as the channel holds |
| InsertBatcher.Inserter.OnTicker | controller/controller.go:214-231 | a tick in place is the specified step |
| InsertBatcher.Inserter.OnPing | controller/controller.go:233-244 | a received ping in place is the specified step |
| InsertBatcher.Inserter.OnTraceroute | controller/controller.go:245-253 | a received traceroute in place is the specified step |
| TraceSplit.Part | controller/controller.go:1488-1496 | the first loop keeps what does not ask, and for each key that is asked for the last measurement that asks |
| TraceSplit.Look | controller/controller.go:1506-1516 | the second loop answers the keys found and passes the others on, each once |
| TraceSplit.Handle | controller/controller.go:1485-1552 | a lookup stage answers the keys found, and passes on everything that did not ask and, for each key not found, the last measurement that asked |
| TraceSplit.Dispatch | controller/controller.go:1553-1573 | each remaining measurement goes to its service, with an error as well when PlanetLab is not known |
| TraceSplit.NothingLost | controller/controller.go:1484-1573 | every requested key is answered from the cache, answered from the database, or dispatched |
| TraceSplit.NothingMore | controller/controller.go:1484-1573 | dispatched measurements are requested ones, and no key is dispatched more often than requested |
| TraceSplit.AnsweredAsAsked | controller/controller.go:1484-1552 | the cache answers exactly the keys it has that a measurement asks it for, marked as cached; the database answers only keys that a measurement asks it for and the cache did not answer, unmarked; both send the body they have |
| TraceSplit.DispatchedAsAsked | controller/controller.go:1484-1573 | a measurement goes to its own service; none that asks for what is found goes out, and one that asks for nothing goes out as often as requested |
| TraceSplit.Split | controller/controller.go:1484-1573 | **Main result.** for any cache and database contents and failures every stage answers exactly what it finds, as found and marked when cached, nothing requested is lost and nothing is dispatched beyond the request |
| TraceSplit.KeyIsPair | datamodel/traceroute.go:138-140 | two measurements have the same key exactly when source and destination agree |
| Survey.BitLengthIs | survey/common.go:57-59 | the bit length is the number of bits that hold an index |
| Survey.UnpackIff | survey/common.go:92-96 | the low bits of a packed integer are the source and those above them the destination |
| Survey.LeftOutIsInvalid | survey/common.go:88-90 | the integer left out at 32 bits encodes no valid pair |
| Survey.WalkedIsComplete | survey/common.go:94-100 | walking the permutation meets exactly the valid pairs, each once |
| Survey.WalkedCount | survey/common.go:94-100 | there are as many of them as sources times destinations |
| Survey.Walk | survey/common.go:92-130 | the loop sends the first pairs of the walk in full batches, up to the limit |
| Survey.RandomizeAndSend | survey/common.go:51-152 | the batches sent one after the other are the first pairs of the walk, as many as the limit allows and at least one, all valid and none twice; all but the last are full; empty lists send nothing or one empty batch |
| Survey.EverythingOnceIff | survey/common.go:51-152 | **Main result.** every pair is sent exactly once over all batches exactly when the limit allows for all of them |

## Left out

- gRPC streams, HTTP, sockets, files, process management and logging: no state worth modelling.
- MySQL and memcached themselves: finite sets of rows and a map; a query returns its rows in some order or fails.
- The radix library, generated protobuf code (a cached reply is stored as a value), Python services, configuration, statistics.
- The integer permutation library: assumed to run through the integers below its length once each.
- Survey goroutine mode and the split of destinations for more than 32 bits (`survey/common.go:61-81`, `survey/common.go:131-139`): the last batch is copied into an empty slice there.
- BatchSourceDestinationAndSend (`survey/common.go:154-217`): the same batching over a given list.
- The queries that ignore a source's network (`atlas/repo/repo.go:414-414`, `atlas/repo/repo.go:551-551`): their arguments do not match their text, so that they find nothing.
- The choice among several intersecting traceroutes by date, and between the record-route and the plain query: paths are proved for whichever traceroute a query returned.
- The refresh of old traceroutes, whose caller is not started (`atlas/server/server.go:242-242`): of it the comparison and the moving of record-route rows (`atlas/repo/repo.go:1174-1197`) are modelled.
- MarkTracerouteStale's record-route branch: it uses an index of the old traceroute on the new one.
- The database branch of `doPing` (`controller/controller.go:658-693`): its lookup map is never filled; the split is proved for `doTraceroute`.
- Cached distances getting smaller over time: hits are read in map order, so only soundness of what is stored holds.
- The command map of `scamper/socket.go`.
- Sharing of slices between `TryAdd` and its caller, and the sorting algorithm of the library.
- Wrap-around of spoof ids: fewer than 2^32 ids are given out.
- Reads past the end of a line within the capacity of its slice in `uudecodeLine`: a group cut short is a crash here.
- Version and type strings of pings, and formatting of records as text.
- RRCache.Cache.Update: a reply that cannot be marshalled is not modelled; the code would store an empty value.
- What the measurement services return for a dispatched request is not part of the split (`controller/controller.go:1553-1573`).
