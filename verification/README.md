# Verified model of the bridge firmware's stateful core

This project models, in Dafny, the parts of the ESP32 WiFi/Ethernet bridge firmware whose logic is stateful and
independent of the hardware, and proves what their comments and documentation promise. Code that updates state in place
is a class with methods; each method is proved against a function on values, and the main theorems are lemmas about
those functions, over all inputs, all interleavings or all runs.

| files | what they model |
|---|---|
| `DhcpTable`, `DhcpGrant`, `DhcpFlash`, `DhcpEvents`, `DhcpReservation`, `DhcpJoinOrder`, `DhcpSchedule`, `DhcpMirror`, `DhcpReport`, `DhcpOptions`, `DhcpServer` | the DHCP server's lease table, its choice of addresses, its message handling (RFC 2131), and the reservation table it keeps in flash across power cuts |
| `Seqlock`, `Quarantine`, `QuarantineProofs`, `QuarantineTask`, `ClientAddress`, `DhcpPort` | the duplicate-address tracker, the lock-free table it publishes to the packet path, the stamp that says who was first on an address, and the four-slot port record |
| `LogText`, `LogAssembly`, `LogBuf`, `Syslog`, `Json`, `WebLogs` | the log: fragments assembled into lines, an overwriting ring, and the two cursors that follow it |
| `ResetFlash`, `ResetBoots`, `ResetLog` | the reset history and the uptime checkpoints that bound how long a boot lasted |
| `WanRules`, `WanPorts` | the two-buffer rule snapshot and the port list's parser and printer |
| `Bytes`, `Decimal` | byte orders, `%u` and `strtoul` |

Conventions. Times are integers in microseconds (or seconds in the reset history). Addresses are host-order integers and
are written to flash most significant byte first; other integers least significant byte first. Sequence numbers of log
lines, generations of the seqlock and boot numbers do not wrap within a run; the 32-bit fields they are stored in are
modelled as such. A flash write either replaces the stored bytes or leaves them alone, and every theorem holds for any
pattern of failed writes unless it says otherwise. Shared words are read and written one at a time, in any interleaving.

## What the proofs found

- **The bridge's own address can be leased.** Only the scan for a free address (step 3) skips it. A client that asks for
  it by number can be given it exactly when the general pool covers it (`DhcpGrant.OwnAddressGranted`, an
  if-and-only-if); with the pool in `main.c` it does not.
- **A claim can outlive a block.** `reclaim_locked` asks for a save if either saved address is set; a decline and the
  recording of a grant look at the saved lease alone, and a client that turns to another server is dropped without
  looking at all. A client that flash knows by an address of its own can so be dropped with no save due, come back, be
  cut off, and have its claim restored by the next boot, against the comment that nothing about a block outlives a
  restart (`DhcpMirror.ClaimOutlivesBlock`; `DhcpSchedule.PreviousHolderLost` for a grant). `DhcpSchedule.Loses` is the
  exact condition, one guard for each of the three branches: flash and a table with nothing to save agree all through a
  run if and only if none of its events meets it (`DhcpMirror.MirroredExactly`).
- **A boot can be reported with another boot's uptime.** The comment in `save_to_nvs` calls the ring and the checkpoint
  seed failing together "the consistent outcome". It is not: the next power-on looks for the number before the failed
  boot's and finds that boot's checkpoint (`ResetBoots.LostBootBorrowsFloor`). And a boot that saved nothing hands its
  number on, so a checkpoint it left can be taken for its successor's and exceed that one's uptime
  (`ResetBoots.RepeatedNumberBorrowsFloor`). `ResetBoots.BorrowedExactly` says exactly when a floor is another boot's, and
  `ResetBoots.FloorIsOwnExactly` when it is the right one's.
- **The trailer of `/api/logs` is 308 characters, not the 286 the comment counts.** The reservation of 320 still holds, by
  11 bytes (`WebLogs.TrailerLength`, `WebLogs.TrailerLengthIsReached`).
- **Changing the port list can undo a link change, or tear it.** `wan_ports_changed` reads the live set before taking the
  mutex. Read whole, what it republishes is what was live when it took the pointer, so a publish in between is undone
  (`WanRules.LinkChangeUndone`); `WanRules.LinkKeptExactly` says exactly when the link survives. With two publishes in
  between, its two reads can come from different sets, and it publishes a link state no event asked for
  (`WanRules.LinkStateTorn`).
- **And a link change can undo a change of the port list.** `publish_rules` copies the saved list before it takes the
  mutex, so a link event that has copied the old one can publish it after the new one (`WanRules.PortListUndone`);
  `WanRules.PortListKeptExactly` says exactly when what is published is the list saved.
- **A syslog pass that stalls on the first line after a gap counts the gap, and the next pass counts it again**
  (`Syslog.GapIsCountedAgain`, with an instance of 71 lines); every other pass balances exactly, but for the attempt a
  stall will repeat (`Syslog.PassLedger`, `Syslog.StallsAtOnceExactly`).

## Model

| member | source | states |
|---|---|---|
| DhcpTable.Find | main/dhcp_server.c:586-635 | the first slot a lookup matches, or none: no earlier slot matches, in all four scans |
| DhcpTable.Reclaimable | main/dhcp_server.c:683-693 | an address inside the range that dropping this entry would release, leased or observed; 0 exactly if neither is in the range |
| DhcpTable.Oldest | main/dhcp_server.c:695-752 | an eligible entry that no eligible entry is older than, or none if there is none |
| DhcpTable.FirstUnclaimed | main/dhcp_server.c:840-860 | the lowest address of the range that is nobody's, not declined and not the bridge's own, or 0 if every one is taken |
| DhcpTable.TakeSlot | main/dhcp_server.c:885-911 | claims one slot for the client and changes no other; refuses, changing nothing, exactly when every slot is a client heard this boot or one still holding a plain lease |
| DhcpGrant.GrantInRange | main/dhcp_server.c:811-880 | a grant is in the range served and not declined, and a WiFi request never gets a wired address, through the fallback too |
| DhcpGrant.DirectGrantIsFree | main/dhcp_server.c:811-860 | steps 1 to 3 grant an address no other unquarantined client is seen on or holds an unexpired lease for, and change nothing |
| DhcpGrant.VictimOrder | main/dhcp_server.c:665-752 | who is given up: never one heard this boot, a lapsed plain lease before any self-addressed entry, the oldest of its kind |
| DhcpGrant.ReclaimedGrant | main/dhcp_server.c:862-870 | step 4 grants exactly the address its victim releases, and clears that entry alone |
| DhcpGrant.EmptyHanded | main/dhcp_server.c:811-880 | no address is given if and only if neither range has a standing reservation, a takeable request, an unclaimed address or a victim |
| DhcpGrant.GrantComplete | main/dhcp_server.c:840-860 | while the range holds an address that is nobody's, not declined and not the bridge's own, the client gets one |
| DhcpGrant.OwnAddressGranted | main/dhcp_server.c:811-880 | some full-size table and request get the bridge's own address if and only if the general pool covers it |
| DhcpGrant.SelectKeepsDistinct | main/dhcp_server.c:811-880 | choosing an address keeps clients and leased addresses pairwise distinct |
| DhcpGrant.EntryForKeepsDistinct | main/dhcp_server.c:885-925 | the entry found or claimed for a client is its only one, and the other slots are as they were |
| DhcpGrant.CommitEffect | main/dhcp_server.c:913-955 | after a grant the client holds the address alone; the previous holder is cleared, everybody else untouched |
| DhcpGrant.CommitKeepsDistinct | main/dhcp_server.c:913-955 | recording a grant keeps clients and leased addresses pairwise distinct |
| DhcpFlash.Parse | main/dhcp_server.c:330-396 | any byte string is refused or read only inside its bounds, as at most 32 records |
| DhcpFlash.BlobRoundTrip | main/dhcp_server.c:278-309 | a blob this code writes is read back as exactly the records and the generation that were written |
| DhcpFlash.AnyBlobRoundTrip | main/dhcp_server.c:278-395 | a blob of any of the three versions is read back record for record, client and address from the bytes that hold them, without what that version does not store |
| DhcpFlash.RecordsSound | main/dhcp_server.c:496-532 | the records of a save are exactly those of the storable entries |
| DhcpFlash.RestoredSound | main/dhcp_server.c:396-440 | a load restores exactly the records at most five generations old |
| DhcpFlash.NoArgumentAfterBoot | main/dhcp_server.c:421-474 | after loading any bytes, no entry is seen on an address another entry leases or is seen on |
| DhcpFlash.ReservationsSurvive | main/dhcp_server.c:311-557 | every storable entry of a saved table that is not too old comes back with its client, address, observed address (unless disputed) and stamp |
| DhcpFlash.NothingInvented | main/dhcp_server.c:311-557 | every entry that comes back was a storable, young enough entry of the saved table; one that was cut off comes back with no observed address |
| DhcpFlash.ObservedSurvives | main/dhcp_server.c:421-557 | a stored observed address comes back from a save and a boot if and only if no other entry that comes back leases it or was seen on it |
| DhcpFlash.OlderVersionsBoot | main/dhcp_server.c:340-396 | a version 1 or 2 blob boots into exactly the clients and addresses it names, in version 2 with the observed address unless that is disputed, at generation 1, nobody forgotten and nobody added |
| DhcpFlash.RecordsDistinct | main/dhcp_server.c:490-557 | a table with distinct clients and addresses stores records with distinct clients and addresses |
| DhcpFlash.BootDistinct | main/dhcp_server.c:311-487 | and records with distinct clients and addresses load as such a table |
| DhcpEvents.HandleKeeps | main/dhcp_server.c:1148-1339 | every message keeps clients and leased addresses distinct, the saved pairs attached to their clients, and at most eight declined addresses |
| DhcpEvents.ObserveKeeps | main/dhcp_server.c:1547-1600 | so does a client seen on an address of its own |
| DhcpEvents.SaveKeeps | main/dhcp_server.c:490-557 | after a save that landed, each entry's saved pair is blank or its record in flash |
| DhcpEvents.BootBacked | main/dhcp_server.c:396-474 | after a load of any bytes, each entry's saved pair is a record of those bytes |
| DhcpEvents.StepKeepsOk | main/dhcp_server.c:1148-1635 | any message, observation, quarantine push, save (landing or not) or power cycle keeps the table invariant and the saved pairs true to flash |
| DhcpEvents.RunKeepsOk | main/dhcp_server.c:1148-1635 | and so does any run of them |
| DhcpEvents.PowerOnRunKeepsOk | main/dhcp_server.c:311-1635 | and so it is from power-on, over any flash with distinct records, an empty one among them |
| DhcpReport.StoredMeansInFlash | main/dhcp_server.c:1662-1694 | a line reported as stored has exactly its record in flash, except for a client with no lease that is cut off, of which there is nothing to store |
| DhcpReservation.OwnerKeepsAddress | main/dhcp_server.c:811-835 | while its reservation stands, a client is granted that address and nothing else, and nothing changes |
| DhcpReservation.OthersLeaveAddress | main/dhcp_server.c:811-880 | another client neither gets a standing reservation nor costs its owner the entry |
| DhcpReservation.MessageLeavesReserved | main/dhcp_server.c:1148-1339 | no fair message of anybody's ends a standing reservation; a client whose own reservation stands may ask for anything, this address too |
| DhcpReservation.ReleaseLeavesReserved | main/dhcp_server.c:1304-1327 | a release ends no standing reservation, not even the one of the client that releases |
| DhcpReservation.BootRestores | main/dhcp_server.c:311-487 | a reservation in flash that is not too old stands again after a load |
| DhcpReservation.StepKeepsSafe | main/dhcp_server.c:1148-1635 | every fair event, a power cycle included, keeps a reservation standing and in flash |
| DhcpReservation.ReservationStability | main/dhcp_server.c:811-955 | along any fair run of messages, saves and power cycles, a client with a standing reservation is only ever offered or acknowledged that address |
| DhcpReservation.RebootStability | main/dhcp_server.c:1200-1279 | whatever table was saved, after the next boot a lease not older than five generations is answered with its own address along any fair run, in which other restored clients may ask for it and newcomers may not |
| DhcpJoinOrder.OwnersAreServed | main/dhcp_server.c:1200-1279 | along any run of messages from owners of standing reservations, who may ask for anything, and from guests, who may not ask for an owner's address, of observations, quarantine pushes, saves and power cycles, every owner that asks is answered with its own address |
| DhcpJoinOrder.BootReservesAll | main/dhcp_server.c:311-557 | after saving any table and booting, every lease not older than five generations is a standing reservation at once |
| DhcpJoinOrder.JoinOrderDoesNotMatter | main/dhcp_server.c:811-955 | join order after a reboot does not decide addresses: whatever table was saved, every client it knows by a lease not older than five generations is given the address it had, in whatever order they come back, each on its own port, and whatever they ask for, while nobody is seen on an owner's address and no owner is cut off; newcomers may be among them while neither the range nor the table has run out |
| DhcpJoinOrder.OwnersAloneAreWelcome | main/dhcp_server.c:1200-1279 | while only owners speak, each on its own port, nothing else is asked of the run |
| DhcpJoinOrder.NewcomerHasRoom | main/dhcp_server.c:840-925 | for a newcomer, one address of its range that is nobody's and one free slot are room enough |
| DhcpSchedule.SelectNotices | main/dhcp_server.c:755-774 | choosing an address takes no client flash knows out of its slot without asking for a save, and never moves the time since when one is due |
| DhcpSchedule.CommitNotices | main/dhcp_server.c:885-955 | recording a grant never loses a client reclaimed for its slot, nor a holder with a lease in flash; it loses the previous holder of the address, with no save due, exactly if flash knows that one by an address of its own alone and nothing else about the grant asks for a save |
| DhcpSchedule.PreviousHolderLost | main/dhcp_server.c:931-940 | an instance of that: an offer lapsed, and another client is offered the address |
| DhcpSchedule.DeclineForgets | main/dhcp_server.c:1281-1302 | a decline sets the address aside while there is room, forgets no earlier one and leaves the client without an entry; flash is left knowing it, with no save due, exactly if it is known by an address of its own alone |
| DhcpSchedule.MessageNotices | main/dhcp_server.c:1148-1339 | a message takes no client flash knows out of its slot without asking for a save, except exactly in the three branches named by `Loses`; one with a lease in flash is lost only by turning to another server |
| DhcpSchedule.AckIsDue | main/dhcp_server.c:1225-1279 | a recorded acknowledgement leaves the client with that lease, which flash has or for which a save is due |
| DhcpSchedule.AcknowledgedReachesFlash | main/dhcp_server.c:490-955 | an acknowledged address reaches flash: after any run without a power cut through which the client keeps the lease, a save is due or flash has its record |
| DhcpSchedule.CleanMeansClaimsInFlash | main/dhcp_server.c:311-1635 | from power-on and along any run: while no save is due, flash has every client's claim to an address of its own, and a cut-off client whose entry names a saved lease has a record without one |
| DhcpMirror.StepAndMirror | main/dhcp_server.c:311-1635 | from a table that mirrors flash, an event of any kind leaves one that does if and only if it does not lose a client |
| DhcpMirror.MirroredExactly | main/dhcp_server.c:311-1635 | from power-on: all through a run, while no save is due every record in flash is the saved one of a client in the table, if and only if no event of the run loses a client |
| DhcpMirror.CleanFlashAgrees | main/dhcp_server.c:241-260 | after such a run, if no save is due, the claims in flash are exactly those the table would store: every client's, and none of a client that is cut off or gone |
| DhcpMirror.ClaimOutlivesBlock | main/dhcp_server.c:1281-1302 | for any configuration and client, a run of five events that ends with no save due and the client cut off, while flash holds its claim and the next boot gives it back |
| DhcpOptions.FindOption | main/dhcp_server.c:959-983 | the scan over untrusted bytes stays in bounds and gives the value the specification of the scan gives |
| DhcpOptions.ScanFindsFirst | main/dhcp_server.c:959-983 | in options written as RFC 2132 lays them out, it finds the first value written under the code, or none |
| DhcpOptions.MessageRoundTrip | main/dhcp_server.c:1148-1198 | a message written with a type, a requested address and a server id is understood as exactly that, the option before `ciaddr` |
| DhcpReport.ReportDistinct | main/dhcp_server.c:1662-1694 | the lease report names each client once, which the conflict tracker relies on |
| DhcpServer.StartConfig | main/dhcp_server.c:1422-1467 | a start fails exactly for a missing address or a backwards pool, and otherwise leaves ranges that are in order and disjoint, dropping the wired one only for cause |
| DhcpServer.DhcpServer.constructor | main/dhcp_server.c:1470-1475 | a server starts as whatever a boot makes of the flash |
| DhcpServer.DhcpServer.LoadFromNvs | main/dhcp_server.c:311-487 | the load loop and both dispute passes leave the table a boot specifies |
| DhcpServer.DhcpServer.ForgetDisputed | main/dhcp_server.c:421-474 | decided from the values as read, exactly the disputed claims are dropped, both sides |
| DhcpServer.DhcpServer.SaveToNvs | main/dhcp_server.c:490-557 | the bytes laid out by offset are the table's blob, and the saved pairs move only if the write landed |
| DhcpServer.DhcpServer.VictimOfKind | main/dhcp_server.c:695-752 | the scan finds the oldest eligible entry |
| DhcpServer.DhcpServer.ScanRange | main/dhcp_server.c:840-860 | the scan finds the lowest unclaimed address |
| DhcpServer.DhcpServer.SelectAddress | main/dhcp_server.c:811-880 | the address and the new table are those the choice specifies, and the fallback to the general pool ends |
| DhcpServer.DhcpServer.TakeFreeSlot | main/dhcp_server.c:885-911 | the slot claimed and the new table are those specified |
| DhcpServer.DhcpServer.CommitLease | main/dhcp_server.c:913-955 | the new table is the one a grant specifies; false exactly if no slot could be had |
| DhcpServer.DhcpServer.HandleMessage | main/dhcp_server.c:1148-1339 | the reply and the new state are those specified for the parsed message; an unparsable one changes nothing |
| DhcpServer.DhcpServer.NoteObservedIp | main/dhcp_server.c:1547-1600 | the new state is the one an observation specifies |
| DhcpServer.DhcpServer.SetQuarantined | main/dhcp_server.c:1602-1635 | the new state is the one a quarantine push specifies |
| DhcpServer.DhcpServer.GetLeases | main/dhcp_server.c:1662-1694 | the report is the one specified for the table |
| Seqlock.PackingInjective | main/client_track.c:241-275 | two addresses that pack into the same two words are the same address |
| Seqlock.VerdictsAreJustified | main/client_track.c:314-338 | in every interleaving of a publisher and any readers, a frame is dropped only if its address was in the one whole set of the even generation its scan began with, and a scan that ends at that generation without a match proves it was not |
| Seqlock.FlagDownMeansEmpty | main/client_track.c:347-377 | in every interleaving, a lowered flag means no slot is live |
| Seqlock.RunKeepsInv | main/client_track.c:314-377 | what every single-word step keeps: which words belong to which set, and what each reader has established |
| Seqlock.Table.Publish | main/client_track.c:347-377 | run alone, it leaves the table showing the first four of the set, two generations on |
| Seqlock.Table.MacIsQuarantined | main/client_track.c:314-338 | run alone, it answers exactly membership of the set shown |
| Quarantine.BeforeIsStrictOrder | main/client_track.c:1029-1047 | who keeps an address is a strict total order on first seen and hardware address, unseen devices last |
| Quarantine.FindRecord | main/client_track.c:1062-1076 | the first record about an address and a pair, in either order, or none |
| QuarantineProofs.PublishedAreTheLosers | main/client_track.c:1242-1265 | the packet path drops exactly the losers of armed records while enforcing, nobody otherwise, and no pardoned client |
| QuarantineProofs.NeverBothEnds | main/client_track.c:1062-1086 | two records never cut off both ends of one pair over one address |
| QuarantineProofs.TalliedMeans | main/client_track.c:1116-1188 | after the pair loop a seen record advanced by exactly one sighting of a visible pair, and a record in use that was not seen had no visible pair |
| QuarantineProofs.RebuildKeepsOk | main/client_track.c:1116-1265 | a tick keeps one record per address and pair, counters in range, no pardoned loser armed, and the published set in step |
| QuarantineProofs.ClearKeepsOk | main/client_track.c:1566-1605 | so does a pardon |
| QuarantineProofs.EnforceKeepsOk | main/client_track.c:1607-1631 | so does the enforcement switch |
| QuarantineProofs.ArmingEvidence | main/client_track.c:1116-1246 | a record arms only after three ticks running with the pair visible, both heard within 30 s and seen on the address by their own traffic, the one kept no later than the one cut |
| QuarantineProofs.ArmedStays | main/client_track.c:1150-1240 | while armed, address and roles never change, and a tick disarms only after ten ticks running without the pair |
| QuarantineProofs.OnlyAPardonDisarms | main/client_track.c:1566-1631 | between ticks, a record is disarmed if and only if its loser is pardoned; the switch changes no record |
| QuarantineProofs.RunIsTruthful | main/client_track.c:1116-1265 | over any run of ticks, pardons and switches, the counters count what the ticks showed and the published set agrees with the records |
| QuarantineProofs.FirstDeviceIsKept | main/client_track.c:1029-1047 | of the devices whose conflicts over an address arm in one tick, the one that was there first is kept: it comes before every other device in any of them, and none cuts it off |
| QuarantineTask.ConflictTracker.VisitPairs | main/client_track.c:1130-1188 | the nested pair loop leaves the records and sightings specified |
| QuarantineTask.ConflictTracker.JudgeAll | main/client_track.c:1190-1246 | the judging loop leaves the records specified and collects the losers of the armed ones |
| QuarantineTask.ConflictTracker.QuarantineRebuild | main/client_track.c:1116-1265 | a whole tick: the tracker's new state from the server's report, the packet path's table and the server's flags all in step; it needs the server's one-entry-per-client invariant |
| QuarantineTask.ConflictTracker.QuarantineClear | main/client_track.c:1566-1605 | the pardon's new state, and false exactly if the client could not be pardoned |
| QuarantineTask.ConflictTracker.QuarantineEnforce | main/client_track.c:1607-1631 | the switch's new state |
| ClientAddress.StampIsFirstOwnFrame | main/client_track.c:419-511 | over any history, the stamp is the time of the client's first own frame from its present address since it last moved there; nobody else's word sets it |
| ClientAddress.ClientEntry.AccountTraffic | main/client_track.c:452-511 | a frame extends the history by exactly itself, and the server is told exactly when the address differs |
| ClientAddress.ClientEntry.UpdateIp | main/client_track.c:419-447 | an address named by another source extends the history by exactly that |
| DhcpPort.NotedKeepsAgreement | main/client_track.c:187-210 | noting a frame keeps the four slots in agreement with the whole history: one slot a client, each the client's latest frame, the absent ones older than all four |
| DhcpPort.YesIsRight | main/client_track.c:212-227 | a yes means the client's latest frame came over the cable within 5 s |
| DhcpPort.YesIsRemembered | main/client_track.c:212-227 | and it is given while at most three other clients were heard since |
| DhcpPort.PortRecord.NoteDhcpPort | main/client_track.c:187-210 | the loop leaves the slots specified and extends the history |
| DhcpPort.PortRecord.MacOnWiredPort | main/client_track.c:212-227 | the loop answers as specified |
| LogText.StripAnsi | main/log_buf.c:109-127 | the in-place rewrite leaves exactly the text without its control sequences, terminated |
| LogText.PlainIsKept | main/log_buf.c:109-127 | a text without escapes is left as it is |
| LogText.PrefixOfPrinted | main/log_buf.c:140-160 | the prefix the logging macros print is recognised with its level and its time, and the text goes on right after it |
| LogText.ParseKeepsText | main/log_buf.c:178-209 | of any line nothing is lost but its prefix, the separator, and what the message field has no room for: tag and message are pieces of it, in order |
| LogText.PrintedRoundTrip | main/log_buf.c:140-209 | a line as the logging macros print it is split into exactly what it was made of |
| LogAssembly.AssemblyConserves | main/log_buf.c:216-323 | over any sequence of fragments from any tasks, the chunks closed and the text pending are exactly the stripped fragments in order, each without its last newline and with other breaks as spaces |
| LogAssembly.AssemblyIsPure | main/log_buf.c:249-323 | no chunk mixes tasks, overflows the buffer, or has a fragment with a prefix of its own in its middle |
| LogAssembly.StoredBounded | main/log_buf.c:178-209 | no stored line is longer than its fields |
| LogBuf.LogBuffer.CaptureFragment | main/log_buf.c:249-323 | the hook's buffers and ring go on refining the unbounded log of all fragments captured so far |
| LogBuf.LogBuffer.CommitPending | main/log_buf.c:216-237 | closing a line adds it to the ring unless it is blank |
| LogBuf.LogBuffer.PendingPutc | main/log_buf.c:239-247 | a character is appended, closing the line first if the buffer is full |
| LogBuf.LogBuffer.StoreLine | main/log_buf.c:216-237 | overwriting a slot keeps the ring showing the last 128 lines of the log |
| LogBuf.LogBuffer.GetRange | main/log_buf.c:372-389 | the range is that of the lines still held of the unbounded log |
| LogBuf.LogBuffer.GetLine | main/log_buf.c:391-410 | it succeeds exactly for the lines still held, and gives that very line |
| Syslog.FrameFits | main/syslog.c:356-386 | no datagram is ever cut: the longest is 334 characters of 384 |
| Syslog.PassLedger | main/syslog.c:326-425 | from a nonzero cursor every line passed is counted once as sent, filtered, aged out or failed, but for the attempt a stall repeats and, if the first line after the gap is wanted and finds no buffers, the gap |
| Syslog.StallsAtOnceExactly | main/syslog.c:395-416 | a pass stalls without advancing if and only if the first line after the gap is wanted and finds no buffers with a stall left |
| Syslog.GapIsCountedAgain | main/syslog.c:333-416 | over two passes the first of which stalls at once, the counters grow by the lines passed, the stalled attempts, and the whole gap once more |
| Syslog.SeventyOneLinesTooMany | main/syslog.c:333-416 | a concrete pair of passes in which 71 lines are counted twice |
| Syslog.FirstPassLedger | main/syslog.c:326-425 | a fresh start misses nothing: it counts from the oldest line held |
| Syslog.RunWire | main/syslog.c:326-425 | over any run of turns against a racing writer, whatever becomes of the settings, the accepted datagrams of one enabled period have strictly increasing numbers, and each carries exactly its line under the settings of its time |
| Syslog.PassProgress | main/syslog.c:395-424 | whatever `sendto` returns, a pass with a backlog advances, or stalls and uses up one of the stalls allowed |
| Syslog.BacklogDrains | main/syslog.c:326-425 | with no new lines, four turns per line of backlog always drain it, for a sender that stays enabled and bound |
| Syslog.TurningOnReplays | main/syslog.c:530-538 | after turning the sender on, the next datagram is the oldest line held, if it is wanted and accepted |
| Syslog.SyslogSender.ReloadConfig | main/syslog.c:516-542 | the cursor is reset as specified |
| Syslog.SyslogSender.ShipLine | main/syslog.c:345-424 | one turn of the loop leaves the counters, the cursor and the wire specified |
| Syslog.SyslogSender.DrainPass | main/syslog.c:326-425 | a pass leaves the state specified, and says whether lines remain |
| Syslog.SyslogSender.TaskTurn | main/syslog.c:546-576 | a turn ends with the backlog drained or a stall, keeps the wire in order, and touches nothing while disabled or unbound |
| Json.Escape | main/web_server.c:451-483 | the escaped text is at most six times as long |
| Json.EscapeRoundTrip | main/web_server.c:451-483 | whatever text is escaped, a reader of section 7 of RFC 8259 gets exactly that text back |
| Json.EscapedFits | main/web_server.c:451-483 | with six bytes per character and one to spare, nothing is cut |
| Json.EscapedIsWhole | main/web_server.c:451-483 | what is not given up is the whole escaped text |
| Json.Response.Append | main/web_server.c:396-436 | the clamped append holds the whole text with its terminator, or reads as truncated from then on |
| Json.Response.AppendEscaped | main/web_server.c:451-483 | the loop escapes in place as specified, and gives up before it could overrun |
| WebLogs.PollTiles | main/web_server.c:1855-1950 | the items of a response run without a hole from its first line to the cursor it reports: each entry the next line, each gap as many as it says; a fresh or rebooted reader starts at the oldest line held and has lost nothing |
| WebLogs.PollLedger | main/web_server.c:1855-1975 | the cursor's advance is what was lost, what was emitted and what the gaps stand for |
| WebLogs.PollEmits | main/web_server.c:1877-1950 | a line of the span is in the batch if and only if it could still be read |
| WebLogs.TrailerLength | main/web_server.c:1795-1800 | the trailer is at most 308 characters, inside its reservation |
| WebLogs.TrailerLengthIsReached | main/web_server.c:1795-1800 | and reaches 308, so the count in the comment is too low |
| WebLogs.DocumentFits | main/web_server.c:1908-1985 | for any ring contents the whole body is shorter than its buffer |
| WebLogs.PollAdvances | main/web_server.c:1900-1920 | a response advances the cursor whenever lines are waiting, and says so exactly when some are left |
| WebLogs.PollingTiles | main/web_server.c:1804-1985 | over any run of polls against any writer, a reader that echoes the cursor gets every later line exactly once and in order, or a count in its place |
| WebLogs.PollingCatchesUp | main/web_server.c:1804-1985 | with no new lines, polling reaches the newest within as many polls as there are lines |
| WebLogs.PackLines | main/web_server.c:1869-1950 | the packing loop fills the buffer with exactly the batch specified, never truncated |
| WebLogs.LogsGet | main/web_server.c:1815-1993 | the response is always the whole document specified |
| ResetFlash.Parse | main/reset_log.c:276-356 | any byte string is refused or read in bounds as at most 16 records with terminated texts and a next number above 0 |
| ResetFlash.BlobRoundTrip | main/reset_log.c:276-414 | version 2 reads back record for record, version 1 without a time, a next number of 0 as 1 |
| ResetFlash.LoadedIsSaved | main/reset_log.c:276-414 | what this build saves is what the next boot loads |
| ResetBoots.ScheduleRises | main/reset_log.c:132-157 | the 32 points rise, and none is more than twice the one before |
| ResetBoots.CeilingIsProportional | main/reset_log.c:176-187 | from the first point to the last, the ceiling is above the floor and at most twice it |
| ResetBoots.CheckpointRoundTrip | main/reset_log.c:270-274 | a packed checkpoint is believed, with its figure, under exactly the number it is stamped with |
| ResetBoots.FlagsOfOpened | main/reset_log.c:558-657 | each of the eight flags of a new record means what it should, and none disturbs another |
| ResetBoots.RingAndBudget | main/reset_log.c:590-805 | over any life with any failed saves, both rings hold at most 16 consecutive numbers ending just before the next; a boot makes at most 32 scheduled writes and two ring writes |
| ResetBoots.FloorIsOwnExactly | main/reset_log.c:590-606 | a power-on record carries the floor of the boot that just ended if and only if a ring write and a checkpoint write of that boot landed |
| ResetBoots.BorrowedExactly | main/reset_log.c:421-446 | it carries another boot's floor if and only if no checkpoint of the boot that ended landed and the cell is stamped with its number, if its ring landed, or else with the one before |
| ResetBoots.RepeatedNumberBorrowsFloor | main/reset_log.c:389-405 | a boot that saved nothing but a checkpoint passes its number on; if the next one lands its ring without the seed, that one is reported with a floor above its own uptime |
| ResetBoots.FloorBrackets | main/reset_log.c:741-776 | then the floor is at most that boot's last tick, and if no checkpoint was lost that tick is below the floor's ceiling, however late ticks came |
| ResetBoots.CheckpointsBracket | main/reset_log.c:590-776 | over whole lives: if every write of the last boot landed, its record brackets its last tick |
| ResetBoots.LostBootBorrowsFloor | main/reset_log.c:393-400 | a boot whose save failed and that ended before its first checkpoint is reported with its predecessor's floor |
| ResetLog.History.LoadFromNvs | main/reset_log.c:276-356 | the load loop restores what the bytes are specified to mean |
| ResetLog.History.Serialize | main/reset_log.c:363-387 | the bytes laid out by offset are the history's blob |
| ResetLog.History.Push | main/reset_log.c:667-671 | the newest record goes last, the oldest of a full ring out |
| ResetLog.History.Init | main/reset_log.c:556-674 | a boot loads, appends its record and writes the ring and a seed of zero under its own number |
| ResetLog.History.CheckpointTick | main/reset_log.c:741-776 | one write at most, exactly when a point came due, stepping over every point passed |
| ResetLog.History.NoteTime | main/reset_log.c:778-805 | one stamp a boot and no seed; a second call changes and writes nothing |
| ResetLog.History.Get | main/reset_log.c:807-820 | up to `max` records in the order specified |
| ResetLog.NewestAt | main/reset_log.c:807-820 | which is newest first |
| WanRules.LiveBufferIsNeverWritten | main/wan.c:80-101 | with the mutex, in every interleaving, no step of any writer changes the live buffer |
| WanRules.PublishedAreRequested | main/wan.c:72-101 | every published set is, whole, the one its writer brought to the lock, in the order the lock was given |
| WanRules.ReaderSeesOneSet | main/wan.c:495-513 | a reader that takes the pointer once sees one whole published set while fewer than two publishes have begun to write since |
| WanRules.PortsChangeRepublishes | main/wan.c:868-872 | if fewer than two publishes had begun when both words were read, a change of the port list republishes, whole, the link state that was live when it took the pointer, whatever is published after |
| WanRules.LinkKeptExactly | main/wan.c:868-872 | then its publication leaves the link as it finds it if and only if that is what it was when the pointer was taken |
| WanRules.LinkChangeUndone | main/wan.c:868-872 | a run in which the link goes down and a change of the port list publishes it as up again |
| WanRules.LinkStateTorn | main/wan.c:868-872 | a run with more publishes in which it publishes a link that is up without a resolver, which no event asked for |
| WanRules.PortListKeptExactly | main/wan.c:80-101 | every set published has, whole, the port list its writer copied, and it is the one saved at that moment if and only if the copied one equals it |
| WanRules.PortListUndone | main/wan.c:80-101 | a run that ends with everybody done and an old port list live, published by a link event after the new one |
| WanRules.WithoutMutexLiveIsWritten | main/wan.c:72-87 | without the mutex there is an interleaving in which the live buffer is overwritten |
| WanRules.RuleSets.PublishRules | main/wan.c:80-101 | the other buffer becomes live with exactly the set asked for; the set that was live is left alone |
| WanRules.RuleSets.PortsChanged | main/wan.c:868-872 | alone, it keeps resolver and link state and replaces the ports |
| WanRules.ResolverIsOfOneSet | main/wan.c:857-861 | a reader of link and resolver gets the resolver of one published set, or 0 while that set is down, while fewer than two publishes have begun since |
| WanPorts.ParseAccepts | main/wan_cfg.c:163-252 | the parser accepts exactly the blank texts, as no rules, and the well-written lists of valid rules, as what they mean |
| WanPorts.ParsedIsValid | main/wan_cfg.c:284-337 | what is parsed passes the port checks of validation |
| WanPorts.FormatFits | main/wan_cfg.c:254-282 | the longest list fits the buffer reserved for it |
| WanPorts.FormatRoundTrip | main/wan_cfg.c:163-282 | every valid rule list prints to a text that parses to that very list |
| WanPorts.ReformatIsFixed | main/wan_cfg.c:163-282 | printing a parsed list again changes nothing |
| WanPorts.ParsePorts | main/wan_cfg.c:163-252 | the parser's loop gives the rules or the first error specified |
| WanPorts.FormatPorts | main/wan_cfg.c:254-282 | whatever the buffer's size it ends up holding the whole text or its beginning, terminated |
| WanPorts.ValidatePorts | main/wan_cfg.c:318-337 | no error if and only if there are one to twelve rules, no port 0, no pair twice |
| Decimal.ReadsPrinted | main/log_buf.c:150-158 | a number as `%u` prints it is read back by `strtoul` up to the first character that is no digit |

## Left out

- Sockets, NVS handles, FreeRTOS tasks and timers, events, drivers, HTTP authentication and pages: foreign calls. What they
  deliver or answer is a parameter: message bytes, `sendto` results, whether a write landed, the time.
- Building reply packets and DHCP options, host names and their copies: wording and I/O; the model stops at which reply and
  which address.
- The serial copy of the log, its level threshold, lines missed while the ring's mutex was busy, and notifying a reader.
- Log wording, tables, rates and the racy drop counters.
- The frame filters of the WAN (`egress_allowed`, `ingress_allowed`): pure decisions over one frame that would only add easy
  members; the model covers the snapshot they read.
- Step 4 of the address choice is not proved free of collisions: the code does not repeat the in-use test there.
- A client may be acknowledged an address that could not be recorded, when every slot is a client heard this boot: the code
  sends the reply regardless, and so does the model.
- The RTC block's complement words: whether RTC memory survived is a parameter of a boot.
- A failed mutex or timer allocation in `reset_log_init`: the module then does nothing.
- Seqlock.VerdictsAreJustified: the generation counter is unbounded, so a reader held up for 2^31 publishes is not modelled.
- DhcpPort.NotedKeepsAgreement: notes are one step each and their times increase; two ports noting in one microsecond are not
  ordered by it.
- WebLogs.DocumentFits: assumes fewer than 2^32 lines since the last boot, as the printed numbers do.
- ResetBoots.RingAndBudget: assumes boot numbers do not reach 2^32.
- WanRules.ReaderSeesOneSet: the bound of two publishes is the code's own; a slower reader is not protected by it.
- Json.EscapeRoundTrip: text is a sequence of characters; the encoding of characters above 0x7F is passed through unexamined.
- `\u` escapes from 0xD800 up in the reference reader of `Json`: the writer never produces them.
