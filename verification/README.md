# Verification of the microservices security system

A Dafny model of the manager, the backup service and the firewall service, with proofs about the
parts that hold state: the hash table and its lock-free reader, the inotify pipeline, the discovery
pass, the iptables command sequences, the packet handler with its hex dump, the configuration
parser and the manager's handshake. `dafny verify dfyconfig.toml` checks the whole project.

## How the project is laid out

- `Common.dfy`: options, the stop flag, bytes, C strings (signed characters, the terminator outside the
  sequence).
- `HashSpec.dfy`, `HashTable.dfy`, `ChainWalk.dfy`: the table three times. `HashSpec` says what an
  insertion does to the list of stored values. `HashTable` is the heap structure, with slots and
  the doubly linked chain, and every method is proved against `HashSpec`. `ChainWalk` is the same
  insertion split into its single loads and stores and interleaved with a walking thread; its
  published values are proved to be what `HashSpec` gives for the calls that have taken effect.
- `EventQueue.dfy`, `InotifyPipeline.dfy`: the linked queue, the record format, and the loops that
  poll, decode, queue and drain while a signal may clear the stop flag at any look at it.
- `Discovery.dfy`: the file-system pass over two hash tables, the watches, and the event handler's
  directory lookup.
- `Iptables.dfy`, `StartExactness.dfy`, `FirewallService.dfy`: a state machine of shell lines over a
  rule set, with crashes between any two commands; when exactly a completed start leaves its own
  rules only; the service's functions, which are proved to run only lines that the machine expects
  next.
- `HexDump.dfy`, `Packet.dfy`, `PrefixTest.dfy`, `Sniffer.dfy`: the dump and its column reader, frame
  encoding and decoding, the prefix test on addresses, and the packet handler that uses them.
- `Config.dfy`, `ConfigParser.dfy`: the meaning of a configuration text, its round trip, and the
  parsing loops.
- `Handshake.dfy`: manager and clients over any number of connections.

## What is assumed

- The item count starts at 0, although `hash_table_create` does not set it, and stored values are
  terminated strings, although the allocation has no room for the terminator. The table size is
  10000 everywhere.
- Loads and stores of the two threads are sequentially consistent.
- What the environment does is given by functions that no operation can change: before which look at
  the stop flag a signal arrives, which calls of `system` can run a shell, which directory lookups
  break off, which watches the discovery thread adds in each round, which writes succeed. A run of the
  inotify thread ends with the kernel's answers, as if a signal arrived then.
- iptables: `-F` and `-A` fail without effect on a missing chain, `-A` also on a missing jump target,
  `--new` on an existing chain, `--delete-chain` on a missing, non-empty or referenced one; `&&` stops
  at the first failure; the operands of `|` in the flush run left to right. Chain traversal takes the
  first matching terminal rule and nests jumps to any positive depth. Prefix lengths given to it are
  at most 32. At first the built-in chains exist, and no chain but OUTPUT jumps to UNTRUSTED and none
  but INPUT to TRUSTED.
- A configuration line that sets a value has a character after its delimiter, and some line ends the
  parse before the text does. The scan in the source runs past the terminating NUL otherwise, which
  the shipped configuration files, whose last line has no newline, would make it do. A NUL before a
  newline cuts its line and ends the parse, as the loop's flag does. The buffer for a line has room
  for its terminator. `inet_aton` is a parameter; `atoi` reads unbounded numbers and
  the entries that are printed stay within `int`.
- A `read` of inotify events returns whole records, each with a name. Reads and writes of handshake
  messages transfer whole messages; a write may fail, and then its process exits.
- The host is little-endian, captured packets hold everything the handler looks at, and `isprint` is
  that of the C locale.

## Results that differ from what the code appears to promise

- Duplicates are recognised by a prefix comparison, so only a value longer than the stored one of the
  same key can be mistaken for it. For values of positive characters that cannot happen if and only
  if the longer one has at most 78 characters more (`HashSpec.DuplicateDetectionExactIff`); for
  values of any characters, if and only if it has at most one more
  (`HashSpec.DuplicateDetectionExactForAllIff`). Beyond 510 no pair of storable values exists.
- A start ignores a flush that could not be spawned, and a flush that runs stops at the first missing
  chain. A completed start leaves exactly its own rules if and only if the rule set that its flush
  found was clear: with the flush spawned, both of its chains existed, or OUTPUT had no jump and
  UNTRUSTED no rule; with the flush not spawned, OUTPUT had no jump and neither chain a rule
  (`StartExactness.CompletedStartExactIff`, over any history). Flushes that are all spawned always
  find such a rule set (`Iptables.CompletedStart`). One that is not can spoil even a later start all
  of whose lines run (`StartExactness.MissedFlushIsFeltLater`). With OUTPUT and INPUT initially empty
  and one configuration, the verdicts on packets do not depend on any of this
  (`Iptables.VerdictsAfterCompletedStart`).
- The untrusted counter tests for all set bits of the network address, not for the prefix. When the
  address has no host bits, it never counts too few, and it agrees with the prefix for all sources if
  and only if the prefix is all ones (`PrefixTest.ExactIff`). When the address has host bits, it
  counts nothing (`PrefixTest.HostBitsBlockTest`).
- The event handler's lookup breaks off at the first chained path that cannot be opened, so a
  directory that has been deleted hides every directory with a smaller key
  (`Discovery.LookupAfterDiscovery`).
- The message for a rejected key says that it is too big; the code rejects keys 0 and 1.

## Model

| member | source | states |
|---|---|---|
| HashTable.KeyGenerator | services/helpers/helpers_hash_table.c:12-21 | the loop with its early cursor step computes the sum of all characters but the first, modulo 2^32 and then 10000 |
| HashTable.CreateItem | services/helpers/helpers_hash_table.c:23-55 | an item exists exactly for present values of at most 512 characters with key at least 2, and carries value and key unlinked |
| HashTable.HashTable.constructor | services/helpers/helpers_hash_table.c:57-72 | a new table satisfies the whole heap invariant and stores nothing |
| HashTable.HashTable.Search | services/helpers/helpers_hash_table.c:74-102 | by key or by value it returns the item of the abstract slot, and nothing for any other combination of arguments |
| HashTable.HashTable.Link | services/helpers/helpers_hash_table.c:126-140 | the four stores keep slots, both link directions, acyclicity and count consistent and append one value |
| HashTable.HashTable.Insert | services/helpers/helpers_hash_table.c:104-156 | on every return path the heap invariant holds, the code is that of the abstract insertion, and a call that stores nothing changes nothing |
| HashTable.HashTable.SlotsHoldValues | services/helpers/helpers_hash_table.c:124-126 | slot k is free exactly when no stored value has key k, and else holds that value |
| HashTable.HashTable.NeverFull | services/helpers/helpers_hash_table.c:108-112 | in every valid heap the count is at most 9998, so the test for a full table fails |
| HashTable.HashTable.Walk | services/backup_service/helpers_backup_common.c:310-317 | without concurrent inserts, following `previous` from `node` visits every stored value, newest first |
| HashTable.Populate | services/helpers/helpers_hash_table.c:104-156 | after any insertion history, heap slot k holds the first storable value with key k, or nothing if there is none |
| HashSpec.SlotAfterInsert | services/helpers/helpers_hash_table.c:124-140 | an insertion fills the free slot of a storable value and changes no other slot |
| HashSpec.FirstWins | services/helpers/helpers_hash_table.c:81-156 | over any history, slot k is occupied exactly when a storable value with key k was inserted, and holds the first one |
| HashSpec.StoredAreWinners | services/helpers/helpers_hash_table.c:104-156 | the stored values are exactly the first values with their keys, in insertion order |
| HashSpec.SearchFindsFirst | services/helpers/helpers_hash_table.c:81-102 | search by value finds the value itself exactly when it was the first with its key |
| HashSpec.CountBound | services/helpers/helpers_hash_table.c:41-47 | as keys 0 and 1 are never stored, at most 9998 values fit, by the pigeonhole principle |
| HashSpec.NeverFull | services/helpers/helpers_hash_table.c:108-116 | no history reaches the "table is full" branch |
| HashSpec.DuplicateCodeIsExact | services/helpers/helpers_hash_table.c:141-155 | for ASCII values at most 78 characters longer than the stored one, an occupied slot gives 0 for the equal value and 2 otherwise, and nothing is stored |
| HashSpec.DuplicateDetectionExactIff | services/helpers/helpers_hash_table.c:141-155 | for each length gap, mistaking a longer ASCII value for a duplicate is impossible if and only if the gap is at most 78 or longer than any value |
| HashSpec.DuplicateDetectionExactForAllIff | services/helpers/helpers_hash_table.c:141-155 | the same for values of any characters, negative ones included: if and only if the gap is at most 1 or longer than any value |
| HashSpec.OneMoreChangesKey | services/helpers/helpers_hash_table.c:12-21 | one more character always changes the key, even where the unsigned sum wraps |
| HashSpec.OccupiedCode | services/helpers/helpers_hash_table.c:141-155 | in an occupied slot, 0 means that the stored value is a prefix of the new one, so a shorter value always gets 2 |
| HashSpec.CodeMeaning | services/helpers/helpers_hash_table.c:104-156 | the code is 1 exactly for a rejected value, 2 exactly when another value that is no prefix holds its key, and 0 exactly when the value is stored now or a prefix of it already was |
| ChainWalk.RunKeepsInv | services/helpers/helpers_hash_table.c:124-139 | every state of every interleaving has `previous` leading from `node` through exactly the published items, and an unreachable pending item |
| ChainWalk.PublishKeepsInv | services/helpers/helpers_hash_table.c:129-138 | the store to `node` is where an insert takes effect: it publishes an item whose links are already in place |
| ChainWalk.LinkStoreKeepsChain | services/helpers/helpers_hash_table.c:135-136 | the stores to the two links change no published item's `previous` |
| ChainWalk.PreviousKeepsReader | services/backup_service/helpers_backup_common.c:316-317 | following `previous` leads to the next older item of the walker's snapshot, whatever was inserted since |
| ChainWalk.WalkSeesSnapshot | services/backup_service/helpers_backup_common.c:310-329 | a walk sees the values published before its load of `node`, newest first, all of them if it ends and a first part if it breaks off; those are what the insert calls made by then amount to, but for one in progress |
| ChainWalk.WalkTerminates | services/backup_service/helpers_backup_common.c:311-318 | a walk makes at most two steps per item of its snapshot and one more, however many inserts go on |
| ChainWalk.NeverBlocked | services/backup_service/helpers_backup_common.c:310-317 | in every reached state both threads can step without touching unallocated memory; the inserter takes the next call or gets nearer to the end of this one, the walker starts a walk or gets nearer to its end, and a walk that is not told to stop rests only at the end |
| ChainWalk.CallsTakeEffect | services/helpers/helpers_hash_table.c:104-156 | in every interleaving no call is lost: the published values are what the calls that were made amount to, in order, but for one in progress |
| ChainWalk.CallTerminates | services/helpers/helpers_hash_table.c:104-156 | a call makes at most eight steps, whatever the walker does |
| EventQueue.Queue.constructor | services/helpers/helpers_event_queue.c:13-24 | a new queue is valid and empty |
| EventQueue.Queue.Empty | services/helpers/helpers_event_queue.c:8-11 | the queue is empty exactly when head is null, and then tail is null too |
| EventQueue.Queue.Enqueue | services/helpers/helpers_event_queue.c:41-53 | an entry not in the queue becomes its last node; the contents grow by its event |
| EventQueue.Queue.Dequeue | services/helpers/helpers_event_queue.c:55-68 | the first node is taken out and fully detached, so that it may be enqueued again |
| EventQueue.Queue.Destroy | services/helpers/helpers_event_queue.c:26-39 | every remaining node is freed exactly once, in order |
| EventQueue.FirstInFirstOut | services/helpers/helpers_event_queue.c:41-68 | under any mix of operations, what came out followed by what is left is what went in |
| EventQueue.Drive | services/helpers/helpers_event_queue.c:8-68 | the linked structure does under any mix of enqueue, dequeue and re-enqueue what the sequence does |
| InotifyRecords.RecordRoundTrip | services/backup_service/helpers_backup_common.c:176-181 | wherever an encoded record stands in a buffer, the header and name read there give it back |
| InotifyRecords.BufferRoundTrip | services/backup_service/helpers_backup_common.c:172-187 | decoding the concatenation of any records yields exactly those records and lands on the buffer end |
| InotifyPipeline.Backup.EventCheck | services/backup_service/helpers_backup_common.c:121-154 | waiting consumes only answers without events, reports input only with the flag up, lowers the flag only for a signal or the end of the answers, and otherwise gives up only after a failed poll |
| InotifyPipeline.Backup.QueueRecord | services/backup_service/helpers_backup_common.c:175-185 | one record is queued and the offset advances by header and name, by at least 16 bytes |
| InotifyPipeline.Backup.ReadEvents | services/backup_service/helpers_backup_common.c:156-188 | the queue grows by a first part of the buffer's events, by all of them unless a signal arrived at a look before a record |
| InotifyPipeline.Backup.HandleEvent | services/backup_service/helpers_backup_common.c:263-422 | one event is handled, and the watch count stays what there was, plus watches added, minus those given up by handled events, modulo 2^64 |
| InotifyPipeline.ReleasesByFields | services/backup_service/helpers_backup_common.c:263-405 | an event gives up a watch exactly if IN_IGNORED is set, no event bit, overflow or directory flag is, the name does not begin with a dot, and the lookup did not break off |
| InotifyPipeline.Backup.ProcessHandleEvents | services/backup_service/helpers_backup_common.c:190-201 | draining handles every queued event once, in arrival order, and leaves the queue empty |
| InotifyPipeline.Backup.PollOnce | services/backup_service/helpers_backup_common.c:207-220 | one round starts and ends with an empty queue and either everything delivered is handled or a tail of this read was lost with the flag down |
| InotifyPipeline.Backup.ProcessInotifyEvents | services/backup_service/helpers_backup_common.c:203-223 | over any run each delivered event is handled exactly once in order, except for a tail of a read during which a signal arrived; without a signal nothing is lost and the loop ends only for a failed read, the watch count, or when the answers end |
| Discovery.Traversal.ReadEntries | services/backup_service/helpers_backup_common.c:495-517 | files and directories of the entries read before a signal, of all of them if there was none, are inserted into their two tables in order |
| Discovery.Traversal.PublishSlot | services/backup_service/helpers_backup_common.c:524-535 | the directory in a slot is watched unless it is a prefix of the root, and is inserted into the shared table; slot 0 is never looked up |
| Discovery.Traversal.WatchAndPublish | services/backup_service/helpers_backup_common.c:522-536 | the directories are watched and inserted in increasing key order |
| Discovery.Traversal.CheckFsAndRun | services/backup_service/helpers_backup_common.c:467-538 | on each return path, what the shared table and the watches have become |
| Discovery.RetainedMeaning | services/backup_service/helpers_backup_common.c:507-511 | the retained directories are exactly those that were the first with their key, by increasing key |
| Discovery.WatchedExactlyOnce | services/backup_service/helpers_backup_common.c:522-533 | every retained directory but the root is watched exactly once, and nothing else is |
| Discovery.ChainAfterDiscovery | services/backup_service/helpers_backup_common.c:495-536 | the shared chain is the first-wins list of files in traversal order, then the retained directories by increasing key whose key no file holds |
| Discovery.ThreadArgument.ChooseDirectory | services/backup_service/helpers_backup_common.c:310-329 | the walk takes the newest entry that matches or cannot be opened, and remembers the directory only if it matches |
| Discovery.LookupAfterDiscovery | services/backup_service/helpers_backup_common.c:310-329 | after a pass, a directory is chosen exactly when it matches and every chained directory with a larger key can be opened and lacks the name; exactly when the lookup gives up or finds nothing; files come last |
| Iptables.StepKeepsStage | services/firewall_service/firewall_service_main.c:308-323 | each shell line leads from what is known before it to what is known after it, and every crash leaves the invariant: an OUTPUT jump or a non-empty UNTRUSTED implies both chains |
| Iptables.CompletedStart | services/firewall_service/firewall_service_main.c:295-323 | after any starts, stops, crashes and failed spawns other than of the flush, a completed start leaves one REJECT, one ACCEPT, and in OUTPUT its jump alone, or after the administrator's rules if no flush got past both chains; INPUT has one jump per start that got to its append; nothing else changes |
| Iptables.RunRespects | services/firewall_service/helpers_firewall_common.c:219-291 | over any run at all, INPUT only grows by the recorded jumps, OUTPUT is what it was, or nothing if a flush emptied it, and the jumps recorded since, and other chains stay as they were |
| Iptables.VerdictsAfterCompletedStart | services/firewall_service/helpers_firewall_common.c:252-282 | with empty built-in chains and one configuration, the untrusted network is rejected, the trusted one accepted on its interface, and the rest left to policy, whatever happened before, flushes that were not spawned included |
| Iptables.SameVerdictsAsSingleStart | services/firewall_service/helpers_firewall_common.c:252-291 | the verdicts after any such history are those after a single start |
| Iptables.RepeatedJump | services/firewall_service/helpers_firewall_common.c:268-282 | a repeated jump decides as a single one does |
| Iptables.InPrefixBits | services/firewall_service/helpers_firewall_common.c:252-282 | an address is in a prefix exactly when its first bits, most significant first, are those of the network |
| Iptables.SingleStartCompletes | services/firewall_service/firewall_service_main.c:308-323 | an undisturbed start runs through all its lines |
| StartExactness.CompletedStartExactIff | services/firewall_service/firewall_service_main.c:308-323 | over any history, failed spawns of any line included, a completed start leaves exactly its own rules if and only if its flush found a rule set that it could clear |
| StartExactness.SpawnedFlush | services/firewall_service/helpers_firewall_common.c:284-290 | from any rule set, a start that runs all its lines leaves exactly its own rules if and only if both of its chains existed, or OUTPUT had no jump and UNTRUSTED no rule |
| StartExactness.UnspawnedFlush | services/firewall_service/firewall_service_main.c:308 | from any rule set, a start whose flush was not spawned completes and adds its jump to OUTPUT; it leaves exactly its own rules if and only if OUTPUT had no jump and neither chain a rule |
| StartExactness.MissedFlushIsFeltLater | services/firewall_service/firewall_service_main.c:308-323 | a reachable history in which only an earlier start's flush was not spawned ends with two OUTPUT jumps |
| StartExactness.CleanStop | services/firewall_service/firewall_service_main.c:295-306 | a clean shutdown whose lines run empties OUTPUT and removes UNTRUSTED; TRUSTED stays, empty, because INPUT still jumps to it; INPUT and other chains are as they were |
| FirewallService.Firewall.System | services/firewall_service/helpers_firewall_common.c:219-225 | a call runs the line the state machine expects, exactly if it can be spawned, and only a failed spawn is reported |
| FirewallService.Firewall.FlushTables | services/firewall_service/helpers_firewall_common.c:284-291 | three lines in order, whatever each returns; the result says exactly whether one was not spawned |
| FirewallService.Firewall.CreateChains | services/firewall_service/firewall_service_main.c:309 | success means that both lines were spawned; the second is tried only after the first |
| FirewallService.Firewall.AddBlockRule | services/firewall_service/helpers_firewall_common.c:252-266 | both appends are run; success means that both were spawned, failure leads to the closing flush |
| FirewallService.Firewall.AddAcceptRule | services/firewall_service/helpers_firewall_common.c:268-282 | both appends are run; success means that both were spawned, failure leads to the closing flush |
| FirewallService.Firewall.Start | services/firewall_service/firewall_service_main.c:308-323 | the service runs if and only if all six lines after the flush are spawned, and its events are then the flush's and those six; it is a run of the state machine that ends running or flushed; when it runs, exactly its rules are in place if and only if its flush found a rule set that it could clear |
| FirewallService.Firewall.FreeAndExit | services/firewall_service/firewall_service_main.c:295-306 | a shutdown is a flush that leaves the service down; after a running service and with its lines spawned, OUTPUT is empty, UNTRUSTED gone and TRUSTED empty |
| HexDump.Terminal.PrintHexAsciiLine | services/firewall_service/helpers_firewall_common.c:6-49 | the printed pieces make up one line: five-digit offset, sixteen cells with a gap after the eighth, and the printable characters |
| HexDump.Terminal.PrintPayload | services/firewall_service/helpers_firewall_common.c:54-91 | the loop with its remainder terminates and prints sixteen bytes per line, the rest on the last |
| HexDump.AsciiColumnInLine | services/firewall_service/helpers_firewall_common.c:15-47 | the ASCII part of every line starts at the same column |
| HexDump.AsciiCharacterInLine | services/firewall_service/helpers_firewall_common.c:38-47 | column 60 + i shows byte i itself from 32 to 126, and a dot otherwise |
| HexDump.CellsReadBack | services/firewall_service/helpers_firewall_common.c:15-34 | reading the cells of a line by column gives back its bytes and stops at the first blank cell |
| HexDump.DumpIsInvertible | services/firewall_service/helpers_firewall_common.c:6-91 | reading the text by columns gives one row per sixteen bytes at the printed offsets, and the rows joined are the payload |
| Packet.HeaderNibbles | include/services/firewall_service/firewall_service_main.h:55-67 | from a byte made of two four-bit fields, IP_HL reads the low one and TH_OFF the high one |
| Packet.FrameRoundTrip | services/firewall_service/firewall_service_main.c:54-120 | for any option lengths, decoding an encoded TCP frame finds exactly its payload and never its padding, and other protocols are left alone |
| Packet.HeaderErrors | services/firewall_service/firewall_service_main.c:54-105 | which captured packets are given up for their IP header length, protocol or TCP header length |
| Packet.AddressBytes | services/firewall_service/firewall_service_main.c:68 | byte j of a loaded address, from the least significant, is the j-th byte in the packet |
| Packet.SourceOfFrame | services/firewall_service/firewall_service_main.c:68 | the address that is compared is made of the frame's source bytes |
| PrefixTest.CidrIsMasked | services/firewall_service/firewall_service_main.c:232-233 | for whole-byte lengths, agreeing under the mask is membership in the CIDR prefix |
| PrefixTest.CountedMeaning | services/firewall_service/firewall_service_main.c:68-72 | a source passes exactly when it has every set bit of the network address |
| PrefixTest.MemberIsCounted | services/firewall_service/firewall_service_main.c:68-72 | every member of the prefix passes |
| PrefixTest.HostBitsBlockTest | services/firewall_service/firewall_service_main.c:232-233 | with host bits in the configured address, nothing passes |
| PrefixTest.ExactIff | services/firewall_service/firewall_service_main.c:68-72 | the test is prefix membership for all sources if and only if the prefix is all ones |
| PrefixTest.ShippedNetworkOvercounts | services/firewall_service/firewall_service_main.c:68-72 | with 192.168.0.0/24 a source outside the prefix passes |
| Sniffer.CounterNeverUnder | services/firewall_service/firewall_service_main.c:56-72 | over any run the tally is at least the number of valid-header packets from the prefix, and equals the number with all bits of the address |
| Sniffer.InCidrBytes | services/firewall_service/firewall_service_main.c:68-72 | a loaded address is in a prefix of k whole bytes exactly when its first k bytes are the network's |
| Sniffer.FramesCounted | services/firewall_service/firewall_service_main.c:56-72 | for frames as they were sent and a network of k bytes and zeros, the tally is the number of frames whose source covers every bit of the network's bytes, never less than the number whose first k bytes are the network's |
| Sniffer.PacketHandler.GotPacket | services/firewall_service/firewall_service_main.c:30-121 | a packet is left alone exactly if the stop flag is down or a signal has arrived; otherwise it is decoded as specified, counted modulo 2^32 if its source passes, and its payload dumped |
| Sniffer.PacketHandler.Loop | services/firewall_service/firewall_service_main.c:186 | the packets handled before a signal, all of them if there was none: the counter is their tally modulo 2^32 and the output their dumps in order |
| Sniffer.PrintedPayloadReadsBack | services/firewall_service/firewall_service_main.c:107-120 | decoding the text printed for a captured frame gives back, byte for byte, the payload that was sent |
| Config.LineRoundTrip | services/firewall_service/helpers_firewall_common.c:131-153 | a printed line is split into its key and value, even if the value has further colons |
| Config.StoreRoundTrip | services/firewall_service/helpers_firewall_common.c:155-202 | storing a printed value stores what the setting means |
| Decimal.AtoiReadsPrefix | services/firewall_service/helpers_firewall_common.c:168-186 | reading a number skips leading blanks and a plus sign and stops at the first non-digit; without digits it gives 0 |
| Config.PacketsValue | services/firewall_service/helpers_firewall_common.c:163-171 | a packet number is unlimited if it begins with "inf", and else the number at its front |
| Config.SecondNameKeepsTail | services/firewall_service/helpers_firewall_common.c:155-162 | a shorter second value of a text setting keeps the tail of the first |
| Config.LastLineEndsParse | services/firewall_service/helpers_firewall_common.c:131-135 | text after the first line without delimiter or with an unknown key never matters |
| Config.LongLineIsAnError | services/firewall_service/helpers_firewall_common.c:124-128 | a line of more than 168 characters is an error, after the settings before it were stored |
| Config.BadAddressExits | services/firewall_service/helpers_firewall_common.c:180-198 | an address that cannot be read ends the process after the settings before it were stored |
| Config.ConfigRoundTrip | services/firewall_service/helpers_firewall_common.c:104-207 | parsing printed settings followed by a last line and any text stores all of them in order |
| Config.PrintedConfigIsRecovered | services/firewall_service/helpers_firewall_common.c:104-207 | settings printed in any order, each key at most once, are all recovered from zeroed attributes, and the other fields stay zero |
| Config.ClosedConfigIsRecovered | services/firewall_service/helpers_firewall_common.c:104-207 | the same for a text closed by an empty line |
| Config.NulEndsParse | services/firewall_service/helpers_firewall_common.c:106-112 | a NUL inside a line cuts the line there, and nothing after that line is read |
| ConfigParser.GetIndexByParam | services/helpers/helpers_parser.c:3-16 | the first index of the delimiter, or a negative number for a long line or one without it |
| ConfigParser.CopyLine | services/firewall_service/helpers_firewall_common.c:106-122 | the two loops copy exactly the text up to the next newline, and the flag falls if and only if that text holds a NUL |
| ConfigParser.FwAttrs.StoreValue | services/firewall_service/helpers_firewall_common.c:155-206 | the branch of the key changes its own field as specified, and a bad address is reported |
| ConfigParser.FwAttrs.UseLine | services/firewall_service/helpers_firewall_common.c:131-206 | a line is taken apart and its value stored, or it ends the parse |
| ConfigParser.FwAttrs.ParseAndSerialize | services/firewall_service/helpers_firewall_common.c:104-211 | the loops over the buffer leave the attributes and the code that the parse function gives |
| Handshake.Serve | services/service_manager_main.c:48-72 | the reading loop is a run of the serving process's transitions; it reads every message that arrives and answers each INIT, in order, with the same message, only its signal changed, exactly unless a write fails |
| Handshake.StepKeepsInv | services/service_manager_main.c:32-72 | every connect, accept, fork, read, write and close keeps each connection's logs consistent with its own server |
| Handshake.StartedMeansAccepted | services/backup_service/backup_service_main.c:266-285 | in every interleaving, a started service sent its INIT, the manager read it from that connection and wrote back that message with only the signal changed |
| Handshake.DecidedByReply | services/backup_service/backup_service_main.c:266-285 | in every interleaving, a service that has decided has started if and only if it got a reply, and given up if and only if it read the end of the stream |
| Handshake.UndisturbedHandshakeStarts | services/service_manager_main.c:137-148 | from every reached state in which the manager accepts and a service waits, the service can get to start, and the manager accepts again with the descriptor free |
| Handshake.RepliesMatchInits | services/service_manager_main.c:48-72 | for any client, replies are those due for the messages read, never more than the INITs, and all of them when none is pending |
| Handshake.ConnectionsAreIsolated | services/service_manager_main.c:137-148 | a step changes one connection only, and no two serving processes share one although descriptors and arguments are reused |

## Left out

- The copy of the configuration loop in `services/backup_service/backup_service_main.c`: it has the same loops with three path keys and no numbers.
- Socket set-up, output redirection, pcap opening and filters, thread creation and joining, and process exit codes: foreign calls.
- The real fts, inotify, opendir and system calls: they appear as lists of entries, kernel answers, a scan result per path, and a command interpreter.
- Memory release and the leak of items that are rejected; the model keeps rejected items allocated.
- Weak-memory effects; `ChainWalk` is sequentially consistent.
- The failed-watch path of the discovery pass, which frees its table and keeps using it; watches are assumed to succeed.
- Events without a name, which the event handler does not guard against; log and copy command texts.
- InotifyPipeline.Backup.HandleEvent: whether the directory lookup breaks off is a parameter here; `Discovery` models the lookup itself. Logging and copying are left out.
- The device loop of the firewall start, which skips the first device.
- The check that an Ethernet frame carries IPv4 and that enough of it was captured: the source has neither, so `Packet.Captured` is a precondition.
- Prefix lengths that are not multiples of eight, for which the mask expression is no prefix on a little-endian host.
- Concurrent packet handlers on several devices, which share the counter without a lock.
- HashTable.HashTable.constructor: takes no size and has no range check on it, because every caller passes the one size that the key range fits.
