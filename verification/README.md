# Models of the firmware's stateful components

Dafny models of six parts of this firmware, with proofs of what each promises. `dafny verify dfyconfig.toml`
checks all of them. A component is modelled on two levels where its code runs concurrently: as steps that any
scheduler may interleave, and as the sequential code that changes memory in place.

- **Log ring** (`LogRecords`, `LogQueue`, `LogStore`, `LogRing`, `LogRuns`, `LogWriters`, `LogCounters`). `LogRing` is the ring as
  code: a byte array with guard words behind it, 32-bit position words, copies in 8-, 4-, 2- and 1-byte pieces. It
  refines a queue of records that drops the oldest to make room. `LogRuns` states what holds over all sequences of
  calls. `LogWriters` lets any number of writers reserve space, each atomic load and exchange one step;
  `LogCounters` says how often they try and what is counted.
- **Character queue** (`Fifo`). One producer and one consumer, interleaved at each load, buffer access and store.
- **PCI** (`Words`, `PciConfig`, `PciTopology`, `PciScan`, `PciPlacement`, `PciCapabilities`, `PciAlloc`, `PciWindow`).
  Configuration space is a map from functions to registers with a mask of writable bits. BAR sizing follows section
  6.2.5.1 of the PCI Local Bus Specification 3.0, the capability list section 6.7 of it, the bridge window section
  3.2.5.8 of the PCI-to-PCI Bridge Architecture Specification. 32-bit words are numbers; masks are functions on their
  bits.
- **Profiler** (`ProfilerLists`, `PerfectHash`). Any number of enter and exit hooks build one list per function in a
  common pool; the seed search and the look-aside table answer lookups.
- **Command line names** (`NameIndex`). Linear probing over case-folded hashes agrees with linear search.
- **Thermal simulation** (`SimConfig`, `Gpio`, `Thermal`, `ThermalRuns`, `ThermalWitness`, `ThermalTasks`,
  `PauseHandshake`) and the **cycle clock** (`Timestamp`).

## What the proofs found

Each of these is a lemma with the input or the run that shows it, or an exact condition.

- After 2^32 bytes a flush can deliver nothing, leave a record behind and still report the log clean
  (`LogRuns.FlushMissesRecord`); `LogRuns.FlushEmpties` says after which runs.
- A record that starts eight bytes before the end of the ring is delivered with its first four bytes replaced by the
  word behind the ring (`LogRuns.DeliveredFaithfully`, `LogRuns.UnfaithfulReachable`).
- A writer overtaken while it makes room stays in its loop and moves the shared tail past the head and past every record,
  until the tail word has come round behind its old head copy (`LogWriters.OvertakenLeaves`, `LogWriters.TailPassesHead`).
- A writer that makes room skips the unsealed bytes of a record still being written, and can then fill the same bytes of
  the buffer (`LogWriters.FillersShareBytes`).
- A writer that holds a tail copy for 2^32 bytes takes a full ring for an empty one (`LogWriters.StaleTailOverfills`).
- A 32-bit BAR of 16 bytes is recorded as absent (`PciConfig.Records32`); a 64-bit BAR of 4 GB or more is recorded with a
  size that is no power of two and is placed at address 0 or 1 (`PciAlloc.RecordedPlacement`), over every other block
  (`PciAlloc.HugeAlone`); the block after it starts at 0 (`PciPlacement.AfterHuge`).
- Of two devices on one bus, programming the second takes the first out of the bridge window, unless it lies in the
  second one's window (`PciWindow.StillDecoded`).
- A profiler hook that looked before profiling stopped starts the pool over. Every walk is then empty
  (`ProfilerLists.WrapWalks`); unless the pool is unused, later steps can put a sample in two places
  (`ProfilerLists.WrapHarms`), and a list can come to contain itself (`ProfilerLists.WrapMakesLoop`).
- The initialisation reads the cooldown and hysteresis bits the other way round from the code that sets them: one alone
  leaves a threshold at zero (`SimConfig.StartThresholdsInRange`, `SimConfig.OneThresholdAlone`).
- With a heater power near its maximum both fans together wrap the 16-bit cooling sum and heat the chip
  (`Thermal.WrapsWithBothFans`, `ThermalWitness.FansHeat`).
- Stopping the simulation in an emergency leaves Fan 2 on without one (`ThermalWitness.StopBreaksInterlock`); pausing it
  while suspended promises nothing unless an earlier pause was acknowledged (`PauseHandshake.PauseIsKept`).
- Timestamps go back every 2^32 microseconds, which is 71.6 minutes, on every clock from 1 MHz on: the product of cycles
  and ticks does not fit 64 bits (`Timestamp.NeverBack`, `Timestamp.RegularGoesBack`).
- A timestamp call interrupted by another one between its reading and its update moves the clock ahead by 2^32 cycles
  (`Timestamp.NestedCallJumps`).
- Writing a name over the table position of another one loses the other (`NameIndex.InsertLoses`).

## Model

| member | source | states |
|---|---|---|
| `LogRecords.EncodeDecode` | common/src/diagnostic/logging/log_infra.c:367-401 | A record of 1 to 255 payload bytes and a 48-bit timestamp is read back whole from its encoding: tag, level, domain, entity, length, pad, split timestamp, payload |
| `LogRecords.PutHolds` | common/src/diagnostic/logging/log_infra.c:179-200 | Bytes written from an index on, wrapped at the end of the ring, are read back in order; no other ring byte and no guard byte changes |
| `LogRecords.PutWrapped` | common/src/diagnostic/logging/log_infra.c:187-199 | Two partial copies, to the end of the ring and on from its start, are one wrapped write |
| `LogStore.PadFits` | common/src/diagnostic/logging/log_infra.c:252-260 | Padding behind a record that starts at an 8-aligned position never crosses the physical end of the ring |
| `LogStore.IndexIsRemainder` | common/src/diagnostic/logging/log_infra.c:181 | The buffer index of a position is its remainder by the ring size |
| `LogStore.AppendImage` | common/src/diagnostic/logging/log_infra.c:367-405 | Writing an encoded record at the head extends the stored queue by it and disturbs no retained record and no guard word |
| `LogStore.DropImage` | common/src/diagnostic/logging/log_infra.c:336-342 | Moving the tail past the oldest record leaves the others stored |
| `LogStore.ConsumeImage` | common/src/diagnostic/logging/log_infra.c:493-498 | Unsealing the oldest record and moving the tail leaves the others stored |
| `LogStore.HeaderDecodes` | common/src/diagnostic/logging/log_infra.c:460-474 | The twelve header bytes give back level, domain, entity, length, size and timestamp of the record |
| `LogStore.FirstWord` | common/src/diagnostic/logging/log_infra.c:476-477 | The unmasked read of the first four payload bytes is right unless the record starts eight bytes before the end, where it reads the word behind the ring |
| `LogQueue.RoomStep` | common/src/diagnostic/logging/log_infra.c:320 | On 32-bit words the fullness test compares the bytes retained plus the bytes wanted, across wraps, and a full ring holds a record to drop |
| `LogQueue.MadeRoomOk` | common/src/diagnostic/logging/log_infra.c:319-351 | Dropping until the record fits ends with at most the room asked for and leaves the head where it was |
| `LogQueue.DrainStep` | common/src/diagnostic/logging/log_infra.c:416-502 | One turn of the flush loop hands over the oldest record and moves the 32-bit tail word by its size |
| `LogRings.LogRing.CopyU64` | common/src/diagnostic/logging/log_infra.c:136-177 | The 8-, 4-, 2- and 1-byte copies together copy exactly the bytes asked for |
| `LogRings.LogRing.CopyToRing` | common/src/diagnostic/logging/log_infra.c:179-200 | Writes the bytes from the position on, wrapped, and nothing else |
| `LogRings.LogRing.CopyFromRing` | common/src/diagnostic/logging/log_infra.c:202-229 | Reads the bytes from the position on, wrapped |
| `LogRings.LogRing.ZeroPadding` | common/src/diagnostic/logging/log_infra.c:231-250 | Zeroes up to three bytes, wrapped |
| `LogRings.LogRing.AlignedZeroPadding` | common/src/diagnostic/logging/log_infra.c:252-296 | Zeroes exactly the pad bytes |
| `LogRings.LogRing.WriteRecord` | common/src/diagnostic/logging/log_infra.c:381-403 | Header, first word, rest of the payload, padding and seal make exactly the sealed record; no byte outside it changes |
| `LogRings.LogRing.ReadHeader` | common/src/diagnostic/logging/log_infra.c:460-467 | Both header reads give the twelve bytes from the position on, wrapped |
| `LogRings.LogRing.MakeRoom` | common/src/diagnostic/logging/log_infra.c:319-351 | The ring after the loop is the queue with the oldest records dropped until the new one fits |
| `LogRings.LogRing.Dispatch` | common/src/diagnostic/logging/log_infra.c:298-406 | A message drops the oldest records as far as needed and appends one record with the text as it is up to 255 bytes, or its first 255, whose encoding is the only change in memory; an empty message changes nothing |
| `LogRings.LogRing.ReadRecord` | common/src/diagnostic/logging/log_infra.c:460-481 | Reads the oldest record as the writer callback gets it |
| `LogRings.LogRing.Flush` | common/src/diagnostic/logging/log_infra.c:409-505 | Hands the retained records over oldest first, empties the ring and unseals the tag of each when the 32-bit words are in order; otherwise hands over nothing, changes no byte and clears only the dirty flag |
| `LogStore.UnsealedIs` | common/src/diagnostic/logging/log_infra.c:493-498 | A byte of the buffer is changed by that exactly where a retained record starts, and then is 0xDF |
| `LogRings.LogRing.GetStats` | common/src/diagnostic/logging/log_infra.c:547-551 | The 32-bit words of the numbers of records accepted and dropped |
| `LogRuns.RoomDropsPrefix` | common/src/diagnostic/logging/log_infra.c:320-351 | A dispatch drops a prefix of the oldest records and counts each |
| `LogRuns.RoomIsShortest` | common/src/diagnostic/logging/log_infra.c:320-351 | A number of oldest records dropped is enough exactly when it is at least the number dropped |
| `LogRuns.DispatchedOk` | common/src/diagnostic/logging/log_infra.c:298-406 | A dispatch moves the head by the size of its record and keeps the ring within its size |
| `LogRuns.DispatchedIs` | common/src/diagnostic/logging/log_infra.c:298-406 | A dispatch drops the fewest oldest records that leave room, however many, moves the tail by their bytes, counts them and appends the new one |
| `LogRuns.DispatchDelivers` | common/src/diagnostic/logging/log_infra.c:298-505 | A record dispatched comes out last in the next flush in order, with its domain, entity, level, timestamp and text, unless it starts eight bytes before the end of the ring |
| `LogRuns.DeliveredFaithfully` | common/src/diagnostic/logging/log_infra.c:474-491 | A flush in order delivers each retained record as dispatched, exactly when it does not start eight bytes before the end of the ring or happens to start like the bytes there |
| `LogRuns.UnfaithfulReachable` | common/src/diagnostic/logging/log_infra.c:476-477 | Three dispatches in a ring of 512 bytes after which a flush delivers a record with the bytes behind the ring in front |
| `LogRuns.FlushEmpties` | common/src/diagnostic/logging/log_infra.c:416-504 | After any run of dispatches and flushes a flush empties the ring exactly when the bytes of the records gone and the bytes of all records accepted count the same number of full 2^32; otherwise it hands over nothing, keeps every record and reports the log clean |
| `LogRuns.StepKeeps` | common/src/diagnostic/logging/log_infra.c:298-505 | Each dispatch and flush keeps sum = flushed + dropped + retained and the retained records the last ones accepted |
| `LogRuns.RunKeeps` | common/src/diagnostic/logging/log_infra.c:298-505 | The same over every sequence of dispatches and flushes; while flushes are in order, dirty says whether anything is retained |
| `LogRuns.FlushMissesRecord` | common/src/diagnostic/logging/log_infra.c:416-504 | A run of dispatches and flushes after which a record is retained, the log reports clean and the flush has delivered nothing: the head word has wrapped |
| `LogWriters.NextKeeps` | common/src/diagnostic/logging/log_infra.c:313-365 | Every atomic step of any writer keeps reservations end to end from 0 to the head and the local copies behind the shared positions, with tests and exchanges on 32-bit words |
| `LogWriters.RunKeeps` | common/src/diagnostic/logging/log_infra.c:313-365 | The same in every reachable state, for any number of writers and any schedule |
| `LogWriters.ReserveFits` | common/src/diagnostic/logging/log_infra.c:353-357 | A successful reservation takes 16 to 272 bytes at the old head; it leaves at most one ring length behind the tail copy it tested exactly when fewer than 2^32 bytes lie between that copy and the new head |
| `LogWriters.StaleTailOverfills` | common/src/diagnostic/logging/log_infra.c:313-357 | A run on which that fails: a tail copy 2^28 - 1 records old makes a full ring look empty, and 544 bytes are in use in a ring of 512 |
| `LogWriters.Disjoint` | common/src/diagnostic/logging/log_infra.c:353-357 | Reservations are 8-aligned and pairwise disjoint, in order |
| `LogWriters.Covered` | common/src/diagnostic/logging/log_infra.c:353-357 | Every position below the head lies in exactly one reservation |
| `LogWriters.NoSharedByte` | common/src/diagnostic/logging/log_infra.c:353-396 | Two reservations that together span at most one ring length share no physical byte |
| `LogWriters.SharedByteWhen` | common/src/diagnostic/logging/log_infra.c:353-396 | Of two reservations less than a ring length apart, some byte of the buffer belongs to both exactly when together they span more than one |
| `LogWriters.FillersDisjoint` | common/src/diagnostic/logging/log_infra.c:367-405 | Two writers filling at the same time fill disjoint reservations |
| `LogWriters.FillersShareBytes` | common/src/diagnostic/logging/log_infra.c:343-350 | A run after which two writers fill reservations that share 32 bytes of the buffer: the second one skipped the unsealed bytes of the first |
| `LogWriters.OvertakenLeaves` | common/src/diagnostic/logging/log_infra.c:320 | A writer whose tail copy has passed its head copy leaves the drop loop at its test exactly when the word of that copy has come round to at most one ring length behind the head copy plus the record |
| `LogWriters.OvertakenUntil` | common/src/diagnostic/logging/log_infra.c:319-351 | As long as the tail has not come that far such a writer neither reserves nor returns, whatever the others do |
| `LogWriters.OvertakenDrains` | common/src/diagnostic/logging/log_infra.c:343-350 | Scheduled alone over unsealed bytes, such a writer moves the shared tail by eight bytes a turn until then |
| `LogWriters.OvertakenReachable` | common/src/diagnostic/logging/log_infra.c:319-351 | A run of two writers that overtakes one of them |
| `LogWriters.TailPassesHead` | common/src/diagnostic/logging/log_infra.c:319-351 | From that run on, alone, it moves the tail eight bytes a turn past the head, and leaves its loop after exactly 2^29 - 98 turns |
| `LogCounters.LeavesLoop` | common/src/diagnostic/logging/log_infra.c:317-365 | A writer that has begun to try leaves its loop with a reservation at the head, or with none at its 120th failed exchange of the head, whatever the others did; each failed one before makes it load the tail again |
| `LogCounters.CountersAre` | common/src/diagnostic/logging/log_infra.c:341-405 | In every reachable state the message count is the number of reservations less those being filled, and the drop count the number of sealed records the tail was moved over less those not yet counted |
| `LogCounters.WriteAlone` | common/src/diagnostic/logging/log_infra.c:308-405 | An undisturbed writer whose message fits reserves the header, the message and what makes that a multiple of eight, fills it and counts it |
| `LogCounters.DropAlone` | common/src/diagnostic/logging/log_infra.c:319-351 | An undisturbed turn of the drop loop goes past a sealed record by what its header says, else to a multiple of eight 8 to 15 bytes on |
| `Fifos.MaskDiffers` | common/src/fifo.c:22 | Of counts at most 256 apart only equal ones and those exactly 256 apart share an index |
| `Fifos.NextKeeps` | common/src/fifo.c:19-48 | Each load, buffer access and store of either side keeps the buffer a queue of at most 255 characters |
| `Fifos.RunKeeps` | common/src/fifo.c:19-48 | The same over every interleaving |
| `Fifos.EveryRun` | common/src/fifo.c:19-48 | Over every interleaving the characters removed are a prefix of those accepted, at most 255 are held, a push is dropped only when it found 255, a pop finds nothing only when none was held |
| `Fifos.DecidingStep` | common/src/fifo.c:23-39 | A push that finds fewer than 255 goes on to store, a pop that finds some goes on to return the oldest |
| `Fifos.PushIsRun` | common/src/fifo.c:19-29 | A push without interruption is its five steps in a row |
| `Fifos.PopIsRun` | common/src/fifo.c:31-42 | A pop without interruption is its five steps in a row |
| `Fifos.AskIsRun` | common/src/fifo.c:44-48 | A question without interruption is answered by whether any character is held, and changes nothing |
| `Fifos.Fifo.FifoPush` | common/src/fifo.c:19-29 | Appends the character unless 255 are held |
| `Fifos.Fifo.FifoPop` | common/src/fifo.c:31-42 | Returns and removes the oldest character, -1 exactly when there is none |
| `Fifos.Fifo.FifoIsEmpty` | common/src/fifo.c:44-48 | Says whether no character is held |
| `PciConfig.EcamInjective` | src/drivers/pci/pci_rc.c:64-88 | Different registers of the configuration space have different addresses |
| `PciConfig.EcamFields` | src/drivers/pci/pci_rc.c:64-88 | The address holds the bus from bit 20, the device from bit 15, the function from bit 12 and four times the register below |
| `Words.Restored` | src/drivers/pci/pci_rc.c:162-165 | Writing any value to a register and then its old one restores it, whatever bits are writable |
| `Words.StoredBit` | src/drivers/pci/pci_rc.c:162-165 | A write changes exactly the writable bits of a register, each to the bit written |
| `Words.WordIs` | src/drivers/pci/pci_rc.c:116-126 | A word is the sum of its halves and of its bytes at their places |
| `Words.AndNotRounds` | src/drivers/pci/pci_rc.c:270 | x & ~(size - 1) rounds down to a multiple of a power of two |
| `PciConfig.ConfigRestored` | src/drivers/pci/pci_rc.c:161-165 | The probe of one BAR register is undone by writing the original value |
| `PciConfig.PairRestored` | src/drivers/pci/pci_rc.c:173-180 | The probe of a 64-bit pair is undone in the order the code restores it, and each half reads back its own mask |
| `PciConfig.Recorded` | src/drivers/pci/pci_rc.c:151-210 | What a turn of the loop records at a BAR it comes to stays; a zero register clears the rest |
| `PciConfig.Records32` | src/drivers/pci/pci_rc.c:197-204 | A 32-bit memory BAR that the loop comes to is recorded with its exact power-of-two size and base; a 16-byte block is recorded as absent |
| `PciConfig.Records64` | src/drivers/pci/pci_rc.c:170-196 | A 64-bit memory BAR below 4 GB is recorded with its exact size and base and its upper half as absent |
| `PciConfig.RecordsHuge` | src/drivers/pci/pci_rc.c:188-191 | A 64-bit block of 4 GB or more is recorded with size 0xFFFFFFFF |
| `PciConfig.RecordsLast` | src/drivers/pci/pci_rc.c:183-204 | A 64-bit block in the last register, which has no upper half, is recorded by its lower one |
| `PciConfig.RecordsIo` | src/drivers/pci/pci_rc.c:164-168 | An I/O BAR is recorded without size and address |
| `PciConfig.RecordsUnsized` | src/drivers/pci/pci_rc.c:161-169 | A BAR that reads back all zeros or all ones is recorded without size and address |
| `PciConfig.ZeroHidesRest` | src/drivers/pci/pci_rc.c:154-160 | A register that holds zero hides every BAR from it on |
| `PciConfig.ConfigSpace.ProbeOne` | src/drivers/pci/pci_rc.c:151-208 | One turn finds the size the masks imply and leaves all of configuration space as it was, on every path |
| `PciConfig.ConfigSpace.ProbeBars` | src/drivers/pci/pci_rc.c:149-210 | The loop computes the sizes and addresses and leaves all of configuration space as it was |
| `PciTopology.PathUnique` | src/drivers/pci/pci_rc.c:238-240 | With distinct secondary buses there is one chain of bridges between two buses |
| `PciTopology.VisitsReachable` | src/drivers/pci/pci_rc.c:110-246 | The unlimited walk visits exactly the functions on buses reachable through bridges with a higher secondary bus |
| `PciTopology.VisitsOnce` | src/drivers/pci/pci_rc.c:110-246 | With distinct secondary buses it visits each function at most once |
| `PciTopology.ScanIsVisit` | src/drivers/pci/pci_rc.c:110-246 | While no table fills up, the tables hold the endpoints and bridges visited, in the order of the walk |
| `PciTopology.ScanIsSound` | src/drivers/pci/pci_rc.c:133-136 | With full tables too, the device table holds nothing that is not visited, nothing more often |
| `PciTopology.HitWhen` | src/drivers/pci/pci_rc.c:133-136 | A table limit is hit exactly when some visited function comes after 32 endpoints, or a bridge after 2 |
| `PciTopology.ScanExact` | src/drivers/pci/pci_rc.c:110-246 | When the tables suffice and secondary buses are distinct, exactly the endpoints on reachable buses are listed, each once |
| `PciTopology.ScanSound` | src/drivers/pci/pci_rc.c:110-246 | Without that condition only such endpoints are listed, each at most once, and the tables are not overrun |
| `PciScan.SkipRest` | src/drivers/pci/pci_rc.c:122-131 | Functions past the last one looked at do not change the walk |
| `PciScan.DatabaseExact` | src/drivers/pci/pci_rc.c:110-246 | The database has an entry for a function exactly when it is on a reachable bus, it and function 0 have a vendor other than 0 and 0xFFFF, it is function 0 or bit 23 of function 0's register 3 is set, and bits 16 to 22 of its own register 3 are zero; and only one |
| `PciScan.TopologyIs` | src/drivers/pci/pci_rc.c:115-224 | On register values: absent exactly when it or function 0 does not answer or function 0 announces no other; of those present, an endpoint with header type 0, a bridge with 1, its secondary bus in bits 8 to 15 of register 6 |
| `PciScan.DeviceIs` | src/drivers/pci/pci_rc.c:140-149 | An endpoint's entry recomposes register 0 and holds the header type and the probed BARs |
| `PciScan.BridgeIs` | src/drivers/pci/pci_rc.c:222-237 | A bridge's entry recomposes registers 0 and 6 and holds the window limits of register 8 |
| `PciScan.Scanner.DoScan` | src/drivers/pci/pci_rc.c:110-246 | The recursive scan ends, finds what the walk over the topology finds, describes each entry from its registers and leaves configuration space unchanged |
| `PciScan.Scanner.ScanFunction` | src/drivers/pci/pci_rc.c:123-243 | One function: entered, or entered and walked behind, or the limit noted |
| `PciScan.Scanner.PciScan` | src/drivers/pci/pci_rc.c:248-254 | The first call scans, later ones change nothing |
| `PciScan.Scanner.FindByBdf` | src/drivers/pci/pci_rc.c:50-60 | The first entry with that bus, device and function, or none exactly when there is none |
| `PciPlacement.AlignedUp` | src/drivers/pci/pci_rc.c:269-270 | For a power-of-two size and no overflow the pointer is rounded up to the next multiple of it |
| `PciPlacement.PlacedInside` | src/drivers/pci/pci_rc.c:264-279 | Every block is aligned to its size and lies between the pointer before and after |
| `PciPlacement.PlacedApart` | src/drivers/pci/pci_rc.c:264-279 | Blocks are handed out in increasing order and do not overlap |
| `PciPlacement.Span` | src/drivers/pci/pci_rc.c:264-279 | The span is at least the sum of the sizes and less than twice that |
| `PciPlacement.RoomFits` | src/drivers/pci/pci_rc.c:264-279 | If twice the sum of the sizes fits above the pointer, nothing overflows |
| `PciPlacement.HugeBlockMisplaced` | src/drivers/pci/pci_rc.c:269-279 | For every pointer the block recorded as 0xFFFFFFFF is given address 0 or 1, the parity of the pointer |
| `PciPlacement.AlwaysAligned` | src/drivers/pci/pci_rc.c:269-270 | A power-of-two block is given a multiple of its size for every pointer, also when the pointer wraps |
| `PciPlacement.AfterHuge` | src/drivers/pci/pci_rc.c:269-279 | The block after one recorded as 0xFFFFFFFF starts at 0, whatever its power-of-two size |
| `PciPlacement.PlacedAfterHuge` | src/drivers/pci/pci_rc.c:264-279 | All blocks after it are handed out as if the pointer had started at 0 |
| `PciCapabilities.FindsFirst` | src/drivers/pci/pci_rc.c:305-318 | The search gives the first capability with the identifier, within 15 nodes, and none exactly when there is none among them |
| `PciCapabilities.ListIs` | src/drivers/pci/pci_rc.c:294-318 | There is a list exactly when bit 20 of register 1 is set; it starts at the low byte of register 13; identifier and next offset are the bytes at a node |
| `PciCapabilities.FindIs` | src/drivers/pci/pci_rc.c:294-319 | The whole search on those values: nothing without bit 20, else the first node with the identifier among the first 15 |
| `PciCapabilities.MsiKeeps` | src/drivers/pci/pci_rc.c:324-344 | Enabling the interrupt changes nothing below the capability and nothing in other functions |
| `PciCapabilities.MsiSets` | src/drivers/pci/pci_rc.c:324-344 | Bit for bit: with a capability and a vector, the enable bit is on, the next registers hold the address and zero, the low half of the fourth the vector, where writable; nothing else changes, and nothing at all without either |
| `PciCapabilities.Capabilities.FindCapability` | src/drivers/pci/pci_rc.c:294-319 | The loop computes that search |
| `PciCapabilities.Capabilities.AllocIrqVectors` | src/drivers/pci/pci_rc.c:324-344 | Writes message address, data and enable bit when the capability is there and the platform gives a vector |
| `PciAlloc.AddressAligned` | src/drivers/pci/pci_rc.c:256-284 | Every address given to a BAR is a multiple of its size and inside the span |
| `PciAlloc.AddressesApart` | src/drivers/pci/pci_rc.c:256-284 | Across devices and BARs, blocks are in order and disjoint |
| `PciAlloc.HugeAlone` | src/drivers/pci/pci_rc.c:256-284 | A block recorded as 0xFFFFFFFF lies apart from the other blocks of the database exactly when there are none |
| `PciAlloc.SpanOfAll` | src/drivers/pci/pci_rc.c:256-284 | The span over all devices is less than twice the sum of all sizes |
| `PciAlloc.BarsHold` | src/drivers/pci/pci_rc.c:265-273 | After the walk each BAR register of an endpoint holds its address in its writable bits, or is as it was when no size is recorded, other functions and the interrupt setup notwithstanding |
| `PciAlloc.RemapsAddress` | src/drivers/pci/pci_utils.c:27-53 | pci_ioremap_bar then gives the database address of each allocated BAR plus what the upper half of a 64-bit BAR held before the walk: the database address itself exactly when that half was zero |
| `PciAlloc.IoremapIs` | src/drivers/pci/pci_utils.c:27-53 | Nothing is mapped exactly when no size is recorded or the register reads zero, all ones or as I/O; else the register without its low four bits above the next register of a 64-bit BAR |
| `PciAlloc.WalkSwitchesOn` | src/drivers/pci/pci_rc.c:283-291 | After the walk bits 1 and 2 of the command register are set where writable for every endpoint and bridge of the database but the host bridge; every other bit of it is as before |
| `PciAlloc.WalkLeavesAlone` | src/drivers/pci/pci_rc.c:259-262 | A function in no entry, or only in ones passed over, is left as it was in all its registers |
| `PciAlloc.BridgeWindow` | src/drivers/pci/pci_rc.c:286-288 | The window register of a bridge is written with the megabyte of the pointer |
| `PciAlloc.RecordedPlacement` | src/drivers/pci/pci_rc.c:188-191 | A probed 64-bit BAR is given a multiple of its real size exactly when that is below 4 GB or the pointer is even, and the larger block is then at 0 |
| `PciAlloc.RecordedPlacement32` | src/drivers/pci/pci_rc.c:197-279 | A probed 32-bit BAR of more than 16 bytes is given a multiple of its size; one of 16 bytes is given nothing |
| `PciAlloc.Allocator.PciAlloc` | src/drivers/pci/pci_rc.c:256-292 | The walk fills in exactly these addresses, moves the pointer to the end and writes exactly these registers |
| `PciAlloc.Allocator.PlaceBar` | src/drivers/pci/pci_rc.c:265-279 | One BAR: rounded pointer written to register and database, pointer advanced |
| `PciWindow.RangeTight` | src/drivers/pci/pci_utils.c:206-221 | The ends of the range are a start and an end of BARs that take part; it is empty exactly when none does |
| `PciWindow.SmallestWindow` | src/drivers/pci/pci_utils.c:206-236 | The window programmed is the smallest one on megabyte bounds that covers every sized, addressed BAR |
| `PciWindow.WindowReadsBack` | src/drivers/pci/pci_utils.c:224-228 | The bridge register then decodes that window, whatever its read-only bits hold |
| `PciWindow.DisabledDecodesNothing` | src/drivers/pci/pci_utils.c:243 | The value written when no BAR takes part decodes no address |
| `PciWindow.ParentDecodes` | src/drivers/pci/pci_utils.c:173-278 | After the whole step the first bridge with the device's bus as secondary bus decodes the smallest window, or nothing |
| `PciWindow.ParentIs` | src/drivers/pci/pci_utils.c:191-202 | The bridge is the first entry of header type 1 with the bus in bits 8 to 15 of its register 6 |
| `PciWindow.NoParentTouched` | src/drivers/pci/pci_utils.c:187-254 | On bus 0 or without such a bridge only the device itself is written to |
| `PciWindow.LastDeviceDecoded` | src/drivers/pci/pci_utils.c:173-278 | After any run of calls for several devices the bridge above a bus decodes the window of the last device on that bus |
| `PciWindow.StillDecoded` | src/drivers/pci/pci_utils.c:223-244 | A BAR of an earlier device on the bus is still decoded exactly when it lies in the window of the last one |
| `PciWindow.BarsProgrammed` | src/drivers/pci/pci_utils.c:259-274 | After the whole step each sized BAR holds its database address in its writable bits |
| `PciWindow.HaltedBits` | src/drivers/pci/pci_utils.c:256-257 | While its BARs are written bits 0 and 1 of the device's command register are off where writable, the others as they were |
| `PciWindow.AccessRestored` | src/drivers/pci/pci_utils.c:256-277 | Afterwards bits 0 to 2 are on where writable, the others as they were |
| `PciWindow.ResourceSetup.FindParent` | src/drivers/pci/pci_utils.c:191-202 | The first bridge in the table whose secondary bus register names the bus |
| `PciWindow.ResourceSetup.FindRange` | src/drivers/pci/pci_utils.c:206-221 | The loop computes the range |
| `PciWindow.ResourceSetup.ConfigDeviceResources` | src/drivers/pci/pci_utils.c:173-278 | Window, access off, BARs, access on, in this order |
| `ProfilerLists.NextKeeps` | common/src/diagnostic/profiler/profiler.c:72-130 | An atomic step of any enter or exit hook keeps the invariant of lists, hooks and pool exactly when it does not add one to the stop value, or finds the pool unused |
| `ProfilerLists.ExchangeKeeps` | common/src/diagnostic/profiler/profiler.c:98-102 | Taking over the tail puts the sample at the end of its list |
| `ProfilerLists.LinkKeeps` | common/src/diagnostic/profiler/profiler.c:104-108 | The last step links the sample where its hook found the end |
| `ProfilerLists.LoadLastKeeps` | common/src/diagnostic/profiler/profiler.c:123-129 | An exit hook stamps the newest sample its function then has, if any, and disturbs no list |
| `ProfilerLists.EnterTakes` | common/src/diagnostic/profiler/profiler.c:72-109 | An enter hook alone takes the next sample of a pool with room, stamps it, makes it the tail of its function and links it behind the old tail or as the head; nothing else changes |
| `ProfilerLists.EnterFull` | common/src/diagnostic/profiler/profiler.c:80-90 | Without room it changes only next_sample: to the stop value when the pool has just been used up, by one later, not at all while profiling is off |
| `ProfilerLists.ExitStamps` | common/src/diagnostic/profiler/profiler.c:112-130 | An exit hook alone gives the newest sample of its function its exit time, if there is one and profiling is on; nothing else changes |
| `ProfilerLists.ExchangeRetries` | common/src/diagnostic/profiler/profiler.c:98-102 | An exchange fails exactly when the tail is not the one read, or spuriously, and then goes on with the tail it found |
| `ProfilerLists.RunKeeps` | common/src/diagnostic/profiler/profiler.c:72-130 | That invariant holds all along a run exactly when each step that adds one to the stop value finds the pool unused |
| `ProfilerLists.FewSamples` | common/src/diagnostic/profiler/profiler.c:80-90 | Runs that take fewer samples than the pool holds are such runs |
| `ProfilerLists.WalkIsPrefix` | common/src/diagnostic/profiler/profiler.c:185-203 | A walk from a function's head ends and gives a prefix of its samples in the order of the tail exchanges; all of them unless one of its hooks is about to link |
| `ProfilerLists.WalkWhileRunning` | common/src/diagnostic/profiler/profiler.c:172-203 | However the reads of a walk interleave with the steps of hooks still running after the stop, the samples met are the first of the list in its order, and all that were linked when the walk began once it has ended |
| `ProfilerLists.WalkProgress` | common/src/diagnostic/profiler/profiler.c:185-203 | Each read takes such a walk one sample on until it ends, so that with one read more than the list then has samples it has ended and met all that were linked when it began |
| `ProfilerLists.WalkLeavesHooks` | common/src/diagnostic/profiler/profiler.c:185-203 | The walk changes nothing for the hooks |
| `ProfilerLists.SamplesApart` | common/src/diagnostic/profiler/profiler.c:72-109 | No sample is in two places of a list or in two lists |
| `ProfilerLists.EveryRun` | common/src/diagnostic/profiler/profiler.c:72-109 | The walk property over every such run from the start, for any number of functions and hooks |
| `ProfilerLists.WrapMakesLoop` | common/src/diagnostic/profiler/profiler.c:80-90 | The counterexample: a hook that looked before profiling was stopped starts the pool over, sample 0 is linked to itself and the walk never ends |
| `ProfilerLists.WrapWalks` | common/src/diagnostic/profiler/profiler.c:80-90 | Right after a step that adds one to the stop value every walk is empty: complete exactly for lists that are empty or about to be linked to |
| `ProfilerLists.WrapHarms` | common/src/diagnostic/profiler/profiler.c:80-109 | After any harmless run such a step finds the pool unused exactly when no run after it, short of another such step, puts a sample in two places |
| `ProfilerLists.RestartKeeps` | common/src/diagnostic/profiler/profiler.c:142-157 | Starting over keeps the lists exactly when no hook holds a sample; hooks that have only looked do no harm |
| `ProfilerLists.RestartIs` | common/src/diagnostic/profiler/profiler.c:142-157 | Only while profiling is off: every list empty, the samples below the dirty count zeroed, or all of them when that is 0 or not below their number, the others as they were |
| `ProfilerLists.ResetLists` | common/src/diagnostic/profiler/profiler.c:145-148 | Empties every list |
| `ProfilerLists.FunctionStats` | common/src/diagnostic/profiler/profiler.c:168-215 | Count, 64-bit total, least and greatest duration, first and last timestamp are those of the samples of the list that count; the report holds the low 32 bits of least, greatest and average |
| `ProfilerLists.OneSample` | common/src/diagnostic/profiler/profiler.c:188-199 | A sample counts exactly when both timestamps are set and in order, for the time between them |
| `ProfilerLists.CountedJoins` | common/src/diagnostic/profiler/profiler.c:185-203 | What counts of two lists one behind the other is what counts of each, in order, and the times add up |
| `ProfilerLists.ReportExact` | common/src/diagnostic/profiler/profiler.c:206-215 | The report gives the true least, greatest and average duration exactly when the greatest fits 32 bits |
| `PerfectHash.WithBitSets` | common/src/diagnostic/profiler/profiler.c:28-29 | Setting a bit of the bitmap sets that bit and no other |
| `PerfectHash.SlotIs32` | common/src/diagnostic/profiler/profiler.c:39-57 | The slot of a 32-bit address, bit by bit: exclusive or with the seed, three folds by 16, 13 and 16 places, two multiplications by the constants, cut to the size of the map |
| `PerfectHash.SlotIs64` | common/src/diagnostic/profiler/profiler.c:39-57 | The slot of a 64-bit address likewise, with folds by 33 places |
| `PerfectHash.BitsDecide` | common/src/diagnostic/profiler/profiler.c:39-57 | Those bits leave no choice: numbers with the same bits are equal |
| `PerfectHash.MapSizeIs` | common/src/diagnostic/profiler/profiler.c:22 | The map has the least power of two of slots, from two on, that gives each function four |
| `PerfectHash.Profiler.TrySeed` | common/src/diagnostic/profiler/profiler.c:224-234 | Gives the seed exactly when no two functions share a slot |
| `PerfectHash.Profiler.FindPerfectSeed` | common/src/diagnostic/profiler/profiler.c:236-243 | Gives the least such seed below 10000, and fails exactly when there is none |
| `PerfectHash.Profiler.InitProfiler` | common/src/diagnostic/profiler/profiler.c:245-264 | Builds the tables with that seed |
| `PerfectHash.Profiler.GetFuncNodeIndex` | common/src/diagnostic/profiler/profiler.c:59-70 | For every address: i exactly when it is function i of the list, -1 exactly when it is none |
| `NameIndex.CliHash` | common/src/cli/cli_system.c:1237-1249 | Computes the hash of `NameIndex.HashIs` |
| `NameIndex.HashIs` | common/src/cli/cli_system.c:1237-1249 | The hash is 5381 * 33^n + c1 * 33^(n-1) + ... + cn modulo 2^32 over the bytes, small letters counted as capital ones |
| `NameIndex.HashFoldsCase` | common/src/cli/cli_system.c:1242-1246 | Names whose bytes agree, or are the same letter once small and once capital, have the same hash |
| `NameIndex.RestFinds` | common/src/cli/cli_system.c:1318-1325 | Probing from the home slot finds a hash exactly when some slot has it |
| `NameIndex.InsertKeeps` | common/src/cli/cli_system.c:1251-1275 | An insertion keeps every hash findable and every slot on the newest entry with its hash exactly when its table position held no newest entry with another hash |
| `NameIndex.InsertLoses` | common/src/cli/cli_system.c:1264-1275 | Otherwise a name is lost: its entry is the newest with its hash, and no slot has that hash any more |
| `NameIndex.HasRoom` | common/src/cli/cli_system.c:83-91 | A map of at least two slots for each table entry always has an empty slot |
| `NameIndex.Answer` | common/src/cli/cli_system.c:1315-1327 | Where probing rests gives what linear search of the insertions, newest first, gives |
| `NameIndex.NameMap.DoInsert` | common/src/cli/cli_system.c:1251-1262 | Ends, and writes the position into the slot where probing rests |
| `NameIndex.NameMap.Insert` | common/src/cli/cli_system.c:1264-1275 | Writes the entry and the slot where probing comes to rest, and adds the entry to the history; the index stays valid exactly when the position held no newest entry with another hash, and otherwise such a name is lost |
| `NameIndex.NameMap.Find` | common/src/cli/cli_system.c:1315-1327 | For every token: the number of the newest entry with its hash, or -1 |
| `NameIndex.VariantFound` | common/src/cli/cli_system.c:1251-1327 | A name just entered is found by every variant of it in other case, and its number is the answer |
| `NameIndex.NameTables.InsertName` | common/src/cli/cli_system.c:1264-1289 | Enters the name in the table of its type, with the same exact condition; any other type is refused |
| `NameIndex.NameTables.FindNameId` | common/src/cli/cli_system.c:1291-1328 | The same answer per type, -1 for any other type |
| `Gpio.Block.SetOutPin` | src/drivers/gpio/gpio.c:76-87 | Sets that output and no other |
| `Gpio.Block.ClearOutPin` | src/drivers/gpio/gpio.c:92-103 | Clears that output and no other |
| `Gpio.Block.ClearInterrupt` | src/drivers/gpio/gpio.c:187-198 | The named status bit is clear afterwards |
| `Gpio.Block.WdtSetup` | src/drivers/gpio/gpio.c:277-289 | Starts the watchdog at its reload value |
| `Gpio.Block.WdtKick` | src/drivers/gpio/gpio.c:294-304 | Restarts the timer from the reload value when the watchdog is on |
| `Gpio.ResetIs` | src/drivers/gpio/gpio.c:222-254 | A reset makes every pin an input, disables and forgets all interrupts and stops the watchdog; the outputs stay |
| `Gpio.WatchdogIs` | src/drivers/gpio/gpio.c:277-289 | Below 255 the reload value is the timeout without prescaling; from 255 on the low byte of a tenth of it with prescaling |
| `SimConfig.SetCfgKeeps` | port/freertos_sim.c:346-485 | Packets keep every parameter that was set in its range, and all of them once the simulation runs |
| `SimConfig.PhysicsInRange` | port/freertos_sim.c:279-344 | Whatever packets come before and after the start, all physics parameters are in range; both divisors are non-zero |
| `SimConfig.StartThresholdsInRange` | port/freertos_sim.c:279-290 | After the first start the thresholds are in range exactly when cooldown and hysteresis were both set before it or neither was |
| `SimConfig.ThresholdsStay` | port/freertos_sim.c:431-466 | Thresholds in range stay in range |
| `SimConfig.OneThresholdAlone` | port/freertos_sim.c:279-290 | Packets that give only a cooldown temperature, or only a hysteresis: it is ignored and the other one starts at zero |
| `SimConfig.StartMeans` | port/freertos_sim.c:279-322 | The start on its numbers: 10, 4000, 20, 25000 for ramp, power, latency and ambient not given; mass and conductance not given fit the others; 125, 180, 50, 10 for the thresholds, the last two under each other's bit; nothing else changes |
| `SimConfig.HeaderBits` | port/freertos_sim.c:351-476 | The header's bits 1 to 6 are those of the number |
| `SimConfig.FirstPacketMeans` | port/freertos_sim.c:351-417 | A first packet alone: each field is taken over and marked exactly when present and in range; a ramp or power given sets a mass not given to their product over 100 within 200 to 1000, and a conductance not given to 4000 plus 20 times the mass within 5000 to 15000; the rest stays |
| `SimConfig.FirstReportMeans` | port/freertos_sim.c:346-417 | Bits 1 to 4 of the result are set exactly for the fields of the first packet present and out of range; no bit outside the two packets' is ever set; no packet gives -1 |
| `SimConfig.FirstOfTwoMeans` | port/freertos_sim.c:419-485 | With a second packet the first comes out as alone, and then a running simulation derives a mass and a conductance that were never given; the marks of the second packet's fields |
| `SimConfig.SecondPacketMeans` | port/freertos_sim.c:419-476 | A field of the second packet is taken over exactly when present and in range; a ramp below 4 then limits the latency of a running simulation to 10 |
| `SimConfig.ReportMeans` | port/freertos_sim.c:419-476 | A bit of the result is set exactly when its field of the second packet is present and out of range |
| `SimConfig.Settings.SetSimCfg` | port/freertos_sim.c:346-485 | The update of a packet sequence and the mask of refused fields |
| `SimConfig.Settings.Initialise` | port/freertos_sim.c:279-322 | Defaults for what was not set, then the derived parameters |
| `Thermal.TickReading` | port/freertos_sim.c:696-718 | After a tick the temperature is between ambient and 215000 even when the 16-bit sums wrap, and the controller decodes exactly its whole degrees, the fraction dropped towards zero |
| `Thermal.EnergyBalance` | port/freertos_sim.c:682-707 | The temperature of a tick from the raw sums: heater power, one and a half times it for Fan 1, four times for Fan 2, degrees over conductance; the balance brought into 16 bits, over the mass, fractions dropped towards zero, within the limits |
| `Thermal.TickUnits` | port/freertos_sim.c:674-684 | Fan 1 fails or recovers exactly when the counter reaches the latency after a positive multiple of 1024 cycles; the other units never |
| `Thermal.TickAlarm` | port/freertos_sim.c:720-761 | An alarm is latched exactly when hot, enabled and not pending; input bit, notification and counter follow as stated for each case |
| `Thermal.TickWatchdog` | port/freertos_sim.c:762-772 | An enabled watchdog counts down and at zero leaves only Fan 1 on |
| `Thermal.TickKeepsRest` | port/freertos_sim.c:670-773 | A tick leaves configuration, controller and the other registers alone |
| `Thermal.ControlIs` | port/freertos_sim.c:789-806 | The set-up leaves all pins inputs, only the alarm's interrupt enabled, none pending, the watchdog on with 150; outputs stay |
| `Thermal.StartAndStop` | port/freertos_sim.c:305-344 | Start and stop forget what the controller remembers and every failed unit and set the temperature to the ambient one; a stop leaves the registers alone |
| `Thermal.CoolsUnheated` | port/freertos_sim.c:686-707 | A chip that nothing heats does not get warmer, exactly when it is not below the ambient temperature and the cooling adds up to at most 2^15 or the sensor is at its limit |
| `Thermal.WrapsWithBothFans` | port/freertos_sim.c:690-697 | It adds up to more exactly when both fans run and work, and 5.5 times the heater power and the passive cooling exceed 2^15 |
| `Thermal.HeaterWarms` | port/freertos_sim.c:686-707 | With the fans off the heater does not let the chip cool |
| `Thermal.NormalMeans` | port/freertos_sim.c:619-634 | Heater on below target minus hysteresis, off from the target on, as before in between; Fan 1 more than three degrees above the target |
| `Thermal.CoolingWhen` | port/freertos_sim.c:576-617 | After a cycle an emergency is on exactly when the reading is not below the cooldown temperature and it was on or the reading is above the critical one; safety cooling, outside an emergency, exactly when it is not below and it was on or an alarm is seen: cooling ends exactly with a reading below the cooldown temperature |
| `Thermal.EmergencyOutputs` | port/freertos_sim.c:576-590 | In an emergency the heater goes off and Fan 2 on when it begins and then outputs stay; interrupts stay latched |
| `Thermal.SafetyOutputs` | port/freertos_sim.c:592-617 | In safety cooling the heater is off, Fan 1 on unless failed, Fan 2 as it was; interrupts stay latched |
| `Thermal.NormalOutputs` | port/freertos_sim.c:564-635 | After a cycle that leaves nothing cooling: interrupts cleared and highest reading restarted when it ended safety cooling or met an alarm, Fan 2 off when it ended an emergency, heater and Fan 1 by reading, target and hysteresis |
| `Thermal.CycleKeepsRest` | port/freertos_sim.c:564-635 | A cycle counts itself, feeds the watchdog and otherwise changes only outputs, latched interrupts and what the controller remembers |
| `Thermal.TickCounter` | port/freertos_sim.c:726-761 | After a tick the counter is below the latency, and it returns to zero only with a notification |
| `ThermalRuns.InterlockHolds` | port/freertos_sim.c:564-635 | Over every run from the first start: heater and a fan never together, heater off in emergency and safety cooling, Fan 2 only in an emergency |
| `ThermalRuns.OffUntilCool` | port/freertos_sim.c:576-617 | Once cooling has started the heater stays off until a cycle reads below the cooldown temperature |
| `ThermalRuns.AlarmStartsCooling` | port/freertos_sim.c:576-617 | An alarm or a critical reading starts cooling |
| `ThermalRuns.SuspendBreaksInterlock` | port/freertos_sim.c:243-252 | After a stop the interlock holds exactly when Fan 2 was off |
| `ThermalWitness.FansHeat` | port/freertos_sim.c:664-718 | A run from a start and packets, with every notification served in time, that comes to an emergency in which both fans run, the heater is off and the chip gets warmer |
| `ThermalWitness.StopBreaksInterlock` | port/freertos_sim.c:243-252 | In that run a stop leaves Fan 2 on without an emergency |
| `ThermalRuns.EveryTick` | port/freertos_sim.c:668-773 | Reading, bounds and counter after every tick of every run |
| `ThermalRuns.FedStep` | port/freertos_sim.c:752-772 | Each step keeps the timer above the reload value less the ticks counted |
| `ThermalRuns.WatchdogNeverFires` | port/freertos_sim.c:762-772 | While notifications are served before the next tick the timer never falls below 100 and no tick forces the outputs |
| `ThermalTasks.Simulation.RunTemperatureRegulation` | port/freertos_sim.c:564-635 | One regulation cycle as the state change that the lemmas on `Thermal.Cycle` characterise |
| `ThermalTasks.Simulation.ControlCycle` | port/freertos_sim.c:812-816 | Regulation, then the watchdog kick |
| `ThermalTasks.Simulation.StartControl` | port/freertos_sim.c:789-806 | The GPIO block as the control task sets it up, watchdog at 150 |
| `ThermalTasks.Simulation.HardwareTick` | port/freertos_sim.c:670-772 | One tick as the state change that the lemmas on `Thermal.Ticked` characterise, and whether it notified |
| `ThermalTasks.Simulation.Physics` | port/freertos_sim.c:678-707 | The new temperature from heater, fans and passive cooling |
| `PauseHandshake.NextKeeps` | port/freertos_sim.c:254-277 | Each read and write of the mode word keeps: acknowledged means not in the tick body |
| `PauseHandshake.PausedMeansNoTick` | port/freertos_sim.c:254-270 | From the return of an acknowledged pause to the next pause or resume the hardware task is not in its tick body |
| `PauseHandshake.PauseIsAcknowledged` | port/freertos_sim.c:654-668 | Wherever the task stands, also between its two checks, it acknowledges within four steps, and the caller's next step returns |
| `PauseHandshake.PauseReturns` | port/freertos_sim.c:254-270 | A pause of a running simulation, however its steps mix with the task's, has not returned before the acknowledgement is in the mode word |
| `PauseHandshake.ResumeReturns` | port/freertos_sim.c:272-277 | A resume ends the pause with its second step and not before, however the steps mix; then a task that is not suspended is in its tick body within three steps |
| `PauseHandshake.SuspendedStands` | port/freertos_sim.c:233-252 | A suspended task does not move and acknowledges nothing until the next start |
| `PauseHandshake.PauseIsKept` | port/freertos_sim.c:254-270 | A pause that has returned keeps the task out of its tick body until the next pause or resume exactly when the mode word then holds the acknowledgement |
| `PauseHandshake.SuspendedPauseIsNotKept` | port/freertos_sim.c:256-257 | A pause that returns because the simulation is suspended, and is not kept |
| `Timestamp.CallTracks` | port/arm/cortex-m/time.c:96-99 | A call keeps the total true exactly when its reading is less than 2^32 cycles ahead of the last one, whichever of the two is older |
| `Timestamp.NestedCallJumps` | port/arm/cortex-m/time.c:94-98 | A call interrupted by another between reading and update moves the total ahead by 2^32, whatever the two readings |
| `Timestamp.NestedFromStart` | port/arm/cortex-m/time.c:79-98 | So it does after every start |
| `Timestamp.TotalIsTrue` | port/arm/cortex-m/time.c:91-100 | Over any number of such calls the total is the true count, however often the counter wraps |
| `Timestamp.MicrosTrue` | port/arm/cortex-m/time.c:101 | The 64-bit product loses nothing exactly while it is below 2^64 |
| `Timestamp.WithinBounds` | port/arm/cortex-m/time.c:79-101 | Then the value lies within (E - T / 2^32 - 1, E], E the true microseconds and T the cycles |
| `Timestamp.CallIsExact` | port/arm/cortex-m/time.c:91-103 | A call returns the microseconds since the start exactly when the product has gone through a multiple of 2^32 turns of 2^64 since; on a clock of 1 MHz or more exactly while it is below 2^64 |
| `Timestamp.NextNotBack` | port/arm/cortex-m/time.c:91-108 | The next call returns no earlier time exactly when the microseconds since the start stay in their turn of 2^32; so does the 48-bit form |
| `Timestamp.NeverBack` | port/arm/cortex-m/time.c:91-103 | Over a run of calls less than 2^32 cycles apart on a clock of 1 MHz or more, results never go back exactly when the first and the last call fall into the same turn of 2^32 microseconds since the start |
| `Timestamp.RegularGoesBack` | port/arm/cortex-m/time.c:91-103 | On every clock from 1 MHz to 500 THz a run of regular calls on which a result goes back |
| `Timestamp.ReturnsOne` | port/arm/cortex-m/time.c:91-103 | On a clock of 1 MHz three calls of which the last two return 0xFFFFFFFE and 1 |
| `Timestamp.Timer.GetTimestamp` | port/arm/cortex-m/time.c:91-103 | The update and the value returned |
| `Timestamp.Timer.GetTimestamp48` | port/arm/cortex-m/time.c:105-108 | The low 48 bits of that value, also when it does not fit |
| `Timestamp.LowBitsAre` | port/arm/cortex-m/time.c:91-108 | Over a run of spaced calls those are the microseconds since the start within their turn of 2^32, and 2^48 - 2^32 more once the value has gone past 2^32 |

## Left out

Log:
- LogRings.LogRing.Dispatch: no other writer and no flush runs at the same time, so exchanges succeed; a tail that is not sealed (lines 343-349) does not occur, and vsnprintf is a parameter that gives any length and bytes.
- LogRings.LogRing.Flush: no writer runs at the same time, so the re-reads of the tail and the recovery of lines 428-458 do not occur.
- LogRings.LogRing.MakeRoom: one caller, so no exchange fails, and the branch for a tail that is not sealed (lines 343-349) does not occur; `LogWriters` models both.
- LogWriters.RunKeeps: the record bytes that a writer reads are arbitrary, and what it then writes into the buffer is not followed; words have 32 bits, as on the ARM targets.
- LogRuns.DeliveredFaithfully: the two words in front of the ring (`pad1`, `guard_start`) are not modelled; nothing reads or writes them.
- Log levels, the entity filters and the formatting of messages.

PCI:
- PciTopology.ScanExact: secondary buses are assumed distinct among all visible bridges that lead on.
- PciAlloc.RemapsAddress: capabilities are assumed to lie at or above offset 0x40, as the standard requires, devices to be distinct, and the upper half of a 64-bit BAR to be recorded as absent, as `PciConfig.Records64` shows it is.
- PciCapabilities.MsiSets: the capability lies at a 4-aligned offset, as the standard requires; what an unaligned access to configuration space does is up to the platform.
- The platform's answer to the request for an interrupt vector is a parameter; the platform code is not part of this model.
- The configuration space of a function changes only by the writes modelled; ports without PCI, the printed messages and the device dumps are left out.

Profiler:
- ProfilerLists.EveryRun: a run ends where prof_start is called; `ProfilerLists.RestartKeeps` says when a new one may begin.
- ProfilerLists.FunctionStats: one function; the code takes its functions one after the other into the caller's buffer.

Command line:
- NameIndex.NameMap.Insert: after an insertion that loses a name nothing is promised about later calls; cli_log_cmd_init makes no such insertion.
- Menus, help, completion, tokenizer and command dispatch.

Thermal simulation and clock:
- ThermalRuns.InterlockHolds: runs go from the first start to the next stop; the stop is `ThermalRuns.SuspendBreaksInterlock`.
- Thermal.TickReading: control cycles and ticks are atomic with respect to each other; the tick's delay is not modelled.
- Gpio.Block.ClearInterrupt: in the simulated block the status register loses every bit; only the named bit matters here.
- PauseHandshake.PausedMeansNoTick: one task calls pause, resume, suspend and start, one call at a time.
- Timestamp.NeverBack: the cycle total stays below 2^64, which at 168 MHz is some 3,000 years; slower clocks than 1 MHz are in `Timestamp.NextNotBack`.
- Timestamp.Timer.GetTimestamp: the counter reading is a parameter; the sensor packets read back by get_sim_cfg are left out.
- The set and clear registers of the GPIO block, which nothing reads, and pin polarity and type.

Everywhere:
- Memory is sequentially consistent; weak memory orders are not modelled.
- UART, interrupt controllers, start-up and fault code, other ports' timers, and third-party code.
