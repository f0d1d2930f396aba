# MikOS verification

This project models the parts of MikOS, a small single-machine operating system
written in C++, whose correctness depends on state kept over many steps, and
proves what they are for.

- **TCP.** `TcpReceive` is the receive half of the socket table: buffer,
  out-of-order queue, 32-bit wrapping sequence numbers. `TcpSend` and `TcpStack`
  are the send half: retransmission queue, windows, FIN, the close state machine
  of section 3.3.2 of RFC 9293. `TcpHost` joins the halves into the operations of
  the network stack, `TcpEndToEnd` follows whole runs of one machine and of two,
  and `TcpWire` is the frame format with its checksums.
- **FAT32.** `Fat32Disk` relates the bytes of the device to file allocation
  tables and clusters, `Fat32Chains` allocates and frees chains, `Fat32Files`
  reads, writes and truncates files, `LongNames` writes and reads long names.
- **ext4.** `Ext4Bitmaps` and `Ext4Volume` are block allocation over the bitmap
  blocks, group descriptors and superblock, `Ext4Extents` the extent map,
  `Ext4Shapes` what each call does to a file, blocks lost to a failed growth
  included, `Ext4Files` the calls themselves, `Ext4Runs` runs of them,
  `Ext4Records` and `Ext4Directory` directories. `FileRuns` says what a run of calls on several files means for both file
  systems, `SectorCache` is the one-sector cache below them.
- **Memory.** `Arena` is the heap with block headers, `SnapshotArena` the table
  of free extents for fork snapshots; both stand on `BlockList`.
- **Processes.** `Descriptors` is fork and exit over a stack of suspended
  parents that share pipes and terminals, `Processes` the process table,
  `Terminal` the ring buffer and the output side of a pseudo terminal.

Code that updates tables and buffers in place is a class with arrays or fields
and methods; each method is proved against a specification on values. Sequence
numbers, offsets in streams and the owners of blocks that the program does not
store are ghost state. I/O, clocks, the driver's answers and the congestion
window are parameters of events, so that every theorem about a run holds for
whatever they are.

`dafny verify dfyconfig.toml` checks the whole project.

## Findings

Three properties that the code does not have, each with an input that shows it
and the exact condition under which it does:

- A long name that contains U+FFFF does not survive: the reader takes the unit
  0xFFFF for padding. `LongNames.RoundTrip` proves that a name is read back as it
  was written if and only if none of its UTF-16 units is 0xFFFF, and
  `LongNames.PaddingExample` gives such a name and what is read instead.
- An ext4 growth that runs out of space keeps the blocks it got without changing
  the size, and the next growth starts again from the size: it maps positions
  that are mapped already, and no lookup finds those blocks or any behind them.
  `Ext4Runs.UnsafeExample` is such a run: on a volume with one free block a new
  file asks for two and fails, another file gives up its two blocks, the first
  one is extended to two blocks with success, and its last byte cannot be read.
  `Ext4Extents.LostExample` is the extent list of that run.
  `Ext4Files.GrowthMaps` proves that after a growth that got all its blocks every
  position below the new size is mapped if and only if the file had exactly the
  blocks its size needs or the new size fits in those it had;
  `Ext4Shapes.SafeExactly` says the same of the whole call: it does what it
  reports if and only if that holds. `Ext4Files.TidyBySectors` ties the first half
  to the sector count in the inode, so a caller can check it before the call. While
  it holds, files are plain byte sequences (`Ext4Runs.Run`), and it goes on holding
  until a growth runs out of space with a part of its blocks (`Ext4Runs.TidyRun`).
- Process 1 can sleep in wait() beside a zombie that the call would have reaped:
  a process that exits hands its zombie children to process 1 without waking it.
  `Processes.StrandedExample` is such a run: 1 starts 2, 2 starts 3, 3 starts 4; 4
  exits, 1 waits for any child, 3 exits. `Processes.Run` proves that no other
  process ever does so, and that process 1 never does so if and only if no exit in
  the run is by a process that is not a child of process 1 and has a zombie child
  that the wait() of process 1 selects.

## Model

| member | source | states |
|---|---|---|
| TcpReceive.Run | include/mikos/net/socket.hpp:396-495 | for every run of arrivals, reads and changes of connection state on all sockets, arrivals in any order, repeated, overlapping or lost: what was read followed by the buffer is a prefix of the peer's stream, `receive_next` is the first sequence number plus that length (plus one for the FIN) modulo 2^32, and end of file is reported only after the whole stream was read |
| TcpReceive.SocketTable.Receive | include/mikos/net/socket.hpp:396-448 | what one segment does, for every error and every position: nothing if it holds nothing new inside the window, one new queue entry trimmed to the window if it lies ahead, otherwise everything up to the first byte still missing goes to the buffer; other sockets and their queue entries stay as they are |
| TcpReceive.SocketTable.StoreReassembly | include/mikos/net/socket.hpp:617-637 | an out-of-order segment takes the first free entry unless its sequence number is queued already, and fails exactly when it is longer than an entry or all sixteen are taken |
| TcpReceive.SocketTable.SelectQueued | include/mikos/net/socket.hpp:647-664 | of the entries that reach back to the receive position the one that starts last is selected; none is selected only if every entry lies ahead |
| TcpReceive.SocketTable.DrainReassembly | include/mikos/net/socket.hpp:639-687 | draining ends with exactly the entries that lie ahead of the new position, and the buffer is the stream up to that position |
| TcpReceive.QueuedInsideWindow | include/mikos/net/socket.hpp:424-434 | in every reachable table each queued segment starts strictly after `receive_next` and ends inside the free buffer space |
| TcpReceive.SocketTable.Read | include/mikos/net/socket.hpp:469-495 | every answer of a read; the bytes taken are the front of the buffer and the receive position does not move |
| TcpReceive.AppendedMatches | include/mikos/net/socket.hpp:450-467 | appending the slice at the receive position keeps the buffer equal to the stream and advances by exactly what fits |
| TcpReceive.SocketTable.BeginConnection | include/mikos/net/socket.hpp:315-353 | the first free slot becomes a connection that expects the byte after the SYN; nothing changes when there is none |
| TcpReceive.SocketTable.Establish | include/mikos/net/socket.hpp:355-372 | every answer, and the one change of state it allows |
| TcpSend.OldestIsQueued | network/stack.cpp:516-554 | whenever data is outstanding exactly one queue entry carries the sequence number `send_unacknowledged`, so a retransmission always has a candidate |
| TcpSend.FlightIsQueued | network/stack.cpp:294-381 | the queued bytes of a socket are exactly the bytes between what is acknowledged and what is written, at most 16 KiB |
| TcpSend.TileAcknowledge | network/stack.cpp:329-381 | trimming the queue by an acknowledgement leaves entries that tile the range still unacknowledged, without gap or overlap, with the application's own bytes |
| TcpStack.AcknowledgementInRange | network/stack.cpp:329-345 | an acknowledgement that passes the two signed 32-bit comparisons is a position between what is acknowledged and what was sent, and equals either end only if its number does |
| TcpStack.Stack.QueueTransmission | network/stack.cpp:294-321 | the segment joins the written stream if and only if the driver takes the frame and an entry is free; otherwise nothing changes |
| TcpStack.Stack.SendSpace | network/stack.cpp:323-327 | the smaller of the peer's window and the congestion window less what is in flight |
| TcpStack.Stack.Write | network/stack.cpp:131-171 | every answer of a write; the stream grows by exactly the bytes counted, each frame carries the stream's bytes at its own position, the flight stays inside both windows, and a short count means a refused frame or a full window |
| TcpStack.Stack.AcknowledgeTransmissions | network/stack.cpp:329-381 | the acknowledged position moves to the one the number stands for, never backwards, and the queue tiles the rest |
| TcpStack.Stack.FlushRetransmission | network/stack.cpp:516-554 | the entry sent again starts at the oldest unacknowledged byte of its connection; nothing is sent only if no entry that is due can be |
| TcpStack.SendFin | network/stack.cpp:430-446 | a FIN goes out only when every byte written is acknowledged, at the sequence number right after the last of them |
| TcpStack.RequestFin | network/stack.cpp:418-428 | closing the write side moves to last_ack or fin_wait_1 along an edge of the state diagram, once |
| TcpStack.Stack.AckFin | network/stack.cpp:730-743 | the acknowledged FIN moves along an edge of the diagram or frees the socket, and anything else leaves it alone |
| TcpStack.Stack.PeerFinished | include/mikos/net/socket.hpp:450-467 | the peer's FIN moves the state along an edge of the diagram and keeps it in agreement with the flags |
| TcpStack.Stack.Close | network/stack.cpp:76-97 | a close frees the socket exactly when nothing is left to say, otherwise it sends its FIN and leaves the socket to the transport |
| TcpStack.Stack.Abort | network/stack.cpp:405-416 | a failed connection keeps its failure and loses its queue entries |
| TcpHost.Host.Syn | include/mikos/net/socket.hpp:315-353 | a SYN opens a connection unless the port does not listen, the backlog is used up or no slot is free |
| TcpHost.Host.Accept | include/mikos/net/socket.hpp:374-394 | accept gives the first ready connection of the listener, and which error otherwise |
| TcpHost.Host.Segment | network/stack.cpp:683-757 | one segment moves both halves of a socket: acknowledgement, FIN of either side and data, in that order; the states of the halves still agree and no other socket changes |
| TcpHost.Host.CloseListener | include/mikos/net/socket.hpp:223-244 | closing a listener frees it and every connection waiting on it, and nothing else |
| TcpHost.Host.Close | network/stack.cpp:76-97 | both halves of a closed socket agree: freed together, or kept together until the FIN is through |
| TcpEndToEnd.Run | network/stack.cpp:574-757 | for every sequence of SYNs, segments, timers, driver refusals and application calls on all sockets of a machine: each frame ever sent carries its connection's written bytes at its sequence number, a FIN only after all of them were acknowledged; what each application read is a prefix of its peer's stream, all of it once end of file was reported; and the state of every socket agrees with its flags |
| TcpEndToEnd.Exchange | network/stack.cpp:131-171 | two machines: whatever frames of one, in any order, repeated or lost, arrive at the other, its application reads a prefix of what the first application wrote, and all of it once it sees end of file |
| TcpWire.RoundTrip | network/stack.cpp:233-292 | every frame that is built is accepted at its destination, with any padding behind it, and gives back ports, numbers, flags, window, options and payload |
| TcpWire.ChecksumVerifies | include/mikos/net/tcp.hpp:34-59 | a checksum written over a zero field makes the sum verify, for odd and even lengths |
| TcpWire.FoldIsResidue | include/mikos/net/tcp.hpp:43-48 | folding the carries is reduction modulo 65535, with 65535 in place of zero for a sum that is not zero |
| TcpWire.TcpChecksum | include/mikos/net/tcp.hpp:50-59 | the 32-bit running sums never overflow, so the result is the one's-complement sum over pseudo header and segment |
| TcpWire.BuildFrame | network/stack.cpp:233-292 | a frame is refused exactly when the payload does not fit, otherwise it is the layout that `RoundTrip` reads back |
| TcpWire.ParseTcp | include/mikos/net/tcp.hpp:130-173 | which frames are accepted, as a function of the bytes |
| TcpWire.ParseOptions | include/mikos/net/tcp.hpp:66-107 | the loop over the options agrees with the recursive reading of them, refusals included |
| Fat32Chains.Volume.WriteFatEntry | drivers/fs/fat32/fat32.hpp:1507-1540 | the entry changes in every copy of the table, or in the active one alone without mirroring; the reserved upper four bits of all entries stay, and no byte of the device changes outside the words of that cluster in those copies |
| Fat32Chains.Volume.AllocateCluster | drivers/fs/fat32/fat32.hpp:1542-1585 | fails exactly when no cluster is free; otherwise the first free one from the hint on, around the end, is taken and cleared, and an accurate free counter stays accurate |
| Fat32Chains.Volume.AllocateChain | drivers/fs/fat32/fat32.hpp:1587-1613 | fails exactly when fewer clusters are free than asked for, with every entry given its old value back; otherwise an acyclic chain of that many distinct clusters, all free before, and no other entry touched |
| Fat32Chains.Volume.FreeChain | drivers/fs/fat32/fat32.hpp:1615-1648 | frees exactly the clusters of the chain |
| Fat32Files.Read | drivers/fs/fat32/fat32.hpp:499-571 | a read is a slice of the file's content |
| Fat32Files.ZeroFileRange | drivers/fs/fat32/fat32.hpp:1413-1462 | exactly the named range of the file becomes zero |
| Fat32Files.Truncate | drivers/fs/fat32/fat32.hpp:579-709 | the content cut or padded with zeros, the clusters that fit the size, the directory entry rewritten; every error with its condition, and nothing in use changed by one |
| Fat32Files.Write | drivers/fs/fat32/fat32.hpp:716-772 | the old content, padded with zeros up to the offset and overlaid with the input; every error with its condition |
| Fat32Files.Run | drivers/fs/fat32/fat32.hpp:499-772 | any run of reads, writes and truncations on several files of a volume: the contents are those of plain byte sequences under the same calls, every read answered from them, no file changed by a call on another, chains disjoint, and an accurate free counter stays accurate |
| LongNames.RoundTrip | drivers/fs/fat32/fat32.hpp:83-143 | every accepted name, written as long-name records and read through the directory scan, comes back as the same UTF-8 bytes if and only if it has no unit 0xFFFF |
| LongNames.PaddingExample | drivers/fs/fat32/fat32.hpp:111-143 | a name with U+FFFF and the shorter name that is read instead |
| LongNames.DecodeUtf8Name | drivers/fs/fat32/fat32.hpp:1042-1094 | the UTF-16 units of a name, or a refusal: overlong forms, surrogates, forbidden characters and names that are too long |
| LongNames.WriteRecords | drivers/fs/fat32/fat32.hpp:1262-1312 | the bytes of the records that `RoundTrip` reads back, padding and terminator included |
| LongNames.DecodeLongName | drivers/fs/fat32/fat32.hpp:111-143 | the name collected from the records, or a refusal |
| Ext4Volume.Volume.AllocateBlock | drivers/fs/ext4/ext4.hpp:518-578 | fails exactly when every block is in use; otherwise the first free block is marked and cleared, and bitmap block, group descriptor, superblock and counter all say so |
| Ext4Volume.Volume.ReleaseBlock | drivers/fs/ext4/ext4.hpp:648-704 | which blocks are refused; otherwise the block is cleared and its bit, and the counts in descriptor and superblock go up by one |
| Ext4Volume.Rebook | drivers/fs/ext4/ext4.hpp:1513-1560 | changing one bit of one bitmap block with its two counts keeps the bytes of all bitmaps, descriptors and the superblock in agreement with the blocks in use |
| Ext4Extents.MapExtents | drivers/fs/ext4/ext4.hpp:1658-1750 | the walk over a root node gives the block, the hole or the damage that the list of extents says |
| Ext4Extents.AppendExtent | drivers/fs/ext4/ext4.hpp:1222-1262 | every error with its condition; otherwise the root's bytes decode to the extents with the new block and nothing else changed |
| Ext4Extents.AppendMaps | drivers/fs/ext4/ext4.hpp:1222-1262 | an append past all extents adds exactly that mapping and changes no other lookup |
| Ext4Extents.AppendNotPast | drivers/fs/ext4/ext4.hpp:1222-1262 | the appended block is found if and only if no extent reaches past its position |
| Ext4Extents.LostExample | drivers/fs/ext4/ext4.hpp:1222-1262 | a block appended where one is mapped, and one behind it: the first lookup gives the old block, the second is damage |
| Ext4Files.AppendFound | drivers/fs/ext4/ext4.hpp:1222-1262 | the same for a file without lost blocks: found if and only if the file has no more blocks than the position says |
| Ext4Files.LaidLookup | drivers/fs/ext4/ext4.hpp:1658-1750 | in every file this driver leaves behind, a position below the number of found blocks is mapped to its block, and every position behind is a hole, or damage once blocks were lost |
| Ext4Files.TidyBySectors | drivers/fs/ext4/ext4.hpp:1266-1284 | the file has exactly the blocks its size needs, each found at its position, if and only if the sector count of the inode is that of its size |
| Ext4Files.NewFile | drivers/fs/ext4/ext4.hpp:1168-1177 | a new inode is an empty file that owns no block and has no sectors |
| Ext4Files.Read | drivers/fs/ext4/ext4.hpp:440-508 | through any extent map of depth 0, each byte is the one its own block holds, however many blocks a transfer joins; corruption is reported exactly when a block in the range is damaged |
| Ext4Files.EnsureBlocks | drivers/fs/ext4/ext4.hpp:1266-1284 | for any file, also after failed growths: the blocks added are new, cleared and the file's own, as many as the two sizes differ by unless the volume or the root is full, the sector count follows, and no other block changes; on failure those already added stay |
| Ext4Files.GrowthMaps | drivers/fs/ext4/ext4.hpp:1266-1284 | after a growth that got all its blocks every position below the new size is mapped if and only if the file had exactly the blocks of its old size or the new size fits in those it had |
| Ext4Files.Write | drivers/fs/ext4/ext4.hpp:758-808 | for any file, also after failed growths: the input overlays the blocks that are found, padded with zeros up to the offset, and the size follows exactly when all of it found a block; every error with its condition; no block of another file changes and none leaks |
| Ext4Files.Truncate | drivers/fs/ext4/ext4.hpp:812-845 | for any file: emptied with all its blocks freed, the lost ones too, or extended by zeros; every error with its condition; no block of another file changes |
| Ext4Files.ReleaseFile | drivers/fs/ext4/ext4.hpp:1288-1309 | exactly the file's blocks become free and the counter grows by their number |
| Ext4Shapes.PlainStep | drivers/fs/ext4/ext4.hpp:440-845 | every call on a file, unless it is a growth that is not safe, does what it does to a plain byte sequence, failed calls included |
| Ext4Shapes.SafeExactly | drivers/fs/ext4/ext4.hpp:758-845 | a growth that does not run out of space leaves the file at its new size with the right bytes if and only if it is safe: the file has exactly the blocks of its size, or the new size fits in the blocks that are found |
| Ext4Shapes.UnsafeGrowth | drivers/fs/ext4/ext4.hpp:758-845 | a growth that is not safe: a write reports damage, an extension reports success and the last byte can never be read |
| Ext4Shapes.TidyStays | drivers/fs/ext4/ext4.hpp:758-845 | no call but a growth that got only a part of its blocks makes a file that has exactly the blocks of its size have others |
| Ext4Runs.Run | drivers/fs/ext4/ext4.hpp:440-845 | any run of reads, writes and truncations on several files, past calls that find no room: each call has exactly the effect of its step on its own file and none on another, blocks of different files stay disjoint and no block leaks; and if every growth is safe, contents and answers are those of plain byte sequences under the same calls |
| Ext4Runs.PlainRun | drivers/fs/ext4/ext4.hpp:440-845 | up to any call of a run: while every growth is safe the files are plain byte sequences |
| Ext4Runs.TidyRun | drivers/fs/ext4/ext4.hpp:440-845 | every growth of a run is safe as long as none ran out of space with a part of its blocks |
| Ext4Runs.UnsafeExample | drivers/fs/ext4/ext4.hpp:1266-1284 | a run of four calls whose third, an extension, succeeds and whose fourth, a read of the last byte, reports damage |
| Ext4Records.List | drivers/fs/ext4/ext4.hpp:293-375 | a block is accepted exactly when legal records tile it, and the live entries are listed in order |
| Ext4Records.InsertInto | drivers/fs/ext4/ext4.hpp:1313-1390 | a name finds no room exactly when no record has enough slack; otherwise the records still tile the block, one entry is added and the others keep their places |
| Ext4Records.Erase | drivers/fs/ext4/ext4.hpp:1440-1462 | the tiling stays and exactly the named entry goes |
| Ext4Directory.Lookup | drivers/fs/ext4/ext4.hpp:377-397 | an entry with the name, or none exactly when there is none in any block |
| Ext4Directory.Insert | drivers/fs/ext4/ext4.hpp:1313-1390 | the directory's entries become the old ones and exactly the new one; every error with its condition |
| Ext4Directory.EraseEntry | drivers/fs/ext4/ext4.hpp:1440-1462 | the directory's entries become the old ones without exactly that one |
| Ext4Directory.Move | drivers/fs/ext4/ext4.hpp:1014-1048 | a move within or between directories replaces exactly one entry; every error leaves both as they were |
| Ext4Directory.MoveRenames | drivers/fs/ext4/ext4.hpp:1014-1048 | after a move the inode has the new name and only that one if it had one before, names stay unique, and every other name is where it was |
| SectorCache.SectorReader.Read | drivers/storage/sector_reader.hpp:49-89 | a read equals the bytes of the device at that place, whatever the alignment, the cache state and the path; it fails exactly out of range or on a device fault |
| SectorCache.SectorReader.Write | drivers/storage/sector_reader.hpp:91-135 | a write overlays exactly its range and leaves the cache equal to the sector it names; on a fault nothing outside the touched sectors changes |
| Arena.Run | include/mikos/memory/arena.hpp:22-86 | after any run of allocations and releases the blocks tile the buffer, no two free blocks meet, each live range is aligned and past the header of its own block, the counters match, and one free block is left when nothing is live |
| Arena.LiveDisjoint | include/mikos/memory/arena.hpp:34-62 | two live ranges never overlap |
| Arena.Heap.TryAllocate | include/mikos/memory/arena.hpp:34-62 | first fit: refused exactly when no block can take the request |
| Arena.Heap.Release | include/mikos/memory/arena.hpp:64-86 | accepts exactly a live pointer or null, and only that range ends |
| SnapshotArena.Run | include/mikos/process/snapshot_arena.hpp:29-123 | any run of allocations and releases, foreign ranges included: no address is handed out twice, only addresses that are out are taken back, the table lists exactly the addresses that are not out, and is one extent when none is |
| SnapshotArena.Snapshots.Allocate | include/mikos/process/snapshot_arena.hpp:46-69 | first fit in the table: refused exactly when no extent is large enough |
| SnapshotArena.Snapshots.Release | include/mikos/process/snapshot_arena.hpp:71-123 | refused exactly for a malformed range or one that meets a free extent; what is handed out is never refused, and has room in the table while no more allocations are live than it has entries |
| SnapshotArena.Snapshots.Invariant | include/mikos/process/snapshot_arena.hpp:143-163 | the arena's own check holds in every reachable state |
| SnapshotArena.Complement | include/mikos/process/snapshot_arena.hpp:46-123 | an address of the range is free exactly when it is in nothing handed out |
| SnapshotArena.FewFree | include/mikos/process/snapshot_arena.hpp:71-123 | at most one free extent more than live allocations |
| SnapshotArena.FreeSorted | include/mikos/process/snapshot_arena.hpp:143-163 | free extents are in order and do not touch |
| SnapshotArena.AllReleased | include/mikos/process/snapshot_arena.hpp:71-123 | with nothing live one extent spans the arena |
| Descriptors.Run | kernel/syscall.cpp:336-484 | for every run of clone, exit, dup, pipe, terminal open, close, lock and session calls: each end's reference count equals the number of slots naming it in the active, parent and nested tables, and an exit gives the parent exactly the table it had at the fork |
| Descriptors.ExitRestores | kernel/syscall.cpp:722-732 | over a whole stretch between a fork and the matching exit, with any calls and nested forks in between, the parent's table is the one it forked with |
| Descriptors.Kernel.Clone | kernel/syscall.cpp:402-484 | every error with its condition; a failed clone changes no table and no count |
| Descriptors.Kernel.Exit | kernel/syscall.cpp:4259-4289 | the last suspended parent resumes with its own table |
| Descriptors.Kernel.StackAncestor | kernel/syscall.cpp:1094-1122 | a suspended parent moves to the nested stack unless that is full |
| Descriptors.Kernel.Reinstate | kernel/syscall.cpp:1124-1151 | the last nested parent comes back |
| Descriptors.Kernel.SaveParent | kernel/syscall.cpp:683-720 | the parent's table becomes a counted copy of the active one |
| Descriptors.Kernel.RestoreParent | kernel/syscall.cpp:722-732 | the active table is released and the parent's takes its place |
| Descriptors.Kernel.Close | kernel/syscall.cpp:1572-1593 | one slot empties and its end loses one reference |
| Descriptors.Kernel.Duplicate | kernel/syscall.cpp:1920-1980 | one slot names what another names; every error with its condition |
| Descriptors.Kernel.Pipe | kernel/syscall.cpp:1982-2020 | two free slots get the two ends of a new pipe, or nothing changes |
| Descriptors.Kernel.OpenTerminal | kernel/syscall.cpp:1495-1523 | a free slot gets a new master, or the first slave that is meant, whose end gains one reference; every error if and only if its condition holds, access refused exactly when that slave is locked |
| Descriptors.Kernel.SetLocked | include/mikos/process/pty.hpp:87-95 | the lock changes only through a live master |
| Descriptors.Kernel.Acquire | include/mikos/process/pty.hpp:291-307 | which session leader becomes the terminal's, and when it is refused |
| Processes.Run | include/mikos/process/model.hpp:125-275 | in every state of every run that does not end process 1: process ids are unique, each parent has a smaller id and is live, a vfork parent that lives is the parent, whoever sleeps has a live process to wake it, and nobody but process 1 sleeps in wait() beside a zombie the call would have reaped; process 1 never does so if and only if no call strands a zombie |
| Processes.StepQuiet | include/mikos/process/model.hpp:125-275 | the same for one call in any such state, the condition being one on the table before the call |
| Processes.StrandedExample | include/mikos/process/model.hpp:162-209 | six calls after which process 1 sleeps and has a zombie child |
| Processes.VforkChild | include/mikos/process/model.hpp:125-150 | a vfork_wait process has a live child that has not executed and will wake it |
| Processes.Rooted | include/mikos/process/model.hpp:334-356 | from every process the parents lead to process 1 |
| Processes.ProcessTable.Fork | include/mikos/process/model.hpp:125-150 | the new record in the first free slot and the parent's state; every error with its condition |
| Processes.ProcessTable.MarkExec | include/mikos/process/model.hpp:152-160 | the vfork parent wakes, once |
| Processes.ProcessTable.Exit | include/mikos/process/model.hpp:162-177 | the record becomes a zombie, its parent and vfork parent wake, its children go to process 1, or to nobody when process 1 itself exits |
| Processes.ProcessTable.Wait | include/mikos/process/model.hpp:179-209 | the zombie reaped is a child that matches; waiting or failing otherwise, as the table says |
| Processes.ProcessTable.Stop | include/mikos/process/model.hpp:257-264 | one live record stops |
| Processes.ProcessTable.Resume | include/mikos/process/model.hpp:266-275 | one stopped record runs again |
| Terminal.RingBuffer.Write | include/mikos/io/ring_buffer.hpp:18-25 | the queue grows by as much of the input as fits |
| Terminal.RingBuffer.Read | include/mikos/io/ring_buffer.hpp:27-35 | the front of the queue, and the queue is the rest |
| Terminal.Pty.SlaveWrite | include/mikos/process/pty.hpp:186-233 | whole expansions of a prefix of the input, as many as fit; every status with its condition |
| Terminal.Pty.MasterRead | include/mikos/process/pty.hpp:166-184 | the front of the queue; every status with its condition |
| Terminal.Run | include/mikos/process/pty.hpp:166-233 | any interleaving of writes in chunks with retries and master reads: what was delivered followed by what is queued is the CR-LF expansion of what was taken |
| Terminal.Deliver | include/mikos/process/pty.hpp:166-233 | writing until everything is taken delivers exactly the expansion of the whole input |

## Left out

- Ports, addresses and the match of a segment to its socket: an event names the socket. Reference counts of sockets: a close is the last owner's.
- TcpReceive.SocketTable.BeginConnection: takes the first free slot; listening port and backlog are decided before it, in `TcpHost.Host.Syn`.
- TcpReceive.SocketTable.Establish: whether the acknowledgement fits is an input; the comparison is in `TcpHost.Host.Establish`.
- Round-trip times, congestion control, timer periods, the rate limit and challenge ACKs: what they decide is an input. The retransmission of a SYN-ACK and pure ACK frames are not modelled.
- The window-update test on sequence and acknowledgement numbers: an event says whether the window is taken.
- Frame headers are modelled as bytes in network order; the in-memory layout of the structs is not.
- commit_fs_info: the FSInfo sector is not written by the model; the counter and hint it would hold are.
- Device faults under FAT32 and ext4: their device calls succeed; only the sector cache has faults.
- FAT32 directories: search, creation and removal of entries, short aliases and the mounted checks; the checksum of the alias is an input of the long name.
- Ext4Extents.MapExtents: the root holds the extents themselves; index nodes, which this driver reads but never writes, are not modelled.
- Ext4Files.Read: states nothing for extent nodes deeper than the root, nor for the older block maps.
- Ext4Volume.Volume.ReleaseBlock: not stated for a block that is metadata of another group than its own, which the code would accept.
- ext4 inodes: their bitmap, their place on the device, links beyond one, mkdir and remove. Bitmap blocks, descriptors, superblock and data blocks are separate parts of the device that do not overlap.
- Descriptors: sockets, the parking slots for background and interactive processes, and the memory snapshot, whose success is an input.
- Arena: the list of blocks is a sequence; the pointers inside the headers are not modelled.
- SectorCache: a sector is named by its byte address.
- Processes.Run: process 1 does not exit in it; afterwards its children have no parent and nothing is promised of the table.
- Processes: signals, set_process_group, create_session and the choice of the next process to run.
- Terminal: the input side (line discipline, echo, signals) and changes of the terminal modes.
- Hardware drivers, the shell, the loader and the boot path would only add members without state worth following.
