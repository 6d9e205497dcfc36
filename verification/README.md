# Trigger 6 display adapter: a verified model

A Dafny model of the three stateful parts of the Linux driver and controller for MCT Trigger 6 USB display adapters, with
proofs about whole files, whole runs and every interleaving.

- **The JPEG encoder** (`kernel/trigger6_codec.c`). Arrays, the output context and the nested loops are modelled
  imperatively and proved against pure specifications: a bit list for the scan, a list of segments for the header, a list of
  quantised blocks for the picture. A reader of ITU-T T.81 baseline files is written as pure functions, and the two are
  joined: what the encoder leaves in the buffer decodes to the picture's blocks, sizes, quantisers and tables. That needs
  arithmetic: the transform's sums are bounded tightly enough that no symbol outside the static Huffman tables can occur.
- **The frame pipeline** (`kernel/trigger6_drv.c`). The device is memory that consumes a byte stream of headers and
  payloads. Damage scanning, partial and full updates, the fault latch, the double-buffered pending slot, the idle-refresh
  timer against CRTC disable, the memory layout and the disconnect sequence are state machines or classes over it. The main
  results are that the incremental driver shows exactly what copying every frame would show, and that disable is quiet.
- **The fail-closed controller** (`control/controller.py`). The policy is a pure function; a tick and an operator command
  are sequences of events, so that a crash is any prefix; the host is an adversary that may refuse any call. Budgets, crash
  consistency, the one-failure rule, the sleep handshake and the timed module stop hold over whole runs.

## Reading order

| files | what they hold |
|---|---|
| `Bits`, `Wrappers`, `Errno` | shifts, bit lists, options, error numbers |
| `Huffman`, `StandardTables` | canonical tables (T.81 Annex C), greedy decoding, the static specifications |
| `BitWriter`, `Bytes` | the bounded output context, stuffing and its inverse |
| `Dct`, `Cosine` | transform and quantiser; that they compute the real cosine transform |
| `Pixels`, `Entropy`, `Scan`, `Placement` | block loaders, block coding and decoding, scan order, which pixel is coded where |
| `Segments`, `JpegFile`, `JpegEncoder` | header segments and their reader, whole files, the encoder's methods |
| `FaultLatch`, `UsbDevice` | the latch and teardown as a state machine, and the object whose methods are its steps |
| `Damage`, `Vram`, `RawHead`, `RawDriver` | dirty rows, device memory, the link as a state machine, the C functions |
| `TxSlots`, `FrameWork` | the pending slot, and the worker that joins it to the sender |
| `Dpms`, `Addressing` | timer, worker and CRTC interleaved; memory layout and the sends of the secondary head |
| `Policy`, `Controller`, `ControllerRuns`, `ControllerLaws` | policy, events, runs, what each tick and command leaves |
| `Daemon`, `StopModule` | the imperative controller, the timed stop |

## Conventions and findings

- C integers are mathematical integers, with width written out where it matters: `NoOverflow` bounds every 64-bit
  intermediate, the accumulator is 32 bits, `width * 4` wraps at 32 bits, the returned length is truncated to `int`, and
  SOF0 holds 16 bits of each size. After the last length of a full table the 16-bit running code of `t6_jpeg_build_huff` may
  wrap, but it is not used again; every code that is stored fits.
- `Cosine` speaks of real cosines through their laws: any function of the naturals with the value 1 at 0, 0 at 8, positive
  values before 8, and the addition law. The cosine of n pi / 16 is one, and the laws fix its values; the integer laws of the
  matrix beside them need no such function.
- Chains of `put_byte` calls are one method that stops at the first failure. Read-only tables are passed as values. The
  block buffers that the C code keeps in one stack frame are allocated in the methods that fill them.
- The encoder's caller owes a readable source and a destination that does not overlap it. `Image.Valid` says only that every
  pixel address, computed in 32 bits as the code does, is inside the source; `Pixels.Ordinary` says that ordinary pictures
  meet it without any wrap.
- Results of USB calls, and everything the controller's host reports or does, are chosen by an adversary. The waiting
  semantics of `timer_delete_sync` and `cancel_work_sync`, one connected head, and plane commits only on an active CRTC (the
  driver uses the runtime-PM commit tail) are built into `Dpms`. Flags read while another thread may change them may go
  either way there.
- Texts in the ledger are named constructors, except those taken over from an error. The latch is the truth value of a
  Python string, so an error with an empty text would not latch. `EmptyErrorReopens` gives the input, and
  `ClosedTickExactly`, `ClosedForever` and `TickCloses` say exactly when a ledger stays closed. Every `Refusal` raised in the
  controller has a text, and errors of the operating system carry their number, so no call in the file is known to produce
  that input: that errors have texts is an assumption about the host, which `OneFailure` states only where it is needed.
- The comment at `kernel/trigger6_drv.c:1523` says that the first ten frames are full frames; the branch does not test the
  frame counter, which only sets a flag. The model follows the branch.
- Ring buckets of consecutive JPEG commands can overlap after a wrap: `ConsecutiveOverlap` says exactly when and
  `OverlapHappens` gives a case.

## Model

| member | source | states |
|---|---|---|
| `Huffman.BuildHuff` | kernel/trigger6_codec.c:232-256 | the construction loop fills code and size tables equal to `TableOf`, the closed form in which a code is the scaled Kraft sum of the codes before it; no entry is overwritten |
| `Huffman.CodeInterval` | kernel/trigger6_codec.c:232-256 | each code, scaled to 16 bits, starts exactly where the previous codes end and stays inside the code space, so it fits its length |
| `Huffman.AnnexCOrder` | kernel/trigger6_codec.c:243-255 | consecutive codes obey T.81 Annex C: the next code is the previous one plus one, shifted left by the growth in length |
| `Huffman.FirstCodeIsZero` | kernel/trigger6_codec.c:237-253 | the first code of every table is all zeros |
| `Huffman.CanonicalPrefixFree` | kernel/trigger6_codec.c:232-256 | for every length histogram with Kraft sum at most 1 and distinct symbols, no code is a prefix of another |
| `Huffman.CanonicalFits` | kernel/trigger6_codec.c:30-33 | every table entry, present or missing, fits the size stored beside it |
| `Huffman.DecodeCode` | kernel/trigger6_codec.c:232-256 | greedy bit-by-bit decoding (T.81 Figure F.16) of a code followed by anything returns its symbol and exactly the rest |
| `StandardTables.Specifications` | kernel/trigger6_codec.c:95-165 | the four static specifications have Kraft sum below 1 and distinct symbols, and the AC ones hold EOB, ZRL and every run 0..15 of category 1..10 |
| `StandardTables.ZigzagPermutes` | kernel/trigger6_codec.c:51-60 | the zigzag table is a permutation of the 64 places with the stated inverse |
| `StandardTables.ZigzagWalks` | kernel/trigger6_codec.c:51-60 | the table is the zigzag walk of T.81 Figure 5, step by step |
| `StandardTables.BaseIsKraft` | kernel/trigger6_codec.c:95-165 | the recursive Kraft sum used for codes is the sum over lengths of count times share |
| `BitWriter.JpegCtx.PutByte` | kernel/trigger6_codec.c:172-181 | a byte is written exactly when there is room, the overflow flag is set exactly when there is not, and nothing past the buffer changes |
| `BitWriter.JpegCtx.PutScanByte` | kernel/trigger6_codec.c:194-201 | a scan byte is written with its stuffing zero, and fails exactly when the pair does not fit |
| `BitWriter.JpegCtx.PutBits` | kernel/trigger6_codec.c:203-221 | appending a code of at most 16 bits keeps output plus accumulator equal to the unbounded bit list, or proves that the scan written so far cannot fit |
| `BitWriter.JpegCtx.FlushBits` | kernel/trigger6_codec.c:223-230 | the last partial byte is padded with ones, and the output is then the stuffed bytes of the whole padded bit list |
| `Bytes.StuffHasNoMarker` | kernel/trigger6_codec.c:194-201 | in a stuffed scan every 0xFF is followed by 0x00 (T.81 section F.1.2.3) |
| `Bytes.UnstuffStuff` | kernel/trigger6_codec.c:194-201 | removing the stuffing up to the next marker returns exactly the scan bytes and what follows |
| `Bytes.BitsPack` | kernel/trigger6_codec.c:203-230 | packing a bit list into bytes loses nothing |
| `Bytes.TooLongForAll` | kernel/trigger6_codec.c:172-230 | if some prefix of a scan overruns the buffer, so does the whole stuffed scan |
| `Entropy.ValueBits` | kernel/trigger6_codec.c:306-328 | the loop computes the category of T.81 Table F.1 and the additional bits, negative values in one's complement |
| `Entropy.ExtendValueCode` | kernel/trigger6_codec.c:306-328 | EXTEND (T.81 Figure F.12) of the additional bits gives back the value |
| `Entropy.EncodeCoeffs` | kernel/trigger6_codec.c:410-451 | the coder appends exactly the bits of the block: DC difference, then run-length coded AC values; on overflow it has proved that the scan cannot fit |
| `Entropy.EncodeAc` | kernel/trigger6_codec.c:420-449 | the AC loop, with ZRL for runs of 16 and EOB only after trailing zeros, appends the AC bits |
| `Entropy.AcRoundTrip` | kernel/trigger6_codec.c:420-449 | the AC decoder of T.81 section F.2.2.2 returns the coefficients for every run structure, and exactly the rest of the bits |
| `Entropy.BlockRoundTrip` | kernel/trigger6_codec.c:396-452 | decoding a coded block with the same prediction returns exactly its 64 coefficients, when the DC difference has category at most 11 and AC values at most 10 |
| `Entropy.TableInverts` | kernel/trigger6_codec.c:415-431 | a prefix-free table is inverted by the decoder at every symbol that it holds |
| `Dct.PrecomputeQtable` | kernel/trigger6_codec.c:343-353 | the stored reciprocals are the rounded quotients 2^48 by 2^28 q |
| `Dct.FdctQuantize` | kernel/trigger6_codec.c:355-394 | the two in-place passes leave, at every place, the clamped quantised two-dimensional sum; `Cosine.CoefficientIsCosine` says what that is |
| `Dct.SeparableSum` | kernel/trigger6_codec.c:363-380 | two one-dimensional passes compute the plain two-dimensional sum over the 64 samples |
| `Dct.NearlyOrthonormal` | kernel/trigger6_codec.c:84-93 | the integer matrix is orthonormal at scale 2^28 up to 35336 |
| `Cosine.ProductToSum` | kernel/trigger6_codec.c:84-93 | the product of two rows is, to two units in the last place, the mean of the rows of the sum and the difference of their frequencies: what makes them cosines |
| `Cosine.FallingRow` | kernel/trigger6_codec.c:84-93 | the row of frequency 1 falls all the way, from positive to negative |
| `Cosine.CountsFrequency` | kernel/trigger6_codec.c:84-93 | row u starts positive and changes sign exactly u times |
| `Cosine.FlatRow` | kernel/trigger6_codec.c:84-93 | the row of frequency 0 is flat, at the root of a half |
| `Cosine.RowsAreCosines` | kernel/trigger6_codec.c:84-93 | every entry is within a half of 2^13 times the real cosine of T.81 section A.3.3, for any function that obeys the addition law of cosines |
| `Cosine.SumIsCosine` | kernel/trigger6_codec.c:355-380 | the two passes compute the real cosine transform of the block, to within a quarter of a level |
| `Cosine.CoefficientIsCosine` | kernel/trigger6_codec.c:355-394 | end to end: a coefficient times its step is the real cosine transform at its own frequencies, to within half a step, 2^-10 of a step, and a quarter |
| `Dct.SumBound` | kernel/trigger6_codec.c:363-380 | bounds of the transform sums for every sample block: the margin that the categories depend on |
| `Dct.CoeffRange` | kernel/trigger6_codec.c:382-391 | for every block and every quantiser 1..255 the clamp is never active, DC lies in [-1024, 1016] and every AC in [-1020, 1020] |
| `Dct.NoOverflow` | kernel/trigger6_codec.c:365-387 | no partial sum of either pass and no product before the shift leaves a signed 64-bit integer |
| `Dct.ReciprocalError` | kernel/trigger6_codec.c:330-353 | the multiply-shift is within 1/2 + 2^-10 of the exact quotient, for every reachable sum and quantiser |
| `Dct.ReciprocalRounds` | kernel/trigger6_codec.c:382-388 | it differs from exact round-to-nearest by at most one |
| `Dct.ReciprocalExact` | kernel/trigger6_codec.c:382-388 | it equals round-to-nearest when the quantiser is a power of two |
| `Pixels.BuildQtable` | kernel/trigger6_codec.c:288-304 | the scaled table is filled entry by entry with steps in 1..255 |
| `Pixels.LoadYBlock` | kernel/trigger6_codec.c:454-480 | the loop loads the 8 by 8 luma block with edge replication, never reading outside the picture; `Placement.PixelPlace` says which pixel lies where |
| `Pixels.LoadChromaBlock` | kernel/trigger6_codec.c:482-523 | the loops load both chroma blocks from rounded 2 by 2 means with edge replication |
| `Placement.PixelPlace` | kernel/trigger6_codec.c:465-477 | pixel (px, py) is coded at place 8 (py mod 8) + px mod 8 of luma block 2 (py/8 mod 2) + px/8 mod 2 of MCU (px/16, py/16); past the edge it is the nearest pixel |
| `Placement.LumaBlock` | kernel/trigger6_codec.c:678-700 | where each luma block lies in the unit list, and all 64 of its samples |
| `Placement.ColourBlocks` | kernel/trigger6_codec.c:482-523 | where the two colour blocks of an MCU lie, and that each sample is the colour of its own two by two pixels |
| `Placement.FileHoldsLuma` | kernel/trigger6_codec.c:632-739 | from a pixel to the file: what a reader finds in the block of a pixel is the real cosine transform of samples that hold its luma at its place, to within the quantiser |
| `Pixels.Ordinary` | kernel/trigger6_codec.c:454-470 | a picture whose rows hold its width and whose buffer holds its rows is readable, and below 4 GiB no address wraps |
| `Pixels.GreyIsNeutral` | kernel/trigger6_codec.c:474-477 | greys keep their brightness and carry no colour |
| `Pixels.ClampsExactly` | kernel/trigger6_codec.c:474-520 | clamping never changes luma, and changes chroma exactly for pure blue and pure red |
| `Pixels.JfifError` | kernel/trigger6_codec.c:474-520 | the integer colour weights stay within one level of the JFIF conversion, for every colour and all three components |
| `Pixels.AnnexKAtFifty` | kernel/trigger6_codec.c:288-304 | quality 50 reproduces the tables of T.81 Annex K |
| `Pixels.AnnexKInZigzag` | kernel/trigger6_codec.c:62-82 | quality 50 sends the quantiser lists of T.81 Annex K, in zigzag order |
| `Pixels.LowQuality` | kernel/trigger6_codec.c:288-304 | below 50 a step is the base step times 50 over the quality, up to two roundings and the ends of a byte |
| `Pixels.HighQuality` | kernel/trigger6_codec.c:288-304 | from 50 to 100 it falls in a straight line, to 1 |
| `Pixels.EndsOfQuality` | kernel/trigger6_codec.c:288-304 | quality 0 is taken as 1 and anything above 100 as 100 |
| `Pixels.QualityOrders` | kernel/trigger6_codec.c:288-304 | a higher quality never gives a coarser step, across both scaling branches and both clamps |
| `Scan.ScanRoundTrip` | kernel/trigger6_codec.c:396-452 | decoding the scan of any encodable list of blocks, with per-component prediction, returns exactly those blocks and the rest of the bits |
| `Scan.UnitComps` | kernel/trigger6_codec.c:678-726 | the picture's blocks come in the order of T.81 section A.2.3: four Y, Cb, Cr per MCU, row by row |
| `Scan.InRangeEncodable` | kernel/trigger6_codec.c:412-429 | coefficients in the transform's range have DC differences of category at most 11 and AC values of category at most 10 |
| `Scan.PictureEncodable` | kernel/trigger6_codec.c:678-726 | for every picture and all quantisers every block can be coded, so no symbol with a zero-length code is ever asked for |
| `Segments.StandardValid` | kernel/trigger6_codec.c:95-165 | the encoder's own specifications meet everything the theorems about files assume of one |
| `Segments.ParseAll` | kernel/trigger6_codec.c:525-630 | a reader of T.81 section B.2 segments sees exactly the segments written, and stops at the scan |
| `Segments.ReadDqt` | kernel/trigger6_codec.c:545-559 | a DQT segment gives back the quantiser table in natural order |
| `Segments.ReadDht` | kernel/trigger6_codec.c:572-618 | rebuilding codes from a DHT segment gives the very table the encoder used |
| `Segments.ReadSof0` | kernel/trigger6_codec.c:561-570 | SOF0 gives back the low 16 bits of both sizes and the 4:2:0 sampling factors |
| `Segments.HeaderRoundTrip` | kernel/trigger6_codec.c:525-630 | reading the whole header recovers sizes, both quantisers and all four Huffman tables |
| `JpegFile.FileRoundTrip` | kernel/trigger6_codec.c:632-739 | for every picture up to 65535 by 65535 and every quality, a complete reader (SOI, segments, scan, padding, EOI, nothing after) recovers sizes, quantisers, tables and every quantised block |
| `JpegFile.BlockCount` | kernel/trigger6_codec.c:678-726 | a file holds exactly six blocks for each of the ceil(w/16) ceil(h/16) MCUs, in order |
| `JpegFile.StartsAsJfif` | kernel/trigger6_codec.c:532-543 | every file starts with SOI and the JFIF segment |
| `JpegFile.SpecReady` | kernel/trigger6_codec.c:258-286 | tables built from valid specifications can code and decode every symbol the encoder asks for |
| `JpegEncoder.InitHuffTables` | kernel/trigger6_codec.c:258-286 | the four tables are built, and every code in them fits |
| `JpegEncoder.WriteHeaders` | kernel/trigger6_codec.c:525-630 | the headers are written exactly, or they do not fit |
| `JpegEncoder.EncodeBlock` | kernel/trigger6_codec.c:396-452 | transform and entropy coder together append the block's bits and return the new prediction |
| `JpegEncoder.EncodeMcu` | kernel/trigger6_codec.c:678-724 | one MCU appends its six blocks in order, or the prefix that overruns is identified |
| `JpegEncoder.EncodePicture` | kernel/trigger6_codec.c:678-726 | the nested loops code all MCUs row by row, or a prefix of them that no longer fits |
| `JpegEncoder.EncodeStream` | kernel/trigger6_codec.c:632-739 | the call succeeds exactly when the complete file fits, then leaves exactly that file, and writes nothing past the given size |
| `JpegEncoder.EncodeXrgb8888` | kernel/trigger6_codec.c:632-739 | -EINVAL exactly for refused arguments, -E2BIG exactly when the unbounded encoding is longer than the buffer, and otherwise the length with the whole file in the buffer; all it asks of accepted arguments is that every pixel address it computes, in 32 bits, is readable |
| `JpegEncoder.OutcomeDecodes` | kernel/trigger6_codec.c:632-739 | end to end: for buffers below 2 GiB a call returns a non-negative length exactly when the file fits, and the bytes it wrote decode to the picture's blocks |
| `Damage.FrameDamage.Compute` | kernel/trigger6_drv.c:1395-1435 | the row scan reports full frame exactly when there is no valid reference or there are more than 32 maximal dirty runs, and otherwise exactly those runs |
| `Damage.RunsExact` | kernel/trigger6_drv.c:1413-1434 | the runs are non-empty, in bounds, in order, separated by a clean row, and cover exactly the differing rows |
| `Damage.ExactUnique` | kernel/trigger6_drv.c:1413-1434 | only one list of runs has these properties, so the maximal dirty runs are well defined |
| `Vram.ConsumePacket` | kernel/trigger6.h:100-111 | the device reads back from the 32 header bytes the length and address that were put there, and writes the payload there |
| `Vram.ConsumeAll` | kernel/trigger6.h:100-111 | the memory after a byte stream of packets is the memory after the writes they stand for |
| `Vram.HeaderIsRead` | kernel/trigger6.h:99-110 | the 32 bytes before a payload hold its length twice, its address, and zeros |
| `Vram.FlipIsRead` | kernel/trigger6.h:112-127 | a flip header followed by anything is read back field by field |
| `Vram.PatchComplete` | kernel/trigger6_drv.c:1599-1613 | copying exactly the dirty rows over the reference gives the whole new frame |
| `Vram.FullUpdate` | kernel/trigger6_drv.c:1521-1546 | a full update leaves the frame in the pixel region, whatever was there |
| `Vram.PartialUpdate` | kernel/trigger6_drv.c:1480-1520 | a partial update does the same when the region held the reference the damage was computed against |
| `RawHead.SendShows` | kernel/trigger6_drv.c:1437-1638 | a completed send, partial or full, leaves exactly the submitted frame in VRAM |
| `RawHead.SkipShows` | kernel/trigger6_drv.c:1457-1464 | when nothing is dirty the submitted frame is already in VRAM |
| `RawHead.FullShape` | kernel/trigger6_drv.c:1521-1546 | a full update is one packet at head 0, flip header and whole frame; the header, read back, names the pixels after it and asks for a reset exactly in a young stream |
| `RawHead.PartialShape` | kernel/trigger6_drv.c:1480-1520 | a partial update is exactly the dirty rows, each at its place in the pixel region, and the flip header last |
| `RawHead.CounterCounts` | kernel/trigger6_drv.c:1614-1622 | in every run without a fault the frame counter counts the frames sent, so exactly the first ten ask for a reset |
| `RawHead.StepMirrors` | kernel/trigger6_drv.c:1437-1638 | sends, skips, replays, disable, writes elsewhere, transfer failures and faults all keep: while no fault is latched a valid reference equals the pixel region decoded from the byte stream |
| `RawHead.RunMirrors` | kernel/trigger6_drv.c:1437-1638 | the same over every run |
| `RawHead.SubmittedIsShown` | kernel/trigger6_drv.c:1437-1638 | after any send or skip that succeeded without a fault, VRAM holds the submitted frame: the incremental driver refines copying every frame |
| `UsbDevice.Device.BulkWrite` | kernel/trigger6_drv.c:1251-1314 | chunked writes: success means that every byte was taken, failure latches the fault or sent nothing, nothing is sent under the latch, and every chunk is a step of the latch machine |
| `RawDriver.Head.SendFrameRaw` | kernel/trigger6_drv.c:1437-1638 | the C function is a step of the link machine for every outcome of its transfers, and of the latch machine; success is recorded exactly when it returns 0 |
| `RawDriver.Head.SendPartial` | kernel/trigger6_drv.c:1480-1520 | the loop over dirty ranges sends exactly the row packets, then the flip header |
| `RawDriver.Head.UpdateReference` | kernel/trigger6_drv.c:1599-1613 | the reference frame becomes the sent frame, by ranges or whole, and is left alone by a replay |
| `RawDriver.Head.ComputeDamage` | kernel/trigger6_drv.c:1395-1435 | what the scan reports is what the send needs |
| `FrameWork.RawWorker.Work` | kernel/trigger6_drv.c:2350-2523 | a turn of the worker does nothing under the latch; hands a pending frame, unaltered, to the damage scan and the sender and gives it its fate; or else replays the last frame, exactly when asked to, eligible before and under the lock, and idle long enough, and then that frame is on the monitor |
| `FrameWork.RawWorker.SendPopped` | kernel/trigger6_drv.c:2383-2505 | a popped frame is sent or skipped, or dropped on a guard or a failure, which also trips the fault |
| `FrameWork.RawWorker.ScreenIsLastSent` | kernel/trigger6_drv.c:2350-2523 | while no fault is latched, the monitor shows the last staged frame that was sent or skipped |
| `FrameWork.RawWorker.Replay` | kernel/trigger6_drv.c:2450-2460 | the recheck under the lock: a replay that a disable or a newer send has overtaken sends nothing, and one that goes through shows the last sent frame |
| `FrameWork.RawWorker.GoDark` | kernel/trigger6_drv.c:2570-2590 | disable leaves no valid reference and no refresh eligible or due, and keeps the invariant |
| `FrameWork.RawWorker.Trip` | kernel/trigger6_drv.c:2262-2290 | the first trip drops the pending frame and latches the device; later trips change nothing |
| `TxSlots.RunSound` | kernel/trigger6_drv.c:957-988 | over every interleaving of producer and worker: every staged frame is held or has exactly one fate, and frames are handed to the sender, and sent, in strictly increasing order |
| `TxSlots.FateIsFinal` | kernel/trigger6_drv.c:2350-2523 | a frame's fate never changes and the list of sent frames only grows |
| `TxSlots.Conservation` | kernel/trigger6_drv.c:957-988 | staged frames number exactly the decided ones plus the one in hand plus the pending one |
| `TxSlots.TxHead.StagePending` | kernel/trigger6_drv.c:1152-1166 | staging overwrites only the back buffer, so the frame being sent is never written |
| `TxSlots.TxHead.PopPending` | kernel/trigger6_drv.c:957-974 | popping swaps the buffers and puts the pending frame, unaltered, in front |
| `TxSlots.TxHead.RequeuePopped` | kernel/trigger6_drv.c:1085-1100 | requeueing gives the frame back, or drops it for a newer pending one |
| `TxSlots.TxHead.EndSend` | kernel/trigger6_drv.c:2450-2505 | at the end of a send the front buffer still holds the frame that was staged |
| `TxSlots.TxHead.TripFault` | kernel/trigger6_drv.c:2262-2283 | the first trip of a head drops its pending frame; later trips change nothing |
| `Dpms.QuietedStep` | kernel/trigger6_drv.c:2570-2590 | each step of disable settles something that no step of timer or worker can undo |
| `Dpms.OffIsSilent` | kernel/trigger6_drv.c:2570-2614 | from the moment disable returns until enable completes, nothing is sent, whatever was in flight |
| `Dpms.RefreshesReplay` | kernel/trigger6_drv.c:2450-2460 | in every run each refresh replays the last frame sent in its enable period, at least one second after it and after any other send, and the first frame of each period is full |
| `Dpms.SendIsGood` | kernel/trigger6_drv.c:2450-2460 | the recheck under `io_lock` is enough for every single send |
| `Dpms.InvStep` | kernel/trigger6_drv.c:1780-1804 | timer callback, worker, enable and disable keep the invariant in any interleaving, with a fault at any moment and early returns on every path |
| `Addressing.LayoutDisjoint` | kernel/trigger6_drv.c:589-636 | head 0, the command ring and the slots are pairwise disjoint and inside 58 MB |
| `Addressing.SecondaryIsAway` | kernel/trigger6_drv.c:589-636 | nothing inside the ring or a slot touches head 0's region, which is what the VRAM invariant asks of other traffic |
| `Addressing.DeliveredIsElsewhere` | kernel/trigger6_drv.c:1548-1597 | whatever the outcome of its transfers, a send of the secondary head is one of the steps elsewhere that the VRAM invariant allows for |
| `Addressing.RunInRing` | kernel/trigger6_drv.c:1663-1680 | over any run of sends of any sizes every command bucket stays in the ring |
| `Addressing.ConsecutiveOverlap` | kernel/trigger6_drv.c:1673-1678 | two buckets in a row overlap exactly when the second wraps onto the first |
| `Addressing.OverlapHappens` | kernel/trigger6_drv.c:1663-1681 | it does happen, for 3 MB commands after a 1 MB one |
| `Addressing.SecondaryHead.constructor` | kernel/trigger6_drv.c:589-640 | addressing starts inside the layout |
| `Addressing.SecondaryHead.SendJpegBlob` | kernel/trigger6_drv.c:1640-1746 | accepted exactly up to the staging size; then the wire carries exactly one command, in the ring, whose bytes, read back, name the slot after the one on show, the length and the pitches, and ask for a reset in the first ten frames and on a wrap; a failure moves nothing |
| `Addressing.Command` | kernel/trigger6_drv.c:1663-1741 | every accepted command lies inside the ring and its decoded picture inside its slot |
| `Addressing.CommandIsRead` | kernel/trigger6_drv.c:1663-1731 | the bytes of a command say: JPEG of the given length, shown as NV12 with Y at the start of the slot and UV after 1088 rows and the padding, reset exactly for ten frames or a wrap; then the blob and zeros |
| `Addressing.TargetIsApart` | kernel/trigger6_drv.c:1682-1704 | the span decoded from a command's own bytes is inside the slot after the one on show and apart from every other slot |
| `Addressing.OtherFlipsAreRead` | kernel/trigger6_drv.c:2016-2031 | NV12 and raw flip headers, read back, name the place of their own pixels |
| `Addressing.SecondaryHead.SendPreparedNv12` | kernel/trigger6_drv.c:1996-2051 | the wire carries exactly header, staged picture and padding, inside the slot after the one on show; a failure moves nothing |
| `Addressing.SecondaryHead.KeepaliveNv12` | kernel/trigger6_drv.c:2461-2475 | the keepalive sends the very packet of the last send again, inside the slot on show |
| `Addressing.RepeatChangesNothing` | kernel/trigger6_drv.c:2461-2475 | sending a packet a second time leaves the memory as it was |
| `Addressing.SecondaryHead.SendSecondaryRaw` | kernel/trigger6_drv.c:1548-1597 | the wire carries exactly the pixels, inside the slot after the one on show, then the flip header that names that slot, inside the ring; without a staging buffer nothing; a failure moves nothing |
| `FaultLatch.LatchIsFinal` | kernel/trigger6_drv.c:1173-1314 | in every run, from the moment the latch is set it is never cleared and no entry point submits a transfer |
| `FaultLatch.FailureStops` | kernel/trigger6_drv.c:1173-1314 | in every run nothing is submitted after a failed transfer, a trip, a suspend or a resume |
| `FaultLatch.ModesHold` | kernel/trigger6_drv.c:1187-1196 | in every run manual mode submits nothing, and query-only mode only the reads on its list |
| `FaultLatch.FinalOffOnce` | kernel/trigger6_drv.c:3233-3310 | on every disconnect run the final-off request is sent at most once, only unfaulted and drained, and no transfer follows it |
| `FaultLatch.RunTorn` | kernel/trigger6_drv.c:3266-3310 | each stage of disconnect has closed the ways to submit that it is meant to close |
| `FaultLatch.TrafficIsSteps` | kernel/trigger6_drv.c:1276-1305 | what a call of many transfers does, beside threads that set the latch, is a chain of steps of the latch machine |
| `UsbDevice.Device.CtrlOut` | kernel/trigger6_drv.c:1182-1206 | exactly one check-and-submit step of the latch machine, or nothing for a missing payload or failed copy; every error code; any result but the full size sets the latch |
| `UsbDevice.Device.CtrlIn` | kernel/trigger6_drv.c:1208-1235 | the same for reads, where query-only mode allows its whitelist; data is passed on only from a complete read |
| `UsbDevice.Device.FinalOffDisconnect` | kernel/trigger6_drv.c:3233-3264 | exactly the final steps of the latch machine; the request goes out exactly when the whole policy passes at both readings |
| `UsbDevice.Device.NowDecides` | kernel/trigger6_drv.c:3198-3226 | the policy as read passes exactly when the latch machine allows the request |
| `Policy.StartExactly` | control/controller.py:67-125 | the policy starts exactly an unbound, unmanaged, stable generation inside every budget with no latch, pause, inhibition or error |
| `Policy.StopExactly` | control/controller.py:99-108 | it stops exactly the managed bound generation with a fault or no DRM device, and always trips the circuit then |
| `Policy.TripsExactly` | control/controller.py:78-124 | the policy trips the circuit exactly for the listed alarms, with the reason as its text, and otherwise leaves it as it was |
| `Policy.TrippedStays` | control/controller.py:80-81 | a tripped circuit keeps its text, and the answer is to wait |
| `Policy.CandidateFollows` | control/controller.py:88-97 | the candidate is the generation in sight, since it came into sight; out of sight there is none |
| `Policy.RecentCounts` | control/controller.py:121 | the hourly count is the number of attempts less than an hour old |
| `Policy.DecideKeeps` | control/controller.py:67-125 | deciding never changes attempts, pause, management or what is in flight, and never closes a tripped circuit |
| `Policy.AttemptKeepsBudget` | control/controller.py:120-125 | an attempt the policy allowed keeps: at most six, two minutes apart, any four spanning an hour, and a ledger that validates |
| `Controller.TickSafe` | control/controller.py:535-579 | every event of a tick is safe where it happens: writes validate and keep all attempts, mutations are in flight on disk, insertions are paid for |
| `Controller.CommandSafe` | control/controller.py:622-677 | the same for pause, resume, stop, clear-circuit and start |
| `Controller.PrefixInv` | control/controller.py:517-533 | a crash after any event leaves the invariant |
| `ControllerRuns.RunInv` | control/controller.py:535-579 | over every run with crashes anywhere: the ledger validates, attempts keep their budget, insertions never exceed attempts, and a paused ledger with nothing in flight is quiesced |
| `ControllerRuns.CrashConsistent` | control/controller.py:546-552 | over every run and every crash point: a step that leaves a mutation without a later write leaves a ledger on disk that says one is in flight |
| `ControllerRuns.MutationInFlight` | control/controller.py:546-552 | at every mutation the persisted ledger says that one is in flight |
| `ControllerRuns.AttemptBudgets` | control/controller.py:120-125 | over every run: at most six attempts, two minutes apart, any four spanning an hour, and no insertion beyond the attempts recorded |
| `ControllerRuns.WritesValidate` | control/controller.py:489-533 | over every run: each ledger written passes the validation of the reader and forgets no attempt |
| `ControllerRuns.PausedIsQuiesced` | control/controller.py:637-654 | over every run: a paused ledger with nothing in flight follows a stop completed since the pause, with no start since |
| `ControllerRuns.ResumeIsEarned` | control/controller.py:646-654 | resume clears the sleep marker only when paused with nothing in flight, after a completed stop and no start since |
| `ControllerRuns.PauseKeepsMarker` | control/controller.py:637-645 | a pause of a wanted module never clears the marker, completed, failed or interrupted |
| `ControllerRuns.TickCalls` | control/controller.py:552-579 | a tick makes no call, one stop or one start, and after a failed start exactly one stop |
| `ControllerRuns.NeverTheManaged` | control/controller.py:109-125 | no tick starts the generation recorded as managed |
| `ControllerRuns.TickCloses` | control/controller.py:552-579 | a tick that began a call leaves the ledger closed exactly when it was cut short, or was not a start that succeeded or failed without a text and was cleaned up |
| `ControllerRuns.OneFailure` | control/controller.py:552-579 | one failure is final: in every run of ticks, after a tick that began a call and was cut short, failed or tripped, no later tick calls anything |
| `ControllerRuns.FailedStartCloses` | control/controller.py:560-571 | a failed start closes the ledger exactly when its error has a text or its cleanup failed |
| `ControllerRuns.ClosedForever` | control/controller.py:78-81 | in every run of ticks from a closed ledger, it stays closed and nothing is ever called exactly when a mutation is in flight or no snapshot fails without a text |
| `ControllerRuns.ClosedTickExactly` | control/controller.py:535-543 | a tick on a closed ledger calls nothing and leaves it closed exactly unless only a circuit closed it and the snapshot fails without a text |
| `ControllerRuns.EmptyErrorReopens` | control/controller.py:535-542 | an input to the exception: a snapshot error with an empty text reopens a circuit tripped by a transport fault |
| `ControllerLaws.CommandOutcome` | control/controller.py:634-677 | in every run a command that was not cut short leaves exactly the ledger it should, refused, failed or done |
| `ControllerLaws.StopHolds` | control/controller.py:658-665 | from the first write of an operator's stop, in every run, every ledger is unwanted and no tick begins a start before a start command |
| `ControllerLaws.PauseHolds` | control/controller.py:637-645 | from the first write of a pause, in every run, every ledger is paused and no tick begins a start before a resume or a cleared circuit |
| `ControllerLaws.StaysTripped` | control/controller.py:78-81 | fail closed: in every run, with crashes and any commands, a tripped circuit stays tripped and no tick calls anything until it is cleared |
| `ControllerLaws.AlarmIsFinal` | control/controller.py:89-124 | after a tick that saw an alarm, a rapid device loss for one, no tick calls anything before the circuit is cleared |
| `ControllerLaws.TickOutcome` | control/controller.py:544-579 | in every run a tick that acts leaves its announcement when cut short, and otherwise its conclusion: managed, unmanaged, or in flight with its causes |
| `ControllerLaws.NextIsNew` | control/controller.py:109-110 | in a run of ticks, two starts in a row are of different generations |
| `ControllerLaws.StartIsStable` | control/controller.py:94-119 | in every run a generation is started only when some look fifteen seconds before saw it and so did every look in between |
| `Daemon.Store.Tick` | control/controller.py:535-579 | the step-by-step tick leaves exactly the events the run theorems are about |
| `Daemon.Store.Operate` | control/controller.py:634-677 | every operator command leaves exactly the events of the run theorems and the ledger it should, and returns true exactly when it was carried out |
| `Daemon.Store.Read` | control/controller.py:489-515 | a ledger of another boot is forgotten and an invalid one refused |
| `StopModule.Host.RemainingTimeout` | control/controller.py:150-154 | a timeout granted never reaches past the deadline, and is refused exactly when nothing is left |
| `StopModule.Host.Settle` | control/controller.py:157-170 | the polling loop ends, by a strictly falling measure of the time left, within 22 polls, succeeds exactly on a zero count, and gives up on a count only at the deadline or after half a second |
| `StopModule.Host.Stop` | control/controller.py:392-432 | in every execution: at most one unbind, of the generation seen first and still bound, then at most one removal, only after all of that succeeded and two zero reads around an unchanged identity and generation and an unbound interface; each within 1.5 s and over within 2.5 s; success exactly when there was no module, or its removal succeeded and it was seen gone |
| `StopModule.Host.UnbindExact` | control/controller.py:401-413 | at most one unbind, right after a look that found the same generation still bound, inside the deadline; success exactly when it succeeded |
| `StopModule.Host.Recheck` | control/controller.py:414-425 | the checks between unbind and removal |
| `StopModule.Host.RemoveModule` | control/controller.py:426-432 | success exactly when the removal command succeeded and the module was then seen gone |
| `StopModule.Host.Start` | control/controller.py:434-457 | at most one stop of an old module, then at most one insertion, only approved, reviewed and fit, with the old module stopped, right after a look that found it gone; success exactly when the insertion succeeded and the look after it found the generation bound, faultless and with its display |

## Left out

- Allocation failure in the encoder (`-ENOMEM`) and the lock around one-time table construction: no property depends on them.
- Pictures wider or higher than 65535: they are encoded, but the 16-bit sizes of SOF0 cannot describe them, so file recovery
  is stated up to 65535 and `HeaderRoundTrip` for any size modulo 65536.
- NV12 conversion, tight packing, pacing, adaptive quality, and the userspace JPEG export path: loops and timing without a
  property beyond their own bodies.
- The boot keepalive, and DPMS quiescence for JPEG and NV12 heads: their deferred work is cancelled before the worker that
  can rearm it, so the raw head's theorem does not hold of them.
- Lost wake-ups between two busy heads: several early returns of the worker skip the search for the next pending head.
- The decoded picture that the firmware writes into a slot is taken to be NV12 at the pitch and offsets in the flip header.
- DRM registration, EDID parsing, mode lists, sysfs text and module parameters.
- `discover`, `snapshot` and `verify_artifact`: their results are arbitrary observations or refusals.
- JSON encoding, file modes, hashing, locking and subprocess handling of the controller. Type errors in the stored ledger are
  excluded by the ledger's type; `Daemon.Store.Read` models the remaining checks.
- A reboot: the ledger of another boot is replaced by a new one in `Daemon.Store.Read`, and runs are within one boot.
- FrameWork.RawWorker.Work: takes what `t6_head_runtime_connected`, `drm_dev_enter` and the clock answer as arguments, and
  leaves out pacing and yielding, which raw heads never take.
- Addressing.SecondaryHead.SendSecondaryRaw: models the branch for output 1; the checks before it and the damage reference
  after it are those of `RawDriver.Head.SendFrameRaw`.
- Dpms.RefreshesReplay: counts attempts to send; a frame skipped for lack of damage is not an attempt.
- Huffman.BuildHuff: is stated for specifications whose counts match their symbols, with Kraft sum at most 1 and distinct
  symbols, as the four static ones are; other inputs never reach the C function.
