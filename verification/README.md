# A verified model of the vibe-vmm core

vibe-vmm runs guests on KVM or Hypervisor.framework. This project models the parts of it that carry
state and protocol, in Dafny 4.11, and proves what they keep:

- **The split virtqueue** (section 2.7 of VIRTIO 1.2). A device and a driver share two rings whose
  16-bit indices wrap. Over every interleaving of publish, pop, push, consume and acknowledge the
  rings are two unbounded FIFOs, and the interrupt eventfd, if the device has one, counts the completions
  of all its queues. This holds for all runs *if and only if* the queue size divides 2^16. The console, block
  and network handlers are each a finite sequence of device steps, so the same holds with them running
  at any moment.
- **Guest memory.** The region scan of the VM and the slot scan of the memory context are two readings
  of one flat memory; reads, writes and typed accessors work on that memory byte by byte.
- **The vCPU thread.** Which exit is the last one, how many exits a run can handle (the bound is exact),
  and what the counters hold afterwards.
- **The VM's life cycle**, with the roll-back of a failed start, and the device list.
- **Address layout.** BAR placement, the UART register bank, page and 64 KiB rounding, and the Linux boot
  image with its E820 map.

Each module has a pure part (data types, specification functions, lemmas) and, where the C code updates
state in place, a class whose methods follow the C code and are proved equal to the specification
functions. I/O results (`pread`, `read` on the TAP device, `mmap`, `pthread_create`, `eventfd`, ...) are
parameters: the proofs hold for every result the system call may give.

| file | models |
|---|---|
| Words, Alignment | machine words, byte strings, little-endian layout, `include/utils.h` |
| GuestMap, GuestMemory | `vm_gpa_to_hva`, `src/mm.c`, `include/mm.h` |
| Irq | the interrupt descriptor of `src/devices.c` |
| VirtRing, DeviceRuns, RingSizes, Virtqueues | `src/devices/virtio.c` |
| VirtioConsole, VirtioBlock, VirtioNet | the three queue handlers |
| BlockRequests, BlockBuffers, DiskRuns | what a block request does byte by byte, transfers against their buffers, the disk over many requests |
| Vcpus, Machine | `src/vcpu.c`, `src/vm.c`, `src/devices.c`, the KVM exit reason map |
| Vfio, DeviceMap, Uart, Boot | `src/vfio.c`, the device windows, `src/devices/mmio.c`, `src/boot.c` |

Conventions: a host address is an index into one array of host bytes and 0 is the null pointer; unsigned
64-bit sums wrap (`Add64`); `-1` and `0` are the C return values.

Where the code does not do what its purpose suggests, the model follows the code, a lemma names inputs
(the names before the semicolon) and another gives the exact condition (those after it):

- `PAGE_ALIGN_*` clear the upper 32 bits, the mask being a 32-bit unsigned: `FourGiBRoundsToZero`;
  `PageAlignDownIsFloor`, `PageAlignUpIsCeiling`.
- A translated access is backed by memory exactly when it does not wrap around 2^64:
  `WrappingAccessIsAccepted`; `AcceptedIsBackedIffNoWrap`, `OverrunIff`.
- The two translators differ on empty accesses: `EmptyAccessAtTheEnd`; `EmptyAccessAlikeIff`.
- A queue size that does not divide 2^16 loses an entry: `OtherSizesLoseAnEntry`; `RefinedIffSizeDivides`.
- A block transfer moves as many bytes as the *status* descriptor is long, too few or too many for the
  data buffer: `OneByteOfASector`, `ASectorThroughOneByte`, `ASectorOutOfOneByte`, `OneByteOntoTheDisk`;
  `ReadFillsBufferIff`, `ReadStaysInsideIff`, `WriteStoresBufferIff`, `WriteSendsOnlyBufferIff`.
- A short transfer is reported as success: `NothingReadIsOk`; `OkMeansCompleteIff`.
- An initrd larger than RAM is accepted, for a place that wraps around 2^64: `APageTooMany`;
  `InitrdPlacement`.
- A setup part of more than 128 sectors is overwritten by the command line: `LongSetupIsOverwritten`;
  `SetupSurvivesIff`.
- The E820 map describes memory exactly from 1 MiB on: `SmallMemoryIsMisdescribed`; `E820PartitionsIff`.
- Unregistering removes a device exactly when it was registered at most once: `OneOfTwoStays`;
  `RemoveFirstRemovesAll`.
- Large BARs run past 2^64 or into the MMIO console, and two passthrough devices into each other:
  `HugeBarsDoNotFit`, `BigBarMeetsConsole`, `SecondPassthroughOverlaps`; `BarsFitIff`, `WindowsDisjointIff`.
- An exit count within two of 2^64 wraps and restarts the run bound: `WrappedCountRunsOn`; `RunIsBounded`,
  `BoundIsAttained`.
- The data that a device returns for an MMIO read does not reach the exit record: `ReadIsLost`;
  `MmioDataArrivesIff`.
- A device whose record was zeroed, as the virtio and the passthrough devices' are (`virtio_init`,
  `src/vfio.c:657`), has descriptor 0, so registering creates no eventfd for it and its completions are
  never counted: `ZeroedNeverCounts`; `RegisteredHasEventfdIff`, `CountsIffEventfd`.

## Model

| member | source | states |
|---|---|---|
| RingSizes.RefinedIffSizeDivides | src/devices/virtio.c:91-137 | over all runs from an idle ready queue, with at most size heads outstanding, the rings refine two FIFOs if and only if the size divides 2^16 |
| VirtRing.EveryRunRefines | src/devices/virtio.c:91-147 | after any interleaving, completions on other queues of the device included: published = popped + pending, pushed = consumed + unread, nothing lost or overwritten, `used->idx` equals `last_used_idx`, and a line that is an eventfd holds the number of the device's completions since the last acknowledgement |
| VirtRing.CountsIffEventfd | src/devices.c:199-236 | over all runs, whatever the queue size, the line holds the completions if and only if it is an eventfd; any other descriptor is left as it is |
| Irq.RegisteredHasEventfdIff | src/devices.c:97-104 | a registered device has an eventfd if and only if it had one or had no descriptor |
| Irq.ZeroedNeverCounts | src/devices/virtio.c:30-38 | descriptor 0 of a zeroed record survives registration, and completions leave it alone |
| DeviceRuns.EveryDeviceRunRefines | src/devices/virtio-net.c:252-262 | over every interleaving of the steps of all queues of one device each queue refines its two FIFOs, and the one line they share, if it is an eventfd, holds the completions of all of them since the last acknowledgement |
| DeviceRuns.QueueRunsAlone | src/devices/virtio.c:118-147 | what one queue goes through in a run of the device is a run of that queue alone, with the other queues' completions as interrupts |
| VirtRing.PopTakesOldest | src/devices/virtio.c:101-112 | comparing the two 16-bit indices is exact emptiness, and a pop returns the oldest head not yet popped |
| VirtRing.ServingInAnyRun | src/devices/virtio.c:91-137 | a handler that answers the next pending heads, at any moment of any run, pops exactly those and completes exactly its answers, in order |
| RingSizes.OtherSizesLoseAnEntry | src/devices/virtio.c:107 | for every other size there is a permitted run in which a published head is no longer in the ring |
| Virtqueues.OneRequestInAnyRun | src/devices/virtio-block.c:122-205 | one request, answered or dropped, takes one available entry and completes at most once, and keeps the rings refined |
| Virtqueues.VirtQueue.Pop | src/devices/virtio.c:91-113 | returns the head at the device's wrapped index and advances it, or nothing when not ready or empty |
| Virtqueues.VirtQueue.Push | src/devices/virtio.c:118-147 | writes the element in the slot of `used->idx`, advances both used indices and raises the interrupt, or does nothing without a used ring |
| VirtioConsole.Console.QueueNotify | src/devices/virtio-console.c:88-119 | terminates with the queue empty; the printed bytes are the flat memory behind the backed head buffers in publish order, and exactly their heads are completed with their own index and length |
| VirtioConsole.DrainStep | src/devices/virtio-console.c:98-116 | every round takes the oldest pending head and leaves the final state of the drain unchanged |
| VirtioConsole.DrainInAnyRun | src/devices/virtio-console.c:98-116 | a drain at any moment of any run ends with everything published popped and the rings refined |
| VirtioConsole.TextIsGuestText | src/devices/virtio-console.c:99-110 | what a drain prints is the flat memory behind the backed head buffers, in publish order |
| VirtioConsole.RepliesAreHeads | src/devices/virtio-console.c:98-116 | reply k completes head k with its own index and its buffer's length exactly when the buffer is backed |
| VirtioConsole.Console.MmioWrite | src/devices/virtio.c:225-297 | a 32-bit write to the notify register drains the queue it names, one to the acknowledge register clears the interrupt, others do neither |
| VirtioBlock.Block.QueueNotify | src/devices/virtio-block.c:111-206 | a chain is performed and completed as (0, 1) exactly when its header, its linked buffer and the first byte of its linked status buffer are backed; any other costs one available entry and changes neither memory, disk nor used ring |
| VirtioBlock.RequestOutcome | src/devices/virtio-block.c:122-203 | rings, line, memory and disk in both cases |
| BlockRequests.ReadsItsSector | src/devices/virtio-block.c:164-172 | header type 0 and sector number s: a complete transfer puts byte 512 s + k of the disk at position k of the buffer and 0 into the status byte, and changes nothing else |
| BlockRequests.WritesItsSector | src/devices/virtio-block.c:175-185 | header type 1: a complete transfer puts the buffer's byte k at 512 s + k of the disk and 0 into the status byte, and changes nothing else |
| BlockRequests.OtherwiseStatusOnly | src/devices/virtio-block.c:163-200 | a failed transfer, a flush and any other type change the status byte only, to 1, 0 and 2 |
| BlockRequests.SecondSector | src/devices/virtio-block.c:168 | reading sector 1 of a two-sector disk fills the buffer with the second sector |
| VirtioBlock.RequestFootprint | src/devices/virtio-block.c:162-200 | only the bytes read, the bytes written to disk and the status byte change, and the status is OK exactly when the transfer was no error, however short |
| VirtioBlock.ReadBack | src/devices/virtio-block.c:166-185 | reading a sector after writing it returns the bytes written, whatever happened to guest memory in between |
| VirtioBlock.RequestOverlaysGuest | src/devices/virtio-block.c:162-200 | in the flat memory a read overlays the second descriptor's range with the disk's bytes, and every request the third's first byte with its status |
| VirtioBlock.WriteTakesGuestBytes | src/devices/virtio-block.c:174-181 | a write puts the flat memory's bytes at the second descriptor's address on the disk |
| DiskRuns.LastWriteWins | src/devices/virtio-block.c:162-185 | over any sequence of requests a byte of the disk is what the last request that wrote it took from guest memory at the time |
| DiskRuns.UnwrittenByteStays | src/devices/virtio-block.c:162-185 | over any sequence of requests a byte that none wrote stays, or is zero where the disk has grown |
| DiskRuns.DiskHoldsLastWrites | src/devices/virtio-block.c:162-185 | after any sequence of requests every byte of the disk is that of its last write, or the original |
| DiskRuns.ReadReturnsDisk | src/devices/virtio-block.c:164-172 | a read returns the bytes of the disk as it is |
| BlockBuffers.OkMeansCompleteIff | src/devices/virtio-block.c:166-185 | an OK status implies a complete transfer, whatever the kernel answers, only for length 0 or an offset no file has |
| BlockBuffers.NothingReadIsOk | src/devices/virtio-block.c:166-172 | a read of a sector of which nothing arrives leaves the buffer as it was and is reported OK |
| BlockBuffers.ReadFillsBufferIff | src/devices/virtio-block.c:142-172 | for every backed IN chain, a complete read fills the second descriptor's buffer, whatever is on the disk, if and only if the third descriptor is at least as long and the status byte is not in the buffer |
| BlockBuffers.ReadStaysInsideIff | src/devices/virtio-block.c:142-172 | for every backed IN chain, a complete read leaves everything outside data buffer and status byte alone, whatever is on the disk, if and only if the third descriptor is no longer than the buffer, or by one byte that is the status byte |
| BlockBuffers.WriteStoresBufferIff | src/devices/virtio-block.c:142-181 | for every backed OUT chain, a complete write stores the whole buffer, whatever was on the disk, if and only if the third descriptor is at least as long as the buffer |
| BlockBuffers.WriteSendsOnlyBufferIff | src/devices/virtio-block.c:142-181 | for every backed OUT chain, all memories with the same request and buffer give the same disk, if and only if the bytes moved beyond the buffer, if any, are the request's own type and sector |
| BlockBuffers.OneByteOfASector | src/devices/virtio-block.c:155-172 | with a 512-byte buffer and a one-byte status descriptor a read leaves the buffer's second byte unread and reports success |
| BlockBuffers.ASectorThroughOneByte | src/devices/virtio-block.c:155-172 | with a one-byte buffer and a 512-byte status descriptor a read replaces the byte behind the buffer |
| BlockBuffers.ASectorOutOfOneByte | src/devices/virtio-block.c:155-181 | the same chain as a write puts the byte behind the buffer on the disk |
| BlockBuffers.OneByteOntoTheDisk | src/devices/virtio-block.c:155-181 | a write of a 512-byte buffer with a one-byte status descriptor leaves its second byte off the disk |
| VirtioBlock.GuestApartIsHostApart | src/devices/virtio-block.c:143-160 | data and status that do not meet in the guest do not meet in the host, and a transfer no longer than the buffer fits |
| VirtioNet.Net.QueueNotify | src/devices/virtio-net.c:252-262 | queue 0 receives, queue 1 transmits, other queues are left alone |
| VirtioNet.Net.HandleRx | src/devices/virtio-net.c:147-196 | the header is zeroed once translated, the frame stored, and header plus frame length completed with id 0; every error exit completes nothing |
| VirtioNet.Net.HandleTx | src/devices/virtio-net.c:201-247 | with header and linked buffer backed, the TAP device is handed the flat memory's bytes at the buffer's address, as many as it takes, and (0, 0) is completed; otherwise nothing is sent or completed |
| VirtioNet.TxOutcome | src/devices/virtio-net.c:201-247 | rings, line, memory and frames sent in every case of a transmit |
| VirtioNet.RxDelivers | src/devices/virtio-net.c:162-193 | a completed receive delivers the bytes that read() returned, which a TAP device cuts at the buffer's length, behind a zero header, and reports header and bytes |
| VirtioNet.RxFootprint | src/devices/virtio-net.c:162-193 | a receive that is not completed has at most zeroed the header, and a completed one changes the header and the bytes read only |
| VirtioNet.RxOverlaysGuest | src/devices/virtio-net.c:155-193 | in the flat memory a receive overlays the head descriptor's range with zeros and the next one's with the bytes read, as far as it gets |
| VirtioNet.RxOutcome | src/devices/virtio-net.c:147-196 | rings, line and flat memory in every case of a receive: ten zero bytes, the bytes read, and (0, 10 + length) |
| GuestMap.LookupsFindTheHolder | src/vm.c:229-247 | without wrap both translators return the host address in the one region that holds the access |
| GuestMap.TranslatorsAgree | src/mm.c:130-146 | both translators agree on every non-empty access that does not wrap, and fail exactly when no region holds it |
| GuestMap.TranslationIgnoresOrder | src/mm.c:113-125 | the result depends on the set of regions, not on their order |
| GuestMap.DisjointAccessesStayDisjoint | src/vm.c:238-247 | disjoint guest ranges go to disjoint host ranges |
| GuestMap.AcceptedIsBackedIffNoWrap | src/vm.c:244-247 | in either translator an accepted non-empty access is backed by one region if and only if it does not wrap around 2^64 |
| GuestMap.EmptyAccessAlikeIff | src/mm.c:113-146 | an empty access translates alike if and only if it meets no region, or the first region it meets covers it, or a region that starts there has the host buffer that follows the first one's |
| GuestMap.EmptyAccessAtTheEnd | src/vm.c:244-247 | at the end of the only region the region scan answers an empty access and the slot scan does not |
| GuestMap.WriteOverlaysGuest | src/mm.c:151-163 | a write through the translator changes exactly its range of the flat memory |
| GuestMap.ReadReturnsGuest | src/mm.c:168-180 | a read through the translator returns the flat memory's bytes |
| GuestMap.HeldBytesAreGuest | src/devices/virtio-console.c:99-110 | the host bytes behind a backed buffer, which the console prints, are the flat memory's bytes |
| GuestMemory.MmCtx.AddSlot | src/mm.c:86-108 | appends one slot, or refuses the thirty-third without change |
| GuestMemory.MmCtx.WriteGpa | src/mm.c:151-163 | succeeds exactly when one slot holds the range, or covers the address of an empty one, and then overlays the flat memory; a failure changes nothing |
| GuestMemory.MmCtx.ReadGpa | src/mm.c:168-180 | succeeds exactly when one slot holds the range, or covers the address of an empty one, and returns its flat bytes |
| GuestMemory.MmCtx.WriteWord | include/mm.h:52-67 | an 8, 16, 32 or 64-bit write overlays the value's little-endian bytes, or changes nothing |
| GuestMemory.MmCtx.ReadWord | include/mm.h:69-84 | an 8, 16, 32 or 64-bit read returns the flat memory's word |
| GuestMemory.OverrunIff | src/mm.c:113-146 | the accesses that WriteGpa and ReadGpa exclude are exactly those that start in a slot and end, past 2^64, at or below its end |
| GuestMemory.WordRoundTrip | include/mm.h:53-84 | an 8, 16, 32 or 64-bit write is read back, and words apart from it are untouched |
| GuestMemory.WordBytewise | include/mm.h:53-84 | byte k of a written word is what an 8-bit read at offset k returns |
| Alignment.PageAlignDownIsFloor | include/utils.h:22-31 | the page floor exactly below 4 GiB |
| Alignment.PageAlignUpIsCeiling | include/utils.h:21-30 | the page ceiling exactly up to 2^32 - 4096 |
| Alignment.FourGiBRoundsToZero | include/utils.h:21-31 | every address that rounds to 4 GiB, up or down, is rounded to 0 |
| Alignment.AlignUp64KIsCeiling | src/vfio.c:675 | the 64 KiB ceiling exactly up to 2^64 - 2^16 |
| Alignment.PageFloor64IsFloor | src/boot.c:223 | the 64-bit page mask is the page floor for every address |
| Alignment.MaskKeepsMiddleBits | include/utils.h:21-22 | AND with the complement mask of a given width keeps exactly the bits from the alignment to the width |
| Vcpus.StopsAndFailsIff | src/vcpu.c:297-486 | the six reasons that set the stop flag; the six that fail, with an MMIO access that the device refuses |
| Vcpus.ClassesAre | src/vcpu.c:301-483 | the exit reasons of each counter |
| Vcpus.CountedFields | src/vcpu.c:301-483 | every exit advances the total and the counter of its class, and no other |
| Vcpus.OrdinaryExitsGoOn | src/vcpu.c:53-88 | without a stop request, interrupted runs and exits of all other reasons keep the thread going while the count stays at most 1000: every one is handled, and so is the next exit, whatever it is |
| Vcpus.OtherEventsEnd | src/vcpu.c:53-75 | a stop request, a failed run and a missing exit record end the thread at once |
| Vcpus.StoppingExitIsLast | src/vcpu.c:53-88 | an exit whose handler asks to stop or fails is the last one handled |
| Vcpus.StoppingExitReturns | src/vcpu.c:53-92 | after such an exit the thread returns |
| Vcpus.RunIsBounded | src/vcpu.c:83-87 | a run started at count c handles at most max(1, ceil((1001 - c) / 2)) exits, with the 2^64 wrap included |
| Vcpus.BoundIsAttained | src/vcpu.c:83-87 | every long enough run of harmless exits handles exactly that many |
| Vcpus.WrappedCountRunsOn | src/vcpu.c:83-87 | a thread started at count 2^64 - 2 or 2^64 - 1 handles 502 or 501 harmless exits |
| Vcpus.RunTerminates | src/vcpu.c:58-88 | only interrupted runs keep a thread going: after that many other results it has returned |
| Vcpus.RunAccounting | src/vcpu.c:301-483 | each handled exit counts twice in the total, once if it failed, and each of the eight class counters advances by the number of exits of its class |
| Vcpus.AccountingFromReset | src/vcpu.c:688-707 | from reset statistics n exits leave 2n, or 2n - 1 after a failure, each class counter is the number of exits of its class, and together they miss just the exits of no class |
| Vcpus.Vcpu.ResetStats | src/vcpu.c:688-707 | all counters are zero, state and stop flag as before |
| Vcpus.KvmRuns | src/hypervisor/kvm.c:506-519 | under KVM every handled exit has the name of the KVM reason it came from, all unnamed ones being unknown; an unnamed or stopping one is last |
| Vcpus.Vcpu.HandleExit | src/vcpu.c:297-486 | return value, stop flag, counters, console output and remaining port data of every exit reason, given the device's answer to an MMIO exit |
| Machine.Vm.HandleExit | src/vcpu.c:297-486 | the same on a vCPU of a VM, an MMIO exit being answered by the VM's devices |
| Vcpus.Vcpu.HandleIoExit | src/vcpu.c:491-527 | COM1 output is printed low byte first; COM1 and VGA reads give 0 |
| Vcpus.Vcpu.ThreadFunc | src/vcpu.c:19-92 | the thread loop is the run function the lemmas are about |
| Machine.LifecycleStaysCoherent | src/vm.c:104-151 | over every sequence of starts, failed starts and stops either everything runs or nothing does, and a VM with a vCPU is recorded running exactly when all its vCPUs are |
| Machine.StartIsAllOrNothing | src/vm.c:104-128 | from all stopped, everything runs or everything is stopped, whichever thread cannot be created |
| Machine.Vm.Start | src/vm.c:104-128 | the loop and its roll-back leave the recorded states the lemmas are about |
| Machine.Vm.Stop | src/vm.c:133-151 | the VM is recorded stopped; unless it was before, every running vCPU is stopped and told to stop, and the others are as they were |
| Machine.StopAtTheEnd | src/vm.c:133-151 | any sequence of starts and stops that ends with a stop leaves everything stopped |
| Machine.StartOutcome | src/vm.c:104-128 | a start from any recorded states: which vCPU blocks it, if one does, and what is stopped again |
| Machine.Vm.CreateVcpus | src/vm.c:286-311 | all requested vCPUs exist afterwards; or the count is unchanged and every entry up to the first vCPU that cannot be created is empty, so that a table in use stays usable if and only if too many vCPUs were asked for or it had none |
| Machine.Vm.AddMemoryRegion | src/vm.c:166-224 | appends one region at the 32-bit page floor of its address and adds its size, or changes nothing |
| Machine.Vm.GpaToHva | src/vm.c:229-247 | the scan over the table with its unused entries is the translator the lemmas are about |
| Machine.Unregister | src/devices.c:116-140 | without a device or its VM nothing happens; otherwise the first occurrence leaves the VM's list, and the device is to be destroyed whether or not it was listed |
| Machine.Vm.RemoveDevice | src/devices.c:127-137 | shifting removes the first occurrence of the device and keeps the order of the rest |
| Machine.Vm.MmioExit | src/vcpu.c:532-584 | the handler of the first device that covers the address gets the offset in its window, its return value is passed on, the exit record changes on writes only; an uncovered address is no error |
| Machine.MmioDataArrivesIff | src/vcpu.c:567-581 | what the device leaves in its buffer reaches the exit record, whatever it is, if and only if the access is a write |
| Machine.ReadIsLost | src/vcpu.c:574-581 | a device answers a read with 0x55 and the guest is given 0 |
| Machine.Vm.HandleMmio | src/devices.c:162-194 | the same search for the caller's buffer, which receives reads too; an address without a device, or a device without the handler, is an error |
| Machine.RemoveFirstRemovesAll | src/devices.c:128-137 | the device is gone if and only if it was listed at most once |
| Machine.OneOfTwoStays | src/devices.c:128-137 | of a device listed twice one entry stays |
| Machine.Vm.FindDevice | src/vm.c:269-281 | the first device of the list whose window holds the address, or none if none does |
| Machine.FindIsUnique | src/devices.c:145-157 | with disjoint windows the lookup finds the one device that covers the address |
| DeviceMap.WindowsDisjointIff | src/devices/virtio-console.c:29-30 | the windows of any selection of the program's devices are disjoint if and only if no fixed device occurs twice, the BARs end below the MMIO console where there is one, and at most one passthrough device has BARs |
| DeviceMap.MainWindowsDisjointIff | src/main.c:354-407 | the windows of the devices that main registers are disjoint if and only if the passthrough BARs end below the MMIO console |
| DeviceMap.BigBarMeetsConsole | src/main.c:354-407 | 4 GiB of BARs cover the MMIO console's window, whose addresses go to the console |
| DeviceMap.SecondPassthroughOverlaps | src/vfio.c:666-680 | of two passthrough devices with 64 KiB of BARs only the one registered first is found |
| Machine.FindIgnoresOrder | src/vm.c:269-281 | the order of registration does not matter |
| Machine.FindAfterRemoval | src/devices.c:116-157 | after removal every other device is found as before and the removed one nowhere |
| Machine.Vm.Register | src/devices.c:85-111 | appends the device with its VM, and with a new eventfd if its descriptor was negative, any other descriptor being kept; reports a full table or a missing eventfd |
| Machine.Vm.RegisterDevice | src/vm.c:252-264 | appends the device as it is, its VM pointer included, or reports a full table |
| Machine.Device.AssertIrq | src/devices.c:199-215 | adds one to an eventfd unless it is full; leaves any other descriptor's file out of account; fails without a descriptor |
| Machine.Device.DeassertIrq | src/devices.c:220-236 | clears an eventfd; fails without a descriptor |
| Vfio.BarsFitIff | src/vfio.c:665-681 | after the loop every placed BAR is 64 KiB aligned, inside the device window and apart from every other one, whichever mappings fail, if and only if the rounded sizes do not run past 2^64 |
| Vfio.BarsAreConsecutive | src/vfio.c:665-676 | the first placed BAR is at 0xb000000 and each further one where the one before it, rounded up to 64 KiB, ends |
| Vfio.HugeBarsDoNotFit | src/vfio.c:665-681 | the second of two BARs of 2^63 bytes ends past 2^64 |
| Vfio.VfioDev.PlaceBars | src/vfio.c:665-681 | of regions 1 to 6 exactly those of known size that report being mappable and can be mapped are placed, in order, in wrapping arithmetic and with sizes refreshed during mapping; the window is their sum |
| Vfio.VfioDev.MapRegion | src/vfio.c:363-396 | a probe refreshes the cached size even when the mapping then fails; only success sets the addresses |
| Uart.MmioConsole.WriteReg | src/devices/mmio.c:123-183 | after any trace the registers and the output are those the trace determines |
| Uart.MmioConsole.ReadReg | src/devices/mmio.c:62-118 | a read returns what the trace of accesses determines |
| Uart.WrittenIsReadBack | src/devices/mmio.c:91-109 | a plain register reads back its last write |
| Uart.LatchIsBit7 | src/devices/mmio.c:158-161 | the latch bit is bit 7 of the last write to the line control register |
| Uart.FixedRegisters | src/devices/mmio.c:69-113 | what the registers return in which nothing is kept |
| Uart.PrintedStep | src/devices/mmio.c:132-148 | a byte is printed exactly when it is written to offset 0 while the latch bit is clear |
| Uart.BankedWriteIsReadBack | src/devices/mmio.c:69-85 | a latch-banked register reads back its last write when its bank is selected again, whatever went to the other bank |
| Boot.BootImageIsIntact | src/boot.c:161-182 | kernel code, initrd and NUL-terminated command line are all intact after the whole set-up |
| Boot.BootFieldsReadBack | src/boot.c:237-242 | the initrd, size and command line fields read back from the zero page, and from its packed table every address of memory: reserved from 640 KiB to 1 MiB, RAM elsewhere |
| Boot.KernelInPlace | src/boot.c:157-182 | after a complete boot the image from byte 512 (b + 1) on, b its byte 0x1F1, is at the address in its bytes 0x214 to 0x217, or at 1 MiB |
| Boot.GoodHeaderIff | src/boot.c:139-149 | the two magic values as bytes of the image |
| Boot.BootSucceedsIff | src/boot.c:384-424 | a boot succeeds exactly when the header is good, every part fits into RAM and the initrd leaves 1 MiB |
| Boot.FailedBootLeaves | src/boot.c:161-227 | what a boot that fails at the kernel or the initrd has written |
| Boot.LongCmdlineLeaves | src/boot.c:251-275 | a command line that does not fit is noticed after kernel and initrd are in place |
| Boot.BootLeavesTheRest | src/boot.c:384-424 | outside the named header fields, code, initrd and command line RAM holds the setup part, or what it held before |
| Boot.SetupSurvivesIff | src/boot.c:158-168 | every byte of the setup part but the named fields survives every command line if and only if it has at most 128 sectors |
| Boot.LongSetupIsOverwritten | src/boot.c:251-275 | the first byte of the command line replaces what a longer setup part has there |
| Boot.BootSetupLinux | src/boot.c:384-436 | every outcome, failures half-way included, leaves exactly the patches of the steps taken |
| Boot.LayoutPatches | src/boot.c:384-424 | a layout that fits makes every step succeed |
| Boot.InitrdPlacement | src/boot.c:222-229 | an initrd's place is in RAM if and only if it leaves 1 MiB free, and then page-aligned at or above 1 MiB, less than a page from the top; the translation accepts those and exactly the places whose end wraps into RAM |
| Boot.OversizedInitrdIsAccepted | src/boot.c:222-234 | every initrd larger than RAM by at most 2^64 - 1 MiB is accepted although RAM has no room for it |
| Boot.APageTooMany | src/boot.c:222-234 | with 128 MiB of RAM an initrd of up to a page more is accepted, one of just that size refused |
| Boot.E820PartitionsIff | src/boot.c:293-314 | the three entries partition the guest's memory if and only if there is at least 1 MiB of it |
| Boot.TableMapsMemory | src/boot.c:293-311 | in the bytes of the packed table, with 1 MiB or more: an address is in an entry exactly when it is below the memory size, of type 2 from 0xA0000 to 0x100000 and of type 1 elsewhere |
| Boot.SmallMemoryIsMisdescribed | src/boot.c:308-311 | with less than 1 MiB of memory the map calls the byte at 1 MiB RAM |
| Boot.TableEntryAt | src/boot.c:293-311 | entry i of the packed table is 20 bytes at 20 i |
| Boot.EntryReadsBack | src/boot.c:60-64 | address, size and type read back from a packed entry |
| Words.Store32ReadsBack | src/boot.c:240-241 | a 32-bit field reads back the value modulo 2^32, unchanged exactly when it fits |

## Left out

- VirtioConsole.Console.QueueNotify: requires heads inside the descriptor table and buffers that do not wrap around 2^64; the C code reads outside its memory otherwise. The block and network handlers require the same along the chain they walk, as far as its NEXT flags lead. All three require a device with a VM; `vm_register_device` gives it none (`Machine.Vm.RegisterDevice`), and the C code follows the null pointer as soon as there is a head.
- VirtioConsole.Console.MmioWrite: requires that the low byte written to the notify register name one of the eight queues; from 8 on the C code indexes past its array.
- VirtioBlock.Block.QueueNotify: takes the transfer's result as a parameter; the kernel is supposed to touch no byte outside the host's memory and to stop short or fail where that ends.
- Vcpus.Vcpu.HandleIoExit: requires a port access of at most four bytes; the C code shifts a 32-bit value by more otherwise.
- Boot.BootSetupLinux: requires one RAM region at 0, and an image at least as long as its header and its setup part; the C code reads outside its buffer otherwise. An initrd that is accepted although RAM does not hold it is excluded by its exact condition `InitrdWraps` (`InitrdPlacement`); the C code then copies it outside RAM.
- GuestMemory.MmCtx.WriteGpa: excludes only an access that wraps around 2^64 and is accepted nevertheless (`NoOverrun`, exactly by `OverrunIff`); by `AcceptedIsBackedIffNoWrap` such an access is not backed, and the C code copies outside its slot. The same goes for ReadGpa and the typed accessors.
- Vfio.VfioDev.PlaceBars: stops before the device is registered.
- Virtqueues.VirtQueue.Pop: ring memory, descriptor table and guest buffers are kept apart; a driver that lets a data buffer overlap its rings is not modelled. Ring storage is a sequence field updated element by element.
- Machine.Unregister: stops before `device_destroy`, and `vm_destroy`'s loop over a shrinking list is not modelled.
- Set-up of a queue's size, rings and ready flag: the program never performs it; `Attached` stands for it.
- Memory ordering between a driver and a device on different processors: steps are atomic.
- Concurrent changes to a vCPU's counters; the thread's stop flag may be set between any two exits.
- Vcpus.Vcpu.HandleExit: takes the device's answer to an MMIO exit as part of the exit; `Machine.Vm.HandleExit` computes it, with the device handlers as a parameter, every device having both.
- Register and segment set-up, real hypervisor calls, `mmap`, threads, TAP, files and flushing.
- The Hypervisor.framework back ends, KVM's structure copying, argument parsing, logging and statistics printing.
- Virtio feature negotiation, queue selection and configuration space; PCI configuration, interrupts and register access of passthrough devices.
