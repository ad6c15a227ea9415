# CupertinoSupportPkg: a verified model of three of its components

The package adapts UEFI firmware for Apple's booter.  This project models three parts of it and proves what they keep.

* **The runtime-service shims** (`Machine.dfy`, `Shim.dfy`, `Nesting.dfy`, `NestedRuns.dfy`, `CalmRuns.dfy`,
  `QuietRuns.dfy`, `Permitted.dfy`, `Relocation.dfy`).  Three hand-written x86-64 routines clear CR0.WP with
  interrupts off, call the saved service through a slot behind their code, and put CR0.WP and IF back.  `Shim.dfy`
  holds the listings, instruction by instruction, and an assertion at every instruction.  `Nesting.dfy` puts the
  shims in a whole machine: a stack of unfinished activations in which services and interrupt handlers may call
  shims again to any depth, and an interrupt may arrive between any two instructions while IF is set.
  `NestedRuns.dfy` has the results on every run, whatever services do to CR0 and IF; `CalmRuns.dfy` those that need
  services to leave IF alone, `QuietRuns.dfy` those that need them to leave CR0, or its WP bit, alone;
  `Permitted.dfy` shows that the machine holds other code to no more. `Relocation.dfy` compares the blob with a copy
  of it at another address.
* **The LoadImage hooks** (`DevicePath.dfy`, `Requests.dfy`, `HookChain.dfy`).  Any number of Bless and FatBinary drivers
  push themselves onto the boot-services table.  `DevicePath.dfy` is the byte format and Bless's walk over it;
  `Requests.dfy` says on values what a request through a chain does to its arguments and to the pool; `HookChain.dfy`
  has the drivers and the firmware as objects, with `mLoadImage` pointers, the table, its CRC and the TPL.
* **Support memory** (`SupportMemory.dfy`, `ImagePlacement.dfy`, `SupportRuns.dfy`, `SystemTable.dfy`).  The page allocator,
  the loader that aligns an image in the block it got or rolls back, whole runs of allocations, frees and loads against
  the list of blocks held, and the single preserved copy of the system table.

`Words.dfy` has 64-bit words as integers with a bitwise AND, `Wrappers.dfy` an option type.

What is taken as given:

* A service called by a shim keeps the x64 calling convention (section 2.3.4 of the UEFI Specification): it preserves RBX
  and RSI, returns to where it was called from, and in its caller's frame writes only its return address, home area and
  stack arguments.  In `Shim.dfy` nothing is said of what it does to CR0 and IF.  In `Nesting.dfy` neither is said
  of any other code, but that an interrupt handler returns with the CR0 it found.  In `CalmRuns.dfy` code other than
  the shims does not change IF while a window is open; in `QuietRuns.dfy` it does not change what is watched of CR0
  there: all of it, or WP only.
* Code on the stack above a suspended shim writes neither that shim's live frame nor the blob, and calls a shim only with
  room for its frame and RSP as the convention has it (8 modulo 16 at entry).
* The EDK II and sibling-package functions answer anything their type allows, each hook at its own time;
  `ThinFatBinaryEfiForCurrentCpu` returns a slice of its input; `AllocatePagesFromTop` returns NULL or a free block below
  its limit, by any policy; `FreePages` frees a range if all of it is allocated and otherwise nothing.
  `LocateDevicePath` returns well-formed device paths.
* Asserts are not relied on: the model follows the code as compiled without them.

Where the code departs from what its documentation or its callers expect, the model keeps the code and proves exactly
when the expectation is met:

* CR0 and IF come back exactly when the service does not change a bit the shim leaves to it
  (`Shim.RestoresExactlyWhen`); `Shim.ServiceCr0Escapes` says what comes back otherwise.  A handler comes before
  CR0 is put back only if the service returned with IF set (`NestedRuns.HandlersSeeCallersCr0`), and then it may
  (`NestedRuns.HandlerMayComeFirst`).
* The device-path walk never ends exactly when it meets a node of length zero
  (`DevicePath.WalkDivergesExactlyOnZeroLength`); four bytes do (`DevicePath.FourBytesDiverge`).  That is a fact of the
  loop alone: the paths Bless walks are well formed, and on those it ends.
* FatBinary frees whatever buffer it is given.  A chain frees correctly exactly when no FatBinary sits below the one that
  read the file (`Requests.FreesCorrectlyExactlyWhen`); two of them and a readable file already do not
  (`Requests.TwoFatBinariesFreeBadly`); a caller's own buffer is taken from it (`Requests.SuppliedBuffer`).
* The allocator's two public functions pass memory type and page count to parameters declared size and memory type, so
  they allocate one page of a type that is the page count.  It covers the request exactly for sizes up to a page, and
  does so in the right type only when nothing is asked for (`SupportMemory.AllocationNeverAsAsked`); freeing undoes
  allocating exactly for sizes up to a page (`SupportMemory.FreeUndoesAllocationExactlyWhen`).
* The loader's rollback frees the aligned address and a count of pages of pages.  A failed load leaves the page map as it
  was exactly when the page was already aligned and the request at most 16 MB
  (`ImagePlacement.FailedLoadRestoresExactlyWhen`, with `ImagePlacement.UnalignedPageIsLost` for an input); the image
  fits its page exactly when it is at most a page and the page happens to be aligned
  (`ImagePlacement.ImageFitsItsPageExactlyWhen`).
* The loader's machine-type guard refuses a type only if it is both native and cross-type supported; the assertion in
  front of it wants one of the two.  A type that is neither is loaded.
* A system table of more than a page overruns the page its copy is given
  (`SystemTable.CopyStaysInItsPageExactlyWhen`), and over a run its pages balance exactly as long as no copy is given up
  (`SystemTable.RunBalancesExactlyWhen`).

## Model

| member | source | states |
|---|---|---|
| Words.AndBits | Library/FirmwareFixesLib/X64/RuntimeWriteProtectionDisable.nasm:43 | the AND used for masks is bitwise: each bit of the result is the conjunction of the operands' bits |
| Machine.ClearWpEffect | Library/FirmwareFixesLib/X64/RuntimeWriteProtectionDisable.nasm:42-44 | masking with `~0x10000` clears CR0.WP, changes no other bit, and is idempotent |
| Machine.TestWpEffect | Library/FirmwareFixesLib/X64/RuntimeWriteProtectionDisable.nasm:49-50 | the 32-bit test of EBX sees exactly bit 16 of the 64-bit saved CR0 |
| Machine.TestIfEffect | Library/FirmwareFixesLib/X64/RuntimeWriteProtectionDisable.nasm:53-54 | the 32-bit test of ESI on the pushed flags sees exactly IF |
| Machine.PackPlacesFlags | Library/FirmwareFixesLib/X64/RuntimeWriteProtectionDisable.nasm:38-39 | the stored RFLAGS has ZF in bit 6, IF in bit 9 and every other flag in its place |
| Machine.ExecKeepsFlags | Library/FirmwareFixesLib/X64/RuntimeWriteProtectionDisable.nasm:35-59 | no instruction of the listings changes RFLAGS beyond ZF and IF or an argument register, and only `cli` and `sti` write IF |
| Shim.StepAdvances | Library/FirmwareFixesLib/X64/RuntimeWriteProtectionDisable.nasm:34-116 | every instruction of all three routines but the call and the return takes the assertion at its point to the assertion at its successor and writes the shim's own frame only |
| Shim.BlobLayout | Library/FirmwareFixesLib/X64/RuntimeWriteProtectionDisable.nasm:29-130 | the three routines, then the slots of GetNextVariableName, GetVariable and SetVariable in this order, all apart |
| Shim.CallEntersService | Library/FirmwareFixesLib/X64/RuntimeWriteProtectionDisable.nasm:45-48 | the service is entered with the entry RCX, RDX, R8, R9, fifth argument and all flags but IF and the arithmetic ones, an aligned stack, WP and IF clear, and the saved registers above what it may write |
| Shim.ServiceResumesShim | Library/FirmwareFixesLib/X64/RuntimeWriteProtectionDisable.nasm:48-60 | after any service within the convention, for both frame sizes, the saved RBX, RSI and return address are intact and the epilogue's first assertion holds |
| Shim.ReturnLeavesShim | Library/FirmwareFixesLib/X64/RuntimeWriteProtectionDisable.nasm:57-60 | the return goes to the caller with RBX, RSI and RSP as at entry, RAX, RCX, RDX, R8, R9 and all flags but IF and the arithmetic ones from the service, CR0 and IF restored |
| Shim.RunsToExit | Library/FirmwareFixesLib/X64/RuntimeWriteProtectionDisable.nasm:34-116 | from every point of a routine at most 24 instructions lead into the service or back to the caller, writing the shim's own frame only |
| Shim.StepsKeepTheRest | Library/FirmwareFixesLib/X64/RuntimeWriteProtectionDisable.nasm:34-116 | however far a routine runs by itself, argument registers and flags other than ZF and IF stay as they are |
| Shim.AnyAlignedCallEnters | Library/FirmwareFixesLib/X64/RuntimeWriteProtectionDisable.nasm:34-35 | every call with RSP a multiple of 16, and room for the frame clear of the blob, is an entry the results speak of |
| Shim.SavedValuesSurvive | Library/FirmwareFixesLib/X64/RuntimeWriteProtectionDisable.nasm:48-60 | for both frame sizes the service may overwrite every volatile register, CR0, the flags, its return address, home area and stack argument and everything below and above the shim's and caller's cells: the shim still returns correctly |
| Shim.ShimRefinesSpecification | Library/FirmwareFixesLib/X64/RuntimeWriteProtectionDisable.nasm:34-116 | each shim is: run the service with WP and IF clear, then restore; for every entry state and every service within the convention |
| Shim.RestoresExactlyWhen | Library/FirmwareFixesLib/X64/RuntimeWriteProtectionDisable.nasm:49-55 | CR0 comes back equal iff WP was set at entry or the service left CR0 at its entry value; IF iff it was set at entry or the service left it clear |
| Shim.ServiceCr0Escapes | Library/FirmwareFixesLib/X64/RuntimeWriteProtectionDisable.nasm:49-51 | entered with WP clear, a shim returns with whatever its service wrote to CR0 |
| Shim.Execute | Library/FirmwareFixesLib/X64/RuntimeWriteProtectionDisable.nasm:34-116 | the fetch-execute loop computes the run the theorems are about |
| Nesting.ShimInstrKeepsInv | Library/FirmwareFixesLib/X64/RuntimeWriteProtectionDisable.nasm:35-59 | an instruction of the running shim keeps the invariant of the whole machine, inside and outside open windows |
| Nesting.ForeignReturnKeepsInv | Library/FirmwareFixesLib/X64/RuntimeWriteProtectionDisable.nasm:48-49 | a service's return, after any nesting above it, resumes its shim with everything the shim saved |
| Nesting.InterruptKeepsInv | Library/FirmwareFixesLib/X64/RuntimeWriteProtectionDisable.nasm:35-60 | an interrupt at any instruction with IF set, its handler writing anything outside live frames, keeps the invariant |
| NestedRuns.RunKeepsInv | Library/FirmwareFixesLib/X64/RuntimeWriteProtectionDisable.nasm:34-116 | every state of every run satisfies the invariant, at any nesting depth, under any interrupts and whatever services do to CR0 and IF |
| NestedRuns.MatchedCallRestores | Library/FirmwareFixesLib/X64/RuntimeWriteProtectionDisable.nasm:34-116 | for any shim call and its matching return in any run, services writing CR0 and IF included: RBX, RSI, RSP and the activations beneath are as before, control is at the return address, RAX, RCX, RDX, R8, R9 and the other flags are what that shim's service returned; CR0 is the caller's if WP was set in it, IF is set if the caller's was, and otherwise each is what that service left |
| CalmRuns.InterruptsOffInService | Library/FirmwareFixesLib/X64/RuntimeWriteProtectionDisable.nasm:40-55 | if services leave IF alone, then while any shim is inside its service interrupts are off and no handler is running above it, whatever inner shims have run |
| CalmRuns.CalmHandlersSeeCallersCr0 | Library/FirmwareFixesLib/X64/RuntimeWriteProtectionDisable.nasm:38-55 | in such a run a handler that interrupts a shim sees the CR0 that shim was entered with if WP was set in it, and never one a shim has cleared: no window is open, and CR0 is still the entry value or already restored |
| CalmRuns.CalmCallRestores | Library/FirmwareFixesLib/X64/RuntimeWriteProtectionDisable.nasm:53-55 | in such a run every matched call gives back its caller's IF |
| QuietRuns.WindowHoldsThroughout | Library/FirmwareFixesLib/X64/RuntimeWriteProtectionDisable.nasm:40-55 | if other code does not set WP there, WP is clear while any shim is inside its service, whatever inner shims have run: no window is closed early; if it does not write CR0, all of CR0 is as that shim left it; if it leaves IF alone, IF is clear too |
| QuietRuns.QuietCallRestores | Library/FirmwareFixesLib/X64/RuntimeWriteProtectionDisable.nasm:49-51 | in such a run every matched call gives back its caller's WP, and all of its CR0 |
| QuietRuns.QuietHandlersSeeCallersCr0 | Library/FirmwareFixesLib/X64/RuntimeWriteProtectionDisable.nasm:38-55 | in such a run every interrupted shim whose own service has not returned with IF set has its caller's WP, and all of its CR0 |
| NestedRuns.HandlersSeeCallersCr0 | Library/FirmwareFixesLib/X64/RuntimeWriteProtectionDisable.nasm:38-55 | in every run a handler that interrupts a shim before its call sees the CR0 the shim was entered with, and after it the restored CR0, which is the entry value if WP was set there, unless the shim's own service returned with IF set |
| NestedRuns.HandlerMayComeFirst | Library/FirmwareFixesLib/X64/RuntimeWriteProtectionDisable.nasm:48-51 | after such a service a handler can run with WP still clear |
| NestedRuns.ServicesGetTheirArguments | Library/FirmwareFixesLib/X64/RuntimeWriteProtectionDisable.nasm:45-48 | in every run, interrupts included, each service gets its shim's arguments |
| NestedRuns.ShimsNeverStick | Library/FirmwareFixesLib/X64/RuntimeWriteProtectionDisable.nasm:34-116 | in every reachable state a shim on top can execute its next instruction |
| NestedRuns.PendingCall | Library/FirmwareFixesLib/X64/RuntimeWriteProtectionDisable.nasm:34-116 | between a call and its return the activation and all beneath it stay put, and its result and the CR0 it resumes with are its own service's |
| Permitted.AnyStateMayStart | Library/FirmwareFixesLib/X64/RuntimeWriteProtectionDisable.nasm:34-116 | a run may start in any state of other code |
| Permitted.AnyStepExtends | Library/FirmwareFixesLib/X64/RuntimeWriteProtectionDisable.nasm:34-116 | every run can be prolonged by any permitted step |
| Permitted.OtherCodeMayDoAnything | Library/FirmwareFixesLib/X64/RuntimeWriteProtectionDisable.nasm:48 | code outside the blob may reach any state, registers, CR0 and IF included, that leaves the blob and what suspended shims need alone |
| Permitted.InterruptMayArrive | Library/FirmwareFixesLib/X64/RuntimeWriteProtectionDisable.nasm:35-60 | an interrupt may arrive wherever IF is set, and its handler start anywhere on any stack |
| Permitted.ServiceMayReturn | Library/FirmwareFixesLib/X64/RuntimeWriteProtectionDisable.nasm:48-49 | a service may return in every state with RBX, RSI and RSP as it was entered with |
| Permitted.HandlerMayReturn | Library/FirmwareFixesLib/X64/RuntimeWriteProtectionDisable.nasm:35-60 | a handler may return in every state with the CR0 it found |
| Permitted.ShimMayBeCalledAgain | Library/FirmwareFixesLib/X64/RuntimeWriteProtectionDisable.nasm:34-116 | at any depth a shim may be called again wherever its frame is clear of the blob and of what suspended shims need |
| Relocation.StepMoves | Library/FirmwareFixesLib/X64/RuntimeWriteProtectionDisable.nasm:22-30 | one instruction of the blob and of its relocated copy keep registers and memory related |
| Relocation.CopyMayBeEntered | Library/FirmwareFixesLib/X64/RuntimeWriteProtectionDisable.nasm:29-130 | every entry of the original has its counterpart at every distance where the copy is clear of stack and targets |
| Relocation.CopySimulates | Library/FirmwareFixesLib/X64/RuntimeWriteProtectionDisable.nasm:29-130 | for every distance and every number of instructions the copy is in lockstep with the original |
| Relocation.CopyBehavesAlike | Library/FirmwareFixesLib/X64/RuntimeWriteProtectionDisable.nasm:29-130 | the copy calls the same service with the same registers, shifts only the return address it pushes, and returns to the same caller in the same state |
| DevicePath.ParseEncode | Driver/BlessDxe/BlessDxe.c:115-144 | the bytes of a node list parse back to it |
| DevicePath.EncodeParse | Driver/BlessDxe/BlessDxe.c:115-144 | the nodes of well-formed bytes encode back to exactly the bytes before the end-entire node |
| DevicePath.DuplicateIsSamePath | Driver/BlessDxe/BlessDxe.c:115 | the duplicate walked ends with its end-entire node and holds the same nodes |
| DevicePath.FindBootVolume | Driver/BlessDxe/BlessDxe.c:115-144 | the loop ends, stays in the buffer, and asks for a boot file iff the first hard-drive node is the last node, with its pointer on the end-entire node |
| DevicePath.HardDriveBytes | Driver/BlessDxe/BlessDxe.c:120-126 | for the bytes of one node of any type and 16-bit little-endian length, then a node of type 4 and sub-type 1, the decision is positive iff the first was not of type 4 and sub-type 1 |
| DevicePath.WalkDecides | Driver/BlessDxe/BlessDxe.c:120-144 | on well-formed bytes and given enough iterations the loop asks with its pointer on the end-entire node if the first hard-drive node is the last, and leaves otherwise |
| DevicePath.WalkDivergesExactlyOnZeroLength | Driver/BlessDxe/BlessDxe.c:120-144 | on arbitrary bytes the loop runs forever iff it meets a node of length zero |
| DevicePath.FourBytesDiverge | Driver/BlessDxe/BlessDxe.c:120-144 | four bytes, no well-formed path, on which the loop by itself runs forever |
| Requests.OneFirmwareCall | Driver/FatBinaryDxe/FatBinaryDxe.c:100-129 | a request through any chain, whatever each hook's services answer at its time, makes one firmware call with the fold of the hooks' rewrites from newest to oldest, returns its status, and the buffer passed on is still live during the call |
| Requests.BlessSendsBootFile | Driver/BlessDxe/BlessDxe.c:99-136 | if the located rest of the path is nodes without a hard drive and then one, and there is a boot file, the firmware gets exactly the request with that file's path |
| Requests.BlessSendsOwnPath | Driver/BlessDxe/BlessDxe.c:120-147 | if another node follows the first hard drive, there is none, or there is no boot file, the firmware gets exactly the request |
| Requests.BlessStandsAside | Driver/BlessDxe/BlessDxe.c:99-113 | likewise without BootPolicy, with a buffer, without a path, or when a look-up fails |
| Requests.FatBinarySendsFile | Driver/FatBinaryDxe/FatBinaryDxe.c:102-123 | a file read is passed on as the slice thinning chose, at that slice's address in the new block |
| Requests.FatBinarySendsBuffer | Driver/FatBinaryDxe/FatBinaryDxe.c:111-123 | a buffer that came along likewise, at its own address plus the slice's offset |
| Requests.FatBinarySendsNothing | Driver/FatBinaryDxe/FatBinaryDxe.c:102-123 | without buffer or readable file the firmware gets exactly the request |
| Requests.SuppliedSliceIsSent | Driver/FatBinaryDxe/FatBinaryDxe.c:111-123 | through any chain the firmware is given a slice of the supplied buffer whose pointer is where its bytes are |
| Requests.FileSliceIsSent | Driver/FatBinaryDxe/FatBinaryDxe.c:102-123 | through any chain without a buffer, it is given one of the file that was read, into a new block, iff one was |
| Requests.OrdersAgreeExactlyWhen | Driver/BlessDxe/BlessDxe.c:99-136 | given the same answers, the two installation orders of Bless and FatBinary hand down the same arguments iff Bless changes nothing or no file is readable under either path |
| Requests.NeighboursCommute | Driver/BlessDxe/BlessDxe.c:99-160 | in any chain, neighbouring Bless and FatBinary can be swapped when Bless would not rewrite what reaches them |
| Requests.PathFromAboveIsRead | Driver/FatBinaryDxe/FatBinaryDxe.c:102-114 | in any chain, a FatBinary that no buffer reaches reads and thins the file named by the path the hooks above have made |
| Requests.RewrittenPathIsRead | Driver/FatBinaryDxe/FatBinaryDxe.c:102-114 | with one Bless right above, that is the rewritten path |
| Requests.SuppliedBuffer | Driver/FatBinaryDxe/FatBinaryDxe.c:111-127 | a supplied live buffer is freed by the chain once, and each further FatBinary frees a pointer that is no live block |
| Requests.FileRequest | Driver/FatBinaryDxe/FatBinaryDxe.c:100-129 | without a buffer: no earlier block is lost, the file buffer is freed, one duplicate per rewrite stays, and there is one bad free per FatBinary below the reader |
| Requests.FreesCorrectlyExactlyWhen | Driver/FatBinaryDxe/FatBinaryDxe.c:111-127 | all frees are of live blocks iff no FatBinary is below the one that reads the file |
| Requests.OneFatBinaryFreesCorrectly | Driver/FatBinaryDxe/FatBinaryDxe.c:100-129 | a chain with at most one FatBinary frees correctly |
| Requests.TwoFatBinariesFreeBadly | Driver/FatBinaryDxe/FatBinaryDxe.c:111-127 | two FatBinary hooks and a readable file: one bad free |
| HookChain.Firmware.BlessPath | Driver/BlessDxe/BlessDxe.c:99-151 | the path rewrite and the pool it leaves: unchanged on every failing or non-matching path, one duplicate more after a rewrite |
| HookChain.Firmware.BlessLoadImage | Driver/BlessDxe/BlessDxe.c:74-161 | Bless's routine, through its saved pointer, does to the pool, the calls and the status what the chain's meaning says |
| HookChain.Firmware.FatBinaryLoadImage | Driver/FatBinaryDxe/FatBinaryDxe.c:76-130 | FatBinary's routine likewise, freeing after the forwarded call |
| HookChain.Firmware.LoadImage | Driver/BlessDxe/BlessDxe.c:153-160 | a call through the table terminates and equals the chain's meaning |
| HookChain.Install | Driver/BlessDxe/BlessDxe.c:200-223 | loading pushes the driver, restores the TPL, and the CRC is right whenever the TPL is below TPL_HIGH_LEVEL |
| HookChain.Uninstall | Driver/FatBinaryDxe/FatBinaryDxe.c:135-158 | unloading the top driver pops it, with the same care for TPL and CRC, and forgets the saved pointer in debug builds only |
| HookChain.Replay | Driver/BlessDxe/BlessDxe.c:166-223 | over any legal sequence of loads and unloads the table is the live stack's, CRC and TPL are kept, and with nothing left live it is the original again |
| HookChain.LoadThenUnloadAll | Driver/BlessDxe/BlessDxe.c:166-223 | loading any distinct drivers and unloading them in reverse is such a sequence, and leaves nothing live |
| HookChain.Follow | Driver/BlessDxe/BlessDxe.c:215-216 | following the saved pointers visits every live driver once, newest first, and ends at the firmware's routine |
| SupportMemory.Memory.InternalAllocateXnuSupportMemory | Library/XnuSupportMemoryAllocationLib/XnuSupportMemoryAllocationLib.c:27-48 | NULL and no change, or a free block that covers the size below the top address, of the given type |
| SupportMemory.SuitableAnswerIsGranted | Library/XnuSupportMemoryAllocationLib/XnuSupportMemoryAllocationLib.c:38-45 | every free page-aligned block below the top that the policy answers is granted |
| SupportMemory.Memory.AllocateXnuSupportCode | Library/XnuSupportMemoryAllocationLib/XnuSupportMemoryAllocationLib.c:51-62 | NULL, or one free page below the top address whose memory type is the requested page count; it covers the request iff that is at most a page |
| SupportMemory.Memory.AllocateXnuSupportData | Library/XnuSupportMemoryAllocationLib/XnuSupportMemoryAllocationLib.c:65-76 | the same |
| SupportMemory.Memory.FreeXnuSupportMemory | Library/XnuSupportMemoryAllocationLib/XnuSupportMemoryAllocationLib.c:80-89 | frees the pages the size rounds up to |
| SupportMemory.AllocationNeverAsAsked | Library/XnuSupportMemoryAllocationLib/XnuSupportMemoryAllocationLib.c:58-61 | the block the public functions grant covers the request iff it is at most a page, and in the memory type meant only when nothing was asked for |
| SupportMemory.FreeUndoesOnePageExactlyWhen | Library/XnuSupportMemoryAllocationLib/XnuSupportMemoryAllocationLib.c:80-89 | a free restores the page map from before an allocation iff it names that page and a count of one |
| SupportMemory.FreeUndoesAllocationExactlyWhen | Library/XnuSupportMemoryAllocationLib/XnuSupportMemoryAllocationLib.c:51-89 | freeing with the size asked for restores the page map iff that size is at most a page |
| ImagePlacement.AlignValueIsCeiling | Library/KernelEntryNotifyImageLib/KernelEntryNotifyImageLib.c:74-77 | the mask form yields the least multiple of a power-of-two alignment not below the address |
| ImagePlacement.RequestedSizeSuffices | Library/KernelEntryNotifyImageLib/KernelEntryNotifyImageLib.c:63-77 | on both sides of the page-size branch the aligned image lies within the requested bytes at a page-aligned base, and no more than the alignment, and that only above a page, is requested in addition |
| ImagePlacement.ImageFitsItsPageExactlyWhen | Library/KernelEntryNotifyImageLib/KernelEntryNotifyImageLib.c:69-77 | with the page actually allocated, the image lies inside iff it is at most a page and the page is aligned |
| ImagePlacement.LoadKernelEntryNotifyImage | Library/KernelEntryNotifyImageLib/KernelEntryNotifyImageLib.c:31-105 | a TE image, one without relocations or one in both machine classes gets nothing; any other gets the page the allocator offers, and entry point and page map follow from the outcome of every stage |
| ImagePlacement.FailedLoadRestoresExactlyWhen | Library/KernelEntryNotifyImageLib/KernelEntryNotifyImageLib.c:94-99 | a failed load leaves the page map as it was iff the page was aligned and the request between 1 byte and 16 MB |
| ImagePlacement.UnalignedPageIsLost | Library/KernelEntryNotifyImageLib/KernelEntryNotifyImageLib.c:94-99 | a one-byte image of two-page alignment that fails to load, given the page at 0x1000, loses that page |
| SupportRuns.PagesAre | Library/XnuSupportMemoryAllocationLib/XnuSupportMemoryAllocationLib.c:27-48 | the pages of a run are exactly those there before and those of the blocks held, and the two do not overlap |
| SupportRuns.BlocksAreDisjoint | Library/XnuSupportMemoryAllocationLib/XnuSupportMemoryAllocationLib.c:27-48 | any two blocks held share no byte and end at or below the top address |
| SupportRuns.FreeInFull | Library/XnuSupportMemoryAllocationLib/XnuSupportMemoryAllocationLib.c:80-89 | freeing any block in full, in any order, leaves the pages of the other blocks |
| SupportRuns.FreeBalancesExactlyWhen | Library/XnuSupportMemoryAllocationLib/XnuSupportMemoryAllocationLib.c:80-89 | a free of a block's address leaves the pages of the other blocks iff its page count is the block's |
| SupportRuns.LoadBalancesExactlyWhen | Library/KernelEntryNotifyImageLib/KernelEntryNotifyImageLib.c:69-99 | a load adds exactly its page or nothing iff it succeeds, or its page was aligned and its request between 1 byte and 16 MB |
| SupportRuns.StepBalancesExactlyWhen | Library/XnuSupportMemoryAllocationLib/XnuSupportMemoryAllocationLib.c:27-89 | a request keeps the pages those there before and of the blocks held iff it is no free of a block whose size asked for is not its own, and no granted load that fails without naming its own page |
| SupportRuns.RunBalancesExactlyWhen | Library/XnuSupportMemoryAllocationLib/XnuSupportMemoryAllocationLib.c:27-89 | page conservation: over any run of allocations, frees in any order and loads, the pages are at every moment those there before and the disjoint blocks held iff every request in it meets that condition |
| SupportRuns.ModestRunsBalance | Library/XnuSupportMemoryAllocationLib/XnuSupportMemoryAllocationLib.c:27-89 | requests of up to a page, correctly declared ones of any size, and images of up to page alignment and 16 MB always do, and then every free gives its block back in full |
| SupportRuns.GivenBackIsCovered | Library/XnuSupportMemoryAllocationLib/XnuSupportMemoryAllocationLib.c:27-48 | a block its holder's free gives back in full covers what was asked for, with no page too many |
| SupportRuns.Replay | Library/XnuSupportMemoryAllocationLib/XnuSupportMemoryAllocationLib.c:27-89 | a run serves every request in turn and records for each the page map, the blocks held and the address the allocator's policy gave |
| SystemTable.FirmwareFixes.FreeSystemTableCopy | Library/FirmwareFixesLib/SystemTable.c:33-46 | the copy, if any, is freed with the size read from its own bytes, and nothing else changes |
| SystemTable.FirmwareFixes.OverrideSystemTable | Library/FirmwareFixesLib/SystemTable.c:48-96 | an existing copy is kept untouched; otherwise a page is asked for, the table's bytes are written to it whatever lies behind, and either the image is shown the copy or, after a failed look-up, the copy is freed and no handle changes |
| SystemTable.Replay | Library/FirmwareFixesLib/SystemTable.c:31-96 | a run of overrides and frees does each of these in turn, recording pointer, handles, page map and bytes |
| SystemTable.CopyIsTable | Library/FirmwareFixesLib/SystemTable.c:59-66 | at every moment of a run, mSTCopy is NULL or points to bytes equal to the table's for HeaderSize |
| SystemTable.OverrideShowsItsCopy | Library/FirmwareFixesLib/SystemTable.c:59-95 | in a run, an override with both look-ups and a page granted makes that page the copy and the image's handle; any other without a copy leaves none and no changed handle |
| SystemTable.FreeLeavesNoCopy | Library/FirmwareFixesLib/SystemTable.c:33-46 | in a run, a free leaves no copy, and handles and bytes as they are |
| SystemTable.HeaderSizeIsLittleEndian | Library/FirmwareFixesLib/SystemTable.c:41 | the size used is the little-endian number after signature and revision |
| SystemTable.CopyStaysUntilFreed | Library/FirmwareFixesLib/SystemTable.c:59 | a copy once made is not made again, touched or shown to another image until it is freed, however many overrides follow |
| SystemTable.ShownByOverride | Library/FirmwareFixesLib/SystemTable.c:68-88 | over a run, a handle changes only by an override whose look-ups both succeed, and to the copy that override made |
| SystemTable.RunBalancesExactlyWhen | Library/FirmwareFixesLib/SystemTable.c:31-96 | over a run there is never more than the one page of the copy beyond those there before, live iff mSTCopy is non-NULL, iff the table is at most a page or no copy is ever given up |
| SystemTable.CopyStaysInItsPageExactlyWhen | Library/FirmwareFixesLib/SystemTable.c:62-66 | making a copy changes no byte outside the page it was given iff the table is at most a page or its rest equals the bytes already there |
| SystemTable.OtherBytesStay | Library/FirmwareFixesLib/SystemTable.c:31-96 | over a run with a table of at most a page, every byte outside the pages granted is as at the start |

## Left out

- SupportRuns.Replay: nobody frees a loaded image, as in the package.
- HookChain.Firmware.BlessPath: DuplicateDevicePath succeeds; when it fails the code reads through a NULL pointer, which has no outcome to state.
- Requests.OrdersAgreeExactlyWhen: it is stated for two hooks that get the same answers, as Requests.NeighboursCommute is.
- HookChain.Replay: drivers are unloaded last in, first out only; the code supports no other order.
- Instruction encodings: every instruction takes one address unit, and the blob's labels are offsets in those units.
- Arithmetic flags other than ZF, the one-instruction delay after STI, caches and TLBs.
- Registers the shims do not name; memory is a map from addresses to quadwords, and shim accesses never overlap partially.
- What GetBootFile and the other services allocate for themselves.
- The page table, memory map, firmware-service override and kernel-entry hook code of the package: PageTable.c, VirtualMemoryLib.c, MemoryMap.c, FirmwareServices.c, FirmwareFixesLib.c, KernelEntryHookLib.c, AppleBooterNotifyDxe.c and the 32-bit hook procedures are not part of this model.
- Null libraries, headers, build files and the notification image's own entry point, which has its counterpart in the hook code.
- The value of XNU_MAX_PHYSICAL_ADDRESS, which another package defines; it is a parameter.
