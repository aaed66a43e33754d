# LVM2 device layer: the aligned read path, in Dafny

This project models the IOKit device layer of the LVM2 kernel extension
(`kext/lvm2_osal_iokit.cpp`). The layer has four parts:

- allocation and release of raw memory (`lvm2_malloc`, `lvm2_free`);
- the I/O buffer, a small record that owns one buffer descriptor
  (`lvm2_io_buffer_create`, `lvm2_io_buffer_get_bytes`,
  `lvm2_io_buffer_destroy`);
- the device record, which holds a reader session on a storage object and
  the medium's block size (`lvm2_unix_device_create`,
  `lvm2_unix_device_destroy`);
- `lvm2_device_read`, the centre of the layer. It widens an arbitrary byte
  range to whole blocks of the medium and reads it, either straight into the
  caller's buffer or through a scratch buffer. From the scratch buffer it
  copies the data back and then releases it.

Each operation is a pure function over a ledger, `Memory.World`. The ledger
records:

- the live objects: raw blocks with their fields, and buffer descriptors
  with their bytes;
- the next fresh address;
- the multiset of open reader sessions on storage objects;
- a log of events: allocations, frees, descriptor creation and release, opens
  and closes, transfers and copies.

The outcomes of calls the layer cannot control are boolean parameters:
`IOMalloc`, `withCapacity`, `open` and `IOMedia::read`. The medium is a
function from byte offset to byte. The C integer types are subset types,
`u32` and `u64` in `CTypes`. The result types show that no `u32` or `u64`
quantity in the model wraps.

The read is modelled twice, as two Dafny functions.

- `DeviceRead.Read` follows the code as written. The one exception is line
  187, where it adds the requested `in_count` instead of the uninitialised
  local `count`.
- `DeviceRead.ReadCorrected` is the evidently intended read. The lead-out is
  0 when the range already ends on a boundary, and the write-back copies from
  byte `lead_in` of the scratch buffer.

Both functions run through one shared function, `DeviceRead.Transact`. It
takes the alignment and the write-back offset as parameters. So the two reads
differ only in what the source gets wrong.

Modules, one per file:

- `CTypes`: integer widths, limits and errno values.
- `Memory`: the ledger, the allocator and the framework's descriptor and
  medium operations.
- `IoBuffer` and `Device`: the two records and their lifecycles.
- `Align`: the alignment arithmetic of lines 175-187.
- `DeviceRead`: the read itself.

## Model

| member | source | states |
|---|---|---|
| Memory.Malloc | kext/lvm2_osal_iokit.cpp:30-42 | Succeeds exactly when the allocator does. On success: a fresh address not live before, holding a raw block of the requested size, and an allocation event. On failure: ENOMEM, with the caller's pointer and the whole ledger unchanged. |
| Memory.Free | kext/lvm2_osal_iokit.cpp:44-48 | The pointer afterwards is always NULL. Exactly the freed block leaves the live set. One free event is logged. |
| Memory.FreeUndoesMalloc | kext/lvm2_osal_iokit.cpp:30-48 | Freeing a block just allocated, with the size it was allocated with, restores the live objects exactly. |
| Memory.NewDescriptor | kext/lvm2_osal_iokit.cpp:194-202 | A failed descriptor allocation changes nothing. A successful one adds exactly one zero-filled descriptor of the requested capacity at a fresh address and logs its creation. |
| Memory.ReleaseDescriptor | kext/lvm2_osal_iokit.cpp:234-236 | Exactly that descriptor leaves the live set. One release event is logged. |
| Memory.MediaRead | kext/lvm2_osal_iokit.cpp:214-217 | A successful transfer fills the whole target descriptor with the medium's bytes from the given offset. A failed one leaves it as it was. No other object changes. The transfer is logged with the target's full length. |
| Memory.WriteBytes | kext/lvm2_osal_iokit.cpp:219-229 | Copies min(len, target length) bytes, taken from the given offset of the source, into the front of the target. The rest of the target is kept. Returns the number copied, which can be short. |
| Memory.OpenStorage | kext/lvm2_osal_iokit.cpp:121-127 | A granted open adds one reader session and logs it. A refused open changes nothing. |
| Memory.CloseStorage | kext/lvm2_osal_iokit.cpp:142-144 | Removes exactly one reader session on that storage object and logs it. |
| IoBuffer.Create | kext/lvm2_osal_iokit.cpp:56-87 | Returns 0 exactly when both allocations succeed. Then it gives a live buffer whose descriptor has the requested size, and exactly two new live objects. Any failure returns ENOMEM, leaves `*out_buf` as it was, and leaves the live set unchanged: a record whose descriptor failed is freed again. |
| IoBuffer.Destroy | kext/lvm2_osal_iokit.cpp:95-99 | Releases the descriptor, then frees the record, and clears the pointer. Exactly those two objects leave the live set. |
| IoBuffer.DestroyUndoesCreate | kext/lvm2_osal_iokit.cpp:56-99 | Destroying a freshly created buffer restores the live objects exactly. |
| Device.Create | kext/lvm2_osal_iokit.cpp:107-149 | Returns EINVAL exactly when the block size exceeds U32_MAX, and then nothing is opened. Returns EACCES exactly when the open is refused. Returns ENOMEM exactly when the record allocation fails after an open, and then the log shows the session opened and closed again. Every failure leaves `*out_dev`, the live set and the sessions unchanged. Success records the storage object and the unchanged block size, with one more session open. |
| Device.Destroy | kext/lvm2_osal_iokit.cpp:151-156 | Closes the device's one session, frees the record and clears the pointer. |
| Device.DestroyUndoesCreate | kext/lvm2_osal_iokit.cpp:107-156 | Creating and then destroying a device restores both the live objects and the open sessions exactly. |
| Device.CreateAcceptsZeroBlockSize | kext/lvm2_osal_iokit.cpp:114-119 | As written, creation succeeds with a block size of 0. |
| Device.CreateChecked | kext/lvm2_osal_iokit.cpp:114-119 | With block size 0 refused as well, EINVAL is returned exactly for 0 or sizes above U32_MAX. Every device produced has a positive block size. |
| Align.LeadIn | kext/lvm2_osal_iokit.cpp:175 | lead_in is below the block size and at most the position. Position minus lead_in is a multiple of the block size. |
| Align.LeadOut | kext/lvm2_osal_iokit.cpp:176-177 | lead_out lies in [1, block size] and pads lead_in + count to a boundary. It equals the whole block size exactly when lead_in + count is already on a boundary. |
| Align.TightLeadOut | kext/lvm2_osal_iokit.cpp:176-177 | The intended lead_out lies in [0, block size), pads to a boundary, and is 0 exactly on a boundary. |
| Align.Plan | kext/lvm2_osal_iokit.cpp:175-187 | The aligned range starts lead_in before the position and ends lead_out after the request. It contains the request and starts and ends on block boundaries. It overshoots the request's end by at least 1 byte and at most a block. |
| Align.TightPlan | kext/lvm2_osal_iokit.cpp:175-187 | The same framing with the intended lead_out. The overshoot is less than a block, and may be 0. |
| Align.PlanStart | kext/lvm2_osal_iokit.cpp:186 | Both plans start at the start of the block holding the position. |
| Align.DirectPathUnreachable | kext/lvm2_osal_iokit.cpp:176-180 | As written, the scratch condition holds for every request and every buffer length. A request ending on a boundary is padded by one whole extra block. |
| Align.TightDirectPath | kext/lvm2_osal_iokit.cpp:179-180 | With the intended lead_out, no scratch is needed exactly when the position and the count are multiples of the block size and the count equals the buffer length. |
| Align.StaleCountShortensScratch | kext/lvm2_osal_iokit.cpp:187 | Suppose line 187 adds a stale count at least two blocks short of in_count. Then the scratch size is below the in_count bytes the write-back copies. |
| Align.FirstBlockPlan | kext/lvm2_osal_iokit.cpp:175-187 | A non-empty request inside the first block is padded out to exactly that block. |
| Align.FirstBlockTightPlan | kext/lvm2_osal_iokit.cpp:175-187 | The intended plan pads such a request the same way. |
| Align.UnalignedExample | kext/lvm2_osal_iokit.cpp:175-187 | Block 512, position 100, count 50: lead_in 100, lead_out 362, aligned position 0, aligned count 512. This holds under both plans. |
| Align.LeadOutOnBoundary | kext/lvm2_osal_iokit.cpp:176-177 | On a boundary the source's lead_out is the whole block size; the intended one is 0. |
| Align.WholeBlockPlan | kext/lvm2_osal_iokit.cpp:175-187 | One whole block at offset bs: the source plans two blocks from bs; the intended plan is the block itself. |
| DeviceRead.FillAndRelease | kext/lvm2_osal_iokit.cpp:214-236 | After the scratch exists: the caller's descriptor ends up as the medium's bytes from the aligned position plus the write-back offset, as many as it holds, with the rest kept. A failed transfer leaves it untouched. The scratch is gone. The log shows the transfer, the copy only on success, then the release. |
| DeviceRead.ScratchEventsBalanced | kext/lvm2_osal_iokit.cpp:194-236 | A scratch descriptor created, used by steps that neither create nor release descriptors, and then released is balanced. It is created once and released once, and no other descriptor is released. |
| DeviceRead.AfterScratchTidy | kext/lvm2_osal_iokit.cpp:194-236 | Once the scratch allocation succeeds, the scratch path's log is: create, transfer, copy on success, release. Only the caller's bytes change. |
| DeviceRead.ScratchRead | kext/lvm2_osal_iokit.cpp:182-236 | The scratch path returns ENOMEM, EIO or 0 exactly by the two outcomes. ENOMEM leaves the ledger untouched. EIO copies nothing and changes no live object. Once the allocation succeeds, the new events are exactly: create the scratch descriptor, one transfer of the whole aligned range into it, the copy back only when the transfer succeeded, and its release. Only the caller's bytes change. |
| DeviceRead.ScratchReadDelivers | kext/lvm2_osal_iokit.cpp:219-231 | A successful scratch path delivers the medium's bytes from the aligned position plus the write-back offset. |
| DeviceRead.DirectRead | kext/lvm2_osal_iokit.cpp:208-217 | The direct path is one transfer into the caller's descriptor and nothing else. It returns 0 exactly when the transfer succeeds and EIO otherwise. |
| DeviceRead.Transact | kext/lvm2_osal_iokit.cpp:179-238 | Takes the scratch path exactly when the plan requires it. ENOMEM comes only from a failed scratch allocation. No descriptor of the caller's is ever released, and every scratch descriptor is released exactly once. |
| DeviceRead.TransactDelivers | kext/lvm2_osal_iokit.cpp:214-231 | On success the caller's buffer holds the medium's bytes from the aligned position plus the write-back offset. On the direct path that is the position itself. |
| DeviceRead.TransactEvents | kext/lvm2_osal_iokit.cpp:194-236 | Once its allocation succeeds, the scratch path's new events are exactly: create, one transfer of the whole aligned range, the copy back only on success, release. The direct path's new events are exactly one transfer into the caller's descriptor. |
| DeviceRead.Read | kext/lvm2_osal_iokit.cpp:158-239 | Returns ERANGE exactly when in_count exceeds SSIZE_MAX, with nothing done. Otherwise: ENOMEM exactly when the scratch allocation fails, for every request, and then nothing is done; EIO exactly when the transfer fails, and then nothing is copied; 0 otherwise. Scratch buffers are released exactly once, and only the caller's bytes change. |
| DeviceRead.ReadDelivers | kext/lvm2_osal_iokit.cpp:219-222 | As written, a successful read delivers the medium's bytes starting at the block holding in_pos, not at in_pos. |
| DeviceRead.ReadAlwaysUsesScratch | kext/lvm2_osal_iokit.cpp:179-236 | As written, every read in range whose allocation succeeds has exactly these new events: create one scratch descriptor, one transfer of the whole aligned range into it, the copy back only on success, its release. |
| DeviceRead.ReadCorrected | kext/lvm2_osal_iokit.cpp:158-239 | The intended read keeps the ERANGE, ENOMEM and EIO behaviour. An aligned request that fills the buffer can no longer fail with ENOMEM. |
| DeviceRead.ReadCorrectedDelivers | kext/lvm2_osal_iokit.cpp:219-222 | Corrected, a successful read delivers exactly the medium's bytes from in_pos. |
| DeviceRead.ReadCorrectedDirect | kext/lvm2_osal_iokit.cpp:179-214 | Corrected, a request on block boundaries that fills the buffer is exactly one transfer at in_pos into the caller's descriptor. It fails only with EIO. |
| DeviceRead.ReadMisplacesUnalignedBytes | kext/lvm2_osal_iokit.cpp:219-222 | Suppose the medium's byte at the block start differs from its byte at in_pos. Then the first byte delivered as written is wrong, and the corrected read delivers the right one. |
| DeviceRead.FirstBlockRead | kext/lvm2_osal_iokit.cpp:175-222 | As written, a request inside the first block that fills the buffer has exactly these new events: create a scratch descriptor, one transfer of one block at offset 0 into it, a copy of in_count bytes, its release. The caller receives the medium's first in_count bytes. |
| DeviceRead.FirstBlockReadCorrected | kext/lvm2_osal_iokit.cpp:175-222 | Corrected, the same request receives the medium's bytes from in_pos. |
| DeviceRead.WholeBlockRead | kext/lvm2_osal_iokit.cpp:176-236 | As written, one whole aligned block into a buffer of that size has exactly these new events: create a scratch descriptor, one transfer of two blocks into it, a copy of one block, its release. |
| DeviceRead.WholeBlockReadCorrected | kext/lvm2_osal_iokit.cpp:176-214 | Corrected, the same request is one transfer into the caller's descriptor and nothing else. |

## Left out

- IOKit object internals are modelled only by their effect on the ledger:
  - `IOBufferMemoryDescriptor` is a byte sequence. A new one is zero-filled.
  - `IOMedia::read` fills the whole descriptor or, on failure, leaves it as
    it was. A partially filled descriptor on failure is not modelled.
  - `writeBytes` copies min(length, descriptor length) bytes.
- `release()` is modelled as freeing the descriptor: the layer holds the only
  reference. IOKit reference counting and the retain counts of the storage
  object are not modelled.
- `IOMalloc`/`IOFree`, `withCapacity`, `open` and `IOMedia::read` outcomes
  are boolean parameters. Real memory, addresses and alignment are not
  modelled.
- `LogError` diagnostics, including the short-copy warning at lines 223-228,
  are left out. They never change a result, and the model shows the read
  returning 0 whatever the copy length.
- There is no concurrency. The code has no synchronisation, and each call is
  modelled as atomic.
- The struct sizes, 8 and 24 bytes, are those of an LP64 build. They only
  label the allocator's blocks.
- IoBuffer.GetBytes: an accessor with no contract. It returns the
  descriptor's bytes, and every contract that mentions the caller's buffer
  is stated through it.
- The medium is unbounded, so a read past the end of the medium is not
  modelled. The extra block of finding 1 below would go past the end when
  a request ends on the medium's last block.
- DeviceRead.Read: models line 187 with `in_count` in place of the
  uninitialised `count`. The as-written value is indeterminate;
  Align.StaleCountShortensScratch covers what a stale value does.

## Findings

| source | as written | input that shows it | evidently intended | confidence | as-written member | corrected member |
|---|---|---|---|---|---|---|
| kext/lvm2_osal_iokit.cpp:176-180 | `lead_out = bs - (lead_in + count) % bs` is never 0, so the direct branch at 208-211 is dead. A request ending on a boundary reads one whole extra block. | block 512, position 512, count 512, buffer of 512 bytes: a 1024-byte scratch read from 512 | lead_out is 0 on a boundary, so this request is read straight into the caller's buffer | high (not executed) | Align.DirectPathUnreachable | Align.TightDirectPath |
| kext/lvm2_osal_iokit.cpp:187 | `aligned_count = lead_in + count + lead_out` reads the local `count` before it is assigned | any read in which that stale value is two blocks short of in_count: the scratch is smaller than the in_count bytes copied back | `lead_in + in_count + lead_out` | high (not executed) | Align.StaleCountShortensScratch | Align.Plan |
| kext/lvm2_osal_iokit.cpp:221-222 | the write-back copies from byte 0 of the scratch buffer | block 512, position 100, count 50: the caller receives medium bytes 0-49 instead of 100-149 | copy from byte lead_in of the scratch buffer | high (not executed) | DeviceRead.ReadMisplacesUnalignedBytes | DeviceRead.ReadCorrectedDelivers |
| kext/lvm2_osal_iokit.cpp:115 | only `mediaBlockSize > U32_MAX` is refused, so 0 is accepted and line 175 then divides by it | preferred block size 0 | refuse 0 with EINVAL as well | high (not executed) | Device.CreateAcceptsZeroBlockSize | Device.CreateChecked |
