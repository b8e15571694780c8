# mlx5 command interface, modelled in Dafny

This project models the core of a userspace driver for the mlx5 firmware
command interface, and proves properties of that model. The driver talks to
a ConnectX device through VFIO. It hands the firmware one command at a time
through a 64-byte command queue entry in DMA memory, with mailbox chains
carrying longer inputs and outputs.

What is modelled:

- **DMA allocator** (`DmaAllocator`, src/allocator.rs). A class over a
  bitmap of granularity-sized units. `Alloc` hands out *some* free run of
  `n` units together with a guard. Dropping the guard gives the run back,
  at most once. Live guards hold pairwise disjoint runs.
- **Command queue entry** (`Cqe`, src/cqe.rs). The 64-byte record, its
  pointer setters and its XOR signature.
- **Mailboxes** (`Mailboxes`, src/mailbox.rs). The bump allocator of
  0x400-byte slots and the chain builder. It splits a payload into
  0x200-byte pieces, then links, numbers, tokens and signs every block.
- **VFIO transport** (`VfioTransport`, src/cmdif/vfio.rs):
  - `exec_command`: the entry filled, both chains built in a fresh
    256-page scratch region, the doorbell rung and the reply gathered;
  - page negotiation (`handle_page_request`) over a map from device
    address to allocation guard;
  - bring-up (`initialize`).
- **Older `Mlx5CmdIf`** (`Mlx`, src/mlx.rs). It forwards to one copy of
  that transport.
- **Command interface trait** (`CmdIf`, src/cmdif.rs):
  - `do_command`'s status check;
  - the register accessors;
  - the shellcode buffer.
- **Wire codecs**: one encoder/decoder pair per command, output and
  register, with round trips and the unit tests' byte images. They cover:
  - the status header of src/types.rs;
  - src/types/*.rs;
  - src/commands/*.rs;
  - src/registers/*.rs.
- **MTCR port** (`MtcrAccess`, src/mtcr.rs). The vendor capability's
  control, address and data words drive a mock device of address spaces.
  ICMD commands run on top of them.
- **Microcontroller ALU reference** (`CheckData`, check_data.py). The
  reference functions work on Python's unbounded integers, modelled in
  `PyInt`. The model also covers the three test entry points.

All DMA memory is one `array<byte>`. The entry and the mailbox blocks are
views at offsets into it, so writes through one view are seen through the
others. Device addresses are the region's base plus an offset.

The device is a parameter in every module:

- on the VFIO transport, `firmware(n, input)` gives the completion of the
  n-th command rung in;
- on the ICMD port, `firmware(n, opcode, words)` gives the firmware's
  answer;
- byte access through the PCI capability is a map per address space.

The bring-up and page-negotiation contracts are stated over the log of
`do_command` calls this produces.

## Notes

These are places where the code behaves in a way a reader might not
expect, or where the declared sizes disagree with the real layouts. The
model follows the code in each case; none is claimed as a bug.

- **Output chain size.** `exec_command` builds the output chain from
  `outlen` zero bytes, so the chain also covers the 16 bytes the device
  returns inline. `outlen` 0x210 therefore gives two output blocks
  (`VfioTransport.VfioCmdIf.PrepareOutput`).
- **CREATE_MKEY `size()`.** It counts 16 bytes per translation octword.
  The request carries 8 bytes per entry, so the two agree only with two
  entries per octword (`CreateMKeyCodec.SizeVersusLength`).
- **DEALLOC_PD and DEALLOC_UAR.** They encode 20 bytes against a `size()`
  of 0x10.
- **MTRC_CTRL.** It encodes 16 bytes against a `size()` of 12.
- **MFBA.** It encodes 76 bytes against a `size()` of 0x10c.
- **Event-queue context.** It is written as 60 bytes although annotated
  64.
- **ACCESS_REGISTER.** The snapshot type carries the register image as
  32-bit words, while src/cmdif.rs hands it the register's bytes. The
  model sends bytes, and `AccessRegisterCodec.EncodeBytesOfWords` shows
  that the two agree on whole big-endian words.
- **Narrow fields.** Bit fields narrower than their Rust type keep their
  low bits when written. Round trips are stated for values that fit.
- **Negative page count.** `handle_page_request` negates it, which
  overflows for `i32::MIN`. The model takes the overflow-checked
  (debug-build) behaviour: a panic before any call is made. The
  `u32` address arithmetic of `write_command`/`read_command` is handled the
  same way.
- **Uncompiled snapshots.** The crate's module lists do not declare
  src/types/*, src/mlx.rs or src/registers/flash.rs. They are modelled as
  written, in modules of their own:
  - `AllocPdSnapshot`, `ManagePagesOldCodec` and `FlashRegisters`;
  - the other src/types/ codecs, which also stand in for the live
    commands of the same names that the transport sends.
- **Error type.** The error enum of src/error.rs lacks the `CmdIf` and
  `Command` variants that the command path raises. `Errors` declares them,
  and `Panic` stands for an `unwrap`, an out-of-range index or an
  overflow.

## Model

| member | source | states |
|---|---|---|
| Bytes.FromBE16 | src/types/issi.rs:33-37 | the 16-bit big-endian field read from two bytes is the value whose big-endian image is those bytes |
| Bytes.FromBE32 | src/types.rs:33-40 | the 32-bit big-endian field read from four bytes is the value whose big-endian image is those bytes |
| Bytes.FromBE64 | src/types/manage_pages.rs:20-30 | the 64-bit big-endian field read from eight bytes is the value whose big-endian image is those bytes |
| Bytes.BE16Inverse | src/types/issi.rs:33-37 | reading back a written 16-bit big-endian field gives the value |
| Bytes.BE24Inverse | src/commands/pd.rs:15-16 | reading back a written 24-bit big-endian field gives the value |
| Bytes.BE32Inverse | src/types.rs:33-40 | reading back a written 32-bit big-endian field gives the value |
| Bytes.BE64Inverse | src/types/manage_pages.rs:20-30 | reading back a written 64-bit big-endian field gives the value |
| Bytes.FromBE32Signed | src/types/query_pages.rs:25-30 | a signed 32-bit field is read as two's complement: the value is congruent to the unsigned reading modulo 2^32 |
| Bytes.BE32Signed | src/types/query_pages.rs:25-30 | a signed 32-bit field written in two's complement reads back as the value |
| Bytes.BE64sInverse | src/types/manage_pages.rs:20-30 | a list of 64-bit fields written back to back reads back as the list, whatever follows it |
| Bytes.BE64sInjective | src/types/manage_pages.rs:20-30 | two lists of 64-bit fields of the same length with the same image are equal |
| Bytes.FromBE32s | src/types/access_register.rs:6-16 | a byte string reads as 32-bit words exactly when its length is a multiple of four, one word per four bytes |
| Bytes.BE32sInverse | src/types/access_register.rs:6-16 | a list of 32-bit words written back to back reads back as the list |
| Bytes.BE32sReencode | src/types/access_register.rs:6-16 | a byte string that reads as words is the image of the words it reads as |
| Bytes.Halves | src/mailbox.rs:29-34 | the upper and lower 32-bit halves of a 64-bit pointer put back together give the pointer |
| Bytes.Split32 | src/mailbox.rs:29-34 | a pointer assembled from two 32-bit halves is below 2^64, and splitting it gives the halves back |
| Bytes.OverwriteAt | src/mailbox.rs:22-27 | writing bytes at an offset changes exactly the bytes in that window, to the written bytes |
| Bytes.OverwriteReadBack | src/mailbox.rs:22-27 | the window just written reads back as the bytes written |
| Bytes.OverwriteSliceOutside | src/mailbox.rs:22-27 | a write leaves every window it does not overlap unchanged |
| Bytes.XorFoldUpdate | src/mailbox.rs:36-53 | changing one byte of a block changes its XOR fold by that byte's old value XOR its new value |
| Bytes.SignatureSelfConsistent | src/cqe.rs:32-42 | a signature computed over the block with its own byte zeroed and then stored there makes the fold of the whole block, seeded with 0xff, equal to zero |
| Types.StatusFromByte | src/types.rs:46-105 | any byte decodes to a status whose byte is that byte again; it decodes to `UnknownError` exactly when the byte is none of the listed ids; it decodes to `Ok` exactly when the byte is 0x00 |
| Types.StatusRoundTrip | src/types.rs:46-105 | every status that has a wire form decodes back to itself from its byte |
| Types.StatusInjective | src/types.rs:46-105 | two statuses with a wire form share a byte exactly when they are the same status |
| Types.EncodeBaseOutput | src/types.rs:33-40 | the header is 8 bytes: the status, 3 padding bytes and the syndrome |
| Types.DecodeBaseOutput | src/types.rs:33-40 | the header decodes exactly when 8 bytes are present; byte 0 is the status and bytes 4..8 are the big-endian syndrome |
| Types.BaseOutputRoundTrip | src/types.rs:33-40 | an encoded header decodes back to itself, whatever bytes follow it |
| Types.BaseOutputPrefix | src/types.rs:33-40 | decoding reads only the first 8 bytes |
| Types.BaseOutputReencode | src/types.rs:33-40 | re-encoding a decoded header gives back its bytes, with the padding zeroed |
| Types.BaseOutputTestVector | src/types/issi.rs:113-128 | the unit test's reply header decodes to `UnknownError(0xab)` and syndrome 0x12345678 |
| Types.MagicPrefix | src/types/issi.rs:6 | a buffer made of the magic and then anything passes the magic check |
| Types.EncodeStatusOutput | src/commands/hca.rs:9-14 | an output that is only a header has the header's 8 bytes followed by the padding |
| Types.DecodeStatusOutput | src/commands/hca.rs:9-14 | such an output decodes exactly when the header and the padding are present, and it decodes to the header |
| Types.StatusOutputRoundTrip | src/commands/hca.rs:9-14 | an encoded header-only output decodes back to itself |
| Types.StatusOutputTestVector | src/types/issi.rs:113-128 | the test reply followed by padding decodes to status `UnknownError(0xab)` and syndrome 0x12345678 |
| AccessRegisterCodec.OpModFromU16 | src/types/access_register.rs:18-23 | an op_mod reads exactly when it is 0 (Write) or 1 (Read), and its value is the one read |
| AccessRegisterCodec.Encode | src/types/access_register.rs:35-40 | the request is as long as `size()` says: 16 bytes plus four per register word |
| AccessRegisterCodec.EncodeBytes | src/cmdif.rs:28-35 | the request the register accessors build is the 16-byte header followed by exactly the register's bytes |
| AccessRegisterCodec.EncodeBytesOfWords | src/types/access_register.rs:6-16 | a request whose data is words is the same bytes as one whose data is those words' big-endian images |
| AccessRegisterCodec.HeaderFields | src/types/access_register.rs:6-16 | the header holds the magic at 0..2, op_mod at 6..8, register_id at 10..12 and argument at 12..16, and the data follows it unchanged |
| AccessRegisterCodec.Decode | src/types/access_register.rs:6-16 | a decoded request's data words are exactly the bytes after the header |
| AccessRegisterCodec.RoundTrip | src/types/access_register.rs:6-16 | every request decodes back to itself from its own encoding |
| AccessRegisterCodec.BadOpMod | src/types/access_register.rs:18-23 | a request whose op_mod is neither 0 nor 1 does not decode |
| AccessRegisterCodec.EncodeOutput | src/types/access_register.rs:25-33 | the reply is the header, 8 padding bytes and four bytes per register word |
| AccessRegisterCodec.DecodeOutput | src/types/access_register.rs:25-33 | a reply decodes exactly when it has its 16 bytes of header and a whole number of words; its header is the leading header and its words are the bytes after byte 16 |
| AccessRegisterCodec.OutputRoundTrip | src/types/access_register.rs:25-33 | every reply decodes back to itself from its encoding |
| AccessRegisterCodec.OutputBytes | src/cmdif.rs:36 | the register's bytes are present exactly when the reply has its 16-byte header, and they are every byte after it |
| AccessRegisterCodec.TestVector | src/types/access_register.rs:52-67 | the unit test's request encodes to the listed 28 bytes, and that length is its `size()` |
| AllocPdSnapshot.SameLayout | src/types/alloc_pd.rs:5-29 | the earlier ALLOC_PD request is byte for byte the current one, with the same `size()` and `outlen()` |
| DmaAllocator.Mark | src/allocator.rs:34 | marking a run sets exactly the run's units to the given value and leaves every other unit as it was |
| DmaAllocator.MarkThenClear | src/allocator.rs:54-61 | taking a free run and giving it back restores the bitmap exactly |
| DmaAllocator.UnitsFit | src/allocator.rs:35-39 | the bytes of an allocated run lie inside the region, even when the region's length is not a whole number of units |
| DmaAllocator.Allocator.constructor | src/allocator.rs:23-30 | the allocator manages the region's length divided by the granularity units, all free, and no guard is live |
| DmaAllocator.Allocator.Alloc | src/allocator.rs:32-51 | the allocation fails exactly when no run of `n` free units exists, and then nothing changes; otherwise the run was free, is now marked, the guard's view starts `granularity * start` bytes in, is `granularity * n` bytes long and fits in the region, and it joins the live guards, whose runs stay pairwise disjoint |
| DmaAllocator.Allocator.HeldBits | src/allocator.rs:32-51 | every live guard's units are marked in the bitmap |
| DmaAllocator.Allocator.StillHeldAfterMark | src/allocator.rs:32-51 | marking a run that was free keeps every live guard's units marked and disjoint from the new run |
| DmaAllocator.Allocator.SetRun | src/allocator.rs:34 | the bitmap after the library marks a run is the old bitmap with that run set |
| DmaAllocator.Allocator.DeallocRelaxed | src/allocator.rs:59 | relaxed deallocation clears the run whether or not it was in use, and changes nothing else |
| DmaAllocator.AllocationGuard.constructor | src/allocator.rs:43-47 | a new guard belongs to its allocator, holds its region and has the view it was given |
| DmaAllocator.AllocationGuard.Drop | src/allocator.rs:54-62 | dropping a guard clears its run and removes it from the live guards; the region is taken out, so a second drop changes nothing |
| DmaAllocator.AllocThenDrop | src/allocator.rs:32-62 | an allocation that is dropped straight away leaves the bitmap and the live guards as they were |
| Cqe.FieldsLayout | src/cqe.rs:8-29 | the entry has its 18 registers, each inside the 0x40 bytes and ending before the next one begins |
| Cqe.FieldsDisjoint | src/cqe.rs:8-29 | no two registers of the entry overlap |
| Cqe.SignEntry | src/cqe.rs:32-42 | signing keeps the entry 0x40 bytes long |
| Cqe.SignEntrySigned | src/cqe.rs:32-42 | after signing, 0xff XOR all 64 bytes is zero, and only the signature byte at 0x3d has changed |
| Cqe.SignEntryIdempotent | src/cqe.rs:32-42 | signing an entry a second time leaves it as signing it once |
| Cqe.Entry.constructor | src/cqe.rs:8-9 | the entry is a view of 0x40 bytes of DMA memory at its offset |
| Cqe.Entry.Image | src/cqe.rs:8-9 | the view is exactly 0x40 bytes |
| Cqe.Entry.WriteU8 | src/cqe.rs:10 | a one-byte write changes that byte of the entry, and of the memory behind it, and nothing else |
| Cqe.Entry.WriteU32 | src/cqe.rs:11 | a 32-bit register written with `to_be` holds the value's big-endian image, and nothing else changes |
| Cqe.Entry.ReadU8 | src/cqe.rs:27 | a one-byte read returns that byte of the entry |
| Cqe.Entry.SetInputMb | src/cqe.rs:44-49 | the input mailbox pointer is stored big-endian, upper half at 0x08 and lower half at 0x0c, and nothing else changes |
| Cqe.Entry.SetOutputMb | src/cqe.rs:51-57 | the output mailbox pointer is stored big-endian, upper half at 0x30 and lower half at 0x34, and nothing else changes |
| Cqe.Entry.UpdateSignature | src/cqe.rs:32-42 | the entry becomes its signed image: it is then correctly signed, and only the signature byte differs |
| Cqe.PointerReassembles | src/cqe.rs:44-57 | the two stored 32-bit words, upper times 2^32 plus lower, give back the pointer |
| Cqe.PointerWriteLocal | src/cqe.rs:44-57 | a pointer write leaves every byte outside its eight bytes unchanged |
| Mailboxes.Chunks | src/mailbox.rs:84 | the payload splits into as many pieces as 0x200-byte blocks are needed for it, each piece non-empty and at most 0x200 bytes |
| Mailboxes.ChunkAt | src/mailbox.rs:84 | piece `i` is the payload from byte `0x200 * i`, cut at 0x200 bytes or at the end |
| Mailboxes.ChunksConcat | src/mailbox.rs:84 | the pieces put back together are the payload |
| Mailboxes.NoChunks | src/mailbox.rs:84-96 | there are no pieces, so no blocks, exactly when the payload is empty |
| Mailboxes.Assemble | src/mailbox.rs:10-19 | an assembled block is 0x240 bytes |
| Mailboxes.AssembleFields | src/mailbox.rs:10-19 | in an assembled block the data piece starts at byte 0, the next pointer is split big-endian over 0x230 and 0x234 and reassembles to the pointer, and the block number at 0x238 and the token at 0x23d read back as written |
| Mailboxes.SignBlock | src/mailbox.rs:36-53 | signing keeps the block 0x240 bytes long |
| Mailboxes.SignBlockSigned | src/mailbox.rs:36-53 | after signing, byte 0x23e equals 0xff XOR bytes 0x1c0..0x200, and 0xff XOR the whole 0x240-byte block is zero; only the two signature bytes at 0x23e and 0x23f have changed |
| Mailboxes.SignBlockIdempotent | src/mailbox.rs:36-53 | signing a signed block again changes nothing |
| Mailboxes.FillLocal | src/mailbox.rs:89-93 | the writes made to one block, in the order the loop makes them, give the assembled block with next pointer 0 |
| Mailboxes.Relink | src/mailbox.rs:86-88 | linking a block to its successor changes only its next pointer |
| Mailboxes.BlockWritesInside | src/mailbox.rs:89-93 | inside its own window, the writes to a block give the assembled block with next pointer 0 |
| Mailboxes.BlockWritesMiss | src/mailbox.rs:89-93 | the writes to a block leave every window it does not overlap unchanged |
| Mailboxes.BlockWritesOutside | src/mailbox.rs:89-93 | the writes to a block leave every byte outside it unchanged |
| Mailboxes.FillStepNew | src/mailbox.rs:84-96 | iteration `n` of the first loop turns block `n`'s window into the assembled block with next pointer 0 |
| Mailboxes.FillStepEarlier | src/mailbox.rs:86-88 | iteration `n` changes an earlier block only in block `n - 1`'s next pointer, to the address of block `n` |
| Mailboxes.FillStepOutside | src/mailbox.rs:84-96 | iteration `n` leaves every byte outside blocks `n - 1` and `n` unchanged |
| Mailboxes.FillShape | src/mailbox.rs:84-96 | after `k` iterations of the first loop, block `i` holds piece `i`, number `i`, the token and the address of block `i + 1` (0 for the last one), and memory outside the blocks is unchanged |
| Mailboxes.SignChainShape | src/mailbox.rs:98-100 | after signing `k` blocks, each of them is the signed version of what it held, and memory outside them is unchanged |
| Mailboxes.BuiltShape | src/mailbox.rs:81-103 | after the whole build, block `i` is piece `i` of the payload numbered `i`, carrying the token, linked to block `i + 1` (the last to 0) and signed, and no byte outside the blocks has changed |
| Mailboxes.BuiltHolds | src/mailbox.rs:81-103 | a built chain is in place over the memory it was built on |
| Mailboxes.HoldsMoved | src/mailbox.rs:81-103 | a chain stays in place when nothing in its slots changes |
| Mailboxes.HoldsRestaled | src/mailbox.rs:81-103 | a chain in place over one earlier memory is in place over any earlier memory with the same slots |
| Mailboxes.HoldsData | src/mailbox.rs:81-103 | block `i` of a chain in place begins with piece `i` of the payload |
| Mailboxes.WindowsApart | src/mailbox.rs:69-79 | the windows of two different slots do not overlap |
| Mailboxes.Mailbox.constructor | src/mailbox.rs:74-77 | a block is a view of 0x240 bytes of DMA memory at its slot, with its bus address |
| Mailboxes.Mailbox.Image | src/mailbox.rs:10-11 | the view is exactly 0x240 bytes |
| Mailboxes.Mailbox.SetData | src/mailbox.rs:22-27 | the data is written from block byte 0; writing succeeds exactly when the data fits in the 0x240-byte block, and otherwise the bytes that fit have been written |
| Mailboxes.Mailbox.SetNext | src/mailbox.rs:29-34 | the next pointer is stored big-endian at 0x230, and nothing else changes |
| Mailboxes.Mailbox.WriteToken | src/mailbox.rs:15 | the token byte at 0x23d is set, and nothing else changes |
| Mailboxes.Mailbox.WriteBlockNumber | src/mailbox.rs:14 | the block number is stored big-endian at 0x238, and nothing else changes |
| Mailboxes.Mailbox.UpdateSignature | src/mailbox.rs:36-53 | the block becomes its signed image and is then correctly signed |
| Mailboxes.WriteBlock | src/mailbox.rs:85-95 | one iteration of the first loop leaves memory as the iteration's step function says: the previous block relinked and this block's fields written |
| Mailboxes.SignNext | src/mailbox.rs:98-100 | signing block `k` in place extends the signed prefix by one block |
| Mailboxes.SignAll | src/mailbox.rs:98-100 | the second loop leaves memory with every block of the chain signed, first to last |
| Mailboxes.MailboxAllocator.constructor | src/mailbox.rs:62-67 | a new mailbox allocator covers its region from offset 0 |
| Mailboxes.MailboxAllocator.AllocateMailbox | src/mailbox.rs:69-79 | the offset moves on by 0x400; the block returned sits at the old offset, and the call panics exactly when that slot does not fit in the region |
| Mailboxes.MailboxAllocator.BuildMailbox | src/mailbox.rs:81-103 | the build succeeds exactly when the payload is empty or all its blocks fit the region, and otherwise panics; it returns one block per 0x200-byte piece in consecutive slots, leaves memory as the built chain and moves the offset on by 0x400 per block |
| CmdIf.ToBytes | src/types.rs:26-31 | every command's request is at least the 16 bytes of the command queue entry's inline input |
| CmdIf.DecodeOutput | src/cmdif.rs:23 | an output decodes only from a reply that holds the 8-byte header, and the header it carries is the reply's header |
| CmdIf.DoCommand | src/cmdif.rs:11-26 | a transport error is passed on; a reply shorter than the header is a decode error; a non-`Ok` status is reported with its syndrome before anything else is read; the call succeeds exactly when the transport did, the status is `Ok` and the whole output decodes, and then it returns that output |
| CmdIf.EncodeOutput | src/types.rs:26-31 | every output starts with the 8-byte header |
| CmdIf.OutputRoundTrip | src/cmdif.rs:23 | the output of a command reads back from its own bytes, whatever follows them |
| CmdIf.StatusOutRoundTrip | src/commands/hca.rs:9-14 | a header-only output of an HCA command or of SET_ISSI reads back from its bytes |
| CmdIf.AccessRegisterOutRoundTrip | src/types/access_register.rs:25-33 | an ACCESS_REGISTER reply reads back from its bytes, its register data being everything after the 16-byte head |
| CmdIf.DoCommandAccepts | src/cmdif.rs:11-26 | a reply with status `Ok` gives back exactly the output the firmware wrote |
| CmdIf.DoCommandRejects | src/cmdif.rs:15-21 | a reply with a failing status gives the command error with that status and syndrome, whatever the rest of the reply holds |
| CmdIf.DecodeRegister | src/cmdif.rs:36 | a register is read back as the same kind of register it was asked for |
| CmdIf.RegisterRoundTrip | src/cmdif.rs:34-36 | every register reads back from its own bytes, whatever follows them |
| CmdIf.RegisterAccess | src/cmdif.rs:30-35 | the register accessors send ACCESS_REGISTER with the given op_mod and argument, the register's id and the register's bytes |
| CmdIf.RegisterReply | src/cmdif.rs:35-38 | a failed command passes its error on; on success the register returned is the one decoded from the reply's register data |
| CmdIf.RegisterRequests | src/cmdif.rs:28-52 | a register read sends the ACCESS_REGISTER header with the register's id and then the register's bytes, with an outlen of the same size; a write differs from it only in the op_mod |
| CmdIf.ReadRegisterReply | src/cmdif.rs:28-52 | a reply with an `Ok` header followed by a register's bytes makes both accessors return that register |
| CmdIf.RegisterReplyAccepts | src/cmdif.rs:28-52 | for either op_mod, such a reply gives back the register the firmware wrote |
| CmdIf.SameKindDecodes | src/registers.rs:6-9 | registers with the same id are read by the same decoder |
| CmdIf.RunShellcode | src/cmdif.rs:54-63 | the command carries op_mod 0, three zero arguments and a 0xa0-byte buffer holding the code at its front and zeros after it; code longer than the buffer panics the copy |
| VfioTransport.Reply | src/cmdif/vfio.rs:183-192 | the reply the device writes for a chain of `k` output blocks is 16 inline bytes plus 0x200 bytes per block |
| VfioTransport.Piece | src/cmdif/vfio.rs:187-191 | the part of the reply meant for one output block is 0x200 bytes |
| VfioTransport.Completed | src/cmdif/vfio.rs:177-180 | the command succeeds exactly when the error code in the status byte is 0, and otherwise fails with `CmdIf(code)` |
| VfioTransport.NonEmptyChain | src/mailbox.rs:84 | a non-empty payload needs at least one block |
| VfioTransport.ChainCovers | src/mailbox.rs:84 | the blocks of a chain have room for the whole payload |
| VfioTransport.Request | src/cmdif/vfio.rs:141-167 | the entry as submitted is 0x40 bytes |
| VfioTransport.RequestFields | src/cmdif/vfio.rs:141-167 | the submitted entry has command type 7, the input length, the input chain pointer, the first 16 input bytes, 16 zero output bytes, the output chain pointer, the output length, token 0 and status 1 (owned by the device) |
| VfioTransport.HeadImage | src/cmdif/vfio.rs:141-146 | the entry after its first four writes is 0x40 bytes |
| VfioTransport.InputHalf | src/cmdif/vfio.rs:141-154 | the entry after the input half of the writes is 0x40 bytes |
| VfioTransport.OutputHalf | src/cmdif/vfio.rs:156-167 | the entry after the output half of the writes is 0x40 bytes |
| VfioTransport.HeadWrites | src/cmdif/vfio.rs:141-146 | the command type, the two cleared pointers and the input length, written in this order, give the head image |
| VfioTransport.InputWrites | src/cmdif/vfio.rs:147-154 | the inline input bytes and the input pointer (when there is a chain) give the input half |
| VfioTransport.OutputWrites | src/cmdif/vfio.rs:156-167 | the output length, the 16 zero output bytes, the output pointer (when there is a chain), token 0 and status 1 give the output half |
| VfioTransport.HalvesRequest | src/cmdif/vfio.rs:141-167 | the input half leaves the output pointer cleared, and the output half written over it is the request |
| VfioTransport.KeepsWrite | src/cmdif/vfio.rs:141-168 | a write inside the entry or inside the scratch region changes no other byte of DMA memory |
| VfioTransport.BuiltKeeps | src/cmdif/vfio.rs:151-164 | building a chain in the scratch region changes no byte outside it |
| VfioTransport.BuiltKeepsEntry | src/cmdif/vfio.rs:151-164 | building a chain in slots apart from the entry leaves the entry as it was |
| VfioTransport.WroteInline | src/cmdif/vfio.rs:184-186 | the device's inline reply bytes land at entry bytes 0x20..0x30 |
| VfioTransport.WroteBlock | src/cmdif/vfio.rs:187-191 | the device writing block `i`'s piece keeps the pieces already written and adds this one |
| VfioTransport.AfterBlocksWrote | src/cmdif/vfio.rs:187-191 | after the device has written the first `i` blocks, each holds its piece of the reply |
| VfioTransport.DeviceMemoryDelivers | src/cmdif/vfio.rs:170-191 | after the device's completion, the entry holds the inline reply and the status byte, and each output block holds its piece of the reply |
| VfioTransport.WroteStatus | src/cmdif/vfio.rs:174-177 | the status byte written last leaves the reply bytes in place |
| VfioTransport.BlockData | src/cmdif/vfio.rs:188-189 | each output block contributes its first 0x200 bytes |
| VfioTransport.Gathered | src/cmdif/vfio.rs:187-191 | the bytes gathered from `k` blocks are 0x200 bytes per block |
| VfioTransport.GatheredReply | src/cmdif/vfio.rs:183-192 | when each block holds its piece of the reply, the blocks gathered in chain order give back the reply after its 16 inline bytes |
| VfioTransport.ChainCarries | src/cmdif/vfio.rs:151-154 | the data gathered from a chain in place, cut to the payload's length, is the payload |
| VfioTransport.StagedInput | src/cmdif/vfio.rs:141-154 | with both chains in place, the input's first 16 bytes and the input chain's data, cut to the input's length, are the input |
| VfioTransport.EntryCarriesInput | src/cmdif/vfio.rs:141-168 | the signed request's inline bytes 0x10..0x20 and the input chain's data, cut to the input's length, are the input |
| VfioTransport.WriteSlots | src/cmdif/vfio.rs:141-168 | a write apart from a chain's slots leaves them as they were |
| VfioTransport.WriteKeepsChain | src/cmdif/vfio.rs:151-154 | a chain stays in place across a write apart from its slots, such as the input pointer's |
| VfioTransport.PointerKeepsChain | src/cmdif/vfio.rs:152-153 | the input chain stays in place when its first block's address is written into the entry, which lies apart from the scratch region |
| VfioTransport.OutputRestaled | src/cmdif/vfio.rs:161 | the output chain, built over the memory the input half left, is also in place over the memory before the command, because the two differ only in the entry and the input chain's slots |
| VfioTransport.BothStaged | src/cmdif/vfio.rs:151-164 | the input chain from the region's start together with the output chain right after its blocks is the staged command |
| VfioTransport.WriteBeforeChain | src/cmdif/vfio.rs:141-164 | a chain built after a write apart from its slots is in place over the memory before that write |
| VfioTransport.KeepsSlots | src/cmdif/vfio.rs:141-168 | a change confined to the entry and a region apart from a chain's slots leaves those slots as they were |
| VfioTransport.StagedEntryWrite | src/cmdif/vfio.rs:168 | both chains stay in place when the entry is rewritten |
| VfioTransport.ResizeTwice | src/cmdif/vfio.rs:192 | resizing to `n` and then to a length `k <= n` is resizing to `k` |
| VfioTransport.StepsExtend | src/cmdif/vfio.rs:98-112 | a further successful bring-up step extends the steps run |
| VfioTransport.StepsStop | src/cmdif/vfio.rs:98-112 | a failed step after `k` successful ones ends `initialize` with that step's error |
| VfioTransport.StepsDone | src/cmdif/vfio.rs:98-112 | when all seven steps succeed, `initialize` returns `Ok` |
| VfioTransport.InitOrder | src/cmdif/vfio.rs:98-112 | a successful `initialize` began its steps with ENABLE_HCA, QUERY_ISSI, SET_ISSI 1, QUERY_PAGES for boot pages, QUERY_HCA_CAP 1, QUERY_PAGES for init pages and INIT_HCA, in this order, and INIT_HCA was its last call |
| VfioTransport.StepFirst | src/cmdif/vfio.rs:98-112 | every step makes at least one call, and its first call is the step's own command |
| VfioTransport.PageRequestCalls | src/cmdif/vfio.rs:58-96 | a page request makes one or two calls and succeeds only if QUERY_PAGES did; a second call follows only a non-zero page count, and it grants pages exactly when the count is positive and asks for pages back exactly when it is negative |
| VfioTransport.VfioCmdIf.constructor | src/cmdif/vfio.rs:33-56 | `new` leaves the allocator over the whole DMA region with only the entry's page taken, no pages given to the device, and the entry's address in the init segment, where its two words reassemble the address |
| VfioTransport.VfioCmdIf.SetupCmdqPhyAddr | src/cmdif/vfio.rs:118-131 | the address is written big-endian, upper word at 0x10 and lower word at 0x14 of the init segment, and the two words reassemble it; nothing else changes |
| VfioTransport.VfioCmdIf.DeviceStep | src/cmdif/vfio.rs:170-180 | the device's completion leaves memory as the delivered reply and status byte say |
| VfioTransport.VfioCmdIf.ReadOutput | src/cmdif/vfio.rs:183-195 | the output is the entry's 16 output bytes then 0x200 bytes of each output block in chain order, resized to `outlen` |
| VfioTransport.VfioCmdIf.ReadInline | src/cmdif/vfio.rs:184-186 | the 16 output bytes are read from entry bytes 0x20..0x30 |
| VfioTransport.VfioCmdIf.ReadBlocks | src/cmdif/vfio.rs:187-191 | the blocks' bytes are gathered in chain order |
| VfioTransport.VfioCmdIf.ScratchApart | src/cmdif/vfio.rs:137-138 | the scratch region and the entry's page are different live runs, so they do not overlap |
| VfioTransport.VfioCmdIf.WriteInline | src/cmdif/vfio.rs:147-149 | `write_u8` of each byte in turn writes the bytes at the entry offset, and nothing else changes |
| VfioTransport.VfioCmdIf.WriteHead | src/cmdif/vfio.rs:141-146 | the first four writes leave the head image, changing only the entry |
| VfioTransport.VfioCmdIf.EntryOnly | src/cmdif/vfio.rs:141-168 | memory that differs only inside the entry is the old memory with the entry's new image written over it |
| VfioTransport.VfioCmdIf.BuildChain | src/cmdif/vfio.rs:151-164 | a chain builds exactly when the payload is empty or its blocks fit the scratch region, and otherwise panics; DMA memory is then the chain of the payload's 512-byte pieces built from the allocator's next slot and address with token 0 (so block `i` holds piece `i`, numbered `i`, linked to block `i + 1` and signed), the entry is untouched and no byte outside those slots changes |
| VfioTransport.VfioCmdIf.PrepareInput | src/cmdif/vfio.rs:141-154 | the input half succeeds exactly when the input has its 16 inline bytes and its chain fits, and otherwise panics; the entry is then the input half with the input pointer 0 when all input is inline, the scratch region's first slots hold the chain of the input past its first 16 bytes, and nothing outside the entry and the chain changes |
| VfioTransport.VfioCmdIf.InputChain | src/cmdif/vfio.rs:151-154 | the input chain builds exactly when it fits the scratch region; the slots from the region's start then hold the chain of the given bytes, and the entry has the first block's address as input pointer, or is untouched when there are no blocks |
| VfioTransport.VfioCmdIf.LinkInput | src/cmdif/vfio.rs:152-153 | writing the first input block's address changes exactly the entry's input pointer field, and keeps the chain and all memory outside the entry and the chain's slots |
| VfioTransport.VfioCmdIf.PrepareOutput | src/cmdif/vfio.rs:156-164 | the output half succeeds exactly when `outlen` is 0 or its zero-filled chain fits after the input blocks, and otherwise panics; the entry is then the output half with the output pointer 0 for an empty chain, and the slots from the allocator's next one hold the chain of `outlen` zero bytes |
| VfioTransport.VfioCmdIf.WriteOutputHead | src/cmdif/vfio.rs:156-159 | the output length and 16 zero output bytes are written, changing only the entry |
| VfioTransport.VfioCmdIf.WriteTail | src/cmdif/vfio.rs:162-167 | the output pointer (when there is a chain), token 0 and status 1 are written, changing only the entry |
| VfioTransport.VfioCmdIf.PrepareEntry | src/cmdif/vfio.rs:141-168 | preparing the entry succeeds exactly when the input has 16 bytes and both chains fit the scratch region, and otherwise panics; the entry is then the signed request, the region holds the input chain from its start and the chain of `outlen` zero bytes right after it, and nothing outside the entry and the region changes |
| VfioTransport.VfioCmdIf.PrepareHalves | src/cmdif/vfio.rs:141-164 | the two halves succeed exactly when the input has 16 bytes and both chains fit the scratch region, and otherwise panic; the entry is then the unsigned request and the region holds both chains |
| VfioTransport.VfioCmdIf.StageOutput | src/cmdif/vfio.rs:156-164 | after the input half, the output half succeeds exactly when both chains fit the scratch region, and otherwise panics; the entry is then the unsigned request with both pointers, both chains are in place over the memory before the command, and only the entry and the two chains' slots changed |
| VfioTransport.VfioCmdIf.StagedChains | src/cmdif/vfio.rs:151-164 | the input chain built first and the output chain built in the slots after it are both in place afterwards, and only the entry and those two chains' slots differ from the memory before the command |
| VfioTransport.VfioCmdIf.SignRequest | src/cmdif/vfio.rs:168 | the entry becomes its signed image, and no other byte changes |
| VfioTransport.VfioCmdIf.Complete | src/cmdif/vfio.rs:170-195 | after the doorbell, the result is the device's completion for this command: an error for a non-zero code, otherwise the reply resized to `outlen`; the command counter advances by one |
| VfioTransport.VfioCmdIf.Ring | src/cmdif/vfio.rs:141-172 | the doorbell rings exactly when both chains fit the scratch region, with the signed request in the entry, both chains in the region and 1 written big-endian at 0x18 of the init segment; otherwise it panics with the init segment untouched |
| VfioTransport.VfioCmdIf.Submit | src/cmdif/vfio.rs:141-195 | the result is the device's outcome for this command when both chains fit and a panic otherwise; the entry submitted is the signed request, the memory at the doorbell holds both chains, the entry's inline 16 bytes and the input chain's data give back the input, the doorbell was rung, and only the entry and the scratch region changed |
| VfioTransport.VfioCmdIf.Outcome | src/cmdif/vfio.rs:135-196 | a successful result is `outlen` bytes long, and a command whose chains do not fit panics |
| VfioTransport.VfioCmdIf.ExecCommand | src/cmdif/vfio.rs:135-196 | `exec_command` returns what the device answered for a command whose 256-page scratch region was free and whose chains fit it, and panics otherwise (the `unwrap`s); a submitted command's entry is the signed request, the memory at the doorbell holds both chains in the scratch region, and the entry's inline bytes and the input chain give back the input; the region is given back on every return, so the bitmap and the live guards are as before, and the doorbell rang only when the command was submitted |
| VfioTransport.VfioCmdIf.SubmitScratch | src/cmdif/vfio.rs:139-196 | with the scratch run taken from bitmap `bits`, the result is the device's outcome when both chains fit and a panic otherwise; the bitmap is `bits` again afterwards, since the guard is dropped on every return, and a rung command's entry, chains and doorbell are as for `Submit` |
| VfioTransport.VfioCmdIf.TakeScratch | src/cmdif/vfio.rs:138 | the scratch allocation fails exactly when no 256 free pages are in a row; otherwise it is a fresh live guard of 0x100000 bytes at its run's address |
| VfioTransport.VfioCmdIf.GiveBack | src/cmdif/vfio.rs:192-196 | dropping the scratch guard restores the bitmap as it was before the allocation |
| VfioTransport.VfioCmdIf.Exec | src/cmdif/vfio.rs:135-196 | a successful result comes from a command that was rung in and is `outlen` bytes long; one that could not ring panics |
| VfioTransport.VfioCmdIf.DoCommand | src/cmdif.rs:11-26 | `do_command` over this transport is the header check applied to what `exec_command` returned for the command's bytes and outlen; the allocator is as before, and the call is logged |
| VfioTransport.VfioCmdIf.TakePage | src/cmdif/vfio.rs:67 | a page allocation fails exactly when no page is free, and then the bitmap and the live guards are unchanged; otherwise the fresh one-page guard's unit was free and is now the only unit newly set (`Mark(old, start, 1, true)`), the guard joins the live guards, and its address is the page address of that unit and not yet in the map |
| VfioTransport.VfioCmdIf.AllocatePages | src/cmdif/vfio.rs:64-72 | the loop adds distinct new addresses to the page map, each with a fresh guard, and keeps every entry already there; it adds `n` of them unless the allocator ran out of pages; the allocator changed exactly as the map did (`AllocatorFollows`): the new guards joined the live set and their pages' units were set, nothing else |
| VfioTransport.VfioCmdIf.AddPage | src/cmdif/vfio.rs:67-71 | one page is allocated and inserted under its address, which was not in the map: its fresh guard joins the live guards, its unit was free, and the allocator moved as the map did (by `FollowsAddOne`, exactly: that unit set, no other changed); when no page is free the map, the bitmap and the live guards are unchanged |
| VfioTransport.VfioCmdIf.ReturnPages | src/cmdif/vfio.rs:87-91 | every address the device handed back is removed from the page map, and addresses not in it are ignored; the guards removed are dropped from the live set and their pages' units freed, nothing else in the allocator changing (`AllocatorFollows`) |
| VfioTransport.VfioCmdIf.RemovePage | src/cmdif/vfio.rs:90 | removing one address leaves the map without it and otherwise unchanged; when the map held it, its guard leaves the live set and exactly its unit is cleared in the bitmap; when not, the bitmap and the live guards are unchanged |
| VfioTransport.VfioCmdIf.HandleCount | src/cmdif/vfio.rs:63-92 | for a page count the calls made and the page map afterwards are as `handle_page_request` prescribes: grant for positive, reclaim for negative, nothing for zero; the allocator's live guards and bitmap moved exactly as the map did (`AllocatorFollows`) |
| VfioTransport.VfioCmdIf.GrantPages | src/cmdif/vfio.rs:63-77 | for a positive count, either the allocator ran out (a panic, no call made) or `n` new pages were added and MANAGE_PAGES AllocationSuccess was sent with their addresses; its result is that call's; the allocator moved exactly as the map did (`AllocatorFollows`) |
| VfioTransport.VfioCmdIf.ReclaimPages | src/cmdif/vfio.rs:78-92 | for a negative count, one MANAGE_PAGES HCAReturnPages call asks for `-n` pages; on success the addresses it returned leave the page map, on failure the map is unchanged; either way the allocator moved exactly as the map did (`AllocatorFollows`) |
| VfioTransport.FollowsAddOne | src/cmdif/vfio.rs:67-71 | for one page inserted under a new address with a new guard, `AllocatorFollows` holds exactly when the guard joined the live set and the page's unit alone was set (both directions) |
| VfioTransport.FollowsAdd | src/cmdif/vfio.rs:67-71 | allocating a page under a new address extends what earlier page moves did to the allocator |
| VfioTransport.FollowsRemove | src/cmdif/vfio.rs:90 | dropping the guard of an address the map held, and clearing its unit, extends what earlier page moves did to the allocator |
| VfioTransport.FollowsThen | src/cmdif/vfio.rs:64-91 | two runs of page moves that only add, or only remove, compose into one whose allocator effect is both |
| VfioTransport.VfioCmdIf.HandlePageRequest | src/cmdif/vfio.rs:58-96 | the calls made are QUERY_PAGES then what its page count calls for, a QUERY_PAGES failure is returned at once, and the page map changes as the granted and returned pages say; the allocator's live guards and bitmap moved exactly as the map did (`AllocatorFollows`) |
| VfioTransport.VfioCmdIf.RunStep | src/cmdif/vfio.rs:98-112 | one bring-up step extends the steps run after success, or ends `initialize` with its error |
| VfioTransport.VfioCmdIf.RunSteps | src/cmdif/vfio.rs:98-112 | the remaining steps run in order up to the first error |
| VfioTransport.VfioCmdIf.Initialize | src/cmdif/vfio.rs:98-112 | the seven bring-up steps run in order, each only after the one before succeeded; the result is `Ok` exactly when all seven ran, and otherwise the error of the step that failed |
| Mlx.Mlx5CmdIf.constructor | src/mlx.rs:35-58 | `new` leaves the same state as the trait implementation's: no pages given to the device yet, and the entry's address written big-endian into the init segment |
| Mlx.Mlx5CmdIf.ExecCommand | src/mlx.rs:135-196 | `exec_command` returns what the device answered for a command that could be rung in, and panics otherwise; a successful reply is `outlen` bytes long and the allocator is as before; a submitted command's entry is the signed request, the memory at the doorbell holds both chains, and the entry's inline bytes and the input chain give back the input |
| Mlx.Mlx5CmdIf.DoCommand | src/mlx.rs:198-214 | `do_command` is the header check applied to `exec_command`'s result for the command's bytes, and the call is logged |
| Mlx.Mlx5CmdIf.HandlePageRequest | src/mlx.rs:60-98 | QUERY_PAGES, then the grant or reclaim its page count calls for, with the page map updated accordingly and the allocator's live guards and bitmap moved exactly as the map did |
| Mlx.Mlx5CmdIf.Initialize | src/mlx.rs:100-114 | the seven bring-up steps in order, up to the first error, whose error is returned |
| Mlx.Mlx5CmdIf.ReadRegister | src/mlx.rs:217-229 | ACCESS_REGISTER with op_mod Read and the register's bytes; the result is the register decoded from the reply's data, or the command's error |
| Mlx.Mlx5CmdIf.WriteRegister | src/mlx.rs:230-241 | the same with op_mod Write; the result is the register as the device wrote it back |
| CreateMKeyCodec.AccessModeFromBits | src/commands/create_mkey.rs:86-92 | an access mode reads exactly when its two bits are 0 (PA), 1 (MTT) or 2 (KLMs), and its bits are the ones read |
| CreateMKeyCodec.EncodeHead | src/commands/create_mkey.rs:33-60 | the context's first part is 16 bytes |
| CreateMKeyCodec.EncodeTail | src/commands/create_mkey.rs:62-71 | the context's second part is 48 bytes |
| CreateMKeyCodec.EncodeContext | src/commands/create_mkey.rs:13-14 | the context is 64 bytes, as `bytes = "64"` demands |
| CreateMKeyCodec.ReadAccessByte | src/commands/create_mkey.rs:38-50 | the access mode read from the access byte is its low two bits |
| CreateMKeyCodec.AccessByteFields | src/commands/create_mkey.rs:38-50 | the six flags and the access mode read back from the byte they are packed into |
| CreateMKeyCodec.DecodeHead | src/commands/create_mkey.rs:33-60 | the context's first 16 bytes decode exactly when the access-mode bits are not 3 |
| CreateMKeyCodec.DecodeContext | src/commands/create_mkey.rs:31-72 | a context decodes exactly when 64 bytes are present and the access-mode bits are not 3; every narrow field it gives fits its width |
| CreateMKeyCodec.HeadBits | src/commands/create_mkey.rs:34-35 | the single bits free (bit 6 of byte 0) and length64 (bit 7 of byte 12) read back as written |
| CreateMKeyCodec.HeadRoundTrip | src/commands/create_mkey.rs:33-60 | the first 16 bytes of a context whose narrow fields fit read back as its flags, access mode, qpn, mkey, length64 and pd |
| CreateMKeyCodec.TailPieces | src/commands/create_mkey.rs:62-71 | in the 48-byte tail, start_addr is at 0..8, len at 8..16, bsf_octword_size at 16..20, translation_octword_size at 36..40 and the log_entry_size byte at 43 |
| CreateMKeyCodec.TailRoundTrip | src/commands/create_mkey.rs:62-71 | the tail reads back as start_addr, len, the two sizes and log_entry_size |
| CreateMKeyCodec.ContextRoundTrip | src/commands/create_mkey.rs:31-72 | a context whose narrow fields fit reads back from its 64 bytes, whatever follows |
| CreateMKeyCodec.ContextTruncates | src/commands/create_mkey.rs:52-71 | only the low 24 bits of qpn and pd and the low 5 bits of log_entry_size are written |
| CreateMKeyCodec.AccessModeThreeFails | src/commands/create_mkey.rs:86-92 | the bit pattern 3 in the access-mode bits makes the context undecodable |
| CreateMKeyCodec.Prefix | src/commands/create_mkey.rs:6-17 | the request up to its translation entries is 0x110 bytes |
| CreateMKeyCodec.PrefixAround | src/commands/create_mkey.rs:6-17 | the prefix laid out around any 64 context bytes is 0x110 bytes |
| CreateMKeyCodec.FlagsByteFields | src/commands/create_mkey.rs:9-12 | pg_access is bit 7 and umem_valid is bit 6 of byte 12 |
| CreateMKeyCodec.PrefixFieldsAt | src/commands/create_mkey.rs:6-17 | the magic is at 0..2, the flags byte at 12, the context at 0x10..0x50 and the actual size big-endian at 0x60..0x64 |
| CreateMKeyCodec.Encode | src/commands/create_mkey.rs:6-19 | the request is the 0x110-byte prefix and 8 bytes per translation entry |
| CreateMKeyCodec.SizeVersusLength | src/commands/create_mkey.rs:74-79 | `size()` equals the encoded length exactly when there are two entries per octword counted, which the `count` on the entries does not enforce |
| CreateMKeyCodec.Decode | src/commands/create_mkey.rs:6-19 | a decoded request has exactly `translation_octwords_actual_size` entries |
| CreateMKeyCodec.PrefixRoundTrip | src/commands/create_mkey.rs:6-17 | the prefix reads back as pg_access, umem_valid, the context and the actual size |
| CreateMKeyCodec.RoundTrip | src/commands/create_mkey.rs:6-19 | a request whose count equals its number of entries, and whose context's narrow fields fit, reads back from its encoding, whatever follows |
| CreateMKeyCodec.DecodeOutput | src/commands/create_mkey.rs:21-29 | the reply decodes exactly when 12 bytes are present; mkey_index is the 24 bits at 9..12 |
| CreateMKeyCodec.TestAccessByte | src/commands/create_mkey.rs:108-131 | the unit test's flags and access mode pack into `(15 << 2) \| 1` |
| CreateMKeyCodec.HeadTestVector | src/commands/create_mkey.rs:129-134 | the unit test's context gives the listed bytes 0..16 |
| CreateMKeyCodec.TailTestVector | src/commands/create_mkey.rs:129-147 | the unit test's context gives the listed bytes 16..64 |
| CreateMKeyCodec.ContextTestVector | src/commands/create_mkey.rs:98-147 | the unit test's context encodes to the listed 64 bytes |
| EqCodec.EncodeHead | src/commands/eq.rs:9-23 | the context's first part is 16 bytes |
| EqCodec.EncodeTail | src/commands/eq.rs:25-35 | the context's second part is 44 bytes |
| EqCodec.EncodeContext | src/commands/eq.rs:6-36 | the context is written as 60 bytes (the `bytes = "64"` bound is not reached) |
| EqCodec.DecodeHead | src/commands/eq.rs:9-23 | the narrow fields read from the first 16 bytes fit their widths: status and st 4 bits, log_eq_size 5 bits |
| EqCodec.DecodeTail | src/commands/eq.rs:28-29 | log_page_size read from the tail fits its 5 bits |
| EqCodec.DecodeContext | src/commands/eq.rs:6-36 | a context decodes exactly when its 60 bytes are present, and every narrow field it gives fits its width |
| EqCodec.HeadBits | src/commands/eq.rs:9-16 | status in the high nibble of byte 0, ec and oi at bits 2 and 1 of byte 1, st in the low nibble of byte 2 and log_eq_size in the low 5 bits of byte 12 read back as written |
| EqCodec.HeadRoundTrip | src/commands/eq.rs:9-23 | the first 16 bytes read back as status, ec, oi, st, log_eq_size and uar_page |
| EqCodec.TailRoundTrip | src/commands/eq.rs:25-35 | the tail reads back as intr, log_page_size and the two counters |
| EqCodec.ContextRoundTrip | src/commands/eq.rs:6-36 | a context whose narrow fields fit reads back from its bytes, whatever follows |
| EqCodec.ContextTruncates | src/commands/eq.rs:6-36 | only the low bits of a narrow field are written: 4 of status and st, 5 of the two log sizes, 24 of uar_page and the two counters |
| EqCodec.HeadTestVector | src/commands/eq.rs:185-189 | the unit test's context gives the listed bytes 0..16 |
| EqCodec.TailTestVector | src/commands/eq.rs:190-200 | the unit test's context gives the listed bytes 16..60 |
| EqCodec.ContextTestVector | src/commands/eq.rs:160-202 | the unit test's context encodes to the listed 60 bytes |
| EqCodec.EncodeCreateEQ | src/commands/eq.rs:38-49 | the CREATE_EQ request is 0x110 bytes plus eight per physical address |
| EqCodec.CreateEQAround | src/commands/eq.rs:38-49 | the request laid out around any 60 context bytes has that length |
| EqCodec.CreateEQSize | src/commands/eq.rs:63-65 | `size()` is the encoded length |
| EqCodec.CreateEQAt | src/commands/eq.rs:38-49 | the magic is at 0..0x10, the context and four zeros at 0x10..0x50, event_bitmask at 0x58..0x60 after eight zeros, zeros to 0x110 and the addresses after that |
| EqCodec.CreateEQFieldsReadBack | src/commands/eq.rs:38-49 | the context, event_bitmask and every physical address read back from their places |
| EqCodec.EncodeCreateEQOutput | src/commands/eq.rs:51-58 | the CREATE_EQ reply is 16 bytes |
| EqCodec.DecodeCreateEQOutput | src/commands/eq.rs:51-58 | the reply decodes exactly when its 16 bytes are present; the queue number is byte 11 |
| EqCodec.CreateEQOutputRoundTrip | src/commands/eq.rs:51-58 | a reply reads back from its encoding, whatever follows |
| EqCodec.CreateEQSlices | src/commands/eq.rs:225-265 | the slices the unit test checks hold the context with four zeros, eight zeros with event_bitmask, and the addresses |
| EqCodec.CreateEQTestVector | src/commands/eq.rs:204-266 | the unit test's request is 0x120 bytes, its `size()`, and each slice is the one listed |
| EqCodec.RequestLayout | src/commands/eq.rs:72-154 | DESTROY_EQ, QUERY_EQ and GEN_EQE are as long as their `size()`; each is magic `03 op`, zeros, the queue number at byte 11 and zeros, and GEN_EQE then carries the 64-byte entry |
| EqCodec.RequestInjective | src/commands/eq.rs:72-154 | two requests with the same bytes are the same request |
| EqCodec.DestroyEQTestVector | src/commands/eq.rs:268-280 | the unit test's DESTROY_EQ encodes to the listed 16 bytes |
| EqCodec.EncodeQueryEQOutput | src/commands/eq.rs:105-115 | the QUERY_EQ output is 96 bytes |
| EqCodec.DecodeQueryEQOutput | src/commands/eq.rs:105-115 | the output decodes exactly when 96 bytes are present; its header is the leading header and its context is read from bytes 16..76 |
| EqCodec.QueryEQOutputAt | src/commands/eq.rs:105-115 | the header is at 0..8, the context at 16..76 and event_mask at 88..96 |
| EqCodec.QueryEQOutputRoundTrip | src/commands/eq.rs:105-115 | an output whose context fits reads back from its encoding, whatever follows |
| EqCodec.QueryEQReplyDecodes | src/commands/eq.rs:117-127 | any reply of QUERY_EQ's `outlen()`, 0x110 bytes, holds a whole output |
| HcaCodec.Encode | src/commands/hca.rs:5-26 | every INIT_HCA, ENABLE_HCA and DISABLE_HCA input is exactly the command's declared `size()` |
| HcaCodec.DecodesExactly | src/commands/hca.rs:5-72 | an input image, with anything after it, parses as a given command exactly when it is that command's own encoding: the three magics cannot be confused |
| HcaCodec.OutputFits | src/commands/hca.rs:9-14 | a status header followed by its 4 pad bytes fits `outlen()` and decodes back to the same header |
| HcaCodec.TestVectors | src/commands/hca.rs:78-106 | the three commands encode as the 16-byte images of the unit tests |
| IssiCodec.QueryISSILayout | src/types/issi.rs:5-31 | QUERY_ISSI is the 16-byte magic of opcode 0x10a, equal to `size()`, and any buffer starting with it parses |
| IssiCodec.EncodeQueryISSIOutput | src/types/issi.rs:9-31 | a QUERY_ISSI reply image is the 0x70 bytes of `outlen()` |
| IssiCodec.DecodeQueryISSIOutput | src/types/issi.rs:9-19 | a reply parses exactly when it holds 0x70 bytes; current_issi is big-endian bytes 10..12 and supported_issi is bytes 32..0x70 |
| IssiCodec.QueryISSIOutputRoundTrip | src/types/issi.rs:9-19 | a reply with a canonical status decodes back from its image, whatever follows it |
| IssiCodec.QueryISSIOutputTestVector | src/types/issi.rs:64-97 | the unit test's reply image decodes to its status, syndrome, current and supported ISSI |
| IssiCodec.EncodeSetISSI | src/types/issi.rs:33-50 | a SET_ISSI input is the 16 bytes of `size()` |
| IssiCodec.DecodeSetISSI | src/types/issi.rs:33-38 | an input parses exactly when it has 16 bytes starting with the magic 01 0b; current_issi is big-endian bytes 10..12 |
| IssiCodec.SetISSIRoundTrip | src/types/issi.rs:33-38 | SET_ISSI decodes back from its encoding |
| IssiCodec.SetISSITestVector | src/types/issi.rs:99-129 | SET_ISSI with ISSI 0x1337 is the unit test's 16-byte image |
| IssiCodec.SetISSIOutputTestVector | src/types/issi.rs:52-57 | a status header followed by 8 pad bytes is the 16-byte `outlen()` and decodes to that header |
| QueryHcaCapCodec.Encode | src/types/query_hca_cap.rs:7-35 | a QUERY_HCA_CAP input is the 16 bytes of `size()` |
| QueryHcaCapCodec.Decode | src/types/query_hca_cap.rs:7-12 | an input parses exactly when it has 16 bytes starting with the magic 01 00; op_mod is big-endian bytes 6..8 |
| QueryHcaCapCodec.RoundTrip | src/types/query_hca_cap.rs:7-12 | the command decodes back from its encoding, whatever follows it |
| QueryHcaCapCodec.EncodeOutput | src/types/query_hca_cap.rs:14-35 | a reply image is the 0x1010 bytes of `outlen()` |
| QueryHcaCapCodec.DecodeOutput | src/types/query_hca_cap.rs:14-21 | a reply parses exactly when it holds 0x1010 bytes; its header is the status header of the first 8 bytes and the capability page is bytes 0x10..0x1010 |
| QueryHcaCapCodec.OutputRoundTrip | src/types/query_hca_cap.rs:14-21 | a reply with a canonical status decodes back from its image |
| QueryHcaCapCodec.TestVector | src/types/query_hca_cap.rs:41-52 | QUERY_HCA_CAP with op_mod 1 is the unit test's 16-byte image |
| ManagePagesCodec.OpModFromU16 | src/commands/manage_pages.rs:47-53 | the op_mod discriminants are exactly 0, 1 and 2, and a decoded op_mod writes back as the same value |
| ManagePagesCodec.Header | src/commands/manage_pages.rs:6-13 | the fixed part of a MANAGE_PAGES request is 16 bytes |
| ManagePagesCodec.Encode | src/commands/manage_pages.rs:6-17 | a request is its 16-byte header and eight bytes per item |
| ManagePagesCodec.Decode | src/commands/manage_pages.rs:15-16 | a decoded request holds exactly `input_num_entries` items |
| ManagePagesCodec.Size | src/commands/manage_pages.rs:34-36 | `size()` is always the length of the encoded request |
| ManagePagesCodec.OutlenCases | src/commands/manage_pages.rs:38-44 | the reply room is 16 bytes for AllocationFail and AllocationSuccess, and 16 plus eight per counted entry for HCAReturnPages |
| ManagePagesCodec.Update | src/commands/manage_pages.rs:12-13 | the update attribute sets the count to the number of items and leaves op_mod and the items unchanged |
| ManagePagesCodec.HeaderFields | src/commands/manage_pages.rs:6-13 | the magic, op_mod at 6..8 and the count at 12..16 read back from the header, and what follows is untouched |
| ManagePagesCodec.RoundTrip | src/commands/manage_pages.rs:6-17 | a request whose count matches its items decodes back from its encoding, whatever follows it |
| ManagePagesCodec.FewerEntries | src/commands/manage_pages.rs:15-16 | when the count is below the number of items, decoding the encoding gives back only the first `count` items |
| ManagePagesCodec.BE64sAppend | src/commands/manage_pages.rs:15-16 | encoding a list of items is encoding each part in turn |
| ManagePagesCodec.EncodeOutput | src/commands/manage_pages.rs:19-29 | a reply image is 16 bytes and eight bytes per item |
| ManagePagesCodec.DecodeOutput | src/commands/manage_pages.rs:19-29 | a reply parses exactly when it holds the header and as many items as the count at 8..12 says, and then holds exactly that many items |
| ManagePagesCodec.OutputRoundTrip | src/commands/manage_pages.rs:19-29 | a reply with a canonical status and a matching count decodes back from its image |
| ManagePagesCodec.TestWords | src/commands/manage_pages.rs:65-75 | the zero and all-ones items are written as the unit test's eight-byte words |
| ManagePagesCodec.RequestTestVector | src/commands/manage_pages.rs:60-78 | the unit test's three-item request encodes as its 40-byte image and asks for a 16-byte reply |
| ManagePagesCodec.OutputTestVector | src/commands/manage_pages.rs:80-96 | the unit test's 16-byte reply decodes to status 0xab, syndrome 0x12345678 and no items |
| ManagePagesOldCodec.OldOutlenFits | src/types/manage_pages.rs:34-44 | the earlier `outlen()` equals `size()` and the length of a reply with as many items as were sent |
| ManagePagesOldCodec.OutlenChanged | src/types/manage_pages.rs:41-43 | the earlier and the live `outlen()` agree exactly when pages are returned with a count equal to the items, or when no items are sent |
| ManagePagesOldCodec.TestReplyEncodes | src/types/manage_pages.rs:80-98 | the unit test's 40 reply bytes are the image of status 0xab, syndrome 0x12345678 and three items |
| ManagePagesOldCodec.OldTestVector | src/types/manage_pages.rs:60-99 | that reply fills the earlier `outlen()` of the three-item request and decodes to three items |
| QueryPagesCodec.OpModFromU16 | src/types/query_pages.rs:15-21 | the op_mod discriminants are exactly 1, 2 and 3, and a decoded op_mod writes back as the same value |
| QueryPagesCodec.Encode | src/types/query_pages.rs:8-13 | a QUERY_PAGES request is 16 bytes |
| QueryPagesCodec.Decode | src/types/query_pages.rs:8-13 | a request parses only from 16 or more bytes starting with the magic 01 07 |
| QueryPagesCodec.EncodeLayout | src/types/query_pages.rs:8-43 | the request is the magic, four zero bytes, op_mod big-endian at 6..8 and eight zero bytes, and its length is `size()` |
| QueryPagesCodec.RoundTrip | src/types/query_pages.rs:8-13 | the request decodes back from its encoding, whatever follows it |
| QueryPagesCodec.BadOpMod | src/types/query_pages.rs:15-21 | a request with the right magic but an op_mod outside 1..3 does not parse |
| QueryPagesCodec.EncodeOutput | src/types/query_pages.rs:23-29 | a reply image is the 16 bytes of `outlen()` |
| QueryPagesCodec.DecodeOutput | src/types/query_pages.rs:23-29 | a reply parses exactly when it holds 16 bytes, and num_pages is bytes 12..16 read as a signed 32-bit word |
| QueryPagesCodec.OutputRoundTrip | src/types/query_pages.rs:23-29 | a reply with a canonical status, and any signed page count, decodes back from its image |
| QueryPagesCodec.TestVectors | src/types/query_pages.rs:48-78 | the unit test's BootPages request is its 16-byte image and its reply decodes to status Ok and 8226 pages |
| ResourceCodec.EncodeAlloc | src/commands/pd.rs:5-29 | ALLOC_PD and ALLOC_UAR are the 16 bytes of `size()` |
| ResourceCodec.EncodeHandle | src/commands/pd.rs:15-16 | a handle field is four bytes: one padding byte and 24 bits |
| ResourceCodec.EncodeHandleOutput | src/commands/uar.rs:11-18 | an allocation reply is 12 bytes, inside the 16 of `outlen()` |
| ResourceCodec.DecodeHandleOutput | src/commands/pd.rs:11-17 | an allocation reply parses exactly when it holds 12 bytes, and the handle is below 2^24 and is big-endian bytes 9..12 |
| ResourceCodec.HandleOutputRoundTrip | src/commands/uar.rs:11-18 | a reply with a canonical status and a 24-bit handle decodes back from its image |
| ResourceCodec.DeallocMagic | src/commands/uar.rs:32-37 | each release magic is 16 bytes |
| ResourceCodec.EncodeDealloc | src/commands/pd.rs:31-36 | DEALLOC_PD and DEALLOC_UAR are 20 bytes: the 16-byte magic and the handle field |
| ResourceCodec.DecodeDealloc | src/commands/uar.rs:32-37 | a release request parses exactly when it has 20 bytes beginning with the resource's magic, and the handle is the 24 bits at 17..20 |
| ResourceCodec.DeallocRoundTrip | src/commands/pd.rs:31-36 | a release request with a 24-bit handle decodes back from its encoding |
| ResourceCodec.DeallocOutputFits | src/commands/pd.rs:38-42 | the release reply is the status header alone, fits `outlen()` and decodes back to that header |
| ResourceCodec.DeallocSizeMismatch | src/commands/pd.rs:31-53 | a release request is four bytes longer than its declared `size()` of 0x10, and only the handle's low 24 bits are sent |
| ResourceCodec.MagicsDistinct | src/commands/uar.rs:6-37 | an allocation request reads back only as the resource it was written for, and never as a release request |
| ResourceCodec.TestVectors | src/commands/pd.rs:5-36 | ALLOC_PD, ALLOC_UAR and DEALLOC_PD of handle 0x123456 have the images their magics and fields give |
| SetDriverVersionCodec.Encode | src/types/set_driver_version.rs:8-29 | a SET_DRIVER_VERSION request is the 0x50 bytes of `size()` |
| SetDriverVersionCodec.Decode | src/types/set_driver_version.rs:8-13 | a request parses exactly when it has 0x50 bytes starting with the magic 01 0d, and the version string is bytes 0x10..0x50 |
| SetDriverVersionCodec.RoundTrip | src/types/set_driver_version.rs:8-13 | the request decodes back from its encoding, whatever follows it |
| SetDriverVersionCodec.TestVector | src/types/set_driver_version.rs:41-64 | the request carrying "test-version" and its terminator is the unit test's 80-byte image |
| SetDriverVersionCodec.OutputFits | src/types/set_driver_version.rs:15-33 | the reply, the header and four pad bytes, fits the 0x10 of `outlen()` and decodes back to that header |
| FlashRegisters.Word0 | src/registers/flash.rs:9-14 | the first word shared by MFPA and MFBA is four bytes |
| FlashRegisters.ReadWord0 | src/registers/flash.rs:13-14 | the fs field read from the first word fits its two bits |
| FlashRegisters.Word0RoundTrip | src/registers/flash.rs:9-14 | add_cap_32b, p and a two-bit fs read back from the word they are written to |
| FlashRegisters.MfpaHead | src/registers/flash.rs:9-18 | the first part of MFPA, up to the padding before the flags, is 16 bytes |
| FlashRegisters.MfpaTail | src/registers/flash.rs:18-40 | the second part of MFPA, from the flags to capability_mask, is 16 bytes |
| FlashRegisters.EncodeMfpa | src/registers/flash.rs:6-41 | the MFPA image is 32 bytes |
| FlashRegisters.ReadMfpaTail | src/registers/flash.rs:28-38 | the narrow fields read from the tail fit their widths: flash_num 4 bits, jedec_id 24, block_size and block_alignment 8, sector_size 10 |
| FlashRegisters.DecodeMfpa | src/registers/flash.rs:6-41 | MFPA parses exactly from 32 or more bytes, and every field it yields fits its declared width |
| FlashRegisters.FlagBytesFields | src/registers/flash.rs:18-27 | wip, bulk_32kb_erase_en and bulk_64kb_erase_en are bits 7, 6 and 5 of byte 16, and sector_wrp_en and sub_sector_wrp_en bits 1 and 0 of byte 17 |
| FlashRegisters.MfpaHeadRoundTrip | src/registers/flash.rs:9-16 | the first word and boot_address read back from the head |
| FlashRegisters.MfpaTailRoundTrip | src/registers/flash.rs:18-40 | every field of the tail reads back when it fits its width |
| FlashRegisters.MfpaRoundTrip | src/registers/flash.rs:6-41 | an MFPA whose fields fit their widths decodes back from its image, whatever follows it |
| FlashRegisters.MfpaTruncates | src/registers/flash.rs:6-41 | only the declared low bits of each narrow field reach the image |
| FlashRegisters.HeadTruncates | src/registers/flash.rs:9-16 | only the low two bits of fs reach the head |
| FlashRegisters.TailTruncates | src/registers/flash.rs:28-38 | only the declared low bits of flash_num, jedec_id, block_size, block_alignment and sector_size reach the tail |
| FlashRegisters.ZeroMfpaIsZero | src/registers/flash.rs:6-41 | an MFPA whose every field is false or zero is 32 zero bytes |
| FlashRegisters.DefaultMfpaIsZero | src/registers/flash.rs:6-8 | the derived default MFPA is 32 zero bytes |
| FlashRegisters.EncodeMfba | src/registers/flash.rs:52-69 | the MFBA image is 76 bytes |
| FlashRegisters.DecodeMfba | src/registers/flash.rs:52-69 | MFBA parses exactly from 76 or more bytes, its fields fit their widths and its data is bytes 12..76 |
| FlashRegisters.MfbaRoundTrip | src/registers/flash.rs:52-69 | an MFBA whose fields fit their widths decodes back from its image |
| FlashRegisters.MfbaTruncates | src/registers/flash.rs:59-66 | only the low 2 bits of fs, 9 bits of size and 32 bits of address reach the image |
| FlashRegisters.DefaultMfbaIsZero | src/registers/flash.rs:71-75 | the hand-written default MFBA is 76 zero bytes |
| FlashRegisters.SizesVersusLengths | src/registers/flash.rs:43-83 | MFPA's `size()` of 0x20 is its image length, while MFBA's image of 76 bytes is shorter than its `size()` of 0x10c |
| MtrcRegisters.EncodeParams | src/registers/mtrc.rs:7-12 | each string database parameter is eight bytes |
| MtrcRegisters.DecodeParams | src/registers/mtrc.rs:34-35 | reading `n` parameters yields `n` of them |
| MtrcRegisters.ParamsRoundTrip | src/registers/mtrc.rs:7-12 | the parameters read back from their images, whatever follows them |
| MtrcRegisters.EncodeCap | src/registers/mtrc.rs:14-36 | the MTRC_CAP image is 80 bytes |
| MtrcRegisters.CapHead | src/registers/mtrc.rs:17-32 | the part of MTRC_CAP before the parameters is 16 bytes |
| MtrcRegisters.CapHeadRead | src/registers/mtrc.rs:17-32 | num_string_db is the low nibble of byte 3, first_string_trace and num_string_trace bytes 4 and 5, log_max_trace_buffer_size byte 11 |
| MtrcRegisters.DecodeCap | src/registers/mtrc.rs:14-36 | MTRC_CAP parses exactly from 80 or more bytes, and its fields fit their widths |
| MtrcRegisters.CapByte0Fields | src/registers/mtrc.rs:17-24 | trace_owner and trace_to_memory are bits 7 and 6 of byte 0 and trc_ver its low two bits |
| MtrcRegisters.CapRoundTrip | src/registers/mtrc.rs:14-36 | an MTRC_CAP whose fields fit their widths decodes back from its image |
| MtrcRegisters.CapSplit | src/registers/mtrc.rs:31-35 | the eight parameters begin at byte 16 |
| MtrcRegisters.EncodeStdb | src/registers/mtrc.rs:45-57 | the MTRC_STDB image is 72 bytes |
| MtrcRegisters.DecodeStdb | src/registers/mtrc.rs:45-57 | MTRC_STDB parses exactly from 72 or more bytes, its fields fit their widths and its data is bytes 8..72 |
| MtrcRegisters.StdbRoundTrip | src/registers/mtrc.rs:45-57 | an MTRC_STDB whose fields fit their widths decodes back from its image |
| MtrcRegisters.EncodeConf | src/registers/mtrc.rs:77-87 | the MTRC_CONF image is 12 bytes |
| MtrcRegisters.DecodeConf | src/registers/mtrc.rs:77-87 | MTRC_CONF parses exactly from 12 or more bytes, and trace_mode fits its four bits |
| MtrcRegisters.ConfRoundTrip | src/registers/mtrc.rs:77-87 | an MTRC_CONF whose trace_mode fits decodes back from its image |
| MtrcRegisters.EncodeCtrl | src/registers/mtrc.rs:96-111 | the MTRC_CTRL image is 16 bytes |
| MtrcRegisters.DecodeCtrl | src/registers/mtrc.rs:96-111 | MTRC_CTRL parses exactly from 16 or more bytes, and trace_status fits its two bits |
| MtrcRegisters.CtrlByte0Fields | src/registers/mtrc.rs:99-103 | trace_status is the top two bits of byte 0 and arm_event bit 3 |
| MtrcRegisters.CtrlRoundTrip | src/registers/mtrc.rs:96-111 | an MTRC_CTRL whose trace_status fits decodes back from its image |
| MtrcRegisters.SizesVersusLengths | src/registers/mtrc.rs:38-117 | `size()` is the image length for MTRC_CAP, MTRC_STDB and MTRC_CONF, while MTRC_CTRL's 16-byte image is four bytes longer than its `size()` of 12 |
| MtrcRegisters.CapTruncates | src/registers/mtrc.rs:23-27 | only the low bits of trc_ver and num_string_db reach the image |
| MtrcRegisters.StdbTruncates | src/registers/mtrc.rs:48-52 | only the low 4 bits of index and 24 bits of size reach the image |
| MtrcRegisters.ConfTruncates | src/registers/mtrc.rs:80-81 | only the low 4 bits of trace_mode reach the image |
| MtrcRegisters.CtrlTruncates | src/registers/mtrc.rs:99-100 | only the low 2 bits of trace_status reach the image |
| Memory.Write | src/mailbox.rs:22-27 | writing bytes at an offset leaves the memory overwritten there with exactly those bytes and unchanged elsewhere |
| Memory.Read | src/mailbox.rs:39-40 | reading `n` bytes at an offset returns exactly that slice of memory |
| Memory.XorLoop | src/mailbox.rs:41-50 | the loop `acc ^= x` leaves the XOR fold of its seed and the bytes |
| MtcrAccess.SpaceControlFields | src/mtcr.rs:45-46 | the control word written to select a space keeps the old upper half and carries the space in the lower half |
| MtcrAccess.ControlShownFields | src/mtcr.rs:47-48 | the control word read back carries the device's status in bits 31..29 and the written space in the lower half |
| MtcrAccess.SelectFields | src/mtcr.rs:43-48 | after selecting a space, the word written and the word read back both name that space, and the status read is the device's |
| MtcrAccess.RequestFields | src/mtcr.rs:62-77 | a write request sets bit 31 and a read request clears it; both carry the address's low 30 bits with bit 30 clear |
| MtcrAccess.SetOpcodeFields | src/mtcr.rs:143-145 | setting the opcode puts it in bits 31..16 of the control word and keeps bits 15..0 |
| MtcrAccess.ItracePayload | src/mtcr.rs:149-152 | the set_itrace payload is the mask, then one word with the delay in bits 31..16, the level in bits 7..0 and bits 15..8 clear |
| MtcrAccess.CmdAddress | src/mtcr.rs:117-128 | the mailbox address of word `offset` is `VCR_CMD_ADDR + 4*offset` when that fits 32 bits, and the u32 arithmetic panics exactly when it does not |
| MtcrAccess.ReadWords | src/mtcr.rs:124-128 | reading `n` mailbox words yields `n` words, word `i` from `VCR_CMD_ADDR + 4*i` |
| MtcrAccess.PayloadReads | src/mtcr.rs:117-122 | with a payload short enough, word `i` lands at `VCR_CMD_ADDR + 4*i` and every word below `VCR_CMD_ADDR`, the control word among them, is left alone |
| MtcrAccess.PayloadReachesControl | src/mtcr.rs:62-66 | one payload word more and the request address wraps to 0x40000000, whose low 30 bits are the control word's address: the payload overwrites the control word |
| MtcrAccess.StartedFields | src/mtcr.rs:106-109 | a started command has its opcode in the control word's upper half, the go bit set and the payload in the mailbox |
| MtcrAccess.GoKeepsOpcode | src/mtcr.rs:109 | setting the go bit keeps the opcode |
| MtcrAccess.FinishedControl | src/mtcr.rs:110-113 | when the firmware is done the go bit reads clear and bits 15..8 hold its status |
| MtcrAccess.SendOutcome | src/mtcr.rs:106-115 | send_icmd_command succeeds exactly when the payload and the reply fit the mailbox's addresses, and then returns the firmware's status and the first `outlen` words it left; otherwise it panics |
| MtcrAccess.Mtcr.constructor | src/mtcr.rs:37-41 | from_subregion gives a window onto the device in its given state |
| MtcrAccess.Mtcr.ReadControl | src/mtcr.rs:45 | reading PCI_CONTROL returns the control word and records the access |
| MtcrAccess.Mtcr.WriteControl | src/mtcr.rs:46 | writing PCI_CONTROL selects the space in its low half, and the device shows that space's status |
| MtcrAccess.Mtcr.WriteData | src/mtcr.rs:65 | writing PCI_DATA sets the data word |
| MtcrAccess.Mtcr.ReadData | src/mtcr.rs:82 | reading PCI_DATA returns the data word |
| MtcrAccess.Mtcr.ReadAddress | src/mtcr.rs:67 | reading PCI_ADDRESS returns the address word |
| MtcrAccess.Mtcr.WriteAddress | src/mtcr.rs:66-78 | writing PCI_ADDRESS carries out the access on the selected space at the low 30 bits: with bit 31 set the data word is stored and bit 31 reads back clear; with it clear the word is loaded into the data register and bit 31 reads back set |
| MtcrAccess.Mtcr.ChangeAddressSpace | src/mtcr.rs:43-52 | change_address_space reads, writes and rereads the control word, selects the space, and fails with InvalidAddressSpace exactly when the status field read back is 0 |
| MtcrAccess.Mtcr.SelectSpace | src/mtcr.rs:45-47 | the control word is read and written back with the space, and the device's status for it can then be read |
| MtcrAccess.Mtcr.IsAddressSpaceSupported | src/mtcr.rs:54-60 | is_address_space_supported answers whether the device accepts the space, selecting it on the way |
| MtcrAccess.Mtcr.WriteDword | src/mtcr.rs:62-72 | write_dword stores the word in the selected space at the address's low 30 bits, in the order data, request, poll |
| MtcrAccess.Mtcr.ReadDword | src/mtcr.rs:74-85 | read_dword returns the selected space's word at the address's low 30 bits and changes no space, in the order request, poll, data |
| MtcrAccess.Supported | src/mtcr.rs:55-59 | true when changing space succeeded, false on InvalidAddressSpace, and any other error passed through |
| MtcrAccess.ICmd.constructor | src/mtcr.rs:92-95 | an ICMD handle over a window with a command size and a firmware that has run no command yet |
| MtcrAccess.ICmd.CtrlRead | src/mtcr.rs:130-132 | ctrl_read returns the ICMD space's word at VCR_CTRL_ADDR and changes no space |
| MtcrAccess.ICmd.CtrlWrite | src/mtcr.rs:134-137 | ctrl_write stores the word at VCR_CTRL_ADDR, changes nothing else, and returns it |
| MtcrAccess.ICmd.CtrlModify | src/mtcr.rs:139-141 | ctrl_modify stores `f` of the old control word and returns it |
| MtcrAccess.ICmd.IcmdSetOpcode | src/mtcr.rs:143-145 | icmd_set_opcode stores the opcode in the control word's upper half |
| MtcrAccess.ICmd.WriteCommand | src/mtcr.rs:117-122 | write_command stores the payload words in order, and panics exactly when a word's address overflows, after the words before it are written |
| MtcrAccess.ICmd.ReadCommand | src/mtcr.rs:124-128 | read_command returns `length` mailbox words, and panics exactly when an address overflows |
| MtcrAccess.ICmd.DeviceStep | src/mtcr.rs:110-112 | the firmware runs the started command and leaves its status in control bits 15..8 with the go bit clear |
| MtcrAccess.ICmd.SendIcmdCommand | src/mtcr.rs:106-115 | send_icmd_command gives the outcome SendOutcome states; when the payload fits the firmware runs once on the started command, and when it does not the call panics part way through writing it |
| MtcrAccess.ICmd.SetItrace | src/mtcr.rs:149-152 | set_itrace runs opcode 0xf003 with the mask and the level and delay word, and succeeds |
| MtcrAccess.ICmd.CheckBadc0ffeUnlocked | src/mtcr.rs:154-156 | check_badc0ffe_unlocked runs opcode 0xf00b with no payload and answers whether the status is 0 |
| MtcrAccess.FromMtcr | src/mtcr.rs:98-104 | from_mtcr switches the window to the ICMD space, fails with InvalidAddressSpace exactly when the device refuses it, and otherwise reads max_cmd_size from VCR_CMD_SIZE_ADDR |
| CheckData.QWords | check_data.py:6-10 | `qwords` yields two words per value |
| CheckData.QWordsHalves | check_data.py:6-10 | words `2i` and `2i+1` are the upper and lower 32-bit halves of value `i`: both fit 32 bits and together make the value modulo 2^64 |
| CheckData.QWordsJoin | check_data.py:227-234 | joining a pair back as `(hi << 32) \| lo` gives the value modulo 2^64, as the comparison of results does |
| CheckData.SxRange | check_data.py:12 | `sx` of a `width`-bit word lies in [-2^(width-1), 2^(width-1)), is congruent to the word modulo 2^width, and is negative exactly when the top bit is set |
| CheckData.SxMask | check_data.py:12 | masking a sign-extended word back to `width` bits gives the word |
| CheckData.Low5 | check_data.py:119 | `x & 0x1f` is `x` modulo 32 |
| CheckData.Next6 | check_data.py:120 | `(x >> 5) & 0x3f` is bits 10..5 of `x` |
| CheckData.FieldMaskBits | check_data.py:121-123 | the mask built as in `unki_0x33` has bit `i` set exactly below the cut and outside a field of `w` bits starting at the shift |
| CheckData.Mask0x33Bits | check_data.py:118-124 | the `unki_0x33` mask has every bit below 64 set except the field of `FieldWidth(simm)` bits starting at bit `(simm >> 5) & 0x3f` |
| CheckData.Mask0x33Range | check_data.py:123 | the mask is a 64-bit value |
| CheckData.AluRaises | check_data.py:14-35 | only `alu_skip` raises Continue, and `ValueError` is raised exactly by the shifts by `r6` when `r6` is negative |
| CheckData.Wrap24 | check_data.py:34-35 | masking with 0xffffff is reduction modulo 2^24 |
| CheckData.Alu24 | check_data.py:34-35 | `alu_add24` and `alu_sub24` wrap the sum and the difference into [0, 2^24) |
| CheckData.AluShr32 | check_data.py:24 | `alu_shr32` shifts the low word right: `(r5 mod 2^32) / 2^r6` rounded down |
| CheckData.AluSar64 | check_data.py:25 | `alu_sar64` divides the sign-extended value by 2^r6 rounding down, and wraps to 64 bits |
| CheckData.AluSar32 | check_data.py:26 | `alu_sar32` does the same on the sign-extended low word and wraps to 32 bits |
| CheckData.AluUsar64I | check_data.py:30 | `alu_usar64_i` is one arithmetic shift right by 38 |
| CheckData.AluUshr32I | check_data.py:31 | `alu_ushr32_i` is one shift right by 38 |
| CheckData.AluBitwise | check_data.py:19-21 | bit `i` of `alu_or64`, `alu_and64` and `alu_xor64` is the operation on bit `i` of the operands |
| CheckData.SkippingMaps | check_data.py:92 | after the loop each code of ALU_MEMORY_OPS maps to `alu_skip` and every other code to its entry in `aluops` |
| CheckData.Report | check_data.py:205-212 | a test result is the inputs and the result as six words, and a raised exception passes through |
| CheckData.TestAluContinues | check_data.py:37-92 | `test_alu` raises Continue exactly for the memory operations and the codes listed with `alu_skip`, whatever the registers hold |
| CheckData.ListedSkips | check_data.py:37-84 | the codes `aluops` lists with `alu_skip` are exactly 0x20, 0x70..0x73, 0x7f and 0x90 |
| CheckData.TestAluUnlisted | check_data.py:205-206 | an unlisted, non-memory code runs `alu_zero`: the registers and a result of 0 |
| CheckData.UnkiRaises | check_data.py:94-124 | only `unki_skip` raises Continue, and no immediate operation raises `ValueError` |
| CheckData.Unki24 | check_data.py:110-111 | `unki_addi24` and `unki_subi24` wrap into [0, 2^24) |
| CheckData.UnkiMaskField | check_data.py:113-116 | `unki_mask` extracts `FieldWidth(simm16)` bits of `r5` starting at bit `(simm16 >> 5) & 0x3f` |
| CheckData.Unki0x33Bits | check_data.py:118-124 | `unki_0x33` clears that field of `r5` and every bit from 64 up, and keeps the rest |
| CheckData.TestUnkiContinues | check_data.py:127-153 | `test_unki` raises Continue exactly for opcodes 0x34 and 0x37, and never `ValueError` |
| CheckData.UnkrImmediateValue | check_data.py:157 | for an 11-bit `simm11`, `(6 << 11) \| simm11` is 0x3000 + simm11 |
| CheckData.Unkr0x33Bits | check_data.py:159-165 | `unkr_0x33` takes each bit from `r5` where the mask is set and from `r6` elsewhere |
| CheckData.TestUnkrContinues | check_data.py:167-203 | `test_unkr` raises Continue exactly for opcode 0x34, whatever the inputs, and never `ValueError` |
| CheckData.TestUnkrFromUnki | check_data.py:157-212 | a register opcode built from an immediate one runs that immediate operation with 0x3000 + simm11 |
| PyInt.BitAnd | check_data.py:20 | bit `i` of Python's `a & b` on unbounded integers is set exactly when it is set in both, negative operands included |
| PyInt.BitOr | check_data.py:19 | bit `i` of `a \| b` is set exactly when it is set in either |
| PyInt.BitNot | check_data.py:121 | bit `i` of `~x` is the opposite of bit `i` of `x` |
| PyInt.BitXor | check_data.py:21 | bit `i` of `a ^ b` is set exactly when the two bits differ |
| PyInt.ShrShr | check_data.py:30-31 | shifting right by `a` and then `b` is shifting by `a + b` |
| PyInt.AndLowMask | check_data.py:115-116 | `x & ((1 << k) - 1)` is `x` modulo 2^k, never negative |
| PyInt.OrDisjoint | check_data.py:122 | when `b` fits in `k` bits, `(a << k) \| b` is `a * 2^k + b` |
| PyInt.BitShl | check_data.py:122 | bit `i` of `m << s` is bit `i - s` of `m`, and clear below `s` |

## Left out

- PCI, BAR, IOMMU and DMA-mapping setup are left out: `VfioCmdIf::new` and `Mlx5CmdIf::new` past their first writes, and `iommu_map`. They are foreign `pci_driver`/`libc` calls. The constructors start from a given BAR 0 array and a DMA region.
- The busy-poll loops are replaced: the init segment's `initializing` wait, the wait for the ownership bit of the entry, and the `write_dword`/`read_dword`/`send_icmd_command` polls. Each is one device step, and each MTCR access counts as complete at the first poll. Termination of the hardware waits is not modelled.
- `Arc<Mutex<…>>` sharing of the allocator is left out, because it is concurrency. The model is single-threaded. Guards hold a reference to the allocator they came from.
- The bitmap search strategy of the allocator library is left out, because it is a foreign library. `Alloc` returns some free run.
- DmaAllocator.Allocator.Alloc: requires `n > 0`. The driver only asks for 1 or 256 units, and the library's behaviour for 0 is not visible.
- deku's derive machinery is left out, because it is a foreign library. Every layout is written by hand. Its error values on malformed input are not kept: a failed decode is `None`.
- The `irisc_asm` assembler and `ExecShellcode64` are left out. Their sources are not part of this model. `run_shellcode` is modelled from the byte buffer on.
- The CLI programs under src/bin and the prototype src/main.rs are left out: argument parsing, file output and experiment drivers.
- src/init.rs, src/registers.rs, src/lib.rs and src/error.rs are declarations only. Their offsets, ids and variants appear as constants and datatypes.
- The live `commands` module root and its files for QUERY_PAGES, QUERY_ISSI/SET_ISSI, QUERY_HCA_CAP, ACCESS_REGISTER and EXEC_SHELLCODE64 are not part of this model. The transport sends the layouts of the src/types/ files of the same names instead. `BaseOutputStatus` is taken to be the status header of src/types.rs.
- src/types/create_mkey.rs is left out. It is an incomplete stub with no bit widths and no `Command` implementation.
- `find_capability` and `open_from_cmdif` are left out: the config-space capability walk is I/O. `from_subregion` starts from a given window.
- Config-space I/O errors of the MTCR port are not modelled. Every read and write of the window succeeds.
- `read_json_lines`, `verify_data`, the `__main__` block and the `print` inside `unkr_0x34` of check_data.py are left out: file I/O, JSON and output.
- CheckData.SxRange: stated for `width >= 1` only. Every call of `sx` uses 32 or 64.
- Logging (`log::`, `debug!`, `trace!`) is left out.
- VfioTransport.VfioCmdIf.HandlePageRequest: the `i32::MIN` page count is modelled as the panic of an overflow-checked build. A release build would instead send HCAReturnPages with count 0x80000000.
- MtcrAccess.ICmd.SendIcmdCommand: the `u32` overflow of `VCR_CMD_ADDR + 4*offset` is modelled as the panic of an overflow-checked build, not as wrap-around.
- The DMA memory left behind on a panic path is not stated. A panic ends the program.
- src/mlx.rs: `Mlx5CmdIf` forwards to one `VfioCmdIf` instead of repeating the code. The two copies in the source are the same line for line.
- The firmware is a function of the command's position and input. It is not a device with state of its own.
