/**
 * The older command interface object `Mlx5CmdIf` (src/mlx.rs).  Its
 * transport, page negotiation, bring-up, `do_command` and register
 * accessors are the code of `VfioCmdIf` (src/cmdif/vfio.rs) and of the
 * `CmdIf` trait's provided methods (src/cmdif.rs) repeated as inherent
 * methods.  The model keeps one copy of that state and behaviour: a
 * `Mlx5CmdIf` owns a `VfioCmdIf` and forwards each operation to it, and
 * what each operation promises is stated again here in those terms.
 */
module Mlx {
  import opened Bytes
  import opened Errors
  import CmdIf
  import AccessRegisterCodec
  import QueryPagesCodec
  import VfioTransport
  import DmaAllocator

  class Mlx5CmdIf {
    /** The DMA region, command queue entry, BAR 0 and page map. */
    const transport: VfioTransport.VfioCmdIf

    /** `new`, short of the PCI and IOMMU setup: the same state `VfioCmdIf::new` leaves. */
    constructor (bar0: array<byte>, firmware: (nat, seq<byte>) -> VfioTransport.Completion)
      requires bar0.Length >= VfioTransport.INIT_SEGMENT_LEN
      modifies bar0
      ensures Valid() && fresh(transport)
      ensures transport.bar0 == bar0 && transport.firmware == firmware
      ensures transport.managedPages == map[] && transport.step == 0 && transport.log == []
      ensures bar0[..] == Overwrite(old(bar0[..]), VfioTransport.CMDQ_PHY_ADDR_HI, BE64(transport.cqeRegion.Address()))
    {
      transport := new VfioTransport.VfioCmdIf(bar0, firmware);
    }

    ghost predicate Valid()
      reads transport, transport.dma, transport.dma.used, transport.dma.live
    {
      transport.Valid()
    }

    /**
     * `exec_command` (src/mlx.rs): the entry filled, the chains built in a
     * fresh scratch region, the doorbell rung and the reply gathered, as
     * for the trait implementation.  `submitted` is the entry the device
     * finds, `scratch` the first unit of the scratch region and
     * `atDoorbell` the DMA memory when the doorbell is rung.
     */
    method ExecCommand(input: seq<byte>, outlen: u32)
      returns (r: Result<seq<byte>>, ghost submitted: seq<byte>, ghost scratch: nat, ghost atDoorbell: seq<byte>)
      requires Valid()
      modifies transport`step, transport.dma, transport.dma.used, transport.dma.memory, transport.bar0
      ensures Valid()
      ensures transport.dma.used[..] == old(transport.dma.used[..]) && transport.dma.live == old(transport.dma.live)
      ensures r == transport.Exec(old(transport.dma.used[..]), old(transport.step), input, outlen)
      ensures r.Ok? ==> |r.value| == outlen
      ensures transport.Rings(old(transport.dma.used[..]), input, outlen) ==>
                var s0 := VfioTransport.PAGE_SIZE * scratch;
                && DmaAllocator.FreeRun(old(transport.dma.used[..]), scratch, VfioTransport.SCRATCH_PAGES)
                && transport.bar0[..] == Overwrite(old(transport.bar0[..]), VfioTransport.CMDQ_DOORBELL, BE32(1))
                && VfioTransport.Keeps(old(transport.dma.memory[..]), transport.dma.memory[..], transport.cqe.offset,
                                       s0, s0 + VfioTransport.SCRATCH_LEN)
                && VfioTransport.Executed(old(transport.dma.memory[..]), transport.cqe.offset, scratch, input, outlen,
                                          submitted, atDoorbell)
      ensures !transport.Rings(old(transport.dma.used[..]), input, outlen) ==> transport.bar0[..] == old(transport.bar0[..])
    {
      r, submitted, scratch, atDoorbell := transport.ExecCommand(input, outlen);
    }

    /** `do_command` (src/mlx.rs): the header judged before the output is decoded. */
    method DoCommand(c: CmdIf.Command) returns (r: Result<CmdIf.Output>)
      requires Valid()
      modifies transport`step, transport`log, transport.dma, transport.dma.used, transport.dma.memory, transport.bar0
      ensures Valid()
      ensures transport.dma.used[..] == old(transport.dma.used[..]) && transport.dma.live == old(transport.dma.live)
      ensures r == CmdIf.DoCommand(c, transport.Exec(old(transport.dma.used[..]), old(transport.step),
                                                    CmdIf.ToBytes(c), CmdIf.OutlenU32(c)))
      ensures transport.log == old(transport.log) + [VfioTransport.Event(c, r)]
    {
      r := transport.DoCommand(c);
    }

    /** `handle_page_request` (src/mlx.rs). */
    method HandlePageRequest(opMod: QueryPagesCodec.QueryPagesOpMod) returns (r: Result<()>, ghost pages: seq<u64>)
      requires Valid()
      modifies transport`step, transport`log, transport`managedPages, transport.dma, transport.dma.used,
               transport.dma.memory, transport.bar0, transport.managedPages.Values
      ensures Valid()
      ensures old(transport.log) <= transport.log
      ensures VfioTransport.PageRequestRan(opMod, transport.log[|old(transport.log)|..], r)
      ensures VfioTransport.PagesMoved(transport.log[|old(transport.log)|..], old(transport.managedPages),
                                       transport.managedPages, pages)
      ensures VfioTransport.AllocatorFollows(old(transport.dma.live), transport.dma.live,
                                             old(transport.dma.used[..]), transport.dma.used[..],
                                             old(transport.managedPages), transport.managedPages)
    {
      r, pages := transport.HandlePageRequest(opMod);
    }

    /** `initialize` (src/mlx.rs): the seven bring-up steps in order, up to the first error. */
    method Initialize() returns (r: Result<()>, ghost cuts: seq<nat>)
      requires Valid()
      modifies transport`step, transport`log, transport`managedPages, transport.dma, transport.dma.used,
               transport.dma.memory, transport.bar0, transport.managedPages.Values
      ensures Valid()
      ensures old(transport.log) <= transport.log
      ensures VfioTransport.InitRan(transport.log[|old(transport.log)|..], cuts, r)
    {
      r, cuts := transport.Initialize();
    }

    /** `read_register` (src/mlx.rs): ACCESS_REGISTER with op_mod Read, the reply's data decoded as the register. */
    method ReadRegister(reg: CmdIf.Register, argument: u32) returns (r: Result<CmdIf.Register>)
      requires Valid()
      modifies transport`step, transport`log, transport.dma, transport.dma.used, transport.dma.memory, transport.bar0
      ensures Valid()
      ensures var c := CmdIf.RegisterAccess(AccessRegisterCodec.Read, reg, argument);
              r == CmdIf.ReadRegister(reg, argument, transport.Exec(old(transport.dma.used[..]), old(transport.step),
                                                                  CmdIf.ToBytes(c), CmdIf.OutlenU32(c)))
    {
      var out := DoCommand(CmdIf.RegisterAccess(AccessRegisterCodec.Read, reg, argument));
      r := CmdIf.RegisterReply(reg, out);
    }

    /** `write_register` (src/mlx.rs): the same with op_mod Write; the register as the device wrote it back. */
    method WriteRegister(reg: CmdIf.Register, argument: u32) returns (r: Result<CmdIf.Register>)
      requires Valid()
      modifies transport`step, transport`log, transport.dma, transport.dma.used, transport.dma.memory, transport.bar0
      ensures Valid()
      ensures var c := CmdIf.RegisterAccess(AccessRegisterCodec.Write, reg, argument);
              r == CmdIf.WriteRegister(reg, argument, transport.Exec(old(transport.dma.used[..]), old(transport.step),
                                                                   CmdIf.ToBytes(c), CmdIf.OutlenU32(c)))
    {
      var out := DoCommand(CmdIf.RegisterAccess(AccessRegisterCodec.Write, reg, argument));
      r := CmdIf.RegisterReply(reg, out);
    }
  }
}
