/**
 * Memory access through the vendor-specific PCI capability (src/mtcr.rs).
 *
 * `Mtcr` is the capability's window: a control word whose low half
 * selects an address space, an address word and a data word.  Writing the
 * address word starts one access to a 32-bit word of the selected space;
 * bit 31 of the address is set for a write and clear for a read, and the
 * device flips it when the access is done.  `ICmd` runs firmware commands
 * through the ICMD address space: the opcode and the go bit in the word
 * at 0, the payload and the reply in the words from 0x100000 on.
 *
 * The device behind the window is part of the model: address spaces are
 * maps from word address to word, the status the device shows for each
 * address space is the function `spaceStatus`, and the firmware's answer
 * to the n-th ICMD command is `firmware(n, opcode, words)`.  Each access
 * is complete when the driver first polls for it.
 */
module MtcrAccess {
  import opened Bytes
  import opened Errors

  type word = bv32

  const AS_ICMD_EXT: bv16 := 0x1
  const AS_CR_SPACE: bv16 := 0x2
  const AS_ICMD: bv16 := 0x3
  const AS_NODNIC_INIT_SEG: bv16 := 0x4
  const AS_EXPANSION_ROM: bv16 := 0x5

  const VCR_CMD_SIZE_ADDR: u32 := 0x1000
  const VCR_CMD_ADDR: u32 := 0x10_0000
  const VCR_CTRL_ADDR: u32 := 0x0
  const VCR_EXMB_ADDR: u32 := 0x8

  /** Offsets of the capability's words. */
  const PCI_CONTROL: nat := 0x04
  const PCI_COUNTER: nat := 0x08
  const PCI_SEMAPHORE: nat := 0x0c
  const PCI_ADDRESS: nat := 0x10
  const PCI_DATA: nat := 0x14

  /** Bit 31 of the address word, and the 30 address bits a request carries. */
  const FLAG: nat := 0x8000_0000
  const SPAN: nat := 0x4000_0000

  /** An address space, as the key of the device's map of spaces. */
  datatype SpaceId = SpaceId(id: bv16)

  /** One configuration-space access of the driver, in order. */
  datatype Access =
    | ControlRead(word) | ControlWrite(word)
    | AddressRead(u32) | AddressWrite(u32)
    | DataRead(word) | DataWrite(word)

  // ---------------------------------------------------------------------
  // The words the driver composes

  /** `(ctrl & 0xffff0000) | (address_space as u32)`. */
  function SpaceControl(ctrl: word, space: bv16): word {
    (ctrl & 0xffff_0000) | (space as word)
  }

  /** The space-selecting control word keeps the upper half and carries the space in the lower. */
  lemma SpaceControlFields(ctrl: word, space: bv16)
    ensures SpaceControl(ctrl, space) & 0xffff_0000 == ctrl & 0xffff_0000
    ensures SpaceControl(ctrl, space) & 0xffff == space as word
    ensures (SpaceControl(ctrl, space) & 0xffff) as bv16 == space
  {
  }

  /** `(ctrl >> 29) & 0x7`: the status field of the control word. */
  function SpaceStatus(ctrl: word): word {
    (ctrl >> 29) & 0x7
  }

  /**
   * The control word the device shows after `v` was written: the written
   * word with the status field replaced by `status`.
   */
  function ControlShown(v: word, status: word): word {
    (v & 0x1fff_ffff) | ((status & 0x7) << 29)
  }

  /** Reading the control word back gives the device's status, and the space written. */
  lemma ControlShownFields(v: word, status: word)
    ensures SpaceStatus(ControlShown(v, status)) == status & 0x7
    ensures ControlShown(v, status) & 0xffff == v & 0xffff
    ensures (ControlShown(v, status) & 0xffff) as bv16 == (v & 0xffff) as bv16
  {
  }

  /** Selecting a space: the control word written names it, and so does the one the device shows. */
  lemma SelectFields(ctrl: word, space: bv16, status: word)
    ensures (SpaceControl(ctrl, space) & 0xffff) as bv16 == space
    ensures (ControlShown(SpaceControl(ctrl, space), status) & 0xffff) as bv16 == space
    ensures SpaceStatus(ControlShown(SpaceControl(ctrl, space), status)) == status & 0x7
  {
  }

  /** `address & 0x3fffffff | (1 << 31)`: a write request. */
  function WriteRequest(address: u32): u32 {
    address % SPAN + FLAG
  }

  /** `address & 0x3fffffff | (0 << 31)`: a read request. */
  function ReadRequest(address: u32): u32 {
    address % SPAN
  }

  /** `(v >> 31) & 1` of an address word. */
  function Flag(v: u32): nat {
    if v >= FLAG then 1 else 0
  }

  /**
   * A request carries the address's low 30 bits with bit 30 clear;
   * bit 31 tells a write (1) from a read (0).
   */
  lemma RequestFields(address: u32)
    ensures Flag(WriteRequest(address)) == 1 && Flag(ReadRequest(address)) == 0
    ensures WriteRequest(address) % FLAG == ReadRequest(address) == address % SPAN < SPAN
  {
  }

  /** `(ctrl & 0x0000ffff) | ((opcode as u32) << 16)`. */
  function SetOpcode(ctrl: word, opcode: bv16): word {
    (ctrl & 0x0000_ffff) | ((opcode as word) << 16)
  }

  /** `icmd_set_opcode` puts the opcode in bits 31..16 and keeps bits 15..0. */
  lemma SetOpcodeFields(ctrl: word, opcode: bv16)
    ensures SetOpcode(ctrl, opcode) >> 16 == opcode as word
    ensures SetOpcode(ctrl, opcode) & 0xffff == ctrl & 0xffff
  {
  }

  /** `ctrl | 0x00000001`: the go bit. */
  function Go(ctrl: word): word {
    ctrl | 0x0000_0001
  }

  /** `(ctrl >> 8) as u8`: the truncating cast keeps bits 15..8. */
  function StatusByte(ctrl: word): bv8 {
    ((ctrl >> 8) & 0xff) as bv8
  }

  /** The payload of `set_itrace`: the mask, then `(delay << 16) | level`. */
  function ItracePayload(mask: word, level: bv8, delay: bv16): (p: seq<word>)
    ensures |p| == 2 && p[0] == mask
    ensures p[1] >> 16 == delay as word && p[1] & 0xff == level as word && p[1] & 0xff00 == 0
  {
    [mask, ((delay as word) << 16) | (level as word)]
  }

  // ---------------------------------------------------------------------
  // The ICMD mailbox

  /** A word of an address space; words never written read 0. */
  function Lookup(m: map<nat, word>, a: nat): word {
    if a in m then m[a] else 0
  }

  /** The number of mailbox words whose address `0x100000 + 4 * i` fits 32 bits. */
  const CMD_WORDS: nat := 0x3ffc_0000

  /**
   * `VCR_CMD_ADDR + 4*(offset as u32)`: the cast keeps 32 bits, and the
   * `u32` arithmetic panics when it overflows.
   */
  function CmdAddress(offset: nat): (r: Result<u32>)
    ensures r.Ok? <==> offset % TWO_32 < CMD_WORDS
    ensures r.Err? ==> r.error == Panic
    ensures r.Ok? ==> r.value == VCR_CMD_ADDR + 4 * (offset % TWO_32)
  {
    var x := offset % TWO_32;
    if 4 * x >= TWO_32 || VCR_CMD_ADDR + 4 * x >= TWO_32 then Err(Panic)
    else Ok(VCR_CMD_ADDR + 4 * x)
  }

  /** The key a request for mailbox word `i` reaches: its address's low 30 bits. */
  function CmdKey(i: nat): nat {
    (VCR_CMD_ADDR + 4 * i) % SPAN
  }

  /** The mailbox words `m` after the first `n` payload words were written in order. */
  function Payload(m: map<nat, word>, words: seq<word>, n: nat): map<nat, word>
    requires n <= |words| && n <= CMD_WORDS
  {
    if n == 0 then m else Payload(m, words, n - 1)[CmdKey(n - 1) := words[n - 1]]
  }

  /** The first `n` mailbox words of `m`, in order. */
  function ReadWords(m: map<nat, word>, n: nat): (r: seq<word>)
    requires n <= CMD_WORDS
    ensures |r| == n && forall i :: 0 <= i < n ==> r[i] == Lookup(m, CmdKey(i))
  {
    seq(n, i requires 0 <= i < n => Lookup(m, CmdKey(i)))
  }

  /** The mailbox words whose addresses stay below 2^30, so that no two requests reach the same key. */
  const PLAIN_WORDS: nat := 0x0ffc_0000

  /**
   * With no more than `PLAIN_WORDS` payload words, word `i` of the
   * payload is found at `0x100000 + 4 * i`, and every word below
   * 0x100000 (the control word among them) is left as it was.
   */
  lemma {:induction false} PayloadReads(m: map<nat, word>, words: seq<word>, n: nat)
    requires n <= |words| && n <= PLAIN_WORDS
    ensures forall i :: 0 <= i < n ==> Lookup(Payload(m, words, n), VCR_CMD_ADDR + 4 * i) == words[i]
    ensures forall a :: 0 <= a < VCR_CMD_ADDR ==> Lookup(Payload(m, words, n), a) == Lookup(m, a)
  {
    if n > 0 {
      PayloadReads(m, words, n - 1);
      assert CmdKey(n - 1) == VCR_CMD_ADDR + 4 * (n - 1);
    }
  }

  /**
   * One word more and the payload wraps: word `PLAIN_WORDS` is sent to
   * address 0x40000000, whose low 30 bits are those of the control word.
   */
  lemma PayloadReachesControl(m: map<nat, word>, words: seq<word>)
    requires |words| == PLAIN_WORDS + 1
    ensures CmdAddress(PLAIN_WORDS) == Ok(SPAN)
    ensures Lookup(Payload(m, words, |words|), VCR_CTRL_ADDR) == words[PLAIN_WORDS]
  {
  }

  /** What the firmware leaves after a command: a status and the words of the ICMD space. */
  datatype IcmdReply = IcmdReply(status: bv8, words: map<nat, word>)

  /** The ICMD space once the opcode is set: a read-modify-write of the control word. */
  function Opcoded(s0: map<nat, word>, opcode: bv16): map<nat, word> {
    s0[VCR_CTRL_ADDR := SetOpcode(Lookup(s0, VCR_CTRL_ADDR), opcode)]
  }

  /** What the firmware answers to the n-th command once started in the space `s`. */
  function Answer(firmware: (nat, bv16, map<nat, word>) -> IcmdReply, n: nat, s: map<nat, word>): IcmdReply {
    firmware(n, (Lookup(s, VCR_CTRL_ADDR) >> 16) as bv16, s)
  }

  /**
   * The ICMD space once the command is started: opcode set, payload
   * written, go bit set, each as a read-modify-write of the word at 0.
   */
  function Started(s0: map<nat, word>, opcode: bv16, command: seq<word>): map<nat, word>
    requires |command| <= CMD_WORDS
  {
    var s2 := Payload(Opcoded(s0, opcode), command, |command|);
    s2[VCR_CTRL_ADDR := Go(Lookup(s2, VCR_CTRL_ADDR))]
  }

  /**
   * The ICMD space once the firmware is done: its words, with the
   * control word's go bit cleared and the status in bits 15..8.
   */
  function Finished(s: map<nat, word>, reply: IcmdReply): map<nat, word> {
    reply.words[VCR_CTRL_ADDR := (Lookup(s, VCR_CTRL_ADDR) & 0xffff_00fe) | ((reply.status as word) << 8)]
  }

  /**
   * A command of no more than `PLAIN_WORDS` payload words starts the
   * firmware with its opcode in the control word's upper half, the go bit
   * set, and payload word `i` at `0x100000 + 4 * i`.
   */
  lemma {:induction false} StartedFields(s0: map<nat, word>, opcode: bv16, command: seq<word>)
    requires |command| <= PLAIN_WORDS
    ensures var s := Started(s0, opcode, command);
            && Lookup(s, VCR_CTRL_ADDR) >> 16 == opcode as word
            && Lookup(s, VCR_CTRL_ADDR) & 1 == 1
            && forall i :: 0 <= i < |command| ==> Lookup(s, VCR_CMD_ADDR + 4 * i) == command[i]
  {
    var c0 := SetOpcode(Lookup(s0, VCR_CTRL_ADDR), opcode);
    var s1 := s0[VCR_CTRL_ADDR := c0];
    var s2 := Payload(s1, command, |command|);
    PayloadReads(s1, command, |command|);
    assert Lookup(s2, VCR_CTRL_ADDR) == c0;
    SetOpcodeFields(Lookup(s0, VCR_CTRL_ADDR), opcode);
    GoKeepsOpcode(c0);
    forall i | 0 <= i < |command|
      ensures Lookup(Started(s0, opcode, command), VCR_CMD_ADDR + 4 * i) == command[i]
    {
      assert VCR_CMD_ADDR + 4 * i != VCR_CTRL_ADDR;
    }
  }

  lemma GoKeepsOpcode(c: word)
    ensures Go(c) >> 16 == c >> 16 && Go(c) & 1 == 1
  {
  }

  /** The finished control word has the go bit clear and carries the firmware's status. */
  lemma FinishedControl(s: map<nat, word>, reply: IcmdReply)
    ensures Lookup(Finished(s, reply), VCR_CTRL_ADDR) & 1 == 0
    ensures StatusByte(Lookup(Finished(s, reply), VCR_CTRL_ADDR)) == reply.status
  {
  }

  /**
   * `send_icmd_command` when `n` commands ran before on the ICMD space `s0`:
   * a panic when the payload or the reply does not fit the mailbox's
   * addresses, else the firmware's status and the first `outlen` words
   * it left.
   */
  function SendOutcome(firmware: (nat, bv16, map<nat, word>) -> IcmdReply, n: nat, s0: map<nat, word>, opcode: bv16, command: seq<word>, outlen: nat): (r: Result<(bv8, seq<word>)>)
    ensures r.Ok? <==> |command| <= CMD_WORDS && outlen <= CMD_WORDS
    ensures r.Err? ==> r.error == Panic
    ensures r.Ok? ==>
              var s3 := Started(s0, opcode, command);
              && r.value.0 == Answer(firmware, n, s3).status
              && r.value.1 == ReadWords(Finished(s3, Answer(firmware, n, s3)), outlen)
  {
    if |command| > CMD_WORDS then Err(Panic)
    else
      var s3 := Started(s0, opcode, command);
      var s4 := Finished(s3, Answer(firmware, n, s3));
      FinishedControl(s3, Answer(firmware, n, s3));
      if outlen > CMD_WORDS then Err(Panic)
      else Ok((StatusByte(Lookup(s4, VCR_CTRL_ADDR)), ReadWords(s4, outlen)))
  }

  // ---------------------------------------------------------------------
  // The capability window

  class Mtcr {
    /** The control word as the device shows it. */
    var control: word
    /** The address space the device took from the low half of the last control word written. */
    var selected: bv16
    var address: u32
    var data: word
    /** The words of each address space, by address. */
    var spaces: map<SpaceId, map<nat, word>>
    /** The status the device shows in control bits 31..29 for each space; 0 refuses it. */
    const spaceStatus: bv16 -> word
    /** The driver's accesses to the capability, oldest first. */
    ghost var trace: seq<Access>

    /** `from_subregion`: a window onto a device in the given state. */
    constructor (control: word, spaces: map<SpaceId, map<nat, word>>, spaceStatus: bv16 -> word)
      ensures this.control == control && this.spaces == spaces && this.spaceStatus == spaceStatus
      ensures selected == (control & 0xffff) as bv16 && address == 0 && data == 0 && trace == []
    {
      this.control := control;
      this.selected := (control & 0xffff) as bv16;
      this.address := 0;
      this.data := 0;
      this.spaces := spaces;
      this.spaceStatus := spaceStatus;
      this.trace := [];
    }

    /** The words of address space `s`. */
    function Space(s: bv16): map<nat, word>
      reads this
    {
      if SpaceId(s) in spaces then spaces[SpaceId(s)] else map[]
    }

    method ReadControl() returns (v: word)
      modifies this`trace
      ensures v == control && trace == old(trace) + [ControlRead(v)]
    {
      v := control;
      trace := trace + [ControlRead(v)];
    }

    /** Writing the control word selects a space; the device answers in the status field. */
    method WriteControl(v: word)
      modifies this`control, this`selected, this`trace
      ensures selected == (v & 0xffff) as bv16 && control == ControlShown(v, spaceStatus(selected))
      ensures trace == old(trace) + [ControlWrite(v)]
    {
      selected := (v & 0xffff) as bv16;
      control := ControlShown(v, spaceStatus(selected));
      trace := trace + [ControlWrite(v)];
    }

    method WriteData(v: word)
      modifies this`data, this`trace
      ensures data == v && trace == old(trace) + [DataWrite(v)]
    {
      data := v;
      trace := trace + [DataWrite(v)];
    }

    method ReadData() returns (v: word)
      modifies this`trace
      ensures v == data && trace == old(trace) + [DataRead(v)]
    {
      v := data;
      trace := trace + [DataRead(v)];
    }

    method ReadAddress() returns (v: u32)
      modifies this`trace
      ensures v == address && trace == old(trace) + [AddressRead(v)]
    {
      v := address;
      trace := trace + [AddressRead(v)];
    }

    /**
     * Writing the address word: the device carries the access out on the
     * selected space, at the request's low 30 bits, and flips bit 31 to
     * say it is done.
     */
    method WriteAddress(v: u32)
      modifies this`address, this`data, this`spaces, this`trace
      ensures trace == old(trace) + [AddressWrite(v)]
      ensures Flag(v) == 1 ==>
                && spaces == old(spaces)[SpaceId(selected) := old(Space(selected))[v % SPAN := data]]
                && address == v - FLAG && data == old(data)
      ensures Flag(v) == 0 ==>
                && spaces == old(spaces)
                && address == v + FLAG && data == Lookup(Space(selected), v % SPAN)
    {
      var s := selected;
      if v >= FLAG {
        spaces := spaces[SpaceId(s) := Space(s)[v % SPAN := data]];
        address := v - FLAG;
      } else {
        data := Lookup(Space(s), v % SPAN);
        address := v + FLAG;
      }
      trace := trace + [AddressWrite(v)];
    }

    /**
     * `change_address_space`: the control word's low half replaced by the
     * space, the upper half kept; refused exactly when the status field
     * read back is 0.
     */
    method ChangeAddressSpace(space: bv16) returns (r: Result<()>)
      modifies this`control, this`selected, this`trace
      ensures control == ControlShown(SpaceControl(old(control), space), spaceStatus(space))
      ensures selected == space
      ensures r.Ok? <==> spaceStatus(space) & 0x7 != 0
      ensures r.Err? ==> r.error == InvalidAddressSpace
      ensures trace == old(trace) + [ControlRead(old(control)),
                                     ControlWrite(SpaceControl(old(control), space)), ControlRead(control)]
    {
      SelectSpace(space);
      var ctrl := ReadControl();
      if SpaceStatus(ctrl) == 0 {
        return Err(InvalidAddressSpace);
      }
      r := Ok(());
    }

    /** The first half of `change_address_space`: the control word read and written back with the space. */
    method SelectSpace(space: bv16)
      modifies this`control, this`selected, this`trace
      ensures control == ControlShown(SpaceControl(old(control), space), spaceStatus(space))
      ensures selected == space
      ensures SpaceStatus(control) == spaceStatus(space) & 0x7
      ensures trace == old(trace) + [ControlRead(old(control)), ControlWrite(SpaceControl(old(control), space))]
    {
      var ctrl := ReadControl();
      SelectFields(ctrl, space, spaceStatus(space));
      WriteControl(SpaceControl(ctrl, space));
    }

    /** `is_address_space_supported`: whether the device accepts the space. */
    method IsAddressSpaceSupported(space: bv16) returns (r: Result<bool>)
      modifies this`control, this`selected, this`trace
      ensures control == ControlShown(SpaceControl(old(control), space), spaceStatus(space))
      ensures r == Ok(spaceStatus(space) & 0x7 != 0)
    {
      var changed := ChangeAddressSpace(space);
      r := Supported(changed);
    }

    /**
     * `write_dword`: the data word first, then the write request; done
     * when bit 31 of the address word reads 0.  The word lands in the
     * selected space at the address's low 30 bits.
     */
    method WriteDword(a: u32, d: word)
      modifies this`address, this`data, this`spaces, this`trace
      ensures spaces == old(spaces)[SpaceId(selected) := old(Space(selected))[a % SPAN := d]]
      ensures data == d && address == a % SPAN && Flag(address) == 0
      ensures trace == old(trace) + [DataWrite(d), AddressWrite(WriteRequest(a)), AddressRead(a % SPAN)]
    {
      var request := WriteRequest(a);
      RequestFields(a);
      WriteData(d);
      WriteAddress(request);
      var done := ReadAddress();
      assert Flag(done) == 0;
    }

    /**
     * `read_dword`: the read request, then, once bit 31 of the address
     * word reads 1, the data word: the selected space's word at the
     * address's low 30 bits.
     */
    method ReadDword(a: u32) returns (v: word)
      modifies this`address, this`data, this`spaces, this`trace
      ensures spaces == old(spaces)
      ensures v == Lookup(Space(selected), a % SPAN) && data == v
      ensures address == a % SPAN + FLAG && Flag(address) == 1
      ensures trace == old(trace) + [AddressWrite(ReadRequest(a)), AddressRead(a % SPAN + FLAG), DataRead(v)]
    {
      var request := ReadRequest(a);
      RequestFields(a);
      WriteAddress(request);
      var done := ReadAddress();
      assert Flag(done) == 1;
      v := ReadData();
    }
  }

  /** The match of `is_address_space_supported` on the result of changing space. */
  function Supported(changed: Result<()>): (r: Result<bool>)
    ensures r == Ok(true) <==> changed.Ok?
    ensures r == Ok(false) <==> changed == Err(InvalidAddressSpace)
    ensures r.Err? <==> changed.Err? && changed.error != InvalidAddressSpace
    ensures r.Err? ==> r.error == changed.error
  {
    match changed
    case Ok(_) => Ok(true)
    case Err(InvalidAddressSpace) => Ok(false)
    case Err(e) => Err(e)
  }

  // ---------------------------------------------------------------------
  // ICMD

  class ICmd {
    const mtcr: Mtcr
    /** The word at `VCR_CMD_SIZE_ADDR` when the interface was opened. */
    const maxCmdSize: word
    /** `firmware(n, opcode, words)`: the firmware's answer to the n-th command started. */
    const firmware: (nat, bv16, map<nat, word>) -> IcmdReply
    /** The number of commands started so far. */
    var step: nat

    constructor (mtcr: Mtcr, maxCmdSize: word, firmware: (nat, bv16, map<nat, word>) -> IcmdReply)
      ensures this.mtcr == mtcr && this.maxCmdSize == maxCmdSize && this.firmware == firmware && step == 0
    {
      this.mtcr := mtcr;
      this.maxCmdSize := maxCmdSize;
      this.firmware := firmware;
      this.step := 0;
    }

    /** The device stays on the ICMD space. */
    ghost predicate Valid()
      reads this, mtcr
    {
      mtcr.selected == AS_ICMD
    }

    /** The words of the ICMD space. */
    function Words(): map<nat, word>
      reads this, mtcr
    {
      mtcr.Space(AS_ICMD)
    }

    /** Every address space but the ICMD space is as it was. */
    twostate predicate Others()
      reads this, mtcr
    {
      forall t :: t != AS_ICMD ==> mtcr.Space(t) == old(mtcr.Space(t))
    }

    /** `ctrl_read`: the control word, at 0 of the ICMD space. */
    method CtrlRead() returns (v: word)
      requires Valid()
      modifies mtcr`address, mtcr`data, mtcr`spaces, mtcr`trace
      ensures Valid() && mtcr.spaces == old(mtcr.spaces)
      ensures v == Lookup(Words(), VCR_CTRL_ADDR)
    {
      v := mtcr.ReadDword(VCR_CTRL_ADDR);
    }

    /** `ctrl_write`: the control word written, and returned. */
    method CtrlWrite(ctrl: word) returns (v: word)
      requires Valid()
      modifies mtcr`address, mtcr`data, mtcr`spaces, mtcr`trace
      ensures Valid() && Others() && Words() == old(Words())[VCR_CTRL_ADDR := ctrl] && v == ctrl
    {
      mtcr.WriteDword(VCR_CTRL_ADDR, ctrl);
      v := ctrl;
    }

    /** `ctrl_modify(f)`: the control word read, passed through `f` and written back. */
    method CtrlModify(f: word -> word) returns (v: word)
      requires Valid()
      modifies mtcr`address, mtcr`data, mtcr`spaces, mtcr`trace
      ensures Valid() && Others() && v == f(old(Lookup(Words(), VCR_CTRL_ADDR)))
      ensures Words() == old(Words())[VCR_CTRL_ADDR := v]
    {
      var ctrl := CtrlRead();
      v := CtrlWrite(f(ctrl));
    }

    /** `icmd_set_opcode`: the opcode in the control word's upper half. */
    method IcmdSetOpcode(opcode: bv16) returns (v: word)
      requires Valid()
      modifies mtcr`address, mtcr`data, mtcr`spaces, mtcr`trace
      ensures Valid() && Others() && v == SetOpcode(old(Lookup(Words(), VCR_CTRL_ADDR)), opcode)
      ensures Words() == Opcoded(old(Words()), opcode)
    {
      v := CtrlModify(ctrl => SetOpcode(ctrl, opcode));
    }

    /**
     * `write_command`: payload word `i` at `VCR_CMD_ADDR + 4*i`, in order,
     * up to the first address that overflows 32 bits.
     */
    method WriteCommand(command: seq<word>) returns (r: Result<()>)
      requires Valid()
      modifies mtcr`address, mtcr`data, mtcr`spaces, mtcr`trace
      ensures Valid() && Others()
      ensures r.Ok? <==> |command| <= CMD_WORDS
      ensures r.Err? ==> r.error == Panic
      ensures Words() == Payload(old(Words()), command, if |command| <= CMD_WORDS then |command| else CMD_WORDS)
    {
      var i := 0;
      while i < |command|
        invariant 0 <= i <= |command| && i <= CMD_WORDS && Valid() && Others()
        invariant Words() == Payload(old(Words()), command, i)
      {
        var at := CmdAddress(i);
        if at.Err? {
          return Err(Panic);
        }
        mtcr.WriteDword(at.value, command[i]);
        i := i + 1;
      }
      r := Ok(());
    }

    /** `read_command`: `length` mailbox words from `VCR_CMD_ADDR` on, up to the first address that overflows. */
    method ReadCommand(length: nat) returns (r: Result<seq<word>>)
      requires Valid()
      modifies mtcr`address, mtcr`data, mtcr`spaces, mtcr`trace
      ensures Valid() && mtcr.spaces == old(mtcr.spaces)
      ensures r.Ok? <==> length <= CMD_WORDS
      ensures r.Err? ==> r.error == Panic
      ensures r.Ok? ==> r.value == ReadWords(Words(), length)
    {
      var words: seq<word> := [];
      var i := 0;
      while i < length
        invariant 0 <= i <= length && i <= CMD_WORDS && Valid() && mtcr.spaces == old(mtcr.spaces)
        invariant words == ReadWords(Words(), i)
      {
        var at := CmdAddress(i);
        if at.Err? {
          return Err(Panic);
        }
        var w := mtcr.ReadDword(at.value);
        words := words + [w];
        i := i + 1;
      }
      r := Ok(words);
    }

    /**
     * The firmware runs the started command: it is given the opcode in
     * the control word's upper half and the words of the space, and its
     * status lands in control bits 15..8 with the go bit cleared.
     */
    method DeviceStep()
      requires Valid()
      modifies mtcr`spaces, this`step
      ensures Valid() && Others() && step == old(step) + 1
      ensures Words() == Finished(old(Words()), Answer(firmware, old(step), old(Words())))
    {
      var s := Words();
      mtcr.spaces := mtcr.spaces[SpaceId(AS_ICMD) := Finished(s, Answer(firmware, step, s))];
      step := step + 1;
    }

    /**
     * `send_icmd_command`: opcode set, payload written, go bit set, and,
     * once the go bit reads clear, the status byte and `outlen` reply
     * words.  A payload that overflows the mailbox panics part way
     * through writing it, before the firmware is started.
     */
    method SendIcmdCommand(opcode: bv16, command: seq<word>, outlen: nat) returns (r: Result<(bv8, seq<word>)>)
      requires Valid()
      modifies mtcr`address, mtcr`data, mtcr`spaces, mtcr`trace, this`step
      ensures Valid() && Others()
      ensures r == SendOutcome(firmware, old(step), old(Words()), opcode, command, outlen)
      ensures |command| <= CMD_WORDS ==>
                && step == old(step) + 1
                && Words() == Finished(Started(old(Words()), opcode, command),
                                       Answer(firmware, old(step), Started(old(Words()), opcode, command)))
      ensures |command| > CMD_WORDS ==>
                step == old(step) && Words() == Payload(Opcoded(old(Words()), opcode), command, CMD_WORDS)
    {
      ghost var s0 := Words();
      var _ := IcmdSetOpcode(opcode);
      ghost var s1 := Words();
      var written := WriteCommand(command);
      if written.Err? {
        return Err(Panic);
      }
      ghost var s2 := Words();
      var _ := CtrlModify(Go);
      ghost var s3 := Words();
      assert s3 == Started(s0, opcode, command);
      DeviceStep();
      FinishedControl(s3, Answer(firmware, old(step), s3));
      var polled := CtrlRead();
      assert polled & 1 == 0;
      var ctrl := CtrlRead();
      var status := StatusByte(ctrl);
      var reply := ReadCommand(outlen);
      if reply.Err? {
        return Err(Panic);
      }
      r := Ok((status, reply.value));
    }

    /**
     * `set_itrace`: opcode 0xf003 with the mask and the level and delay
     * word; the 8 reply words are read and dropped.
     */
    method SetItrace(mask: word, level: bv8, delay: bv16) returns (r: Result<()>)
      requires Valid()
      modifies mtcr`address, mtcr`data, mtcr`spaces, mtcr`trace, this`step
      ensures Valid() && Others() && r == Ok(()) && step == old(step) + 1
      ensures var s := Started(old(Words()), 0xf003, ItracePayload(mask, level, delay));
              Words() == Finished(s, Answer(firmware, old(step), s))
    {
      var sent := SendIcmdCommand(0xf003, ItracePayload(mask, level, delay), 8);
      if sent.Err? {
        assert false;
        return Err(Panic);
      }
      r := Ok(());
    }

    /** `check_badc0ffe_unlocked`: opcode 0xf00b with no payload; unlocked when the status is 0. */
    method CheckBadc0ffeUnlocked() returns (r: Result<bool>)
      requires Valid()
      modifies mtcr`address, mtcr`data, mtcr`spaces, mtcr`trace, this`step
      ensures Valid() && Others() && step == old(step) + 1
      ensures r == Ok(Answer(firmware, old(step), Started(old(Words()), 0xf00b, [])).status == 0)
    {
      var sent := SendIcmdCommand(0xf00b, [], 0);
      if sent.Err? {
        assert false;
        return Err(Panic);
      }
      r := Ok(sent.value.0 == 0);
    }
  }

  /**
   * `ICmd::from_mtcr`: the window switched to the ICMD space (a refusal
   * is returned) and the command size word read.
   */
  method FromMtcr(mtcr: Mtcr, firmware: (nat, bv16, map<nat, word>) -> IcmdReply) returns (r: Result<ICmd>)
    modifies mtcr`control, mtcr`selected, mtcr`address, mtcr`data, mtcr`spaces, mtcr`trace
    ensures mtcr.spaces == old(mtcr.spaces)
    ensures r.Ok? <==> mtcr.spaceStatus(AS_ICMD) & 0x7 != 0
    ensures r.Err? ==> r.error == InvalidAddressSpace
    ensures r.Ok? ==>
              && fresh(r.value) && r.value.Valid() && r.value.mtcr == mtcr && r.value.firmware == firmware
              && r.value.step == 0 && r.value.maxCmdSize == Lookup(mtcr.Space(AS_ICMD), VCR_CMD_SIZE_ADDR)
  {
    var changed := mtcr.ChangeAddressSpace(AS_ICMD);
    if changed.Err? {
      return Err(changed.error);
    }
    var size := mtcr.ReadDword(VCR_CMD_SIZE_ADDR);
    var icmd := new ICmd(mtcr, size, firmware);
    r := Ok(icmd);
  }
}
