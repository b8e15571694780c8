/**
 * The command interface (src/cmdif.rs): what `do_command` makes of a
 * command and of the transport's reply, the register accessors built on
 * it, and the shellcode buffer of `run_shellcode`.  The transport itself,
 * `exec_command`, is an input here: a reply is the `Result` it returned.
 *
 * The commands are the ones the driver sends through this interface
 * (page negotiation, bring-up and register access).
 */
module CmdIf {
  import opened Bytes
  import Types
  import opened Errors
  import QueryPagesCodec
  import ManagePagesCodec
  import HcaCodec
  import IssiCodec
  import QueryHcaCapCodec
  import AccessRegisterCodec
  import MtrcRegisters

  datatype Command =
    | QueryPagesCmd(q: QueryPagesCodec.QueryPages)
    | ManagePagesCmd(m: ManagePagesCodec.ManagePages)
    | HcaCmd(h: HcaCodec.HcaCommand)
    | QueryISSICmd
    | SetISSICmd(s: IssiCodec.SetISSI)
    | QueryHCACapCmd(c: QueryHcaCapCodec.QueryHCACap)
    /** ACCESS_REGISTER carrying the register's own bytes. */
    | AccessRegisterCmd(opMod: AccessRegisterCodec.AccessRegisterOpMod, registerId: u16, argument: u32, data: seq<byte>)

  /** Each command's `Output` type. */
  datatype Output =
    | QueryPagesOut(qo: QueryPagesCodec.QueryPagesOutput)
    | ManagePagesOut(mo: ManagePagesCodec.ManagePagesOutput)
    /** The outputs that are the header and padding only (HCA commands, SET_ISSI). */
    | StatusOut(base: Types.BaseOutput)
    | QueryISSIOut(io: IssiCodec.QueryISSIOutput)
    | QueryHCACapOut(co: QueryHcaCapCodec.QueryHCACapOutput)
    | AccessRegisterOut(rbase: Types.BaseOutput, rdata: seq<byte>)

  /** `to_bytes()`. */
  function ToBytes(c: Command): (r: seq<byte>)
    ensures |r| >= 0x10
  {
    match c
    case QueryPagesCmd(q) => QueryPagesCodec.Encode(q)
    case ManagePagesCmd(m) => ManagePagesCodec.Encode(m)
    case HcaCmd(h) => HcaCodec.Encode(h)
    case QueryISSICmd => IssiCodec.QUERY_ISSI
    case SetISSICmd(s) => IssiCodec.EncodeSetISSI(s)
    case QueryHCACapCmd(q) => QueryHcaCapCodec.Encode(q)
    case AccessRegisterCmd(op, id, arg, data) => AccessRegisterCodec.EncodeBytes(op, id, arg, data)
  }

  /** `outlen()`, before the cast to `u32`. */
  function Outlen(c: Command): nat {
    match c
    case QueryPagesCmd(q) => QueryPagesCodec.Outlen(q)
    case ManagePagesCmd(m) => ManagePagesCodec.Outlen(m)
    case HcaCmd(h) => HcaCodec.Outlen(h)
    case QueryISSICmd => IssiCodec.QUERY_ISSI_OUTLEN
    case SetISSICmd(_) => IssiCodec.SET_ISSI_OUTLEN
    case QueryHCACapCmd(_) => QueryHcaCapCodec.OUTLEN
    case AccessRegisterCmd(_, _, _, data) => 0x10 + |data|
  }

  /** `cmd.outlen() as u32`: the low 32 bits. */
  function OutlenU32(c: Command): u32 {
    Outlen(c) % 0x1_0000_0000
  }

  /** `Cmd::Output::from_bytes` on the whole reply, from offset 0. */
  function DecodeOutput(c: Command, b: seq<byte>): (r: Option<Output>)
    ensures r.Some? ==> |b| >= Types.BASE_OUTPUT_LEN && Some(BaseOf(r.value)) == Types.DecodeBaseOutput(b)
  {
    match c
    case QueryPagesCmd(_) =>
      (match QueryPagesCodec.DecodeOutput(b)
       case None => None
       case Some(o) => Some(QueryPagesOut(o)))
    case ManagePagesCmd(_) =>
      (match ManagePagesCodec.DecodeOutput(b)
       case None => None
       case Some(o) => Some(ManagePagesOut(o)))
    case HcaCmd(_) =>
      (match Types.DecodeStatusOutput(b, HcaCodec.OUTPUT_PAD)
       case None => None
       case Some(o) => Some(StatusOut(o)))
    case QueryISSICmd =>
      (match IssiCodec.DecodeQueryISSIOutput(b)
       case None => None
       case Some(o) => Some(QueryISSIOut(o)))
    case SetISSICmd(_) =>
      (match Types.DecodeStatusOutput(b, IssiCodec.SET_ISSI_OUTPUT_PAD)
       case None => None
       case Some(o) => Some(StatusOut(o)))
    case QueryHCACapCmd(_) =>
      (match QueryHcaCapCodec.DecodeOutput(b)
       case None => None
       case Some(o) => Some(QueryHCACapOut(o)))
    case AccessRegisterCmd(_, _, _, _) =>
      (match AccessRegisterCodec.OutputBytes(b)
       case None => None
       case Some(data) => Some(AccessRegisterOut(Types.DecodeBaseOutput(b).value, data)))
  }

  function BaseOf(o: Output): Types.BaseOutput {
    match o
    case QueryPagesOut(q) => q.base
    case ManagePagesOut(m) => m.base
    case StatusOut(b) => b
    case QueryISSIOut(i) => i.base
    case QueryHCACapOut(c) => c.base
    case AccessRegisterOut(b, _) => b
  }

  /**
   * `do_command` after the transport returned `reply`: a transport error
   * is passed on; otherwise the header is read first, and only an `Ok`
   * status lets the whole reply be decoded as the command's output.
   */
  function DoCommand(c: Command, reply: Result<seq<byte>>): (r: Result<Output>)
    ensures reply.Err? ==> r == Err(reply.error)
    ensures reply.Ok? && |reply.value| < Types.BASE_OUTPUT_LEN ==> r == Err(Deku)
    ensures reply.Ok? && |reply.value| >= Types.BASE_OUTPUT_LEN && reply.value[0] != 0 ==>
              r == Err(Command(Types.StatusFromByte(reply.value[0]), FromBE32(reply.value[4..8])))
    ensures r.Ok? <==> reply.Ok? && |reply.value| >= Types.BASE_OUTPUT_LEN && reply.value[0] == 0
                         && DecodeOutput(c, reply.value).Some?
    ensures r.Ok? ==> Some(r.value) == DecodeOutput(c, reply.value) && BaseOf(r.value).status == Types.Ok
  {
    match reply
    case Err(e) => Err(e)
    case Ok(out) =>
      match Types.DecodeBaseOutput(out)
      case None => Err(Deku)
      case Some(base) =>
        if base.status != Types.Ok then Err(Command(base.status, base.syndrome))
        else
          match DecodeOutput(c, out)
          case None => Err(Deku)
          case Some(o) => Ok(o)
  }

  // ---------------------------------------------------------------------
  // Replies

  /** The bytes of an output, as the firmware would write them. */
  function EncodeOutput(o: Output): (r: seq<byte>)
    ensures |r| >= Types.BASE_OUTPUT_LEN
  {
    match o
    case QueryPagesOut(q) => QueryPagesCodec.EncodeOutput(q)
    case ManagePagesOut(m) => ManagePagesCodec.EncodeOutput(m)
    case StatusOut(b) => Types.EncodeBaseOutput(b) + Zeros(8)
    case QueryISSIOut(i) => IssiCodec.EncodeQueryISSIOutput(i)
    case QueryHCACapOut(q) => QueryHcaCapCodec.EncodeOutput(q)
    case AccessRegisterOut(b, data) => Types.EncodeBaseOutput(b) + Zeros(8) + data
  }

  /** `o` is an output of the kind `c` expects, with its fields in their ranges. */
  predicate Answers(c: Command, o: Output) {
    && Types.Canonical(BaseOf(o).status)
    && match c
       case QueryPagesCmd(_) => o.QueryPagesOut?
       case ManagePagesCmd(_) => o.ManagePagesOut? && |o.mo.items| == o.mo.outputNumEntries
       case HcaCmd(_) => o.StatusOut?
       case QueryISSICmd => o.QueryISSIOut?
       case SetISSICmd(_) => o.StatusOut?
       case QueryHCACapCmd(_) => o.QueryHCACapOut?
       case AccessRegisterCmd(_, _, _, _) => o.AccessRegisterOut?
  }

  /** The output of `c` is read back from its own bytes, whatever follows them. */
  lemma {:induction false} OutputRoundTrip(c: Command, o: Output, rest: seq<byte>)
    requires Answers(c, o) && (o.AccessRegisterOut? ==> rest == [])
    ensures DecodeOutput(c, EncodeOutput(o) + rest) == Some(o)
  {
    match o
    case QueryPagesOut(q) => QueryPagesCodec.OutputRoundTrip(q, rest);
    case ManagePagesOut(m) => ManagePagesCodec.OutputRoundTrip(m, rest);
    case StatusOut(base) => StatusOutRoundTrip(c, base, rest);
    case QueryISSIOut(i) => IssiCodec.QueryISSIOutputRoundTrip(i, rest);
    case QueryHCACapOut(q) => QueryHcaCapCodec.OutputRoundTrip(q, rest);
    case AccessRegisterOut(base, data) =>
      assert EncodeOutput(o) + rest == EncodeOutput(o);
      AccessRegisterOutRoundTrip(c, base, data);
  }

  /** The header-only outputs: four bytes of padding after an HCA command, eight after SET_ISSI. */
  lemma {:induction false} StatusOutRoundTrip(c: Command, base: Types.BaseOutput, rest: seq<byte>)
    requires (c.HcaCmd? || c.SetISSICmd?) && Types.Canonical(base.status)
    ensures DecodeOutput(c, EncodeOutput(StatusOut(base)) + rest) == Some(StatusOut(base))
  {
    var b := EncodeOutput(StatusOut(base)) + rest;
    if c.HcaCmd? {
      assert b == Types.EncodeStatusOutput(base, 4) + (Zeros(4) + rest);
      Types.StatusOutputRoundTrip(base, 4, Zeros(4) + rest);
    } else {
      assert b == Types.EncodeStatusOutput(base, 8) + rest;
      Types.StatusOutputRoundTrip(base, 8, rest);
    }
  }

  /** The register bytes of an ACCESS_REGISTER reply are everything after the sixteen-byte head. */
  lemma {:induction false} AccessRegisterOutRoundTrip(c: Command, base: Types.BaseOutput, data: seq<byte>)
    requires c.AccessRegisterCmd? && Types.Canonical(base.status)
    ensures DecodeOutput(c, EncodeOutput(AccessRegisterOut(base, data))) == Some(AccessRegisterOut(base, data))
  {
    var b := EncodeOutput(AccessRegisterOut(base, data));
    assert b == Types.EncodeBaseOutput(base) + (Zeros(8) + data);
    Types.BaseOutputRoundTrip(base, Zeros(8) + data);
    assert b[16..] == data;
  }

  /** A successful reply is decoded into exactly the output the firmware wrote. */
  lemma {:induction false} DoCommandAccepts(c: Command, o: Output, rest: seq<byte>)
    requires Answers(c, o) && BaseOf(o).status == Types.Ok && (o.AccessRegisterOut? ==> rest == [])
    ensures DoCommand(c, Ok(EncodeOutput(o) + rest)) == Ok(o)
  {
    OutputRoundTrip(c, o, rest);
    var b := EncodeOutput(o) + rest;
    assert b[0] == Types.StatusToByte(BaseOf(o).status) by {
      assert Types.DecodeBaseOutput(b) == Some(BaseOf(o));
    }
  }

  /**
   * A failing status is reported with its syndrome before anything else
   * of the reply is looked at: the rest may be missing or malformed.
   */
  lemma {:induction false} DoCommandRejects(c: Command, base: Types.BaseOutput, rest: seq<byte>)
    requires Types.Canonical(base.status) && base.status != Types.Ok
    ensures DoCommand(c, Ok(Types.EncodeBaseOutput(base) + rest)) == Err(Command(base.status, base.syndrome))
  {
    Types.BaseOutputRoundTrip(base, rest);
  }

  // ---------------------------------------------------------------------
  // Registers

  /** The registers the register module declares (the tracer registers). */
  datatype Register =
    | Cap(cap: MtrcRegisters.MtrcCapReg)
    | Conf(conf: MtrcRegisters.MtrcConfReg)
    | Stdb(stdb: MtrcRegisters.MtrcStdbReg)
    | Ctrl(ctrl: MtrcRegisters.MtrcCtrlReg)

  /** `Reg::REGISTER_ID`. */
  function RegisterId(reg: Register): u16 {
    match reg
    case Cap(_) => MtrcRegisters.MTRC_CAP_ID
    case Conf(_) => MtrcRegisters.MTRC_CONF_ID
    case Stdb(_) => MtrcRegisters.MTRC_STDB_ID
    case Ctrl(_) => MtrcRegisters.MTRC_CTRL_ID
  }

  /** `reg.to_bytes()`. */
  function EncodeRegister(reg: Register): seq<byte> {
    match reg
    case Cap(r) => MtrcRegisters.EncodeCap(r)
    case Conf(r) => MtrcRegisters.EncodeConf(r)
    case Stdb(r) => MtrcRegisters.EncodeStdb(r)
    case Ctrl(r) => MtrcRegisters.EncodeCtrl(r)
  }

  /** `Reg::from_bytes`: reads a register of the same type as `like` from the front of `b`. */
  function DecodeRegister(like: Register, b: seq<byte>): (r: Option<Register>)
    ensures r.Some? ==> RegisterId(r.value) == RegisterId(like)
  {
    match like
    case Cap(_) => (match MtrcRegisters.DecodeCap(b) case None => None case Some(x) => Some(Cap(x)))
    case Conf(_) => (match MtrcRegisters.DecodeConf(b) case None => None case Some(x) => Some(Conf(x)))
    case Stdb(_) => (match MtrcRegisters.DecodeStdb(b) case None => None case Some(x) => Some(Stdb(x)))
    case Ctrl(_) => (match MtrcRegisters.DecodeCtrl(b) case None => None case Some(x) => Some(Ctrl(x)))
  }

  predicate RegisterInRange(reg: Register) {
    match reg
    case Cap(r) => MtrcRegisters.CapInRange(r)
    case Conf(r) => MtrcRegisters.ConfInRange(r)
    case Stdb(r) => MtrcRegisters.StdbInRange(r)
    case Ctrl(r) => MtrcRegisters.CtrlInRange(r)
  }

  lemma {:induction false} RegisterRoundTrip(reg: Register, rest: seq<byte>)
    requires RegisterInRange(reg)
    ensures DecodeRegister(reg, EncodeRegister(reg) + rest) == Some(reg)
  {
    match reg
    case Cap(r) => MtrcRegisters.CapRoundTrip(r, rest);
    case Conf(r) => MtrcRegisters.ConfRoundTrip(r, rest);
    case Stdb(r) => MtrcRegisters.StdbRoundTrip(r, rest);
    case Ctrl(r) => MtrcRegisters.CtrlRoundTrip(r, rest);
  }

  /** The ACCESS_REGISTER command of `read_register` (op_mod Read) and `write_register` (op_mod Write). */
  function RegisterAccess(opMod: AccessRegisterCodec.AccessRegisterOpMod, reg: Register, argument: u32): (c: Command)
    ensures c.AccessRegisterCmd? && c.opMod == opMod && c.registerId == RegisterId(reg)
    ensures c.argument == argument && c.data == EncodeRegister(reg)
  {
    AccessRegisterCmd(opMod, RegisterId(reg), argument, EncodeRegister(reg))
  }

  /** The register read back from the reply's register data, as the same type as `like`. */
  function RegisterReply(like: Register, r: Result<Output>): (x: Result<Register>)
    ensures r.Err? ==> x == Err(r.error)
    ensures x.Ok? ==> r.Ok? && r.value.AccessRegisterOut? && DecodeRegister(like, r.value.rdata) == Some(x.value)
  {
    match r
    case Err(e) => Err(e)
    case Ok(o) =>
      if !o.AccessRegisterOut? then Err(Deku)
      else
        match DecodeRegister(like, o.rdata)
        case None => Err(Deku)
        case Some(x) => Ok(x)
  }

  /** `read_register` after the transport returned `reply`. */
  function ReadRegister(reg: Register, argument: u32, reply: Result<seq<byte>>): Result<Register> {
    RegisterReply(reg, DoCommand(RegisterAccess(AccessRegisterCodec.Read, reg, argument), reply))
  }

  /** `write_register` after the transport returned `reply`. */
  function WriteRegister(reg: Register, argument: u32, reply: Result<seq<byte>>): Result<Register> {
    RegisterReply(reg, DoCommand(RegisterAccess(AccessRegisterCodec.Write, reg, argument), reply))
  }

  /**
   * What the register accessors send: the ACCESS_REGISTER header with the
   * register's id, then the register's bytes; the reply is to be as long.
   * Reading and writing differ in the op_mod byte only.
   */
  lemma {:induction false} RegisterRequests(reg: Register, argument: u32)
    ensures ToBytes(RegisterAccess(AccessRegisterCodec.Read, reg, argument))
         == AccessRegisterCodec.Header(AccessRegisterCodec.Read, RegisterId(reg), argument) + EncodeRegister(reg)
    ensures Outlen(RegisterAccess(AccessRegisterCodec.Read, reg, argument)) == 0x10 + |EncodeRegister(reg)|
    ensures var r := ToBytes(RegisterAccess(AccessRegisterCodec.Read, reg, argument));
            var w := ToBytes(RegisterAccess(AccessRegisterCodec.Write, reg, argument));
            |r| == |w| && r[7] == 1 && w[7] == 0 && (forall j :: 0 <= j < |r| && j != 7 ==> r[j] == w[j])
  {
  }

  /** A register reply with an `Ok` header gives back the register the firmware wrote. */
  lemma {:induction false} ReadRegisterReply(reg: Register, argument: u32, syndrome: u32, value: Register)
    requires RegisterInRange(value) && RegisterId(value) == RegisterId(reg)
    ensures ReadRegister(reg, argument, Ok(Types.EncodeBaseOutput(Types.BaseOutput(Types.Ok, syndrome)) + Zeros(8) + EncodeRegister(value)))
         == Ok(value)
    ensures WriteRegister(reg, argument, Ok(Types.EncodeBaseOutput(Types.BaseOutput(Types.Ok, syndrome)) + Zeros(8) + EncodeRegister(value)))
         == Ok(value)
  {
    RegisterReplyAccepts(AccessRegisterCodec.Read, reg, argument, syndrome, value);
    RegisterReplyAccepts(AccessRegisterCodec.Write, reg, argument, syndrome, value);
  }

  lemma {:induction false} RegisterReplyAccepts(opMod: AccessRegisterCodec.AccessRegisterOpMod, reg: Register, argument: u32,
                                                 syndrome: u32, value: Register)
    requires RegisterInRange(value) && RegisterId(value) == RegisterId(reg)
    ensures RegisterReply(reg, DoCommand(RegisterAccess(opMod, reg, argument),
              Ok(Types.EncodeBaseOutput(Types.BaseOutput(Types.Ok, syndrome)) + Zeros(8) + EncodeRegister(value))))
         == Ok(value)
  {
    var o := AccessRegisterOut(Types.BaseOutput(Types.Ok, syndrome), EncodeRegister(value));
    DoCommandAccepts(RegisterAccess(opMod, reg, argument), o, []);
    assert EncodeOutput(o) + [] == Types.EncodeBaseOutput(Types.BaseOutput(Types.Ok, syndrome)) + Zeros(8) + EncodeRegister(value);
    SameKindDecodes(reg, value);
  }

  /** Registers with the same id are read by the same decoder. */
  lemma {:induction false} SameKindDecodes(like: Register, value: Register)
    requires RegisterInRange(value) && RegisterId(value) == RegisterId(like)
    ensures DecodeRegister(like, EncodeRegister(value)) == Some(value)
  {
    assert EncodeRegister(value) + [] == EncodeRegister(value);
    RegisterRoundTrip(value, []);
    assert like.Cap? == value.Cap? && like.Conf? == value.Conf? && like.Stdb? == value.Stdb? && like.Ctrl? == value.Ctrl?;
  }

  // ---------------------------------------------------------------------
  // Shellcode

  const SHELLCODE_LEN: nat := 0xa0

  /** The fields of the shellcode command other than its results (the command's layout is not part of this model). */
  datatype ExecShellcode = ExecShellcode(opMod: u16, args: seq<u64>, shellcode: seq<byte>)

  /**
   * `run_shellcode` after assembling: the code at the front of a
   * 0xa0-byte zero buffer, op_mod 0 and three zero arguments.  Longer
   * code does not fit the buffer, and the copy panics.
   */
  function RunShellcode(code: seq<byte>): (r: Result<ExecShellcode>)
    ensures r.Ok? <==> |code| <= SHELLCODE_LEN
    ensures r.Err? ==> r.error == Panic
    ensures r.Ok? ==> && r.value.opMod == 0 && r.value.args == [0, 0, 0]
                      && |r.value.shellcode| == SHELLCODE_LEN
                      && r.value.shellcode[..|code|] == code
                      && (forall j :: |code| <= j < SHELLCODE_LEN ==> r.value.shellcode[j] == 0)
  {
    if |code| > SHELLCODE_LEN then Err(Panic)
    else Ok(ExecShellcode(0, [0, 0, 0], code + Zeros(SHELLCODE_LEN - |code|)))
  }
}
