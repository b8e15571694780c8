/**
 * ALLOC_PD / DEALLOC_PD (src/commands/pd.rs) and ALLOC_UAR / DEALLOC_UAR
 * (src/commands/uar.rs): the two resource pairs share one layout and
 * differ only in their opcodes.
 *
 * An allocation request is a 16-byte magic; its reply carries the new
 * 24-bit handle at bytes 9..12.  A release request is the 16-byte magic
 * followed by a padding byte and the 24-bit handle, 20 bytes in all,
 * although `size()` says 0x10; its reply is the header alone.
 *
 * A 24-bit field written from a `u32` keeps the low 24 bits.
 */
module ResourceCodec {
  import opened Bytes
  import opened Types

  /** A protection domain (pd.rs) or a user access region (uar.rs). */
  datatype Resource = ProtectionDomain | UserAccessRegion

  function AllocOpcode(r: Resource): byte {
    match r
    case ProtectionDomain => 0x00
    case UserAccessRegion => 0x02
  }

  function DeallocOpcode(r: Resource): byte {
    match r
    case ProtectionDomain => 0x01
    case UserAccessRegion => 0x03
  }

  /** The allocation request: `08 00` or `08 02`, then fourteen zero bytes. */
  function EncodeAlloc(r: Resource): (b: seq<byte>)
    ensures |b| == Size
  {
    [0x08, AllocOpcode(r)] + Zeros(14)
  }

  predicate DecodesAlloc(r: Resource, b: seq<byte>) {
    HasMagic(b, EncodeAlloc(r))
  }

  /** `size()` and `outlen()` of all four commands. */
  const Size: nat := 0x10
  const Outlen: nat := 0x10

  /** A padding byte, then the handle's low 24 bits big-endian. */
  function EncodeHandle(h: u32): (b: seq<byte>)
    ensures |b| == 4
  {
    [0] + BE24(h % 0x100_0000)
  }

  /** A reply carrying a new handle (`AllocPDOutput`, `AllocUAROutput`, and `CreateMKeyOutput`'s mkey_index). */
  datatype HandleOutput = HandleOutput(base: BaseOutput, handle: u32)

  const HANDLE_OUTPUT_LEN: nat := 12

  function EncodeHandleOutput(o: HandleOutput): (b: seq<byte>)
    ensures |b| == HANDLE_OUTPUT_LEN
  {
    EncodeBaseOutput(o.base) + EncodeHandle(o.handle)
  }

  /** The header, a skipped byte, then a 24-bit handle at 9..12. */
  function DecodeHandleOutput(b: seq<byte>): (r: Option<HandleOutput>)
    ensures r.Some? <==> |b| >= HANDLE_OUTPUT_LEN
    ensures r.Some? ==> r.value.handle < 0x100_0000 && BE24(r.value.handle) == b[9..12]
  {
    if |b| < 12 then None
    else Some(HandleOutput(DecodeBaseOutput(b).value, FromBE24(b[9..12])))
  }

  lemma {:induction false} HandleOutputRoundTrip(o: HandleOutput, rest: seq<byte>)
    requires Canonical(o.base.status) && o.handle < 0x100_0000
    ensures DecodeHandleOutput(EncodeHandleOutput(o) + rest) == Some(o)
  {
    var b := EncodeHandleOutput(o) + rest;
    var tail := EncodeHandle(o.handle) + rest;
    assert b == EncodeBaseOutput(o.base) + tail;
    BaseOutputRoundTrip(o.base, tail);
    assert b[9..12] == BE24(o.handle);
    BE24Inverse(o.handle);
  }

  /** The release request names the resource and its handle. */
  datatype Dealloc = Dealloc(resource: Resource, handle: u32)

  function DeallocMagic(r: Resource): (b: seq<byte>)
    ensures |b| == 16
  {
    [0x08, DeallocOpcode(r)] + Zeros(14)
  }

  function EncodeDealloc(d: Dealloc): (b: seq<byte>)
    ensures |b| == 20
  {
    DeallocMagic(d.resource) + EncodeHandle(d.handle)
  }

  /** Reading a release request of resource `r`: its magic, then the handle at 17..20. */
  function DecodeDealloc(r: Resource, b: seq<byte>): (d: Option<Dealloc>)
    ensures d.Some? <==> |b| >= 20 && HasMagic(b, DeallocMagic(r))
    ensures d.Some? ==> d.value.resource == r && d.value.handle < 0x100_0000 && BE24(d.value.handle) == b[17..20]
  {
    if |b| < 20 || !HasMagic(b, DeallocMagic(r)) then None
    else Some(Dealloc(r, FromBE24(b[17..20])))
  }

  lemma {:induction false} DeallocRoundTrip(d: Dealloc, rest: seq<byte>)
    requires d.handle < 0x100_0000
    ensures DecodeDealloc(d.resource, EncodeDealloc(d) + rest) == Some(d)
  {
    var b := EncodeDealloc(d) + rest;
    assert b[..16] == DeallocMagic(d.resource);
    assert b[17..20] == BE24(d.handle);
    BE24Inverse(d.handle);
  }

  /** The release reply (`DeallocPDOutput`, `DeallocUAROutput`) is the header alone, within `outlen()`. */
  lemma {:induction false} DeallocOutputFits(o: BaseOutput, rest: seq<byte>)
    requires Canonical(o.status)
    ensures |EncodeBaseOutput(o)| <= Outlen
    ensures DecodeStatusOutput(EncodeBaseOutput(o) + rest, 0) == Some(o)
  {
    BaseOutputRoundTrip(o, rest);
  }

  /** The release request is four bytes longer than its `size()`; only the handle's low 24 bits are sent. */
  lemma DeallocSizeMismatch(d: Dealloc)
    ensures |EncodeDealloc(d)| == Size + 4
    ensures EncodeDealloc(d) == EncodeDealloc(d.(handle := d.handle % 0x100_0000))
  {
  }

  /** Each request is read back only as the command it was written as. */
  lemma {:induction false} MagicsDistinct(r: Resource, s: Resource, rest: seq<byte>)
    ensures DecodesAlloc(r, EncodeAlloc(s) + rest) <==> r == s
    ensures !HasMagic(EncodeAlloc(s) + rest, DeallocMagic(r))
  {
    var b := EncodeAlloc(s) + rest;
    assert b[..16] == EncodeAlloc(s);
    assert b[1] == AllocOpcode(s);
    if r != s {
      assert EncodeAlloc(r)[1] != b[1];
    }
    assert DeallocMagic(r)[1] != b[1];
  }

  lemma TestVectors()
    ensures EncodeAlloc(ProtectionDomain) == [0x08, 0x00, 0, 0, 0, 0, 0, 0, 0, 0, 0, 0, 0, 0, 0, 0]
    ensures EncodeAlloc(UserAccessRegion) == [0x08, 0x02, 0, 0, 0, 0, 0, 0, 0, 0, 0, 0, 0, 0, 0, 0]
    ensures EncodeDealloc(Dealloc(ProtectionDomain, 0x12_3456))
         == [0x08, 0x01, 0, 0, 0, 0, 0, 0, 0, 0, 0, 0, 0, 0, 0, 0] + [0x00, 0x12, 0x34, 0x56]
  {
    assert BE24(0x12_3456) == [0x12, 0x34, 0x56];
  }
}
