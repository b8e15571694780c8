/**
 * The earlier ALLOC_PD (src/types/alloc_pd.rs).  Its request magic, its
 * sizes and its reply's field list are those of the live command, so the
 * reply is read by `ResourceCodec.DecodeHandleOutput`.
 */
module AllocPdSnapshot {
  import opened Bytes
  import ResourceCodec

  /** The magic, `08 00` and fourteen zero bytes, which is the whole request. */
  const ALLOC_PD: seq<byte> := [0x08, 0x00] + Zeros(14)

  const SIZE: nat := 0x10
  const OUTLEN: nat := 0x10

  /** Byte for byte the live request, with the same `size()` and `outlen()`, both its encoded length. */
  lemma SameLayout()
    ensures ALLOC_PD == ResourceCodec.EncodeAlloc(ResourceCodec.ProtectionDomain)
    ensures |ALLOC_PD| == SIZE == ResourceCodec.Size && OUTLEN == ResourceCodec.Outlen
  {
  }
}
