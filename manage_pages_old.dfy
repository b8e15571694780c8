/**
 * The earlier MANAGE_PAGES (src/types/manage_pages.rs).  Its request and
 * reply lay out exactly as the live command's (ManagePagesCodec); it has
 * no `update` on the count, and its `outlen()` always leaves room for one
 * eight-byte item per item sent, whatever the op_mod.
 */
module ManagePagesOldCodec {
  import opened Bytes
  import opened Types
  import opened ManagePagesCodec

  /** `outlen()` of the earlier type: the header and eight bytes per item. */
  function OldOutlen(m: ManagePages): nat {
    0x10 + |m.items| * 8
  }

  /** The earlier `outlen()` is the request's own size, and a reply with as many items fits it exactly. */
  lemma OldOutlenFits(m: ManagePages, o: ManagePagesOutput)
    requires |o.items| == |m.items|
    ensures OldOutlen(m) == Size(m) == |EncodeOutput(o)|
  {
  }

  /** The two definitions of `outlen()` agree exactly when pages are asked back with the count equal to the number of items, or nothing is sent back. */
  lemma OutlenChanged(m: ManagePages)
    ensures Outlen(m) == OldOutlen(m) <==> if m.opMod == HCAReturnPages then m.inputNumEntries == |m.items| else |m.items| == 0
  {
  }

  const TEST_REPLY: seq<byte> :=
    [0xab, 0x00, 0x00, 0x00, 0x12, 0x34, 0x56, 0x78]
    + [0x00, 0x00, 0x00, 0x03]
    + [0x00, 0x00, 0x00, 0x00]
    + ([0x00, 0x00, 0x00, 0x00, 0x87, 0x65, 0x43, 0x21]
    + [0x00, 0x00, 0x00, 0x00, 0x00, 0x00, 0x00, 0x00]
    + [0xff, 0xff, 0xff, 0xff, 0xff, 0xff, 0xff, 0xff])

  const TEST_OUTPUT: ManagePagesOutput :=
    ManagePagesOutput(BaseOutput(UnknownError(0xab), 0x1234_5678), 3, [0x8765_4321, 0, 0xffff_ffff_ffff_ffff])

  /** The reply bytes of the unit test are the encoding of status 0xab, syndrome 0x12345678 and three items. */
  lemma TestReplyEncodes()
    ensures EncodeOutput(TEST_OUTPUT) == TEST_REPLY
  {
    assert EncodeBaseOutput(TEST_OUTPUT.base) == [0xab, 0x00, 0x00, 0x00, 0x12, 0x34, 0x56, 0x78];
    assert BE32(3) == [0x00, 0x00, 0x00, 0x03];
    assert BE64(0x8765_4321) == [0x00, 0x00, 0x00, 0x00, 0x87, 0x65, 0x43, 0x21];
    TestWords();
    BE64sThree(0x8765_4321, 0, 0xffff_ffff_ffff_ffff);
  }

  /** The 40-byte reply of the unit test fills the earlier `outlen()` and decodes to three items. */
  lemma OldTestVector()
    ensures |TEST_REPLY| == OldOutlen(TEST_REQUEST)
    ensures DecodeOutput(TEST_REPLY) == Some(TEST_OUTPUT)
  {
    TestReplyEncodes();
    assert TEST_REPLY == EncodeOutput(TEST_OUTPUT) + [];
    OutputRoundTrip(TEST_OUTPUT, []);
  }
}
