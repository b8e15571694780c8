/**
 * MANAGE_PAGES (src/commands/manage_pages.rs): hands pages to the
 * firmware, reports a failed allocation, or asks for pages back.
 *
 * The entry count is a field of its own.  Its `update` attribute would
 * tie it to the number of items, but only an explicit update applies it:
 * serialising writes the count as it is, and decoding reads exactly that
 * many items.
 */
module ManagePagesCodec {
  import opened Bytes
  import opened Types

  datatype ManagePagesOpMod = AllocationFail | AllocationSuccess | HCAReturnPages

  datatype ManagePages = ManagePages(opMod: ManagePagesOpMod, inputNumEntries: u32, items: seq<u64>)

  datatype ManagePagesOutput = ManagePagesOutput(base: BaseOutput, outputNumEntries: u32, items: seq<u64>)

  function OpModToU16(m: ManagePagesOpMod): u16 {
    match m
    case AllocationFail => 0
    case AllocationSuccess => 1
    case HCAReturnPages => 2
  }

  function OpModFromU16(v: u16): (r: Option<ManagePagesOpMod>)
    ensures r.Some? <==> v <= 2
    ensures r.Some? ==> OpModToU16(r.value) == v
  {
    if v == 0 then Some(AllocationFail)
    else if v == 1 then Some(AllocationSuccess)
    else if v == 2 then Some(HCAReturnPages)
    else None
  }

  const MAGIC: seq<byte> := [0x01, 0x08]

  /** The first 16 bytes: magic, four padding bytes, op_mod, four padding bytes, the count. */
  function Header(m: ManagePages): (r: seq<byte>)
    ensures |r| == 16
  {
    MAGIC + Zeros(4) + BE16(OpModToU16(m.opMod)) + Zeros(4) + BE32(m.inputNumEntries)
  }

  /** The header, then every item as a big-endian 64-bit word, however many the count says. */
  function Encode(m: ManagePages): (r: seq<byte>)
    ensures |r| == 16 + 8 * |m.items|
  {
    Header(m) + BE64s(m.items)
  }

  /**
   * Reads a request from the front of `b`: after the header exactly
   * `input_num_entries` items; fails on a bad magic or op_mod or when the
   * bytes run out.
   */
  function Decode(b: seq<byte>): (r: Option<ManagePages>)
    ensures r.Some? ==> |r.value.items| == r.value.inputNumEntries
  {
    if |b| < 16 || b[..2] != MAGIC then None
    else
      var n := FromBE32(b[12..16]);
      match OpModFromU16(FromBE16(b[6..8]))
      case None => None
      case Some(op) =>
        if |b| < 16 + 8 * n then None
        else Some(ManagePages(op, n, FromBE64s(b[16..], n)))
  }

  /** `size()`: the 16-byte header and eight bytes per item; always the encoded length. */
  function Size(m: ManagePages): (n: nat)
    ensures n == |Encode(m)|
  {
    0x10 + |m.items| * 8
  }

  /** `outlen()`: the header alone, unless pages are asked back, then eight bytes per entry asked for. */
  function Outlen(m: ManagePages): nat {
    match m.opMod
    case AllocationFail => 0x10
    case AllocationSuccess => 0x10
    case HCAReturnPages => 0x10 + m.inputNumEntries * 8
  }

  lemma OutlenCases(m: ManagePages)
    ensures m.opMod != HCAReturnPages ==> Outlen(m) == 0x10
    ensures m.opMod == HCAReturnPages ==> Outlen(m) == 0x10 + 8 * m.inputNumEntries
  {
  }

  /** What the `update` attribute would do: set the count to the number of items. */
  function Update(m: ManagePages): (r: ManagePages)
    requires |m.items| < 0x1_0000_0000
    ensures r.inputNumEntries == |r.items| && r.items == m.items && r.opMod == m.opMod
  {
    m.(inputNumEntries := |m.items|)
  }

  /** The header fields read back from the front of `Header(m) + tail`. */
  lemma {:induction false} HeaderFields(m: ManagePages, tail: seq<byte>)
    ensures var b := Header(m) + tail;
      && |b| >= 16 && b[..2] == MAGIC
      && FromBE16(b[6..8]) == OpModToU16(m.opMod)
      && FromBE32(b[12..16]) == m.inputNumEntries
      && b[16..] == tail
  {
    var b := Header(m) + tail;
    assert b[..2] == MAGIC;
    assert b[6..8] == BE16(OpModToU16(m.opMod));
    assert b[12..16] == BE32(m.inputNumEntries);
    BE16Inverse(OpModToU16(m.opMod));
    BE32Inverse(m.inputNumEntries);
  }

  /** Decoding undoes encoding whenever the count matches the items. */
  lemma {:induction false} RoundTrip(m: ManagePages, rest: seq<byte>)
    requires m.inputNumEntries == |m.items|
    ensures Decode(Encode(m) + rest) == Some(m)
  {
    var b := Encode(m) + rest;
    assert b == Header(m) + (BE64s(m.items) + rest);
    HeaderFields(m, BE64s(m.items) + rest);
    BE64sInverse(m.items, rest);
  }

  /** A count below the number of items: decoding the request gives back only the first `count` items. */
  lemma {:induction false} FewerEntries(m: ManagePages)
    requires m.inputNumEntries < |m.items|
    ensures Decode(Encode(m)) == Some(m.(items := m.items[..m.inputNumEntries]))
  {
    var n := m.inputNumEntries;
    var b := Encode(m);
    var m' := m.(items := m.items[..n]);
    assert m.items == m'.items + m.items[n..];
    BE64sAppend(m'.items, m.items[n..]);
    assert Header(m') == Header(m);
    assert b == Encode(m') + BE64s(m.items[n..]);
    RoundTrip(m', BE64s(m.items[n..]));
  }

  lemma {:induction false} BE64sAppend(xs: seq<u64>, ys: seq<u64>)
    ensures BE64s(xs + ys) == BE64s(xs) + BE64s(ys)
    decreases |xs|
  {
    if |xs| > 0 {
      assert (xs + ys)[0] == xs[0];
      assert (xs + ys)[1..] == xs[1..] + ys;
      BE64sAppend(xs[1..], ys);
    } else {
      assert xs + ys == ys;
    }
  }

  /** Output: the header, the entry count at 8..12, four padding bytes, then that many items. */
  function EncodeOutput(o: ManagePagesOutput): (r: seq<byte>)
    ensures |r| == 16 + 8 * |o.items|
  {
    EncodeBaseOutput(o.base) + BE32(o.outputNumEntries) + Zeros(4) + BE64s(o.items)
  }

  function DecodeOutput(b: seq<byte>): (r: Option<ManagePagesOutput>)
    ensures r.Some? <==> |b| >= 16 && |b| >= 16 + 8 * FromBE32(b[8..12])
    ensures r.Some? ==> |r.value.items| == r.value.outputNumEntries == FromBE32(b[8..12])
  {
    if |b| < 16 then None
    else
      var n := FromBE32(b[8..12]);
      if |b| < 16 + 8 * n then None
      else Some(ManagePagesOutput(DecodeBaseOutput(b).value, n, FromBE64s(b[16..], n)))
  }

  lemma {:induction false} OutputRoundTrip(o: ManagePagesOutput, rest: seq<byte>)
    requires Canonical(o.base.status) && o.outputNumEntries == |o.items|
    ensures DecodeOutput(EncodeOutput(o) + rest) == Some(o)
  {
    var h := EncodeBaseOutput(o.base);
    var items := BE64s(o.items) + rest;
    var tail := BE32(o.outputNumEntries) + Zeros(4) + items;
    var b := EncodeOutput(o) + rest;
    assert b == h + tail;
    BaseOutputRoundTrip(o.base, tail);
    assert b[8..12] == BE32(o.outputNumEntries);
    BE32Inverse(o.outputNumEntries);
    assert b[16..] == items;
    BE64sInverse(o.items, rest);
    assert |b| >= 16 + 8 * |o.items|;
    assert DecodeOutput(b) == Some(ManagePagesOutput(o.base, |o.items|, FromBE64s(items, |o.items|)));
  }

  /** The zero and all-ones words of the unit tests. */
  lemma TestWords()
    ensures BE64(0) == [0x00, 0x00, 0x00, 0x00, 0x00, 0x00, 0x00, 0x00]
    ensures BE64(0xffff_ffff_ffff_ffff) == [0xff, 0xff, 0xff, 0xff, 0xff, 0xff, 0xff, 0xff]
  {
  }

  const TEST_REQUEST: ManagePages := ManagePages(AllocationSuccess, 3, [0x1234_5678, 0, 0xffff_ffff_ffff_ffff])

  /** The request of the unit test, with three items, and that it asks for no output beyond the header. */
  lemma RequestTestVector()
    ensures Encode(TEST_REQUEST)
         == [0x01, 0x08, 0x00, 0x00, 0x00, 0x00, 0x00, 0x01, 0x00, 0x00, 0x00, 0x00, 0x00, 0x00, 0x00, 0x03]
          + [0x00, 0x00, 0x00, 0x00, 0x12, 0x34, 0x56, 0x78]
          + [0x00, 0x00, 0x00, 0x00, 0x00, 0x00, 0x00, 0x00]
          + [0xff, 0xff, 0xff, 0xff, 0xff, 0xff, 0xff, 0xff]
    ensures Outlen(TEST_REQUEST) == 16
  {
    assert Header(TEST_REQUEST) == [0x01, 0x08, 0x00, 0x00, 0x00, 0x00, 0x00, 0x01, 0x00, 0x00, 0x00, 0x00, 0x00, 0x00, 0x00, 0x03];
    assert BE64(0x1234_5678) == [0x00, 0x00, 0x00, 0x00, 0x12, 0x34, 0x56, 0x78];
    TestWords();
    BE64sThree(0x1234_5678, 0, 0xffff_ffff_ffff_ffff);
  }

  /** The 16-byte reply of the unit test: status 0xab, syndrome 0x12345678, no items. */
  lemma OutputTestVector()
    ensures DecodeOutput([0xab, 0x00, 0x00, 0x00, 0x12, 0x34, 0x56, 0x78, 0x00, 0x00, 0x00, 0x00, 0x00, 0x00, 0x00, 0x00])
         == Some(ManagePagesOutput(BaseOutput(UnknownError(0xab), 0x1234_5678), 0, []))
  {
    var b: seq<byte> := [0xab, 0x00, 0x00, 0x00, 0x12, 0x34, 0x56, 0x78, 0x00, 0x00, 0x00, 0x00, 0x00, 0x00, 0x00, 0x00];
    BaseOutputTestVector();
    assert b[..8] == TEST_HEADER;
    assert b == b[..8] + b[8..];
    BaseOutputPrefix(b[..8], b[8..]);
    assert b[8..12] == BE32(0);
    BE32Inverse(0);
  }
}
