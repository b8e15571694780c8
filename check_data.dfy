/**
 * The reference semantics of the microcontroller's ALU, immediate and
 * register instructions (check_data.py), against which recorded
 * experiments are compared.
 *
 * Each reference function takes the register values (and an immediate)
 * as Python integers and either computes the expected result, raises
 * `Continue` to say the instruction is not checked, or raises Python's
 * `ValueError` for a negative shift count.  The three `test_*` entry
 * points look the function up in a dispatch table, with a default for
 * unlisted codes, and report the inputs and the result as pairs of
 * 32-bit words.
 */
module CheckData {
  import opened PyInt

  /** What a reference function does. */
  datatype Outcome<T> = Done(value: T) | Continue | ValueError

  const M24: int := 0xff_ffff
  const M32: int := 0xffff_ffff
  const M64: int := 0xffff_ffff_ffff_ffff

  lemma Pow2Small()
    ensures Pow2(5) == 0x20 && Pow2(6) == 0x40 && Pow2(8) == 0x100 && Pow2(11) == 0x800
  {
    Pow2Add(5, 6);
  }

  lemma Pow2Of24()
    ensures Pow2(24) == 0x100_0000 && Pow2(24) - 1 == M24
  {
    Pow2Small();
    Pow2Add(8, 8);
    Pow2Add(16, 8);
  }

  lemma Pow2Of32()
    ensures Pow2(32) == 0x1_0000_0000 && Pow2(32) - 1 == M32
  {
    Pow2Small();
    Pow2Add(8, 8);
    Pow2Add(16, 16);
  }

  lemma Pow2Of64()
    ensures Pow2(64) == 0x1_0000_0000_0000_0000 && Pow2(64) - 1 == M64
  {
    Pow2Of32();
    Pow2Add(32, 32);
  }

  // ---------------------------------------------------------------------
  // qwords and sx

  /** `qwords(*data)`: each value as its upper and lower 32-bit word, in order. */
  function QWords(data: seq<int>): (r: seq<int>)
    ensures |r| == 2 * |data|
  {
    if data == [] then [] else [And(Shr(data[0], 32), M32), And(data[0], M32)] + QWords(data[1..])
  }

  /** The halves of one value: its bits 63..32 and 31..0. */
  lemma Halves64(d: int)
    ensures 0 <= And(Shr(d, 32), M32) < 0x1_0000_0000 && 0 <= And(d, M32) < 0x1_0000_0000
    ensures And(Shr(d, 32), M32) * 0x1_0000_0000 + And(d, M32) == d % 0x1_0000_0000_0000_0000
  {
    Pow2Of32();
    AndLowMask(Shr(d, 32), 32);
    AndLowMask(d, 32);
    var p := 0x1_0000_0000;
    var hi, lo := (d / p) % p, d % p;
    assert d == p * (p * ((d / p) / p) + hi) + lo;
    DivModUnique(d, p * p, (d / p) / p, p * hi + lo);
  }

  /**
   * Word `2i` and `2i+1` of `qwords` are the upper and lower halves of
   * value `i`: both below 2^32, and together the value modulo 2^64.
   */
  lemma {:induction false} QWordsHalves(data: seq<int>, i: nat)
    requires i < |data|
    ensures var r := QWords(data);
            && 0 <= r[2 * i] < 0x1_0000_0000 && 0 <= r[2 * i + 1] < 0x1_0000_0000
            && r[2 * i] * 0x1_0000_0000 + r[2 * i + 1] == data[i] % 0x1_0000_0000_0000_0000
    decreases i
  {
    if i == 0 {
      Halves64(data[0]);
    } else {
      QWordsHalves(data[1..], i - 1);
      assert QWords(data)[2 * i] == QWords(data[1..])[2 * (i - 1)];
      assert QWords(data)[2 * i + 1] == QWords(data[1..])[2 * (i - 1) + 1];
    }
  }

  /** Joining the halves back, `(hi << 32) | lo`, gives the value modulo 2^64. */
  lemma QWordsJoin(data: seq<int>, i: nat)
    requires i < |data|
    ensures Or(Shl(QWords(data)[2 * i], 32), QWords(data)[2 * i + 1]) == data[i] % 0x1_0000_0000_0000_0000
  {
    QWordsHalves(data, i);
    Pow2Of32();
    OrDisjoint(QWords(data)[2 * i], QWords(data)[2 * i + 1], 32);
  }

  /** `sx(width, word)`: the word read as a `width`-bit two's complement number. */
  function Sx(width: nat, word: int): int
    requires width >= 1
  {
    if And(word, Shl(1, width - 1)) != 0 then word - Shl(1, width) else word
  }

  /**
   * For a `width`-bit word, `sx` lies in [-2^(width-1), 2^(width-1)), is
   * congruent to the word modulo 2^width, and is negative exactly when
   * the top bit is set.
   */
  lemma SxRange(width: nat, word: int)
    requires width >= 1 && 0 <= word < Pow2(width)
    ensures -(Pow2(width - 1) as int) <= Sx(width, word) < Pow2(width - 1)
    ensures Sx(width, word) % Pow2(width) == word
    ensures Sx(width, word) < 0 <==> word >= Pow2(width - 1)
  {
    AndPow2(word, width - 1);
    TopBit(word, width - 1);
    if word >= Pow2(width - 1) {
      DivModUnique(word - Pow2(width), Pow2(width), -1, word);
    } else {
      DivModUnique(word, Pow2(width), 0, word);
    }
  }

  /** Masking the sign-extended word back to `width` bits gives the word again. */
  lemma SxMask(width: nat, word: int)
    requires width >= 1 && 0 <= word < Pow2(width)
    ensures And(Sx(width, word), Pow2(width) - 1) == word
  {
    SxRange(width, word);
    AndLowMask(Sx(width, word), width);
  }

  // ---------------------------------------------------------------------
  // Bit fields of the immediate

  /** `x & 0x1f`. */
  function Low5(x: int): (r: nat)
    ensures r == x % 32
  {
    Pow2Small();
    AndLowMask(x, 5);
    And(x, 0x1f)
  }

  /** `(x >> 5) & 0x3f`. */
  function Next6(x: int): (r: nat)
    ensures r == (x / 32) % 64
  {
    Pow2Small();
    AndLowMask(Shr(x, 5), 6);
    And(Shr(x, 5), 0x3f)
  }

  /**
   * The mask of `unki_0x33` and `unkr_0x33`: the low `simm & 0x1f` bits
   * (32 when that is 0) cleared, the result shifted up by
   * `(simm >> 5) & 0x3f` with 1s shifted in, and cut to 64 bits.
   */
  function Mask0x33(simm: int): int {
    var shift1 := Low5(simm);
    var shift2 := Next6(simm);
    var mask := Not(if shift1 != 0 then Shl(1, shift1) - 1 else M32);
    And(Or(Shl(mask, shift2), Shl(1, shift2) - 1), M64)
  }

  /** The width of the field: `simm & 0x1f`, or 32 when that is 0. */
  function FieldWidth(simm: int): nat {
    if Low5(simm) != 0 then Low5(simm) else 32
  }

  /**
   * Bit `i` of a mask built from the `w`-bit low mask `low`: its complement
   * shifted up by `s` with 1s shifted in, cut to `n` bits by `top`.
   */
  lemma FieldMaskBits(low: int, w: nat, s: nat, top: int, n: nat, i: nat)
    requires low == Pow2(w) - 1 && (Bit(top, i) <==> i < n)
    ensures Bit(And(Or(Shl(Not(low), s), Shl(1, s) - 1), top), i) <==> i < n && !(s <= i < s + w)
  {
    var shifted := Shl(Not(low), s);
    assert Shl(1, s) == Pow2(s);
    BitAnd(Or(shifted, Pow2(s) - 1), top, i);
    BitOr(shifted, Pow2(s) - 1, i);
    BitLowMask(s, i);
    BitShl(Not(low), s, i);
    if i >= s {
      BitNot(low, i - s);
      BitLowMask(w, i - s);
    }
  }

  /**
   * The mask has every bit below 64 set except a field of
   * `FieldWidth(simm)` bits starting at bit `(simm >> 5) & 0x3f`.
   */
  lemma Mask0x33Bits(simm: int, i: nat)
    ensures Bit(Mask0x33(simm), i) <==> i < 64 && !(Next6(simm) <= i < Next6(simm) + FieldWidth(simm))
  {
    var low := if Low5(simm) != 0 then Shl(1, Low5(simm)) - 1 else M32;
    var mask := And(Or(Shl(Not(low), Next6(simm)), Shl(1, Next6(simm)) - 1), M64);
    assert low == Pow2(FieldWidth(simm)) - 1 by { Pow2Of32(); }
    M64Bits(i);
    FieldMaskBits(low, FieldWidth(simm), Next6(simm), M64, 64, i);
    assert Bit(mask, i) <==> i < 64 && !(Next6(simm) <= i < Next6(simm) + FieldWidth(simm));
    assert Mask0x33(simm) == mask;
  }

  /** Bit `i` of `M64` is set exactly below 64. */
  lemma M64Bits(i: nat)
    ensures Bit(M64, i) <==> i < 64
  {
    Pow2Of64();
    BitLowMask(64, i);
  }

  /** The mask is a 64-bit value. */
  lemma Mask0x33Range(simm: int)
    ensures 0 <= Mask0x33(simm) < 0x1_0000_0000_0000_0000
  {
    Pow2Of64();
    AndLowMask(Or(Shl(Not(if Low5(simm) != 0 then Shl(1, Low5(simm)) - 1 else M32), Next6(simm)),
                  Shl(1, Next6(simm)) - 1), 64);
  }

  // ---------------------------------------------------------------------
  // The ALU reference functions

  datatype AluOp =
    | AluSkip | AluZero | AluOne
    | Add64 | Sub64 | Or64 | And64 | Xor64
    | AluShl | Shr64 | Shr32 | Sar64 | Sar32
    | Sar32I | Alu0x81 | Shr32I | Usar64I | Ushr32I | Shr64I | Sar64I
    | Add24 | Sub24

  /** `alu_shl`: the shift count is capped at 64. */
  function ShlOf(r5: int, r6: int): Outcome<int> {
    if r6 < 0 then ValueError else Done(Shl(r5, if r6 < 64 then r6 else 64))
  }

  /** `alu_shr64`. */
  function Shr64Of(r5: int, r6: int): Outcome<int> {
    if r6 < 0 then ValueError else Done(Shr(r5, r6))
  }

  /** `alu_shr32`. */
  function Shr32Of(r5: int, r6: int): Outcome<int> {
    if r6 < 0 then ValueError else Done(Shr(And(r5, M32), r6))
  }

  /** `alu_sar64`. */
  function Sar64Of(r5: int, r6: int): Outcome<int> {
    if r6 < 0 then ValueError else Done(And(Shr(Sx(64, r5), r6), M64))
  }

  /** `alu_sar32`. */
  function Sar32Of(r5: int, r6: int): Outcome<int> {
    if r6 < 0 then ValueError else Done(And(Shr(Sx(32, And(r5, M32)), r6), M32))
  }

  /** `alu_usar64_i`. */
  function Usar64IOf(r5: int): int {
    Shr(Shr(Sx(64, r5), 32), 6)
  }

  /** `alu_ushr32_i`. */
  function Ushr32IOf(r5: int): int {
    Shr(Shr(r5, 32), 6)
  }

  /** `alu_sar64_i`. */
  function Sar64IOf(r5: int): int {
    Shr(Sx(64, r5), 6)
  }

  /** The `alu_*` function named by `op`, applied to `r5` and `r6`. */
  function Alu(op: AluOp, r5: int, r6: int): Outcome<int> {
    match op
    case AluSkip => Continue
    case AluZero => Done(0)
    case AluOne => Done(1)
    case Add64 => Done(r6 + r5)
    case Sub64 => Done(r6 - r5)
    case Or64 => Done(Or(r5, r6))
    case And64 => Done(And(r5, r6))
    case Xor64 => Done(Xor(r5, r6))
    case AluShl => ShlOf(r5, r6)
    case Shr64 => Shr64Of(r5, r6)
    case Shr32 => Shr32Of(r5, r6)
    case Sar64 => Sar64Of(r5, r6)
    case Sar32 => Sar32Of(r5, r6)
    case Sar32I => Sar32Of(r5, 6)
    case Alu0x81 => Done(Shl(r5, 6))
    case Shr32I => Done(Shr(And(r5, M32), 6))
    case Usar64I => Done(Usar64IOf(r5))
    case Ushr32I => Done(Ushr32IOf(r5))
    case Shr64I => Done(Shr(r5, 6))
    case Sar64I => Done(Sar64IOf(r5))
    case Add24 => Done(And(r6 + r5, M24))
    case Sub24 => Done(And(r6 - r5, M24))
  }

  /** Only `alu_skip` raises `Continue`, and only the shifts by `r6` raise `ValueError`, exactly when `r6` is negative. */
  lemma AluRaises(op: AluOp, r5: int, r6: int)
    ensures Alu(op, r5, r6) == Continue <==> op == AluSkip
    ensures Alu(op, r5, r6) == ValueError <==> op in {AluShl, Shr64, Shr32, Sar64, Sar32} && r6 < 0
  {
  }

  /** Masking with `M24` is reduction modulo 2^24. */
  lemma Wrap24(x: int)
    ensures And(x, M24) == x % 0x100_0000
  {
    Pow2Of24();
    AndLowMask(x, 24);
  }

  /** The 24-bit operations wrap the sum and the difference into [0, 2^24). */
  lemma Alu24(r5: int, r6: int)
    ensures Alu(Add24, r5, r6) == Done((r6 + r5) % 0x100_0000)
    ensures Alu(Sub24, r5, r6) == Done((r6 - r5) % 0x100_0000)
    ensures 0 <= Alu(Add24, r5, r6).value < 0x100_0000 && 0 <= Alu(Sub24, r5, r6).value < 0x100_0000
  {
    assert Alu(Add24, r5, r6) == Done(And(r6 + r5, M24));
    assert Alu(Sub24, r5, r6) == Done(And(r6 - r5, M24));
    Wrap24(r6 + r5);
    Wrap24(r6 - r5);
  }

  /** `alu_shr32` shifts the low word: `(r5 mod 2^32) / 2^r6`, rounded down. */
  lemma AluShr32(r5: int, r6: nat)
    ensures Alu(Shr32, r5, r6) == Done((r5 % 0x1_0000_0000) / Pow2(r6))
  {
    Pow2Of32();
    AndLowMask(r5, 32);
  }

  /** `alu_sar64` divides the sign-extended value by 2^r6, rounding down, and wraps it to 64 bits. */
  lemma AluSar64(r5: int, r6: nat)
    ensures Alu(Sar64, r5, r6) == Done((Sx(64, r5) / Pow2(r6)) % 0x1_0000_0000_0000_0000)
  {
    Pow2Of64();
    AndLowMask(Shr(Sx(64, r5), r6), 64);
  }

  /** `alu_sar32` does the same with the sign-extended low word, wrapped to 32 bits. */
  lemma AluSar32(r5: int, r6: nat)
    ensures Alu(Sar32, r5, r6) == Done((Sx(32, r5 % 0x1_0000_0000) / Pow2(r6)) % 0x1_0000_0000)
  {
    assert Alu(Sar32, r5, r6) == Sar32Of(r5, r6);
    var low := r5 % 0x1_0000_0000;
    assert And(r5, M32) == low by { Pow2Of32(); AndLowMask(r5, 32); }
    var shifted := Shr(Sx(32, low), r6);
    assert And(shifted, M32) == shifted % 0x1_0000_0000 by { Pow2Of32(); AndLowMask(shifted, 32); }
  }

  /** `alu_usar64_i` shifts the sign-extended value right by 32 and then 6: by 38 in all. */
  lemma AluUsar64I(r5: int, r6: int)
    ensures Alu(Usar64I, r5, r6) == Done(Shr(Sx(64, r5), 38))
  {
    assert Alu(Usar64I, r5, r6) == Done(Usar64IOf(r5));
    ShrShr(Sx(64, r5), 32, 6);
  }

  /** `alu_ushr32_i` shifts right by 32 and then 6: by 38 in all. */
  lemma AluUshr32I(r5: int, r6: int)
    ensures Alu(Ushr32I, r5, r6) == Done(Shr(r5, 38))
  {
    assert Alu(Ushr32I, r5, r6) == Done(Ushr32IOf(r5));
    ShrShr(r5, 32, 6);
  }

  /** Bit `i` of the bitwise operations is the operation on bit `i` of the operands. */
  lemma AluBitwise(r5: int, r6: int, i: nat)
    ensures Bit(Alu(Or64, r5, r6).value, i) <==> Bit(r5, i) || Bit(r6, i)
    ensures Bit(Alu(And64, r5, r6).value, i) <==> Bit(r5, i) && Bit(r6, i)
    ensures Bit(Alu(Xor64, r5, r6).value, i) <==> Bit(r5, i) != Bit(r6, i)
  {
    BitOr(r5, r6, i);
    BitAnd(r5, r6, i);
    BitXor(r5, r6, i);
  }

  /** The listed entries of `aluops`. */
  const ALU_LISTED: map<int, AluOp> := map[
    0x00 := Add64, 0x01 := Add64, 0x04 := Sub64, 0x05 := Sub64,
    0x08 := Or64, 0x0b := And64, 0x0e := Xor64, 0x0f := Xor64,
    0x20 := AluSkip,
    0x30 := Add24, 0x31 := Sub24, 0x39 := Or64,
    0x40 := Add64, 0x41 := Add64, 0x43 := Sub64, 0x44 := Sub64, 0x45 := Sub64, 0x46 := Sub64, 0x47 := Sub64,
    0x50 := Add64, 0x51 := Add64,
    0x70 := AluSkip, 0x71 := AluSkip, 0x72 := AluSkip, 0x73 := AluSkip, 0x7f := AluSkip,
    0x80 := AluShl, 0x81 := Alu0x81, 0x82 := Shr32, 0x83 := Shr32I, 0x84 := Sar32, 0x85 := Sar32I,
    0x87 := Shr64, 0x88 := Sar64, 0x89 := Usar64I, 0x8a := Shr64I, 0x8b := Ushr32I, 0x8c := Sar64I,
    0x90 := AluSkip
  ]

  /** The listed codes that map to `alu_skip`. */
  const ALU_LISTED_SKIPS: set<int> := {0x20, 0x70, 0x71, 0x72, 0x73, 0x7f, 0x90}

  const ALU_MEMORY_OPS: seq<int> := [
    0x02, 0x03, 0x06, 0x07, 0x09, 0x0a, 0x0c, 0x0d,
    0x10, 0x11, 0x12, 0x13, 0x14, 0x15, 0x16, 0x17, 0x18, 0x19, 0x1a, 0x1b, 0x1c, 0x1d, 0x1e, 0x1f,
    0x86, 0x8d, 0x8e, 0x8f
  ]

  /** `for funct in functs: table[funct] = alu_skip`. */
  function Skipping(table: map<int, AluOp>, functs: seq<int>): map<int, AluOp>
    decreases |functs|
  {
    if functs == [] then table else Skipping(table[functs[0] := AluSkip], functs[1..])
  }

  /** After the loop, every code of `functs` maps to `alu_skip` and every other code as before. */
  lemma {:induction false} SkippingMaps(table: map<int, AluOp>, functs: seq<int>, f: int)
    ensures f in Skipping(table, functs) <==> f in table || f in functs
    ensures f in functs ==> Skipping(table, functs)[f] == AluSkip
    ensures f in table && f !in functs ==> Skipping(table, functs)[f] == table[f]
    decreases |functs|
  {
    if functs != [] {
      SkippingMaps(table[functs[0] := AluSkip], functs[1..], f);
      assert f in functs ==> f == functs[0] || f in functs[1..];
    }
  }

  /** `aluops`, once the memory operations are added. */
  const ALU_OPS: map<int, AluOp> := Skipping(ALU_LISTED, ALU_MEMORY_OPS)

  /** `aluops.get(funct, alu_zero)`. */
  function AluFor(funct: int): AluOp {
    if funct in ALU_OPS then ALU_OPS[funct] else AluZero
  }

  /** The inputs and the result as 32-bit word pairs, or the exception. */
  function Report(o: Outcome<int>, r5: int, r6: int): (r: Outcome<seq<int>>)
    ensures r.Done? <==> o.Done?
    ensures r == Continue <==> o == Continue
    ensures r.Done? ==> r.value == QWords([r5, r6, o.value]) && |r.value| == 6
  {
    match o
    case Done(v) => Done(QWords([r5, r6, v]))
    case Continue => Continue
    case ValueError => ValueError
  }

  /** `test_alu(funct, r5, r6)`. */
  function TestAlu(funct: int, r5: int, r6: int): Outcome<seq<int>> {
    Report(Alu(AluFor(funct), r5, r6), r5, r6)
  }

  /**
   * `test_alu` raises `Continue` exactly for the memory operations and
   * the codes listed with `alu_skip`, whatever the registers hold.
   */
  lemma TestAluContinues(funct: int, r5: int, r6: int)
    ensures TestAlu(funct, r5, r6) == Continue <==> funct in ALU_MEMORY_OPS || funct in ALU_LISTED_SKIPS
  {
    SkippingMaps(ALU_LISTED, ALU_MEMORY_OPS, funct);
    AluRaises(AluFor(funct), r5, r6);
    ListedSkips(funct);
  }

  lemma ListedSkips(funct: int)
    ensures funct in ALU_LISTED && ALU_LISTED[funct] == AluSkip <==> funct in ALU_LISTED_SKIPS
  {
  }

  /** An unlisted code runs `alu_zero`: the registers and a result of 0. */
  lemma TestAluUnlisted(funct: int, r5: int, r6: int)
    requires funct !in ALU_LISTED && funct !in ALU_MEMORY_OPS
    ensures TestAlu(funct, r5, r6) == Done(QWords([r5, r6, 0]))
  {
    SkippingMaps(ALU_LISTED, ALU_MEMORY_OPS, funct);
  }

  // ---------------------------------------------------------------------
  // The immediate reference functions

  datatype UnkiOp =
    | UnkiSkip | UnkiZero
    | Addi | Addihi | Subi
    | Seti0 | Seti1 | Seti3 | Seti2
    | Andi | AndiZx | Andihi | AndihiZx | XorI
    | Addi3 | Addi2 | Addi24 | Subi24
    | Mask | Unki0x33

  /** `unki_mask`: `r5 >> ((simm16 >> 5) & 0x3f)`, cut to `simm16 & 0x1f` bits, or 32 when that is 0. */
  function MaskOf(r5: int, simm16: int): int {
    var value := Shr(r5, Next6(simm16));
    var width := Low5(simm16);
    var mask := if width != 0 then Shl(1, width) - 1 else M32;
    And(value, mask)
  }

  /** The `unki_*` function named by `op`, applied to `r5` and `simm16`. */
  function Unki(op: UnkiOp, r5: int, simm16: int): Outcome<int> {
    match op
    case UnkiSkip => Continue
    case UnkiZero => Done(0)
    case Addi => Done(simm16 + Sx(64, r5))
    case Addihi => Done(Shl(simm16, 16) + Sx(64, r5))
    case Subi => Done(simm16 - Sx(64, r5))
    case Seti0 => Done(Or(r5, Shl(simm16, 48)))
    case Seti1 => Done(Or(r5, Shl(simm16, 32)))
    case Seti3 => Done(Or(r5, Shl(simm16, 0)))
    case Seti2 => Done(Or(r5, Shl(simm16, 16)))
    case Andi => Done(And(r5, Or(0xffff_ffff_ffff_0000, simm16)))
    case AndiZx => Done(And(r5, simm16))
    case Andihi => Done(And(r5, Or(Shl(simm16, 16), 0xffff_ffff_0000_ffff)))
    case AndihiZx => Done(And(r5, Shl(simm16, 16)))
    case XorI => Done(Xor(r5, simm16))
    case Addi3 => Done(r5 + Shl(simm16, 48))
    case Addi2 => Done(r5 + Shl(simm16, 32))
    case Addi24 => Done(And(r5 + simm16, M24))
    case Subi24 => Done(And(simm16 - r5, M24))
    case Mask => Done(MaskOf(r5, simm16))
    case Unki0x33 => Done(And(r5, Mask0x33(simm16)))
  }

  /** Only `unki_skip` raises `Continue`, and no immediate operation raises `ValueError`. */
  lemma UnkiRaises(op: UnkiOp, r5: int, simm16: int)
    ensures Unki(op, r5, simm16) == Continue <==> op == UnkiSkip
    ensures Unki(op, r5, simm16) != ValueError
  {
  }

  /** The 24-bit immediate operations wrap into [0, 2^24). */
  lemma Unki24(r5: int, simm16: int)
    ensures Unki(Addi24, r5, simm16) == Done((r5 + simm16) % 0x100_0000)
    ensures Unki(Subi24, r5, simm16) == Done((simm16 - r5) % 0x100_0000)
    ensures 0 <= Unki(Addi24, r5, simm16).value < 0x100_0000 && 0 <= Unki(Subi24, r5, simm16).value < 0x100_0000
  {
    assert Unki(Addi24, r5, simm16) == Done(And(r5 + simm16, M24));
    assert Unki(Subi24, r5, simm16) == Done(And(simm16 - r5, M24));
    Wrap24(r5 + simm16);
    Wrap24(simm16 - r5);
  }

  /**
   * `unki_mask` extracts a bit field: `FieldWidth(simm16)` bits of `r5`
   * from bit `(simm16 >> 5) & 0x3f` on.
   */
  lemma UnkiMaskField(r5: int, simm16: int)
    ensures Unki(Mask, r5, simm16) == Done((r5 / Pow2(Next6(simm16))) % Pow2(FieldWidth(simm16)))
  {
    assert Unki(Mask, r5, simm16) == Done(MaskOf(r5, simm16));
    var low := if Low5(simm16) != 0 then Shl(1, Low5(simm16)) - 1 else M32;
    assert MaskOf(r5, simm16) == And(Shr(r5, Next6(simm16)), low);
    assert low == Pow2(FieldWidth(simm16)) - 1 by { Pow2Of32(); }
    AndLowMask(Shr(r5, Next6(simm16)), FieldWidth(simm16));
  }

  /** `unki_0x33` clears the same field of `r5`, and every bit from 64 up. */
  lemma Unki0x33Bits(r5: int, simm16: int, i: nat)
    ensures Bit(Unki(Unki0x33, r5, simm16).value, i) <==>
              Bit(r5, i) && i < 64 && !(Next6(simm16) <= i < Next6(simm16) + FieldWidth(simm16))
  {
    BitAnd(r5, Mask0x33(simm16), i);
    Mask0x33Bits(simm16, i);
  }

  const UNKI_OPS: map<int, UnkiOp> := map[
    0x00 := Addi, 0x01 := Addi, 0x02 := Addihi, 0x03 := Addihi, 0x04 := Subi, 0x05 := Subi,
    0x06 := Seti0, 0x07 := Seti1, 0x08 := Seti3, 0x09 := Seti2,
    0x0a := Andi, 0x0b := AndiZx, 0x0c := Andihi, 0x0d := AndihiZx, 0x0e := XorI,
    0x20 := Addi3, 0x21 := Addi3, 0x22 := Addi2, 0x23 := Addi2,
    0x30 := Addi24, 0x31 := Subi24, 0x32 := Mask, 0x33 := Unki0x33,
    0x34 := UnkiSkip, 0x37 := UnkiSkip
  ]

  /** `unki_ops.get(opcode, unki_zero)`. */
  function UnkiFor(opcode: int): UnkiOp {
    if opcode in UNKI_OPS then UNKI_OPS[opcode] else UnkiZero
  }

  /** `test_unki(opcode, r5, simm16)`: the second register reported as 0. */
  function TestUnki(opcode: int, r5: int, simm16: int): Outcome<seq<int>> {
    Report(Unki(UnkiFor(opcode), r5, simm16), r5, 0)
  }

  /** `test_unki` raises `Continue` exactly for opcodes 0x34 and 0x37, and never `ValueError`. */
  lemma TestUnkiContinues(opcode: int, r5: int, simm16: int)
    ensures TestUnki(opcode, r5, simm16) == Continue <==> opcode == 0x34 || opcode == 0x37
    ensures TestUnki(opcode, r5, simm16) != ValueError
  {
    UnkiRaises(UnkiFor(opcode), r5, simm16);
    assert opcode in UNKI_OPS && UNKI_OPS[opcode] == UnkiSkip <==> opcode == 0x34 || opcode == 0x37;
  }

  // ---------------------------------------------------------------------
  // The register reference functions

  datatype UnkrOp = UnkrSkip | UnkrZero | FromUnki(immediate: UnkiOp) | Unkr0x33 | Unkr0x34

  /** `unkr_from_unki(f)`'s immediate: `(6 << 11) | simm11`. */
  function UnkrImmediate(simm11: int): int {
    Or(Shl(6, 11), simm11)
  }

  /** For an 11-bit `simm11` the immediate is 0x3000 + simm11. */
  lemma UnkrImmediateValue(simm11: int)
    requires 0 <= simm11 < 0x800
    ensures UnkrImmediate(simm11) == 0x3000 + simm11
  {
    Pow2Small();
    OrDisjoint(6, simm11, 11);
  }

  /** The `unkr_*` function named by `op`, applied to `r5`, `r6` and `simm11`. */
  function Unkr(op: UnkrOp, r5: int, r6: int, simm11: int): Outcome<int> {
    match op
    case UnkrSkip => Continue
    case UnkrZero => Done(0)
    case FromUnki(f) => Unki(f, r5, UnkrImmediate(simm11))
    case Unkr0x33 => Done(Or(And(r5, Mask0x33(simm11)), And(r6, Not(Mask0x33(simm11)))))
    // `unkr_0x34` builds a mask and prints it, then always raises `Continue`.
    case Unkr0x34 => Continue
  }

  /** `unkr_0x33` takes each bit from `r5` where the mask is set and from `r6` elsewhere. */
  lemma Unkr0x33Bits(r5: int, r6: int, simm11: int, i: nat)
    ensures Bit(Unkr(Unkr0x33, r5, r6, simm11).value, i) <==>
              if Bit(Mask0x33(simm11), i) then Bit(r5, i) else Bit(r6, i)
  {
    var mask := Mask0x33(simm11);
    BitOr(And(r5, mask), And(r6, Not(mask)), i);
    BitAnd(r5, mask, i);
    BitAnd(r6, Not(mask), i);
    BitNot(mask, i);
  }

  const UNKR_OPS: map<int, UnkrOp> := map[
    0x00 := FromUnki(Addi), 0x01 := FromUnki(Addi), 0x02 := FromUnki(Addihi), 0x03 := FromUnki(Addihi),
    0x04 := FromUnki(Subi), 0x05 := FromUnki(Subi),
    0x06 := FromUnki(Seti0), 0x07 := FromUnki(Seti1), 0x08 := FromUnki(Seti3), 0x09 := FromUnki(Seti2),
    0x0a := FromUnki(Andi), 0x0b := FromUnki(AndiZx), 0x0c := FromUnki(Andihi), 0x0d := FromUnki(AndihiZx),
    0x0e := FromUnki(XorI), 0x0f := FromUnki(UnkiZero),
    0x32 := FromUnki(Mask), 0x33 := Unkr0x33, 0x34 := Unkr0x34
  ]

  /** `unkr_ops.get(opcode, unkr_zero)`. */
  function UnkrFor(opcode: int): UnkrOp {
    if opcode in UNKR_OPS then UNKR_OPS[opcode] else UnkrZero
  }

  /** `test_unkr(opcode, r5, r6, simm11)`. */
  function TestUnkr(opcode: int, r5: int, r6: int, simm11: int): Outcome<seq<int>> {
    Report(Unkr(UnkrFor(opcode), r5, r6, simm11), r5, r6)
  }

  /** `test_unkr` raises `Continue` exactly for opcode 0x34, whatever the inputs, and never `ValueError`. */
  lemma TestUnkrContinues(opcode: int, r5: int, r6: int, simm11: int)
    ensures TestUnkr(opcode, r5, r6, simm11) == Continue <==> opcode == 0x34
    ensures TestUnkr(opcode, r5, r6, simm11) != ValueError
  {
    var op := UnkrFor(opcode);
    if op.FromUnki? {
      UnkiRaises(op.immediate, r5, UnkrImmediate(simm11));
    }
  }

  /** A register instruction built from an immediate one runs it with immediate 0x3000 + simm11. */
  lemma TestUnkrFromUnki(opcode: int, r5: int, r6: int, simm11: int)
    requires opcode in UNKR_OPS && UNKR_OPS[opcode].FromUnki? && 0 <= simm11 < 0x800
    ensures TestUnkr(opcode, r5, r6, simm11) == Report(Unki(UNKR_OPS[opcode].immediate, r5, 0x3000 + simm11), r5, r6)
  {
    UnkrImmediateValue(simm11);
  }
}
