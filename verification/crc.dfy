/** The CRC-16 used by the LightWare LWNX protocol (`createCrc`). */
module Crc {
  import opened Common

  /** The last three XORs of one `createCrc` iteration: the shifted register
      `p` absorbs the mixed code `c` at offsets 0, 5 and 12. */
  function Combine(p: bv16, c: bv16): bv16
  {
    p ^ c ^ (c << 5) ^ (c << 12)
  }

  /** One iteration of `createCrc`'s loop. Python works on unbounded integers
      and masks with `0xFFFF` at the end of the iteration; since the loop only
      XORs and shifts, and the masking commutes with both, computing every
      intermediate modulo 2^16 gives the same register. */
  function CrcStep(crc: bv16, b: bv16): bv16
    requires b < 256
  {
    var code := (crc >> 8) ^ b;
    Combine(crc << 8, code ^ (code >> 4))
  }

  /** A byte as the low eight bits of a 16-bit register. */
  function Octet(x: uint8): (r: bv16)
    ensures r < 256
  {
    x as bv16
  }

  /** The register after `createCrc` has consumed every byte of `data`. */
  function CrcRegister(data: seq<uint8>): bv16
  {
    if |data| == 0 then 0 else CrcStep(CrcRegister(data[..|data| - 1]), Octet(data[|data| - 1]))
  }

  /** `createCrc(data)`: the CRC as the non-negative integer Python returns.
      Callers that only carry a CRC around (the framing code) need no more
      than its range, so the register arithmetic sits one call further down,
      in `CrcValue`; `CreateCrcIsRegister` and `CreateCrcIsBitSerial` below
      say what the value is. */
  function CreateCrc(data: seq<uint8>): (r: nat)
    ensures r < 0x10000
    ensures |data| == 0 ==> r == 0
  {
    CrcValue(data, false)
  }

  /** The register of the byte fold read as an integer; with `folded` false
      it defers to itself with `folded` true. */
  function CrcValue(data: seq<uint8>, folded: bool): (r: nat)
    ensures r < 0x10000
    ensures |data| == 0 ==> r == 0
    decreases if folded then 0 else 1
  {
    if folded then CrcRegister(data) as nat else CrcValue(data, true)
  }

  lemma CreateCrcIsRegister(data: seq<uint8>)
    ensures CreateCrc(data) == CrcRegister(data) as nat
  {
    assert CreateCrc(data) == CrcValue(data, true);
  }

  // ---------------------------------------------------------------------
  // The reference: the bit-serial CRC, one register shift per input bit.

  /** One shift of the bit-serial CRC register: shift left and, when the bit
      shifted out was set, XOR in the polynomial 0x1021. */
  function Shift(r: bv16): bv16
  {
    if r & 0x8000 != 0 then (r << 1) ^ 0x1021 else r << 1
  }

  function Shifts(r: bv16, k: nat): bv16
    decreases k
  {
    if k == 0 then r else Shifts(Shift(r), k - 1)
  }

  /** One input byte: XOR it into the top of the register, then shift eight times. */
  function BitSerialStep(crc: bv16, b: bv16): bv16
    requires b < 256
  {
    Shifts(crc ^ (b << 8), 8)
  }

  function BitSerialCrc(data: seq<uint8>): bv16
  {
    if |data| == 0 then 0 else BitSerialStep(BitSerialCrc(data[..|data| - 1]), Octet(data[|data| - 1]))
  }

  // ---------------------------------------------------------------------
  // Proof that the two agree. Two shifts consume the top two bits t of the
  // register and XOR in t * 0x1021; no feedback reaches bit 15 within four
  // shifts, so two such steps make a nibble step, and two nibble steps make
  // the byte step that `createCrc` computes in closed form. Each lemma below
  // relates plain register values, so that the solver never has to rewrite
  // inside a long XOR chain.

  lemma ShiftBranchFree(r: bv16)
    ensures Shift(r) == (r << 1) ^ ((0 - (r >> 15)) & 0x1021)
  {
    if r & 0x8000 != 0 {
      assert r >> 15 == 1;
    } else {
      assert r >> 15 == 0;
    }
  }

  lemma TwoShifts(r: bv16, s1: bv16, s2: bv16)
    requires s1 == (r << 1) ^ ((0 - (r >> 15)) & 0x1021)
    requires s2 == (s1 << 1) ^ ((0 - (s1 >> 15)) & 0x1021)
    ensures s2 == (r << 2) ^ ((r >> 14) ^ ((r >> 14) << 5) ^ ((r >> 14) << 12))
  {
  }

  lemma FourShifts(r: bv16, t1: bv16, t2: bv16)
    requires t1 == (r << 2) ^ ((r >> 14) ^ ((r >> 14) << 5) ^ ((r >> 14) << 12))
    requires t2 == (t1 << 2) ^ ((t1 >> 14) ^ ((t1 >> 14) << 5) ^ ((t1 >> 14) << 12))
    ensures t2 == (r << 4) ^ ((r >> 12) ^ ((r >> 12) << 5) ^ ((r >> 12) << 12))
  {
  }

  lemma EightShifts(r: bv16, u1: bv16, u2: bv16, p: bv16, c: bv16)
    requires u1 == (r << 4) ^ ((r >> 12) ^ ((r >> 12) << 5) ^ ((r >> 12) << 12))
    requires u2 == (u1 << 4) ^ ((u1 >> 12) ^ ((u1 >> 12) << 5) ^ ((u1 >> 12) << 12))
    requires p == r << 8
    requires c == (r >> 8) ^ (r >> 12)
    ensures u2 == p ^ c ^ (c << 5) ^ (c << 12)
  {
  }

  lemma CombineDef(p: bv16, c: bv16)
    ensures Combine(p, c) == p ^ c ^ (c << 5) ^ (c << 12)
  {
  }

  lemma Unfold8(r: bv16)
    ensures Shifts(r, 8) == Shift(Shift(Shift(Shift(Shift(Shift(Shift(Shift(r))))))))
  {
    var a1 := Shift(r); var a2 := Shift(a1); var a3 := Shift(a2); var a4 := Shift(a3);
    var a5 := Shift(a4); var a6 := Shift(a5); var a7 := Shift(a6);
    assert Shifts(r, 8) == Shifts(a1, 7);
    assert Shifts(a1, 7) == Shifts(a2, 6);
    assert Shifts(a2, 6) == Shifts(a3, 5);
    assert Shifts(a3, 5) == Shifts(a4, 4);
    assert Shifts(a4, 4) == Shifts(a5, 3);
    assert Shifts(a5, 3) == Shifts(a6, 2);
    assert Shifts(a6, 2) == Shifts(a7, 1);
    assert Shifts(a7, 1) == Shift(a7);
  }

  /** Eight bit-serial shifts in closed form. */
  function ByteShift(r: bv16): bv16
  {
    Combine(r << 8, (r >> 8) ^ (r >> 12))
  }

  lemma ByteShiftDef(r: bv16, p: bv16, c: bv16)
    requires p == r << 8
    requires c == (r >> 8) ^ (r >> 12)
    ensures ByteShift(r) == Combine(p, c)
  {
  }

  lemma ShiftsByte(r: bv16)
    ensures Shifts(r, 8) == ByteShift(r)
  {
    var a1 := Shift(r); var a2 := Shift(a1); var a3 := Shift(a2); var a4 := Shift(a3);
    var a5 := Shift(a4); var a6 := Shift(a5); var a7 := Shift(a6); var a8 := Shift(a7);
    Unfold8(r);
    ShiftBranchFree(r); ShiftBranchFree(a1); ShiftBranchFree(a2); ShiftBranchFree(a3);
    ShiftBranchFree(a4); ShiftBranchFree(a5); ShiftBranchFree(a6); ShiftBranchFree(a7);
    TwoShifts(r, a1, a2); TwoShifts(a2, a3, a4); TwoShifts(a4, a5, a6); TwoShifts(a6, a7, a8);
    FourShifts(r, a2, a4); FourShifts(a4, a6, a8);
    var p := r << 8;
    var c := (r >> 8) ^ (r >> 12);
    EightShifts(r, a4, a8, p, c);
    CombineDef(p, c);
    ByteShiftDef(r, p, c);
  }

  /** Folding the byte into the register first: the code `createCrc` mixes is
      the top byte of `crc ^ (b << 8)` folded with its own top nibble. */
  lemma ByteForm(crc: bv16, b: bv16, r: bv16, p: bv16, c: bv16)
    requires b < 256 && r == crc ^ (b << 8)
    requires p == crc << 8
    requires c == ((crc >> 8) ^ b) ^ (((crc >> 8) ^ b) >> 4)
    ensures p == r << 8
    ensures c == (r >> 8) ^ (r >> 12)
  {
  }

  lemma CrcStepDef(crc: bv16, b: bv16, p: bv16, c: bv16)
    requires b < 256
    requires p == crc << 8
    requires c == ((crc >> 8) ^ b) ^ (((crc >> 8) ^ b) >> 4)
    ensures CrcStep(crc, b) == Combine(p, c)
  {
  }

  lemma StepIsByteShift(crc: bv16, b: bv16, r: bv16)
    requires b < 256 && r == crc ^ (b << 8)
    ensures CrcStep(crc, b) == ByteShift(r)
  {
    var p := crc << 8;
    var c := ((crc >> 8) ^ b) ^ (((crc >> 8) ^ b) >> 4);
    CrcStepDef(crc, b, p, c);
    ByteForm(crc, b, r, p, c);
    ByteShiftDef(r, p, c);
  }

  /** The byte-at-a-time mixing in `createCrc` agrees with eight rounds of
      the bit-serial algorithm, for every register value and every byte. */
  lemma StepIsBitSerial(crc: bv16, b: bv16)
    requires b < 256
    ensures CrcStep(crc, b) == BitSerialStep(crc, b)
  {
    var r := crc ^ (b << 8);
    ShiftsByte(r);
    StepIsByteShift(crc, b, r);
  }

  lemma {:induction false} RegisterIsBitSerial(data: seq<uint8>)
    ensures CrcRegister(data) == BitSerialCrc(data)
    decreases |data|
  {
    if |data| > 0 {
      RegisterIsBitSerial(data[..|data| - 1]);
      StepIsBitSerial(CrcRegister(data[..|data| - 1]), Octet(data[|data| - 1]));
    }
  }

  /** `createCrc` computes the bit-serial CRC-16 with polynomial 0x1021 and
      initial value 0, for every byte sequence. */
  lemma CreateCrcIsBitSerial(data: seq<uint8>)
    ensures CreateCrc(data) == BitSerialCrc(data) as nat
  {
    CreateCrcIsRegister(data);
    RegisterIsBitSerial(data);
  }

  /** Appending one byte advances the CRC by one step: the CRC of a frame
      can be computed incrementally, as the parser's buffer grows. */
  lemma CreateCrcSnoc(data: seq<uint8>, b: uint8)
    ensures CreateCrc(data + [b]) == CrcStep(CreateCrc(data) as bv16, Octet(b)) as nat
  {
    CreateCrcIsRegister(data);
    CreateCrcIsRegister(data + [b]);
    assert (data + [b])[..|data + [b]| - 1] == data;
  }
}
