/*
 * The C++ CRC32 engine: a 32-bit register, a 256-entry lookup table and the
 * two division loops (table-driven and bit-by-bit) of CRC32::calculate.
 *
 * As in the 32-bit source, a byte enters the register at its top (24 bits up),
 * and the table-driven loop consumes the top byte of the register with one lookup.
 * The pure functions below say what each step computes; the class Crc32 holds the
 * engine's state and its methods are proved to compute exactly those functions.
 */
module Crc32 {
  import opened BitOrder
  import opened CString

  /** Number of entries of the lookup table (LUT_SIZE). */
  const LutSize := 256

  /** The parameters the engine is built from (use_lut aside). */
  datatype Params = Params(polynomial: bv32, initValue: bv32, reflectInput: bool, reflectOutput: bool, xorOutput: bv32)

  /** One round of polynomial division: shift left, and add the polynomial when the top bit falls out. */
  function Step(poly: bv32, x: bv32): bv32 {
    if x & 0x8000_0000 != 0 then (x << 1) ^ poly else x << 1
  }

  /** n rounds of polynomial division. */
  function Divide(poly: bv32, x: bv32, n: nat): bv32
    decreases n
  {
    if n == 0 then x else Step(poly, Divide(poly, x, n - 1))
  }

  // Linearity of division. Addition of polynomials over GF(2) is XOR; the proofs
  // name it Add so that they can rewrite whole sums at once.

  function Add(a: bv32, b: bv32): bv32 {
    a ^ b
  }

  lemma StepAddSetSet(poly: bv32, a: bv32, c: bv32)
    requires a & 0x8000_0000 != 0 && c & 0x8000_0000 != 0
    ensures Step(poly, a ^ c) == Step(poly, a) ^ Step(poly, c)
  {
  }

  lemma StepAddSetClear(poly: bv32, a: bv32, c: bv32)
    requires a & 0x8000_0000 != 0 && c & 0x8000_0000 == 0
    ensures Step(poly, a ^ c) == Step(poly, a) ^ Step(poly, c)
  {
  }

  lemma StepAddClearSet(poly: bv32, a: bv32, c: bv32)
    requires a & 0x8000_0000 == 0 && c & 0x8000_0000 != 0
    ensures Step(poly, a ^ c) == Step(poly, a) ^ Step(poly, c)
  {
  }

  lemma StepAddClearClear(poly: bv32, a: bv32, c: bv32)
    requires a & 0x8000_0000 == 0 && c & 0x8000_0000 == 0
    ensures Step(poly, a ^ c) == Step(poly, a) ^ Step(poly, c)
  {
  }

  /** One division round is linear: the round of a XOR is the XOR of the rounds. */
  lemma StepXor(poly: bv32, a: bv32, c: bv32)
    ensures Step(poly, a ^ c) == Step(poly, a) ^ Step(poly, c)
  {
    if a & 0x8000_0000 != 0 {
      if c & 0x8000_0000 != 0 { StepAddSetSet(poly, a, c); } else { StepAddSetClear(poly, a, c); }
    } else {
      if c & 0x8000_0000 != 0 { StepAddClearSet(poly, a, c); } else { StepAddClearClear(poly, a, c); }
    }
  }

  lemma StepAdd(poly: bv32, a: bv32, c: bv32)
    ensures Step(poly, Add(a, c)) == Add(Step(poly, a), Step(poly, c))
  {
    StepXor(poly, a, c);
  }

  lemma {:induction false} DivideAdd(poly: bv32, a: bv32, c: bv32, n: nat)
    ensures Divide(poly, Add(a, c), n) == Add(Divide(poly, a, n), Divide(poly, c, n))
  {
    if n > 0 {
      DivideAdd(poly, a, c, n - 1);
      StepAdd(poly, Divide(poly, a, n - 1), Divide(poly, c, n - 1));
    }
  }

  /** Division is linear: dividing a XOR of two registers gives the XOR of the two divisions. */
  lemma DivideXor(poly: bv32, a: bv32, c: bv32, n: nat)
    ensures Divide(poly, a ^ c, n) == Divide(poly, a, n) ^ Divide(poly, c, n)
  {
    DivideAdd(poly, a, c, n);
  }

  lemma DivideSucc(poly: bv32, x: bv32, n: nat)
    requires n > 0
    ensures Divide(poly, x, n) == Step(poly, Divide(poly, x, n - 1))
  {
  }

  /** The expression the source's round loops compute is one Step. */
  lemma StepIs(poly: bv32, y: bv32)
    ensures Step(poly, y) == if y & 0x8000_0000 != 0 then (y << 1) ^ poly else y << 1
  {
  }

  /** A zero register stays zero: no round adds the polynomial to it. */
  lemma {:induction false} DivideZero(poly: bv32, n: nat)
    ensures Divide(poly, 0, n) == 0
  {
    if n > 0 {
      assert Step(poly, 0) == 0;
      DivideZero(poly, n - 1);
    }
  }

  /** Entry i of the lookup table: the byte i placed at the top of the register, after eight rounds. */
  function TableEntry(poly: bv32, i: bv32): bv32
    requires i < 256
  {
    Divide(poly, i << 24, 8)
  }

  lemma TableEntryZero(poly: bv32)
    ensures TableEntry(poly, 0) == 0
  {
    DivideZero(poly, 8);
  }

  /** The bit-by-bit update of the register by one byte: add the byte at the top, then eight rounds. */
  function DirectUpdate(poly: bv32, crc: bv32, b: bv8): bv32 {
    Divide(poly, crc ^ ((b as bv32) << 24), 8)
  }

  /** The index the table-driven loop reads: the top byte of the register XOR the input byte. */
  function TableIndex(crc: bv32, b: bv8): (k: bv32)
    ensures k < 256
  {
    (crc >> 24) ^ (b as bv32)
  }

  /** The table-driven update of the register by one byte. */
  function TableUpdate(poly: bv32, crc: bv32, b: bv8): bv32 {
    (crc << 8) ^ TableEntry(poly, TableIndex(crc, b))
  }

  /** Eight rounds on the low bits of a register never add the polynomial: they only shift them out of the top. */
  lemma DivideLow(poly: bv32, crc: bv32)
    ensures Divide(poly, crc & 0xFF_FFFF, 8) == crc << 8
  {
  }

  lemma IndexRoundTrip(x: bv32)
    requires x < 256
    ensures (x as int) as bv32 == x
  {
  }

  /** The register with the byte added splits into the table's top byte and the untouched low bits. */
  lemma SplitRegister(crc: bv32, b: bv8)
    ensures crc ^ ((b as bv32) << 24) == Add(TableIndex(crc, b) << 24, crc & 0xFF_FFFF)
  {
  }

  /** The bit-by-bit update is the table entry plus the division of the low bits. */
  lemma DirectSplit(poly: bv32, crc: bv32, b: bv8)
    ensures DirectUpdate(poly, crc, b) == Add(TableEntry(poly, TableIndex(crc, b)), Divide(poly, crc & 0xFF_FFFF, 8))
  {
    SplitRegister(crc, b);
    DivideAdd(poly, TableIndex(crc, b) << 24, crc & 0xFF_FFFF, 8);
  }

  /** The table-driven update, read as a sum of polynomials. */
  lemma TableUpdateIsAdd(poly: bv32, crc: bv32, b: bv8)
    ensures TableUpdate(poly, crc, b) == Add(TableEntry(poly, TableIndex(crc, b)), crc << 8)
  {
  }

  /** One table lookup performs the same update as the eight-round loop. */
  lemma TableUpdateIsDirect(poly: bv32, crc: bv32, b: bv8)
    ensures TableUpdate(poly, crc, b) == DirectUpdate(poly, crc, b)
  {
    DirectSplit(poly, crc, b);
    DivideLow(poly, crc);
    TableUpdateIsAdd(poly, crc, b);
  }

  /** The register after the bit-by-bit loop has consumed data. */
  function DirectRegister(p: Params, data: seq<bv8>): bv32 {
    if |data| == 0 then p.initValue
    else DirectUpdate(p.polynomial, DirectRegister(p, data[..|data| - 1]), InputByte(p.reflectInput, data[|data| - 1]))
  }

  /** The register after the table-driven loop has consumed data. */
  function TableRegister(p: Params, data: seq<bv8>): bv32 {
    if |data| == 0 then p.initValue
    else TableUpdate(p.polynomial, TableRegister(p, data[..|data| - 1]), InputByte(p.reflectInput, data[|data| - 1]))
  }

  /** The final step: reflect the register if asked to, then XOR the output mask. */
  function Finish(p: Params, crc: bv32): bv32 {
    (if p.reflectOutput then Rev32(crc) else crc) ^ p.xorOutput
  }

  /** The checksum of data under parameters p. */
  function Checksum(p: Params, data: seq<bv8>): bv32 {
    Finish(p, DirectRegister(p, data))
  }

  /** On empty input the register keeps its initial value, so only the final step applies. */
  lemma ChecksumOfEmpty(p: Params)
    ensures Checksum(p, []) == (if p.reflectOutput then Rev32(p.initValue) else p.initValue) ^ p.xorOutput
  {
  }

  /** The register depends only on the polynomial, the initial value and input reflection. */
  lemma {:induction false} RegisterIgnoresOutputStage(p: Params, q: Params, data: seq<bv8>)
    requires p.polynomial == q.polynomial && p.initValue == q.initValue && p.reflectInput == q.reflectInput
    ensures DirectRegister(p, data) == DirectRegister(q, data)
  {
    if |data| > 0 {
      RegisterIgnoresOutputStage(p, q, data[..|data| - 1]);
    }
  }

  /** Changing only the output mask XORs the final value by the difference of the masks. */
  lemma FinishMask(p: Params, q: Params, r: bv32)
    requires p.reflectOutput == q.reflectOutput
    ensures Finish(q, r) == Finish(p, r) ^ (p.xorOutput ^ q.xorOutput)
  {
    XorRebase(if p.reflectOutput then Rev32(r) else r, p.xorOutput, q.xorOutput);
  }

  lemma XorRebase(x: bv32, a: bv32, c: bv32)
    ensures x ^ c == (x ^ a) ^ (a ^ c)
  {
  }

  /** Table mode and direct mode fold every byte sequence into the same register. */
  lemma {:induction false} TableModeIsDirectMode(p: Params, data: seq<bv8>)
    ensures TableRegister(p, data) == DirectRegister(p, data)
  {
    if |data| > 0 {
      TableModeIsDirectMode(p, data[..|data| - 1]);
      TableUpdateIsDirect(p.polynomial, DirectRegister(p, data[..|data| - 1]), InputByte(p.reflectInput, data[|data| - 1]));
    }
  }

  /** The bit reversal of a 32-bit register: each byte reversed and the byte order reversed. */
  function Rev32(x: bv32): bv32 {
    (RevByte(x) << 24) | ((RevByte(x >> 8) << 16) | ((RevByte(x >> 16) << 8) | RevByte(x >> 24)))
  }

  /** The low byte of v, bit-reversed, as a register value. */
  function RevByte(v: bv32): bv32 {
    Rev8((v & 0xFF) as bv8) as bv32
  }

  /** Bit k of the reversal is bit 31 - k of the input. */
  lemma Rev32Bit(x: bv32, k: bv32)
    requires k < 32
    ensures (Rev32(x) >> k) & 1 == (x >> (31 - k)) & 1
  {
  }

  /** Reversing twice gives back the register. */
  lemma Rev32Involution(x: bv32)
    ensures Rev32(Rev32(x)) == x
  {
  }

  /** What the remaining n iterations of reflect's loop produce from value, the bits gathered so far and the next mask. */
  function ReflectLoop(value: bv32, reflected: bv32, bit: bv32, n: nat): bv32 {
    if n == 0 then reflected
    else ReflectLoop(value >> 1, if value & 1 != 0 then reflected | bit else reflected, bit >> 1, n - 1)
  }

  lemma ReflectLoopStep(v: bv32, r: bv32, m: bv32, n: nat)
    requires n > 0
    ensures ReflectLoop(v, r, m, n) == ReflectLoop(v >> 1, if v & 1 != 0 then r | m else r, m >> 1, n - 1)
  {
  }

  /** v shifted right n times. */
  function ShiftedDown(v: bv32, n: nat): bv32 {
    if n == 0 then v else ShiftedDown(v >> 1, n - 1)
  }

  /** Bitwise OR, named so that the proofs below can rewrite whole unions at once. */
  function Or(a: bv32, b: bv32): bv32 {
    a | b
  }

  /** The loop only ever ORs bits into `reflected`, so bits gathered earlier pass through unchanged. */
  lemma {:induction false} ReflectLoopOr(v: bv32, r: bv32, m: bv32, n: nat)
    ensures ReflectLoop(v, r, m, n) == Or(r, ReflectLoop(v, 0, m, n))
    decreases n, 1
  {
    if n > 0 {
      ReflectLoopStep(v, r, m, n);
      ReflectLoopStep(v, 0, m, n);
      if v & 1 != 0 {
        ReflectLoopOrSet(v >> 1, r, m, n - 1);
      } else {
        ReflectLoopOr(v >> 1, r, m >> 1, n - 1);
      }
    }
  }

  lemma {:induction false} ReflectLoopOrSet(v: bv32, r: bv32, m: bv32, n: nat)
    ensures ReflectLoop(v, r | m, m >> 1, n) == Or(r, ReflectLoop(v, 0 | m, m >> 1, n))
    decreases n + 1, 0
  {
    ReflectLoopOr(v, r | m, m >> 1, n);
    ReflectLoopOr(v, 0 | m, m >> 1, n);
    var z := ReflectLoop(v, 0, m >> 1, n);
    assert (r | m) | z == r | ((0 | m) | z);
  }

  /** a + b iterations are a iterations followed by b iterations. */
  lemma {:induction false} ReflectLoopSplit(v: bv32, r: bv32, m: bv32, a: nat, b: nat)
    ensures ReflectLoop(v, r, m, a + b) == ReflectLoop(ShiftedDown(v, a), ReflectLoop(v, r, m, a), ShiftedDown(m, a), b)
  {
    if a > 0 {
      ReflectLoopSplit(v >> 1, if v & 1 != 0 then r | m else r, m >> 1, a - 1, b);
    }
  }

  lemma ShiftedDown8(v: bv32)
    ensures ShiftedDown(v, 8) == v >> 8
  {
    assert ShiftedDown(v, 8) == ShiftedDown(v >> 1, 7);
    assert ShiftedDown(v >> 1, 7) == ShiftedDown(v >> 1 >> 1, 6);
    assert ShiftedDown(v >> 1 >> 1, 6) == ShiftedDown(v >> 1 >> 1 >> 1, 5);
    assert ShiftedDown(v >> 1 >> 1 >> 1, 5) == ShiftedDown(v >> 1 >> 1 >> 1 >> 1, 4);
    assert ShiftedDown(v >> 1 >> 1 >> 1 >> 1, 4) == ShiftedDown(v >> 1 >> 1 >> 1 >> 1 >> 1, 3);
    assert ShiftedDown(v >> 1 >> 1 >> 1 >> 1 >> 1, 3) == ShiftedDown(v >> 1 >> 1 >> 1 >> 1 >> 1 >> 1, 2);
    assert ShiftedDown(v >> 1 >> 1 >> 1 >> 1 >> 1 >> 1, 2) == ShiftedDown(v >> 1 >> 1 >> 1 >> 1 >> 1 >> 1 >> 1, 1);
    assert ShiftedDown(v >> 1 >> 1 >> 1 >> 1 >> 1 >> 1 >> 1, 1) == v >> 1 >> 1 >> 1 >> 1 >> 1 >> 1 >> 1 >> 1;
  }

  /** Eight iterations of the loop starting at mask 0x80000000 reverse the low byte of v into place. */
  lemma {:induction false} ByteRound0(v: bv32)
    ensures ReflectLoop(v, 0, 0x80000000, 8) == RevByte(v) << 24
  {
    var R := RevByte(v) << 24;
    assert v >> 0 == v; assert R & 0x0 == 0;
    ReflectLoopStep(v >> 0, R & 0x0, 0x80000000, 8);
    assert (v >> 0) >> 1 == v >> 1;
    if (v >> 0) & 1 != 0 { assert (R & 0x0) | 0x80000000 == R & 0x80000000; } else { assert R & 0x0 == R & 0x80000000; }
    ReflectLoopStep(v >> 1, R & 0x80000000, 0x40000000, 7);
    assert (v >> 1) >> 1 == v >> 2;
    if (v >> 1) & 1 != 0 { assert (R & 0x80000000) | 0x40000000 == R & 0xc0000000; } else { assert R & 0x80000000 == R & 0xc0000000; }
    ReflectLoopStep(v >> 2, R & 0xc0000000, 0x20000000, 6);
    assert (v >> 2) >> 1 == v >> 3;
    if (v >> 2) & 1 != 0 { assert (R & 0xc0000000) | 0x20000000 == R & 0xe0000000; } else { assert R & 0xc0000000 == R & 0xe0000000; }
    ReflectLoopStep(v >> 3, R & 0xe0000000, 0x10000000, 5);
    assert (v >> 3) >> 1 == v >> 4;
    if (v >> 3) & 1 != 0 { assert (R & 0xe0000000) | 0x10000000 == R & 0xf0000000; } else { assert R & 0xe0000000 == R & 0xf0000000; }
    ReflectLoopStep(v >> 4, R & 0xf0000000, 0x8000000, 4);
    assert (v >> 4) >> 1 == v >> 5;
    if (v >> 4) & 1 != 0 { assert (R & 0xf0000000) | 0x8000000 == R & 0xf8000000; } else { assert R & 0xf0000000 == R & 0xf8000000; }
    ReflectLoopStep(v >> 5, R & 0xf8000000, 0x4000000, 3);
    assert (v >> 5) >> 1 == v >> 6;
    if (v >> 5) & 1 != 0 { assert (R & 0xf8000000) | 0x4000000 == R & 0xfc000000; } else { assert R & 0xf8000000 == R & 0xfc000000; }
    ReflectLoopStep(v >> 6, R & 0xfc000000, 0x2000000, 2);
    assert (v >> 6) >> 1 == v >> 7;
    if (v >> 6) & 1 != 0 { assert (R & 0xfc000000) | 0x2000000 == R & 0xfe000000; } else { assert R & 0xfc000000 == R & 0xfe000000; }
    ReflectLoopStep(v >> 7, R & 0xfe000000, 0x1000000, 1);
    assert (v >> 7) >> 1 == v >> 8;
    if (v >> 7) & 1 != 0 { assert (R & 0xfe000000) | 0x1000000 == R & 0xff000000; } else { assert R & 0xfe000000 == R & 0xff000000; }
    assert R & 0xff000000 == R;
  }
  /** Eight iterations of the loop starting at mask 0x800000 reverse the low byte of v into place. */
  lemma {:induction false} ByteRound1(v: bv32)
    ensures ReflectLoop(v, 0, 0x800000, 8) == RevByte(v) << 16
  {
    var R := RevByte(v) << 16;
    assert v >> 0 == v; assert R & 0x0 == 0;
    ReflectLoopStep(v >> 0, R & 0x0, 0x800000, 8);
    assert (v >> 0) >> 1 == v >> 1;
    if (v >> 0) & 1 != 0 { assert (R & 0x0) | 0x800000 == R & 0x800000; } else { assert R & 0x0 == R & 0x800000; }
    ReflectLoopStep(v >> 1, R & 0x800000, 0x400000, 7);
    assert (v >> 1) >> 1 == v >> 2;
    if (v >> 1) & 1 != 0 { assert (R & 0x800000) | 0x400000 == R & 0xc00000; } else { assert R & 0x800000 == R & 0xc00000; }
    ReflectLoopStep(v >> 2, R & 0xc00000, 0x200000, 6);
    assert (v >> 2) >> 1 == v >> 3;
    if (v >> 2) & 1 != 0 { assert (R & 0xc00000) | 0x200000 == R & 0xe00000; } else { assert R & 0xc00000 == R & 0xe00000; }
    ReflectLoopStep(v >> 3, R & 0xe00000, 0x100000, 5);
    assert (v >> 3) >> 1 == v >> 4;
    if (v >> 3) & 1 != 0 { assert (R & 0xe00000) | 0x100000 == R & 0xf00000; } else { assert R & 0xe00000 == R & 0xf00000; }
    ReflectLoopStep(v >> 4, R & 0xf00000, 0x80000, 4);
    assert (v >> 4) >> 1 == v >> 5;
    if (v >> 4) & 1 != 0 { assert (R & 0xf00000) | 0x80000 == R & 0xf80000; } else { assert R & 0xf00000 == R & 0xf80000; }
    ReflectLoopStep(v >> 5, R & 0xf80000, 0x40000, 3);
    assert (v >> 5) >> 1 == v >> 6;
    if (v >> 5) & 1 != 0 { assert (R & 0xf80000) | 0x40000 == R & 0xfc0000; } else { assert R & 0xf80000 == R & 0xfc0000; }
    ReflectLoopStep(v >> 6, R & 0xfc0000, 0x20000, 2);
    assert (v >> 6) >> 1 == v >> 7;
    if (v >> 6) & 1 != 0 { assert (R & 0xfc0000) | 0x20000 == R & 0xfe0000; } else { assert R & 0xfc0000 == R & 0xfe0000; }
    ReflectLoopStep(v >> 7, R & 0xfe0000, 0x10000, 1);
    assert (v >> 7) >> 1 == v >> 8;
    if (v >> 7) & 1 != 0 { assert (R & 0xfe0000) | 0x10000 == R & 0xff0000; } else { assert R & 0xfe0000 == R & 0xff0000; }
    assert R & 0xff0000 == R;
  }
  /** Eight iterations of the loop starting at mask 0x8000 reverse the low byte of v into place. */
  lemma {:induction false} ByteRound2(v: bv32)
    ensures ReflectLoop(v, 0, 0x8000, 8) == RevByte(v) << 8
  {
    var R := RevByte(v) << 8;
    assert v >> 0 == v; assert R & 0x0 == 0;
    ReflectLoopStep(v >> 0, R & 0x0, 0x8000, 8);
    assert (v >> 0) >> 1 == v >> 1;
    if (v >> 0) & 1 != 0 { assert (R & 0x0) | 0x8000 == R & 0x8000; } else { assert R & 0x0 == R & 0x8000; }
    ReflectLoopStep(v >> 1, R & 0x8000, 0x4000, 7);
    assert (v >> 1) >> 1 == v >> 2;
    if (v >> 1) & 1 != 0 { assert (R & 0x8000) | 0x4000 == R & 0xc000; } else { assert R & 0x8000 == R & 0xc000; }
    ReflectLoopStep(v >> 2, R & 0xc000, 0x2000, 6);
    assert (v >> 2) >> 1 == v >> 3;
    if (v >> 2) & 1 != 0 { assert (R & 0xc000) | 0x2000 == R & 0xe000; } else { assert R & 0xc000 == R & 0xe000; }
    ReflectLoopStep(v >> 3, R & 0xe000, 0x1000, 5);
    assert (v >> 3) >> 1 == v >> 4;
    if (v >> 3) & 1 != 0 { assert (R & 0xe000) | 0x1000 == R & 0xf000; } else { assert R & 0xe000 == R & 0xf000; }
    ReflectLoopStep(v >> 4, R & 0xf000, 0x800, 4);
    assert (v >> 4) >> 1 == v >> 5;
    if (v >> 4) & 1 != 0 { assert (R & 0xf000) | 0x800 == R & 0xf800; } else { assert R & 0xf000 == R & 0xf800; }
    ReflectLoopStep(v >> 5, R & 0xf800, 0x400, 3);
    assert (v >> 5) >> 1 == v >> 6;
    if (v >> 5) & 1 != 0 { assert (R & 0xf800) | 0x400 == R & 0xfc00; } else { assert R & 0xf800 == R & 0xfc00; }
    ReflectLoopStep(v >> 6, R & 0xfc00, 0x200, 2);
    assert (v >> 6) >> 1 == v >> 7;
    if (v >> 6) & 1 != 0 { assert (R & 0xfc00) | 0x200 == R & 0xfe00; } else { assert R & 0xfc00 == R & 0xfe00; }
    ReflectLoopStep(v >> 7, R & 0xfe00, 0x100, 1);
    assert (v >> 7) >> 1 == v >> 8;
    if (v >> 7) & 1 != 0 { assert (R & 0xfe00) | 0x100 == R & 0xff00; } else { assert R & 0xfe00 == R & 0xff00; }
    assert R & 0xff00 == R;
  }
  /** Eight iterations of the loop starting at mask 0x80 reverse the low byte of v into place. */
  lemma {:induction false} ByteRound3(v: bv32)
    ensures ReflectLoop(v, 0, 0x80, 8) == RevByte(v)
  {
    var R := RevByte(v);
    assert v >> 0 == v; assert R & 0x0 == 0;
    ReflectLoopStep(v >> 0, R & 0x0, 0x80, 8);
    assert (v >> 0) >> 1 == v >> 1;
    if (v >> 0) & 1 != 0 { assert (R & 0x0) | 0x80 == R & 0x80; } else { assert R & 0x0 == R & 0x80; }
    ReflectLoopStep(v >> 1, R & 0x80, 0x40, 7);
    assert (v >> 1) >> 1 == v >> 2;
    if (v >> 1) & 1 != 0 { assert (R & 0x80) | 0x40 == R & 0xc0; } else { assert R & 0x80 == R & 0xc0; }
    ReflectLoopStep(v >> 2, R & 0xc0, 0x20, 6);
    assert (v >> 2) >> 1 == v >> 3;
    if (v >> 2) & 1 != 0 { assert (R & 0xc0) | 0x20 == R & 0xe0; } else { assert R & 0xc0 == R & 0xe0; }
    ReflectLoopStep(v >> 3, R & 0xe0, 0x10, 5);
    assert (v >> 3) >> 1 == v >> 4;
    if (v >> 3) & 1 != 0 { assert (R & 0xe0) | 0x10 == R & 0xf0; } else { assert R & 0xe0 == R & 0xf0; }
    ReflectLoopStep(v >> 4, R & 0xf0, 0x8, 4);
    assert (v >> 4) >> 1 == v >> 5;
    if (v >> 4) & 1 != 0 { assert (R & 0xf0) | 0x8 == R & 0xf8; } else { assert R & 0xf0 == R & 0xf8; }
    ReflectLoopStep(v >> 5, R & 0xf8, 0x4, 3);
    assert (v >> 5) >> 1 == v >> 6;
    if (v >> 5) & 1 != 0 { assert (R & 0xf8) | 0x4 == R & 0xfc; } else { assert R & 0xf8 == R & 0xfc; }
    ReflectLoopStep(v >> 6, R & 0xfc, 0x2, 2);
    assert (v >> 6) >> 1 == v >> 7;
    if (v >> 6) & 1 != 0 { assert (R & 0xfc) | 0x2 == R & 0xfe; } else { assert R & 0xfc == R & 0xfe; }
    ReflectLoopStep(v >> 7, R & 0xfe, 0x1, 1);
    assert (v >> 7) >> 1 == v >> 8;
    if (v >> 7) & 1 != 0 { assert (R & 0xfe) | 0x1 == R & 0xff; } else { assert R & 0xfe == R & 0xff; }
    assert R & 0xff == R;
  }

  /** The loop taken eight iterations (one byte) at a time. */
  function ByteRounds(v: bv32, m: bv32, k: nat): bv32 {
    if k == 0 then 0 else ReflectLoop(v, 0, m, 8) | ByteRounds(v >> 8, m >> 8, k - 1)
  }

  lemma {:induction false} PeelByte(v: bv32, m: bv32, n: nat)
    ensures ReflectLoop(v, 0, m, 8 + n) == ReflectLoop(v, 0, m, 8) | ReflectLoop(v >> 8, 0, m >> 8, n)
  {
    ReflectLoopSplit(v, 0, m, 8, n);
    ShiftedDown8(v);
    ShiftedDown8(m);
    ReflectLoopOr(v >> 8, ReflectLoop(v, 0, m, 8), m >> 8, n);
  }

  lemma {:induction false} ByBytes(v: bv32, m: bv32, k: nat)
    ensures ReflectLoop(v, 0, m, 8 * k) == ByteRounds(v, m, k)
  {
    if k > 0 {
      PeelByte(v, m, 8 * (k - 1));
      ByBytes(v >> 8, m >> 8, k - 1);
    }
  }


  lemma {:induction false} RoundsFrom0(y: bv32)
    ensures ByteRounds(y, 0x80000000, 4) == (RevByte(y) << 24) | ((RevByte(y >> 8) << 16) | ((RevByte(y >> 8 >> 8) << 8) | RevByte(y >> 8 >> 8 >> 8)))
  {
    ByteRound0(y);
    RoundsFrom1(y >> 8);
  }

  lemma {:induction false} RoundsFrom1(y: bv32)
    ensures ByteRounds(y, 0x800000, 3) == (RevByte(y) << 16) | ((RevByte(y >> 8) << 8) | RevByte(y >> 8 >> 8))
  {
    ByteRound1(y);
    RoundsFrom2(y >> 8);
  }

  lemma {:induction false} RoundsFrom2(y: bv32)
    ensures ByteRounds(y, 0x8000, 2) == (RevByte(y) << 8) | RevByte(y >> 8)
  {
    ByteRound2(y);
    RoundsFrom3(y >> 8);
  }

  lemma {:induction false} RoundsFrom3(y: bv32)
    ensures ByteRounds(y, 0x80, 1) == RevByte(y)
  {
    ByteRound3(y);
  }

  /** The 32 iterations of reflect's loop reverse the bits of the register. */
  lemma {:induction false} ReflectLoopIsReversal(x: bv32)
    ensures ReflectLoop(x, 0, 0x8000_0000, 32) == Rev32(x)
  {
    ByBytes(x, 0x8000_0000, 4);
    RoundsFrom0(x);
    assert x >> 8 >> 8 == x >> 16;
    assert x >> 8 >> 8 >> 8 == x >> 24;
  }

  /** The mask for bit i, shifted down once, is the mask for bit i + 1 (checked position by position). */
  /** The reflect loop's single-bit mask moves down one place per iteration. */
  lemma BitMaskStep(i: int)
    requires 0 <= i < 31
    ensures ((1 as bv32) << (31 - i)) >> 1 == (1 as bv32) << (31 - (i + 1))
  {
    if i == 0 {
    } else if i == 1 {
    } else if i == 2 {
    } else if i == 3 {
    } else if i == 4 {
    } else if i == 5 {
    } else if i == 6 {
    } else if i == 7 {
    } else if i == 8 {
    } else if i == 9 {
    } else if i == 10 {
    } else if i == 11 {
    } else if i == 12 {
    } else if i == 13 {
    } else if i == 14 {
    } else if i == 15 {
    } else if i == 16 {
    } else if i == 17 {
    } else if i == 18 {
    } else if i == 19 {
    } else if i == 20 {
    } else if i == 21 {
    } else if i == 22 {
    } else if i == 23 {
    } else if i == 24 {
    } else if i == 25 {
    } else if i == 26 {
    } else if i == 27 {
    } else if i == 28 {
    } else if i == 29 {
    } else if i == 30 {
    }
  }

  /** Prefix lemma for the folds: the first i + 1 bytes are the first i bytes and byte i. */
  lemma PrefixStep(data: seq<bv8>, i: int)
    requires 0 <= i < |data|
    ensures data[..i + 1][..i] == data[..i] && data[..i + 1][i] == data[i]
  {
  }

  /** Running the bit-by-bit loop one byte further: the register after k + 1 bytes is the update of the register after k bytes. */
  lemma RegisterAfter(p: Params, data: seq<bv8>, k: nat, r: bv32, next: bv32)
    requires k < |data|
    requires DirectRegister(p, data[..k]) == r
    requires DirectUpdate(p.polynomial, r, InputByte(p.reflectInput, data[k])) == next
    ensures DirectRegister(p, data[..k + 1]) == next
  {
    assert data[..k + 1][..k] == data[..k];
  }

  /**
   * A CRC32 engine. Its parameters and its lookup table are set by the
   * constructor and never written again: every other method reads them only.
   */
  class Crc32 {
    const polynomial: bv32
    const initValue: bv32
    const reflectInput: bool
    const reflectOutput: bool
    const xorOutput: bv32
    const useLut: bool
    const lookupTable: array<bv32>

    function Parameters(): Params {
      Params(polynomial, initValue, reflectInput, reflectOutput, xorOutput)
    }

    /** The table holds LUT_SIZE entries: the division table when useLut, zeros otherwise. */
    ghost predicate Valid()
      reads lookupTable
    {
      lookupTable.Length == LutSize &&
      forall i | 0 <= i < LutSize :: lookupTable[i] == if useLut then TableEntry(polynomial, i as bv32) else 0
    }

    constructor (polynomial: bv32, initValue: bv32, reflectInput: bool, reflectOutput: bool, xorOutput: bv32, useLut: bool)
      ensures Parameters() == Params(polynomial, initValue, reflectInput, reflectOutput, xorOutput)
      ensures this.useLut == useLut
      ensures Valid() && fresh(lookupTable)
    {
      this.polynomial := polynomial;
      this.initValue := initValue;
      this.reflectInput := reflectInput;
      this.reflectOutput := reflectOutput;
      this.xorOutput := xorOutput;
      this.useLut := useLut;
      lookupTable := new bv32[LutSize](_ => 0);
      new;
      if useLut {
        CreateLookupTable();
      }
    }

    /** CRC32(): polynomial 0x04C11DB7, initial value and output mask all ones, both reflections. */
    constructor Default(useLut: bool)
      ensures Parameters() == Params(0x04C1_1DB7, 0xFFFF_FFFF, true, true, 0xFFFF_FFFF)
      ensures this.useLut == useLut
      ensures Valid() && fresh(lookupTable)
    {
      polynomial := 0x04C1_1DB7;
      initValue := 0xFFFF_FFFF;
      reflectInput := true;
      reflectOutput := true;
      xorOutput := 0xFFFF_FFFF;
      this.useLut := useLut;
      lookupTable := new bv32[LutSize](_ => 0);
      new;
      if useLut {
        CreateLookupTable();
      }
    }

    /**
     * Fills every entry i of the table with the byte i, placed at the top,
     * after eight division rounds. This is the private create_lookup_table:
     * only the constructor calls it, and only when use_lut is set.
     */
    method CreateLookupTable()
      requires useLut && lookupTable.Length == LutSize
      modifies lookupTable
      ensures forall i | 0 <= i < LutSize :: lookupTable[i] == TableEntry(polynomial, i as bv32)
      ensures Valid()
    {
      for i := 0 to LutSize
        invariant forall k | 0 <= k < i :: lookupTable[k] == TableEntry(polynomial, k as bv32)
      {
        var x := Rounds((i as bv32) << 24);
        lookupTable[i] := x;
      }
    }

    /** The eight shift/XOR rounds of the table construction and of the bit-by-bit loop. */
    method Rounds(x: bv32) returns (y: bv32)
      ensures y == Divide(polynomial, x, 8)
    {
      y := x;
      for j := 0 to 8
        invariant y == Divide(polynomial, x, j)
      {
        DivideSucc(polynomial, x, j + 1);
        StepIs(polynomial, y);
        y := if y & 0x8000_0000 != 0 then (y << 1) ^ polynomial else y << 1;
      }
    }

    /** Reverses the 32 bits of value. */
    method Reflect(value: bv32) returns (reflected: bv32)
      ensures reflected == Rev32(value)
    {
      var v := value;
      reflected := 0;
      ghost var bit: bv32 := 0x8000_0000;
      for i := 0 to 32
        invariant i < 32 ==> bit == 1 << (31 - i)
        invariant ReflectLoop(v, reflected, bit, 32 - i) == ReflectLoop(value, 0, 0x8000_0000, 32)
      {
        ReflectLoopStep(v, reflected, bit, 32 - i);
        if i < 31 {
          BitMaskStep(i);
        }
        if v & 0x01 != 0 {
          reflected := reflected | (1 << (31 - i));
        }
        v := v >> 1;
        bit := bit >> 1;
      }
      ReflectLoopIsReversal(value);
    }

    /** The checksum of data, by the table when useLut and bit by bit otherwise. */
    method Calculate(data: seq<bv8>) returns (crc: bv32)
      requires Valid()
      ensures crc == Checksum(Parameters(), data)
    {
      if useLut {
        crc := TableLoop(data);
      } else {
        crc := DirectLoop(data);
      }
      if reflectOutput {
        crc := Reflect(crc);
      }
      crc := (crc ^ xorOutput) & 0xFFFF_FFFF;
    }

    /** The table-driven loop of Calculate: one table lookup per byte. */
    method TableLoop(data: seq<bv8>) returns (crc: bv32)
      requires Valid() && useLut
      ensures crc == DirectRegister(Parameters(), data)
    {
      crc := initValue;
      for i := 0 to |data|
        invariant crc == TableRegister(Parameters(), data[..i])
      {
        PrefixStep(data, i);
        var b := data[i];
        if reflectInput {
          b := LookupReflected(data[i]);
        }
        assert b == InputByte(reflectInput, data[i]);
        crc := TableByte(crc, b);
      }
      assert data[..|data|] == data;
      TableModeIsDirectMode(Parameters(), data);
    }

    /** The bit-by-bit loop of Calculate: eight division rounds per byte. */
    method DirectLoop(data: seq<bv8>) returns (crc: bv32)
      ensures crc == DirectRegister(Parameters(), data)
    {
      crc := initValue;
      for i := 0 to |data|
        invariant crc == DirectRegister(Parameters(), data[..i])
      {
        PrefixStep(data, i);
        var b := data[i];
        if reflectInput {
          b := LookupReflected(data[i]);
        }
        assert b == InputByte(reflectInput, data[i]);
        crc := DirectByte(crc, b);
      }
      assert data[..|data|] == data;
    }

    /** The body of the table-driven loop: the register moves up a byte and takes in the table entry. */
    method TableByte(crc: bv32, b: bv8) returns (next: bv32)
      requires Valid() && useLut
      ensures next == TableUpdate(polynomial, crc, b)
    {
      var index := (crc >> 24) ^ (b as bv32);
      IndexRoundTrip(index);
      next := (crc << 8) ^ lookupTable[index as int];
    }

    /** The body of the bit-by-bit loop: the byte is added at the top of the register, then eight rounds. */
    method DirectByte(crc: bv32, b: bv8) returns (next: bv32)
      ensures next == DirectUpdate(polynomial, crc, b)
    {
      next := Rounds(crc ^ ((b as bv32) << 24));
    }

    /** The checksum of the first length bytes of dataIn (none when length is not positive). */
    method CalculateBuffer(dataIn: array<bv8>, length: int) returns (crc: bv32)
      requires Valid()
      requires length <= dataIn.Length
      ensures crc == Checksum(Parameters(), dataIn[..if length < 0 then 0 else length])
    {
      var data: seq<bv8> := [];
      var i := 0;
      while i < length
        invariant 0 <= i <= if length < 0 then 0 else length
        invariant data == dataIn[..i]
      {
        data := data + [dataIn[i]];
        i := i + 1;
      }
      crc := Calculate(data);
    }

    /** The checksum of the bytes of the NUL-terminated string s before its first NUL. */
    method CalculateString(s: seq<bv8>) returns (crc: bv32)
      requires Valid()
      requires 0 in s
      ensures crc == Checksum(Parameters(), BeforeNul(s))
    {
      var n := |BeforeNul(s)|;
      var data: seq<bv8> := [];
      for i := 0 to n
        invariant data == s[..i]
      {
        data := data + [s[i]];
      }
      crc := Calculate(data);
    }
  }
}
