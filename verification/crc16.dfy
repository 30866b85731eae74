/*
 * The C++ CRC16 engine: a 16-bit register, a 256-entry lookup table and the
 * two division loops (table-driven and bit-by-bit) of CRC16::calculate.
 *
 * As in the 16-bit source, a byte enters the register at its top (8 bits up),
 * and the table-driven loop consumes the top byte of the register with one lookup.
 * The pure functions below say what each step computes; the class Crc16 holds the
 * engine's state and its methods are proved to compute exactly those functions.
 */
module Crc16 {
  import opened BitOrder
  import opened CString

  /** Number of entries of the lookup table (LUT_SIZE). */
  const LutSize := 256

  /** The parameters the engine is built from (use_lut aside). */
  datatype Params = Params(polynomial: bv16, initValue: bv16, reflectInput: bool, reflectOutput: bool, xorOutput: bv16)

  /** One round of polynomial division: shift left, and add the polynomial when the top bit falls out. */
  function Step(poly: bv16, x: bv16): bv16 {
    if x & 0x8000 != 0 then (x << 1) ^ poly else x << 1
  }

  /** n rounds of polynomial division. */
  function Divide(poly: bv16, x: bv16, n: nat): bv16
    decreases n
  {
    if n == 0 then x else Step(poly, Divide(poly, x, n - 1))
  }

  // Linearity of division. Addition of polynomials over GF(2) is XOR; the proofs
  // name it Add so that they can rewrite whole sums at once.

  function Add(a: bv16, b: bv16): bv16 {
    a ^ b
  }

  lemma StepAddSetSet(poly: bv16, a: bv16, c: bv16)
    requires a & 0x8000 != 0 && c & 0x8000 != 0
    ensures Step(poly, a ^ c) == Step(poly, a) ^ Step(poly, c)
  {
  }

  lemma StepAddSetClear(poly: bv16, a: bv16, c: bv16)
    requires a & 0x8000 != 0 && c & 0x8000 == 0
    ensures Step(poly, a ^ c) == Step(poly, a) ^ Step(poly, c)
  {
  }

  lemma StepAddClearSet(poly: bv16, a: bv16, c: bv16)
    requires a & 0x8000 == 0 && c & 0x8000 != 0
    ensures Step(poly, a ^ c) == Step(poly, a) ^ Step(poly, c)
  {
  }

  lemma StepAddClearClear(poly: bv16, a: bv16, c: bv16)
    requires a & 0x8000 == 0 && c & 0x8000 == 0
    ensures Step(poly, a ^ c) == Step(poly, a) ^ Step(poly, c)
  {
  }

  /** One division round is linear: the round of a XOR is the XOR of the rounds. */
  lemma StepXor(poly: bv16, a: bv16, c: bv16)
    ensures Step(poly, a ^ c) == Step(poly, a) ^ Step(poly, c)
  {
    if a & 0x8000 != 0 {
      if c & 0x8000 != 0 { StepAddSetSet(poly, a, c); } else { StepAddSetClear(poly, a, c); }
    } else {
      if c & 0x8000 != 0 { StepAddClearSet(poly, a, c); } else { StepAddClearClear(poly, a, c); }
    }
  }

  lemma StepAdd(poly: bv16, a: bv16, c: bv16)
    ensures Step(poly, Add(a, c)) == Add(Step(poly, a), Step(poly, c))
  {
    StepXor(poly, a, c);
  }

  lemma {:induction false} DivideAdd(poly: bv16, a: bv16, c: bv16, n: nat)
    ensures Divide(poly, Add(a, c), n) == Add(Divide(poly, a, n), Divide(poly, c, n))
  {
    if n > 0 {
      DivideAdd(poly, a, c, n - 1);
      StepAdd(poly, Divide(poly, a, n - 1), Divide(poly, c, n - 1));
    }
  }

  /** Division is linear: dividing a XOR of two registers gives the XOR of the two divisions. */
  lemma DivideXor(poly: bv16, a: bv16, c: bv16, n: nat)
    ensures Divide(poly, a ^ c, n) == Divide(poly, a, n) ^ Divide(poly, c, n)
  {
    DivideAdd(poly, a, c, n);
  }

  lemma DivideSucc(poly: bv16, x: bv16, n: nat)
    requires n > 0
    ensures Divide(poly, x, n) == Step(poly, Divide(poly, x, n - 1))
  {
  }

  /** The expression the source's round loops compute is one Step. */
  lemma StepIs(poly: bv16, y: bv16)
    ensures Step(poly, y) == if y & 0x8000 != 0 then (y << 1) ^ poly else y << 1
  {
  }

  /** A zero register stays zero: no round adds the polynomial to it. */
  lemma {:induction false} DivideZero(poly: bv16, n: nat)
    ensures Divide(poly, 0, n) == 0
  {
    if n > 0 {
      assert Step(poly, 0) == 0;
      DivideZero(poly, n - 1);
    }
  }

  /** Entry i of the lookup table: the byte i placed at the top of the register, after eight rounds. */
  function TableEntry(poly: bv16, i: bv16): bv16
    requires i < 256
  {
    Divide(poly, i << 8, 8)
  }

  lemma TableEntryZero(poly: bv16)
    ensures TableEntry(poly, 0) == 0
  {
    DivideZero(poly, 8);
  }

  /** The bit-by-bit update of the register by one byte: add the byte at the top, then eight rounds. */
  function DirectUpdate(poly: bv16, crc: bv16, b: bv8): bv16 {
    Divide(poly, crc ^ ((b as bv16) << 8), 8)
  }

  /** The index the table-driven loop reads: the top byte of the register XOR the input byte. */
  function TableIndex(crc: bv16, b: bv8): (k: bv16)
    ensures k < 256
  {
    (crc >> 8) ^ (b as bv16)
  }

  /** The table-driven update of the register by one byte. */
  function TableUpdate(poly: bv16, crc: bv16, b: bv8): bv16 {
    (crc << 8) ^ TableEntry(poly, TableIndex(crc, b))
  }

  /** Eight rounds on the low bits of a register never add the polynomial: they only shift them out of the top. */
  lemma DivideLow(poly: bv16, crc: bv16)
    ensures Divide(poly, crc & 0xFF, 8) == crc << 8
  {
  }

  lemma IndexRoundTrip(x: bv16)
    requires x < 256
    ensures (x as int) as bv16 == x
  {
  }

  /** The register with the byte added splits into the table's top byte and the untouched low bits. */
  lemma SplitRegister(crc: bv16, b: bv8)
    ensures crc ^ ((b as bv16) << 8) == Add(TableIndex(crc, b) << 8, crc & 0xFF)
  {
  }

  /** The bit-by-bit update is the table entry plus the division of the low bits. */
  lemma DirectSplit(poly: bv16, crc: bv16, b: bv8)
    ensures DirectUpdate(poly, crc, b) == Add(TableEntry(poly, TableIndex(crc, b)), Divide(poly, crc & 0xFF, 8))
  {
    SplitRegister(crc, b);
    DivideAdd(poly, TableIndex(crc, b) << 8, crc & 0xFF, 8);
  }

  /** The table-driven update, read as a sum of polynomials. */
  lemma TableUpdateIsAdd(poly: bv16, crc: bv16, b: bv8)
    ensures TableUpdate(poly, crc, b) == Add(TableEntry(poly, TableIndex(crc, b)), crc << 8)
  {
  }

  /** One table lookup performs the same update as the eight-round loop. */
  lemma TableUpdateIsDirect(poly: bv16, crc: bv16, b: bv8)
    ensures TableUpdate(poly, crc, b) == DirectUpdate(poly, crc, b)
  {
    DirectSplit(poly, crc, b);
    DivideLow(poly, crc);
    TableUpdateIsAdd(poly, crc, b);
  }

  /** The register after the bit-by-bit loop has consumed data. */
  function DirectRegister(p: Params, data: seq<bv8>): bv16 {
    if |data| == 0 then p.initValue
    else DirectUpdate(p.polynomial, DirectRegister(p, data[..|data| - 1]), InputByte(p.reflectInput, data[|data| - 1]))
  }

  /** The register after the table-driven loop has consumed data. */
  function TableRegister(p: Params, data: seq<bv8>): bv16 {
    if |data| == 0 then p.initValue
    else TableUpdate(p.polynomial, TableRegister(p, data[..|data| - 1]), InputByte(p.reflectInput, data[|data| - 1]))
  }

  /** The final step: reflect the register if asked to, then XOR the output mask. */
  function Finish(p: Params, crc: bv16): bv16 {
    (if p.reflectOutput then Rev16(crc) else crc) ^ p.xorOutput
  }

  /** The checksum of data under parameters p. */
  function Checksum(p: Params, data: seq<bv8>): bv16 {
    Finish(p, DirectRegister(p, data))
  }

  /** On empty input the register keeps its initial value, so only the final step applies. */
  lemma ChecksumOfEmpty(p: Params)
    ensures Checksum(p, []) == (if p.reflectOutput then Rev16(p.initValue) else p.initValue) ^ p.xorOutput
  {
  }

  /** The register depends only on the polynomial, the initial value and input reflection. */
  lemma {:induction false} RegisterIgnoresOutputStage(p: Params, q: Params, data: seq<bv8>)
    requires p.polynomial == q.polynomial && p.initValue == q.initValue && p.reflectInput == q.reflectInput
    ensures DirectRegister(p, data) == DirectRegister(q, data)
  {
    if |data| > 0 {
      RegisterIgnoresOutputStage(p, q, data[..|data| - 1]);
    }
  }

  /** Changing only the output mask XORs the final value by the difference of the masks. */
  lemma FinishMask(p: Params, q: Params, r: bv16)
    requires p.reflectOutput == q.reflectOutput
    ensures Finish(q, r) == Finish(p, r) ^ (p.xorOutput ^ q.xorOutput)
  {
    XorRebase(if p.reflectOutput then Rev16(r) else r, p.xorOutput, q.xorOutput);
  }

  lemma XorRebase(x: bv16, a: bv16, c: bv16)
    ensures x ^ c == (x ^ a) ^ (a ^ c)
  {
  }

  /** Table mode and direct mode fold every byte sequence into the same register. */
  lemma {:induction false} TableModeIsDirectMode(p: Params, data: seq<bv8>)
    ensures TableRegister(p, data) == DirectRegister(p, data)
  {
    if |data| > 0 {
      TableModeIsDirectMode(p, data[..|data| - 1]);
      TableUpdateIsDirect(p.polynomial, DirectRegister(p, data[..|data| - 1]), InputByte(p.reflectInput, data[|data| - 1]));
    }
  }

  /** The bit reversal of a 16-bit register: each byte reversed and the byte order reversed. */
  function Rev16(x: bv16): bv16 {
    (RevByte(x) << 8) | RevByte(x >> 8)
  }

  /** The low byte of v, bit-reversed, as a register value. */
  function RevByte(v: bv16): bv16 {
    Rev8((v & 0xFF) as bv8) as bv16
  }

  /** Bit k of the reversal is bit 15 - k of the input. */
  lemma Rev16Bit(x: bv16, k: bv16)
    requires k < 16
    ensures (Rev16(x) >> k) & 1 == (x >> (15 - k)) & 1
  {
  }

  /** Reversing twice gives back the register. */
  lemma Rev16Involution(x: bv16)
    ensures Rev16(Rev16(x)) == x
  {
  }

  /** What the remaining n iterations of reflect's loop produce from value, the bits gathered so far and the next mask. */
  function ReflectLoop(value: bv16, reflected: bv16, bit: bv16, n: nat): bv16 {
    if n == 0 then reflected
    else ReflectLoop(value >> 1, if value & 1 != 0 then reflected | bit else reflected, bit >> 1, n - 1)
  }

  lemma ReflectLoopStep(v: bv16, r: bv16, m: bv16, n: nat)
    requires n > 0
    ensures ReflectLoop(v, r, m, n) == ReflectLoop(v >> 1, if v & 1 != 0 then r | m else r, m >> 1, n - 1)
  {
  }

  /** v shifted right n times. */
  function ShiftedDown(v: bv16, n: nat): bv16 {
    if n == 0 then v else ShiftedDown(v >> 1, n - 1)
  }

  /** Bitwise OR, named so that the proofs below can rewrite whole unions at once. */
  function Or(a: bv16, b: bv16): bv16 {
    a | b
  }

  /** The loop only ever ORs bits into `reflected`, so bits gathered earlier pass through unchanged. */
  lemma {:induction false} ReflectLoopOr(v: bv16, r: bv16, m: bv16, n: nat)
    ensures ReflectLoop(v, r, m, n) == Or(r, ReflectLoop(v, 0, m, n))
    decreases n, 1
  {
    if n > 0 {
      ReflectLoopStep(v, r, m, n);
      ReflectLoopStep(v, 0, m, n);
      if v & 1 != 0 {
        ReflectLoopOrSet(v >> 1, r, m, n - 1);
      } else {
        ReflectLoopOr(v >> 1, r, m >> 1, n - 1);
      }
    }
  }

  lemma {:induction false} ReflectLoopOrSet(v: bv16, r: bv16, m: bv16, n: nat)
    ensures ReflectLoop(v, r | m, m >> 1, n) == Or(r, ReflectLoop(v, 0 | m, m >> 1, n))
    decreases n + 1, 0
  {
    ReflectLoopOr(v, r | m, m >> 1, n);
    ReflectLoopOr(v, 0 | m, m >> 1, n);
    var z := ReflectLoop(v, 0, m >> 1, n);
    assert (r | m) | z == r | ((0 | m) | z);
  }

  /** a + b iterations are a iterations followed by b iterations. */
  lemma {:induction false} ReflectLoopSplit(v: bv16, r: bv16, m: bv16, a: nat, b: nat)
    ensures ReflectLoop(v, r, m, a + b) == ReflectLoop(ShiftedDown(v, a), ReflectLoop(v, r, m, a), ShiftedDown(m, a), b)
  {
    if a > 0 {
      ReflectLoopSplit(v >> 1, if v & 1 != 0 then r | m else r, m >> 1, a - 1, b);
    }
  }

  lemma ShiftedDown8(v: bv16)
    ensures ShiftedDown(v, 8) == v >> 8
  {
    assert ShiftedDown(v, 8) == ShiftedDown(v >> 1, 7);
    assert ShiftedDown(v >> 1, 7) == ShiftedDown(v >> 1 >> 1, 6);
    assert ShiftedDown(v >> 1 >> 1, 6) == ShiftedDown(v >> 1 >> 1 >> 1, 5);
    assert ShiftedDown(v >> 1 >> 1 >> 1, 5) == ShiftedDown(v >> 1 >> 1 >> 1 >> 1, 4);
    assert ShiftedDown(v >> 1 >> 1 >> 1 >> 1, 4) == ShiftedDown(v >> 1 >> 1 >> 1 >> 1 >> 1, 3);
    assert ShiftedDown(v >> 1 >> 1 >> 1 >> 1 >> 1, 3) == ShiftedDown(v >> 1 >> 1 >> 1 >> 1 >> 1 >> 1, 2);
    assert ShiftedDown(v >> 1 >> 1 >> 1 >> 1 >> 1 >> 1, 2) == ShiftedDown(v >> 1 >> 1 >> 1 >> 1 >> 1 >> 1 >> 1, 1);
    assert ShiftedDown(v >> 1 >> 1 >> 1 >> 1 >> 1 >> 1 >> 1, 1) == v >> 1 >> 1 >> 1 >> 1 >> 1 >> 1 >> 1 >> 1;
  }

  /** Eight iterations of the loop starting at mask 0x8000 reverse the low byte of v into place. */
  lemma {:induction false} ByteRound0(v: bv16)
    ensures ReflectLoop(v, 0, 0x8000, 8) == RevByte(v) << 8
  {
    var R := RevByte(v) << 8;
    assert v >> 0 == v; assert R & 0x0 == 0;
    ReflectLoopStep(v >> 0, R & 0x0, 0x8000, 8);
    assert (v >> 0) >> 1 == v >> 1;
    if (v >> 0) & 1 != 0 { assert (R & 0x0) | 0x8000 == R & 0x8000; } else { assert R & 0x0 == R & 0x8000; }
    ReflectLoopStep(v >> 1, R & 0x8000, 0x4000, 7);
    assert (v >> 1) >> 1 == v >> 2;
    if (v >> 1) & 1 != 0 { assert (R & 0x8000) | 0x4000 == R & 0xc000; } else { assert R & 0x8000 == R & 0xc000; }
    ReflectLoopStep(v >> 2, R & 0xc000, 0x2000, 6);
    assert (v >> 2) >> 1 == v >> 3;
    if (v >> 2) & 1 != 0 { assert (R & 0xc000) | 0x2000 == R & 0xe000; } else { assert R & 0xc000 == R & 0xe000; }
    ReflectLoopStep(v >> 3, R & 0xe000, 0x1000, 5);
    assert (v >> 3) >> 1 == v >> 4;
    if (v >> 3) & 1 != 0 { assert (R & 0xe000) | 0x1000 == R & 0xf000; } else { assert R & 0xe000 == R & 0xf000; }
    ReflectLoopStep(v >> 4, R & 0xf000, 0x800, 4);
    assert (v >> 4) >> 1 == v >> 5;
    if (v >> 4) & 1 != 0 { assert (R & 0xf000) | 0x800 == R & 0xf800; } else { assert R & 0xf000 == R & 0xf800; }
    ReflectLoopStep(v >> 5, R & 0xf800, 0x400, 3);
    assert (v >> 5) >> 1 == v >> 6;
    if (v >> 5) & 1 != 0 { assert (R & 0xf800) | 0x400 == R & 0xfc00; } else { assert R & 0xf800 == R & 0xfc00; }
    ReflectLoopStep(v >> 6, R & 0xfc00, 0x200, 2);
    assert (v >> 6) >> 1 == v >> 7;
    if (v >> 6) & 1 != 0 { assert (R & 0xfc00) | 0x200 == R & 0xfe00; } else { assert R & 0xfc00 == R & 0xfe00; }
    ReflectLoopStep(v >> 7, R & 0xfe00, 0x100, 1);
    assert (v >> 7) >> 1 == v >> 8;
    if (v >> 7) & 1 != 0 { assert (R & 0xfe00) | 0x100 == R & 0xff00; } else { assert R & 0xfe00 == R & 0xff00; }
    assert R & 0xff00 == R;
  }
  /** Eight iterations of the loop starting at mask 0x80 reverse the low byte of v into place. */
  lemma {:induction false} ByteRound1(v: bv16)
    ensures ReflectLoop(v, 0, 0x80, 8) == RevByte(v)
  {
    var R := RevByte(v);
    assert v >> 0 == v; assert R & 0x0 == 0;
    ReflectLoopStep(v >> 0, R & 0x0, 0x80, 8);
    assert (v >> 0) >> 1 == v >> 1;
    if (v >> 0) & 1 != 0 { assert (R & 0x0) | 0x80 == R & 0x80; } else { assert R & 0x0 == R & 0x80; }
    ReflectLoopStep(v >> 1, R & 0x80, 0x40, 7);
    assert (v >> 1) >> 1 == v >> 2;
    if (v >> 1) & 1 != 0 { assert (R & 0x80) | 0x40 == R & 0xc0; } else { assert R & 0x80 == R & 0xc0; }
    ReflectLoopStep(v >> 2, R & 0xc0, 0x20, 6);
    assert (v >> 2) >> 1 == v >> 3;
    if (v >> 2) & 1 != 0 { assert (R & 0xc0) | 0x20 == R & 0xe0; } else { assert R & 0xc0 == R & 0xe0; }
    ReflectLoopStep(v >> 3, R & 0xe0, 0x10, 5);
    assert (v >> 3) >> 1 == v >> 4;
    if (v >> 3) & 1 != 0 { assert (R & 0xe0) | 0x10 == R & 0xf0; } else { assert R & 0xe0 == R & 0xf0; }
    ReflectLoopStep(v >> 4, R & 0xf0, 0x8, 4);
    assert (v >> 4) >> 1 == v >> 5;
    if (v >> 4) & 1 != 0 { assert (R & 0xf0) | 0x8 == R & 0xf8; } else { assert R & 0xf0 == R & 0xf8; }
    ReflectLoopStep(v >> 5, R & 0xf8, 0x4, 3);
    assert (v >> 5) >> 1 == v >> 6;
    if (v >> 5) & 1 != 0 { assert (R & 0xf8) | 0x4 == R & 0xfc; } else { assert R & 0xf8 == R & 0xfc; }
    ReflectLoopStep(v >> 6, R & 0xfc, 0x2, 2);
    assert (v >> 6) >> 1 == v >> 7;
    if (v >> 6) & 1 != 0 { assert (R & 0xfc) | 0x2 == R & 0xfe; } else { assert R & 0xfc == R & 0xfe; }
    ReflectLoopStep(v >> 7, R & 0xfe, 0x1, 1);
    assert (v >> 7) >> 1 == v >> 8;
    if (v >> 7) & 1 != 0 { assert (R & 0xfe) | 0x1 == R & 0xff; } else { assert R & 0xfe == R & 0xff; }
    assert R & 0xff == R;
  }

  /** The loop taken eight iterations (one byte) at a time. */
  function ByteRounds(v: bv16, m: bv16, k: nat): bv16 {
    if k == 0 then 0 else ReflectLoop(v, 0, m, 8) | ByteRounds(v >> 8, m >> 8, k - 1)
  }

  lemma {:induction false} PeelByte(v: bv16, m: bv16, n: nat)
    ensures ReflectLoop(v, 0, m, 8 + n) == ReflectLoop(v, 0, m, 8) | ReflectLoop(v >> 8, 0, m >> 8, n)
  {
    ReflectLoopSplit(v, 0, m, 8, n);
    ShiftedDown8(v);
    ShiftedDown8(m);
    ReflectLoopOr(v >> 8, ReflectLoop(v, 0, m, 8), m >> 8, n);
  }

  lemma {:induction false} ByBytes(v: bv16, m: bv16, k: nat)
    ensures ReflectLoop(v, 0, m, 8 * k) == ByteRounds(v, m, k)
  {
    if k > 0 {
      PeelByte(v, m, 8 * (k - 1));
      ByBytes(v >> 8, m >> 8, k - 1);
    }
  }


  lemma {:induction false} RoundsFrom0(y: bv16)
    ensures ByteRounds(y, 0x8000, 2) == (RevByte(y) << 8) | RevByte(y >> 8)
  {
    ByteRound0(y);
    RoundsFrom1(y >> 8);
  }

  lemma {:induction false} RoundsFrom1(y: bv16)
    ensures ByteRounds(y, 0x80, 1) == RevByte(y)
  {
    ByteRound1(y);
  }

  /** The 16 iterations of reflect's loop reverse the bits of the register. */
  lemma {:induction false} ReflectLoopIsReversal(x: bv16)
    ensures ReflectLoop(x, 0, 0x8000, 16) == Rev16(x)
  {
    ByBytes(x, 0x8000, 2);
    RoundsFrom0(x);
  }

  /** The mask for bit i, shifted down once, is the mask for bit i + 1 (checked position by position). */
  /** The reflect loop's single-bit mask moves down one place per iteration. */
  lemma BitMaskStep(i: int)
    requires 0 <= i < 15
    ensures ((1 as bv16) << (15 - i)) >> 1 == (1 as bv16) << (15 - (i + 1))
  {
    if i == 0 {
    } else if i == 1 {
    } else if i == 2 {
    } else if i == 3 {
    } else if i == 4 {
    } else if i == 5 {
    } else if i == 6 {
    } else if i == 7 {
    } else if i == 8 {
    } else if i == 9 {
    } else if i == 10 {
    } else if i == 11 {
    } else if i == 12 {
    } else if i == 13 {
    } else if i == 14 {
    }
  }

  /** Prefix lemma for the folds: the first i + 1 bytes are the first i bytes and byte i. */
  lemma PrefixStep(data: seq<bv8>, i: int)
    requires 0 <= i < |data|
    ensures data[..i + 1][..i] == data[..i] && data[..i + 1][i] == data[i]
  {
  }

  /** Running the bit-by-bit loop one byte further: the register after k + 1 bytes is the update of the register after k bytes. */
  lemma RegisterAfter(p: Params, data: seq<bv8>, k: nat, r: bv16, next: bv16)
    requires k < |data|
    requires DirectRegister(p, data[..k]) == r
    requires DirectUpdate(p.polynomial, r, InputByte(p.reflectInput, data[k])) == next
    ensures DirectRegister(p, data[..k + 1]) == next
  {
    assert data[..k + 1][..k] == data[..k];
  }

  /**
   * A CRC16 engine. Its parameters and its lookup table are set by the
   * constructor and never written again: every other method reads them only.
   */
  class Crc16 {
    const polynomial: bv16
    const initValue: bv16
    const reflectInput: bool
    const reflectOutput: bool
    const xorOutput: bv16
    const useLut: bool
    const lookupTable: array<bv16>

    function Parameters(): Params {
      Params(polynomial, initValue, reflectInput, reflectOutput, xorOutput)
    }

    /** The table holds LUT_SIZE entries: the division table when useLut, zeros otherwise. */
    ghost predicate Valid()
      reads lookupTable
    {
      lookupTable.Length == LutSize &&
      forall i | 0 <= i < LutSize :: lookupTable[i] == if useLut then TableEntry(polynomial, i as bv16) else 0
    }

    constructor (polynomial: bv16, initValue: bv16, reflectInput: bool, reflectOutput: bool, xorOutput: bv16, useLut: bool)
      ensures Parameters() == Params(polynomial, initValue, reflectInput, reflectOutput, xorOutput)
      ensures this.useLut == useLut
      ensures Valid() && fresh(lookupTable)
    {
      this.polynomial := polynomial;
      this.initValue := initValue;
      this.reflectInput := reflectInput;
      this.reflectOutput := reflectOutput;
      this.xorOutput := xorOutput;
      this.useLut := useLut;
      lookupTable := new bv16[LutSize](_ => 0);
      new;
      if useLut {
        CreateLookupTable();
      }
    }

    /** CRC16(): polynomial 0x1021, initial value 0, no reflection, no output mask. */
    constructor Default(useLut: bool)
      ensures Parameters() == Params(0x1021, 0x0000, false, false, 0x0000)
      ensures this.useLut == useLut
      ensures Valid() && fresh(lookupTable)
    {
      polynomial := 0x1021;
      initValue := 0x0000;
      reflectInput := false;
      reflectOutput := false;
      xorOutput := 0x0000;
      this.useLut := useLut;
      lookupTable := new bv16[LutSize](_ => 0);
      new;
      if useLut {
        CreateLookupTable();
      }
    }

    /**
     * Fills every entry i of the table with the byte i, placed at the top,
     * after eight division rounds. This is the private create_lookup_table:
     * only the constructor calls it, and only when use_lut is set.
     */
    method CreateLookupTable()
      requires useLut && lookupTable.Length == LutSize
      modifies lookupTable
      ensures forall i | 0 <= i < LutSize :: lookupTable[i] == TableEntry(polynomial, i as bv16)
      ensures Valid()
    {
      for i := 0 to LutSize
        invariant forall k | 0 <= k < i :: lookupTable[k] == TableEntry(polynomial, k as bv16)
      {
        var x := Rounds((i as bv16) << 8);
        lookupTable[i] := x;
      }
    }

    /** The eight shift/XOR rounds of the table construction and of the bit-by-bit loop. */
    method Rounds(x: bv16) returns (y: bv16)
      ensures y == Divide(polynomial, x, 8)
    {
      y := x;
      for j := 0 to 8
        invariant y == Divide(polynomial, x, j)
      {
        DivideSucc(polynomial, x, j + 1);
        StepIs(polynomial, y);
        y := if y & 0x8000 != 0 then (y << 1) ^ polynomial else y << 1;
      }
    }

    /** Reverses the 16 bits of value. */
    method Reflect(value: bv16) returns (reflected: bv16)
      ensures reflected == Rev16(value)
    {
      var v := value;
      reflected := 0;
      ghost var bit: bv16 := 0x8000;
      for i := 0 to 16
        invariant i < 16 ==> bit == 1 << (15 - i)
        invariant ReflectLoop(v, reflected, bit, 16 - i) == ReflectLoop(value, 0, 0x8000, 16)
      {
        ReflectLoopStep(v, reflected, bit, 16 - i);
        if i < 15 {
          BitMaskStep(i);
        }
        if v & 0x01 != 0 {
          reflected := reflected | (1 << (15 - i));
        }
        v := v >> 1;
        bit := bit >> 1;
      }
      ReflectLoopIsReversal(value);
    }

    /** The checksum of data, by the table when useLut and bit by bit otherwise. */
    method Calculate(data: seq<bv8>) returns (crc: bv16)
      requires Valid()
      ensures crc == Checksum(Parameters(), data)
    {
      if useLut {
        crc := TableLoop(data);
      } else {
        crc := DirectLoop(data);
      }
      if reflectOutput {
        crc := Reflect(crc);
      }
      crc := (crc ^ xorOutput) & 0xFFFF;
    }

    /** The table-driven loop of Calculate: one table lookup per byte. */
    method TableLoop(data: seq<bv8>) returns (crc: bv16)
      requires Valid() && useLut
      ensures crc == DirectRegister(Parameters(), data)
    {
      crc := initValue;
      for i := 0 to |data|
        invariant crc == TableRegister(Parameters(), data[..i])
      {
        PrefixStep(data, i);
        var b := data[i];
        if reflectInput {
          b := LookupReflected(data[i]);
        }
        assert b == InputByte(reflectInput, data[i]);
        crc := TableByte(crc, b);
      }
      assert data[..|data|] == data;
      TableModeIsDirectMode(Parameters(), data);
    }

    /** The bit-by-bit loop of Calculate: eight division rounds per byte. */
    method DirectLoop(data: seq<bv8>) returns (crc: bv16)
      ensures crc == DirectRegister(Parameters(), data)
    {
      crc := initValue;
      for i := 0 to |data|
        invariant crc == DirectRegister(Parameters(), data[..i])
      {
        PrefixStep(data, i);
        var b := data[i];
        if reflectInput {
          b := LookupReflected(data[i]);
        }
        assert b == InputByte(reflectInput, data[i]);
        crc := DirectByte(crc, b);
      }
      assert data[..|data|] == data;
    }

    /** The body of the table-driven loop: the register moves up a byte and takes in the table entry. */
    method TableByte(crc: bv16, b: bv8) returns (next: bv16)
      requires Valid() && useLut
      ensures next == TableUpdate(polynomial, crc, b)
    {
      var index := (crc >> 8) ^ (b as bv16);
      IndexRoundTrip(index);
      next := (crc << 8) ^ lookupTable[index as int];
    }

    /** The body of the bit-by-bit loop: the byte is added at the top of the register, then eight rounds. */
    method DirectByte(crc: bv16, b: bv8) returns (next: bv16)
      ensures next == DirectUpdate(polynomial, crc, b)
    {
      next := Rounds(crc ^ ((b as bv16) << 8));
    }

    /** The checksum of the first length bytes of dataIn (none when length is not positive). */
    method CalculateBuffer(dataIn: array<bv8>, length: int) returns (crc: bv16)
      requires Valid()
      requires length <= dataIn.Length
      ensures crc == Checksum(Parameters(), dataIn[..if length < 0 then 0 else length])
    {
      var data: seq<bv8> := [];
      var i := 0;
      while i < length
        invariant 0 <= i <= if length < 0 then 0 else length
        invariant data == dataIn[..i]
      {
        data := data + [dataIn[i]];
        i := i + 1;
      }
      crc := Calculate(data);
    }

    /** The checksum of the bytes of the NUL-terminated string s before its first NUL. */
    method CalculateString(s: seq<bv8>) returns (crc: bv16)
      requires Valid()
      requires 0 in s
      ensures crc == Checksum(Parameters(), BeforeNul(s))
    {
      var n := |BeforeNul(s)|;
      var data: seq<bv8> := [];
      for i := 0 to n
        invariant data == s[..i]
      {
        data := data + [s[i]];
      }
      crc := Calculate(data);
    }
  }
}
