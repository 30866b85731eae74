/*
 * The C++ CRC8 engine: an 8-bit register, a 256-entry lookup table and the
 * two division loops (table-driven and bit-by-bit) of CRC8::calculate.
 *
 * The pure functions below say what each step of the engine computes; the
 * class Crc8 holds the engine's state and its methods are proved to compute
 * exactly those functions.
 */
module Crc8 {
  import opened BitOrder
  import opened CString

  /** Number of entries of the lookup table (LUT_SIZE). */
  const LutSize := 256

  /** The parameters the engine is built from (use_lut aside). */
  datatype Params = Params(polynomial: bv8, initValue: bv8, reflectInput: bool, reflectOutput: bool, xorOutput: bv8)

  /** One round of polynomial division: shift left, and add the polynomial when the top bit falls out. */
  function Step(poly: bv8, x: bv8): bv8 {
    if x & 0x80 != 0 then (x << 1) ^ poly else x << 1
  }

  /** n rounds of polynomial division. */
  function Divide(poly: bv8, x: bv8, n: nat): bv8
    decreases n
  {
    if n == 0 then x else Step(poly, Divide(poly, x, n - 1))
  }

  /** Entry i of the lookup table: the byte i after eight rounds. */
  function TableEntry(poly: bv8, i: int): bv8
    requires 0 <= i < LutSize
  {
    Divide(poly, i as bv8, 8)
  }

  /** The bit-by-bit update of the register by one byte: add the byte, then eight rounds. */
  function DirectUpdate(poly: bv8, crc: bv8, b: bv8): bv8 {
    Divide(poly, crc ^ b, 8)
  }

  /** The index the table-driven loop reads for register crc and byte b. */
  function TableIndex(crc: bv8, b: bv8): (k: int)
    ensures 0 <= k < LutSize
  {
    (crc ^ b) as int
  }

  /** The table-driven update of the register by one byte. */
  function TableUpdate(poly: bv8, crc: bv8, b: bv8): bv8 {
    TableEntry(poly, TableIndex(crc, b))
  }

  /** The register after the bit-by-bit loop has consumed data. */
  function DirectRegister(p: Params, data: seq<bv8>): bv8 {
    if |data| == 0 then p.initValue
    else DirectUpdate(p.polynomial, DirectRegister(p, data[..|data| - 1]), InputByte(p.reflectInput, data[|data| - 1]))
  }

  /** The register after the table-driven loop has consumed data. */
  function TableRegister(p: Params, data: seq<bv8>): bv8 {
    if |data| == 0 then p.initValue
    else TableUpdate(p.polynomial, TableRegister(p, data[..|data| - 1]), InputByte(p.reflectInput, data[|data| - 1]))
  }

  /** The final step: reflect the register if asked to, then XOR the output mask. */
  function Finish(p: Params, crc: bv8): bv8 {
    (if p.reflectOutput then Rev8(crc) else crc) ^ p.xorOutput
  }

  /** The checksum of data under parameters p. */
  function Checksum(p: Params, data: seq<bv8>): bv8 {
    Finish(p, DirectRegister(p, data))
  }

  /** On empty input the register keeps its initial value, so only the final step applies. */
  lemma ChecksumOfEmpty(p: Params)
    ensures Checksum(p, []) == (if p.reflectOutput then Rev8(p.initValue) else p.initValue) ^ p.xorOutput
  {
  }

  /** The table of a zero byte is zero: no round adds the polynomial to a zero register. */
  lemma {:induction false} DivideZero(poly: bv8, n: nat)
    ensures Divide(poly, 0, n) == 0
  {
    if n > 0 {
      assert Step(poly, 0) == 0;
      DivideZero(poly, n - 1);
    }
  }

  lemma TableEntryZero(poly: bv8)
    ensures TableEntry(poly, 0) == 0
  {
    DivideZero(poly, 8);
  }

  /** One table lookup performs the same update as the eight-round loop. */
  lemma TableUpdateIsDirect(poly: bv8, crc: bv8, b: bv8)
    ensures TableUpdate(poly, crc, b) == DirectUpdate(poly, crc, b)
  {
    assert ((crc ^ b) as int) as bv8 == crc ^ b;
  }

  /** Table mode and direct mode fold every byte sequence into the same register. */
  lemma {:induction false} TableModeIsDirectMode(p: Params, data: seq<bv8>)
    ensures TableRegister(p, data) == DirectRegister(p, data)
  {
    if |data| > 0 {
      TableModeIsDirectMode(p, data[..|data| - 1]);
      TableUpdateIsDirect(p.polynomial, DirectRegister(p, data[..|data| - 1]), InputByte(p.reflectInput, data[|data| - 1]));
    }
  }

  /** What the remaining n iterations of reflect's loop produce from value, the bits gathered so far and the next mask. */
  function ReflectLoop(value: bv8, reflected: bv8, bit: bv8, n: nat): bv8 {
    if n == 0 then reflected
    else ReflectLoop(value >> 1, if value & 1 != 0 then reflected | bit else reflected, bit >> 1, n - 1)
  }

  lemma ReflectLoopStep(v: bv8, r: bv8, m: bv8, n: nat)
    requires n > 0
    ensures ReflectLoop(v, r, m, n) == ReflectLoop(v >> 1, if v & 1 != 0 then r | m else r, m >> 1, n - 1)
  {
  }

  /** The eight iterations of reflect's loop reverse the bits of the byte. */
  lemma {:induction false} ReflectLoopIsReversal(v: bv8)
    ensures ReflectLoop(v, 0, 0x80, 8) == Rev8(v)
  {
    var R := Rev8(v);
    assert v >> 0 == v; assert R & 0x0 == 0;
    ReflectLoopStep(v >> 0, R & 0x0, 0x80, 8);
    assert (v >> 0) >> 1 == v >> 1;
    if (v >> 0) & 1 != 0 { assert (R & 0x0) | 0x80 == R & 0x80; } else { assert R & 0x0 == R & 0x80; }
    ReflectLoopStep(v >> 1, R & 0x80, 0x40, 7);
    assert (v >> 1) >> 1 == v >> 2;
    if (v >> 1) & 1 != 0 { assert (R & 0x80) | 0x40 == R & 0xc0; } else { assert R & 0x80 == R & 0xc0; }
    ReflectLoopStep(v >> 2, R & 0xc0, 0x20, 6);
    assert (v >> 2) >> 1 == v >> 3;
    if (v >> 2) & 1 != 0 { assert (R & 0xc0) | 0x20 == R & 0xe0; } else { assert R & 0xc0 == R & 0xe0; }
    ReflectLoopStep(v >> 3, R & 0xe0, 0x10, 5);
    assert (v >> 3) >> 1 == v >> 4;
    if (v >> 3) & 1 != 0 { assert (R & 0xe0) | 0x10 == R & 0xf0; } else { assert R & 0xe0 == R & 0xf0; }
    ReflectLoopStep(v >> 4, R & 0xf0, 0x8, 4);
    assert (v >> 4) >> 1 == v >> 5;
    if (v >> 4) & 1 != 0 { assert (R & 0xf0) | 0x8 == R & 0xf8; } else { assert R & 0xf0 == R & 0xf8; }
    ReflectLoopStep(v >> 5, R & 0xf8, 0x4, 3);
    assert (v >> 5) >> 1 == v >> 6;
    if (v >> 5) & 1 != 0 { assert (R & 0xf8) | 0x4 == R & 0xfc; } else { assert R & 0xf8 == R & 0xfc; }
    ReflectLoopStep(v >> 6, R & 0xfc, 0x2, 2);
    assert (v >> 6) >> 1 == v >> 7;
    if (v >> 6) & 1 != 0 { assert (R & 0xfc) | 0x2 == R & 0xfe; } else { assert R & 0xfc == R & 0xfe; }
    ReflectLoopStep(v >> 7, R & 0xfe, 0x1, 1);
    assert (v >> 7) >> 1 == v >> 8;
    if (v >> 7) & 1 != 0 { assert (R & 0xfe) | 0x1 == R & 0xff; } else { assert R & 0xfe == R & 0xff; }
    assert R & 0xff == R;
  }

  /** The reflect loop's single-bit mask moves down one place per iteration. */
  lemma BitMaskStep(i: int)
    requires 0 <= i < 7
    ensures ((1 as bv8) << (7 - i)) >> 1 == (1 as bv8) << (7 - (i + 1))
  {
  }

  /** Prefix lemma for the folds: the first i + 1 bytes are the first i bytes and byte i. */
  lemma PrefixStep(data: seq<bv8>, i: int)
    requires 0 <= i < |data|
    ensures data[..i + 1][..i] == data[..i] && data[..i + 1][i] == data[i]
  {
  }

  /** Running the bit-by-bit loop one byte further: the register after k + 1 bytes is the update of the register after k bytes. */
  lemma RegisterAfter(p: Params, data: seq<bv8>, k: nat, r: bv8, next: bv8)
    requires k < |data|
    requires DirectRegister(p, data[..k]) == r
    requires DirectUpdate(p.polynomial, r, InputByte(p.reflectInput, data[k])) == next
    ensures DirectRegister(p, data[..k + 1]) == next
  {
    assert data[..k + 1][..k] == data[..k];
  }

  /**
   * A CRC8 engine. Its parameters and its lookup table are set by the
   * constructor and never written again: every other method reads them only.
   */
  class Crc8 {
    const polynomial: bv8
    const initValue: bv8
    const reflectInput: bool
    const reflectOutput: bool
    const xorOutput: bv8
    const useLut: bool
    const lookupTable: array<bv8>

    function Parameters(): Params {
      Params(polynomial, initValue, reflectInput, reflectOutput, xorOutput)
    }

    /** The table holds LUT_SIZE entries: the division table when useLut, zeros otherwise. */
    ghost predicate Valid()
      reads lookupTable
    {
      lookupTable.Length == LutSize &&
      forall i | 0 <= i < LutSize :: lookupTable[i] == if useLut then TableEntry(polynomial, i) else 0
    }

    constructor (polynomial: bv8, initValue: bv8, reflectInput: bool, reflectOutput: bool, xorOutput: bv8, useLut: bool)
      ensures Parameters() == Params(polynomial, initValue, reflectInput, reflectOutput, xorOutput)
      ensures this.useLut == useLut
      ensures Valid() && fresh(lookupTable)
    {
      this.polynomial := polynomial;
      this.initValue := initValue;
      this.reflectInput := reflectInput;
      this.reflectOutput := reflectOutput;
      this.xorOutput := xorOutput;
      this.useLut := useLut;
      lookupTable := new bv8[LutSize](_ => 0);
      new;
      if useLut {
        CreateLookupTable();
      }
    }

    /** CRC8(): polynomial 0x07, initial value 0, no reflection, no output mask. */
    constructor Default(useLut: bool)
      ensures Parameters() == Params(0x07, 0x00, false, false, 0x00)
      ensures this.useLut == useLut
      ensures Valid() && fresh(lookupTable)
    {
      polynomial := 0x07;
      initValue := 0x00;
      reflectInput := false;
      reflectOutput := false;
      xorOutput := 0x00;
      this.useLut := useLut;
      lookupTable := new bv8[LutSize](_ => 0);
      new;
      if useLut {
        CreateLookupTable();
      }
    }

    /**
     * Fills every entry i of the table with the byte i after eight division
     * rounds. This is the private create_lookup_table: only the
     * constructor calls it, and only when use_lut is set.
     */
    method CreateLookupTable()
      requires useLut && lookupTable.Length == LutSize
      modifies lookupTable
      ensures forall i | 0 <= i < LutSize :: lookupTable[i] == TableEntry(polynomial, i)
      ensures Valid()
    {
      for i := 0 to LutSize
        invariant forall k | 0 <= k < i :: lookupTable[k] == TableEntry(polynomial, k)
      {
        var x := i as bv8;
        for j := 0 to 8
          invariant x == Divide(polynomial, i as bv8, j)
        {
          x := if x & 0x80 != 0 then (x << 1) ^ polynomial else x << 1;
        }
        lookupTable[i] := x;
      }
    }

    /** Reverses the eight bits of value. */
    method Reflect(value: bv8) returns (reflected: bv8)
      ensures reflected == Rev8(value)
    {
      var v := value;
      reflected := 0;
      ghost var bit: bv8 := 0x80;
      for i := 0 to 8
        invariant i < 8 ==> bit == 1 << (7 - i)
        invariant ReflectLoop(v, reflected, bit, 8 - i) == ReflectLoop(value, 0, 0x80, 8)
      {
        ReflectLoopStep(v, reflected, bit, 8 - i);
        if i < 7 {
          BitMaskStep(i);
        }
        if v & 0x01 != 0 {
          reflected := reflected | (1 << (7 - i));
        }
        v := v >> 1;
        bit := bit >> 1;
      }
      ReflectLoopIsReversal(value);
    }

    /** The checksum of data, by the table when useLut and bit by bit otherwise. */
    method Calculate(data: seq<bv8>) returns (crc: bv8)
      requires Valid()
      ensures crc == Checksum(Parameters(), data)
    {
      if useLut {
        crc := TableLoop(data);
      } else {
        crc := DirectLoop(data);
      }
      if reflectOutput {
        crc := Reflect(crc);
      }
      crc := (crc ^ xorOutput) & 0xFF;
    }

    /** The table-driven loop of Calculate: one table lookup per byte. */
    method TableLoop(data: seq<bv8>) returns (crc: bv8)
      requires Valid() && useLut
      ensures crc == DirectRegister(Parameters(), data)
    {
      crc := initValue;
      for i := 0 to |data|
        invariant crc == TableRegister(Parameters(), data[..i])
      {
        PrefixStep(data, i);
        var b := data[i];
        if reflectInput {
          b := LookupReflected(data[i]);
        }
        assert b == InputByte(reflectInput, data[i]);
        ghost var index := TableIndex(crc, b);
        crc := lookupTable[crc ^ b];
        assert crc == TableEntry(polynomial, index);
      }
      assert data[..|data|] == data;
      TableModeIsDirectMode(Parameters(), data);
    }

    /** The bit-by-bit loop of Calculate: eight division rounds per byte. */
    method DirectLoop(data: seq<bv8>) returns (crc: bv8)
      ensures crc == DirectRegister(Parameters(), data)
    {
      crc := initValue;
      for i := 0 to |data|
        invariant crc == DirectRegister(Parameters(), data[..i])
      {
        PrefixStep(data, i);
        var b := data[i];
        if reflectInput {
          b := LookupReflected(data[i]);
        }
        assert b == InputByte(reflectInput, data[i]);
        crc := crc ^ b;
        ghost var start := crc;
        for j := 0 to 8
          invariant crc == Divide(polynomial, start, j)
        {
          crc := if crc & 0x80 != 0 then (crc << 1) ^ polynomial else crc << 1;
        }
        assert crc == DirectUpdate(polynomial, DirectRegister(Parameters(), data[..i]), InputByte(reflectInput, data[i]));
      }
      assert data[..|data|] == data;
    }

    /** The checksum of the first length bytes of dataIn (none when length is not positive). */
    method CalculateBuffer(dataIn: array<bv8>, length: int) returns (crc: bv8)
      requires Valid()
      requires length <= dataIn.Length
      ensures crc == Checksum(Parameters(), dataIn[..if length < 0 then 0 else length])
    {
      var data: seq<bv8> := [];
      var i := 0;
      while i < length
        invariant 0 <= i <= if length < 0 then 0 else length
        invariant data == dataIn[..i]
      {
        data := data + [dataIn[i]];
        i := i + 1;
      }
      crc := Calculate(data);
    }

    /** The checksum of the bytes of the NUL-terminated string s before its first NUL. */
    method CalculateString(s: seq<bv8>) returns (crc: bv8)
      requires Valid()
      requires 0 in s
      ensures crc == Checksum(Parameters(), BeforeNul(s))
    {
      var n := |BeforeNul(s)|;
      var data: seq<bv8> := [];
      for i := 0 to n
        invariant data == s[..i]
      {
        data := data + [s[i]];
      }
      crc := Calculate(data);
    }
  }
}
