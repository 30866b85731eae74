/*
 * The byte reflection table shared by both engines: REFLECT_BIT_ORDER_TABLE maps every
 * byte to the byte with its bit order reversed. It is used to reflect input bytes
 * before they enter the CRC register.
 */
module BitOrder {
  /** Reverses the order of the eight bits of `x` (swap neighbours, pairs, then nibbles). */
  function Rev8(x: bv8): bv8 {
    var a := ((x >> 1) & 0x55) | ((x & 0x55) << 1);
    var b := ((a >> 2) & 0x33) | ((a & 0x33) << 2);
    (b >> 4) | (b << 4)
  }

  /** Bit k of the reversal is bit 7 - k of the input. */
  lemma Rev8Bit(x: bv8, k: bv8)
    requires k < 8
    ensures (Rev8(x) >> k) & 1 == (x >> (7 - k)) & 1
  {}

  /** Reversing twice gives back the byte. */
  lemma Rev8Involution(x: bv8)
    ensures Rev8(Rev8(x)) == x
  {}

  // The table, laid out as in the source: 32 rows of 8 entries.
  const Row00: seq<bv8> := [0x00, 0x80, 0x40, 0xC0, 0x20, 0xA0, 0x60, 0xE0]
  const Row01: seq<bv8> := [0x10, 0x90, 0x50, 0xD0, 0x30, 0xB0, 0x70, 0xF0]
  const Row02: seq<bv8> := [0x08, 0x88, 0x48, 0xC8, 0x28, 0xA8, 0x68, 0xE8]
  const Row03: seq<bv8> := [0x18, 0x98, 0x58, 0xD8, 0x38, 0xB8, 0x78, 0xF8]
  const Row04: seq<bv8> := [0x04, 0x84, 0x44, 0xC4, 0x24, 0xA4, 0x64, 0xE4]
  const Row05: seq<bv8> := [0x14, 0x94, 0x54, 0xD4, 0x34, 0xB4, 0x74, 0xF4]
  const Row06: seq<bv8> := [0x0C, 0x8C, 0x4C, 0xCC, 0x2C, 0xAC, 0x6C, 0xEC]
  const Row07: seq<bv8> := [0x1C, 0x9C, 0x5C, 0xDC, 0x3C, 0xBC, 0x7C, 0xFC]
  const Row08: seq<bv8> := [0x02, 0x82, 0x42, 0xC2, 0x22, 0xA2, 0x62, 0xE2]
  const Row09: seq<bv8> := [0x12, 0x92, 0x52, 0xD2, 0x32, 0xB2, 0x72, 0xF2]
  const Row10: seq<bv8> := [0x0A, 0x8A, 0x4A, 0xCA, 0x2A, 0xAA, 0x6A, 0xEA]
  const Row11: seq<bv8> := [0x1A, 0x9A, 0x5A, 0xDA, 0x3A, 0xBA, 0x7A, 0xFA]
  const Row12: seq<bv8> := [0x06, 0x86, 0x46, 0xC6, 0x26, 0xA6, 0x66, 0xE6]
  const Row13: seq<bv8> := [0x16, 0x96, 0x56, 0xD6, 0x36, 0xB6, 0x76, 0xF6]
  const Row14: seq<bv8> := [0x0E, 0x8E, 0x4E, 0xCE, 0x2E, 0xAE, 0x6E, 0xEE]
  const Row15: seq<bv8> := [0x1E, 0x9E, 0x5E, 0xDE, 0x3E, 0xBE, 0x7E, 0xFE]
  const Row16: seq<bv8> := [0x01, 0x81, 0x41, 0xC1, 0x21, 0xA1, 0x61, 0xE1]
  const Row17: seq<bv8> := [0x11, 0x91, 0x51, 0xD1, 0x31, 0xB1, 0x71, 0xF1]
  const Row18: seq<bv8> := [0x09, 0x89, 0x49, 0xC9, 0x29, 0xA9, 0x69, 0xE9]
  const Row19: seq<bv8> := [0x19, 0x99, 0x59, 0xD9, 0x39, 0xB9, 0x79, 0xF9]
  const Row20: seq<bv8> := [0x05, 0x85, 0x45, 0xC5, 0x25, 0xA5, 0x65, 0xE5]
  const Row21: seq<bv8> := [0x15, 0x95, 0x55, 0xD5, 0x35, 0xB5, 0x75, 0xF5]
  const Row22: seq<bv8> := [0x0D, 0x8D, 0x4D, 0xCD, 0x2D, 0xAD, 0x6D, 0xED]
  const Row23: seq<bv8> := [0x1D, 0x9D, 0x5D, 0xDD, 0x3D, 0xBD, 0x7D, 0xFD]
  const Row24: seq<bv8> := [0x03, 0x83, 0x43, 0xC3, 0x23, 0xA3, 0x63, 0xE3]
  const Row25: seq<bv8> := [0x13, 0x93, 0x53, 0xD3, 0x33, 0xB3, 0x73, 0xF3]
  const Row26: seq<bv8> := [0x0B, 0x8B, 0x4B, 0xCB, 0x2B, 0xAB, 0x6B, 0xEB]
  const Row27: seq<bv8> := [0x1B, 0x9B, 0x5B, 0xDB, 0x3B, 0xBB, 0x7B, 0xFB]
  const Row28: seq<bv8> := [0x07, 0x87, 0x47, 0xC7, 0x27, 0xA7, 0x67, 0xE7]
  const Row29: seq<bv8> := [0x17, 0x97, 0x57, 0xD7, 0x37, 0xB7, 0x77, 0xF7]
  const Row30: seq<bv8> := [0x0F, 0x8F, 0x4F, 0xCF, 0x2F, 0xAF, 0x6F, 0xEF]
  const Row31: seq<bv8> := [0x1F, 0x9F, 0x5F, 0xDF, 0x3F, 0xBF, 0x7F, 0xFF]

  const Rows: seq<seq<bv8>> := [Row00, Row01, Row02, Row03, Row04, Row05, Row06, Row07, Row08, Row09, Row10, Row11, Row12, Row13, Row14, Row15, Row16, Row17, Row18, Row19, Row20, Row21, Row22, Row23, Row24, Row25, Row26, Row27, Row28, Row29, Row30, Row31]

  function Concat(rows: seq<seq<bv8>>): seq<bv8> {
    if |rows| == 0 then [] else rows[0] + Concat(rows[1..])
  }

  /** REFLECT_BIT_ORDER_TABLE: the 256 rows above, one after the other. */
  const ReflectBitOrderTable: seq<bv8> := Concat(Rows)

  /** The byte the division loops consume: the input byte, bit-reversed when input reflection is on. */
  function InputByte(reflectInput: bool, b: bv8): bv8 {
    if reflectInput then Rev8(b) else b
  }

  /** Looks up the bit reversal of b in REFLECT_BIT_ORDER_TABLE. */
  method LookupReflected(b: bv8) returns (r: bv8)
    ensures r == Rev8(b)
  {
    TableIsReversal(b);
    r := ReflectBitOrderTable[b];
  }

  /** Every table entry is the bit reversal of its index, and there are 256 of them. */
  lemma TableIsReversal(b: bv8)
    ensures |ReflectBitOrderTable| == 256
    ensures ReflectBitOrderTable[b] == Rev8(b)
  {
    TableAt(b as int);
    IndexSplit(b);
    RowIsReversal(b / 8, b % 8);
  }

  lemma {:induction false} ConcatLength(rows: seq<seq<bv8>>)
    requires forall r | 0 <= r < |rows| :: |rows[r]| == 8
    ensures |Concat(rows)| == 8 * |rows|
  {
    if |rows| > 0 {
      ConcatLength(rows[1..]);
    }
  }

  /** Entry i of a concatenation of 8-entry rows is entry i % 8 of row i / 8. */
  lemma {:induction false} ConcatAt(rows: seq<seq<bv8>>, i: int)
    requires forall r | 0 <= r < |rows| :: |rows[r]| == 8
    requires 0 <= i < 8 * |rows|
    ensures |Concat(rows)| == 8 * |rows|
    ensures Concat(rows)[i] == rows[i / 8][i % 8]
  {
    if i < 8 {
      ConcatLength(rows[1..]);
    } else {
      ConcatAt(rows[1..], i - 8);
    }
  }

  lemma RowsHaveEight()
    ensures |Rows| == 32
    ensures forall r | 0 <= r < 32 :: |Rows[r]| == 8
  {}

  lemma TableAt(i: int)
    requires 0 <= i < 256
    ensures |ReflectBitOrderTable| == 256
    ensures ReflectBitOrderTable[i] == Rows[i / 8][i % 8]
  {
    RowsHaveEight();
    ConcatAt(Rows, i);
  }

  lemma IndexSplit(b: bv8)
    ensures (b as int) / 8 == (b / 8) as int
    ensures (b as int) % 8 == (b % 8) as int
  {}

  /**
   * Entry j of row r is the reversal of 8r + j. The case split and the
   * Row00IsReversal .. Row31IsReversal lemmas below only cut the proof
   * over all 256 entries into 32 small ones of eight entries each.
   */
  lemma RowIsReversal(r: bv8, j: bv8)
    requires r < 32 && j < 8
    ensures Rows[r][j] == Rev8(8 * r + j)
  {
    if r == 0 {
      Row00IsReversal();
    } else if r == 1 {
      Row01IsReversal();
    } else if r == 2 {
      Row02IsReversal();
    } else if r == 3 {
      Row03IsReversal();
    } else if r == 4 {
      Row04IsReversal();
    } else if r == 5 {
      Row05IsReversal();
    } else if r == 6 {
      Row06IsReversal();
    } else if r == 7 {
      Row07IsReversal();
    } else if r == 8 {
      Row08IsReversal();
    } else if r == 9 {
      Row09IsReversal();
    } else if r == 10 {
      Row10IsReversal();
    } else if r == 11 {
      Row11IsReversal();
    } else if r == 12 {
      Row12IsReversal();
    } else if r == 13 {
      Row13IsReversal();
    } else if r == 14 {
      Row14IsReversal();
    } else if r == 15 {
      Row15IsReversal();
    } else if r == 16 {
      Row16IsReversal();
    } else if r == 17 {
      Row17IsReversal();
    } else if r == 18 {
      Row18IsReversal();
    } else if r == 19 {
      Row19IsReversal();
    } else if r == 20 {
      Row20IsReversal();
    } else if r == 21 {
      Row21IsReversal();
    } else if r == 22 {
      Row22IsReversal();
    } else if r == 23 {
      Row23IsReversal();
    } else if r == 24 {
      Row24IsReversal();
    } else if r == 25 {
      Row25IsReversal();
    } else if r == 26 {
      Row26IsReversal();
    } else if r == 27 {
      Row27IsReversal();
    } else if r == 28 {
      Row28IsReversal();
    } else if r == 29 {
      Row29IsReversal();
    } else if r == 30 {
      Row30IsReversal();
    } else if r == 31 {
      Row31IsReversal();
    }
  }

  lemma Row00IsReversal()
    ensures forall j: bv8 | j < 8 :: Row00[j] == Rev8(0 + j)
  {}
  lemma Row01IsReversal()
    ensures forall j: bv8 | j < 8 :: Row01[j] == Rev8(8 + j)
  {}
  lemma Row02IsReversal()
    ensures forall j: bv8 | j < 8 :: Row02[j] == Rev8(16 + j)
  {}
  lemma Row03IsReversal()
    ensures forall j: bv8 | j < 8 :: Row03[j] == Rev8(24 + j)
  {}
  lemma Row04IsReversal()
    ensures forall j: bv8 | j < 8 :: Row04[j] == Rev8(32 + j)
  {}
  lemma Row05IsReversal()
    ensures forall j: bv8 | j < 8 :: Row05[j] == Rev8(40 + j)
  {}
  lemma Row06IsReversal()
    ensures forall j: bv8 | j < 8 :: Row06[j] == Rev8(48 + j)
  {}
  lemma Row07IsReversal()
    ensures forall j: bv8 | j < 8 :: Row07[j] == Rev8(56 + j)
  {}
  lemma Row08IsReversal()
    ensures forall j: bv8 | j < 8 :: Row08[j] == Rev8(64 + j)
  {}
  lemma Row09IsReversal()
    ensures forall j: bv8 | j < 8 :: Row09[j] == Rev8(72 + j)
  {}
  lemma Row10IsReversal()
    ensures forall j: bv8 | j < 8 :: Row10[j] == Rev8(80 + j)
  {}
  lemma Row11IsReversal()
    ensures forall j: bv8 | j < 8 :: Row11[j] == Rev8(88 + j)
  {}
  lemma Row12IsReversal()
    ensures forall j: bv8 | j < 8 :: Row12[j] == Rev8(96 + j)
  {}
  lemma Row13IsReversal()
    ensures forall j: bv8 | j < 8 :: Row13[j] == Rev8(104 + j)
  {}
  lemma Row14IsReversal()
    ensures forall j: bv8 | j < 8 :: Row14[j] == Rev8(112 + j)
  {}
  lemma Row15IsReversal()
    ensures forall j: bv8 | j < 8 :: Row15[j] == Rev8(120 + j)
  {}
  lemma Row16IsReversal()
    ensures forall j: bv8 | j < 8 :: Row16[j] == Rev8(128 + j)
  {}
  lemma Row17IsReversal()
    ensures forall j: bv8 | j < 8 :: Row17[j] == Rev8(136 + j)
  {}
  lemma Row18IsReversal()
    ensures forall j: bv8 | j < 8 :: Row18[j] == Rev8(144 + j)
  {}
  lemma Row19IsReversal()
    ensures forall j: bv8 | j < 8 :: Row19[j] == Rev8(152 + j)
  {}
  lemma Row20IsReversal()
    ensures forall j: bv8 | j < 8 :: Row20[j] == Rev8(160 + j)
  {}
  lemma Row21IsReversal()
    ensures forall j: bv8 | j < 8 :: Row21[j] == Rev8(168 + j)
  {}
  lemma Row22IsReversal()
    ensures forall j: bv8 | j < 8 :: Row22[j] == Rev8(176 + j)
  {}
  lemma Row23IsReversal()
    ensures forall j: bv8 | j < 8 :: Row23[j] == Rev8(184 + j)
  {}
  lemma Row24IsReversal()
    ensures forall j: bv8 | j < 8 :: Row24[j] == Rev8(192 + j)
  {}
  lemma Row25IsReversal()
    ensures forall j: bv8 | j < 8 :: Row25[j] == Rev8(200 + j)
  {}
  lemma Row26IsReversal()
    ensures forall j: bv8 | j < 8 :: Row26[j] == Rev8(208 + j)
  {}
  lemma Row27IsReversal()
    ensures forall j: bv8 | j < 8 :: Row27[j] == Rev8(216 + j)
  {}
  lemma Row28IsReversal()
    ensures forall j: bv8 | j < 8 :: Row28[j] == Rev8(224 + j)
  {}
  lemma Row29IsReversal()
    ensures forall j: bv8 | j < 8 :: Row29[j] == Rev8(232 + j)
  {}
  lemma Row30IsReversal()
    ensures forall j: bv8 | j < 8 :: Row30[j] == Rev8(240 + j)
  {}
  lemma Row31IsReversal()
    ensures forall j: bv8 | j < 8 :: Row31[j] == Rev8(248 + j)
  {}
}
