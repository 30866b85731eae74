/*
 * The Python CRCBase class: one engine for every register width, working
 * on unbounded Python ints. Its width is `_bit_count` (8, 16 or 32 in the
 * subclasses); polynomial, initial value and output mask are masked to
 * that width when the object is built, the table-driven loop masks the
 * register after every byte, and the bit-by-bit loop lets the register
 * grow and masks it only at the end.
 *
 * The pure functions below say what each step computes on nat; the class
 * CrcBase holds the object's attributes and its methods are proved to
 * compute exactly those functions.
 */
module CrcBase {
  import opened NatBits
  import opened BitOrder

  /** Number of entries of the lookup table (LUT_SIZE). */
  const LutSize := 256

  /** The attributes calculate reads (use_lut and the table aside). */
  datatype Params = Params(width: nat, polynomial: nat, initValue: nat, reflectInput: bool, reflectOutput: bool, xorOutput: nat)

  /** The widths the class works with: a whole number of bytes. */
  predicate ValidWidth(w: nat) {
    w >= 8 && w % 8 == 0
  }

  /** `_max_value`: width / 8 bytes of 0xFF. */
  function MaxValue(w: nat): nat {
    Pow2(8 * (w / 8)) - 1
  }

  /** `_max_value` has exactly the low w bits set, so `x & _max_value` is x % 2^w. */
  lemma MaxValueIsMask(w: nat)
    requires ValidWidth(w)
    ensures MaxValue(w) + 1 == Pow2(w)
  {
    assert 8 * (w / 8) == w;
  }

  /** One round of division: shift left, and add the polynomial when bit w - 1 (`x & t`) was set. */
  function Step(w: nat, poly: nat, x: nat): nat
    requires w >= 1
  {
    if Bit(x, w - 1) == 1 then Xor(2 * x, poly) else 2 * x
  }

  /** n rounds of division, with no masking in between. */
  function Divide(w: nat, poly: nat, x: nat, n: nat): nat
    requires w >= 1
    decreases n, x
  {
    if n == 0 then x else Step(w, poly, Divide(w, poly, x, n - 1))
  }

  /** Entry i of the lookup table: i shifted to the top byte, eight rounds, masked. */
  function TableEntry(w: nat, poly: nat, i: nat): nat
    requires ValidWidth(w)
  {
    Divide(w, poly, Shl(i, w - 8) % Pow2(w), 8) % Pow2(w)
  }

  /** The whole lookup table. */
  function Table(w: nat, poly: nat): (t: seq<nat>)
    requires ValidWidth(w)
    ensures |t| == LutSize
  {
    seq(LutSize, i requires 0 <= i < LutSize => TableEntry(w, poly, i))
  }

  /** The byte fed to the register: the data byte, bit-reversed when reflect_input. */
  function InputValue(reflectInput: bool, b: bv8): (v: nat)
    ensures v < 256
  {
    InputByte(reflectInput, b) as nat
  }

  /** One byte of the bit-by-bit loop: XOR the byte into the top byte, then eight unmasked rounds. */
  function RawUpdate(w: nat, poly: nat, crc: nat, temp: nat): nat
    requires ValidWidth(w)
  {
    Divide(w, poly, Xor(crc, Shl(temp, w - 8)), 8)
  }

  /** The register of the bit-by-bit loop after data: never masked. */
  function RawRegister(p: Params, data: seq<bv8>): nat
    requires ValidWidth(p.width)
  {
    if |data| == 0 then p.initValue
    else RawUpdate(p.width, p.polynomial, RawRegister(p, data[..|data| - 1]), InputValue(p.reflectInput, data[|data| - 1]))
  }

  /** The same loop with the register masked to w bits after every byte. */
  function MaskedRegister(p: Params, data: seq<bv8>): nat
    requires ValidWidth(p.width)
  {
    if |data| == 0 then p.initValue
    else RawUpdate(p.width, p.polynomial, MaskedRegister(p, data[..|data| - 1]), InputValue(p.reflectInput, data[|data| - 1])) % Pow2(p.width)
  }

  /** The index the table-driven loop reads: the register's top byte XOR the input byte. */
  function TableIndex(w: nat, crc: nat, temp: nat): nat
    requires ValidWidth(w)
  {
    Xor(Shr(crc, w - 8), temp)
  }

  /** One byte of the table-driven loop. */
  function TableUpdate(w: nat, poly: nat, crc: nat, temp: nat): nat
    requires ValidWidth(w)
  {
    Xor(crc * 256, TableEntry(w, poly, TableIndex(w, crc, temp))) % Pow2(w)
  }

  /** The register of the table-driven loop after data. */
  function TableRegister(p: Params, data: seq<bv8>): nat
    requires ValidWidth(p.width)
  {
    if |data| == 0 then p.initValue
    else TableUpdate(p.width, p.polynomial, TableRegister(p, data[..|data| - 1]), InputValue(p.reflectInput, data[|data| - 1]))
  }

  /** The final step: reflect the register if asked to, XOR the output mask, keep w bits. */
  function Finish(p: Params, crc: nat): nat
    requires ValidWidth(p.width)
  {
    Xor(if p.reflectOutput then Rev(crc, p.width) else crc, p.xorOutput) % Pow2(p.width)
  }

  /** The value calculate returns in bit-by-bit mode. */
  function Checksum(p: Params, data: seq<bv8>): nat
    requires ValidWidth(p.width)
  {
    Finish(p, RawRegister(p, data))
  }

  /** On empty input only the final step applies; with masked attributes no bit is lost to the final mask. */
  lemma ChecksumOfEmpty(p: Params)
    requires ValidWidth(p.width) && p.initValue < Pow2(p.width) && p.xorOutput < Pow2(p.width)
    ensures Checksum(p, []) == Xor(if p.reflectOutput then Rev(p.initValue, p.width) else p.initValue, p.xorOutput)
    ensures Checksum(p, []) < Pow2(p.width)
  {
    var r := if p.reflectOutput then Rev(p.initValue, p.width) else p.initValue;
    RevBound(p.initValue, p.width);
    XorBound(r, p.xorOutput, p.width);
    SmallMod(Xor(r, p.xorOutput), Pow2(p.width));
  }

  /** The final step reads only the low w bits of the register. */
  lemma FinishReadsLowBits(p: Params, crc: nat)
    requires ValidWidth(p.width)
    ensures Finish(p, crc) == Finish(p, crc % Pow2(p.width))
  {
    var m := Pow2(p.width);
    RevLow(crc, p.width);
    XorMod(crc, p.xorOutput, p.width);
    XorMod(crc % m, p.xorOutput, p.width);
    ModMod(crc, m);
  }

  /** One round commutes with masking: the bits above w never flow down. */
  lemma StepMod(w: nat, poly: nat, x: nat)
    requires w >= 1
    ensures Step(w, poly, x) % Pow2(w) == Step(w, poly, x % Pow2(w)) % Pow2(w)
  {
    var m := Pow2(w);
    BitMod(x, w, w - 1);
    ModDouble(2 * x, m);
    ModDouble(2 * (x % m), m);
    assert (2 * x) % m == (2 * (x % m)) % m by {
      DoubleMod(x, m);
    }
    XorMod(2 * x, poly, w);
    XorMod(2 * (x % m), poly, w);
  }

  lemma DoubleMod(x: nat, m: nat)
    requires m > 0
    ensures (2 * x) % m == (2 * (x % m)) % m
  {
    var q := x / m;
    assert 2 * x == (2 * q) * m + 2 * (x % m);
    var r := 2 * (x % m);
    DivModUnique(2 * x, m, 2 * q + r / m, r % m);
  }

  /** n rounds commute with masking. */
  lemma {:induction false} DivideMod(w: nat, poly: nat, x: nat, n: nat)
    requires w >= 1
    ensures Divide(w, poly, x, n) % Pow2(w) == Divide(w, poly, x % Pow2(w), n) % Pow2(w)
  {
    var m := Pow2(w);
    if n == 0 {
      ModMod(x, m);
    } else {
      DivideMod(w, poly, x, n - 1);
      StepMod(w, poly, Divide(w, poly, x, n - 1));
      StepMod(w, poly, Divide(w, poly, x % m, n - 1));
    }
  }

  /** What a round adds after the shift: the polynomial when the top bit is set, nothing otherwise. */
  function Feedback(w: nat, poly: nat, x: nat): nat
    requires w >= 1
  {
    if Bit(x, w - 1) == 1 then poly else 0
  }

  lemma StepAsXor(w: nat, poly: nat, x: nat)
    requires w >= 1
    ensures Step(w, poly, x) == Xor(2 * x, Feedback(w, poly, x))
  {
    XorZero(2 * x);
  }

  lemma FeedbackXor(w: nat, poly: nat, a: nat, b: nat)
    requires w >= 1
    ensures Feedback(w, poly, Xor(a, b)) == Xor(Feedback(w, poly, a), Feedback(w, poly, b))
  {
    XorBit(a, b, w - 1);
    var ba, bb := Bit(a, w - 1), Bit(b, w - 1);
    if ba == 1 && bb == 1 {
      assert Bit(Xor(a, b), w - 1) == 0;
      XorSelf(poly);
    } else if ba == 1 || bb == 1 {
      assert Bit(Xor(a, b), w - 1) == 1;
      XorZero(poly);
    } else {
      assert Bit(Xor(a, b), w - 1) == 0;
      XorZero(0);
    }
  }

  /** One round is linear over XOR. */
  lemma StepXor(w: nat, poly: nat, a: nat, b: nat)
    requires w >= 1
    ensures Step(w, poly, Xor(a, b)) == Xor(Step(w, poly, a), Step(w, poly, b))
  {
    StepAsXor(w, poly, a);
    StepAsXor(w, poly, b);
    StepAsXor(w, poly, Xor(a, b));
    FeedbackXor(w, poly, a, b);
    XorDouble(a, b);
    XorSwap(2 * a, Feedback(w, poly, a), 2 * b, Feedback(w, poly, b));
  }

  /** (a ^ b) ^ (c ^ d) == (a ^ c) ^ (b ^ d). */
  lemma XorSwap(a: nat, b: nat, c: nat, d: nat)
    ensures Xor(Xor(a, b), Xor(c, d)) == Xor(Xor(a, c), Xor(b, d))
  {
    XorAssoc(a, b, Xor(c, d));
    XorAssoc(b, c, d);
    XorComm(b, c);
    XorAssoc(c, b, d);
    XorAssoc(a, c, Xor(b, d));
  }

  /** n rounds are linear over XOR. */
  lemma {:induction false} DivideXor(w: nat, poly: nat, a: nat, b: nat, n: nat)
    requires w >= 1
    ensures Divide(w, poly, Xor(a, b), n) == Xor(Divide(w, poly, a, n), Divide(w, poly, b, n))
  {
    if n > 0 {
      DivideXor(w, poly, a, b, n - 1);
      StepXor(w, poly, Divide(w, poly, a, n - 1), Divide(w, poly, b, n - 1));
    }
  }

  /** A value that stays below 2^w while shifted n times never meets the top bit: the rounds only shift. */
  lemma {:induction false} DivideLow(w: nat, poly: nat, x: nat, n: nat)
    requires w >= 1 && Shl(x, n) < Pow2(w)
    ensures Divide(w, poly, x, n) == Shl(x, n)
  {
    if n > 0 {
      ShiftOnce(x, n);
      DivideLow(w, poly, x, n - 1);
      assert Shl(x, n - 1) < Pow2(w - 1) by {
        assert Pow2(w) == 2 * Pow2(w - 1);
      }
      BitAbove(Shl(x, n - 1), w - 1);
    }
  }

  /** For every index of the table the mask before the rounds removes nothing. */
  lemma TableEntryUnmasked(w: nat, poly: nat, i: nat)
    requires ValidWidth(w) && i < LutSize
    ensures TableEntry(w, poly, i) == Divide(w, poly, Shl(i, w - 8), 8) % Pow2(w)
  {
    Pow2Add(w - 8, 8);
    MulMonotone(i, 255, Pow2(w - 8));
    SmallMod(Shl(i, w - 8), Pow2(w));
  }

  /** Entry 0 of the table is 0: no round adds the polynomial to a zero register. */
  lemma TableEntryZero(w: nat, poly: nat)
    requires ValidWidth(w)
    ensures TableEntry(w, poly, 0) == 0
  {
    var s := Shl(0, w - 8);
    assert s == 0;
    SmallMod(s, Pow2(w));
    DivideOfZero(w, poly, s % Pow2(w), 8);
  }

  lemma {:induction false} DivideOfZero(w: nat, poly: nat, x: nat, n: nat)
    requires w >= 1 && x == 0
    ensures Divide(w, poly, x, n) == 0
  {
    if n > 0 {
      DivideOfZero(w, poly, x, n - 1);
      BitAbove(0, w - 1);
    }
  }

  /** The table index is a byte. */
  lemma IndexBound(w: nat, c: nat, t: nat)
    requires ValidWidth(w) && c < Pow2(w) && t < 256
    ensures TableIndex(w, c, t) < LutSize
  {
    var s := Pow2(w - 8);
    TopByte(w);
    ShrIsDiv(c, w - 8);
    DivLess(c, s, 256);
    XorBound(Shr(c, w - 8), t, 8);
  }

  /** A register of w bits is its top byte above w - 8 bits. */
  lemma TopByte(w: nat)
    requires ValidWidth(w)
    ensures Pow2(w) == 256 * Pow2(w - 8) == Pow2(w - 8) * 256 && Pow2(8) == 256
  {
    Pow2Add(w - 8, 8);
  }

  /** Scaling a quotient-remainder split by 256. */
  lemma ScaleSplit(c: nat, hi: nat, lo: nat, s: nat)
    requires c == hi * s + lo && lo < s
    ensures c * 256 == hi * (s * 256) + lo * 256 && lo * 256 < s * 256
  {
    MulMonotone(lo + 1, s, 256);
  }

  /** Any value is its high part shifted back over its low k bits. */
  lemma DivSplit(c: nat, k: nat, hi: nat, lo: nat)
    requires hi == c / Pow2(k) && lo == c % Pow2(k)
    ensures c == Shl(hi, k) + lo && lo < Pow2(k)
  {
  }

  /** Shifting the register left by a byte moves its top byte above bit w and keeps the rest below. */
  lemma ShiftSplit(w: nat, c: nat)
    requires ValidWidth(w)
    ensures var s := Pow2(w - 8);
      c * 256 == Shr(c, w - 8) * Pow2(w) + (c % s) * 256 && (c % s) * 256 < Pow2(w)
  {
    var s := Pow2(w - 8);
    TopByte(w);
    ShrIsDiv(c, w - 8);
    ScaleSplit(c, c / s, c % s, s);
  }

  /** XORing the byte into the top byte of the register is XORing it into the index. */
  lemma XorSplit(w: nat, c: nat, t: nat)
    requires ValidWidth(w)
    ensures var s := Pow2(w - 8);
      Xor(c, Shl(t, w - 8)) == Xor(Shl(TableIndex(w, c, t), w - 8), c % s)
  {
    var k := w - 8;
    var hi, lo := c / Pow2(k), c % Pow2(k);
    ShrIsDiv(c, k);
    DivSplit(c, k, hi, lo);
    var h, ts := Shl(hi, k), Shl(t, k);
    XorDisjoint(hi, lo, k);
    assert c == Xor(h, lo);
    XorAssoc(h, lo, ts);
    XorComm(lo, ts);
    XorAssoc(h, ts, lo);
    XorShift(hi, t, k);
    assert Xor(h, ts) == Shl(TableIndex(w, c, t), k);
  }

  /** The bit-by-bit update, masked, is the table entry of the index XOR the shifted low part. */
  lemma DirectSplit(w: nat, poly: nat, c: nat, t: nat)
    requires ValidWidth(w) && c < Pow2(w) && t < 256
    ensures RawUpdate(w, poly, c, t) % Pow2(w) == Xor(TableEntry(w, poly, TableIndex(w, c, t)), (c % Pow2(w - 8)) * 256)
  {
    var s, m := Pow2(w - 8), Pow2(w);
    var k, lo := TableIndex(w, c, t), c % s;
    IndexBound(w, c, t);
    ShiftSplit(w, c);
    XorSplit(w, c, t);
    DivideXor(w, poly, Shl(k, w - 8), lo, 8);
    assert Shl(lo, 8) == lo * 256;
    DivideLow(w, poly, lo, 8);
    XorMod(Divide(w, poly, Shl(k, w - 8), 8), lo * 256, w);
    SmallMod(lo * 256, m);
    TableEntryUnmasked(w, poly, k);
  }

  /** The table-driven update is the same XOR, computed from the shifted register. */
  lemma TableSplit(w: nat, poly: nat, c: nat, t: nat)
    requires ValidWidth(w) && c < Pow2(w) && t < 256
    ensures TableUpdate(w, poly, c, t) == Xor(TableEntry(w, poly, TableIndex(w, c, t)), (c % Pow2(w - 8)) * 256)
  {
    var s, m := Pow2(w - 8), Pow2(w);
    var e, lo := TableEntry(w, poly, TableIndex(w, c, t)), c % s;
    ShiftSplit(w, c);
    DivModUnique(c * 256, m, Shr(c, w - 8), lo * 256);
    XorMod(c * 256, e, w);
    ModMod(Divide(w, poly, Shl(TableIndex(w, c, t), w - 8) % m, 8), m);
    XorComm(lo * 256, e);
  }

  /** One table lookup performs the bit-by-bit update of the masked register, masked. */
  lemma TableUpdateIsDirect(w: nat, poly: nat, c: nat, t: nat)
    requires ValidWidth(w) && c < Pow2(w) && t < 256
    ensures TableUpdate(w, poly, c, t) == RawUpdate(w, poly, c, t) % Pow2(w)
  {
    DirectSplit(w, poly, c, t);
    TableSplit(w, poly, c, t);
  }

  /** At width 8 the shifted register drops out and the update is the entry of crc ^ temp. */
  lemma TableUpdateAtWidth8(poly: nat, c: nat, t: nat)
    requires c < 256 && t < 256
    ensures TableUpdate(8, poly, c, t) == TableEntry(8, poly, Xor(c, t))
  {
    var e := TableEntry(8, poly, Xor(c, t));
    assert Pow2(8) == 256;
    DivModUnique(c * 256, 256, c, 0);
    XorMod(c * 256, e, 8);
    ModMod(Divide(8, poly, Shl(Xor(c, t), 0) % 256, 8), 256);
    XorZero(e);
  }

  /** The unmasked register of one byte, masked, is the byte's update of the masked register. */
  lemma RawUpdateMod(w: nat, poly: nat, c: nat, t: nat)
    requires ValidWidth(w)
    ensures RawUpdate(w, poly, c, t) % Pow2(w) == RawUpdate(w, poly, c % Pow2(w), t) % Pow2(w)
  {
    var m, ts := Pow2(w), Shl(t, w - 8);
    var x, y := Xor(c, ts), Xor(c % m, ts);
    assert x % m == y % m by {
      XorMod(c, ts, w);
      XorMod(c % m, ts, w);
      ModMod(c, m);
    }
    DivideCongruent(w, poly, x, y, 8);
  }

  /** Registers equal in their low w bits stay so through any number of rounds. */
  lemma DivideCongruent(w: nat, poly: nat, x: nat, y: nat, n: nat)
    requires w >= 1 && x % Pow2(w) == y % Pow2(w)
    ensures Divide(w, poly, x, n) % Pow2(w) == Divide(w, poly, y, n) % Pow2(w)
  {
    DivideMod(w, poly, x, n);
    DivideMod(w, poly, y, n);
  }

  /** Letting the register grow, as the bit-by-bit loop does, loses nothing: its low w bits are the masked register. */
  lemma {:induction false} RawIsMasked(p: Params, data: seq<bv8>)
    requires ValidWidth(p.width) && p.initValue < Pow2(p.width)
    ensures RawRegister(p, data) % Pow2(p.width) == MaskedRegister(p, data)
  {
    if |data| == 0 {
      SmallMod(p.initValue, Pow2(p.width));
    } else {
      var prefix, t := data[..|data| - 1], InputValue(p.reflectInput, data[|data| - 1]);
      RawIsMasked(p, prefix);
      RawUpdateMod(p.width, p.polynomial, RawRegister(p, prefix), t);
    }
  }

  /** The table-driven loop computes the masked register. */
  lemma {:induction false} TableIsMasked(p: Params, data: seq<bv8>)
    requires ValidWidth(p.width) && p.initValue < Pow2(p.width)
    ensures TableRegister(p, data) == MaskedRegister(p, data) && TableRegister(p, data) < Pow2(p.width)
  {
    if |data| > 0 {
      var prefix, t := data[..|data| - 1], InputValue(p.reflectInput, data[|data| - 1]);
      TableIsMasked(p, prefix);
      TableUpdateIsDirect(p.width, p.polynomial, TableRegister(p, prefix), t);
    }
  }

  /** Table mode and bit-by-bit mode return the same checksum. */
  lemma TableModeIsDirectMode(p: Params, data: seq<bv8>)
    requires ValidWidth(p.width) && p.initValue < Pow2(p.width)
    ensures Finish(p, TableRegister(p, data)) == Checksum(p, data)
  {
    TableIsMasked(p, data);
    RawIsMasked(p, data);
    FinishReadsLowBits(p, RawRegister(p, data));
  }

  /** One round of reflect: the lowest remaining bit of v lands at position k, just below the bits already placed. */
  lemma ReflectRound(q: nat, v: nat, k: nat)
    ensures Shl(q, k + 1) + Rev(v, k + 1) == Shl(2 * q + v % 2, k) + Rev(v / 2, k)
    ensures (if v % 2 == 1 then Or(Shl(q, k + 1), Pow2(k)) else Shl(q, k + 1)) == Shl(2 * q + v % 2, k)
  {
    var b := v % 2;
    PlaceBelow(q, b, k);
    assert Rev(v, k + 1) == Rev(v / 2, k) + Shl(b, k);
    if b == 1 {
      assert Shl(b, k) == Pow2(k) < Pow2(k + 1);
      OrDisjoint(q, Pow2(k), k + 1);
    } else {
      assert Shl(b, k) == 0;
    }
  }

  /** Appending bit b below q, at position k. */
  lemma PlaceBelow(q: nat, b: nat, k: nat)
    ensures Shl(q, k + 1) + Shl(b, k) == Shl(2 * q + b, k)
  {
    ShiftOnce(q, k + 1);
    MulTwice(q, Pow2(k));
    assert (2 * q + b) * Pow2(k) == (2 * q) * Pow2(k) + b * Pow2(k);
  }

  /** Running the bit-by-bit loop one byte further. */
  lemma RawAfter(p: Params, data: seq<bv8>, k: nat, r: nat, next: nat)
    requires ValidWidth(p.width) && k < |data|
    requires RawRegister(p, data[..k]) == r
    requires next == RawUpdate(p.width, p.polynomial, r, InputValue(p.reflectInput, data[k]))
    ensures RawRegister(p, data[..k + 1]) == next
  {
    assert data[..k + 1][..k] == data[..k];
  }

  /** Running the table-driven loop one byte further. */
  lemma TableAfter(p: Params, data: seq<bv8>, k: nat, r: nat, next: nat)
    requires ValidWidth(p.width) && k < |data|
    requires TableRegister(p, data[..k]) == r
    requires next == TableUpdate(p.width, p.polynomial, r, InputValue(p.reflectInput, data[k]))
    ensures TableRegister(p, data[..k + 1]) == next
  {
    assert data[..k + 1][..k] == data[..k];
  }

  /**
   * A CRCBase object. bitCount stands for the subclass's `_bit_count`;
   * the other attributes are set once by the constructor, and only the
   * lookup table changes afterwards, entry by entry, in CreateLookupTable.
   */
  class CrcBase {
    const bitCount: nat
    const maxValue: nat
    const polynomial: nat
    const initValue: nat
    const reflectInput: bool
    const reflectOutput: bool
    const xorOutput: nat
    const useLut: bool
    var lookupTable: seq<nat>

    function Parameters(): Params {
      Params(bitCount, polynomial, initValue, reflectInput, reflectOutput, xorOutput)
    }

    /** The attributes hold w-bit values and the table is the division table when useLut. */
    ghost predicate Valid()
      reads this
    {
      ValidWidth(bitCount) && maxValue == MaxValue(bitCount) &&
      polynomial < Pow2(bitCount) && initValue < Pow2(bitCount) && xorOutput < Pow2(bitCount) &&
      |lookupTable| == LutSize &&
      (useLut ==> lookupTable == Table(bitCount, polynomial))
    }

    /** `__init__`: the integer attributes are masked to the width (`& _max_value`, so negative ones wrap), and the table is filled only when useLut. */
    constructor (bitCount: nat, polynomial: int, initValue: int, reflectInput: bool, reflectOutput: bool, xorOutput: int, useLut: bool)
      requires ValidWidth(bitCount)
      ensures Valid()
      ensures Parameters() == Params(bitCount, polynomial % Pow2(bitCount), initValue % Pow2(bitCount), reflectInput, reflectOutput, xorOutput % Pow2(bitCount))
      ensures this.useLut == useLut
      ensures lookupTable == if useLut then Table(bitCount, this.polynomial) else seq(LutSize, _ => 0)
    {
      this.bitCount := bitCount;
      var max := MaxValue(bitCount);
      MaxValueIsMask(bitCount);
      maxValue := max;
      this.polynomial := polynomial % (max + 1);
      this.initValue := initValue % (max + 1);
      this.reflectInput := reflectInput;
      this.reflectOutput := reflectOutput;
      this.xorOutput := xorOutput % (max + 1);
      this.useLut := useLut;
      lookupTable := seq(LutSize, _ => 0);
      new;
      if useLut {
        CreateLookupTable();
      }
    }

    /** Fills entry i of the table with i shifted to the top byte, divided for eight rounds and masked. */
    method CreateLookupTable()
      requires ValidWidth(bitCount) && maxValue == MaxValue(bitCount) && |lookupTable| == LutSize
      modifies this
      ensures lookupTable == Table(bitCount, polynomial)
    {
      MaxValueIsMask(bitCount);
      for i := 0 to LutSize
        invariant |lookupTable| == LutSize
        invariant forall k | 0 <= k < i :: lookupTable[k] == TableEntry(bitCount, polynomial, k)
      {
        var x := Shl(i, bitCount - 8) % (maxValue + 1);
        ghost var start := x;
        for j := 0 to 8
          invariant x == Divide(bitCount, polynomial, start, j)
        {
          x := if Bit(x, bitCount - 1) == 1 then Xor(x * 2, polynomial) else x * 2;
        }
        lookupTable := lookupTable[i := x % (maxValue + 1)];
      }
    }

    /** Reverses the low bitCount bits of value; the bits above are never read. */
    method Reflect(value: nat) returns (reflected: nat)
      requires ValidWidth(bitCount)
      ensures reflected == Rev(value, bitCount)
    {
      var v := value;
      reflected := 0;
      ghost var q := 0;
      for i := 0 to bitCount
        invariant reflected == Shl(q, bitCount - i)
        invariant reflected + Rev(v, bitCount - i) == Rev(value, bitCount)
      {
        var k := bitCount - 1 - i;
        ReflectRound(q, v, k);
        if v % 2 == 1 {
          reflected := Or(reflected, Pow2(k));
        }
        q := 2 * q + v % 2;
        v := v / 2;
      }
    }

    /** The checksum of data; the table and the bit-by-bit loop give the same value. */
    method Calculate(data: seq<bv8>) returns (crc: nat)
      requires Valid()
      ensures crc == Checksum(Parameters(), data) && crc < Pow2(bitCount)
    {
      ghost var p := Parameters();
      if useLut {
        crc := TableLoop(data);
        TableModeIsDirectMode(p, data);
      } else {
        crc := DirectLoop(data);
      }
      assert Finish(p, crc) == Checksum(p, data);
      if reflectOutput {
        crc := Reflect(crc);
      }
      MaxValueIsMask(bitCount);
      crc := Xor(crc, xorOutput) % (maxValue + 1);
    }

    /** The table-driven loop of calculate: one lookup per byte, the register masked after each. */
    method TableLoop(data: seq<bv8>) returns (crc: nat)
      requires Valid() && useLut
      ensures crc == TableRegister(Parameters(), data) && crc < Pow2(bitCount)
    {
      MaxValueIsMask(bitCount);
      var w := bitCount;
      ghost var p := Parameters();
      crc := initValue;
      for i := 0 to |data|
        invariant crc == TableRegister(p, data[..i]) && crc < Pow2(w)
      {
        var temp := InputOf(data[i]);
        IndexBound(w, crc, temp);
        var next := Xor(crc * 256, lookupTable[Xor(Shr(crc, w - 8), temp)]) % (maxValue + 1);
        TableAfter(p, data, i, crc, next);
        crc := next;
      }
      assert data[..|data|] == data;
    }

    /** The bit-by-bit loop of calculate: eight unmasked rounds per byte. */
    method DirectLoop(data: seq<bv8>) returns (crc: nat)
      requires ValidWidth(bitCount)
      ensures crc == RawRegister(Parameters(), data)
    {
      var w := bitCount;
      ghost var p := Parameters();
      crc := initValue;
      for i := 0 to |data|
        invariant crc == RawRegister(p, data[..i])
      {
        var temp := InputOf(data[i]);
        ghost var before := crc;
        crc := Xor(crc, Shl(temp, w - 8));
        ghost var start := crc;
        for j := 0 to 8
          invariant crc == Divide(w, polynomial, start, j)
        {
          crc := if Bit(crc, w - 1) == 1 then Xor(crc * 2, polynomial) else crc * 2;
        }
        RawAfter(p, data, i, before, crc);
      }
      assert data[..|data|] == data;
    }

    /** The byte fed to the register: `REFLECT_BIT_ORDER_TABLE[index]` when reflect_input, index otherwise. */
    method InputOf(b: bv8) returns (temp: nat)
      ensures temp == InputValue(reflectInput, b)
    {
      var index := b as nat;
      TableIsReversal(b);
      temp := if reflectInput then ReflectBitOrderTable[index] as nat else index;
    }
  }
}
