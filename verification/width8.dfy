/*
 * The two engines agree at width 8: the Python CRCBase with `_bit_count`
 * 8, working on unbounded ints, computes the same table entries, the
 * same register and the same checksum as the C++ CRC8, working on
 * uint8_t. The bridge is Val, a byte's bits summed lowest first, which
 * is the byte read as a number (ValIsNat); bit k, XOR, the shift and bit
 * reversal are shown to mean the same on both sides of it.
 */
module Width8 {
  import opened NatBits
  import opened BitOrder
  import Crc8
  import CrcBase

  /** The low bit of a byte, as a number. */
  function Low(y: bv8): (r: nat)
    ensures r < 2
  {
    if y & 1 == 1 then 1 else 0
  }

  /** The value of the low k bits of a byte, read lowest bit first. */
  function Val(y: bv8, k: nat): nat
    decreases k, y
  {
    if k == 0 then 0 else 2 * Val(y >> 1, k - 1) + Low(y)
  }

  /** Halving the value drops the low bit; its parity is the low bit. */
  lemma ValHalves(y: bv8, k: nat)
    requires k > 0
    ensures Val(y, k) / 2 == Val(y >> 1, k - 1) && Val(y, k) % 2 == Low(y)
  {
    DivModUnique(Val(y, k), 2, Val(y >> 1, k - 1), Low(y));
  }

  /** The value of the low k bits is the byte read as a number, modulo 2^k. */
  lemma {:induction false} ValIsMod(y: bv8, k: nat)
    ensures Val(y, k) == (y as nat) % Pow2(k)
  {
    if k > 0 {
      ValIsMod(y >> 1, k - 1);
      ByteSplit(y);
      assert Low(y) == (y & 1) as nat;
      ModTwice((y >> 1) as nat, Low(y), Pow2(k - 1));
    }
  }

  lemma ModTwice(h: nat, l: nat, p: nat)
    requires l < 2 && p > 0
    ensures (2 * h + l) % (2 * p) == 2 * (h % p) + l
  {
    assert 2 * h + l == (h / p) * (2 * p) + (2 * (h % p) + l);
    DivModUnique(2 * h + l, 2 * p, h / p, 2 * (h % p) + l);
  }

  /** The value of all eight bits is the byte read as a number. */
  lemma ValIsNat(y: bv8)
    ensures Val(y, 8) == y as nat
  {
    ValIsMod(y, 8);
    ByteBelow(y);
    SmallMod(y as nat, Pow2(8));
  }

  lemma ByteBelow(y: bv8)
    ensures y as nat < Pow2(8) == 256
  {
  }

  /** A byte is twice its upper seven bits plus its low bit. */
  lemma ByteSplit(y: bv8)
    ensures y as nat == 2 * ((y >> 1) as nat) + (y & 1) as nat && (y & 1) as nat < 2
  {
  }

  /** Every value of eight bits is below 2^8. */
  lemma ValBound(y: bv8)
    ensures Val(y, 8) < Pow2(8) == 256
  {
    ValIsNat(y);
    ByteBelow(y);
  }

  lemma LowXor(a: bv8, b: bv8)
    ensures Low(a ^ b) == (Low(a) + Low(b)) % 2
  {
    assert (a ^ b) & 1 == (a & 1) ^ (b & 1);
  }

  /** Python's `^` on the values of two bytes is the value of C++'s `^` on the bytes. */
  lemma {:induction false} ValXor(a: bv8, b: bv8, k: nat)
    ensures Xor(Val(a, k), Val(b, k)) == Val(a ^ b, k)
  {
    if k == 0 {
      XorZero(0);
    } else {
      ValXor(a >> 1, b >> 1, k - 1);
      ValXorStep(a, b, k);
    }
  }

  /** One bit more: the XOR of the values follows from the XOR of the values of the upper bits. */
  lemma ValXorStep(a: bv8, b: bv8, k: nat)
    requires k > 0 && Xor(Val(a >> 1, k - 1), Val(b >> 1, k - 1)) == Val((a >> 1) ^ (b >> 1), k - 1)
    ensures Xor(Val(a, k), Val(b, k)) == Val(a ^ b, k)
  {
    ValHalves(a, k);
    ValHalves(b, k);
    assert (a ^ b) >> 1 == (a >> 1) ^ (b >> 1);
    LowXor(a, b);
    XorStep(Val(a, k), Val(b, k), Val(a >> 1, k - 1), Val(b >> 1, k - 1), Low(a), Low(b), Val((a >> 1) ^ (b >> 1), k - 1));
  }

  /** The recursive case of Xor, stated on named values. */
  lemma XorStep(a: nat, b: nat, ha: nat, hb: nat, la: nat, lb: nat, x: nat)
    requires a / 2 == ha && b / 2 == hb && a % 2 == la && b % 2 == lb && Xor(ha, hb) == x
    ensures Xor(a, b) == 2 * x + (la + lb) % 2
  {
    XorUnfold(a, b);
  }

  lemma ShiftTwice(y: bv8, j: nat)
    requires 1 <= j < 8
    ensures Low((y >> 1) >> (j - 1)) == Low(y >> j)
  {
    assert (y >> 1) >> (j - 1) == y >> j;
  }

  /** Bit j of the value is bit j of the byte. */
  lemma {:induction false} ValBit(y: bv8, k: nat, j: nat)
    requires j < k <= 8
    ensures Bit(Val(y, k), j) == Low(y >> j)
  {
    ValHalves(y, k);
    if j > 0 {
      ValBit(y >> 1, k - 1, j - 1);
      ShiftTwice(y, j);
    }
  }

  /** Bit j of C++'s reflected byte is bit 7 - j of the byte. */
  lemma Rev8Low(y: bv8, j: nat)
    requires j < 8
    ensures Low(Rev8(y) >> j) == Low(y >> (7 - j))
  {
    Rev8Bit(y, j as bv8);
    assert Rev8(y) >> j == Rev8(y) >> (j as bv8);
    assert y >> (7 - j) == y >> (7 - j as bv8);
  }

  lemma RevBitOfByte(y: bv8, r: bv8, j: nat)
    requires j < 8 && Low(r >> j) == Low(y >> (7 - j))
    ensures Bit(Rev(Val(y, 8), 8), j) == Bit(Val(r, 8), j)
  {
    ValBit(y, 8, 7 - j);
    ValBit(r, 8, j);
    RevBitChain(Val(y, 8), Val(r, 8), j, Low(y >> (7 - j)));
  }

  lemma RevBitChain(v: nat, r: nat, j: nat, b: nat)
    requires j < 8 && Bit(v, 7 - j) == b && Bit(r, j) == b
    ensures Bit(Rev(v, 8), j) == Bit(r, j)
  {
    RevBit(v, 8, j);
  }

  /** Python's reflect at width 8 is C++'s CRC8::reflect. */
  lemma RevOfByte(y: bv8)
    ensures Rev(Val(y, 8), 8) == Val(Rev8(y), 8)
  {
    RevBound(Val(y, 8), 8);
    ValBound(Rev8(y));
    forall j | 0 <= j < 8
      ensures Bit(Rev(Val(y, 8), 8), j) == Bit(Val(Rev8(y), 8), j)
    {
      Rev8Low(y, j);
      RevBitOfByte(y, Rev8(y), j);
    }
    BitExtensionality(Rev(Val(y, 8), 8), Val(Rev8(y), 8), 8);
  }

  lemma TopBit(x: bv8)
    ensures (x & 0x80 != 0) == (Low(x >> 7) == 1)
  {
  }

  lemma ShlByte(x: bv8)
    ensures (x << 1) as nat == (2 * (x as nat)) % 256
  {
  }

  /** Doubling the value and keeping eight bits is C++'s `x << 1` on a byte. */
  lemma ValShl(x: bv8)
    ensures (2 * Val(x, 8)) % Pow2(8) == Val(x << 1, 8)
  {
    ValIsNat(x);
    ValIsNat(x << 1);
    ByteBelow(x);
    ShlByte(x);
  }

  /** One Python division round at width 8, masked, is one C++ CRC8 round. */
  lemma StepOfByte(poly: bv8, x: bv8)
    ensures CrcBase.Step(8, Val(poly, 8), Val(x, 8)) % Pow2(8) == Val(Crc8.Step(poly, x), 8)
  {
    ValBit(x, 8, 7);
    TopBit(x);
    ValShl(x);
    if x & 0x80 != 0 {
      XorMod(2 * Val(x, 8), Val(poly, 8), 8);
      ValBound(poly);
      SmallMod(Val(poly, 8), Pow2(8));
      ValXor(x << 1, poly, 8);
    }
  }

  /** n Python division rounds at width 8, masked, are n C++ CRC8 rounds. */
  lemma {:induction false} DivideOfByte(poly: bv8, x: bv8, n: nat)
    ensures CrcBase.Divide(8, Val(poly, 8), Val(x, 8), n) % Pow2(8) == Val(Crc8.Divide(poly, x, n), 8)
  {
    if n == 0 {
      ValBound(x);
      SmallMod(Val(x, 8), Pow2(8));
    } else {
      DivideOfByte(poly, x, n - 1);
      DivideOfByteStep(poly, x, n);
    }
  }

  lemma DivideOfByteStep(poly: bv8, x: bv8, n: nat)
    requires n > 0
    requires CrcBase.Divide(8, Val(poly, 8), Val(x, 8), n - 1) % Pow2(8) == Val(Crc8.Divide(poly, x, n - 1), 8)
    ensures CrcBase.Divide(8, Val(poly, 8), Val(x, 8), n) % Pow2(8) == Val(Crc8.Divide(poly, x, n), 8)
  {
    CrcBase.StepMod(8, Val(poly, 8), CrcBase.Divide(8, Val(poly, 8), Val(x, 8), n - 1));
    StepOfByte(poly, Crc8.Divide(poly, x, n - 1));
  }

  /** The attributes a Python CRCBase of width 8 has when built from the parameters of a C++ CRC8. */
  function Lift(p: Crc8.Params): (q: CrcBase.Params)
    ensures CrcBase.ValidWidth(q.width)
  {
    CrcBase.Params(8, p.polynomial as nat, p.initValue as nat, p.reflectInput, p.reflectOutput, p.xorOutput as nat)
  }

  /** The Python register, masked after every byte, is the value of the C++ CRC8 register. */
  lemma {:induction false} RegisterOfBytes(p: Crc8.Params, data: seq<bv8>)
    ensures CrcBase.MaskedRegister(Lift(p), data) == Val(Crc8.DirectRegister(p, data), 8)
  {
    if |data| == 0 {
      ValIsNat(p.initValue);
    } else {
      RegisterOfBytes(p, data[..|data| - 1]);
      RegisterOfBytesStep(p, data);
    }
  }

  lemma RegisterOfBytesStep(p: Crc8.Params, data: seq<bv8>)
    requires |data| > 0
    requires CrcBase.MaskedRegister(Lift(p), data[..|data| - 1]) == Val(Crc8.DirectRegister(p, data[..|data| - 1]), 8)
    ensures CrcBase.MaskedRegister(Lift(p), data) == Val(Crc8.DirectRegister(p, data), 8)
  {
    UpdateOfByte(p.polynomial, Crc8.DirectRegister(p, data[..|data| - 1]), InputByte(p.reflectInput, data[|data| - 1]));
  }

  /** One byte of the Python bit-by-bit loop at width 8, masked, is one byte of the C++ CRC8 loop. */
  lemma UpdateOfByte(poly: bv8, r: bv8, b: bv8)
    ensures CrcBase.RawUpdate(8, poly as nat, Val(r, 8), b as nat) % Pow2(8) == Val(Crc8.DirectUpdate(poly, r, b), 8)
  {
    ValIsNat(b);
    ValIsNat(poly);
    ValXor(r, b, 8);
    assert Shl(b as nat, 8 - 8) == b as nat;
    DivideOfByte(poly, r ^ b, 8);
  }

  /** Python's final reflect, XOR and mask at width 8 is C++'s final reflect and XOR. */
  lemma FinishOfByte(p: Crc8.Params, r: bv8)
    ensures CrcBase.Finish(Lift(p), Val(r, 8)) == Val(Crc8.Finish(p, r), 8)
  {
    var f, x := if p.reflectOutput then Rev8(r) else r, p.xorOutput;
    FlipOfByte(p.reflectOutput, r);
    ValIsNat(x);
    ValXor(f, x, 8);
    ValBound(f ^ x);
    FinishStep(Lift(p), Val(r, 8), Val(f, 8), Val(f ^ x, 8));
  }

  lemma FlipOfByte(reflect: bool, r: bv8)
    ensures (if reflect then Rev(Val(r, 8), 8) else Val(r, 8)) == Val(if reflect then Rev8(r) else r, 8)
  {
    if reflect {
      RevOfByte(r);
    }
  }

  lemma FinishStep(q: CrcBase.Params, v: nat, f: nat, res: nat)
    requires q.width == 8
    requires (if q.reflectOutput then Rev(v, 8) else v) == f && Xor(f, q.xorOutput) == res && res < Pow2(8)
    ensures CrcBase.Finish(q, v) == res
  {
    SmallMod(res, Pow2(8));
  }

  /**
   * The Python engine at width 8 and the C++ CRC8 built from the same
   * parameters return the same checksum for every byte sequence.
   */
  lemma ChecksumOfBytes(p: Crc8.Params, data: seq<bv8>)
    ensures CrcBase.Checksum(Lift(p), data) == Crc8.Checksum(p, data) as nat
  {
    var q := Lift(p);
    var r := Crc8.DirectRegister(p, data);
    ByteBelow(p.initValue);
    CrcBase.RawIsMasked(q, data);
    RegisterOfBytes(p, data);
    CrcBase.FinishReadsLowBits(q, CrcBase.RawRegister(q, data));
    FinishOfByte(p, r);
    ValIsNat(Crc8.Finish(p, r));
  }

  /** Entry b of the Python table at width 8 is entry b of the C++ CRC8 table. */
  lemma TableEntryOfBytes(poly: bv8, b: bv8)
    ensures CrcBase.TableEntry(8, poly as nat, b as nat) == Crc8.TableEntry(poly, b as int) as nat
  {
    ByteIndex(b);
    EntryOfByte(poly, b);
    ValIsNat(Crc8.Divide(poly, b, 8));
  }

  lemma ByteIndex(b: bv8)
    ensures (b as int) as bv8 == b
  {
  }

  lemma EntryOfByte(poly: bv8, b: bv8)
    ensures CrcBase.TableEntry(8, poly as nat, b as nat) == Val(Crc8.Divide(poly, b, 8), 8)
  {
    ValIsNat(b);
    ValIsNat(poly);
    ByteBelow(b);
    assert Shl(b as nat, 8 - 8) % Pow2(8) == b as nat;
    DivideOfByte(poly, b, 8);
  }

  /** One step of the Python table loop at width 8 is one step of the C++ CRC8 table loop. */
  lemma TableUpdateOfBytes(poly: bv8, c: bv8, t: bv8)
    ensures CrcBase.TableUpdate(8, poly as nat, c as nat, t as nat) == Crc8.TableUpdate(poly, c, t) as nat
  {
    ByteBelow(c);
    ByteBelow(t);
    CrcBase.TableUpdateAtWidth8(poly as nat, c as nat, t as nat);
    ValIsNat(c);
    ValIsNat(t);
    ValIsNat(c ^ t);
    ValXor(c, t, 8);
    TableEntryOfBytes(poly, c ^ t);
  }
}
