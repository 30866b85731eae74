/*
 * The preset algorithms of the library: each preset is a subclass whose only
 * content is the parameter tuple it passes to its base constructor, so here
 * each one is a constant parameter record. An engine for a preset is the base
 * engine built from that record (NewCrc8, NewCrc16, NewCrc32).
 */
module Presets {
  import Crc8
  import Crc16
  import Crc32
  import opened BitOrder

  // CRC-8 family: (polynomial, initial value, reflect input, reflect output, output mask).

  /** CRC8() with no arguments. */
  const Crc8Default := Crc8.Params(0x07, 0x00, false, false, 0x00)
  const Crc8Cdma2000 := Crc8.Params(0x9B, 0xFF, false, false, 0x00)
  const Crc8Darc := Crc8.Params(0x39, 0x00, true, true, 0x00)
  const Crc8DvbS2 := Crc8.Params(0xD5, 0x00, false, false, 0x00)
  const Crc8Ebu := Crc8.Params(0x1D, 0xFF, true, true, 0x00)
  const Crc8ICode := Crc8.Params(0x1D, 0xFD, false, false, 0x00)
  const Crc8Itu := Crc8.Params(0x07, 0x00, false, false, 0x55)
  const Crc8Maxim := Crc8.Params(0x31, 0x00, true, true, 0x00)
  const Crc8Rohc := Crc8.Params(0x07, 0xFF, true, true, 0x00)
  const Crc8Wcdma := Crc8.Params(0x9B, 0x00, true, true, 0x00)

  // CRC-16 family.

  /** CRC16() with no arguments. */
  const Crc16Default := Crc16.Params(0x1021, 0x0000, false, false, 0x0000)
  const Crc16Arc := Crc16.Params(0x8005, 0x0000, true, true, 0x0000)
  const Crc16CcittFalse := Crc16.Params(0x1021, 0xFFFF, false, false, 0x0000)
  const Crc16AugCcitt := Crc16.Params(0x1021, 0x1D0F, false, false, 0x0000)
  const Crc16Buypass := Crc16.Params(0x8005, 0x0000, false, false, 0x0000)
  /** Spelled CMDA2000 in the library (the catalogue name is CDMA2000). */
  const Crc16Cmda2000 := Crc16.Params(0xC867, 0xFFFF, false, false, 0x0000)
  const Crc16Dds110 := Crc16.Params(0x8005, 0x800D, false, false, 0x0000)
  const Crc16DectR := Crc16.Params(0x0589, 0x0000, false, false, 0x0001)
  const Crc16DectX := Crc16.Params(0x0589, 0x0000, false, false, 0x0000)
  const Crc16Dnp := Crc16.Params(0x3D65, 0x0000, true, true, 0xFFFF)
  const Crc16En13757 := Crc16.Params(0x3D65, 0x0000, false, false, 0xFFFF)
  const Crc16Genibus := Crc16.Params(0x1021, 0xFFFF, false, false, 0xFFFF)
  const Crc16Maxim := Crc16.Params(0x8005, 0x0000, true, true, 0xFFFF)
  const Crc16Mcrf4xx := Crc16.Params(0x1021, 0xFFFF, true, true, 0x0000)
  const Crc16Riello := Crc16.Params(0x1021, 0xB2AA, true, true, 0x0000)
  const Crc16T10Dif := Crc16.Params(0x8BB7, 0x0000, false, false, 0x0000)
  const Crc16Teledisk := Crc16.Params(0xA097, 0x0000, false, false, 0x0000)
  const Crc16Tms37157 := Crc16.Params(0x1021, 0x89EC, true, true, 0x0000)
  const Crc16Usb := Crc16.Params(0x8005, 0xFFFF, true, true, 0xFFFF)
  const CrcA := Crc16.Params(0x1021, 0xC6C6, true, true, 0x0000)
  const Crc16Kermit := Crc16.Params(0x1021, 0x0000, true, true, 0x0000)
  const Crc16Modbus := Crc16.Params(0x8005, 0xFFFF, true, true, 0x0000)
  const Crc16X25 := Crc16.Params(0x1021, 0xFFFF, true, true, 0xFFFF)
  const Crc16Xmodem := Crc16.Params(0x1021, 0x0000, false, false, 0x0000)

  // CRC-32 family.

  /** CRC32() with no arguments. */
  const Crc32Default := Crc32.Params(0x04C1_1DB7, 0xFFFF_FFFF, true, true, 0xFFFF_FFFF)
  const Crc32Bzip2 := Crc32.Params(0x04C1_1DB7, 0xFFFF_FFFF, false, false, 0xFFFF_FFFF)
  const Crc32C := Crc32.Params(0x1EDC_6F41, 0xFFFF_FFFF, true, true, 0xFFFF_FFFF)
  const Crc32D := Crc32.Params(0xA833_982B, 0xFFFF_FFFF, true, true, 0xFFFF_FFFF)
  const Crc32Mpeg2 := Crc32.Params(0x04C1_1DB7, 0xFFFF_FFFF, false, false, 0x0000_0000)
  const Crc32Posix := Crc32.Params(0x04C1_1DB7, 0x0000_0000, false, false, 0xFFFF_FFFF)
  const Crc32Q := Crc32.Params(0x8141_41AB, 0x0000_0000, false, false, 0x0000_0000)
  const Crc32Jamcrc := Crc32.Params(0x04C1_1DB7, 0xFFFF_FFFF, true, true, 0x0000_0000)
  const Crc32Xfer := Crc32.Params(0x0000_00AF, 0x0000_0000, false, false, 0x0000_0000)

  /** A preset engine: the base CRC8 engine built from the preset's record. */
  method NewCrc8(p: Crc8.Params, useLut: bool) returns (e: Crc8.Crc8)
    ensures e.Parameters() == p && e.useLut == useLut && e.Valid()
  {
    e := new Crc8.Crc8(p.polynomial, p.initValue, p.reflectInput, p.reflectOutput, p.xorOutput, useLut);
  }

  /** A preset engine: the base CRC16 engine built from the preset's record. */
  method NewCrc16(p: Crc16.Params, useLut: bool) returns (e: Crc16.Crc16)
    ensures e.Parameters() == p && e.useLut == useLut && e.Valid()
  {
    e := new Crc16.Crc16(p.polynomial, p.initValue, p.reflectInput, p.reflectOutput, p.xorOutput, useLut);
  }

  /** A preset engine: the base CRC32 engine built from the preset's record. */
  method NewCrc32(p: Crc32.Params, useLut: bool) returns (e: Crc32.Crc32)
    ensures e.Parameters() == p && e.useLut == useLut && e.Valid()
  {
    e := new Crc32.Crc32(p.polynomial, p.initValue, p.reflectInput, p.reflectOutput, p.xorOutput, useLut);
  }

  /** XMODEM passes the same parameters as the default CRC16, so it computes the same checksum. */
  lemma XmodemIsCrc16Default(data: seq<bv8>)
    ensures Crc16Xmodem == Crc16Default
    ensures Crc16.Checksum(Crc16Xmodem, data) == Crc16.Checksum(Crc16Default, data)
  {
  }

  /** JAMCRC is CRC-32 without the final inversion: its checksum is the CRC-32 checksum with every bit flipped. */
  lemma JamcrcIsInvertedCrc32(data: seq<bv8>)
    ensures Crc32.Checksum(Crc32Jamcrc, data) == Crc32.Checksum(Crc32Default, data) ^ 0xFFFF_FFFF
  {
    Crc32.RegisterIgnoresOutputStage(Crc32Default, Crc32Jamcrc, data);
    Crc32.FinishMask(Crc32Default, Crc32Jamcrc, Crc32.DirectRegister(Crc32Default, data));
  }

  /** MPEG-2 is BZIP2 without the final inversion, in the same way. */
  lemma Mpeg2IsInvertedBzip2(data: seq<bv8>)
    ensures Crc32.Checksum(Crc32Mpeg2, data) == Crc32.Checksum(Crc32Bzip2, data) ^ 0xFFFF_FFFF
  {
    Crc32.RegisterIgnoresOutputStage(Crc32Bzip2, Crc32Mpeg2, data);
    Crc32.FinishMask(Crc32Bzip2, Crc32Mpeg2, Crc32.DirectRegister(Crc32Bzip2, data));
  }

  /** The check input of the CRC catalogue: the ASCII digits "123456789". */
  const CheckInput: seq<bv8> := [0x31, 0x32, 0x33, 0x34, 0x35, 0x36, 0x37, 0x38, 0x39]

  /** The register after each byte of the check input under Crc8Default, on literal parameters. */
  lemma Crc8CheckValueUpdates()
    ensures Crc8.DirectUpdate(0x07, 0x00, InputByte(false, 0x31)) == 0x97
    ensures Crc8.DirectUpdate(0x07, 0x97, InputByte(false, 0x32)) == 0x72
    ensures Crc8.DirectUpdate(0x07, 0x72, InputByte(false, 0x33)) == 0xC0
    ensures Crc8.DirectUpdate(0x07, 0xC0, InputByte(false, 0x34)) == 0xC2
    ensures Crc8.DirectUpdate(0x07, 0xC2, InputByte(false, 0x35)) == 0xCB
    ensures Crc8.DirectUpdate(0x07, 0xCB, InputByte(false, 0x36)) == 0xFD
    ensures Crc8.DirectUpdate(0x07, 0xFD, InputByte(false, 0x37)) == 0x78
    ensures Crc8.DirectUpdate(0x07, 0x78, InputByte(false, 0x38)) == 0xC7
    ensures Crc8.DirectUpdate(0x07, 0xC7, InputByte(false, 0x39)) == 0xF4
  {
  }

  /** The same updates, on the fields of Crc8Default and the bytes of the check input. */
  lemma Crc8CheckValueTrace()
    ensures Crc8.DirectUpdate(Crc8Default.polynomial, 0x00, InputByte(Crc8Default.reflectInput, CheckInput[0])) == 0x97
    ensures Crc8.DirectUpdate(Crc8Default.polynomial, 0x97, InputByte(Crc8Default.reflectInput, CheckInput[1])) == 0x72
    ensures Crc8.DirectUpdate(Crc8Default.polynomial, 0x72, InputByte(Crc8Default.reflectInput, CheckInput[2])) == 0xC0
    ensures Crc8.DirectUpdate(Crc8Default.polynomial, 0xC0, InputByte(Crc8Default.reflectInput, CheckInput[3])) == 0xC2
    ensures Crc8.DirectUpdate(Crc8Default.polynomial, 0xC2, InputByte(Crc8Default.reflectInput, CheckInput[4])) == 0xCB
    ensures Crc8.DirectUpdate(Crc8Default.polynomial, 0xCB, InputByte(Crc8Default.reflectInput, CheckInput[5])) == 0xFD
    ensures Crc8.DirectUpdate(Crc8Default.polynomial, 0xFD, InputByte(Crc8Default.reflectInput, CheckInput[6])) == 0x78
    ensures Crc8.DirectUpdate(Crc8Default.polynomial, 0x78, InputByte(Crc8Default.reflectInput, CheckInput[7])) == 0xC7
    ensures Crc8.DirectUpdate(Crc8Default.polynomial, 0xC7, InputByte(Crc8Default.reflectInput, CheckInput[8])) == 0xF4
  {
    Crc8CheckValueUpdates();
  }

  /** The register of Crc8Default after the nine bytes of the check input. */
  lemma Crc8CheckValueRegister()
    ensures Crc8.DirectRegister(Crc8Default, CheckInput[..9]) == 0xF4
  {
    Crc8CheckValueTrace();
    assert Crc8.DirectRegister(Crc8Default, CheckInput[..0]) == 0x00;
    Crc8.RegisterAfter(Crc8Default, CheckInput, 0, 0x00, 0x97);
    Crc8.RegisterAfter(Crc8Default, CheckInput, 1, 0x97, 0x72);
    Crc8.RegisterAfter(Crc8Default, CheckInput, 2, 0x72, 0xC0);
    Crc8.RegisterAfter(Crc8Default, CheckInput, 3, 0xC0, 0xC2);
    Crc8.RegisterAfter(Crc8Default, CheckInput, 4, 0xC2, 0xCB);
    Crc8.RegisterAfter(Crc8Default, CheckInput, 5, 0xCB, 0xFD);
    Crc8.RegisterAfter(Crc8Default, CheckInput, 6, 0xFD, 0x78);
    Crc8.RegisterAfter(Crc8Default, CheckInput, 7, 0x78, 0xC7);
    Crc8.RegisterAfter(Crc8Default, CheckInput, 8, 0xC7, 0xF4);
  }

  /** CRC-8 of "123456789" is 0xF4. */
  lemma Crc8CheckValue()
    ensures Crc8.Checksum(Crc8Default, CheckInput) == 0xF4
  {
    Crc8CheckValueRegister();
    assert CheckInput[..9] == CheckInput;
  }

  /** The register after each byte of the check input under Crc16CcittFalse, on literal parameters. */
  lemma Crc16CcittFalseCheckValueUpdates()
    ensures Crc16.DirectUpdate(0x1021, 0xFFFF, InputByte(false, 0x31)) == 0xC782
    ensures Crc16.DirectUpdate(0x1021, 0xC782, InputByte(false, 0x32)) == 0x3DBA
    ensures Crc16.DirectUpdate(0x1021, 0x3DBA, InputByte(false, 0x33)) == 0x5BCE
    ensures Crc16.DirectUpdate(0x1021, 0x5BCE, InputByte(false, 0x34)) == 0x5349
    ensures Crc16.DirectUpdate(0x1021, 0x5349, InputByte(false, 0x35)) == 0x4560
    ensures Crc16.DirectUpdate(0x1021, 0x4560, InputByte(false, 0x36)) == 0x2EF4
    ensures Crc16.DirectUpdate(0x1021, 0x2EF4, InputByte(false, 0x37)) == 0x7718
    ensures Crc16.DirectUpdate(0x1021, 0x7718, InputByte(false, 0x38)) == 0xA12B
    ensures Crc16.DirectUpdate(0x1021, 0xA12B, InputByte(false, 0x39)) == 0x29B1
  {
  }

  /** The same updates, on the fields of Crc16CcittFalse and the bytes of the check input. */
  lemma Crc16CcittFalseCheckValueTrace()
    ensures Crc16.DirectUpdate(Crc16CcittFalse.polynomial, 0xFFFF, InputByte(Crc16CcittFalse.reflectInput, CheckInput[0])) == 0xC782
    ensures Crc16.DirectUpdate(Crc16CcittFalse.polynomial, 0xC782, InputByte(Crc16CcittFalse.reflectInput, CheckInput[1])) == 0x3DBA
    ensures Crc16.DirectUpdate(Crc16CcittFalse.polynomial, 0x3DBA, InputByte(Crc16CcittFalse.reflectInput, CheckInput[2])) == 0x5BCE
    ensures Crc16.DirectUpdate(Crc16CcittFalse.polynomial, 0x5BCE, InputByte(Crc16CcittFalse.reflectInput, CheckInput[3])) == 0x5349
    ensures Crc16.DirectUpdate(Crc16CcittFalse.polynomial, 0x5349, InputByte(Crc16CcittFalse.reflectInput, CheckInput[4])) == 0x4560
    ensures Crc16.DirectUpdate(Crc16CcittFalse.polynomial, 0x4560, InputByte(Crc16CcittFalse.reflectInput, CheckInput[5])) == 0x2EF4
    ensures Crc16.DirectUpdate(Crc16CcittFalse.polynomial, 0x2EF4, InputByte(Crc16CcittFalse.reflectInput, CheckInput[6])) == 0x7718
    ensures Crc16.DirectUpdate(Crc16CcittFalse.polynomial, 0x7718, InputByte(Crc16CcittFalse.reflectInput, CheckInput[7])) == 0xA12B
    ensures Crc16.DirectUpdate(Crc16CcittFalse.polynomial, 0xA12B, InputByte(Crc16CcittFalse.reflectInput, CheckInput[8])) == 0x29B1
  {
    Crc16CcittFalseCheckValueUpdates();
  }

  /** The register of Crc16CcittFalse after the nine bytes of the check input. */
  lemma Crc16CcittFalseCheckValueRegister()
    ensures Crc16.DirectRegister(Crc16CcittFalse, CheckInput[..9]) == 0x29B1
  {
    Crc16CcittFalseCheckValueTrace();
    assert Crc16.DirectRegister(Crc16CcittFalse, CheckInput[..0]) == 0xFFFF;
    Crc16.RegisterAfter(Crc16CcittFalse, CheckInput, 0, 0xFFFF, 0xC782);
    Crc16.RegisterAfter(Crc16CcittFalse, CheckInput, 1, 0xC782, 0x3DBA);
    Crc16.RegisterAfter(Crc16CcittFalse, CheckInput, 2, 0x3DBA, 0x5BCE);
    Crc16.RegisterAfter(Crc16CcittFalse, CheckInput, 3, 0x5BCE, 0x5349);
    Crc16.RegisterAfter(Crc16CcittFalse, CheckInput, 4, 0x5349, 0x4560);
    Crc16.RegisterAfter(Crc16CcittFalse, CheckInput, 5, 0x4560, 0x2EF4);
    Crc16.RegisterAfter(Crc16CcittFalse, CheckInput, 6, 0x2EF4, 0x7718);
    Crc16.RegisterAfter(Crc16CcittFalse, CheckInput, 7, 0x7718, 0xA12B);
    Crc16.RegisterAfter(Crc16CcittFalse, CheckInput, 8, 0xA12B, 0x29B1);
  }

  /** CRC-16/CCITT-FALSE of "123456789" is 0x29B1. */
  lemma Crc16CcittFalseCheckValue()
    ensures Crc16.Checksum(Crc16CcittFalse, CheckInput) == 0x29B1
  {
    Crc16CcittFalseCheckValueRegister();
    assert CheckInput[..9] == CheckInput;
  }

  /** The register after each byte of the check input under Crc32Default, on literal parameters. */
  lemma Crc32CheckValueUpdates()
    ensures Crc32.DirectUpdate(0x04C1_1DB7, 0xFFFF_FFFF, InputByte(true, 0x31)) == 0x1208_C43E
    ensures Crc32.DirectUpdate(0x04C1_1DB7, 0x1208_C43E, InputByte(true, 0x32)) == 0x4CDD_350D
    ensures Crc32.DirectUpdate(0x04C1_1DB7, 0x4CDD_350D, InputByte(true, 0x33)) == 0xB439_EDEE
    ensures Crc32.DirectUpdate(0x04C1_1DB7, 0xB439_EDEE, InputByte(true, 0x34)) == 0x3AF8_3826
    ensures Crc32.DirectUpdate(0x04C1_1DB7, 0x3AF8_3826, InputByte(true, 0x35)) == 0xC7A3_502C
    ensures Crc32.DirectUpdate(0x04C1_1DB7, 0xC7A3_502C, InputByte(true, 0x36)) == 0x7934_B16F
    ensures Crc32.DirectUpdate(0x04C1_1DB7, 0x7934_B16F, InputByte(true, 0x37)) == 0x0669_3FF5
    ensures Crc32.DirectUpdate(0x04C1_1DB7, 0x0669_3FF5, InputByte(true, 0x38)) == 0x0AA4_F8A6
    ensures Crc32.DirectUpdate(0x04C1_1DB7, 0x0AA4_F8A6, InputByte(true, 0x39)) == 0x9B63_D02C
  {
  }

  /** The same updates, on the fields of Crc32Default and the bytes of the check input. */
  lemma Crc32CheckValueTrace()
    ensures Crc32.DirectUpdate(Crc32Default.polynomial, 0xFFFF_FFFF, InputByte(Crc32Default.reflectInput, CheckInput[0])) == 0x1208_C43E
    ensures Crc32.DirectUpdate(Crc32Default.polynomial, 0x1208_C43E, InputByte(Crc32Default.reflectInput, CheckInput[1])) == 0x4CDD_350D
    ensures Crc32.DirectUpdate(Crc32Default.polynomial, 0x4CDD_350D, InputByte(Crc32Default.reflectInput, CheckInput[2])) == 0xB439_EDEE
    ensures Crc32.DirectUpdate(Crc32Default.polynomial, 0xB439_EDEE, InputByte(Crc32Default.reflectInput, CheckInput[3])) == 0x3AF8_3826
    ensures Crc32.DirectUpdate(Crc32Default.polynomial, 0x3AF8_3826, InputByte(Crc32Default.reflectInput, CheckInput[4])) == 0xC7A3_502C
    ensures Crc32.DirectUpdate(Crc32Default.polynomial, 0xC7A3_502C, InputByte(Crc32Default.reflectInput, CheckInput[5])) == 0x7934_B16F
    ensures Crc32.DirectUpdate(Crc32Default.polynomial, 0x7934_B16F, InputByte(Crc32Default.reflectInput, CheckInput[6])) == 0x0669_3FF5
    ensures Crc32.DirectUpdate(Crc32Default.polynomial, 0x0669_3FF5, InputByte(Crc32Default.reflectInput, CheckInput[7])) == 0x0AA4_F8A6
    ensures Crc32.DirectUpdate(Crc32Default.polynomial, 0x0AA4_F8A6, InputByte(Crc32Default.reflectInput, CheckInput[8])) == 0x9B63_D02C
  {
    Crc32CheckValueUpdates();
  }

  /** The register of Crc32Default after the nine bytes of the check input. */
  lemma Crc32CheckValueRegister()
    ensures Crc32.DirectRegister(Crc32Default, CheckInput[..9]) == 0x9B63_D02C
  {
    Crc32CheckValueTrace();
    assert Crc32.DirectRegister(Crc32Default, CheckInput[..0]) == 0xFFFF_FFFF;
    Crc32.RegisterAfter(Crc32Default, CheckInput, 0, 0xFFFF_FFFF, 0x1208_C43E);
    Crc32.RegisterAfter(Crc32Default, CheckInput, 1, 0x1208_C43E, 0x4CDD_350D);
    Crc32.RegisterAfter(Crc32Default, CheckInput, 2, 0x4CDD_350D, 0xB439_EDEE);
    Crc32.RegisterAfter(Crc32Default, CheckInput, 3, 0xB439_EDEE, 0x3AF8_3826);
    Crc32.RegisterAfter(Crc32Default, CheckInput, 4, 0x3AF8_3826, 0xC7A3_502C);
    Crc32.RegisterAfter(Crc32Default, CheckInput, 5, 0xC7A3_502C, 0x7934_B16F);
    Crc32.RegisterAfter(Crc32Default, CheckInput, 6, 0x7934_B16F, 0x0669_3FF5);
    Crc32.RegisterAfter(Crc32Default, CheckInput, 7, 0x0669_3FF5, 0x0AA4_F8A6);
    Crc32.RegisterAfter(Crc32Default, CheckInput, 8, 0x0AA4_F8A6, 0x9B63_D02C);
  }

  /** CRC-32 of "123456789" is 0xCBF43926. */
  lemma Crc32CheckValue()
    ensures Crc32.Checksum(Crc32Default, CheckInput) == 0xCBF4_3926
  {
    Crc32CheckValueRegister();
    assert CheckInput[..9] == CheckInput;
  }
}
