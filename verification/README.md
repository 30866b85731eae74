# CRC engines, modelled in Dafny

The library computes cyclic redundancy checks. The C++ part has three
engines: `CRC8`, `CRC16` and `CRC32`. The Python part has one engine,
`CRCBase`, that is generic over the register width (`_bit_count`).

Each engine is built from six things:
- a polynomial;
- an initial register value;
- an input-reflection flag and an output-reflection flag;
- an output XOR mask;
- a `use_lut` flag.

When `use_lut` is set, the constructor fills a 256-entry lookup table.
Entry i is the byte i placed at the top of the register after eight
rounds of polynomial division. `calculate` folds a byte sequence into the
register in one of two ways:
- table mode: one table lookup per byte;
- bit-by-bit mode: eight shift/XOR rounds per byte.

Either way, it then reflects the register if asked to and XORs the
output mask. The roughly thirty named algorithms (CRC-16/XMODEM,
CRC-32/BZIP2 and so on) are subclasses that only pass parameters to the
base constructor.

## The modules

| module | contents |
|---|---|
| `BitOrder` | `REFLECT_BIT_ORDER_TABLE` row by row, and proof that it holds the 8-bit reversal |
| `CString` | the bytes before the first NUL of a C string |
| `Crc8`, `Crc16`, `Crc32` | the C++ engines (see below) |
| `Presets` | the C++ presets as constant records, with relations and check values |
| `NatBits` | XOR, OR, bit access, shifts and bit reversal on unbounded naturals (Python ints) |
| `CrcBase` | the Python engine, generic over the width |
| `Width8` | proof that `CrcBase` at width 8 computes what `Crc8` computes |

Each of `Crc8`, `Crc16` and `Crc32` has two layers:
- pure functions that say what one division round, one byte and the
  whole fold compute;
- a class holding the engine's fields and fixed-size table, whose methods
  are proved to compute those functions.

The C++ registers are bit-vectors of the register's width, so C++'s
`uint8_t`, `uint16_t` and `uint32_t` wrap-around is exact. `CrcBase` works
on `nat`, as Python's ints do. Python's `<<`, `>>`, `^`, `|`, `& mask` and
`& t` become `Shl` (multiplication by a power of two), `Shr`, `Xor`, `Or`,
`% 2^w` and `Bit`. The bit-by-bit loop lets the register grow beyond w
bits, exactly as the Python code does.

## Model

| member | source | states |
|---|---|---|
| BitOrder.TableIsReversal | CRC/CRC.cpp:4-37 | the table has 256 entries and entry b is the bit reversal of b |
| BitOrder.RowIsReversal | CRC.py:7-40 | every entry of every 8-entry row of the table is the reversal of its index 8 * row + column |
| BitOrder.Rev8Bit | CRC/CRC.cpp:4-37 | bit k of a reversed byte is bit 7 - k of the byte |
| BitOrder.Rev8Involution | CRC/CRC.cpp:4-37 | reversing a byte twice gives it back |
| BitOrder.LookupReflected | CRC/CRC.cpp:80 | reading the table at b yields the reversal of b |
| CString.BeforeNul | CRC/CRC.cpp:54-62 | the bytes strlen covers: a prefix of the string, free of NUL, followed by a NUL when shorter |
| Crc8.TableIndex | CRC/CRC.cpp:81 | the index `crc ^ byte` always lies inside the 256-entry table |
| Crc8.ChecksumOfEmpty | CRC/CRC.cpp:74-101 | on empty input the result is the initial value, reflected if asked, XORed with the output mask |
| Crc8.TableEntryZero | CRC/CRC.cpp:125-135 | table entry 0 is 0 |
| Crc8.DivideZero | CRC/CRC.cpp:130-132 | division rounds keep a zero register at zero |
| Crc8.TableUpdateIsDirect | CRC/CRC.cpp:78-91 | one table lookup updates the register exactly as eight division rounds do |
| Crc8.TableModeIsDirectMode | CRC/CRC.cpp:78-92 | the table loop and the bit-by-bit loop give the same register for every byte sequence |
| Crc8.ReflectLoopIsReversal | CRC/CRC.cpp:113-123 | the eight iterations of reflect's loop produce the bit reversal of the byte |
| Crc8.RegisterAfter | CRC/CRC.cpp:85-91 | one more byte of input advances the bit-by-bit register by one update |
| Crc8.Crc8.constructor | CRC/CRC.cpp:40-52 | the fields are the arguments; the table has LUT_SIZE entries, all zero unless use_lut, the division table if use_lut |
| Crc8.Crc8.Default | CRC/CRC.h:27 | CRC8() is polynomial 0x07, initial value 0, no reflection, mask 0 |
| Crc8.Crc8.CreateLookupTable | CRC/CRC.cpp:125-135 | entry i becomes byte i after eight division rounds, for every i; called only with use_lut, it leaves the engine valid |
| Crc8.Crc8.Reflect | CRC/CRC.cpp:113-123 | returns the bit reversal of its argument |
| Crc8.Crc8.Calculate | CRC/CRC.cpp:74-101 | returns the checksum of the data, in either mode |
| Crc8.Crc8.TableLoop | CRC/CRC.cpp:78-83 | the table loop leaves the bit-by-bit register of the data |
| Crc8.Crc8.DirectLoop | CRC/CRC.cpp:84-92 | the bit-by-bit loop leaves the register of the data |
| Crc8.Crc8.CalculateBuffer | CRC/CRC.cpp:64-72 | the checksum of the first length bytes (none when length is not positive) |
| Crc8.Crc8.CalculateString | CRC/CRC.cpp:54-62 | the checksum of the bytes before the terminating NUL |
| Crc16.StepXor | CRC/CRC.cpp:229 | one division round is linear over XOR |
| Crc16.DivideXor | CRC/CRC.cpp:185-188 | n division rounds are linear over XOR |
| Crc16.DivideZero | CRC/CRC.cpp:227-230 | division rounds keep a zero register at zero |
| Crc16.TableEntryZero | CRC/CRC.cpp:223-233 | table entry 0 is 0 |
| Crc16.TableIndex | CRC/CRC.cpp:179 | the index `(crc >> 8) ^ byte` is below 256 |
| Crc16.DivideLow | CRC/CRC.cpp:186-188 | eight rounds on the low byte only shift it up: no polynomial is added |
| Crc16.SplitRegister | CRC/CRC.cpp:179-185 | the register with the byte added splits into the table index at the top and the low byte |
| Crc16.DirectSplit | CRC/CRC.cpp:185-188 | the bit-by-bit update is the table entry of the index XOR the division of the low byte |
| Crc16.TableUpdateIsDirect | CRC/CRC.cpp:176-190 | one table lookup updates the register exactly as eight division rounds do |
| Crc16.TableModeIsDirectMode | CRC/CRC.cpp:176-190 | the table loop and the bit-by-bit loop give the same register for every byte sequence |
| Crc16.ChecksumOfEmpty | CRC/CRC.cpp:172-199 | on empty input the result is the initial value, reflected if asked, XORed with the output mask |
| Crc16.RegisterIgnoresOutputStage | CRC/CRC.cpp:172-191 | the register depends on the polynomial, the initial value and input reflection only |
| Crc16.FinishMask | CRC/CRC.cpp:196 | changing only the output mask XORs the result by the difference of the masks |
| Crc16.Rev16Bit | CRC/CRC.cpp:211-221 | bit k of the reversal is bit 15 - k of the register |
| Crc16.Rev16Involution | CRC/CRC.cpp:211-221 | reversing twice gives the register back |
| Crc16.ReflectLoopIsReversal | CRC/CRC.cpp:211-221 | the sixteen iterations of reflect's loop produce the bit reversal |
| Crc16.RegisterAfter | CRC/CRC.cpp:183-189 | one more byte of input advances the bit-by-bit register by one update |
| Crc16.Crc16.constructor | CRC/CRC.cpp:138-150 | the fields are the arguments; the table is zero unless use_lut, the division table if use_lut |
| Crc16.Crc16.Default | CRC/CRC.h:110 | CRC16() is polynomial 0x1021, initial value 0, no reflection, mask 0 |
| Crc16.Crc16.CreateLookupTable | CRC/CRC.cpp:223-233 | entry i becomes i << 8 after eight division rounds, for every i; called only with use_lut, it leaves the engine valid |
| Crc16.Crc16.Rounds | CRC/CRC.cpp:186-188 | the eight-round loop computes eight division rounds |
| Crc16.Crc16.Reflect | CRC/CRC.cpp:211-221 | returns the bit reversal of its argument |
| Crc16.Crc16.Calculate | CRC/CRC.cpp:172-199 | returns the checksum of the data, in either mode |
| Crc16.Crc16.TableLoop | CRC/CRC.cpp:176-181 | the table loop leaves the bit-by-bit register of the data |
| Crc16.Crc16.DirectLoop | CRC/CRC.cpp:182-190 | the bit-by-bit loop leaves the register of the data |
| Crc16.Crc16.TableByte | CRC/CRC.cpp:178-179 | one iteration of the table loop is one table update |
| Crc16.Crc16.DirectByte | CRC/CRC.cpp:184-188 | one iteration of the bit-by-bit loop is one direct update |
| Crc16.Crc16.CalculateBuffer | CRC/CRC.cpp:162-170 | the checksum of the first length bytes (none when length is not positive) |
| Crc16.Crc16.CalculateString | CRC/CRC.cpp:152-160 | the checksum of the bytes before the terminating NUL |
| Crc32.StepXor | CRC/CRC.cpp:327 | one division round is linear over XOR |
| Crc32.DivideXor | CRC/CRC.cpp:283-286 | n division rounds are linear over XOR |
| Crc32.DivideZero | CRC/CRC.cpp:325-328 | division rounds keep a zero register at zero |
| Crc32.TableEntryZero | CRC/CRC.cpp:321-331 | table entry 0 is 0 |
| Crc32.TableIndex | CRC/CRC.cpp:277 | the index `(crc >> 24) ^ byte` is below 256 |
| Crc32.DivideLow | CRC/CRC.cpp:284-286 | eight rounds on the low 24 bits only shift them up: no polynomial is added |
| Crc32.SplitRegister | CRC/CRC.cpp:277-283 | the register with the byte added splits into the table index at the top and the low 24 bits |
| Crc32.DirectSplit | CRC/CRC.cpp:283-286 | the bit-by-bit update is the table entry of the index XOR the division of the low bits |
| Crc32.TableUpdateIsDirect | CRC/CRC.cpp:274-288 | one table lookup updates the register exactly as eight division rounds do |
| Crc32.TableModeIsDirectMode | CRC/CRC.cpp:274-288 | the table loop and the bit-by-bit loop give the same register for every byte sequence |
| Crc32.ChecksumOfEmpty | CRC/CRC.cpp:270-297 | on empty input the result is the initial value, reflected if asked, XORed with the output mask |
| Crc32.RegisterIgnoresOutputStage | CRC/CRC.cpp:270-289 | the register depends on the polynomial, the initial value and input reflection only |
| Crc32.FinishMask | CRC/CRC.cpp:294 | changing only the output mask XORs the result by the difference of the masks |
| Crc32.Rev32Bit | CRC/CRC.cpp:309-319 | bit k of the reversal is bit 31 - k of the register |
| Crc32.Rev32Involution | CRC/CRC.cpp:309-319 | reversing twice gives the register back |
| Crc32.ReflectLoopIsReversal | CRC/CRC.cpp:309-319 | the 32 iterations of reflect's loop produce the bit reversal |
| Crc32.RegisterAfter | CRC/CRC.cpp:281-287 | one more byte of input advances the bit-by-bit register by one update |
| Crc32.Crc32.constructor | CRC/CRC.cpp:236-248 | the fields are the arguments; the table is zero unless use_lut, the division table if use_lut |
| Crc32.Crc32.Default | CRC/CRC.h:277 | CRC32() is polynomial 0x04C11DB7, initial value and mask 0xFFFFFFFF, both reflections on |
| Crc32.Crc32.CreateLookupTable | CRC/CRC.cpp:321-331 | entry i becomes i << 24 after eight division rounds, for every i; called only with use_lut, it leaves the engine valid |
| Crc32.Crc32.Rounds | CRC/CRC.cpp:284-286 | the eight-round loop computes eight division rounds |
| Crc32.Crc32.Reflect | CRC/CRC.cpp:309-319 | returns the bit reversal of its argument |
| Crc32.Crc32.Calculate | CRC/CRC.cpp:270-297 | returns the checksum of the data, in either mode |
| Crc32.Crc32.TableLoop | CRC/CRC.cpp:274-279 | the table loop leaves the bit-by-bit register of the data |
| Crc32.Crc32.DirectLoop | CRC/CRC.cpp:280-288 | the bit-by-bit loop leaves the register of the data |
| Crc32.Crc32.TableByte | CRC/CRC.cpp:276-277 | one iteration of the table loop is one table update |
| Crc32.Crc32.DirectByte | CRC/CRC.cpp:282-286 | one iteration of the bit-by-bit loop is one direct update |
| Crc32.Crc32.CalculateBuffer | CRC/CRC.cpp:260-268 | the checksum of the first length bytes (none when length is not positive) |
| Crc32.Crc32.CalculateString | CRC/CRC.cpp:250-258 | the checksum of the bytes before the terminating NUL |
| Presets.NewCrc8 | CRC/CRC.h:49-101 | an 8-bit preset object is the base engine built with the preset's parameters |
| Presets.NewCrc16 | CRC/CRC.h:132-268 | a 16-bit preset object is the base engine built with the preset's parameters |
| Presets.NewCrc32 | CRC/CRC.h:299-345 | a 32-bit preset object is the base engine built with the preset's parameters |
| Presets.XmodemIsCrc16Default | CRC/CRC.h:264-268 | CRC16_XMODEM has the parameters of CRC16(), so it computes the same checksum |
| Presets.JamcrcIsInvertedCrc32 | CRC/CRC.h:335-339 | JAMCRC is CRC32() with every result bit inverted |
| Presets.Mpeg2IsInvertedBzip2 | CRC/CRC.h:317-321 | CRC-32/MPEG-2 is CRC-32/BZIP2 with every result bit inverted |
| Presets.Crc8CheckValue | CRC/CRC.h:27 | CRC8() of "123456789" is 0xF4 |
| Presets.Crc16CcittFalseCheckValue | CRC/CRC.h:141 | CRC16_CCITT_FALSE of "123456789" is 0x29B1 |
| Presets.Crc32CheckValue | CRC/CRC.h:277 | CRC32() of "123456789" is 0xCBF43926 |
| NatBits.XorAssoc | CRC.py:97 | XOR on Python ints is associative |
| NatBits.XorMod | CRC.py:90 | masking to k bits commutes with XOR |
| NatBits.XorShift | CRC.py:94 | shifting left commutes with XOR |
| NatBits.XorDisjoint | CRC.py:90 | XOR of a shifted value with bits below the shift is their sum |
| NatBits.OrDisjoint | CRC.py:80 | OR of a shifted value with bits below the shift is their sum |
| NatBits.ShrIsDiv | CRC.py:90 | `x >> k` is x divided by 2^k |
| NatBits.RevBit | CRC.py:76-82 | bit j of the reversal of the low n bits is bit n - 1 - j |
| NatBits.RevLow | CRC.py:76-82 | the reversal reads only the low n bits |
| NatBits.RevBound | CRC.py:76-82 | the reversal of n bits is below 2^n |
| NatBits.RevInvolution | CRC.py:76-82 | reversing twice gives back the low n bits |
| CrcBase.MaxValueIsMask | CRC.py:57 | `_max_value` is 2^w - 1, so `& _max_value` keeps the low w bits |
| CrcBase.Table | CRC.py:68-74 | the division table has LUT_SIZE entries |
| CrcBase.InputValue | CRC.py:88-95 | the byte fed to the register is below 256 |
| CrcBase.ChecksumOfEmpty | CRC.py:84-102 | on empty input the result is the initial value, reflected if asked, XORed with the mask, and below 2^w |
| CrcBase.FinishReadsLowBits | CRC.py:99-102 | the final reflect, XOR and mask read only the low w bits of the register |
| CrcBase.StepMod | CRC.py:97 | one unmasked round, masked, equals the round of the masked register, masked |
| CrcBase.DivideMod | CRC.py:96-97 | n unmasked rounds commute with masking to w bits |
| CrcBase.StepXor | CRC.py:97 | one round is linear over XOR |
| CrcBase.DivideXor | CRC.py:96-97 | n rounds are linear over XOR |
| CrcBase.DivideLow | CRC.py:96-97 | rounds on a value that stays below 2^w only shift it |
| CrcBase.DivideOfZero | CRC.py:72-73 | rounds keep a zero register at zero |
| CrcBase.TableEntryUnmasked | CRC.py:71 | for every index, `(i << (w - 8)) & max` loses no bit |
| CrcBase.TableEntryZero | CRC.py:68-74 | table entry 0 is 0 |
| CrcBase.IndexBound | CRC.py:90 | the index `(crc >> (w - 8)) ^ temp` of a w-bit register is below 256 |
| CrcBase.ShiftSplit | CRC.py:90 | `crc << 8` puts the top byte above bit w and keeps the rest below 2^w |
| CrcBase.XorSplit | CRC.py:90-96 | XORing the byte into the top of the register is XORing it into the table index |
| CrcBase.DirectSplit | CRC.py:96-98 | the masked bit-by-bit update is the table entry XOR the shifted low bits |
| CrcBase.TableSplit | CRC.py:90 | the table update is the same XOR |
| CrcBase.TableUpdateIsDirect | CRC.py:86-98 | one table step equals the masked bit-by-bit step on a w-bit register |
| CrcBase.TableUpdateAtWidth8 | CRC.py:90 | at width 8 the table step reduces to the table entry of `crc ^ temp` (Width8.TableUpdateOfBytes ties this to the C++ 8-bit step) |
| CrcBase.RawUpdateMod | CRC.py:96-98 | masking the register before a byte changes nothing after the final mask |
| CrcBase.RawIsMasked | CRC.py:92-98 | the never-masked register of the bit-by-bit loop, masked, is the register masked after every byte |
| CrcBase.TableIsMasked | CRC.py:86-90 | the table loop's register is the masked register and stays below 2^w |
| CrcBase.TableModeIsDirectMode | CRC.py:86-102 | both branches of calculate return the same value for every byte sequence |
| CrcBase.ReflectRound | CRC.py:79-81 | one iteration of reflect's loop places the next bit just below those already placed |
| CrcBase.RawAfter | CRC.py:92-98 | one more byte advances the bit-by-bit register by one update |
| CrcBase.TableAfter | CRC.py:87-90 | one more byte advances the table register by one update |
| CrcBase.CrcBase.constructor | CRC.py:48-66 | polynomial, init and xor are masked to w bits; the table is 256 zeros without use_lut, the division table with it |
| CrcBase.CrcBase.CreateLookupTable | CRC.py:68-74 | entry i becomes the masked 8-round division of `(i << (w - 8)) & max`, for every i |
| CrcBase.CrcBase.Reflect | CRC.py:76-82 | returns the reversal of the low w bits of the argument |
| CrcBase.CrcBase.Calculate | CRC.py:84-102 | returns the checksum of the data, below 2^w, in either mode |
| CrcBase.CrcBase.TableLoop | CRC.py:86-90 | the table loop leaves the masked register, below 2^w |
| CrcBase.CrcBase.DirectLoop | CRC.py:91-98 | the bit-by-bit loop leaves the never-masked register |
| CrcBase.CrcBase.InputOf | CRC.py:88-95 | temp is the data byte, reflected through the table when reflect_input |
| Width8.ValXor | CRC/CRC.cpp:87 | XOR of two bytes is XOR of the numbers they stand for |
| Width8.RevOfByte | CRC/CRC.cpp:113-123 | the 8-bit C++ reflect is the Python reflect of the low 8 bits |
| Width8.StepOfByte | CRC/CRC.cpp:89 | one C++ 8-bit round is one Python round at width 8, truncated to 8 bits |
| Width8.DivideOfByte | CRC/CRC.cpp:88-90 | n C++ rounds are n Python rounds, truncated to 8 bits |
| Width8.UpdateOfByte | CRC/CRC.cpp:87-90 | the C++ bit-by-bit byte update is the Python one at width 8, truncated to 8 bits |
| Width8.RegisterOfBytes | CRC/CRC.cpp:84-91 | the C++ bit-by-bit register after any bytes is the Python register masked to 8 bits |
| Width8.FinishOfByte | CRC/CRC.cpp:94-98 | the C++ output reflection and XOR are the Python ones at width 8 |
| Width8.ChecksumOfBytes | CRC/CRC.cpp:74-101 | for every parameter set and byte sequence, the Python checksum at width 8 equals the C++ CRC8 checksum |
| Width8.TableEntryOfBytes | CRC/CRC.cpp:125-135 | every C++ CRC8 table entry equals the Python table entry at width 8 |
| Width8.TableUpdateOfBytes | CRC/CRC.cpp:81 | the Python table step at width 8 is the C++ step `lookup_table[crc ^ byte]` |

## Left out

- `printLookupTable` (CRC/CRC.cpp:103-111, 201-209, 299-307) and the Python
  `__repr__` methods only format text for the console. They have no
  contract to state.
- The DLL export macro, `pch.h` and the `#include` lines are build plumbing.
- `memset` and `strlen` are not modelled as calls. The constructors
  zero-fill the table directly. `CString.BeforeNul` gives the bytes that
  `strlen` counts.
- The preset subclasses (in both languages) are not classes here. Each
  C++ preset is a constant parameter record in `Presets`, built through
  the base constructor. The Python preset classes in CRC.py pass their
  parameters to `CRCBase` the same way and are not repeated.
- The Python `isinstance`/`ord` dispatch on `str` input is not modelled.
  Data is a byte sequence. A character above 255 would index past the
  reflection table.
- Three shifts in the C++ source can reach the sign bit of the promoted
  `int`: `byte << 24` (CRC/CRC.cpp:283) and `i << 24` (CRC/CRC.cpp:325)
  for values of 128 and above, and `1 << ((32 - 1) - i)`
  (CRC/CRC.cpp:314) for i = 0. Such a shift is undefined behaviour in
  C++11, gives an implementation-defined value on conversion in C++14 and
  C++17, and is defined in C++20. The model takes the shift modulo 2^32,
  the value C++20 prescribes. Every other promoted shift fits in `int` and
  is truncated back to the register's width, as the model's bit-vector
  shifts are.
- Crc8.Crc8.TableLoop, Crc8.Crc8.DirectLoop and the TableByte, DirectByte
  and Rounds methods of Crc16 and Crc32 are inline loops in the source.
  The model lifts them into methods of their own. The same holds for
  CrcBase.CrcBase.TableLoop, DirectLoop and InputOf. The statements are
  the source's.
- CrcBase works only on widths that are a whole number of bytes, at
  least 8 (`ValidWidth`). The Python subclasses use 8, 16 and 32.
- CrcBase.CrcBase.Reflect takes a natural number. calculate only ever
  passes it the non-negative register.
- CrcBase models Python's `x & t` (t = 1 << (w - 1)) as a test of bit
  w - 1 (`Bit`), and `value & 0x1` as `value % 2`.
- The check values are proved for three presets (CRC-8, CRC-16/CCITT-FALSE
  and CRC-32), not for every preset of the catalogue.
