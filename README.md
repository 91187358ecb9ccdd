# RISC-V PMP register model (riscv_em)

A Dafny model of the Physical Memory Protection unit of the riscv_em
emulator. It covers the behaviour that `src/core/pmp/unit_tests.c` fixes:

- **Register store (`pmp_td`).** There are 16 entries. Their 8-bit
  configuration fields are packed little-endian into two 64-bit `pmpcfg`
  registers, and each entry has one 64-bit `pmpaddr` register.
- **Test helpers.** These set the L, X, W and R flags, OR a mode into field A,
  and store NAPOT or NA4/TOR address encodings.
- **CSR codec.** Machine-mode `pmp_write_csr_cfg` / `pmp_write_csr_addr` are
  gated by the L bit byte by byte. `pmp_read_csr_cfg` / `pmp_read_csr_addr`
  return the stored values.
- **Supervisor verdict of `pmp_mem_check`.** Entries are scanned lowest index
  first. OFF never matches. NA4 selects 4 bytes. NAPOT selects the
  power-of-two block its field encodes. TOR selects
  `[addr[i-1] << 2, addr[i] << 2)`, with lower bound 0 at entry 0. The
  access is granted when some entry matches and refused otherwise.
- **The seven unit tests.** Each test is a method whose postconditions are
  the test's assertions.

The modules follow the layers of the unit:

- `Words` (words.dfy) holds bytes, 64-bit words, wrap-around arithmetic and
  the little-endian pack/unpack pair.
- `PmpConfig` (pmp_config.dfy) holds the bit fields of one configuration
  byte, the helpers' bit updates on it, and the lock-gated merge of a
  configuration register.
- `PmpMatch` (pmp_match.dfy) holds the region of each mode, the NAPOT
  encoding and decoding, and the first-match scan with the supervisor verdict.
- `PmpRegisters` (pmp_registers.dfy) holds the class `Pmp`, which is the
  store with its setters, CSR operations and the `pmp_mem_check` loop.
- `PmpUnitTests` (pmp_unit_tests.dfy) holds the seven tests.

The store is a class with two arrays:

- `cfg` holds the sixteen configuration bytes in memory order. This is how
  the helpers reach them through their `uint8_t *` pointer.
- `addr` holds the address registers.

`CfgWord(g)` packs bytes 8g .. 8g+7 into configuration register g. The C code
reinterprets memory through the pointer; the model uses this explicit
pack/unpack pair instead.

The implementation file `pmp.c` is not part of this model. The behaviour of
the four CSR operations and of `pmp_mem_check` is reconstructed from two
sources:

- the assertions of the tests;
- section 3.7 ("Physical Memory Protection") of the RISC-V Privileged
  Architecture, whose section 3.7.1 gives the CSR formats and the NAPOT
  encoding.

Two facts the tests fix are worth stating, because a reader might expect
otherwise:

- **Field A is bits 3–4.** The helpers shift the mode by
  `PMP_CFG_A_BIT_OFFS` (unit_tests.c:22), and the lock-bit test expects
  A = NA4 with X set to read 0x14 (unit_tests.c:88). A = TOR alone reads 0x08
  (unit_tests.c:271). Both place A in bits 3–4, so bits 5–6 are reserved.
- **A matching supervisor access is granted with no R/W/X bit set.** The
  NAPOT, NA4 and TOR tests set only field A, never R, W or X, yet they
  expect `RV_ACCESS_OK` inside the region (unit_tests.c:121-137, 145-161,
  169-191, 201-222, 230-251). The model's supervisor verdict is therefore
  "OK exactly when some entry matches".

## Model

| member | source | states |
|---|---|---|
| Words.Add64 | src/core/pmp/unit_tests.c:45-47 | unsigned 64-bit addition as C performs it: the exact sum when it fits, the sum minus 2^64 otherwise |
| Words.Sub64 | src/core/pmp/unit_tests.c:45 | unsigned 64-bit subtraction: the exact difference when it is not negative, the difference plus 2^64 otherwise (`size/2 - 1` for size 0 or 1) |
| Words.Pack | src/core/pmp/unit_tests.c:15-16 | the little-endian value of a byte sequence, bs[0] least significant, is below 256^n for n bytes; inverse of Unpack by UnpackPack and PackUnpack |
| Words.Unpack | src/core/pmp/unit_tests.c:15-16 | splitting a number into n bytes yields exactly n bytes, least significant first; inverse of Pack by UnpackPack and PackUnpack |
| Words.BytesOf | src/core/pmp/unit_tests.c:87-88 | a 64-bit register has exactly eight bytes; inverse of WordOf by WordOf's ensures and WordOfBytesOf, and injective by BytesOfInjective |
| Words.UnpackPack | src/core/pmp/unit_tests.c:15-16 | reading a byte sequence as a little-endian number and splitting it back gives the same bytes |
| Words.PackUnpack | src/core/pmp/unit_tests.c:15-16 | splitting a number below 256^n into n bytes and repacking gives the number back |
| Words.WordOf | src/core/pmp/unit_tests.c:87-88 | the word built from eight bytes has exactly those bytes, least significant first |
| Words.WordOfBytesOf | src/core/pmp/unit_tests.c:87-88 | a register rebuilt from its own eight bytes is the register itself |
| Words.BytesOfInjective | src/core/pmp/unit_tests.c:274-275 | two registers with the same bytes are equal |
| PmpConfig.ModeCode | src/core/pmp/unit_tests.c:19-23 | the `pmp_addr_matching` codes OR-ed in at line 22: OFF 0, TOR 1, NA4 2, NAPOT 3, each below 4; injective and inverted by ModeOfCode, and with the shift by 3 they give the 0x14 of line 88 and the 0x08 of line 271 (Na4ExecCfgByte, TorCfgByte) |
| PmpConfig.ModeOfCode | src/core/pmp/unit_tests.c:19-23 | the 2-bit code of field A and the mode enumeration are inverse |
| PmpConfig.EncodeCfg | src/core/pmp/unit_tests.c:13-41 | no ensures of its own; specified by DecodeEncode and EncodeDecode: it places R at bit 0, W at 1, X at 2, A at 3–4, reserved at 5–6 and L at 7, and is a bijection with DecodeCfg |
| PmpConfig.DecodeCfg | src/core/pmp/unit_tests.c:13-41 | no ensures of its own (the reserved field is 2 bits by its type); specified by DecodeEncode and EncodeDecode as the inverse of EncodeCfg |
| PmpConfig.DecodeEncode | src/core/pmp/unit_tests.c:13-41 | a configuration record with R at bit 0, W at 1, X at 2, A at 3–4, reserved bits 5–6 and L at 7, encoded and decoded, is the same record |
| PmpConfig.EncodeDecode | src/core/pmp/unit_tests.c:13-41 | every byte is the encoding of its decoded fields, so the layout covers all 256 values |
| PmpConfig.LockedIsL | src/core/pmp/unit_tests.c:13-17 | a byte is locked exactly when its decoded L field (bit 7) is set |
| PmpConfig.Locked | src/core/pmp/unit_tests.c:13-17 | no ensures of its own; specified by LockedIsL: a byte is locked exactly when bit 7 (L) is set |
| PmpConfig.ModeOfIsA | src/core/pmp/unit_tests.c:19-23 | the mode read from bits 3–4 is the decoded A field |
| PmpConfig.ModeOf | src/core/pmp/unit_tests.c:19-23 | no ensures of its own; specified by ModeOfIsA: the mode is the decoded field A, bits 3–4 |
| PmpConfig.HasFlagIsFlagOf | src/core/pmp/unit_tests.c:13-41 | the flag's bit is set in the byte exactly when the flag is set in the decoded record |
| PmpConfig.HasFlag | src/core/pmp/unit_tests.c:13-41 | no ensures of its own; specified by HasFlagIsFlagOf: the flag's bit is set exactly when the decoded record has the flag |
| PmpConfig.FlagMask | src/core/pmp/unit_tests.c:13-41 | the SET_BIT masks of PMP_CFG_R/W/X/L_BIT at lines 16, 28, 34 and 40 (1, 2, 4 and 128), each at least 1; HasFlagIsFlagOf ties each mask to its decoded flag and SetFlagDecodes shows that adding it sets that flag alone |
| PmpConfig.SetFlag | src/core/pmp/unit_tests.c:13-41 | SET_BIT of one flag bit (lines 16, 28, 34, 40); no ensures of its own, specified by SetFlagSets and SetFlagDecodes: the flag becomes set and no other field changes |
| PmpConfig.SetFlagBound | src/core/pmp/unit_tests.c:16 | setting a clear bit keeps the byte below 0x100 |
| PmpConfig.SetFlagSets | src/core/pmp/unit_tests.c:13-41 | after SET_BIT the flag's bit is set, and setting a bit that is already set changes nothing |
| PmpConfig.SetFlagDecodes | src/core/pmp/unit_tests.c:13-41 | decoded, SET_BIT sets that one flag and leaves every other field, A and the reserved bits included, unchanged |
| PmpConfig.EncodeWithFlag | src/core/pmp/unit_tests.c:16 | setting a clear flag in a record adds that flag's bit value to its encoding |
| PmpConfig.Or2 | src/core/pmp/unit_tests.c:22 | the bitwise OR of two 2-bit values is a 2-bit value |
| PmpConfig.OrModeMode | src/core/pmp/unit_tests.c:19-23 | after `cfg |= mode << 3`, field A holds the bitwise OR of its old code and the mode's code |
| PmpConfig.OrMode | src/core/pmp/unit_tests.c:19-23 | `cfg |= mode << PMP_CFG_A_BIT_OFFS` (line 22); no ensures of its own, specified by OrModeMode, OrModeDecodes and OrModeOff: field A becomes the OR of the old and new codes and nothing else changes |
| PmpConfig.OrModeDecodes | src/core/pmp/unit_tests.c:19-23 | decoded, OR-ing a mode into field A changes field A alone |
| PmpConfig.OrModeOff | src/core/pmp/unit_tests.c:201-202 | OR-ing OFF leaves the byte unchanged, and OR-ing any mode into an OFF field sets the field to that mode |
| PmpConfig.ZeroCfgByte | src/core/pmp/unit_tests.c:62-66 | a zeroed byte is an unlocked OFF entry with every flag clear |
| PmpConfig.Na4CfgByte | src/core/pmp/unit_tests.c:145 | A = NA4 on a zero byte is 0x10: NA4 mode, unlocked |
| PmpConfig.Na4ExecCfgByte | src/core/pmp/unit_tests.c:84-88 | A = NA4 plus X on a zero byte is 0x14 |
| PmpConfig.LockCfgByte | src/core/pmp/unit_tests.c:91-102 | L on a zero byte is 0x80, and 0x80 is locked |
| PmpConfig.TorCfgByte | src/core/pmp/unit_tests.c:169-170 | A = TOR on a zero byte is 0x08: TOR mode, unlocked |
| PmpConfig.NapotCfgByte | src/core/pmp/unit_tests.c:121 | A = NAPOT on a zero byte is 0x18: NAPOT mode, unlocked |
| PmpConfig.LockedMerge | src/core/pmp/unit_tests.c:96-102 | a group write keeps every locked byte and takes the incoming byte at every unlocked position |
| PmpConfig.WriteCfgWord | src/core/pmp/unit_tests.c:96-102 | the register after a machine-mode write has each locked byte of the old register and each unlocked position of the written value |
| PmpConfig.WriteCfgWordOfBytes | src/core/pmp/unit_tests.c:96-102 | any eight bytes that follow the lock rule position by position pack to WriteCfgWord of the old register |
| PmpConfig.WriteCfgUnlocked | src/core/pmp/unit_tests.c:261-275 | with no byte of the group locked, the register reads back exactly as written |
| PmpConfig.WriteCfgKeepsLocks | src/core/pmp/unit_tests.c:96-102 | a locked byte stays locked and unchanged through any write |
| PmpConfig.WriteCfgIdempotent | src/core/pmp/unit_tests.c:96 | writing the same value twice has the effect of writing it once |
| PmpMatch.Pow2 | src/core/pmp/unit_tests.c:43-47 | powers of two are positive |
| PmpMatch.NapotUnits | src/core/pmp/unit_tests.c:43-47 | a NAPOT field decodes to a block of at least two 4-byte units, i.e. at least 8 bytes |
| PmpMatch.LowZerosOfMultiple | src/core/pmp/unit_tests.c:43-47 | a multiple of 2^n has n low zero bits |
| PmpMatch.NapotUnitsOfOnes | src/core/pmp/unit_tests.c:43-47 | an aligned base with j trailing one bits added decodes to the 2^(j+1)-unit block at that base |
| PmpMatch.Pow2AddrBits | src/core/pmp/unit_tests.c:43 | 2^64 is the 64-bit word modulus |
| PmpMatch.NapotRoundTrip | src/core/pmp/unit_tests.c:43-48 | for every aligned power-of-two region of at least 8 bytes that fits in 64 bits, decoding the field `(base + size/2 - 1) >> 2` gives exactly [base, base + size) |
| PmpMatch.NapotEncode | src/core/pmp/unit_tests.c:45-47 | `(base + size/2 - 1) >> 2` in 64-bit unsigned arithmetic; no ensures of its own, specified by NapotRoundTrip: it decodes back to exactly [base, base + size) for every aligned power-of-two region of at least 8 bytes |
| PmpMatch.NapotRegion | src/core/pmp/unit_tests.c:121-137 | the byte range a NAPOT field selects (lowest-zero-bit decoding); no ensures of its own, specified by NapotUnitsOfOnes, NapotRoundTrip and NapotAllOnes |
| PmpMatch.NapotAllOnes | src/core/pmp/unit_tests.c:43-48 | the all-ones NAPOT field selects every 64-bit address |
| PmpMatch.FirstMatchFrom | src/core/pmp/unit_tests.c:127-137 | the scan from an index returns the lowest matching entry at or above it, or none when no entry there matches |
| PmpMatch.EntryRegion | src/core/pmp/unit_tests.c:116-252 | the region entry i selects in each mode; no ensures of its own, specified by OffNeverMatches (OFF: none), Na4Region (4 bytes), NapotEntryRegion (the encoded block), TorFirstEntry (lower bound 0) and TorChained (lower bound from entry i-1) |
| PmpMatch.EntryMatches | src/core/pmp/unit_tests.c:116-252 | whether entry i's region holds the address; specified by the same five lemmas, each an if-and-only-if on the address |
| PmpMatch.FirstMatch | src/core/pmp/unit_tests.c:127-137 | the lowest-index matching entry; no ensures of its own, specified by FirstMatchIsLowest and the ensures of FirstMatchFrom |
| PmpMatch.SupervisorCheck | src/core/pmp/unit_tests.c:127-137 | the supervisor-mode verdict of pmp_mem_check; no ensures of its own, specified by SupervisorCheckAnyMatch (OK exactly when some entry matches) and SoleEntryDecides |
| PmpMatch.FirstMatchIsLowest | src/core/pmp/unit_tests.c:127-137 | priority: the scan reports entry i exactly when i matches and no lower-index entry does |
| PmpMatch.SupervisorCheckAnyMatch | src/core/pmp/unit_tests.c:127-137 | the supervisor verdict is OK exactly when some entry's region holds the address |
| PmpMatch.OffNeverMatches | src/core/pmp/unit_tests.c:201-222 | an OFF entry matches no address |
| PmpMatch.SoleEntryDecides | src/core/pmp/unit_tests.c:121-137 | when every other entry is OFF, the verdict is OK exactly when entry i matches |
| PmpMatch.Na4Region | src/core/pmp/unit_tests.c:145-161 | an NA4 entry holding base >> 2 for a 4-aligned base matches exactly [base, base + 4) |
| PmpMatch.NapotEntryRegion | src/core/pmp/unit_tests.c:121-137 | a NAPOT entry holding the helper's encoding of an aligned power-of-two region matches exactly that region |
| PmpMatch.TorFirstEntry | src/core/pmp/unit_tests.c:169-191 | TOR on entry 0 matches exactly the addresses below addr[0] << 2 |
| PmpMatch.TorChained | src/core/pmp/unit_tests.c:201-251 | TOR on entry k+1 matches exactly [addr[k] << 2, addr[k+1] << 2), whatever entry k's mode and whatever k |
| PmpRegisters.WriteCfgBytes | src/core/pmp/unit_tests.c:96 | the sixteen configuration bytes after writing register g are still sixteen bytes |
| PmpRegisters.WriteCfgBytesAt | src/core/pmp/unit_tests.c:96-102 | after writing register g, an entry outside group g or locked keeps its byte, and every other entry takes its byte of the written value |
| PmpRegisters.WriteCfgBytesPointwise | src/core/pmp/unit_tests.c:96-102 | any sixteen bytes that follow the lock rule entry by entry are the bytes WriteCfgBytes describes |
| PmpRegisters.WriteCfgBytesWord | src/core/pmp/unit_tests.c:96-102 | read as a register, group g after the write is the lock-gated merge WriteCfgWord of its old value and the written value |
| PmpRegisters.Pmp.CfgWord | src/core/pmp/unit_tests.c:87-99 | configuration register g's bytes are entries 8g .. 8g+7, least significant first: entry 11 is byte 3 of register 1 |
| PmpRegisters.Pmp.constructor | src/core/pmp/unit_tests.c:59-66 | a fresh store, as setUp leaves it, has every configuration byte and address register zero |
| PmpRegisters.Pmp.SetLFlag | src/core/pmp/unit_tests.c:13-17 | sets L in entry i's byte; nothing else changes |
| PmpRegisters.Pmp.SetXFlag | src/core/pmp/unit_tests.c:25-29 | sets X in entry i's byte; nothing else changes |
| PmpRegisters.Pmp.SetWFlag | src/core/pmp/unit_tests.c:31-35 | sets W in entry i's byte; nothing else changes |
| PmpRegisters.Pmp.SetRFlag | src/core/pmp/unit_tests.c:37-41 | sets R in entry i's byte; nothing else changes |
| PmpRegisters.Pmp.SetAMode | src/core/pmp/unit_tests.c:19-23 | ORs the mode into field A of entry i's byte; nothing else changes |
| PmpRegisters.Pmp.SetNapotAddr | src/core/pmp/unit_tests.c:43-51 | stores the NAPOT encoding of (base, size) in addr[i]; nothing else changes |
| PmpRegisters.Pmp.SetNa4TorAddr | src/core/pmp/unit_tests.c:53-56 | stores base >> 2 in addr[i]; nothing else changes |
| PmpRegisters.Pmp.WriteCsrCfg | src/core/pmp/unit_tests.c:96-102 | the machine-mode write of register g gives the bytes WriteCfgBytes describes. As a register, g becomes the lock-gated merge of its old value and the written value. The other group is untouched |
| PmpRegisters.Pmp.ReadCsrCfg | src/core/pmp/unit_tests.c:273-275 | returns register g as stored, whatever the locks: the word whose bytes are entries 8g .. 8g+7 |
| PmpRegisters.Pmp.WriteCsrAddr | src/core/pmp/unit_tests.c:107-113 | a write to a locked entry's address register is discarded; an unlocked one stores the value verbatim; no other register changes |
| PmpRegisters.Pmp.ReadCsrAddr | src/core/pmp/unit_tests.c:277-281 | returns the stored address register, whatever the lock |
| PmpRegisters.Pmp.SupervisorMemCheck | src/core/pmp/unit_tests.c:127-137 | the loop over the entries returns the supervisor verdict of the store: OK exactly when the lowest-index scan finds a matching entry |
| PmpUnitTests.LockBitTemplate | src/core/pmp/unit_tests.c:84-88 | the helpers give entry 11 the byte 0x14 and leave every other byte zero |
| PmpUnitTests.LockBit | src/core/pmp/unit_tests.c:72-114 | test_PMP_lock_bit: the template's byte is 0x14. The locked entry 11 keeps 0x80 through the register write, and its address register stays 0. The unlocked entry 10 takes 0x1234 |
| PmpUnitTests.SoleEntryVerdicts | src/core/pmp/unit_tests.c:121-137 | with every other entry OFF, every address gets entry i's verdict |
| PmpUnitTests.OthersOff | src/core/pmp/unit_tests.c:62-66 | entries a test leaves at their zeroed byte are OFF |
| PmpUnitTests.NapotStore | src/core/pmp/unit_tests.c:121-122 | the configured store has entry 0 NAPOT (0x18) with field 0x100001FF; the rest is zero |
| PmpUnitTests.NapotVerdicts | src/core/pmp/unit_tests.c:121-137 | under that store an address is granted exactly when it lies in [0x40000000, 0x40001000) |
| PmpUnitTests.NapotMemcheck | src/core/pmp/unit_tests.c:116-138 | test_PMP_napot_memcheck: the field is 0x100001FF; OK at 0x40000000 and 0x40000fff; ERR at 0x3fffffff and 0x40001000 |
| PmpUnitTests.Na4Store | src/core/pmp/unit_tests.c:145-146 | the configured store has entry 0 NA4 (0x10) holding 0x10000000; the rest is zero |
| PmpUnitTests.Na4Verdicts | src/core/pmp/unit_tests.c:145-161 | under that store an address is granted exactly when it lies in [0x40000000, 0x40000004) |
| PmpUnitTests.Na4Memcheck | src/core/pmp/unit_tests.c:140-162 | test_PMP_na4_memcheck: OK at 0x40000000 and 0x40000003; ERR at 0x3fffffff and 0x40000004 |
| PmpUnitTests.TorFirstStore | src/core/pmp/unit_tests.c:169-170 | the configured store has entry 0 TOR (0x08) holding 0x20021C00; the rest is zero |
| PmpUnitTests.TorFirstVerdicts | src/core/pmp/unit_tests.c:169-191 | under that store an address is granted exactly when it lies below 0x80087000 |
| PmpUnitTests.TorFirstEntryMemcheck | src/core/pmp/unit_tests.c:164-194 | test_PMP_tor_first_entry_memcheck: OK at 0x0, 0x80086FFF, 0x40000000 and 0x80080000; ERR at 0x80087000 |
| PmpUnitTests.TorPairModes | src/core/pmp/unit_tests.c:201-202 | A = OFF leaves entry k's zero byte alone; A = TOR makes entry k+1's byte 0x08 |
| PmpUnitTests.TorPairStore | src/core/pmp/unit_tests.c:201-204 | the configured store has entry k+1 TOR (0x08); entry k holds 0x10000000 and entry k+1 holds 0x20000000; the rest is zero |
| PmpUnitTests.TorPairVerdicts | src/core/pmp/unit_tests.c:201-251 | under that store an address is granted exactly when it lies in [0x40000000, 0x80000000), for any k |
| PmpUnitTests.TorPairMemcheck | src/core/pmp/unit_tests.c:201-251 | OK at 0x40000000 and 0x7fffffff; ERR at 0x3fffffff and 0x80000000, for any k |
| PmpUnitTests.TorMemcheck | src/core/pmp/unit_tests.c:196-223 | test_PMP_tor_memcheck: that verdict list with k = 0 |
| PmpUnitTests.TorHigherCfgMemcheck | src/core/pmp/unit_tests.c:225-252 | test_PMP_tor_higher_cfg_memcheck: that verdict list with k = 5 |
| PmpUnitTests.Group0Packing | src/core/pmp/unit_tests.c:271-275 | 0x0008000000000000 has the bytes of a group whose only non-zero byte is 0x08 at entry 6 (bits 48–55) |
| PmpUnitTests.ReadWriteCfgStore | src/core/pmp/unit_tests.c:261 | on a zeroed store, register 0 reads back as the written word |
| PmpUnitTests.ReadWriteStore | src/core/pmp/unit_tests.c:261-263 | after the three machine-mode writes, register 0 reads back as the written word, entry 6's byte is 0x08, and address registers 5 and 6 hold the written values |
| PmpUnitTests.ReadWriteCsr | src/core/pmp/unit_tests.c:254-282 | test_PMP_read_write_csr: entry 6's byte is 0x08; register 0 reads 0x0008000000000000; address registers 5 and 6 read 0x10000000 and 0x20000000 |

## Left out

- `pmp_dump_cfg_regs` (unit_tests.c:105, 268) only prints the registers, so
  it is not modelled.
- The Unity harness is not modelled: `UnityBegin`, `RUN_TEST`,
  `TEST_ASSERT_*`, `main` and `tearDown`. Each assertion is a postcondition
  of the method that models its test.
- `pmp.c` is not part of this model. `pmp_write_csr_cfg`,
  `pmp_read_csr_cfg`, `pmp_write_csr_addr`, `pmp_read_csr_addr` and
  `pmp_mem_check` are modelled from the tests and from section 3.7 of the
  RISC-V Privileged Architecture.
- The privilege argument of the CSR operations is not a parameter.
  WriteCsrCfg, WriteCsrAddr, ReadCsrCfg and ReadCsrAddr are the
  machine-mode behaviour, which is the only privilege the tests pass. What a
  write at a lower privilege does is not fixed by any test.
- SupervisorMemCheck: only the supervisor-mode verdict is modelled. The
  machine- and user-mode verdicts are not modelled, and neither is R/W/X
  enforcement; no test fixes them, and the tests grant supervisor access to
  entries with no permission bit. The access type is not a parameter.
- WriteCsrAddr: locking a TOR entry i+1 also protects `addr[i]` under
  section 3.7.1. This rule is not modelled, because no test exercises it:
  only the entry's own L bit gates the write.
- WriteCsrCfg: bits 5–6 of an unlocked byte are stored verbatim like the
  other bits. No test writes those bits, so what `pmp_write_csr_cfg` does
  with them is not fixed here, and EncodeCfg/DecodeCfg carry them through
  unchanged.
- WriteCsrCfg, ReadCsrCfg, WriteCsrAddr, ReadCsrAddr and the setters
  require an in-range index (`g < CfgWords`, `i < Entries`). The C helpers take an
  `unsigned int` index (unit_tests.c:13-56) and the CSR functions an integer
  index, so they accept any value; what they do out of range is not fixed by
  the tests. The status value the C CSR functions return is
  dropped too: no test inspects it. Both are out of scope.
- The 32-bit XLEN variant (four configuration bytes per register, 34-bit
  physical addresses) is not modelled. The tests fix 64-bit registers
  (unit_tests.c:275).
- EntryRegion: region bounds (`addr << 2`, NAPOT base plus size) are
  computed on unbounded integers, and no 64-bit wrap-around is modelled for
  them. The NAPOT setter's own arithmetic (NapotEncode) does wrap explicitly.
- Pmp: the `uint8_t *` alias over the `cfg` words is not modelled as memory
  reinterpretation. The store holds the sixteen bytes, and `CfgWord` packs
  them little-endian into registers, so there is no aliasing between
  `cfg` and `addr`.
- The globals `real_pmp` / `tmp_pmp` and `setUp`'s `memset` are modelled as
  freshly constructed zeroed stores at the start of each test method.
