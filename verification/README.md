# A64 system-instruction intrinsics hook, in Dafny

A model of a Binary Ninja architecture hook for AArch64. The hook recognises six
Armv8-A system instructions the base lifter leaves alone: ISB, WFI, WFE, MSR
(register), MSR (immediate) and MRS. Their encodings belong to the System
instruction class of the A64 instruction set, section C5.1 of the Arm
Architecture Reference Manual (DDI 0487). The hook lowers each one to an opaque
intrinsic in the low-level IL. For the system-register moves it synthesizes one
register per entry of a curated registry of system registers. Register id
`0x4200 + key` stands for the register whose fields pack to `key`.

Modules, following the parts of `src/arm64_intrinsics.cpp`:

- `A64` (a64.dfy): the intrinsic ids 0x4141-0x4146, `MSR_BASE = 0x4200` and the
  X0 register id 34.
- `Hook` (a64.dfy): `Hooked<T>`, an answer the hook gives itself (`Own`) or a
  query forwarded unchanged to the base architecture (`Base`).
- `SysReg` (sysreg.dfy): the field extractors `SrOp0` ... `SrCn` and the key
  packer `StatusReg`, with its inverse `Unpack` and the word builder `Assemble`.
- `Registry` (registry.dfy): the registry as a `map<bv32, string>` parameter, and
  the membership test `ValidStatusReg`.
- `Decoder` (decoder.dfy): the little-endian word read and the first-match-wins
  cascade `Classify` / `DecodeIntrinsic`.
- `RegisterSpace` (registers.dfy): the register list overrides and the name and
  info queries.
- `Intrinsics` (intrinsics.dfy): the name, input and output tables.
- `Lifter` (lifter.dfy): `GetInstructionLowLevelIL`.

Words, keys, register ids and intrinsic ids are `bv32`, matching `uint32_t`.
Fields are `bv8`, matching `uint8_t`. So the wrap-around of `reg - MSR_BASE` and
of `MSR_BASE + key` is the bit-vector arithmetic itself. A buffer is a
`seq<bv8>`, and its length plays the role of the caller's `len`.

Behaviour the model keeps exactly as the code has it:

- The six tests are not disjoint. The MSR (immediate) test uses a mask equal
  to its pattern (0xD500401F), so it only asks that those bits be set. A
  registered MRS-class word with Rt = 31 and CRn bit 2 set (word bit 14)
  passes it before the MRS test is reached and classifies as MSR_IMM
  (`Decoder.MsrImmShadowsMrs`, src/arm64_intrinsics.cpp:89-100). The ensures
  of `Decoder.Classify` state every outcome with this precedence resolved.
- The lowering switch has no MSR_IMM case, so an MSR_IMM classification goes
  to the base lifter through `default` (`Lifter.ShadowedMrsDelegates`,
  src/arm64_intrinsics.cpp:261-301).
- The three register-list overrides walk the same unchanged registry map, so
  they append the same ids in the same order. The model takes that iteration
  order as a parameter shared by the three.
- The worked example is MRS X0, SCTLR_EL1 = 0xD5381000: fields
  (3, 0, 1, 0, 0), Rt 0, key 0xC080 (`Lifter.SctlrEl1Lifts`).

## Model

| member | source | states |
|---|---|---|
| SysReg.SrOp0 | src/arm64_intrinsics.cpp:29-31 | op0 is always 2 or 3, and it is 3 exactly when bit 19 of the word is set |
| SysReg.SrOp1 | src/arm64_intrinsics.cpp:33 | op1 is below 8 |
| SysReg.SrOp2 | src/arm64_intrinsics.cpp:35 | op2 is below 8 |
| SysReg.SrXt | src/arm64_intrinsics.cpp:37 | Xt is below 32 |
| SysReg.SrCm | src/arm64_intrinsics.cpp:39 | CRm is below 16 |
| SysReg.SrCn | src/arm64_intrinsics.cpp:41 | CRn is below 16 |
| SysReg.FieldsOf | src/arm64_intrinsics.cpp:29-41 | the fields of any word are in range, with op0 in {2, 3} |
| SysReg.StatusReg | src/arm64_intrinsics.cpp:43-46 | in-range fields give a 16-bit key; fields a word can encode give a key in [0x8000, 0xFFFF] |
| SysReg.Unpack | src/arm64_intrinsics.cpp:43-46 | splitting a key by the same bit positions always yields in-range fields |
| SysReg.UnpackStatusReg | src/arm64_intrinsics.cpp:43-46 | shifting and masking the key recovers every in-range field |
| SysReg.StatusRegUnpack | src/arm64_intrinsics.cpp:43-46 | every 16-bit key is the key of the fields it unpacks to |
| SysReg.StatusRegInjective | src/arm64_intrinsics.cpp:43-46 | two in-range field tuples are equal if and only if their keys are equal |
| SysReg.KeyRange | src/arm64_intrinsics.cpp:43-46 | an in-range key is at least 0x8000 exactly when its op0 is 2 or 3 |
| SysReg.KeyOf | src/arm64_intrinsics.cpp:85-86 | the key of a word's fields is bits 19:5 of the word with bit 15 set |
| SysReg.Assemble | src/arm64_intrinsics.cpp:29-41 | a word built from top bits, fields and Rt yields back those fields, that Rt and those top bits |
| SysReg.AssembleFieldsOf | src/arm64_intrinsics.cpp:29-41 | every word is rebuilt from its top twelve bits, fields and Rt, so the extractors lose nothing below bit 20 |
| SysReg.SctlrEl1Vector | src/arm64_intrinsics.cpp:29-46 | 0xD5381000 has fields (3, 0, 1, 0, 0), Xt 0 and key 0xC080 |
| Registry.ValidStatusReg | src/arm64_intrinsics.cpp:54-59 | in-range fields validate exactly when some registered 16-bit key unpacks to them (proved by `Registry.KeyRegisteredMeaning`) |
| Registry.KeyRegisteredMeaning | src/arm64_intrinsics.cpp:56-58 | the packed key of in-range fields is in the table exactly when some registered 16-bit key unpacks to those fields |
| Registry.StatusRegName | src/arm64_intrinsics.cpp:61 | the table's name for a key; its contract only requires the key to be present, as every call follows a successful lookup; `RegisterSpace.GetRegisterName` and `RegisterSpace.NameInfoAgree` pin the name as `msr[k]` |
| Decoder.WordOf | src/arm64_intrinsics.cpp:69 | byte i of the buffer is bits 8i+7:8i of the word (little-endian); `Decoder.BytesOf` and `Decoder.BytesOfWordOf` give its inverse in both directions |
| Decoder.BytesOf | src/arm64_intrinsics.cpp:69 | four bytes, least significant first, that read back as the given word |
| Decoder.BytesOfWordOf | src/arm64_intrinsics.cpp:69 | the word read from a buffer, split again, gives the buffer's first four bytes |
| Decoder.Classify | src/arm64_intrinsics.cpp:69-102 | the result is 0 or one of the six ids; ISB exactly when the word matches 0xD50330DF under mask 0xFFFFF0FF; WFI only for 0xD503207F; WFE only for 0xD503205F; MSR_REG exactly for top bits 0xD51 with a registered key; MSR_IMM exactly when the 0xD500401F bits are set, the key is registered and the word is not MSR-register class; MRS exactly for top bits 0xD53 with a registered key that fails the MSR_IMM test |
| Decoder.DecodeIntrinsic | src/arm64_intrinsics.cpp:64-67 | a buffer shorter than 4 bytes classifies as 0, and every result is 0 or one of the six ids |
| Decoder.DecodeBytesOf | src/arm64_intrinsics.cpp:64-69 | a buffer holding a word little-endian, with any trailing bytes, classifies as that word |
| Decoder.IsbAnyOption | src/arm64_intrinsics.cpp:71-74 | ISB is recognised whatever value its bits 11:8 hold |
| Decoder.SingleBitFlips | src/arm64_intrinsics.cpp:71-82 | flipping one bit of ISB outside bits 11:8, or any bit of WFI or WFE, loses that classification |
| Decoder.RegistryGates | src/arm64_intrinsics.cpp:84-100 | an unregistered key never yields MSR_REG, MSR_IMM or MRS, and an MSR-register or MRS class word with such a key classifies as 0 |
| Decoder.MembershipOnly | src/arm64_intrinsics.cpp:84-100 | two registries that agree on the word's key classify it alike |
| Decoder.MsrImmShadowsMrs | src/arm64_intrinsics.cpp:89-100 | a registered MRS-class word is MSR_IMM if and only if Rt is 31 and CRn bit 2 is set, and MRS otherwise |
| Decoder.SctlrEl1Classifies | src/arm64_intrinsics.cpp:64-100 | the bytes 00 10 38 D5 classify as MRS when key 0xC080 is registered |
| RegisterSpace.SystemRegisterInfo | src/arm64_intrinsics.cpp:146-151 | a synthesized register is its own full-width register at offset 0, 4 bytes wide, with no extension; `RegisterSpace.GetRegisterInfo` returns it for exactly the registered ids |
| RegisterSpace.RegisterOfKey | src/arm64_intrinsics.cpp:116 | subtracting MSR_BASE under wrap-around gives the key back, and a 16-bit key lands in the 64K ids from MSR_BASE up |
| RegisterSpace.KeyOfRegister | src/arm64_intrinsics.cpp:133 | the wrapped difference `reg - MSR_BASE` is the key whose register id is `reg` |
| RegisterSpace.KeyOfRegisterOfKey | src/arm64_intrinsics.cpp:116 | a key's register id, less MSR_BASE, is the key again, under wrap-around |
| RegisterSpace.OnlyKeyOfRegister | src/arm64_intrinsics.cpp:133 | a register id stands for exactly one key |
| RegisterSpace.GetRegisterName | src/arm64_intrinsics.cpp:132-140 | the hook names an id exactly when it is the register of some registry entry, with that entry's name; any other id is forwarded unchanged |
| RegisterSpace.GetRegisterInfo | src/arm64_intrinsics.cpp:142-157 | the hook describes exactly the registers of registry entries, as full width = itself, offset 0, size 4, no extension; any other id is forwarded unchanged |
| RegisterSpace.DistinctCardinality | src/arm64_intrinsics.cpp:115 | a sequence of keys without repeats has as many elements as its set |
| RegisterSpace.IterationOrderLength | src/arm64_intrinsics.cpp:115 | an order visiting every registry key exactly once is as long as the registry |
| RegisterSpace.SynthesizedRegisters | src/arm64_intrinsics.cpp:115-117 | for a registry iteration order, the i-th id is `MSR_BASE` plus the i-th key; one id per registry entry, each for a registered key, every registered key present, no id twice |
| RegisterSpace.AppendSynthesized | src/arm64_intrinsics.cpp:113-119 | the base list is kept as a prefix, followed by the synthesized ids in iteration order, each of which the name and info queries answer |
| RegisterSpace.GetAllRegisters | src/arm64_intrinsics.cpp:112-120 | the base architecture's registers, then `MSR_BASE + k` for each key k in iteration order, each resolving in name and info |
| RegisterSpace.GetSystemRegisters | src/arm64_intrinsics.cpp:122-130 | the base system registers, then the same synthesized ids in the same iteration order, each resolving in name and info |
| RegisterSpace.GetFullWidthRegisters | src/arm64_intrinsics.cpp:159-167 | the base full-width registers, then the same synthesized ids in the same iteration order, each resolving in name and info |
| RegisterSpace.NameInfoAgree | src/arm64_intrinsics.cpp:132-157 | for a registered key k, id `MSR_BASE + k` is named `msr[k]` and described as the 4-byte full-width slot of itself |
| RegisterSpace.BaseRegistersNotShadowed | src/arm64_intrinsics.cpp:132-157 | with 16-bit registry keys, every id below MSR_BASE, including the X registers, is forwarded to the base architecture |
| Intrinsics.GetIntrinsicName | src/arm64_intrinsics.cpp:173-191 | the hook names exactly its six ids; any other id is forwarded unchanged |
| Intrinsics.GetAllIntrinsics | src/arm64_intrinsics.cpp:193-204 | the base list is kept as a prefix, followed by exactly the hook's six ids in the order ISB, WFE, WFI, MSR_IMM, MSR_REG, MRS |
| Intrinsics.GetIntrinsicInputs | src/arm64_intrinsics.cpp:217-236 | the hook types the inputs of exactly its six ids, all unsigned; any other id is forwarded unchanged |
| Intrinsics.GetIntrinsicOutputs | src/arm64_intrinsics.cpp:238-257 | the hook types the outputs of exactly its six ids, all unsigned; any other id is forwarded unchanged |
| Intrinsics.NamesTellApartAllButWrites | src/arm64_intrinsics.cpp:173-188 | two distinct ids of the hook share a name only if they are MSR_IMM and MSR_REG (`_WriteStatusReg`) |
| Intrinsics.WritesDifferInInput | src/arm64_intrinsics.cpp:225-228 | MSR_IMM and MSR_REG differ in their input signature |
| Lifter.GprOf | src/arm64_intrinsics.cpp:282 | the id of X register n is 34 + n, so the 32 indices map to the 32 ids from 34 up; `Lifter.MrsRoundTrip` and `Lifter.MsrRegRoundTrip` pin it as the emitted X operand |
| Lifter.GetInstructionLowLevelIL | src/arm64_intrinsics.cpp:259-306 | the instruction is forwarded exactly when it classifies as 0 or MSR_IMM; otherwise one call of the classified intrinsic is emitted with length 4, and only for a buffer of at least 4 bytes |
| Lifter.EmittedMatchesCatalog | src/arm64_intrinsics.cpp:217-297 | every emitted call has as many outputs and inputs as the catalog lists for its id; every input is read at the width of its input type; the MRS output type is as wide as the 8-byte X-register read, and the MSR (register) output type as wide as the 4-byte system register it writes |
| Lifter.CatalogSignatures | src/arm64_intrinsics.cpp:217-257 | ISB, WFI and WFE take and give nothing; MSR_IMM and MSR_REG both give one unsigned value as wide as a system register (4 bytes); MSR_IMM takes a 4-byte value, MSR_REG an 8-byte X register; MRS takes a 4-byte system register and gives an 8-byte value |
| Lifter.EmittedSystemRegistersExist | src/arm64_intrinsics.cpp:271-297 | the system register an emitted MSR writes or MRS reads is named and described by the register space, as a 4-byte slot matching the MSR output type and the MRS read width |
| Lifter.LiftsWord | src/arm64_intrinsics.cpp:271-297 | an MRS word lifts to a write of X(34 + Rt) from a 4-byte read of `MSR_BASE + key`; an MSR-register word lifts to a write of `MSR_BASE + key` from an 8-byte read of X(34 + Rt) |
| Lifter.MrsRoundTrip | src/arm64_intrinsics.cpp:285-297 | the MRS word built from registered fields and index n, not shadowed by the MSR_IMM test, lifts to output register 34 + n and input `MSR_BASE + key` read at 4 bytes |
| Lifter.MsrRegRoundTrip | src/arm64_intrinsics.cpp:271-284 | the MSR-register word built from registered fields and index n lifts to output `MSR_BASE + key` and input register 34 + n read at 8 bytes |
| Lifter.UnregisteredDelegates | src/arm64_intrinsics.cpp:298-301 | an MSR-register or MRS class word whose key is not registered goes to the base lifter |
| Lifter.ShadowedMrsDelegates | src/arm64_intrinsics.cpp:261-301 | a shadowed MRS-class word classifies as MSR_IMM and, lacking a lowering case, goes to the base lifter |
| Lifter.IsbLifts | src/arm64_intrinsics.cpp:262-264 | every ISB word, whatever its option bits, lifts to one ISB call without operands, length 4 |
| Lifter.ShortBufferDelegates | src/arm64_intrinsics.cpp:259-301 | a buffer shorter than 4 bytes goes to the base lifter |
| Lifter.SctlrEl1Lifts | src/arm64_intrinsics.cpp:285-297 | MRS X0, SCTLR_EL1 lifts to output register 34 and a 4-byte read of register 0x10280 |

## Left out

- The base architecture's own answers (register lists, names, info, intrinsic
  tables, lifting). They are outside this model. A forwarded query is the
  outcome `Base(id)` and a forwarded instruction is `Delegated`.
- The Binary Ninja object model (`LowLevelILFunction`, `Type`, `NameAndType`,
  `Confidence`, `RegisterOrFlag`). Emitted IL is the datatype `IntrinsicIL` of
  output register ids, intrinsic id and sized register reads. Types are
  `IntType(width, signed)`, without confidence or names.
- The contents of the registry, from the generated header `msr.h`. msr.h is not
  part of this model, so the registry is a `map<bv32, string>` parameter.
- Which order iterating the registry map yields. It is a parameter, required
  only to visit every key exactly once, and the three list overrides share it.
- The native-endian, unaligned pointer read of the instruction word. The model
  fixes little-endian byte order.
- `StatusRegName` looks up with `operator[]`, which would insert an entry for a
  missing key. It is only ever called after a successful lookup, so the model
  requires the key to be present.
- The `addr` argument of the lowering, which the hook only passes on.
- Plugin registration and the dependency on the base arm64 plugin. They are host
  plumbing.
