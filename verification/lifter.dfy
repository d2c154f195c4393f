/** The lowerer: lifts a classified instruction to one intrinsic call in the
    low-level IL, or hands the whole instruction to the base architecture. */
module Lifter {
  import opened A64
  import opened Hook
  import opened SysReg
  import opened Registry
  import opened Decoder
  import opened RegisterSpace
  import opened Intrinsics

  /** A read of `size` bytes from register `reg`. */
  datatype RegRead = RegRead(size: nat, reg: bv32)

  /** An intrinsic call: the registers it writes, its id, and the values it reads. */
  datatype IntrinsicIL = IntrinsicIL(outputs: seq<bv32>, intrinsic: bv32, inputs: seq<RegRead>)

  /** The outcome: one IL instruction and the consumed length, with the hook
      reporting success, or the base architecture's lifting (its IL, length
      and status are outside this model). */
  datatype Lifted = Emitted(il: IntrinsicIL, len: nat) | Delegated

  /** The general-purpose register with index `xt`: the 32 ids from
      GPR_BASE up hold X0 ... X30 and index 31. */
  function GprOf(xt: bv8): (reg: bv32)
    ensures reg - GPR_BASE == xt as bv32
    ensures xt < 32 ==> GPR_BASE <= reg < GPR_BASE + 32
  {
    GPR_BASE + (xt as bv32)
  }

  function GetInstructionLowLevelIL(data: seq<bv8>, msr: Registry): (r: Lifted)
    ensures r.Delegated? <==>
              DecodeIntrinsic(data, msr) == NO_INTRINSIC || DecodeIntrinsic(data, msr) == MSR_IMM
    ensures r.Emitted? ==> r.len == 4 && r.il.intrinsic == DecodeIntrinsic(data, msr)
    ensures r.Emitted? ==> 4 <= |data|
  {
    match DecodeIntrinsic(data, msr)
    case ISB => Emitted(IntrinsicIL([], ISB, []), 4)
    case WFI => Emitted(IntrinsicIL([], WFI, []), 4)
    case WFE => Emitted(IntrinsicIL([], WFE, []), 4)
    case MSR_REG =>
      var ins := WordOf(data);
      Emitted(IntrinsicIL([RegisterOfKey(StatusReg(FieldsOf(ins)))], MSR_REG,
                          [RegRead(X_WIDTH, GprOf(SrXt(ins)))]), 4)
    case MRS =>
      var ins := WordOf(data);
      Emitted(IntrinsicIL([GprOf(SrXt(ins))], MRS,
                          [RegRead(4, RegisterOfKey(StatusReg(FieldsOf(ins))))]), 4)
    case _ => Delegated
  }

  /** Every emitted call matches the catalog: as many outputs and inputs as
      its signature lists, each input read as wide as its input type, and
      each output typed as wide as the register it writes (an X register,
      read elsewhere at 8 bytes, or a 4-byte system register). */
  lemma EmittedMatchesCatalog(data: seq<bv8>, msr: Registry)
    requires GetInstructionLowLevelIL(data, msr).Emitted?
    ensures var il := GetInstructionLowLevelIL(data, msr).il;
      && GetIntrinsicInputs(il.intrinsic).Own?
      && GetIntrinsicOutputs(il.intrinsic).Own?
      && |il.inputs| == |GetIntrinsicInputs(il.intrinsic).value|
      && |il.outputs| == |GetIntrinsicOutputs(il.intrinsic).value|
      && (forall i :: 0 <= i < |il.inputs| ==>
            il.inputs[i].size == GetIntrinsicInputs(il.intrinsic).value[i].width)
      && (il.intrinsic == MRS ==> GetIntrinsicOutputs(MRS).value[0].width == X_WIDTH)
      && (il.intrinsic == MSR_REG ==>
            GetIntrinsicOutputs(MSR_REG).value[0].width == SystemRegisterInfo(il.outputs[0]).size)
  {
  }

  /** The catalog's signatures are those of the registers the intrinsics
      move values between: the barriers and waits take and give nothing,
      both writes (MSR_IMM included, though it is never emitted) produce one
      value as wide as a system register's slot, MSR (register) reads an
      X register, and MRS reads a system register into an X register. */
  lemma CatalogSignatures(reg: bv32)
    ensures GetIntrinsicInputs(ISB) == GetIntrinsicOutputs(ISB) == Own([])
    ensures GetIntrinsicInputs(WFI) == GetIntrinsicOutputs(WFI) == Own([])
    ensures GetIntrinsicInputs(WFE) == GetIntrinsicOutputs(WFE) == Own([])
    ensures GetIntrinsicOutputs(MSR_IMM) == GetIntrinsicOutputs(MSR_REG)
            == Own([IntType(SystemRegisterInfo(reg).size, false)])
    ensures GetIntrinsicInputs(MSR_IMM) == Own([IntType(SystemRegisterInfo(reg).size, false)])
    ensures GetIntrinsicInputs(MSR_REG) == Own([IntType(X_WIDTH, false)])
    ensures GetIntrinsicInputs(MRS) == Own([IntType(SystemRegisterInfo(reg).size, false)])
    ensures GetIntrinsicOutputs(MRS) == Own([IntType(X_WIDTH, false)])
  {
  }

  /** No dangling system-register operand: the system register an emitted
      MSR (register) writes or MRS reads is a synthesized register that the
      name and info queries answer for, and its 4-byte slot is as wide as
      the catalog's output type (MSR) or the emitted read (MRS). */
  lemma EmittedSystemRegistersExist(data: seq<bv8>, msr: Registry)
    requires GetInstructionLowLevelIL(data, msr).Emitted?
    ensures var il := GetInstructionLowLevelIL(data, msr).il;
      && (il.intrinsic == MSR_REG ==>
            && GetRegisterName(il.outputs[0], msr).Own?
            && GetRegisterInfo(il.outputs[0], msr) == Own(SystemRegisterInfo(il.outputs[0]))
            && SystemRegisterInfo(il.outputs[0]).size == GetIntrinsicOutputs(MSR_REG).value[0].width)
      && (il.intrinsic == MRS ==>
            && GetRegisterName(il.inputs[0].reg, msr).Own?
            && GetRegisterInfo(il.inputs[0].reg, msr) == Own(SystemRegisterInfo(il.inputs[0].reg))
            && SystemRegisterInfo(il.inputs[0].reg).size == il.inputs[0].size)
  {
  }

  /** What the buffer holding a word little-endian lifts to, when the word
      classifies as MRS or MSR (register). */
  lemma LiftsWord(w: bv32, msr: Registry, rest: seq<bv8>)
    ensures Classify(w, msr) == MRS ==>
              GetInstructionLowLevelIL(BytesOf(w) + rest, msr)
              == Emitted(IntrinsicIL([GprOf(SrXt(w))], MRS, [RegRead(4, RegisterOfKey(KeyOf(w)))]), 4)
    ensures Classify(w, msr) == MSR_REG ==>
              GetInstructionLowLevelIL(BytesOf(w) + rest, msr)
              == Emitted(IntrinsicIL([RegisterOfKey(KeyOf(w))], MSR_REG, [RegRead(X_WIDTH, GprOf(SrXt(w)))]), 4)
  {
  }

  /** MRS round trip: the MRS word built from registered fields `f` and
      index `n` (not shadowed by the MSR (immediate) test) lifts to a read of
      the system register `MSR_BASE + key` into Xn. */
  lemma MrsRoundTrip(f: Fields, n: bv8, msr: Registry, rest: seq<bv8>)
    requires Valid(f) && n < 32 && StatusReg(f) in msr
    requires !(n == 31 && f.crn & 4 == 4)
    ensures GetInstructionLowLevelIL(BytesOf(Assemble(MRS_CLASS, f, n)) + rest, msr)
            == Emitted(IntrinsicIL([GPR_BASE + n as bv32], MRS,
                                   [RegRead(4, MSR_BASE + StatusReg(f))]), 4)
  {
    var w := Assemble(MRS_CLASS, f, n);
    assert FieldsOf(w) == f && SrXt(w) == n && InMrsClass(w);
    assert KeyOf(w) == StatusReg(f);
    MsrImmShadowsMrs(w, msr);
    assert Classify(w, msr) == MRS;
    LiftsWord(w, msr, rest);
  }

  /** MSR (register) round trip: the word built from registered fields `f`
      and index `n` lifts to a write of the 8-byte Xn into the system
      register `MSR_BASE + key`. */
  lemma MsrRegRoundTrip(f: Fields, n: bv8, msr: Registry, rest: seq<bv8>)
    requires Valid(f) && n < 32 && StatusReg(f) in msr
    ensures GetInstructionLowLevelIL(BytesOf(Assemble(MSR_REG_CLASS, f, n)) + rest, msr)
            == Emitted(IntrinsicIL([MSR_BASE + StatusReg(f)], MSR_REG,
                                   [RegRead(X_WIDTH, GPR_BASE + n as bv32)]), 4)
  {
    var w := Assemble(MSR_REG_CLASS, f, n);
    assert FieldsOf(w) == f && SrXt(w) == n && InMsrRegClass(w);
    assert KeyOf(w) == StatusReg(f);
    assert Classify(w, msr) == MSR_REG;
    LiftsWord(w, msr, rest);
  }

  /** An MSR (register) or MRS class word whose register is not in the
      registry is handed to the base architecture. */
  lemma UnregisteredDelegates(w: bv32, msr: Registry, rest: seq<bv8>)
    requires InMsrRegClass(w) || InMrsClass(w)
    requires KeyOf(w) !in msr
    ensures GetInstructionLowLevelIL(BytesOf(w) + rest, msr) == Delegated
  {
    DecodeBytesOf(w, msr, rest);
    RegistryGates(w, msr);
  }

  /** A registered MRS-class word that the MSR (immediate) test shadows is
      classified MSR_IMM, and since lowering has no MSR_IMM case, it is
      handed to the base architecture rather than lifted as MRS. */
  lemma ShadowedMrsDelegates(w: bv32, msr: Registry, rest: seq<bv8>)
    requires InMrsClass(w) && KeyOf(w) in msr
    requires SrXt(w) == 31 && SrCn(w) & 4 == 4
    ensures DecodeIntrinsic(BytesOf(w) + rest, msr) == MSR_IMM
    ensures GetInstructionLowLevelIL(BytesOf(w) + rest, msr) == Delegated
  {
    DecodeBytesOf(w, msr, rest);
    MsrImmShadowsMrs(w, msr);
  }

  /** Every ISB, whatever its barrier option, lifts to a bare ISB call. */
  lemma IsbLifts(w: bv32, msr: Registry, rest: seq<bv8>)
    requires IsIsb(w)
    ensures GetInstructionLowLevelIL(BytesOf(w) + rest, msr) == Emitted(IntrinsicIL([], ISB, []), 4)
  {
    DecodeBytesOf(w, msr, rest);
  }

  /** A buffer shorter than one instruction is always handed on. */
  lemma ShortBufferDelegates(data: seq<bv8>, msr: Registry)
    requires |data| < 4
    ensures GetInstructionLowLevelIL(data, msr) == Delegated
  {
  }

  /** MRS X0, SCTLR_EL1 lifts to a 4-byte read of register 0x4200 + 0xC080
      into X0 (register 34). */
  lemma SctlrEl1Lifts(msr: Registry)
    requires 0xC080 in msr
    ensures GetInstructionLowLevelIL([0x00, 0x10, 0x38, 0xD5], msr)
            == Emitted(IntrinsicIL([34], MRS, [RegRead(4, 0x1_0280)]), 4)
  {
  }
}
