/** The classifier: decides which, if any, of the six system instructions a
    4-byte buffer holds. The checks run in a fixed order and the first one
    that matches decides; the three system-register forms also require the
    addressed register to be in the registry. */
module Decoder {
  import opened A64
  import opened SysReg
  import opened Registry

  const ISB_PATTERN: bv32 := 0xD503_30DF
  /** Ignores bits 11:8, the barrier option of ISB. */
  const ISB_MASK: bv32 := 0xFFFF_F0FF
  const WFI_WORD: bv32 := 0xD503_207F
  const WFE_WORD: bv32 := 0xD503_205F
  /** Top twelve bits of MSR (register). */
  const MSR_REG_CLASS: bv32 := 0xD51
  /** MSR (immediate) test; the mask equals the pattern, so the test only
      asks that the pattern's bits are all set. */
  const MSR_IMM_PATTERN: bv32 := 0xD500_401F
  const MSR_IMM_MASK: bv32 := 0xD500_401F
  /** Top twelve bits of MRS. */
  const MRS_CLASS: bv32 := 0xD53

  /** The instruction word held by the first four bytes, little-endian:
      byte i of the buffer is bits 8i+7:8i of the word. */
  function WordOf(data: seq<bv8>): (w: bv32)
    requires 4 <= |data|
    ensures (w & 0xFF) as bv8 == data[0] && ((w >> 8) & 0xFF) as bv8 == data[1]
    ensures ((w >> 16) & 0xFF) as bv8 == data[2] && (w >> 24) as bv8 == data[3]
  {
    (data[0] as bv32) | ((data[1] as bv32) << 8) | ((data[2] as bv32) << 16)
    | ((data[3] as bv32) << 24)
  }

  /** The four bytes of a word, least significant first. */
  function BytesOf(w: bv32): (b: seq<bv8>)
    ensures |b| == 4
    ensures WordOf(b) == w
  {
    [(w & 0xFF) as bv8, ((w >> 8) & 0xFF) as bv8, ((w >> 16) & 0xFF) as bv8, (w >> 24) as bv8]
  }

  lemma BytesOfWordOf(data: seq<bv8>)
    requires 4 <= |data|
    ensures BytesOf(WordOf(data)) == data[..4]
  {
  }

  predicate IsIsb(w: bv32)
  {
    w & ISB_MASK == ISB_PATTERN
  }

  predicate InMsrRegClass(w: bv32)
  {
    w >> 20 == MSR_REG_CLASS
  }

  predicate InMsrImmClass(w: bv32)
  {
    w & MSR_IMM_MASK == MSR_IMM_PATTERN
  }

  predicate InMrsClass(w: bv32)
  {
    w >> 20 == MRS_CLASS
  }

  /** The cascade on one word. The ensures characterise every outcome
      without reference to the order of the tests. */
  function Classify(candidate: bv32, msr: Registry): (r: bv32)
    ensures r == NO_INTRINSIC || IsHookIntrinsic(r)
    ensures r == ISB <==> IsIsb(candidate)
    ensures r == WFI <==> candidate == WFI_WORD
    ensures r == WFE <==> candidate == WFE_WORD
    ensures r == MSR_REG <==> InMsrRegClass(candidate) && KeyOf(candidate) in msr
    ensures r == MSR_IMM <==>
              InMsrImmClass(candidate) && !InMsrRegClass(candidate) && KeyOf(candidate) in msr
    ensures r == MRS <==>
              InMrsClass(candidate) && !InMsrImmClass(candidate) && KeyOf(candidate) in msr
  {
    var f := FieldsOf(candidate);
    if IsIsb(candidate) then ISB
    else if candidate == WFI_WORD then WFI
    else if candidate == WFE_WORD then WFE
    else if InMsrRegClass(candidate) && ValidStatusReg(f, msr) then MSR_REG
    else if InMsrImmClass(candidate) && ValidStatusReg(f, msr) then MSR_IMM
    else if InMrsClass(candidate) && ValidStatusReg(f, msr) then MRS
    else NO_INTRINSIC
  }

  /** The classifier on the caller's buffer; `|data|` is the number of bytes
      available. A buffer shorter than one instruction is never classified. */
  function DecodeIntrinsic(data: seq<bv8>, msr: Registry): (r: bv32)
    ensures |data| < 4 ==> r == NO_INTRINSIC
    ensures r == NO_INTRINSIC || IsHookIntrinsic(r)
  {
    if |data| < 4 then NO_INTRINSIC
    else Classify(WordOf(data), msr)
  }

  /** The buffer holding a word little-endian classifies as the word. */
  lemma DecodeBytesOf(w: bv32, msr: Registry, rest: seq<bv8>)
    ensures DecodeIntrinsic(BytesOf(w) + rest, msr) == Classify(w, msr)
  {
  }

  /** ISB is recognised whatever its barrier option (bits 11:8) holds. */
  lemma IsbAnyOption(option: bv32, msr: Registry)
    requires option < 16
    ensures Classify(ISB_PATTERN | (option << 8), msr) == ISB
  {
  }

  /** Changing any single bit of an ISB word outside its option field, or
      any bit of WFI or WFE, loses that classification. */
  lemma SingleBitFlips(i: bv32, msr: Registry)
    requires i < 32
    ensures !(8 <= i < 12) ==> Classify(ISB_PATTERN ^ (1 << i), msr) != ISB
    ensures Classify(WFI_WORD ^ (1 << i), msr) != WFI
    ensures Classify(WFE_WORD ^ (1 << i), msr) != WFE
  {
  }

  /** A system-register form is only returned for a registered key, and an
      MSR (register) or MRS class word with an unregistered key is not
      classified at all. */
  lemma RegistryGates(w: bv32, msr: Registry)
    requires KeyOf(w) !in msr
    ensures Classify(w, msr) != MSR_REG && Classify(w, msr) != MSR_IMM
    ensures Classify(w, msr) != MRS
    ensures InMsrRegClass(w) || InMrsClass(w) ==> Classify(w, msr) == NO_INTRINSIC
  {
  }

  /** The registry matters only through the membership of the word's own key. */
  lemma MembershipOnly(w: bv32, msr1: Registry, msr2: Registry)
    requires KeyOf(w) in msr1 <==> KeyOf(w) in msr2
    ensures Classify(w, msr1) == Classify(w, msr2)
  {
  }

  /** First match wins: a registered MRS-class word whose Rt is 31 and whose
      CRn has bit 2 set (word bit 14) passes the MSR (immediate) test first
      and classifies as MSR_IMM; every other registered MRS-class word
      classifies as MRS. */
  lemma MsrImmShadowsMrs(w: bv32, msr: Registry)
    requires InMrsClass(w) && KeyOf(w) in msr
    ensures Classify(w, msr) == MSR_IMM <==> SrXt(w) == 31 && SrCn(w) & 4 == 4
    ensures Classify(w, msr) == MRS <==> !(SrXt(w) == 31 && SrCn(w) & 4 == 4)
  {
  }

  /** MRS X0, SCTLR_EL1 with SCTLR_EL1 registered classifies as MRS. */
  lemma SctlrEl1Classifies(msr: Registry)
    requires 0xC080 in msr
    ensures DecodeIntrinsic([0x00, 0x10, 0x38, 0xD5], msr) == MRS
  {
  }
}
