/** The system-register fields of an A64 system instruction word and the
    16-bit key they are packed into.

    In a system-register move (MRS, MSR) the word holds, from bit 19 down:
    o0 (bit 19, op0 - 2), op1 (18:16), CRn (15:12), CRm (11:8), op2 (7:5)
    and Rt (4:0). The key packs op0 at 15:14, op1 at 13:11, CRn at 10:7,
    CRm at 6:3 and op2 at 2:0. */
module SysReg {

  /** The five fields, each a uint8_t as the extractors return them. */
  datatype Fields = Fields(op0: bv8, op1: bv8, crn: bv8, crm: bv8, op2: bv8)

  /** Every field fits the slot the key gives it. */
  predicate InRange(f: Fields)
  {
    f.op0 < 4 && f.op1 < 8 && f.crn < 16 && f.crm < 16 && f.op2 < 8
  }

  /** The fields as a word can encode them: op0 is 2 or 3. */
  predicate Valid(f: Fields)
  {
    InRange(f) && 2 <= f.op0
  }

  function SrOp0(ins: bv32): (r: bv8)
    ensures r == 2 || r == 3
    ensures r == 3 <==> (ins >> 19) & 1 == 1
  {
    (((ins >> 19) & 1) + 2) as bv8
  }

  function SrOp1(ins: bv32): (r: bv8)
    ensures r < 8
  {
    ((ins >> 16) & 7) as bv8
  }

  function SrOp2(ins: bv32): (r: bv8)
    ensures r < 8
  {
    ((ins >> 5) & 7) as bv8
  }

  function SrXt(ins: bv32): (r: bv8)
    ensures r < 32
  {
    (ins & 31) as bv8
  }

  function SrCm(ins: bv32): (r: bv8)
    ensures r < 16
  {
    ((ins >> 8) & 15) as bv8
  }

  function SrCn(ins: bv32): (r: bv8)
    ensures r < 16
  {
    ((ins >> 12) & 15) as bv8
  }

  /** All five fields of a word, as the classifier and lowerer pass them on. */
  function FieldsOf(ins: bv32): (f: Fields)
    ensures Valid(f)
  {
    Fields(SrOp0(ins), SrOp1(ins), SrCn(ins), SrCm(ins), SrOp2(ins))
  }

  /** The key of a field tuple. The fields are OR-ed after shifting, so for
      out-of-range fields the slots overlap, as they do in the plugin. */
  function StatusReg(f: Fields): (key: bv32)
    ensures InRange(f) ==> key < 0x1_0000
    ensures Valid(f) ==> 0x8000 <= key <= 0xFFFF
  {
    ((f.op0 as bv32) << 14) | ((f.op1 as bv32) << 11) | ((f.crn as bv32) << 7)
    | ((f.crm as bv32) << 3) | (f.op2 as bv32)
  }

  /** Splits a key back into its five fields. */
  function Unpack(key: bv32): (f: Fields)
    ensures InRange(f)
  {
    Fields(((key >> 14) & 3) as bv8, ((key >> 11) & 7) as bv8, ((key >> 7) & 15) as bv8,
           ((key >> 3) & 15) as bv8, (key & 7) as bv8)
  }

  lemma UnpackStatusReg(f: Fields)
    requires InRange(f)
    ensures Unpack(StatusReg(f)) == f
  {
  }

  lemma StatusRegUnpack(key: bv32)
    requires key < 0x1_0000
    ensures StatusReg(Unpack(key)) == key
  {
  }

  /** Two in-range tuples are equal exactly when their keys are. */
  lemma StatusRegInjective(f: Fields, g: Fields)
    requires InRange(f) && InRange(g)
    ensures StatusReg(f) == StatusReg(g) <==> f == g
  {
  }

  /** An in-range tuple has a key in the upper half of the 16-bit range
      exactly when its op0 is one a word can encode. */
  lemma KeyRange(f: Fields)
    requires InRange(f)
    ensures 0x8000 <= StatusReg(f) <==> Valid(f)
  {
  }

  /** The key of the register a word addresses. Because op0 is o0 + 2, the
      key is bits 19:5 of the word with bit 15 set. */
  function KeyOf(ins: bv32): (key: bv32)
    ensures key == 0x8000 | ((ins >> 5) & 0x7FFF)
  {
    StatusReg(FieldsOf(ins))
  }

  /** The word whose top twelve bits are `top`, whose system-register fields
      are `f` and whose Rt is `xt`: the inverse of the extractors. */
  function Assemble(top: bv32, f: Fields, xt: bv8): (ins: bv32)
    requires top < 0x1000 && Valid(f) && xt < 32
    ensures ins >> 20 == top
    ensures FieldsOf(ins) == f && SrXt(ins) == xt
  {
    (top << 20) | (((f.op0 - 2) as bv32) << 19) | ((f.op1 as bv32) << 16)
    | ((f.crn as bv32) << 12) | ((f.crm as bv32) << 8) | ((f.op2 as bv32) << 5)
    | (xt as bv32)
  }

  /** The extractors lose nothing below bit 20: a word is its top twelve
      bits, its fields and its Rt. */
  lemma AssembleFieldsOf(ins: bv32)
    ensures Assemble(ins >> 20, FieldsOf(ins), SrXt(ins)) == ins
  {
  }

  /** MRS X0, SCTLR_EL1 (0xD5381000): fields (3, 0, 1, 0, 0), Rt 0, key 0xC080. */
  lemma SctlrEl1Vector()
    ensures FieldsOf(0xD538_1000) == Fields(3, 0, 1, 0, 0)
    ensures SrXt(0xD538_1000) == 0
    ensures KeyOf(0xD538_1000) == 0xC080
  {
  }
}
