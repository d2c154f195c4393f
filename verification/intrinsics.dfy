/** The catalog of the six intrinsics: their names, input types and output
    types. Every other intrinsic id is forwarded to the base architecture. */
module Intrinsics {
  import opened A64
  import opened Hook

  /** An integer type of `width` bytes. */
  datatype IntType = IntType(width: nat, signed: bool)

  function GetIntrinsicName(intrinsic: bv32): (r: Hooked<string>)
    ensures r.Own? <==> IsHookIntrinsic(intrinsic)
    ensures r.Base? ==> r.arg == intrinsic
  {
    match intrinsic
    case ISB => Own("__isb")
    case WFI => Own("__wfi")
    case WFE => Own("__wfe")
    case MSR_IMM => Own("_WriteStatusReg")
    case MSR_REG => Own("_WriteStatusReg")
    case MRS => Own("_ReadStatusReg")
    case _ => Base(intrinsic)
  }

  /** The ids the hook adds after the base architecture's own, in the order
      it adds them. */
  function GetAllIntrinsics(base: seq<bv32>): (r: seq<bv32>)
    ensures |r| == |base| + 6 && r[..|base|] == base
    ensures forall id :: id in r[|base|..] <==> IsHookIntrinsic(id)
    ensures r[|base|..] == [ISB, WFE, WFI, MSR_IMM, MSR_REG, MRS]
  {
    base + [ISB, WFE, WFI, MSR_IMM, MSR_REG, MRS]
  }

  function GetIntrinsicInputs(intrinsic: bv32): (r: Hooked<seq<IntType>>)
    ensures r.Own? <==> IsHookIntrinsic(intrinsic)
    ensures r.Base? ==> r.arg == intrinsic
    ensures r.Own? ==> forall t :: t in r.value ==> !t.signed
  {
    match intrinsic
    case ISB => Own([])
    case WFI => Own([])
    case WFE => Own([])
    case MSR_IMM => Own([IntType(4, false)])
    case MSR_REG => Own([IntType(8, false)])
    case MRS => Own([IntType(4, false)])
    case _ => Base(intrinsic)
  }

  function GetIntrinsicOutputs(intrinsic: bv32): (r: Hooked<seq<IntType>>)
    ensures r.Own? <==> IsHookIntrinsic(intrinsic)
    ensures r.Base? ==> r.arg == intrinsic
    ensures r.Own? ==> forall t :: t in r.value ==> !t.signed
  {
    match intrinsic
    case ISB => Own([])
    case WFI => Own([])
    case WFE => Own([])
    case MSR_IMM => Own([IntType(4, false)])
    case MSR_REG => Own([IntType(4, false)])
    case MRS => Own([IntType(8, false)])
    case _ => Base(intrinsic)
  }

  /** The two system-register writes share a name; every other pair of the
      six ids is told apart by name. */
  lemma NamesTellApartAllButWrites(a: bv32, b: bv32)
    requires IsHookIntrinsic(a) && IsHookIntrinsic(b) && a != b
    ensures GetIntrinsicName(a) == GetIntrinsicName(b) <==>
              (a == MSR_IMM && b == MSR_REG) || (a == MSR_REG && b == MSR_IMM)
  {
  }

  /** MSR_IMM and MSR_REG are told apart by their input width. */
  lemma WritesDifferInInput()
    ensures GetIntrinsicInputs(MSR_IMM) != GetIntrinsicInputs(MSR_REG)
  {
  }
}
