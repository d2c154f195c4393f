/** Fixed identifiers of the hook: the six intrinsic ids the classifier
    returns, and the two register-id bases the lowerer uses. All are
    uint32 values in the plugin, so they are `bv32` here. */
module A64 {

  /** The value the classifier returns for "no intrinsic". */
  const NO_INTRINSIC: bv32 := 0

  const ISB: bv32 := 0x4141
  const WFI: bv32 := 0x4142
  const WFE: bv32 := 0x4143
  const MSR_IMM: bv32 := 0x4144
  const MSR_REG: bv32 := 0x4145
  const MRS: bv32 := 0x4146

  /** The system register with key `k` gets the register id `MSR_BASE + k`. */
  const MSR_BASE: bv32 := 0x4200

  /** Register id of X0 in the base architecture's register enumeration;
      Xn is `GPR_BASE + n`. */
  const GPR_BASE: bv32 := 34

  /** Width in bytes at which the lowerer reads an X register. */
  const X_WIDTH: nat := 8

  /** The six ids the hook defines. */
  predicate IsHookIntrinsic(id: bv32)
  {
    id == ISB || id == WFI || id == WFE || id == MSR_IMM || id == MSR_REG || id == MRS
  }
}

/** The answer of an overridden architecture query: either the hook answers
    itself, or it forwards the query, unchanged, to the base architecture
    it wraps. `arg` is the id that was forwarded; the base architecture's
    own answer is outside this model. */
module Hook {

  datatype Hooked<T> = Own(value: T) | Base(arg: bv32)
}
