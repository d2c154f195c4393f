/** The curated table of system registers the hook exposes, keyed by the
    packed field key. Its contents are generated data outside this model,
    so every operation takes it as a parameter; it is never changed. */
module Registry {
  import opened SysReg

  type Registry = map<bv32, string>

  /** For in-range fields, the key is registered exactly when some 16-bit
      key of the table unpacks to those fields: the key codec loses nothing. */
  lemma KeyRegisteredMeaning(f: Fields, msr: Registry)
    requires InRange(f)
    ensures StatusReg(f) in msr <==> exists k :: k in msr && k < 0x1_0000 && Unpack(k) == f
  {
    UnpackStatusReg(f);
    if k :| k in msr && k < 0x1_0000 && Unpack(k) == f {
      StatusRegUnpack(k);
    }
  }

  /** The fields name a register of the table. */
  predicate ValidStatusReg(f: Fields, msr: Registry): (r: bool)
    ensures InRange(f) ==> (r <==> exists k :: k in msr && k < 0x1_0000 && Unpack(k) == f)
  {
    if InRange(f) then KeyRegisteredMeaning(f, msr); StatusReg(f) in msr
    else StatusReg(f) in msr
  }

  /** The name the table pairs with a registered key. The plugin looks it up
      only after finding the key, so the key must be present. */
  function StatusRegName(key: bv32, msr: Registry): string
    requires key in msr
  {
    msr[key]
  }
}
