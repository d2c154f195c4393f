/** The virtual register space: one register id per registry entry,
    `MSR_BASE + key`, added to the base architecture's register lists, and
    name and info queries that answer for those ids and forward every
    other id to the base architecture. */
module RegisterSpace {
  import opened A64
  import opened Hook
  import opened Registry

  datatype Extend = NoExtend | ZeroExtendToFullWidth | SignExtendToFullWidth

  datatype RegisterInfo = RegisterInfo(fullWidthRegister: bv32, offset: nat, size: nat, extend: Extend)

  /** The metadata of every synthesized register: a 4-byte slot that is its
      own full-width register, so no other register aliases part of it. */
  function SystemRegisterInfo(reg: bv32): (info: RegisterInfo)
    ensures info.fullWidthRegister == reg && info.offset == 0
    ensures info.size == 4 && info.extend == NoExtend
  {
    RegisterInfo(reg, 0, 4, NoExtend)
  }

  /** The register id of a key; uint32 addition wraps. A 16-bit key lands in
      the 64K ids from MSR_BASE up, above every architectural register id. */
  function RegisterOfKey(key: bv32): (reg: bv32)
    ensures reg - MSR_BASE == key
    ensures key < 0x1_0000 ==> MSR_BASE <= reg < MSR_BASE + 0x1_0000
  {
    MSR_BASE + key
  }

  /** The key a register id stands for; uint32 subtraction wraps. */
  function KeyOfRegister(reg: bv32): (key: bv32)
    ensures RegisterOfKey(key) == reg
  {
    reg - MSR_BASE
  }

  lemma KeyOfRegisterOfKey(key: bv32)
    ensures KeyOfRegister(RegisterOfKey(key)) == key
  {
  }

  /** A register id stands for exactly one key. */
  lemma OnlyKeyOfRegister(reg: bv32)
    ensures forall k :: RegisterOfKey(k) == reg ==> k == KeyOfRegister(reg)
  {
  }

  /** The id is the register of some registry entry. */
  predicate Synthesized(reg: bv32, msr: Registry)
  {
    exists k :: k in msr && RegisterOfKey(k) == reg
  }

  function GetRegisterName(reg: bv32, msr: Registry): (r: Hooked<string>)
    ensures r.Own? <==> Synthesized(reg, msr)
    ensures forall k :: k in msr && RegisterOfKey(k) == reg ==> r == Own(msr[k])
    ensures r.Base? ==> r.arg == reg
  {
    var key := KeyOfRegister(reg);
    OnlyKeyOfRegister(reg);
    if key in msr then Own(StatusRegName(key, msr)) else Base(reg)
  }

  function GetRegisterInfo(reg: bv32, msr: Registry): (r: Hooked<RegisterInfo>)
    ensures r.Own? <==> Synthesized(reg, msr)
    ensures r.Own? ==> r.value.fullWidthRegister == reg && r.value.offset == 0
    ensures r.Own? ==> r.value.size == 4 && r.value.extend == NoExtend
    ensures r.Base? ==> r.arg == reg
  {
    var key := KeyOfRegister(reg);
    OnlyKeyOfRegister(reg);
    if key in msr then Own(SystemRegisterInfo(reg)) else Base(reg)
  }

  /** An order in which iterating the registry visits its keys: every key
      exactly once. Which order the map yields is left open; the three list
      overrides walk the same unchanged map and so share one order. */
  ghost predicate IterationOrder(order: seq<bv32>, msr: Registry)
  {
    && (forall k :: k in msr <==> k in order)
    && (forall i, j :: 0 <= i < j < |order| ==> order[i] != order[j])
  }

  /** A sequence without repeats has as many elements as its set. */
  lemma {:induction false} DistinctCardinality(s: seq<bv32>)
    requires forall i, j :: 0 <= i < j < |s| ==> s[i] != s[j]
    ensures |set x | x in s| == |s|
  {
    if |s| > 0 {
      var tail := s[1..];
      assert forall i, j :: 0 <= i < j < |tail| ==> tail[i] != tail[j] by {
        forall i, j | 0 <= i < j < |tail|
          ensures tail[i] != tail[j]
        {
          assert tail[i] == s[i + 1] && tail[j] == s[j + 1];
        }
      }
      DistinctCardinality(tail);
      assert (set x | x in s) == (set x | x in tail) + {s[0]};
      assert s[0] !in (set x | x in tail) by {
        forall i | 0 <= i < |tail|
          ensures tail[i] != s[0]
        {
          assert tail[i] == s[i + 1];
        }
      }
    }
  }

  /** An iteration order lists as many keys as the registry holds. */
  lemma {:induction false} IterationOrderLength(order: seq<bv32>, msr: Registry)
    requires IterationOrder(order, msr)
    ensures |order| == |msr.Keys|
  {
    DistinctCardinality(order);
    assert (set x | x in order) == msr.Keys;
  }

  /** The synthesized ids, one per registry entry, in iteration order. */
  method SynthesizedRegisters(msr: Registry, order: seq<bv32>) returns (ids: seq<bv32>)
    requires IterationOrder(order, msr)
    ensures |ids| == |order| == |msr.Keys|
    ensures forall i :: 0 <= i < |ids| ==> ids[i] == RegisterOfKey(order[i])
    ensures forall i :: 0 <= i < |ids| ==> KeyOfRegister(ids[i]) in msr
    ensures forall k :: k in msr ==> RegisterOfKey(k) in ids
    ensures forall i, j :: 0 <= i < j < |ids| ==> ids[i] != ids[j]
  {
    ids := [];
    var i := 0;
    while i < |order|
      invariant 0 <= i <= |order|
      invariant |ids| == i
      invariant forall j :: 0 <= j < i ==> ids[j] == RegisterOfKey(order[j])
    {
      ids := ids + [RegisterOfKey(order[i])];
      i := i + 1;
    }
    IterationOrderLength(order, msr);
    forall j | 0 <= j < |ids|
      ensures KeyOfRegister(ids[j]) == order[j]
    {
      KeyOfRegisterOfKey(order[j]);
    }
    forall k | k in msr
      ensures RegisterOfKey(k) in ids
    {
      var j :| 0 <= j < |order| && order[j] == k;
      assert ids[j] == RegisterOfKey(k);
    }
  }

  /** Common shape of the three list overrides: the base list, then the
      synthesized ids in iteration order, each of which the name and info
      queries answer. */
  ghost predicate ExtendsWithSynthesized(base: seq<bv32>, regs: seq<bv32>, msr: Registry, order: seq<bv32>)
  {
    && |regs| == |base| + |order| == |base| + |msr.Keys|
    && regs[..|base|] == base
    && (forall j :: 0 <= j < |order| ==> regs[|base| + j] == RegisterOfKey(order[j]))
    && (forall i :: |base| <= i < |regs| ==> KeyOfRegister(regs[i]) in msr)
    && (forall k :: k in msr ==> RegisterOfKey(k) in regs[|base|..])
    && (forall i :: |base| <= i < |regs| ==>
          GetRegisterName(regs[i], msr).Own? && GetRegisterInfo(regs[i], msr).Own?)
  }

  method AppendSynthesized(base: seq<bv32>, msr: Registry, order: seq<bv32>) returns (regs: seq<bv32>)
    requires IterationOrder(order, msr)
    ensures ExtendsWithSynthesized(base, regs, msr, order)
  {
    var ids := SynthesizedRegisters(msr, order);
    regs := base + ids;
    assert regs[|base|..] == ids;
    forall i | |base| <= i < |regs|
      ensures GetRegisterName(regs[i], msr).Own? && GetRegisterInfo(regs[i], msr).Own?
    {
      assert regs[i] == ids[i - |base|];
    }
  }

  method GetAllRegisters(baseAll: seq<bv32>, msr: Registry, order: seq<bv32>) returns (regs: seq<bv32>)
    requires IterationOrder(order, msr)
    ensures ExtendsWithSynthesized(baseAll, regs, msr, order)
  {
    regs := AppendSynthesized(baseAll, msr, order);
  }

  method GetSystemRegisters(baseSystem: seq<bv32>, msr: Registry, order: seq<bv32>) returns (regs: seq<bv32>)
    requires IterationOrder(order, msr)
    ensures ExtendsWithSynthesized(baseSystem, regs, msr, order)
  {
    regs := AppendSynthesized(baseSystem, msr, order);
  }

  method GetFullWidthRegisters(baseFullWidth: seq<bv32>, msr: Registry, order: seq<bv32>) returns (regs: seq<bv32>)
    requires IterationOrder(order, msr)
    ensures ExtendsWithSynthesized(baseFullWidth, regs, msr, order)
  {
    regs := AppendSynthesized(baseFullWidth, msr, order);
  }

  /** The name and info queries agree: they answer for the same ids, and a
      synthesized id is named after its registry entry and described as the
      fixed 4-byte slot. */
  lemma NameInfoAgree(key: bv32, msr: Registry)
    requires key in msr
    ensures GetRegisterName(RegisterOfKey(key), msr) == Own(msr[key])
    ensures GetRegisterInfo(RegisterOfKey(key), msr) == Own(RegisterInfo(RegisterOfKey(key), 0, 4, NoExtend))
  {
  }

  /** With a registry of 16-bit keys, no register id below MSR_BASE (which
      includes every general-purpose register id) is shadowed: name and
      info go to the base architecture. */
  lemma BaseRegistersNotShadowed(reg: bv32, msr: Registry)
    requires forall k :: k in msr ==> k < 0x1_0000
    requires reg < MSR_BASE
    ensures GetRegisterName(reg, msr) == Base(reg)
    ensures GetRegisterInfo(reg, msr) == Base(reg)
  {
  }
}
