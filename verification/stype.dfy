/** Stack effects, bearssl-0.5/T0/SType.cs. */
module StackEffects {

  /** Elements taken and left; -1 in `din` is "unknown", -1 in `dout` alone is "never exits". */
  datatype SType = SType(din: int, dout: int) {
    predicate IsKnown() { din >= 0 }
    predicate NoExit() { din >= 0 && dout < 0 }

    predicate IsSubOf(s: SType) {
      if !IsKnown() || !s.IsKnown() then false
      else if din > s.din then false
      else if NoExit() then true
      else if s.NoExit() then false
      else din - dout == s.din - s.dout
    }
  }

  /** The constructor: every negative count becomes -1. */
  function MakeSType(din: int, dout: int): SType {
    SType(if din < 0 then -1 else din, if dout < 0 then -1 else dout)
  }

  const UNKNOWN := SType(-1, -1)
}
