/** How the HMI passes line up with the global passes over the same sheet. */
module PassComparisons {
  import opened Wrappers
  import opened Strings
  import opened Cells
  import opened TypeRules
  import opened Tables
  import opened Readers
  import opened Addresses
  import opened GlobalPasses
  import opened HmiPasses

  /** Every declaration is a visible, non-array WORD with a numeric offset. */
  predicate WordsOnly(sec: Items) {
    PlainFrom(sec, 0) && forall j :: 0 <= j < |sec| ==> sec[j].1.typ == "WORD"
  }

  /** For WORD declarations the HMI step is the global pass's int(offset) words. */
  lemma {:induction false} OwnStepSumOfWords(sec: Items, lo: nat, hi: nat)
    requires AllNumericFrom(sec, 0) && WordsOnly(sec) && lo <= hi <= |sec|
    ensures OwnStepSum(sec, lo, hi) == 10 * WordSum(sec, lo, hi)
    decreases hi - lo
  {
    if lo < hi {
      OwnStepSumOfWords(sec, lo + 1, hi);
    }
  }

  /** Both passes over WORD constants place every constant, in order, but the
      global pass advances the cursor BEFORE assigning and the HMI pass after:
      each constant's HMI address trails its global address by its own offset. */
  lemma ConstantsHmiTrailsGlobal(constBase: int, lastShelfType: string, sec: Items, arrayType: Option<string>, j: nat)
    requires AllNumericFrom(sec, 0) && WordsOnly(sec) && j < |sec|
    ensures var g := ConstantsGlobal(10 * constBase, sec, 0);
      var h := HmiUnit(ConstantOrPump(Some(lastShelfType)), "", sec, 0, 10 * constBase, arrayType);
      && g.Success? && h.Success?
      && |g.value| == |h.value.placed| == |sec|
      && g.value[j].name == h.value.placed[j].name == sec[j].0
      && g.value[j].cursor == h.value.placed[j].cursor + 10 * Words(sec, j)
  {
    ConstantsGlobalLayout(10 * constBase, sec, 0);
    PlainUnitHmi(lastShelfType, "", sec, 0, 10 * constBase, arrayType);
    OwnRunLayout(lastShelfType, "", sec, 0, 10 * constBase);
    OwnStepSumOfWords(sec, 0, j);
    assert WordSum(sec, 0, j + 1) == WordSum(sec, 0, j) + Words(sec, j) by {
      WordSumSplit(sec, 0, j);
    }
  }

  /** Peeling the last term off a sum of int(offset). */
  lemma {:induction false} WordSumSplit(sec: Items, lo: nat, hi: nat)
    requires lo <= hi < |sec|
    ensures WordSum(sec, lo, hi + 1) == WordSum(sec, lo, hi) + Words(sec, hi)
    decreases hi - lo
  {
    if lo < hi {
      WordSumSplit(sec, lo + 1, hi);
    }
  }

  /** Both passes over WORD pumps place every pump at the same cursor. The HMI
      address is the global one behind the PLC prefix exactly when the last shelf
      declaration's type is not a BOOL type; otherwise it is written as a bit
      address of that cursor. */
  lemma PumpsHmiMatchesGlobal(pumpBase: int, lastShelfType: string, sec: Items, arrayType: Option<string>, j: nat)
    requires AllNumericFrom(sec, 0) && WordsOnly(sec) && j < |sec|
    ensures var g := UnitGlobal("", 10 * pumpBase, sec, 0);
      var h := HmiUnit(ConstantOrPump(Some(lastShelfType)), "", sec, 0, 10 * pumpBase, arrayType);
      && g.Success? && h.Success?
      && |g.value| == |h.value.placed| == |sec|
      && g.value[j].name == h.value.placed[j].name == sec[j].0
      && g.value[j].cursor == h.value.placed[j].cursor
      && (!IsBool(lastShelfType) ==> HmiWriteOf(h.value.placed[j]).1.addr == HmiTagPlcName + WriteOf(g.value[j]).1.addr)
      && (IsBool(lastShelfType) ==> HmiWriteOf(h.value.placed[j]).1.addr == HmiTagPlcName + DAddress(g.value[j].cursor, true))
  {
    UnitGlobalLayout("", 10 * pumpBase, sec, 0);
    PlainUnitHmi(lastShelfType, "", sec, 0, 10 * pumpBase, arrayType);
    OwnRunLayout(lastShelfType, "", sec, 0, 10 * pumpBase);
    OwnStepSumOfWords(sec, 0, j);
    NotContainsWithoutFirstChar("WORD", "BOOL");
  }
}
