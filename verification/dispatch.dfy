/**
 * What the two dispatch loops of main.go share: the loop condition, and the
 * choice of loop that `bringThePain` makes from the configured mode.
 */
module Dispatch {
  import opened Config

  /**
   * Both loops keep launching while the counter is below the requested count,
   * and forever when the requested count is 0.
   */
  predicate LoopGuard(reqNum: nat, n: nat) {
    reqNum < n || n == 0
  }

  /** The dispatch loop `bringThePain` runs; with neither mode, no loop runs and `done` is called at once. */
  datatype Dispatcher = CappedInFlight | StrictRps | NoDispatch

  function SelectDispatcher(mode: ParallelismMode): (d: Dispatcher)
    ensures d == CappedInFlight <==> mode == "max-in-flight"
    ensures d == StrictRps <==> mode == "as-rps"
  {
    if mode == ModeMaxInFlight then CappedInFlight
    else if mode == ModeRpsStrict then StrictRps
    else NoDispatch
  }

  /** Every configuration that survives validation runs one of the two loops. */
  lemma AcceptedConfigDispatches(f: Flags)
    requires FromFlags(f).Ok?
    ensures SelectDispatcher(FromFlags(f).value.parallelismMode) != NoDispatch
  {
  }
}
