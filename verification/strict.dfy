/**
 * `strictRpsDispatch` and its completion callback as a counting state machine.
 * One `Tick` is one iteration of the outer loop: after the one-second sleep
 * (abstracted away) it adds `p` to the WaitGroup and starts `p` requests,
 * whatever is still in flight.
 */
module StrictDispatch {
  import opened Wrappers
  import opened Dispatch

  /**
   * `reqNum` is the loop counter and `ticks` the iterations so far; of the
   * launched requests, `running` have not yet called `wg.Done` and `finished`
   * have. `dispatched` says the loop has ended and `done` has been called.
   */
  datatype State = State(reqNum: nat, ticks: nat, wg: int, running: nat, finished: nat, dispatched: bool)

  datatype Step = Tick | Done | Exit

  function Init(): State {
    State(0, 0, 0, 0, 0, false)
  }

  /** A tick depends only on the loop condition, never on how many requests are in flight. */
  predicate Enabled(p: nat, n: nat, s: State, step: Step) {
    match step
    case Tick => LoopGuard(s.reqNum, n)
    case Done => s.running > 0
    case Exit => !s.dispatched && !LoopGuard(s.reqNum, n)
  }

  function Next(p: nat, n: nat, s: State, step: Step): State
    requires Enabled(p, n, s, step)
  {
    match step
    case Tick => s.(reqNum := s.reqNum + p, ticks := s.ticks + 1, wg := s.wg + p, running := s.running + p)
    case Done => s.(wg := s.wg - 1, running := s.running - 1, finished := s.finished + 1)
    case Exit => s.(dispatched := true)
  }

  function Run(p: nat, n: nat, s: State, steps: seq<Step>): Option<State>
    decreases |steps|
  {
    if steps == [] then Some(s)
    else if Enabled(p, n, s, steps[0]) then Run(p, n, Next(p, n, s, steps[0]), steps[1..])
    else None
  }

  /**
   * The bookkeeping every reachable state keeps; in particular each tick began
   * with the counter below `n`.
   */
  ghost predicate Inv(p: nat, n: nat, s: State) {
    && s.reqNum == s.ticks * p
    && s.wg == s.running
    && s.reqNum == s.running + s.finished
    && (n > 0 && s.ticks > 0 ==> (s.ticks - 1) * p < n)
    && (s.dispatched ==> n > 0 && n <= s.reqNum)
  }

  lemma StepKeepsInv(p: nat, n: nat, s: State, step: Step)
    requires Inv(p, n, s) && Enabled(p, n, s, step)
    ensures Inv(p, n, Next(p, n, s, step))
  {
    if step == Tick {
      assert (s.ticks + 1) * p == s.ticks * p + p;
    }
  }

  lemma {:induction false} RunKeepsInv(p: nat, n: nat, s: State, steps: seq<Step>)
    requires Inv(p, n, s)
    ensures Run(p, n, s, steps).Some? ==> Inv(p, n, Run(p, n, s, steps).value)
    decreases |steps|
  {
    if steps != [] && Enabled(p, n, s, steps[0]) {
      StepKeepsInv(p, n, s, steps[0]);
      RunKeepsInv(p, n, Next(p, n, s, steps[0]), steps[1..]);
    }
  }

  /**
   * Once the loop has ended it ran ceil(n/p) ticks of `p` launches each: the
   * number launched is at least `n` and overshoots it by less than `p`.
   */
  lemma LaunchCount(p: nat, n: nat, steps: seq<Step>)
    requires Run(p, n, Init(), steps).Some? && Run(p, n, Init(), steps).value.dispatched
    ensures var t := Run(p, n, Init(), steps).value;
      && n > 0 && p > 0
      && t.reqNum == t.ticks * p
      && (t.ticks - 1) * p < n <= t.ticks * p
      && n <= t.reqNum < n + p
  {
    RunKeepsInv(p, n, Init(), steps);
    var t := Run(p, n, Init(), steps).value;
    assert t.ticks * p == (t.ticks - 1) * p + p;
  }

  /** When `wg.Wait` returns after `done`, every launched request has run its callback. */
  lemma DrainedMeansAllCompleted(p: nat, n: nat, steps: seq<Step>)
    requires Run(p, n, Init(), steps).Some?
    requires Run(p, n, Init(), steps).value.dispatched && Run(p, n, Init(), steps).value.wg == 0
    ensures var t := Run(p, n, Init(), steps).value;
      t.running == 0 && t.finished == t.reqNum && t.reqNum >= n
  {
    RunKeepsInv(p, n, Init(), steps);
  }

  /** With a request count of 0 the loop condition always holds, so the loop never ends. */
  lemma {:induction false} UnboundedNeverDispatched(p: nat, steps: seq<Step>, s: State)
    requires !s.dispatched
    ensures Run(p, 0, s, steps).Some? ==> !Run(p, 0, s, steps).value.dispatched
    decreases |steps|
  {
    if steps != [] && Enabled(p, 0, s, steps[0]) {
      UnboundedNeverDispatched(p, steps[1..], Next(p, 0, s, steps[0]));
    }
  }

  /** With `p == 0` a tick adds nothing to the counter: nothing is ever launched and the loop never ends. */
  lemma {:induction false} ZeroParallelismSpins(n: nat, steps: seq<Step>, s: State)
    requires n > 0 && s.reqNum == 0 && s.running == 0 && !s.dispatched
    ensures Run(0, n, s, steps).Some? ==>
      var t := Run(0, n, s, steps).value;
      t.reqNum == 0 && t.running == 0 && !t.dispatched
    decreases |steps|
  {
    if steps != [] && Enabled(0, n, s, steps[0]) {
      ZeroParallelismSpins(n, steps[1..], Next(0, n, s, steps[0]));
    }
  }

  /** `k` ticks in a row, with no request completing in between. */
  function Ticks(k: nat): seq<Step> {
    if k == 0 then [] else Ticks(k - 1) + [Tick]
  }

  lemma {:induction false} RunAppend(p: nat, n: nat, s: State, a: seq<Step>, b: seq<Step>)
    ensures Run(p, n, s, a + b) == if Run(p, n, s, a).Some? then Run(p, n, Run(p, n, s, a).value, b) else None
    decreases |a|
  {
    if a != [] {
      assert (a + b)[0] == a[0] && (a + b)[1..] == a[1..] + b;
      if Enabled(p, n, s, a[0]) {
        RunAppend(p, n, Next(p, n, s, a[0]), a[1..], b);
      }
    } else {
      assert a + b == b;
    }
  }

  /**
   * Strict mode puts no cap on requests in flight: while the loop condition
   * lets `k` ticks run (always, for a request count of 0), `k` ticks with no
   * completion leave `k * p` requests outstanding.
   */
  lemma {:induction false} InFlightUnbounded(p: nat, n: nat, k: nat)
    requires n == 0 || k == 0 || (k - 1) * p < n
    ensures Run(p, n, Init(), Ticks(k)) == Some(State(k * p, k, k * p, k * p, 0, false))
  {
    if k > 0 {
      assert (k - 1) * p + p == k * p;
      assert n == 0 || k - 1 == 0 || (k - 2) * p < n by {
        if n != 0 && k > 1 {
          assert (k - 2) * p <= (k - 1) * p;
        }
      }
      InFlightUnbounded(p, n, k - 1);
      RunAppend(p, n, Init(), Ticks(k - 1), [Tick]);
    }
  }

  /**
   * The outer loop of `strictRpsDispatch` for a finite run, launching one
   * request per inner iteration. The ticks it takes, followed by the exit, are
   * a run of the state machine.
   */
  method StrictDispatchLoop(n: nat, p: nat) returns (ticks: nat, launched: nat)
    requires n > 0 && p > 0
    ensures launched == ticks * p
    ensures (ticks - 1) * p < n <= ticks * p
    ensures n <= launched < n + p
    ensures Run(p, n, Init(), Ticks(ticks) + [Exit]) == Some(State(launched, ticks, launched, launched, 0, true))
  {
    var reqNum: nat := 0;
    ticks, launched := 0, 0;
    while reqNum < n
      invariant reqNum == launched == ticks * p
      invariant ticks > 0 ==> (ticks - 1) * p < n
      invariant Run(p, n, Init(), Ticks(ticks)) == Some(State(reqNum, ticks, reqNum, reqNum, 0, false))
      decreases n - reqNum
    {
      RunAppend(p, n, Init(), Ticks(ticks), [Tick]);
      var r := 0;
      while r < p
        invariant 0 <= r <= p
        invariant launched == reqNum + r
      {
        launched := launched + 1;
        r := r + 1;
      }
      assert (ticks + 1) * p == ticks * p + p;
      ticks := ticks + 1;
      reqNum := reqNum + p;
    }
    RunAppend(p, n, Init(), Ticks(ticks), [Exit]);
    assert ticks * p == (ticks - 1) * p + p;
  }

  /** A measure every step lowers, for a finite request count and `p > 0`. */
  function Variant(n: nat, p: nat, s: State): int {
    2 * (n + p - s.reqNum) + s.running + (if s.dispatched then 0 else 1)
  }

  lemma {:induction false} RunLowersVariant(p: nat, n: nat, s: State, steps: seq<Step>)
    requires n > 0 && p > 0 && Inv(p, n, s)
    ensures Run(p, n, s, steps).Some? ==> Variant(n, p, Run(p, n, s, steps).value) <= Variant(n, p, s) - |steps|
    ensures Run(p, n, s, steps).Some? ==> Variant(n, p, Run(p, n, s, steps).value) >= 0
    decreases |steps|
  {
    if steps != [] && Enabled(p, n, s, steps[0]) {
      StepKeepsInv(p, n, s, steps[0]);
      RunLowersVariant(p, n, Next(p, n, s, steps[0]), steps[1..]);
    } else if steps == [] {
      if s.ticks > 0 {
        assert s.ticks * p == (s.ticks - 1) * p + p;
      }
    }
  }

  /** A finite run with `p > 0` takes at most `2(n + p) + 1` steps. */
  lemma FiniteRunTerminates(p: nat, n: nat, steps: seq<Step>)
    requires n > 0 && p > 0 && Run(p, n, Init(), steps).Some?
    ensures |steps| <= 2 * (n + p) + 1
  {
    RunLowersVariant(p, n, Init(), steps);
  }
}
