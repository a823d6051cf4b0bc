/**
 * `cappedInFlightDispatch` with the semaphore of `bringThePain` and its
 * completion callback, as a counting state machine. Time is abstracted away:
 * a run is a sequence of atomic steps, each enabled only when the source
 * would let it happen.
 */
module CappedDispatch {
  import opened Wrappers
  import opened Dispatch

  /**
   * `reqNum` is the loop counter, `held` the tokens in the semaphore channel and
   * `wg` the WaitGroup counter. Of the launched requests, `running` have not yet
   * called `wg.Done`, `releasing` have called it but not yet taken their token
   * back out of the channel, and `finished` have done both. `dispatched` says
   * the loop has ended and `done` has been called.
   */
  datatype State = State(
    reqNum: nat,
    held: nat,
    wg: int,
    running: nat,
    releasing: nat,
    finished: nat,
    dispatched: bool)

  /**
   * `Launch`: the send into the semaphore, `wg.Add(1)`, the `go` and `reqNum++`.
   * `WgDone` and `Release`: the two statements of the completion callback,
   * which `req` runs exactly once through `defer`. `Exit`: the loop condition
   * fails and `done` is called.
   */
  datatype Step = Launch | WgDone | Release | Exit

  function Init(): State {
    State(0, 0, 0, 0, 0, 0, false)
  }

  /** A send blocks on a full channel and a receive on an empty one. */
  predicate Enabled(p: nat, n: nat, s: State, step: Step) {
    match step
    case Launch => LoopGuard(s.reqNum, n) && s.held < p
    case WgDone => s.running > 0
    case Release => s.releasing > 0 && s.held > 0
    case Exit => !s.dispatched && !LoopGuard(s.reqNum, n)
  }

  function Next(p: nat, n: nat, s: State, step: Step): State
    requires Enabled(p, n, s, step)
  {
    match step
    case Launch => s.(reqNum := s.reqNum + 1, held := s.held + 1, wg := s.wg + 1, running := s.running + 1)
    case WgDone => s.(wg := s.wg - 1, running := s.running - 1, releasing := s.releasing + 1)
    case Release => s.(held := s.held - 1, releasing := s.releasing - 1, finished := s.finished + 1)
    case Exit => s.(dispatched := true)
  }

  /** Runs the steps in order; `None` when some step is not enabled where it is taken. */
  function Run(p: nat, n: nat, s: State, steps: seq<Step>): Option<State>
    decreases |steps|
  {
    if steps == [] then Some(s)
    else if Enabled(p, n, s, steps[0]) then Run(p, n, Next(p, n, s, steps[0]), steps[1..])
    else None
  }

  /** The bookkeeping that every reachable state keeps. */
  ghost predicate Inv(p: nat, n: nat, s: State) {
    && s.held == s.running + s.releasing
    && s.wg == s.running
    && s.reqNum == s.running + s.releasing + s.finished
    && s.held <= p
    && (n > 0 ==> s.reqNum <= n)
    && (s.dispatched ==> n > 0 && s.reqNum == n)
  }

  lemma StepKeepsInv(p: nat, n: nat, s: State, step: Step)
    requires Inv(p, n, s) && Enabled(p, n, s, step)
    ensures Inv(p, n, Next(p, n, s, step))
  {
  }

  lemma {:induction false} RunKeepsInv(p: nat, n: nat, s: State, steps: seq<Step>)
    requires Inv(p, n, s)
    ensures Run(p, n, s, steps).Some? ==> Inv(p, n, Run(p, n, s, steps).value)
    decreases |steps|
  {
    if steps != [] && Enabled(p, n, s, steps[0]) {
      StepKeepsInv(p, n, s, steps[0]);
      RunKeepsInv(p, n, Next(p, n, s, steps[0]), steps[1..]);
    }
  }

  /**
   * In every reachable state at most `p` requests hold a slot, the WaitGroup
   * counts exactly the launched requests whose callback has not run, and the
   * loop counter counts every launched request.
   */
  lemma InFlightBound(p: nat, n: nat, steps: seq<Step>)
    requires Run(p, n, Init(), steps).Some?
    ensures var t := Run(p, n, Init(), steps).value;
      && t.running + t.releasing <= p
      && t.wg == t.running
      && t.reqNum == t.running + t.releasing + t.finished
  {
    RunKeepsInv(p, n, Init(), steps);
  }

  /**
   * Once the loop has ended, exactly `n` requests were launched, and no
   * further launch is possible.
   */
  lemma LaunchesExactlyN(p: nat, n: nat, steps: seq<Step>)
    requires Run(p, n, Init(), steps).Some? && Run(p, n, Init(), steps).value.dispatched
    ensures n > 0 && Run(p, n, Init(), steps).value.reqNum == n
    ensures !Enabled(p, n, Run(p, n, Init(), steps).value, Launch)
  {
    RunKeepsInv(p, n, Init(), steps);
  }

  /**
   * When `wg.Wait` returns after `done` (the counter is 0), every one of the `n`
   * launched requests has called `wg.Done`. That `req` makes the call only after
   * its adds, through `defer`, is a fact of the source this machine does not
   * connect to the recording model.
   */
  lemma DrainedMeansAllCompleted(p: nat, n: nat, steps: seq<Step>)
    requires Run(p, n, Init(), steps).Some?
    requires Run(p, n, Init(), steps).value.dispatched && Run(p, n, Init(), steps).value.wg == 0
    ensures var t := Run(p, n, Init(), steps).value;
      t.running == 0 && t.releasing + t.finished == n
  {
    RunKeepsInv(p, n, Init(), steps);
  }

  /** With a request count of 0 the loop condition always holds, so the loop never ends. */
  lemma {:induction false} UnboundedNeverDispatched(p: nat, steps: seq<Step>, s: State)
    requires !s.dispatched
    ensures Run(p, 0, s, steps).Some? ==> !Run(p, 0, s, steps).value.dispatched
    decreases |steps|
  {
    if steps != [] && Enabled(p, 0, s, steps[0]) {
      UnboundedNeverDispatched(p, steps[1..], Next(p, 0, s, steps[0]));
    }
  }

  /** With a capacity of 0 the channel is unbuffered and nothing receives, so not even the first send happens. */
  lemma ZeroParallelismStalls(n: nat, steps: seq<Step>)
    requires Run(0, n, Init(), steps).Some?
    ensures steps == []
  {
  }

  /**
   * No deadlock: with `p > 0`, until the loop has ended and every request has
   * released its slot, some step can be taken.
   */
  lemma NoDeadlock(p: nat, n: nat, s: State)
    requires p > 0 && Inv(p, n, s)
    requires !(s.dispatched && s.running == 0 && s.releasing == 0)
    ensures Enabled(p, n, s, Launch) || Enabled(p, n, s, WgDone) || Enabled(p, n, s, Release) || Enabled(p, n, s, Exit)
  {
  }

  /** A measure every step lowers by exactly one, for a finite request count. */
  function Variant(n: nat, s: State): int {
    3 * (n - s.reqNum) + 2 * s.running + s.releasing + (if s.dispatched then 0 else 1)
  }

  lemma {:induction false} RunLowersVariant(p: nat, n: nat, s: State, steps: seq<Step>)
    requires n > 0 && Inv(p, n, s)
    ensures Run(p, n, s, steps).Some? ==> Variant(n, Run(p, n, s, steps).value) == Variant(n, s) - |steps|
    ensures Run(p, n, s, steps).Some? ==> Variant(n, Run(p, n, s, steps).value) >= 0
    decreases |steps|
  {
    if steps != [] && Enabled(p, n, s, steps[0]) {
      StepKeepsInv(p, n, s, steps[0]);
      RunLowersVariant(p, n, Next(p, n, s, steps[0]), steps[1..]);
    }
  }

  /** A finite run takes at most `3n + 1` steps: every launch is followed by at most two completion steps and one exit. */
  lemma FiniteRunTerminates(p: nat, n: nat, steps: seq<Step>)
    requires n > 0 && Run(p, n, Init(), steps).Some?
    ensures |steps| <= 3 * n + 1
  {
    RunLowersVariant(p, n, Init(), steps);
  }

  /** Requests launched and completed one at a time, then the loop exit. */
  function OneAtATime(k: nat): seq<Step> {
    if k == 0 then [] else [Launch, WgDone, Release] + OneAtATime(k - 1)
  }

  lemma {:induction false} RunAppend(p: nat, n: nat, s: State, a: seq<Step>, b: seq<Step>)
    ensures Run(p, n, s, a + b) == if Run(p, n, s, a).Some? then Run(p, n, Run(p, n, s, a).value, b) else None
    decreases |a|
  {
    if a != [] {
      assert (a + b)[0] == a[0] && (a + b)[1..] == a[1..] + b;
      if Enabled(p, n, s, a[0]) {
        RunAppend(p, n, Next(p, n, s, a[0]), a[1..], b);
      }
    } else {
      assert a + b == b;
    }
  }

  lemma {:induction false} OneAtATimeRuns(p: nat, n: nat, k: nat, done: nat)
    requires p > 0 && done + k <= n
    ensures Run(p, n, State(done, 0, 0, 0, 0, done, false), OneAtATime(k))
         == Some(State(done + k, 0, 0, 0, 0, done + k, false))
    decreases k
  {
    if k > 0 {
      var s := State(done, 0, 0, 0, 0, done, false);
      var s3 := State(done + 1, 0, 0, 0, 0, done + 1, false);
      assert Run(p, n, s, [Launch, WgDone, Release]) == Some(s3) by {
        assert [Launch, WgDone, Release][1..] == [WgDone, Release];
        assert [WgDone, Release][1..] == [Release];
      }
      RunAppend(p, n, s, [Launch, WgDone, Release], OneAtATime(k - 1));
      OneAtATimeRuns(p, n, k - 1, done + 1);
    }
  }

  /** With `p > 0` and `n > 0`, natural completion is reachable: `n` launches, all completed, loop ended. */
  lemma CompletionReachable(p: nat, n: nat)
    requires p > 0 && n > 0
    ensures Run(p, n, Init(), OneAtATime(n) + [Exit]) == Some(State(n, 0, 0, 0, 0, n, true))
  {
    OneAtATimeRuns(p, n, n, 0);
    RunAppend(p, n, Init(), OneAtATime(n), [Exit]);
  }
}
