/**
 * Concurrent recording. Every launched request runs `req` in its own
 * goroutine, and the goroutines' `atomic.AddUint64` calls interleave freely.
 * A `Worker` is one such goroutine, reduced to its outcome and how many of its
 * adds have run; a schedule picks which worker runs its next add.
 */
module Interleaving {
  import opened Wrappers
  import opened Stats

  /** One recording goroutine: the outcome it records and the number of its adds already done. */
  datatype Worker = Worker(outcome: Outcome, pc: nat)

  predicate Finished(w: Worker) {
    w.pc == |Program(w.outcome)|
  }

  predicate WellFormed(ws: seq<Worker>) {
    forall i :: 0 <= i < |ws| ==> ws[i].pc <= |Program(ws[i].outcome)|
  }

  predicate AllFresh(ws: seq<Worker>) {
    forall i :: 0 <= i < |ws| ==> ws[i].pc == 0
  }

  predicate AllFinished(ws: seq<Worker>) {
    forall i :: 0 <= i < |ws| ==> Finished(ws[i])
  }

  function Outcomes(ws: seq<Worker>): (os: seq<Outcome>)
    ensures |os| == |ws|
  {
    seq(|ws|, i requires 0 <= i < |ws| => ws[i].outcome)
  }

  /** Worker `i` still has an add to run. */
  predicate Pending(ws: seq<Worker>, i: nat) {
    i < |ws| && ws[i].pc < |Program(ws[i].outcome)|
  }

  /** The add worker `i` runs next. */
  function NextOp(ws: seq<Worker>, i: nat): Counter
    requires Pending(ws, i)
  {
    Program(ws[i].outcome)[ws[i].pc]
  }

  /** Worker `i` after its next add. */
  function Advance(ws: seq<Worker>, i: nat): seq<Worker>
    requires Pending(ws, i)
  {
    ws[i := ws[i].(pc := ws[i].pc + 1)]
  }

  /**
   * Worker `i` performs its next add. Picking a worker that has finished, or an
   * index with no worker, changes nothing.
   */
  function StepWorker(s: Stats, ws: seq<Worker>, i: nat): Result<(Stats, seq<Worker>), Fault> {
    if Pending(ws, i) then
      var t :- Add(s, NextOp(ws, i));
      Ok((t, Advance(ws, i)))
    else
      Ok((s, ws))
  }

  /** Runs the adds in the order the schedule picks, stopping at the first fault. */
  function Interleave(s: Stats, ws: seq<Worker>, schedule: seq<nat>): Result<(Stats, seq<Worker>), Fault>
    decreases |schedule|
  {
    if schedule == [] then Ok((s, ws))
    else
      var next :- StepWorker(s, ws, schedule[0]);
      Interleave(next.0, next.1, schedule[1..])
  }

  /** The sum of `f` over the workers. */
  function Sum(ws: seq<Worker>, f: Worker -> nat): nat
    decreases |ws|
  {
    if ws == [] then 0 else f(ws[0]) + Sum(ws[1..], f)
  }

  /** What each worker has added so far, counter by counter. */
  function CompleteDone(w: Worker): nat {
    if w.outcome.Success? && w.pc >= 1 then 1 else 0
  }

  function FailDone(w: Worker): nat {
    if w.outcome.Failure? && w.pc >= 1 then 1 else 0
  }

  function TotalDone(w: Worker): nat {
    if w.pc >= |Program(w.outcome)| then 1 else 0
  }

  function StatusDone(w: Worker, c: int): nat {
    if w.outcome == Success(c) && w.pc >= 2 then 1 else 0
  }

  /** 1 for a worker that has started its adds but not yet made its `TotalCount` add. */
  function InProgress(w: Worker): nat {
    if 1 <= w.pc < |Program(w.outcome)| then 1 else 0
  }

  /** `StatusDone` for one code, as a function to sum. */
  function StatusDoneFor(c: int): Worker -> nat {
    w => StatusDone(w, c)
  }

  /** The record `s` is `base` plus exactly the adds the workers have done. */
  ghost predicate Accounts(base: Stats, s: Stats, ws: seq<Worker>) {
    && WellFormed(ws)
    && s.completeCount == base.completeCount + Sum(ws, CompleteDone)
    && s.failCount == base.failCount + Sum(ws, FailDone)
    && s.totalCount == base.totalCount + Sum(ws, TotalDone)
    && (forall c :: c in s.statusCounts <==> c in base.statusCounts)
    && (forall c :: c in s.statusCounts ==> s.statusCounts[c] == base.statusCounts[c] + Sum(ws, StatusDoneFor(c)))
    && (forall i :: 0 <= i < |ws| && ws[i].outcome.Success? && ws[i].pc >= 2 ==> ws[i].outcome.code in s.statusCounts)
  }

  lemma {:induction false} SumUpdate(ws: seq<Worker>, i: nat, w: Worker, f: Worker -> nat)
    requires i < |ws|
    ensures Sum(ws[i := w], f) == Sum(ws, f) - f(ws[i]) + f(w)
    decreases |ws|
  {
    if i > 0 {
      assert ws[i := w][1..] == ws[1..][i - 1 := w];
      SumUpdate(ws[1..], i - 1, w, f);
    } else {
      assert ws[i := w][1..] == ws[1..];
    }
  }

  lemma {:induction false} SumOfZero(ws: seq<Worker>, f: Worker -> nat)
    requires forall i :: 0 <= i < |ws| ==> f(ws[i]) == 0
    ensures Sum(ws, f) == 0
    decreases |ws|
  {
    if ws != [] {
      SumOfZero(ws[1..], f);
    }
  }

  /** Fresh workers have added nothing. */
  lemma FreshAccounts(base: Stats, ws: seq<Worker>)
    requires AllFresh(ws)
    ensures Accounts(base, base, ws)
  {
    SumOfZero(ws, CompleteDone);
    SumOfZero(ws, FailDone);
    SumOfZero(ws, TotalDone);
    forall c | c in base.statusCounts
      ensures base.statusCounts[c] == base.statusCounts[c] + Sum(ws, StatusDoneFor(c))
    {
      SumOfZero(ws, StatusDoneFor(c));
    }
  }

  /** A pending worker's add moves the three plain counters by exactly its share. */
  lemma StepCounters(base: Stats, s: Stats, ws: seq<Worker>, i: nat, t: Stats)
    requires Accounts(base, s, ws) && Pending(ws, i) && Add(s, NextOp(ws, i)) == Ok(t)
    ensures WellFormed(Advance(ws, i))
    ensures t.completeCount == base.completeCount + Sum(Advance(ws, i), CompleteDone)
    ensures t.failCount == base.failCount + Sum(Advance(ws, i), FailDone)
    ensures t.totalCount == base.totalCount + Sum(Advance(ws, i), TotalDone)
  {
    var w' := ws[i].(pc := ws[i].pc + 1);
    SumUpdate(ws, i, w', CompleteDone);
    SumUpdate(ws, i, w', FailDone);
    SumUpdate(ws, i, w', TotalDone);
  }

  /** A pending worker's add moves each status bucket by exactly its share. */
  lemma StepBuckets(base: Stats, s: Stats, ws: seq<Worker>, i: nat, t: Stats)
    requires Accounts(base, s, ws) && Pending(ws, i) && Add(s, NextOp(ws, i)) == Ok(t)
    ensures forall c :: c in t.statusCounts <==> c in base.statusCounts
    ensures forall c :: c in t.statusCounts ==>
              t.statusCounts[c] == base.statusCounts[c] + Sum(Advance(ws, i), StatusDoneFor(c))
  {
    var w' := ws[i].(pc := ws[i].pc + 1);
    AddGrows(s, NextOp(ws, i));
    forall c | c in t.statusCounts
      ensures t.statusCounts[c] == base.statusCounts[c] + Sum(Advance(ws, i), StatusDoneFor(c))
    {
      SumUpdate(ws, i, w', StatusDoneFor(c));
    }
  }

  /** A worker past its status add had a bucket for its code, and buckets are never removed. */
  lemma StepHydrated(base: Stats, s: Stats, ws: seq<Worker>, i: nat, t: Stats)
    requires Accounts(base, s, ws) && Pending(ws, i) && Add(s, NextOp(ws, i)) == Ok(t)
    ensures forall k :: 0 <= k < |Advance(ws, i)| && Advance(ws, i)[k].outcome.Success? && Advance(ws, i)[k].pc >= 2
              ==> Advance(ws, i)[k].outcome.code in t.statusCounts
  {
    AddGrows(s, NextOp(ws, i));
  }

  /** One step keeps the accounting, keeps the outcomes, and never lowers a counter. */
  lemma StepAccounts(base: Stats, s: Stats, ws: seq<Worker>, i: nat)
    requires Accounts(base, s, ws)
    requires StepWorker(s, ws, i).Ok?
    ensures Accounts(base, StepWorker(s, ws, i).value.0, StepWorker(s, ws, i).value.1)
    ensures Outcomes(StepWorker(s, ws, i).value.1) == Outcomes(ws)
    ensures Grows(s, StepWorker(s, ws, i).value.0)
  {
    if Pending(ws, i) {
      var t := Add(s, NextOp(ws, i)).value;
      var ws' := Advance(ws, i);
      assert StepWorker(s, ws, i) == Ok((t, ws'));
      AddGrows(s, NextOp(ws, i));
      StepCounters(base, s, ws, i, t);
      StepBuckets(base, s, ws, i, t);
      StepHydrated(base, s, ws, i, t);
      assert Outcomes(ws') == Outcomes(ws);
    } else {
      assert StepWorker(s, ws, i) == Ok((s, ws));
    }
  }

  /**
   * Along any schedule the record stays `base` plus the adds done, the workers
   * keep their outcomes and no counter decreases. When every success code has a
   * bucket, no schedule faults.
   */
  lemma {:induction false} InterleaveAccounts(base: Stats, s: Stats, ws: seq<Worker>, schedule: seq<nat>)
    requires Accounts(base, s, ws)
    ensures ((forall c :: c in base.statusCounts <==> IsHydratedCode(c)) && AllHydrated(Outcomes(ws)))
              ==> Interleave(s, ws, schedule).Ok?
    ensures Interleave(s, ws, schedule).Ok? ==>
              var r := Interleave(s, ws, schedule).value;
              Accounts(base, r.0, r.1) && Outcomes(r.1) == Outcomes(ws) && Grows(s, r.0)
    decreases |schedule|
  {
    if schedule != [] {
      var i := schedule[0];
      if (forall c :: c in base.statusCounts <==> IsHydratedCode(c)) && AllHydrated(Outcomes(ws)) {
        if Pending(ws, i) {
          var op := NextOp(ws, i);
          if op.Status? {
            assert ws[i].outcome == Success(op.code);
            assert Outcomes(ws)[i] == ws[i].outcome;
          }
        }
      }
      if StepWorker(s, ws, i).Ok? {
        var next := StepWorker(s, ws, i).value;
        StepAccounts(base, s, ws, i);
        InterleaveAccounts(base, next.0, next.1, schedule[1..]);
        if Interleave(s, ws, schedule).Ok? {
          GrowsTransitive(s, next.0, Interleave(s, ws, schedule).value.0);
        }
      }
    }
  }

  /**
   * Each worker adds to `TotalCount` only after its `CompleteCount` or
   * `FailCount` add, so the two sides differ by exactly the workers between
   * those adds.
   */
  lemma {:induction false} TotalTrailsOutcomes(ws: seq<Worker>)
    requires WellFormed(ws)
    ensures Sum(ws, CompleteDone) + Sum(ws, FailDone) == Sum(ws, TotalDone) + Sum(ws, InProgress)
    ensures Sum(ws, InProgress) <= |ws|
    ensures AllFinished(ws) ==> Sum(ws, InProgress) == 0
    decreases |ws|
  {
    if ws != [] {
      TotalTrailsOutcomes(ws[1..]);
    }
  }

  /** Finished workers have added exactly the tally of their outcomes. */
  lemma {:induction false} FinishedSums(ws: seq<Worker>)
    requires AllFinished(ws)
    ensures Sum(ws, TotalDone) == |ws|
    ensures Sum(ws, FailDone) == multiset(Outcomes(ws))[Failure]
    ensures Sum(ws, CompleteDone) == |ws| - multiset(Outcomes(ws))[Failure]
    ensures forall c :: Sum(ws, StatusDoneFor(c)) == multiset(Outcomes(ws))[Success(c)]
    decreases |ws|
  {
    if ws != [] {
      FinishedSums(ws[1..]);
      assert Outcomes(ws) == [ws[0].outcome] + Outcomes(ws[1..]);
    }
  }

  /**
   * While requests are recording concurrently, a record read at any moment
   * shows in `CompleteCount + FailCount` exactly `TotalCount` plus one per
   * request still recording (started, total not yet added), so never less
   * than the total and at most one more per request in the run.
   */
  lemma InFlightBounds(base: Stats, ws: seq<Worker>, schedule: seq<nat>)
    requires Consistent(base) && AllFresh(ws)
    requires Interleave(base, ws, schedule).Ok?
    ensures var r := Interleave(base, ws, schedule).value;
      && r.0.completeCount + r.0.failCount == r.0.totalCount + Sum(r.1, InProgress)
      && r.0.totalCount <= r.0.completeCount + r.0.failCount
      && r.0.completeCount + r.0.failCount <= r.0.totalCount + |ws|
      && Grows(base, r.0)
  {
    FreshAccounts(base, ws);
    InterleaveAccounts(base, base, ws, schedule);
    TotalTrailsOutcomes(Interleave(base, ws, schedule).value.1);
  }

  /** A finished worker's status add went through, so its code has a bucket. */
  lemma FinishedHydrated(base: Stats, s: Stats, ws: seq<Worker>)
    requires Accounts(base, s, ws) && AllFinished(ws)
    requires forall c :: c in base.statusCounts <==> IsHydratedCode(c)
    ensures AllHydrated(Outcomes(ws))
  {
    forall o | o in Outcomes(ws) && o.Success?
      ensures IsHydratedCode(o.code)
    {
      var k :| 0 <= k < |ws| && Outcomes(ws)[k] == o;
      assert ws[k].pc >= 2;
    }
  }

  /** When every worker has finished, the record is `base` plus the tally of their outcomes. */
  lemma FinishedIsTally(base: Stats, s: Stats, ws: seq<Worker>)
    requires Accounts(base, s, ws) && AllFinished(ws)
    ensures s == Tally(base, multiset(Outcomes(ws)))
  {
    FinishedSums(ws);
    var ms := multiset(Outcomes(ws));
    var expected := Tally(base, ms);
    forall c
      ensures c in s.statusCounts <==> c in expected.statusCounts
    {
      assert c in expected.statusCounts <==> c in base.statusCounts;
    }
    forall c | c in s.statusCounts
      ensures s.statusCounts[c] == expected.statusCounts[c]
    {
      assert Sum(ws, StatusDoneFor(c)) == ms[Success(c)];
    }
    assert s.statusCounts == expected.statusCounts;
  }

  /**
   * No lost updates: once every worker has finished, whatever the schedule, the
   * record is the one recording the same outcomes one after another gives, and
   * it satisfies the counting invariant.
   */
  lemma InterleavingIsSequential(base: Stats, ws: seq<Worker>, schedule: seq<nat>)
    requires Consistent(base) && AllFresh(ws)
    requires Interleave(base, ws, schedule).Ok? && AllFinished(Interleave(base, ws, schedule).value.1)
    ensures RecordAll(base, Outcomes(ws)) == Ok(Interleave(base, ws, schedule).value.0)
    ensures Consistent(Interleave(base, ws, schedule).value.0)
  {
    var r := Interleave(base, ws, schedule).value;
    FreshAccounts(base, ws);
    InterleaveAccounts(base, base, ws, schedule);
    FinishedIsTally(base, r.0, r.1);
    FinishedHydrated(base, r.0, r.1);
    RecordAllTally(base, Outcomes(ws));
    RecordAllConsistent(base, Outcomes(ws));
  }
}
