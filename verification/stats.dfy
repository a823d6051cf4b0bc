/**
 * The shared statistics record of main.go and the increments a request makes
 * to it. Every `atomic.AddUint64` call is one indivisible `Add`; recording an
 * outcome is the program of adds that `req` performs, in source order.
 * Counters are unbounded naturals (64-bit wrap-around is not modelled).
 */
module Stats {
  import opened Wrappers

  /** The hydration loop fills status codes from 100 up to, not including, 600. */
  const FirstCode: int := 100
  const EndCode: int := 600

  predicate IsHydratedCode(c: int) {
    FirstCode <= c < EndCode
  }

  /** A request either fails in the transport or gets a response with a status code. */
  datatype Outcome = Failure | Success(code: int)

  /** `atomic.AddUint64` through the nil `*uint64` that a missing status-code key yields. */
  datatype Fault = NilCounter(code: int)

  /**
   * `statusCounts` maps a status code to its counter; a code that is not a key
   * is the nil `*uint64` a Go map lookup returns for a missing key.
   */
  datatype Stats = Stats(completeCount: nat, failCount: nat, totalCount: nat, statusCounts: map<int, nat>)

  /** The counter a single `atomic.AddUint64` call targets. */
  datatype Counter = Complete | Fail | Total | Status(code: int)

  /** `m[c]`, or 0 when `c` is not a key. */
  function Get(m: map<int, nat>, c: int): nat {
    if c in m then m[c] else 0
  }

  /** The sum of the buckets for codes `lo` up to, not including, `hi`. */
  function SumRange(m: map<int, nat>, lo: int, hi: int): nat
    decreases hi - lo
  {
    if lo >= hi then 0 else Get(m, lo) + SumRange(m, lo + 1, hi)
  }

  /** The sum of every hydrated bucket. */
  function BucketSum(m: map<int, nat>): nat {
    SumRange(m, FirstCode, EndCode)
  }

  /** No counter and no bucket is smaller in `t` than in `s`, and the buckets are the same keys. */
  predicate Grows(s: Stats, t: Stats) {
    && s.completeCount <= t.completeCount
    && s.failCount <= t.failCount
    && s.totalCount <= t.totalCount
    && (forall c :: c in t.statusCounts ==> c in s.statusCounts)
    && (forall c :: c in s.statusCounts ==> c in t.statusCounts && s.statusCounts[c] <= t.statusCounts[c])
  }

  /** The counting invariant of a quiescent statistics record. */
  ghost predicate Consistent(s: Stats) {
    && (forall c :: c in s.statusCounts <==> IsHydratedCode(c))
    && s.totalCount == s.completeCount + s.failCount
    && BucketSum(s.statusCounts) == s.completeCount
  }

  /**
   * The hydration loop from code `i` on: stores a zero counter for every code
   * from `i` up to, not including, `EndCode`, keeping the other entries of `m`.
   */
  function HydrateFrom(m: map<int, nat>, i: int): (r: map<int, nat>)
    ensures forall c :: c in r <==> c in m || i <= c < EndCode
    ensures forall c :: c in r ==> r[c] == (if i <= c < EndCode then 0 else m[c])
    decreases EndCode - i
  {
    if i < EndCode then HydrateFrom(m[i := 0], i + 1) else m
  }

  /** The record as `main` builds it: zero counters and a zero bucket for each code 100..599, nothing else. */
  function NewStats(): (s: Stats)
    ensures forall c :: c in s.statusCounts <==> IsHydratedCode(c)
    ensures forall c :: c in s.statusCounts ==> s.statusCounts[c] == 0
    ensures s.completeCount == 0 && s.failCount == 0 && s.totalCount == 0
  {
    Stats(0, 0, 0, HydrateFrom(map[], FirstCode))
  }

  lemma {:induction false} SumRangeOfZeros(m: map<int, nat>, lo: int, hi: int)
    requires forall c :: c in m ==> m[c] == 0
    ensures SumRange(m, lo, hi) == 0
    decreases hi - lo
  {
    if lo < hi {
      SumRangeOfZeros(m, lo + 1, hi);
    }
  }

  /** The hydrated record satisfies the counting invariant. */
  lemma NewStatsConsistent()
    ensures Consistent(NewStats())
  {
    SumRangeOfZeros(NewStats().statusCounts, FirstCode, EndCode);
  }

  /** One `atomic.AddUint64`: adds one to the target counter, or faults on a nil bucket. */
  function Add(s: Stats, c: Counter): (r: Result<Stats, Fault>)
    ensures r.Err? <==> c.Status? && c.code !in s.statusCounts
  {
    match c
    case Complete => Ok(s.(completeCount := s.completeCount + 1))
    case Fail => Ok(s.(failCount := s.failCount + 1))
    case Total => Ok(s.(totalCount := s.totalCount + 1))
    case Status(code) =>
      if code in s.statusCounts then
        Ok(s.(statusCounts := s.statusCounts[code := s.statusCounts[code] + 1]))
      else
        Err(NilCounter(code))
  }

  /** No add lowers a counter or changes which buckets exist. */
  lemma AddGrows(s: Stats, c: Counter)
    ensures Add(s, c).Ok? ==> Grows(s, Add(s, c).value)
  {
  }

  /** Adding one to bucket `c` adds one to every range sum that covers `c`, and nothing to the others. */
  lemma {:induction false} BumpSum(m: map<int, nat>, c: int, lo: int, hi: int)
    requires c in m
    ensures SumRange(m[c := m[c] + 1], lo, hi) == SumRange(m, lo, hi) + (if lo <= c < hi then 1 else 0)
    decreases hi - lo
  {
    if lo < hi {
      BumpSum(m, c, lo + 1, hi);
    }
  }

  /** The adds `req` performs for an outcome, in source order; `TotalCount` always comes last. */
  function Program(o: Outcome): seq<Counter> {
    match o
    case Failure => [Fail, Total]
    case Success(code) => [Complete, Status(code), Total]
  }

  /** Runs a sequence of adds, stopping at the first fault. */
  function Apply(s: Stats, cs: seq<Counter>): Result<Stats, Fault>
    decreases |cs|
  {
    if cs == [] then Ok(s)
    else
      var t :- Add(s, cs[0]);
      Apply(t, cs[1..])
  }

  /** Records one outcome by running its program of adds. */
  function Record(s: Stats, o: Outcome): (r: Result<Stats, Fault>)
    ensures o.Failure? ==> r == Ok(s.(failCount := s.failCount + 1, totalCount := s.totalCount + 1))
    ensures o.Success? && o.code in s.statusCounts ==>
      r == Ok(s.(completeCount := s.completeCount + 1,
                 totalCount := s.totalCount + 1,
                 statusCounts := s.statusCounts[o.code := s.statusCounts[o.code] + 1]))
    ensures o.Success? && o.code !in s.statusCounts ==> r == Err(NilCounter(o.code))
  {
    ProgramSteps(s, o);
    Apply(s, Program(o))
  }

  /** Unfolds the two or three adds of a program one at a time. */
  lemma ProgramSteps(s: Stats, o: Outcome)
    ensures o.Failure? ==> Apply(s, Program(o)) == Ok(s.(failCount := s.failCount + 1, totalCount := s.totalCount + 1))
    ensures o.Success? && o.code in s.statusCounts ==>
      Apply(s, Program(o)) == Ok(s.(completeCount := s.completeCount + 1,
                                    totalCount := s.totalCount + 1,
                                    statusCounts := s.statusCounts[o.code := s.statusCounts[o.code] + 1]))
    ensures o.Success? && o.code !in s.statusCounts ==> Apply(s, Program(o)) == Err(NilCounter(o.code))
  {
    match o
    case Failure =>
      var t := s.(failCount := s.failCount + 1);
      var u := t.(totalCount := t.totalCount + 1);
      assert [Fail, Total][1..] == [Total];
      assert Apply(s, [Fail, Total]) == Apply(t, [Total]);
      assert Apply(t, [Total]) == Ok(u);
    case Success(code) =>
      var t := s.(completeCount := s.completeCount + 1);
      assert [Complete, Status(code), Total][1..] == [Status(code), Total];
      assert [Status(code), Total][1..] == [Total];
      assert Apply(s, Program(o)) == Apply(t, [Status(code), Total]);
      if code in s.statusCounts {
        var u := t.(statusCounts := t.statusCounts[code := t.statusCounts[code] + 1]);
        var v := u.(totalCount := u.totalCount + 1);
        assert Apply(t, [Status(code), Total]) == Apply(u, [Total]);
        assert Apply(u, [Total]) == Ok(v);
      } else {
        assert Add(t, Status(code)) == Err(NilCounter(code));
      }
  }

  /** On a consistent record, recording faults exactly on a success code outside 100..599. */
  lemma RecordFaultsOffRange(s: Stats, o: Outcome)
    requires Consistent(s)
    ensures Record(s, o).Ok? <==> (o.Success? ==> IsHydratedCode(o.code))
  {
  }

  /** Recording keeps the counting invariant and never lowers a counter. */
  lemma RecordPreservesConsistency(s: Stats, o: Outcome)
    requires Consistent(s) && Record(s, o).Ok?
    ensures Consistent(Record(s, o).value)
    ensures Grows(s, Record(s, o).value)
  {
    RecordGrows(s, o);
    match o
    case Failure =>
      var t := s.(failCount := s.failCount + 1, totalCount := s.totalCount + 1);
      assert Record(s, o) == Ok(t);
      assert t.statusCounts == s.statusCounts;
    case Success(code) =>
      var t := Stats(s.completeCount + 1, s.failCount, s.totalCount + 1,
                     s.statusCounts[code := s.statusCounts[code] + 1]);
      assert Record(s, o) == Ok(t);
      SuccessKeepsConsistent(s, code);
  }

  lemma RecordGrows(s: Stats, o: Outcome)
    requires Record(s, o).Ok?
    ensures Grows(s, Record(s, o).value)
  {
  }

  /** A success on a hydrated code, applied to a consistent record, keeps it consistent. */
  lemma SuccessKeepsConsistent(s: Stats, code: int)
    requires Consistent(s) && IsHydratedCode(code)
    ensures Consistent(Stats(s.completeCount + 1, s.failCount, s.totalCount + 1,
                             s.statusCounts[code := s.statusCounts[code] + 1]))
  {
    var m := s.statusCounts[code := s.statusCounts[code] + 1];
    BucketSumBump(s.statusCounts, code);
    SameKeys(s.statusCounts, code);
  }

  lemma BucketSumBump(m: map<int, nat>, c: int)
    requires c in m && IsHydratedCode(c)
    ensures BucketSum(m[c := m[c] + 1]) == BucketSum(m) + 1
  {
    BumpSum(m, c, FirstCode, EndCode);
  }

  lemma SameKeys(m: map<int, nat>, c: int)
    requires c in m
    ensures forall k :: k in m[c := m[c] + 1] <==> k in m
  {
  }

  /** Records outcomes one after another, stopping at the first fault. */
  function RecordAll(s: Stats, os: seq<Outcome>): Result<Stats, Fault>
    decreases |os|
  {
    if os == [] then Ok(s)
    else
      var t :- RecordAll(s, os[..|os| - 1]);
      Record(t, os[|os| - 1])
  }

  /** Every success in `os` carries a code that has a bucket. */
  predicate AllHydrated(os: seq<Outcome>) {
    forall o :: o in os && o.Success? ==> IsHydratedCode(o.code)
  }

  /**
   * The record `s` plus one count per outcome in `ms`: failures to `failCount`,
   * successes to `completeCount` and to their code's bucket, all to `totalCount`.
   */
  function Tally(s: Stats, ms: multiset<Outcome>): Stats {
    Stats(s.completeCount + (|ms| - ms[Failure]),
          s.failCount + ms[Failure],
          s.totalCount + |ms|,
          map c | c in s.statusCounts :: s.statusCounts[c] + ms[Success(c)])
  }

  /** Recording one more outcome on top of a tally: the tally grows by that outcome, or the add faults. */
  lemma TallyStep(s: Stats, ms: multiset<Outcome>, o: Outcome)
    requires forall c :: c in s.statusCounts <==> IsHydratedCode(c)
    ensures Record(Tally(s, ms), o).Ok? <==> (o.Success? ==> IsHydratedCode(o.code))
    ensures Record(Tally(s, ms), o).Ok? ==> Record(Tally(s, ms), o).value == Tally(s, ms + multiset{o})
  {
    var t, u := Tally(s, ms), Tally(s, ms + multiset{o});
    match o
    case Failure =>
      assert t.statusCounts == u.statusCounts;
    case Success(code) =>
      if IsHydratedCode(code) {
        assert t.statusCounts[code := t.statusCounts[code] + 1] == u.statusCounts;
      }
  }

  /**
   * Recording a batch of outcomes from a hydrated record faults exactly when some
   * success code is off range, and otherwise adds exactly the tally of the batch.
   */
  lemma {:induction false} RecordAllTally(s: Stats, os: seq<Outcome>)
    requires forall c :: c in s.statusCounts <==> IsHydratedCode(c)
    ensures RecordAll(s, os).Ok? <==> AllHydrated(os)
    ensures RecordAll(s, os).Ok? ==> RecordAll(s, os).value == Tally(s, multiset(os))
    decreases |os|
  {
    if os == [] {
      assert Tally(s, multiset(os)).statusCounts == s.statusCounts;
      assert Tally(s, multiset(os)) == s;
    } else {
      var init, last := os[..|os| - 1], os[|os| - 1];
      assert os == init + [last];
      assert multiset(os) == multiset(init) + multiset{last};
      RecordAllTally(s, init);
      if RecordAll(s, init).Ok? {
        TallyStep(s, multiset(init), last);
      }
    }
  }

  /**
   * Recording does not depend on the order of the outcomes: two batches with the
   * same outcomes fault together or end in the same record.
   */
  lemma RecordOrderIndependent(s: Stats, os: seq<Outcome>, os': seq<Outcome>)
    requires forall c :: c in s.statusCounts <==> IsHydratedCode(c)
    requires multiset(os) == multiset(os')
    ensures RecordAll(s, os).Ok? <==> RecordAll(s, os').Ok?
    ensures RecordAll(s, os).Ok? ==> RecordAll(s, os) == RecordAll(s, os')
  {
    RecordAllTally(s, os);
    RecordAllTally(s, os');
    forall o ensures o in os <==> o in os' {
      assert o in os <==> o in multiset(os);
      assert o in os' <==> o in multiset(os');
    }
  }

  /** From a consistent record, any batch of outcomes that does not fault leaves the counting invariant intact. */
  lemma {:induction false} RecordAllConsistent(s: Stats, os: seq<Outcome>)
    requires Consistent(s)
    ensures RecordAll(s, os).Ok? ==> Consistent(RecordAll(s, os).value) && Grows(s, RecordAll(s, os).value)
    decreases |os|
  {
    if os != [] {
      var init := os[..|os| - 1];
      RecordAllConsistent(s, init);
      if RecordAll(s, init).Ok? && RecordAll(s, os).Ok? {
        var t := RecordAll(s, init).value;
        RecordPreservesConsistency(t, os[|os| - 1]);
        GrowsTransitive(s, t, RecordAll(s, os).value);
      }
    }
  }

  /** A record whose counters and hydrated buckets are all zero. */
  ghost predicate IsFresh(s: Stats) {
    && s.completeCount == 0 && s.failCount == 0 && s.totalCount == 0
    && (forall c :: c in s.statusCounts <==> IsHydratedCode(c))
    && (forall c :: c in s.statusCounts ==> s.statusCounts[c] == 0)
  }

  /**
   * From a fresh record, such as the one `main` builds, a run of recordings
   * faults exactly when some success carries a code outside 100..599;
   * otherwise each counter and bucket holds the number of outcomes it counts,
   * and the counting invariant holds.
   */
  lemma FreshRunCounts(s: Stats, os: seq<Outcome>)
    requires IsFresh(s)
    ensures RecordAll(s, os).Ok? <==> AllHydrated(os)
    ensures RecordAll(s, os).Ok? ==>
      var t := RecordAll(s, os).value;
      && Consistent(t)
      && t.totalCount == |os| && t.failCount == multiset(os)[Failure]
      && t.completeCount == |os| - multiset(os)[Failure]
      && forall c :: IsHydratedCode(c) ==> c in t.statusCounts && t.statusCounts[c] == multiset(os)[Success(c)]
  {
    SumRangeOfZeros(s.statusCounts, FirstCode, EndCode);
    RecordAllTally(s, os);
    RecordAllConsistent(s, os);
  }

  /** The record `main` builds is fresh. */
  lemma NewStatsFresh()
    ensures IsFresh(NewStats())
  {
  }

  lemma GrowsTransitive(a: Stats, b: Stats, c: Stats)
    requires Grows(a, b) && Grows(b, c)
    ensures Grows(a, c)
  {
  }
}
