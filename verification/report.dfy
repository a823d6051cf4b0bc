/**
 * The reporting side of main.go: `presentStatuses`, which turns the bucket
 * map into a map keyed by decimal code, and the integer part of `printStats`,
 * which reports the counters and the number of requests since the last
 * snapshot and then replaces the snapshot. Time is an integer read from the
 * clock; the floating-point rate is not modelled.
 */
module Report {
  import opened Stats

  predicate IsDigit(ch: char) {
    '0' <= ch <= '9'
  }

  function DigitChar(d: nat): char
    requires d < 10
  {
    ('0' as int + d) as char
  }

  function DigitValue(ch: char): nat
    requires IsDigit(ch)
  {
    ch as int - '0' as int
  }

  predicate IsDecimal(s: string) {
    |s| >= 1 && forall i :: 0 <= i < |s| ==> IsDigit(s[i])
  }

  /** The decimal digits of `n`, most significant first, with no leading zero. */
  function Decimal(n: nat): (s: string)
    ensures IsDecimal(s)
    decreases n
  {
    if n < 10 then [DigitChar(n)] else Decimal(n / 10) + [DigitChar(n % 10)]
  }

  /** `strconv.Itoa`: a minus sign for a negative number, then the decimal digits. */
  function Itoa(i: int): (s: string)
    ensures |s| >= 1
    ensures s[0] == '-' <==> i < 0
  {
    if i < 0 then "-" + Decimal(-i) else Decimal(i)
  }

  /** The value of a string of decimal digits: the inverse of `Decimal`. */
  function ParseDecimal(s: string): nat
    requires IsDecimal(s)
    decreases |s|
  {
    if |s| == 1 then DigitValue(s[0])
    else
      assert IsDecimal(s[..|s| - 1]) by {
        assert forall i :: 0 <= i < |s| - 1 ==> s[..|s| - 1][i] == s[i];
      }
      ParseDecimal(s[..|s| - 1]) * 10 + DigitValue(s[|s| - 1])
  }

  predicate IsInteger(s: string) {
    IsDecimal(s) || (|s| >= 2 && s[0] == '-' && IsDecimal(s[1..]))
  }

  /** The value of an optionally signed decimal string: the inverse of `Itoa`. */
  function Atoi(s: string): int
    requires IsInteger(s)
  {
    if s[0] == '-' then -(ParseDecimal(s[1..]) as int) else ParseDecimal(s)
  }

  lemma {:induction false} DecimalRoundTrip(n: nat)
    ensures ParseDecimal(Decimal(n)) == n
    decreases n
  {
    if n >= 10 {
      DecimalRoundTrip(n / 10);
      var s := Decimal(n);
      assert s[..|s| - 1] == Decimal(n / 10);
    }
  }

  /** `Itoa` loses nothing: parsing its output gives the number back. */
  lemma ItoaRoundTrip(i: int)
    ensures IsInteger(Itoa(i)) && Atoi(Itoa(i)) == i
  {
    if i < 0 {
      assert Itoa(i)[1..] == Decimal(-i);
      DecimalRoundTrip(-i);
    } else {
      DecimalRoundTrip(i);
    }
  }

  /** Distinct codes get distinct keys. */
  lemma ItoaInjective()
    ensures forall a, b :: Itoa(a) == Itoa(b) ==> a == b
  {
    forall a, b | Itoa(a) == Itoa(b)
      ensures a == b
    {
      ItoaRoundTrip(a);
      ItoaRoundTrip(b);
    }
  }

  /**
   * `presentStatuses`: every code whose count is positive, keyed by its
   * decimal string, with its count; codes with a zero count are left out.
   */
  function PresentStatuses(counts: map<int, nat>): (presented: map<string, nat>)
    ensures forall c :: c in counts && counts[c] > 0 ==> Itoa(c) in presented && presented[Itoa(c)] == counts[c]
    ensures forall c :: c in counts && counts[c] == 0 ==> Itoa(c) !in presented
    ensures forall k :: k in presented ==> IsInteger(k) && Atoi(k) in counts && counts[Atoi(k)] > 0
    ensures forall k :: k in presented ==> Itoa(Atoi(k)) == k && presented[k] == counts[Atoi(k)]
  {
    ItoaInjective();
    var presented := map c | c in counts && counts[c] > 0 :: Itoa(c) := counts[c];
    assert forall k :: k in presented ==> exists c :: c in counts && counts[c] > 0 && Itoa(c) == k;
    forall k | k in presented
      ensures IsInteger(k) && Atoi(k) in counts && counts[Atoi(k)] > 0
      ensures Itoa(Atoi(k)) == k && presented[k] == counts[Atoi(k)]
    {
      var c :| c in counts && counts[c] > 0 && Itoa(c) == k;
      ItoaRoundTrip(c);
    }
    presented
  }

  /** 2^64: Go's `uint64` arithmetic is modulo this. */
  const U64: int := 0x1_0000_0000_0000_0000

  /** `a - b` on `uint64`, which wraps around when `b > a`. */
  function WrapSub(a: nat, b: nat): nat {
    (a - b) % U64
  }

  /** The stored snapshot: when it was taken and the total read for it. */
  datatype Snapshot = Snapshot(time: int, totalCount: nat)

  /**
   * The integer fields of the "stats" log line. `sinceLast` is the numerator of
   * `responsesPerSecond` and `elapsed` the duration it is divided by.
   */
  datatype StatsLine = StatsLine(
    completed: nat,
    failed: nat,
    total: nat,
    sinceLast: nat,
    elapsed: int,
    statusCodes: map<string, nat>)

  /**
   * What one `printStats` call reads, in the order it reads them: the total, the
   * buckets, the clock, then the completed and failed counts. The counters are
   * separate atomic loads, so they may come from different instants.
   */
  datatype Reads = Reads(total: nat, statusCounts: map<int, nat>, now: int, completed: nat, failed: nat)

  /** One `printStats` call: the line it logs and the snapshot it stores in place of `last`. */
  function PrintStats(r: Reads, last: Snapshot): (out: (StatsLine, Snapshot))
    ensures out.1.totalCount == out.0.total == r.total && out.1.time == r.now
    ensures out.0.completed == r.completed && out.0.failed == r.failed
    ensures out.0.elapsed == r.now - last.time
    ensures out.0.statusCodes == PresentStatuses(r.statusCounts)
    ensures last.totalCount <= r.total < U64 ==> out.0.sinceLast == r.total - last.totalCount
    ensures r.total < last.totalCount < U64 ==> out.0.sinceLast == U64 - (last.totalCount - r.total)
  {
    var line := StatsLine(r.completed, r.failed, r.total, WrapSub(r.total, last.totalCount),
                          r.now - last.time, PresentStatuses(r.statusCounts));
    (line, Snapshot(r.now, r.total))
  }

  /**
   * A line never shows a total above completed plus failed: the total is read
   * first, every request adds to its completed or failed count before its
   * total, and counters only grow.
   */
  lemma LineNeverOvercounts(atTotal: Stats, atCompleted: Stats, atFailed: Stats, r: Reads, last: Snapshot)
    requires atTotal.totalCount <= atTotal.completeCount + atTotal.failCount
    requires Grows(atTotal, atCompleted) && Grows(atTotal, atFailed)
    requires r.total == atTotal.totalCount
    requires r.completed == atCompleted.completeCount && r.failed == atFailed.failCount
    ensures PrintStats(r, last).0.total <= PrintStats(r, last).0.completed + PrintStats(r, last).0.failed
  {
  }

  /** Successive `printStats` calls, one after another, each starting from the snapshot the previous one stored. */
  function PrintSeries(last: Snapshot, calls: seq<Reads>): (lines: seq<StatsLine>)
    ensures |lines| == |calls|
    decreases |calls|
  {
    if calls == [] then []
    else
      var out := PrintStats(calls[0], last);
      [out.0] + PrintSeries(out.1, calls[1..])
  }

  /** Totals read one after another never decrease, and fit in a `uint64`. */
  predicate TotalsGrow(start: nat, calls: seq<Reads>) {
    && (forall i :: 0 <= i < |calls| ==> calls[i].total < U64)
    && (|calls| > 0 ==> start <= calls[0].total)
    && (forall i :: 0 < i < |calls| ==> calls[i - 1].total <= calls[i].total)
  }

  function SumSinceLast(lines: seq<StatsLine>): nat
    decreases |lines|
  {
    if lines == [] then 0 else lines[0].sinceLast + SumSinceLast(lines[1..])
  }

  /**
   * Sequential reporting counts every request exactly once: each line's count
   * since the last snapshot is the plain difference of successive totals (no
   * wrap-around), so the counts add up to the growth of the total.
   */
  lemma {:induction false} SeriesTelescopes(last: Snapshot, calls: seq<Reads>)
    requires TotalsGrow(last.totalCount, calls)
    ensures forall i :: 0 < i < |calls| ==>
      PrintSeries(last, calls)[i].sinceLast == calls[i].total - calls[i - 1].total
    ensures |calls| > 0 ==> PrintSeries(last, calls)[0].sinceLast == calls[0].total - last.totalCount
    ensures |calls| > 0 ==> SumSinceLast(PrintSeries(last, calls)) == calls[|calls| - 1].total - last.totalCount
    decreases |calls|
  {
    if calls != [] {
      var out := PrintStats(calls[0], last);
      var rest := calls[1..];
      assert TotalsGrow(out.1.totalCount, rest) by {
        assert forall i :: 0 < i < |rest| ==> rest[i - 1] == calls[i];
      }
      SeriesTelescopes(out.1, rest);
      var lines := PrintSeries(last, calls);
      assert lines[1..] == PrintSeries(out.1, rest);
      forall i | 0 < i < |calls|
        ensures lines[i].sinceLast == calls[i].total - calls[i - 1].total
      {
        if i > 1 {
          assert lines[i] == PrintSeries(out.1, rest)[i - 1];
          assert rest[i - 1] == calls[i] && rest[i - 2] == calls[i - 1];
        }
      }
    }
  }
}
