/**
 * Two `printStats` calls can overlap: on an interrupt, `main` prints while the
 * `printStatsLoop` goroutine keeps printing every second. Each call touches
 * shared state three times (read `TotalCount`, load the stored snapshot, store
 * the new one), requests keep adding to the total in between, and the steps of
 * the calls interleave. Only the totals are modelled.
 */
module SnapshotRace {
  import opened Report

  datatype Action = ReadTotal | LoadSnapshot | StoreSnapshot

  /** The order of `printStats` as written: read the total, load the snapshot, store the new one. */
  function AsWrittenOrder(): seq<Action> {
    [ReadTotal, LoadSnapshot, StoreSnapshot]
  }

  /** The snapshot loaded before the total is read. */
  function CorrectedOrder(): seq<Action> {
    [LoadSnapshot, ReadTotal, StoreSnapshot]
  }

  /** One call in progress: how many of its accesses are done, the total it read, the snapshot total it loaded. */
  datatype Printer = Printer(pc: nat, total: nat, last: nat)

  /** The shared total, the total held by the stored snapshot, and the calls. */
  datatype World = World(total: nat, cell: nat, printers: seq<Printer>)

  /** A request adds to the total, or call `i` performs its next access. */
  datatype Event = Recorded | Act(i: nat)

  function Perform(order: seq<Action>, w: World, e: Event): World
    requires |order| == 3
  {
    match e
    case Recorded => w.(total := w.total + 1)
    case Act(i) =>
      if i < |w.printers| && w.printers[i].pc < 3 then
        var p := w.printers[i];
        var next := p.(pc := p.pc + 1);
        match order[p.pc]
        case ReadTotal => w.(printers := w.printers[i := next.(total := w.total)])
        case LoadSnapshot => w.(printers := w.printers[i := next.(last := w.cell)])
        case StoreSnapshot => w.(cell := p.total, printers := w.printers[i := next])
      else
        w
  }

  function Execute(order: seq<Action>, w: World, events: seq<Event>): World
    requires |order| == 3
    decreases |events|
  {
    if events == [] then w else Execute(order, Perform(order, w, events[0]), events[1..])
  }

  /** The count a call reports since the last snapshot, as its `uint64` subtraction computes it. */
  function SinceLast(p: Printer): nat {
    WrapSub(p.total, p.last)
  }

  predicate AllFresh(ps: seq<Printer>) {
    forall i :: 0 <= i < |ps| ==> ps[i].pc == 0
  }

  /**
   * As written, an overlap makes the count wrap around: call 0 reads the total,
   * a request completes, call 1 runs to the end and stores the newer total, and
   * call 0 then loads that snapshot, which is ahead of the total it read.
   */
  lemma AsWrittenRaceWraps()
    ensures var w := Execute(AsWrittenOrder(), World(0, 0, [Printer(0, 0, 0), Printer(0, 0, 0)]),
                             [Act(0), Recorded, Act(1), Act(1), Act(1), Act(0)]);
      && w.printers[0] == Printer(2, 0, 1)
      && SinceLast(w.printers[0]) == U64 - 1
  {
  }

  /** What every world reached in the corrected order keeps. */
  ghost predicate Inv(w: World) {
    && w.cell <= w.total
    && (forall i :: 0 <= i < |w.printers| ==> w.printers[i].pc <= 3)
    && (forall i :: 0 <= i < |w.printers| && w.printers[i].pc >= 1 ==> w.printers[i].last <= w.total)
    && (forall i :: 0 <= i < |w.printers| && w.printers[i].pc >= 2 ==>
          w.printers[i].last <= w.printers[i].total <= w.total)
  }

  lemma PerformKeepsInv(w: World, e: Event)
    requires Inv(w)
    ensures Inv(Perform(CorrectedOrder(), w, e))
    ensures |Perform(CorrectedOrder(), w, e).printers| == |w.printers|
  {
  }

  lemma {:induction false} ExecuteKeepsInv(w: World, events: seq<Event>)
    requires Inv(w)
    ensures Inv(Execute(CorrectedOrder(), w, events))
    ensures |Execute(CorrectedOrder(), w, events).printers| == |w.printers|
    decreases |events|
  {
    if events != [] {
      PerformKeepsInv(w, events[0]);
      ExecuteKeepsInv(Perform(CorrectedOrder(), w, events[0]), events[1..]);
    }
  }

  /**
   * Loading the snapshot before reading the total, however the calls and the
   * requests interleave, every call that has read both sees a snapshot total no
   * larger than its own total, so its count is the plain difference.
   */
  lemma CorrectedNeverWraps(w: World, events: seq<Event>)
    requires w.cell <= w.total && AllFresh(w.printers)
    ensures var r := Execute(CorrectedOrder(), w, events);
      forall i :: 0 <= i < |r.printers| && r.printers[i].pc >= 2 ==>
        r.printers[i].last <= r.printers[i].total
        && (r.printers[i].total < U64 ==> SinceLast(r.printers[i]) == r.printers[i].total - r.printers[i].last)
  {
    ExecuteKeepsInv(w, events);
  }
}
