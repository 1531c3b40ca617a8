/** The period-maintenance step shared by the audio and status tasks: measure
    the time elapsed since the nominal start of the cycle, stop on an
    overrun, otherwise sleep out the rest of the period and advance the
    nominal start by exactly one period. `exit(-1)` becomes the `Overrun`
    outcome; the clock and `nanosleep` become the `end` parameter and the
    returned sleep. */
module Periodic {
  import opened TimeArith

  datatype Step = Continue(sleep: Timespec, next: Timespec) | Overrun

  /** One cycle's bookkeeping (`diffTime(end, start)`, the guard
      `0 >= compTime(cycle, diff)`, `diffTime(cycle, diff)`,
      `addTime(start, cycle)`). The cycle continues exactly when less than one
      period has elapsed; the sleep is then positive and ends exactly at the
      next nominal start, which is one period after the old one whatever
      `end` was. */
  function PeriodStep(start: Timespec, cycle: Timespec, end: Timespec): (r: Step)
    requires Normalized(start) && Normalized(cycle) && Normalized(end)
    ensures r.Continue? <==> Value(end) - Value(start) < Value(cycle)
    ensures r.Continue? ==>
              && Normalized(r.sleep)
              && 0 < Value(r.sleep) == Value(cycle) - (Value(end) - Value(start))
              && Normalized(r.next)
              && Value(r.next) == Value(start) + Value(cycle)
  {
    var elapsed := DiffTime(end, start);
    LexGreaterIsLater(cycle, elapsed);
    if 0 >= CompTime(cycle, elapsed) then
      Overrun
    else
      Continue(DiffTime(cycle, elapsed), AddTime(start, cycle))
  }

  /** A sleep started at `end` ends exactly at the next nominal start. */
  lemma WakeAtNextStart(start: Timespec, cycle: Timespec, end: Timespec)
    requires Normalized(start) && Normalized(cycle) && Normalized(end)
    requires PeriodStep(start, cycle, end).Continue?
    ensures AddTime(end, PeriodStep(start, cycle, end).sleep) == PeriodStep(start, cycle, end).next
  {
    var r := PeriodStep(start, cycle, end);
    ValueInjective(AddTime(end, r.sleep), r.next);
  }

  /** The nominal start after `n` cycles that did not overrun. */
  function StartAfter(start: Timespec, cycle: Timespec, n: nat): (s: Timespec)
    ensures Normalized(start) && Normalized(cycle) ==>
              Normalized(s) && Value(s) == Value(start) + n * Value(cycle)
    decreases n
  {
    if n == 0 then start
    else
      var s := StartAfter(AddTime(start, cycle), cycle, n - 1);
      assert n * Value(cycle) == Value(cycle) + (n - 1) * Value(cycle);
      s
  }

  /** Counting one more period from the start reached after `n` periods:
      the closed form of `StartAfter` read from its far end. */
  lemma StartAfterSucc(start: Timespec, cycle: Timespec, n: nat)
    requires Normalized(start) && Normalized(cycle)
    ensures StartAfter(start, cycle, n + 1) == AddTime(StartAfter(start, cycle, n), cycle)
  {
    ValueInjective(StartAfter(start, cycle, n + 1), AddTime(StartAfter(start, cycle, n), cycle));
  }

  predicate AllNormalized(ends: seq<Timespec>) {
    forall i :: 0 <= i < |ends| ==> Normalized(ends[i])
  }

  datatype Run = Completed(start: Timespec) | Faulted(cycles: nat, start: Timespec)

  /** The body of a periodic task's `while (1)` loop run against a
      sequence of observed end times, one per cycle: either every cycle
      completes, or the task stops at the first overrun after `cycles`
      completed cycles, with the nominal start it had then. */
  function Iterate(start: Timespec, cycle: Timespec, ends: seq<Timespec>): (r: Run)
    requires Normalized(start) && Normalized(cycle) && AllNormalized(ends)
    ensures r.Faulted? ==> r.cycles < |ends|
    ensures r.Faulted? ==> Normalized(r.start) && Value(ends[r.cycles]) - Value(r.start) >= Value(cycle)
    decreases |ends|
  {
    if ends == [] then Completed(start)
    else
      match PeriodStep(start, cycle, ends[0])
      case Overrun => Faulted(0, start)
      case Continue(_, next) =>
        match Iterate(next, cycle, ends[1..])
        case Completed(s) => Completed(s)
        case Faulted(k, s) => Faulted(k + 1, s)
  }

  /** No drift: the nominal start after any number of completed cycles is
      the first start plus that many periods, whatever the observed end
      times were; a run that faults does so at an end time a full period or
      more after the nominal start it had reached. */
  lemma {:induction false} NoDrift(start: Timespec, cycle: Timespec, ends: seq<Timespec>)
    requires Normalized(start) && Normalized(cycle) && AllNormalized(ends)
    ensures var r := Iterate(start, cycle, ends);
            && (r.Completed? ==> r.start == StartAfter(start, cycle, |ends|))
            && (r.Faulted? ==>
                  && r.cycles < |ends|
                  && r.start == StartAfter(start, cycle, r.cycles)
                  && Value(ends[r.cycles]) - Value(r.start) >= Value(cycle))
    decreases |ends|
  {
    if ends != [] {
      var step := PeriodStep(start, cycle, ends[0]);
      if step.Continue? {
        var next := step.next;
        assert next == AddTime(start, cycle) by {
          ValueInjective(next, AddTime(start, cycle));
        }
        var rest := Iterate(next, cycle, ends[1..]);
        NoDrift(next, cycle, ends[1..]);
        if rest.Completed? {
          assert StartAfter(start, cycle, |ends|) == StartAfter(next, cycle, |ends[1..]|);
        } else {
          assert ends[rest.cycles + 1] == ends[1..][rest.cycles];
          assert StartAfter(start, cycle, rest.cycles + 1) == StartAfter(next, cycle, rest.cycles);
        }
      }
    }
  }

  /** A run stops at its first overrun: every cycle before the fault (every
      cycle, when the run completes) ended less than one period after its
      nominal start. */
  lemma {:induction false} NoEarlyFault(start: Timespec, cycle: Timespec, ends: seq<Timespec>, j: nat)
    requires Normalized(start) && Normalized(cycle) && AllNormalized(ends)
    requires j < |ends|
    requires Iterate(start, cycle, ends).Completed? || j < Iterate(start, cycle, ends).cycles
    ensures Value(ends[j]) - Value(StartAfter(start, cycle, j)) < Value(cycle)
    decreases j
  {
    var step := PeriodStep(start, cycle, ends[0]);
    if j > 0 {
      ValueInjective(step.next, AddTime(start, cycle));
      assert ends[j] == ends[1..][j - 1];
      NoEarlyFault(step.next, cycle, ends[1..], j - 1);
    }
  }

  /** A concrete case in nanoseconds: with a period of 100, a body that
      took 30 sleeps 70 and moves the start to 100. */
  lemma HundredUnitPeriodSleeps(start: Timespec, cycle: Timespec, end: Timespec)
    requires Normalized(start) && Normalized(cycle) && Normalized(end)
    requires Value(start) == 0 && Value(cycle) == 100 && Value(end) == 30
    ensures PeriodStep(start, cycle, end) == Continue(Timespec(0, 70), Timespec(0, 100))
  {
    var r := PeriodStep(start, cycle, end);
    ValueInjective(r.sleep, Timespec(0, 70));
    ValueInjective(r.next, Timespec(0, 100));
  }

  /** The same period with a body that took the whole period: an overrun. */
  lemma HundredUnitPeriodOverruns(start: Timespec, cycle: Timespec, end: Timespec)
    requires Normalized(start) && Normalized(cycle) && Normalized(end)
    requires Value(start) == 0 && Value(cycle) == 100 && Value(end) == 100
    ensures PeriodStep(start, cycle, end) == Overrun
  {
  }
}
