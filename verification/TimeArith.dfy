/** Time arithmetic on POSIX `struct timespec` values: a whole-second count
    and a nanosecond count. The three operations are those the periodic
    tasks use to measure a cycle, compute the remaining sleep and advance the
    nominal start time. Seconds are unbounded integers here: an overflow of
    `time_t` is not modelled. */
module TimeArith {

  const NSEC_PER_SEC: int := 1_000_000_000

  /** 2^32: `addTime` keeps the nanosecond sum in an `unsigned long`, which
      is 32 bits wide on the program's targets (ARM and i386 RTEMS boards).
      Two normalized nanosecond counts sum to less than 2e9, so the wrap is
      reached only by un-normalized inputs. */
  const ULONG_MOD: int := 0x1_0000_0000

  datatype Timespec = Timespec(sec: int, nsec: int)

  /** The invariant every clock reading and every period satisfies. */
  predicate Normalized(t: Timespec) {
    0 <= t.nsec < NSEC_PER_SEC
  }

  /** The instant or duration a timespec denotes, in nanoseconds. */
  function Value(t: Timespec): int {
    t.sec * NSEC_PER_SEC + t.nsec
  }

  /** Lexicographic "strictly later" on (seconds, nanoseconds). */
  predicate LexGreater(t1: Timespec, t2: Timespec) {
    t1.sec > t2.sec || (t1.sec == t2.sec && t1.nsec > t2.nsec)
  }

  /** A normalized timespec is determined by the value it denotes. */
  lemma ValueInjective(a: Timespec, b: Timespec)
    requires Normalized(a) && Normalized(b)
    requires Value(a) == Value(b)
    ensures a == b
  {
  }

  /** On normalized values the lexicographic order is the order of the
      denoted instants. */
  lemma LexGreaterIsLater(t1: Timespec, t2: Timespec)
    requires Normalized(t1) && Normalized(t2)
    ensures LexGreater(t1, t2) <==> Value(t1) > Value(t2)
  {
  }

  /** `diffTime(end, start, &diff)`: end - start, borrowing one second when
      the nanoseconds of `end` are the smaller. The difference is exact for
      all inputs, and normalized whenever both inputs are. */
  function DiffTime(end: Timespec, start: Timespec): (d: Timespec)
    ensures Value(d) == Value(end) - Value(start)
    ensures Normalized(end) && Normalized(start) ==> Normalized(d)
    ensures Normalized(end) && Normalized(start) && Value(end) >= Value(start) ==> d.sec >= 0
  {
    if end.nsec < start.nsec then
      Timespec(end.sec - (start.sec + 1), NSEC_PER_SEC - start.nsec + end.nsec)
    else
      Timespec(end.sec - start.sec, end.nsec - start.nsec)
  }

  /** `addTime(end, start, &add)`: the nanoseconds are summed in an unsigned
      long, the quotient by 1e9 carries into the seconds and the remainder is
      the new nanosecond field. */
  function AddTime(a: Timespec, b: Timespec): (r: Timespec)
    ensures Normalized(r)
    ensures Normalized(a) && Normalized(b) ==>
              && Value(r) == Value(a) + Value(b)
              && r.nsec == (a.nsec + b.nsec) % NSEC_PER_SEC
              && r.sec - (a.sec + b.sec) == (if a.nsec + b.nsec >= NSEC_PER_SEC then 1 else 0)
  {
    var aux := (b.nsec + a.nsec) % ULONG_MOD;
    Timespec(b.sec + a.sec + aux / NSEC_PER_SEC, aux % NSEC_PER_SEC)
  }

  /** `compTime(t1, t2)`, as written. Equal seconds and `t1.nsec < t2.nsec`
      reach a test of `t1.sec < t2.sec` that cannot hold there, so control
      falls through to the final `return 0`: -1 is returned only when the
      seconds of `t1` are the smaller. */
  function CompTime(t1: Timespec, t2: Timespec): (r: int)
    ensures r == 1 <==> LexGreater(t1, t2)
    ensures r == -1 <==> t1.sec < t2.sec
    ensures r == 0 <==> t1.sec == t2.sec && t1.nsec <= t2.nsec
  {
    if t1.sec == t2.sec then
      if t1.nsec == t2.nsec then 0
      else if t1.nsec > t2.nsec then 1
      else if t1.sec < t2.sec then -1
      else 0
    else if t1.sec > t2.sec then 1
    else if t1.sec < t2.sec then -1
    else 0
  }

  /** The quirk of `CompTime`: it is not antisymmetric. Of two instants in
      the same second, the earlier compares equal to the later one, while
      the later compares greater than the earlier. */
  lemma CompTimeQuirk(t1: Timespec, t2: Timespec)
    requires t1.sec == t2.sec && t1.nsec < t2.nsec
    ensures CompTime(t1, t2) == 0 && CompTime(t2, t1) == 1
    ensures CompareLex(t1, t2) == -1
  {
  }

  /** The three-way lexicographic comparison `CompTime` evidently meant:
      seconds first, nanoseconds when the seconds are equal. */
  function CompareLex(t1: Timespec, t2: Timespec): (r: int)
    ensures r == 1 <==> LexGreater(t1, t2)
    ensures r == -1 <==> LexGreater(t2, t1)
    ensures r == 0 <==> t1 == t2
  {
    if t1.sec != t2.sec then
      (if t1.sec > t2.sec then 1 else -1)
    else if t1.nsec != t2.nsec then
      (if t1.nsec > t2.nsec then 1 else -1)
    else 0
  }

  /** `CompareLex` is a total order: antisymmetric and transitive, and on
      normalized values it orders by the denoted instant. */
  lemma CompareLexTotalOrder(a: Timespec, b: Timespec, c: Timespec)
    ensures CompareLex(a, b) == -CompareLex(b, a)
    ensures CompareLex(a, b) >= 0 && CompareLex(b, c) >= 0 ==> CompareLex(a, c) >= 0
    ensures CompareLex(a, b) > 0 && CompareLex(b, c) > 0 ==> CompareLex(a, c) > 0
    ensures Normalized(a) && Normalized(b) ==>
              (CompareLex(a, b) > 0 <==> Value(a) > Value(b))
  {
    if Normalized(a) && Normalized(b) {
      LexGreaterIsLater(a, b);
    }
  }

  /** The overrun guard `0 >= compTime(cycle, diff)` takes the same decision
      with the as-written and the corrected comparison: both report
      "greater" on exactly the same inputs. */
  lemma OverrunGuardUnaffected(cycle: Timespec, elapsed: Timespec)
    ensures (0 >= CompTime(cycle, elapsed)) <==> (0 >= CompareLex(cycle, elapsed))
    ensures (0 >= CompTime(cycle, elapsed)) <==> !LexGreater(cycle, elapsed)
  {
  }

  /** Subtracting and adding back the same instant is the identity on
      normalized values, whichever of the two is the later. */
  lemma DiffAddRoundTrip(end: Timespec, start: Timespec)
    requires Normalized(end) && Normalized(start)
    ensures AddTime(DiffTime(end, start), start) == end
    ensures DiffTime(AddTime(end, start), start) == end
  {
    ValueInjective(AddTime(DiffTime(end, start), start), end);
    ValueInjective(DiffTime(AddTime(end, start), start), end);
  }

  /** The difference of an instant with itself is zero, and adding a zero
      duration changes nothing. */
  lemma DiffSelfIsZero(a: Timespec)
    requires Normalized(a)
    ensures DiffTime(a, a) == Timespec(0, 0)
    ensures AddTime(a, Timespec(0, 0)) == a
  {
  }

  /** `addTime` is commutative. */
  lemma AddTimeCommutative(a: Timespec, b: Timespec)
    ensures AddTime(a, b) == AddTime(b, a)
  {
  }
}
