/** The three periodic tasks of the audio player: the audio streamer
    (`read_send_audio`), the command listener (`receive_commands`) and the
    status reporter (`show_state`), each as a class holding the task's own
    nominal start time and a reference to the shared pause flag. One call of
    `Cycle` is one iteration of the task's `while (1)` loop. The clock, the
    file, the serial device and the keyboard are parameters: the end time of
    the cycle, the outcome of `read`, the result of `write` and the character
    `scanf` eventually delivers. */
module MusicTasks {
  import opened TimeArith
  import opened Periodic

  newtype byte = x: int | 0 <= x < 256

  const SEND_SIZE: nat := 128
  const PERIOD_TASK_READ: int := 32000000
  const PERIOD_TASK_COMMANDS: int := 2
  const PERIOD_TASK_SHOW_STATE: int := 5

  const ReadCycle := Timespec(0, PERIOD_TASK_READ)
  const CommandsCycle := Timespec(PERIOD_TASK_COMMANDS, 0)
  const ShowStateCycle := Timespec(PERIOD_TASK_SHOW_STATE, 0)

  const PausedMessage: string := "Reproduction paused\n"
  const ResumedMessage: string := "Reproduction resumed\n"

  /** The reasons a task calls `exit(-1)` inside its loop. */
  datatype Fault = ReadFailure | WriteFailure | DeadlineOverrun

  /** How a cycle ends: a sleep until the next period, or termination. */
  datatype Outcome = Slept(sleep: Timespec) | Failed(fault: Fault)

  /** What `read(fd_file, buf, SEND_SIZE)` did: an error, or the bytes it
      placed at the front of the buffer (none at end of file). */
  datatype ReadResult = ReadError | ReadBytes(data: seq<byte>)

  /** The end of an audio or status cycle, after the body succeeded. */
  function CycleEnd(start: Timespec, cycle: Timespec, end: Timespec): (o: Outcome)
    requires Normalized(start) && Normalized(cycle) && Normalized(end)
    ensures o.Slept? <==> Value(end) - Value(start) < Value(cycle)
    ensures o.Failed? ==> o.fault == DeadlineOverrun
    ensures o.Slept? ==> Normalized(o.sleep) && 0 < Value(o.sleep) == Value(start) + Value(cycle) - Value(end)
  {
    match PeriodStep(start, cycle, end)
    case Overrun => Failed(DeadlineOverrun)
    case Continue(sleep, _) => Slept(sleep)
  }

  function Zeros(n: nat): (z: seq<byte>)
    ensures |z| == n && forall i :: 0 <= i < n ==> z[i] == 0
  {
    seq(n, _ => 0)
  }

  // ---------------------------------------------------------------------
  // The pause flag and the rules that read and write it

  /** The global `commandPause`; locking the mutex around an access is
      modelled as a plain read or write of the field. */
  class PauseFlag {
    var commandPause: int

    constructor ()
      ensures commandPause == 0
    {
      commandPause := 0;
    }
  }

  /** The flag after the command listener has acted on the character it
      last received: '1' resumes, '0' pauses, anything else is ignored. */
  function ApplyCommand(received: char, pause: int): (p: int)
    ensures p == 1 <==> received == '0' || (received != '1' && pause == 1)
    ensures p == 0 <==> received == '1' || (received != '0' && pause == 0)
  {
    if received == '1' then 0
    else if received == '0' then 1
    else pause
  }

  /** The flag after acting on a sequence of characters, oldest first. */
  function PauseAfter(pause: int, applied: seq<char>): (p: int)
    ensures (pause == 0 || pause == 1) ==> (p == 0 || p == 1)
    ensures ('0' !in applied && '1' !in applied) ==> p == pause
    decreases |applied|
  {
    if applied == [] then pause
    else ApplyCommand(applied[|applied| - 1], PauseAfter(pause, applied[..|applied| - 1]))
  }

  datatype Option<T> = None | Some(value: T)

  /** The newest '0' or '1' in a sequence of characters, if any. */
  function LastCommand(applied: seq<char>): (c: Option<char>)
    ensures c.None? <==> forall i :: 0 <= i < |applied| ==> applied[i] != '0' && applied[i] != '1'
    ensures c.Some? ==>
              && (c.value == '0' || c.value == '1')
              && exists i :: 0 <= i < |applied| && applied[i] == c.value &&
                   forall j :: i < j < |applied| ==> applied[j] != '0' && applied[j] != '1'
    decreases |applied|
  {
    if applied == [] then None
    else if applied[|applied| - 1] in {'0', '1'} then Some(applied[|applied| - 1])
    else LastCommand(applied[..|applied| - 1])
  }

  /** The flag is decided by the newest recognised command alone; with no
      recognised command it keeps its value. */
  lemma {:induction false} PauseFollowsLastCommand(pause: int, applied: seq<char>)
    ensures PauseAfter(pause, applied) ==
            match LastCommand(applied)
            case None => pause
            case Some(c) => if c == '1' then 0 else 1
    decreases |applied|
  {
    if applied != [] {
      PauseFollowsLastCommand(pause, applied[..|applied| - 1]);
    }
  }

  /** The line `show_state` prints for a value of the flag. */
  function StatusMessage(pause: int): (m: string)
    ensures m == PausedMessage <==> pause == 1
    ensures m == PausedMessage || m == ResumedMessage
  {
    if pause == 1 then PausedMessage else ResumedMessage
  }

  // ---------------------------------------------------------------------
  // receive_commands: the sleep computation as written, and corrected

  /** C's `%` on a `long`, which truncates toward zero. */
  function CRem(a: int, b: int): (r: int)
    requires b > 0
    ensures 0 <= a ==> 0 <= r < b
    ensures a < 0 ==> -b < r <= 0
    ensures exists q :: a == q * b + r
  {
    if a >= 0 then
      assert a == (a / b) * b + a % b;
      a % b
    else
      assert -a == ((-a) / b) * b + (-a) % b;
      assert a == (-((-a) / b)) * b + -((-a) % b);
      -((-a) % b)
  }

  /** The sleep `receive_commands` requests, as written: the nanoseconds of
      the elapsed time are reduced modulo `PERIOD_TASK_COMMANDS`, a count of
      seconds, which leaves only their parity. The wake-up therefore lands
      after the next nominal start by all but that parity bit of the elapsed
      sub-second part. */
  function CommandsSleep(start: Timespec, end: Timespec): (sleep: Timespec)
    requires Normalized(start) && Normalized(end)
    ensures Normalized(sleep)
    ensures var e := DiffTime(end, start);
            Value(end) + Value(sleep) == Value(start) + Value(CommandsCycle) + (e.nsec - e.nsec % 2)
  {
    var elapsed := DiffTime(end, start);
    var reduced := elapsed.(nsec := CRem(elapsed.nsec, PERIOD_TASK_COMMANDS));
    DiffTime(CommandsCycle, reduced)
  }

  /** Once two seconds have elapsed, the requested sleep is no longer
      positive: `nanosleep` returns at once or rejects it. */
  lemma CommandsSleepNotPositive(start: Timespec, end: Timespec)
    requires Normalized(start) && Normalized(end)
    requires Value(end) - Value(start) >= 2 * NSEC_PER_SEC
    ensures Value(CommandsSleep(start, end)) <= 0
  {
  }

  /** The discrepancy of `CommandsSleep`: once the wait for input has lasted
      three seconds, the requested sleep is negative (one full second or
      more before zero), so `nanosleep` rejects it. */
  lemma CommandsSleepNegative(start: Timespec, end: Timespec)
    requires Normalized(start) && Normalized(end)
    requires Value(end) - Value(start) >= 3 * NSEC_PER_SEC
    ensures Value(CommandsSleep(start, end)) <= -NSEC_PER_SEC
  {
  }

  /** The sleep `receive_commands` evidently intended: the elapsed time
      reduced modulo the period, so that the sleep is positive, at most one
      period, and ends on the period grid counted from the nominal start. */
  function CommandsSleepCorrected(start: Timespec, end: Timespec): (sleep: Timespec)
    requires Normalized(start) && Normalized(end)
    ensures Normalized(sleep)
    ensures 0 < Value(sleep) <= Value(CommandsCycle)
    ensures (Value(end) + Value(sleep) - Value(start)) % Value(CommandsCycle) == 0
  {
    var elapsed := DiffTime(end, start);
    var q := elapsed.sec / PERIOD_TASK_COMMANDS;
    var reduced := elapsed.(sec := elapsed.sec % PERIOD_TASK_COMMANDS);
    var sleep := DiffTime(CommandsCycle, reduced);
    assert Value(end) + Value(sleep) - Value(start) == (q + 1) * Value(CommandsCycle);
    sleep
  }

  // ---------------------------------------------------------------------
  // The three tasks

  /** `read_send_audio`: every 32 ms, send `SEND_SIZE` bytes to the serial
      device: zeros while paused, the next chunk of the music file
      otherwise. */
  class AudioTask {
    const flag: PauseFlag
    const buf: array<byte>
    const cycle: Timespec
    var start: Timespec

    ghost predicate Valid()
      reads this
    {
      buf.Length == SEND_SIZE && cycle == ReadCycle && Normalized(start)
    }

    constructor (flag: PauseFlag, start: Timespec)
      requires Normalized(start)
      ensures Valid() && fresh(buf)
      ensures this.flag == flag && this.start == start
    {
      this.flag := flag;
      buf := new byte[SEND_SIZE];
      cycle := ReadCycle;
      this.start := start;
    }

    /** One iteration: the bytes handed to `write` (none when the read
        failed), and how the cycle ended. Only a negative `read` result is
        fatal, so at end of file the previous buffer contents are sent
        again; only a negative `write` result is fatal. */
    method Cycle(read: ReadResult, written: int, end: Timespec) returns (sent: seq<byte>, outcome: Outcome)
      requires Valid() && Normalized(end)
      requires read.ReadBytes? ==> |read.data| <= SEND_SIZE
      modifies this, buf
      ensures Valid()
      ensures old(flag.commandPause) == 1 ==> sent == Zeros(SEND_SIZE)
      ensures old(flag.commandPause) != 1 && read.ReadError? ==>
                sent == [] && outcome == Failed(ReadFailure) && buf[..] == old(buf[..])
      ensures old(flag.commandPause) != 1 && read.ReadBytes? ==>
                sent == read.data + old(buf[..])[|read.data|..]
      ensures sent != [] ==>
                && |sent| == SEND_SIZE
                && buf[..] == sent
                && outcome == if written < 0 then Failed(WriteFailure)
                              else CycleEnd(old(start), cycle, end)
      ensures start == if outcome.Slept? then AddTime(old(start), cycle) else old(start)
    {
      if flag.commandPause == 1 {
        forall i | 0 <= i < buf.Length {
          buf[i] := 0;
        }
      } else {
        match read
        case ReadError =>
          sent, outcome := [], Failed(ReadFailure);
          return;
        case ReadBytes(data) =>
          forall i | 0 <= i < |data| {
            buf[i] := data[i];
          }
      }
      sent := buf[..];
      if written < 0 {
        outcome := Failed(WriteFailure);
        return;
      }
      match PeriodStep(start, cycle, end)
      case Overrun =>
        outcome := Failed(DeadlineOverrun);
      case Continue(sleep, next) =>
        ValueInjective(next, AddTime(start, cycle));
        outcome := Slept(sleep);
        start := next;
    }
  }

  /** `receive_commands`: act on the character received last, wait for the
      next one, then sleep for what it computes as the rest of its
      2-second period. It has no overrun check. */
  class CommandTask {
    const flag: PauseFlag
    const cycle: Timespec
    var received: char
    var start: Timespec

    ghost predicate Valid()
      reads this
    {
      cycle == CommandsCycle && Normalized(start)
    }

    /** `received` starts as '1', so the first cycle clears the flag. */
    constructor (flag: PauseFlag, start: Timespec)
      requires Normalized(start)
      ensures Valid() && this.flag == flag && this.start == start
      ensures received == '1'
    {
      this.flag := flag;
      cycle := CommandsCycle;
      received := '1';
      this.start := start;
    }

    /** One iteration, with `input` the character `scanf` delivers and `end`
        the clock reading after it. */
    method Cycle(input: char, end: Timespec) returns (sleep: Timespec)
      requires Valid() && Normalized(end)
      modifies this, flag
      ensures Valid()
      ensures flag.commandPause == ApplyCommand(old(received), old(flag.commandPause))
      ensures received == input
      ensures sleep == CommandsSleep(old(start), end)
      ensures start == AddTime(old(start), cycle)
    {
      if received == '1' {
        flag.commandPause := 0;
      } else if received == '0' {
        flag.commandPause := 1;
      }
      received := input;
      sleep := CommandsSleep(start, end);
      start := AddTime(start, cycle);
    }

    /** `|inputs|` iterations. Each cycle acts on the character received
        in the cycle before (the first on `received` itself), so the flag
        ends as `PauseAfter` says of all but the newest input; the nominal
        start advances by one period per cycle whatever the end times. */
    method Run(inputs: seq<char>, ends: seq<Timespec>) returns (sleeps: seq<Timespec>)
      requires Valid() && |ends| == |inputs| && AllNormalized(ends)
      modifies this, flag
      ensures Valid()
      ensures flag.commandPause == PauseAfter(old(flag.commandPause), ([old(received)] + inputs)[..|inputs|])
      ensures received == ([old(received)] + inputs)[|inputs|]
      ensures start == StartAfter(old(start), cycle, |inputs|)
      ensures |sleeps| == |inputs|
      ensures forall k :: 0 <= k < |inputs| ==> sleeps[k] == CommandsSleep(StartAfter(old(start), cycle, k), ends[k])
    {
      ghost var pause0, start0 := flag.commandPause, start;
      ghost var all := [received] + inputs;
      sleeps := [];
      var i := 0;
      while i < |inputs|
        invariant 0 <= i <= |inputs|
        invariant Valid()
        invariant flag.commandPause == PauseAfter(pause0, all[..i])
        invariant received == all[i]
        invariant start == StartAfter(start0, cycle, i)
        invariant |sleeps| == i
        invariant forall k :: 0 <= k < i ==> sleeps[k] == CommandsSleep(StartAfter(start0, cycle, k), ends[k])
      {
        assert all[..i + 1][..i] == all[..i];
        StartAfterSucc(start0, cycle, i);
        var sleep := Cycle(inputs[i], ends[i]);
        sleeps := sleeps + [sleep];
        i := i + 1;
      }
    }
  }

  /** `show_state`: every 5 seconds, print whether playback is paused. */
  class ShowStateTask {
    const flag: PauseFlag
    const cycle: Timespec
    var start: Timespec

    ghost predicate Valid()
      reads this
    {
      cycle == ShowStateCycle && Normalized(start)
    }

    constructor (flag: PauseFlag, start: Timespec)
      requires Normalized(start)
      ensures Valid() && this.flag == flag && this.start == start
    {
      this.flag := flag;
      cycle := ShowStateCycle;
      this.start := start;
    }

    /** One iteration: the status line printed (before the timing check,
        so also on the cycle that overruns) and how the cycle ended. */
    method Cycle(end: Timespec) returns (status: string, outcome: Outcome)
      requires Valid() && Normalized(end)
      modifies this
      ensures Valid()
      ensures status == StatusMessage(flag.commandPause)
      ensures outcome == CycleEnd(old(start), cycle, end)
      ensures start == if outcome.Slept? then AddTime(old(start), cycle) else old(start)
    {
      status := if flag.commandPause == 1 then PausedMessage else ResumedMessage;
      match PeriodStep(start, cycle, end)
      case Overrun =>
        outcome := Failed(DeadlineOverrun);
      case Continue(sleep, next) =>
        ValueInjective(next, AddTime(start, cycle));
        outcome := Slept(sleep);
        start := next;
    }

    /** Up to `|ends|` iterations, stopping at the first overrun: the run is
        the one `Iterate` describes, so by `NoDrift` the start never drifts,
        and every cycle run printed the same status line. */
    method Run(ends: seq<Timespec>) returns (statuses: seq<string>, run: Run)
      requires Valid() && AllNormalized(ends)
      modifies this
      ensures Valid()
      ensures run == Iterate(old(start), cycle, ends) && start == run.start
      ensures |statuses| == if run.Completed? then |ends| else run.cycles + 1
      ensures forall i :: 0 <= i < |statuses| ==> statuses[i] == StatusMessage(flag.commandPause)
    {
      ghost var start0 := start;
      statuses := [];
      var i := 0;
      while i < |ends|
        invariant 0 <= i <= |ends|
        invariant Valid()
        invariant Iterate(start0, cycle, ends) == Shift(Iterate(start, cycle, ends[i..]), i)
        invariant |statuses| == i
        invariant forall k :: 0 <= k < i ==> statuses[k] == StatusMessage(flag.commandPause)
      {
        assert ends[i..][1..] == ends[i + 1..];
        IterateUnfold(start, cycle, ends[i..], i);
        var status, outcome := Cycle(ends[i]);
        statuses := statuses + [status];
        if outcome.Failed? {
          run := Faulted(i, start);
          return;
        }
        i := i + 1;
      }
      run := Completed(start);
    }
  }

  /** A run of the rest of a loop, as seen from a loop that has already
      completed `done` cycles. */
  function Shift(r: Run, done: nat): Run {
    match r
    case Completed(s) => Completed(s)
    case Faulted(k, s) => Faulted(k + done, s)
  }

  /** One cycle of `Iterate`, seen from a loop that has completed `done`
      cycles: an overrun faults at once, otherwise the rest of the run
      starts one period later and has one more cycle behind it. */
  lemma IterateUnfold(start: Timespec, cycle: Timespec, ends: seq<Timespec>, done: nat)
    requires Normalized(start) && Normalized(cycle) && AllNormalized(ends) && ends != []
    ensures Shift(Iterate(start, cycle, ends), done) ==
            if Value(ends[0]) - Value(start) < Value(cycle)
            then Shift(Iterate(AddTime(start, cycle), cycle, ends[1..]), done + 1)
            else Faulted(done, start)
  {
    var step := PeriodStep(start, cycle, ends[0]);
    if step.Continue? {
      ValueInjective(step.next, AddTime(start, cycle));
    }
  }

  /** Keys '0' then '1': the listener's first cycle acts on the initial
      '1', the second pauses, the third resumes; the reporter observes
      "paused" after the second and "resumed" after the third. */
  method PauseThenResume()
  {
    var flag := new PauseFlag();
    var commands := new CommandTask(flag, Timespec(0, 0));
    var reporter := new ShowStateTask(flag, Timespec(0, 0));
    var _ := commands.Cycle('0', Timespec(1, 0));
    assert flag.commandPause == 0;
    var _ := commands.Cycle('1', Timespec(3, 0));
    var status, outcome := reporter.Cycle(Timespec(3, 500));
    assert status == PausedMessage;
    var _ := commands.Cycle('x', Timespec(5, 0));
    status, outcome := reporter.Cycle(Timespec(6, 0));
    assert status == ResumedMessage;
  }
}
