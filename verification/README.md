# Periodic audio player tasks: a Dafny model

This project models the timing core and the pause logic of an RTEMS program
that streams a raw audio file to a serial or I2C device
(`music_rtems_parte2.c`). Three POSIX threads share one global flag,
`commandPause`:

- `read_send_audio` runs every 32 ms. It sends 128 bytes per cycle: zeros
  while paused, otherwise the next chunk of the file.
- `receive_commands` has a nominal period of 2 s. It turns the last key
  pressed into the flag: '1' resumes, '0' pauses. Each cycle blocks in
  `scanf` until a key arrives, then requests a sleep computed from the
  elapsed time.
- `show_state` runs every 5 s. It prints whether playback is paused.

Each loop measures the time elapsed since the nominal start of its cycle.
The audio and status loops terminate when a cycle took a whole period or
more. Otherwise they sleep out the rest of the period and advance the
nominal start by exactly one period. That last step is what keeps their
schedule free of drift. The command listener also advances its start by one
period per cycle, but its sleep request does not end at the next period
boundary (see Findings).

Modules:

- `TimeArith` (TimeArith.dfy): `struct timespec` as `Timespec(sec, nsec)`,
  with the source's `diffTime`, `addTime` and `compTime`. Also the
  lexicographic comparison `compTime` was evidently meant to be.
- `Periodic` (Periodic.dfy): one cycle of period bookkeeping over a
  simulated clock (`PeriodStep`), and the loop run over a sequence of
  observed end times (`Iterate`). Proves the no-drift invariant.
- `MusicTasks` (MusicTasks.dfy): the shared flag as a `PauseFlag` object. The
  three tasks are classes that hold their own nominal `start`. Their `Cycle`
  methods are one loop iteration each. `exit(-1)` becomes a `Failed`
  outcome. `printf` becomes a returned string.

Facts about the code that the model keeps:

- End of file (`read` returning 0) is not fatal: only a negative result
  exits, and the stale tail of the buffer is sent again
  (music_rtems_parte2.c:219-227).
- The command listener has no overrun check: every cycle requests a sleep
  (`CommandsSleep`, which can be zero or negative) and
  advances its start (music_rtems_parte2.c:290-295).
- `compTime` returns 0, not -1, for an earlier instant in the same second
  (music_rtems_parte2.c:128-138).

## Model

| member | source | states |
|---|---|---|
| TimeArith.DiffTime | music_rtems_parte2.c:92-103 | the result denotes exactly end - start; it is normalized when both inputs are, and has non-negative seconds when end is not earlier than start (with `ValueInjective` this fixes the result, borrow branch included) |
| TimeArith.AddTime | music_rtems_parte2.c:108-117 | the result is always normalized; for normalized inputs it denotes the sum, its nanoseconds are the nanosecond sum modulo 1e9, and its seconds exceed the seconds sum by a carry of 1 exactly when the nanosecond sum reaches 1e9 |
| TimeArith.CompTime | music_rtems_parte2.c:122-139 | returns 1 exactly when t1 is lexicographically later; -1 exactly when t1 has fewer seconds; 0 exactly when the seconds are equal and t1's nanoseconds are not larger, so an earlier instant in the same second compares as 0, not -1 |
| TimeArith.CompTimeQuirk | music_rtems_parte2.c:128-132 | for equal seconds and t1.nsec < t2.nsec, compTime(t1, t2) is 0 while compTime(t2, t1) is 1, whereas the lexicographic comparison gives -1 |
| TimeArith.CompareLex | music_rtems_parte2.c:122-139 | the intended comparison: 1 exactly when t1 is later, -1 exactly when t2 is later, 0 exactly when they are equal |
| TimeArith.CompareLexTotalOrder | music_rtems_parte2.c:122-139 | the intended comparison is antisymmetric and transitive, and on normalized values orders by the instant denoted |
| TimeArith.OverrunGuardUnaffected | music_rtems_parte2.c:240-243 | the guard `0 >= compTime(cycle, diff)` decides the same with the as-written and the intended comparison: it passes exactly when cycle is lexicographically greater than the elapsed time |
| TimeArith.DiffAddRoundTrip | music_rtems_parte2.c:92-117 | for normalized values, adding back what was subtracted gives the original, and subtracting what was added gives the original |
| TimeArith.DiffSelfIsZero | music_rtems_parte2.c:92-117 | the difference of an instant with itself is (0, 0), and adding (0, 0) changes nothing |
| TimeArith.AddTimeCommutative | music_rtems_parte2.c:108-117 | addTime does not depend on the order of its arguments |
| Periodic.PeriodStep | music_rtems_parte2.c:237-246 | a cycle continues exactly when less than one period has elapsed since the nominal start; the sleep is then normalized, strictly positive and equal to the period minus the elapsed time; the new start is normalized and one period after the old, whatever the end time |
| Periodic.WakeAtNextStart | music_rtems_parte2.c:244-246 | on a continuing cycle, the sleep started at `end` ends exactly at the new nominal start |
| Periodic.StartAfterSucc | music_rtems_parte2.c:246 | one more period added to the start reached after n periods is the start after n + 1 periods |
| Periodic.Iterate | music_rtems_parte2.c:200-247 | the loop run over a sequence of end times stops only at an overrun: a fault happens after fewer cycles than end times were given, on an end one period or more past the start it had reached |
| Periodic.StartAfter | music_rtems_parte2.c:246 | n advances by one period land on a normalized start equal to the first plus n periods |
| Periodic.NoDrift | music_rtems_parte2.c:200-247 | a run of N cycles without overrun ends at StartAfter(start, cycle, N), whatever the end times; a run that faults does so after k < N cycles, at the start StartAfter(start, cycle, k), on an end time one period or more past it |
| Periodic.NoEarlyFault | music_rtems_parte2.c:240-243 | every cycle before the fault (every cycle of a completed run) ended less than one period after its nominal start, so a run stops at its first overrun |
| Periodic.HundredUnitPeriodSleeps | music_rtems_parte2.c:239-246 | with period 100, start 0 and end 30, the sleep is 70 and the new start is 100 |
| Periodic.HundredUnitPeriodOverruns | music_rtems_parte2.c:239-243 | with period 100, start 0 and end 100, the cycle is an overrun |
| MusicTasks.ApplyCommand | music_rtems_parte2.c:271-285 | the flag becomes 1 exactly when the character is '0' or it was 1 and the character is not '1'; it becomes 0 exactly when the character is '1' or it was 0 and the character is not '0' |
| MusicTasks.PauseAfter | music_rtems_parte2.c:268-288 | the flag after the listener acted on a sequence of characters stays 0 or 1 when it started so, and is unchanged when no '0' or '1' occurs |
| MusicTasks.LastCommand | music_rtems_parte2.c:271-285 | none exactly when no '0' or '1' occurs; otherwise a '0' or '1' that occurs with no '0' or '1' after it, that is, the newest command |
| MusicTasks.PauseFollowsLastCommand | music_rtems_parte2.c:268-288 | after any sequence of received characters the flag is set by the newest '0' or '1' alone, and unchanged when there is none |
| MusicTasks.StatusMessage | music_rtems_parte2.c:320-331 | the line is "Reproduction paused" exactly when commandPause is 1, otherwise "Reproduction resumed" |
| MusicTasks.CRem | music_rtems_parte2.c:293 | C's `%` on a `long`: the remainder has the sign of the dividend, is smaller than the divisor in magnitude, and differs from the dividend by a multiple of the divisor |
| MusicTasks.CommandsSleep | music_rtems_parte2.c:291-294 | the sleep receive_commands requests is normalized and ends after the next nominal start by the elapsed nanoseconds less their parity, because only the parity survives `% PERIOD_TASK_COMMANDS` |
| MusicTasks.CommandsSleepNotPositive | music_rtems_parte2.c:292-295 | once 2 s or more have elapsed since the nominal start, the requested sleep is zero or negative |
| MusicTasks.CommandsSleepNegative | music_rtems_parte2.c:292-295 | after an input wait of 3 s or more the requested sleep is at least one second below zero |
| MusicTasks.CommandsSleepCorrected | music_rtems_parte2.c:292-294 | with the seconds reduced modulo the period, the sleep is normalized, positive, at most one period, and ends on the period grid counted from the nominal start |
| MusicTasks.CycleEnd | music_rtems_parte2.c:237-246 | an audio or status cycle whose body succeeded sleeps exactly when less than one period has elapsed, for the positive rest of the period; otherwise it fails with a deadline overrun |
| MusicTasks.PauseFlag.constructor | music_rtems_parte2.c:64 | the flag starts at 0 (not paused) |
| MusicTasks.AudioTask.constructor | music_rtems_parte2.c:193-198 | the buffer has SEND_SIZE bytes, the cycle is 32 000 000 ns and the start is the first clock reading |
| MusicTasks.AudioTask.Cycle | music_rtems_parte2.c:200-247 | when paused, sends SEND_SIZE zeros and does not read the file; otherwise a read error fails with no write, and a read of k bytes sends those bytes plus the rest of the previous buffer (k = 0 at end of file is not fatal); every write is SEND_SIZE bytes; a negative write result fails; after a good write the cycle ends as PeriodStep decides; the start advances by one period exactly when the cycle sleeps |
| MusicTasks.CommandTask.constructor | music_rtems_parte2.c:259-266 | the remembered character starts as '1', so the first cycle clears the flag; the cycle is 2 s |
| MusicTasks.CommandTask.Cycle | music_rtems_parte2.c:268-297 | the flag becomes ApplyCommand of the character received the cycle before; the new character is remembered; the sleep is CommandsSleep; the start always advances by one period (no overrun check) |
| MusicTasks.CommandTask.Run | music_rtems_parte2.c:268-297 | after N cycles the flag is PauseAfter of the initial character followed by all inputs but the newest, the newest input is remembered, the start is StartAfter(start, cycle, N), and the k-th requested sleep is CommandsSleep of the k-th nominal start and the k-th end time |
| MusicTasks.ShowStateTask.constructor | music_rtems_parte2.c:308-313 | the cycle is 5 s and the start is the first clock reading |
| MusicTasks.ShowStateTask.Cycle | music_rtems_parte2.c:315-344 | prints StatusMessage of the flag, also on a cycle that then overruns; the cycle ends as PeriodStep decides and the start advances by one period exactly when it sleeps |
| MusicTasks.IterateUnfold | music_rtems_parte2.c:315-344 | one cycle of the status loop as `Iterate` sees it: fault at once on an overrun, otherwise continue one period later with one more cycle done |
| MusicTasks.ShowStateTask.Run | music_rtems_parte2.c:315-344 | the run is the one Iterate describes, so NoDrift applies to it; it prints one identical status line per cycle run, the faulting cycle included |

`MusicTasks.PauseThenResume` is a client of the classes. Keys '0' then '1'
make the listener clear, set and clear the flag in turn. The reporter
prints "paused" and then "resumed".

## Findings

| source | as written | input that shows it | evidently intended | confidence | as-written member | corrected member |
|---|---|---|---|---|---|---|
| music_rtems_parte2.c:130 | with equal seconds and `t1.tv_nsec < t2.tv_nsec`, the test is `t1.tv_sec < t2.tv_sec`, which cannot hold, so compTime returns 0 | t1 = (0, 1), t2 = (0, 2): compTime(t1, t2) = 0 but compTime(t2, t1) = 1 | test `t1.tv_nsec < t2.tv_nsec` and return -1 | high, not executed | TimeArith.CompTimeQuirk | TimeArith.CompareLex |
| music_rtems_parte2.c:293 | `diff.tv_nsec % PERIOD_TASK_COMMANDS` reduces nanoseconds modulo a number of seconds (2) | start (0, 0), end (3, 0): the requested sleep is (-1, 0) | reduce the elapsed seconds modulo the period, so the sleep ends on the next period boundary | medium, not executed | MusicTasks.CommandsSleepNegative | MusicTasks.CommandsSleepCorrected |

The model keeps both behaviours as written:

- The only uses of `compTime` are the overrun guards `0 >= compTime(...)`.
  `OverrunGuardUnaffected` proves such a guard decides the same with either
  comparison, so this finding does not change what the program does.
  `PeriodStep` keeps the comparison as written.
- The second finding does change what the program does: after a long wait
  for a key the listener requests a negative sleep. `CommandTask.Cycle`
  keeps the as-written sleep. The corrected sleep stands beside it with its
  proved properties.

## Left out

- `Init` is not modelled: tar unpacking, the shell, mutex and thread
  attribute setup, and thread creation and joining. It is operating-system
  bootstrap.
- Scheduling is not modelled: `SCHED_FIFO`, the thread priorities 3/2/1 and
  the priority-ceiling mutex. The model is sequential. Lock and unlock
  become plain reads and writes of `PauseFlag.commandPause`. Interleavings
  of the three tasks appear only as the order in which a client calls
  their `Cycle` methods.
- The device and file opening before the audio loop is not modelled
  (`rpi_i2c_*`, `open`, `ioctl` and their `exit(-1)` on failure). An
  `AudioTask` stands for a task whose opens succeeded.
- `read` and `write` are parameters of `AudioTask.Cycle`. A failed read is
  taken to leave the buffer as it was; POSIX leaves its contents
  unspecified.
- `clock_gettime` becomes the `end` parameter, or the start passed to a
  constructor.
- `nanosleep` is not called: the requested sleep is returned.
  `nanosleep`'s refusal of a negative request is stated only in
  `CommandsSleepNegative`.
- The `scanf` wait, including its retry while `scanf` returns 0 or less, is
  replaced by the character it eventually delivers.
- The status line of `show_state` is returned as a string. The error line
  printed before each `exit(-1)` is not returned; the `Fault` of a `Failed`
  outcome names which one it is.
- The `while (1)` loops are bounded. They run for as many cycles as a `Run`
  method or `Iterate` is given end times. The audio task has no `Run`
  method; its timing is `PeriodStep`, whose iteration `Iterate` covers.
- Integer widths are modelled only in `addTime`. The program targets 32-bit
  RTEMS boards (ARM with the I2C device, i386 with `/dev/com1`), where
  `unsigned long` is 32 bits, so `addTime`'s nanosecond sum is reduced
  modulo 2^32. `tv_sec` and `tv_nsec` are otherwise unbounded integers, so an
  overflow of `time_t` or of a `long` is not captured; for normalized
  inputs none of the nanosecond sums and differences reaches 2^31.
