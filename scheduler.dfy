/**
  The periodic tick handler as a state machine: a persistent tick counter,
  the two LED outputs and the global copy of the last clock reading. Every
  call increments the counter; the call that makes it reach TicksWait resets
  it, toggles both LEDs, reads the clock and sends one status line.
*/
module Scheduler {
  import opened Bytes
  import opened StatusLine

  /** Handler calls per LED toggle and status line. */
  const TicksWait: nat := 1000

  /** The counter is a 32-bit unsigned integer. */
  const TicksModulus: nat := 0x1_0000_0000

  /**
    ticks: the handler's static counter; led1, led2: the output levels of the
    two LED pins (true = high); actualTime: the global the clock is read into.
  */
  datatype TickState = TickState(ticks: nat, led1: bool, led2: bool, actualTime: Time)

  /** The state before the first tick: counter 0, LED1 high, LED2 low. */
  const Initial: TickState := TickState(0, true, false, Time(0, 0, 0))

  /** Between calls the counter lies in 0 .. TicksWait - 1. */
  predicate CounterInRange(s: TickState) {
    s.ticks < TicksWait
  }

  /** The two LEDs show opposite levels. */
  predicate Alternating(s: TickState) {
    s.led1 != s.led2
  }

  /** One handler call with the clock showing `now`: the new state and the bytes sent. */
  function TickStep(s: TickState, now: Time): (r: (TickState, seq<byte>))
    ensures CounterInRange(s) ==> CounterInRange(r.0)
    ensures Alternating(r.0) == Alternating(s)
  {
    var ticks := (s.ticks + 1) % TicksModulus;
    if ticks == TicksWait then
      (TickState(0, !s.led1, !s.led2, now), FormatTime(now))
    else
      (s.(ticks := ticks), [])
  }

  /** `b` toggled `k` times. */
  function Toggled(b: bool, k: nat): bool {
    if k % 2 == 0 then b else !b
  }

  /** Consecutive handler calls, the i-th one seeing the clock at clocks[i]. */
  function Run(s: TickState, clocks: seq<Time>): (r: (TickState, seq<byte>))
    ensures |r.1| % 10 == 0
    decreases |clocks|
  {
    if clocks == [] then
      (s, [])
    else
      var step := TickStep(s, clocks[0]);
      var rest := Run(step.0, clocks[1..]);
      (rest.0, step.1 + rest.1)
  }

  /** A call below the threshold only advances the counter and sends nothing. */
  lemma QuietTick(s: TickState, now: Time)
    requires s.ticks + 1 < TicksWait
    ensures TickStep(s, now) == (s.(ticks := s.ticks + 1), [])
  {
  }

  /**
    The call that reaches the threshold resets the counter, toggles both LEDs,
    stores the clock reading and sends exactly its status line.
  */
  lemma ThresholdTick(s: TickState, now: Time)
    requires s.ticks + 1 == TicksWait
    ensures TickStep(s, now) == (TickState(0, !s.led1, !s.led2, now), FormatTime(now))
  {
  }

  /** The counter is reset exactly when the threshold is reached, and a line is sent exactly then. */
  lemma ResetExactlyAtThreshold(s: TickState, now: Time)
    requires CounterInRange(s)
    ensures var r := TickStep(s, now);
      (r.0.ticks == 0 <==> s.ticks == TicksWait - 1) &&
      (r.1 != [] <==> s.ticks == TicksWait - 1) &&
      (r.0.led1 != s.led1 <==> s.ticks == TicksWait - 1) &&
      (r.0.led1 != s.led1 <==> r.0.led2 != s.led2)
  {
  }

  /** Splitting a run of calls in two. */
  lemma {:induction false} RunAppend(s: TickState, a: seq<Time>, b: seq<Time>)
    ensures var first := Run(s, a); var second := Run(first.0, b);
      Run(s, a + b) == (second.0, first.1 + second.1)
    decreases |a|
  {
    if a == [] {
      assert a + b == b;
      assert Run(s, a) == (s, []);
      assert [] + Run(s, b).1 == Run(s, b).1;
    } else {
      var step := TickStep(s, a[0]);
      var first := Run(step.0, a[1..]);
      var second := Run(first.0, b);
      assert (a + b)[0] == a[0] && (a + b)[1..] == a[1..] + b;
      RunAppend(step.0, a[1..], b);
      assert step.1 + (first.1 + second.1) == (step.1 + first.1) + second.1;
    }
  }

  /** Calls that all stay below the threshold only advance the counter and send nothing. */
  lemma {:induction false} QuietRun(s: TickState, clocks: seq<Time>)
    requires s.ticks + |clocks| < TicksWait
    ensures Run(s, clocks) == (s.(ticks := s.ticks + |clocks|), [])
    decreases |clocks|
  {
    if clocks != [] {
      QuietTick(s, clocks[0]);
      QuietRun(s.(ticks := s.ticks + 1), clocks[1..]);
    }
  }

  /**
    After n calls from a counter t in range, the counter is (t + n) mod
    TicksWait, the LEDs have toggled (t + n) / TicksWait times and that many
    status lines have been sent.
  */
  lemma {:induction false} RunClosedForm(s: TickState, clocks: seq<Time>)
    requires CounterInRange(s)
    ensures var r := Run(s, clocks); var n := s.ticks + |clocks|;
      r.0.ticks == n % TicksWait &&
      r.0.led1 == Toggled(s.led1, n / TicksWait) &&
      r.0.led2 == Toggled(s.led2, n / TicksWait) &&
      |r.1| == 10 * (n / TicksWait)
    decreases |clocks|
  {
    if clocks != [] {
      var step := TickStep(s, clocks[0]);
      var rest := Run(step.0, clocks[1..]);
      var n := s.ticks + |clocks|;
      assert Run(s, clocks) == (rest.0, step.1 + rest.1);
      RunClosedForm(step.0, clocks[1..]);
      if s.ticks + 1 == TicksWait {
        ThresholdTick(s, clocks[0]);
        ClosedFormAfterThreshold(s, n, rest.0, |rest.1|);
      } else {
        QuietTick(s, clocks[0]);
        assert step.0.ticks + |clocks[1..]| == n;
      }
    }
  }

  /** The closed form carries over the threshold call, which starts a new period. */
  lemma ClosedFormAfterThreshold(s: TickState, n: nat, r: TickState, len: nat)
    requires s.ticks + 1 == TicksWait && n >= TicksWait
    requires var m := n - TicksWait;
      r.ticks == m % TicksWait &&
      r.led1 == Toggled(!s.led1, m / TicksWait) &&
      r.led2 == Toggled(!s.led2, m / TicksWait) &&
      len == 10 * (m / TicksWait)
    ensures r.ticks == n % TicksWait
    ensures r.led1 == Toggled(s.led1, n / TicksWait) && r.led2 == Toggled(s.led2, n / TicksWait)
    ensures 10 + len == 10 * (n / TicksWait)
  {
    var m := n - TicksWait;
    PeriodShift(m);
    ToggledOnceMore(s.led1, m / TicksWait);
    ToggledOnceMore(s.led2, m / TicksWait);
  }

  lemma ToggledOnceMore(b: bool, k: nat)
    ensures Toggled(!b, k) == Toggled(b, k + 1)
  {
  }

  /** Adding one whole period adds one toggle and leaves the counter's residue alone. */
  lemma PeriodShift(m: nat)
    ensures (m + TicksWait) / TicksWait == m / TicksWait + 1
    ensures (m + TicksWait) % TicksWait == m % TicksWait
  {
  }

  /**
    Any TicksWait consecutive calls from a counter in range send exactly one
    status line, for the clock reading of the call that reached the threshold,
    toggle each LED exactly once and leave the counter where it was.
  */
  lemma OneLinePerPeriod(s: TickState, clocks: seq<Time>)
    requires CounterInRange(s) && |clocks| == TicksWait
    ensures var k := TicksWait - 1 - s.ticks; var r := Run(s, clocks);
      r == (TickState(s.ticks, !s.led1, !s.led2, clocks[k]), FormatTime(clocks[k]))
  {
    var k := TicksWait - 1 - s.ticks;
    var now := clocks[k];
    var before, rest := clocks[..k], clocks[k..];
    assert clocks == before + rest;
    assert rest == [now] + clocks[k + 1..];
    var s1 := s.(ticks := s.ticks + k);
    assert Run(s, before) == (s1, []) by {
      QuietRun(s, before);
    }
    assert |clocks[k + 1..]| == s.ticks;
    ThresholdThenQuiet(s1, now, clocks[k + 1..]);
    assert Run(s1, rest) == (TickState(s.ticks, !s.led1, !s.led2, now), FormatTime(now));
    RunAppend(s, before, rest);
    assert [] + FormatTime(now) == FormatTime(now);
  }

  /** The threshold call followed by calls that stay below the threshold again. */
  lemma ThresholdThenQuiet(s: TickState, now: Time, after: seq<Time>)
    requires s.ticks + 1 == TicksWait && |after| < TicksWait
    ensures Run(s, [now] + after) ==
      (TickState(|after|, !s.led1, !s.led2, now), FormatTime(now))
  {
    var s2 := TickState(0, !s.led1, !s.led2, now);
    ThresholdTick(s, now);
    assert ([now] + after)[0] == now && ([now] + after)[1..] == after;
    QuietRun(s2, after);
    assert FormatTime(now) + [] == FormatTime(now);
  }

  /** `line` is the status line of one of the clock readings. */
  ghost predicate IsLineOf(line: seq<byte>, clocks: seq<Time>) {
    exists i | 0 <= i < |clocks| :: line == FormatTime(clocks[i])
  }

  /** `out` is a sequence of whole status lines, each one for one of the clock readings. */
  ghost predicate LinesOf(out: seq<byte>, clocks: seq<Time>)
    decreases |out|
  {
    out == [] || (|out| >= 10 && IsLineOf(out[..10], clocks) && LinesOf(out[10..], clocks))
  }

  /** Lines of a suffix of the readings are lines of all of them. */
  lemma {:induction false} LinesOfTail(out: seq<byte>, clocks: seq<Time>)
    requires clocks != [] && LinesOf(out, clocks[1..])
    ensures LinesOf(out, clocks)
    decreases |out|
  {
    if out != [] {
      var i :| 0 <= i < |clocks[1..]| && out[..10] == FormatTime(clocks[1..][i]);
      assert out[..10] == FormatTime(clocks[i + 1]);
      LinesOfTail(out[10..], clocks);
    }
  }

  /**
    Whatever the number of calls, everything the handler transmits is made of
    whole status lines, each one the line of the clock reading of some call.
  */
  lemma {:induction false} RunSendsStatusLines(s: TickState, clocks: seq<Time>)
    ensures LinesOf(Run(s, clocks).1, clocks)
    decreases |clocks|
  {
    if clocks != [] {
      var step := TickStep(s, clocks[0]);
      var rest := Run(step.0, clocks[1..]);
      RunSendsStatusLines(step.0, clocks[1..]);
      LinesOfTail(rest.1, clocks);
      if step.1 == [] {
        assert step.1 + rest.1 == rest.1;
      } else {
        assert step.1 == FormatTime(clocks[0]);
        var out := step.1 + rest.1;
        assert out[..10] == FormatTime(clocks[0]) && out[10..] == rest.1;
        assert IsLineOf(out[..10], clocks);
      }
    }
  }

  /** From power-up the LEDs alternate and the counter stays in range, however many calls happen. */
  lemma AlwaysAlternating(clocks: seq<Time>)
    ensures var r := Run(Initial, clocks).0;
      Alternating(r) && CounterInRange(r)
  {
    RunKeepsInvariant(Initial, clocks);
  }

  lemma {:induction false} RunKeepsInvariant(s: TickState, clocks: seq<Time>)
    requires CounterInRange(s) && Alternating(s)
    ensures var r := Run(s, clocks).0; CounterInRange(r) && Alternating(r)
    decreases |clocks|
  {
    if clocks != [] {
      RunKeepsInvariant(TickStep(s, clocks[0]).0, clocks[1..]);
    }
  }

  /** The first status line after power-up comes with call number TicksWait, not before. */
  lemma FirstLineAfterOnePeriod(clocks: seq<Time>)
    requires |clocks| == TicksWait
    ensures Run(Initial, clocks[..TicksWait - 1]).1 == []
    ensures Run(Initial, clocks) == (TickState(0, false, true, clocks[TicksWait - 1]), FormatTime(clocks[TicksWait - 1]))
  {
    QuietRun(Initial, clocks[..TicksWait - 1]);
    OneLinePerPeriod(Initial, clocks);
  }
}
