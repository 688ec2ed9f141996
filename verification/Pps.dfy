/** The time counter and the pulse-per-second generator driven by it, tick by tick of
    their common 50 MHz clock. */
module Pps {
  import opened Bits
  import opened Config

  const CLK_FREQ: nat := 50_000_000
  const TICK: nat := 20                       // ns per clock tick, int(1e9/clk_freq)
  const SECOND: nat := 1_000_000_000
  const OFFSET: nat := 500_000_000
  const PULSE: nat := 10_000_000              // clk_freq*200e-3
  const COUNT_RANGE: nat := 0x1_0000_0000     // Signal(32)
  const TIME_RANGE: nat := 0x1_0000_0000_0000_0000

  // All registers of the two modules.
  datatype Regs = Regs(time: nat, running: bool, count: nat, timer: nat)

  // What the CSRs drive in a tick.
  datatype Input = Input(enable: bool, write: bool, writeTime: nat)

  const FREE: Input := Input(true, false, 0)

  function Threshold(count: nat): nat { count * SECOND + OFFSET }

  predicate Start(r: Regs) { r.running && r.time > Threshold(r.count) }

  predicate Output(r: Regs) { r.timer != 0 }

  function NextTime(time: nat, input: Input): nat {
    if !input.enable then 0 else if input.write then input.writeTime % TIME_RANGE else (time + TICK) % TIME_RANGE
  }

  // The time after n ticks of arbitrary inputs.
  function TimeAt(time: nat, inputs: nat -> Input, n: nat): nat {
    if n == 0 then time else NextTime(TimeAt(time, inputs, n - 1), inputs(n - 1))
  }

  predicate Runs(input: Input) { input.enable && !input.write }

  // Disabling clears the time, a write sets it, and from then on, for as long as neither
  // happens again, it advances 20 ns a tick, modulo 2^64.
  lemma {:induction false} TimeSinceSet(time: nat, inputs: nat -> Input, m: nat, n: nat)
    requires 0 < m <= n && !Runs(inputs(m - 1)) && forall k: nat | m <= k < n :: Runs(inputs(k))
    ensures var start := if inputs(m - 1).enable then inputs(m - 1).writeTime else 0;
            TimeAt(time, inputs, n) == (start + (n - m) * TICK) % TIME_RANGE
    decreases n
  {
    var start := if inputs(m - 1).enable then inputs(m - 1).writeTime else 0;
    if n > m {
      TimeSinceSet(time, inputs, m, n - 1);
      assert Runs(inputs(n - 1));
      OneTickOn(start + (n - 1 - m) * TICK);
      assert start + (n - 1 - m) * TICK + TICK == start + (n - m) * TICK;
    }
  }

  lemma OneTickOn(x: nat)
    ensures (x % TIME_RANGE + TICK) % TIME_RANGE == (x + TICK) % TIME_RANGE
  {
    var d := TIME_RANGE;
    assert x == d * (x / d) + x % d;
    DivModUnique(x + TICK, d, x / d + (x % d + TICK) / d, (x % d + TICK) % d);
  }

  // One clock tick.
  function Step(r: Regs, input: Input): Regs {
    Regs(NextTime(r.time, input),
         r.running || r.time != 0,
         if Start(r) then (r.count + 1) % COUNT_RANGE else r.count,
         if Start(r) then PULSE else if r.timer != 0 then r.timer - 1 else 0)
  }

  // n ticks of arbitrary inputs.
  function RunAt(r: Regs, inputs: nat -> Input, n: nat): Regs {
    if n == 0 then r else Step(RunAt(r, inputs, n - 1), inputs(n - 1))
  }

  lemma RunAtNext(r: Regs, inputs: nat -> Input, n: nat)
    ensures RunAt(r, inputs, 0) == r && RunAt(r, inputs, n + 1) == Step(RunAt(r, inputs, n), inputs(n))
  {
  }

  // n ticks without disabling or setting the time.
  function FreeRun(r: Regs, n: nat): Regs { RunAt(r, _ => FREE, n) }

  lemma RunNext(r: Regs, n: nat)
    ensures FreeRun(r, 0) == r && FreeRun(r, n + 1) == Step(FreeRun(r, n), FREE)
  {
  }

  lemma {:induction false} RunOn(r: Regs, m: nat, n: nat)
    ensures FreeRun(FreeRun(r, m), n) == FreeRun(r, m + n)
  {
    hide FreeRun, Step;
    RunNext(FreeRun(r, m), 0);
    if n > 0 {
      RunOn(r, m, n - 1);
      RunNext(FreeRun(r, m), n - 1);
      RunNext(r, m + n - 1);
    }
  }

  /* Idle and running */

  /** Under any inputs the generator runs from the tick after the first one with a time
      other than 0 on, and never stops; until then no pulse starts and the output falls
      once the timer has run down. */
  lemma {:induction false} RunsIff(r: Regs, inputs: nat -> Input, n: nat)
    ensures var s := RunAt(r, inputs, n);
            && s.time == TimeAt(r.time, inputs, n)
            && (s.running <==> r.running || exists k: nat | k < n :: TimeAt(r.time, inputs, k) != 0)
            && (!s.running ==> !Start(s) && s.count == r.count && s.timer == Max(0, r.timer - n))
  {
    if n > 0 {
      RunsIff(r, inputs, n - 1);
      if !r.running && RunAt(r, inputs, n).running && !RunAt(r, inputs, n - 1).running {
        assert TimeAt(r.time, inputs, n - 1) != 0;
      }
    }
  }

  // The ticks so far in which a pulse started.
  function Starts(r: Regs, inputs: nat -> Input, n: nat): set<nat> {
    set k: nat | k < n && Start(RunAt(r, inputs, k))
  }

  lemma StartIs(r: Regs)
    ensures Start(r) <==> r.running && r.time > r.count * 1_000_000_000 + 500_000_000
  {
  }

  // The counter counts them, in 32 bits.
  lemma {:induction false} StartsCounted(r: Regs, inputs: nat -> Input, n: nat)
    requires r.count < COUNT_RANGE
    ensures RunAt(r, inputs, n).count == (r.count + |Starts(r, inputs, n)|) % 0x1_0000_0000
  {
    hide Start, RunAt, Step, Starts;
    RunAtNext(r, inputs, 0);
    StartsNext(r, inputs, n);
    if n > 0 {
      StartsCounted(r, inputs, n - 1);
      RunAtNext(r, inputs, n - 1);
      StepCounts(RunAt(r, inputs, n - 1), inputs(n - 1), r.count + |Starts(r, inputs, n - 1)|);
    }
  }

  lemma StepCounts(r: Regs, input: Input, c: nat)
    requires r.count == c % COUNT_RANGE
    ensures Step(r, input).count == (c + (if Start(r) then 1 else 0)) % COUNT_RANGE
  {
    hide Start, NextTime;
    var d := COUNT_RANGE;
    DivModUnique(c + 1, d, c / d + (c % d + 1) / d, (c % d + 1) % d);
  }

  lemma StartsNext(r: Regs, inputs: nat -> Input, n: nat)
    ensures Starts(r, inputs, 0) == {}
    ensures n > 0 ==> |Starts(r, inputs, n)| ==
                      |Starts(r, inputs, n - 1)| + (if Start(RunAt(r, inputs, n - 1)) then 1 else 0)
  {
    hide Start, RunAt;
    if n > 0 {
      var before := Starts(r, inputs, n - 1);
      assert Starts(r, inputs, n) == if Start(RunAt(r, inputs, n - 1)) then before + {n - 1} else before;
    }
  }

  // A pulse has started, and its 10,000,000 ticks will not be over in m more.
  ghost predicate StillOn(r: Regs, inputs: nat -> Input, n: nat, m: nat) {
    exists k: nat :: k < n && n + m <= k + 10_000_000 && Start(RunAt(r, inputs, k))
  }

  lemma {:induction false} TimerIs(r: Regs, inputs: nat -> Input, n: nat, m: nat)
    requires r.timer <= PULSE
    ensures RunAt(r, inputs, n).timer > m <==> StillOn(r, inputs, n, m) || n + m < r.timer
    decreases n
  {
    hide Start, NextTime;
    if n > 0 {
      TimerIs(r, inputs, n - 1, m + 1);
    }
  }

  /** Under any inputs the output is high exactly in the 10,000,000 ticks after each start
      of a pulse, and at first for what the timer was loaded with. */
  lemma OutputIff(r: Regs, inputs: nat -> Input, n: nat)
    requires r.timer <= PULSE
    ensures Output(RunAt(r, inputs, n)) <==>
            n < r.timer || StillOn(r, inputs, n, 0)
  {
    hide Start, RunAt;
    TimerIs(r, inputs, n, 0);
  }

  // Free ticks until the generator runs, and the registers then.
  function WakeTicks(r: Regs): nat { if r.running then 0 else if r.time > 0 then 1 else 2 }

  lemma Wakes(r: Regs)
    requires r.time < TIME_RANGE - 40
    ensures !r.running && r.time > 0 ==>
              FreeRun(r, 1) == Regs(r.time + 20, true, r.count, if r.timer > 0 then r.timer - 1 else 0)
    ensures !r.running && r.time == 0 ==>
              && !FreeRun(r, 1).running && FreeRun(r, 1).time == 20
              && FreeRun(r, 2) == Regs(40, true, r.count, if r.timer > 1 then r.timer - 2 else 0)
    ensures FreeRun(r, WakeTicks(r)).running && FreeRun(r, WakeTicks(r)).count == r.count
  {
    hide FreeRun;
    RunNext(r, 0);
    RunNext(r, 1);
  }

  /* The modules */

  class TimeGenerator {
    var time: nat

    method Tick(input: Input)
      modifies this
      ensures time == NextTime(old(time), input)
    {
      if !input.enable {
        time := 0;
      } else if input.write {
        time := input.writeTime % TIME_RANGE;
      } else {
        time := (time + TICK) % TIME_RANGE;
      }
    }
  }

  class PpsGenerator {
    const generator: TimeGenerator
    var running: bool
    var count: nat
    var timer: nat

    constructor (generator: TimeGenerator)
      ensures this.generator == generator && !running && count == 0 && timer == PULSE
    {
      this.generator, running, count, timer := generator, false, 0, PULSE;
    }

    function State(): Regs
      reads this, generator
    {
      Regs(generator.time, running, count, timer)
    }

    // Both modules take the same clock edge.
    method Tick(input: Input) returns (pps: bool)
      modifies this, generator
      ensures State() == Step(old(State()), input) && pps == Output(old(State()))
    {
      pps := timer != 0;
      var start := false;
      if !running {
        if generator.time != 0 {
          running := true;
        }
      } else if generator.time > count * SECOND + OFFSET {
        start := true;
        count := (count + 1) % COUNT_RANGE;
      }
      if start {
        timer := PULSE;
      } else if timer != 0 {
        timer := timer - 1;
      }
      generator.Tick(input);
    }

    // n ticks; `wave` is the output over them.
    method Run(inputs: nat -> Input, n: nat) returns (wave: seq<bool>)
      modifies this, generator
      ensures State() == RunAt(old(State()), inputs, n) && |wave| == n
      ensures forall k: nat | k < n :: wave[k] == Output(RunAt(old(State()), inputs, k))
    {
      hide Step, Output, RunAt;
      wave := [];
      RunAtNext(State(), inputs, 0);
      for i := 0 to n
        invariant State() == RunAt(old(State()), inputs, i) && |wave| == i
        invariant forall k: nat | k < i :: wave[k] == Output(RunAt(old(State()), inputs, k))
      {
        RunAtNext(old(State()), inputs, i);
        var pps := Tick(inputs(i));
        wave := wave + [pps];
      }
    }
  }

  /* Exact pulses */

  // A pulse starts in this tick, and the time is no more than a tick past due.
  predicate Fresh(r: Regs) {
    r.running && Threshold(r.count) < r.time <= Threshold(r.count) + TICK
  }

  // The registers r ticks into the q-th second after a fresh start.
  function Course(s: Regs, q: nat, r: nat): Regs {
    Regs(s.time + (q * CLK_FREQ + r) * TICK, true, s.count + q + (if r == 0 then 0 else 1),
         if r == 0 then (if q == 0 then s.timer else 0) else if r <= PULSE then PULSE + 1 - r else 0)
  }

  lemma CourseNext(s: Regs, q: nat, r: nat)
    requires Fresh(s) && r < CLK_FREQ && s.count + q + 1 < COUNT_RANGE
    ensures Step(Course(s, q, r), FREE) == if r + 1 < CLK_FREQ then Course(s, q, r + 1) else Course(s, q + 1, 0)
    ensures Start(Course(s, q, r)) <==> r == 0
  {
  }

  lemma {:induction false} FreshCourse(s: Regs, q: nat, r: nat)
    requires Fresh(s) && r < CLK_FREQ && s.count + q < COUNT_RANGE - 1
    ensures FreeRun(s, q * CLK_FREQ + r) == Course(s, q, r)
    decreases q, r
  {
    hide FreeRun, Step, Course;
    RunNext(s, 0);
    if r > 0 {
      FreshCourse(s, q, r - 1);
      CourseNext(s, q, r - 1);
      RunNext(s, q * CLK_FREQ + r - 1);
    } else if q > 0 {
      FreshCourse(s, q - 1, CLK_FREQ - 1);
      CourseNext(s, q - 1, CLK_FREQ - 1);
      RunNext(s, q * CLK_FREQ - 1);
    } else {
      CourseStarts(s);
    }
  }

  lemma CourseStarts(s: Regs)
    requires Fresh(s)
    ensures Course(s, 0, 0) == s
  {
  }

  /** From a fresh start on, a pulse starts every 50,000,000 ticks and at no other
      tick, and the output is high for exactly the 10,000,000 ticks after each start,
      as long as the second counter does not run out of its 32 bits. */
  lemma PulsesExact(s: Regs, n: nat)
    requires Fresh(s) && s.count + n / 50_000_000 < COUNT_RANGE - 1
    ensures Start(FreeRun(s, n)) <==> n % 50_000_000 == 0
    ensures n > 0 ==> (Output(FreeRun(s, n)) <==> 1 <= n % 50_000_000 <= 10_000_000)
  {
    hide FreeRun, Step;
    var q, r := n / CLK_FREQ, n % CLK_FREQ;
    FreshCourse(s, q, r);
    CourseNext(s, q, r);
  }

  /* Catching up */

  // How far the time is past the next pulse's due time.
  function Backlog(r: Regs): int { r.time - Threshold(r.count) }

  // Ticks it takes to work that off.
  function TicksBehind(r: Regs): nat {
    if Backlog(r) <= 0 then 0 else (Backlog(r) - 1) / (SECOND - TICK) + 1
  }

  // Times at which the second counter has not run out of its 32 bits.
  const END_OF_TIME: nat := Threshold(COUNT_RANGE - 1)

  // With a backlog, every tick starts a pulse and works off almost a second of it.
  lemma BacklogShrinks(r: Regs)
    requires r.running && Backlog(r) > 0 && r.time + TICK < END_OF_TIME
    ensures Start(r) && Step(r, FREE) == Regs(r.time + TICK, true, r.count + 1, PULSE)
    ensures Backlog(Step(r, FREE)) == Backlog(r) - (SECOND - TICK)
    ensures TicksBehind(Step(r, FREE)) == TicksBehind(r) - 1
  {
  }

  // After any forward jump the generator starts a pulse in every tick until it has
  // caught up, which takes one tick per missed second and a little.
  lemma {:induction false} CatchesUp(r: Regs)
    requires r.running && r.time + TicksBehind(r) * TICK < END_OF_TIME
    ensures var n, s := TicksBehind(r), FreeRun(r, TicksBehind(r));
            && (forall k: nat | k < n :: Start(FreeRun(r, k)))
            && s.running && s.time == r.time + n * TICK && s.count == r.count + n
            && Backlog(s) <= 0 && (n > 0 ==> Backlog(s) > TICK - SECOND && s.timer == PULSE)
    decreases TicksBehind(r)
  {
    hide FreeRun, Step;
    RunNext(r, 0);
    if Backlog(r) > 0 {
      var next, n := Step(r, FREE), TicksBehind(r);
      BacklogShrinks(r);
      CatchesUp(next);
      RunOn(r, 1, n - 1);
      forall k: nat | k < n
        ensures Start(FreeRun(r, k))
      {
        if k > 0 {
          RunOn(r, 1, k - 1);
          assert Start(FreeRun(next, k - 1));
        }
      }
    }
  }

  // Ticks until the next pulse is due when none is overdue.
  function TicksAhead(r: Regs): nat
    requires Backlog(r) <= 0
  {
    -Backlog(r) / TICK + 1
  }

  // Caught up, or after the time was set back: no pulse until the time passes the
  // due time again, and the pulse that then starts is fresh.
  lemma {:induction false} WaitsThenFresh(r: Regs)
    requires r.running && Backlog(r) <= 0 && r.time + TicksAhead(r) * TICK < TIME_RANGE
    ensures var n, s := TicksAhead(r), FreeRun(r, TicksAhead(r));
            && (forall k: nat | k < n :: !Start(FreeRun(r, k)))
            && Fresh(s) && s.count == r.count && s.time == r.time + n * TICK
    decreases TicksAhead(r)
  {
    hide FreeRun;
    RunNext(r, 0);
    var next, n := Step(r, FREE), TicksAhead(r);
    if n > 1 {
      WaitsThenFresh(next);
      RunOn(r, 1, n - 1);
      forall k: nat | k < n
        ensures !Start(FreeRun(r, k))
      {
        if k > 0 {
          RunOn(r, 1, k - 1);
          assert !Start(FreeRun(next, k - 1));
        }
      }
    }
  }

  lemma RunningSettles(r: Regs) returns (n: nat)
    requires r.running && r.count < COUNT_RANGE && r.time + TicksBehind(r) * TICK + SECOND < END_OF_TIME
    ensures Fresh(FreeRun(r, n)) && FreeRun(r, n).count == r.count + TicksBehind(r)
    ensures n <= TicksBehind(r) + Max(CLK_FREQ, -Backlog(r) / TICK + 1)
  {
    hide FreeRun, Step, Fresh;
    CatchesUp(r);
    var s := FreeRun(r, TicksBehind(r));
    WaitsThenFresh(s);
    RunOn(r, TicksBehind(r), TicksAhead(s));
    n := TicksBehind(r) + TicksAhead(s);
  }

  /** From any state, idle or running, whatever the time was set to: a bounded number of
      ticks later the generator is at a fresh start, and PulsesExact holds from there on. */
  lemma SettlesFrom(r: Regs) returns (n: nat)
    requires r.count < COUNT_RANGE && r.time < TIME_RANGE - 40
    requires var s := FreeRun(r, WakeTicks(r)); s.time + TicksBehind(s) * TICK + SECOND < END_OF_TIME
    ensures var s := FreeRun(r, WakeTicks(r));
            && Fresh(FreeRun(r, n)) && FreeRun(r, n).count == r.count + TicksBehind(s)
            && n <= WakeTicks(r) + TicksBehind(s) + Max(CLK_FREQ, -Backlog(s) / TICK + 1)
  {
    hide FreeRun, Step, Fresh;
    Wakes(r);
    var s := FreeRun(r, WakeTicks(r));
    var m := RunningSettles(s);
    RunOn(r, WakeTicks(r), m);
    n := WakeTicks(r) + m;
  }

  /* From power-on */

  const RESET: Regs := Regs(0, false, 0, PULSE)

  lemma {:induction false} FromReset(n: nat)
    requires n <= 25_000_001
    ensures FreeRun(RESET, n) == Regs(20 * n, n >= 2, 0, if n < 10_000_000 then 10_000_000 - n else 0)
  {
    hide FreeRun;
    RunNext(RESET, 0);
    if n > 0 {
      FromReset(n - 1);
      RunNext(RESET, n - 1);
    }
  }

  /** The output of the free-running modules from reset on, for some 136 years. The pulse
      timer starts out loaded, so the output is high for 200 ms; the first pulse starts
      half a second after reset, one tick late, and one every second after that. */
  lemma PowerOnWave(n: nat)
    requires n / 50_000_000 < 0xffff_fffe
    ensures Start(FreeRun(RESET, n)) <==> n >= 25_000_001 && (n - 25_000_001) % 50_000_000 == 0
    ensures Output(FreeRun(RESET, n)) <==>
            if n <= 25_000_001 then n < 10_000_000 else 1 <= (n - 25_000_001) % 50_000_000 <= 10_000_000
  {
    hide FreeRun, Step;
    if n < 25_000_001 {
      FromReset(n);
    } else {
      FromReset(25_000_001);
      RunOn(RESET, 25_000_001, n - 25_000_001);
      PulsesExact(FreeRun(RESET, 25_000_001), n - 25_000_001);
    }
  }

  /** When the second counter does run out it restarts from zero, every due time is
      then in the past, and a pulse starts in every tick from there on: the output
      stays high. */
  lemma {:induction false} StuckAfterWrap(s: Regs, n: nat)
    requires s.running && s.count == COUNT_RANGE - 1 && Start(s) && s.time + n * TICK < TIME_RANGE
    ensures Start(FreeRun(s, n)) && FreeRun(s, n).count < COUNT_RANGE && FreeRun(s, n).time == s.time + n * TICK
    ensures n > 0 ==> Output(FreeRun(s, n))
  {
    hide FreeRun;
    if n == 0 {
      RunNext(s, 0);
    } else {
      StuckAfterWrap(s, n - 1);
      RunNext(s, n - 1);
    }
  }
}
