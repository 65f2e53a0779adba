/** The waveform generator: a phase accumulator, a sine from a quarter-wave table that is read one clock
    late, a triangle, a square and an output multiplexer, clock by clock for any button history. */
module Waveform {
  import opened Products
  import opened SineTable

  const TWO32: nat := 0x1_0000_0000
  const TWO23: nat := 0x80_0000
  const TWO21: nat := 0x20_0000

  /** The two synchronizer stages and the press detector of one button. */
  datatype Detector = Detector(sync0: bool, sync1: bool, r: bool)

  /** All registers. The select registers have two bits, the accumulator 32, the read data 9. */
  datatype Registers = Registers(
    boot: Detector, sw: Detector, waveformSel: nat, freqSel: nat, phaseAcc: nat, readData: nat)
  {
    predicate Ok() {
      waveformSel < 3 && freqSel < 4 && phaseAcc < TWO32 && readData < 512
    }
  }

  /** The initial values the source gives; the other registers hold anything. */
  predicate PowerUp(r: Registers) {
    r.waveformSel == 0 && r.freqSel == 0 && r.phaseAcc == 0 && r.readData < 512
  }

  function PhaseInc(freqSel: nat): (inc: nat)
    ensures inc < TWO21 * 2
  {
    match freqSel
    case 0 => 357_913
    case 1 => 715_827
    case 2 => 1_789_574
    case 3 => 3_578_139
    case _ => 357_913
  }

  // ----- sine_gen.sv -----

  /** `phase_acc[31:23]` */
  function Phase9(phaseAcc: nat): (p: nat)
    requires phaseAcc < TWO32
    ensures p < 512
  {
    phaseAcc / TWO23
  }

  function Quadrant(phase: nat): nat {
    phase / 128
  }

  function QuarterAddress(phase: nat): (a: nat)
    requires phase < 512
    ensures a < 128
  {
    if Quadrant(phase) == 1 || Quadrant(phase) == 3 then 127 - phase % 128 else phase % 128
  }

  /** The combinational output: sign from the quadrant of this clock, magnitude from the read data. */
  function SineOut(phase: nat, quarterData: nat): nat
    requires phase < 512 && quarterData < 512
  {
    if Quadrant(phase) == 0 || Quadrant(phase) == 1 then (512 + quarterData) % 1024
    else (512 + 1024 - quarterData) % 1024
  }

  // ----- top.sv -----

  function DataSine(r: Registers): nat
    requires r.Ok()
  {
    SineOut(Phase9(r.phaseAcc), r.readData)
  }

  /** `phase_acc[31]` */
  predicate TopBit(phaseAcc: nat) {
    phaseAcc >= TWO32 / 2
  }

  /** `phase_acc[30:21]` going up, then down. */
  function DataTri(r: Registers): nat
    requires r.Ok()
  {
    var ramp := r.phaseAcc / TWO21 % 1024;
    if TopBit(r.phaseAcc) then 1023 - ramp else ramp
  }

  function DataSquare(r: Registers): nat
    requires r.Ok()
  {
    if TopBit(r.phaseAcc) then 1023 else 0
  }

  function DacOut(r: Registers): nat
    requires r.Ok()
  {
    match r.waveformSel
    case 0 => DataSine(r)
    case 1 => DataTri(r)
    case 2 => DataSquare(r)
    case _ => DataSine(r)
  }

  /** The buttons, active low. */
  datatype Buttons = Buttons(bootN: bool, swN: bool)

  /** All registers after one rising clock edge. */
  function Clock(table: seq<nat>, r: Registers, b: Buttons): (n: Registers)
    requires IsQuarterWave(table) && r.Ok()
    ensures n.Ok()
  {
    Registers(
      Detector(!b.bootN, r.boot.sync0, r.boot.sync1 && !r.boot.r),
      Detector(!b.swN, r.sw.sync0, r.sw.sync1 && !r.sw.r),
      if r.boot.r then (if r.waveformSel == 2 then 0 else (r.waveformSel + 1) % 4) else r.waveformSel,
      if r.sw.r then (if r.freqSel == 3 then 0 else (r.freqSel + 1) % 4) else r.freqSel,
      (r.phaseAcc + PhaseInc(r.freqSel)) % TWO32,
      table[QuarterAddress(Phase9(r.phaseAcc))])
  }

  function Run(table: seq<nat>, r: Registers, history: seq<Buttons>): (n: Registers)
    requires IsQuarterWave(table) && r.Ok()
    ensures n.Ok()
  {
    if history == [] then r
    else Clock(table, Run(table, r, history[..|history| - 1]), history[|history| - 1])
  }

  // ----- the full wave -----

  /** The 512-point sine wave: the quarter forwards, backwards, and both again below the middle. */
  function FullWave(table: seq<nat>, p: nat): int
    requires IsQuarterWave(table) && p < 512
  {
    if p < 128 then 512 + table[p]
    else if p < 256 then 512 + table[255 - p]
    else if p < 384 then 512 - table[p - 256]
    else 512 - table[511 - p]
  }

  predicate UpperHalf(p: nat) {
    p < 256
  }

  /** A sample read at phase p and signed at phase q is the sample of p exactly when both phases are in
      the same half, or the sample is the zero of the table. */
  lemma SkewHarmlessIff(table: seq<nat>, p: nat, q: nat)
    requires IsQuarterWave(table) && p < 512 && q < 512
    ensures SineOut(q, table[QuarterAddress(p)]) == FullWave(table, p)
            <==> UpperHalf(p) == UpperHalf(q) || table[QuarterAddress(p)] == 0
  {
    var d := table[QuarterAddress(p)];
    assert FullWave(table, p) == if UpperHalf(p) then 512 + d else 512 - d;
    assert Quadrant(q) < 2 <==> UpperHalf(q);
  }

  /** One clock moves the 9-bit phase by at most one step, around the cycle. */
  lemma PhaseStep(phaseAcc: nat, inc: nat)
    requires phaseAcc < TWO32 && inc <= TWO23
    ensures var p, q := Phase9(phaseAcc), Phase9((phaseAcc + inc) % TWO32);
            q == p || q == (p + 1) % 512
  {
  }

  /** So the half changes only where the table is read at address 0. */
  lemma HalfChangesAtZero(p: nat, q: nat)
    requires p < 512 && (q == p || q == (p + 1) % 512)
    ensures UpperHalf(p) == UpperHalf(q) || QuarterAddress(p) == 0
  {
  }

  /** From every state, whatever the buttons do: after a clock the sine output is the full wave at the
      phase before that clock, although its sign comes from the new phase. */
  lemma SineIsDelayedWave(table: seq<nat>, r: Registers, b: Buttons)
    requires IsQuarterWave(table) && r.Ok()
    ensures DataSine(Clock(table, r, b)) == FullWave(table, Phase9(r.phaseAcc))
  {
    var p, q := Phase9(r.phaseAcc), Phase9(Clock(table, r, b).phaseAcc);
    PhaseStep(r.phaseAcc, PhaseInc(r.freqSel));
    HalfChangesAtZero(p, q);
    SkewHarmlessIff(table, p, q);
  }

  /** Neighbouring points of the full wave, and its two ends, differ by at most 7. */
  lemma FullWaveSteps(table: seq<nat>, p: nat)
    requires IsQuarterWave(table) && p < 512
    ensures -7 <= FullWave(table, (p + 1) % 512) - FullWave(table, p) <= 7
  {
    if p < 127 {
      assert table[p] <= table[p + 1] <= table[p] + 7;
    } else if 128 <= p < 255 {
      assert table[254 - p] <= table[254 - p + 1] <= table[254 - p] + 7;
    } else if 256 <= p < 383 {
      assert table[p - 256] <= table[p - 256 + 1] <= table[p - 256] + 7;
    } else if 384 <= p < 511 {
      assert table[510 - p] <= table[510 - p + 1] <= table[510 - p] + 7;
    }
  }

  /** The triangle moves by at most 2 in one clock, also where it turns and where the phase wraps. */
  lemma TriangleSteps(table: seq<nat>, r: Registers, b: Buttons)
    requires IsQuarterWave(table) && r.Ok()
    ensures -2 <= DataTri(Clock(table, r, b)) - DataTri(r) <= 2
  {
    var x, y := r.phaseAcc, Clock(table, r, b).phaseAcc;
    RampStep(x, PhaseInc(r.freqSel));
    TriangleIsRamp(r);
    TriangleIsRamp(Clock(table, r, b));
    TriangleJump(x / TWO21, y / TWO21);
  }

  lemma TriangleJump(u: nat, v: nat)
    requires u < 2048 && (v == u || v == (u + 1) % 2048 || v == (u + 2) % 2048)
    ensures -2 <= Triangle(v) - Triangle(u) <= 2
  {
  }

  /** The triangle as a function of the top eleven bits. */
  function Triangle(u: nat): int {
    if u < 1024 then u else 2047 - u
  }

  lemma TriangleIsRamp(r: Registers)
    requires r.Ok()
    ensures r.phaseAcc / TWO21 < 2048 && DataTri(r) == Triangle(r.phaseAcc / TWO21)
  {
  }

  lemma RampStep(x: nat, inc: nat)
    requires x < TWO32 && inc < 2 * TWO21
    ensures var u, v := x / TWO21, (x + inc) % TWO32 / TWO21;
            v == u || v == (u + 1) % 2048 || v == (u + 2) % 2048
  {
  }

  // ----- frequency -----

  /** How often the accumulator has wrapped: the full cycles of the output. */
  function Cycles(table: seq<nat>, r: Registers, history: seq<Buttons>): nat
    requires IsQuarterWave(table) && r.Ok()
  {
    if history == [] then 0
    else
      var before := Run(table, r, history[..|history| - 1]);
      Cycles(table, r, history[..|history| - 1])
      + (if before.phaseAcc + PhaseInc(before.freqSel) >= TWO32 then 1 else 0)
  }

  /** The frequency selected at every clock is f. */
  ghost predicate Steady(table: seq<nat>, r: Registers, history: seq<Buttons>, f: nat)
    requires IsQuarterWave(table) && r.Ok()
  {
    forall n :: 0 <= n <= |history| ==> Run(table, r, history[..n]).freqSel == f
  }

  /** No phase is lost: cycles and accumulator together hold all increments. */
  lemma {:induction false} PhaseConserved(table: seq<nat>, r: Registers, history: seq<Buttons>, f: nat)
    requires IsQuarterWave(table) && r.Ok() && Steady(table, r, history, f)
    ensures Cycles(table, r, history) * TWO32 + Run(table, r, history).phaseAcc
            == r.phaseAcc + |history| * PhaseInc(f)
  {
    if history != [] {
      var n := |history| - 1;
      var front := history[..n];
      SteadyPrefix(table, r, history, f);
      PhaseConserved(table, r, front, f);
      ClockPhase(table, Run(table, r, front), history[n]);
      TimesSuccessor(n, PhaseInc(f));
    }
  }

  lemma SteadyPrefix(table: seq<nat>, r: Registers, history: seq<Buttons>, f: nat)
    requires IsQuarterWave(table) && r.Ok() && Steady(table, r, history, f) && history != []
    ensures Steady(table, r, history[..|history| - 1], f)
    ensures Run(table, r, history[..|history| - 1]).freqSel == f
  {
    var front := history[..|history| - 1];
    forall k | 0 <= k <= |front| ensures Run(table, r, front[..k]).freqSel == f {
      assert front[..k] == history[..k];
    }
  }

  lemma ClockPhase(table: seq<nat>, r: Registers, b: Buttons)
    requires IsQuarterWave(table) && r.Ok()
    ensures var sum := r.phaseAcc + PhaseInc(r.freqSel);
            Clock(table, r, b).phaseAcc == if sum >= TWO32 then sum - TWO32 else sum
  {
  }

  const CLOCK_HZ: nat := 12_000_000

  /** The number of cycles in any run of clocks at one setting, exactly. */
  lemma CyclesExactly(table: seq<nat>, r: Registers, history: seq<Buttons>, f: nat)
    requires IsQuarterWave(table) && r.Ok() && Steady(table, r, history, f)
    ensures Cycles(table, r, history) == (r.phaseAcc + |history| * PhaseInc(f)) / TWO32
  {
    PhaseConserved(table, r, history, f);
    WholeCycles(Cycles(table, r, history), Run(table, r, history).phaseAcc, r.phaseAcc + |history| * PhaseInc(f));
  }

  lemma WholeCycles(cycles: nat, after: nat, total: nat)
    requires after < TWO32 && cycles * TWO32 + after == total
    ensures cycles == total / TWO32
  {
  }

  /** In a second of 12 million clocks at one setting, the two possible numbers of cycles. The three lower
      settings reach their nominal 1000, 2000 and 5000; the highest always misses its 10000. */
  lemma CyclesPerSecond(table: seq<nat>, r: Registers, history: seq<Buttons>, f: nat)
    requires IsQuarterWave(table) && r.Ok() && Steady(table, r, history, f) && |history| == CLOCK_HZ
    ensures f < 4
    ensures f == 0 ==> 999 <= Cycles(table, r, history) <= 1000
    ensures f == 1 ==> 1999 <= Cycles(table, r, history) <= 2000
    ensures f == 2 ==> 5000 <= Cycles(table, r, history) <= 5001
    ensures f == 3 ==> 9997 <= Cycles(table, r, history) <= 9998
  {
    CyclesExactly(table, r, history, f);
    assert history[..0] == [] && r.freqSel == f;
  }

  /** In 2^32 clocks at one setting the cycles are the phase increment itself, from whatever phase. */
  lemma CyclesOfFullRun(table: seq<nat>, r: Registers, history: seq<Buttons>, f: nat)
    requires IsQuarterWave(table) && r.Ok() && Steady(table, r, history, f) && |history| == TWO32
    ensures f < 4
    ensures Cycles(table, r, history)
            == if f == 0 then 357_913 else if f == 1 then 715_827 else if f == 2 then 1_789_574 else 3_578_139
  {
    CyclesExactly(table, r, history, f);
    assert history[..0] == [] && r.freqSel == f;
  }

  // ----- every button history -----

  /** From power-up, for every button history and at every clock after the first: the sine output is the
      wave at the previous phase. */
  lemma SineAtEveryClock(start: Registers, history: seq<Buttons>)
    requires PowerUp(start) && history != []
    ensures IsQuarterWave(Samples())
    ensures var before := Run(Samples(), start, history[..|history| - 1]);
            DataSine(Run(Samples(), start, history)) == FullWave(Samples(), Phase9(before.phaseAcc))
  {
    SamplesAreQuarterWave();
    SineIsDelayedWave(Samples(), Run(Samples(), start, history[..|history| - 1]), history[|history| - 1]);
  }

  /** Three successive states: with the same waveform selected in the last two, the output moves by at
      most 7 for the sine and 2 for the triangle. */
  lemma ConsecutiveOutputs(table: seq<nat>, first: Registers, b: Buttons, c: Buttons)
    requires IsQuarterWave(table) && first.Ok()
    ensures var before := Clock(table, first, b);
            var now := Clock(table, before, c);
            && (now.waveformSel == before.waveformSel == 0 ==> -7 <= DacOut(now) - DacOut(before) <= 7)
            && (now.waveformSel == before.waveformSel == 1 ==> -2 <= DacOut(now) - DacOut(before) <= 2)
  {
    var before := Clock(table, first, b);
    assert -7 <= DataSine(Clock(table, before, c)) - DataSine(before) <= 7 by {
      SineIsDelayedWave(table, first, b);
      SineIsDelayedWave(table, before, c);
      PhaseStep(first.phaseAcc, PhaseInc(first.freqSel));
      FullWaveSteps(table, Phase9(first.phaseAcc));
    }
    TriangleSteps(table, before, c);
  }

  /** What the converter sees between two clocks with the same waveform selected, for every button
      history from power-up. */
  lemma OutputSteps(start: Registers, history: seq<Buttons>, c: Buttons)
    requires PowerUp(start) && history != []
    ensures IsQuarterWave(Samples())
    ensures var before := Run(Samples(), start, history);
            var now := Run(Samples(), start, history + [c]);
            && (now.waveformSel == before.waveformSel == 0 ==> -7 <= DacOut(now) - DacOut(before) <= 7)
            && (now.waveformSel == before.waveformSel == 1 ==> -2 <= DacOut(now) - DacOut(before) <= 2)
  {
    SamplesAreQuarterWave();
    RunsOn(Samples(), start, history, c);
    var n := |history| - 1;
    ConsecutiveOutputs(Samples(), Run(Samples(), start, history[..n]), history[n], c);
  }

  lemma RunsOn(table: seq<nat>, start: Registers, history: seq<Buttons>, c: Buttons)
    requires IsQuarterWave(table) && start.Ok()
    ensures Run(table, start, history + [c]) == Clock(table, Run(table, start, history), c)
  {
    assert (history + [c])[..|history|] == history;
  }

  /** The circuit as hardware: a clock edge updates every register from the values before it. */
  class Generator {
    const table: seq<nat>
    var boot: Detector
    var sw: Detector
    var waveformSel: nat
    var freqSel: nat
    var phaseAcc: nat
    var readData: nat

    function State(): Registers
      reads this
    {
      Registers(boot, sw, waveformSel, freqSel, phaseAcc, readData)
    }

    ghost predicate Valid()
      reads this
    {
      IsQuarterWave(table) && State().Ok()
    }

    /** Power-up: the registers without an initial value hold anything. */
    constructor (table: seq<nat>, boot: Detector, sw: Detector, readData: nat)
      requires IsQuarterWave(table) && readData < 512
      ensures Valid() && this.table == table && PowerUp(State())
    {
      this.table := table;
      this.boot, this.sw := boot, sw;
      waveformSel, freqSel, phaseAcc := 0, 0, 0;
      this.readData := readData;
    }

    /** One rising clock edge: all registers at once, from the values before it. */
    method Tick(b: Buttons)
      requires Valid()
      modifies this
      ensures Valid() && State() == Clock(table, old(State()), b)
    {
      boot, sw, waveformSel, freqSel, phaseAcc, readData :=
        Detector(!b.bootN, boot.sync0, boot.sync1 && !boot.r),
        Detector(!b.swN, sw.sync0, sw.sync1 && !sw.r),
        if !boot.r then waveformSel else if waveformSel == 2 then 0 else (waveformSel + 1) % 4,
        if !sw.r then freqSel else if freqSel == 3 then 0 else (freqSel + 1) % 4,
        (phaseAcc + PhaseInc(freqSel)) % TWO32,
        table[QuarterAddress(Phase9(phaseAcc))];
    }
  }
}
