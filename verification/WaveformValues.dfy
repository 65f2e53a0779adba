/** What the generator puts out, value by value, and how its buttons select the waveform and the
    frequency. */
module WaveformValues {
  import opened SineTable
  import opened Waveform

  // ----- the sine -----

  /** The 9-bit phase at which the sample of the current sine output was read. */
  function ReadPhase(table: seq<nat>, start: Registers, history: seq<Buttons>): (p: nat)
    requires IsQuarterWave(table) && start.Ok() && history != []
    ensures p < 512
  {
    Run(table, start, history[..|history| - 1]).phaseAcc / 0x80_0000
  }

  function SineAfter(table: seq<nat>, start: Registers, history: seq<Buttons>): nat
    requires IsQuarterWave(table) && start.Ok()
  {
    DataSine(Run(table, start, history))
  }

  /** The four quarters of the wave: the table upwards above the middle, then backwards, then both again
      below the middle. */
  predicate IsSineValue(table: seq<nat>, p: nat, x: int)
    requires IsQuarterWave(table)
  {
    && p < 512
    && (p < 128 ==> x == 512 + table[p])
    && (128 <= p < 256 ==> x == 512 + table[255 - p])
    && (256 <= p < 384 ==> x == 512 - table[p - 256])
    && (384 <= p ==> x == 512 - table[511 - p])
  }

  /** From any state, for every button history and at every clock after the first. */
  lemma SineValues(table: seq<nat>, start: Registers, history: seq<Buttons>)
    requires IsQuarterWave(table) && start.Ok() && history != []
    ensures IsSineValue(table, ReadPhase(table, start, history), SineAfter(table, start, history))
  {
    SineIsDelayedWave(table, Run(table, start, history[..|history| - 1]), history[|history| - 1]);
  }

  /** For any two moments of any two runs from power-up, with the table of the file: the sine is at least
      512 in the first half of the cycle and at most 512 in the second; it rises from 512 to 1023 over the
      first quarter, comes down the same way, and the second half is the first turned about 512. */
  lemma SineShape(start: Registers, one: seq<Buttons>, start': Registers, two: seq<Buttons>)
    requires PowerUp(start) && one != [] && PowerUp(start') && two != []
    ensures IsQuarterWave(Samples())
    ensures var p, q := ReadPhase(Samples(), start, one), ReadPhase(Samples(), start', two);
            var x, y := SineAfter(Samples(), start, one), SineAfter(Samples(), start', two);
            && (if p < 256 then 512 <= x <= 1023 else 1 <= x <= 512)
            && (p == 0 ==> x == 512) && (p == 127 ==> x == 1023)
            && (p <= q < 128 ==> x <= y)
            && (p + q == 255 ==> x == y)
            && (q == p + 256 ==> x + y == 1024)
  {
    SamplesAreQuarterWave();
    var table := Samples();
    SineValues(table, start, one);
    SineValues(table, start', two);
    ShapeOfValues(table, ReadPhase(table, start, one), SineAfter(table, start, one),
                  ReadPhase(table, start', two), SineAfter(table, start', two));
  }

  lemma ShapeOfValues(table: seq<nat>, p: nat, x: int, q: nat, y: int)
    requires IsQuarterWave(table) && table[127] == 511 && IsSineValue(table, p, x) && IsSineValue(table, q, y)
    ensures if p < 256 then 512 <= x <= 1023 else 1 <= x <= 512
    ensures (p == 0 ==> x == 512) && (p == 127 ==> x == 1023)
    ensures p <= q < 128 ==> x <= y
    ensures p + q == 255 ==> x == y
    ensures q == p + 256 ==> x + y == 1024
  {
    if p <= q < 128 {
      ClimbsUpTo(table, p, q);
    }
  }

  lemma {:induction false} ClimbsUpTo(s: seq<nat>, i: nat, j: nat)
    requires Climbs(s) && i <= j < |s|
    ensures s[i] <= s[j]
    decreases j - i
  {
    if i < j {
      ClimbsUpTo(s, i, j - 1);
    }
  }

  // ----- triangle, square and the choice of the output -----

  /** The triangle climbs to 1023 in the first half of the cycle and falls in the second, the square is 0
      and then 1023; the selected waveform is put out. */
  lemma OutputValues(r: Registers)
    requires r.Ok()
    ensures var u := r.phaseAcc / 0x20_0000;
            && u < 2048
            && DataTri(r) == (if u < 1024 then u else 2047 - u)
            && DataSquare(r) == (if u < 1024 then 0 else 1023)
    ensures r.waveformSel == 0 ==> DacOut(r) == DataSine(r)
    ensures r.waveformSel == 1 ==> DacOut(r) == DataTri(r)
    ensures r.waveformSel == 2 ==> DacOut(r) == DataSquare(r)
  {
    TriangleIsRamp(r);
    assert TopBit(r.phaseAcc) <==> r.phaseAcc / 0x20_0000 >= 1024;
  }

  // ----- the buttons -----

  /** How often a press of the boot button, and of the other one, was detected before a clock. */
  function BootPresses(table: seq<nat>, r: Registers, history: seq<Buttons>): nat
    requires IsQuarterWave(table) && r.Ok()
  {
    if history == [] then 0
    else
      var front := history[..|history| - 1];
      BootPresses(table, r, front) + (if Run(table, r, front).boot.r then 1 else 0)
  }

  function SwPresses(table: seq<nat>, r: Registers, history: seq<Buttons>): nat
    requires IsQuarterWave(table) && r.Ok()
  {
    if history == [] then 0
    else
      var front := history[..|history| - 1];
      SwPresses(table, r, front) + (if Run(table, r, front).sw.r then 1 else 0)
  }

  /** From power-up the boot button counts through three waveforms, the other through four frequencies. */
  lemma {:induction false} SelectionsCountPresses(table: seq<nat>, start: Registers, history: seq<Buttons>)
    requires IsQuarterWave(table) && PowerUp(start)
    ensures Run(table, start, history).waveformSel == BootPresses(table, start, history) % 3
    ensures Run(table, start, history).freqSel == SwPresses(table, start, history) % 4
  {
    if history != [] {
      var front, b := history[..|history| - 1], history[|history| - 1];
      SelectionsCountPresses(table, start, front);
      SelectStep(table, Run(table, start, front), b,
                 BootPresses(table, start, front), SwPresses(table, start, front));
    }
  }

  lemma SelectStep(table: seq<nat>, r: Registers, b: Buttons, boot: nat, sw: nat)
    requires IsQuarterWave(table) && r.Ok() && r.waveformSel == boot % 3 && r.freqSel == sw % 4
    ensures Clock(table, r, b).waveformSel == (boot + (if r.boot.r then 1 else 0)) % 3
    ensures Clock(table, r, b).freqSel == (sw + (if r.sw.r then 1 else 0)) % 4
  {
  }

  /** A press is detected iff the button was down three clocks ago and no press was detected just before:
      so a button that stays down is detected at every other clock. */
  lemma PressDetected(table: seq<nat>, r: Registers, history: seq<Buttons>)
    requires IsQuarterWave(table) && r.Ok() && |history| >= 3
    ensures var n := |history|;
            var now, before := Run(table, r, history), Run(table, r, history[..n - 1]);
            && (now.boot.r <==> !history[n - 3].bootN && !before.boot.r)
            && (now.sw.r <==> !history[n - 3].swN && !before.sw.r)
  {
    var n := |history|;
    var one, two := history[..n - 1], history[..n - 2];
    assert one[..n - 2] == two && two[..n - 3] == history[..n - 3];
    assert Run(table, r, one) == Clock(table, Run(table, r, two), one[n - 2]);
    assert Run(table, r, two) == Clock(table, Run(table, r, history[..n - 3]), two[n - 3]);
  }
}
