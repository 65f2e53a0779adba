/** The quarter-wave sine table of `sine_quarter.txt`, and the facts about it the circuit relies on. */
module SineTable {

  /** No sample is below the one before it, or more than 7 above. */
  predicate Climbs(s: seq<nat>) {
    forall i, j :: 0 <= i < |s| && 0 <= j < |s| && j == i + 1 ==> s[i] <= s[j] <= s[i] + 7
  }

  /** What the waveform needs of a table: 128 9-bit samples that start at 0 and climb slowly. */
  predicate IsQuarterWave(table: seq<nat>) {
    && |table| == 128
    && table[0] == 0
    && (forall i :: 0 <= i < 128 ==> table[i] <= 511)
    && Climbs(table)
  }

  function Row0(): (s: seq<nat>)
    ensures |s| == 8 && s[0] == 0x000 && s[7] == 0x02c && Climbs(s)
  {
    [0x000, 0x006, 0x00d, 0x013, 0x019, 0x020, 0x026, 0x02c]
  }

  function Row1(): (s: seq<nat>)
    ensures |s| == 8 && s[0] == 0x032 && s[7] == 0x05e && Climbs(s)
  {
    [0x032, 0x039, 0x03f, 0x045, 0x04c, 0x052, 0x058, 0x05e]
  }

  function Row2(): (s: seq<nat>)
    ensures |s| == 8 && s[0] == 0x064 && s[7] == 0x08f && Climbs(s)
  {
    [0x064, 0x06b, 0x071, 0x077, 0x07d, 0x083, 0x089, 0x08f]
  }

  function Row3(): (s: seq<nat>)
    ensures |s| == 8 && s[0] == 0x095 && s[7] == 0x0bf && Climbs(s)
  {
    [0x095, 0x09c, 0x0a2, 0x0a7, 0x0ad, 0x0b3, 0x0b9, 0x0bf]
  }

  function Row4(): (s: seq<nat>)
    ensures |s| == 8 && s[0] == 0x0c5 && s[7] == 0x0ed && Climbs(s)
  {
    [0x0c5, 0x0cb, 0x0d1, 0x0d6, 0x0dc, 0x0e2, 0x0e7, 0x0ed]
  }

  function Row5(): (s: seq<nat>)
    ensures |s| == 8 && s[0] == 0x0f3 && s[7] == 0x119 && Climbs(s)
  {
    [0x0f3, 0x0f8, 0x0fe, 0x103, 0x109, 0x10e, 0x113, 0x119]
  }

  function Row6(): (s: seq<nat>)
    ensures |s| == 8 && s[0] == 0x11e && s[7] == 0x141 && Climbs(s)
  {
    [0x11e, 0x123, 0x128, 0x12d, 0x132, 0x137, 0x13c, 0x141]
  }

  function Row7(): (s: seq<nat>)
    ensures |s| == 8 && s[0] == 0x146 && s[7] == 0x167 && Climbs(s)
  {
    [0x146, 0x14b, 0x150, 0x155, 0x159, 0x15e, 0x163, 0x167]
  }

  function Row8(): (s: seq<nat>)
    ensures |s| == 8 && s[0] == 0x16c && s[7] == 0x189 && Climbs(s)
  {
    [0x16c, 0x170, 0x174, 0x179, 0x17d, 0x181, 0x185, 0x189]
  }

  function Row9(): (s: seq<nat>)
    ensures |s| == 8 && s[0] == 0x18d && s[7] == 0x1a8 && Climbs(s)
  {
    [0x18d, 0x191, 0x195, 0x199, 0x19d, 0x1a0, 0x1a4, 0x1a8]
  }

  function Row10(): (s: seq<nat>)
    ensures |s| == 8 && s[0] == 0x1ab && s[7] == 0x1c2 && Climbs(s)
  {
    [0x1ab, 0x1af, 0x1b2, 0x1b5, 0x1b8, 0x1bc, 0x1bf, 0x1c2]
  }

  function Row11(): (s: seq<nat>)
    ensures |s| == 8 && s[0] == 0x1c5 && s[7] == 0x1d7 && Climbs(s)
  {
    [0x1c5, 0x1c8, 0x1ca, 0x1cd, 0x1d0, 0x1d2, 0x1d5, 0x1d7]
  }

  function Row12(): (s: seq<nat>)
    ensures |s| == 8 && s[0] == 0x1da && s[7] == 0x1e9 && Climbs(s)
  {
    [0x1da, 0x1dc, 0x1de, 0x1e1, 0x1e3, 0x1e5, 0x1e7, 0x1e9]
  }

  function Row13(): (s: seq<nat>)
    ensures |s| == 8 && s[0] == 0x1ea && s[7] == 0x1f5 && Climbs(s)
  {
    [0x1ea, 0x1ec, 0x1ee, 0x1ef, 0x1f1, 0x1f2, 0x1f4, 0x1f5]
  }

  function Row14(): (s: seq<nat>)
    ensures |s| == 8 && s[0] == 0x1f6 && s[7] == 0x1fd && Climbs(s)
  {
    [0x1f6, 0x1f7, 0x1f8, 0x1f9, 0x1fa, 0x1fb, 0x1fc, 0x1fd]
  }

  function Row15(): (s: seq<nat>)
    ensures |s| == 8 && s[0] == 0x1fd && s[7] == 0x1ff && Climbs(s)
  {
    [0x1fd, 0x1fe, 0x1fe, 0x1fe, 0x1ff, 0x1ff, 0x1ff, 0x1ff]
  }

  function Quarter(k: nat): (s: seq<nat>)
    requires k < 4
    ensures |s| == 32
  {
    if k == 0 then Row0() + Row1() + Row2() + Row3()
    else if k == 1 then Row4() + Row5() + Row6() + Row7()
    else if k == 2 then Row8() + Row9() + Row10() + Row11()
    else Row12() + Row13() + Row14() + Row15()
  }

  /** The contents of the file, eight samples a row. */
  function Samples(): (s: seq<nat>)
    ensures |s| == 128
  {
    Quarter(0) + Quarter(1) + Quarter(2) + Quarter(3)
  }

  lemma ClimbsConcat(a: seq<nat>, b: seq<nat>)
    requires Climbs(a) && Climbs(b) && a != [] && b != []
    requires a[|a| - 1] <= b[0] <= a[|a| - 1] + 7
    ensures Climbs(a + b)
  {
    var s := a + b;
    forall i, j | 0 <= i < |s| && 0 <= j < |s| && j == i + 1 ensures s[i] <= s[j] <= s[i] + 7 {
      if i >= |a| {
        assert s[i] == b[i - |a|] && s[j] == b[j - |a|];
      }
    }
  }

  /** A climbing sequence stays at or below its last sample. */
  lemma {:induction false} ClimbsBelowLast(s: seq<nat>, i: nat)
    requires Climbs(s) && i < |s|
    ensures s[i] <= s[|s| - 1]
    decreases |s| - i
  {
    if i < |s| - 1 {
      ClimbsBelowLast(s, i + 1);
    }
  }

  lemma FourRows(a: seq<nat>, b: seq<nat>, c: seq<nat>, d: seq<nat>, n: nat)
    requires |a| == |b| == |c| == |d| == n > 0
    requires Climbs(a) && Climbs(b) && Climbs(c) && Climbs(d)
    requires a[n - 1] <= b[0] <= a[n - 1] + 7
    requires b[n - 1] <= c[0] <= b[n - 1] + 7
    requires c[n - 1] <= d[0] <= c[n - 1] + 7
    ensures var s := a + b + c + d;
            Climbs(s) && |s| == 4 * n && s[0] == a[0] && s[4 * n - 1] == d[n - 1]
  {
    ClimbsConcat(a, b);
    ClimbsConcat(a + b, c);
    ClimbsConcat(a + b + c, d);
  }

  lemma Quarter0Climbs()
    ensures Climbs(Quarter(0)) && Quarter(0)[0] == 0x000 && Quarter(0)[31] == 0x0bf
  {
    FourRows(Row0(), Row1(), Row2(), Row3(), 8);
  }

  lemma Quarter1Climbs()
    ensures Climbs(Quarter(1)) && Quarter(1)[0] == 0x0c5 && Quarter(1)[31] == 0x167
  {
    FourRows(Row4(), Row5(), Row6(), Row7(), 8);
  }

  lemma Quarter2Climbs()
    ensures Climbs(Quarter(2)) && Quarter(2)[0] == 0x16c && Quarter(2)[31] == 0x1d7
  {
    FourRows(Row8(), Row9(), Row10(), Row11(), 8);
  }

  lemma Quarter3Climbs()
    ensures Climbs(Quarter(3)) && Quarter(3)[0] == 0x1da && Quarter(3)[31] == 0x1ff
  {
    FourRows(Row12(), Row13(), Row14(), Row15(), 8);
  }

  /** The table of the file is a quarter wave, up to full scale. */
  lemma SamplesAreQuarterWave()
    ensures IsQuarterWave(Samples())
    ensures Samples()[127] == 511
  {
    Quarter0Climbs();
    Quarter1Climbs();
    Quarter2Climbs();
    Quarter3Climbs();
    FourRows(Quarter(0), Quarter(1), Quarter(2), Quarter(3), 32);
    forall i | 0 <= i < 128 ensures Samples()[i] <= 511 {
      ClimbsBelowLast(Samples(), i);
    }
  }
}
