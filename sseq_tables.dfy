/** The envelope and LFO conversions of the SSEQ player (from the FeOS Sound
    System): table lookups and arithmetic over 7-bit instrument parameters. */
module SseqTables {
  import opened Bits

  /** `Cnv_Attack`'s table: the attack rates of the 19 fastest settings. */
  const AttackTable: seq<int> := [
    0x00, 0x01, 0x05, 0x0E, 0x1A, 0x26, 0x33, 0x3F, 0x49, 0x54,
    0x5C, 0x64, 0x6D, 0x74, 0x7B, 0x7F, 0x84, 0x89, 0x8F
  ]

  /** `Cnv_Attack`: an out-of-range setting (bit 7 set) counts as 0; settings
      from 0x6D up are looked up at 0x7F - attk, the rest are 0xFF - attk. */
  function CnvAttack(attk: Byte): (r: Byte)
    ensures attk >= 0x80 ==> r == CnvAttack(0)
  {
    var a := if attk >= 0x80 then 0 else attk;
    if a >= 0x6D then AttackTable[0x7F - a] else 0xFF - a
  }

  lemma AttackTableIncreasing(i: nat)
    requires i < 18
    ensures AttackTable[i] < AttackTable[i + 1]
  {
  }

  lemma {:induction false} AttackTableMonotone(i: nat, j: nat)
    requires i < j <= 18
    ensures AttackTable[i] < AttackTable[j]
    decreases j - i
  {
    AttackTableIncreasing(j - 1);
    if i < j - 1 {
      AttackTableMonotone(i, j - 1);
    }
  }

  /** A larger attack setting gives a strictly smaller rate over the valid
      settings 0..0x7F. */
  lemma AttackDecreasing(a: Byte, b: Byte)
    requires a < b <= 0x7F
    ensures CnvAttack(a) > CnvAttack(b)
  {
    if b >= 0x6D {
      var j := if a >= 0x6D then 0x7F - a else 18;
      if 0x7F - b < j {
        AttackTableMonotone(0x7F - b, j);
      }
    }
  }

  /** `Cnv_Fall`: an out-of-range setting counts as 0; 0x7F and 0x7E are
      fixed, small settings are 2f+1, the rest 0x1E00 / (0x7E - f), whose
      divisor stays in 1..0x4C. */
  function CnvFall(fall: Byte): (r: Word)
    ensures fall >= 0x80 ==> r == 1
    ensures 0x32 <= fall < 0x7E ==> 1 <= 0x7E - fall <= 0x4C
    ensures r >= 1
  {
    var f := if fall >= 0x80 then 0 else fall;
    if f == 0x7F then 0xFFFF
    else if f == 0x7E then 0x3C00
    else if f < 0x32 then (f * 2 + 1) % 0x1_0000
    else (0x1E00 / (0x7E - f)) % 0x1_0000
  }

  /** 0x1E00 / d drops by at least one from d to d+1 for the divisors used. */
  lemma FallQuotientStep(d: int)
    requires 1 <= d < 0x4C
    ensures 0x1E00 / (d + 1) < 0x1E00 / d
  {
    var q := 0x1E00 / (d + 1);
    assert 0x1E00 < q * (d + 1) + (d + 1);
    assert (q + 1) * (d + 1) == q * (d + 1) + (d + 1);
    MulMonotone(d + 1, 0x4C, q + 1);
    assert q >= d;
    assert (q + 1) * d <= 0x1E00 by {
      assert (q + 1) * d == q * d + d;
      assert q * (d + 1) == q * d + q;
    }
    DivModUnique(0x1E00, d, 0x1E00 / d, 0x1E00 % d);
    if 0x1E00 / d <= q {
      MulMonotone(0x1E00 / d + 1, q + 1, d);
    }
  }

  /** 0x1E00 / d strictly decreases over the divisors 1..0x4C. */
  lemma {:induction false} FallQuotientDecreasing(d1: int, d2: int)
    requires 1 <= d1 < d2 <= 0x4C
    ensures 0x1E00 / d2 < 0x1E00 / d1
    decreases d2 - d1
  {
    FallQuotientStep(d2 - 1);
    if d1 < d2 - 1 {
      FallQuotientDecreasing(d1, d2 - 1);
    }
  }

  /** The three bands of the fall rate below the two top settings: linear,
      then a quotient between 101 and 0x1E00. */
  lemma FallBands(f: Byte)
    requires f < 0x7E
    ensures f < 0x32 ==> CnvFall(f) == 2 * f + 1 <= 99
    ensures f >= 0x32 ==> CnvFall(f) == 0x1E00 / (0x7E - f)
    ensures f >= 0x32 ==> 101 <= CnvFall(f) <= 0x1E00
  {
    if f >= 0x32 {
      var d := 0x7E - f;
      DivModUnique(0x1E00, 0x4C, 101, 0x1E00 - 101 * 0x4C);
      if d < 0x4C {
        FallQuotientDecreasing(d, 0x4C);
      }
      DivModUnique(0x1E00, 1, 0x1E00, 0);
      if d > 1 {
        FallQuotientDecreasing(1, d);
      }
    }
  }

  /** The fall rate grows strictly with the setting over 0..0x7F. */
  lemma FallIncreasing(a: Byte, b: Byte)
    requires a < b <= 0x7F
    ensures CnvFall(a) < CnvFall(b)
  {
    if b < 0x7E {
      FallBands(a);
      FallBands(b);
      if a >= 0x32 {
        FallQuotientDecreasing(0x7E - b, 0x7E - a);
      }
    } else if a < 0x7E {
      FallBands(a);
    }
  }


  /** A 16-bit attenuation, from silence (-32768) to none (0). */
  type Level = x: int | -32768 <= x <= 0

  /** A table entry below the top one: strictly attenuating. */
  type Attenuation = x: int | -32768 <= x <= -1 witness -1

  /** `Cnv_Scale`'s table is these 127 attenuating entries followed by 0. */
  const ScaleSteps: seq<Attenuation> := [
    -32768, -421, -361, -325, -300, -281, -265, -252,
    -240, -230, -221, -212, -205, -198, -192, -186,
    -180, -175, -170, -165, -161, -156, -152, -148,
    -145, -141, -138, -134, -131, -128, -125, -122,
    -120, -117, -114, -112, -110, -107, -105, -103,
    -100, -98, -96, -94, -92, -90, -88, -86,
    -85, -83, -81, -79, -78, -76, -74, -73,
    -71, -70, -68, -67, -65, -64, -62, -61,
    -60, -58, -57, -56, -54, -53, -52, -51,
    -49, -48, -47, -46, -45, -43, -42, -41,
    -40, -39, -38, -37, -36, -35, -34, -33,
    -32, -31, -30, -29, -28, -27, -26, -25,
    -24, -23, -23, -22, -21, -20, -19, -18,
    -17, -17, -16, -15, -14, -13, -12, -12,
    -11, -10, -9, -9, -8, -7, -6, -6,
    -5, -4, -3, -3, -2, -1, -1
  ]

  /** `Cnv_Scale`'s 128-entry table. */
  const ScaleTable: seq<Level> := ScaleSteps + [0 as Level]

  /** `Cnv_Sust`'s table is these 127 attenuating entries followed by 0. */
  const SustSteps: seq<Attenuation> := [
    -32768, -722, -721, -651, -601, -562, -530, -503,
    -480, -460, -442, -425, -410, -396, -383, -371,
    -360, -349, -339, -330, -321, -313, -305, -297,
    -289, -282, -276, -269, -263, -257, -251, -245,
    -239, -234, -229, -224, -219, -214, -210, -205,
    -201, -196, -192, -188, -184, -180, -176, -173,
    -169, -165, -162, -158, -155, -152, -149, -145,
    -142, -139, -136, -133, -130, -127, -125, -122,
    -119, -116, -114, -111, -109, -106, -103, -101,
    -99, -96, -94, -91, -89, -87, -85, -82,
    -80, -78, -76, -74, -72, -70, -68, -66,
    -64, -62, -60, -58, -56, -54, -52, -50,
    -49, -47, -45, -43, -42, -40, -38, -36,
    -35, -33, -31, -30, -28, -27, -25, -23,
    -22, -20, -19, -17, -16, -14, -13, -11,
    -10, -8, -7, -6, -4, -3, -1
  ]

  /** `Cnv_Sust`'s 128-entry table. */
  const SustTable: seq<Level> := SustSteps + [0 as Level]

  /** Both tables have 128 entries; only the last one is 0. */
  lemma LevelTablesShape()
    ensures |ScaleTable| == 128 && |SustTable| == 128
    ensures ScaleTable[0x7F] == 0 && SustTable[0x7F] == 0
    ensures forall i :: 0 <= i < 0x7F ==> ScaleTable[i] < 0 && SustTable[i] < 0
  {
    assert forall i :: 0 <= i < 0x7F ==> ScaleTable[i] == ScaleSteps[i] && SustTable[i] == SustSteps[i];
  }

  /** The table index of `Cnv_Scale` and `Cnv_Sust`: an out-of-range setting
      (bit 7 set) is replaced by 0x7F, the last entry. */
  function LevelIndex(x: Byte): (i: nat)
    ensures i < 0x80
    ensures x >= 0x80 ==> i == 0x7F
    ensures x < 0x80 ==> i == x
  {
    if x >= 0x80 then 0x7F else x
  }

  /** `Cnv_Scale`: the table entry of the setting; out-of-range settings
      give the last entry, 0 (no attenuation). */
  function CnvScale(scale: Byte): (r: int)
    ensures -32768 <= r <= 0
    ensures scale >= 0x80 ==> r == 0
  {
    LevelTablesShape();
    ScaleTable[LevelIndex(scale)]
  }

  /** `Cnv_Sust`: the table entry of the level; out-of-range levels give the
      last entry, 0 (no attenuation). */
  function CnvSust(sust: Byte): (r: int)
    ensures -32768 <= r <= 0
    ensures sust >= 0x80 ==> r == 0
  {
    LevelTablesShape();
    SustTable[LevelIndex(sust)]
  }

  /** Only the top setting and the out-of-range ones are unattenuated. */
  lemma LevelZeroOnlyAtTop(x: Byte)
    ensures CnvScale(x) == 0 <==> x >= 0x7F
    ensures CnvSust(x) == 0 <==> x >= 0x7F
  {
    LevelTablesShape();
  }

  // ---------------------------------------------------------------------
  // Cnv_Sine

  /** `Cnv_Sine`'s table: 127 * sin(pi * i / 64) for i in 0..32, one quarter
      of a wave plus its peak. */
  const SineTable: seq<int> := [
    0, 6, 12, 19, 25, 31, 37, 43, 49, 54, 60, 65, 71, 76, 81, 85, 90, 94,
    98, 102, 106, 109, 112, 115, 117, 120, 122, 123, 125, 126, 126, 127, 127
  ]

  /** Every entry of the quarter wave lies in 0..127. */
  lemma SineTableBounds()
    ensures |SineTable| == 33 && SineTable[0] == 0 && SineTable[32] == 127
    ensures forall i :: 0 <= i < |SineTable| ==> 0 <= SineTable[i] <= 127
  {
  }

  /** `lut_size` as the source computes it: `sizeof(lut) / sizeof(int8_t)`. */
  const SineLutSize: int := |SineTable|

  /** The table index and sign `Cnv_Sine` uses for `arg`, as written. */
  function SineLookup(arg: int): (r: (int, bool))
  {
    if arg < SineLutSize then (arg, false)
    else if arg < 2 * SineLutSize then (2 * SineLutSize - arg, false)
    else if arg < 3 * SineLutSize then (arg - 2 * SineLutSize, true)
    else (4 * SineLutSize - arg, true)
  }

  /** Arguments 33 and 99 read one entry past the end of the table. */
  lemma SineLookupOutOfRange()
    ensures SineLookup(33).0 == |SineTable|
    ensures SineLookup(99).0 == |SineTable|
  {
  }

  /** `Cnv_Sine` as written, on the arguments where its lookup stays inside
      the table: a wave of period 4 * 33. */
  function CnvSine(arg: int): (r: int)
    requires 0 <= arg <= 4 * SineLutSize && arg != SineLutSize && arg != 3 * SineLutSize
    ensures -127 <= r <= 127
    ensures arg < 2 * SineLutSize ==> r >= 0
  {
    SineTableBounds();
    var (i, negate) := SineLookup(arg);
    if negate then -SineTable[i] else SineTable[i]
  }

  /** The second half wave of the as-written function mirrors the first. */
  lemma CnvSineOddHalf(a: int)
    requires 0 <= a < 2 * SineLutSize && a != SineLutSize
    ensures CnvSine(a + 2 * SineLutSize) == -CnvSine(a)
  {
  }

  /** The number of steps in a quarter wave: the table holds one more entry
      (the peak), so the quarter is |SineTable| - 1, not |SineTable|. */
  const SineQuarter: int := |SineTable| - 1

  /** The evidently intended `Cnv_Sine`: a wave of period 128 over the LFO
      phase 0..127, every lookup inside the table. */
  function CnvSineQuarter(arg: int): (r: int)
    requires 0 <= arg < 4 * SineQuarter
    ensures -127 <= r <= 127
    ensures arg <= 2 * SineQuarter ==> r >= 0
  {
    SineTableBounds();
    if arg < SineQuarter then SineTable[arg]
    else if arg < 2 * SineQuarter then SineTable[2 * SineQuarter - arg]
    else if arg < 3 * SineQuarter then -SineTable[arg - 2 * SineQuarter]
    else -SineTable[4 * SineQuarter - arg]
  }

  /** The corrected wave is odd over a half period, symmetric about its
      peak at 32, and peaks at 127. */
  lemma CnvSineQuarterShape(a: int)
    requires 0 <= a < 2 * SineQuarter
    ensures CnvSineQuarter(a + 2 * SineQuarter) == -CnvSineQuarter(a)
    ensures 0 < a ==> CnvSineQuarter(2 * SineQuarter - a) == CnvSineQuarter(a)
    ensures CnvSineQuarter(a) <= CnvSineQuarter(SineQuarter) == 127
  {
    SineTableBounds();
  }
}
