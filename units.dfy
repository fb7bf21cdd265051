/** Conversion between EMU, the presentation format's integer length unit,
    and typographic points. Arithmetic is exact (`real`), an idealisation of
    the scripts' floating point. */
module Units {

  /** EMU per point. */
  const EmuPerPoint: real := 12700.0

  /** `emu_to_points`: `emu / 12700.0`. */
  function EmuToPoints(emu: int): (pt: real)
    ensures pt * EmuPerPoint == emu as real
    ensures (pt < 0.0) <==> (emu < 0)
  {
    emu as real / EmuPerPoint
  }

  /** Python's `int(x)` on a float: truncation toward zero. */
  function Truncate(x: real): (n: int)
    ensures 0.0 <= x ==> 0 <= n && n as real <= x < n as real + 1.0
    ensures x < 0.0 ==> n <= 0 && n as real - 1.0 < x <= n as real
  {
    if 0.0 <= x then x.Floor else -((-x).Floor)
  }

  /** `points_to_emu`: `int(pt * 12700)`, which truncates toward zero rather
      than rounding. */
  function PointsToEmu(pt: real): (emu: int)
    ensures 0.0 <= pt ==> 0 <= emu && emu as real <= pt * EmuPerPoint < emu as real + 1.0
    ensures pt < 0.0 ==> emu <= 0 && emu as real - 1.0 < pt * EmuPerPoint <= emu as real
  {
    Truncate(pt * EmuPerPoint)
  }

  /** Truncation, not rounding: just under one EMU either side of zero gives 0. */
  lemma PointsToEmuTruncatesTowardZero()
    ensures PointsToEmu(0.9 / EmuPerPoint) == 0
    ensures PointsToEmu(-0.9 / EmuPerPoint) == 0
    ensures PointsToEmu(2.5 / EmuPerPoint) == 2
    ensures PointsToEmu(-2.5 / EmuPerPoint) == -2
  {
    assert 0.9 / EmuPerPoint * EmuPerPoint == 0.9;
    assert -0.9 / EmuPerPoint * EmuPerPoint == -0.9;
    assert 2.5 / EmuPerPoint * EmuPerPoint == 2.5;
    assert -2.5 / EmuPerPoint * EmuPerPoint == -2.5;
  }

  /** An integer EMU value survives the trip to points and back exactly. */
  lemma EmuRoundTrip(emu: int)
    ensures PointsToEmu(EmuToPoints(emu)) == emu
  {
    assert EmuToPoints(emu) * EmuPerPoint == emu as real;
    assert (emu as real).Floor == emu;
    assert (-(emu as real)).Floor == -emu;
  }

  /** Any point value survives the trip to EMU and back to within one EMU. */
  lemma PointsRoundTrip(pt: real)
    ensures -1.0 / EmuPerPoint < EmuToPoints(PointsToEmu(pt)) - pt < 1.0 / EmuPerPoint
  {
    var e := PointsToEmu(pt);
    var back := EmuToPoints(e);
    assert back * EmuPerPoint == e as real;
    assert -1.0 < e as real - pt * EmuPerPoint < 1.0;
    assert (back - pt) * EmuPerPoint == e as real - pt * EmuPerPoint;
  }
}
