/** Bitrate planning: from a size budget in MB, a duration and an audio rate,
    the video rate in kbps and the size the plan will really produce. */
module Bitrate {

  /** Usability floor for the video rate, in kbps. */
  const MinVideoKbps: int := 200

  /** Bits in one MB (8 * 1024 * 1024). */
  const BitsPerMB: real := 8388608.0

  /** Python's `int()` on a float: truncation toward zero. */
  function Trunc(x: real): (t: int)
    ensures x >= 0.0 ==> t as real <= x < t as real + 1.0
    ensures x < 0.0 ==> t as real - 1.0 < x <= t as real
  {
    if x >= 0.0 then x.Floor else -((-x).Floor)
  }

  /** Size in MB of a stream at the given video and audio rates (kbps, with
      1 kbps = 1024 bit/s) lasting `durationSec`. The Python code uses this formula
      for the adjusted target once the floor is hit. */
  function SizeMB(videoKbps: int, audioKbps: int, durationSec: real): real {
    ((videoKbps + audioKbps) * 1024) as real * durationSec / BitsPerMB
  }

  /** The video rate before the floor: whole bits per second after removing
      the audio, truncated, then floor-divided by 1024. */
  function UnclampedKbps(targetMB: real, durationSec: real, audioKbps: int): (v: int)
    requires durationSec > 0.0
    ensures var videoBps := targetMB * BitsPerMB / durationSec - (audioKbps * 1024) as real;
      && (videoBps >= 0.0 ==> (v * 1024) as real <= videoBps < ((v + 1) * 1024) as real)
      && (videoBps < 0.0 ==> v <= 0)
  {
    var totalBps := targetMB * BitsPerMB / durationSec;
    var videoBps := Trunc(totalBps - (audioKbps * 1024) as real);
    videoBps / 1024
  }

  datatype BitratePlan = BitratePlan(videoKbps: int, adjustedMB: real)

  /** `VideoCompressor.calculate_target_bitrate`. */
  function CalculateTargetBitrate(targetMB: real, durationSec: real, audioKbps: int): (p: BitratePlan)
    requires durationSec > 0.0
    ensures p.videoKbps >= MinVideoKbps
    ensures p.adjustedMB >= targetMB
    ensures SizeMB(p.videoKbps, audioKbps, durationSec) <= p.adjustedMB
  {
    var v := UnclampedKbps(targetMB, durationSec, audioKbps);
    ClampCondition(targetMB, durationSec, audioKbps);
    if v < MinVideoKbps then
      BitratePlan(MinVideoKbps, SizeMB(MinVideoKbps, audioKbps, durationSec))
    else
      FitsBudget(v, targetMB, durationSec, audioKbps);
      BitratePlan(v, targetMB)
  }

  lemma ScaleLe(x: real, y: real, c: real)
    requires c > 0.0
    ensures x <= y <==> x * c <= y * c
  {
  }

  /** A rate fits the budget exactly when its bits per second, audio
      included, do not exceed the budget's bits per second. */
  lemma FitsBudget(videoKbps: int, targetMB: real, durationSec: real, audioKbps: int)
    requires durationSec > 0.0
    ensures SizeMB(videoKbps, audioKbps, durationSec) <= targetMB
        <==> (videoKbps * 1024) as real <= targetMB * BitsPerMB / durationSec - (audioKbps * 1024) as real
  {
    var k := ((videoKbps + audioKbps) * 1024) as real;
    var total := targetMB * BitsPerMB / durationSec;
    assert total * durationSec == targetMB * BitsPerMB;
    ScaleLe(k, total, durationSec);
    assert SizeMB(videoKbps, audioKbps, durationSec) == k * durationSec / BitsPerMB;
  }

  /** The floor is applied exactly when even the floor rate overflows the
      requested size. */
  lemma ClampCondition(targetMB: real, durationSec: real, audioKbps: int)
    requires durationSec > 0.0
    ensures UnclampedKbps(targetMB, durationSec, audioKbps) < MinVideoKbps
        <==> SizeMB(MinVideoKbps, audioKbps, durationSec) > targetMB
  {
    var x := targetMB * BitsPerMB / durationSec - (audioKbps * 1024) as real;
    var t := Trunc(x);
    assert t < MinVideoKbps * 1024 <==> x < (MinVideoKbps * 1024) as real;
    FitsBudget(MinVideoKbps, targetMB, durationSec, audioKbps);
  }

  /** Without the floor, the plan keeps the requested size and picks the
      largest whole kbps rate that fits it. */
  lemma UnclampedPlanIsLargestFitting(targetMB: real, durationSec: real, audioKbps: int)
    requires durationSec > 0.0
    requires SizeMB(MinVideoKbps, audioKbps, durationSec) <= targetMB
    ensures CalculateTargetBitrate(targetMB, durationSec, audioKbps).adjustedMB == targetMB
    ensures SizeMB(CalculateTargetBitrate(targetMB, durationSec, audioKbps).videoKbps, audioKbps, durationSec) <= targetMB
    ensures SizeMB(CalculateTargetBitrate(targetMB, durationSec, audioKbps).videoKbps + 1, audioKbps, durationSec) > targetMB
  {
    ClampCondition(targetMB, durationSec, audioKbps);
    var x := targetMB * BitsPerMB / durationSec - (audioKbps * 1024) as real;
    var t := Trunc(x);
    var v := t / 1024;
    assert v == CalculateTargetBitrate(targetMB, durationSec, audioKbps).videoKbps;
    assert x >= 0.0;
    assert ((v + 1) * 1024) as real > x;
    FitsBudget(v + 1, targetMB, durationSec, audioKbps);
  }

  /** With the floor, the plan runs at the floor rate and reports the size
      that rate really needs, which is above the requested size. */
  lemma ClampedPlanUsesFloor(targetMB: real, durationSec: real, audioKbps: int)
    requires durationSec > 0.0
    requires SizeMB(MinVideoKbps, audioKbps, durationSec) > targetMB
    ensures CalculateTargetBitrate(targetMB, durationSec, audioKbps)
         == BitratePlan(MinVideoKbps, SizeMB(MinVideoKbps, audioKbps, durationSec))
    ensures CalculateTargetBitrate(targetMB, durationSec, audioKbps).adjustedMB > targetMB
  {
    ClampCondition(targetMB, durationSec, audioKbps);
  }

  /** The adjusted size differs from the requested one exactly when the floor
      is applied. */
  lemma AdjustedDiffersIffClamped(targetMB: real, durationSec: real, audioKbps: int)
    requires durationSec > 0.0
    ensures CalculateTargetBitrate(targetMB, durationSec, audioKbps).adjustedMB != targetMB
        <==> UnclampedKbps(targetMB, durationSec, audioKbps) < MinVideoKbps
  {
    ClampCondition(targetMB, durationSec, audioKbps);
  }
}
