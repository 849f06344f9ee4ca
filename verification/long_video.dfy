/** The long-video policy: sources of an hour or more get the lower audio
    rate and, when taller than 720 lines, a downscale to 720 lines. */
module LongVideo {
  import opened Maybe

  const LongVideoThresholdMin: real := 60.0
  const DefaultAudioKbps: nat := 128
  const LongAudioKbps: nat := 64

  /** ffmpeg filter: height 720, width kept in proportion and even. */
  const ScaleTo720: string := "scale=-2:720"

  predicate IsLong(durationSec: real) {
    durationSec / 60.0 >= LongVideoThresholdMin
  }

  /** Audio rate chosen in `compress` from the source's full duration. */
  function AudioKbps(durationSec: real): (k: nat)
    ensures k == LongAudioKbps <==> durationSec >= 3600.0
    ensures k == DefaultAudioKbps <==> durationSec < 3600.0
  {
    if IsLong(durationSec) then LongAudioKbps else DefaultAudioKbps
  }

  /** Scale filter chosen in `compress_segment` from the source's full
      duration (never the segment's) and height. */
  function ScaleFilter(durationSec: real, height: int): (f: Option<string>)
    ensures f.Some? <==> durationSec >= 3600.0 && height > 720
    ensures f.Some? ==> f.value == ScaleTo720
  {
    if IsLong(durationSec) && height > 720 then Some(ScaleTo720) else None
  }
}
