/** Worked cases of the planner on concrete sources. */
module Scenarios {
  import opened Maybe
  import opened Bitrate
  import opened LongVideo
  import opened Segmentation
  import opened VideoCompressor

  /** A one-hour source with the default 160 MB target: long-video audio of
      64 kbps leaves 300 kbps of video, the floor does not apply, and the
      whole file is encoded once. */
  lemma OneHourSourceStaysWhole(codec: Codec, dir: string, stem: string)
    ensures var c := Compressor(DefaultTargetMB, codec);
      var info := MediaInfo(3600.0, 1920, 1080);
      && AudioKbps(info.duration) == LongAudioKbps
      && CalculateTargetBitrate(c.targetMB, info.duration, LongAudioKbps) == BitratePlan(300, DefaultTargetMB)
      && PlanSegments(c, info, dir, stem) == [Segment(None, None, WholeName(dir, stem))]
  {
    var c := Compressor(DefaultTargetMB, codec);
    var info := MediaInfo(3600.0, 1920, 1080);
    var videoBps := DefaultTargetMB * BitsPerMB / 3600.0 - (LongAudioKbps * 1024) as real;
    assert 307291.0 <= videoBps < 307292.0;
    assert UnclampedKbps(DefaultTargetMB, 3600.0, LongAudioKbps) == 300;
    SplitDecision(c, info, dir, stem);
  }

  /** A 4500-second part at the default 160 MB target with long-video audio
      runs at 227 kbps, without the floor. */
  lemma QuarterOfFiveHoursRate()
    ensures CalculateTargetBitrate(DefaultTargetMB, 4500.0, LongAudioKbps) == BitratePlan(227, DefaultTargetMB)
  {
    var videoBps := DefaultTargetMB * BitsPerMB / 4500.0 - (LongAudioKbps * 1024) as real;
    assert 232725.0 <= videoBps < 232726.0;
    assert UnclampedKbps(DefaultTargetMB, 4500.0, LongAudioKbps) == 227;
  }

  /** A five-hour 1080-line source with the default 160 MB target: the floor
      applies, the adjusted size is about 580 MB, and the source is split
      into four 4500-second parts, each planned at 227 kbps and downscaled
      to 720 lines. */
  lemma FiveHourSourceSplitsInFour(codec: Codec, dir: string, stem: string)
    ensures var c := Compressor(DefaultTargetMB, codec);
      var info := MediaInfo(18000.0, 1920, 1080);
      var plan := PlanSegments(c, info, dir, stem);
      && AdjustedMB(c, info) == 580.078125
      && |plan| == 4
      && (forall k :: 0 <= k < 4 ==> plan[k].duration == Some(4500.0))
      && (forall k :: 0 <= k < 4 ==> SegmentPlan(c, info, plan[k]) == BitratePlan(227, DefaultTargetMB))
      && ScaleFilter(info.duration, info.height) == Some(ScaleTo720)
  {
    var c := Compressor(DefaultTargetMB, codec);
    var info := MediaInfo(18000.0, 1920, 1080);
    var plan := PlanSegments(c, info, dir, stem);
    assert AudioKbps(info.duration) == LongAudioKbps;
    assert SizeMB(MinVideoKbps, LongAudioKbps, 18000.0) == 580.078125;
    ClampedPlanUsesFloor(DefaultTargetMB, 18000.0, LongAudioKbps);
    SplitDecision(c, info, dir, stem);
    assert Windows(18000.0, 4)[0].length == 4500.0;
    QuarterOfFiveHoursRate();
  }

  /** The four parts of that source are named `_part1` to `_part4`, in order. */
  lemma FiveHourPartNames(codec: Codec, dir: string, stem: string)
    ensures var plan := PlanSegments(Compressor(DefaultTargetMB, codec), MediaInfo(18000.0, 1920, 1080), dir, stem);
      Outputs(plan) == [PartName(dir, stem, 1), PartName(dir, stem, 2), PartName(dir, stem, 3), PartName(dir, stem, 4)]
  {
    var c := Compressor(DefaultTargetMB, codec);
    var info := MediaInfo(18000.0, 1920, 1080);
    FiveHourSourceSplitsInFour(codec, dir, stem);
    SplitDecision(c, info, dir, stem);
  }

  /** The same source when the encoder fails on the second part only: the
      other three parts are returned, in order. */
  lemma SecondPartFailureIsSkipped(codec: Codec, input: string, dir: string, stem: string,
                                   showSeconds: real -> string)
    ensures var c := Compressor(DefaultTargetMB, codec);
      var info := MediaInfo(18000.0, 1920, 1080);
      var plan := PlanSegments(c, info, dir, stem);
      var calls := PlannedArgs(c, info, input, AudioKbps(info.duration), showSeconds, plan);
      var encoder := (a: seq<string>) => |a| == 0 || a[|a| - 1] != PartName(dir, stem, 2);
      Picked(Outputs(plan), Kept(Verdicts(encoder, calls)))
        == [PartName(dir, stem, 1), PartName(dir, stem, 3), PartName(dir, stem, 4)]
  {
    var c := Compressor(DefaultTargetMB, codec);
    var info := MediaInfo(18000.0, 1920, 1080);
    var plan := PlanSegments(c, info, dir, stem);
    var outs := Outputs(plan);
    var calls := PlannedArgs(c, info, input, AudioKbps(info.duration), showSeconds, plan);
    var encoder := (a: seq<string>) => |a| == 0 || a[|a| - 1] != PartName(dir, stem, 2);
    FiveHourPartNames(codec, dir, stem);
    assert 1 < |plan| && plan[1].output == outs[1];
    FailedSegmentIsDropped(c, info, input, dir, stem, showSeconds, 1, PartName(dir, stem, 2));
    DropSecondOfFour(PartName(dir, stem, 1), PartName(dir, stem, 2), PartName(dir, stem, 3), PartName(dir, stem, 4));
  }

  lemma DropSecondOfFour(a: string, b: string, c: string, d: string)
    ensures [a, b, c, d][..1] + [a, b, c, d][2..] == [a, c, d]
  {
    assert [a, b, c, d][2..] == [c, d];
  }
}
