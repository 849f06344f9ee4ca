/** `VideoCompressor`: codec choice, per-segment encoder invocations, the
    segment plan, output naming, and the compression run that keeps the
    outputs whose encode succeeded. */
module VideoCompressor {
  import opened Maybe
  import opened Decimal
  import opened Bitrate
  import opened LongVideo
  import opened Segmentation
  import opened Command

  const DefaultTargetMB: real := 160.0

  datatype Codec = VideoToolbox | Libx264

  function CodecName(codec: Codec): string {
    match codec
    case VideoToolbox => "h264_videotoolbox"
    case Libx264 => "libx264"
  }

  datatype Compressor = Compressor(targetMB: real, codec: Codec)

  /** What the prober reports about a source. */
  datatype MediaInfo = MediaInfo(duration: real, width: int, height: int)

  /** One planned encode: an optional trim window and the output path. */
  datatype Segment = Segment(start: Option<real>, duration: Option<real>, output: string)

  predicate WellFormed(seg: Segment) {
    seg.duration.Some? ==> seg.duration.value >= 0.0
  }

  /** The constructor. `hwAvailable` stands for the encoder-list probe. */
  function NewCompressor(targetMB: real, useHwAccel: bool, hwAvailable: bool): (c: Compressor)
    ensures c.targetMB == targetMB
    ensures c.codec == VideoToolbox <==> useHwAccel && hwAvailable
    ensures c.codec == Libx264 <==> !useHwAccel || !hwAvailable
  {
    Compressor(targetMB, if useHwAccel && hwAvailable then VideoToolbox else Libx264)
  }

  /** The duration a segment's bitrate is planned for: its own when given
      and non-zero (Python truthiness), the source's otherwise. */
  function PlanningDuration(duration: Option<real>, info: MediaInfo): (d: real)
    requires info.duration > 0.0
    requires duration.Some? ==> duration.value >= 0.0
    ensures d > 0.0
    ensures duration.Some? && duration.value != 0.0 ==> d == duration.value
    ensures duration.None? || duration.value == 0.0 ==> d == info.duration
  {
    if duration.Some? && duration.value != 0.0 then duration.value else info.duration
  }

  function ShowOption(t: Option<real>, showSeconds: real -> string): Option<string> {
    match t
    case None => None
    case Some(x) => Some(showSeconds(x))
  }

  /** The invocation `compress_segment` hands to the encoder. `showSeconds`
      stands for Python's `str()` of a float. */
  function EncodeJob(c: Compressor, input: string, output: string, start: Option<real>, duration: Option<real>,
                     info: MediaInfo, audioKbps: nat, showSeconds: real -> string): (inv: Invocation)
    requires info.duration > 0.0
    requires duration.Some? ==> duration.value >= 0.0
    ensures inv.videoKbps >= MinVideoKbps
    ensures inv.videoKbps == CalculateTargetBitrate(c.targetMB, PlanningDuration(duration, info), audioKbps).videoKbps
    ensures 10 * inv.maxrateKbps <= 11 * inv.videoKbps < 10 * inv.maxrateKbps + 10
    ensures inv.bufsizeKbps == 2 * inv.videoKbps
    ensures inv.start.Some? <==> start.Some?
    ensures inv.duration.Some? <==> duration.Some?
    ensures inv.preset.Some? <==> c.codec == Libx264
    ensures inv.filter.Some? <==> info.duration >= 3600.0 && info.height > 720
    ensures inv.audioKbps == audioKbps && inv.input == input && inv.output == output
  {
    var plan := CalculateTargetBitrate(c.targetMB, PlanningDuration(duration, info), audioKbps);
    var v := plan.videoKbps;
    Invocation(
      input := input,
      start := ShowOption(start, showSeconds),
      duration := ShowOption(duration, showSeconds),
      codec := CodecName(c.codec),
      videoKbps := v,
      maxrateKbps := (v * 11) / 10,
      bufsizeKbps := v * 2,
      preset := if c.codec == Libx264 then Some("medium") else None,
      filter := ScaleFilter(info.duration, info.height),
      audioKbps := audioKbps,
      output := output)
  }

  /** `s` ends with `t`. */
  predicate EndsWith(s: string, t: string) {
    |s| >= |t| && s[|s| - |t|..] == t
  }

  /** `os.path.join(dir, name)` on POSIX: an absolute name replaces the
      directory; otherwise the name follows the directory, with one `/`
      inserted unless the directory is empty or already ends in one. */
  function Join(dir: string, name: string): (j: string)
    ensures EndsWith(j, name)
    ensures |name| > 0 && name[0] == '/' ==> j == name
    ensures !(|name| > 0 && name[0] == '/') ==>
      |dir| + |name| <= |j| <= |dir| + |name| + 1 && j[..|dir|] == dir
  {
    if |name| > 0 && name[0] == '/' then name
    else if dir == [] || dir[|dir| - 1] == '/' then dir + name
    else dir + "/" + name
  }

  /** For a relative name, `Join` puts exactly one `/` between the directory
      and the name when the directory does not already end in one, and
      nothing otherwise. */
  lemma JoinSeparator(dir: string, name: string)
    requires !(|name| > 0 && name[0] == '/')
    ensures dir != [] && dir[|dir| - 1] != '/' ==> Join(dir, name) == dir + "/" + name
    ensures dir == [] || dir[|dir| - 1] == '/' ==> Join(dir, name) == dir + name
  {
  }

  /** Output path of an unsplit run. */
  function WholeName(dir: string, stem: string): (w: string)
    ensures EndsWith(w, stem + "_compressed.mp4")
  {
    Join(dir, stem + "_compressed.mp4")
  }

  /** Output path of part `k` (numbered from 1) of a split run. */
  function PartName(dir: string, stem: string, k: nat): (p: string)
    ensures EndsWith(p, stem + "_part" + Show(k) + ".mp4")
  {
    Join(dir, stem + "_part" + Show(k) + ".mp4")
  }

  /** The segments `compress` encodes: the whole file when the adjusted size
      is within the cap, otherwise equal windows named `_part1`, `_part2`, ... */
  function PlanSegments(c: Compressor, info: MediaInfo, dir: string, stem: string): (plan: seq<Segment>)
    requires c.targetMB > 0.0 && info.duration > 0.0
    ensures |plan| >= 1
    ensures forall k :: 0 <= k < |plan| ==> WellFormed(plan[k])
  {
    var audio := AudioKbps(info.duration);
    var adjusted := CalculateTargetBitrate(c.targetMB, info.duration, audio).adjustedMB;
    if NeedsSplit(adjusted) then
      var n := SegmentCount(adjusted, c.targetMB);
      var ws := Windows(info.duration, n);
      WindowsTile(info.duration, n);
      seq(n, k requires 0 <= k < n => Segment(Some(ws[k].start), Some(ws[k].length), PartName(dir, stem, k + 1)))
    else
      [Segment(None, None, WholeName(dir, stem))]
  }

  /** Planned adjusted size of the whole source, as `compress` computes it. */
  function AdjustedMB(c: Compressor, info: MediaInfo): real
    requires info.duration > 0.0
  {
    CalculateTargetBitrate(c.targetMB, info.duration, AudioKbps(info.duration)).adjustedMB
  }

  /** The source is split exactly when its adjusted size exceeds the cap,
      into one more part than the whole targets the adjusted size holds,
      which is at least two; otherwise one whole-file segment is planned,
      with neither start nor duration. */
  lemma SplitDecision(c: Compressor, info: MediaInfo, dir: string, stem: string)
    requires c.targetMB > 0.0 && info.duration > 0.0
    ensures var plan := PlanSegments(c, info, dir, stem);
      && (|plan| > 1 <==> NeedsSplit(AdjustedMB(c, info)))
      && (!NeedsSplit(AdjustedMB(c, info)) ==> plan == [Segment(None, None, WholeName(dir, stem))])
      && (NeedsSplit(AdjustedMB(c, info)) ==>
            (|plan| - 1) as real <= AdjustedMB(c, info) / c.targetMB < |plan| as real)
      && (NeedsSplit(AdjustedMB(c, info)) ==>
            forall k :: 0 <= k < |plan| ==> plan[k].output == PartName(dir, stem, k + 1))
  {
    var adjusted := AdjustedMB(c, info);
    if NeedsSplit(adjusted) {
      var n := SegmentCount(adjusted, c.targetMB);
      assert adjusted / c.targetMB >= 1.0 by {
        assert adjusted >= c.targetMB;
        assert adjusted / c.targetMB * c.targetMB == adjusted;
      }
    }
  }

  /** A split plan's windows start at 0, abut, end at the source's
      duration and are all non-empty. */
  lemma SplitSegmentsTile(c: Compressor, info: MediaInfo, dir: string, stem: string)
    requires c.targetMB > 0.0 && info.duration > 0.0
    requires NeedsSplit(AdjustedMB(c, info))
    ensures var plan := PlanSegments(c, info, dir, stem);
      && (forall k :: 0 <= k < |plan| ==> plan[k].start.Some? && plan[k].duration.Some?)
      && plan[0].start == Some(0.0)
      && (forall k :: 0 <= k < |plan| - 1 ==>
            plan[k].start.value + plan[k].duration.value == plan[k + 1].start.value)
      && plan[|plan| - 1].start.value + plan[|plan| - 1].duration.value == info.duration
      && (forall k :: 0 <= k < |plan| ==> plan[k].duration.value > 0.0)
      && TotalDuration(plan) == info.duration
  {
    var plan := PlanSegments(c, info, dir, stem);
    var n := |plan|;
    var ws := Windows(info.duration, n);
    assert forall k :: 0 <= k < n ==> plan[k].start == Some(ws[k].start) && plan[k].duration == Some(ws[k].length);
    WindowsTile(info.duration, n);
    WindowsCover(info.duration, n);
    TotalDurationOfWindows(plan, ws);
  }

  /** Sum of the planned segment durations (an absent duration counts 0). */
  function TotalDuration(plan: seq<Segment>): real {
    if plan == [] then 0.0
    else TotalDuration(plan[..|plan| - 1]) + (match plan[|plan| - 1].duration case Some(d) => d case None => 0.0)
  }

  lemma {:induction false} TotalDurationOfWindows(plan: seq<Segment>, ws: seq<Window>)
    requires |plan| == |ws|
    requires forall k :: 0 <= k < |plan| ==> plan[k].duration == Some(ws[k].length)
    ensures TotalDuration(plan) == TotalLength(ws)
  {
    if plan != [] {
      TotalDurationOfWindows(plan[..|plan| - 1], ws[..|ws| - 1]);
    }
  }

  /** Different part numbers give different output paths. */
  lemma PartNameInjective(dir: string, stem: string, i: nat, j: nat)
    requires PartName(dir, stem, i) == PartName(dir, stem, j)
    ensures i == j
  {
    var x := stem + "_part" + Show(i) + ".mp4";
    var y := stem + "_part" + Show(j) + ".mp4";
    var head := stem + "_part";
    assert x[0] == y[0] by {
      if |stem| > 0 {
        assert x[0] == stem[0] && y[0] == stem[0];
      } else {
        assert x[0] == '_' && y[0] == '_';
      }
    }
    assert x == y by {
      if x[0] != '/' {
        var p := if dir == [] || dir[|dir| - 1] == '/' then dir else dir + "/";
        assert Join(dir, x) == p + x && Join(dir, y) == p + y;
        assert x == (p + x)[|p|..];
        assert y == (p + y)[|p|..];
      }
    }
    assert x == head + Show(i) + ".mp4" && y == head + Show(j) + ".mp4";
    assert Show(i) == x[|head|..|x| - 4];
    assert Show(j) == y[|head|..|y| - 4];
    ShowInjective(i, j);
  }

  /** The whole-file output never collides with a part's output: it ends in
      `d.mp4`, a part in a digit then `.mp4`. */
  lemma WholeNameIsNoPart(dir: string, stem: string, k: nat)
    ensures WholeName(dir, stem) != PartName(dir, stem, k)
  {
    var w := WholeName(dir, stem);
    var p := PartName(dir, stem, k);
    var whole := stem + "_compressed.mp4";
    var part := stem + "_part" + Show(k) + ".mp4";
    var digits := Show(k);
    assert w[|w| - 5] == w[|w| - |whole|..][|whole| - 5] == 'd';
    assert p[|p| - 5] == p[|p| - |part|..][|part| - 5] == digits[|digits| - 1];
    assert IsDigit(digits[|digits| - 1]);
  }

  /** No two planned segments write the same output path. */
  lemma OutputsDistinct(c: Compressor, info: MediaInfo, dir: string, stem: string)
    requires c.targetMB > 0.0 && info.duration > 0.0
    ensures var plan := PlanSegments(c, info, dir, stem);
      forall i, j :: 0 <= i < j < |plan| ==> plan[i].output != plan[j].output
  {
    var plan := PlanSegments(c, info, dir, stem);
    SplitDecision(c, info, dir, stem);
    forall i, j | 0 <= i < j < |plan|
      ensures plan[i].output != plan[j].output
    {
      assert plan[i].output == PartName(dir, stem, i + 1) && plan[j].output == PartName(dir, stem, j + 1);
      if plan[i].output == plan[j].output {
        PartNameInjective(dir, stem, i + 1, j + 1);
      }
    }
  }

  lemma SizeMBScales(videoKbps: int, audioKbps: int, durationSec: real, n: nat)
    requires n >= 1
    ensures SizeMB(videoKbps, audioKbps, durationSec / n as real) * n as real == SizeMB(videoKbps, audioKbps, durationSec)
  {
    var k := ((videoKbps + audioKbps) * 1024) as real;
    assert k * (durationSec / n as real) * n as real == k * durationSec;
  }

  /** If `n` shares of `whole` fit in an amount below `n` targets, one share
      is below the target. */
  lemma ShareBelowTarget(share: real, whole: real, adjusted: real, target: real, n: real)
    requires target > 0.0 && n >= 1.0
    requires share * n == whole && whole <= adjusted && adjusted / target < n
    ensures share < target
  {
    assert adjusted < n * target by {
      assert adjusted / target * target == adjusted;
    }
    assert share * n < target * n;
  }

  /** One `n`-th of the source at the floor rate fits the target once the
      adjusted size is below `n` targets. */
  lemma FloorShareBelowTarget(audioKbps: int, durationSec: real, adjusted: real, target: real, n: nat)
    requires target > 0.0 && n >= 1
    requires SizeMB(MinVideoKbps, audioKbps, durationSec) <= adjusted && adjusted / target < n as real
    ensures SizeMB(MinVideoKbps, audioKbps, durationSec / n as real) < target
  {
    SizeMBScales(MinVideoKbps, audioKbps, durationSec, n);
    ShareBelowTarget(SizeMB(MinVideoKbps, audioKbps, durationSec / n as real),
                     SizeMB(MinVideoKbps, audioKbps, durationSec), adjusted, target, n as real);
  }

  /** The re-planned bitrate for segment `seg`; `compress_segment` uses only
      its video rate and drops the adjusted size. */
  function SegmentPlan(c: Compressor, info: MediaInfo, seg: Segment): BitratePlan
    requires info.duration > 0.0 && WellFormed(seg)
  {
    CalculateTargetBitrate(c.targetMB, PlanningDuration(seg.duration, info), AudioKbps(info.duration))
  }

  /** After a split, every part is re-planned for its own duration without
      the floor: it runs at the largest whole kbps rate whose size fits the
      requested target. */
  lemma SplitPartsFitTarget(c: Compressor, info: MediaInfo, dir: string, stem: string, k: nat)
    requires c.targetMB > 0.0 && info.duration > 0.0
    requires NeedsSplit(AdjustedMB(c, info))
    requires k < |PlanSegments(c, info, dir, stem)|
    ensures var seg := PlanSegments(c, info, dir, stem)[k];
      var d := PlanningDuration(seg.duration, info);
      var audio := AudioKbps(info.duration);
      && d == info.duration / |PlanSegments(c, info, dir, stem)| as real
      && SizeMB(SegmentPlan(c, info, seg).videoKbps, audio, d) <= c.targetMB
      && SizeMB(SegmentPlan(c, info, seg).videoKbps + 1, audio, d) > c.targetMB
  {
    var plan := PlanSegments(c, info, dir, stem);
    var n := |plan|;
    var audio := AudioKbps(info.duration);
    var adjusted := AdjustedMB(c, info);
    var floorSize := SizeMB(MinVideoKbps, audio, info.duration);
    SplitDecision(c, info, dir, stem);
    SplitSegmentsTile(c, info, dir, stem);
    var d := info.duration / n as real;
    assert plan[k].duration == Some(Windows(info.duration, n)[k].length);
    assert PlanningDuration(plan[k].duration, info) == d;
    assert floorSize <= adjusted by {
      ClampCondition(c.targetMB, info.duration, audio);
      if floorSize > c.targetMB {
        ClampedPlanUsesFloor(c.targetMB, info.duration, audio);
      }
    }
    FloorShareBelowTarget(audio, info.duration, adjusted, c.targetMB, n);
    UnclampedPlanIsLargestFitting(c.targetMB, d, audio);
  }

  /** Every output is planned within its budget: the requested target for a
      part of a split, the adjusted size (itself within the cap) for a whole
      file. */
  lemma EveryOutputFitsItsBudget(c: Compressor, info: MediaInfo, dir: string, stem: string, k: nat)
    requires c.targetMB > 0.0 && info.duration > 0.0
    requires k < |PlanSegments(c, info, dir, stem)|
    ensures var plan := PlanSegments(c, info, dir, stem);
      var size := SizeMB(SegmentPlan(c, info, plan[k]).videoKbps, AudioKbps(info.duration),
                         PlanningDuration(plan[k].duration, info));
      && (|plan| > 1 ==> size <= c.targetMB)
      && (|plan| == 1 ==> size <= AdjustedMB(c, info) <= HardCapMB)
  {
    SplitDecision(c, info, dir, stem);
    if NeedsSplit(AdjustedMB(c, info)) {
      SplitPartsFitTarget(c, info, dir, stem, k);
    }
  }

  /** With a target within the cap, no output is planned above the cap. */
  lemma OutputsWithinCap(c: Compressor, info: MediaInfo, dir: string, stem: string, k: nat)
    requires 0.0 < c.targetMB <= HardCapMB && info.duration > 0.0
    requires k < |PlanSegments(c, info, dir, stem)|
    ensures var seg := PlanSegments(c, info, dir, stem)[k];
      SizeMB(SegmentPlan(c, info, seg).videoKbps, AudioKbps(info.duration), PlanningDuration(seg.duration, info))
        <= HardCapMB
  {
    EveryOutputFitsItsBudget(c, info, dir, stem, k);
  }

  function SegmentArgs(c: Compressor, info: MediaInfo, input: string, audioKbps: nat,
                       showSeconds: real -> string, seg: Segment): seq<string>
    requires info.duration > 0.0 && WellFormed(seg)
  {
    Args(EncodeJob(c, input, seg.output, seg.start, seg.duration, info, audioKbps, showSeconds))
  }

  /** What the encoder can read back from a segment's argument vector: the
      trim flags exactly when the segment has a window, the planned rate
      with maxrate 1.1 times and bufsize twice it, the preset exactly for
      the software codec, the source-wide scale filter, the audio rate, and
      the output path last after `-y`. */
  lemma SegmentArgsReadBack(c: Compressor, info: MediaInfo, input: string, audioKbps: nat,
                            showSeconds: real -> string, seg: Segment)
    requires info.duration > 0.0 && WellFormed(seg)
    ensures ParseArgs(SegmentArgs(c, info, input, audioKbps, showSeconds, seg)).Some?
    ensures var a := SegmentArgs(c, info, input, audioKbps, showSeconds, seg);
      a[|a| - 2..] == ["-y", seg.output]
    ensures var inv := ParseArgs(SegmentArgs(c, info, input, audioKbps, showSeconds, seg)).value;
      && inv.input == input && inv.output == seg.output
      && inv.start == ShowOption(seg.start, showSeconds)
      && inv.duration == ShowOption(seg.duration, showSeconds)
      && inv.codec == CodecName(c.codec)
      && inv.videoKbps
         == CalculateTargetBitrate(c.targetMB, PlanningDuration(seg.duration, info), audioKbps).videoKbps
         >= MinVideoKbps
      && 10 * inv.maxrateKbps <= 11 * inv.videoKbps < 10 * inv.maxrateKbps + 10
      && inv.bufsizeKbps == 2 * inv.videoKbps
      && (inv.preset == Some("medium") <==> c.codec == Libx264)
      && (inv.preset.None? <==> c.codec == VideoToolbox)
      && inv.filter == ScaleFilter(info.duration, info.height)
      && inv.audioKbps == audioKbps
  {
    var job := EncodeJob(c, input, seg.output, seg.start, seg.duration, info, audioKbps, showSeconds);
    ParseArgsOfArgs(job);
    ArgsShape(job);
    assert SegmentArgs(c, info, input, audioKbps, showSeconds, seg) == Args(job);
  }

  /** The argument vectors of a whole plan, in order. */
  function PlannedArgs(c: Compressor, info: MediaInfo, input: string, audioKbps: nat,
                       showSeconds: real -> string, plan: seq<Segment>): (calls: seq<seq<string>>)
    requires info.duration > 0.0
    requires forall k :: 0 <= k < |plan| ==> WellFormed(plan[k])
    ensures |calls| == |plan|
    ensures forall k :: 0 <= k < |plan| ==> calls[k] == SegmentArgs(c, info, input, audioKbps, showSeconds, plan[k])
  {
    seq(|plan|, k requires 0 <= k < |plan| => SegmentArgs(c, info, input, audioKbps, showSeconds, plan[k]))
  }

  /** The encoder's verdict on each invocation, in order. */
  function Verdicts(encoder: seq<string> -> bool, calls: seq<seq<string>>): (ok: seq<bool>)
    ensures |ok| == |calls|
    ensures forall k :: 0 <= k < |calls| ==> ok[k] == encoder(calls[k])
  {
    seq(|calls|, k requires 0 <= k < |calls| => encoder(calls[k]))
  }

  /** The positions of the successes, in increasing order. */
  function Kept(ok: seq<bool>): (ks: seq<nat>)
    ensures |ks| <= |ok|
    ensures forall j :: 0 <= j < |ks| ==> ks[j] < |ok|
  {
    if ok == [] then []
    else Kept(ok[..|ok| - 1]) + (if ok[|ok| - 1] then [|ok| - 1] else [])
  }

  /** `Kept` lists exactly the positions of the successes, each once, in
      increasing order. */
  lemma {:induction false} KeptExactlySuccesses(ok: seq<bool>)
    ensures forall j :: 0 <= j < |Kept(ok)| ==> ok[Kept(ok)[j]]
    ensures forall k :: 0 <= k < |ok| && ok[k] ==> k in Kept(ok)
    ensures forall i, j :: 0 <= i < j < |Kept(ok)| ==> Kept(ok)[i] < Kept(ok)[j]
  {
    if ok != [] {
      var init := ok[..|ok| - 1];
      KeptExactlySuccesses(init);
      forall k | 0 <= k < |init| && init[k]
        ensures k in Kept(ok)
      {
        assert ok[k] == init[k];
      }
    }
  }

  lemma VerdictsSnoc(encoder: seq<string> -> bool, calls: seq<seq<string>>, call: seq<string>)
    ensures Verdicts(encoder, calls + [call]) == Verdicts(encoder, calls) + [encoder(call)]
  {
  }

  lemma KeptSnoc(ok: seq<bool>, b: bool)
    ensures Kept(ok + [b]) == Kept(ok) + (if b then [|ok|] else [])
  {
    assert (ok + [b])[..|ok|] == ok;
  }

  function Outputs(plan: seq<Segment>): (names: seq<string>)
    ensures |names| == |plan|
    ensures forall k :: 0 <= k < |plan| ==> names[k] == plan[k].output
  {
    seq(|plan|, k requires 0 <= k < |plan| => plan[k].output)
  }

  /** The outputs at the given positions, in that order. */
  function Picked(outputs: seq<string>, ks: seq<nat>): (names: seq<string>)
    requires forall j :: 0 <= j < |ks| ==> ks[j] < |outputs|
    ensures |names| == |ks|
  {
    seq(|ks|, j requires 0 <= j < |ks| => outputs[ks[j]])
  }

  lemma PickedSnoc(outputs: seq<string>, ks: seq<nat>, k: nat)
    requires forall j :: 0 <= j < |ks| ==> ks[j] < |outputs|
    requires k < |outputs|
    ensures Picked(outputs, ks + [k]) == Picked(outputs, ks) + [outputs[k]]
  {
  }

  /** The result list holds exactly the outputs whose invocation succeeded,
      no more entries than were planned, and no repeats when the planned
      outputs are distinct. */
  lemma SuccessfulOutputs(outputs: seq<string>, calls: seq<seq<string>>, encoder: seq<string> -> bool)
    requires |outputs| == |calls|
    ensures var names := Picked(outputs, Kept(Verdicts(encoder, calls)));
      && |names| <= |outputs|
      && (forall x :: x in names <==> exists k :: 0 <= k < |calls| && outputs[k] == x && encoder(calls[k]))
      && ((forall i, j :: 0 <= i < j < |outputs| ==> outputs[i] != outputs[j]) ==>
            forall i, j :: 0 <= i < j < |names| ==> names[i] != names[j])
  {
    var ks := Kept(Verdicts(encoder, calls));
    var names := Picked(outputs, ks);
    KeptExactlySuccesses(Verdicts(encoder, calls));
    forall x
      ensures x in names <==> exists k :: 0 <= k < |calls| && outputs[k] == x && encoder(calls[k])
    {
      if x in names {
        var j :| 0 <= j < |names| && names[j] == x;
        assert outputs[ks[j]] == x && encoder(calls[ks[j]]);
      }
      if exists k :: 0 <= k < |calls| && outputs[k] == x && encoder(calls[k]) {
        var k :| 0 <= k < |calls| && outputs[k] == x && encoder(calls[k]);
        assert k in ks;
        var j :| 0 <= j < |ks| && ks[j] == k;
        assert names[j] == x;
      }
    }
  }

  /** When every invocation but the one at `m` succeeds, `Kept` lists every
      position except `m` (all of them when `m` is out of range). */
  lemma {:induction false} KeptAllBut(ok: seq<bool>, m: nat)
    requires forall k :: 0 <= k < |ok| ==> (ok[k] <==> k != m)
    ensures |Kept(ok)| == if m < |ok| then |ok| - 1 else |ok|
    ensures forall j :: 0 <= j < |Kept(ok)| ==> Kept(ok)[j] == if j < m then j else j + 1
  {
    if ok != [] {
      var init := ok[..|ok| - 1];
      KeptAllBut(init, m);
    }
  }

  /** A single failed encode removes exactly its own output from the
      result; every other output is kept, in order. */
  lemma SingleFailureDropsOnlyIt(outputs: seq<string>, calls: seq<seq<string>>, encoder: seq<string> -> bool, m: nat)
    requires |outputs| == |calls| && m < |calls|
    requires forall k :: 0 <= k < |calls| ==> (encoder(calls[k]) <==> k != m)
    ensures Picked(outputs, Kept(Verdicts(encoder, calls))) == outputs[..m] + outputs[m + 1..]
  {
    KeptAllBut(Verdicts(encoder, calls), m);
  }

  /** If the encoder rejects exactly the invocations writing `failing`,
      segment `m`'s output, the run returns every other planned output, in
      order. */
  lemma FailedSegmentIsDropped(c: Compressor, info: MediaInfo, input: string, dir: string, stem: string,
                               showSeconds: real -> string, m: nat, failing: string)
    requires c.targetMB > 0.0 && info.duration > 0.0
    requires m < |PlanSegments(c, info, dir, stem)|
    requires failing == PlanSegments(c, info, dir, stem)[m].output
    ensures var plan := PlanSegments(c, info, dir, stem);
      var calls := PlannedArgs(c, info, input, AudioKbps(info.duration), showSeconds, plan);
      var encoder := (a: seq<string>) => |a| == 0 || a[|a| - 1] != failing;
      Picked(Outputs(plan), Kept(Verdicts(encoder, calls))) == Outputs(plan)[..m] + Outputs(plan)[m + 1..]
  {
    var plan := PlanSegments(c, info, dir, stem);
    var calls := PlannedArgs(c, info, input, AudioKbps(info.duration), showSeconds, plan);
    var encoder := (a: seq<string>) => |a| == 0 || a[|a| - 1] != failing;
    OutputsDistinct(c, info, dir, stem);
    forall k | 0 <= k < |calls|
      ensures encoder(calls[k]) <==> k != m
    {
      ArgsShape(EncodeJob(c, input, plan[k].output, plan[k].start, plan[k].duration, info,
                          AudioKbps(info.duration), showSeconds));
      assert calls[k][|calls[k]| - 1] == plan[k].output;
    }
    SingleFailureDropsOnlyIt(Outputs(plan), calls, encoder, m);
  }

  /** The segment loop of `compress`: every invocation is tried once, in
      order, and the output of each success is appended; a failure is
      skipped and the loop goes on. */
  method EncodeAll(calls: seq<seq<string>>, outputs: seq<string>, encoder: seq<string> -> bool)
    returns (paths: seq<string>, attempted: seq<seq<string>>)
    requires |calls| == |outputs|
    ensures attempted == calls
    ensures paths == Picked(outputs, Kept(Verdicts(encoder, calls)))
  {
    paths := [];
    attempted := [];
    var i := 0;
    while i < |calls|
      invariant 0 <= i <= |calls|
      invariant attempted == calls[..i]
      invariant paths == Picked(outputs, Kept(Verdicts(encoder, attempted)))
    {
      var ok := encoder(calls[i]);
      ghost var ks := Kept(Verdicts(encoder, attempted));
      VerdictsSnoc(encoder, attempted, calls[i]);
      KeptSnoc(Verdicts(encoder, attempted), ok);
      assert calls[..i + 1] == attempted + [calls[i]];
      attempted := attempted + [calls[i]];
      if ok {
        PickedSnoc(outputs, ks, i);
        paths := paths + [outputs[i]];
      }
      i := i + 1;
    }
    assert calls[..i] == calls;
  }

  /** `compress`. `probe` stands for the prober's answer, `encoder` for the
      encoder's success on an argument vector. Returns the result list and
      the argument vectors handed to the encoder, in order. */
  method Compress(c: Compressor, input: string, dir: string, stem: string, probe: Option<MediaInfo>,
                  showSeconds: real -> string, encoder: seq<string> -> bool)
    returns (result: Option<seq<string>>, attempted: seq<seq<string>>)
    requires c.targetMB > 0.0
    requires probe.Some? ==> probe.value.duration > 0.0
    ensures probe.None? ==> result.None? && attempted == []
    ensures probe.Some? ==>
      var info := probe.value;
      var plan := PlanSegments(c, info, dir, stem);
      && attempted == PlannedArgs(c, info, input, AudioKbps(info.duration), showSeconds, plan)
      && result == Some(Picked(Outputs(plan), Kept(Verdicts(encoder, attempted))))
      && |result.value| <= |plan|
      && (forall x :: x in result.value <==>
            exists k :: 0 <= k < |plan| && plan[k].output == x && encoder(attempted[k]))
      && (forall i, j :: 0 <= i < j < |result.value| ==> result.value[i] != result.value[j])
  {
    if probe.None? {
      return None, [];
    }
    var info := probe.value;
    var plan := PlanSegments(c, info, dir, stem);
    var calls := PlannedArgs(c, info, input, AudioKbps(info.duration), showSeconds, plan);
    var paths;
    paths, attempted := EncodeAll(calls, Outputs(plan), encoder);
    SuccessfulOutputs(Outputs(plan), calls, encoder);
    OutputsDistinct(c, info, dir, stem);
    result := Some(paths);
  }
}
