# Video compressor planning core, modelled in Dafny

The tool compresses a video to fit a size budget. It asks ffprobe for the
duration and height. It picks an audio rate and a video bitrate for the
target size. It splits the source into equal time windows when the planned
size exceeds 200 MB. Then it runs ffmpeg once per window and returns the
output paths whose encode succeeded.

This project models that planning and command-building logic of
`VideoCompressor`. All functions are pure and work on exact `real`/`int`
arithmetic:

- `Bitrate` models `calculate_target_bitrate`. Python's `int()` is `Trunc`
  (truncation toward zero) and `//` is floor division. The 200 kbps floor
  recomputes the adjusted size. The lemmas describe the plan
  independently of its formula:
  - the floor applies exactly when even 200 kbps (plus audio) overflows
    the target;
  - otherwise the rate is the largest whole kbps rate whose size fits the
    target;
  - when clamped, the adjusted size is strictly above the target.
- `LongVideo` models the long-video policy. Sources of one hour or more
  get 64 kbps audio instead of 128. When they are also taller than 720
  lines they get `scale=-2:720`. Both choices use the full source
  duration.
- `Segmentation` models the split count `int(adjusted/target) + 1` and
  the equal windows `i * (d/n)`, each of length `d/n`. The windows start
  at 0, abut, end at `d` and sum to `d`.
- `Command` models the ffmpeg argument vector of `compress_segment`. It
  also has a parser that reads every field back. The two round-trip
  lemmas (parse after build, build after parse) show what the vector
  holds. Each optional flag appears exactly when its field is set. The
  rates are written as `<n>k`.
- `VideoCompressor` holds the remaining pieces:
  - the codec choice of `__init__`;
  - `EncodeJob`, the invocation `compress_segment` builds, with the
    bitrate re-planned for the segment's own duration;
  - `PlanSegments`, output naming (`_compressed.mp4`, `_partN.mp4`);
  - the loop `EncodeAll`, which skips failed segments;
  - `Compress`.

  After a split, every part's re-planned rate is unclamped. It is the
  largest whole kbps rate that fits the requested target
  (`SplitPartsFitTarget`), so each part is planned within one kbps step
  below the target. As a result, with a target of at most 200 MB, no
  output is planned above the 200 MB cap (`OutputsWithinCap`). With a
  target well above 200 MB the split still happens, and the parts are
  planned above the cap.
- `Scenarios` works through concrete sources at the default 160 MB
  target:
  - a one-hour source gets 64 kbps audio and 300 kbps video, and is
    encoded whole;
  - a five-hour 1080-line source has an adjusted size of 580.078125 MB
    and is split into four parts. When the second part's encode fails,
    the other three are returned in order.

External effects are parameters:
- the prober's answer is an `Option<MediaInfo>` (`None` = probe failure);
- hardware-encoder availability is a `bool`;
- the encoder is a function from argument vector to success;
- Python's `str()` of a float is a caller-given `showSeconds: real -> string`.

Details of the code that the model keeps:
- The video bits per second are truncated toward zero before the floor
  division by 1024. For non-negative values this is a floor. A negative
  value truncates to at most 0 kbps and is clamped to 200 either way.
- When the floor applies, the adjusted size is strictly greater than the
  target.

## Model

| member | source | states |
|---|---|---|
| Bitrate.Trunc | video_compressor.py:93 | `int()` on a float truncates toward zero: the result is within 1 of `x`, on the zero side |
| Bitrate.UnclampedKbps | video_compressor.py:91-94 | the rate before the floor is the whole number of 1024 bit/s steps in the video's share of the bits per second: `1024 v <= share < 1024 (v + 1)` for a non-negative share, and at most 0 for a negative one |
| Bitrate.CalculateTargetBitrate | video_compressor.py:89-105 | the video rate is never below 200 kbps; the adjusted size is never below the target; a stream at the planned rates fits the adjusted size |
| Bitrate.ClampCondition | video_compressor.py:91-99 | the floor is applied exactly when the size of a 200 kbps video plus the audio over the duration exceeds the target |
| Bitrate.UnclampedPlanIsLargestFitting | video_compressor.py:91-97 | when the floor does not apply, the adjusted size equals the target, the rate fits the target, and one kbps more would overflow it |
| Bitrate.ClampedPlanUsesFloor | video_compressor.py:99-105 | when the floor applies, the plan is 200 kbps with adjusted size `(200*1024 + audio*1024) * duration / (8*1024*1024)`, strictly above the target |
| Bitrate.AdjustedDiffersIffClamped | video_compressor.py:94-105 | the adjusted size differs from the target exactly when `trunc(total - audio) // 1024 < 200` |
| LongVideo.AudioKbps | video_compressor.py:167-169 | audio is 64 kbps exactly when the duration is at least 3600 s, else 128 kbps |
| LongVideo.ScaleFilter | video_compressor.py:111-115 | the filter is `scale=-2:720` exactly when the source lasts at least 3600 s and is taller than 720 lines, else absent |
| Segmentation.SegmentCount | video_compressor.py:177 | the count `n` satisfies `n - 1 <= adjusted/target < n` |
| Segmentation.Windows | video_compressor.py:178-184 | there are exactly `n` windows; `WindowsTile` and `WindowsCover` state how they split the duration |
| Segmentation.WindowsTile | video_compressor.py:178-184 | window 0 starts at 0, each window starts where the previous ends, the last ends at the duration, none is empty |
| Segmentation.WindowsCover | video_compressor.py:178-184 | the window lengths sum to the source duration |
| Decimal.Show | video_compressor.py:128-130 | the decimal text of an `int` is non-empty, all digits, and starts with `0` only for 0; `ParseShow` reads it back |
| Decimal.ParseShow | video_compressor.py:128-130 | parsing the decimal text of a number gives the number back |
| Decimal.ShowParse | video_compressor.py:128-130 | every text the decimal parser accepts is exactly the text written for its value |
| Decimal.ShowInjective | video_compressor.py:183 | different part numbers have different decimal texts |
| Command.ParseRateOfRate | video_compressor.py:128-130 | a `<n>k` rate argument reads back as `n` |
| Command.RateOfParseRate | video_compressor.py:128-130 | every accepted rate argument is exactly the `<n>k` text of its value |
| Command.Args | video_compressor.py:120-146 | the argument vector built from an invocation; it has no contract of its own: `ArgsShape` states its shape, and `ParseArgsOfArgs` and `ArgsOfParseArgs` show it can be read back and that nothing else can |
| Command.ArgsShape | video_compressor.py:120-146 | the vector starts `ffmpeg -i <input>`, has `-ss` next exactly when a start is given, and ends with `-y <output>` |
| Command.ParseArgsOfArgs | video_compressor.py:120-146 | every field of an invocation is read back from its vector: trim, codec, rate triple, optional preset, optional filter, audio rate, output |
| Command.ArgsOfParseArgs | video_compressor.py:120-146 | the parser accepts only vectors of the shape built by `compress_segment` |
| VideoCompressor.NewCompressor | video_compressor.py:83-86 | the codec is `h264_videotoolbox` exactly when hardware acceleration is requested and available, else `libx264` |
| VideoCompressor.PlanningDuration | video_compressor.py:109 | a segment is planned for its own duration when one is given and non-zero, and for the whole video's duration when none is given or it is zero; always positive |
| VideoCompressor.EncodeJob | video_compressor.py:107-146 | video rate at least 200 kbps and re-planned for the segment's duration; maxrate is `1.1 * rate` rounded down; bufsize is twice the rate; trim iff given; preset iff `libx264`; filter iff long and taller than 720 |
| VideoCompressor.SegmentArgsReadBack | video_compressor.py:109-146 | the vector of a segment carries its window, the re-planned rate triple, `-preset medium` exactly for `libx264`, the source-wide filter, the audio rate, and `-y <output>` last |
| VideoCompressor.PlanSegments | video_compressor.py:176-188 | at least one segment is planned, and no window has a negative duration |
| VideoCompressor.SplitDecision | video_compressor.py:172-188 | more than one segment exactly when the adjusted size exceeds 200 MB; then the count is `floor(adjusted/target) + 1 >= 2` and segment `k` (from 0) writes `_part<k+1>.mp4`; otherwise one segment with neither start nor duration named `_compressed.mp4` |
| VideoCompressor.SplitSegmentsTile | video_compressor.py:177-184 | a split plan's windows start at 0, abut, end at the duration, are non-empty, and their durations sum to the duration |
| VideoCompressor.Join | video_compressor.py:183-187 | POSIX `os.path.join`: the name is always a suffix of the result; an absolute name is the whole result; otherwise the result starts with the directory and is at most one character longer than directory and name together |
| VideoCompressor.JoinSeparator | video_compressor.py:183-187 | for a relative name, the result is `dir + "/" + name` when the directory is non-empty and does not end in `/`, and `dir + name` otherwise |
| VideoCompressor.WholeName | video_compressor.py:187 | the unsplit output path ends in `<stem>_compressed.mp4` |
| VideoCompressor.PartName | video_compressor.py:183 | part `k`'s output path ends in `<stem>_part<k>.mp4` |
| VideoCompressor.WholeNameIsNoPart | video_compressor.py:183-187 | the unsplit output path never equals any part's output path |
| VideoCompressor.PartNameInjective | video_compressor.py:183 | different part numbers give different `_partN.mp4` paths |
| VideoCompressor.OutputsDistinct | video_compressor.py:183-187 | no two planned segments share an output path |
| VideoCompressor.SplitPartsFitTarget | video_compressor.py:109 | after a split, each part lasts `d/n` and is planned at the largest whole kbps rate whose size fits the requested target |
| VideoCompressor.EveryOutputFitsItsBudget | video_compressor.py:172-188 | each part of a split is planned within the target; a single output is planned within the adjusted size, itself within 200 MB |
| VideoCompressor.OutputsWithinCap | video_compressor.py:176-188 | with a target of at most 200 MB, no output is planned above 200 MB |
| VideoCompressor.KeptExactlySuccesses | video_compressor.py:182-185 | the kept positions are exactly the successful ones, each once, in increasing order |
| VideoCompressor.SuccessfulOutputs | video_compressor.py:182-191 | the result holds exactly the outputs whose encode succeeded, no more than planned, without repeats when outputs are distinct |
| VideoCompressor.SingleFailureDropsOnlyIt | video_compressor.py:182-185 | one failed encode removes exactly its own output; the rest are kept in order |
| VideoCompressor.FailedSegmentIsDropped | video_compressor.py:182-189 | if the encoder rejects only segment `m`'s output, the result is every other planned output, in order |
| VideoCompressor.EncodeAll | video_compressor.py:182-185 | every invocation is tried once, in order, and the result lists the outputs of the successes in order |
| VideoCompressor.Compress | video_compressor.py:155-191 | probe failure returns `None` with no encode attempted; otherwise, with an encoder that always answers success or failure, every planned segment is encoded once in order, and the result lists exactly the successful outputs, in order, distinct, at most the planned count |
| Scenarios.OneHourSourceStaysWhole | video_compressor.py:89-105 | 3600 s at 160 MB: 64 kbps audio, 300 kbps video with the adjusted size equal to the target, and one whole-file segment |
| Scenarios.QuarterOfFiveHoursRate | video_compressor.py:89-105 | 4500 s at 160 MB with 64 kbps audio is planned at 227 kbps, with the adjusted size equal to the target |
| Scenarios.FiveHourSourceSplitsInFour | video_compressor.py:167-184 | 18000 s at 1080 lines and 160 MB: adjusted size 580.078125 MB, four parts of 4500 s, each planned at 227 kbps within the target, scaled to 720 lines |
| Scenarios.SecondPartFailureIsSkipped | video_compressor.py:182-189 | for that source, a failure on part 2 returns parts 1, 3 and 4 in that order |

## Left out

- `get_video_info` (ffprobe calls and parsing of their output) is not modelled. The probe result is given as `Option<MediaInfo>`. The duration must be positive: with a zero duration the Python code divides by zero.
- `check_h264_videotoolbox` (listing ffmpeg's encoders) is not modelled. Availability is a boolean parameter.
- Running ffmpeg and logging its stderr are not modelled. Success is an abstract function of the argument vector.
- Compress, EncodeAll: only a non-zero exit of ffmpeg or ffprobe is caught, as a failed encode (lines 148-153) or a failed probe (lines 67-72, with `ValueError` for unparsable output). Any other error from starting them, such as `FileNotFoundError` when `ffmpeg` is missing, raises out of `compress`. The remaining segments are then never tried and no result list is returned. The model's encoder only answers success or failure, so every failure is skipped and the run goes on.
- Compress: the encoder is a pure function of its arguments, so two identical invocations cannot have different outcomes. This cannot arise here, because every planned output path is distinct.
- The `output_dir=None` default (`dirname(input)`) and the `basename`/`splitext` steps are not modelled. The output directory and the stem are given; `os.path.join` is modelled for POSIX paths.
- Python's `str()` of a float (for `-ss`/`-t`) is the caller-given `showSeconds`. IEEE rounding is replaced by exact arithmetic in `1.1 * v`, the bitrate division, `duration / 60` (lines 113 and 168), `adjusted_size / target_size_mb` before `int()` (line 177), `duration / num_segments` and `i * segment_duration` (line 184). Near a whole number, a float rounding in the division at line 177 can change the segment count by one.
- `log`, `Colors` and timestamps are console output only. `SUPPORTED_FORMATS` is not used by the core.
- The target size must be positive. The UI never passes less than 10 MB. With a non-positive target, the split count divides by zero or is meaningless.
- MediaInfo width is carried but unused, as in `compress`.
- app.py (the Streamlit UI) is not part of this model. Its audio-bitrate selector is never passed to the compressor.
