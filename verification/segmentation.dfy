/** Splitting an oversized plan into equal time windows. */
module Segmentation {
  import opened Bitrate

  /** Planned sizes above this many MB force a split. */
  const HardCapMB: real := 200.0

  predicate NeedsSplit(adjustedMB: real) {
    adjustedMB > HardCapMB
  }

  /** `int(adjusted_size / target_size_mb) + 1`: one more window than the
      number of whole targets that fit in the adjusted size. */
  function SegmentCount(adjustedMB: real, targetMB: real): (n: nat)
    requires targetMB > 0.0 && NeedsSplit(adjustedMB)
    ensures n >= 1
    ensures (n - 1) as real <= adjustedMB / targetMB < n as real
  {
    Trunc(adjustedMB / targetMB) + 1
  }

  /** A time window of the source, in seconds. */
  datatype Window = Window(start: real, length: real)

  function End(w: Window): real {
    w.start + w.length
  }

  /** Window `i` of `n` starts at `i * (durationSec / n)` and lasts
      `durationSec / n`, as `compress` computes them. */
  function Windows(durationSec: real, n: nat): (ws: seq<Window>)
    requires n >= 1
    ensures |ws| == n
  {
    seq(n, i => Window(i as real * (durationSec / n as real), durationSec / n as real))
  }

  function TotalLength(ws: seq<Window>): real {
    if ws == [] then 0.0 else TotalLength(ws[..|ws| - 1]) + ws[|ws| - 1].length
  }

  /** The windows start at 0, each begins where the previous one ends, the
      last ends at the full duration, and none is empty. */
  lemma WindowsTile(durationSec: real, n: nat)
    requires durationSec > 0.0 && n >= 1
    ensures Windows(durationSec, n)[0].start == 0.0
    ensures forall i :: 0 <= i < n - 1 ==>
      End(Windows(durationSec, n)[i]) == Windows(durationSec, n)[i + 1].start
    ensures End(Windows(durationSec, n)[n - 1]) == durationSec
    ensures forall i :: 0 <= i < n ==> Windows(durationSec, n)[i].length > 0.0
  {
    var ws := Windows(durationSec, n);
    var len := durationSec / n as real;
    forall i | 0 <= i < n - 1
      ensures End(ws[i]) == ws[i + 1].start
    {
      assert (i + 1) as real * len == i as real * len + len;
    }
    assert (n - 1) as real * len + len == n as real * len;
  }

  lemma {:induction false} PrefixLength(durationSec: real, n: nat, k: nat)
    requires n >= 1 && k <= n
    ensures TotalLength(Windows(durationSec, n)[..k]) == k as real * (durationSec / n as real)
  {
    var ws := Windows(durationSec, n);
    if k > 0 {
      assert ws[..k][..k - 1] == ws[..k - 1];
      PrefixLength(durationSec, n, k - 1);
      assert (k - 1) as real * (durationSec / n as real) + durationSec / n as real
          == k as real * (durationSec / n as real);
    }
  }

  /** The window lengths add up to the full duration: no gap, no overlap. */
  lemma WindowsCover(durationSec: real, n: nat)
    requires n >= 1
    ensures TotalLength(Windows(durationSec, n)) == durationSec
  {
    var ws := Windows(durationSec, n);
    PrefixLength(durationSec, n, n);
    assert ws[..n] == ws;
  }
}
