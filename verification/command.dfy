/** The ffmpeg argument vector that `compress_segment` builds, and a parser
    that reads every field back from it. */
module Command {
  import opened Maybe
  import opened Decimal

  /** Everything one encoder invocation carries. Times are already rendered
      as text; rates are whole kbps. */
  datatype Invocation = Invocation(
    input: string,
    start: Option<string>,
    duration: Option<string>,
    codec: string,
    videoKbps: nat,
    maxrateKbps: nat,
    bufsizeKbps: nat,
    preset: Option<string>,
    filter: Option<string>,
    audioKbps: nat,
    output: string)

  /** A rate argument, `f'{kbps}k'`. */
  function Rate(kbps: nat): string {
    Show(kbps) + "k"
  }

  function ParseRate(s: string): Option<nat> {
    if |s| >= 1 && s[|s| - 1] == 'k' then Parse(s[..|s| - 1]) else None
  }

  lemma ParseRateOfRate(kbps: nat)
    ensures ParseRate(Rate(kbps)) == Some(kbps)
  {
    assert Rate(kbps)[..|Rate(kbps)| - 1] == Show(kbps);
    ParseShow(kbps);
  }

  lemma RateOfParseRate(s: string)
    requires ParseRate(s).Some?
    ensures Rate(ParseRate(s).value) == s
  {
    ShowParse(s[..|s| - 1]);
    assert s == s[..|s| - 1] + "k";
  }

  /** `[flag, value]` when the option is set, nothing otherwise. */
  function OptionPair(flag: string, v: Option<string>): seq<string> {
    match v
    case None => []
    case Some(x) => [flag, x]
  }

  /** Reads back an optional `[flag, value]` pair at the head of `a`. */
  function TakeOption(flag: string, a: seq<string>): (Option<string>, seq<string>) {
    if |a| >= 2 && a[0] == flag then (Some(a[1]), a[2..]) else (None, a)
  }

  lemma TakeOptionPair(flag: string, v: Option<string>, rest: seq<string>)
    requires rest == [] || rest[0] != flag
    ensures TakeOption(flag, OptionPair(flag, v) + rest) == (v, rest)
  {
    var a := OptionPair(flag, v) + rest;
    if v.Some? {
      assert a[0] == flag && a[1] == v.value;
      assert a[2..] == rest;
    } else {
      assert a == rest;
    }
  }

  lemma PairOfTakeOption(flag: string, a: seq<string>)
    ensures OptionPair(flag, TakeOption(flag, a).0) + TakeOption(flag, a).1 == a
  {
    if |a| >= 2 && a[0] == flag {
      assert a == [a[0], a[1]] + a[2..];
    }
  }

  function Head(inv: Invocation): seq<string> {
    ["ffmpeg", "-i", inv.input]
  }

  function Rates(inv: Invocation): seq<string> {
    ["-c:v", inv.codec,
     "-b:v", Rate(inv.videoKbps),
     "-maxrate", Rate(inv.maxrateKbps),
     "-bufsize", Rate(inv.bufsizeKbps)]
  }

  function Tail(inv: Invocation): seq<string> {
    ["-c:a", "aac",
     "-b:a", Rate(inv.audioKbps),
     "-movflags", "+faststart",
     "-y", inv.output]
  }

  /** Optional preset and filter, then the fixed tail. */
  function Extras(inv: Invocation): seq<string> {
    OptionPair("-preset", inv.preset) + (OptionPair("-vf", inv.filter) + Tail(inv))
  }

  /** Optional trim, then codec, rates and extras. */
  function AfterInput(inv: Invocation): seq<string> {
    OptionPair("-ss", inv.start) + (OptionPair("-t", inv.duration) + (Rates(inv) + Extras(inv)))
  }

  /** The argument vector, in `compress_segment`'s order: input, optional trim,
      codec and rate triple, optional preset, optional filter, fixed audio
      and mux flags, overwrite flag and output path. */
  function Args(inv: Invocation): seq<string> {
    Head(inv) + AfterInput(inv)
  }

  /** The vector starts with the program and input, has `-ss` right after
      them exactly when a start is given, and ends with `-y` and the
      output path. */
  lemma ArgsShape(inv: Invocation)
    ensures var a := Args(inv);
      && |a| >= 19
      && a[..3] == ["ffmpeg", "-i", inv.input]
      && (a[3] == "-ss" <==> inv.start.Some?)
      && a[|a| - 2..] == ["-y", inv.output]
  {
    var a := Args(inv);
    var extras := Extras(inv);
    var prefix := Head(inv) + OptionPair("-ss", inv.start) + OptionPair("-t", inv.duration) + Rates(inv)
                  + OptionPair("-preset", inv.preset) + OptionPair("-vf", inv.filter);
    assert a == prefix + Tail(inv);
    assert a[|a| - 2..] == Tail(inv)[6..];
    assert a[3] == (OptionPair("-ss", inv.start) + OptionPair("-t", inv.duration) + Rates(inv))[0];
  }

  /** Reads an argument vector of the shape `Args` writes; `None` for any
      other vector. The stages below read it left to right, each carrying the
      fields read so far. */
  function ParseArgs(a: seq<string>): Option<Invocation> {
    if |a| < 3 || a[0] != "ffmpeg" || a[1] != "-i" then None
    else ParseTrim(a[3..], a[2])
  }

  function ParseTrim(r: seq<string>, input: string): Option<Invocation> {
    var (start, r1) := TakeOption("-ss", r);
    var (duration, r2) := TakeOption("-t", r1);
    ParseRates(r2, input, start, duration)
  }

  function ParseRates(r: seq<string>, input: string, start: Option<string>, duration: Option<string>)
    : Option<Invocation>
  {
    if |r| < 8 || r[0] != "-c:v" || r[2] != "-b:v" || r[4] != "-maxrate" || r[6] != "-bufsize" then None
    else
      match (ParseRate(r[3]), ParseRate(r[5]), ParseRate(r[7]))
      case (Some(v), Some(m), Some(b)) =>
        ParseExtras(r[8..], Invocation(input, start, duration, r[1], v, m, b, None, None, 0, ""))
      case _ => None
  }

  /** Reads the optional preset and filter into `partial`, then the tail. */
  function ParseExtras(r: seq<string>, partial: Invocation): Option<Invocation> {
    var (preset, r1) := TakeOption("-preset", r);
    var (filter, r2) := TakeOption("-vf", r1);
    ParseTail(r2, partial.(preset := preset, filter := filter))
  }

  function ParseTail(r: seq<string>, partial: Invocation): Option<Invocation> {
    if |r| != 8 || r[0] != "-c:a" || r[1] != "aac" || r[2] != "-b:a"
       || r[4] != "-movflags" || r[5] != "+faststart" || r[6] != "-y" then None
    else
      match ParseRate(r[3])
      case Some(au) => Some(partial.(audioKbps := au, output := r[7]))
      case None => None
  }

  lemma ParseTailOfTail(inv: Invocation, partial: Invocation)
    requires partial.(audioKbps := inv.audioKbps, output := inv.output) == inv
    ensures ParseTail(Tail(inv), partial) == Some(inv)
  {
    ParseRateOfRate(inv.audioKbps);
  }

  lemma TailOfParseTail(r: seq<string>, partial: Invocation)
    requires ParseTail(r, partial).Some?
    ensures Tail(ParseTail(r, partial).value) == r
    ensures ParseTail(r, partial).value == partial.(audioKbps := ParseTail(r, partial).value.audioKbps,
                                                    output := ParseTail(r, partial).value.output)
  {
    RateOfParseRate(r[3]);
  }

  lemma ParseExtrasOfExtras(inv: Invocation, partial: Invocation)
    requires partial.(preset := inv.preset, filter := inv.filter, audioKbps := inv.audioKbps, output := inv.output) == inv
    ensures ParseExtras(Extras(inv), partial) == Some(inv)
  {
    TakeOptionPair("-preset", inv.preset, OptionPair("-vf", inv.filter) + Tail(inv));
    TakeOptionPair("-vf", inv.filter, Tail(inv));
    ParseTailOfTail(inv, partial.(preset := inv.preset, filter := inv.filter));
  }

  lemma ExtrasOfParseExtras(r: seq<string>, partial: Invocation)
    requires ParseExtras(r, partial).Some?
    ensures Extras(ParseExtras(r, partial).value) == r
    ensures var inv := ParseExtras(r, partial).value;
      partial.(preset := inv.preset, filter := inv.filter, audioKbps := inv.audioKbps, output := inv.output) == inv
  {
    var (preset, r1) := TakeOption("-preset", r);
    var (filter, r2) := TakeOption("-vf", r1);
    PairOfTakeOption("-preset", r);
    PairOfTakeOption("-vf", r1);
    TailOfParseTail(r2, partial.(preset := preset, filter := filter));
  }

  lemma ParseRatesOfRates(inv: Invocation)
    ensures ParseRates(Rates(inv) + Extras(inv), inv.input, inv.start, inv.duration) == Some(inv)
  {
    assert (Rates(inv) + Extras(inv))[8..] == Extras(inv);
    ParseRateOfRate(inv.videoKbps);
    ParseRateOfRate(inv.maxrateKbps);
    ParseRateOfRate(inv.bufsizeKbps);
    ParseExtrasOfExtras(inv, Invocation(inv.input, inv.start, inv.duration, inv.codec,
                                        inv.videoKbps, inv.maxrateKbps, inv.bufsizeKbps, None, None, 0, ""));
  }

  lemma RatesOfParseRates(r: seq<string>, input: string, start: Option<string>, duration: Option<string>)
    requires ParseRates(r, input, start, duration).Some?
    ensures Rates(ParseRates(r, input, start, duration).value) + Extras(ParseRates(r, input, start, duration).value) == r
    ensures var inv := ParseRates(r, input, start, duration).value;
      inv.input == input && inv.start == start && inv.duration == duration
  {
    var v := ParseRate(r[3]).value;
    var m := ParseRate(r[5]).value;
    var b := ParseRate(r[7]).value;
    var partial := Invocation(input, start, duration, r[1], v, m, b, None, None, 0, "");
    ExtrasOfParseExtras(r[8..], partial);
    RateOfParseRate(r[3]);
    RateOfParseRate(r[5]);
    RateOfParseRate(r[7]);
    var inv := ParseRates(r, input, start, duration).value;
    assert Rates(inv) == r[..8];
    assert r == r[..8] + r[8..];
  }

  lemma ParseTrimOfTrim(inv: Invocation)
    ensures ParseTrim(AfterInput(inv), inv.input) == Some(inv)
  {
    var rest := Rates(inv) + Extras(inv);
    TakeOptionPair("-ss", inv.start, OptionPair("-t", inv.duration) + rest);
    TakeOptionPair("-t", inv.duration, rest);
    ParseRatesOfRates(inv);
  }

  lemma TrimOfParseTrim(r: seq<string>, input: string)
    requires ParseTrim(r, input).Some?
    ensures AfterInput(ParseTrim(r, input).value) == r
    ensures ParseTrim(r, input).value.input == input
  {
    var (start, r1) := TakeOption("-ss", r);
    var (duration, r2) := TakeOption("-t", r1);
    PairOfTakeOption("-ss", r);
    PairOfTakeOption("-t", r1);
    RatesOfParseRates(r2, input, start, duration);
  }

  /** Every field of an invocation can be read back from its argument
      vector: each optional flag appears exactly when its field is set. */
  lemma ParseArgsOfArgs(inv: Invocation)
    ensures ParseArgs(Args(inv)) == Some(inv)
  {
    assert Args(inv)[3..] == AfterInput(inv);
    ParseTrimOfTrim(inv);
  }

  lemma ArgsFromPieces(inv: Invocation, a: seq<string>)
    requires |a| >= 3 && a[..3] == Head(inv) && a[3..] == AfterInput(inv)
    ensures Args(inv) == a
  {
    assert a == a[..3] + a[3..];
  }

  /** Conversely, the parser accepts only vectors that `Args` writes. */
  lemma ArgsOfParseArgs(a: seq<string>)
    requires ParseArgs(a).Some?
    ensures Args(ParseArgs(a).value) == a
  {
    TrimOfParseTrim(a[3..], a[2]);
    ArgsFromPieces(ParseTrim(a[3..], a[2]).value, a);
  }
}
