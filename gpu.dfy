/**
 * GPU probing: which vendor monitor is chosen at start-up, and how each
 * vendor's raw output (the `nvidia-smi` CSV line, the `intel_gpu_top`
 * table, the AMD sysfs counters) becomes the four optional GPU fields.
 * Running the tools and reading the files are left to the caller: the
 * functions here take the text those produce.
 */
module Gpu {
  import opened Wrappers
  import opened PyText

  /** The GPU part of a snapshot; `None` where the probe cannot supply a field. */
  datatype Metrics = Metrics(
    usagePercent: Option<real>,
    memUsedMb: Option<real>,
    powerDrawW: Option<real>,
    tempC: Option<real>)

  /** What the base monitor reports, and what every vendor falls back to on an error. */
  const NoMetrics := Metrics(None, None, None, None)

  datatype Vendor = Unknown | Nvidia | Intel | Amd

  /** The host facts detection looks at; `drmVendorFile` is the text of card0's vendor file, if it exists. */
  datatype HostFacts = HostFacts(
    hasNvidiaSmi: bool,
    hasI915Module: bool,
    hasIntelGpuTop: bool,
    drmVendorFile: Option<string>)

  /**
   * Whether a vendor's monitor can be used on the host. For AMD the source
   * asks whether some line of the vendor file contains "amdgpu"; as that word
   * holds no line boundary, this is the same as the whole text containing it.
   */
  predicate Usable(h: HostFacts, v: Vendor) {
    match v
    case Nvidia => h.hasNvidiaSmi
    case Intel => h.hasI915Module && h.hasIntelGpuTop
    case Amd => h.drmVendorFile.Some? && Contains(h.drmVendorFile.value, "amdgpu")
    case Unknown => true
  }

  /** `GpuMonitor.detect`: the first usable vendor in the order NVIDIA, Intel, AMD, else the base monitor. */
  function Detect(h: HostFacts): (v: Vendor)
  {
    if h.hasNvidiaSmi then Nvidia
    else if h.hasI915Module && h.hasIntelGpuTop then Intel
    else if h.drmVendorFile.Some? && Contains(h.drmVendorFile.value, "amdgpu") then Amd
    else Unknown
  }

  const Priority: seq<Vendor> := [Nvidia, Intel, Amd]

  /** The usable vendors, in priority order. */
  function Candidates(h: HostFacts, order: seq<Vendor>): (c: seq<Vendor>)
    ensures forall v :: v in c <==> v in order && Usable(h, v)
  {
    if order == [] then []
    else (if Usable(h, order[0]) then [order[0]] else []) + Candidates(h, order[1..])
  }

  /** Detection picks the first usable vendor of the priority list, and the base monitor when none is usable. */
  lemma DetectIsFirstCandidate(h: HostFacts)
    ensures var c := Candidates(h, Priority);
            Detect(h) == if c == [] then Unknown else c[0]
    ensures Detect(h) != Unknown ==> Usable(h, Detect(h))
    ensures forall v :: v in Priority && Usable(h, v) ==> Detect(h) != Unknown
  {
    assert [Amd][1..] == [];
    assert Candidates(h, [Amd]) == if Usable(h, Amd) then [Amd] else [];
    assert [Intel, Amd][1..] == [Amd];
    assert Candidates(h, [Intel, Amd]) == (if Usable(h, Intel) then [Intel] else []) + Candidates(h, [Amd]);
    assert Priority[1..] == [Intel, Amd];
    assert Candidates(h, Priority) == (if Usable(h, Nvidia) then [Nvidia] else []) + Candidates(h, [Intel, Amd]);
  }

  /** A missing `intel_gpu_top` only makes Intel unusable: detection falls through to AMD and then to the base monitor. */
  lemma DetectFallsThrough(h: HostFacts)
    requires !h.hasNvidiaSmi && h.hasI915Module && !h.hasIntelGpuTop
    ensures Detect(h) == Detect(h.(hasI915Module := false))
    ensures Detect(h) == (if Usable(h, Amd) then Amd else Unknown)
  {
  }

  // ---------------------------------------------------------------- NVIDIA

  /** Each part of a list, stripped. */
  function StripEach(parts: seq<string>): (r: seq<string>)
  {
    seq(|parts|, i requires 0 <= i < |parts| => Strip(parts[i]))
  }

  /** Every field is stripped, so stripping the fields again changes nothing. */
  lemma StripEachStripped(parts: seq<string>)
    ensures |StripEach(parts)| == |parts|
    ensures forall i :: 0 <= i < |parts| ==> IsStripped(StripEach(parts)[i])
    ensures StripEach(StripEach(parts)) == StripEach(parts)
  {
    var r := StripEach(parts);
    forall i | 0 <= i < |parts|
      ensures IsStripped(r[i]) && Strip(r[i]) == r[i]
    {
      StripShape(parts[i]);
      StripIdempotent(parts[i]);
    }
  }

  /** The stripped comma-separated fields of `nvidia-smi`'s output. */
  function NvidiaFields(stdout: string): seq<string>
  {
    StripEach(Split(Strip(stdout), ','))
  }

  /** The power field is reported as not applicable. */
  predicate NotApplicable(field: string) {
    Contains(field, "N/A")
  }

  /** Every field the decoder converts is a number: four fields, and the power field either "N/A" or a number. */
  predicate NvidiaLineOk(f: seq<string>) {
    && |f| >= 4
    && ParseFloat(f[0]).Some? && ParseFloat(f[1]).Some? && ParseFloat(f[3]).Some?
    && (NotApplicable(f[2]) || ParseFloat(f[2]).Some?)
  }

  /**
   * `NvidiaGpuMonitor.get_metrics` given the tool's standard output: an
   * IndexError (fewer than four fields) or a ValueError (a field that is not
   * a number) gives the base monitor's all-`None` result.
   */
  function NvidiaDecode(stdout: string): (m: Metrics)
    ensures !NvidiaLineOk(NvidiaFields(stdout)) ==> m == NoMetrics
    ensures m.powerDrawW.None? && m.usagePercent.Some? ==> NotApplicable(NvidiaFields(stdout)[2])
  {
    var f := NvidiaFields(stdout);
    if !NvidiaLineOk(f) then NoMetrics
    else
      Metrics(
        ParseFloat(f[0]),
        ParseFloat(f[1]),
        if NotApplicable(f[2]) then None else ParseFloat(f[2]),
        ParseFloat(f[3]))
  }

  /** Parts joined by ','; `nvidia-smi` puts a blank before every field but the first. */
  function Joined(parts: seq<string>): string
    requires parts != []
    decreases |parts|
  {
    if |parts| == 1 then parts[0] else parts[0] + [','] + Joined(parts[1..])
  }

  /**
   * A reading as `nvidia-smi` prints it: the digits of the whole part, then
   * a '.' and the fraction digits when there are any ("35", "35.12").
   */
  datatype Decimal = Decimal(whole: nat, frac: string)

  /** A reading whose fraction is made of decimal digits. */
  type Numeral = d: Decimal | AllDigits(d.frac) witness Decimal(0, [])

  function NumeralText(n: Numeral): string
  {
    NatToString(n.whole) + (if n.frac == [] then "" else "." + n.frac)
  }

  /** The number a reading stands for: the whole part plus the fraction digits over ten to their count. */
  function NumeralValue(n: Numeral): real
  {
    n.whole as real + DigitsValue(n.frac) as real / Pow10(|n.frac|)
  }

  /** The row `nvidia-smi --format=csv,noheader,nounits` prints for the four values, with "[N/A]" for an unsupported power reading. */
  function NvidiaLine(usage: Numeral, mem: Numeral, power: Option<Numeral>, temp: Numeral): string
  {
    Joined([NumeralText(usage),
            " " + NumeralText(mem),
            " " + PowerField(power),
            " " + NumeralText(temp)]) + "\n"
  }

  /** Splitting joined comma-free parts at ',' gives the parts back. */
  lemma {:induction false} SplitJoined(parts: seq<string>)
    requires parts != []
    requires forall j :: 0 <= j < |parts| ==> ',' !in parts[j]
    ensures Split(Joined(parts), ',') == parts
    decreases |parts|
  {
    if |parts| == 1 {
      SplitNone(parts[0], ',');
    } else {
      SplitJoined(parts[1..]);
      SplitCons(parts[0], ',', Joined(parts[1..]));
    }
  }

  /** The joined text starts with the first part and ends with the last one. */
  lemma {:induction false} JoinedEnds(parts: seq<string>)
    requires parts != []
    ensures parts[0] <= Joined(parts)
    ensures var j, l := Joined(parts), parts[|parts| - 1]; |l| <= |j| && j[|j| - |l|..] == l
    decreases |parts|
  {
    if |parts| > 1 {
      JoinedEnds(parts[1..]);
      var rest := Joined(parts[1..]);
      var j := Joined(parts);
      assert j == parts[0] + [','] + rest;
      assert j[|j| - |rest|..] == rest;
    }
  }

  /** The "[N/A]" the tool prints for an unsupported reading is recognised as not applicable. */
  lemma NotApplicableMarker()
    ensures NotApplicable("[N/A]")
  {
    ContainsAt("[N/A]", "N/A");
    assert "[N/A]"[1..4] == "N/A";
    assert OccursAt("[N/A]", "N/A", 1);
  }

  /** A number never contains "N/A". */
  lemma DigitsNotApplicable(c: string)
    requires forall k :: 0 <= k < |c| ==> IsDigit(c[k]) || c[k] == '.'
    ensures !NotApplicable(c)
  {
    ContainsAt(c, "N/A");
    forall i
      ensures !OccursAt(c, "N/A", i)
    {
      if 0 <= i && i + 3 <= |c| {
        assert c[i..i + 3][0] == c[i];
      }
    }
  }

  /** A field with one leading blank, as the tool prints it, strips to the field itself. */
  lemma StripLeading(x: string)
    requires x != [] && IsStripped(x)
    ensures Strip(" " + x) == x
  {
    assert (" " + x)[1..] == x;
    assert StripLeft(" " + x) == StripLeft(x);
    StripStripped(x);
  }

  /** The field `nvidia-smi` prints for the power reading: a numeral, or "[N/A]". */
  function PowerField(power: Option<Numeral>): (f: string)
    ensures PlainField(f)
  {
    if power.Some? then
      NumeralField(power.value);
      NumeralText(power.value)
    else
      assert "[N/A]"[0] == '[' && "[N/A]"[4] == ']';
      "[N/A]"
  }

  /** A printed numeral is a non-empty, stripped, comma-free field of digits and at most a point. */
  lemma NumeralField(n: Numeral)
    ensures PlainField(NumeralText(n))
    ensures forall k :: 0 <= k < |NumeralText(n)| ==> IsDigit(NumeralText(n)[k]) || NumeralText(n)[k] == '.'
  {
    var d, t := NatToString(n.whole), NumeralText(n);
    if n.frac == [] {
      assert t == d;
    } else {
      assert t == d + "." + n.frac;
      assert t[|t| - 1] == n.frac[|n.frac| - 1];
    }
    assert t[0] == d[0];
    assert forall k :: 0 <= k < |t| ==> IsDigit(t[k]) || t[k] == '.';
  }

  /** The field conditions a printed value meets: non-empty, no surrounding whitespace, no comma. */
  predicate PlainField(x: string) {
    x != [] && IsStripped(x) && ',' !in x
  }

  /** The trailing newline of a printed row is stripped away and nothing else. */
  lemma StripPrintedRow(a: string, b: string, c: string, d: string)
    requires PlainField(a) && PlainField(d)
    ensures Strip(Joined([a, " " + b, " " + c, " " + d]) + "\n") == Joined([a, " " + b, " " + c, " " + d])
  {
    var parts := [a, " " + b, " " + c, " " + d];
    var row := Joined(parts);
    JoinedEnds(parts);
    assert row[0] == a[0];
    assert row[|row| - |parts[3]|..] == " " + d;
    assert row[|row| - 1] == d[|d| - 1];
    StripTrailing(row, "\n");
  }

  /** Stripping the split parts of a printed row gives the fields. */
  lemma StripParts(a: string, b: string, c: string, d: string)
    requires a != [] && IsStripped(a) && b != [] && IsStripped(b)
    requires c != [] && IsStripped(c) && d != [] && IsStripped(d)
    ensures StripEach([a, " " + b, " " + c, " " + d]) == [a, b, c, d]
  {
    var parts := [a, " " + b, " " + c, " " + d];
    StripStripped(a);
    StripLeading(b);
    StripLeading(c);
    StripLeading(d);
  }

  /** A printed row of four plain fields strips to itself and splits into them. */
  lemma FieldsOfRow(a: string, b: string, c: string, d: string)
    requires PlainField(a) && PlainField(b) && PlainField(c) && PlainField(d)
    ensures NvidiaFields(Joined([a, " " + b, " " + c, " " + d]) + "\n") == [a, b, c, d]
  {
    var parts := [a, " " + b, " " + c, " " + d];
    StripPrintedRow(a, b, c, d);
    assert forall j :: 0 <= j < 4 ==> ',' !in parts[j];
    SplitJoined(parts);
    StripParts(a, b, c, d);
  }

  /** The fields `NvidiaDecode` sees in a printed row are the printed numerals. */
  lemma NvidiaFieldsOfLine(usage: Numeral, mem: Numeral, power: Option<Numeral>, temp: Numeral)
    ensures NvidiaFields(NvidiaLine(usage, mem, power, temp))
         == [NumeralText(usage), NumeralText(mem), PowerField(power), NumeralText(temp)]
  {
    NumeralField(usage);
    NumeralField(mem);
    NumeralField(temp);
    FieldsOfRow(NumeralText(usage), NumeralText(mem), PowerField(power), NumeralText(temp));
  }

  /** `float()` of a printed numeral is the number it stands for, and a numeral is not "N/A". */
  lemma NumeralParse(n: Numeral)
    ensures ParseFloat(NumeralText(n)) == Some(NumeralValue(n))
    ensures !NotApplicable(NumeralText(n))
  {
    NumeralField(n);
    DigitsNotApplicable(NumeralText(n));
    if n.frac == [] {
      WholeParse(n);
    } else {
      PointParse(n);
    }
  }

  /** A numeral without fraction digits is read as its whole part. */
  lemma WholeParse(n: Numeral)
    requires n.frac == []
    ensures ParseFloat(NumeralText(n)) == Some(NumeralValue(n))
  {
    assert NumeralText(n) == NatToString(n.whole);
    ParseFloatOfNat(n.whole);
    assert DigitsValue(n.frac) == 0 && Pow10(|n.frac|) == 1.0;
    assert NumeralValue(n) == n.whole as real;
  }

  /** A numeral with fraction digits is read as the whole part plus the fraction. */
  lemma PointParse(n: Numeral)
    requires n.frac != []
    ensures ParseFloat(NumeralText(n)) == Some(NumeralValue(n))
  {
    var d := NatToString(n.whole);
    assert NumeralText(n) == d + "." + n.frac;
    DigitsRoundTrip(n.whole);
    ParseFloatOfPoint(d, n.frac);
    NumeralExcess(n);
    SameExcess(ParseFloat(NumeralText(n)), NumeralValue(n), n.whole as real);
  }

  /** A numeral's value exceeds its whole part by the fraction digits over ten to their count. */
  lemma NumeralExcess(n: Numeral)
    ensures NumeralValue(n) - n.whole as real == DigitsValue(n.frac) as real / Pow10(|n.frac|)
  {
  }

  /** A value that exceeds `w` by as much as `x` does is `x`. */
  lemma SameExcess(v: Option<real>, x: real, w: real)
    requires v.Some? && v.value - w == x - w
    ensures v == Some(x)
  {
  }

  /** The wattage "35.12", as `nvidia-smi` prints it with two decimals, stands for 35.12 W. */
  lemma NumeralExample()
    ensures NumeralText(Decimal(35, "12")) == "35.12"
    ensures NumeralValue(Decimal(35, "12")) == 35.12
  {
    assert NatToString(35) == "35";
    assert DigitsValue("12") == 12 by {
      assert "12"[..1] == "1";
    }
    assert Pow10(2) == 100.0;
  }

  /** The power field decodes to the printed wattage, and to `None` when "[N/A]" was printed. */
  lemma PowerFieldValue(power: Option<Numeral>)
    ensures NotApplicable(PowerField(power)) <==> power.None?
    ensures power.Some? ==> ParseFloat(PowerField(power)) == Some(NumeralValue(power.value))
  {
    if power.Some? {
      NumeralParse(power.value);
    } else {
      NotApplicableMarker();
    }
  }

  /** Four fields that are numbers (the third possibly "N/A") decode field by field. */
  lemma DecodeOfFields(stdout: string, a: string, b: string, c: string, d: string)
    requires NvidiaFields(stdout) == [a, b, c, d]
    requires ParseFloat(a).Some? && ParseFloat(b).Some? && ParseFloat(d).Some?
    requires NotApplicable(c) || ParseFloat(c).Some?
    ensures NvidiaDecode(stdout)
         == Metrics(ParseFloat(a), ParseFloat(b), if NotApplicable(c) then None else ParseFloat(c), ParseFloat(d))
  {
  }

  /** Decoding a line the tool prints gives back the values it printed, with power absent exactly when reported "[N/A]". */
  lemma NvidiaRoundTrip(usage: Numeral, mem: Numeral, power: Option<Numeral>, temp: Numeral)
    ensures NvidiaDecode(NvidiaLine(usage, mem, power, temp))
         == Metrics(Some(NumeralValue(usage)), Some(NumeralValue(mem)),
                    if power.Some? then Some(NumeralValue(power.value)) else None,
                    Some(NumeralValue(temp)))
  {
    var a, b, c, d := NumeralText(usage), NumeralText(mem), PowerField(power), NumeralText(temp);
    NvidiaFieldsOfLine(usage, mem, power, temp);
    NumeralParse(usage);
    NumeralParse(mem);
    NumeralParse(temp);
    PowerFieldValue(power);
    DecodeOfFields(NvidiaLine(usage, mem, power, temp), a, b, c, d);
  }

  /** Output with fewer than four fields, such as an error text without commas, gives every field `None`. */
  lemma NvidiaShortOutput(stdout: string)
    requires |Split(Strip(stdout), ',')| < 4
    ensures NvidiaDecode(stdout) == NoMetrics
  {
  }

  // ---------------------------------------------------------------- Intel

  /** The first position of a "Render/3D" token that has at least two tokens after it, or `|parts|`. */
  function RenderIndex(parts: seq<string>): (k: nat)
    ensures k <= |parts|
    ensures k < |parts| ==> parts[k] == "Render/3D" && k + 2 < |parts|
    ensures forall j :: 0 <= j < k ==> !(parts[j] == "Render/3D" && j + 2 < |parts|)
  {
    RenderIndexFrom(parts, 0)
  }

  function RenderIndexFrom(parts: seq<string>, from: nat): (k: nat)
    requires from <= |parts|
    ensures from <= k <= |parts|
    ensures k < |parts| ==> parts[k] == "Render/3D" && k + 2 < |parts|
    ensures forall j :: from <= j < k ==> !(parts[j] == "Render/3D" && j + 2 < |parts|)
    decreases |parts| - from
  {
    if from == |parts| then from
    else if parts[from] == "Render/3D" && from + 2 < |parts| then from
    else RenderIndexFrom(parts, from + 1)
  }

  /** What one line of `intel_gpu_top`'s output contributes. */
  datatype LineReading = NoReading | Reading(busy: real) | BadValue

  /** A line mentioning "Render/3D" is read at the token two places after the first "Render/3D" token, with '%' removed. */
  function ReadRenderLine(line: string): LineReading
  {
    if !Contains(line, "Render/3D") then NoReading
    else
      var parts := Tokens(line);
      var k := RenderIndex(parts);
      if k == |parts| then NoReading
      else
        match ParseFloat(RemoveChar(parts[k + 2], '%'))
        case None => BadValue
        case Some(v) => Reading(v)
  }

  /** The usage after reading the given lines in order; `None` once a ValueError has been raised. */
  function IntelScan(lines: seq<string>): Option<Option<real>>
  {
    if lines == [] then Some(None)
    else
      match IntelScan(lines[..|lines| - 1])
      case None => None
      case Some(u) =>
        match ReadRenderLine(lines[|lines| - 1])
        case NoReading => Some(u)
        case Reading(v) => Some(Some(v))
        case BadValue => None
  }

  /** `IntelGpuMonitor.get_metrics` given the tool's output. */
  function IntelMetrics(stdout: string): (m: Metrics)
    ensures m.memUsedMb.None? && m.powerDrawW.None? && m.tempC.None?
  {
    match IntelScan(SplitLines(stdout))
    case None => NoMetrics
    case Some(u) => Metrics(u, None, None, None)
  }

  /** The token loop of `IntelGpuMonitor.get_metrics` for one line. */
  method ScanRenderLine(line: string) returns (r: LineReading)
    ensures r == ReadRenderLine(line)
  {
    r := NoReading;
    if Contains(line, "Render/3D") {
      var parts := Tokens(line);
      var j := 0;
      while j < |parts|
        invariant 0 <= j <= |parts|
        invariant forall k :: 0 <= k < j ==> !(parts[k] == "Render/3D" && k + 2 < |parts|)
      {
        if parts[j] == "Render/3D" && j + 2 < |parts| {
          var v := ParseFloat(RemoveChar(parts[j + 2], '%'));
          r := if v.None? then BadValue else Reading(v.value);
          assert RenderIndex(parts) == j;
          return;
        }
        j := j + 1;
      }
      assert RenderIndex(parts) == |parts|;
    }
  }

  /** The decoding loop of `IntelGpuMonitor.get_metrics`. */
  method IntelDecode(stdout: string) returns (m: Metrics)
    ensures m == IntelMetrics(stdout)
  {
    var lines := SplitLines(stdout);
    var usage: Option<real> := None;
    var i := 0;
    while i < |lines|
      invariant 0 <= i <= |lines|
      invariant IntelScan(lines[..i]) == Some(usage)
    {
      assert lines[..i + 1][..i] == lines[..i];
      var reading := ScanRenderLine(lines[i]);
      if reading.BadValue? {
        IntelBadValue(lines, i);
        return NoMetrics;
      } else if reading.Reading? {
        usage := Some(reading.busy);
      }
      i := i + 1;
    }
    assert lines[..i] == lines;
    m := Metrics(usage, None, None, None);
  }

  /** When no line yields a reading, usage is `None`. */
  lemma {:induction false} IntelNoReading(lines: seq<string>)
    requires forall j :: 0 <= j < |lines| ==> ReadRenderLine(lines[j]) == NoReading
    ensures IntelScan(lines) == Some(None)
  {
    if lines != [] {
      IntelNoReading(lines[..|lines| - 1]);
    }
  }

  /** The last line with a reading decides the usage, provided no line raised. */
  lemma {:induction false} IntelLastReadingWins(lines: seq<string>, k: nat, v: real)
    requires k < |lines| && ReadRenderLine(lines[k]) == Reading(v)
    requires forall j :: k < j < |lines| ==> ReadRenderLine(lines[j]) == NoReading
    requires forall j :: 0 <= j < k ==> ReadRenderLine(lines[j]) != BadValue
    ensures IntelScan(lines) == Some(Some(v))
  {
    if k == |lines| - 1 {
      IntelNoError(lines[..k]);
    } else {
      IntelLastReadingWins(lines[..|lines| - 1], k, v);
    }
  }

  /** Without a bad value the scan never raises. */
  lemma {:induction false} IntelNoError(lines: seq<string>)
    requires forall j :: 0 <= j < |lines| ==> ReadRenderLine(lines[j]) != BadValue
    ensures IntelScan(lines).Some?
  {
    if lines != [] {
      IntelNoError(lines[..|lines| - 1]);
    }
  }

  /** A bad value anywhere gives every field `None`. */
  lemma {:induction false} IntelBadValue(lines: seq<string>, k: nat)
    requires k < |lines| && ReadRenderLine(lines[k]) == BadValue
    ensures IntelScan(lines) == None
  {
    if k < |lines| - 1 {
      IntelBadValue(lines[..|lines| - 1], k);
    }
  }

  // ---------------------------------------------------------------- AMD

  /** The divisors of the AMD counters: bytes per MiB, microwatts per watt, millidegrees per degree. */
  const BytesPerMiB: real := 1048576.0
  const MicrowattsPerWatt: real := 1000000.0
  const MillidegreesPerDegree: real := 1000.0

  /** The text a sysfs read hands back: the stripped contents, or `None` when the file cannot be read. */
  function SysfsText(contents: Option<string>): Option<string>
  {
    if contents.Some? then Some(Strip(contents.value)) else None
  }

  /** Python truthiness of the read result: a value that is neither `None` nor empty. */
  predicate Present(t: Option<string>) { t.Some? && t.value != [] }

  /** An integer counter divided by `unit`; `None` when absent; `Some(None)` stands for the ValueError `int()` raises. */
  function IntCounter(t: Option<string>, unit: real): Option<Option<real>>
    requires unit > 0.0
  {
    if !Present(t) then Some(None)
    else match ParseInt(t.value)
      case None => None
      case Some(n) => Some(Some(n as real / unit))
  }

  /** The outcome of `AmdGpuMonitor.get_metrics`: `Raised` when an unguarded `int()` or `float()` conversion fails. */
  datatype AmdReading = Read(m: Metrics) | Raised

  /** The contents of the counter files; `temp` is the first file the hwmon glob matched, if any. */
  datatype AmdFiles = AmdFiles(
    busy: Option<string>,
    vramUsed: Option<string>,
    power: Option<string>,
    temp: Option<(string, Option<string>)>)

  function TempText(f: AmdFiles): Option<string>
  {
    if f.temp.Some? then SysfsText(f.temp.value.1) else None
  }

  /** The metrics the AMD monitor reports for the given file contents. */
  function AmdMetrics(f: AmdFiles): (r: AmdReading)
  {
    var busy := SysfsText(f.busy);
    var mem := IntCounter(SysfsText(f.vramUsed), BytesPerMiB);
    var pw := IntCounter(SysfsText(f.power), MicrowattsPerWatt);
    var tc := IntCounter(TempText(f), MillidegreesPerDegree);
    var usage := if Present(busy) then (match ParseFloat(busy.value) case None => None case Some(v) => Some(Some(v))) else Some(None);
    if mem.None? || pw.None? || tc.None? || usage.None? then Raised
    else Read(Metrics(usage.value, mem.value, pw.value, tc.value))
  }

  /** The conversions: bytes to MiB, microwatts to watts, millidegrees to degrees; a missing or empty file gives `None`, and only a malformed one raises. */
  lemma AmdFields(f: AmdFiles)
    ensures var vram := SysfsText(f.vramUsed);
            AmdMetrics(f).Read? && !Present(vram) ==> AmdMetrics(f).m.memUsedMb == None
    ensures var vram := SysfsText(f.vramUsed);
            Present(vram) && ParseInt(vram.value).Some? && AmdMetrics(f).Read? ==>
              AmdMetrics(f).m.memUsedMb.Some? && AmdMetrics(f).m.memUsedMb.value * BytesPerMiB == ParseInt(vram.value).value as real
    ensures var p := SysfsText(f.power);
            Present(p) && ParseInt(p.value).Some? && AmdMetrics(f).Read? ==>
              AmdMetrics(f).m.powerDrawW.Some? && AmdMetrics(f).m.powerDrawW.value * MicrowattsPerWatt == ParseInt(p.value).value as real
    ensures var t := TempText(f);
            Present(t) && ParseInt(t.value).Some? && AmdMetrics(f).Read? ==>
              AmdMetrics(f).m.tempC.Some? && AmdMetrics(f).m.tempC.value * MillidegreesPerDegree == ParseInt(t.value).value as real
    ensures AmdMetrics(f).Read? && !Present(SysfsText(f.power)) ==> AmdMetrics(f).m.powerDrawW == None
    ensures AmdMetrics(f).Read? && !Present(TempText(f)) ==> AmdMetrics(f).m.tempC == None
    ensures f.temp.None? && AmdMetrics(f).Read? ==> AmdMetrics(f).m.tempC == None
    ensures var busy := SysfsText(f.busy);
            AmdMetrics(f).Read? && !Present(busy) ==> AmdMetrics(f).m.usagePercent == None
    ensures var busy := SysfsText(f.busy);
            AmdMetrics(f).Read? && Present(busy) ==> AmdMetrics(f).m.usagePercent == ParseFloat(busy.value)
    ensures AmdMetrics(f).Raised? <==>
              || (Present(SysfsText(f.vramUsed)) && ParseInt(SysfsText(f.vramUsed).value).None?)
              || (Present(SysfsText(f.power)) && ParseInt(SysfsText(f.power).value).None?)
              || (Present(TempText(f)) && ParseInt(TempText(f).value).None?)
              || (Present(SysfsText(f.busy)) && ParseFloat(SysfsText(f.busy).value).None?)
  {
  }

  /**
   * The warn-once rule of `_read_sysfs`: a failed read warns only if no
   * failure of a file with the same basename has warned before. Returns the
   * new set of warned basenames and whether a warning is printed now.
   */
  function WarnStep(warned: set<string>, path: string, failed: bool): (set<string>, bool)
  {
    var key := Basename(path);
    if failed && key !in warned then (warned + {key}, true) else (warned, false)
  }

  /** The basenames warned about, in order, over a series of reads `(path, failed)`. */
  function Warnings(warned: set<string>, attempts: seq<(string, bool)>): seq<string>
    decreases |attempts|
  {
    if attempts == [] then []
    else
      var (w, emitted) := WarnStep(warned, attempts[0].0, attempts[0].1);
      (if emitted then [Basename(attempts[0].0)] else []) + Warnings(w, attempts[1..])
  }

  /** Over any series of attempts, each basename is warned about at most once, never if it was already warned about, and exactly when some read of it failed. */
  lemma {:induction false} WarnOnce(warned: set<string>, attempts: seq<(string, bool)>)
    ensures forall i, j :: 0 <= i < j < |Warnings(warned, attempts)| ==> Warnings(warned, attempts)[i] != Warnings(warned, attempts)[j]
    ensures forall i :: 0 <= i < |Warnings(warned, attempts)| ==> Warnings(warned, attempts)[i] !in warned
    ensures forall key :: key in Warnings(warned, attempts) <==>
              key !in warned && exists r :: r in attempts && r.1 && Basename(r.0) == key
    decreases |attempts|
  {
    if attempts != [] {
      var (w, emitted) := WarnStep(warned, attempts[0].0, attempts[0].1);
      WarnOnce(w, attempts[1..]);
      var rest := Warnings(w, attempts[1..]);
      assert Warnings(warned, attempts) == (if emitted then [Basename(attempts[0].0)] else []) + rest;
      forall key
        ensures key in Warnings(warned, attempts) <==>
                key !in warned && exists r :: r in attempts && r.1 && Basename(r.0) == key
      {
        if key !in warned && exists r :: r in attempts && r.1 && Basename(r.0) == key {
          var r :| r in attempts && r.1 && Basename(r.0) == key;
          if r != attempts[0] {
            assert r in attempts[1..];
          }
        }
        if key in rest {
          var r :| r in attempts[1..] && r.1 && Basename(r.0) == key;
          assert r in attempts;
        }
      }
    }
  }

  /** The AMD monitor; `warned` holds the basenames already warned about (the source's `_warned_<name>` attributes). */
  class AmdMonitor {
    const cardPath: string
    var warned: set<string>

    constructor (cardIndex: nat)
      ensures cardPath == "/sys/class/drm/card" + NatToString(cardIndex) + "/device"
      ensures warned == {}
    {
      cardPath := "/sys/class/drm/card" + NatToString(cardIndex) + "/device";
      warned := {};
    }

    /** `_read_sysfs`: the stripped contents, or `None` with a warning the first time a file of that basename fails. */
    method ReadSysfs(path: string, contents: Option<string>) returns (text: Option<string>, warning: bool)
      modifies this
      ensures text == SysfsText(contents)
      ensures (warned, warning) == WarnStep(old(warned), path, contents.None?)
    {
      if contents.None? {
        var key := Basename(path);
        warning := key !in warned;
        if warning {
          warned := warned + {key};
        }
        return None, warning;
      }
      return Some(Strip(contents.value)), false;
    }

    /** An `int()` conversion of a present counter; `ok` is false when it raises. */
    static method ConvertCounter(t: Option<string>, unit: real) returns (ok: bool, v: Option<real>)
      requires unit > 0.0
      ensures ok <==> IntCounter(t, unit).Some?
      ensures ok ==> v == IntCounter(t, unit).value
    {
      if !Present(t) {
        return true, None;
      }
      var n := ParseInt(t.value);
      if n.None? {
        return false, None;
      }
      return true, Some(n.value as real / unit);
    }

    /** `get_metrics`: attempts the counters in the source's order; a failed conversion raises and skips the attempts after it. */
    method GetMetrics(f: AmdFiles) returns (r: AmdReading)
      modifies this
      ensures r == AmdMetrics(f)
    {
      var busy, w1 := ReadSysfs(PathJoin(cardPath, "gpu_busy_percent"), f.busy);
      var vram, w2 := ReadSysfs(PathJoin(cardPath, "mem_info_vram_used"), f.vramUsed);
      var okMem, mem := ConvertCounter(vram, BytesPerMiB);
      if !okMem {
        return Raised;
      }
      var power, w3 := ReadSysfs(PathJoin(cardPath, "power1_average"), f.power);
      var okPower, pw := ConvertCounter(power, MicrowattsPerWatt);
      if !okPower {
        return Raised;
      }
      var temp: Option<string> := None;
      if f.temp.Some? {
        var w4;
        temp, w4 := ReadSysfs(f.temp.value.0, f.temp.value.1);
      }
      var okTemp, tc := ConvertCounter(temp, MillidegreesPerDegree);
      if !okTemp {
        return Raised;
      }
      var usage: Option<real> := None;
      if Present(busy) {
        var v := ParseFloat(busy.value);
        if v.None? {
          return Raised;
        }
        usage := Some(v.value);
      }
      return Read(Metrics(usage, mem, pw, tc));
    }
  }

  /** The metrics of the detected monitor; the AMD case is taken from an `AmdMonitor` call. */
  function MetricsOf(v: Vendor, nvidiaOut: Option<string>, intelOut: Option<string>): (m: Metrics)
    requires v != Amd
    ensures v == Unknown ==> m == NoMetrics
    ensures v == Nvidia && nvidiaOut.None? ==> m == NoMetrics
    ensures v == Intel && intelOut.None? ==> m == NoMetrics
  {
    match v
    case Unknown => NoMetrics
    case Nvidia => if nvidiaOut.Some? then NvidiaDecode(nvidiaOut.value) else NoMetrics
    case Intel => if intelOut.Some? then IntelMetrics(intelOut.value) else NoMetrics
  }
}
