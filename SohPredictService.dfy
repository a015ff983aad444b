/**
 * The SOH prediction front end: reads a stored CSV, keeps the time, voltage, current
 * and temperature readings of one charge cycle, resamples each series to 128 points by
 * linear interpolation and checks the predictor's reply. Doubles are exact reals; the
 * HTTP exchange with the predictor is reduced to the reply it gives.
 */
module SohPredict {
  import opened Wrappers
  import opened JavaText
  import BatteryCsv

  /** The number of points the predictor expects in every series. */
  const TargetLen: nat := 128

  datatype PredictError =
    | BlankFileKey     // fileKey null or blank
    | DownloadFailed   // the object store could not open the file
    | EmptyFile        // no header line
    | BadHeader        // one of the five columns is missing from the header
    | ReadFailed       // an IOException while reading
    | NoRowsForCycle   // no usable row of the requested cycle
    | ServiceFailed    // a non-2xx status or an empty body
    | ServiceError     // the predictor answered with a code other than 200 or no data
    | NoSoh            // the predictor's data carries no soh value

  function Min(a: int, b: int): int { if a <= b then a else b }
  function Max(a: int, b: int): int { if a >= b then a else b }

  // ================================================================ resampling

  /** The point of [0, n-1] sampled for output index i: i / (targetLen - 1) * (n - 1). */
  function Position(n: nat, targetLen: nat, i: nat): real
    requires targetLen >= 2
  {
    (i as real / (targetLen - 1) as real) * (n - 1) as real
  }

  lemma PositionBounds(n: nat, targetLen: nat, i: nat)
    requires n >= 2 && targetLen >= 2 && i < targetLen
    ensures 0.0 <= Position(n, targetLen, i) <= (n - 1) as real
  {
    var q := i as real / (targetLen - 1) as real;
    assert q * (targetLen - 1) as real == i as real;
    assert 0.0 <= q <= 1.0;
    assert q * (n - 1) as real <= (n - 1) as real;
  }

  /** `(int) Math.floor(pos)`: the source index at or below the sampled point. */
  function LowIndex(n: nat, targetLen: nat, i: nat): int
    requires targetLen >= 2
  {
    Position(n, targetLen, i).Floor
  }

  /** `Math.min(i0 + 1, n - 1)`: the source index above the sampled point, clamped to the last. */
  function HighIndex(n: nat, targetLen: nat, i: nat): int
    requires targetLen >= 2
  {
    Min(LowIndex(n, targetLen, i) + 1, n - 1)
  }

  /** `pos - i0`: how far the sampled point lies past the lower index. */
  function Weight(n: nat, targetLen: nat, i: nat): real
    requires targetLen >= 2
  {
    Position(n, targetLen, i) - LowIndex(n, targetLen, i) as real
  }

  /**
   * Every output index of the general case reads the source in range: the two
   * neighbouring indices satisfy 0 <= i0 <= i1 <= n-1 and the weight t lies in [0, 1).
   */
  lemma InterpolationIndices(n: nat, targetLen: nat, i: nat)
    requires n >= 2 && targetLen >= 2 && i < targetLen
    ensures 0 <= LowIndex(n, targetLen, i) <= HighIndex(n, targetLen, i) <= n - 1
    ensures 0.0 <= Weight(n, targetLen, i) < 1.0
  {
    PositionBounds(n, targetLen, i);
  }

  /** The weighted mean `v0 * (1 - t) + v1 * t` of two neighbouring source values. */
  function Mean(v0: real, v1: real, t: real): real
  {
    v0 * (1.0 - t) + v1 * t
  }

  /** The interpolated value at output index i. */
  function Interpolated(source: seq<real>, targetLen: nat, i: nat): real
    requires |source| >= 2 && targetLen >= 2 && i < targetLen
  {
    var n := |source|;
    InterpolationIndices(n, targetLen, i);
    Mean(source[LowIndex(n, targetLen, i)], source[HighIndex(n, targetLen, i)], Weight(n, targetLen, i))
  }

  /**
   * resampleToFixedLength: zeros for an empty source, copies of the only element for a
   * one-element source, the source itself when it already has targetLen elements, and
   * linear interpolation otherwise. A targetLen of 1 with two or more elements divides
   * 0.0 by 0 in Java and yields NaN, which has no counterpart among the reals.
   */
  function Resampled(source: seq<real>, targetLen: nat): (r: seq<real>)
    requires targetLen == 1 ==> |source| <= 1
    ensures |r| == targetLen
  {
    var n := |source|;
    if n == 0 then seq(targetLen, _ => 0.0)
    else if n == 1 then seq(targetLen, _ => source[0])
    else if n == targetLen then source
    else seq(targetLen, i requires 0 <= i < targetLen => Interpolated(source, targetLen, i))
  }

  /** The special cases: an empty source gives zeros, a single element is repeated, a full-length source is copied. */
  lemma ResampleSpecialCases(source: seq<real>, targetLen: nat)
    requires targetLen == 1 ==> |source| <= 1
    ensures |source| == 0 ==> forall k :: 0 <= k < targetLen ==> Resampled(source, targetLen)[k] == 0.0
    ensures |source| == 1 ==> forall k :: 0 <= k < targetLen ==> Resampled(source, targetLen)[k] == source[0]
    ensures |source| == targetLen ==> Resampled(source, targetLen) == source
  {
  }

  /** An output of the general case is the interpolation at its index. */
  lemma ResampledAt(source: seq<real>, targetLen: nat, i: nat)
    requires |source| >= 2 && targetLen >= 2 && |source| != targetLen && i < targetLen
    ensures Resampled(source, targetLen)[i] == Interpolated(source, targetLen, i)
  {
  }

  lemma InterpolatedAtStart(source: seq<real>, targetLen: nat)
    requires |source| >= 2 && targetLen >= 2
    ensures Interpolated(source, targetLen, 0) == source[0]
  {
    var n := |source|;
    assert Position(n, targetLen, 0) == 0.0;
    assert LowIndex(n, targetLen, 0) == 0;
    assert Weight(n, targetLen, 0) == 0.0;
  }

  lemma InterpolatedAtEnd(source: seq<real>, targetLen: nat)
    requires |source| >= 2 && targetLen >= 2
    ensures Interpolated(source, targetLen, targetLen - 1) == source[|source| - 1]
  {
    var n := |source|;
    var d := (targetLen - 1) as real;
    assert d / d == 1.0;
    assert Position(n, targetLen, targetLen - 1) == (n - 1) as real;
    assert LowIndex(n, targetLen, targetLen - 1) == n - 1;
    assert HighIndex(n, targetLen, targetLen - 1) == n - 1;
    assert Weight(n, targetLen, targetLen - 1) == 0.0;
  }

  /** Whatever the case, the first and last outputs are the first and last source values. */
  lemma ResampleKeepsEndpoints(source: seq<real>, targetLen: nat)
    requires |source| >= 1 && targetLen >= 2
    ensures Resampled(source, targetLen)[0] == source[0]
    ensures Resampled(source, targetLen)[targetLen - 1] == source[|source| - 1]
  {
    var n := |source|;
    if n >= 2 && n != targetLen {
      ResampledAt(source, targetLen, 0);
      ResampledAt(source, targetLen, targetLen - 1);
      InterpolatedAtStart(source, targetLen);
      InterpolatedAtEnd(source, targetLen);
    }
  }

  /** A weighted mean with t in [0, 1] lies between v0 and v1. */
  lemma MeanBetween(v0: real, v1: real, t: real)
    requires 0.0 <= t <= 1.0
    ensures var r := Mean(v0, v1, t);
            (v0 <= r <= v1) || (v1 <= r <= v0)
  {
    var d := v1 - v0;
    assert v0 * (1.0 - t) + v1 * t == v0 + t * d;
    assert d - t * d == (1.0 - t) * d;
    if d >= 0.0 {
      assert 0.0 <= t * d;
      assert 0.0 <= (1.0 - t) * d;
    } else {
      assert t * d <= 0.0;
      assert (1.0 - t) * d <= 0.0;
    }
  }

  /** The two source values output index i is drawn from: `source.get(i0)` and `source.get(i1)`. */
  function Neighbours(source: seq<real>, targetLen: nat, i: nat): (real, real)
    requires |source| >= 2 && targetLen >= 2 && i < targetLen
  {
    var n := |source|;
    InterpolationIndices(n, targetLen, i);
    (source[LowIndex(n, targetLen, i)], source[HighIndex(n, targetLen, i)])
  }

  /** The interpolation at index i lies between the two source values it is drawn from. */
  lemma InterpolatedBetweenNeighbours(source: seq<real>, targetLen: nat, i: nat)
    requires |source| >= 2 && targetLen >= 2 && i < targetLen
    ensures var (v0, v1) := Neighbours(source, targetLen, i);
            var r := Interpolated(source, targetLen, i);
            (v0 <= r <= v1) || (v1 <= r <= v0)
  {
    InterpolationIndices(|source|, targetLen, i);
    var (v0, v1) := Neighbours(source, targetLen, i);
    MeanBetween(v0, v1, Weight(|source|, targetLen, i));
  }

  /** An interpolated output lies between the two source values it is drawn from. */
  lemma ResampleBetweenNeighbours(source: seq<real>, targetLen: nat, i: nat)
    requires |source| >= 2 && targetLen >= 2 && |source| != targetLen && i < targetLen
    ensures var (v0, v1) := Neighbours(source, targetLen, i);
            var r := Resampled(source, targetLen)[i];
            (v0 <= r <= v1) || (v1 <= r <= v0)
  {
    ResampledAt(source, targetLen, i);
    InterpolatedBetweenNeighbours(source, targetLen, i);
  }

  /** Arrays.fill: every element of a becomes v. */
  method Fill(a: array<real>, v: real)
    modifies a
    ensures a[..] == seq(a.Length, _ => v)
  {
    for k := 0 to a.Length
      invariant forall j :: 0 <= j < k ==> a[j] == v
    {
      a[k] := v;
    }
  }

  /** One pass of resampleToFixedLength's interpolation loop: the value of output index i. */
  method InterpolateAt(source: seq<real>, targetLen: nat, i: nat) returns (v: real)
    requires |source| >= 2 && targetLen >= 2 && i < targetLen
    ensures v == Interpolated(source, targetLen, i)
  {
    var n := |source|;
    var pos := (i as real / (targetLen - 1) as real) * (n - 1) as real;
    var i0 := pos.Floor;
    var i1 := Min(i0 + 1, n - 1);
    var t := pos - i0 as real;
    assert pos == Position(n, targetLen, i);
    assert i0 == LowIndex(n, targetLen, i) && i1 == HighIndex(n, targetLen, i);
    assert t == Weight(n, targetLen, i);
    InterpolationIndices(n, targetLen, i);
    var v0 := source[i0];
    var v1 := source[i1];
    v := Mean(v0, v1, t);
  }

  /** resampleToFixedLength, filling a fresh array of targetLen elements. */
  method ResampleToFixedLength(source: seq<real>, targetLen: nat) returns (result: array<real>)
    requires targetLen == 1 ==> |source| <= 1
    ensures result[..] == Resampled(source, targetLen)
  {
    result := new real[targetLen](_ => 0.0);
    var n := |source|;
    if n == 0 {
      Fill(result, 0.0);
      return;
    }
    if n == 1 {
      Fill(result, source[0]);
      return;
    }
    if n == targetLen {
      for i := 0 to targetLen
        invariant forall k :: 0 <= k < i ==> result[k] == source[k]
      {
        result[i] := source[i];
      }
      return;
    }
    for i := 0 to targetLen
      invariant forall k :: 0 <= k < i ==> result[k] == Interpolated(source, targetLen, k)
    {
      result[i] := InterpolateAt(source, targetLen, i);
    }
  }

  // ================================================================ header

  /** The positions of the five columns the predictor needs. */
  datatype SohColumns = SohColumns(cycle: nat, time: nat, voltage: nat, current: nat, temp: nat)

  /** How a header cell is compared: trimmed and lower-cased. */
  function ColumnName(cell: string): string { ToLower(Trim(cell)) }

  /**
   * The index the header loop leaves for a column name after looking at the first i
   * cells: the last of them whose name matches, or -1.
   */
  function HeaderIndex(headers: seq<string>, i: nat, name: string): (r: int)
    requires i <= |headers|
    ensures -1 <= r < i
  {
    if i == 0 then -1
    else if ColumnName(headers[i - 1]) == name then i - 1
    else HeaderIndex(headers, i - 1, name)
  }

  /**
   * The header loop finds a column exactly when some cell names it, and then settles on
   * the last such cell.
   */
  lemma {:induction false} HeaderIndexSpec(headers: seq<string>, i: nat, name: string)
    requires i <= |headers|
    ensures var r := HeaderIndex(headers, i, name);
            (r == -1 <==> forall j :: 0 <= j < i ==> ColumnName(headers[j]) != name) &&
            (r >= 0 ==> ColumnName(headers[r]) == name &&
                        forall j :: r < j < i ==> ColumnName(headers[j]) != name)
  {
    if i > 0 && ColumnName(headers[i - 1]) != name {
      HeaderIndexSpec(headers, i - 1, name);
    }
  }

  /** The five column indices the header gives, or BadHeader if any of them is missing. */
  function ResolvedColumns(headers: seq<string>): Result<SohColumns, PredictError>
  {
    var n := |headers|;
    var cycle := HeaderIndex(headers, n, "cycle");
    var time := HeaderIndex(headers, n, "time_min");
    var voltage := HeaderIndex(headers, n, "voltage");
    var current := HeaderIndex(headers, n, "current");
    var temp := HeaderIndex(headers, n, "temp");
    if cycle < 0 || time < 0 || voltage < 0 || current < 0 || temp < 0 then Err(BadHeader)
    else Ok(SohColumns(cycle, time, voltage, current, temp))
  }

  /**
   * A resolved header names every column at its index: the cell at each index reads
   * cycle, time_min, voltage, current or temp after trimming and lower-casing.
   */
  lemma ResolvedColumnsNamed(headers: seq<string>)
    requires ResolvedColumns(headers).Ok?
    ensures var c := ResolvedColumns(headers).value;
            c.cycle < |headers| && ColumnName(headers[c.cycle]) == "cycle" &&
            c.time < |headers| && ColumnName(headers[c.time]) == "time_min" &&
            c.voltage < |headers| && ColumnName(headers[c.voltage]) == "voltage" &&
            c.current < |headers| && ColumnName(headers[c.current]) == "current" &&
            c.temp < |headers| && ColumnName(headers[c.temp]) == "temp"
  {
    var n := |headers|;
    HeaderIndexSpec(headers, n, "cycle");
    HeaderIndexSpec(headers, n, "time_min");
    HeaderIndexSpec(headers, n, "voltage");
    HeaderIndexSpec(headers, n, "current");
    HeaderIndexSpec(headers, n, "temp");
  }

  /** No cell of the header carries this column name. */
  predicate Missing(headers: seq<string>, name: string)
  {
    forall j :: 0 <= j < |headers| ==> ColumnName(headers[j]) != name
  }

  /** A header is refused exactly when one of the five names is on none of its cells. */
  lemma BadHeaderIff(headers: seq<string>)
    ensures ResolvedColumns(headers) == Err(BadHeader) <==>
            Missing(headers, "cycle") || Missing(headers, "time_min") || Missing(headers, "voltage") ||
            Missing(headers, "current") || Missing(headers, "temp")
  {
    var n := |headers|;
    HeaderIndexSpec(headers, n, "cycle");
    HeaderIndexSpec(headers, n, "time_min");
    HeaderIndexSpec(headers, n, "voltage");
    HeaderIndexSpec(headers, n, "current");
    HeaderIndexSpec(headers, n, "temp");
  }

  /** The header loop of predictSohFromCsvFileKey and the check after it. */
  method ResolveHeader(headers: seq<string>) returns (r: Result<SohColumns, PredictError>)
    ensures r == ResolvedColumns(headers)
  {
    var cycle, time, voltage, current, temp := -1, -1, -1, -1, -1;
    for i := 0 to |headers|
      invariant cycle == HeaderIndex(headers, i, "cycle")
      invariant time == HeaderIndex(headers, i, "time_min")
      invariant voltage == HeaderIndex(headers, i, "voltage")
      invariant current == HeaderIndex(headers, i, "current")
      invariant temp == HeaderIndex(headers, i, "temp")
    {
      var col := ColumnName(headers[i]);
      if col == "cycle" {
        cycle := i;
      } else if col == "time_min" {
        time := i;
      } else if col == "voltage" {
        voltage := i;
      } else if col == "current" {
        current := i;
      } else if col == "temp" {
        temp := i;
      }
    }
    if cycle < 0 || time < 0 || voltage < 0 || current < 0 || temp < 0 {
      return Err(BadHeader);
    }
    r := Ok(SohColumns(cycle, time, voltage, current, temp));
  }

  // ================================================================ row selection

  /** The four readings one data row contributes. */
  datatype Sample = Sample(time: real, voltage: real, current: real, temp: real)

  /** The four series the row loop builds. */
  datatype Channel = TimeChannel | VoltageChannel | CurrentChannel | TempChannel

  function Reading(x: Sample, ch: Channel): real
  {
    match ch
    case TimeChannel => x.time
    case VoltageChannel => x.voltage
    case CurrentChannel => x.current
    case TempChannel => x.temp
  }

  /** One series of the selected samples, in row order. */
  function Readings(samples: seq<Sample>, ch: Channel): (r: seq<real>)
  {
    seq(|samples|, k requires 0 <= k < |samples| => Reading(samples[k], ch))
  }

  lemma ReadingsAppend(samples: seq<Sample>, x: Sample, ch: Channel)
    ensures Readings(samples + [x], ch) == Readings(samples, ch) + [Reading(x, ch)]
  {
  }

  /** `maxIdx`: the largest of the five column indices. */
  function MaxIndex(c: SohColumns): nat
  {
    Max(c.cycle, Max(Max(c.time, c.voltage), Max(c.current, c.temp)))
  }

  /** The header index a series is read from; no index exceeds maxIdx. */
  function Column(c: SohColumns, ch: Channel): (r: nat)
    ensures r <= MaxIndex(c)
  {
    match ch
    case TimeChannel => c.time
    case VoltageChannel => c.voltage
    case CurrentChannel => c.current
    case TempChannel => c.temp
  }

  /**
   * What one line after the header yields: nothing when it is blank, when its comma
   * split has at most maxIdx fields, when the cycle field does not parse or names another
   * cycle, or when one of the four readings does not parse; otherwise its readings.
   */
  function SampleOf(line: string, c: SohColumns, cycle: int): Option<Sample>
  {
    if IsBlank(line) then None
    else
      var parts := JavaSplit(line, ',');
      if |parts| <= MaxIndex(c) then None
      else if ParseInt32(Trim(parts[c.cycle])) != Some(cycle) then None
      else
        var t := ParseDouble(Trim(parts[c.time]));
        var v := ParseDouble(Trim(parts[c.voltage]));
        var cu := ParseDouble(Trim(parts[c.current]));
        var tp := ParseDouble(Trim(parts[c.temp]));
        if t.None? || v.None? || cu.None? || tp.None? then None
        else Some(Sample(t.value, v.value, cu.value, tp.value))
  }

  /**
   * A line yields a sample exactly when it is not blank, its comma split reaches past
   * maxIdx, its cycle field parses to the requested cycle and each of the four readings
   * parses at its column.
   */
  lemma SampleOfIff(line: string, c: SohColumns, cycle: int)
    ensures var parts := JavaSplit(line, ',');
            SampleOf(line, c, cycle).Some? <==>
              !IsBlank(line) && MaxIndex(c) < |parts| && ParseInt32(Trim(parts[c.cycle])) == Some(cycle) &&
              forall ch :: ParseDouble(Trim(parts[Column(c, ch)])).Some?
  {
    var parts := JavaSplit(line, ',');
    if !IsBlank(line) && MaxIndex(c) < |parts| {
      assert Column(c, TimeChannel) == c.time && Column(c, VoltageChannel) == c.voltage;
      assert Column(c, CurrentChannel) == c.current && Column(c, TempChannel) == c.temp;
    }
  }

  /** Each reading of a yielded sample is the parsed field at that series' column. */
  lemma SampleOfReadings(line: string, c: SohColumns, cycle: int, ch: Channel)
    requires SampleOf(line, c, cycle).Some?
    ensures var parts := JavaSplit(line, ',');
            MaxIndex(c) < |parts| &&
            ParseDouble(Trim(parts[Column(c, ch)])) == Some(Reading(SampleOf(line, c, cycle).value, ch))
  {
  }

  /** What each line yields, line by line. */
  function Yields(lines: seq<string>, c: SohColumns, cycle: int): (r: seq<Option<Sample>>)
  {
    seq(|lines|, j requires 0 <= j < |lines| => SampleOf(lines[j], c, cycle))
  }

  /** The samples of the yields 1 .. i-1 (yield 0 is the header's), in order. */
  function Kept(ys: seq<Option<Sample>>, i: nat): seq<Sample>
    requires 1 <= i <= |ys|
  {
    if i == 1 then []
    else Kept(ys, i - 1) + match ys[i - 1] case Some(x) => [x] case None => []
  }

  /** Every kept sample is the yield of some position after the first. */
  lemma {:induction false} KeptComeFrom(ys: seq<Option<Sample>>, i: nat, k: nat)
    requires 1 <= i <= |ys| && k < |Kept(ys, i)|
    ensures exists j :: 1 <= j < i && ys[j] == Some(Kept(ys, i)[k])
  {
    assert i >= 2;
    var pre := Kept(ys, i - 1);
    var all := Kept(ys, i);
    assert all == pre + (match ys[i - 1] case Some(x) => [x] case None => []);
    if k < |pre| {
      KeptComeFrom(ys, i - 1, k);
      var j :| 1 <= j < i - 1 && ys[j] == Some(pre[k]);
      assert all[k] == pre[k];
      assert 1 <= j < i && ys[j] == Some(all[k]);
    } else {
      assert ys[i - 1] == Some(all[k]);
    }
  }

  /** The samples of lines 1 .. i-1 (line 0 is the header), in line order. */
  function SamplesAt(lines: seq<string>, i: nat, c: SohColumns, cycle: int): seq<Sample>
    requires 1 <= i <= |lines|
  {
    Kept(Yields(lines, c, cycle), i)
  }

  /** Every selected sample is what some data line of the requested cycle yields. */
  lemma SamplesComeFromLines(lines: seq<string>, i: nat, c: SohColumns, cycle: int, k: nat)
    requires 1 <= i <= |lines| && k < |SamplesAt(lines, i, c, cycle)|
    ensures exists j :: 1 <= j < i && SampleOf(lines[j], c, cycle) == Some(SamplesAt(lines, i, c, cycle)[k])
  {
    var ys := Yields(lines, c, cycle);
    KeptComeFrom(ys, i, k);
    var j :| 1 <= j < i && ys[j] == Some(Kept(ys, i)[k]);
    assert ys[j] == SampleOf(lines[j], c, cycle);
  }

  /** A line yields a sample only if its cycle field parses to the requested cycle. */
  lemma SampleOfCycle(line: string, c: SohColumns, cycle: int)
    requires SampleOf(line, c, cycle).Some?
    ensures var parts := JavaSplit(line, ',');
            c.cycle < |parts| && ParseInt32(Trim(parts[c.cycle])) == Some(cycle)
  {
  }

  /** The four lists of the row loop, each one series of the samples selected so far. */
  predicate Collected(times: seq<real>, voltages: seq<real>, currents: seq<real>, temps: seq<real>,
                      samples: seq<Sample>)
  {
    times == Readings(samples, TimeChannel) && voltages == Readings(samples, VoltageChannel) &&
    currents == Readings(samples, CurrentChannel) && temps == Readings(samples, TempChannel)
  }

  /** The body of the row loop up to the appends: the readings line yields, if any. */
  method ParseSampleLine(line: string, c: SohColumns, cycle: int) returns (x: Option<Sample>)
    ensures x == SampleOf(line, c, cycle)
  {
    if IsBlank(line) {
      return None;
    }
    var parts := JavaSplit(line, ',');
    var maxIdx := Max(c.cycle, Max(Max(c.time, c.voltage), Max(c.current, c.temp)));
    if |parts| <= maxIdx {
      return None;
    }
    var rowCycle := ParseInt32(Trim(parts[c.cycle]));
    if rowCycle.None? || rowCycle.value != cycle {
      return None;
    }
    var t := ParseDouble(Trim(parts[c.time]));
    var v := ParseDouble(Trim(parts[c.voltage]));
    var cu := ParseDouble(Trim(parts[c.current]));
    var tp := ParseDouble(Trim(parts[c.temp]));
    if t.None? || v.None? || cu.None? || tp.None? {
      return None;
    }
    x := Some(Sample(t.value, v.value, cu.value, tp.value));
  }

  /** The appends of the row loop: the readings of the yielded sample, if any, go last. */
  method AppendSample(times: seq<real>, voltages: seq<real>, currents: seq<real>, temps: seq<real>,
                      pre: seq<Sample>, sample: Option<Sample>)
    returns (times': seq<real>, voltages': seq<real>, currents': seq<real>, temps': seq<real>)
    requires Collected(times, voltages, currents, temps, pre)
    ensures Collected(times', voltages', currents', temps',
                      pre + match sample case Some(x) => [x] case None => [])
  {
    times', voltages', currents', temps' := times, voltages, currents, temps;
    if sample.Some? {
      var x := sample.value;
      ReadingsAppend(pre, x, TimeChannel);
      ReadingsAppend(pre, x, VoltageChannel);
      ReadingsAppend(pre, x, CurrentChannel);
      ReadingsAppend(pre, x, TempChannel);
      times', voltages', currents', temps' := times + [x.time], voltages + [x.voltage], currents + [x.current], temps + [x.temp];
    } else {
      assert pre + [] == pre;
    }
  }

  /** One pass of the row loop: reads line i and appends its readings, if it yields any. */
  method SelectLine(lines: seq<string>, i: nat, c: SohColumns, cycle: int,
                    times: seq<real>, voltages: seq<real>, currents: seq<real>, temps: seq<real>)
    returns (times': seq<real>, voltages': seq<real>, currents': seq<real>, temps': seq<real>)
    requires 1 <= i < |lines|
    requires Collected(times, voltages, currents, temps, SamplesAt(lines, i, c, cycle))
    ensures Collected(times', voltages', currents', temps', SamplesAt(lines, i + 1, c, cycle))
  {
    var sample := ParseSampleLine(lines[i], c, cycle);
    var ys := Yields(lines, c, cycle);
    assert ys[i] == sample;
    assert Kept(ys, i + 1) == Kept(ys, i) + match sample case Some(x) => [x] case None => [];
    times', voltages', currents', temps' := AppendSample(times, voltages, currents, temps, Kept(ys, i), sample);
  }

  /**
   * The row loop of predictSohFromCsvFileKey: the four series of the data lines of the
   * requested cycle. The series always have equal length, one entry per selected row.
   */
  method SelectSamples(lines: seq<string>, c: SohColumns, cycle: int)
    returns (times: seq<real>, voltages: seq<real>, currents: seq<real>, temps: seq<real>)
    requires |lines| >= 1
    ensures Collected(times, voltages, currents, temps, SamplesAt(lines, |lines|, c, cycle))
    ensures |times| == |voltages| == |currents| == |temps| == |SamplesAt(lines, |lines|, c, cycle)|
  {
    times, voltages, currents, temps := [], [], [], [];
    var i := 1;
    while i < |lines|
      invariant 1 <= i <= |lines|
      invariant Collected(times, voltages, currents, temps, SamplesAt(lines, i, c, cycle))
    {
      times, voltages, currents, temps := SelectLine(lines, i, c, cycle, times, voltages, currents, temps);
      i := i + 1;
    }
  }

  // ================================================================ reply

  /** The predictor's JSON body: code, message and data. */
  datatype PythonData = PythonData(soh: Option<real>, healthStatus: Option<string>)
  datatype PythonResp = PythonResp(code: int, msg: Option<string>, data: Option<PythonData>)

  /** What the POST to /predict gives back: the HTTP status and the decoded body, if any. */
  datatype HttpReply = HttpReply(status: int, body: Option<PythonResp>)

  /** The checks on the predictor's reply, in order; the soh value when they all pass. */
  function CheckReply(reply: HttpReply): Result<real, PredictError>
  {
    if !(200 <= reply.status <= 299) || reply.body.None? then Err(ServiceFailed)
    else if reply.body.value.code != 200 || reply.body.value.data.None? then Err(ServiceError)
    else if reply.body.value.data.value.soh.None? then Err(NoSoh)
    else Ok(reply.body.value.data.value.soh.value)
  }

  /**
   * A reply is accepted exactly when its status is 2xx, it has a body whose code is 200
   * with data that carries a soh value, and then that value is the prediction.
   */
  lemma ReplyAcceptedIff(reply: HttpReply)
    ensures CheckReply(reply).Ok? <==>
            200 <= reply.status <= 299 && reply.body.Some? && reply.body.value.code == 200 &&
            reply.body.value.data.Some? && reply.body.value.data.value.soh.Some?
    ensures CheckReply(reply).Ok? ==> CheckReply(reply).value == reply.body.value.data.value.soh.value
  {
  }

  // ================================================================ predict

  /** The four resampled series posted to the predictor. */
  datatype Payload = Payload(time: seq<real>, current: seq<real>, voltage: seq<real>, temp: seq<real>)

  /**
   * What predictSohFromCsvFileKey posts to the predictor, or the error raised before it
   * gets that far.
   */
  function PayloadFor(fileKey: Option<string>, cycle: int, storage: map<string, BatteryCsv.CsvSource>): Result<Payload, PredictError>
  {
    if fileKey.None? || IsBlank(fileKey.value) then Err(BlankFileKey)
    else
      var source := BatteryCsv.Open(storage, fileKey.value);
      if source.Unavailable? then Err(DownloadFailed)
      else
        var lines := source.lines;
        var readFails := source.readFails;
        if lines == [] then (if readFails then Err(ReadFailed) else Err(EmptyFile))
        else match ResolvedColumns(JavaSplit(lines[0], ','))
          case Err(e) => Err(e)
          case Ok(c) =>
            if readFails then Err(ReadFailed)
            else
              var samples := SamplesAt(lines, |lines|, c, cycle);
              if samples == [] then Err(NoRowsForCycle)
              else Ok(Payload(Resampled(Readings(samples, TimeChannel), TargetLen),
                              Resampled(Readings(samples, CurrentChannel), TargetLen),
                              Resampled(Readings(samples, VoltageChannel), TargetLen),
                              Resampled(Readings(samples, TempChannel), TargetLen)))
  }

  /**
   * Every series posted has exactly 128 points, and each starts and ends with the first
   * and last reading of the selected rows.
   */
  lemma PayloadShape(fileKey: Option<string>, cycle: int, storage: map<string, BatteryCsv.CsvSource>)
    requires PayloadFor(fileKey, cycle, storage).Ok?
    ensures var p := PayloadFor(fileKey, cycle, storage).value;
            var lines := storage[fileKey.value].lines;
            |lines| >= 1 && ResolvedColumns(JavaSplit(lines[0], ',')).Ok? &&
            var samples := SamplesAt(lines, |lines|, ResolvedColumns(JavaSplit(lines[0], ',')).value, cycle);
            |samples| >= 1 &&
            |p.time| == |p.current| == |p.voltage| == |p.temp| == TargetLen &&
            p.time[0] == samples[0].time && p.time[TargetLen - 1] == samples[|samples| - 1].time &&
            p.voltage[0] == samples[0].voltage && p.voltage[TargetLen - 1] == samples[|samples| - 1].voltage &&
            p.current[0] == samples[0].current && p.current[TargetLen - 1] == samples[|samples| - 1].current &&
            p.temp[0] == samples[0].temp && p.temp[TargetLen - 1] == samples[|samples| - 1].temp
  {
    var lines := storage[fileKey.value].lines;
    var samples := SamplesAt(lines, |lines|, ResolvedColumns(JavaSplit(lines[0], ',')).value, cycle);
    ResampleKeepsEndpoints(Readings(samples, TimeChannel), TargetLen);
    ResampleKeepsEndpoints(Readings(samples, VoltageChannel), TargetLen);
    ResampleKeepsEndpoints(Readings(samples, CurrentChannel), TargetLen);
    ResampleKeepsEndpoints(Readings(samples, TempChannel), TargetLen);
  }

  /**
   * predictSohFromCsvFileKey: the blank-key check, the download, the header, the row
   * loop, the resampling and the reply checks. `reply` is what the predictor answers to
   * the payload posted; `sent` is that payload, or None when an earlier step failed.
   */
  method PredictSohFromCsvFileKey(fileKey: Option<string>, cycleForPredict: int,
                                  storage: map<string, BatteryCsv.CsvSource>, reply: HttpReply)
    returns (r: Result<real, PredictError>, sent: Option<Payload>)
    ensures match PayloadFor(fileKey, cycleForPredict, storage)
            case Err(e) => r == Err(e) && sent == None
            case Ok(p) => sent == Some(p) && r == CheckReply(reply)
  {
    sent := None;
    if fileKey.None? || IsBlank(fileKey.value) {
      return Err(BlankFileKey), None;
    }
    var source := BatteryCsv.Open(storage, fileKey.value);
    if source.Unavailable? {
      return Err(DownloadFailed), None;
    }
    var lines := source.lines;
    if lines == [] {
      r := if source.readFails then Err(ReadFailed) else Err(EmptyFile);
      return;
    }
    var columns := ResolveHeader(JavaSplit(lines[0], ','));
    if columns.Err? {
      return Err(columns.error), None;
    }
    var c := columns.value;
    var times, voltages, currents, temps := SelectSamples(lines, c, cycleForPredict);
    if source.readFails {
      return Err(ReadFailed), None;
    }
    if times == [] {
      return Err(NoRowsForCycle), None;
    }
    var timeArr := ResampleToFixedLength(times, TargetLen);
    var currentArr := ResampleToFixedLength(currents, TargetLen);
    var voltageArr := ResampleToFixedLength(voltages, TargetLen);
    var tempArr := ResampleToFixedLength(temps, TargetLen);
    sent := Some(Payload(timeArr[..], currentArr[..], voltageArr[..], tempArr[..]));
    r := CheckReply(reply);
  }
}
