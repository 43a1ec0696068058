// src/observability/metrics.cpp: the process-wide metrics registry. Counters are
// 64-bit atomics incremented by 32-bit amounts, gauges are stored doubles, and each
// histogram keeps a sliding window of its last 1000 values. The Prometheus text of the
// counters is modelled; the gauge and histogram sections print floating-point values
// and are not.

module MetricsRegistry {
  import opened Strings
  import opened Decimal

  const Int64Modulus: int := 0x1_0000_0000_0000_0000
  const Int64Half: int := 0x8000_0000_0000_0000

  /** int64_t, the counter type */
  type Int64 = x: int | -0x8000_0000_0000_0000 <= x < 0x8000_0000_0000_0000

  /** int, the increment type of increment_counter */
  type Int32 = x: int | -0x8000_0000 <= x < 0x8000_0000

  /** Two's-complement wrap-around of std::atomic<int64_t>::operator+= */
  function Wrap64(x: int): (r: Int64)
  {
    (x + Int64Half) % Int64Modulus - Int64Half
  }

  /** Values already in range are unchanged by wrapping */
  lemma Wrap64InRange(x: Int64)
    ensures Wrap64(x) == x
  {
    assert 0 <= x + Int64Half < Int64Modulus;
  }

  /** Wrapping an intermediate sum does not change the wrapped total */
  lemma Wrap64Add(a: int, b: int)
    ensures Wrap64(Wrap64(a) + b) == Wrap64(a + b)
  {
    var q := (a + Int64Half) / Int64Modulus;
    var x := a + b + Int64Half;
    assert Wrap64(a) + b + Int64Half == x - q * Int64Modulus;
    assert (x - q * Int64Modulus) % Int64Modulus == x % Int64Modulus;
  }

  /** The stored value of a counter, 0 when it was never incremented */
  function CounterOr(counters: map<string, Int64>, name: string): Int64
  {
    if name in counters then counters[name] else 0
  }

  /** The counters after counters_[name] += value */
  function Incremented(counters: map<string, Int64>, name: string, value: Int32): map<string, Int64>
  {
    counters[name := Wrap64(CounterOr(counters, name) + value)]
  }

  /** increment_counter creates the counter from 0, adds to it, and leaves the others */
  lemma IncrementedSpec(counters: map<string, Int64>, name: string, value: Int32, other: string)
    ensures Incremented(counters, name, value).Keys == counters.Keys + {name}
    ensures name !in counters ==> CounterOr(Incremented(counters, name, value), name) == value
    ensures other != name ==> CounterOr(Incremented(counters, name, value), other) == CounterOr(counters, other)
  {
    if name !in counters {
      Wrap64InRange(value);
    }
  }

  /** The counters after a series of increments of one name */
  function IncrementedBy(counters: map<string, Int64>, name: string, values: seq<Int32>): map<string, Int64>
    decreases |values|
  {
    if |values| == 0 then counters
    else IncrementedBy(Incremented(counters, name, values[0]), name, values[1..])
  }

  function Sum(values: seq<Int32>): int
  {
    if |values| == 0 then 0 else values[0] + Sum(values[1..])
  }

  /** Increments accumulate: the counter holds the wrapped sum of everything added */
  lemma {:induction false} IncrementsAccumulate(counters: map<string, Int64>, name: string, values: seq<Int32>)
    decreases |values|
    ensures CounterOr(IncrementedBy(counters, name, values), name) == Wrap64(CounterOr(counters, name) + Sum(values))
  {
    if |values| == 0 {
      Wrap64InRange(CounterOr(counters, name));
    } else {
      var next := Incremented(counters, name, values[0]);
      IncrementsAccumulate(next, name, values[1..]);
      Wrap64Add(CounterOr(counters, name) + values[0], Sum(values[1..]));
    }
  }

  /** The stored value of a gauge, 0.0 when it was never set */
  function GaugeOr(gauges: map<string, real>, name: string): real
  {
    if name in gauges then gauges[name] else 0.0
  }

  const HistogramCapacity: nat := 1000

  /** The histogram series after record_histogram: the value appended, the oldest value
      erased when that makes more than 1000 */
  function Recorded(series: seq<real>, value: real): seq<real>
  {
    var appended := series + [value];
    if |appended| > HistogramCapacity then appended[1..] else appended
  }

  /** The last 1000 values of everything recorded */
  function LastValues(history: seq<real>): (r: seq<real>)
  {
    if |history| <= HistogramCapacity then history else history[|history| - HistogramCapacity..]
  }

  /** record_histogram makes the value the last one, drops the oldest only from a full
      window, and never lets the window exceed 1000 values */
  lemma RecordedSpec(series: seq<real>, value: real)
    requires |series| <= HistogramCapacity
    ensures |Recorded(series, value)| <= HistogramCapacity
    ensures Recorded(series, value)[|Recorded(series, value)| - 1] == value
    ensures |series| < HistogramCapacity ==> Recorded(series, value) == series + [value]
    ensures |series| == HistogramCapacity ==> Recorded(series, value) == series[1..] + [value]
  {
  }

  /** The window is always the last 1000 values recorded */
  lemma RecordedKeepsLastValues(history: seq<real>, value: real)
    ensures Recorded(LastValues(history), value) == LastValues(history + [value])
  {
    var h := history + [value];
    if |history| > HistogramCapacity {
      assert LastValues(history) + [value] == h[|h| - HistogramCapacity - 1..];
      assert h[|h| - HistogramCapacity - 1..][1..] == h[|h| - HistogramCapacity..];
    } else if |history| == HistogramCapacity {
      assert LastValues(history) + [value] == h;
    }
  }

  function SeriesOr(series: map<string, seq<real>>, name: string): seq<real>
  {
    if name in series then series[name] else []
  }

  /** The two lines to_prometheus writes for one counter */
  function CounterEntry(name: string, value: Int64): string
  {
    "# TYPE " + name + " counter\n" + name + " " + IntToDecimal(value) + "\n"
  }

  /** `order` is an iteration order of the map: every key, each once */
  predicate VisitsEachOnce(counters: map<string, Int64>, order: seq<string>)
  {
    && (forall name :: name in counters ==> name in order)
    && (forall i, j :: 0 <= i < j < |order| ==> order[i] != order[j])
  }

  /** The counter section of to_prometheus, in the map's iteration order */
  function CounterSection(counters: map<string, Int64>, order: seq<string>): string
    requires forall i :: 0 <= i < |order| ==> order[i] in counters
  {
    if |order| == 0 then ""
    else CounterEntry(order[0], counters[order[0]]) + CounterSection(counters, order[1..])
  }

  /** The lines of the counter section, a "# TYPE" line then a sample line per counter */
  function CounterLines(counters: map<string, Int64>, order: seq<string>): seq<string>
    requires forall i :: 0 <= i < |order| ==> order[i] in counters
  {
    if |order| == 0 then []
    else
      ["# TYPE " + order[0] + " counter", order[0] + " " + IntToDecimal(counters[order[0]])]
      + CounterLines(counters, order[1..])
  }

  /** A counter named in `order` has its two lines, one after the other, in the section */
  lemma {:induction false} CounterLinesOfName(counters: map<string, Int64>, order: seq<string>, name: string)
    returns (j: nat)
    decreases |order|
    requires forall i :: 0 <= i < |order| ==> order[i] in counters
    requires name in order
    ensures name in counters && 2 * j + 1 < |CounterLines(counters, order)|
    ensures CounterLines(counters, order)[2 * j] == "# TYPE " + name + " counter"
    ensures CounterLines(counters, order)[2 * j + 1] == name + " " + IntToDecimal(counters[name])
  {
    if order[0] == name {
      j := 0;
    } else {
      assert name in order[1..];
      var j' := CounterLinesOfName(counters, order[1..], name);
      j := j' + 1;
    }
  }

  /** Visiting the counters in an iteration order of the map writes the two lines of every
      counter */
  lemma EveryCounterWritten(counters: map<string, Int64>, order: seq<string>, name: string)
    returns (j: nat)
    requires forall i :: 0 <= i < |order| ==> order[i] in counters
    requires VisitsEachOnce(counters, order) && name in counters
    ensures 2 * j + 1 < |CounterLines(counters, order)|
    ensures CounterLines(counters, order)[2 * j] == "# TYPE " + name + " counter"
    ensures CounterLines(counters, order)[2 * j + 1] == name + " " + IntToDecimal(counters[name])
  {
    j := CounterLinesOfName(counters, order, name);
  }

  /** The two lines of one counter, as to_prometheus writes them, are its entry */
  lemma CounterEntryText(name: string, value: Int64)
    ensures ("# TYPE " + name + " counter\n") + (name + " " + IntToDecimal(value) + "\n") == CounterEntry(name, value)
  {
    var typeLine := "# TYPE " + name + " counter\n";
    AppendAssoc(typeLine, name + " " + IntToDecimal(value), "\n");
    AppendAssoc(typeLine, name + " ", IntToDecimal(value));
    AppendAssoc(typeLine, name, " ");
  }

  /** One step of the to_prometheus loop: writing the two lines of order[i] after the
      text for order[..i] leaves the section for order[i + 1..] to write */
  lemma CounterSectionStep(counters: map<string, Int64>, order: seq<string>, i: nat, text: string, text': string)
    requires i < |order|
    requires forall i :: 0 <= i < |order| ==> order[i] in counters
    requires text + CounterSection(counters, order[i..]) == CounterSection(counters, order)
    requires var name := order[i];
      text' == text + (("# TYPE " + name + " counter\n") + (name + " " + IntToDecimal(counters[name]) + "\n"))
    ensures text' + CounterSection(counters, order[i + 1..]) == CounterSection(counters, order)
  {
    var entry := CounterEntry(order[i], counters[order[i]]);
    CounterEntryText(order[i], counters[order[i]]);
    assert order[i..][1..] == order[i + 1..];
    assert CounterSection(counters, order[i..]) == entry + CounterSection(counters, order[i + 1..]);
    AppendAssoc(text, entry, CounterSection(counters, order[i + 1..]));
  }

  /** The two lines of one counter, read back */
  lemma CounterEntryLines(name: string, value: Int64, rest: string)
    requires '\n' !in name
    ensures Lines(CounterEntry(name, value) + rest)
      == ["# TYPE " + name + " counter", name + " " + IntToDecimal(value)] + Lines(rest)
  {
    var typeLine := "# TYPE " + name + " counter";
    var sampleLine := name + " " + IntToDecimal(value);
    CounterLinesUnbroken(name, value);
    CounterEntrySplit(name, value, rest);
    LinesCons(typeLine, sampleLine + "\n" + rest);
    LinesCons(sampleLine, rest);
    AppendAssoc([typeLine], [sampleLine], Lines(rest));
    assert [typeLine] + [sampleLine] == [typeLine, sampleLine];
  }

  /** Neither line of a counter holds a line break of its own */
  lemma CounterLinesUnbroken(name: string, value: Int64)
    requires '\n' !in name
    ensures '\n' !in "# TYPE " + name + " counter"
    ensures '\n' !in name + " " + IntToDecimal(value)
  {
    assert "# TYPE " + name + " counter" == "# TYPE " + (name + " counter");
    NumeralHasNoNewline(value);
    assert name + " " + IntToDecimal(value) == name + (" " + IntToDecimal(value));
  }

  /** The entry of a counter, followed by more text, is its first line, a break, then
      its second line, a break and the text */
  lemma CounterEntrySplit(name: string, value: Int64, rest: string)
    ensures var typeLine := "# TYPE " + name + " counter";
      var sampleLine := name + " " + IntToDecimal(value);
      CounterEntry(name, value) + rest == typeLine + "\n" + (sampleLine + "\n" + rest)
  {
    var typeLine := "# TYPE " + name + " counter";
    var sampleLine := name + " " + IntToDecimal(value);
    CounterEntryText(name, value);
    assert typeLine + "\n" == "# TYPE " + name + " counter\n" by {
      AppendAssoc("# TYPE " + name, " counter", "\n");
    }
    AppendAssoc(typeLine + "\n", sampleLine + "\n", rest);
    AppendAssoc(typeLine + "\n", sampleLine, "\n");
  }

  /** The counter section reads back as two lines per counter: its TYPE line and its
      name and value */
  lemma {:induction false} CounterSectionLines(counters: map<string, Int64>, order: seq<string>)
    decreases |order|
    requires forall i :: 0 <= i < |order| ==> order[i] in counters
    requires forall i :: 0 <= i < |order| ==> '\n' !in order[i]
    ensures Lines(CounterSection(counters, order)) == CounterLines(counters, order)
  {
    if |order| > 0 {
      var name := order[0];
      var rest := CounterSection(counters, order[1..]);
      CounterEntryLines(name, counters[name], rest);
      assert forall i :: 0 <= i < |order[1..]| ==> order[1..][i] == order[i + 1];
      CounterSectionLines(counters, order[1..]);
    }
  }

  lemma NumeralHasNoNewline(n: int)
    ensures '\n' !in IntToDecimal(n)
  {
    var digits := if n < 0 then ToDecimal(-n) else ToDecimal(n);
    assert forall i :: 0 <= i < |digits| ==> digits[i] != '\n';
    assert '\n' !in digits;
    if n < 0 {
      assert IntToDecimal(n) == "-" + digits;
    }
  }

  /** Metrics: the registry's three maps. `recorded` is every value ever recorded per
      histogram, the history the window is the tail of. */
  class Metrics {
    var counters: map<string, Int64>
    var gauges: map<string, real>
    var histograms: map<string, seq<real>>
    ghost var recorded: map<string, seq<real>>

    ghost predicate Valid()
      reads this
    {
      histograms.Keys == recorded.Keys
      && forall name :: name in histograms ==> histograms[name] == LastValues(recorded[name])
    }

    constructor()
      ensures Valid()
      ensures counters == map[] && gauges == map[] && histograms == map[] && recorded == map[]
    {
      counters := map[];
      gauges := map[];
      histograms := map[];
      recorded := map[];
    }

    /** Metrics::increment_counter; the header's default amount is 1 */
    method IncrementCounter(name: string, value: Int32)
      requires Valid()
      modifies this`counters
      ensures Valid()
      ensures counters == Incremented(old(counters), name, value)
    {
      var current := if name in counters then counters[name] else 0;
      counters := counters[name := Wrap64(current + value)];
    }

    /** Metrics::get_counter */
    function GetCounter(name: string): (v: Int64)
      reads this
      ensures name in counters ==> v == counters[name]
      ensures name !in counters ==> v == 0
    {
      CounterOr(counters, name)
    }

    /** Metrics::set_gauge */
    method SetGauge(name: string, value: real)
      requires Valid()
      modifies this`gauges
      ensures Valid()
      ensures gauges == old(gauges)[name := value]
    {
      gauges := gauges[name := value];
    }

    /** Metrics::get_gauge */
    function GetGauge(name: string): (v: real)
      reads this
      ensures name in gauges ==> v == gauges[name]
      ensures name !in gauges ==> v == 0.0
    {
      GaugeOr(gauges, name)
    }

    /** Metrics::record_histogram */
    method RecordHistogram(name: string, value: real)
      requires Valid()
      modifies this`histograms, this`recorded
      ensures Valid()
      ensures histograms == old(histograms)[name := Recorded(SeriesOr(old(histograms), name), value)]
      ensures recorded == old(recorded)[name := SeriesOr(old(recorded), name) + [value]]
      ensures |histograms[name]| <= HistogramCapacity
    {
      ghost var history := SeriesOr(recorded, name);
      RecordedKeepsLastValues(history, value);
      var series := if name in histograms then histograms[name] else [];
      series := series + [value];
      if |series| > HistogramCapacity {
        series := series[1..];
      }
      histograms := histograms[name := series];
      recorded := recorded[name := history + [value]];
    }

    /** The counter section of Metrics::to_prometheus, the counters visited in `order` */
    method CountersToPrometheus(order: seq<string>) returns (text: string)
      requires forall i :: 0 <= i < |order| ==> order[i] in counters
      ensures text == CounterSection(counters, order)
    {
      text := "";
      for i := 0 to |order|
        invariant text + CounterSection(counters, order[i..]) == CounterSection(counters, order)
      {
        var name := order[i];
        var typeLine := "# TYPE " + name + " counter\n";
        var sampleLine := name + " " + IntToDecimal(counters[name]) + "\n";
        var next := text + (typeLine + sampleLine);
        CounterSectionStep(counters, order, i, text, next);
        text := next;
      }
      assert order[|order|..] == [];
    }
  }
}
