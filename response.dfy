/** The reshaping of query results in lib/wavefront/response.rb: the Graphite
    and Highcharts renderings of a list of timeseries, and the human-readable
    duration of an event. A timeseries is the record the JSON parser yields:
    a label, a host and `[time, value]` datapoints. */
module Response {
  import opened Text
  import opened Ruby
  import opened Mixins

  /** `Wavefront::Client::DEFAULT_PREFIX_LENGTH`. */
  const DefaultPrefixLength := 1

  /** One `[time, value]` array of a series' `data`. */
  type Datapoint = (Dyn, Dyn)

  /** A series: its `label` (a keyword here, so `name`), host and datapoints. */
  datatype Series = Series(name: string, host: string, data: seq<Datapoint>)

  /** `{'target' => ..., 'datapoints' => ...}`. */
  datatype Target = Target(target: string, datapoints: seq<Datapoint>)

  /** `{'name' => ..., 'data' => ...}`. */
  datatype Chart = Chart(name: string, data: seq<Datapoint>)

  // ---------------------------------------------------------------------------
  // Graphite

  /** Every datapoint turned round, `[v, t]` for `[t, v]`. */
  function Swapped(data: seq<Datapoint>): (r: seq<Datapoint>)
    ensures |r| == |data|
  {
    if data == [] then [] else [(data[0].1, data[0].0)] + Swapped(data[1..])
  }

  /** Turning the datapoints round twice gives them back. */
  lemma {:induction false} SwappedTwice(data: seq<Datapoint>)
    ensures Swapped(Swapped(data)) == data
  {
    if data != [] {
      SwappedTwice(data[1..]);
      assert Swapped(data)[1..] == Swapped(data[1..]);
    }
  }

  /** The k-th swapped datapoint is the k-th one turned round. */
  lemma {:induction false} SwappedAt(data: seq<Datapoint>, k: nat)
    requires k < |data|
    ensures Swapped(data)[k] == (data[k].1, data[k].0)
  {
    if k > 0 {
      SwappedAt(data[1..], k - 1);
    }
  }

  /** The inner loop of the Graphite constructor: `datapoints << [d[1], d[0]]`
      for each datapoint in turn. */
  method Datapoints(data: seq<Datapoint>) returns (datapoints: seq<Datapoint>)
    ensures datapoints == Swapped(data)
  {
    datapoints := [];
    for k := 0 to |data|
      invariant datapoints + Swapped(data[k..]) == Swapped(data)
    {
      assert data[k..][1..] == data[k + 1..];
      datapoints := datapoints + [(data[k].1, data[k].0)];
    }
    assert data[|data|..] == [];
  }

  /** The Graphite constructor, on the parsed timeseries: one target per
      series, named by inserting the host into its label after
      `prefix_length` parts (1 when not given), with its datapoints turned
      round. A negative prefix length raises ArgumentError at the first
      series. */
  method Graphite(timeseries: seq<Series>, prefixLength: Option<int>) returns (r: Result<seq<Target>>)
    ensures var n := OrDefault(prefixLength, DefaultPrefixLength);
            r.Err? <==> timeseries != [] && n < 0
    ensures r.Err? ==> r.error == ArgumentError
    ensures r.Ok? ==> |r.value| == |timeseries|
    ensures r.Ok? ==> forall i :: 0 <= i < |timeseries| ==>
              r.value[i] == Target(InterpolateSchema(timeseries[i].name, timeseries[i].host,
                                                      OrDefault(prefixLength, DefaultPrefixLength)).value,
                                   Swapped(timeseries[i].data))
  {
    var n := OrDefault(prefixLength, DefaultPrefixLength);
    var graphite: seq<Target> := [];
    for i := 0 to |timeseries|
      invariant |graphite| == i
      invariant i > 0 ==> n >= 0
      invariant forall k :: 0 <= k < i ==>
                  graphite[k] == Target(InterpolateSchema(timeseries[k].name, timeseries[k].host, n).value,
                                        Swapped(timeseries[k].data))
    {
      var target := InterpolateSchema(timeseries[i].name, timeseries[i].host, n);
      if target.Err? {
        return Err(target.error);
      }
      var datapoints := Datapoints(timeseries[i].data);
      graphite := graphite + [Target(target.value, datapoints)];
    }
    return Ok(graphite);
  }

  // ---------------------------------------------------------------------------
  // Highcharts

  /** The times a query returns: whole seconds, or null for a gap. */
  predicate IntOrNull(s: Series)
  {
    forall k :: 0 <= k < |s.data| ==> s.data[k].0.Int? || s.data[k].0.Nil?
  }

  predicate IntOrNullTimes(timeseries: seq<Series>)
  {
    forall i :: 0 <= i < |timeseries| ==> IntOrNull(timeseries[i])
  }

  /** A datapoint's time as Highcharts wants it: milliseconds, or the string
      "null" for a missing time. */
  function Amend(p: Datapoint): (q: Datapoint)
    requires p.0.Int? || p.0.Nil?
    ensures q.1 == p.1
  {
    if Truthy(p.0) then (Int(p.0.i * 1000), p.1) else (Str("null"), p.1)
  }

  /** A time amended is the milliseconds `time_to_ms` gives for it, and the
      seconds come back by dividing by 1000. */
  lemma AmendAgreesWithTimeToMs(t: int, v: Dyn)
    ensures Amend((Int(t), v)).0 == Int(TimeToMs(Int(t)).value)
    ensures Amend((Int(t), v)).0.i / 1000 == t && Amend((Int(t), v)).0.i % 1000 == 0
  {
    assert TimeToMs(Int(t)).value == t * 1000;
  }

  function Amended(data: seq<Datapoint>): (r: seq<Datapoint>)
    requires forall k :: 0 <= k < |data| ==> data[k].0.Int? || data[k].0.Nil?
    ensures |r| == |data|
  {
    if data == [] then [] else [Amend(data[0])] + Amended(data[1..])
  }

  /** Amending keeps every value and changes only the times. */
  lemma {:induction false} AmendedKeepsValues(data: seq<Datapoint>, k: nat)
    requires forall j :: 0 <= j < |data| ==> data[j].0.Int? || data[j].0.Nil?
    requires k < |data|
    ensures Amended(data)[k] == Amend(data[k])
    ensures Amended(data)[k].1 == data[k].1
  {
    if k > 0 {
      AmendedKeepsValues(data[1..], k - 1);
    }
  }

  /** The charts of the series that have data, each named by its label, with
      every datapoint after the first amended. */
  function Charts(timeseries: seq<Series>): seq<Chart>
    requires IntOrNullTimes(timeseries)
  {
    if timeseries == [] then []
    else
      var n := |timeseries| - 1;
      assert forall i :: 0 <= i < n ==> timeseries[..n][i] == timeseries[i];
      Charts(timeseries[..n]) + ChartOf(timeseries[n])
  }

  function ChartOf(s: Series): seq<Chart>
    requires IntOrNull(s)
  {
    if |s.data| > 0 then [Chart(s.name, Amended(s.data[1..]))] else []
  }

  /** How many series have data. */
  function WithData(timeseries: seq<Series>): nat
  {
    if timeseries == [] then 0
    else WithData(timeseries[..|timeseries| - 1]) + (if |timeseries[|timeseries| - 1].data| > 0 then 1 else 0)
  }

  /** One chart per series with data, one datapoint fewer than its series; so
      when every series has data there are as many charts as series, named
      in order by their labels. */
  lemma {:induction false} ChartsCount(timeseries: seq<Series>)
    requires IntOrNullTimes(timeseries)
    ensures |Charts(timeseries)| == WithData(timeseries) <= |timeseries|
    ensures (forall i :: 0 <= i < |timeseries| ==> timeseries[i].data != []) ==>
              |Charts(timeseries)| == |timeseries|
              && forall i :: 0 <= i < |timeseries| ==>
                   Charts(timeseries)[i].name == timeseries[i].name
                   && |Charts(timeseries)[i].data| == |timeseries[i].data| - 1
  {
    if timeseries != [] {
      var n := |timeseries| - 1;
      ChartsCount(timeseries[..n]);
      if forall i :: 0 <= i < |timeseries| ==> timeseries[i].data != [] {
        assert forall i :: 0 <= i < n ==> timeseries[..n][i].data != [] by {
          forall i | 0 <= i < n ensures timeseries[..n][i].data != [] {
            assert timeseries[..n][i] == timeseries[i];
          }
        }
      }
    }
  }

  /** The inner loop of the Highcharts constructor on one series with data:
      every datapoint after the first has its time amended in place, and the
      amended ones are collected. */
  method AmendSeries(data: seq<Datapoint>) returns (updated: seq<Datapoint>, amended: seq<Datapoint>)
    requires |data| > 0 && forall k :: 0 <= k < |data| ==> data[k].0.Int? || data[k].0.Nil?
    ensures amended == Amended(data[1..])
    ensures updated == [data[0]] + amended
  {
    updated := data;
    amended := [];
    for j := 1 to |data|
      invariant |updated| == |data| && updated[0] == data[0]
      invariant updated[j..] == data[j..]
      invariant amended + Amended(data[j..]) == Amended(data[1..])
      invariant updated[1..j] == amended
    {
      assert data[j..][1..] == data[j + 1..];
      var p := Amend(updated[j]);
      updated := updated[j := p];
      amended := amended + [p];
      assert updated[j + 1..] == data[j + 1..];
    }
    assert data[|data|..] == [];
    assert updated == [data[0]] + updated[1..];
  }

  /** A series as the constructor leaves it: the datapoints after the first
      carry their amended times. */
  function AmendedOne(s: Series): (r: Series)
    requires IntOrNull(s)
    ensures r.name == s.name && r.host == s.host && |r.data| == |s.data|
  {
    if s.data == [] then s else s.(data := [s.data[0]] + Amended(s.data[1..]))
  }

  function AmendedSeries(timeseries: seq<Series>): (r: seq<Series>)
    requires IntOrNullTimes(timeseries)
    ensures |r| == |timeseries|
  {
    if timeseries == [] then []
    else
      var n := |timeseries| - 1;
      assert forall i :: 0 <= i < n ==> timeseries[..n][i] == timeseries[i];
      AmendedSeries(timeseries[..n]) + [AmendedOne(timeseries[n])]
  }

  /** `Response::Highcharts`: it keeps the parsed series, whose datapoints it
      amends in place, and the charts it builds from them. */
  class Highcharts {
    var timeseries: seq<Series>
    var highcharts: seq<Chart>

    constructor(timeseries: seq<Series>)
      requires IntOrNullTimes(timeseries)
      ensures highcharts == Charts(timeseries)
      ensures this.timeseries == AmendedSeries(timeseries)
    {
      this.timeseries := timeseries;
      highcharts := [];
      new;
      for i := 0 to |timeseries|
        invariant IntOrNullTimes(timeseries[..i])
        invariant this.timeseries == AmendedSeries(timeseries[..i]) + timeseries[i..]
        invariant highcharts == Charts(timeseries[..i])
      {
        var s := timeseries[i];
        HighchartsStep(timeseries, i, this.timeseries, highcharts);
        if |s.data| > 0 {
          var updated, amended := AmendSeries(s.data);
          this.timeseries := this.timeseries[i := s.(data := updated)];
          highcharts := highcharts + [Chart(s.name, amended)];
        }
      }
      assert timeseries[..|timeseries|] == timeseries;
    }
  }

  /** One series handled: the state before it, with this series amended and
      its chart added, is the state after it. */
  lemma HighchartsStep(timeseries: seq<Series>, i: nat, cur: seq<Series>, charts: seq<Chart>)
    requires IntOrNullTimes(timeseries) && i < |timeseries|
    requires IntOrNullTimes(timeseries[..i])
    requires cur == AmendedSeries(timeseries[..i]) + timeseries[i..]
    requires charts == Charts(timeseries[..i])
    ensures IntOrNullTimes(timeseries[..i + 1])
    ensures cur[i] == timeseries[i]
    ensures cur[i := AmendedOne(timeseries[i])] == AmendedSeries(timeseries[..i + 1]) + timeseries[i + 1..]
    ensures charts + ChartOf(timeseries[i]) == Charts(timeseries[..i + 1])
  {
    assert timeseries[..i + 1][..i] == timeseries[..i];
    assert forall j :: 0 <= j < i + 1 ==> timeseries[..i + 1][j] == timeseries[j];
    assert timeseries[..i + 1][i] == timeseries[i];
    var after := AmendedSeries(timeseries[..i + 1]) + timeseries[i + 1..];
    assert after == AmendedSeries(timeseries[..i]) + [AmendedOne(timeseries[i])] + timeseries[i + 1..];
    assert timeseries[i..] == [timeseries[i]] + timeseries[i + 1..];
  }

  // ---------------------------------------------------------------------------
  // Event durations

  /** A unit's base: positive, so that `divmod` is defined. */
  type Radix = n: nat | n > 0 witness 1

  /** The units of `format_event_duration` in the order it tries them, each
      with the number of it that makes one of the next. */
  const Units: seq<(string, Radix)> := [("s", 60), ("m", 60), ("h", 24), ("d", 1000)]

  /** The (remainder, unit) parts recorded for a duration while it stays
      positive: its digits in the mixed radix of the units, lowest first. */
  function Digits(d: int, units: seq<(string, Radix)>): (r: seq<(nat, string)>)
    decreases |units|
    ensures |r| <= |units|
    ensures forall k :: 0 <= k < |r| ==> r[k].0 < units[k].1 && r[k].1 == units[k].0
  {
    if units == [] || d <= 0 then []
    else [(d % units[0].1, units[0].0)] + Digits(d / units[0].1, units[1..])
  }

  /** `n.to_s + sfx.to_s`. */
  function PartText(p: (nat, string)): string
  {
    IntToString(p.0) + p.1
  }

  function PartTexts(ps: seq<(nat, string)>): (r: seq<string>)
    ensures |r| == |ps| && forall k :: 0 <= k < |ps| ==> r[k] == PartText(ps[k])
  {
    if ps == [] then [] else [PartText(ps[0])] + PartTexts(ps[1..])
  }

  function Reverse<T>(xs: seq<T>): (r: seq<T>)
    ensures |r| == |xs| && forall k :: 0 <= k < |xs| ==> r[k] == xs[|xs| - 1 - k]
  {
    if xs == [] then [] else Reverse(xs[1..]) + [xs[0]]
  }

  /** `[0..1]`: the first two elements, or fewer. */
  function FirstTwo<T>(xs: seq<T>): seq<T>
  {
    if |xs| <= 2 then xs else xs[..2]
  }

  /** The text `format_event_duration` gives for the whole seconds `dur`. */
  function DurationText(dur: int): (r: string)
    ensures dur == 0 ==> r == "inst"
    ensures dur < 0 ==> r == ""
  {
    if dur == 0 then "inst" else Join(FirstTwo(Reverse(PartTexts(Digits(dur, Units)))), " ")
  }

  /** `format_event_duration(ts, te)` on millisecond times. */
  method FormatEventDuration(ts: int, te: int) returns (r: string)
    ensures r == DurationText((te - ts) / 1000)
  {
    var dur := (te - ts) / 1000;
    if dur == 0 {
      return "inst";
    }
    var parts := DurationParts(dur);
    r := Join(FirstTwo(Reverse(parts)), " ");
  }

  /** The `map` over the units: each one taken while the duration is
      positive records its remainder and leaves the quotient for the next;
      the others give `nil`, which `compact` drops. */
  method DurationParts(dur: int) returns (parts: seq<string>)
    ensures parts == PartTexts(Digits(dur, Units))
  {
    ghost var whole := PartTexts(Digits(dur, Units));
    var d := dur;
    parts := [];
    for k := 0 to |Units|
      invariant parts + PartTexts(Digits(d, Units[k..])) == whole
    {
      assert Units[k..][1..] == Units[k + 1..];
      DigitsStep(parts, d, Units[k..], whole);
      if d > 0 {
        var (sfx, val) := Units[k];
        var n := d % val;
        d := d / val;
        parts := parts + [PartText((n, sfx))];
      }
    }
    assert Units[|Units|..] == [];
    assert PartTexts(Digits(d, [])) == [];
  }

  /** One unit taken: while the duration is positive its part is recorded
      and the quotient goes on to the next unit; after that nothing is. */
  lemma DigitsStep(parts: seq<string>, d: int, units: seq<(string, Radix)>, whole: seq<string>)
    requires units != [] && parts + PartTexts(Digits(d, units)) == whole
    ensures d > 0 ==> (parts + [PartText((d % units[0].1, units[0].0))])
                      + PartTexts(Digits(d / units[0].1, units[1..])) == whole
    ensures d <= 0 ==> parts + PartTexts(Digits(d, units[1..])) == whole
  {
    if d > 0 {
      var ps := Digits(d, units);
      var part := PartText((d % units[0].1, units[0].0));
      var rest := PartTexts(Digits(d / units[0].1, units[1..]));
      assert ps[1..] == Digits(d / units[0].1, units[1..]);
      assert PartTexts(ps) == [part] + rest;
      assert (parts + [part]) + rest == parts + ([part] + rest);
    }
  }

  /** The last part and the one before it, last first. */
  function Shown(texts: seq<string>): seq<string>
  {
    if |texts| == 0 then []
    else if |texts| == 1 then [texts[0]]
    else [texts[|texts| - 1], texts[|texts| - 2]]
  }

  /** Reversed and cut to two, the parts are those `Shown` picks. */
  lemma ShownParts(texts: seq<string>)
    ensures FirstTwo(Reverse(texts)) == Shown(texts)
  {
    var rev := Reverse(texts);
    var n := |texts|;
    if n >= 2 {
      assert rev[0] == texts[n - 1];
      assert rev[1] == texts[n - 2];
      assert rev[..2] == [rev[0], rev[1]];
    }
  }

  /** A non-zero duration shows its two highest recorded parts, the largest
      unit first, separated by one space. */
  lemma DurationShowsHighestParts(dur: int)
    requires dur != 0
    ensures DurationText(dur) == Join(Shown(PartTexts(Digits(dur, Units))), " ")
  {
    ShownParts(PartTexts(Digits(dur, Units)));
  }

  /** The digits weighed by their units. */
  function Weighted(ps: seq<(nat, string)>, units: seq<(string, Radix)>): int
    requires |ps| <= |units|
  {
    if ps == [] then 0 else ps[0].0 + units[0].1 * Weighted(ps[1..], units[1..])
  }

  /** How many seconds the units span together: the product of the bases. */
  function Span(units: seq<(string, Radix)>): Radix
  {
    if units == [] then 1 else MulPositive(units[0].1, Span(units[1..])); units[0].1 * Span(units[1..])
  }

  /** What is left of a duration once every unit has taken its remainder. */
  function Carry(d: int, units: seq<(string, Radix)>): int
    decreases |units|
  {
    if units == [] || d <= 0 then d else Carry(d / units[0].1, units[1..])
  }

  lemma MulPositive(a: Radix, b: Radix)
    ensures a * b > 0
  {
  }

  lemma DivMod(d: nat, r: Radix)
    ensures d == r * (d / r) + d % r && 0 <= d % r < r
  {
  }

  lemma MulRegroup(r: int, w: int, s: int, c: int)
    ensures r * w + (r * s) * c == r * (w + s * c)
  {
  }

  lemma QuotientBelow(d: nat, r: Radix, s: Radix)
    requires d < r * s
    ensures d / r < s
  {
    DivMod(d, r);
  }

  /** The digits and the carry make up the duration again. */
  lemma {:induction false} DigitsWeigh(d: nat, units: seq<(string, Radix)>)
    ensures Weighted(Digits(d, units), units) + Span(units) * Carry(d, units) == d
    decreases |units|
  {
    if units != [] && d > 0 {
      var r := units[0].1;
      var q := d / r;
      var ps := Digits(d, units);
      DigitsWeigh(q, units[1..]);
      assert ps[1..] == Digits(q, units[1..]);
      var w := Weighted(Digits(q, units[1..]), units[1..]);
      var c := Carry(q, units[1..]);
      var s := Span(units[1..]);
      assert Weighted(ps, units) == d % r + r * w;
      assert Span(units) == r * s;
      MulRegroup(r, w, s, c);
      DivMod(d, r);
    }
  }

  /** A duration under the span of the units leaves nothing over. */
  lemma {:induction false} CarryBelowSpan(d: nat, units: seq<(string, Radix)>)
    requires d < Span(units)
    ensures Carry(d, units) == 0
    decreases |units|
  {
    if units != [] && d > 0 {
      QuotientBelow(d, units[0].1, Span(units[1..]));
      CarryBelowSpan(d / units[0].1, units[1..]);
    }
  }

  /** Below 1000 days, a duration's recorded parts are its seconds, minutes,
      hours and days in mixed radix: each below its base, they add up to the
      duration, and the highest is not zero. */
  lemma DurationIsMixedRadix(dur: nat)
    requires 0 < dur < 86400000
    ensures var ps := Digits(dur, Units);
            Weighted(ps, Units) == dur && |ps| > 0 && ps[|ps| - 1].0 > 0
  {
    assert Span(Units) == 86400000 by {
      assert Units[1..][1..][1..][1..] == [];
    }
    DigitsWeigh(dur, Units);
    CarryBelowSpan(dur, Units);
    LeadingPartNonZero(dur, Units);
  }

  /** When the units do not run out, the last part recorded is the whole of
      what was left, so it is not zero. */
  lemma {:induction false} LeadingPartNonZero(d: nat, units: seq<(string, Radix)>)
    requires 0 < d < Span(units)
    ensures var ps := Digits(d, units); |ps| > 0 && ps[|ps| - 1].0 > 0
    decreases |units|
  {
    var r := units[0].1;
    var q := d / r;
    DivMod(d, r);
    if q == 0 {
      assert Digits(q, units[1..]) == [];
    } else {
      QuotientBelow(d, r, Span(units[1..]));
      LeadingPartNonZero(q, units[1..]);
      assert Digits(d, units)[1..] == Digits(q, units[1..]);
    }
  }
}
