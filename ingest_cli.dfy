/** The `wavefront ingest` command (lib/wavefront/cli/ingest.rb): lines of
    text become `{ metric => { value:, tags: } }` hashes, which a two-field
    state machine buffers per clock second and hands to the ingestion API
    whenever the second changes. The API call itself is a log of flushes. */
module Ingest {
  import opened Text
  import opened Ruby
  import opened Validators

  /** What a line says about one metric: the text of its value column (whose
      `to_f` is what is sent) and its tags. A line without tags has an empty
      map, where the source leaves the `:tags` key out. */
  datatype Payload = Payload(value: string, tags: map<string, string>)

  /** The hash `process_line` returns: `{ metric_name => payload }`, or `{}`. */
  type Point = map<string, Payload>

  // ---------------------------------------------------------------------------
  // prep_tags and Hash[]

  /** One tag argument split at '=', kept when it makes exactly two pieces. */
  function TagPiece(t: string): seq<(string, string)>
  {
    var parts := Split(t, '=');
    if |parts| == 2 then [(parts[0], parts[1])] else []
  }

  /** `prep_tags`: a non-Array (None) gives []; otherwise each item split on
      '=', keeping in order exactly the items that make two pieces. */
  function PrepTags(tags: Option<seq<string>>): (r: seq<(string, string)>)
    ensures tags.None? ==> r == []
    ensures tags.Some? ==> |r| <= |tags.value|
  {
    if tags.None? then [] else PrepItems(tags.value)
  }

  function PrepItems(items: seq<string>): (r: seq<(string, string)>)
    ensures |r| <= |items|
  {
    if items == [] then [] else TagPiece(items[0]) + PrepItems(items[1..])
  }

  /** `prep_tags` is a filter-map: it works item by item, so the tags of two
      lists are the tags of each, in order. */
  lemma {:induction false} PrepItemsAppend(a: seq<string>, b: seq<string>)
    ensures PrepItems(a + b) == PrepItems(a) + PrepItems(b)
  {
    if a == [] {
      assert a + b == b;
    } else {
      assert (a + b)[1..] == a[1..] + b;
      PrepItemsAppend(a[1..], b);
    }
  }

  /** An item `k=v` with no other '=' and a non-empty value is kept as
      (k, v); the key may be empty (`=v`). */
  lemma TagPieceOfPair(k: string, v: string)
    requires '=' !in k && '=' !in v && v != []
    ensures TagPiece(k + "=" + v) == [(k, v)]
  {
    SplitJoin([k, v], '=');
    assert Join([k, v], "=") == k + "=" + v by {
      JoinCons(k, [v], "=");
    }
  }

  /** An item of one piece or of three or more is dropped. */
  lemma TagPieceDropsOthers(parts: seq<string>)
    requires |parts| != 2 && parts != [] && parts[|parts| - 1] != []
    requires forall i :: 0 <= i < |parts| ==> '=' !in parts[i]
    ensures TagPiece(Join(parts, "=")) == []
  {
    SplitJoin(parts, '=');
  }

  /** A trailing '=' makes no piece of its own: `k=` is dropped and `k=v=`
      is kept as (k, v). */
  lemma TagPieceTrailingSeparator(k: string, v: string)
    requires '=' !in k && '=' !in v && v != []
    ensures TagPiece(k + "=") == []
    ensures TagPiece(k + "=" + v + "=") == [(k, v)]
  {
    FieldsOfJoin([k, ""], '=');
    assert Join([k, ""], "=") == k + "=" by {
      JoinCons(k, [""], "=");
    }
    assert DropTrailingEmpty([k, ""]) == DropTrailingEmpty([k]);
    FieldsOfJoin([k, v, ""], '=');
    assert Join([k, v, ""], "=") == k + "=" + v + "=" by {
      JoinCons(v, [""], "=");
      JoinCons(k, [v, ""], "=");
    }
    assert DropTrailingEmpty([k, v, ""]) == DropTrailingEmpty([k, v]);
  }

  /** `Hash[pairs]`: a later pair with the same key overwrites an earlier one. */
  function ToHash(pairs: seq<(string, string)>): (r: map<string, string>)
    ensures forall k :: 0 <= k < |pairs| ==> pairs[k].0 in r
    ensures forall key :: key in r ==> exists k :: 0 <= k < |pairs| && pairs[k].0 == key
  {
    if pairs == [] then map[]
    else
      var init := ToHash(pairs[..|pairs| - 1]);
      assert forall k :: 0 <= k < |pairs| - 1 ==> pairs[..|pairs| - 1][k] == pairs[k];
      init[pairs[|pairs| - 1].0 := pairs[|pairs| - 1].1]
  }

  /** The value under a key is that of the key's last pair. */
  lemma {:induction false} ToHashLastWins(pairs: seq<(string, string)>, k: nat)
    requires k < |pairs|
    requires forall j :: k < j < |pairs| ==> pairs[j].0 != pairs[k].0
    ensures ToHash(pairs)[pairs[k].0] == pairs[k].1
  {
    if k < |pairs| - 1 {
      var init := pairs[..|pairs| - 1];
      ToHashLastWins(init, k);
    }
  }

  // ---------------------------------------------------------------------------
  // valid_metric? and valid_value?

  /** The class `[\w\-\._]` of metric names. */
  predicate IsMetricChar(c: char) { IsWordChar(c) || c == '-' || c == '.' || c == '_' }

  /** `valid_metric?`: a name of `[\w\-\._]` characters, shorter than 1024,
      that splits on '.' into more than one piece; anything else raises
      InvalidMetricName. */
  function ValidMetric(metric: string): (r: Outcome)
    ensures r == Pass || r == Fail(InvalidMetricName)
  {
    if |Split(metric, '.')| > 1 && AllOf(metric, IsMetricChar) && |metric| < 1024 then Pass
    else Fail(InvalidMetricName)
  }

  /** A metric name passes exactly when it is made of `[\w\-\._]`, is shorter
      than 1024, and has a dot followed somewhere later by another character:
      "cpu.load" and ".load" pass, "cpu", "cpu." and "cpu.." do not. */
  lemma ValidMetricIff(metric: string)
    ensures ValidMetric(metric) == Pass
        <==> (forall i :: 0 <= i < |metric| ==> IsMetricChar(metric[i])) && |metric| < 1024
             && exists i, j :: 0 <= i < j < |metric| && metric[i] == '.' && metric[j] != '.'
  {
    SplitHasSeveralPieces(metric, '.');
  }

  /** The end of the run of digits starting at `from`. */
  function DigitRunEnd(s: string, from: nat): (r: nat)
    requires from <= |s|
    decreases |s| - from
    ensures from <= r <= |s| && (r < |s| ==> !IsDigit(s[r]))
    ensures forall k :: from <= k < r ==> IsDigit(s[k])
  {
    if from == |s| || !IsDigit(s[from]) then from else DigitRunEnd(s, from + 1)
  }

  /** Where `-?\d*\.?` ends: after an optional '-', the digits, and an
      optional '.'. The classes are disjoint, so the greedy reading is the
      only one. */
  function MantissaDot(s: string): (r: nat)
    ensures r <= |s|
  {
    var a := if s != [] && s[0] == '-' then 1 else 0;
    var b := DigitRunEnd(s, a);
    if b < |s| && s[b] == '.' then b + 1 else b
  }

  /** Matches `^-?\d*\.?\d*$`. */
  predicate PlainNumber(s: string)
  {
    DigitRunEnd(s, MantissaDot(s)) == |s|
  }

  /** Matches `^-?\d*\.?\d*e\d+$`. */
  predicate ExponentNumber(s: string)
  {
    var d := DigitRunEnd(s, MantissaDot(s));
    d + 1 < |s| && s[d] == 'e' && DigitRunEnd(s, d + 1) == |s|
  }

  /** `valid_value?`: a Numeric passes; a String passes when it matches one
      of the two patterns; anything else has no `match` (NoMethodError). */
  function ValidValue(value: Dyn): (r: Outcome)
    ensures r == Pass <==> IsNumeric(value) || (value.Str? && (PlainNumber(value.s) || ExponentNumber(value.s)))
    ensures r != Pass ==> r == Fail(if value.Str? then InvalidMetricValue else NoMethodError)
  {
    if IsNumeric(value) then Pass
    else if value.Str? then
      (if PlainNumber(value.s) || ExponentNumber(value.s) then Pass else Fail(InvalidMetricValue))
    else Fail(NoMethodError)
  }

  lemma DigitRunOfDigits(s: string, from: nat, to: nat)
    requires from <= to <= |s|
    requires forall k :: from <= k < to ==> IsDigit(s[k])
    requires to == |s| || !IsDigit(s[to])
    ensures DigitRunEnd(s, from) == to
    decreases |s| - from
  {
    if from < to {
      DigitRunOfDigits(s, from + 1, to);
    }
  }

  /** Every sign, digits, optional point, digits string passes, the empty
      string, "-" and "." among them. */
  lemma PlainNumbersPass(sign: string, whole: string, point: string, fraction: string)
    requires sign == "" || sign == "-"
    requires point == "" || point == "."
    requires AllDigits(whole) && AllDigits(fraction)
    ensures PlainNumber(sign + whole + point + fraction)
  {
    var s := sign + whole + point + fraction;
    var a := |sign|;
    assert s != [] && s[0] == '-' <==> sign == "-";
    if point == "" {
      assert s == sign + (whole + fraction);
      assert forall k :: a <= k < |s| ==> s[k] == (whole + fraction)[k - a];
      DigitRunOfDigits(s, a, |s|);
      assert MantissaDot(s) == |s|;
    } else {
      var b := a + |whole|;
      assert forall k :: a <= k < b ==> s[k] == whole[k - a];
      assert s[b] == '.';
      DigitRunOfDigits(s, a, b);
      assert MantissaDot(s) == b + 1;
      assert forall k :: b + 1 <= k < |s| ==> s[k] == fraction[k - b - 1];
      DigitRunOfDigits(s, b + 1, |s|);
    }
  }

  /** A passing string holds nothing but '-', '.', 'e' and digits. */
  lemma PassingValueCharacters(s: string)
    requires ValidValue(Str(s)) == Pass
    ensures forall i :: 0 <= i < |s| ==> s[i] == '-' || s[i] == '.' || s[i] == 'e' || IsDigit(s[i])
  {
    var a := if s != [] && s[0] == '-' then 1 else 0;
    var b := DigitRunEnd(s, a);
    var c := MantissaDot(s);
    var d := DigitRunEnd(s, c);
    forall i | 0 <= i < |s|
      ensures s[i] == '-' || s[i] == '.' || s[i] == 'e' || IsDigit(s[i])
    {
      if i < a {
        assert s[i] == '-';
      } else if i < b {
      } else if i < c {
        assert s[i] == '.';
      } else if i < d {
      } else if !PlainNumber(s) && i > d {
        assert DigitRunEnd(s, d + 1) == |s|;
      }
    }
  }

  // ---------------------------------------------------------------------------
  // process_line

  /** The metric name of a line: `prefix.m` when a prefix option is set and
      the format has an 'm' column, the prefix alone without one, the 'm'
      column without a prefix, and `abort` when there is neither. */
  function MetricName(fmt: string, chunks: seq<string>, prefix: Option<string>): (r: Result<string>)
    requires |chunks| == |fmt|
    ensures r.Err? <==> prefix.None? && 'm' !in fmt
    ensures r.Err? ==> r.error == Abort
  {
    if prefix.Some? && 'm' in fmt then Ok(Join([prefix.value, chunks[IndexOf(fmt, 'm')]], "."))
    else if prefix.Some? then Ok(prefix.value)
    else if 'm' in fmt then Ok(chunks[IndexOf(fmt, 'm')])
    else Err(Abort)
  }

  /** The result `process_line` gives for columns that match the format and
      name a metric (the format has 'v', and 'm' or a prefix): {} exactly when
      the metric's name fails `valid_metric?`, and otherwise that name mapped
      to the value column and the tags, which are the words of the last
      column and the tag options as `prep_tags` keeps them. */
  predicate Processed(chunks: seq<string>, fmt: string, prefix: Option<string>, tagOpts: seq<string>, r: Result<Point>)
    requires |chunks| == |fmt|
  {
    'v' in fmt && (prefix.Some? || 'm' in fmt) ==>
      var name := MetricName(fmt, chunks, prefix).value;
      && r.Ok?
      && (r.value == map[] <==> ValidMetric(name) != Pass)
      && (r.value != map[] ==>
            r.value == map[name := Payload(chunks[IndexOf(fmt, 'v')],
                                           ToHash(PrepItems(Words(chunks[|chunks| - 1]) + tagOpts)))])
  }

  /** What `process_line` makes of a line once it has split into as many
      columns as the format has letters: the value column (a format without
      'v' indexes with nil: TypeError); the tags are the words of the last
      column and the tag options, as `prep_tags` keeps them; the metric name
      as `MetricName` builds it; {} when that name is invalid.
      `valid_value?` is given a Float there and never raises, so it is not
      consulted. */
  function ProcessColumns(chunks: seq<string>, fmt: string, prefix: Option<string>, tagOpts: seq<string>): (r: Result<Point>)
    requires |chunks| == |fmt|
    ensures r.Ok? ==> |r.value| <= 1
    ensures r.Ok? ==> forall name :: name in r.value ==> ValidMetric(name) == Pass
    ensures r.Ok? && r.value != map[] ==> 'v' in fmt
    ensures r.Err? <==> 'v' !in fmt || (prefix.None? && 'm' !in fmt)
    ensures Processed(chunks, fmt, prefix, tagOpts, r)
  {
    if 'v' !in fmt then Err(TypeError)
    else
      var value := chunks[IndexOf(fmt, 'v')];
      var tags := ToHash(PrepItems(Words(chunks[|chunks| - 1]) + tagOpts));
      match MetricName(fmt, chunks, prefix)
      case Err(e) => Err(e)
      case Ok(name) =>
        if ValidMetric(name) != Pass then Ok(map[])
        else Ok(map[name := Payload(value, tags)])
  }

  /** `process_line`: split the line on whitespace into at most as many
      columns as the format has letters; {} when the count is off, and
      otherwise the metric its columns give, keyed by its name, or {} when
      that name fails `valid_metric?`. */
  function ProcessLine(l: string, fmt: string, prefix: Option<string>, tagOpts: seq<string>): (r: Result<Point>)
    ensures r.Ok? ==> |r.value| <= 1
    ensures |SplitWs(l, |fmt|)| != |fmt| ==> r == Ok(map[])
    ensures r.Ok? && r.value != map[] ==> 'v' in fmt && |SplitWs(l, |fmt|)| == |fmt|
    ensures r.Ok? ==> forall name :: name in r.value ==> ValidMetric(name) == Pass
    ensures r.Err? <==> |SplitWs(l, |fmt|)| == |fmt| && ('v' !in fmt || (prefix.None? && 'm' !in fmt))
    ensures var chunks := SplitWs(l, |fmt|);
            |chunks| == |fmt| ==> Processed(chunks, fmt, prefix, tagOpts, r)
  {
    var chunks := SplitWs(l, |fmt|);
    if |chunks| != |fmt| then Ok(map[]) else ProcessColumns(chunks, fmt, prefix, tagOpts)
  }

  /** A well-formed `mvT` line becomes one metric with its value and tags;
      the tag column may hold several `k=v` words. */
  lemma ProcessLineMvt(m: string, v: string, t: string, tagOpts: seq<string>)
    requires m != [] && v != [] && t != [] && NoSpace(m) && NoSpace(v) && !IsSpace(t[0])
    requires ValidMetric(m) == Pass
    ensures ProcessLine(m + " " + v + " " + t, "mvT", None, tagOpts)
         == Ok(map[m := Payload(v, ToHash(PrepItems(Words(t) + tagOpts)))])
  {
    SplitThreeColumns(m, v, t);
    assert IndexOf("mvT", 'v') == 1 && IndexOf("mvT", 'm') == 0;
  }

  // ---------------------------------------------------------------------------
  // The time-bucket aggregator

  /** A flush: the buffer handed to `Ingest#write` and the time it went with. */
  type Flush = (Point, Option<int>)

  /** The accepted points of a stream, with their times, merged per run of
      equal consecutive times: each run becomes one buffer, later points
      overwriting earlier ones per metric. */
  function Groups(events: seq<(Point, int)>): (r: seq<(Point, int)>)
    ensures |r| <= |events|
    ensures events != [] ==> |r| >= 1 && r[|r| - 1].1 == events[|events| - 1].1
  {
    if events == [] then []
    else
      var g := Groups(events[..|events| - 1]);
      var e := events[|events| - 1];
      if g != [] && g[|g| - 1].1 == e.1 then g[..|g| - 1] + [(g[|g| - 1].0 + e.0, e.1)]
      else g + [e]
  }

  predicate TimesChange(g: seq<(Point, int)>)
  {
    forall k :: 0 <= k < |g| - 1 ==> g[k].1 != g[k + 1].1
  }

  /** Neighbouring groups carry different times: a buffer is flushed only
      when the second changes. */
  lemma {:induction false} GroupsChangeTime(events: seq<(Point, int)>)
    ensures TimesChange(Groups(events))
  {
    if events != [] {
      var init := events[..|events| - 1];
      var g := Groups(init);
      var e := events[|events| - 1];
      var r := Groups(events);
      GroupsChangeTime(init);
      assert TimesChange(g);
      if g != [] && g[|g| - 1].1 == e.1 {
        assert r == g[..|g| - 1] + [(g[|g| - 1].0 + e.0, e.1)];
        forall k | 0 <= k < |r| - 1
          ensures r[k].1 != r[k + 1].1
        {
          assert r[k] == g[k];
          assert r[k + 1].1 == g[k + 1].1;
          assert g[k].1 != g[k + 1].1;
        }
      } else {
        assert r == g + [e];
        forall k | 0 <= k < |r| - 1
          ensures r[k].1 != r[k + 1].1
        {
          assert r[k] == g[k];
          if k + 1 < |g| {
            assert g[k].1 != g[k + 1].1;
          }
        }
      }
    }
  }

  /** One more event either joins the last group or opens a new one. */
  lemma GroupsSnoc(events: seq<(Point, int)>, e: (Point, int))
    ensures var g := Groups(events);
            Groups(events + [e])
            == if g != [] && g[|g| - 1].1 == e.1 then g[..|g| - 1] + [(g[|g| - 1].0 + e.0, e.1)] else g + [e]
  {
    assert (events + [e])[..|events|] == events;
  }

  /** All the points of a stream, merged in order. */
  function MergeAll(events: seq<(Point, int)>): Point
  {
    if events == [] then map[] else MergeAll(events[..|events| - 1]) + events[|events| - 1].0
  }

  lemma MergeAssoc(a: Point, b: Point, c: Point)
    ensures a + (b + c) == (a + b) + c
  {
  }

  /** Grouping loses no point: merging the groups in order is merging the
      points in order. */
  lemma {:induction false} GroupsKeepEveryPoint(events: seq<(Point, int)>)
    ensures MergeAll(Groups(events)) == MergeAll(events)
  {
    if events != [] {
      var init := events[..|events| - 1];
      var g := Groups(init);
      var e := events[|events| - 1];
      GroupsKeepEveryPoint(init);
      if g != [] && g[|g| - 1].1 == e.1 {
        var front := g[..|g| - 1];
        var r := front + [(g[|g| - 1].0 + e.0, e.1)];
        assert r[..|r| - 1] == front;
        assert g[..|g| - 1] == front;
        MergeAssoc(MergeAll(front), g[|g| - 1].0, e.0);
      } else {
        var r := g + [e];
        assert r[..|r| - 1] == g;
      }
    }
  }

  /** The hash a line gives, or {} when it raised. */
  function PointOf(r: Result<Point>): Point
  {
    if r.Ok? then r.value else map[]
  }

  /** The hashes `process_line` makes of each line. */
  function LinePoints(lines: seq<string>, fmt: string, prefix: Option<string>, tagOpts: seq<string>): (r: seq<Point>)
    ensures |r| == |lines|
  {
    if lines == [] then []
    else LinePoints(lines[..|lines| - 1], fmt, prefix, tagOpts) + [PointOf(ProcessLine(lines[|lines| - 1], fmt, prefix, tagOpts))]
  }

  /** The points a run of lines accepts: the non-empty hashes, each with the
      time of its line. */
  function Accepted(points: seq<Point>, times: seq<int>): (r: seq<(Point, int)>)
    requires |points| == |times|
    ensures |r| <= |points|
    ensures forall k :: 0 <= k < |r| ==> r[k].0 != map[]
  {
    if points == [] then []
    else
      var n := |points| - 1;
      Accepted(points[..n], times[..n]) + (if points[n] != map[] then [(points[n], times[n])] else [])
  }

  /** The events of the first `n` lines, from those of the first `n - 1`. */
  lemma AcceptedStep(lines: seq<string>, times: seq<int>, n: nat, fmt: string, prefix: Option<string>, tagOpts: seq<string>)
    requires |times| == |lines| && 0 < n <= |lines|
    ensures var p := PointOf(ProcessLine(lines[n - 1], fmt, prefix, tagOpts));
            Accepted(LinePoints(lines[..n], fmt, prefix, tagOpts), times[..n])
            == Accepted(LinePoints(lines[..n - 1], fmt, prefix, tagOpts), times[..n - 1])
               + (if p != map[] then [(p, times[n - 1])] else [])
  {
    assert lines[..n][..n - 1] == lines[..n - 1];
    assert times[..n][..n - 1] == times[..n - 1];
  }

  /** No line of `lines` makes `process_line` raise. */
  predicate AllProcessed(lines: seq<string>, fmt: string, prefix: Option<string>, tagOpts: seq<string>)
  {
    forall k :: 0 <= k < |lines| ==> ProcessLine(lines[k], fmt, prefix, tagOpts).Ok?
  }

  lemma AllProcessedStep(lines: seq<string>, i: nat, fmt: string, prefix: Option<string>, tagOpts: seq<string>)
    requires i < |lines| && AllProcessed(lines[..i], fmt, prefix, tagOpts)
    requires ProcessLine(lines[i], fmt, prefix, tagOpts).Ok?
    ensures AllProcessed(lines[..i + 1], fmt, prefix, tagOpts)
  {
    var done, before := lines[..i + 1], lines[..i];
    forall k | 0 <= k < |done|
      ensures ProcessLine(done[k], fmt, prefix, tagOpts).Ok?
    {
      if k < i {
        assert done[k] == before[k];
      }
    }
  }

  /** The flushes a run of groups makes, each buffer with its time. */
  function Flushed(g: seq<(Point, int)>): (r: seq<Flush>)
    ensures |r| == |g| && forall k :: 0 <= k < |g| ==> r[k] == (g[k].0, Some(g[k].1))
  {
    if g == [] then [] else Flushed(g[..|g| - 1]) + [(g[|g| - 1].0, Some(g[|g| - 1].1))]
  }

  /** All groups but the last: what has been flushed while the last is
      still buffered. */
  function AllButLast(g: seq<(Point, int)>): seq<(Point, int)>
  {
    if g == [] then [] else g[..|g| - 1]
  }

  /** The flushes of a whole run: one per group, or a single flush of the
      empty buffer with no time when no line was accepted. */
  function RunFlushes(g: seq<(Point, int)>): (r: seq<Flush>)
    ensures r != []
  {
    if g == [] then [(map[], None)] else Flushed(g)
  }

  /** The buffers of a run of flushes merged in order. */
  function MergeFlushes(f: seq<Flush>): Point
  {
    if f == [] then map[] else MergeFlushes(f[..|f| - 1]) + f[|f| - 1].0
  }

  lemma {:induction false} MergeFlushed(g: seq<(Point, int)>)
    ensures MergeFlushes(Flushed(g)) == MergeAll(g)
  {
    if g != [] {
      MergeFlushed(g[..|g| - 1]);
    }
  }

  /** A whole run flushes every accepted point: the buffers merged in order
      are the points merged in order, and no two neighbouring flushes share
      a time. */
  lemma RunFlushesMeaning(events: seq<(Point, int)>)
    ensures MergeFlushes(RunFlushes(Groups(events))) == MergeAll(events)
    ensures var f := RunFlushes(Groups(events));
            forall k :: 0 <= k < |f| - 1 ==> f[k].1 != f[k + 1].1
  {
    var g := Groups(events);
    GroupsKeepEveryPoint(events);
    GroupsChangeTime(events);
    assert TimesChange(g);
    if g == [] {
      assert MergeFlushes([(map[], None)]) == map[] + map[];
    } else {
      MergeFlushed(g);
      var f := Flushed(g);
      forall k | 0 <= k < |f| - 1
        ensures f[k].1 != f[k + 1].1
      {
        assert f[k].1 == Some(g[k].1);
      }
    }
  }

  /** A flush more at the end of the flushes. */
  lemma FlushedSnoc(g: seq<(Point, int)>, x: (Point, int))
    ensures Flushed(g + [x]) == Flushed(g) + [(x.0, Some(x.1))]
  {
    assert (g + [x])[..|g|] == g;
  }

  /** The aggregator's state after `events`, for a run that began with an
      empty buffer, no time and the flushes `f0`. */
  ghost predicate Grouped(buffer: Point, last: Option<int>, flushes: seq<Flush>, f0: seq<Flush>, events: seq<(Point, int)>)
  {
    var g := Groups(events);
    if g == [] then buffer == map[] && last.None? && flushes == f0
    else buffer == g[|g| - 1].0 && last == Some(g[|g| - 1].1) && flushes == f0 + Flushed(AllButLast(g))
  }

  /** `flush_or_buffer` on the state as values: an empty hash is ignored; a
      point of the same second (or the first one) is merged into the buffer,
      last write winning; a point of a new second first flushes the buffer
      with the old time and then starts a buffer of its own. */
  function Offer(buffer: Point, last: Option<int>, flushes: seq<Flush>, point: Point, time: int): (Point, Option<int>, seq<Flush>)
  {
    if point == map[] then (buffer, last, flushes)
    else if last.None? || last == Some(time) then (buffer + point, Some(time), flushes)
    else (point, Some(time), flushes + [(buffer, last)])
  }

  /** The first point of a run starts the buffer. */
  lemma OfferFirst(buffer: Point, last: Option<int>, flushes: seq<Flush>, f0: seq<Flush>,
                   events: seq<(Point, int)>, point: Point, time: int)
    requires Grouped(buffer, last, flushes, f0, events)
    requires point != map[] && Groups(events) == []
    ensures Grouped(buffer + point, Some(time), flushes, f0, events + [(point, time)])
  {
    GroupsSnoc(events, (point, time));
    assert buffer + point == point;
    assert AllButLast([(point, time)]) == [];
  }

  /** A point of the buffered second is merged into the buffer. */
  lemma OfferSameSecond(buffer: Point, last: Option<int>, flushes: seq<Flush>, f0: seq<Flush>,
                        events: seq<(Point, int)>, point: Point, time: int)
    requires Grouped(buffer, last, flushes, f0, events)
    requires point != map[] && Groups(events) != [] && last == Some(time)
    ensures Grouped(buffer + point, Some(time), flushes, f0, events + [(point, time)])
  {
    var g := Groups(events);
    GroupsSnoc(events, (point, time));
    var front := g[..|g| - 1];
    assert AllButLast(front + [(g[|g| - 1].0 + point, time)]) == front;
  }

  /** A point of a new second flushes the buffer and starts a new one. */
  lemma OfferNewSecond(buffer: Point, last: Option<int>, flushes: seq<Flush>, f0: seq<Flush>,
                       events: seq<(Point, int)>, point: Point, time: int)
    requires Grouped(buffer, last, flushes, f0, events)
    requires point != map[] && Groups(events) != [] && last != Some(time)
    ensures Grouped(point, Some(time), flushes + [(buffer, last)], f0, events + [(point, time)])
  {
    var g := Groups(events);
    var front, x := g[..|g| - 1], g[|g| - 1];
    assert g == front + [x];
    assert buffer == x.0 && last == Some(x.1) && flushes == f0 + Flushed(front);
    GroupsSnoc(events, (point, time));
    var g2 := g + [(point, time)];
    assert Groups(events + [(point, time)]) == g2;
    assert AllButLast(g2) == g;
    FlushedSnoc(front, x);
    assert Flushed(g) == Flushed(front) + [(buffer, last)];
    ConcatAssoc(f0, Flushed(front), [(buffer, last)]);
  }

  /** Offering a point to a state that is grouped as `events` says gives the
      state grouped as `events` and that point (when it is not empty). */
  lemma OfferKeepsGrouping(buffer: Point, last: Option<int>, flushes: seq<Flush>, f0: seq<Flush>,
                           events: seq<(Point, int)>, point: Point, time: int)
    requires Grouped(buffer, last, flushes, f0, events)
    ensures var s := Offer(buffer, last, flushes, point, time);
            Grouped(s.0, s.1, s.2, f0, events + (if point != map[] then [(point, time)] else []))
  {
    if point == map[] {
      assert events + [] == events;
    } else if Groups(events) == [] {
      OfferFirst(buffer, last, flushes, f0, events, point, time);
    } else if last == Some(time) {
      OfferSameSecond(buffer, last, flushes, f0, events, point, time);
    } else {
      OfferNewSecond(buffer, last, flushes, f0, events, point, time);
    }
  }

  /** The last flush of a run completes its flushes. */
  lemma FinalFlush(buffer: Point, last: Option<int>, flushes: seq<Flush>, f0: seq<Flush>, events: seq<(Point, int)>)
    requires Grouped(buffer, last, flushes, f0, events)
    ensures flushes + [(buffer, last)] == f0 + RunFlushes(Groups(events))
  {
    var g := Groups(events);
    if g != [] {
      var front, x := g[..|g| - 1], g[|g| - 1];
      assert front + [x] == g;
      assert buffer == x.0 && last == Some(x.1) && flushes == f0 + Flushed(front);
      FlushedSnoc(front, x);
      ConcatAssoc(f0, Flushed(front), [(buffer, last)]);
    }
  }

  class Aggregator {
    /** `@buffer`: the points of the current second, per metric. */
    var buffer: Point
    /** `@last_buffer_time`: nil until a point is accepted. */
    var lastBufferTime: Option<int>
    /** Every `wf.write` made, in order. */
    ghost var flushes: seq<Flush>
    const fmt: string
    const prefix: Option<string>
    const tagOpts: seq<string>

    /** The state `run` sets up: an empty buffer, no time, nothing flushed. */
    constructor(fmt: string, prefix: Option<string>, tagOpts: seq<string>)
      ensures buffer == map[] && lastBufferTime.None? && flushes == []
      ensures this.fmt == fmt && this.prefix == prefix && this.tagOpts == tagOpts
    {
      this.fmt := fmt;
      this.prefix := prefix;
      this.tagOpts := tagOpts;
      buffer := map[];
      lastBufferTime := None;
      flushes := [];
    }

    /** `flush_buffer`: the buffer goes out with the last time; nothing else
        changes. */
    method FlushBuffer()
      modifies this
      ensures flushes == old(flushes) + [(buffer, lastBufferTime)]
      ensures buffer == old(buffer) && lastBufferTime == old(lastBufferTime)
    {
      flushes := flushes + [(buffer, lastBufferTime)];
    }

    /** `flush_or_buffer`, in place. */
    method FlushOrBuffer(point: Point, time: int)
      modifies this
      ensures (buffer, lastBufferTime, flushes) == Offer(old(buffer), old(lastBufferTime), old(flushes), point, time)
    {
      if point == map[] {
        return;
      }
      if lastBufferTime == Some(time) || lastBufferTime.None? {
        buffer := buffer + point;
      } else {
        FlushBuffer();
        buffer := point;
      }
      lastBufferTime := Some(time);
    }

    /** The state after the given accepted points of a run that began
        empty: every group but the last flushed, the last one buffered. */
    ghost predicate Buffered(f0: seq<Flush>, events: seq<(Point, int)>)
      reads this
    {
      Grouped(buffer, lastBufferTime, flushes, f0, events)
    }

    /** One more point keeps the state as the grouping says. */
    method Step(point: Point, time: int, ghost f0: seq<Flush>, ghost events: seq<(Point, int)>)
      requires Buffered(f0, events)
      modifies this
      ensures Buffered(f0, events + (if point != map[] then [(point, time)] else []))
    {
      FlushOrBuffer(point, time);
      OfferKeepsGrouping(old(buffer), old(lastBufferTime), old(flushes), f0, events, point, time);
    }

    /** `write_from_stdin`: each line, read at the clock second `times[k]`,
        is processed and offered to `flush_or_buffer`; the buffer is flushed
        once more at the end. A line that makes `process_line` raise (no 'v'
        column, or `abort` for want of a metric name) ends the command there,
        without the final flush. `stopped` is the number of lines taken:
        up to it, the flushes are those of the grouping of the accepted
        points. */
    method WriteFromStdin(lines: seq<string>, times: seq<int>) returns (r: Result<()>, ghost stopped: nat)
      requires |times| == |lines|
      requires buffer == map[] && lastBufferTime.None?
      modifies this
      ensures stopped <= |lines| && (r.Ok? <==> stopped == |lines|)
      ensures AllProcessed(lines[..stopped], fmt, prefix, tagOpts)
      ensures r.Err? ==> ProcessLine(lines[stopped], fmt, prefix, tagOpts) == Err(r.error)
      ensures var g := Groups(Accepted(LinePoints(lines[..stopped], fmt, prefix, tagOpts), times[..stopped]));
              flushes == old(flushes) + (if r.Err? then Flushed(AllButLast(g)) else RunFlushes(g))
    {
      ghost var f0 := flushes;
      var i := 0;
      while i < |lines|
        invariant 0 <= i <= |lines|
        invariant AllProcessed(lines[..i], fmt, prefix, tagOpts)
        invariant Buffered(f0, Accepted(LinePoints(lines[..i], fmt, prefix, tagOpts), times[..i]))
      {
        var out := ProcessLine(lines[i], fmt, prefix, tagOpts);
        if out.Err? {
          return Err(out.error), i;
        }
        Step(out.value, times[i], f0, Accepted(LinePoints(lines[..i], fmt, prefix, tagOpts), times[..i]));
        AcceptedStep(lines, times, i + 1, fmt, prefix, tagOpts);
        AllProcessedStep(lines, i, fmt, prefix, tagOpts);
        i := i + 1;
      }
      FinalFlush(buffer, lastBufferTime, flushes, f0, Accepted(LinePoints(lines[..i], fmt, prefix, tagOpts), times[..i]));
      FlushBuffer();
      r, stopped := Ok(()), i;
    }
  }
}
