/** The `wavefront write` command (lib/wavefront/cli/write.rb): checks one
    value and metric name given on the command line, reads the `--tag k=v`
    options and sends the point through a `Writer`. */
module WriteCli {
  import opened Text
  import opened Ruby
  import opened Validators
  import opened Wire
  import opened Proxy
  import opened Mixins
  import Ingest
  import W = Writer

  // ---------------------------------------------------------------------------
  // Checks

  /** A character of `[\w\.\-]`. */
  predicate IsHostChar(c: char) { IsWordChar(c) || c == '.' || c == '-' }

  /** `valid_host?`: a match of `^[\w\.\-]+$`. */
  predicate ValidHost(h: string) { h != [] && forall i :: 0 <= i < |h| ==> IsHostChar(h[i]) }

  /** Every name `valid_source?` accepts is a host name here too. */
  lemma {:induction false} SourcesAreHosts(h: string)
    requires IsValidSource(Str(h))
    ensures ValidHost(h)
  {
    forall i | 0 <= i < |h| ensures IsHostChar(h[i]) {
      assert IsNameChar(h[i]);
    }
  }

  /** `valid_value?`: the value must be the rendering of its own `to_i`. A
      value that passes is a sign and decimal digits, with no leading zero. */
  function ValidValue(value: string): (r: Outcome)
    ensures r == Pass || r == Fail(InvalidMetricValue)
    ensures r == Pass ==> |value| >= 1 && (forall k :: 0 <= k < |value| ==> value[k] == '-' || IsDigit(value[k]))
    ensures r == Pass && value[0] == '0' ==> value == "0"
  {
    if IntToString(StrToI(value)) == value then Pass else Fail(InvalidMetricValue)
  }

  /** A value passes exactly when some integer is written that way. */
  lemma ValidValueIff(value: string)
    ensures ValidValue(value) == Pass <==> exists i :: IntToString(i) == value
  {
    if exists i :: IntToString(i) == value {
      var i :| IntToString(i) == value;
      StrToIOfIntToString(i);
    }
  }

  /** `valid_metric?`: a String of `[\w\.\-_]` characters that splits on '.'
      into more than one piece; anything else raises InvalidMetricName. */
  function ValidMetric(metric: Dyn): (r: Outcome)
    ensures r == Pass || r == Fail(InvalidMetricName)
  {
    if !metric.Str? then Fail(InvalidMetricName)
    else if |Split(metric.s, '.')| <= 1 then Fail(InvalidMetricName)
    else if !(metric.s != [] && forall i :: 0 <= i < |metric.s| ==> Ingest.IsMetricChar(metric.s[i])) then Fail(InvalidMetricName)
    else Pass
  }

  /** A metric passes exactly when it is a string of `[\w\-\._]` that has a
      dot followed somewhere later by another character. */
  lemma ValidMetricIff(metric: Dyn)
    ensures ValidMetric(metric) == Pass
        <==> metric.Str? && (forall i :: 0 <= i < |metric.s| ==> Ingest.IsMetricChar(metric.s[i]))
             && exists i, j :: 0 <= i < j < |metric.s| && metric.s[i] == '.' && metric.s[j] != '.'
  {
    if metric.Str? {
      SplitHasSeveralPieces(metric.s, '.');
    }
  }

  /** The same rule as the ingest command's, without its length bound. */
  lemma ValidMetricAgreesWithIngest(s: string)
    ensures ValidMetric(Str(s)) == Pass && |s| < 1024 <==> Ingest.ValidMetric(s) == Pass
  {
    ValidMetricIff(Str(s));
    Ingest.ValidMetricIff(s);
  }

  // ---------------------------------------------------------------------------
  // Tags

  /** `prep_tags`: [] for a non-Array (None); otherwise every item split on
      '=', malformed ones included. */
  function PrepTags(tags: Option<seq<string>>): (r: seq<seq<string>>)
    ensures tags.None? ==> r == []
    ensures tags.Some? ==> |r| == |tags.value|
  {
    if tags.None? then [] else SplitItems(tags.value)
  }

  function SplitItems(items: seq<string>): (r: seq<seq<string>>)
    ensures |r| == |items| && forall i :: 0 <= i < |items| ==> r[i] == Split(items[i], '=')
  {
    if items == [] then [] else [Split(items[0], '=')] + SplitItems(items[1..])
  }

  /** What a block `|k, v|` binds for one split item: its first two pieces,
      with a missing one `nil`, which interpolates as "". */
  function BlockPair(parts: seq<string>): (string, string)
  {
    (if |parts| > 0 then parts[0] else "", if |parts| > 1 then parts[1] else "")
  }

  /** The point tags the writer renders from `prep_tags`' arrays. */
  function Pairs(parts: seq<seq<string>>): (r: seq<(string, string)>)
    ensures |r| == |parts| && forall i :: 0 <= i < |parts| ==> r[i] == BlockPair(parts[i])
  {
    if parts == [] then [] else [BlockPair(parts[0])] + Pairs(parts[1..])
  }

  /** An item `k=v` becomes the tag (k, v); one with no '=' becomes (k, "");
      one with a second '=' keeps its first two pieces. */
  lemma ItemPair(k: string, v: string, w: string)
    requires '=' !in k && '=' !in v && '=' !in w && v != [] && w != []
    ensures BlockPair(Split(k + "=" + v, '=')) == (k, v)
    ensures k != [] ==> BlockPair(Split(k, '=')) == (k, "")
    ensures BlockPair(Split(k + "=" + v + "=" + w, '=')) == (k, v)
  {
    SplitJoin([k, v], '=');
    JoinCons(k, [v], "=");
    SplitJoin([k, v, w], '=');
    JoinCons(k, [v, w], "=");
    JoinCons(v, [w], "=");
    assert k + "=" + v + "=" + w == k + "=" + (v + "=" + w);
    if k != [] {
      SplitJoin([k], '=');
    }
  }

  /** The ingest command keeps exactly the items that split into two pieces;
      this command keeps every item. */
  function TwoPieceItems(parts: seq<seq<string>>): seq<(string, string)>
  {
    if parts == [] then []
    else (if |parts[0]| == 2 then [(parts[0][0], parts[0][1])] else []) + TwoPieceItems(parts[1..])
  }

  lemma {:induction false} IngestKeepsTwoPieceItems(items: seq<string>)
    ensures Ingest.PrepItems(items) == TwoPieceItems(SplitItems(items))
    ensures |Ingest.PrepItems(items)| == |items| <==> forall i :: 0 <= i < |items| ==> |Split(items[i], '=')| == 2
  {
    if items != [] {
      IngestKeepsTwoPieceItems(items[1..]);
      assert SplitItems(items)[1..] == SplitItems(items[1..]);
      if forall i :: 0 <= i < |items| ==> |Split(items[i], '=')| == 2 {
        assert forall i :: 0 <= i < |items[1..]| ==> |Split(items[1..][i], '=')| == 2 by {
          forall i | 0 <= i < |items[1..]| ensures |Split(items[1..][i], '=')| == 2 {
            assert items[1..][i] == items[i + 1];
          }
        }
      } else if |Split(items[0], '=')| == 2 {
        var i :| 0 <= i < |items| && |Split(items[i], '=')| != 2;
        assert items[1..][i - 1] == items[i];
      }
    }
  }

  // ---------------------------------------------------------------------------
  // The command

  /** The command line: the value and metric arguments and the options. */
  datatype Args = Args(
    value: string,
    metric: string,
    time: Option<string>,
    proxy: Option<string>,
    host: Option<string>,
    tags: Option<seq<string>>,
    noop: bool)

  /** `ts`: the parsed `--time` option as whole seconds, or `false`. */
  function Timestamp(time: Option<string>, parse: string -> Option<int>): Result<Dyn>
  {
    if time.None? then Ok(Bool(false))
    else match ParseTime(Str(time.value), parse)
      case Err(e) => Err(e)
      case Ok(seconds) => Ok(Int(seconds))
  }

  /** `run` at the clock second `now`, `fqdn` being the local host name: the
      checks raise in order (value, metric, time); the host check, which looks
      at the option names rather than their values, never fails. A run that
      passes writes the value as given, at the `--time` second or the clock's,
      with the `--host` name or the local one and every `--tag`. */
  method Run(args: Args, fqdn: string, now: int, parse: string -> Option<int>, sock: Socket) returns (r: Result<string>)
    modifies sock
    ensures ValidValue(args.value) != Pass ==> r == Err(InvalidMetricValue)
    ensures ValidValue(args.value) == Pass && ValidMetric(Str(args.metric)) != Pass ==> r == Err(InvalidMetricName)
    ensures ValidValue(args.value) == Pass && ValidMetric(Str(args.metric)) == Pass ==>
              match Timestamp(args.time, parse)
              case Err(e) => r == Err(e)
              case Ok(ts) =>
                r == Ok(W.WriteLine(args.metric, args.value, if ts.Int? then ts.i else now,
                                    OrDefault(args.host, fqdn), Pairs(PrepTags(args.tags))))
    ensures r.Err? || args.noop ==> sock.log == old(sock.log) && sock.script == old(sock.script)
    ensures r.Ok? && !args.noop ==> sock.log == old(sock.log) + [(r.value, old(sock.script) == [] || old(sock.script)[0])]
  {
    if ValidValue(args.value) != Pass {
      return Err(InvalidMetricValue);
    }
    if ValidMetric(Str(args.metric)) != Pass {
      return Err(InvalidMetricName);
    }
    var ts := Timestamp(args.time, parse);
    if ts.Err? {
      return Err(ts.error);
    }
    // The names checked are the symbols :proxy and :host, which always match.
    assert ValidHost("proxy") && ValidHost("host");
    var tags := Pairs(PrepTags(args.tags));
    var wf := new W.Writer(W.WriterOptions(args.proxy, None, args.host, Some(args.metric), Some(tags)), fqdn, sock);
    // `initialize` filled the missing host name into the same options hash.
    r := wf.Write(Int(StrToI(args.value)), Some(args.metric),
                  W.WriteOptions(Some(wf.hostName), Some(tags), ts.value, args.noop), now);
  }

  /** A point the command sends reads back, on the proxy's side, as the
      metric and value as given, the time, the host and the tags. */
  lemma RunReadsBack(metric: string, value: string, seconds: int, host: string, tags: seq<(string, string)>)
    requires ValidMetric(Str(metric)) == Pass && ValidValue(value) == Pass
    requires ' ' !in host && '"' !in host && AllReadable(tags)
    ensures ParseLine(W.WriteLine(metric, value, seconds, host, tags))
         == Some(Line(metric, value, Some(seconds), host, tags))
  {
    assert IsWord(metric) by {
      assert forall i :: 0 <= i < |metric| ==> Ingest.IsMetricChar(metric[i]);
    }
    assert IsWord(value) by {
      assert forall k :: 0 <= k < |value| ==> value[k] == '-' || IsDigit(value[k]);
    }
    W.WriteLineReadsBack(metric, value, seconds, host, tags);
  }
}
