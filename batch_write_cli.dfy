/** The `wavefront write file` command (lib/wavefront/cli/batch_write.rb):
    each line of input is split into the columns a format string such as
    `mtvT` names, checked, given defaults for the columns it lacks, laid out
    as a proxy line and written to the proxy socket, counting the points
    that went out. */
module BatchCli {
  import opened Text
  import opened Ruby
  import opened Validators
  import opened Mixins
  import opened Wire
  import opened Proxy
  import Batch

  // ---------------------------------------------------------------------------
  // valid_format?

  /** The column letters: metric, timestamp and value. */
  predicate IsColumnLetter(c: char) { c == 'm' || c == 't' || c == 'v' }

  /** Matches `^[mtv]+T?$`: column letters, then at most one 'T' at the end. */
  predicate FormatShape(fmt: string)
  {
    && fmt != []
    && AllOf(fmt[..|fmt| - 1], IsColumnLetter)
    && (IsColumnLetter(fmt[|fmt| - 1]) || (fmt[|fmt| - 1] == 'T' && |fmt| >= 2))
  }

  /** `s.split('').uniq.join`: the first occurrence of each character, in
      order. */
  function Uniq(s: string): (r: string)
    ensures |r| <= |s|
  {
    if s == [] then []
    else
      var u := Uniq(s[..|s| - 1]);
      if s[|s| - 1] in u then u else u + [s[|s| - 1]]
  }

  predicate Distinct(s: string) { forall i, j :: 0 <= i < j < |s| ==> s[i] != s[j] }

  lemma {:induction false} UniqKeepsCharacters(s: string)
    ensures forall c :: c in Uniq(s) <==> c in s
  {
    if s != [] {
      UniqKeepsCharacters(s[..|s| - 1]);
      assert s == s[..|s| - 1] + [s[|s| - 1]];
    }
  }

  /** `fmt == fmt.split('').uniq.join` holds exactly when no letter repeats. */
  lemma {:induction false} UniqUnchangedIff(s: string)
    ensures Uniq(s) == s <==> Distinct(s)
  {
    if s != [] {
      var init := s[..|s| - 1];
      var c := s[|s| - 1];
      UniqUnchangedIff(init);
      UniqKeepsCharacters(init);
      assert s == init + [c];
      if Distinct(s) {
        assert Distinct(init) by {
          forall i, j | 0 <= i < j < |init| ensures init[i] != init[j] {
            assert init[i] == s[i] && init[j] == s[j];
          }
        }
        assert c !in init by {
          forall i | 0 <= i < |init| ensures init[i] != c {
            assert init[i] == s[i];
          }
        }
      }
      if Uniq(s) == s && c !in Uniq(init) {
        assert Uniq(init) == init;
        assert c !in init;
        forall i, j | 0 <= i < j < |s| ensures s[i] != s[j] {
          if j < |init| {
            assert s[i] == init[i] && s[j] == init[j];
          } else {
            assert s[i] == init[i];
          }
        }
      }
    }
  }

  /** `valid_format?`. */
  function ValidFormat(fmt: string): bool
  {
    'v' in fmt && FormatShape(fmt) && Uniq(fmt) == fmt
  }

  /** Column letters, with a 'T' allowed only as the last letter. */
  predicate LettersThenTags(fmt: string)
  {
    forall i :: 0 <= i < |fmt| ==> IsColumnLetter(fmt[i]) || (fmt[i] == 'T' && i == |fmt| - 1)
  }

  lemma FormatShapeIff(fmt: string)
    requires 'v' in fmt
    ensures FormatShape(fmt) <==> LettersThenTags(fmt)
  {
    var init := fmt[..|fmt| - 1];
    assert forall i :: 0 <= i < |init| ==> init[i] == fmt[i];
    if fmt[|fmt| - 1] == 'T' {
      assert |fmt| >= 2;
    }
    if LettersThenTags(fmt) {
      assert forall i :: 0 <= i < |init| ==> IsColumnLetter(init[i]);
    }
  }

  /** A valid format has a 'v', repeats no letter, and is made of 'm', 't'
      and 'v' with an optional 'T' as its last letter. */
  lemma ValidFormatIff(fmt: string)
    ensures ValidFormat(fmt) <==> 'v' in fmt && Distinct(fmt) && LettersThenTags(fmt)
  {
    UniqUnchangedIff(fmt);
    if 'v' in fmt {
      FormatShapeIff(fmt);
    }
  }

  // ---------------------------------------------------------------------------
  // valid_line?, valid_timestamp?, valid_value?

  /** `valid_line?`: the whitespace-separated columns number exactly the
      format's letters, or at least as many when the format has a 'T'. */
  function ValidLine(l: string, fmt: string): bool
  {
    if 'T' in fmt then |Words(l)| >= |fmt| else |Words(l)| == |fmt|
  }

  /** Columns joined by single spaces are a valid line exactly when their
      number fits the format. */
  lemma ValidLineOfColumns(cols: seq<string>, fmt: string)
    requires forall k :: 0 <= k < |cols| ==> cols[k] != [] && NoSpace(cols[k])
    ensures ValidLine(Join(cols, " "), fmt) <==> if 'T' in fmt then |cols| >= |fmt| else |cols| == |fmt|
  {
    WordsOfJoin(cols);
  }

  /** 2000-01-01T00:00:00Z in epoch seconds. */
  const EarliestTime := 946684800
  /** A year of 365.25 days, in seconds. */
  const Year := 31557600

  /** `valid_timestamp?`: an Integer, or a string of digits, whose value lies
      strictly between the start of 2000 and a year from now; any other
      class has no `match` (NoMethodError). */
  function ValidTimestamp(ts: Dyn, now: int): (r: Result<bool>)
    ensures r.Err? <==> !(ts.Int? || ts.Str?)
    ensures r.Err? ==> r.error == NoMethodError
    ensures r == Ok(true)
        <==> || (ts.Int? && EarliestTime < ts.i < now + Year)
             || (ts.Str? && ts.s != [] && AllDigits(ts.s) && EarliestTime < DigitsValue(ts.s) < now + Year)
  {
    match ts
    case Int(i) => Ok(EarliestTime < i < now + Year)
    case Str(s) =>
      if s != [] && AllDigits(s) then
        StrToIOfDigits(s);
        Ok(EarliestTime < StrToI(s) < now + Year)
      else Ok(false)
    case _ => Err(NoMethodError)
  }

  /** The class `[\d\.e]` of values. */
  predicate IsValueChar(c: char) { IsDigit(c) || c == '.' || c == 'e' }

  /** `valid_value?`: an Integer or a Float, or a non-empty string of digits,
      '.' and 'e'; `nil` (a missing column) has no `match`. */
  function ValidValue(value: Dyn): (r: Result<bool>)
    ensures r.Err? <==> !(value.Int? || value.Float? || value.Str?)
    ensures r.Err? ==> r.error == NoMethodError
    ensures r == Ok(true) <==> value.Int? || value.Float? || (value.Str? && value.s != [] && forall i :: 0 <= i < |value.s| ==> IsValueChar(value.s[i]))
  {
    if value.Int? || value.Float? then Ok(true)
    else if value.Str? then Ok(value.s != [] && AllOf(value.s, IsValueChar))
    else Err(NoMethodError)
  }

  /** A value string passes with no sign: it is one wire word. */
  lemma PassingValueIsWord(s: string)
    requires ValidValue(Str(s)) == Ok(true)
    ensures IsWord(s) && NoSpace(s) && s[0] != '-' && s[0] != '+'
  {
    assert IsValueChar(s[0]);
    assert ' ' !in s by {
      forall i | 0 <= i < |s| ensures s[i] != ' ' { assert IsValueChar(s[i]); }
    }
    assert '"' !in s by {
      forall i | 0 <= i < |s| ensures s[i] != '"' { assert IsValueChar(s[i]); }
    }
    forall i | 0 <= i < |s| ensures !IsSpace(s[i]) { assert IsValueChar(s[i]); }
  }

  // ---------------------------------------------------------------------------
  // process_line: reading the columns

  /** The command's options: the metric prefix (`''` without one), the source
      (the host option, or the local host name), the point tags as key/value
      pairs, and no-op mode. */
  datatype Opts = Opts(prefix: string, source: string, tags: seq<(string, string)>, noop: bool)

  /** What a line gives: the fields of the proxy line and the raw tag column
      it carries, if any. */
  datatype Emitted = Emitted(metric: string, value: string, ts: int, source: string, column: Option<string>)

  /** `chunks[fmt.index(c)]`: `nil` (None) past the end. */
  function At(chunks: seq<string>, fmt: string, c: char): Option<string>
    requires c in fmt
  {
    if IndexOf(fmt, c) < |chunks| then Some(chunks[IndexOf(fmt, c)]) else None
  }

  function DynOf(o: Option<string>): Dyn { if o.Some? then Str(o.value) else Nil }

  /** `"#{x}"` of a string or `nil`. */
  function OrEmpty(o: Option<string>): string { if o.Some? then o.value else "" }

  /** The timestamp of a line: the current time without a 't' column, and
      `parse_time` of the column with one. */
  function LineTime(chunks: seq<string>, fmt: string, now: int, parse: string -> Option<int>): Result<int>
  {
    if 't' in fmt then ParseTime(DynOf(At(chunks, fmt, 't')), parse) else Ok(now)
  }

  /** The metric of a line: `prefix.m` with a prefix, `m` without one, and
      the prefix alone when the format has no 'm' column. The prefix is a
      string in every case (`options[:metric] || ''`), so the "metric path"
      failure is never reached. */
  function LineMetric(chunks: seq<string>, fmt: string, prefix: string): (r: string)
    ensures 'm' in fmt ==>
              var m := OrEmpty(At(chunks, fmt, 'm'));
              r == (if prefix == [] then m else prefix + "." + m)
    ensures 'm' !in fmt ==> r == prefix
  {
    if 'm' in fmt then
      var m := OrEmpty(At(chunks, fmt, 'm'));
      if prefix == [] then m
      else
        assert [prefix, m] == [prefix] + [m];
        JoinCons(prefix, [m], ".");
        Join([prefix, m], ".")
    else prefix
  }

  /** The checks and defaults of `process_line` (lines 73-124): None where the
      source warns and returns false. The tag column is left empty here. */
  function Fields(l: string, fmt: string, opts: Opts, now: int, parse: string -> Option<int>): (r: Option<Emitted>)
    ensures !ValidLine(l, fmt) || 'v' !in fmt ==> r.None?
    ensures r.Some? ==> ValidValue(Str(r.value.value)) == Ok(true)
    ensures r.Some? ==> EarliestTime < r.value.ts < now + Year
    ensures r.Some? && 't' !in fmt ==> r.value.ts == now
    ensures r.Some? && 's' !in fmt ==> r.value.source == opts.source
    ensures r.Some? && 'm' !in fmt ==> r.value.metric == opts.prefix
    ensures r.Some? ==> r.value.column.None?
    ensures r.Some? ==> 'v' in fmt && At(SplitWs(l, |fmt|), fmt, 'v') == Some(r.value.value)
    ensures r.Some? && 'm' in fmt ==>
              var m := OrEmpty(At(SplitWs(l, |fmt|), fmt, 'm'));
              r.value.metric == (if opts.prefix == [] then m else opts.prefix + "." + m)
    ensures r.Some? && 't' in fmt ==> ParseTime(DynOf(At(SplitWs(l, |fmt|), fmt, 't')), parse) == Ok(r.value.ts)
    ensures r.Some? && 's' in fmt ==> r.value.source == OrEmpty(At(SplitWs(l, |fmt|), fmt, 's'))
    ensures ValidLine(l, fmt) && 'v' in fmt && ValidValue(DynOf(At(SplitWs(l, |fmt|), fmt, 'v'))) != Ok(true) ==> r.None?
    ensures ValidLine(l, fmt) && 't' in fmt && ParseTime(DynOf(At(SplitWs(l, |fmt|), fmt, 't')), parse).Err? ==> r.None?
    ensures var chunks := SplitWs(l, |fmt|);
            && ValidLine(l, fmt) && 'v' in fmt
            && ValidValue(DynOf(At(chunks, fmt, 'v'))) == Ok(true)
            && LineTime(chunks, fmt, now, parse).Ok?
            && EarliestTime < LineTime(chunks, fmt, now, parse).value < now + Year
            ==> r.Some?
  {
    var chunks := SplitWs(l, |fmt|);
    if !ValidLine(l, fmt) || 'v' !in fmt then None
    else
      var value := At(chunks, fmt, 'v');
      if ValidValue(DynOf(value)) != Ok(true) then None
      else
        match LineTime(chunks, fmt, now, parse)
        case Err(_) => None
        case Ok(ts) =>
          if ValidTimestamp(Int(ts), now) != Ok(true) then None
          else
            var source := if 's' in fmt then OrEmpty(At(chunks, fmt, 's')) else opts.source;
            Some(Emitted(LineMetric(chunks, fmt, opts.prefix), value.value, ts, source, None))
  }

  /** The tag column as the code reads it: `chunks[3]`, the fourth column,
      whatever the format. */
  function FourthColumn(chunks: seq<string>): Option<string>
  {
    if |chunks| > 3 then Some(chunks[3]) else None
  }

  /** `process_line` as written: the tag column is `chunks[3]`. */
  function DecodeAsWritten(l: string, fmt: string, opts: Opts, now: int, parse: string -> Option<int>): (r: Option<Emitted>)
    ensures r.Some? <==> Fields(l, fmt, opts, now, parse).Some?
  {
    match Fields(l, fmt, opts, now, parse)
    case None => None
    case Some(e) => Some(e.(column := FourthColumn(SplitWs(l, |fmt|))))
  }

  /** `process_line` with the tag column where the format puts it: at the
      position of its 'T', which a valid format has last. */
  function Decode(l: string, fmt: string, opts: Opts, now: int, parse: string -> Option<int>): (r: Option<Emitted>)
    ensures r.Some? <==> Fields(l, fmt, opts, now, parse).Some?
    ensures r.Some? ==> (r.value.column.Some? ==> 'T' in fmt)
  {
    match Fields(l, fmt, opts, now, parse)
    case None => None
    case Some(e) => Some(e.(column := if 'T' in fmt then At(SplitWs(l, |fmt|), fmt, 'T') else None))
  }

  // ---------------------------------------------------------------------------
  // process_line: the proxy line

  function ColumnField(column: Option<string>): seq<string>
  {
    if column.Some? then [column.value] else []
  }

  /** `[metric, value, ts.to_i, "source=#{source}"].join(' ')`, then the tag
      column and then each option tag as ` k="v"`: one space between
      fields. */
  function RenderedLine(e: Emitted, tags: seq<(string, string)>): string
  {
    Join([e.metric, e.value, IntToString(e.ts), "source=" + e.source] + ColumnField(e.column) + TagTokens(tags), " ")
  }

  /** Lines 130-133: the line built by appending to a string. */
  method Render(e: Emitted, tags: seq<(string, string)>) returns (line: string)
    ensures line == RenderedLine(e, tags)
  {
    var fields := [e.metric, e.value, IntToString(e.ts), "source=" + e.source];
    var head := fields + ColumnField(e.column);
    line := Join(fields, " ");
    if e.column.Some? {
      JoinSnoc(fields, e.column.value, " ");
      line := line + " " + e.column.value;
    } else {
      assert head == fields;
    }
    assert head + TagTokens(tags[..0]) == head;
    for i := 0 to |tags|
      invariant line == Join(head + TagTokens(tags[..i]), " ")
    {
      assert TagTokens(tags[..i + 1]) == TagTokens(tags[..i]) + [TagToken(tags[i])];
      assert head + TagTokens(tags[..i + 1]) == (head + TagTokens(tags[..i])) + [TagToken(tags[i])];
      JoinSnoc(head + TagTokens(tags[..i]), TagToken(tags[i]), " ");
      line := line + " " + TagToken(tags[i]);
    }
    assert tags[..|tags|] == tags;
  }

  /** A proxy line made of word fields, a tag column that is itself a run of
      `k="v"` tokens (or none) and readable option tags reads back as its
      point, the column's tags before the option tags. */
  lemma RenderedLineReadsBack(e: Emitted, columnTags: Option<seq<(string, string)>>, tags: seq<(string, string)>)
    requires IsWord(e.metric) && IsWord(e.value) && ' ' !in e.source && '"' !in e.source
    requires ColumnField(e.column) == Batch.GlobalTagFields(columnTags)
    requires columnTags.Some? ==> AllReadable(columnTags.value)
    requires AllReadable(tags)
    ensures ParseLine(RenderedLine(e, tags))
         == Some(Line(e.metric, e.value, Some(e.ts), e.source,
                      (if columnTags.Some? then columnTags.value else []) + tags))
  {
    var ct := if columnTags.Some? then columnTags.value else [];
    var head := [e.metric, e.value] + TsTokens(Some(e.ts)) + ["source" + "=" + e.source];
    var fields := head + Batch.GlobalTagFields(columnTags) + TagTokens(tags);
    assert RenderedLine(e, tags) == Join(fields, " ") by {
      assert "source" + "=" + e.source == "source=" + e.source;
      assert [e.metric, e.value, IntToString(e.ts), "source=" + e.source] == head;
    }
    assert Tokens(Join(fields, " ")) == head + TagTokens(ct + tags) by {
      assert IsWord(IntToString(e.ts));
      assert IsWord("source" + "=" + e.source);
      assert forall i :: 0 <= i < |head| ==> IsWord(head[i]);
      Batch.GlobalTagField(columnTags);
      TagTokensReadBack(tags);
      Batch.EncodedTokens(head, Batch.GlobalTagFields(columnTags), TagTokens(tags), ct, tags);
    }
    ParseTokensOf(e.metric, e.value, Some(e.ts), "source", e.source, ct + tags);
  }

  // ---------------------------------------------------------------------------
  // The tag column of an `mvT` line

  /** Tags a column can hold and a proxy can read back. */
  predicate ColumnTag(tag: (string, string)) { IsLowerName(tag.0) && '"' !in tag.1 }

  lemma ColumnTagsReadable(ct: seq<(string, string)>)
    requires forall i :: 0 <= i < |ct| ==> ColumnTag(ct[i])
    ensures AllReadable(ct)
  {
    forall i | 0 <= i < |ct| ensures Readable(ct[i]) {
      LowerNameIsToken(ct[i].0);
      assert forall k :: 0 <= k < |ct[i].0| ==> IsNameChar(ct[i].0[k]);
    }
  }

  /** The text of a non-empty tag list starts with the first key's first
      character, which is no whitespace. */
  lemma TagTextStart(ct: seq<(string, string)>)
    requires ct != [] && forall i :: 0 <= i < |ct| ==> ColumnTag(ct[i])
    ensures TagText(ct) != [] && !IsSpace(TagText(ct)[0])
  {
    var k := ct[0].0;
    assert IsNameChar(k[0]);
    assert TagToken(ct[0])[0] == k[0];
    JoinHead(TagTokens(ct), " ");
  }

  /** A string that starts with no whitespace has a first word. */
  lemma SomeWord(s: string)
    requires s != [] && !IsSpace(s[0])
    ensures |Words(s)| >= 1
  {
    assert SpaceRunEnd(s, 0) == 0;
    assert s[0..] == s;
  }

  /** The columns of `m v k="v" ...` under the format `mvT`. */
  lemma MvtColumns(m: string, v: string, ct: seq<(string, string)>)
    requires m != [] && NoSpace(m) && ValidValue(Str(v)) == Ok(true)
    requires ct != [] && forall i :: 0 <= i < |ct| ==> ColumnTag(ct[i])
    ensures var l := m + " " + v + " " + TagText(ct);
            SplitWs(l, 3) == [m, v, TagText(ct)] && ValidLine(l, "mvT")
  {
    PassingValueIsWord(v);
    TagTextStart(ct);
    var t := TagText(ct);
    var l := m + " " + v + " " + t;
    assert SplitWs(l, 3) == [m, v, t] by {
      SplitThreeColumns(m, v, t);
    }
    assert |Words(l)| >= 3 by {
      SomeWord(t);
      WordsOfTwoAndRest(m, v, t);
    }
    assert 'T' in "mvT" && |"mvT"| == 3;
  }

  /** Under the format `mvT` with no prefix, `m v k="v"` is read as metric
      `m`, value `v`, the current time and the configured source; the code as
      written finds no tag column (there is no `chunks[3]`), the corrected
      reading finds the third column. */
  lemma MvtDecodes(m: string, v: string, ct: seq<(string, string)>, opts: Opts, now: int, parse: string -> Option<int>)
    requires m != [] && NoSpace(m) && ValidValue(Str(v)) == Ok(true)
    requires ct != [] && forall i :: 0 <= i < |ct| ==> ColumnTag(ct[i])
    requires opts.prefix == [] && EarliestTime < now
    ensures var l := m + " " + v + " " + TagText(ct);
            && DecodeAsWritten(l, "mvT", opts, now, parse) == Some(Emitted(m, v, now, opts.source, None))
            && Decode(l, "mvT", opts, now, parse) == Some(Emitted(m, v, now, opts.source, Some(TagText(ct))))
  {
    MvtColumns(m, v, ct);
    assert IndexOf("mvT", 'v') == 1 && IndexOf("mvT", 'm') == 0 && IndexOf("mvT", 'T') == 2;
  }

  /** The tag column of an `mvT` line is dropped by the code as written: the
      proxy line carries only the option tags. */
  lemma MvtTagsLostAsWritten(m: string, v: string, ct: seq<(string, string)>, opts: Opts, now: int, parse: string -> Option<int>)
    requires m != [] && NoSpace(m) && '"' !in m && ValidValue(Str(v)) == Ok(true)
    requires ct != [] && forall i :: 0 <= i < |ct| ==> ColumnTag(ct[i])
    requires opts.prefix == [] && EarliestTime < now
    requires ' ' !in opts.source && '"' !in opts.source && AllReadable(opts.tags)
    ensures var d := DecodeAsWritten(m + " " + v + " " + TagText(ct), "mvT", opts, now, parse);
            d.Some? && ParseLine(RenderedLine(d.value, opts.tags)) == Some(Line(m, v, Some(now), opts.source, opts.tags))
  {
    MvtDecodes(m, v, ct, opts, now, parse);
    PassingValueIsWord(v);
    assert ' ' !in m by { assert forall i :: 0 <= i < |m| ==> !IsSpace(m[i]); }
    RenderedLineReadsBack(Emitted(m, v, now, opts.source, None), None, opts.tags);
    assert [] + opts.tags == opts.tags;
  }

  /** With the tag column read where the format puts it, the proxy line of
      an `mvT` line carries the column's tags followed by the option tags. */
  lemma MvtTagsKept(m: string, v: string, ct: seq<(string, string)>, opts: Opts, now: int, parse: string -> Option<int>)
    requires m != [] && NoSpace(m) && '"' !in m && ValidValue(Str(v)) == Ok(true)
    requires ct != [] && forall i :: 0 <= i < |ct| ==> ColumnTag(ct[i])
    requires opts.prefix == [] && EarliestTime < now
    requires ' ' !in opts.source && '"' !in opts.source && AllReadable(opts.tags)
    ensures var d := Decode(m + " " + v + " " + TagText(ct), "mvT", opts, now, parse);
            d.Some? && ParseLine(RenderedLine(d.value, opts.tags)) == Some(Line(m, v, Some(now), opts.source, ct + opts.tags))
  {
    MvtDecodes(m, v, ct, opts, now, parse);
    PassingValueIsWord(v);
    ColumnTagsReadable(ct);
    assert ' ' !in m by { assert forall i :: 0 <= i < |m| ==> !IsSpace(m[i]); }
    RenderedLineReadsBack(Emitted(m, v, now, opts.source, Some(TagText(ct))), Some(ct), opts.tags);
  }

  // ---------------------------------------------------------------------------
  // The command

  /** The proxy lines a run over `lines` sends, the k-th line read at the
      clock second `times[k]`. */
  function Outputs(lines: seq<string>, times: seq<int>, fmt: string, opts: Opts, parse: string -> Option<int>): (r: seq<string>)
    requires |times| == |lines|
    ensures |r| <= |lines|
  {
    if lines == [] then []
    else
      var n := |lines| - 1;
      Outputs(lines[..n], times[..n], fmt, opts, parse)
      + (match Decode(lines[n], fmt, opts, times[n], parse)
         case Some(e) => [RenderedLine(e, opts.tags)]
         case None => [])
  }

  lemma OutputsStep(lines: seq<string>, times: seq<int>, i: nat, fmt: string, opts: Opts, parse: string -> Option<int>)
    requires |times| == |lines| && i < |lines|
    ensures Outputs(lines[..i + 1], times[..i + 1], fmt, opts, parse)
         == Outputs(lines[..i], times[..i], fmt, opts, parse)
            + (match Decode(lines[i], fmt, opts, times[i], parse)
               case Some(e) => [RenderedLine(e, opts.tags)]
               case None => [])
  {
    assert lines[..i + 1][..i] == lines[..i] && times[..i + 1][..i] == times[..i];
  }

  /** One more line handled: what it sent joins what the lines before it sent. */
  lemma ProcessedStep(lines: seq<string>, times: seq<int>, i: nat, fmt: string, opts: Opts, parse: string -> Option<int>,
                      sends: seq<(string, bool)>, more: seq<(string, bool)>)
    requires |times| == |lines| && i < |lines|
    requires Lines(sends) == if opts.noop then [] else Outputs(lines[..i], times[..i], fmt, opts, parse)
    requires var d := Decode(lines[i], fmt, opts, times[i], parse);
             Lines(more) == if d.Some? && !opts.noop then [RenderedLine(d.value, opts.tags)] else []
    ensures Lines(sends + more) == if opts.noop then [] else Outputs(lines[..i + 1], times[..i + 1], fmt, opts, parse)
    ensures Delivered(sends + more) == Delivered(sends) + Delivered(more)
  {
    OutputsStep(lines, times, i, fmt, opts, parse);
    SendsAppend(sends, more);
  }

  class Command {
    /** `@points_sent`. */
    var pointsSent: nat
    const fmt: string
    const opts: Opts
    const sock: Socket

    /** The state `run` sets up before the first line. */
    constructor(fmt: string, opts: Opts, sock: Socket)
      ensures pointsSent == 0 && this.fmt == fmt && this.opts == opts && this.sock == sock
    {
      this.fmt := fmt;
      this.opts := opts;
      this.sock := sock;
      pointsSent := 0;
    }

    /** `send_metric`: nothing in no-op mode; otherwise one `puts`, and one
        more point counted when it did not raise. */
    method SendMetric(metric: string) returns (ghost sends: seq<(string, bool)>)
      modifies this, sock
      ensures sock.log == old(sock.log) + sends
      ensures Lines(sends) == if opts.noop then [] else [metric]
      ensures pointsSent == old(pointsSent) + Delivered(sends)
      ensures opts.noop ==> sock.script == old(sock.script)
    {
      if opts.noop {
        return [];
      }
      var delivered := sock.Puts(metric);
      sends := [(metric, delivered)];
      LogAppend([], (metric, delivered));
      if delivered {
        pointsSent := pointsSent + 1;
      }
    }

    /** `process_line` with the tag column read where the format puts it:
        false and nothing sent for a line that fails a check, the proxy line
        sent otherwise. */
    method ProcessLine(l: string, now: int, parse: string -> Option<int>) returns (ok: bool, ghost sends: seq<(string, bool)>)
      modifies this, sock
      ensures ok <==> Decode(l, fmt, opts, now, parse).Some?
      ensures sock.log == old(sock.log) + sends
      ensures Lines(sends) == if ok && !opts.noop then [RenderedLine(Decode(l, fmt, opts, now, parse).value, opts.tags)] else []
      ensures pointsSent == old(pointsSent) + Delivered(sends)
    {
      var d := Decode(l, fmt, opts, now, parse);
      if d.None? {
        return false, [];
      }
      var line := Render(d.value, opts.tags);
      sends := SendMetric(line);
      ok := true;
    }

    /** The loop of `run` and `process_filedata` over the input lines, the
        k-th read at `times[k]`: the proxy receives exactly the lines of the
        points that pass, in order (none in no-op mode), and the counter
        grows by those delivered. */
    method ProcessLines(lines: seq<string>, times: seq<int>, parse: string -> Option<int>) returns (ghost sends: seq<(string, bool)>)
      requires |times| == |lines|
      modifies this, sock
      ensures sock.log == old(sock.log) + sends
      ensures Lines(sends) == if opts.noop then [] else Outputs(lines, times, fmt, opts, parse)
      ensures pointsSent == old(pointsSent) + Delivered(sends)
    {
      sends := [];
      ghost var start := sock.log;
      for i := 0 to |lines|
        invariant sock.log == start + sends
        invariant Lines(sends) == if opts.noop then [] else Outputs(lines[..i], times[..i], fmt, opts, parse)
        invariant pointsSent == old(pointsSent) + Delivered(sends)
      {
        var _, more := ProcessLine(lines[i], times[i], parse);
        ProcessedStep(lines, times, i, fmt, opts, parse, sends, more);
        ConcatAssoc(start, sends, more);
        sends := sends + more;
      }
      assert lines[..|lines|] == lines && times[..|times|] == times;
    }
  }
}
