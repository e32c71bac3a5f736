# Wavefront data-point submission, modelled in Dafny

This project models the data-point submission path of the Wavefront Ruby
client. Points are checked against Wavefront's wire rules: a lower-case
`[a-z0-9-_.]` path and source under 1024 characters, a numeric value, a
Time or Date timestamp, and tags whose key and value together stay under 254
characters. Good points are turned into the text line
`path value [epoch-seconds] source=host k="v" ...` and handed to a proxy
socket, and each point is counted as sent, rejected or unsent.

Beside the `BatchWriter`, the model covers the other writers of the
repository:

- the single-point `Writer`, with its `host=` line;
- the `write`, `write file` and `ingest` commands;
- the time-bucket aggregator of `ingest`, which buffers points per clock
  second and flushes when the second changes;
- the helpers of `Mixins`;
- the Graphite, Highcharts and event-duration reshaping of query results.

Files, one module each:

- `ruby.dfy` (`Ruby`): Ruby values as a `Dyn` datatype, and the exceptions
  as an `Error` datatype with a `Result` wrapper.
- `text.dfy` (`Text`): `Array#join`, `String#split` on a character and on
  whitespace (with and without a limit), `squeeze`, `Integer#to_s` and
  `String#to_i`.
- `wire.dfy` (`Wire`): a reader for the line format, as a proxy tokenizes it.
  Every line encoder is proved against it: what the encoder writes, the
  reader reads back.
- `proxy.dfy` (`Proxy`): the proxy socket. Whether `puts` succeeds is a
  script of outcomes, and the socket keeps a log of every line with its
  outcome.
- `validators.dfy` (`Validators`): `lib/wavefront/validators.rb`, including
  the copies in `batch_writer.rb` and `mixins.rb`.
- `batch_writer.dfy` (`Batch`): `lib/wavefront/batch_writer.rb`.
- `ingest_cli.dfy` (`Ingest`): `lib/wavefront/cli/ingest.rb`.
- `batch_write_cli.dfy` (`BatchCli`): `lib/wavefront/cli/batch_write.rb`.
- `mixins.dfy` (`Mixins`): `lib/wavefront/mixins.rb`.
- `writer.dfy` (`Writer`): `lib/wavefront/writer.rb`.
- `write_cli.dfy` (`WriteCli`): `lib/wavefront/cli/write.rb`.
- `response.dfy` (`Response`): `lib/wavefront/response.rb`.

State that the source changes in place is held by classes:

- `Batch.BatchWriter` has the three counters.
- `Ingest.Aggregator` has `@buffer`, `@last_buffer_time` and a ghost log of
  the `Ingest#write` calls.
- `BatchCli.Command` has `@points_sent`.
- `Response.Highcharts` amends its series in place.
- `Proxy.Socket` is the connection.

Each loop of the source that updates state (the counters, the buffer, an
array built up point by point) is a method with invariants, proved against
a function that specifies it. For example, `Batch.BatchWriter.WriteAll` is
proved against `Batch.Run`, and `Ingest.Aggregator.WriteFromStdin` against
`Ingest.Groups`. The loops that only test or transform each element, such
as the `each` of `valid_tags?` and the `map`s of `prep_tags`,
`tag_hash_to_str` and `hash_to_qs`, are recursive functions.

The clock (`Time.now`) is a parameter. So are the local host name and the
verdict of `DateTime.parse`.

Behaviour of the code the model keeps:

- `write` given something that is neither a hash nor a list raises
  NoMethodError, from `points.each`. It does not add to `rejected`.
- `write` rescues only the five validation exceptions. A point that passes
  `novalidate` but lacks a key raises ArgumentError from `hash_to_wf`. A Date
  timestamp has no `to_i`, so it raises NoMethodError. Both escape `write`,
  and the counters keep what the earlier points did.
- `write_from_stdin` always ends with one flush. When no line was accepted,
  that flush sends an empty buffer with a nil time. It is never skipped.
- The exception classes of `exception.rb` derive from `::Exception`, not
  from `StandardError`, so a bare `rescue` does not catch them.

Oddities of the code are kept as written:

- `cli/ingest.rb` rescues a non-existent `InvalidValue`. Its `valid_value?`
  is only ever given a Float, which never fails, so that clause is never
  evaluated.
- `cli/write.rb` checks `valid_host?` on the symbols `:proxy` and `:host`,
  not on the option values, so the check always passes.
- `valid_format?` in `cli/batch_write.rb` refuses an 's' column, although
  `process_line` looks for one. The model keeps both.
- A point whose `tags` key holds an empty hash still adds an empty field.
  Without global tags its line then ends in a space; with `options[:tags]`
  set, the empty field becomes a double space before the global tags.
- Point tags and global tags are concatenated without removing duplicate
  keys.

## Model

| member | source | states |
|---|---|---|
| `Validators.ValidPath` | lib/wavefront/validators.rb:30-35 | passes exactly for a String of `[a-z0-9-_.]` that is non-empty and shorter than 1024; otherwise fails with InvalidMetricName |
| `Validators.ValidSource` | lib/wavefront/validators.rb:10-19 | the same rule as the path, failing with InvalidSource |
| `Validators.ValidValue` | lib/wavefront/validators.rb:37-40 | passes exactly for Integer and Float values; otherwise fails with InvalidMetricValue |
| `Validators.ValidTs` | lib/wavefront/validators.rb:42-47 | passes exactly for Time, Date and DateTime values; otherwise fails with InvalidTimestamp |
| `Validators.ValidTags` | lib/wavefront/validators.rb:49-59 | passes exactly when every pair has a key of `[a-z0-9-_.]` and a key length plus value length under 254; otherwise fails with InvalidTag |
| `Validators.ValidString` | lib/wavefront/validators.rb:21-28 | true exactly for strings made of word characters, '-', ' ', '.' and ',', the empty string included |
| `Validators.PathLengthLimit` | lib/wavefront/validators.rb:30-35 | a run of n letters is a valid path exactly when 0 < n < 1024: 1023 pass and 1024 fail |
| `Validators.PathRules` | lib/wavefront/validators.rb:30-35 | the empty string, upper case, punctuation such as `()<> ` and any non-String fail with InvalidMetricName |
| `Validators.PathExample` | lib/wavefront/validators.rb:30-35 | a path of letters, digits, '.', '_' and '-' passes |
| `Validators.ValueRules` | lib/wavefront/validators.rb:37-40 | every String fails, numeric-looking or not; Integers and Floats pass |
| `Validators.TimestampRules` | lib/wavefront/validators.rb:42-47 | an integer epoch and a String fail; Time and Date pass |
| `Validators.TagRules` | lib/wavefront/validators.rb:49-59 | the empty hash passes, values may hold spaces and symbols, and one bad key or overlong pair anywhere fails the whole hash |
| `Validators.PlainTextRules` | lib/wavefront/validators.rb:21-28 | the empty string passes, and a double quote anywhere fails |
| `Validators.LowerNameIsToken` | lib/wavefront/validators.rb:30-35 | a valid name holds no whitespace, no double quote and no '=', so it is one wire token |
| `Batch.ValidPoint` | lib/wavefront/batch_writer.rb:72-84 | passes exactly when `novalidate` is set or the point is well formed; any failure is a rescued validation kind or NoMethodError |
| `Batch.ValidationOrder` | lib/wavefront/batch_writer.rb:77-82 | checks run in the order path, value, timestamp (only when present), source, tags, and the first failure decides the kind: a tag hash with an invalid pair fails with InvalidTag once every earlier check passed |
| `Batch.NovalidateLetsAnythingThrough` | lib/wavefront/batch_writer.rb:77 | with `novalidate` every point passes, and a point with no keys then raises ArgumentError at encoding |
| `Batch.PointWithoutValueRejected` | lib/wavefront/batch_writer.rb:53-65 | a point with a path and no value is rejected and not encoded |
| `Batch.BadTagRejected` | lib/wavefront/batch_writer.rb:82 | a tag hash with one bad pair rejects its point |
| `Batch.TagHashToStr` | lib/wavefront/batch_writer.rb:138-146 | '' for anything but a hash; for a hash, the text reads back as exactly its `k="v"` pairs in order |
| `Batch.HashToWf` | lib/wavefront/batch_writer.rb:121-136 | ArgumentError exactly when `path`, `value` or `source` is missing; otherwise only NoMethodError (timestamp without `to_i`) or TypeError (non-String source) can fail |
| `Batch.EncodedFields` | lib/wavefront/batch_writer.rb:130-135 | an encoded point is its path, value, whole seconds (if any), `source=`, point tags and global tags, joined by single spaces |
| `Batch.HashToWfReadsBack` | lib/wavefront/batch_writer.rb:121-146 | a valid point's line reads back as its path, value, whole seconds, source, and its point tags followed by the global tags |
| `Batch.EncodingOfFullPoint` | lib/wavefront/batch_writer.rb:130-135 | the layout of a point with every field: path, value, seconds, `source=`, then the tag text |
| `Batch.EncodingWithGlobalTags` | lib/wavefront/batch_writer.rb:130-135 | without a timestamp the field is left out, and global tags follow the point's own |
| `Batch.EncodingErrors` | lib/wavefront/batch_writer.rb:127-132 | a hash without the required keys raises ArgumentError; a non-String source raises TypeError |
| `Batch.DecideCases` | lib/wavefront/batch_writer.rb:53-67 | a point is rejected exactly when validation raises a rescued kind, and emitted as its encoding exactly when it validates and encodes |
| `Batch.RunMeaning` | lib/wavefront/batch_writer.rb:53-68 | the walk keeps point k's decision at position k and stops at the first point whose exception escapes |
| `Batch.RunStopsAtFailure` | lib/wavefront/batch_writer.rb:53-68 | once an exception escapes, later points change nothing |
| `Batch.EveryDecisionCounted` | lib/wavefront/batch_writer.rb:53-68 | every point is either rejected or encoded: rejections plus encoded lines equal the number of points |
| `Batch.GlobalTags` | lib/wavefront/batch_writer.rb:31-34 | the `tags` option is accepted exactly when it is falsy or a hash of valid pairs; a hash with a bad pair gives InvalidTag |
| `Batch.BatchWriter.constructor` | lib/wavefront/batch_writer.rb:25-35 | a new writer has sent, rejected and unsent at zero |
| `Batch.BatchWriter.New` | lib/wavefront/batch_writer.rb:25-35 | construction fails exactly when the `tags` option fails; otherwise every counter is zero |
| `Batch.BatchWriter.SendPoint` | lib/wavefront/batch_writer.rb:148-169 | noop changes nothing; otherwise the line is logged on the socket and exactly one of sent or unsent goes up, by whether `puts` succeeded |
| `Batch.BatchWriter.Handle` | lib/wavefront/batch_writer.rb:55-67 | one point's accounting: a rejection is counted, an encoded line is sent |
| `Batch.BatchWriter.Step` | lib/wavefront/batch_writer.rb:53-67 | one turn of the loop keeps the accounting invariant, or ends the walk with the point's exception |
| `Batch.BatchWriter.WriteAll` | lib/wavefront/batch_writer.rb:53-68 | the loop leaves rejected raised by the rejections, the socket log holding exactly the encoded lines in order (none in noop), and sent plus unsent accounting for each line by its outcome |
| `Batch.BatchWriter.Write` | lib/wavefront/batch_writer.rb:37-70 | a single hash is a one-point list, and anything else without `each` raises NoMethodError; the result is true exactly when the cumulative rejected count is 0; when no exception escapes and noop is off, sent + unsent + rejected rise by the number of points; in noop only rejected changes |
| `Ingest.PrepTags` | lib/wavefront/cli/ingest.rb:175-184 | [] for a non-Array; otherwise at most one tag per item |
| `Ingest.PrepItemsAppend` | lib/wavefront/cli/ingest.rb:183 | `prep_tags` works item by item: the tags of two lists are the tags of each, in order |
| `Ingest.TagPieceOfPair` | lib/wavefront/cli/ingest.rb:183 | an item `k=v` is kept as (k, v) |
| `Ingest.TagPieceDropsOthers` | lib/wavefront/cli/ingest.rb:183 | an item of one piece, or of three or more, is dropped |
| `Ingest.TagPieceTrailingSeparator` | lib/wavefront/cli/ingest.rb:183 | `k=` is dropped and `k=v=` is kept, because split drops trailing empty pieces |
| `Ingest.ToHash` | lib/wavefront/cli/ingest.rb:101 | `Hash[pairs]` holds exactly the pairs' keys |
| `Ingest.ToHashLastWins` | lib/wavefront/cli/ingest.rb:101 | a key's value is that of its last pair |
| `Ingest.ValidMetric` | lib/wavefront/cli/ingest.rb:158-173 | passes or fails with InvalidMetricName only |
| `Ingest.ValidMetricIff` | lib/wavefront/cli/ingest.rb:158-173 | passes exactly for names of `[A-Za-z0-9_.-]`, shorter than 1024, with a '.' followed later by another character (more than one piece after split) |
| `Ingest.ValidValue` | lib/wavefront/cli/ingest.rb:145-156 | passes exactly for Numerics and strings matching one of the two number patterns; other strings give InvalidMetricValue and other objects NoMethodError |
| `Ingest.PlainNumbersPass` | lib/wavefront/cli/ingest.rb:151 | every sign, digits, optional point, digits string passes, including "", "-" and "." |
| `Ingest.PassingValueCharacters` | lib/wavefront/cli/ingest.rb:151-152 | a passing string holds only '-', '.', 'e' and digits |
| `Ingest.MetricName` | lib/wavefront/cli/ingest.rb:104-112 | the name is prefix.m, the prefix alone, or m; with neither, the command aborts |
| `Ingest.ProcessLine` | lib/wavefront/cli/ingest.rb:89-126 | {} when the column count differs from the format's; the line raises exactly when its count is right and the format lacks 'v', or has no 'm' and no prefix is set; otherwise (`Ingest.Processed`) it is {} exactly when the metric name (prefix and 'm' column joined by a dot) fails `valid_metric?`, and else that one name mapped to the value column and the tags of the last column's words plus the option tags |
| `Ingest.ProcessColumns` | lib/wavefront/cli/ingest.rb:97-126 | on columns matching the format: raises exactly when the format lacks 'v', or has no 'm' and no prefix; otherwise the result `Ingest.Processed` describes, with at most one metric, whose name passes `valid_metric?` |
| `Ingest.ProcessLineMvt` | lib/wavefront/cli/ingest.rb:89-126 | an `mvT` line with a valid metric becomes one metric with its value text and the tags of its last column plus the option tags |
| `Ingest.Groups` | lib/wavefront/cli/ingest.rb:67-78 | the reference grouping: no more groups than points, and the last group has the last point's time |
| `Ingest.GroupsChangeTime` | lib/wavefront/cli/ingest.rb:70-75 | neighbouring groups have different times, so a flush happens only when the second changes |
| `Ingest.GroupsKeepEveryPoint` | lib/wavefront/cli/ingest.rb:70-75 | merging the groups in order is merging the points in order: no point is lost, and later writes win |
| `Ingest.RunFlushesMeaning` | lib/wavefront/cli/ingest.rb:84-87 | the flushes of a whole run merge to all accepted points, and no two neighbouring flushes share a time |
| `Ingest.OfferFirst` | lib/wavefront/cli/ingest.rb:70-77 | the first point starts the buffer with its time and flushes nothing |
| `Ingest.OfferSameSecond` | lib/wavefront/cli/ingest.rb:70-71 | a point of the buffered second is merged into the buffer, last write winning |
| `Ingest.OfferNewSecond` | lib/wavefront/cli/ingest.rb:72-75 | a point of a new second flushes the old buffer once, with the old time, then the buffer is that point alone |
| `Ingest.OfferKeepsGrouping` | lib/wavefront/cli/ingest.rb:67-78 | `flush_or_buffer` keeps the state equal to the grouping of the accepted points; an empty point changes nothing |
| `Ingest.FinalFlush` | lib/wavefront/cli/ingest.rb:80-87 | the last flush completes the flushes of the grouping |
| `Ingest.Aggregator.constructor` | lib/wavefront/cli/ingest.rb:24-26 | an empty buffer, no time, nothing flushed |
| `Ingest.Aggregator.FlushBuffer` | lib/wavefront/cli/ingest.rb:80-82 | sends the buffer with the last time, once, and changes neither field |
| `Ingest.Aggregator.FlushOrBuffer` | lib/wavefront/cli/ingest.rb:67-78 | an empty point is ignored; a point of the same second (or the first) is merged; a new second flushes first; the time becomes the point's |
| `Ingest.Aggregator.Step` | lib/wavefront/cli/ingest.rb:85 | one line offered keeps the state as the grouping of the accepted points says |
| `Ingest.Aggregator.WriteFromStdin` | lib/wavefront/cli/ingest.rb:84-87 | the flushes are one per group of the accepted points, each with its time, ending with exactly one final flush; a raising line stops the run without it |
| `BatchCli.UniqUnchangedIff` | lib/wavefront/cli/batch_write.rb:143-144 | `fmt == fmt.split('').uniq.join` holds exactly when no letter repeats |
| `BatchCli.UniqKeepsCharacters` | lib/wavefront/cli/batch_write.rb:144 | `split('').uniq` keeps exactly the characters of the format |
| `BatchCli.FormatShapeIff` | lib/wavefront/cli/batch_write.rb:143 | for a format with a 'v', matching `^[mtv]+T?$` is being made of m, t and v with a 'T' only in last place |
| `BatchCli.ValidFormatIff` | lib/wavefront/cli/batch_write.rb:137-145 | a format is valid exactly when it has a 'v', repeats no letter, and is m, t and v with at most one 'T', at the end |
| `BatchCli.ValidLineOfColumns` | lib/wavefront/cli/batch_write.rb:147-166 | columns joined by spaces are a valid line exactly when their number equals the format's length, or is at least that when the format has a 'T' |
| `BatchCli.ValidTimestamp` | lib/wavefront/cli/batch_write.rb:168-177 | true exactly for an Integer or a digit string strictly between 946684800 and now + 31557600; other classes raise NoMethodError |
| `BatchCli.ValidValue` | lib/wavefront/cli/batch_write.rb:179-181 | true exactly for Integers, Floats and non-empty strings of digits, '.' and 'e'; no sign |
| `BatchCli.PassingValueIsWord` | lib/wavefront/cli/batch_write.rb:179-181 | a passing value string is one wire word with no sign |
| `BatchCli.LineMetric` | lib/wavefront/cli/batch_write.rb:111-120 | with 'm', the column after the prefix and a dot, or the column alone when the prefix is empty; without 'm', the prefix |
| `BatchCli.Fields` | lib/wavefront/cli/batch_write.rb:73-124 | no point for a line with the wrong column count or a format without 'v', nor for one whose value column fails `valid_value?` or whose 't' column `parse_time` rejects; a point's value is the value column and passes `valid_value?`, and its time lies strictly between 946684800 and now + 31557600; with 't' the time is `parse_time` of that column, without it now; with 'm' the metric is the column, after the prefix and a dot when a prefix is set, without 'm' the prefix; with 's' the source is that column, without it the configured one; and a line that passes every check (right column count, a 'v', a passing value, a time that parses and lies inside that window) always gives a point |
| `BatchCli.DecodeAsWritten` | lib/wavefront/cli/batch_write.rb:130-132 | as written: the tag column is `chunks[3]`, whatever the format |
| `BatchCli.Decode` | lib/wavefront/cli/batch_write.rb:130-132 | corrected: a tag column is read only where the format puts its 'T' |
| `BatchCli.Render` | lib/wavefront/cli/batch_write.rb:130-133 | the line is metric, value, seconds and `source=`, then the tag column, then each option tag as `k="v"`, with single spaces |
| `BatchCli.RenderedLineReadsBack` | lib/wavefront/cli/batch_write.rb:130-133 | a rendered line reads back as its point, the column's tags before the option tags |
| `BatchCli.MvtColumns` | lib/wavefront/cli/batch_write.rb:74-77 | an `m v k="v"...` line splits into three columns and is a valid `mvT` line |
| `BatchCli.MvtDecodes` | lib/wavefront/cli/batch_write.rb:73-132 | under `mvT` the line is read as metric, value, the current time and the configured source; as written with no tag column, corrected with the third |
| `BatchCli.MvtTagsLostAsWritten` | lib/wavefront/cli/batch_write.rb:132 | as written, the proxy line of an `mvT` line carries only the option tags |
| `BatchCli.MvtTagsKept` | lib/wavefront/cli/batch_write.rb:132 | corrected, the proxy line carries the column's tags and then the option tags |
| `BatchCli.Command.constructor` | lib/wavefront/cli/batch_write.rb:17-28 | the points-sent counter starts at zero |
| `BatchCli.Command.SendMetric` | lib/wavefront/cli/batch_write.rb:200-214 | noop sends and counts nothing; otherwise one `puts`, and the counter rises only when it succeeded |
| `BatchCli.Command.ProcessLine` | lib/wavefront/cli/batch_write.rb:64-135 | false and nothing sent for a line that fails a check; otherwise its rendered line is sent. The tag column is read by the corrected `BatchCli.Decode`, so for every valid format with a 'T' and fewer than four letters (`vT`, `mvT`, `tvT`, `vmT`, `vtT`) the line carries the column's tags, which the code as written drops |
| `BatchCli.Command.ProcessLines` | lib/wavefront/cli/batch_write.rb:56-62 | the proxy receives exactly the lines of the passing points, in order (none in noop), and the counter rises by those delivered. Lines are read by the corrected `BatchCli.Decode`, so every valid format with a 'T' and fewer than four letters (`vT`, `mvT`, `tvT`, `vmT`, `vtT`) keeps its tag column, which the code as written drops |
| `Mixins.InterpolateSchema` | lib/wavefront/mixins.rb:19-27 | defined exactly for a non-negative prefix length; a negative one raises ArgumentError |
| `Mixins.InterpolateSchemaInsertsHost` | lib/wavefront/mixins.rb:19-27 | split on '.', the result has the host at position min(prefix_length, parts), and removing it leaves the label's parts |
| `Mixins.InterpolateSchemaHostLast` | lib/wavefront/mixins.rb:20-26 | with a prefix length at least the number of parts, the host comes last |
| `Mixins.ParseTime` | lib/wavefront/mixins.rb:29-42 | an Integer is returned as is, a Time as its seconds, a digit string as its value; the only failure is "cannot parse timestamp" |
| `Mixins.ParseTimeOfNumeral` | lib/wavefront/mixins.rb:36 | the decimal text of an epoch time parses back to it |
| `Mixins.TimeToMs` | lib/wavefront/mixins.rb:44-50 | false for non-Integers; for an Integer, a multiple of 1000 whose quotient by 1000 is the input |
| `Mixins.UriConcatMeaning` | lib/wavefront/mixins.rb:60-62 | the result never holds "//", apart from slashes it holds the arguments' characters in order, and a "//" anywhere in the joined text gives the same result as a single '/' there, so each run of slashes leaves exactly one |
| `Text.SqueezePair` | lib/wavefront/mixins.rb:61 | `squeeze(c)` treats a doubled `c` anywhere as a single one; with `Mixins.SqueezeOfSqueezed` (a string without a doubled `c` is unchanged) this fixes its result on every string |
| `Mixins.UriConcatIdempotent` | lib/wavefront/mixins.rb:60-62 | concatenating a concatenated URI again changes nothing |
| `Mixins.PairTexts` | lib/wavefront/mixins.rb:57 | one `k=v` text per pair, in order |
| `Mixins.QueryStringReadsBack` | lib/wavefront/mixins.rb:52-58 | a query string of plain pairs splits back into those pairs, in order |
| `Writer.WriteLineFields` | lib/wavefront/writer.rb:53-61 | both branches of the assembly are one join: name, value, seconds, `host=H`, then each tag |
| `Writer.WriteLineWithoutTags` | lib/wavefront/writer.rb:53-54 | with no tags the line is exactly `name value seconds host=H` |
| `Writer.WriteLineReadsBack` | lib/wavefront/writer.rb:53-61 | the line reads back as name, value, seconds, host and tags |
| `Writer.Writer.constructor` | lib/wavefront/writer.rb:26-42 | defaults: agent host 'localhost', port 2878, the local FQDN, an empty metric name and no tags |
| `Writer.Writer.Write` | lib/wavefront/writer.rb:44-68 | the name defaults to the writer's `metric_name`; an empty name (so `Writer.new.write(1)`) raises EmptyMetricName and a timestamp without `to_i` raises NoMethodError, before anything is sent; missing host, tags or timestamp fall back to the writer's or the clock's; the line is written once unless in noop |
| `WriteCli.SourcesAreHosts` | lib/wavefront/cli/write.rb:46-51 | every valid source is a valid host name |
| `WriteCli.ValidValue` | lib/wavefront/cli/write.rb:53-60 | a passing value is a sign and digits, with no leading zero unless it is "0"; failure is InvalidMetricValue |
| `WriteCli.ValidValueIff` | lib/wavefront/cli/write.rb:59 | a value passes exactly when some integer renders as it |
| `WriteCli.ValidMetric` | lib/wavefront/cli/write.rb:62-75 | passes or fails with InvalidMetricName only |
| `WriteCli.ValidMetricIff` | lib/wavefront/cli/write.rb:62-75 | passes exactly for a String of `[A-Za-z0-9_.-]` with a '.' followed later by another character |
| `WriteCli.ValidMetricAgreesWithIngest` | lib/wavefront/cli/write.rb:62-75 | the same rule as the ingest command's, without its length bound |
| `WriteCli.PrepTags` | lib/wavefront/cli/write.rb:36-39 | [] for a non-Array; otherwise one split item per item, none dropped |
| `WriteCli.ItemPair` | lib/wavefront/cli/write.rb:38 | `k=v` gives (k, v), `k` gives (k, ""), `k=v=w` gives (k, v) |
| `WriteCli.IngestKeepsTwoPieceItems` | lib/wavefront/cli/ingest.rb:175-184 | the ingest version keeps exactly the two-piece items, so it keeps every item exactly when all have two pieces |
| `WriteCli.Run` | lib/wavefront/cli/write.rb:12-44 | checks in order value, metric, time, each failure with its own exception; a passing run writes the value as given (its `to_i` renders back to it), at the `--time` second or the clock's, with the `--host` name or the local one and every tag, and nothing in noop |
| `WriteCli.RunReadsBack` | lib/wavefront/cli/write.rb:12-44 | a point the command sends reads back as its metric, value, time, host and tags |
| `Response.SwappedTwice` | lib/wavefront/response.rb:70-72 | turning the datapoints round twice gives them back |
| `Response.SwappedAt` | lib/wavefront/response.rb:70-72 | the k-th output datapoint is the k-th input one turned round |
| `Response.Datapoints` | lib/wavefront/response.rb:69-73 | the loop turns every `[t, v]` into `[v, t]`, keeping count and order |
| `Response.Graphite` | lib/wavefront/response.rb:59-77 | one target per series, in order, named by `interpolate_schema` with prefix length 1 by default, with its datapoints turned round; a negative prefix length raises ArgumentError exactly when there is a series |
| `Response.Amend` | lib/wavefront/response.rb:98-102 | a datapoint keeps its value; a time is multiplied by 1000, and nil becomes "null" |
| `Response.AmendAgreesWithTimeToMs` | lib/wavefront/response.rb:99 | the amended time is what `time_to_ms` gives, and divides back to the seconds |
| `Response.AmendedKeepsValues` | lib/wavefront/response.rb:97-104 | every amended datapoint keeps its value |
| `Response.ChartsCount` | lib/wavefront/response.rb:90-106 | one chart per series with data; when every series has data, chart i carries series i's label and one datapoint fewer |
| `Response.AmendSeries` | lib/wavefront/response.rb:96-104 | the first datapoint is kept as is, every later one is amended in place, and the amended ones are collected |
| `Response.Highcharts.constructor` | lib/wavefront/response.rb:84-106 | the charts are those of the series with data, and the series are left amended in place |
| `Response.HighchartsStep` | lib/wavefront/response.rb:90-106 | one series handled extends both the amended series and the charts |
| `Response.DurationText` | lib/wavefront/response.rb:192-206 | "inst" for a zero duration, "" for a negative one |
| `Response.Digits` | lib/wavefront/response.rb:202-205 | at most one part per unit, each below its unit's base and labelled with its suffix |
| `Response.ShownParts` | lib/wavefront/response.rb:206 | `reverse[0..1]` is the last two parts, the highest unit first |
| `Response.FormatEventDuration` | lib/wavefront/response.rb:192-206 | the text of the whole-second duration `(te - ts) / 1000`, floor division |
| `Response.DurationParts` | lib/wavefront/response.rb:202-205 | the loop over s, m, h and d records each remainder with its unit while the duration stays positive |
| `Response.DurationShowsHighestParts` | lib/wavefront/response.rb:206 | at most two parts are shown, the largest unit first, joined by one space |
| `Response.DurationIsMixedRadix` | lib/wavefront/response.rb:202-205 | below 1000 days the parts are the seconds, minutes, hours and days of the duration: they add up to it, each is below its base, and the highest is not zero |

## Left out

- Socket open and close (`TCPSocket.new`, `close`), and the InvalidEndpoint
  raised when a connection fails. Each writer is given a connection whose
  `puts` outcomes are a script.
- The HTTP clients (`Wavefront::Ingest` and the other API classes). An
  `Ingest#write` made by the aggregator is an entry in a ghost log of
  (buffer, time) pairs.
- `write_from_file` in `cli/ingest.rb`, the single-point branch of its `run`,
  and `write_metric`. They are one `merge!` of lines and one API call.
- The console output: verbose, debug, warning and no-op messages.
- `Time.now`, `hostname -f`, `Socket.gethostname` and the `DateTime.parse`
  branch of `parse_time`. These are parameters.
- `URI.escape` in `hash_to_qs`. The model stops at the joined query string.
- Floating point. A Float carries its `to_i` and its `to_s`. In the ingest
  path a value is kept as its column text, and its `to_f` is not modelled.
- Mixins.TimeToMs: the float product `(t.to_f * 1000).round` is taken as
  exact, so large integers whose product rounds differently are not modelled.
- Ruby's `^` and `$` are line anchors, so a string with a newline can match
  where the model's whole-string predicates do not. Every charset check is
  modelled as a whole-string match.
- Arrays of pairs given as tags. A `Dyn` has no array variant, so
  `valid_tags?` on an array of pairs, which Ruby's `each` would accept, is not
  modelled.
- `prep_tags` of `cli/batch_write.rb` is not defined in that file. The
  command's option tags are a parameter, given as key/value pairs.
- Hash key order in the ingest path. Buffers and tag hashes are Dafny maps,
  so insertion order is not kept. The batch writer's tag hashes are ordered
  pair lists, so their order is kept.
- Response::Ruby's accessor synthesis. A timeseries is a typed record with a
  label, a host and datapoints, as the JSON parser would yield them.
- Writer.Writer.Write: a failing `puts` raises in the source, which has no
  rescue there; the model logs the failed outcome and returns the line.
- Writer.Writer.Write: the `||=` fill of the caller's options hash is not
  modelled. The source writes the host name, tags and `Time.now` into that
  hash, so a hash reused for a second call keeps the first call's time;
  `initialize` fills its options hash the same way (writer.rb:31-35). The
  model takes the options by value and leaves them unchanged.
- BatchCli.Outputs: like `BatchCli.Command.ProcessLine` and
  `BatchCli.Command.ProcessLines`, it reads the tag column with the corrected
  `BatchCli.Decode`. For every valid format with a 'T' and fewer than four
  letters (`vT`, `mvT`, `tvT`, `vmT`, `vtT`) the modelled command sends the
  column's tags, which the code as written drops (see Findings).
- Batch.BatchWriter.Write: a list element that is not a Hash is not
  modelled, because a list of points holds only hashes. In the source,
  `write([5])` raises TypeError from `5[:path]` and `write([nil])` raises
  NoMethodError from `nil[:path]` in `valid_point?` (batch_writer.rb:78);
  with `novalidate`, `hash_to_wf` raises NoMethodError on `key?`
  (batch_writer.rb:127). None of these is rescued, so the walk ends there and
  the counters keep what the earlier points did.
- BatchCli.Command.ProcessLines: how `run` reads its lines is not modelled.
  The lines are a parameter. In the source, lines from standard input are
  stripped (`l.strip`, batch_write.rb:38), while lines of a file come from
  `split("\n")` unstripped (batch_write.rb:61). So a CRLF file line
  `cpu.load 1\r` under format `mv` keeps `1\r` as its value and is skipped,
  while the same line from standard input is sent.
- BatchCli.Command.constructor: the `valid_format?` raise that `run` makes
  before reading any line (batch_write.rb:14) is not part of it; the
  constructor accepts any format. `BatchCli.ValidFormat` models the check on
  its own.
- Tag values that are not Strings. A tag is a pair of strings, so the
  NoMethodError that `v.length` raises on an Integer value in `valid_tags?`
  (validators.rb:55-56), which `write` does not rescue, is not modelled.
- Ingest.ProcessLine: the value column is kept as its text, not converted by
  `to_f`, because floating point is not modelled.
- The human-readable formatting of query results and events
  (`process_timeseries`, `process_events`, `format_event_time`), the other
  commands, and profile loading.

## Findings

| source | as written | input that shows it | evidently intended | confidence | as-written member | corrected member |
|---|---|---|---|---|---|---|
| lib/wavefront/cli/batch_write.rb:132 | the tag column is `chunks[3]`, the fourth column, whatever the format | format `mvT`, line `cpu.load 1 env="prod"`: the line splits into three columns, so `chunks[3]` is nil and `env="prod"` is dropped from the proxy line | the tag column is the one at the position of the format's 'T' (line 69-71 comment: columns beyond the format are point tags) | high; not executed | `BatchCli.MvtTagsLostAsWritten` | `BatchCli.MvtTagsKept` |
