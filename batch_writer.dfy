/** `Wavefront::BatchWriter` (lib/wavefront/batch_writer.rb): validates point
    hashes, encodes the good ones as data lines, hands them to the proxy
    connection and counts what became of each point. */
module Batch {
  import opened Text
  import opened Ruby
  import opened Validators
  import opened Wire
  import opened Proxy

  /** The keys of a point hash. */
  datatype Key = PathKey | ValueKey | TsKey | SourceKey | TagsKey

  type Point = map<Key, Dyn>

  /** `point[key]`: nil when the key is absent. */
  function Get(p: Point, k: Key): Dyn
  {
    if k in p then p[k] else Nil
  }

  /** The exception kinds `write` rescues; any other escapes it. */
  predicate IsRescued(e: Error)
  {
    e == InvalidMetricName || e == InvalidMetricValue || e == InvalidTimestamp || e == InvalidSource || e == InvalidTag
  }

  // ---------------------------------------------------------------------------
  // valid_point?

  /** `valid_tags?(tags) if tags && tags.length > 0`: a hash is checked when it
      is not empty; any other truthy value either has no `length` or, as a
      String, no `each`, and raises NoMethodError, unless it is the empty
      string. */
  function TagsCheck(tags: Dyn): Outcome
  {
    if !Truthy(tags) then Pass
    else match tags
      case Hash(pairs) => if |pairs| > 0 then ValidTags(pairs) else Pass
      case Str(s) => if |s| > 0 then Fail(NoMethodError) else Pass
      case _ => Fail(NoMethodError)
  }

  /** The tags a point may carry past `valid_point?`. */
  predicate TagsOk(tags: Dyn)
  {
    !Truthy(tags) || tags == Str("") || (tags.Hash? && forall k :: 0 <= k < |tags.pairs| ==> IsValidTag(tags.pairs[k]))
  }

  /** What a point must be for `valid_point?` to return true with validation on. */
  predicate WellFormed(p: Point)
  {
    IsValidPath(Get(p, PathKey)) && IsNumeric(Get(p, ValueKey))
    && (Truthy(Get(p, TsKey)) ==> IsTimeLike(Get(p, TsKey)))
    && IsValidSource(Get(p, SourceKey)) && TagsOk(Get(p, TagsKey))
  }

  /** `valid_point?`: true at once under `novalidate`; otherwise path, value,
      timestamp (when truthy), source and tags are checked in this order and
      the first failing check raises. */
  function ValidPoint(p: Point, novalidate: bool): (r: Outcome)
    ensures r == Pass <==> novalidate || WellFormed(p)
    ensures r.Fail? ==> IsRescued(r.error) || r.error == NoMethodError
  {
    if novalidate then Pass
    else
      var ts := Get(p, TsKey);
      AndThen(ValidPath(Get(p, PathKey)),
      AndThen(ValidValue(Get(p, ValueKey)),
      AndThen(if Truthy(ts) then ValidTs(ts) else Pass,
      AndThen(ValidSource(Get(p, SourceKey)),
              TagsCheck(Get(p, TagsKey))))))
  }

  /** The order of the checks: each failure is reported only when every
      earlier check passed. */
  lemma ValidationOrder(p: Point)
    ensures !IsValidPath(Get(p, PathKey)) ==> ValidPoint(p, false) == Fail(InvalidMetricName)
    ensures IsValidPath(Get(p, PathKey)) && !IsNumeric(Get(p, ValueKey))
            ==> ValidPoint(p, false) == Fail(InvalidMetricValue)
    ensures IsValidPath(Get(p, PathKey)) && IsNumeric(Get(p, ValueKey))
            && Truthy(Get(p, TsKey)) && !IsTimeLike(Get(p, TsKey))
            ==> ValidPoint(p, false) == Fail(InvalidTimestamp)
    ensures IsValidPath(Get(p, PathKey)) && IsNumeric(Get(p, ValueKey))
            && (Truthy(Get(p, TsKey)) ==> IsTimeLike(Get(p, TsKey))) && !IsValidSource(Get(p, SourceKey))
            ==> ValidPoint(p, false) == Fail(InvalidSource)
    ensures IsValidPath(Get(p, PathKey)) && IsNumeric(Get(p, ValueKey))
            && (Truthy(Get(p, TsKey)) ==> IsTimeLike(Get(p, TsKey))) && IsValidSource(Get(p, SourceKey))
            && Get(p, TagsKey).Hash?
            && (exists k :: 0 <= k < |Get(p, TagsKey).pairs| && !IsValidTag(Get(p, TagsKey).pairs[k]))
            ==> ValidPoint(p, false) == Fail(InvalidTag)
  {
  }

  // ---------------------------------------------------------------------------
  // hash_to_wf and tag_hash_to_str

  /** `tag_hash_to_str`: `k="v"` for each pair of a hash, in order, joined by
      single spaces; '' for anything that is not a hash. Read back, the text
      gives exactly the hash's pairs. */
  function TagHashToStr(tags: Dyn): (r: string)
    ensures !tags.Hash? ==> r == ""
    ensures tags.Hash? && AllReadable(tags.pairs) ==> Tokens(r) == TagTokens(tags.pairs) && Balanced(r)
  {
    if tags.Hash? then
      (if AllReadable(tags.pairs) then TokensOfTagText(tags.pairs); TagText(tags.pairs) else TagText(tags.pairs))
    else ""
  }

  /** The timestamp field: `p[:ts].to_i.to_s` when `:ts` is present and truthy,
      or the NoMethodError of a value without `to_i` (a Date, say). */
  function TsField(p: Point): Result<seq<string>>
  {
    if TsKey in p && Truthy(p[TsKey]) then
      match ToI(p[TsKey])
      case Ok(seconds) => Ok([IntToString(seconds)])
      case Err(e) => Err(e)
    else Ok([])
  }

  /** `hash_to_wf`: ArgumentError unless `:path`, `:value` and `:source` are
      all keys; then the fields path, value, timestamp (if any),
      `source=`+source (TypeError unless the source is a String), the point
      tags (if the key is present and truthy) and the global tags (if any),
      joined by single spaces. */
  function HashToWf(p: Point, globalTags: Option<seq<(string, string)>>): (r: Result<string>)
    ensures r == Err(ArgumentError) <==> !(PathKey in p && ValueKey in p && SourceKey in p)
    ensures r.Err? ==> r.error in {ArgumentError, NoMethodError, TypeError}
  {
    if !(PathKey in p && ValueKey in p && SourceKey in p) then Err(ArgumentError)
    else match TsField(p)
      case Err(e) => Err(e)
      case Ok(ts) =>
        if !p[SourceKey].Str? then Err(TypeError)
        else
          Ok(Join([ToS(p[PathKey]), ToS(p[ValueKey])] + ts + ["source=" + p[SourceKey].s]
                  + PointTagFields(p) + GlobalTagFields(globalTags), " "))
  }

  /** `tag_hash_to_str(p[:tags])` as a field, when the key is present and truthy. */
  function PointTagFields(p: Point): seq<string>
  {
    if TagsKey in p && Truthy(p[TagsKey]) then [TagHashToStr(p[TagsKey])] else []
  }

  /** The writer's global tags as a field, when it has some. */
  function GlobalTagFields(globalTags: Option<seq<(string, string)>>): seq<string>
  {
    if globalTags.Some? then [TagText(globalTags.value)] else []
  }

  /** The point tags a line carries: those of a hash under `:tags`. */
  function PointTags(p: Point): seq<(string, string)>
  {
    if TagsKey in p && p[TagsKey].Hash? then p[TagsKey].pairs else []
  }

  function Seconds(p: Point): Option<int>
  {
    if TsKey in p && Truthy(p[TsKey]) && ToI(p[TsKey]).Ok? then Some(ToI(p[TsKey]).value) else None
  }

  lemma {:induction false} AllTokensAppend(a: seq<string>, b: seq<string>)
    ensures AllTokens(a + b) == AllTokens(a) + AllTokens(b)
  {
    if a != [] {
      assert (a + b)[1..] == a[1..] + b;
      AllTokensAppend(a[1..], b);
    } else {
      assert a + b == b;
    }
  }

  lemma {:induction false} TagTokensAppend(a: seq<(string, string)>, b: seq<(string, string)>)
    ensures TagTokens(a + b) == TagTokens(a) + TagTokens(b)
  {
    if a != [] {
      assert (a + b)[1..] == a[1..] + b;
      TagTokensAppend(a[1..], b);
    } else {
      assert a + b == b;
    }
  }

  /** The fields every line starts with: words, each its own token. */
  lemma {:induction false} WordFields(head: seq<string>)
    requires forall i :: 0 <= i < |head| ==> IsWord(head[i])
    ensures AllTokens(head) == head
    ensures forall i :: 0 <= i < |head| ==> Balanced(head[i])
  {
    if head != [] {
      TokensOfWord(head[0]);
      WordFields(head[1..]);
    }
  }

  /** The point's own tag field, when there is one, reads back as its tags. */
  lemma PointTagField(p: Point)
    requires TagsOk(Get(p, TagsKey)) && AllReadable(PointTags(p))
    ensures AllTokens(PointTagFields(p)) == TagTokens(PointTags(p))
    ensures forall i :: 0 <= i < |PointTagFields(p)| ==> Balanced(PointTagFields(p)[i])
  {
    if TagsKey in p && Truthy(p[TagsKey]) {
      var f := [TagHashToStr(p[TagsKey])];
      assert f[1..] == [];
      if !p[TagsKey].Hash? {
        TokensOfJoin([]);
      }
    }
  }

  /** The global tag field, when there is one, reads back as the global tags. */
  lemma GlobalTagField(globalTags: Option<seq<(string, string)>>)
    requires globalTags.Some? ==> AllReadable(globalTags.value)
    ensures AllTokens(GlobalTagFields(globalTags)) == TagTokens(if globalTags.Some? then globalTags.value else [])
    ensures forall i :: 0 <= i < |GlobalTagFields(globalTags)| ==> Balanced(GlobalTagFields(globalTags)[i])
  {
    if globalTags.Some? {
      var f := [TagText(globalTags.value)];
      assert f[1..] == [];
      TokensOfTagText(globalTags.value);
    }
  }

  /** Fields that are each balanced read back, joined, as their tokens in order. */
  lemma JoinThree(a: seq<string>, b: seq<string>, c: seq<string>)
    requires forall i :: 0 <= i < |a| ==> Balanced(a[i])
    requires forall i :: 0 <= i < |b| ==> Balanced(b[i])
    requires forall i :: 0 <= i < |c| ==> Balanced(c[i])
    ensures Tokens(Join(a + b + c, " ")) == AllTokens(a) + AllTokens(b) + AllTokens(c)
  {
    var xs := a + b + c;
    forall i | 0 <= i < |xs| ensures Balanced(xs[i]) {
      if i < |a| {
        assert xs[i] == a[i];
      } else if i < |a| + |b| {
        assert xs[i] == b[i - |a|];
      } else {
        assert xs[i] == c[i - |a| - |b|];
      }
    }
    TokensOfJoin(xs);
    AllTokensAppend(a + b, c);
    AllTokensAppend(a, b);
  }

  /** The tokens of an encoded line: the leading words, then the two tag
      fields, each reading back as its tags' `k="v"` tokens. */
  lemma EncodedTokens(head: seq<string>, a: seq<string>, b: seq<string>,
                      ta: seq<(string, string)>, tb: seq<(string, string)>)
    requires forall i :: 0 <= i < |head| ==> IsWord(head[i])
    requires AllTokens(a) == TagTokens(ta) && forall i :: 0 <= i < |a| ==> Balanced(a[i])
    requires AllTokens(b) == TagTokens(tb) && forall i :: 0 <= i < |b| ==> Balanced(b[i])
    ensures Tokens(Join(head + a + b, " ")) == head + TagTokens(ta + tb)
  {
    WordFields(head);
    JoinThree(head, a, b);
    TagTokensAppend(ta, tb);
    ConcatAssoc(head, TagTokens(ta), TagTokens(tb));
  }

  /** The fields of an encoded point, with its timestamp as whole seconds. */
  lemma EncodedFields(p: Point, globalTags: Option<seq<(string, string)>>)
    requires HashToWf(p, globalTags).Ok?
    ensures HashToWf(p, globalTags).value
         == Join([ToS(p[PathKey]), ToS(p[ValueKey])] + TsTokens(Seconds(p)) + ["source=" + p[SourceKey].s]
                 + PointTagFields(p) + GlobalTagFields(globalTags), " ")
  {
    assert TsField(p).value == TsTokens(Seconds(p));
  }

  /** Path, value, seconds and `source=`+source are each a single word. */
  lemma HeadWords(path: string, value: string, ts: Option<int>, source: string)
    requires IsLowerName(path) && IsLowerName(source) && IsWord(value)
    ensures var head := [path, value] + TsTokens(ts) + ["source" + "=" + source];
            forall i :: 0 <= i < |head| ==> IsWord(head[i])
  {
    LowerNameIsToken(path);
    LowerNameIsToken(source);
    assert ' ' !in path && '"' !in path by {
      assert forall i :: 0 <= i < |path| ==> path[i] != ' ';
    }
    var src := "source" + "=" + source;
    assert ' ' !in src && '"' !in src by {
      assert forall i :: 0 <= i < |source| ==> source[i] != ' ';
      assert forall i :: 0 <= i < |src| ==> (i < 7 && src[i] == "source="[i]) || src[i] == source[i - 7];
    }
    if ts.Some? {
      var n := IntToString(ts.value);
      assert ' ' !in n by {
        assert forall i :: 0 <= i < |n| ==> n[i] != ' ';
      }
    }
  }

  /** The tokens of a line made of a path, a value, the seconds, a source and
      the two tag fields. */
  lemma LineTokens(p: Point, path: string, value: string, source: string,
                   globalTags: Option<seq<(string, string)>>)
    requires IsLowerName(path) && IsLowerName(source) && IsWord(value)
    requires TagsOk(Get(p, TagsKey)) && AllReadable(PointTags(p))
    requires globalTags.Some? ==> AllReadable(globalTags.value)
    ensures Tokens(Join([path, value] + TsTokens(Seconds(p)) + ["source=" + source]
                        + PointTagFields(p) + GlobalTagFields(globalTags), " "))
         == [path, value] + TsTokens(Seconds(p)) + ["source" + "=" + source]
            + TagTokens(PointTags(p) + (if globalTags.Some? then globalTags.value else []))
  {
    assert "source" + "=" + source == "source=" + source;
    HeadWords(path, value, Seconds(p), source);
    PointTagField(p);
    GlobalTagField(globalTags);
    EncodedTokens([path, value] + TsTokens(Seconds(p)) + ["source" + "=" + source],
                  PointTagFields(p), GlobalTagFields(globalTags),
                  PointTags(p), if globalTags.Some? then globalTags.value else []);
  }

  /** The round trip of the encoder: a point that passed validation and was
      encoded reads back, as a proxy tokenizes it, as its path, its value's
      text, its whole seconds, its source and its point tags followed by the
      writer's global tags. Tag values must hold no double quote, which
      `tag_hash_to_str` does not escape. */
  lemma HashToWfReadsBack(p: Point, globalTags: Option<seq<(string, string)>>)
    requires WellFormed(p) && HashToWf(p, globalTags).Ok?
    requires IsWord(ToS(Get(p, ValueKey)))
    requires AllReadable(PointTags(p))
    requires globalTags.Some? ==> AllReadable(globalTags.value)
    ensures ParseLine(HashToWf(p, globalTags).value)
         == Some(Line(Get(p, PathKey).s, ToS(Get(p, ValueKey)), Seconds(p), Get(p, SourceKey).s,
                      PointTags(p) + (if globalTags.Some? then globalTags.value else [])))
  {
    var path, value, source := p[PathKey].s, ToS(p[ValueKey]), p[SourceKey].s;
    var gt := if globalTags.Some? then globalTags.value else [];
    EncodedFields(p, globalTags);
    LineTokens(p, path, value, source, globalTags);
    ParseTokensOf(path, value, Seconds(p), "source", source, PointTags(p) + gt);
  }

  // ---------------------------------------------------------------------------
  // What write does with each point

  datatype Decision = Reject | Emit(line: string)

  /** One turn of `write`'s loop, apart from the sending: a point that fails
      validation with a rescued kind is rejected, one that passes is encoded,
      and any other exception ends the call. */
  function Decide(p: Point, novalidate: bool, globalTags: Option<seq<(string, string)>>): Result<Decision>
  {
    var v := ValidPoint(p, novalidate);
    if v.Fail? then (if IsRescued(v.error) then Ok(Reject) else Err(v.error))
    else match HashToWf(p, globalTags)
      case Ok(line) => Ok(Emit(line))
      case Err(e) => Err(e)
  }

  /** A point is rejected exactly when validation raises a rescued kind, and
      sent, as its encoding, exactly when it passes validation and encodes;
      every other case is an exception out of `write`. */
  lemma DecideCases(p: Point, novalidate: bool, globalTags: Option<seq<(string, string)>>)
    ensures Decide(p, novalidate, globalTags) == Ok(Reject)
            <==> ValidPoint(p, novalidate).Fail? && IsRescued(ValidPoint(p, novalidate).error)
    ensures Decide(p, novalidate, globalTags).Ok? && Decide(p, novalidate, globalTags).value.Emit?
            <==> ValidPoint(p, novalidate) == Pass && HashToWf(p, globalTags).Ok?
    ensures ValidPoint(p, novalidate) == Pass && HashToWf(p, globalTags).Ok?
            ==> Decide(p, novalidate, globalTags) == Ok(Emit(HashToWf(p, globalTags).value))
  {
  }

  /** What each point of a list comes to, taken on its own. */
  function Outcomes(ps: seq<Point>, novalidate: bool, globalTags: Option<seq<(string, string)>>): (r: seq<Result<Decision>>)
    ensures |r| == |ps| && forall k :: 0 <= k < |ps| ==> r[k] == Decide(ps[k], novalidate, globalTags)
  {
    seq(|ps|, k requires 0 <= k < |ps| => Decide(ps[k], novalidate, globalTags))
  }

  /** The decisions taken for a list of points, and the exception that ended
      the walk, if one did. */
  datatype Plan = Plan(decisions: seq<Decision>, failure: Option<Error>)

  /** `write`'s walk over the points' outcomes, in order, up to the first
      exception that escapes: decision k is point k's, and a failure is the
      next point's. */
  function Run(outs: seq<Result<Decision>>): (r: Plan)
    ensures |r.decisions| <= |outs|
    ensures r.failure.None? <==> |r.decisions| == |outs|
  {
    if outs == [] then Plan([], None)
    else
      var prev := Run(outs[..|outs| - 1]);
      if prev.failure.Some? then prev
      else match outs[|outs| - 1]
        case Ok(d) => Plan(prev.decisions + [d], None)
        case Err(e) => Plan(prev.decisions, Some(e))
  }

  /** Decision k is the outcome of point k, and the walk stops exactly at the
      first point whose outcome is an exception. */
  lemma {:induction false} RunMeaning(outs: seq<Result<Decision>>)
    ensures var r := Run(outs);
            forall k :: 0 <= k < |r.decisions| ==> outs[k] == Ok(r.decisions[k])
    ensures var r := Run(outs);
            r.failure.Some? ==> outs[|r.decisions|] == Err(r.failure.value)
  {
    if outs != [] {
      var init := outs[..|outs| - 1];
      RunMeaning(init);
    }
  }

  /** One more point: its outcome is appended, or ends the walk. */
  lemma RunStep(outs: seq<Result<Decision>>, i: nat)
    requires i < |outs| && Run(outs[..i]).failure.None?
    ensures outs[i].Ok? ==> Run(outs[..i + 1]) == Plan(Run(outs[..i]).decisions + [outs[i].value], None)
    ensures outs[i].Err? ==> Run(outs[..i + 1]) == Plan(Run(outs[..i]).decisions, Some(outs[i].error))
  {
    assert outs[..i + 1][..i] == outs[..i];
  }

  /** Once an exception ended the walk, later points change nothing. */
  lemma {:induction false} RunStopsAtFailure(outs: seq<Result<Decision>>, j: nat)
    requires j <= |outs| && Run(outs[..j]).failure.Some?
    ensures Run(outs) == Run(outs[..j])
  {
    if j < |outs| {
      assert outs[..|outs| - 1][..j] == outs[..j];
      RunStopsAtFailure(outs[..|outs| - 1], j);
    } else {
      assert outs[..j] == outs;
    }
  }

  /** A point whose outcome is an exception ends the walk with it. */
  lemma RunFailsAt(outs: seq<Result<Decision>>, i: nat)
    requires i < |outs| && Run(outs[..i]).failure.None? && outs[i].Err?
    ensures Run(outs) == Plan(Run(outs[..i]).decisions, Some(outs[i].error))
  {
    RunStep(outs, i);
    RunStopsAtFailure(outs, i + 1);
  }

  /** The lines encoded for sending, in order. */
  function Emitted(ds: seq<Decision>): seq<string>
  {
    if ds == [] then [] else Emitted(ds[..|ds| - 1]) + (if ds[|ds| - 1].Emit? then [ds[|ds| - 1].line] else [])
  }

  function Rejects(ds: seq<Decision>): nat
  {
    if ds == [] then 0 else Rejects(ds[..|ds| - 1]) + (if ds[|ds| - 1].Reject? then 1 else 0)
  }

  lemma DecisionsAppend(ds: seq<Decision>, d: Decision)
    ensures Emitted(ds + [d]) == Emitted(ds) + (if d.Emit? then [d.line] else [])
    ensures Rejects(ds + [d]) == Rejects(ds) + (if d.Reject? then 1 else 0)
  {
    assert (ds + [d])[..|ds|] == ds;
  }

  /** Every point is either rejected or encoded, never both. */
  lemma {:induction false} EveryDecisionCounted(ds: seq<Decision>)
    ensures Rejects(ds) + |Emitted(ds)| == |ds|
  {
    if ds != [] {
      EveryDecisionCounted(ds[..|ds| - 1]);
    }
  }

  /** The argument of `write`: `points = [points] if points.is_a?(Hash)`, then
      `points.each`, which anything but a list lacks. */
  datatype Points = One(point: Point) | Many(points: seq<Point>) | NotEnumerable

  function PointList(x: Points): seq<Point>
  {
    match x
    case One(p) => [p]
    case Many(ps) => ps
    case NotEnumerable => []
  }

  function PlanOf(x: Points, novalidate: bool, globalTags: Option<seq<(string, string)>>): Plan
  {
    if x.NotEnumerable? then Plan([], Some(NoMethodError)) else Run(Outcomes(PointList(x), novalidate, globalTags))
  }

  /** The global tags `initialize` accepts: none when the option is falsy, a
      hash that passes `valid_tags?`, InvalidTag for a hash with a bad pair,
      and NoMethodError for anything else (it has no `each`). */
  function GlobalTags(tags: Dyn): (r: Result<Option<seq<(string, string)>>>)
    ensures r == Err(InvalidTag) <==> tags.Hash? && exists k :: 0 <= k < |tags.pairs| && !IsValidTag(tags.pairs[k])
    ensures r.Ok? && r.value.Some? ==> tags == Hash(r.value.value)
    ensures r.Ok? <==> !Truthy(tags) || (tags.Hash? && forall k :: 0 <= k < |tags.pairs| ==> IsValidTag(tags.pairs[k]))
  {
    if !Truthy(tags) then Ok(None)
    else if tags.Hash? then
      (if ValidTags(tags.pairs) == Pass then Ok(Some(tags.pairs)) else Err(InvalidTag))
    else Err(NoMethodError)
  }

  // ---------------------------------------------------------------------------
  // The writer

  class BatchWriter {
    var sent: nat
    var rejected: nat
    var unsent: nat
    const noop: bool
    const novalidate: bool
    const globalTags: Option<seq<(string, string)>>
    const sock: Socket

    /** `initialize` once the tags option has passed `valid_tags?`. */
    constructor(sock: Socket, noop: bool, novalidate: bool, globalTags: Option<seq<(string, string)>>)
      ensures sent == 0 && rejected == 0 && unsent == 0
      ensures this.sock == sock && this.noop == noop && this.novalidate == novalidate && this.globalTags == globalTags
    {
      this.sock := sock;
      this.noop := noop;
      this.novalidate := novalidate;
      this.globalTags := globalTags;
      sent, rejected, unsent := 0, 0, 0;
    }

    /** `BatchWriter.new(options)`: raises what `valid_tags?` raises on the
        `tags` option, and otherwise starts with every counter at zero. */
    static method New(sock: Socket, noop: bool, novalidate: bool, tags: Dyn) returns (r: Result<BatchWriter>)
      ensures r.Err? <==> GlobalTags(tags).Err?
      ensures r.Err? ==> r.error == GlobalTags(tags).error
      ensures r.Ok? ==> fresh(r.value) && r.value.sent == 0 && r.value.rejected == 0 && r.value.unsent == 0
      ensures r.Ok? ==> r.value.globalTags == GlobalTags(tags).value && r.value.sock == sock
      ensures r.Ok? ==> r.value.noop == noop && r.value.novalidate == novalidate
    {
      match GlobalTags(tags)
      case Err(e) =>
        r := Err(e);
      case Ok(g) =>
        var w := new BatchWriter(sock, noop, novalidate, g);
        r := Ok(w);
    }

    /** `send_point`: nothing in noop mode (nil); otherwise the line goes to
        the socket and `sent` or, when `puts` raises, `unsent` goes up. */
    method SendPoint(line: string) returns (r: Option<bool>)
      modifies this, sock
      ensures noop ==> r == None && sent == old(sent) && unsent == old(unsent)
      ensures noop ==> sock.log == old(sock.log) && sock.script == old(sock.script)
      ensures !noop ==> r.Some? && sock.log == old(sock.log) + [(line, r.value)]
      ensures !noop ==> r.value == (old(sock.script) == [] || old(sock.script)[0])
      ensures !noop && r.value ==> sent == old(sent) + 1 && unsent == old(unsent)
      ensures !noop && !r.value ==> sent == old(sent) && unsent == old(unsent) + 1
      ensures rejected == old(rejected)
    {
      if noop {
        return None;
      }
      var ok := sock.Puts(line);
      if ok {
        sent := sent + 1;
      } else {
        unsent := unsent + 1;
      }
      r := Some(ok);
    }

    /** What the counters and the socket show after the decisions `ds`, from
        counters `r0`, `s0`, `u0` and a socket with log `log0` and script
        `script0`: every rejection counted, every encoded line sent unless in
        noop mode, and each sent line counted as sent or unsent by whether it
        was delivered; `sends` is what reached the socket. */
    ghost predicate Accounted(ds: seq<Decision>, sends: seq<(string, bool)>, r0: nat, s0: nat, u0: nat,
                              log0: seq<(string, bool)>, script0: seq<bool>)
      reads this, sock
    {
      && rejected == r0 + Rejects(ds)
      && sock.log == log0 + sends
      && (noop ==> sends == [] && sent == s0 && unsent == u0 && sock.script == script0)
      && (!noop ==> Lines(sends) == Emitted(ds))
      && sent == s0 + Delivered(sends)
      && unsent == u0 + |sends| - Delivered(sends)
    }

    /** The accounting of one decision: a rejection is counted, an encoded
        line is sent. */
    method Handle(d: Decision, ghost ds: seq<Decision>, ghost sends: seq<(string, bool)>, ghost r0: nat, ghost s0: nat,
                  ghost u0: nat, ghost log0: seq<(string, bool)>, ghost script0: seq<bool>)
      returns (ghost sends': seq<(string, bool)>)
      requires Accounted(ds, sends, r0, s0, u0, log0, script0)
      modifies this, sock
      ensures Accounted(ds + [d], sends', r0, s0, u0, log0, script0)
    {
      DecisionsAppend(ds, d);
      sends' := sends;
      if d.Reject? {
        rejected := rejected + 1;
      } else {
        var r := SendPoint(d.line);
        if !noop {
          LogAppend(sends, (d.line, r.value));
          sends' := sends + [(d.line, r.value)];
        }
      }
    }

    /** `write`: walks the points in order; a point that fails validation
        with a rescued kind is counted as rejected and never sent, the others
        are encoded and sent. An exception that `write` does not rescue ends
        the call with the counters as the earlier points left them. The
        result is whether no point was ever rejected by this writer;
        `sends` is what reached the socket, with its outcome. */
    method Write(points: Points) returns (r: Result<bool>, ghost sends: seq<(string, bool)>)
      modifies this, sock
      ensures var plan := PlanOf(points, novalidate, globalTags);
              r == if plan.failure.Some? then Err(plan.failure.value) else Ok(rejected == 0)
      ensures rejected == old(rejected) + Rejects(PlanOf(points, novalidate, globalTags).decisions)
      ensures sock.log == old(sock.log) + sends
      ensures noop ==> sends == [] && sent == old(sent) && unsent == old(unsent) && sock.script == old(sock.script)
      ensures !noop ==> Lines(sends) == Emitted(PlanOf(points, novalidate, globalTags).decisions)
      ensures sent == old(sent) + Delivered(sends)
      ensures unsent == old(unsent) + |sends| - Delivered(sends)
      ensures !noop && r.Ok? ==> sent + unsent + rejected == old(sent + unsent + rejected) + |PointList(points)|
    {
      if points.NotEnumerable? {
        return Err(NoMethodError), [];
      }
      var failure;
      failure, sends := WriteAll(PointList(points));
      if failure.Some? {
        r := Err(failure.value);
      } else {
        r := Ok(rejected == 0);
        if !noop {
          EveryDecisionCounted(Run(Outcomes(PointList(points), novalidate, globalTags)).decisions);
        }
      }
    }

    /** One turn of `write`'s loop: point `i`, whose outcome is `outs[i]`,
        is rejected or sent, or its exception ends the walk. */
    method Step(p: Point, ghost outs: seq<Result<Decision>>, ghost i: nat, ghost ds: seq<Decision>,
                ghost sends: seq<(string, bool)>, ghost r0: nat, ghost s0: nat, ghost u0: nat,
                ghost log0: seq<(string, bool)>, ghost script0: seq<bool>)
      returns (failure: Option<Error>, ghost ds': seq<Decision>, ghost sends': seq<(string, bool)>)
      requires i < |outs| && outs[i] == Decide(p, novalidate, globalTags)
      requires Run(outs[..i]) == Plan(ds, None)
      requires Accounted(ds, sends, r0, s0, u0, log0, script0)
      modifies this, sock
      ensures failure.Some? ==> Run(outs) == Plan(ds', failure)
      ensures failure.None? ==> Run(outs[..i + 1]) == Plan(ds', None)
      ensures Accounted(ds', sends', r0, s0, u0, log0, script0)
    {
      var out := Decide(p, novalidate, globalTags);
      if out.Err? {
        RunFailsAt(outs, i);
        return Some(out.error), ds, sends;
      }
      RunStep(outs, i);
      sends' := Handle(out.value, ds, sends, r0, s0, u0, log0, script0);
      ds' := ds + [out.value];
      failure := None;
    }

    /** `points.each`: the loop of `write`, ending at the first exception that
        is not rescued. */
    method WriteAll(list: seq<Point>) returns (failure: Option<Error>, ghost sends: seq<(string, bool)>)
      modifies this, sock
      ensures failure == Run(Outcomes(list, novalidate, globalTags)).failure
      ensures Accounted(Run(Outcomes(list, novalidate, globalTags)).decisions, sends, old(rejected), old(sent),
                        old(unsent), old(sock.log), old(sock.script))
    {
      ghost var outs := Outcomes(list, novalidate, globalTags);
      ghost var r0, s0, u0, log0, script0 := rejected, sent, unsent, sock.log, sock.script;
      ghost var ds: seq<Decision> := [];
      sends := [];
      var i := 0;
      while i < |list|
        invariant 0 <= i <= |list|
        invariant Run(outs[..i]) == Plan(ds, None)
        invariant Accounted(ds, sends, r0, s0, u0, log0, script0)
      {
        failure, ds, sends := Step(list[i], outs, i, ds, sends, r0, s0, u0, log0, script0);
        if failure.Some? {
          return;
        }
        i := i + 1;
      }
      assert outs[..|outs|] == outs;
      failure := None;
    }
  }

  // ---------------------------------------------------------------------------
  // Properties

  /** With `novalidate` every point passes `valid_point?`, even one with no
      key at all; encoding such a point then raises ArgumentError, which
      `write` does not rescue. */
  lemma NovalidateLetsAnythingThrough(p: Point, g: Option<seq<(string, string)>>)
    ensures ValidPoint(p, true) == Pass
    ensures Decide(map[], true, g) == Err(ArgumentError)
  {
  }

  /** A point missing a value is rejected without an encoding being tried. */
  lemma PointWithoutValueRejected(g: Option<seq<(string, string)>>)
    ensures Decide(map[PathKey := Str("bogus_metric")], false, g) == Ok(Reject)
  {
    var p := map[PathKey := Str("bogus_metric")];
    assert ValidPoint(p, false) == Fail(InvalidMetricValue) by {
      var s := "bogus_metric";
      assert forall i :: 0 <= i < |s| ==> IsNameChar(s[i]);
      ValidationOrder(p);
    }
  }

  /** A tag hash with a bad key anywhere rejects its point. */
  lemma BadTagRejected(p: Point, k: nat, g: Option<seq<(string, string)>>)
    requires TagsKey in p && p[TagsKey].Hash? && k < |p[TagsKey].pairs| && !IsValidTag(p[TagsKey].pairs[k])
    ensures Decide(p, false, g) == Ok(Reject)
  {
    assert !TagsOk(p[TagsKey]);
  }

  lemma Join4(a: string, b: string, c: string, d: string)
    ensures Join([a, b, c, d], " ") == a + " " + b + " " + c + " " + d
  {
    JoinCons(a, [b, c, d], " ");
    JoinCons(b, [c, d], " ");
    JoinCons(c, [d], " ");
  }

  lemma Join5(a: string, b: string, c: string, d: string, e: string)
    ensures Join([a, b, c, d, e], " ") == a + " " + b + " " + c + " " + d + " " + e
  {
    JoinCons(a, [b, c, d, e], " ");
    Join4(b, c, d, e);
  }

  /** The layout of the documentation's full point: path, value, timestamp as
      epoch seconds, `source=`, then the tags. A present but empty tag hash
      still adds its (empty) field, so the line then ends in a space. */
  lemma EncodingOfFullPoint(path: string, v: int, seconds: int, shown: string, source: string,
                            tags: seq<(string, string)>)
    ensures HashToWf(map[PathKey := Str(path), ValueKey := Int(v), TsKey := Time(seconds, shown),
                         SourceKey := Str(source), TagsKey := Hash(tags)], None)
         == Ok(path + " " + IntToString(v) + " " + IntToString(seconds) + " " + ("source=" + source) + " " + TagText(tags))
  {
    var p := map[PathKey := Str(path), ValueKey := Int(v), TsKey := Time(seconds, shown),
                 SourceKey := Str(source), TagsKey := Hash(tags)];
    EncodedFields(p, None);
    assert [ToS(p[PathKey]), ToS(p[ValueKey])] + TsTokens(Seconds(p)) + ["source=" + p[SourceKey].s]
           + PointTagFields(p) + GlobalTagFields(None)
        == [path, IntToString(v), IntToString(seconds), "source=" + source, TagText(tags)];
    Join5(path, IntToString(v), IntToString(seconds), "source=" + source, TagText(tags));
  }

  /** Without a timestamp the field is left out, and the writer's global tags
      come after the point's own. */
  lemma EncodingWithGlobalTags(path: string, v: int, source: string, tags: seq<(string, string)>,
                               global: seq<(string, string)>)
    ensures HashToWf(map[PathKey := Str(path), ValueKey := Int(v), SourceKey := Str(source),
                         TagsKey := Hash(tags)], Some(global))
         == Ok(path + " " + IntToString(v) + " " + ("source=" + source) + " " + TagText(tags) + " " + TagText(global))
  {
    var p := map[PathKey := Str(path), ValueKey := Int(v), SourceKey := Str(source), TagsKey := Hash(tags)];
    EncodedFields(p, Some(global));
    assert [ToS(p[PathKey]), ToS(p[ValueKey])] + TsTokens(Seconds(p)) + ["source=" + p[SourceKey].s]
           + PointTagFields(p) + GlobalTagFields(Some(global))
        == [path, IntToString(v), "source=" + source, TagText(tags), TagText(global)];
    Join5(path, IntToString(v), "source=" + source, TagText(tags), TagText(global));
  }

  /** A point hash without the required keys cannot be encoded, and a source
      that is not a String makes `+` raise TypeError. */
  lemma EncodingErrors(path: string, v: int, source: int)
    ensures HashToWf(map[], None) == Err(ArgumentError)
    ensures HashToWf(map[PathKey := Str(path), ValueKey := Int(v)], None) == Err(ArgumentError)
    ensures HashToWf(map[PathKey := Str(path), ValueKey := Int(v), SourceKey := Int(source)], None) == Err(TypeError)
  {
    var p := map[PathKey := Str(path), ValueKey := Int(v), SourceKey := Int(source)];
    assert TsField(p) == Ok([]);
  }
}
