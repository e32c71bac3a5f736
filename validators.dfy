/** The point validators of lib/wavefront/validators.rb. Each `valid_*?` there
    returns true or raises one exception kind; here each is a predicate saying
    when the check passes and a function returning the `Outcome`.
    lib/wavefront/batch_writer.rb carries identical copies of these checks and
    lib/wavefront/mixins.rb one of `valid_source?`; they are modelled once. */
module Validators {
  import opened Text
  import opened Ruby

  /** A whole-string match of a one-character class, as `^[...]+$` or `^[...]*$`
      test it, scanned left to right. */
  function AllOf(s: string, cls: char -> bool): (r: bool)
    ensures r <==> forall i :: 0 <= i < |s| ==> cls(s[i])
  {
    if s == [] then true else cls(s[0]) && AllOf(s[1..], cls)
  }

  /** The class `[a-z0-9\-_\.]` of metric paths, sources and tag keys. */
  predicate IsNameChar(c: char) { 'a' <= c <= 'z' || IsDigit(c) || c == '-' || c == '_' || c == '.' }

  /** Matches `^[a-z0-9\-_\.]+$`. */
  predicate IsLowerName(s: string) { s != [] && AllOf(s, IsNameChar) }

  /** What a path or a source must be: a lower-case name shorter than 1024. */
  predicate IsWireName(s: string) { IsLowerName(s) && |s| < 1024 }

  predicate IsValidPath(d: Dyn) { d.Str? && IsWireName(d.s) }

  predicate IsValidSource(d: Dyn) { d.Str? && IsWireName(d.s) }

  /** `is_a?(Numeric)`. */
  predicate IsNumeric(d: Dyn) { d.Int? || d.Float? }

  /** `is_a?(Time) || is_a?(Date)` (a DateTime is a Date). */
  predicate IsTimeLike(d: Dyn) { d.Time? || d.Date? }

  /** One tag: `k.length + v.length < 254 && k.match(/^[a-z0-9\-_\.]+$/)`. */
  predicate IsValidTag(tag: (string, string)) { |tag.0| + |tag.1| < 254 && IsLowerName(tag.0) }

  /** `valid_path?`. */
  function ValidPath(d: Dyn): (r: Outcome)
    ensures r == Pass <==> IsValidPath(d)
    ensures r != Pass ==> r == Fail(InvalidMetricName)
  {
    if IsValidPath(d) then Pass else Fail(InvalidMetricName)
  }

  /** `valid_source?`. */
  function ValidSource(d: Dyn): (r: Outcome)
    ensures r == Pass <==> IsValidSource(d)
    ensures r != Pass ==> r == Fail(InvalidSource)
  {
    if IsValidSource(d) then Pass else Fail(InvalidSource)
  }

  /** `valid_value?`. */
  function ValidValue(d: Dyn): (r: Outcome)
    ensures r == Pass <==> IsNumeric(d)
    ensures r != Pass ==> r == Fail(InvalidMetricValue)
  {
    if IsNumeric(d) then Pass else Fail(InvalidMetricValue)
  }

  /** `valid_ts?`. */
  function ValidTs(d: Dyn): (r: Outcome)
    ensures r == Pass <==> IsTimeLike(d)
    ensures r != Pass ==> r == Fail(InvalidTimestamp)
  {
    if IsTimeLike(d) then Pass else Fail(InvalidTimestamp)
  }

  /** `valid_tags?`: walks the pairs in order and raises at the first bad one, so
      it passes exactly when every pair is a valid tag. */
  function ValidTags(tags: seq<(string, string)>): (r: Outcome)
    ensures r == Pass <==> forall k :: 0 <= k < |tags| ==> IsValidTag(tags[k])
    ensures r != Pass ==> r == Fail(InvalidTag)
  {
    if tags == [] then Pass
    else if !IsValidTag(tags[0]) then Fail(InvalidTag)
    else
      var rest := ValidTags(tags[1..]);
      assert forall k :: 1 <= k < |tags| ==> tags[k] == tags[1..][k - 1];
      rest
  }

  /** The class `[\-\w \.,]` of `valid_string?`. */
  predicate IsPlainTextChar(c: char) { c == '-' || IsWordChar(c) || c == ' ' || c == '.' || c == ',' }

  /** `valid_string?`: a match of `^[\-\w \.,]*$`, so the empty string passes. */
  function ValidString(s: string): (r: bool)
    ensures r <==> forall i :: 0 <= i < |s| ==> IsPlainTextChar(s[i])
  {
    AllOf(s, IsPlainTextChar)
  }

  // ---------------------------------------------------------------------------
  // Properties

  function Repeat(c: char, n: nat): (s: string)
    ensures |s| == n && forall i :: 0 <= i < n ==> s[i] == c
  {
    if n == 0 then [] else [c] + Repeat(c, n - 1)
  }

  /** A run of n lower-case letters is a valid path exactly when 0 < n < 1024:
      1023 a's pass and 1024 fail. */
  lemma PathLengthLimit(n: nat)
    ensures ValidPath(Str(Repeat('a', n))) == (if 0 < n < 1024 then Pass else Fail(InvalidMetricName))
  {
  }

  /** A path that is not a String, is empty, or holds an upper-case letter or a
      character outside `[a-z0-9\-_\.]` is refused with InvalidMetricName. */
  lemma PathRules(s: string, d: Dyn)
    ensures ValidPath(Str("")) == Fail(InvalidMetricName)
    ensures (exists i :: 0 <= i < |s| && 'A' <= s[i] <= 'Z') ==> ValidPath(Str(s)) == Fail(InvalidMetricName)
    ensures (exists i :: 0 <= i < |s| && s[i] in "()<> ") ==> ValidPath(Str(s)) == Fail(InvalidMetricName)
    ensures !d.Str? ==> ValidPath(d) == Fail(InvalidMetricName)
  {
  }

  /** Lower-case letters, digits, '.', '_' and '-' make a valid path. */
  lemma PathExample()
    ensures ValidPath(Str("a.l33t.metric_path-passes")) == Pass
  {
    var ok := "a.l33t.metric_path-passes";
    assert forall i :: 0 <= i < |ok| ==> IsNameChar(ok[i]);
  }

  /** A numeric-looking String is not a number: only Integer and Float values
      pass `valid_value?`. */
  lemma ValueRules(s: string)
    ensures ValidValue(Str(s)) == Fail(InvalidMetricValue)
    ensures ValidValue(Int(-10)) == Pass && ValidValue(Int(0)) == Pass
    ensures ValidValue(Float(12300, "12300.0")) == Pass
  {
  }

  /** An integer epoch is refused; Time, Date and DateTime objects pass. */
  lemma TimestampRules(epoch: int, shown: string)
    ensures ValidTs(Int(epoch)) == Fail(InvalidTimestamp)
    ensures ValidTs(Str(shown)) == Fail(InvalidTimestamp)
    ensures ValidTs(Time(epoch, shown)) == Pass && ValidTs(Date(shown)) == Pass
  {
  }

  /** The tag rules: the empty hash passes, values may hold spaces and symbols,
      and a bad key or an overlong pair anywhere fails the whole hash. */
  lemma {:induction false} TagRules(tags: seq<(string, string)>, k: nat)
    requires k < |tags| && !IsValidTag(tags[k])
    ensures ValidTags([]) == Pass
    ensures ValidTags([("tag1", "val 1"), ("tag2", "(>_<)")]) == Pass
    ensures ValidTags([("tag 1", "val1")]) == Fail(InvalidTag)
    ensures ValidTags([("tag1", Repeat('v', 255))]) == Fail(InvalidTag)
    ensures ValidTags([(Repeat('k', 130), Repeat('v', 130))]) == Fail(InvalidTag)
    ensures ValidTags(tags) == Fail(InvalidTag)
  {
    assert IsValidTag(("tag1", "val 1")) && IsValidTag(("tag2", "(>_<)"));
    assert !IsNameChar(("tag 1")[3]);
  }

  /** `valid_string?` takes word characters, '-', ' ', '.' and ',' and nothing
      else, and accepts the empty string. */
  lemma PlainTextRules(s: string)
    ensures ValidString("")
    ensures ValidString("Deploy of build-42, stage 2.")
    ensures (exists i :: 0 <= i < |s| && s[i] == '"') ==> !ValidString(s)
  {
    var t := "Deploy of build-42, stage 2.";
    assert forall i :: 0 <= i < |t| ==> IsPlainTextChar(t[i]);
  }

  /** A lower-case name is a single wire token: no whitespace, no double quote,
      no '='. The line encoding depends on this. */
  lemma LowerNameIsToken(s: string)
    requires IsLowerName(s)
    ensures s != [] && NoSpace(s) && '"' !in s && '=' !in s
  {
    assert forall i :: 0 <= i < |s| ==> IsNameChar(s[i]);
  }
}
