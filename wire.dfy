/** Reading a data line back the way a Wavefront proxy reads it:
    `<metric> <value> [<timestamp>] source=<source> [<key>="<value>" ...]`
    (the proxy also takes `host=` for `source=`). Tokens are separated by
    spaces, except inside double quotes, and runs of spaces separate no empty
    token. The line encoders of the submission path are proved against this
    reader: what they write, it reads back. */
module Wire {
  import opened Text
  import opened Ruby

  /** The point a line carries, as the proxy reads it. */
  datatype Line = Line(metric: string, value: string, ts: Option<int>, source: string, tags: seq<(string, string)>)

  // ---------------------------------------------------------------------------
  // Tokenizer

  function Flush(cur: string): seq<string>
  {
    if cur == [] then [] else [cur]
  }

  /** Splits `s` at spaces outside double quotes; `quoted` says whether the
      scan is inside quotes and `cur` is the token read so far. */
  function Scan(s: string, quoted: bool, cur: string): (r: seq<string>)
    ensures forall k :: 0 <= k < |r| ==> r[k] != []
  {
    if s == [] then Flush(cur)
    else if s[0] == ' ' && !quoted then Flush(cur) + Scan(s[1..], false, [])
    else Scan(s[1..], if s[0] == '"' then !quoted else quoted, cur + [s[0]])
  }

  function Tokens(s: string): seq<string>
  {
    Scan(s, false, [])
  }

  /** Whether the scan is inside quotes after reading `s`, starting as `quoted`. */
  function QuoteState(s: string, quoted: bool): bool
  {
    if s == [] then quoted else QuoteState(s[1..], if s[0] == '"' then !quoted else quoted)
  }

  /** An even number of double quotes: reading `s` ends outside quotes. */
  predicate Balanced(s: string) { !QuoteState(s, false) }

  /** A token that needs no quoting: non-empty, without space or double quote. */
  predicate IsWord(s: string) { s != [] && ' ' !in s && '"' !in s }

  /** The tokens of every string in `xs`, in order. */
  function AllTokens(xs: seq<string>): seq<string>
  {
    if xs == [] then [] else Tokens(xs[0]) + AllTokens(xs[1..])
  }

  lemma {:induction false} QuoteStateAppend(a: string, b: string, quoted: bool)
    ensures QuoteState(a + b, quoted) == QuoteState(b, QuoteState(a, quoted))
  {
    if a != [] {
      assert (a + b)[1..] == a[1..] + b;
      QuoteStateAppend(a[1..], b, if a[0] == '"' then !quoted else quoted);
    } else {
      assert a + b == b;
    }
  }

  lemma {:induction false} QuoteStateOfUnquoted(t: string, quoted: bool)
    requires '"' !in t
    ensures QuoteState(t, quoted) == quoted
  {
    if t != [] {
      QuoteStateOfUnquoted(t[1..], quoted);
    }
  }

  /** A space read outside quotes ends a token: what comes after it is
      tokenized afresh. */
  lemma {:induction false} ScanAtSpace(x: string, y: string, quoted: bool, cur: string)
    requires !QuoteState(x, quoted)
    ensures Scan(x + [' '] + y, quoted, cur) == Scan(x, quoted, cur) + Tokens(y)
  {
    var s := x + [' '] + y;
    if x == [] {
      assert s[1..] == y;
    } else {
      assert s[0] == x[0] && s[1..] == x[1..] + [' '] + y;
      if x[0] == ' ' && !quoted {
        ScanAtSpace(x[1..], y, false, []);
      } else {
        ScanAtSpace(x[1..], y, if x[0] == '"' then !quoted else quoted, cur + [x[0]]);
      }
    }
  }

  /** Text without double quotes, and without spaces unless inside quotes, is
      added to the current token as it is. */
  lemma {:induction false} ScanPlain(t: string, rest: string, quoted: bool, cur: string)
    requires '"' !in t && (quoted || ' ' !in t)
    ensures Scan(t + rest, quoted, cur) == Scan(rest, quoted, cur + t)
  {
    if t == [] {
      assert t + rest == rest && cur + t == cur;
    } else {
      assert (t + rest)[0] == t[0] && (t + rest)[1..] == t[1..] + rest;
      ScanPlain(t[1..], rest, quoted, cur + [t[0]]);
      assert cur + [t[0]] + t[1..] == cur + t;
    }
  }

  lemma TokensOfWord(w: string)
    requires IsWord(w)
    ensures Tokens(w) == [w] && Balanced(w)
  {
    ScanPlain(w, [], false, []);
    assert w + [] == w && [] + w == w;
    QuoteStateOfUnquoted(w, false);
  }

  /** Joining balanced strings with single spaces tokenizes to their tokens. */
  lemma {:induction false} TokensOfJoin(xs: seq<string>)
    requires forall i :: 0 <= i < |xs| ==> Balanced(xs[i])
    ensures Tokens(Join(xs, " ")) == AllTokens(xs)
    ensures Balanced(Join(xs, " "))
  {
    if |xs| == 0 {
    } else if |xs| == 1 {
      assert xs[1..] == [];
    } else {
      var rest := Join(xs[1..], " ");
      TokensOfJoin(xs[1..]);
      assert Join(xs, " ") == xs[0] + [' '] + rest;
      ScanAtSpace(xs[0], rest, false, []);
      QuoteStateAppend(xs[0], [' '] + rest, false);
      QuoteStateAppend([' '], rest, false);
      assert xs[0] + [' '] + rest == xs[0] + ([' '] + rest);
    }
  }

  // ---------------------------------------------------------------------------
  // Point tags

  /** `k="v"`: one point tag as the encoders write it. */
  function TagToken(tag: (string, string)): string
  {
    tag.0 + "=\"" + tag.1 + "\""
  }

  function TagTokens(tags: seq<(string, string)>): (r: seq<string>)
    ensures |r| == |tags| && forall i :: 0 <= i < |tags| ==> r[i] == TagToken(tags[i])
  {
    if tags == [] then [] else [TagToken(tags[0])] + TagTokens(tags[1..])
  }

  /** What a tag must avoid to read back: no '=', space or quote in the key and
      no quote in the value (a value may hold spaces). */
  predicate Readable(tag: (string, string)) { '=' !in tag.0 && ' ' !in tag.0 && '"' !in tag.0 && '"' !in tag.1 }

  predicate AllReadable(tags: seq<(string, string)>) { forall i :: 0 <= i < |tags| ==> Readable(tags[i]) }

  /** The tags joined by single spaces, as `tag_hash_to_str` and the writer emit them. */
  function TagText(tags: seq<(string, string)>): string
  {
    Join(TagTokens(tags), " ")
  }

  lemma TokensOfTag(tag: (string, string))
    requires Readable(tag)
    ensures Tokens(TagToken(tag)) == [TagToken(tag)] && Balanced(TagToken(tag))
  {
    var (k, v) := tag;
    var head := k + "=";
    var tail := v + "\"";
    assert TagToken(tag) == head + (['"'] + tail);
    ScanPlain(head, ['"'] + tail, false, []);
    assert (['"'] + tail)[1..] == tail;
    ScanPlain(v, "\"", true, head + "\"");
    assert [] + head == head;
    assert head + "\"" + v + "\"" == TagToken(tag);
    QuoteStateAppend(head, ['"'] + tail, false);
    QuoteStateOfUnquoted(head, false);
    QuoteStateAppend(v, "\"", true);
    QuoteStateOfUnquoted(v, true);
  }

  lemma {:induction false} AllTokensOfTags(tags: seq<(string, string)>)
    requires AllReadable(tags)
    ensures AllTokens(TagTokens(tags)) == TagTokens(tags)
  {
    if tags != [] {
      TokensOfTag(tags[0]);
      AllTokensOfTags(tags[1..]);
      assert TagTokens(tags)[1..] == TagTokens(tags[1..]);
    }
  }

  /** The tag text tokenizes into one token per tag. */
  lemma TokensOfTagText(tags: seq<(string, string)>)
    requires AllReadable(tags)
    ensures Tokens(TagText(tags)) == TagTokens(tags) && Balanced(TagText(tags))
  {
    forall i | 0 <= i < |tags| ensures Balanced(TagTokens(tags)[i]) {
      TokensOfTag(tags[i]);
    }
    TokensOfJoin(TagTokens(tags));
    AllTokensOfTags(tags);
  }

  /** Readable tags, as separate fields, each read back as one token. */
  lemma TagTokensReadBack(tags: seq<(string, string)>)
    requires AllReadable(tags)
    ensures AllTokens(TagTokens(tags)) == TagTokens(tags)
    ensures forall i :: 0 <= i < |TagTokens(tags)| ==> Balanced(TagTokens(tags)[i])
  {
    AllTokensOfTags(tags);
    forall i | 0 <= i < |tags| ensures Balanced(TagTokens(tags)[i]) {
      TokensOfTag(tags[i]);
    }
  }

  // ---------------------------------------------------------------------------
  // Parser

  function FirstIndex(s: string, c: char): (r: nat)
    ensures r <= |s| && (r < |s| ==> s[r] == c)
    ensures forall j :: 0 <= j < r ==> s[j] != c
  {
    if s == [] then 0 else if s[0] == c then 0 else 1 + FirstIndex(s[1..], c)
  }

  predicate HasPrefix(s: string, p: string) { |p| <= |s| && s[..|p|] == p }

  /** `k="v"` split at its first '='. */
  function ParseTag(tok: string): Option<(string, string)>
  {
    var i := FirstIndex(tok, '=');
    if i + 3 <= |tok| && tok[i + 1] == '"' && tok[|tok| - 1] == '"'
    then Some((tok[..i], tok[i + 2..|tok| - 1]))
    else None
  }

  function ParseTags(toks: seq<string>): Option<seq<(string, string)>>
  {
    if toks == [] then Some([])
    else match (ParseTag(toks[0]), ParseTags(toks[1..]))
      case (Some(tag), Some(rest)) => Some([tag] + rest)
      case _ => None
  }

  /** `source=<name>` or `host=<name>`. */
  function ReadSource(tok: string): Option<string>
  {
    if HasPrefix(tok, "source=") then Some(tok[7..])
    else if HasPrefix(tok, "host=") then Some(tok[5..])
    else None
  }

  /** Metric and value first; then either the source tag, or a timestamp
      followed by the source tag; then point tags. */
  function ParseTokens(toks: seq<string>): Option<Line>
  {
    if |toks| < 3 then None
    else if ReadSource(toks[2]).Some? then
      match ParseTags(toks[3..])
      case Some(tags) => Some(Line(toks[0], toks[1], None, ReadSource(toks[2]).value, tags))
      case None => None
    else if |toks| >= 4 && ReadSource(toks[3]).Some? then
      match ParseTags(toks[4..])
      case Some(tags) => Some(Line(toks[0], toks[1], Some(StrToI(toks[2])), ReadSource(toks[3]).value, tags))
      case None => None
    else None
  }

  function ParseLine(line: string): Option<Line>
  {
    ParseTokens(Tokens(line))
  }

  lemma ParseTagOfToken(tag: (string, string))
    requires Readable(tag)
    ensures ParseTag(TagToken(tag)) == Some(tag)
  {
    var tok := TagToken(tag);
    var k := tag.0;
    assert tok[|k|] == '=';
    assert forall j :: 0 <= j < |k| ==> tok[j] == k[j];
    var i := FirstIndex(tok, '=');
    assert i == |k|;
    assert tok[..i] == k;
    assert tok[i + 2..|tok| - 1] == tag.1;
  }

  lemma {:induction false} ParseTagsOfTokens(tags: seq<(string, string)>)
    requires AllReadable(tags)
    ensures ParseTags(TagTokens(tags)) == Some(tags)
  {
    if tags != [] {
      ParseTagOfToken(tags[0]);
      ParseTagsOfTokens(tags[1..]);
      assert TagTokens(tags)[1..] == TagTokens(tags[1..]);
      assert [tags[0]] + tags[1..] == tags;
    }
  }

  /** The timestamp token, when there is one: `Integer#to_s` of the seconds. */
  function TsTokens(ts: Option<int>): seq<string>
  {
    if ts.Some? then [IntToString(ts.value)] else []
  }

  /** The source tag reads back as the source, under either key. */
  lemma ReadSourceOfTag(key: string, source: string)
    requires key == "source" || key == "host"
    ensures ReadSource(key + "=" + source) == Some(source)
  {
    var st := key + "=" + source;
    if key == "source" {
      assert st[..7] == "source=" && st[7..] == source;
    } else {
      assert st[..5] == "host=" && st[5..] == source;
      assert !HasPrefix(st, "source=") by { assert |st| >= 1 && st[0] == 'h'; }
    }
  }

  /** A rendered timestamp is never taken for the source tag. */
  lemma ReadSourceOfNumeral(i: int)
    ensures ReadSource(IntToString(i)) == None
  {
    var tt := IntToString(i);
    assert tt[0] == '-' || IsDigit(tt[0]);
    if |tt| >= 7 { assert tt[..7][0] == tt[0]; }
    if |tt| >= 5 { assert tt[..5][0] == tt[0]; }
  }

  /** A fourth token that is the source tag makes the third the timestamp. */
  lemma ParseTokensTimed(toks: seq<string>)
    requires |toks| >= 4 && ReadSource(toks[2]).None? && ReadSource(toks[3]).Some?
    requires ParseTags(toks[4..]).Some?
    ensures ParseTokens(toks)
         == Some(Line(toks[0], toks[1], Some(StrToI(toks[2])), ReadSource(toks[3]).value, ParseTags(toks[4..]).value))
  {
  }

  /** Metric, value, timestamp and source tag, then the point tags. */
  lemma ParseTimedTokens(metric: string, value: string, t: int, st: string, source: string, tags: seq<(string, string)>)
    requires ReadSource(st) == Some(source)
    requires ParseTags(TagTokens(tags)) == Some(tags)
    ensures ParseTokens([metric, value] + TsTokens(Some(t)) + [st] + TagTokens(tags))
         == Some(Line(metric, value, Some(t), source, tags))
  {
    var toks := [metric, value, IntToString(t), st] + TagTokens(tags);
    assert [metric, value] + TsTokens(Some(t)) + [st] == [metric, value, IntToString(t), st];
    assert toks[..4] == [metric, value, IntToString(t), st] && toks[4..] == TagTokens(tags);
    ReadSourceOfNumeral(t);
    StrToIOfIntToString(t);
    ParseTokensTimed(toks);
  }

  /** Metric, value and source tag, then the point tags. */
  lemma ParseUntimedTokens(metric: string, value: string, st: string, source: string, tags: seq<(string, string)>)
    requires ReadSource(st) == Some(source)
    requires ParseTags(TagTokens(tags)) == Some(tags)
    ensures ParseTokens([metric, value] + TsTokens(None) + [st] + TagTokens(tags))
         == Some(Line(metric, value, None, source, tags))
  {
    var toks := [metric, value, st] + TagTokens(tags);
    assert [metric, value] + TsTokens(None) + [st] == [metric, value, st];
    assert toks[..3] == [metric, value, st] && toks[3..] == TagTokens(tags);
  }

  /** The token list of a line reads back as the point it was made from. */
  lemma ParseTokensOf(metric: string, value: string, ts: Option<int>, key: string, source: string, tags: seq<(string, string)>)
    requires key == "source" || key == "host"
    requires AllReadable(tags)
    ensures ParseTokens([metric, value] + TsTokens(ts) + [key + "=" + source] + TagTokens(tags))
         == Some(Line(metric, value, ts, source, tags))
  {
    ReadSourceOfTag(key, source);
    ParseTagsOfTokens(tags);
    if ts.Some? {
      ParseTimedTokens(metric, value, ts.value, key + "=" + source, source, tags);
    } else {
      ParseUntimedTokens(metric, value, key + "=" + source, source, tags);
    }
  }
}
