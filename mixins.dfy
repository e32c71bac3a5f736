/** The helpers of lib/wavefront/mixins.rb: inserting a host into a metric
    label, coercing a time to epoch seconds or milliseconds, joining URI
    parts and laying out a query string. Its `valid_source?` is the one of
    lib/wavefront/validators.rb, modelled as `Validators.ValidSource`. */
module Mixins {
  import opened Text
  import opened Ruby

  // ---------------------------------------------------------------------------
  // interpolate_schema

  /** `interpolate_schema(label, host, prefix_length)`: the name's
      '.'-separated parts with the host put after the first `prefix_length`
      of them (after all of them when there are fewer), joined with '.'.
      `Array#shift` refuses a negative count with ArgumentError. */
  function InterpolateSchema(name: string, host: string, prefixLength: int): (r: Result<string>)
    ensures r.Ok? <==> prefixLength >= 0
    ensures r.Err? ==> r.error == ArgumentError
  {
    if prefixLength < 0 then Err(ArgumentError)
    else
      var parts := Split(name, '.');
      var n := if prefixLength < |parts| then prefixLength else |parts|;
      Ok(Join(Inserted(parts, n, host), "."))
  }

  /** How many parts stay in front of the host. */
  function PrefixCount(name: string, prefixLength: nat): (n: nat)
    ensures n <= |Split(name, '.')|
  {
    var parts := Split(name, '.');
    if prefixLength < |parts| then prefixLength else |parts|
  }

  /** Splitting the result on '.' finds the host at position
      `min(prefix_length, parts)`, and taking it out leaves the name's own
      parts: a host with no '.' is inserted, nothing else changes. */
  lemma InterpolateSchemaInsertsHost(name: string, host: string, prefixLength: nat)
    requires host != [] && '.' !in host
    ensures var r := InterpolateSchema(name, host, prefixLength).value;
            var n := PrefixCount(name, prefixLength);
            var parts := Split(r, '.');
            && |parts| == |Split(name, '.')| + 1
            && parts[n] == host
            && parts[..n] + parts[n + 1..] == Split(name, '.')
  {
    var nameParts := Split(name, '.');
    var n := PrefixCount(name, prefixLength);
    var xs := Inserted(nameParts, n, host);
    InsertedParts(nameParts, n, host, '.');
    SplitJoin(xs, '.');
  }

  /** `host` put at position `n` of `parts`. */
  function Inserted(parts: seq<string>, n: nat, host: string): (xs: seq<string>)
    requires n <= |parts|
    ensures |xs| == |parts| + 1 && xs[n] == host && xs[..n] + xs[n + 1..] == parts
  {
    assert (parts[..n] + [host] + parts[n..])[n + 1..] == parts[n..];
    parts[..n] + [host] + parts[n..]
  }

  /** Inserting a part free of `c` into parts free of `c` whose last one is
      not empty keeps both properties. */
  lemma InsertedParts(parts: seq<string>, n: nat, host: string, c: char)
    requires n <= |parts| && host != [] && c !in host
    requires forall i :: 0 <= i < |parts| ==> c !in parts[i]
    requires parts == [] || parts[|parts| - 1] != []
    ensures var xs := Inserted(parts, n, host);
            (forall i :: 0 <= i < |xs| ==> c !in xs[i]) && xs[|xs| - 1] != []
  {
    var xs := Inserted(parts, n, host);
    forall i | 0 <= i < |xs|
      ensures c !in xs[i]
    {
      if i < n {
        assert xs[i] == (xs[..n] + xs[n + 1..])[i];
      } else if i > n {
        assert xs[i] == (xs[..n] + xs[n + 1..])[i - 1];
      }
    }
    if n < |parts| {
      assert xs[|xs| - 1] == (xs[..n] + xs[n + 1..])[|parts| - 1];
    }
  }

  /** With a prefix length at least the number of parts, the host comes
      last. */
  lemma InterpolateSchemaHostLast(name: string, host: string, prefixLength: nat)
    requires prefixLength >= |Split(name, '.')|
    ensures InterpolateSchema(name, host, prefixLength) == Ok(Join(Split(name, '.') + [host], "."))
  {
    var parts := Split(name, '.');
    assert Inserted(parts, |parts|, host) == parts + [host];
  }

  // ---------------------------------------------------------------------------
  // parse_time

  /** `parse_time`: an Integer is returned as it is, a Time as its epoch
      seconds and an all-digit string as its value. Anything else goes to
      `DateTime.parse`, whose verdict on the text is the `parse` argument;
      when it finds no date the RuntimeError "cannot parse timestamp" is
      raised. */
  function ParseTime(t: Dyn, parse: string -> Option<int>): (r: Result<int>)
    ensures r.Err? ==> r.error == CannotParseTimestamp
    ensures t.Int? ==> r == Ok(t.i)
    ensures t.Time? ==> r == Ok(t.seconds)
    ensures t.Str? && t.s != [] && AllDigits(t.s) ==> r == Ok(DigitsValue(t.s))
  {
    if t.Int? then Ok(t.i)
    else if t.Time? then Ok(t.seconds)
    else if t.Str? && t.s != [] && AllDigits(t.s) then
      StrToIOfDigits(t.s);
      Ok(StrToI(t.s))
    else if parse(ToS(t)).Some? then Ok(parse(ToS(t)).value)
    else Err(CannotParseTimestamp)
  }

  /** The decimal text of an epoch time parses back to that time, whatever
      the date parser would say. */
  lemma ParseTimeOfNumeral(n: nat, parse: string -> Option<int>)
    ensures ParseTime(Str(NatToString(n)), parse) == Ok(n)
  {
    DigitsValueOfNatToString(n);
  }

  // ---------------------------------------------------------------------------
  // time_to_ms

  /** `time_to_ms`: false (None) for anything but an Integer, and the
      milliseconds of an Integer count of seconds. The float product is
      exact here. */
  function TimeToMs(t: Dyn): (r: Option<int>)
    ensures r.Some? <==> t.Int?
    ensures r.Some? ==> r.value % 1000 == 0 && r.value / 1000 == t.i
  {
    if t.Int? then Some(t.i * 1000) else None
  }

  // ---------------------------------------------------------------------------
  // uri_concat

  /** `uri_concat(*args)`: the arguments joined with '/' and every run of
      '/' squeezed to one. */
  function UriConcat(args: seq<string>): (r: string)
  {
    Squeeze(Join(args, "/"), '/')
  }

  /** The result never holds "//", and apart from slashes it holds exactly
      the characters of the arguments, in order; a "//" anywhere in the
      joined text gives the result of a single '/' there, so each run of
      slashes leaves exactly one. */
  lemma UriConcatMeaning(args: seq<string>)
    ensures var r := UriConcat(args);
            && (forall i :: 0 <= i < |r| - 1 ==> !(r[i] == '/' && r[i + 1] == '/'))
            && Without(r, '/') == Without(Join(args, "/"), '/')
    ensures forall x, y :: Join(args, "/") == x + "//" + y ==> UriConcat(args) == Squeeze(x + "/" + y, '/')
  {
    SqueezeHasNoDouble(Join(args, "/"), '/');
    SqueezeKeepsOtherCharacters(Join(args, "/"), '/');
    forall x, y | Join(args, "/") == x + "//" + y
      ensures UriConcat(args) == Squeeze(x + "/" + y, '/')
    {
      SqueezePair(x, y, '/');
    }
  }

  /** Squeezing a string with no doubled `c` leaves it alone. */
  lemma {:induction false} SqueezeOfSqueezed(s: string, c: char)
    requires forall i :: 0 <= i < |s| - 1 ==> !(s[i] == c && s[i + 1] == c)
    ensures Squeeze(s, c) == s
  {
    if |s| > 1 {
      SqueezeOfSqueezed(s[1..], c);
      assert [s[0]] + s[1..] == s;
    }
  }

  /** A concatenated URI concatenated again on its own is unchanged. */
  lemma UriConcatIdempotent(args: seq<string>)
    ensures UriConcat([UriConcat(args)]) == UriConcat(args)
  {
    UriConcatMeaning(args);
    SqueezeOfSqueezed(UriConcat(args), '/');
  }

  // ---------------------------------------------------------------------------
  // hash_to_qs, before URI.escape

  /** `[k, v].join('=')` for each pair, in the hash's order. */
  function PairTexts(payload: seq<(string, string)>): (r: seq<string>)
    ensures |r| == |payload| && forall i :: 0 <= i < |payload| ==> r[i] == payload[i].0 + "=" + payload[i].1
  {
    if payload == [] then [] else [payload[0].0 + "=" + payload[0].1] + PairTexts(payload[1..])
  }

  /** The query string `hash_to_qs` hands to `URI.escape`. */
  function QueryString(payload: seq<(string, string)>): string
  {
    Join(PairTexts(payload), "&")
  }

  /** Reading a query string back: split on '&', then each item on '='. */
  function ParseQuery(q: string): Option<seq<(string, string)>>
  {
    ParseItems(Split(q, '&'))
  }

  function ParseItems(items: seq<string>): Option<seq<(string, string)>>
  {
    if items == [] then Some([])
    else
      var kv := Split(items[0], '=');
      match ParseItems(items[1..])
      case Some(rest) => if |kv| == 2 then Some([(kv[0], kv[1])] + rest) else None
      case None => None
  }

  predicate PlainPair(pair: (string, string))
  {
    '&' !in pair.0 && '=' !in pair.0 && '&' !in pair.1 && '=' !in pair.1 && pair.1 != []
  }

  /** A query string of pairs with no '&' or '=' of their own and non-empty
      values reads back as those pairs, in order. */
  lemma QueryStringReadsBack(payload: seq<(string, string)>)
    requires forall i :: 0 <= i < |payload| ==> PlainPair(payload[i])
    ensures ParseQuery(QueryString(payload)) == Some(payload)
  {
    var texts := PairTexts(payload);
    forall i | 0 <= i < |texts|
      ensures '&' !in texts[i]
    {
      assert texts[i] == payload[i].0 + "=" + payload[i].1;
    }
    if texts != [] {
      assert texts[|texts| - 1] != [];
    }
    SplitJoin(texts, '&');
    ParseItemsOfTexts(payload);
  }

  lemma {:induction false} ParseItemsOfTexts(payload: seq<(string, string)>)
    requires forall i :: 0 <= i < |payload| ==> PlainPair(payload[i])
    ensures ParseItems(PairTexts(payload)) == Some(payload)
  {
    if payload != [] {
      var k := payload[0].0;
      var v := payload[0].1;
      ParseItemsOfTexts(payload[1..]);
      assert PairTexts(payload)[1..] == PairTexts(payload[1..]);
      SplitJoin([k, v], '=');
      JoinCons(k, [v], "=");
      assert [(k, v)] + payload[1..] == payload;
    }
  }
}
