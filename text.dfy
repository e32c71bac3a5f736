/** Ruby's string operations that the submission path relies on: `Array#join`,
    `String#split` with a one-character separator, with the regular expression
    `/\s+/` and with no argument, `String#squeeze`, `Integer#to_s` and
    `String#to_i`. */
module Text {

  predicate IsDigit(c: char) { '0' <= c <= '9' }

  /** Ruby's `\w` without the Unicode flag: `[a-zA-Z0-9_]`. */
  predicate IsWordChar(c: char) { 'a' <= c <= 'z' || 'A' <= c <= 'Z' || IsDigit(c) || c == '_' }

  /** Ruby's `\s` (and the characters `String#split` with no argument skips):
      space, tab, line feed, vertical tab, form feed, carriage return. */
  predicate IsSpace(c: char) {
    c == ' ' || c == '\t' || c == '\n' || c == '\U{B}' || c == '\U{C}' || c == '\r'
  }

  predicate AllDigits(s: string) { forall i :: 0 <= i < |s| ==> IsDigit(s[i]) }

  predicate NoSpace(s: string) { forall i :: 0 <= i < |s| ==> !IsSpace(s[i]) }

  // ---------------------------------------------------------------------------
  // Array#join

  /** `parts.join(sep)`. */
  function Join(parts: seq<string>, sep: string): string
  {
    if |parts| == 0 then ""
    else if |parts| == 1 then parts[0]
    else parts[0] + sep + Join(parts[1..], sep)
  }

  /** Concatenation regroups; stated once for any element type, so that no
      element's own equality is ever unfolded. */
  lemma ConcatAssoc<T>(a: seq<T>, b: seq<T>, c: seq<T>)
    ensures (a + b) + c == a + (b + c)
  {
  }

  /** Dropping the front of a concatenation leaves its back. */
  lemma DropFront<T>(a: seq<T>, b: seq<T>)
    ensures (a + b)[|a|..] == b
  {
  }

  lemma JoinCons(p: string, rest: seq<string>, sep: string)
    requires rest != []
    ensures Join([p] + rest, sep) == p + sep + Join(rest, sep)
  {
    assert ([p] + rest)[1..] == rest;
  }

  /** `Array#index`: the first position of `c`. */
  function IndexOf(s: string, c: char): (r: nat)
    requires c in s
    ensures r < |s| && s[r] == c && c !in s[..r]
  {
    if s[0] == c then 0 else 1 + IndexOf(s[1..], c)
  }

  /** Joining one more part adds the separator and the part. */
  lemma JoinSnoc(parts: seq<string>, p: string, sep: string)
    requires parts != []
    ensures Join(parts + [p], sep) == Join(parts, sep) + sep + p
    decreases |parts|
  {
    if |parts| == 1 {
      assert parts + [p] == [parts[0], p];
    } else {
      assert (parts + [p])[1..] == parts[1..] + [p];
      JoinSnoc(parts[1..], p, sep);
    }
  }

  /** Joining two non-empty lists puts one separator between their joins. */
  lemma {:induction false} JoinAppend(a: seq<string>, b: seq<string>, sep: string)
    requires a != [] && b != []
    ensures Join(a + b, sep) == Join(a, sep) + sep + Join(b, sep)
  {
    if |a| == 1 {
      JoinCons(a[0], b, sep);
      assert a + b == [a[0]] + b;
    } else {
      JoinAppend(a[1..], b, sep);
      assert (a + b)[1..] == a[1..] + b;
      assert Join(a + b, sep) == a[0] + sep + Join(a[1..] + b, sep);
    }
  }

  // ---------------------------------------------------------------------------
  // String#split with a one-character literal separator (no limit)

  /** Every field between separators, empty ones included: `|Fields(s, c)|` is
      one more than the number of `c` in `s`. */
  function Fields(s: string, c: char): (r: seq<string>)
    ensures |r| >= 1
    ensures forall i :: 0 <= i < |r| ==> c !in r[i]
  {
    if s == [] then [[]]
    else
      var r := Fields(s[1..], c);
      if s[0] == c then [[]] + r else [[s[0]] + r[0]] + r[1..]
  }

  /** Ruby drops the trailing empty fields when `split` is given no limit. */
  function DropTrailingEmpty(xs: seq<string>): (r: seq<string>)
    ensures |r| <= |xs| && r == xs[..|r|]
    ensures r == [] || r[|r| - 1] != []
    ensures forall k :: |r| <= k < |xs| ==> xs[k] == []
  {
    if xs == [] then []
    else if xs[|xs| - 1] == [] then DropTrailingEmpty(xs[..|xs| - 1])
    else xs
  }

  /** `s.split(c)` for a one-character string `c`. */
  function Split(s: string, c: char): (r: seq<string>)
    ensures forall i :: 0 <= i < |r| ==> c !in r[i]
    ensures r == [] || r[|r| - 1] != []
  {
    DropTrailingEmpty(Fields(s, c))
  }

  /** Joining the raw fields back with the separator gives the string back. */
  lemma {:induction false} JoinFields(s: string, c: char)
    ensures Join(Fields(s, c), [c]) == s
  {
    if s != [] {
      var r := Fields(s[1..], c);
      JoinFields(s[1..], c);
      if s[0] == c {
        JoinCons([], r, [c]);
      } else if |r| == 1 {
        assert Fields(s, c) == [[s[0]] + r[0]];
      } else {
        JoinCons([s[0]] + r[0], r[1..], [c]);
        JoinCons(r[0], r[1..], [c]);
        assert [r[0]] + r[1..] == r;
      }
    }
  }

  lemma {:induction false} FieldsOfSeparatorFree(p: string, c: char)
    requires c !in p
    ensures Fields(p, c) == [p]
  {
    if p != [] {
      FieldsOfSeparatorFree(p[1..], c);
      assert [p[0]] + p[1..] == p;
    }
  }

  lemma {:induction false} FieldsOfAppend(p: string, rest: string, c: char)
    requires c !in p
    ensures Fields(p + [c] + rest, c) == [p] + Fields(rest, c)
  {
    if p == [] {
      assert p + [c] + rest == [c] + rest;
      assert ([c] + rest)[1..] == rest;
    } else {
      assert (p + [c] + rest)[1..] == p[1..] + [c] + rest;
      FieldsOfAppend(p[1..], rest, c);
      assert [p[0]] + p[1..] == p;
    }
  }

  /** Splitting the joined fields gives them back, provided no field holds the
      separator: the round trip of `join` and raw splitting. */
  lemma {:induction false} FieldsOfJoin(parts: seq<string>, c: char)
    requires parts != []
    requires forall i :: 0 <= i < |parts| ==> c !in parts[i]
    ensures Fields(Join(parts, [c]), c) == parts
  {
    if |parts| == 1 {
      FieldsOfSeparatorFree(parts[0], c);
    } else {
      FieldsOfJoin(parts[1..], c);
      FieldsOfAppend(parts[0], Join(parts[1..], [c]), c);
      assert parts[0] + [c] + Join(parts[1..], [c]) == Join(parts, [c]);
      assert [parts[0]] + parts[1..] == parts;
    }
  }

  /** Ruby's `split` inverts `join` when no part holds the separator and the last
      part is not empty (empty trailing parts are what `split` drops). */
  lemma SplitJoin(parts: seq<string>, c: char)
    requires forall i :: 0 <= i < |parts| ==> c !in parts[i]
    requires parts == [] || parts[|parts| - 1] != []
    ensures Split(Join(parts, [c]), c) == parts
  {
    if parts == [] {
      assert Fields("", c) == [[]];
      assert DropTrailingEmpty([[]]) == DropTrailingEmpty([]);
    } else {
      FieldsOfJoin(parts, c);
    }
  }

  /** Some field after the first is not empty. */
  ghost predicate LaterFieldNonEmpty(xs: seq<string>) {
    exists k :: 1 <= k < |xs| && xs[k] != []
  }

  /** A separator followed, somewhere later, by a character that is not one. */
  ghost predicate InnerSeparator(s: string, c: char) {
    exists i, j :: 0 <= i < j < |s| && s[i] == c && s[j] != c
  }

  lemma DropTrailingEmptyLength(xs: seq<string>)
    requires xs != []
    ensures |DropTrailingEmpty(xs)| > 1 <==> LaterFieldNonEmpty(xs)
  {
    var r := DropTrailingEmpty(xs);
    if |r| > 1 {
      assert xs[|r| - 1] == r[|r| - 1] != [];
    }
    if LaterFieldNonEmpty(xs) {
      var k :| 1 <= k < |xs| && xs[k] != [];
      assert k < |r|;
    }
  }

  lemma {:induction false} SomeFieldNonEmpty(s: string, c: char)
    ensures (exists k :: 0 <= k < |Fields(s, c)| && Fields(s, c)[k] != [])
        <==> (exists j :: 0 <= j < |s| && s[j] != c)
  {
    if s != [] {
      var r := Fields(s[1..], c);
      SomeFieldNonEmpty(s[1..], c);
      var f := Fields(s, c);
      if s[0] == c {
        if exists k :: 0 <= k < |f| && f[k] != [] {
          var k :| 0 <= k < |f| && f[k] != [];
          assert r[k - 1] != [];
          var j :| 0 <= j < |s[1..]| && s[1..][j] != c;
          assert s[j + 1] != c;
        }
        if exists j :: 0 <= j < |s| && s[j] != c {
          var j :| 0 <= j < |s| && s[j] != c;
          assert s[1..][j - 1] != c;
          var k :| 0 <= k < |r| && r[k] != [];
          assert f[k + 1] != [];
        }
      } else {
        assert f[0] != [];
      }
    }
  }

  /** A leading separator: a later field is non-empty exactly when some
      character of the rest is not a separator. */
  lemma LaterFieldAfterSeparator(s: string, c: char)
    requires s != [] && s[0] == c
    ensures LaterFieldNonEmpty(Fields(s, c)) <==> InnerSeparator(s, c)
  {
    var r := Fields(s[1..], c);
    var f := Fields(s, c);
    var t := s[1..];
    SomeFieldNonEmpty(t, c);
    if LaterFieldNonEmpty(f) {
      var k :| 1 <= k < |f| && f[k] != [];
      assert r[k - 1] != [];
      var j :| 0 <= j < |t| && t[j] != c;
      assert s[0] == c && s[j + 1] != c;
    }
    if InnerSeparator(s, c) {
      var i, j :| 0 <= i < j < |s| && s[i] == c && s[j] != c;
      assert t[j - 1] != c;
      var k :| 0 <= k < |r| && r[k] != [];
      assert f[k + 1] != [];
    }
  }

  /** A leading ordinary character changes neither side of the equivalence. */
  lemma LaterFieldAfterOther(s: string, c: char)
    requires s != [] && s[0] != c
    ensures LaterFieldNonEmpty(Fields(s, c)) <==> LaterFieldNonEmpty(Fields(s[1..], c))
    ensures InnerSeparator(s, c) <==> InnerSeparator(s[1..], c)
  {
    var r := Fields(s[1..], c);
    var f := Fields(s, c);
    var t := s[1..];
    if LaterFieldNonEmpty(f) {
      var k :| 1 <= k < |f| && f[k] != [];
      assert r[k] != [];
    }
    if LaterFieldNonEmpty(r) {
      var k :| 1 <= k < |r| && r[k] != [];
      assert f[k] != [];
    }
    if InnerSeparator(t, c) {
      var i, j :| 0 <= i < j < |t| && t[i] == c && t[j] != c;
      assert s[i + 1] == c && s[j + 1] != c;
    }
    if InnerSeparator(s, c) {
      var i, j :| 0 <= i < j < |s| && s[i] == c && s[j] != c;
      assert t[i - 1] == c && t[j - 1] != c;
    }
  }

  lemma {:induction false} LaterFieldIffInnerSeparator(s: string, c: char)
    ensures LaterFieldNonEmpty(Fields(s, c)) <==> InnerSeparator(s, c)
  {
    if s != [] {
      if s[0] == c {
        LaterFieldAfterSeparator(s, c);
      } else {
        LaterFieldAfterOther(s, c);
        LaterFieldIffInnerSeparator(s[1..], c);
      }
    }
  }

  /** `s.split(c).length > 1` exactly when some separator is followed later by
      a character other than the separator ("a.b" and ".a" split into two
      pieces, "a." and "a.." into one, because the trailing empty pieces go). */
  lemma SplitHasSeveralPieces(s: string, c: char)
    ensures |Split(s, c)| > 1 <==> InnerSeparator(s, c)
  {
    DropTrailingEmptyLength(Fields(s, c));
    LaterFieldIffInnerSeparator(s, c);
  }

  // ---------------------------------------------------------------------------
  // String#split with /\s+/ and a limit, and String#split with no argument

  /** Index of the first whitespace character at or after `from`, if any. */
  function FirstSpace(s: string, from: nat): (r: nat)
    requires from <= |s|
    decreases |s| - from
    ensures from <= r <= |s|
    ensures r < |s| ==> IsSpace(s[r])
    ensures forall k :: from <= k < r ==> !IsSpace(s[k])
  {
    if from == |s| || IsSpace(s[from]) then from else FirstSpace(s, from + 1)
  }

  /** End of the run of whitespace starting at `from`. */
  function SpaceRunEnd(s: string, from: nat): (r: nat)
    requires from <= |s|
    decreases |s| - from
    ensures from <= r <= |s|
    ensures r < |s| ==> !IsSpace(s[r])
    ensures forall k :: from <= k < r ==> IsSpace(s[k])
  {
    if from == |s| || !IsSpace(s[from]) then from else SpaceRunEnd(s, from + 1)
  }

  /** The splitting of a non-empty remainder: at most `limit` fields, the last
      one holding the unsplit rest (which may be empty). */
  function SplitWsRest(s: string, limit: nat): (r: seq<string>)
    requires limit >= 1
    decreases |s|
    ensures 1 <= |r| <= limit
    ensures forall k :: 0 <= k < |r| - 1 ==> NoSpace(r[k])
  {
    var i := FirstSpace(s, 0);
    if limit == 1 || i == |s| then [s]
    else
      var j := SpaceRunEnd(s, i);
      [s[..i]] + SplitWsRest(s[j..], limit - 1)
  }

  /** `s.split(/\s+/, limit)`: for `limit >= 1` at most `limit` fields with the
      trailing empty field kept; for `limit == 0` no bound and trailing empty
      fields dropped. A leading run of whitespace yields an empty first field,
      and the empty string splits into no fields at all. */
  function SplitWs(s: string, limit: nat): (r: seq<string>)
    ensures limit >= 1 ==> |r| <= limit
    ensures s != [] && limit >= 1 ==> |r| >= 1
    ensures forall k :: 0 <= k < |r| - 1 ==> NoSpace(r[k])
  {
    if s == [] then []
    else if limit >= 1 then SplitWsRest(s, limit)
    else DropTrailingEmpty(SplitWsRest(s, |s| + 1))
  }

  lemma FirstSpaceOf(s: string, from: nat, to: nat)
    requires from <= to < |s| && IsSpace(s[to])
    requires forall k :: from <= k < to ==> !IsSpace(s[k])
    ensures FirstSpace(s, from) == to
    decreases |s| - from
  {
    if from < to {
      FirstSpaceOf(s, from + 1, to);
    }
  }

  /** Three columns separated by single spaces split back into themselves;
      the last keeps any spaces of its own. */
  lemma SplitThreeColumns(m: string, v: string, t: string)
    requires m != [] && v != [] && t != [] && NoSpace(m) && NoSpace(v) && !IsSpace(t[0])
    ensures SplitWs(m + " " + v + " " + t, 3) == [m, v, t]
  {
    var rest := v + " " + t;
    assert m + " " + v + " " + t == m + " " + rest;
    SplitColumn(m, rest, 3);
    SplitColumn(v, t, 2);
    assert SplitWsRest(t, 1) == [t];
  }

  /** A word, one space and a rest not starting with a space: the word is a
      column and the rest is split into one column fewer. */
  lemma SplitColumn(w: string, rest: string, limit: nat)
    requires w != [] && rest != [] && NoSpace(w) && !IsSpace(rest[0]) && limit >= 2
    ensures SplitWsRest(w + " " + rest, limit) == [w] + SplitWsRest(rest, limit - 1)
  {
    var l := w + " " + rest;
    assert l[|w|] == ' ';
    assert forall k :: 0 <= k < |w| ==> l[k] == w[k];
    FirstSpaceOf(l, 0, |w|);
    assert l[|w| + 1] == rest[0];
    assert SpaceRunEnd(l, |w|) == |w| + 1;
    assert l[|w| + 1..] == rest && l[..|w|] == w;
  }

  /** The longest prefix holding no whitespace. */
  function TakeWord(s: string): (w: string)
    ensures |w| <= |s| && w == s[..|w|] && NoSpace(w)
    ensures |w| < |s| ==> IsSpace(s[|w|])
    ensures s != [] && !IsSpace(s[0]) ==> w != []
  {
    s[..FirstSpace(s, 0)]
  }

  /** `s.split` with no argument: the maximal runs of non-whitespace, leading
      and trailing whitespace ignored. */
  function Words(s: string): (r: seq<string>)
    decreases |s|
    ensures forall k :: 0 <= k < |r| ==> r[k] != [] && NoSpace(r[k])
  {
    var i := SpaceRunEnd(s, 0);
    if i == |s| then []
    else
      var t := s[i..];
      assert t[0] == s[i];
      var w := TakeWord(t);
      [w] + Words(t[|w|..])
  }

  /** A string that starts with a non-space starts with its first word. */
  lemma WordsOfWordStart(s: string)
    requires s != [] && !IsSpace(s[0])
    ensures Words(s) == [TakeWord(s)] + Words(s[|TakeWord(s)|..])
  {
    assert SpaceRunEnd(s, 0) == 0;
    assert s[0..] == s;
  }

  /** The first word of a word followed by a space is that word. */
  lemma TakeWordOf(w: string, rest: string)
    requires w != [] && NoSpace(w)
    ensures TakeWord(w + " " + rest) == w
  {
    var s := w + " " + rest;
    assert s[|w|] == ' ';
    assert forall k :: 0 <= k < |w| ==> s[k] == w[k];
    FirstSpaceOf(s, 0, |w|);
    assert s[..|w|] == w;
  }

  /** A word and a space in front of a rest that starts with no space: the
      word is the first word and the rest's words follow. */
  lemma WordsCons(w: string, rest: string)
    requires w != [] && NoSpace(w) && (rest == [] || !IsSpace(rest[0]))
    ensures Words(w + " " + rest) == [w] + Words(rest)
  {
    var s := w + " " + rest;
    TakeWordOf(w, rest);
    assert s[0] == w[0];
    WordsOfWordStart(s);
    ConcatAssoc(w, " ", rest);
    DropFront(w, " " + rest);
    WordsAfterSpace(rest);
  }

  /** Two words and a rest that starts with no space: the two words come
      first. */
  lemma WordsOfTwoAndRest(m: string, v: string, t: string)
    requires m != [] && v != [] && NoSpace(m) && NoSpace(v) && t != [] && !IsSpace(t[0])
    ensures Words(m + " " + v + " " + t) == [m, v] + Words(t)
  {
    WordsCons(v, t);
    ConcatAssoc(m + " ", v, " " + t);
    ConcatAssoc(m, " ", v + " " + t);
    assert m + " " + v + " " + t == m + " " + (v + " " + t);
    WordsCons(m, v + " " + t);
  }

  /** One space in front of a rest that starts with no space changes no
      word. */
  lemma WordsAfterSpace(rest: string)
    requires rest == [] || !IsSpace(rest[0])
    ensures Words(" " + rest) == Words(rest)
  {
    var u := " " + rest;
    assert SpaceRunEnd(u, 1) == 1;
    assert SpaceRunEnd(u, 0) == 1;
    assert u[1..] == rest;
    assert SpaceRunEnd(rest, 0) == 0;
    assert rest[0..] == rest;
  }

  /** The first character of a join is that of its first part. */
  lemma JoinHead(parts: seq<string>, sep: string)
    requires parts != [] && parts[0] != []
    ensures Join(parts, sep) != [] && Join(parts, sep)[0] == parts[0][0]
  {
  }

  /** Words joined by single spaces split back into those words. */
  lemma {:induction false} WordsOfJoin(ws: seq<string>)
    requires forall k :: 0 <= k < |ws| ==> ws[k] != [] && NoSpace(ws[k])
    ensures Words(Join(ws, " ")) == ws
  {
    if |ws| == 1 {
      var w := ws[0];
      assert Join(ws, " ") == w;
      assert FirstSpace(w, 0) == |w|;
      assert TakeWord(w) == w;
      assert Words([]) == [];
      assert SpaceRunEnd(w, 0) == 0;
      assert w[0..] == w && w[|w|..] == [];
    } else if |ws| > 1 {
      WordsOfJoin(ws[1..]);
      JoinHead(ws[1..], " ");
      WordsCons(ws[0], Join(ws[1..], " "));
    }
  }

  // ---------------------------------------------------------------------------
  // String#squeeze with one character

  /** `s.squeeze(c)`: every run of `c` collapsed to one `c`. */
  function Squeeze(s: string, c: char): (r: string)
    decreases |s|
    ensures |r| <= |s|
    ensures s != [] ==> r != [] && r[0] == s[0]
  {
    if |s| <= 1 then s
    else if s[0] == c && s[1] == c then Squeeze(s[1..], c)
    else [s[0]] + Squeeze(s[1..], c)
  }

  /** The string with every `c` removed: what squeezing must leave alone. */
  function Without(s: string, c: char): string
  {
    if s == [] then [] else (if s[0] == c then [] else [s[0]]) + Without(s[1..], c)
  }

  /** `squeeze` leaves no two `c` next to each other. */
  lemma {:induction false} SqueezeHasNoDouble(s: string, c: char)
    ensures forall i :: 0 <= i < |Squeeze(s, c)| - 1 ==>
      !(Squeeze(s, c)[i] == c && Squeeze(s, c)[i + 1] == c)
  {
    if |s| > 1 {
      SqueezeHasNoDouble(s[1..], c);
      var r := Squeeze(s, c);
      var t := Squeeze(s[1..], c);
      if !(s[0] == c && s[1] == c) {
        assert r == [s[0]] + t;
        forall i | 0 <= i < |r| - 1 ensures !(r[i] == c && r[i + 1] == c) {
          if i == 0 {
            assert r[1] == t[0] == s[1];
          } else {
            assert r[i] == t[i - 1] && r[i + 1] == t[i];
          }
        }
      }
    }
  }

  /** `squeeze` removes copies of `c` only: every other character survives, in
      order. */
  lemma {:induction false} SqueezeKeepsOtherCharacters(s: string, c: char)
    ensures Without(Squeeze(s, c), c) == Without(s, c)
  {
    if |s| > 1 {
      SqueezeKeepsOtherCharacters(s[1..], c);
      if s[0] == c && s[1] == c {
        assert Without(s, c) == Without(s[1..], c);
      } else {
        var t := Squeeze(s[1..], c);
        assert ([s[0]] + t)[1..] == t;
      }
    }
  }

  /** A doubled `c` anywhere squeezes as a single one: with
      `SqueezeOfSqueezed`, this fixes what `squeeze` gives for every string. */
  lemma {:induction false} SqueezePair(x: string, y: string, c: char)
    ensures Squeeze(x + [c, c] + y, c) == Squeeze(x + [c] + y, c)
    decreases |x|
  {
    var s, t := x + [c, c] + y, x + [c] + y;
    if x == [] {
      assert s[1..] == t;
    } else {
      SqueezePair(x[1..], y, c);
      assert s[1..] == x[1..] + [c, c] + y;
      assert t[1..] == x[1..] + [c] + y;
      assert s[0] == t[0] && s[1] == t[1];
    }
  }

  // ---------------------------------------------------------------------------
  // Integer#to_s and parsing digits

  function DigitChar(d: nat): (c: char)
    requires d < 10
    ensures IsDigit(c)
  {
    ('0' as int + d) as char
  }

  function DigitOf(c: char): (d: nat)
    requires IsDigit(c)
    ensures d < 10 && DigitChar(d) == c
  {
    (c as int - '0' as int) as nat
  }

  /** Decimal rendering of a natural number, without leading zeros. */
  function NatToString(n: nat): (r: string)
    decreases n
    ensures |r| >= 1 && AllDigits(r)
    ensures r[0] == '0' ==> n == 0 && r == "0"
  {
    if n < 10 then [DigitChar(n)] else NatToString(n / 10) + [DigitChar(n % 10)]
  }

  /** `Integer#to_s`. */
  function IntToString(i: int): (r: string)
    ensures |r| >= 1 && forall k :: 0 <= k < |r| ==> r[k] == '-' || IsDigit(r[k])
    ensures NoSpace(r) && '"' !in r
  {
    var r := if i < 0 then "-" + NatToString(-i) else NatToString(i);
    assert forall k :: 0 <= k < |r| ==> r[k] == '-' || IsDigit(r[k]);
    r
  }

  /** The value of a string of decimal digits. */
  function DigitsValue(s: string): nat
    requires AllDigits(s)
  {
    if s == [] then 0 else DigitsValue(s[..|s| - 1]) * 10 + DigitOf(s[|s| - 1])
  }

  lemma {:induction false} DigitsValueOfNatToString(n: nat)
    ensures DigitsValue(NatToString(n)) == n
  {
    if n >= 10 {
      var s := NatToString(n);
      DigitsValueOfNatToString(n / 10);
      assert s[..|s| - 1] == NatToString(n / 10);
    }
  }

  /** A digit string without a leading zero (or "0" itself) is the rendering of
      its value: decimal rendering and parsing are inverse. */
  lemma {:induction false} NatToStringOfDigits(s: string)
    requires |s| >= 1 && AllDigits(s)
    requires s[0] != '0' || |s| == 1
    ensures NatToString(DigitsValue(s)) == s
  {
    var n := DigitsValue(s);
    if |s| == 1 {
      assert s[..0] == [];
    } else {
      var p := s[..|s| - 1];
      NatToStringOfDigits(p);
      LeadingDigitBound(p);
      assert n / 10 == DigitsValue(p) && n % 10 == DigitOf(s[|s| - 1]);
      assert s == p + [s[|s| - 1]];
    }
  }

  lemma {:induction false} LeadingDigitBound(s: string)
    requires |s| >= 1 && AllDigits(s) && s[0] != '0'
    ensures DigitsValue(s) >= 1
  {
    if |s| > 1 {
      LeadingDigitBound(s[..|s| - 1]);
    }
  }

  // ---------------------------------------------------------------------------
  // String#to_i

  /** Length of the longest prefix of the form digit ('_'? digit)*: the digits
      `String#to_i` reads (single underscores between digits are allowed). */
  function NumeralLength(t: string): (n: nat)
    ensures n <= |t|
  {
    if t == [] || !IsDigit(t[0]) then 0
    else if |t| >= 3 && t[1] == '_' && IsDigit(t[2]) then 2 + NumeralLength(t[2..])
    else 1 + NumeralLength(t[1..])
  }

  function DigitsOnly(t: string): (r: string)
    ensures AllDigits(r)
  {
    if t == [] then [] else (if IsDigit(t[0]) then [t[0]] else []) + DigitsOnly(t[1..])
  }

  function NumeralValue(t: string): nat
  {
    DigitsValue(DigitsOnly(t[..NumeralLength(t)]))
  }

  /** `String#to_i`: leading whitespace skipped, an optional sign, then the
      numeral; 0 when there is none. */
  function StrToI(s: string): int
  {
    var t := s[SpaceRunEnd(s, 0)..];
    var magnitude: int := if t != [] && (t[0] == '-' || t[0] == '+') then NumeralValue(t[1..]) else NumeralValue(t);
    if t != [] && t[0] == '-' then -magnitude else magnitude
  }

  lemma {:induction false} NumeralOfDigits(t: string)
    requires AllDigits(t)
    ensures NumeralLength(t) == |t| && DigitsOnly(t) == t
  {
    if t != [] {
      NumeralOfDigits(t[1..]);
      assert [t[0]] + t[1..] == t;
    }
  }

  /** `to_i` of a string of digits is its decimal value. */
  lemma StrToIOfDigits(s: string)
    requires AllDigits(s)
    ensures StrToI(s) == DigitsValue(s)
  {
    NumeralOfDigits(s);
    if s != [] {
      assert SpaceRunEnd(s, 0) == 0;
      assert s[0..] == s && s[..|s|] == s;
    }
  }

  /** `to_i` reads back what `to_s` writes. */
  lemma StrToIOfIntToString(i: int)
    ensures StrToI(IntToString(i)) == i
  {
    var s := IntToString(i);
    assert SpaceRunEnd(s, 0) == 0;
    assert s[0..] == s;
    var digits := NatToString(if i < 0 then -i else i);
    NumeralOfDigits(digits);
    assert digits[..|digits|] == digits;
    DigitsValueOfNatToString(if i < 0 then -i else i);
    if i < 0 {
      assert s[1..] == digits;
    }
  }
}
