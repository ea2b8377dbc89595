/** String operations the service relies on: joining and splitting on a
    separator, reading the parameters of a URL's query string, decimal
    rendering of numbers, ASCII lower-casing and substring search. */
module Text {
  import opened Base

  // ---------------------------------------------------------------------------
  // Separators
  // ---------------------------------------------------------------------------

  /** The position of the first occurrence of `c` in `s`. */
  function IndexOf(s: string, c: char): (r: Option<nat>)
    ensures r.Some? ==> r.value < |s| && s[r.value] == c && c !in s[..r.value]
    ensures r.None? ==> c !in s
  {
    var r := FirstIndex(s, (x: char) => x == c);
    if r.Some? then
      assert forall k :: 0 <= k < r.value ==> s[..r.value][k] != c;
      r
    else
      r
  }

  /** `a + [c] + b` has its first `c` right after `a` when `a` has none. */
  lemma IndexOfAfter(a: string, c: char, b: string)
    requires c !in a
    ensures IndexOf(a + [c] + b, c) == Some(|a|)
  {
    var s := a + [c] + b;
    assert s[|a|] == c;
    assert forall k :: 0 <= k < |a| ==> s[k] == a[k];
    forall k | |a| < k <= |s|
      ensures c in s[..k]
    {
      assert s[..k][|a|] == c;
    }
  }

  /** The parts joined with `sep` between consecutive parts. */
  function Join(parts: seq<string>, sep: char): string
  {
    if |parts| == 0 then ""
    else if |parts| == 1 then parts[0]
    else parts[0] + [sep] + Join(parts[1..], sep)
  }

  /** `s` cut at every occurrence of `sep`; there is always at least one piece
      and no piece contains the separator. */
  function Split(s: string, sep: char): (r: seq<string>)
    ensures |r| >= 1
    ensures forall i :: 0 <= i < |r| ==> sep !in r[i]
    decreases |s|
  {
    match IndexOf(s, sep)
    case None => [s]
    case Some(k) => [s[..k]] + Split(s[k + 1..], sep)
  }

  /** Joining four parts, unfolded. */
  lemma JoinFour(a: string, b: string, c: string, d: string, sep: char)
    ensures Join([a, b, c, d], sep) == a + [sep] + (b + [sep] + (c + [sep] + d))
  {
    assert Join([d], sep) == d;
    assert [c, d][1..] == [d];
    assert Join([c, d], sep) == c + [sep] + d;
    assert [b, c, d][1..] == [c, d];
    assert Join([b, c, d], sep) == b + [sep] + (c + [sep] + d);
    assert [a, b, c, d][1..] == [b, c, d];
  }

  /** A four-parameter query string, written out piece by piece. */
  lemma QueryOfFour(base: string, k0: string, v0: string, k1: string, v1: string,
                    k2: string, v2: string, k3: string, v3: string)
    ensures base + "?" + Join([k0 + "=" + v0, k1 + "=" + v1, k2 + "=" + v2, k3 + "=" + v3], '&')
      == base + ("?" + k0 + "=") + v0 + ("&" + k1 + "=" + v1) + ("&" + k2 + "=") + v2 + ("&" + k3 + "=" + v3)
  {
    JoinFour(k0 + "=" + v0, k1 + "=" + v1, k2 + "=" + v2, k3 + "=" + v3, '&');
  }

  /** Splitting undoes joining when no part contains the separator. */
  lemma {:induction false} SplitJoin(parts: seq<string>, sep: char)
    requires |parts| >= 1
    requires forall i :: 0 <= i < |parts| ==> sep !in parts[i]
    ensures Split(Join(parts, sep), sep) == parts
    decreases |parts|
  {
    if |parts| == 1 {
      assert Join(parts, sep) == parts[0];
    } else {
      var rest := Join(parts[1..], sep);
      var s := parts[0] + [sep] + rest;
      assert Join(parts, sep) == s;
      IndexOfAfter(parts[0], sep, rest);
      assert s[..|parts[0]|] == parts[0];
      assert s[|parts[0]| + 1..] == rest;
      SplitJoin(parts[1..], sep);
      assert [parts[0]] + parts[1..] == parts;
    }
  }

  // ---------------------------------------------------------------------------
  // Query strings
  // ---------------------------------------------------------------------------

  /** One `key=value` piece of a query string: the key runs up to the first
      `=`; a piece without `=` is a key with an empty value. */
  function ParseParam(piece: string): (string, string)
  {
    match IndexOf(piece, '=')
    case None => (piece, "")
    case Some(k) => (piece[..k], piece[k + 1..])
  }

  /** The parameters a client reads from a URL: the text after the first `?`,
      cut at every `&`, each piece read by ParseParam. No percent-decoding, and
      a `#` fragment is not split off. */
  function QueryParams(url: string): seq<(string, string)>
  {
    match IndexOf(url, '?')
    case None => []
    case Some(k) => ParseAll(Split(url[k + 1..], '&'))
  }

  function ParseAll(pieces: seq<string>): (r: seq<(string, string)>)
    ensures |r| == |pieces|
    ensures forall i :: 0 <= i < |pieces| ==> r[i] == ParseParam(pieces[i])
  {
    seq(|pieces|, i requires 0 <= i < |pieces| => ParseParam(pieces[i]))
  }

  /** A `key=value` piece reads back as the pair when the key has no `=`. */
  lemma ParseParamPair(key: string, value: string)
    requires '=' !in key
    ensures ParseParam(key + "=" + value) == (key, value)
  {
    IndexOfAfter(key, '=', value);
    assert key + "=" + value == key + ['='] + value;
    var s := key + ['='] + value;
    assert s[..|key|] == key;
    assert s[|key| + 1..] == value;
  }

  /** A URL assembled as `base?piece&piece&...` reads back as its pieces, as
      long as the base has no `?` and no piece has a `&`. */
  lemma QueryParamsOfJoin(base: string, pieces: seq<string>)
    requires '?' !in base
    requires |pieces| >= 1
    requires forall i :: 0 <= i < |pieces| ==> '&' !in pieces[i]
    ensures QueryParams(base + "?" + Join(pieces, '&')) == ParseAll(pieces)
  {
    var q := Join(pieces, '&');
    var url := base + ['?'] + q;
    assert base + "?" + q == url;
    IndexOfAfter(base, '?', q);
    assert url[|base| + 1..] == q;
    SplitJoin(pieces, '&');
  }

  /** A `key=value` piece has an `&` only if its key or value has one. */
  lemma PieceSeparators(key: string, value: string)
    requires '&' !in key && '&' !in value
    ensures '&' !in key + "=" + value
  {
    var piece := key + "=" + value;
    forall i | 0 <= i < |piece|
      ensures piece[i] != '&'
    {
      if i < |key| {
        assert piece[i] == key[i];
      } else if i > |key| {
        assert piece[i] == value[i - |key| - 1];
      }
    }
  }

  /** A four-parameter query reads back as its four pairs. */
  lemma QueryParamsFour(base: string, k0: string, v0: string, k1: string, v1: string,
                        k2: string, v2: string, k3: string, v3: string)
    requires '?' !in base
    requires '=' !in k0 && '=' !in k1 && '=' !in k2 && '=' !in k3
    requires '&' !in k0 && '&' !in k1 && '&' !in k2 && '&' !in k3
    requires '&' !in v0 && '&' !in v1 && '&' !in v2 && '&' !in v3
    ensures QueryParams(base + "?" + Join([k0 + "=" + v0, k1 + "=" + v1, k2 + "=" + v2, k3 + "=" + v3], '&'))
      == [(k0, v0), (k1, v1), (k2, v2), (k3, v3)]
  {
    var pieces := [k0 + "=" + v0, k1 + "=" + v1, k2 + "=" + v2, k3 + "=" + v3];
    PieceSeparators(k0, v0);
    PieceSeparators(k1, v1);
    PieceSeparators(k2, v2);
    PieceSeparators(k3, v3);
    QueryParamsOfJoin(base, pieces);
    ParseAllFour(k0, v0, k1, v1, k2, v2, k3, v3);
  }

  lemma ParseAllFour(k0: string, v0: string, k1: string, v1: string,
                     k2: string, v2: string, k3: string, v3: string)
    requires '=' !in k0 && '=' !in k1 && '=' !in k2 && '=' !in k3
    ensures ParseAll([k0 + "=" + v0, k1 + "=" + v1, k2 + "=" + v2, k3 + "=" + v3])
      == [(k0, v0), (k1, v1), (k2, v2), (k3, v3)]
  {
    ParseParamPair(k0, v0);
    ParseParamPair(k1, v1);
    ParseParamPair(k2, v2);
    ParseParamPair(k3, v3);
  }

  // ---------------------------------------------------------------------------
  // Decimal numbers
  // ---------------------------------------------------------------------------

  predicate IsDigit(c: char)
  {
    '0' <= c <= '9'
  }

  function DigitChar(d: nat): (c: char)
    requires d < 10
    ensures IsDigit(c)
  {
    (('0' as int) + d) as char
  }

  function DigitValue(c: char): nat
    requires IsDigit(c)
  {
    (c as int) - ('0' as int)
  }

  /** The decimal rendering of `n` that a template literal or f-string produces. */
  function NatToString(n: nat): (r: string)
    ensures |r| >= 1
    ensures forall i :: 0 <= i < |r| ==> IsDigit(r[i])
  {
    if n < 10 then [DigitChar(n)]
    else NatToString(n / 10) + [DigitChar(n % 10)]
  }

  /** Reads a string of decimal digits as the number it denotes. */
  function ParseNat(s: string): nat
    requires forall i :: 0 <= i < |s| ==> IsDigit(s[i])
  {
    if |s| == 0 then 0
    else ParseNat(s[..|s| - 1]) * 10 + DigitValue(s[|s| - 1])
  }

  /** Reading back a rendered number gives the number. */
  lemma {:induction false} ParseNatToString(n: nat)
    ensures ParseNat(NatToString(n)) == n
  {
    if n >= 10 {
      var s := NatToString(n);
      assert s[..|s| - 1] == NatToString(n / 10);
      ParseNatToString(n / 10);
    }
  }

  /** Different numbers render differently. */
  lemma NatToStringInjective(m: nat, n: nat)
    requires NatToString(m) == NatToString(n)
    ensures m == n
  {
    ParseNatToString(m);
    ParseNatToString(n);
  }

  // ---------------------------------------------------------------------------
  // Case and substrings
  // ---------------------------------------------------------------------------

  /** Lower-cases one ASCII letter; every other character is left as it is. */
  function LowerChar(c: char): char
  {
    if 'A' <= c <= 'Z' then ((c as int) + 32) as char else c
  }

  /** The string lower-cased character by character. */
  function Lower(s: string): (r: string)
    ensures |r| == |s|
    ensures forall i :: 0 <= i < |s| ==> r[i] == LowerChar(s[i])
  {
    seq(|s|, i requires 0 <= i < |s| => LowerChar(s[i]))
  }

  /** `q` appears in `s` starting at position `i`. */
  ghost predicate OccursAt(s: string, q: string, i: int)
  {
    0 <= i && i + |q| <= |s| && s[i..i + |q|] == q
  }

  /** `q` is a substring of `s`. */
  ghost predicate Contains(s: string, q: string)
  {
    exists i :: OccursAt(s, q, i)
  }

  /** JavaScript's `s.includes(q)`, by scanning the start positions left to right. */
  function Includes(s: string, q: string): bool
    decreases |s|
  {
    if |q| > |s| then false
    else if s[..|q|] == q then true
    else Includes(s[1..], q)
  }

  /** An occurrence in the tail is an occurrence one place later in the whole. */
  lemma OccursInTail(s: string, q: string, i: nat)
    requires |s| > 0
    ensures OccursAt(s[1..], q, i) <==> OccursAt(s, q, i + 1)
  {
  }

  /** The scan finds `q` exactly when `q` is a substring of `s`. */
  lemma {:induction false} IncludesSpec(s: string, q: string)
    ensures Includes(s, q) <==> Contains(s, q)
    decreases |s|
  {
    if |q| > |s| {
      assert forall i :: !OccursAt(s, q, i);
    } else if s[..|q|] == q {
      assert OccursAt(s, q, 0);
    } else {
      IncludesSpec(s[1..], q);
      if Contains(s[1..], q) {
        var i :| OccursAt(s[1..], q, i);
        OccursInTail(s, q, i);
      }
      if Contains(s, q) {
        var j :| OccursAt(s, q, j);
        assert j != 0;
        OccursInTail(s, q, j - 1);
      }
    }
  }
}
