/**
 * Percent-encoding as `urllib.parse` does it: `quote(s)` (safe set "/") renders the
 * fragment, and `urlencode(pairs)` (which escapes keys and values with `quote_plus`,
 * safe set empty, space written as '+') renders the VLESS query. `Unquote`,
 * `UnquotePlus` and `ParseQuery` are reference decoders the encoders are proved against.
 */
module Percent {
  import opened Wrappers
  import opened Strings
  import Utf8

  type Byte = Utf8.Byte

  /** Bytes that `quote` never escapes: ASCII letters, digits and `_.-~`. */
  predicate AlwaysSafe(b: Byte) {
    || ('A' as int <= b <= 'Z' as int)
    || ('a' as int <= b <= 'z' as int)
    || ('0' as int <= b <= '9' as int)
    || b == '_' as int || b == '.' as int || b == '-' as int || b == '~' as int
  }

  const HexDigits := "0123456789ABCDEF"

  /** Characters that separate the parts of a URI and its query. */
  predicate Delimiter(c: char) {
    c == '#' || c == '?' || c == '&' || c == '='
  }

  predicate NoDelimiters(s: string) {
    forall i :: 0 <= i < |s| ==> !Delimiter(s[i])
  }

  /**
   * One byte as `quote` (plus = false, safe "/") or `quote_plus` (plus = true, safe "")
   * writes it: kept, a '+' for a space under `quote_plus`, or `%XY` in upper-case hex.
   */
  function EscapeByte(b: Byte, plus: bool): (r: string)
    ensures NoDelimiters(r)
  {
    if AlwaysSafe(b) || (!plus && b == '/' as int) then [b as char]
    else if plus && b == ' ' as int then "+"
    else ['%', HexDigits[b / 16], HexDigits[b % 16]]
  }

  function EscapeBytes(bs: seq<Byte>, plus: bool): (r: string)
    ensures NoDelimiters(r)
  {
    if bs == [] then [] else EscapeByte(bs[0], plus) + EscapeBytes(bs[1..], plus)
  }

  /** `urllib.parse.quote(s)`: UTF-8 bytes, escaped with "/" kept. */
  function Quote(s: string): (r: string)
    ensures NoDelimiters(r)
  {
    EscapeBytes(Utf8.Encode(s), false)
  }

  /** `urllib.parse.quote_plus(s, safe='')`, as `urlencode` calls it. */
  function QuotePlus(s: string): (r: string)
    ensures NoDelimiters(r)
  {
    EscapeBytes(Utf8.Encode(s), true)
  }

  function HexValue(c: char): Option<nat> {
    if '0' <= c <= '9' then Some(c as int - '0' as int)
    else if 'A' <= c <= 'F' then Some(c as int - 'A' as int + 10)
    else if 'a' <= c <= 'f' then Some(c as int - 'a' as int + 10)
    else None
  }

  /** Reference decoder: `%XY` is a byte, '+' a space when `plus`, any other ASCII character its own byte. */
  function UnescapeBytes(t: string, plus: bool): Option<seq<Byte>>
    decreases |t|
  {
    if t == [] then Some([])
    else if t[0] == '%' then
      if |t| < 3 then None
      else
        var hi :- HexValue(t[1]);
        var lo :- HexValue(t[2]);
        var rest :- UnescapeBytes(t[3..], plus);
        Some([hi * 16 + lo] + rest)
    else if plus && t[0] == '+' then
      var rest :- UnescapeBytes(t[1..], plus);
      Some([' ' as int] + rest)
    else if t[0] as int < 0x80 then
      var rest :- UnescapeBytes(t[1..], plus);
      Some([t[0] as int] + rest)
    else None
  }

  function Unquote(t: string): Option<string> {
    var bs :- UnescapeBytes(t, false);
    Utf8.Decode(bs)
  }

  function UnquotePlus(t: string): Option<string> {
    var bs :- UnescapeBytes(t, true);
    Utf8.Decode(bs)
  }

  lemma UnescapeEscapeByte(b: Byte, plus: bool, rest: string)
    ensures UnescapeBytes(EscapeByte(b, plus) + rest, plus)
         == (var tail :- UnescapeBytes(rest, plus); Some([b] + tail))
  {
    if AlwaysSafe(b) || (!plus && b == '/' as int) {
      assert EscapeByte(b, plus) == [b as char];
      UnescapeKept(b as char, plus, rest);
    } else if plus && b == ' ' as int {
      assert EscapeByte(b, plus) == "+";
      assert ("+" + rest)[1..] == rest;
    } else {
      assert EscapeByte(b, plus) == ['%', HexDigits[b / 16], HexDigits[b % 16]];
      assert b / 16 * 16 + b % 16 == b;
      UnescapeTriplet(b / 16, b % 16, plus, rest);
    }
  }

  /** An unescaped ASCII character other than '%' and the '+' of `quote_plus` decodes to itself. */
  lemma UnescapeKept(c: char, plus: bool, rest: string)
    requires c as int < 0x80 && c != '%' && !(plus && c == '+')
    ensures UnescapeBytes([c] + rest, plus)
         == (var tail :- UnescapeBytes(rest, plus); Some([c as int] + tail))
  {
    assert ([c] + rest)[0] == c;
    assert ([c] + rest)[1..] == rest;
  }

  /** `%XY` in upper-case hex decodes to the byte `16 * X + Y`. */
  lemma UnescapeTriplet(hi: nat, lo: nat, plus: bool, rest: string)
    requires hi < 16 && lo < 16
    ensures UnescapeBytes(['%', HexDigits[hi], HexDigits[lo]] + rest, plus)
         == (var tail :- UnescapeBytes(rest, plus); Some([hi * 16 + lo] + tail))
  {
    var t := ['%', HexDigits[hi], HexDigits[lo]] + rest;
    assert t[0] == '%' && t[1] == HexDigits[hi] && t[2] == HexDigits[lo];
    assert t[3..] == rest;
    HexDigitValue(hi);
    HexDigitValue(lo);
  }

  lemma HexDigitValue(n: nat)
    requires n < 16
    ensures HexValue(HexDigits[n]) == Some(n)
  {
  }

  lemma {:induction false} UnescapeEscapeBytes(bs: seq<Byte>, plus: bool)
    ensures UnescapeBytes(EscapeBytes(bs, plus), plus) == Some(bs)
  {
    if bs != [] {
      UnescapeEscapeByte(bs[0], plus, EscapeBytes(bs[1..], plus));
      UnescapeEscapeBytes(bs[1..], plus);
      assert [bs[0]] + bs[1..] == bs;
    }
  }

  /** The fragment written by `quote` decodes back to the original text. */
  lemma QuoteRoundTrip(s: string)
    ensures Unquote(Quote(s)) == Some(s)
  {
    UnescapeEscapeBytes(Utf8.Encode(s), false);
    Utf8.DecodeEncode(s);
  }

  lemma QuotePlusRoundTrip(s: string)
    ensures UnquotePlus(QuotePlus(s)) == Some(s)
  {
    UnescapeEscapeBytes(Utf8.Encode(s), true);
    Utf8.DecodeEncode(s);
  }

  /** `quote` leaves text made only of ASCII letters, digits, `_.-~` and '/' as it is. */
  lemma {:induction false} QuoteKeepsUnreserved(s: string)
    requires forall i :: 0 <= i < |s| ==> s[i] as int < 0x80 && (AlwaysSafe(s[i] as int) || s[i] == '/')
    ensures Quote(s) == s
  {
    Utf8.EncodeAscii(s);
    KeepUnreservedBytes(Utf8.Encode(s), s);
  }

  lemma {:induction false} KeepUnreservedBytes(bs: seq<Byte>, s: string)
    requires |bs| == |s|
    requires forall i :: 0 <= i < |s| ==> bs[i] == s[i] as int
    requires forall i :: 0 <= i < |s| ==> AlwaysSafe(bs[i]) || bs[i] == '/' as int
    ensures EscapeBytes(bs, false) == s
  {
    if bs != [] {
      KeepUnreservedBytes(bs[1..], s[1..]);
      assert [s[0]] + s[1..] == s;
    }
  }

  /** One `key=value` field of `urlencode`. */
  function Field(kv: (string, string)): (r: string)
    ensures '&' !in r && '?' !in r && '#' !in r
  {
    QuotePlus(kv.0) + "=" + QuotePlus(kv.1)
  }

  /** `urllib.parse.urlencode(pairs)`: the fields joined with '&', in order. */
  function UrlEncode(q: seq<(string, string)>): (r: string)
    ensures '?' !in r && '#' !in r
    ensures q != [] ==> r != []
  {
    if q == [] then ""
    else if |q| == 1 then Field(q[0])
    else Field(q[0]) + "&" + UrlEncode(q[1..])
  }

  /** Reference decoder for one field: split at the first '=' and unescape both sides. */
  function ParseField(f: string): Option<(string, string)> {
    var i := IndexOf(f, '=');
    if i == |f| then None
    else
      var k :- UnquotePlus(f[..i]);
      var v :- UnquotePlus(f[i + 1..]);
      Some((k, v))
  }

  /** Reference decoder for a query string: fields separated by '&'. */
  function ParseQuery(t: string): Option<seq<(string, string)>>
    decreases |t|
  {
    if t == [] then Some([])
    else
      var i := IndexOf(t, '&');
      var kv :- ParseField(t[..i]);
      if i == |t| then Some([kv])
      else
        var rest :- ParseQuery(t[i + 1..]);
        Some([kv] + rest)
  }

  lemma ParseFieldRoundTrip(kv: (string, string))
    ensures ParseField(Field(kv)) == Some(kv)
  {
    var k, v := QuotePlus(kv.0), QuotePlus(kv.1);
    assert Field(kv) == k + ['='] + v;
    IndexOfSplit(k, '=', v);
    assert (k + ['='] + v)[..|k|] == k;
    assert (k + ['='] + v)[|k| + 1..] == v;
    QuotePlusRoundTrip(kv.0);
    QuotePlusRoundTrip(kv.1);
  }

  /** Parsing the query that `urlencode` writes gives back its pairs, in order. */
  lemma {:induction false} ParseQueryRoundTrip(q: seq<(string, string)>)
    ensures ParseQuery(UrlEncode(q)) == Some(q)
  {
    if q != [] {
      var f := Field(q[0]);
      ParseFieldRoundTrip(q[0]);
      if |q| == 1 {
        assert UrlEncode(q) == f;
        ParseLastField(f);
        assert [q[0]] == q;
      } else {
        var rest := UrlEncode(q[1..]);
        assert UrlEncode(q) == f + ['&'] + rest;
        ParseFirstField(f, rest);
        ParseQueryRoundTrip(q[1..]);
        assert [q[0]] + q[1..] == q;
      }
    }
  }

  /** A query without '&' is one field. */
  lemma ParseLastField(f: string)
    requires '&' !in f && ParseField(f).Some?
    ensures ParseQuery(f) == Some([ParseField(f).value])
  {
    assert f != [];
    assert IndexOf(f, '&') == |f|;
    assert f[..|f|] == f;
  }

  /** A query is parsed up to its first '&', then after it. */
  lemma ParseFirstField(f: string, rest: string)
    requires '&' !in f
    ensures ParseQuery(f + ['&'] + rest)
         == (var kv :- ParseField(f); var tail :- ParseQuery(rest); Some([kv] + tail))
  {
    var t := f + ['&'] + rest;
    IndexOfSplit(f, '&', rest);
    assert t[..|f|] == f;
    assert t[|f| + 1..] == rest;
  }
}
