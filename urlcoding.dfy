/**
 * Percent-encoding of URL query strings: Python's `urllib.parse.quote_plus`,
 * `unquote` and `parse_qsl` (which Django's QueryDict uses to build itself
 * and to serialise itself back), and JavaScript's `encodeURIComponent`.
 */
module UrlCoding {
  import opened Wrappers
  import opened Strings
  import Utf8

  function HexDigit(d: nat): (c: char)
    requires d < 16
  {
    "0123456789ABCDEF"[d]
  }

  /** The value of a hexadecimal digit of either case. */
  function HexValue(c: char): (v: int)
    ensures -1 <= v < 16
  {
    if '0' <= c <= '9' then (c as int) - ('0' as int)
    else if 'A' <= c <= 'F' then (c as int) - ('A' as int) + 10
    else if 'a' <= c <= 'f' then (c as int) - ('a' as int) + 10
    else -1
  }

  predicate IsHex(c: char) {
    HexValue(c) >= 0
  }

  lemma HexValueOfHexDigit(d: nat)
    requires d < 16
    ensures HexValue(HexDigit(d)) == d
  {
  }

  /** `%XY` with upper-case hexadecimal digits. */
  function PercentEscape(b: Utf8.byte): (s: string)
    ensures |s| == 3 && s[0] == '%'
  {
    ['%', HexDigit(b / 16), HexDigit(b % 16)]
  }

  predicate IsAsciiLetterOrDigit(b: int) {
    ('A' as int) <= b <= ('Z' as int) || ('a' as int) <= b <= ('z' as int) || ('0' as int) <= b <= ('9' as int)
  }

  /** The bytes `quote_plus` leaves alone: letters, digits and `_.-~`. */
  predicate QuoteSafe(b: int) {
    IsAsciiLetterOrDigit(b) || b == '_' as int || b == '.' as int || b == '-' as int || b == '~' as int
  }

  /** `quote_plus` of a byte string: a space becomes `+`, a safe byte stays, any other byte is `%XY`. */
  function QuotePlusBytes(bs: seq<Utf8.byte>): string
    decreases |bs|
  {
    if bs == [] then ""
    else
      var head := if bs[0] == 0x20 then "+" else if QuoteSafe(bs[0]) then [bs[0] as char] else PercentEscape(bs[0]);
      head + QuotePlusBytes(bs[1..])
  }

  /** `urllib.parse.quote_plus(s)` with `safe=''` and UTF-8. */
  function QuotePlus(s: string): (r: string)
    ensures forall i :: 0 <= i < |r| ==> Token(r[i])
  {
    QuotePlusTokens(Utf8.Encode(s));
    QuotePlusBytes(Utf8.Encode(s))
  }

  /** The characters `quote_plus` can produce. */
  predicate Token(c: char) {
    QuoteSafe(c as int) || c == '+' || c == '%' || IsHex(c)
  }

  lemma {:induction false} QuotePlusTokens(bs: seq<Utf8.byte>)
    ensures forall i :: 0 <= i < |QuotePlusBytes(bs)| ==> Token(QuotePlusBytes(bs)[i])
    decreases |bs|
  {
    if bs != [] {
      QuotePlusTokens(bs[1..]);
    }
  }

  /** A string of safe characters (letters, digits, `_.-~`) is its own `quote_plus`. */
  lemma {:induction false} QuotePlusSafe(s: string)
    requires forall i :: 0 <= i < |s| ==> QuoteSafe(s[i] as int)
    ensures QuotePlus(s) == s
    decreases |s|
  {
    if s != [] {
      QuotePlusSafe(s[1..]);
      var b: Utf8.byte := s[0] as int;
      assert Utf8.EncodeChar(s[0]) == [b];
      assert Utf8.Encode(s) == [b] + Utf8.Encode(s[1..]);
      assert ([b] + Utf8.Encode(s[1..]))[1..] == Utf8.Encode(s[1..]);
      assert [b as char] + s[1..] == s;
    }
  }

  /** Python's `unquote_to_bytes` on ASCII text: a `%` followed by two
      hexadecimal digits is that byte, any other character is its own code. */
  function UnquoteToBytes(s: string): seq<Utf8.byte>
    requires forall i :: 0 <= i < |s| ==> IsAscii(s[i])
    decreases |s|
  {
    if s == [] then []
    else if s[0] == '%' && |s| >= 3 && IsHex(s[1]) && IsHex(s[2]) then
      var b: Utf8.byte := 16 * HexValue(s[1]) + HexValue(s[2]);
      [b] + UnquoteToBytes(s[3..])
    else
      assert IsAscii(s[0]);
      var b: Utf8.byte := s[0] as int;
      [b] + UnquoteToBytes(s[1..])
  }

  predicate IsAscii(c: char) {
    (c as int) < 0x80
  }

  /** The length of the longest ASCII prefix of `s`. */
  function AsciiRun(s: string): (n: nat)
    ensures n <= |s|
    ensures forall i :: 0 <= i < n ==> IsAscii(s[i])
    ensures n < |s| ==> !IsAscii(s[n])
    decreases |s|
  {
    if s != [] && IsAscii(s[0]) then 1 + AsciiRun(s[1..]) else 0
  }

  /** `urllib.parse.unquote(s)` (UTF-8, errors replaced): each maximal run of
      ASCII characters is unescaped to bytes and decoded; other characters are kept. */
  function Unquote(s: string): string
    decreases |s|
  {
    if s == [] then ""
    else if !IsAscii(s[0]) then [s[0]] + Unquote(s[1..])
    else
      var n := AsciiRun(s);
      Utf8.Decode(UnquoteToBytes(s[..n])) + Unquote(s[n..])
  }

  /** What `parse_qsl` applies to each name and value: `+` to space, then unquote. */
  function UnquotePlus(s: string): string {
    Unquote(ReplaceChar(s, '+', ' '))
  }

  /** The quoted form with `+` turned back into spaces, as `parse_qsl` sees it. */
  function SpacedBytes(bs: seq<Utf8.byte>): (s: string)
    ensures forall i :: 0 <= i < |s| ==> IsAscii(s[i])
    decreases |bs|
  {
    if bs == [] then ""
    else
      var head := if bs[0] == 0x20 then " " else if QuoteSafe(bs[0]) then [bs[0] as char] else PercentEscape(bs[0]);
      head + SpacedBytes(bs[1..])
  }

  lemma {:induction false} ReplacePlusOfQuote(bs: seq<Utf8.byte>)
    ensures ReplaceChar(QuotePlusBytes(bs), '+', ' ') == SpacedBytes(bs)
    decreases |bs|
  {
    if bs != [] {
      ReplacePlusOfQuote(bs[1..]);
      var head := if bs[0] == 0x20 then "+" else if QuoteSafe(bs[0]) then [bs[0] as char] else PercentEscape(bs[0]);
      assert QuotePlusBytes(bs) == head + QuotePlusBytes(bs[1..]);
      ReplaceAppend(head, QuotePlusBytes(bs[1..]), '+', ' ');
      ReplaceHead(bs[0]);
    }
  }

  /** One byte's `quote_plus` text with `+` turned back into a space. */
  lemma ReplaceHead(b: Utf8.byte)
    ensures var head := if b == 0x20 then "+" else if QuoteSafe(b) then [b as char] else PercentEscape(b);
      ReplaceChar(head, '+', ' ') == if b == 0x20 then " " else if QuoteSafe(b) then [b as char] else PercentEscape(b)
  {
    if b != 0x20 && !QuoteSafe(b) {
      var e := PercentEscape(b);
      assert e[1] != '+' && e[2] != '+';
    }
  }

  lemma ReplaceAppend(a: string, b: string, x: char, y: char)
    ensures ReplaceChar(a + b, x, y) == ReplaceChar(a, x, y) + ReplaceChar(b, x, y)
  {
  }

  lemma {:induction false} UnquoteSpaced(bs: seq<Utf8.byte>)
    ensures UnquoteToBytes(SpacedBytes(bs)) == bs
    decreases |bs|
  {
    if bs != [] {
      UnquoteSpaced(bs[1..]);
      var s := SpacedBytes(bs);
      var tail := SpacedBytes(bs[1..]);
      if bs[0] == 0x20 || QuoteSafe(bs[0]) {
        assert s[1..] == tail;
      } else {
        assert s[3..] == tail;
        HexValueOfHexDigit(bs[0] / 16);
        HexValueOfHexDigit(bs[0] % 16);
      }
    }
  }

  /** Unquoting an ASCII string is decoding its unescaped bytes. */
  lemma UnquoteAscii(s: string)
    requires forall i :: 0 <= i < |s| ==> IsAscii(s[i])
    ensures Unquote(s) == Utf8.Decode(UnquoteToBytes(s))
  {
    if s != [] {
      assert AsciiRun(s) == |s|;
      assert s[..|s|] == s;
      assert s[|s|..] == "";
    }
  }

  /** `parse_qsl` reads back exactly what `quote_plus` wrote. */
  lemma UnquotePlusQuotePlus(s: string)
    ensures UnquotePlus(QuotePlus(s)) == s
  {
    var bs := Utf8.Encode(s);
    ReplacePlusOfQuote(bs);
    UnquoteAscii(SpacedBytes(bs));
    UnquoteSpaced(bs);
    Utf8.DecodeEncode(s);
  }

  /** One `name=value` field of a query string (a field without `=` has the empty value). */
  function ParseField(f: string): (string, string)
  {
    match FirstIndex(f, '=')
    case Some(i) => (UnquotePlus(f[..i]), UnquotePlus(f[i + 1..]))
    case None => (UnquotePlus(f), "")
  }

  /** The fields in order, empty ones skipped. */
  function ParseFields(fields: seq<string>): seq<(string, string)>
    decreases |fields|
  {
    if fields == [] then []
    else if fields[0] == "" then ParseFields(fields[1..])
    else [ParseField(fields[0])] + ParseFields(fields[1..])
  }

  /** `urllib.parse.parse_qsl(qs, keep_blank_values=True)`: split on `&`. */
  function ParseQsl(qs: string): seq<(string, string)>
  {
    ParseFields(Split(qs, {'&'}))
  }

  /** `urlencode` of one pair: `quote_plus(name)=quote_plus(value)`. */
  function EncodeField(p: (string, string)): (f: string)
  {
    QuotePlus(p.0) + "=" + QuotePlus(p.1)
  }

  function EncodeFields(pairs: seq<(string, string)>): (fs: seq<string>)
    ensures |fs| == |pairs|
    ensures forall i :: 0 <= i < |pairs| ==> fs[i] == EncodeField(pairs[i])
    decreases |pairs|
  {
    if pairs == [] then [] else [EncodeField(pairs[0])] + EncodeFields(pairs[1..])
  }

  /** The encoded pairs joined by `&`. */
  function EncodePairs(pairs: seq<(string, string)>): string
  {
    Join(EncodeFields(pairs), '&')
  }

  lemma ParseFieldEncodeField(p: (string, string))
    ensures EncodeField(p) != ""
    ensures Avoids(EncodeField(p), {'&'})
    ensures ParseField(EncodeField(p)) == p
  {
    var k, v := QuotePlus(p.0), QuotePlus(p.1);
    FieldSplit(k, v);
    TokensAvoid(k + "=" + v);
    UnquotePlusQuotePlus(p.0);
    UnquotePlusQuotePlus(p.1);
  }

  /** `k=v` with no `=` in `k` splits at its first `=` back into `k` and `v`. */
  lemma FieldSplit(k: string, v: string)
    requires forall j :: 0 <= j < |k| ==> Token(k[j])
    ensures var f := k + "=" + v;
      FirstIndex(f, '=') == Some(|k|) && f[..|k|] == k && f[|k| + 1..] == v
  {
    var f := k + "=" + v;
    assert f[|k|] == '=';
    assert forall j :: 0 <= j < |k| ==> f[j] == k[j];
  }

  /** Text made of `quote_plus` tokens and `=` holds no `&`. */
  lemma TokensAvoid(f: string)
    requires forall j :: 0 <= j < |f| ==> Token(f[j]) || f[j] == '='
    ensures Avoids(f, {'&'})
  {
  }

  lemma {:induction false} ParseFieldsEncodeFields(pairs: seq<(string, string)>)
    ensures ParseFields(EncodeFields(pairs)) == pairs
    decreases |pairs|
  {
    if pairs != [] {
      ParseFieldEncodeField(pairs[0]);
      ParseFieldsEncodeFields(pairs[1..]);
      assert EncodeFields(pairs)[1..] == EncodeFields(pairs[1..]);
    }
  }

  /** Parsing the urlencoded form of any list of pairs gives the same pairs, in order. */
  lemma ParseQslEncodePairs(pairs: seq<(string, string)>)
    ensures ParseQsl(EncodePairs(pairs)) == pairs
  {
    var fs := EncodeFields(pairs);
    if pairs == [] {
      assert EncodePairs(pairs) == "";
    } else {
      forall i | 0 <= i < |fs| ensures Avoids(fs[i], {'&'}) {
        ParseFieldEncodeField(pairs[i]);
      }
      SplitJoin(fs, '&', {'&'});
      ParseFieldsEncodeFields(pairs);
    }
  }

  /** The characters `encodeURIComponent` leaves alone. */
  predicate UriUnreserved(b: int) {
    IsAsciiLetterOrDigit(b) || b == '-' as int || b == '_' as int || b == '.' as int || b == '!' as int
    || b == '~' as int || b == '*' as int || b == '\'' as int || b == '(' as int || b == ')' as int
  }

  function UriEscapeBytes(bs: seq<Utf8.byte>): string
    decreases |bs|
  {
    if bs == [] then ""
    else (if UriUnreserved(bs[0]) then [bs[0] as char] else PercentEscape(bs[0])) + UriEscapeBytes(bs[1..])
  }

  /** JavaScript's `encodeURIComponent`. */
  function EncodeURIComponent(s: string): string
  {
    UriEscapeBytes(Utf8.Encode(s))
  }

  /** A string of unreserved ASCII characters is its own encoding. */
  lemma {:induction false} EncodeURIComponentUnreserved(s: string)
    requires forall i :: 0 <= i < |s| ==> IsAscii(s[i]) && UriUnreserved(s[i] as int)
    ensures EncodeURIComponent(s) == s
    decreases |s|
  {
    if s != [] {
      EncodeURIComponentUnreserved(s[1..]);
      assert [s[0]] + s[1..] == s;
    }
  }

  /** `urlencode` of one more pair: an `&` unless it is the first, then the field. */
  lemma EncodePairsAppend(pairs: seq<(string, string)>, p: (string, string))
    ensures EncodePairs(pairs + [p]) ==
      if pairs == [] then EncodeField(p) else EncodePairs(pairs) + "&" + EncodeField(p)
  {
    assert EncodeFields(pairs + [p]) == EncodeFields(pairs) + [EncodeField(p)];
    JoinAppend(EncodeFields(pairs), EncodeField(p), '&');
  }

  /** An encoded query string never holds `?`. */
  lemma EncodePairsNoQuestion(pairs: seq<(string, string)>)
    ensures Avoids(EncodePairs(pairs), {'?'})
  {
    var fs := EncodeFields(pairs);
    forall i | 0 <= i < |fs| ensures Avoids(fs[i], {'?'}) {
      var a := QuotePlus(pairs[i].0);
      var b := QuotePlus(pairs[i].1);
      assert fs[i] == a + "=" + b;
      forall j | 0 <= j < |fs[i]| ensures fs[i][j] != '?' {
        if j < |a| { assert Token(a[j]); }
        else if j > |a| { assert fs[i][j] == b[j - |a| - 1] && Token(b[j - |a| - 1]); }
      }
    }
    JoinAvoids(fs, '&', {'?'});
  }
}
