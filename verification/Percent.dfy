/** `urllib.parse.quote(text, safe='')` and query strings, with the decoder they must satisfy. */
module Percent {
  import opened Wrappers
  import opened Texts

  type byte = b: int | 0 <= b < 256

  type Named = (string, string)

  // ------------------------------------------------------------------ UTF-8

  function Utf8Char(c: char): seq<byte> {
    var n := c as int;
    if n < 0x80 then [n]
    else if n < 0x800 then [0xC0 + n / 64, 0x80 + n % 64]
    else if n < 0x10000 then [0xE0 + n / 4096, 0x80 + n / 64 % 64, 0x80 + n % 64]
    else [0xF0 + n / 262144, 0x80 + n / 4096 % 64, 0x80 + n / 64 % 64, 0x80 + n % 64]
  }

  function Utf8(s: string): seq<byte> {
    if s == "" then [] else Utf8Char(s[0]) + Utf8(s[1..])
  }

  function CharOf(n: int): Option<char> {
    if 0 <= n < 0xD800 || 0xE000 <= n < 0x11_0000 then Some(n as char) else None
  }

  function Width(lead: byte): (n: nat)
    ensures n > 0
  {
    if lead < 0x80 then 1 else if lead < 0xE0 then 2 else if lead < 0xF0 then 3 else 4
  }

  /** The six payload bits of a continuation byte (negative when it is not one). */
  function Payload(b: byte): int {
    b as int - 0x80
  }

  function CodePoint(bytes: seq<byte>): int
    requires bytes != [] && |bytes| == Width(bytes[0])
  {
    var lead := bytes[0] as int;
    if |bytes| == 1 then lead
    else if |bytes| == 2 then (lead - 0xC0) * 64 + Payload(bytes[1])
    else if |bytes| == 3 then (lead - 0xE0) * 4096 + Payload(bytes[1]) * 64 + Payload(bytes[2])
    else (lead - 0xF0) * 262144 + Payload(bytes[1]) * 4096 + Payload(bytes[2]) * 64 + Payload(bytes[3])
  }

  function FromUtf8(bytes: seq<byte>): Option<string>
    decreases |bytes|
  {
    if bytes == [] then Some("")
    else
      var width := Width(bytes[0]);
      if |bytes| < width then None
      else match (CharOf(CodePoint(bytes[..width])), FromUtf8(bytes[width..]))
        case (Some(c), Some(rest)) => Some([c] + rest)
        case _ => None
  }

  lemma {:induction false} Sextets(n: nat)
    ensures n == n / 64 * 64 + n % 64
    ensures n == n / 4096 * 4096 + n / 64 % 64 * 64 + n % 64
    ensures n == n / 262144 * 262144 + n / 4096 % 64 * 4096 + n / 64 % 64 * 64 + n % 64
  {
    assert n / 4096 == n / 64 / 64;
    assert n / 262144 == n / 4096 / 64;
  }

  lemma {:induction false} CodePointOfUtf8(c: char)
    ensures var bytes := Utf8Char(c); bytes != [] && |bytes| == Width(bytes[0]) && CodePoint(bytes) == c as int
  {
    Sextets(c as int);
  }

  lemma {:induction false} FromUtf8Char(c: char, rest: seq<byte>)
    requires FromUtf8(rest).Some?
    ensures FromUtf8(Utf8Char(c) + rest) == Some([c] + FromUtf8(rest).value)
  {
    var head := Utf8Char(c);
    CodePointOfUtf8(c);
    assert (head + rest)[|head|..] == rest && (head + rest)[..|head|] == head;
  }

  lemma {:induction false} FromUtf8Utf8(s: string)
    ensures FromUtf8(Utf8(s)) == Some(s)
  {
    if s != "" {
      FromUtf8Utf8(s[1..]);
      FromUtf8Char(s[0], Utf8(s[1..]));
      assert s == [s[0]] + s[1..];
    }
  }

  // ------------------------------------------------------------------ percent-encoding

  /** The unreserved characters of section 2.3 of RFC 3986. */
  predicate Unreserved(c: char) {
    'A' <= c <= 'Z' || 'a' <= c <= 'z' || '0' <= c <= '9' || c == '_' || c == '.' || c == '-' || c == '~'
  }

  function HexChar(n: nat): char
    requires n < 16
  {
    if n < 10 then ('0' as int + n) as char else ('A' as int + n - 10) as char
  }

  function HexValue(c: char): Option<nat> {
    if '0' <= c <= '9' then Some(c as int - '0' as int)
    else if 'A' <= c <= 'F' then Some(c as int - 'A' as int + 10)
    else if 'a' <= c <= 'f' then Some(c as int - 'a' as int + 10)
    else None
  }

  lemma {:induction false} HexRoundTrip(n: nat)
    requires n < 16
    ensures HexValue(HexChar(n)) == Some(n)
  {
  }

  function QuoteByte(b: byte): string {
    if b < 0x80 && Unreserved(b as char) then [b as char] else ['%', HexChar(b / 16), HexChar(b % 16)]
  }

  function QuoteBytes(bytes: seq<byte>): string {
    if bytes == [] then "" else QuoteByte(bytes[0]) + QuoteBytes(bytes[1..])
  }

  function Quote(s: string): string {
    QuoteBytes(Utf8(s))
  }

  /** Form decoding to bytes: `%XX` pairs and `+`; section 2.1 of RFC 3986. */
  function UnquoteBytes(s: string): Option<seq<byte>>
    decreases |s|
  {
    if s == "" then Some([])
    else if s[0] == '%' then
      if |s| < 3 then None
      else match (HexValue(s[1]), HexValue(s[2]), UnquoteBytes(s[3..]))
        case (Some(h), Some(l), Some(rest)) => Some([h * 16 + l] + rest)
        case _ => None
    else
      var n := if s[0] == '+' then 0x20 else s[0] as int;
      if n >= 0x80 then None
      else match UnquoteBytes(s[1..])
        case Some(rest) => Some([n] + rest)
        case None => None
  }

  function Unquote(s: string): Option<string> {
    match UnquoteBytes(s)
    case Some(bytes) => FromUtf8(bytes)
    case None => None
  }

  lemma {:induction false} UnquoteOneByte(b: byte, rest: string)
    requires UnquoteBytes(rest).Some?
    ensures UnquoteBytes(QuoteByte(b) + rest) == Some([b] + UnquoteBytes(rest).value)
  {
    var s := QuoteByte(b) + rest;
    if b < 0x80 && Unreserved(b as char) {
      assert s[0] == b as char && s[1..] == rest;
    } else {
      HexRoundTrip(b / 16);
      HexRoundTrip(b % 16);
      assert s[0] == '%' && s[1] == HexChar(b / 16) && s[2] == HexChar(b % 16) && s[3..] == rest;
    }
  }

  lemma {:induction false} UnquoteQuoteBytes(bytes: seq<byte>)
    ensures UnquoteBytes(QuoteBytes(bytes)) == Some(bytes)
  {
    if bytes != [] {
      UnquoteQuoteBytes(bytes[1..]);
      UnquoteOneByte(bytes[0], QuoteBytes(bytes[1..]));
      assert bytes == [bytes[0]] + bytes[1..];
    }
  }

  /** Quoting any text and decoding it gives the text back. */
  lemma {:induction false} UnquoteQuote(s: string)
    ensures Unquote(Quote(s)) == Some(s)
  {
    UnquoteQuoteBytes(Utf8(s));
    FromUtf8Utf8(s);
  }

  predicate Safe(s: string) {
    forall i :: 0 <= i < |s| ==> Unreserved(s[i]) || s[i] == '%'
  }

  /** Nothing a URL gives meaning to survives quoting. */
  lemma {:induction false} QuoteIsSafe(bytes: seq<byte>)
    ensures Safe(QuoteBytes(bytes))
  {
    if bytes != [] {
      QuoteIsSafe(bytes[1..]);
    }
  }

  // ------------------------------------------------------------------ the quoted form, apart from the encoder

  predicate Kept(c: char) {
    || 'a' <= LowerChar(c) <= 'z' || Digit(c) || c in {'_', '.', '-', '~'}
  }

  predicate UpperHex(c: char) {
    Digit(c) || 'A' <= c <= 'F'
  }

  /** `n` escapes: a percent sign and two upper-case hexadecimal digits each. */
  predicate Escapes(s: string, n: nat) {
    |s| == 3 * n && forall i :: 0 <= i < n ==> s[3 * i] == '%' && UpperHex(s[3 * i + 1]) && UpperHex(s[3 * i + 2])
  }

  lemma {:induction false} Utf8Concat(s: string, t: string)
    ensures Utf8(s + t) == Utf8(s) + Utf8(t)
  {
    if s == "" {
      assert s + t == t;
    } else {
      assert (s + t)[1..] == s[1..] + t;
      Utf8Concat(s[1..], t);
    }
  }

  lemma {:induction false} QuoteBytesConcat(a: seq<byte>, b: seq<byte>)
    ensures QuoteBytes(a + b) == QuoteBytes(a) + QuoteBytes(b)
  {
    if a == [] {
      assert a + b == b;
    } else {
      assert (a + b)[1..] == a[1..] + b;
      QuoteBytesConcat(a[1..], b);
    }
  }

  /** A text is quoted character by character. */
  lemma {:induction false} QuoteDistributes(s: string, t: string)
    ensures Quote(s + t) == Quote(s) + Quote(t)
  {
    Utf8Concat(s, t);
    QuoteBytesConcat(Utf8(s), Utf8(t));
  }

  lemma {:induction false} EscapesStep(h: char, l: char, s: string, n: nat)
    requires UpperHex(h) && UpperHex(l) && Escapes(s, n)
    ensures Escapes(['%', h, l] + s, n + 1)
  {
    var t := ['%', h, l] + s;
    forall i | 0 <= i < n + 1 ensures t[3 * i] == '%' && UpperHex(t[3 * i + 1]) && UpperHex(t[3 * i + 2]) {
      if i > 0 {
        assert t[3 * i] == s[3 * (i - 1)] && t[3 * i + 1] == s[3 * (i - 1) + 1] && t[3 * i + 2] == s[3 * (i - 1) + 2];
      }
    }
  }

  /** A byte that stands for no character of its own. */
  predicate Foreign(b: byte) {
    b < 0x80 ==> !Kept(b as char)
  }

  lemma {:induction false} EscapedBytes(bytes: seq<byte>)
    requires forall i :: 0 <= i < |bytes| ==> Foreign(bytes[i])
    ensures Escapes(QuoteBytes(bytes), |bytes|)
  {
    if bytes != [] {
      EscapedBytes(bytes[1..]);
      assert Foreign(bytes[0]);
      EscapesStep(HexChar(bytes[0] / 16), HexChar(bytes[0] % 16), QuoteBytes(bytes[1..]), |bytes| - 1);
    }
  }

  lemma {:induction false} ForeignChar(c: char)
    requires !Kept(c)
    ensures forall i :: 0 <= i < |Utf8Char(c)| ==> Foreign(Utf8Char(c)[i])
  {
  }

  /** Letters, digits and `_.-~` are sent as they are, and every byte of anything else as an escape. */
  lemma {:induction false} QuoteChar(c: char)
    ensures Kept(c) ==> Quote([c]) == [c]
    ensures !Kept(c) ==> Escapes(Quote([c]), |Utf8Char(c)|)
  {
    assert Utf8([c]) == Utf8Char(c) + Utf8("") == Utf8Char(c);
    if Kept(c) {
      assert QuoteBytes([c as int]) == QuoteByte(c as int) + "";
    } else {
      ForeignChar(c);
      EscapedBytes(Utf8Char(c));
    }
  }

  // ------------------------------------------------------------------ query strings

  function Assignment(pair: Named): string {
    Quote(pair.0) + ['='] + Quote(pair.1)
  }

  function Assignments(pairs: seq<Named>): (pieces: seq<string>)
    ensures |pieces| == |pairs|
    ensures forall i :: 0 <= i < |pairs| ==> pieces[i] == Assignment(pairs[i])
  {
    seq(|pairs|, i requires 0 <= i < |pairs| => Assignment(pairs[i]))
  }

  function QueryString(pairs: seq<Named>): string {
    if pairs == [] then "" else Join(Assignments(pairs), '&')
  }

  function ReadAssignment(piece: string): Option<Named> {
    var i := Find(piece, '=');
    if i == |piece| then None
    else match (Unquote(piece[..i]), Unquote(piece[i + 1..]))
      case (Some(name), Some(value)) => Some((name, value))
      case _ => None
  }

  function ReadAll(pieces: seq<string>): Option<seq<Named>> {
    if pieces == [] then Some([])
    else match (ReadAssignment(pieces[0]), ReadAll(pieces[1..]))
      case (Some(pair), Some(rest)) => Some([pair] + rest)
      case _ => None
  }

  function ReadQuery(query: string): Option<seq<Named>> {
    if query == "" then Some([]) else ReadAll(Split(query, '&'))
  }

  lemma {:induction false} SafeHasNo(s: string, c: char)
    requires Safe(s) && !Unreserved(c) && c != '%'
    ensures c !in s
  {
  }

  lemma {:induction false} ReadOneAssignment(pair: Named)
    ensures ReadAssignment(Assignment(pair)) == Some(pair)
  {
    var name, value := Quote(pair.0), Quote(pair.1);
    QuoteIsSafe(Utf8(pair.0));
    SafeHasNo(name, '=');
    FindIn(name, '=', value);
    assert Assignment(pair)[..|name|] == name && Assignment(pair)[|name| + 1..] == value;
    UnquoteQuote(pair.0);
    UnquoteQuote(pair.1);
  }

  lemma {:induction false} AssignmentHasNoAmpersand(pair: Named)
    ensures '&' !in Assignment(pair)
  {
    QuoteIsSafe(Utf8(pair.0));
    QuoteIsSafe(Utf8(pair.1));
    SafeHasNo(Quote(pair.0), '&');
    SafeHasNo(Quote(pair.1), '&');
  }

  lemma {:induction false} ReadAllAssignments(pairs: seq<Named>)
    ensures ReadAll(Assignments(pairs)) == Some(pairs)
  {
    if pairs != [] {
      ReadOneAssignment(pairs[0]);
      assert Assignments(pairs)[1..] == Assignments(pairs[1..]);
      ReadAllAssignments(pairs[1..]);
      assert pairs == [pairs[0]] + pairs[1..];
    }
  }

  /** Splitting a query string and decoding both sides of each piece recovers the pairs in order. */
  lemma {:induction false} ReadQueryString(pairs: seq<Named>)
    ensures ReadQuery(QueryString(pairs)) == Some(pairs)
  {
    if pairs != [] {
      forall i | 0 <= i < |pairs| ensures '&' !in Assignments(pairs)[i] {
        AssignmentHasNoAmpersand(pairs[i]);
      }
      var first := Assignments(pairs)[0];
      assert '=' in first by {
        assert first[|Quote(pairs[0].0)|] == '=';
      }
      assert Join(Assignments(pairs), '&') != "";
      SplitJoin(Assignments(pairs), '&');
      ReadAllAssignments(pairs);
    }
  }
}
