/**
  `guardmem://` URIs: the printer (`resources/uris.py`), the parser
  (`resources/__init__.py`), and the parts of `urllib.parse` they stand on,
  percent-encoding per sections 2.1 and 2.3 of RFC 3986.
*/
module ResourceUris {
  import opened Prelude
  import opened Utf8

  const SCHEME := "guardmem"

  datatype Refused = WrongScheme | NoArgument | BadAuthority

  /* ---- quote -------------------------------------------------------------- */

  predicate Letter(c: char) { 'a' <= c <= 'z' || 'A' <= c <= 'Z' }

  predicate Unreserved(c: char) { Letter(c) || '0' <= c <= '9' || c == '_' || c == '.' || c == '-' || c == '~' }

  /** Left alone by `quote(..., safe=":")`. */
  predicate Kept(b: Byte) { b < 0x80 && (Unreserved(b as char) || b as char == ':') }

  const UPPER_HEX := "0123456789ABCDEF"

  function HexValue(c: char): int {
    if '0' <= c <= '9' then c as int - 48
    else if 'a' <= c <= 'f' then c as int - 87
    else if 'A' <= c <= 'F' then c as int - 55
    else -1
  }

  function QuoteByte(b: Byte): string { if Kept(b) then [b as char] else ['%', UPPER_HEX[b / 16], UPPER_HEX[b % 16]] }

  function QuoteBytes(bs: seq<Byte>): string { if bs == [] then "" else QuoteByte(bs[0]) + QuoteBytes(bs[1..]) }

  function Quote(s: string): string { QuoteBytes(Encode(s)) }

  function UriFor(kind: string, argument: string): string { SCHEME + "://" + (kind + ("/" + Quote(argument))) }

  /* ---- unquote ------------------------------------------------------------- */

  predicate Ascii(s: string) { forall i :: 0 <= i < |s| ==> s[i] as int < 0x80 }

  predicate Escaped(s: string) { |s| >= 3 && s[0] == '%' && HexValue(s[1]) >= 0 && HexValue(s[2]) >= 0 }

  /** A percent sign that is not followed by two hex digits stands for itself. */
  function UnquoteBytes(s: string): seq<Byte>
    requires Ascii(s)
    decreases |s|
  {
    if s == "" then []
    else if Escaped(s) then [HexValue(s[1]) * 16 + HexValue(s[2])] + UnquoteBytes(s[3..])
    else [s[0] as int] + UnquoteBytes(s[1..])
  }

  function AsciiRun(s: string): (n: nat)
    ensures n <= |s| && Ascii(s[..n]) && (s != "" && s[0] as int < 0x80 ==> n > 0)
  {
    if s == "" || s[0] as int >= 0x80 then 0
    else
      var n := AsciiRun(s[1..]);
      assert s[..n + 1] == [s[0]] + s[1..][..n];
      n + 1
  }

  /** Each ASCII run is unescaped and decoded on its own; other characters pass through. */
  function Unquote(s: string): string
    decreases |s|
  {
    if s == "" then ""
    else
      var n := AsciiRun(s);
      if n == 0 then [s[0]] + Unquote(s[1..]) else Decode(UnquoteBytes(s[..n])) + Unquote(s[n..])
  }

  lemma HexReads(d: int)
    requires 0 <= d < 16
    ensures HexValue(UPPER_HEX[d]) == d && UPPER_HEX[d] as int < 0x80
  {
  }

  lemma EscapeReads(b: Byte, r: string)
    requires Ascii(r)
    ensures var s := ['%', UPPER_HEX[b / 16], UPPER_HEX[b % 16]] + r;
            Ascii(s) && Escaped(s) && UnquoteBytes(s) == [b] + UnquoteBytes(r)
  {
    var high, low := UPPER_HEX[b / 16], UPPER_HEX[b % 16];
    HexReads(b / 16);
    HexReads(b % 16);
    assert b / 16 * 16 + b % 16 == b;
    assert (['%', high, low] + r)[3..] == r;
  }

  lemma PlainReads(c: char, r: string)
    requires Ascii(r) && c as int < 0x80 && c != '%'
    ensures Ascii([c] + r) && UnquoteBytes([c] + r) == [c as int] + UnquoteBytes(r)
  {
    assert ([c] + r)[1..] == r;
  }

  lemma QuotedByteReads(b: Byte, r: string)
    requires Ascii(r)
    ensures Ascii(QuoteByte(b) + r) && UnquoteBytes(QuoteByte(b) + r) == [b] + UnquoteBytes(r)
  {
    if Kept(b) { PlainReads(b as char, r); } else { EscapeReads(b, r); }
  }

  /** What a quoted argument can hold: nothing that means anything to a URI parser. */
  predicate Inert(c: char) { Unreserved(c) || c == ':' || c == '%' }

  predicate AllInert(s: string) { forall i :: 0 <= i < |s| ==> Inert(s[i]) }

  lemma {:induction false} QuotedReads(bs: seq<Byte>)
    ensures Ascii(QuoteBytes(bs)) && UnquoteBytes(QuoteBytes(bs)) == bs
  {
    if bs != [] {
      QuotedReads(bs[1..]);
      QuotedByteReads(bs[0], QuoteBytes(bs[1..]));
      assert [bs[0]] + bs[1..] == bs;
    }
  }

  lemma {:induction false} QuotedIsInert(bs: seq<Byte>)
    ensures AllInert(QuoteBytes(bs)) && (bs != [] ==> QuoteBytes(bs) != "")
  {
    if bs != [] {
      QuotedIsInert(bs[1..]);
      QuotedByteIsInert(bs[0]);
      InertJoin(QuoteByte(bs[0]), QuoteBytes(bs[1..]));
    }
  }

  lemma InertJoin(a: string, b: string)
    requires AllInert(a) && AllInert(b)
    ensures AllInert(a + b)
  {
  }

  lemma QuotedByteIsInert(b: Byte)
    ensures AllInert(QuoteByte(b))
  {
  }

  lemma {:induction false} AllAscii(s: string)
    requires Ascii(s)
    ensures AsciiRun(s) == |s|
  {
    if s != "" { AllAscii(s[1..]); }
  }

  /** `unquote` undoes `quote`. */
  lemma UnquoteQuote(s: string)
    ensures Unquote(Quote(s)) == s && AllInert(Quote(s)) && (s != "" ==> Quote(s) != "")
  {
    var q := Quote(s);
    QuotedReads(Encode(s));
    QuotedIsInert(Encode(s));
    DecodeEncode(s);
    AllAscii(q);
    if q != "" { assert q[..|q|] == q && q[|q|..] == "" && s + "" == s; }
  }

  /* ---- urlsplit --------------------------------------------------------------- */

  datatype Url = Url(scheme: string, netloc: string, path: string)

  function DropControls(s: string): string { if s != "" && s[0] <= ' ' then DropControls(s[1..]) else s }

  function DropBreaks(s: string): string {
    if s == "" then ""
    else (if s[0] == '\t' || s[0] == '\n' || s[0] == '\r' then "" else [s[0]]) + DropBreaks(s[1..])
  }

  /** Everything before the first of `stops`. */
  function Upto(s: string, stops: set<char>): (n: nat)
    ensures n <= |s| && (n < |s| ==> s[n] in stops) && forall i :: 0 <= i < n ==> s[i] !in stops
  {
    if s == "" || s[0] in stops then 0 else 1 + Upto(s[1..], stops)
  }

  predicate SchemeText(s: string) {
    s != "" && Letter(s[0])
    && forall i :: 0 <= i < |s| ==> Letter(s[i]) || '0' <= s[i] <= '9' || s[i] == '+' || s[i] == '-' || s[i] == '.'
  }

  function Lower(s: string): (r: string)
    ensures |r| == |s|
  {
    seq(|s|, i requires 0 <= i < |s| => if 'A' <= s[i] <= 'Z' then (s[i] as int + 32) as char else s[i])
  }

  /** The scheme, and what follows its colon. */
  function SplitScheme(s: string): (string, string) {
    var i := Upto(s, {':'});
    if i < |s| && SchemeText(s[..i]) then (Lower(s[..i]), s[i + 1..]) else ("", s)
  }

  /** The authority, and what follows it. */
  function SplitAuthority(s: string): (string, string) {
    if |s| >= 2 && s[0] == '/' && s[1] == '/' then
      var rest := s[2..];
      var n := Upto(rest, {'/', '?', '#'});
      (rest[..n], rest[n..])
    else ("", s)
  }

  function UrlSplit(uri: string): Result<Url, Refused> {
    var (scheme, afterScheme) := SplitScheme(DropBreaks(DropControls(uri)));
    var (netloc, rest) := SplitAuthority(afterScheme);
    if ('[' in netloc) != (']' in netloc) then Err(BadAuthority)
    else Ok(Url(scheme, netloc, rest[..Upto(rest, {'?', '#'})]))
  }

  /** The first part of the path that is not empty. */
  function FirstSegment(path: string): string {
    if path == "" then ""
    else if path[0] == '/' then FirstSegment(path[1..])
    else path[..Upto(path, {'/'})]
  }

  /** `_split` */
  function Split(uri: string): Result<(string, string), Refused> {
    match UrlSplit(uri)
    case Err(refused) => Err(refused)
    case Ok(url) =>
      if url.scheme != SCHEME then Err(WrongScheme)
      else if FirstSegment(url.path) == "" then Err(NoArgument)
      else Ok((url.netloc, Unquote(FirstSegment(url.path))))
  }

  /* ---- round trip ---------------------------------------------------------------- */

  /** An authority the parser hands back as it stands: printable ASCII with no delimiter in it. */
  predicate PlainKind(kind: string) { forall i :: 0 <= i < |kind| ==> KindChar(kind[i]) }

  predicate KindChar(c: char) { '!' <= c <= '~' && c != '/' && c != '?' && c != '#' && c != '[' && c != ']' }

  predicate Solid(s: string) { forall i :: 0 <= i < |s| ==> ' ' < s[i] }

  lemma {:induction false} SolidKeepsAll(s: string)
    requires Solid(s)
    ensures DropControls(s) == s && DropBreaks(s) == s
  {
    if s != "" {
      SolidKeepsAll(s[1..]);
      assert s == [s[0]] + s[1..];
    }
  }

  lemma {:induction false} UptoStops(s: string, r: string, stops: set<char>)
    requires (forall i :: 0 <= i < |s| ==> s[i] !in stops) && (r == "" || r[0] in stops)
    ensures Upto(s + r, stops) == |s|
  {
    if s == "" {
      assert s + r == r;
    } else {
      assert (s + r)[1..] == s[1..] + r;
      UptoStops(s[1..], r, stops);
    }
  }

  lemma Cut(a: string, b: string)
    ensures (a + b)[..|a|] == a && (a + b)[|a|..] == b
  {
  }

  lemma UriIsSolid(kind: string, argument: string)
    requires PlainKind(kind) && AllInert(argument)
    ensures Solid(SCHEME + "://" + (kind + ("/" + argument)))
  {
    forall i | 0 <= i < |kind| ensures ' ' < kind[i] { assert KindChar(kind[i]); }
    forall i | 0 <= i < |argument| ensures ' ' < argument[i] { assert Inert(argument[i]); }
    SolidJoin("/", argument);
    SolidJoin(kind, "/" + argument);
    SolidJoin(SCHEME + "://", kind + ("/" + argument));
  }

  lemma SolidJoin(a: string, b: string)
    requires Solid(a) && Solid(b)
    ensures Solid(a + b)
  {
  }

  lemma SchemeSplitsOff(rest: string)
    ensures SplitScheme(SCHEME + "://" + rest) == (SCHEME, "//" + rest)
  {
    var s := SCHEME + "://" + rest;
    assert s == SCHEME + ("://" + rest);
    UptoStops(SCHEME, "://" + rest, {':'});
    Cut(SCHEME, "://" + rest);
    assert s[|SCHEME| + 1..] == "//" + rest;
    assert Lower(SCHEME) == SCHEME;
  }

  lemma AuthoritySplitsOff(kind: string, path: string)
    requires PlainKind(kind) && path != "" && path[0] == '/'
    ensures SplitAuthority("//" + (kind + path)) == (kind, path)
  {
    assert ("//" + (kind + path))[2..] == kind + path;
    forall i | 0 <= i < |kind| ensures kind[i] !in {'/', '?', '#'} { assert KindChar(kind[i]); }
    UptoStops(kind, path, {'/', '?', '#'});
    Cut(kind, path);
  }

  lemma NoBrackets(kind: string)
    requires PlainKind(kind)
    ensures '[' !in kind && ']' !in kind
  {
    forall i | 0 <= i < |kind| ensures kind[i] != '[' && kind[i] != ']' { assert KindChar(kind[i]); }
  }

  lemma PathStandsAlone(argument: string)
    requires AllInert(argument)
    ensures var path := "/" + argument;
            path[..Upto(path, {'?', '#'})] == path && FirstSegment(path) == argument
  {
    var path := "/" + argument;
    forall i | 0 <= i < |argument| ensures argument[i] !in {'?', '#', '/'} { assert Inert(argument[i]); }
    assert path[1..] == argument;
    assert path + "" == path && argument + "" == argument;
    UptoStops(path, "", {'?', '#'});
    UptoStops(argument, "", {'/'});
    if argument != "" { assert argument[0] != '/'; }
  }

  /**
    Parsing undoes printing for every argument but the empty one, which is
    refused; so the URI names its resource and nothing else does.
  */
  lemma UriRoundTrip(kind: string, argument: string)
    requires PlainKind(kind)
    ensures Split(UriFor(kind, argument)) == if argument == "" then Err(NoArgument) else Ok((kind, argument))
  {
    var quoted := Quote(argument);
    UnquoteQuote(argument);
    var path := "/" + quoted;
    UriIsSolid(kind, quoted);
    SolidKeepsAll(UriFor(kind, argument));
    SchemeSplitsOff(kind + path);
    AuthoritySplitsOff(kind, path);
    NoBrackets(kind);
    PathStandsAlone(quoted);
  }

  lemma UriIsInjective(kind: string, argument: string, kind': string, argument': string)
    requires PlainKind(kind) && PlainKind(kind') && argument != "" && argument' != ""
    requires UriFor(kind, argument) == UriFor(kind', argument')
    ensures kind == kind' && argument == argument'
  {
    UriRoundTrip(kind, argument);
    UriRoundTrip(kind', argument');
  }

  const KINDS := {"memory", "audit", "ontology"}

  lemma ServedKindsArePlain(kind: string)
    requires kind in KINDS
    ensures PlainKind(kind)
  {
  }

  /** Whatever the server prints for a resource it serves, it reads back as that resource. */
  lemma ServedUriRoundTrip(kind: string, argument: string)
    requires kind in KINDS
    ensures Split(UriFor(kind, argument)) == if argument == "" then Err(NoArgument) else Ok((kind, argument))
  {
    ServedKindsArePlain(kind);
    UriRoundTrip(kind, argument);
  }
}
