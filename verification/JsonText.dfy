/**
  The lexical half of canonical JSON: strings as Python stores them, section 7
  of RFC 8259 escapes as `ensure_ascii=True` writes them, and numbers.
*/
module JsonText {
  import opened Prelude

  /** A Python `str` is a sequence of code points, lone surrogates included. */
  type Point = p: int | 0 <= p < 0x110000
  type Text = seq<Point>

  /** What one escape spells: a UTF-16 code unit. */
  type Unit = u: int | 0 <= u < 0x10000

  datatype Parsed<+T> = Parsed(value: T, rest: string)

  predicate High(p: int) { 0xD800 <= p < 0xDC00 }
  predicate Low(p: int) { 0xDC00 <= p < 0xE000 }

  function Join(high: int, low: int): Point
    requires High(high) && Low(low)
  {
    0x10000 + (high - 0xD800) * 0x400 + (low - 0xDC00)
  }

  function UnitsOf(p: Point): seq<Unit> {
    if p < 0x10000 then [p] else [0xD800 + (p - 0x10000) / 0x400, 0xDC00 + (p - 0x10000) % 0x400]
  }

  function Units(t: Text): seq<Unit> {
    if t == [] then [] else UnitsOf(t[0]) + Units(t[1..])
  }

  /** Left to right, every high surrogate followed by a low one is one character. */
  function Fuse(t: Text): Text {
    if |t| >= 2 && High(t[0]) && Low(t[1]) then [Join(t[0], t[1])] + Fuse(t[2..])
    else if t == [] then []
    else [t[0]] + Fuse(t[1..])
  }

  predicate PairAt(t: Text, i: int) { 0 <= i && i + 1 < |t| && High(t[i]) && Low(t[i + 1]) }

  ghost predicate HasPair(t: Text) { exists i :: PairAt(t, i) }

  lemma {:induction false} FuseShrinks(t: Text)
    ensures |Fuse(t)| <= |t| && (HasPair(t) ==> |Fuse(t)| < |t|) && (!HasPair(t) ==> Fuse(t) == t)
  {
    if |t| >= 2 && High(t[0]) && Low(t[1]) {
      FuseShrinks(t[2..]);
      assert PairAt(t, 0);
    } else if t != [] {
      FuseShrinks(t[1..]);
      if HasPair(t) {
        var i :| PairAt(t, i);
        assert PairAt(t[1..], i - 1);
      }
      assert forall i :: PairAt(t[1..], i) ==> PairAt(t, i + 1);
      assert t == [t[0]] + t[1..];
    }
  }

  /** The text is unchanged exactly when no string of it holds an adjacent surrogate pair. */
  lemma FuseIsIdentityIff(t: Text)
    ensures Fuse(t) == t <==> !HasPair(t)
  {
    FuseShrinks(t);
  }

  lemma SplitJoins(p: Point)
    requires p >= 0x10000
    ensures var u := UnitsOf(p); |u| == 2 && High(u[0]) && Low(u[1]) && Join(u[0], u[1]) == p
  {
  }

  lemma JoinSplits(high: int, low: int)
    requires High(high) && Low(low)
    ensures UnitsOf(Join(high, low)) == [high, low] && Join(high, low) >= 0x10000
  {
  }

  lemma PairUnits(high: Point, low: Point, rest: Text)
    requires High(high) && Low(low)
    ensures Units([high, low] + rest) == [high, low] + Units(rest)
    ensures Units([Join(high, low)] + rest) == [high, low] + Units(rest)
  {
    JoinSplits(high, low);
    assert ([high, low] + rest)[1..] == [low] + rest && ([low] + rest)[1..] == rest;
    assert ([Join(high, low)] + rest)[1..] == rest;
    assert [high] + ([low] + Units(rest)) == [high, low] + Units(rest);
  }

  /** Reading code units back gives the fused text. */
  lemma {:induction false} FuseUnits(t: Text)
    ensures Fuse(Units(t)) == Fuse(t)
    decreases |t|
  {
    if t == [] {
    } else if |t| >= 2 && High(t[0]) && Low(t[1]) {
      FuseUnits(t[2..]);
      PairUnits(t[0], t[1], t[2..]);
      assert t == [t[0], t[1]] + t[2..];
      assert Units(t)[2..] == Units(t[2..]);
    } else if t[0] >= 0x10000 {
      FuseUnits(t[1..]);
      SplitJoins(t[0]);
      assert Units(t)[2..] == Units(t[1..]);
    } else {
      FuseUnits(t[1..]);
      assert Units(t)[1..] == Units(t[1..]);
      if |t| >= 2 { FirstUnit(t[1..]); }
    }
  }

  lemma FirstUnit(t: Text)
    requires t != []
    ensures Units(t) != [] && (Low(Units(t)[0]) <==> Low(t[0]))
  {
    if t[0] >= 0x10000 { SplitJoins(t[0]); }
  }

  /** Fusing does not change what is written. */
  lemma {:induction false} UnitsOfFused(t: Text)
    ensures Units(Fuse(t)) == Units(t)
    decreases |t|
  {
    if t == [] {
    } else if |t| >= 2 && High(t[0]) && Low(t[1]) {
      UnitsOfFused(t[2..]);
      PairUnits(t[0], t[1], t[2..]);
      PairUnits(t[0], t[1], Fuse(t[2..]));
      assert t == [t[0], t[1]] + t[2..];
    } else {
      UnitsOfFused(t[1..]);
      assert Fuse(t)[1..] == Fuse(t[1..]);
    }
  }

  /* ---- escapes ------------------------------------------------------- */

  const HEX := "0123456789abcdef"

  function HexValue(c: char): int {
    if '0' <= c <= '9' then c as int - 48 else if 'a' <= c <= 'f' then c as int - 87 else -1
  }

  function Hex4(u: Unit): string {
    [HEX[u / 16 / 16 / 16], HEX[u / 16 / 16 % 16], HEX[u / 16 % 16], HEX[u % 16]]
  }

  function Escape(u: Unit): string {
    if u == 34 then "\\\""
    else if u == 92 then "\\\\"
    else if u == 8 then "\\b"
    else if u == 9 then "\\t"
    else if u == 10 then "\\n"
    else if u == 12 then "\\f"
    else if u == 13 then "\\r"
    else if 32 <= u <= 126 then [u as char]
    else "\\u" + Hex4(u)
  }

  function EscapeAll(us: seq<Unit>): string {
    if us == [] then "" else Escape(us[0]) + EscapeAll(us[1..])
  }

  function ShortEscape(c: char): Option<Unit> {
    match c
    case '"' => Some(34)
    case '\\' => Some(92)
    case '/' => Some(47)
    case 'b' => Some(8)
    case 't' => Some(9)
    case 'n' => Some(10)
    case 'f' => Some(12)
    case 'r' => Some(13)
    case _ => None
  }

  function ReadUnit(s: string): (r: Option<Parsed<Unit>>)
    ensures r.Some? ==> |r.value.rest| < |s|
  {
    if s == "" || s[0] == '"' || !(' ' <= s[0] <= '~') then None
    else if s[0] != '\\' then Some(Parsed(s[0] as int, s[1..]))
    else if |s| < 2 then None
    else if s[1] != 'u' then
      match ShortEscape(s[1])
      case None => None
      case Some(u) => Some(Parsed(u, s[2..]))
    else if |s| < 6 then None
    else
      var a, b, c, d := HexValue(s[2]), HexValue(s[3]), HexValue(s[4]), HexValue(s[5]);
      if a < 0 || b < 0 || c < 0 || d < 0 then None
      else Some(Parsed(a * 0x1000 + b * 0x100 + c * 16 + d, s[6..]))
  }

  /** Up to and including the closing quote. */
  function ReadUnits(s: string): (r: Option<Parsed<seq<Unit>>>)
    ensures r.Some? ==> |r.value.rest| < |s|
    decreases |s|
  {
    if s == "" then None
    else if s[0] == '"' then Some(Parsed([], s[1..]))
    else
      match ReadUnit(s)
      case None => None
      case Some(first) =>
        match ReadUnits(first.rest)
        case None => None
        case Some(more) => Some(Parsed([first.value] + more.value, more.rest))
  }

  lemma HexRoundTrip(d: int)
    requires 0 <= d < 16
    ensures HexValue(HEX[d]) == d
  {
  }

  lemma Hex4Reads(u: Unit, r: string)
    ensures ReadUnit("\\u" + Hex4(u) + r) == Some(Parsed(u, r))
  {
    var q1, q2, q3 := u / 16, u / 16 / 16, u / 16 / 16 / 16;
    assert u == q1 * 16 + u % 16 && q1 == q2 * 16 + q1 % 16 && q2 == q3 * 16 + q2 % 16;
    HexRoundTrip(q3);
    HexRoundTrip(q2 % 16);
    HexRoundTrip(q1 % 16);
    HexRoundTrip(u % 16);
    var s := "\\u" + Hex4(u) + r;
    assert s[0] == '\\' && s[1] == 'u' && s[6..] == r;
    assert s[2] == Hex4(u)[0] && s[3] == Hex4(u)[1] && s[4] == Hex4(u)[2] && s[5] == Hex4(u)[3];
  }

  lemma ShortReads(c: char, u: Unit, r: string)
    requires ShortEscape(c) == Some(u)
    ensures ReadUnit(['\\', c] + r) == Some(Parsed(u, r))
  {
    assert (['\\', c] + r)[2..] == r;
  }

  lemma PlainReads(c: char, r: string)
    requires ' ' <= c <= '~' && c != '"' && c != '\\'
    ensures ReadUnit([c] + r) == Some(Parsed(c as int, r))
  {
    assert ([c] + r)[1..] == r;
  }

  lemma ReadEscape(u: Unit, r: string)
    ensures ReadUnit(Escape(u) + r) == Some(Parsed(u, r))
    ensures Escape(u) != "" && Escape(u)[0] != '"'
  {
    if u == 34 { ShortReads('"', u, r); }
    else if u == 92 { ShortReads('\\', u, r); }
    else if u == 8 { ShortReads('b', u, r); }
    else if u == 9 { ShortReads('t', u, r); }
    else if u == 10 { ShortReads('n', u, r); }
    else if u == 12 { ShortReads('f', u, r); }
    else if u == 13 { ShortReads('r', u, r); }
    else if 32 <= u <= 126 { PlainReads(u as char, r); }
    else { Hex4Reads(u, r); }
  }

  lemma {:induction false} ReadEscapes(us: seq<Unit>, r: string)
    ensures ReadUnits(EscapeAll(us) + "\"" + r) == Some(Parsed(us, r))
  {
    if us == [] {
      assert "" + "\"" + r == "\"" + r;
    } else {
      var tail := EscapeAll(us[1..]) + "\"" + r;
      assert EscapeAll(us) + "\"" + r == Escape(us[0]) + tail;
      ReadEscape(us[0], tail);
      ReadEscapes(us[1..], r);
      assert [us[0]] + us[1..] == us;
    }
  }

  function Quoted(t: Text): string { "\"" + EscapeAll(Units(t)) + "\"" }

  function ReadText(s: string): (r: Option<Parsed<Text>>)
    ensures r.Some? ==> |r.value.rest| < |s|
  {
    match ReadUnits(s)
    case None => None
    case Some(p) => Some(Parsed(Fuse(p.value), p.rest))
  }

  lemma AfterQuote(body: string, r: string)
    ensures (("\"" + body + "\"") + r)[1..] == body + "\"" + r
  {
  }

  /** `ReadText` starts after the opening quote. */
  lemma ReadQuoted(t: Text, r: string)
    ensures Quoted(t)[0] == '"' && ReadText((Quoted(t) + r)[1..]) == Some(Parsed(Fuse(t), r))
  {
    AfterQuote(EscapeAll(Units(t)), r);
    ReadEscapes(Units(t), r);
    FuseUnits(t);
  }

  /* ---- numbers -------------------------------------------------------- */

  predicate Digit(c: char) { '0' <= c <= '9' }
  predicate Numeric(c: char) { Digit(c) || c == '+' || c == '-' || c == '.' || c == 'e' }

  predicate AllNumeric(s: string) { forall i :: 0 <= i < |s| ==> Numeric(s[i]) }

  predicate Fraction(c: char) { c == '.' || c == 'e' }

  /** The spelling of a finite double: opaque, but never that of an integer. */
  predicate FloatToken(s: string) {
    && s != "" && (Digit(s[0]) || s[0] == '-')
    && AllNumeric(s)
    && Fractional(s)
  }

  predicate Fractional(s: string) { exists i :: 0 <= i < |s| && Fraction(s[i]) }

  function Digits(n: nat): (s: string)
    ensures s != "" && AllDigits(s)
  {
    if n < 10 then [HEX[n]] else Digits(n / 10) + [HEX[n % 10]]
  }

  function DigitValue(c: char): nat
    requires Digit(c)
  {
    c as int - 48
  }

  predicate AllDigits(s: string) { forall i :: 0 <= i < |s| ==> Digit(s[i]) }

  function DecimalValue(s: string): nat
    requires AllDigits(s)
  {
    if s == "" then 0 else DecimalValue(s[..|s| - 1]) * 10 + DigitValue(s[|s| - 1])
  }

  lemma DigitsRoundTripStep(s: string, d: int)
    requires AllDigits(s) && 0 <= d < 10
    ensures AllDigits(s + [HEX[d]]) && DecimalValue(s + [HEX[d]]) == DecimalValue(s) * 10 + d
  {
    HexRoundTrip(d);
    assert (s + [HEX[d]])[..|s|] == s;
  }

  lemma {:induction false} DigitsRoundTrip(n: nat)
    ensures DecimalValue(Digits(n)) == n
  {
    if n < 10 {
      assert Digits(n)[..0] == "";
    } else {
      DigitsRoundTrip(n / 10);
      DigitsRoundTripStep(Digits(n / 10), n % 10);
    }
  }

  function IntText(n: int): string { if n < 0 then "-" + Digits(-n) else Digits(n) }

  /** How much of the front is a number. */
  function NumericRun(s: string): (n: nat)
    ensures n <= |s|
  {
    if s == "" || !Numeric(s[0]) then 0 else 1 + NumericRun(s[1..])
  }

  lemma {:induction false} RunStops(t: string, r: string)
    requires AllNumeric(t)
    requires r == "" || !Numeric(r[0])
    ensures NumericRun(t + r) == |t|
  {
    if t == "" {
      assert t + r == r;
    } else {
      assert (t + r)[1..] == t[1..] + r;
      RunStops(t[1..], r);
    }
  }

  function ReadInt(s: string): Option<int> {
    if s != "" && s[0] == '-' then
      if |s| > 1 && AllDigits(s[1..]) then var n: int := DecimalValue(s[1..]); Some(-n) else None
    else if s != "" && AllDigits(s) then Some(DecimalValue(s)) else None
  }

  lemma PlainDigits(s: string)
    requires AllDigits(s)
    ensures AllNumeric(s) && AllNumeric("-" + s) && !Fractional(s) && !Fractional("-" + s)
    ensures s != "" ==> s[0] != '-'
    ensures ("-" + s)[1..] == s
  {
    forall i | 0 <= i < |s| ensures Numeric(s[i]) && !Fraction(s[i]) { assert Digit(s[i]); }
  }

  lemma IntRoundTrip(n: int)
    ensures ReadInt(IntText(n)) == Some(n) && IntText(n) != "" && !Fractional(IntText(n)) && AllNumeric(IntText(n))
  {
    var m: nat := if n < 0 then -n else n;
    DigitsRoundTrip(m);
    PlainDigits(Digits(m));
  }
}
