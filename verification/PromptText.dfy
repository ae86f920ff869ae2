/** Python's line and whitespace rules, as far as the prompt loader leans on them. */
module PromptText {

  /** `str.isspace`, which `strip` and the pattern class `\s` share. */
  predicate Space(c: char) {
    var n := c as int;
    || 9 <= n <= 13 || 28 <= n <= 32 || n == 0x85 || n == 0xA0 || n == 0x1680
    || 0x2000 <= n <= 0x200A || n == 0x2028 || n == 0x2029 || n == 0x202F || n == 0x205F || n == 0x3000
  }

  /** Where `splitlines` cuts. */
  predicate Break(c: char) {
    var n := c as int;
    10 <= n <= 13 || 28 <= n <= 30 || n == 0x85 || n == 0x2028 || n == 0x2029
  }

  predicate Breakless(s: string) { forall i :: 0 <= i < |s| ==> !Break(s[i]) }

  predicate Blank(s: string) { forall i :: 0 <= i < |s| ==> Space(s[i]) }

  lemma BreaksAreSpace(c: char)
    ensures Break(c) ==> Space(c)
  {
  }

  /* ---- strip ------------------------------------------------------------- */

  function LeftStrip(s: string): string { if s != "" && Space(s[0]) then LeftStrip(s[1..]) else s }

  function RightStrip(s: string): string {
    if s != "" && Space(s[|s| - 1]) then RightStrip(s[..|s| - 1]) else s
  }

  function Strip(s: string): string { RightStrip(LeftStrip(s)) }

  /** Neither end is whitespace. */
  predicate Trim(s: string) { s == "" || (!Space(s[0]) && !Space(s[|s| - 1])) }

  lemma {:induction false} LeftStripSplits(s: string) returns (pre: string)
    ensures Blank(pre) && s == pre + LeftStrip(s)
    ensures LeftStrip(s) == "" || !Space(LeftStrip(s)[0])
  {
    if s != "" && Space(s[0]) {
      var rest := LeftStripSplits(s[1..]);
      pre := [s[0]] + rest;
      assert s == [s[0]] + s[1..];
    } else {
      pre := "";
    }
  }

  lemma {:induction false} RightStripSplits(s: string) returns (post: string)
    ensures Blank(post) && s == RightStrip(s) + post
    ensures RightStrip(s) == "" || !Space(RightStrip(s)[|RightStrip(s)| - 1])
  {
    if s != "" && Space(s[|s| - 1]) {
      var n := |s| - 1;
      var rest := RightStripSplits(s[..n]);
      post := rest + [s[n]];
      assert s == s[..n] + [s[n]];
      assert RightStrip(s) + post == (RightStrip(s[..n]) + rest) + [s[n]];
    } else {
      post := "";
    }
  }

  /** `strip` takes whitespace off both ends and leaves a trimmed middle. */
  lemma StripSplits(s: string) returns (pre: string, post: string)
    ensures Blank(pre) && Blank(post) && Trim(Strip(s)) && s == pre + Strip(s) + post
  {
    pre := LeftStripSplits(s);
    post := RightStripSplits(LeftStrip(s));
    if Strip(s) != "" { assert LeftStrip(s)[0] == Strip(s)[0]; }
  }

  lemma {:induction false} LeftStripDrops(pre: string, s: string)
    requires Blank(pre) && (s == "" || !Space(s[0]))
    ensures LeftStrip(pre + s) == s
  {
    if pre == "" {
      assert pre + s == s;
    } else {
      assert (pre + s)[1..] == pre[1..] + s;
      LeftStripDrops(pre[1..], s);
    }
  }

  lemma {:induction false} RightStripDrops(s: string, post: string)
    requires Blank(post) && (s == "" || !Space(s[|s| - 1]))
    ensures RightStrip(s + post) == s
  {
    if post == "" {
      assert s + post == s;
    } else {
      var n := |post| - 1;
      assert (s + post)[..|s| + n] == s + post[..n];
      RightStripDrops(s, post[..n]);
    }
  }

  lemma {:induction false} BlankStripsAway(s: string)
    requires Blank(s)
    ensures LeftStrip(s) == ""
  {
    if s != "" { BlankStripsAway(s[1..]); }
  }

  /** That middle is the only one. */
  lemma StripAround(pre: string, core: string, post: string)
    requires Blank(pre) && Blank(post) && Trim(core)
    ensures Strip(pre + core + post) == core
  {
    if core == "" {
      assert pre + core + post == pre + post;
      BlankStripsAway(pre + post);
    } else {
      assert pre + core + post == pre + (core + post);
      LeftStripDrops(pre, core + post);
      RightStripDrops(core, post);
    }
  }

  /* ---- splitlines ---------------------------------------------------------- */

  function LineLength(s: string): (n: nat)
    ensures n <= |s| && Breakless(s[..n]) && (n < |s| ==> Break(s[n]))
  {
    if s == "" || Break(s[0]) then 0
    else
      var n := LineLength(s[1..]);
      assert s[..n + 1] == [s[0]] + s[1..][..n];
      n + 1
  }

  /** A carriage return and line feed are one break. */
  function BreakLength(s: string): (n: nat)
    requires s != ""
    ensures 1 <= n <= |s|
  {
    if |s| > 1 && s[0] == '\r' && s[1] == '\n' then 2 else 1
  }

  /** What follows the first line and its break. */
  function NextLines(s: string): (r: string)
    requires LineLength(s) < |s|
    ensures |r| < |s|
  {
    s[LineLength(s)..][BreakLength(s[LineLength(s)..])..]
  }

  function Lines(s: string): seq<string>
    decreases |s|
  {
    if s == "" then []
    else if LineLength(s) == |s| then [s]
    else [s[..LineLength(s)]] + Lines(NextLines(s))
  }

  /** `"\n".join` */
  function JoinLines(lines: seq<string>): string {
    if lines == [] then ""
    else if |lines| == 1 then lines[0]
    else lines[0] + "\n" + JoinLines(lines[1..])
  }

  lemma {:induction false} LineEnds(l: string, r: string)
    requires Breakless(l) && (r == "" || Break(r[0]))
    ensures LineLength(l + r) == |l|
  {
    if l == "" {
      assert l + r == r;
    } else {
      assert (l + r)[1..] == l[1..] + r;
      LineEnds(l[1..], r);
    }
  }

  lemma Cut(a: string, b: string)
    ensures (a + b)[..|a|] == a && (a + b)[|a|..] == b
  {
  }

  lemma LinesCons(l: string, r: string)
    requires Breakless(l)
    ensures Lines(l + "\n" + r) == [l] + Lines(r)
  {
    var tail := "\n" + r;
    assert l + "\n" + r == l + tail;
    assert tail[1..] == r;
    LinesAtBreak(l, tail);
  }

  lemma LinesLast(l: string)
    requires Breakless(l) && l != ""
    ensures Lines(l) == [l]
  {
    assert l + "" == l;
    LineEnds(l, "");
  }

  /** Splitting undoes joining, as long as the last line is not empty. */
  lemma {:induction false} LinesOfJoined(lines: seq<string>)
    requires forall i :: 0 <= i < |lines| ==> Breakless(lines[i])
    requires lines != [] ==> lines[|lines| - 1] != ""
    ensures Lines(JoinLines(lines)) == lines
  {
    if |lines| == 1 {
      LinesLast(lines[0]);
    } else if lines != [] {
      LinesOfJoined(lines[1..]);
      LinesCons(lines[0], JoinLines(lines[1..]));
    }
  }

  /* ---- what splitting and rejoining does to a text ------------------------ */

  /** Every line break becomes one line feed. */
  function Normalised(s: string): string
    decreases |s|
  {
    if s == "" then ""
    else if Break(s[0]) then "\n" + Normalised(s[BreakLength(s)..])
    else [s[0]] + Normalised(s[1..])
  }

  predicate EndsInBreak(s: string) { s != "" && Break(s[|s| - 1]) }

  lemma {:induction false} NormalisedLine(l: string, r: string)
    requires Breakless(l)
    ensures Normalised(l + r) == l + Normalised(r)
  {
    if l == "" {
      assert l + r == r;
    } else {
      assert (l + r)[1..] == l[1..] + r && (l + r)[0] == l[0];
      NormalisedLine(l[1..], r);
    }
  }

  lemma TailEnds(head: string, tail: string)
    requires tail != ""
    ensures EndsInBreak(head + tail) <==> EndsInBreak(tail)
  {
    assert (head + tail)[|head + tail| - 1] == tail[|tail| - 1];
  }

  /** What starts with a break ends in one, unless something that does not follows it. */
  lemma BreakEnds(tail: string)
    requires tail != "" && Break(tail[0])
    ensures var rest := tail[BreakLength(tail)..]; EndsInBreak(tail) <==> rest == "" || EndsInBreak(rest)
  {
    var n := BreakLength(tail);
    if n < |tail| {
      TailEnds(tail[..n], tail[n..]);
      assert tail == tail[..n] + tail[n..];
    }
  }

  lemma NormalisedBreak(l: string, tail: string)
    requires Breakless(l) && tail != "" && Break(tail[0])
    ensures Normalised(l + tail) == l + ("\n" + Normalised(tail[BreakLength(tail)..]))
  {
    NormalisedLine(l, tail);
  }

  lemma LinesAtBreak(l: string, tail: string)
    requires Breakless(l) && tail != "" && Break(tail[0])
    ensures LineLength(l + tail) == |l| && NextLines(l + tail) == tail[BreakLength(tail)..]
    ensures Lines(l + tail) == [l] + Lines(tail[BreakLength(tail)..])
  {
    LineEnds(l, tail);
    Cut(l, tail);
  }

  lemma JoinCons(l: string, lines: seq<string>)
    ensures JoinLines([l] + lines) == if lines == [] then l else l + "\n" + JoinLines(lines)
  {
    assert ([l] + lines)[1..] == lines;
  }

  lemma LineSplits(s: string) returns (l: string, tail: string)
    requires LineLength(s) < |s|
    ensures s == l + tail && Breakless(l) && tail != "" && Break(tail[0]) && |tail| <= |s|
  {
    l, tail := s[..LineLength(s)], s[LineLength(s)..];
  }

  /** Rejoined lines are the normalised text, short of one trailing break. */
  lemma {:induction false} RejoinedIsNormalised(s: string)
    ensures Normalised(s) == JoinLines(Lines(s)) + (if EndsInBreak(s) then "\n" else "")
    decreases |s|
  {
    if LineLength(s) < |s| {
      var l, tail := LineSplits(s);
      var rest := tail[BreakLength(tail)..];
      RejoinedIsNormalised(rest);
      RejoinedStep(l, tail);
    } else if s != "" {
      assert s[..|s|] == s && s + "" == s;
      NormalisedLine(s, "");
    }
  }

  lemma RejoinedStep(l: string, tail: string)
    requires Breakless(l) && tail != "" && Break(tail[0])
    requires var rest := tail[BreakLength(tail)..];
             Normalised(rest) == JoinLines(Lines(rest)) + (if EndsInBreak(rest) then "\n" else "")
    ensures Normalised(l + tail) == JoinLines(Lines(l + tail)) + (if EndsInBreak(l + tail) then "\n" else "")
  {
    var rest := tail[BreakLength(tail)..];
    NormalisedBreak(l, tail);
    LinesAtBreak(l, tail);
    TailEnds(l, tail);
    BreakEnds(tail);
    JoinCons(l, Lines(rest));
    assert Lines(rest) == [] <==> rest == "";
    Regroup(l, JoinLines(Lines(rest)), if EndsInBreak(rest) then "\n" else "");
  }

  lemma Regroup(l: string, joined: string, tail: string)
    ensures l + ("\n" + (joined + tail)) == (l + "\n" + joined) + tail
    ensures l + ("\n" + "") == l + "\n"
  {
  }

  /** Line feeds only. */
  predicate FeedsOnly(s: string) { forall i :: 0 <= i < |s| ==> (Break(s[i]) ==> s[i] == '\n') }

  lemma {:induction false} NormalisedFeedsOnly(s: string)
    ensures FeedsOnly(Normalised(s))
    decreases |s|
  {
    if s != "" {
      if Break(s[0]) { NormalisedFeedsOnly(s[BreakLength(s)..]); } else { NormalisedFeedsOnly(s[1..]); }
    }
  }

  lemma {:induction false} FeedsOnlyIsNormal(s: string)
    requires FeedsOnly(s)
    ensures Normalised(s) == s
    decreases |s|
  {
    if s != "" {
      assert s == [s[0]] + s[1..];
      FeedsOnlyIsNormal(s[1..]);
      assert Break(s[0]) ==> BreakLength(s) == 1;
    }
  }

  /** No carriage return and line feed straddles the cut. */
  predicate CleanCut(a: string, b: string) { a == "" || b == "" || a[|a| - 1] != '\r' || b[0] != '\n' }

  /** How much of the front is rewritten at once: a break, or one character. */
  function Token(s: string): (n: nat)
    requires s != ""
    ensures 1 <= n <= |s|
  {
    if Break(s[0]) then BreakLength(s) else 1
  }

  lemma NormalisedToken(s: string)
    requires s != ""
    ensures Normalised(s) == (if Break(s[0]) then "\n" else [s[0]]) + Normalised(s[Token(s)..])
  {
  }

  lemma TokenOfConcat(a: string, b: string)
    requires a != "" && CleanCut(a, b)
    ensures Token(a + b) == Token(a) && (a + b)[0] == a[0] && (a + b)[Token(a)..] == a[Token(a)..] + b
    ensures CleanCut(a[Token(a)..], b)
  {
  }

  lemma {:induction false} NormalisedConcat(a: string, b: string)
    requires CleanCut(a, b)
    ensures Normalised(a + b) == Normalised(a) + Normalised(b)
    decreases |a|
  {
    if a == "" {
      assert a + b == b;
    } else {
      TokenOfConcat(a, b);
      NormalisedToken(a);
      NormalisedToken(a + b);
      NormalisedConcat(a[Token(a)..], b);
      Glue(if Break(a[0]) then "\n" else [a[0]], Normalised(a[Token(a)..]), Normalised(b));
    }
  }

  lemma Glue(a: string, b: string, c: string)
    ensures (a + b) + c == a + (b + c)
  {
  }

  lemma {:induction false} NormalisedBlank(s: string)
    requires Blank(s)
    ensures Blank(Normalised(s))
    decreases |s|
  {
    if s != "" {
      var n := if Break(s[0]) then BreakLength(s) else 1;
      NormalisedBlank(s[n..]);
    }
  }

  lemma NormalisedTrim(s: string)
    requires Trim(s)
    ensures Trim(Normalised(s))
  {
    if s != "" {
      var n := |s| - 1;
      BreaksAreSpace(s[0]);
      BreaksAreSpace(s[n]);
      assert s == s[..n] + [s[n]];
      NormalisedConcat(s[..n], [s[n]]);
    }
  }

  lemma StripIgnoresTail(s: string, tail: string)
    requires Blank(tail)
    ensures Strip(s + tail) == Strip(s)
  {
    var pre, post := StripSplits(s);
    assert s + tail == pre + Strip(s) + (post + tail);
    StripAround(pre, Strip(s), post + tail);
  }

  lemma NormalisedStrip(s: string)
    ensures Strip(Normalised(s)) == Normalised(Strip(s))
  {
    var pre, post := StripSplits(s);
    var core := Strip(s);
    BreaksAreSpace('\r');
    BreaksAreSpace('\n');
    NormalisedConcat(core, post);
    if core == "" {
      NormalisedBlank(pre + post);
      assert s == pre + post;
      assert Normalised(s) == Normalised(s) + "" + "";
      StripAround(Normalised(s), "", "");
    } else {
      assert (core + post)[0] == core[0] && s == pre + (core + post);
      NormalisedConcat(pre, core + post);
      NormalisedBlank(pre);
      NormalisedBlank(post);
      NormalisedTrim(core);
      assert Normalised(s) == Normalised(pre) + Normalised(core) + Normalised(post);
      StripAround(Normalised(pre), Normalised(core), Normalised(post));
    }
  }

  /** Splitting into lines, rejoining and stripping keeps a stripped text exactly when its breaks are line feeds. */
  lemma RejoinedStrip(s: string)
    ensures Strip(JoinLines(Lines(s))) == Normalised(Strip(s))
    ensures Normalised(Strip(s)) == Strip(s) <==> FeedsOnly(Strip(s))
  {
    RejoinedIsNormalised(s);
    NormalisedStrip(s);
    StripIgnoresTail(JoinLines(Lines(s)), if EndsInBreak(s) then "\n" else "");
    NormalisedFeedsOnly(Strip(s));
    if FeedsOnly(Strip(s)) { FeedsOnlyIsNormal(Strip(s)); }
  }
}
