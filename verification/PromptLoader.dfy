/**
  Prompt files (`prompts/loader.py`): the frontmatter fence and its flat
  `key: value` lines, and single-pass substitution into the body.
*/
module PromptLoader {
  import opened Prelude
  import opened PromptText

  /* ------------------------------------------------------------------ */
  /* Frontmatter                                                          */
  /* ------------------------------------------------------------------ */

  const FENCE := "---"

  datatype Malformed = NoFence | NeverClosed | NotFlat(line: string) | Duplicate(key: string)

  predicate IsFence(line: string) { Strip(line) == FENCE }

  /** The first fence at or after line `i`. */
  function ClosingFence(lines: seq<string>, i: nat): (r: Option<nat>)
    ensures r.Some? ==> i <= r.value < |lines| && IsFence(lines[r.value])
    ensures forall k :: i <= k < (if r.Some? then r.value else |lines|) ==> !IsFence(lines[k])
    decreases |lines| - i
  {
    if i >= |lines| then None else if IsFence(lines[i]) then Some(i) else ClosingFence(lines, i + 1)
  }

  function Split(raw: string): Result<(string, string), Malformed> {
    var lines := Lines(raw);
    if lines == [] || !IsFence(lines[0]) then Err(NoFence)
    else
      match ClosingFence(lines, 1)
      case None => Err(NeverClosed)
      case Some(i) => Ok((JoinLines(lines[1..i]), Strip(JoinLines(lines[i + 1..]))))
  }

  /** `_split_frontmatter` */
  method SplitFrontmatter(raw: string) returns (r: Result<(string, string), Malformed>)
    ensures r == Split(raw)
  {
    var lines := Lines(raw);
    if lines == [] || !IsFence(lines[0]) {
      return Err(NoFence);
    }
    for index := 1 to |lines|
      invariant ClosingFence(lines, 1) == ClosingFence(lines, index)
    {
      if IsFence(lines[index]) {
        return Ok((JoinLines(lines[1..index]), Strip(JoinLines(lines[index + 1..]))));
      }
    }
    return Err(NeverClosed);
  }

  predicate KeyStart(c: char) { 'a' <= c <= 'z' || c == '_' }
  predicate KeyChar(c: char) { KeyStart(c) || '0' <= c <= '9' }

  predicate IsKey(s: string) { s != "" && KeyStart(s[0]) && forall i :: 0 <= i < |s| ==> KeyChar(s[i]) }

  function KeyRun(s: string): (n: nat)
    ensures n <= |s|
  {
    if s == "" || !KeyChar(s[0]) then 0 else 1 + KeyRun(s[1..])
  }

  /** One layer of matching quotes. */
  function Unquoted(v: string): string {
    if |v| >= 2 && v[0] == v[|v| - 1] && (v[0] == '"' || v[0] == '\'') then v[1..|v| - 1] else v
  }

  function SkipBlanks(s: string): string {
    if s != "" && (s[0] == ' ' || s[0] == '\t') then SkipBlanks(s[1..]) else s
  }

  /** `^([a-z_][a-z0-9_]*):[ \t]*(.*)$`, the value stripped and unquoted. */
  function ReadField(line: string): Option<(string, string)> {
    var n := KeyRun(line);
    if !IsKey(line[..n]) || n == |line| || line[n] != ':' then None
    else Some((line[..n], Unquoted(Strip(SkipBlanks(line[n + 1..])))))
  }

  function ParseLines(lines: seq<string>, fields: map<string, string>): Result<map<string, string>, Malformed> {
    if lines == [] then Ok(fields)
    else if Strip(lines[0]) == "" then ParseLines(lines[1..], fields)
    else
      match ReadField(lines[0])
      case None => Err(NotFlat(lines[0]))
      case Some((key, value)) =>
        if key in fields then Err(Duplicate(key)) else ParseLines(lines[1..], fields[key := value])
  }

  /** `_parse_frontmatter` */
  method ParseFrontmatter(block: string) returns (r: Result<map<string, string>, Malformed>)
    ensures r == ParseLines(Lines(block), map[])
  {
    var lines, fields := Lines(block), map[];
    for i := 0 to |lines|
      invariant ParseLines(lines, map[]) == ParseLines(lines[i..], fields)
    {
      assert lines[i..][0] == lines[i] && lines[i..][1..] == lines[i + 1..];
      if Strip(lines[i]) == "" {
        continue;
      }
      var field := ReadField(lines[i]);
      if field.None? {
        return Err(NotFlat(lines[i]));
      }
      var (key, value) := field.value;
      if key in fields {
        return Err(Duplicate(key));
      }
      fields := fields[key := value];
    }
    assert lines[|lines|..] == [];
    r := Ok(fields);
  }

  /* ---- what a field line is ------------------------------------------------ */

  lemma {:induction false} BlanksStripAway(s: string)
    ensures Strip(SkipBlanks(s)) == Strip(s)
  {
    if s != "" && (s[0] == ' ' || s[0] == '\t') { BlanksStripAway(s[1..]); }
  }

  /** A key, a colon and anything: the key, and the anything stripped and unquoted. */
  lemma FieldReads(key: string, rest: string)
    requires IsKey(key)
    ensures ReadField(key + (":" + rest)) == Some((key, Unquoted(Strip(rest))))
  {
    KeyRunStops(key, ":" + rest);
    Parts(key, ":", rest);
    BlanksStripAway(rest);
  }

  /** And nothing else is a field. */
  lemma FieldIsKeyAndColon(line: string)
    ensures ReadField(line).Some? <==> exists key, rest :: IsKey(key) && line == key + (":" + rest)
  {
    if ReadField(line).Some? {
      var n := KeyRun(line);
      assert line == line[..n] + (":" + line[n + 1..]);
      assert IsKey(line[..n]);
    }
    if key, rest :| IsKey(key) && line == key + (":" + rest) { FieldReads(key, rest); }
  }

  /* ---- what is accepted ---------------------------------------------------- */

  /** The key of each line that is not blank, where it has one. */
  predicate Flat(line: string) { Strip(line) == "" || ReadField(line).Some? }

  function KeysOf(lines: seq<string>): seq<string> {
    if lines == [] then []
    else
      (if Strip(lines[0]) != "" && ReadField(lines[0]).Some? then [ReadField(lines[0]).value.0] else [])
      + KeysOf(lines[1..])
  }

  predicate NoneTwice(keys: seq<string>) { forall i, j :: 0 <= i < j < |keys| ==> keys[i] != keys[j] }

  predicate AllFlat(lines: seq<string>) { forall i :: 0 <= i < |lines| ==> Flat(lines[i]) }

  predicate Untaken(keys: seq<string>, fields: map<string, string>) {
    forall i :: 0 <= i < |keys| ==> keys[i] !in fields
  }

  /** Accepted exactly when every line is flat and no key comes twice; the mapping holds those keys. */
  lemma {:induction false} ParsesIffFlatAndDistinct(lines: seq<string>, fields: map<string, string>)
    ensures ParseLines(lines, fields).Ok? <==>
              AllFlat(lines) && NoneTwice(KeysOf(lines)) && Untaken(KeysOf(lines), fields)
    ensures ParseLines(lines, fields).Ok? ==>
              forall key :: key in ParseLines(lines, fields).value <==> key in fields || key in KeysOf(lines)
    decreases |lines|
  {
    if lines != [] {
      var rest := lines[1..];
      FlatCons(lines);
      if Strip(lines[0]) == "" {
        ParsesIffFlatAndDistinct(rest, fields);
        assert KeysOf(lines) == [] + KeysOf(rest) == KeysOf(rest);
      } else if ReadField(lines[0]).Some? {
        var (key, value) := ReadField(lines[0]).value;
        ParsesIffFlatAndDistinct(rest, fields[key := value]);
        ConsDistinct(key, KeysOf(rest), fields, value);
      }
    }
  }

  lemma FlatCons(lines: seq<string>)
    requires lines != []
    ensures AllFlat(lines) <==> Flat(lines[0]) && AllFlat(lines[1..])
  {
    assert lines == [lines[0]] + lines[1..];
  }

  lemma ConsDistinct(key: string, rest: seq<string>, fields: map<string, string>, value: string)
    ensures NoneTwice([key] + rest) && Untaken([key] + rest, fields)
            <==> key !in fields && NoneTwice(rest) && Untaken(rest, fields[key := value])
  {
    var keys := [key] + rest;
    assert forall i :: 0 <= i < |rest| ==> rest[i] == keys[i + 1];
    assert keys[0] == key;
    assert forall i :: 0 < i < |keys| ==> keys[i] == rest[i - 1];
  }

  /* ---- round trip ------------------------------------------------------------ */

  function FieldLine(key: string, value: string): string { key + ": \"" + value + "\"" }

  function FieldLines(fields: seq<(string, string)>): seq<string> {
    if fields == [] then [] else [FieldLine(fields[0].0, fields[0].1)] + FieldLines(fields[1..])
  }

  function Terminated(lines: seq<string>): string {
    if lines == [] then "" else lines[0] + "\n" + Terminated(lines[1..])
  }

  /** A prompt file as one would write it. */
  function Print(fields: seq<(string, string)>, body: string): string {
    FENCE + "\n" + (Terminated(FieldLines(fields)) + (FENCE + "\n" + body))
  }

  function AsMap(fields: seq<(string, string)>, base: map<string, string>): map<string, string> {
    if fields == [] then base else AsMap(fields[1..], base[fields[0].0 := fields[0].1])
  }

  predicate Writable(fields: seq<(string, string)>) {
    forall i {:trigger fields[i]} :: 0 <= i < |fields| ==> IsKey(fields[i].0) && Breakless(fields[i].1)
  }

  /** No key is taken, by an earlier line or by `seen`. */
  predicate Fresh(fields: seq<(string, string)>, seen: set<string>) {
    fields == [] || (fields[0].0 !in seen && Fresh(fields[1..], seen + {fields[0].0}))
  }

  lemma {:induction false} KeyRunStops(key: string, r: string)
    requires (forall i :: 0 <= i < |key| ==> KeyChar(key[i])) && (r == "" || !KeyChar(r[0]))
    ensures KeyRun(key + r) == |key|
  {
    if key == "" {
      assert key + r == r;
    } else {
      assert (key + r)[1..] == key[1..] + r;
      KeyRunStops(key[1..], r);
    }
  }

  lemma KeysHaveNoBreaks(key: string)
    requires forall i :: 0 <= i < |key| ==> KeyChar(key[i])
    ensures Breakless(key)
  {
    forall i | 0 <= i < |key| ensures !Break(key[i]) { assert KeyChar(key[i]); }
  }

  lemma TrimmedIsItself(s: string)
    requires Trim(s)
    ensures Strip(s) == s
  {
    assert "" + s + "" == s;
    StripAround("", s, "");
  }

  lemma QuotedReadsBack(value: string)
    ensures Unquoted(Strip(SkipBlanks(" \"" + value + "\""))) == value
  {
    var quoted := "\"" + value + "\"";
    assert (" \"" + value + "\"")[1..] == quoted;
    TrimmedIsItself(quoted);
    assert quoted[1..|quoted| - 1] == value;
  }

  lemma FieldReadsBack(key: string, value: string)
    requires IsKey(key)
    ensures ReadField(FieldLine(key, value)) == Some((key, value))
  {
    var line, after := FieldLine(key, value), " \"" + value + "\"";
    assert line == key + (":" + after);
    KeyRunStops(key, ":" + after);
    Parts(key, ":", after);
    QuotedReadsBack(value);
  }

  lemma Parts(key: string, colon: string, after: string)
    requires |colon| == 1
    ensures var line := key + (colon + after);
            line[..|key|] == key && line[|key|] == colon[0] && line[|key| + 1..] == after
  {
  }

  /** A field line is one line, not blank, and not a fence. */
  lemma FieldIsALine(key: string, value: string)
    requires IsKey(key) && Breakless(value)
    ensures var line := FieldLine(key, value);
            Breakless(line) && Strip(line) == line && line != "" && !IsFence(line)
  {
    var line := FieldLine(key, value);
    KeysHaveNoBreaks(key);
    assert KeyChar(key[0]) && line[0] == key[0] && line[|line| - 1] == '"';
    TrimmedIsItself(line);
    assert FENCE[0] == '-';
  }

  lemma {:induction false} FieldLinesReadBack(fields: seq<(string, string)>, base: map<string, string>)
    requires Writable(fields) && Fresh(fields, base.Keys)
    ensures ParseLines(FieldLines(fields), base) == Ok(AsMap(fields, base))
    decreases |fields|
  {
    if fields != [] {
      var (key, value) := fields[0];
      FieldReadsBack(key, value);
      FieldIsALine(key, value);
      assert base[key := value].Keys == base.Keys + {key};
      FieldLinesReadBack(fields[1..], base[key := value]);
    }
  }

  lemma {:induction false} FieldLinesAreLines(fields: seq<(string, string)>, i: nat)
    requires Writable(fields) && i < |FieldLines(fields)|
    ensures var line := FieldLines(fields)[i]; Breakless(line) && !IsFence(line) && line != ""
    decreases |fields|
  {
    FieldIsALine(fields[0].0, fields[0].1);
    if i > 0 { FieldLinesAreLines(fields[1..], i - 1); }
  }

  lemma AfterLine(l: string, t: string, r: string)
    ensures (l + "\n" + t) + r == l + "\n" + (t + r)
  {
  }

  lemma {:induction false} LinesOfTerminated(lines: seq<string>, r: string)
    requires forall i :: 0 <= i < |lines| ==> Breakless(lines[i])
    ensures Lines(Terminated(lines) + r) == lines + Lines(r)
  {
    if lines == [] {
      assert Terminated(lines) + r == r && [] + Lines(r) == Lines(r);
    } else {
      LinesOfTerminated(lines[1..], r);
      assert [lines[0]] + lines[1..] == lines;
      OneLineOn(lines[0], lines[1..], r);
    }
  }

  lemma OneLineOn(l: string, rest: seq<string>, r: string)
    requires Breakless(l) && Lines(Terminated(rest) + r) == rest + Lines(r)
    ensures Lines(Terminated([l] + rest) + r) == ([l] + rest) + Lines(r)
  {
    assert ([l] + rest)[1..] == rest;
    AfterLine(l, Terminated(rest), r);
    LinesCons(l, Terminated(rest) + r);
    ConsConcat(l, rest, Lines(r));
  }

  lemma ConsConcat(l: string, rest: seq<string>, more: seq<string>)
    ensures [l] + (rest + more) == ([l] + rest) + more
  {
  }

  lemma {:induction false} FenceFollows(lines: seq<string>, after: seq<string>, i: nat)
    requires 1 <= i <= |lines| + 1 && IsFence(FENCE)
    requires forall k :: 0 <= k < |lines| ==> !IsFence(lines[k])
    ensures ClosingFence([FENCE] + lines + [FENCE] + after, i) == Some(|lines| + 1)
    decreases |lines| + 1 - i
  {
    var all := [FENCE] + lines + [FENCE] + after;
    if i <= |lines| {
      assert all[i] == lines[i - 1];
      FenceFollows(lines, after, i + 1);
    } else {
      assert all[i] == FENCE;
    }
  }

  lemma FenceIsFence()
    ensures IsFence(FENCE) && Breakless(FENCE)
  {
    TrimmedIsItself(FENCE);
  }

  lemma Regrouped(a: seq<string>, b: seq<string>, c: seq<string>, d: seq<string>)
    ensures a + (b + (c + d)) == a + b + c + d
  {
  }

  lemma PrintedLines(fields: seq<(string, string)>, body: string)
    requires Writable(fields)
    ensures Lines(Print(fields, body)) == [FENCE] + FieldLines(fields) + [FENCE] + Lines(body)
  {
    var lines := FieldLines(fields);
    forall i | 0 <= i < |lines| ensures Breakless(lines[i]) { FieldLinesAreLines(fields, i); }
    FenceIsFence();
    var tail := FENCE + "\n" + body;
    LinesCons(FENCE, Terminated(lines) + tail);
    LinesOfTerminated(lines, tail);
    LinesCons(FENCE, body);
    Regrouped([FENCE], lines, [FENCE], Lines(body));
  }

  lemma PrintedSplits(fields: seq<(string, string)>, body: string)
    requires Writable(fields)
    ensures Split(Print(fields, body)) == Ok((JoinLines(FieldLines(fields)), Normalised(Strip(body))))
  {
    var lines := FieldLines(fields);
    forall i | 0 <= i < |lines| ensures !IsFence(lines[i]) { FieldLinesAreLines(fields, i); }
    FenceIsFence();
    PrintedLines(fields, body);
    FenceFollows(lines, Lines(body), 1);
    Between(lines, Lines(body));
    RejoinedStrip(body);
  }

  lemma Between(lines: seq<string>, after: seq<string>)
    ensures var all := [FENCE] + lines + [FENCE] + after;
            all[0] == FENCE && all[1..|lines| + 1] == lines && all[|lines| + 2..] == after
  {
  }

  /**
    Any distinct legal keys with any line-break-free values, fenced and quoted,
    split and parse back to exactly that mapping; the body comes back stripped,
    with every line break rewritten as a line feed.
  */
  lemma FrontmatterRoundTrip(fields: seq<(string, string)>, body: string)
    requires Writable(fields) && Fresh(fields, {})
    ensures Split(Print(fields, body)) == Ok((JoinLines(FieldLines(fields)), Normalised(Strip(body))))
    ensures ParseLines(Lines(JoinLines(FieldLines(fields))), map[]) == Ok(AsMap(fields, map[]))
  {
    var lines := FieldLines(fields);
    PrintedSplits(fields, body);
    forall i | 0 <= i < |lines| ensures Breakless(lines[i]) && lines[i] != "" { FieldLinesAreLines(fields, i); }
    LinesOfJoined(lines);
    var none: map<string, string> := map[];
    assert none.Keys == {};
    FieldLinesReadBack(fields, none);
  }

  /** The body is returned as written, short of its outer whitespace, exactly when it breaks lines with line feeds. */
  lemma BodyKeptIff(fields: seq<(string, string)>, body: string)
    requires Writable(fields) && Fresh(fields, {})
    ensures Split(Print(fields, body)).Ok?
    ensures Split(Print(fields, body)).value.1 == Strip(body) <==> FeedsOnly(Strip(body))
  {
    FrontmatterRoundTrip(fields, body);
    RejoinedStrip(body);
  }
}
