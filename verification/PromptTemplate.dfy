/** `{{ name }}` substitution in one leftmost pass (`prompts/loader.py`). */
module PromptTemplate {
  import opened Prelude
  import opened PromptText
  import opened PromptLoader

  /* ---- the pattern ----------------------------------------------------------- */

  function SpaceRun(s: string): (n: nat)
    ensures n <= |s|
  {
    if s == "" || !Space(s[0]) then 0 else 1 + SpaceRun(s[1..])
  }

  lemma {:induction false} SpaceRunIsBlank(s: string)
    ensures Blank(s[..SpaceRun(s)])
  {
    if s != "" && Space(s[0]) {
      SpaceRunIsBlank(s[1..]);
      assert s[..SpaceRun(s)] == [s[0]] + s[1..][..SpaceRun(s[1..])];
    }
  }

  function DropSpaces(s: string): string { s[SpaceRun(s)..] }

  /** A key, spaces, and the closing braces: the key, and what is left. */
  function MatchKey(s: string): (r: Option<(string, string)>)
    ensures r.Some? ==> |s| >= 3 + |r.value.1|
  {
    var rest := DropSpaces(s[KeyRun(s)..]);
    if IsKey(s[..KeyRun(s)]) && |rest| >= 2 && rest[0] == '}' && rest[1] == '}' then Some((s[..KeyRun(s)], rest[2..]))
    else None
  }

  function MatchInside(s: string): (r: Option<(string, string)>)
    ensures r.Some? ==> |s| >= 3 + |r.value.1|
  {
    MatchKey(DropSpaces(s))
  }

  /** The placeholder the text starts with, and what follows it. */
  function MatchHere(s: string): (r: Option<(string, string)>)
    ensures r.Some? ==> |s| >= 5 + |r.value.1|
  {
    if |s| >= 2 && s[0] == '{' && s[1] == '{' then MatchInside(s[2..]) else None
  }

  function Inside(before: string, name: string, after: string): string { before + (name + (after + "}}")) }

  function Placeholder(before: string, name: string, after: string): string { "{{" + Inside(before, name, after) }

  /** `\{\{\s*([a-z_][a-z0-9_]*)\s*\}\}` */
  ghost predicate Spells(t: string, name: string) {
    IsKey(name) && exists before, after :: Blank(before) && Blank(after) && t == Placeholder(before, name, after)
  }

  lemma {:induction false} SpaceRunStops(s: string, r: string)
    requires Blank(s) && (r == "" || !Space(r[0]))
    ensures SpaceRun(s + r) == |s|
  {
    if s == "" {
      assert s + r == r;
    } else {
      assert (s + r)[1..] == s[1..] + r;
      SpaceRunStops(s[1..], r);
    }
  }

  lemma KeyCharsAreNotSpace(c: char)
    ensures KeyChar(c) ==> !Space(c)
    ensures !KeyChar('}') && !Space('}')
    ensures Space(c) ==> !KeyChar(c)
  {
  }

  lemma Cut(a: string, b: string)
    ensures (a + b)[..|a|] == a && (a + b)[|a|..] == b
  {
  }

  lemma TakeTwo(rest: string)
    requires |rest| >= 2 && rest[0] == '}' && rest[1] == '}'
    ensures rest == "}}" + rest[2..]
  {
  }

  lemma Glue(a: string, b: string, c: string)
    ensures a + (b + c) == (a + b) + c
  {
  }

  lemma Rebuilt(before: string, name: string, after: string, r: string)
    ensures before + (name + (after + ("}}" + r))) == Inside(before, name, after) + r
  {
    Glue(after, "}}", r);
    Glue(name, after + "}}", r);
    Glue(before, name + (after + "}}"), r);
  }

  lemma SplitAt(s: string, n: nat)
    requires n <= |s|
    ensures s == s[..n] + s[n..]
  {
  }

  lemma DroppedSpaces(s: string) returns (spaces: string)
    ensures Blank(spaces) && s == spaces + DropSpaces(s)
  {
    spaces := s[..SpaceRun(s)];
    SpaceRunIsBlank(s);
    SplitAt(s, SpaceRun(s));
  }

  lemma MatchedKey(s: string) returns (after: string)
    requires MatchKey(s).Some?
    ensures Blank(after) && IsKey(MatchKey(s).value.0)
    ensures s == MatchKey(s).value.0 + (after + ("}}" + MatchKey(s).value.1))
  {
    after := DroppedSpaces(s[KeyRun(s)..]);
    SplitAt(s, KeyRun(s));
    TakeTwo(DropSpaces(s[KeyRun(s)..]));
  }

  lemma InsideIsSpelled(s: string) returns (before: string, after: string)
    requires MatchInside(s).Some?
    ensures Blank(before) && Blank(after) && IsKey(MatchInside(s).value.0)
    ensures s == Inside(before, MatchInside(s).value.0, after) + MatchInside(s).value.1
  {
    before := DroppedSpaces(s);
    after := MatchedKey(DropSpaces(s));
    Rebuilt(before, MatchInside(s).value.0, after, MatchInside(s).value.1);
  }

  lemma Opens(s: string)
    requires MatchHere(s).Some?
    ensures s == "{{" + s[2..] && MatchInside(s[2..]) == MatchHere(s)
  {
  }

  /** What the scanner finds is a placeholder, */
  lemma MatchIsSpelled(s: string) returns (t: string)
    requires MatchHere(s).Some?
    ensures Spells(t, MatchHere(s).value.0) && s == t + MatchHere(s).value.1
  {
    Opens(s);
    var before, after := InsideIsSpelled(s[2..]);
    t := SpelledFrom(s, s[2..], before, MatchHere(s).value.0, after, MatchHere(s).value.1);
  }

  lemma SpelledFrom(s: string, inner: string, before: string, name: string, after: string, rest: string)
    returns (t: string)
    requires s == "{{" + inner && inner == Inside(before, name, after) + rest
    requires Blank(before) && Blank(after) && IsKey(name)
    ensures Spells(t, name) && s == t + rest
  {
    t := Placeholder(before, name, after);
    Glue("{{", Inside(before, name, after), rest);
  }

  lemma SpacesDrop(spaces: string, r: string)
    requires Blank(spaces) && (r == "" || !Space(r[0]))
    ensures DropSpaces(spaces + r) == r
  {
    SpaceRunStops(spaces, r);
    Cut(spaces, r);
  }

  lemma KeyMatches(name: string, after: string, r: string)
    requires IsKey(name) && Blank(after)
    ensures MatchKey(name + (after + ("}}" + r))) == Some((name, r))
  {
    var rest := "}}" + r;
    var close := after + rest;
    SpaceIsNotKey(after, rest);
    KeyRunStops(name, close);
    Cut(name, close);
    SpacesDrop(after, rest);
    assert rest[2..] == r;
  }

  lemma KeyIsNotSpace(name: string, r: string)
    requires IsKey(name)
    ensures (name + r)[0] == name[0] && !Space(name[0])
  {
    assert KeyChar(name[0]);
    KeyCharsAreNotSpace(name[0]);
  }

  lemma SpaceIsNotKey(after: string, rest: string)
    requires Blank(after) && rest != "" && rest[0] == '}'
    ensures (after + rest) != "" && !KeyChar((after + rest)[0]) && !Space(rest[0])
  {
    KeyCharsAreNotSpace((after + rest)[0]);
  }

  lemma InsideIsMatched(s: string, before: string, name: string, after: string, r: string)
    requires Blank(before) && Blank(after) && IsKey(name) && s == before + (name + (after + ("}}" + r)))
    ensures MatchInside(s) == Some((name, r))
  {
    KeyMatches(name, after, r);
    KeyIsNotSpace(name, after + ("}}" + r));
    SpacesDrop(before, name + (after + ("}}" + r)));
  }

  /** and a placeholder is found whatever follows it, so no two readings compete. */
  lemma SpelledIsMatched(t: string, r: string, name: string)
    requires Spells(t, name)
    ensures MatchHere(t + r) == Some((name, r))
  {
    var before, after :| Blank(before) && Blank(after) && t == Placeholder(before, name, after);
    PlaceholderIsMatched(before, name, after, r);
  }

  lemma PlaceholderIsMatched(before: string, name: string, after: string, r: string)
    requires Blank(before) && Blank(after) && IsKey(name)
    ensures MatchHere(Placeholder(before, name, after) + r) == Some((name, r))
  {
    var inner := Inside(before, name, after) + r;
    Rebuilt(before, name, after, r);
    InsideIsMatched(inner, before, name, after, r);
    Glue("{{", Inside(before, name, after), r);
    OpenMatches(Placeholder(before, name, after) + r, inner);
  }

  lemma OpenMatches(s: string, inner: string)
    requires s == "{{" + inner
    ensures MatchHere(s) == MatchInside(inner)
  {
    assert s[2..] == inner;
  }

  /* ---- one pass ----------------------------------------------------------------- */

  datatype Piece = Plain(c: char) | Hole(source: string, name: string)

  function Pieces(s: string): seq<Piece>
    decreases |s|
  {
    if s == "" then []
    else
      match MatchHere(s)
      case None => [Plain(s[0])] + Pieces(s[1..])
      case Some((name, rest)) => [Hole(s[..|s| - |rest|], name)] + Pieces(rest)
  }

  function Source(ps: seq<Piece>): string {
    if ps == [] then "" else (if ps[0].Plain? then [ps[0].c] else ps[0].source) + Source(ps[1..])
  }

  function Names(ps: seq<Piece>): set<string> {
    if ps == [] then {} else (if ps[0].Hole? then {ps[0].name} else {}) + Names(ps[1..])
  }

  function Fill(ps: seq<Piece>, variables: map<string, string>): string
    requires Names(ps) <= variables.Keys
  {
    if ps == [] then ""
    else (if ps[0].Plain? then [ps[0].c] else variables[ps[0].name]) + Fill(ps[1..], variables)
  }

  datatype Mismatch = Mismatch(missing: set<string>, unexpected: set<string>)

  function Render(body: string, variables: map<string, string>): Result<string, Mismatch> {
    var expected := Names(Pieces(body));
    if expected != variables.Keys then Err(Mismatch(expected - variables.Keys, variables.Keys - expected))
    else Ok(Fill(Pieces(body), variables))
  }

  /* ---- what the pass means ------------------------------------------------------- */

  ghost predicate OpensHole(s: string) { exists t, r, name :: Opening(s, t, r, name) }

  ghost predicate Opening(s: string, t: string, r: string, name: string) { s == t + r && Spells(t, name) }

  /** Every hole is a placeholder, and no plain character starts one. */
  ghost predicate Leftmost(ps: seq<Piece>) {
    ps == [] ||
    ((if ps[0].Plain? then !OpensHole(Source(ps)) else Spells(ps[0].source, ps[0].name)) && Leftmost(ps[1..]))
  }

  lemma OpensHoleIffMatch(s: string)
    ensures OpensHole(s) <==> MatchHere(s).Some?
  {
    if MatchHere(s).Some? {
      var t := MatchIsSpelled(s);
      assert Opening(s, t, MatchHere(s).value.1, MatchHere(s).value.0);
    }
    if OpensHole(s) {
      var t, r, name :| Opening(s, t, r, name);
      SpelledIsMatched(t, r, name);
    }
  }

  lemma {:induction false} PiecesAreLeftmost(s: string)
    ensures Source(Pieces(s)) == s && Leftmost(Pieces(s))
    decreases |s|
  {
    if s != "" {
      OpensHoleIffMatch(s);
      match MatchHere(s)
      case None =>
        PiecesAreLeftmost(s[1..]);
        PlainFirst(s[0], Pieces(s[1..]));
        SplitAt(s, 1);
      case Some((name, rest)) =>
        var t := MatchIsSpelled(s);
        Cut(t, rest);
        PiecesAreLeftmost(rest);
        HoleFirst(t, name, Pieces(rest));
    }
  }

  lemma PlainFirst(c: char, ps: seq<Piece>)
    ensures Source([Plain(c)] + ps) == [c] + Source(ps)
    ensures Leftmost([Plain(c)] + ps) <==> !OpensHole([c] + Source(ps)) && Leftmost(ps)
  {
    assert ([Plain(c)] + ps)[1..] == ps;
  }

  lemma HoleFirst(t: string, name: string, ps: seq<Piece>)
    ensures Source([Hole(t, name)] + ps) == t + Source(ps)
    ensures Leftmost([Hole(t, name)] + ps) <==> Spells(t, name) && Leftmost(ps)
  {
    assert ([Hole(t, name)] + ps)[1..] == ps;
  }

  /** There is only one such reading of a template. */
  lemma {:induction false} LeftmostIsUnique(ps: seq<Piece>)
    requires Leftmost(ps)
    ensures Pieces(Source(ps)) == ps
    decreases |ps|
  {
    if ps != [] {
      assert ps == [ps[0]] + ps[1..];
      LeftmostIsUnique(ps[1..]);
      match ps[0]
      case Plain(c) => PlainIsScanned(c, ps[1..]);
      case Hole(t, name) => HoleIsScanned(t, name, ps[1..]);
    }
  }

  lemma PlainIsScanned(c: char, ps: seq<Piece>)
    requires Leftmost([Plain(c)] + ps) && Pieces(Source(ps)) == ps
    ensures Pieces(Source([Plain(c)] + ps)) == [Plain(c)] + ps
  {
    PlainFirst(c, ps);
    OpensHoleIffMatch([c] + Source(ps));
    assert ([c] + Source(ps))[1..] == Source(ps);
  }

  lemma HoleIsScanned(t: string, name: string, ps: seq<Piece>)
    requires Leftmost([Hole(t, name)] + ps) && Pieces(Source(ps)) == ps
    ensures Pieces(Source([Hole(t, name)] + ps)) == [Hole(t, name)] + ps
  {
    HoleFirst(t, name, ps);
    SpelledIsMatched(t, Source(ps), name);
    Cut(t, Source(ps));
  }

  /**
    Rendering succeeds iff the supplied names are the template's, and the text
    is then the template's one leftmost reading with each hole replaced.
  */
  lemma RenderMeaning(ps: seq<Piece>, variables: map<string, string>)
    requires Leftmost(ps)
    ensures Render(Source(ps), variables).Ok? <==> Names(ps) == variables.Keys
    ensures Names(ps) == variables.Keys ==> Render(Source(ps), variables) == Ok(Fill(ps, variables))
    ensures Names(ps) != variables.Keys ==>
              Render(Source(ps), variables) == Err(Mismatch(Names(ps) - variables.Keys, variables.Keys - Names(ps)))
  {
    LeftmostIsUnique(ps);
  }

  lemma {:induction false} NamesOfConcat(a: seq<Piece>, b: seq<Piece>)
    ensures Names(a + b) == Names(a) + Names(b)
  {
    if a == [] {
      assert a + b == b;
    } else {
      assert (a + b)[1..] == a[1..] + b;
      NamesOfConcat(a[1..], b);
    }
  }

  lemma FillCons(p: Piece, ps: seq<Piece>, variables: map<string, string>)
    requires Names([p] + ps) <= variables.Keys
    ensures Names([p] + ps) == (if p.Hole? then {p.name} else {}) + Names(ps)
    ensures Fill([p] + ps, variables) == (if p.Plain? then [p.c] else variables[p.name]) + Fill(ps, variables)
  {
    assert ([p] + ps)[1..] == ps;
  }

  lemma {:induction false} FillOfConcat(a: seq<Piece>, b: seq<Piece>, variables: map<string, string>)
    requires Names(a) <= variables.Keys && Names(b) <= variables.Keys
    ensures Names(a + b) <= variables.Keys && Fill(a + b, variables) == Fill(a, variables) + Fill(b, variables)
    decreases |a|
  {
    NamesOfConcat(a, b);
    if a == [] {
      assert a + b == b;
    } else {
      var p, rest := a[0], a[1..];
      assert a == [p] + rest && a + b == [p] + (rest + b);
      FillOfConcat(rest, b, variables);
      FillCons(p, rest, variables);
      FillCons(p, rest + b, variables);
      Glue(if p.Plain? then [p.c] else variables[p.name], Fill(rest, variables), Fill(b, variables));
    }
  }

  /** A value lands whole and unread between what its neighbours became, placeholders inside it included. */
  lemma ValuesAreVerbatim(a: seq<Piece>, hole: Piece, b: seq<Piece>, variables: map<string, string>)
    requires hole.Hole? && Names(a) <= variables.Keys && hole.name in variables && Names(b) <= variables.Keys
    ensures Names(a + [hole] + b) <= variables.Keys
    ensures Fill(a + [hole] + b, variables) == Fill(a, variables) + variables[hole.name] + Fill(b, variables)
  {
    assert Names([hole]) == {hole.name};
    assert Fill([hole], variables) == variables[hole.name] + "" == variables[hole.name];
    FillOfConcat(a, [hole], variables);
    FillOfConcat(a + [hole], b, variables);
  }

  /** The whole template is one placeholder: the text is the value, whatever it holds. */
  lemma OneHoleRendersItsValue(name: string, value: string)
    requires IsKey(name)
    ensures Render(Placeholder("", name, ""), map[name := value]) == Ok(value)
  {
    var t, hole := Placeholder("", name, ""), Hole(Placeholder("", name, ""), name);
    assert Spells(t, name);
    assert Source([hole]) == t + "" == t;
    assert Names([hole]) == {name};
    var variables := map[name := value];
    assert Fill([hole], variables) == value + "" == value;
    RenderMeaning([hole], variables);
  }
}
