/**
  The hash chain (`observability/audit.py`): each link's digest covers its
  payload and the previous digest, and nothing else. The hash is any function
  from bytes to thirty-two bytes; a theorem that needs it not to collide says
  so by naming the two inputs that would have to.
*/
module AuditChain {
  import opened Prelude
  import opened CanonicalJson
  import CanonicalForm

  type Byte = b: int | 0 <= b < 256
  type Digest = d: seq<Byte> | |d| == 32 witness seq(32, _ => 0)
  type Hash = seq<int> -> Digest

  /** Thirty-two zero bytes. */
  function Genesis(): Digest { seq(32, _ => 0) }

  /** `AuditEvent`'s six. */
  datatype Kind = DecisionMade | FactWritten | Reviewed | PolicyChanged | Quarantined | FactSuperseded

  /** `sequence` is unset until the row is inserted. */
  datatype Link = Link(kind: Kind, payload: Fields, prev: Digest, digest: Digest, sequence: Option<int>)

  datatype Verification = Verification(verified: bool, brokenAt: Option<int>, checked: nat)

  /** ASCII, so UTF-8 is one byte a character. */
  function Bytes(s: string): seq<int> { seq(|s|, i requires 0 <= i < |s| => s[i] as int) }

  function Preimage(body: string, prev: Digest): seq<int> { Bytes(body) + prev }

  function DigestFor(hash: Hash, payload: Fields, prev: Digest): Result<Digest, Refusal> {
    match Canonical(payload)
    case Err(refusal) => Err(refusal)
    case Ok(body) => Ok(hash(Preimage(body, prev)))
  }

  function NextLink(hash: Hash, kind: Kind, payload: Fields, prev: Digest): Result<Link, Refusal> {
    match DigestFor(hash, payload, prev)
    case Err(refusal) => Err(refusal)
    case Ok(digest) => Ok(Link(kind, payload, prev, digest, None))
  }

  function Head(events: seq<Link>): Digest { if events == [] then Genesis() else events[|events| - 1].digest }

  predicate Linked(events: seq<Link>, i: nat)
    requires i < |events|
  {
    events[i].prev == Head(events[..i])
  }

  predicate Sound(hash: Hash, events: seq<Link>, i: nat)
    requires i < |events|
  {
    Linked(events, i) && DigestFor(hash, events[i].payload, events[i].prev) == Ok(events[i].digest)
  }

  predicate WellFormed(hash: Hash, events: seq<Link>) {
    forall i {:trigger Sound(hash, events, i)} :: 0 <= i < |events| ==> Sound(hash, events, i)
  }

  /** Everything before `i` adds up and `i` does not. */
  predicate FirstBad(hash: Hash, events: seq<Link>, i: nat) {
    i < |events| && WellFormed(hash, events[..i]) && !Sound(hash, events, i)
  }

  predicate RaisesAt(hash: Hash, events: seq<Link>, i: nat, refusal: Refusal) {
    FirstBad(hash, events, i) && Linked(events, i) && Canonical(events[i].payload) == Err(refusal)
  }

  function Position(events: seq<Link>, i: nat): int
    requires i < |events|
  {
    if events[i].sequence.Some? then events[i].sequence.value else i
  }

  lemma SoundInPrefix(hash: Hash, events: seq<Link>, n: nat, i: nat)
    requires i < n <= |events|
    ensures Sound(hash, events[..n], i) <==> Sound(hash, events, i)
  {
    assert events[..n][..i] == events[..i];
  }

  lemma WellFormedPrefix(hash: Hash, events: seq<Link>, n: nat)
    requires n <= |events|
    ensures WellFormed(hash, events[..n]) <==>
              forall i {:trigger Sound(hash, events, i)} :: 0 <= i < n ==> Sound(hash, events, i)
  {
    forall i | 0 <= i < n ensures Sound(hash, events[..n], i) <==> Sound(hash, events, i) {
      SoundInPrefix(hash, events, n, i);
    }
    if WellFormed(hash, events[..n]) {
      forall i | 0 <= i < n ensures Sound(hash, events, i) { assert Sound(hash, events[..n], i); }
    }
  }

  lemma OneMore(hash: Hash, events: seq<Link>, n: nat)
    requires n < |events|
    ensures WellFormed(hash, events[..n + 1]) <==> WellFormed(hash, events[..n]) && Sound(hash, events, n)
  {
    WellFormedPrefix(hash, events, n);
    WellFormedPrefix(hash, events, n + 1);
  }

  /** There is one first bad link, so what `verify_chain` names is the break point. */
  lemma FirstBadIsUnique(hash: Hash, events: seq<Link>, i: nat, j: nat)
    requires FirstBad(hash, events, i) && FirstBad(hash, events, j)
    ensures i == j
  {
    if i < j { SoundInPrefix(hash, events, j, i); }
    if j < i { SoundInPrefix(hash, events, i, j); }
  }

  lemma RaisesOnlyThere(hash: Hash, events: seq<Link>, index: nat)
    requires FirstBad(hash, events, index)
    ensures forall i: nat, refusal :: RaisesAt(hash, events, i, refusal) ==> i == index
  {
    forall i: nat, refusal | RaisesAt(hash, events, i, refusal) ensures i == index {
      FirstBadIsUnique(hash, events, i, index);
    }
  }

  /**
    `verify_chain`: accepts exactly the well-formed chains and otherwise names
    the first link that does not add up. It raises exactly on reaching a properly
    linked payload that has no canonical form.
  */
  method VerifyChain(hash: Hash, events: seq<Link>) returns (r: Result<Verification, Refusal>)
    ensures r.Ok? && r.value.verified <==> WellFormed(hash, events)
    ensures r.Ok? && r.value.verified ==> r.value.checked == |events| && r.value.brokenAt == None
    ensures r.Ok? && !r.value.verified ==>
              FirstBad(hash, events, r.value.checked)
              && r.value.brokenAt == Some(Position(events, r.value.checked))
    ensures r.Err? <==> exists i: nat, refusal :: RaisesAt(hash, events, i, refusal)
    ensures r.Err? ==> exists i: nat :: RaisesAt(hash, events, i, r.error)
  {
    var expectedPrev := Genesis();
    for index := 0 to |events|
      invariant expectedPrev == Head(events[..index])
      invariant WellFormed(hash, events[..index])
    {
      var event := events[index];
      OneMore(hash, events, index);
      BadIsNotWellFormed(hash, events, index);
      if event.prev != expectedPrev {
        RaisesOnlyThere(hash, events, index);
        return Ok(Verification(false, Some(Position(events, index)), index));
      }
      var recomputed := DigestFor(hash, event.payload, event.prev);
      match recomputed {
        case Err(refusal) =>
          assert RaisesAt(hash, events, index, refusal);
          return Err(refusal);
        case Ok(digest) =>
          if event.digest != digest {
            RaisesOnlyThere(hash, events, index);
            return Ok(Verification(false, Some(Position(events, index)), index));
          }
      }
      expectedPrev := event.digest;
    }
    assert events[..|events|] == events;
    r := Ok(Verification(true, None, |events|));
  }

  lemma BadIsNotWellFormed(hash: Hash, events: seq<Link>, i: nat)
    requires i < |events|
    ensures !Sound(hash, events, i) ==> !WellFormed(hash, events)
  {
  }

  lemma AppendExtends(hash: Hash, events: seq<Link>, link: Link)
    requires WellFormed(hash, events)
    requires link.prev == Head(events) && DigestFor(hash, link.payload, link.prev) == Ok(link.digest)
    ensures WellFormed(hash, events + [link])
  {
    var longer := events + [link];
    assert longer[..|events|] == events;
    OneMore(hash, longer, |events|);
    assert longer[..|events| + 1] == longer;
  }

  /** The same link, its payload read back with the keys in some other order. */
  predicate ReadBack(link: Link, stored: Link) {
    && stored.prev == link.prev && stored.digest == link.digest
    && CanonicalForm.Legal(Dict(link.payload)) && CanonicalForm.Legal(Dict(stored.payload))
    && CanonicalForm.Same(Dict(link.payload), Dict(stored.payload))
  }

  /** Storage that reorders an object's keys, at any depth, breaks no link. */
  lemma ReorderedPayloadsVerify(hash: Hash, events: seq<Link>, stored: seq<Link>)
    requires WellFormed(hash, events) && |stored| == |events|
    requires forall i :: 0 <= i < |events| ==> ReadBack(events[i], stored[i])
    ensures WellFormed(hash, stored)
  {
    forall i | 0 <= i < |stored| ensures Sound(hash, stored, i) {
      assert Sound(hash, events, i) && ReadBack(events[i], stored[i]);
      CanonicalForm.FormIgnoresKeyOrderOnly(events[i].payload, stored[i].payload);
      if i > 0 {
        assert ReadBack(events[i - 1], stored[i - 1]);
        assert events[..i][i - 1] == events[i - 1] && stored[..i][i - 1] == stored[i - 1];
      }
    }
  }

  /* ------------------------------------------------------------------ */
  /* Tampering                                                            */
  /* ------------------------------------------------------------------ */

  /** The thirty-two byte suffix splits the hashed bytes in one way. */
  lemma PreimageSplits(body: string, prev: Digest, body': string, prev': Digest)
    requires Preimage(body, prev) == Preimage(body', prev')
    ensures body == body' && prev == prev'
  {
    var all := Preimage(body, prev);
    assert |all| == |body| + 32 == |body'| + 32;
    assert Bytes(body) == all[..|body|] == Bytes(body');
    assert prev == all[|body|..] == prev';
    forall i | 0 <= i < |body| ensures body[i] == body'[i] {
      assert Bytes(body)[i] == Bytes(body')[i];
    }
  }

  function Body(link: Link): Result<string, Refusal> { Canonical(link.payload) }

  predicate Collide(hash: Hash, x: seq<int>, y: seq<int>) { x != y && hash(x) == hash(y) }

  /** What link `i` was hashed from. */
  function Hashed(events: seq<Link>, i: nat): seq<int>
    requires i < |events|
  {
    if Body(events[i]).Ok? then Preimage(Body(events[i]).value, events[i].prev) else []
  }

  predicate CollideAt(hash: Hash, a: seq<Link>, i: nat, b: seq<Link>, j: nat) {
    i < |a| && j < |b| && Collide(hash, Hashed(a, i), Hashed(b, j))
  }

  /* ---- what a chain's head commits to -------------------------------------- */

  /** The part of a link the digest covers. Kind, tenant, trace and time are outside it. */
  datatype Entry = Entry(body: string, prev: Digest, digest: Digest)

  predicate EntrySound(hash: Hash, c: seq<Entry>, i: nat)
    requires i < |c|
  {
    && c[i].prev == (if i == 0 then Genesis() else c[i - 1].digest)
    && c[i].digest == hash(Preimage(c[i].body, c[i].prev))
  }

  predicate Chained(hash: Hash, c: seq<Entry>) {
    forall i {:trigger EntrySound(hash, c, i)} :: 0 <= i < |c| ==> EntrySound(hash, c, i)
  }

  function EntryOf(link: Link): Entry
    requires Body(link).Ok?
  {
    Entry(Body(link).value, link.prev, link.digest)
  }

  predicate HasBody(events: seq<Link>, i: nat)
    requires i < |events|
  {
    Body(events[i]).Ok?
  }

  predicate AllCanonical(events: seq<Link>) {
    forall i {:trigger HasBody(events, i)} :: 0 <= i < |events| ==> HasBody(events, i)
  }

  function Entries(events: seq<Link>): (c: seq<Entry>)
    requires AllCanonical(events)
    ensures |c| == |events|
  {
    seq(|events|, i requires 0 <= i < |events| && AllCanonical(events) =>
      assert HasBody(events, i); EntryOf(events[i]))
  }

  lemma SoundIffEntrySound(hash: Hash, events: seq<Link>, i: nat)
    requires AllCanonical(events) && i < |events|
    ensures Sound(hash, events, i) <==> EntrySound(hash, Entries(events), i)
  {
    assert HasBody(events, i);
    assert Entries(events)[i] == EntryOf(events[i]);
    if i > 0 {
      assert HasBody(events, i - 1);
      assert Entries(events)[i - 1] == EntryOf(events[i - 1]) && events[..i][i - 1] == events[i - 1];
    }
  }

  /** A chain verifies when every payload has a canonical form and the projected entries chain. */
  lemma WellFormedIffChained(hash: Hash, events: seq<Link>)
    ensures WellFormed(hash, events) <==> AllCanonical(events) && Chained(hash, Entries(events))
  {
    if WellFormed(hash, events) {
      forall i | 0 <= i < |events| ensures HasBody(events, i) { assert Sound(hash, events, i); }
    }
    if AllCanonical(events) {
      forall i | 0 <= i < |events| ensures Sound(hash, events, i) <==> EntrySound(hash, Entries(events), i) {
        SoundIffEntrySound(hash, events, i);
      }
      if Chained(hash, Entries(events)) {
        forall i | 0 <= i < |events| ensures Sound(hash, events, i) {
          assert EntrySound(hash, Entries(events), i);
        }
      }
    }
  }

  function Input(e: Entry): seq<int> { Preimage(e.body, e.prev) }

  predicate Clash(hash: Hash, e: Entry, d: Entry) { Collide(hash, Input(e), Input(d)) }

  /** The hash failed its users: a collision between the chains, or an entry hashing to thirty-two zeros. */
  ghost predicate HashBroken(hash: Hash, a: seq<Entry>, b: seq<Entry>) {
    || (exists i, j :: 0 <= i < |a| && 0 <= j < |b| && Clash(hash, a[i], b[j]))
    || (exists i :: 0 <= i < |a| && a[i].digest == Genesis())
    || (exists i :: 0 <= i < |b| && b[i].digest == Genesis())
  }

  function EntryHead(c: seq<Entry>): Digest { if c == [] then Genesis() else c[|c| - 1].digest }

  lemma EqualDigestsStepBack(hash: Hash, a: seq<Entry>, i: nat, b: seq<Entry>, j: nat)
    requires i < |a| && j < |b| && EntrySound(hash, a, i) && EntrySound(hash, b, j)
    requires a[i].digest == b[j].digest && !Clash(hash, a[i], b[j])
    ensures a[i] == b[j]
  {
    PreimageSplits(a[i].body, a[i].prev, b[j].body, b[j].prev);
  }

  /** One digest fixes the whole history behind it: its length and every entry in it. */
  lemma {:induction false} DigestFixesPast(hash: Hash, a: seq<Entry>, i: nat, b: seq<Entry>, j: nat)
    requires Chained(hash, a) && Chained(hash, b) && i < |a| && j < |b|
    requires a[i].digest == b[j].digest && !HashBroken(hash, a, b)
    ensures i == j && a[..i + 1] == b[..i + 1]
    decreases i
  {
    assert EntrySound(hash, a, i) && EntrySound(hash, b, j);
    EqualDigestsStepBack(hash, a, i, b, j);
    if i > 0 && j > 0 {
      DigestFixesPast(hash, a, i - 1, b, j - 1);
      assert a[..i + 1] == a[..i] + [a[i]] && b[..i + 1] == b[..i] + [b[i]];
    }
  }

  function Bodies(c: seq<Entry>): (r: seq<string>) { seq(|c|, i requires 0 <= i < |c| => c[i].body) }

  lemma {:induction false} BodiesFixEntries(hash: Hash, a: seq<Entry>, b: seq<Entry>, n: nat)
    requires Chained(hash, a) && Chained(hash, b) && Bodies(a) == Bodies(b) && n <= |a|
    ensures |a| == |b| && a[..n] == b[..n]
    decreases n
  {
    assert |a| == |Bodies(a)| == |b|;
    if n > 0 {
      BodiesFixEntries(hash, a, b, n - 1);
      var i := n - 1;
      assert EntrySound(hash, a, i) && EntrySound(hash, b, i);
      assert a[i].body == Bodies(a)[i] == Bodies(b)[i] == b[i].body;
      if i > 0 { assert a[i - 1] == a[..i][i - 1] == b[..i][i - 1] == b[i - 1]; }
      assert a[i] == b[i];
      assert a[..n] == a[..i] + [a[i]] && b[..n] == b[..i] + [b[i]];
    }
  }

  /**
    Two chains that both verify have equal heads iff they record the same
    payloads - unless the hash itself is broken.
  */
  lemma EqualHeadsIffEqualHistory(hash: Hash, a: seq<Entry>, b: seq<Entry>)
    requires Chained(hash, a) && Chained(hash, b) && !HashBroken(hash, a, b)
    ensures EntryHead(a) == EntryHead(b) <==> Bodies(a) == Bodies(b)
    ensures Bodies(a) == Bodies(b) <==> a == b
  {
    if Bodies(a) == Bodies(b) {
      BodiesFixEntries(hash, a, b, |a|);
      assert a[..|a|] == a && b[..|b|] == b;
    }
    if EntryHead(a) == EntryHead(b) && a != [] && b != [] {
      DigestFixesPast(hash, a, |a| - 1, b, |b| - 1);
      assert a[..|a|] == a && b[..|b|] == b;
    }
  }

  /** Where two verifying chains first record different payloads, every digest from there on differs. */
  lemma ForkNeverHeals(hash: Hash, a: seq<Entry>, b: seq<Entry>, k: nat, n: nat)
    requires Chained(hash, a) && Chained(hash, b) && !HashBroken(hash, a, b)
    requires k <= n < |a| && n < |b| && a[k].body != b[k].body
    ensures a[n].digest != b[n].digest
  {
    assert a[..n + 1][k] == a[k] && b[..n + 1][k] == b[k];
    if a[n].digest == b[n].digest { DigestFixesPast(hash, a, n, b, n); }
  }

  /** An edited payload is named, at its own position. */
  lemma EditIsNamed(hash: Hash, a: seq<Link>, k: nat, payload: Fields)
    requires WellFormed(hash, a) && k < |a| && Canonical(payload) != Body(a[k])
    requires var b := a[k := a[k].(payload := payload)]; !CollideAt(hash, a, k, b, k)
    ensures FirstBad(hash, a[k := a[k].(payload := payload)], k)
  {
    var b := a[k := a[k].(payload := payload)];
    assert b[..k] == a[..k];
    WellFormedPrefix(hash, a, k);
    assert Sound(hash, a, k);
    if Sound(hash, b, k) {
      PreimageSplits(Body(a[k]).value, a[k].prev, Canonical(payload).value, a[k].prev);
    }
  }

  lemma RehashedDigestDiffers(hash: Hash, a: seq<Link>, k: nat, link: Link)
    requires k < |a| && Sound(hash, a, k) && Sound(hash, a[k := link], k)
    requires Body(link) != Body(a[k]) && !CollideAt(hash, a, k, a[k := link], k)
    ensures link.digest != a[k].digest
  {
    if link.digest == a[k].digest {
      PreimageSplits(Body(a[k]).value, a[k].prev, Body(link).value, link.prev);
    }
  }

  lemma ReplacedPrefix(hash: Hash, a: seq<Link>, k: nat, link: Link)
    requires WellFormed(hash, a) && k < |a| && Sound(hash, a[k := link], k)
    ensures WellFormed(hash, a[k := link][..k + 1])
  {
    var b := a[k := link];
    WellFormedPrefix(hash, a, k);
    assert b[..k] == a[..k];
    OneMore(hash, b, k);
  }

  /** A link rewritten whole, digest and all, only moves the break to the link after it. */
  lemma RehashMovesTheBreak(hash: Hash, a: seq<Link>, k: nat, link: Link)
    requires WellFormed(hash, a) && k < |a| && Sound(hash, a[k := link], k)
    requires Body(link) != Body(a[k]) && !CollideAt(hash, a, k, a[k := link], k)
    ensures if k + 1 < |a| then FirstBad(hash, a[k := link], k + 1) else WellFormed(hash, a[k := link])
  {
    assert Sound(hash, a, k);
    RehashedDigestDiffers(hash, a, k, link);
    ReplacedPrefix(hash, a, k, link);
    if k + 1 < |a| {
      assert Sound(hash, a, k + 1);
      BreaksNext(hash, a, k, link);
    } else {
      assert a[k := link][..k + 1] == a[k := link];
    }
  }

  lemma BreaksNext(hash: Hash, a: seq<Link>, k: nat, link: Link)
    requires k + 1 < |a| && Sound(hash, a, k + 1) && link.digest != a[k].digest
    ensures !Sound(hash, a[k := link], k + 1)
  {
    assert a[..k + 1][k] == a[k] && a[k := link][..k + 1][k] == link;
  }

  /* ---- dropping and reordering whole links ------------------------------- */

  /** No digest twice, and none of them the genesis value. */
  predicate NoRepeats(a: seq<Link>) {
    && (forall i :: 0 <= i < |a| ==> a[i].digest != Genesis())
    && (forall i, j :: 0 <= i < j < |a| ==> a[i].digest != a[j].digest)
  }

  /** A chain that verifies repeats a digest only where the hash failed. */
  lemma NoRepeatsUnlessBroken(hash: Hash, a: seq<Link>)
    requires WellFormed(hash, a) && AllCanonical(a) && !HashBroken(hash, Entries(a), Entries(a))
    ensures NoRepeats(a)
  {
    WellFormedIffChained(hash, a);
    var c := Entries(a);
    forall i | 0 <= i < |a| ensures c[i].digest == a[i].digest { assert HasBody(a, i); }
    forall i, j | 0 <= i < j < |a| ensures a[i].digest != a[j].digest {
      if c[i].digest == c[j].digest { DigestFixesPast(hash, c, i, c, j); }
    }
  }

  predicate Holds(a: seq<Link>, link: Link) { exists j :: 0 <= j < |a| && a[j] == link }

  predicate DrawnFrom(c: seq<Link>, a: seq<Link>) { forall i :: 0 <= i < |c| ==> Holds(a, c[i]) }

  lemma PrevIsHead(hash: Hash, a: seq<Link>, i: nat)
    requires WellFormed(hash, a) && i < |a|
    ensures a[i].prev == if i == 0 then Genesis() else a[i - 1].digest
  {
    assert Sound(hash, a, i);
    assert i > 0 ==> a[..i][i - 1] == a[i - 1];
  }

  lemma {:induction false} DrawnLinkIsInPlace(hash: Hash, a: seq<Link>, c: seq<Link>, i: nat)
    requires WellFormed(hash, a) && NoRepeats(a) && WellFormed(hash, c) && DrawnFrom(c, a) && i < |c|
    ensures i < |a| && c[i] == a[i]
    decreases i
  {
    assert Holds(a, c[i]);
    var j :| 0 <= j < |a| && a[j] == c[i];
    PrevIsHead(hash, c, i);
    PrevIsHead(hash, a, j);
    if i > 0 { DrawnLinkIsInPlace(hash, a, c, i - 1); }
  }

  /**
    Of all the ways to drop, repeat or reorder a chain's links, the ones that
    verify are exactly its prefixes: any loss but the tail is caught, and a lost
    tail never is.
  */
  lemma OnlyPrefixesVerify(hash: Hash, a: seq<Link>, c: seq<Link>)
    requires WellFormed(hash, a) && NoRepeats(a) && DrawnFrom(c, a)
    ensures WellFormed(hash, c) <==> c <= a
  {
    if WellFormed(hash, c) {
      if |c| > 0 { DrawnLinkIsInPlace(hash, a, c, |c| - 1); }
      forall i | 0 <= i < |c| ensures c[i] == a[i] { DrawnLinkIsInPlace(hash, a, c, i); }
    }
    if c <= a {
      assert c == a[..|c|];
      WellFormedPrefix(hash, a, |c|);
    }
  }

  lemma DeletionIsCaught(hash: Hash, a: seq<Link>, k: nat)
    requires WellFormed(hash, a) && NoRepeats(a) && k < |a|
    ensures WellFormed(hash, a[..k] + a[k + 1..]) <==> k == |a| - 1
  {
    var c := a[..k] + a[k + 1..];
    OnlyPrefixesVerify(hash, a, c);
    if k < |a| - 1 { assert c[k] == a[k + 1] && a[k].digest != a[k + 1].digest; }
  }

  lemma ReorderingIsCaught(hash: Hash, a: seq<Link>, c: seq<Link>)
    requires WellFormed(hash, a) && NoRepeats(a) && multiset(c) == multiset(a)
    ensures WellFormed(hash, c) <==> c == a
  {
    forall i | 0 <= i < |c| ensures Holds(a, c[i]) { assert c[i] in multiset(c); }
    OnlyPrefixesVerify(hash, a, c);
    assert |c| == |multiset(c)| == |multiset(a)| == |a|;
  }
}
