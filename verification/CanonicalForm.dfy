/**
  What the canonical form decides: two payloads share it exactly when they are
  the same value up to the order of object keys, at every depth, and up to how
  a surrogate pair is spelled.
*/
module CanonicalForm {
  import opened Prelude
  import opened JsonText
  import opened CanonicalJson

  /* ---- dicts as mappings -------------------------------------------------- */

  function Lookup(f: Fields, k: Key): Option<Value> {
    if f == NoFields then None else if f.key == k then Some(f.value) else Lookup(f.rest, k)
  }

  function Count(f: Fields): nat { if f == NoFields then 0 else 1 + Count(f.rest) }

  /** A dict holds each key once. */
  predicate Distinct(v: Value) {
    match v
    case List(items) => DistinctItems(items)
    case Dict(fields) => DistinctFields(fields)
    case _ => true
  }

  predicate DistinctItems(items: Items) {
    items == NoItems || (Distinct(items.head) && DistinctItems(items.tail))
  }

  predicate DistinctFields(f: Fields) {
    f == NoFields || (Lookup(f.rest, f.key).None? && Distinct(f.value) && DistinctFields(f.rest))
  }

  /** Python's own `==` on two payloads: as many keys, and the same value under each. */
  predicate Same(v: Value, w: Value)
    decreases v
  {
    match v
    case List(items) => w.List? && SameItems(items, w.items)
    case Dict(fields) => w.Dict? && Count(fields) == Count(w.fields) && Within(fields, w.fields)
    case _ => v == w
  }

  predicate SameItems(a: Items, b: Items)
    decreases a
  {
    if a == NoItems then b == NoItems else b != NoItems && Same(a.head, b.head) && SameItems(a.tail, b.tail)
  }

  predicate Within(f: Fields, g: Fields)
    decreases f
  {
    f == NoFields || (Lookup(g, f.key).Some? && Same(f.value, Lookup(g, f.key).value) && Within(f.rest, g))
  }

  function Keys(f: Fields): set<Key> { if f == NoFields then {} else {f.key} + Keys(f.rest) }

  lemma {:induction false} KeysAreLookups(f: Fields, k: Key)
    ensures k in Keys(f) <==> Lookup(f, k).Some?
  {
    if f != NoFields { KeysAreLookups(f.rest, k); }
  }

  lemma {:induction false} KeysCount(f: Fields)
    requires DistinctFields(f)
    ensures |Keys(f)| == Count(f)
  {
    if f != NoFields {
      KeysCount(f.rest);
      KeysAreLookups(f.rest, f.key);
    }
  }

  /* ---- the order ------------------------------------------------------------ */

  lemma {:induction false} LessIsStrict(a: Text, b: Text)
    ensures !(Less(a, b) && Less(b, a)) && !Less(a, a)
    decreases |a|
  {
    if a != [] {
      LessIsStrict(a[1..], if b != [] then b[1..] else []);
    }
  }

  lemma {:induction false} LessIsTotal(a: Text, b: Text)
    ensures a == b || Less(a, b) || Less(b, a)
    decreases |a|
  {
    if a != [] && b != [] && a[0] == b[0] {
      LessIsTotal(a[1..], b[1..]);
      assert a == [a[0]] + a[1..] && b == [b[0]] + b[1..];
    }
  }

  lemma {:induction false} LessIsTransitive(a: Text, b: Text, c: Text)
    requires Less(a, b) && Less(b, c)
    ensures Less(a, c)
    decreases |a|
  {
    if a != [] && a[0] == b[0] && b[0] == c[0] {
      LessIsTransitive(a[1..], b[1..], c[1..]);
    }
  }

  /** Every key comes after `t`. */
  predicate Above(t: Text, f: Fields) {
    f == NoFields || (f.key.Name? && Less(t, f.key.text) && Above(t, f.rest))
  }

  predicate Ascending(f: Fields) {
    f == NoFields || (f.key.Name? && Above(f.key.text, f.rest) && Ascending(f.rest))
  }

  lemma {:induction false} AboveIsDown(t: Text, u: Text, f: Fields)
    requires Less(t, u) && Above(u, f)
    ensures Above(t, f)
  {
    if f != NoFields {
      LessIsTransitive(t, u, f.key.text);
      AboveIsDown(t, u, f.rest);
    }
  }

  lemma {:induction false} AboveExcludes(t: Text, f: Fields)
    requires Above(t, f)
    ensures Lookup(f, Name(t)).None?
  {
    if f != NoFields {
      LessIsStrict(t, t);
      AboveExcludes(t, f.rest);
    }
  }

  lemma {:induction false} InsertAbove(t: Text, key: Key, value: Value, f: Fields)
    requires Above(t, f) && key.Name? && Less(t, key.text)
    ensures Above(t, Insert(key, value, f))
  {
    if f != NoFields { InsertAbove(t, key, value, f.rest); }
  }

  lemma {:induction false} InsertAscends(key: Key, value: Value, f: Fields)
    requires Ascending(f) && key.Name? && Lookup(f, key).None?
    ensures Ascending(Insert(key, value, f))
  {
    if f != NoFields {
      if Less(key.text, f.key.text) {
        AboveIsDown(key.text, f.key.text, f.rest);
      } else {
        LessIsTotal(key.text, f.key.text);
        InsertAscends(key, value, f.rest);
        InsertAbove(f.key.text, key, value, f.rest);
      }
    }
  }

  lemma {:induction false} InsertLookup(key: Key, value: Value, f: Fields, k: Key)
    requires Lookup(f, key).None?
    ensures Lookup(Insert(key, value, f), k) == if k == key then Some(value) else Lookup(f, k)
  {
    if f != NoFields { InsertLookup(key, value, f.rest, k); }
  }

  /** Sorted dicts with the same entries are one list. */
  lemma {:induction false} AscendingIsUnique(f: Fields, g: Fields)
    requires Ascending(f) && Ascending(g)
    requires forall k :: Lookup(f, k) == Lookup(g, k)
    ensures f == g
    decreases f
  {
    if f == NoFields {
      assert g != NoFields ==> Lookup(f, g.key) == Lookup(g, g.key);
    } else {
      assert Lookup(g, f.key) == Some(f.value);
      FirstIsLeast(g, f.key);
      assert Lookup(f, g.key) == Some(g.value);
      FirstIsLeast(f, g.key);
      LessIsStrict(f.key.text, g.key.text);
      AboveExcludes(f.key.text, f.rest);
      AboveExcludes(g.key.text, g.rest);
      forall k ensures Lookup(f.rest, k) == Lookup(g.rest, k) {
        assert Lookup(f, k) == Lookup(g, k);
      }
      AscendingIsUnique(f.rest, g.rest);
    }
  }

  lemma {:induction false} FirstIsLeast(f: Fields, k: Key)
    requires Ascending(f) && Lookup(f, k).Some?
    ensures k.Name? && f != NoFields && (k == f.key || Less(f.key.text, k.text))
  {
    if k != f.key { AboveAll(f.key.text, f.rest, k); }
  }

  lemma {:induction false} AboveAll(t: Text, f: Fields, k: Key)
    requires Above(t, f) && Lookup(f, k).Some?
    ensures k.Name? && Less(t, k.text)
  {
    if k != f.key { AboveAll(t, f.rest, k); }
  }

  /* ---- sorting keeps the mapping ------------------------------------------- */

  function NormalOf(v: Option<Value>): Option<Value> { if v.None? then None else Some(Normal(v.value)) }

  lemma {:induction false} NormalLookup(f: Fields, k: Key)
    requires DistinctFields(f)
    ensures Lookup(NormalFields(f), k) == NormalOf(Lookup(f, k))
  {
    if f != NoFields {
      NormalLookup(f.rest, k);
      NormalLookup(f.rest, f.key);
      InsertLookup(f.key, Normal(f.value), NormalFields(f.rest), k);
    }
  }

  lemma {:induction false} NormalAscends(f: Fields)
    requires DistinctFields(f) && CleanFields(f)
    ensures Ascending(NormalFields(f))
  {
    if f != NoFields {
      NormalAscends(f.rest);
      NormalLookup(f.rest, f.key);
      InsertAscends(f.key, Normal(f.value), NormalFields(f.rest));
    }
  }

  lemma {:induction false} LookupIsDistinct(f: Fields, k: Key)
    requires DistinctFields(f) && Lookup(f, k).Some?
    ensures Distinct(Lookup(f, k).value) && (CleanFields(f) ==> Clean(Lookup(f, k).value))
  {
    if f.key != k { LookupIsDistinct(f.rest, k); }
  }

  /** Under `k`, both dicts hold values with one normal form. */
  predicate Agree(f: Fields, g: Fields, k: Key) {
    NormalOf(Lookup(f, k)) == NormalOf(Lookup(g, k))
  }

  /** Sorting decides equality: one normal form for each value up to key order. */
  lemma {:induction false} NormalDecides(v: Value, w: Value)
    requires Clean(v) && Clean(w) && Distinct(v) && Distinct(w)
    ensures Same(v, w) <==> Normal(v) == Normal(w)
    decreases v
  {
    match v
    case List(items) =>
      if w.List? { ItemsDecide(items, w.items); }
    case Dict(fields) =>
      if w.Dict? {
        WithinDecides(fields, w.fields);
        FieldsDecide(fields, w.fields);
      }
    case _ =>
  }

  lemma {:induction false} ItemsDecide(a: Items, b: Items)
    requires CleanItems(a) && CleanItems(b) && DistinctItems(a) && DistinctItems(b)
    ensures SameItems(a, b) <==> NormalItems(a) == NormalItems(b)
    decreases a
  {
    if a != NoItems && b != NoItems {
      NormalDecides(a.head, b.head);
      ItemsDecide(a.tail, b.tail);
    }
  }

  lemma {:induction false} WithinDecides(f: Fields, g: Fields)
    requires CleanFields(f) && CleanFields(g) && DistinctFields(f) && DistinctFields(g)
    ensures Within(f, g) <==> forall k :: k in Keys(f) ==> Agree(f, g, k)
    decreases f
  {
    if f != NoFields {
      WithinDecides(f.rest, g);
      KeysAreLookups(f.rest, f.key);
      if Lookup(g, f.key).Some? {
        LookupIsDistinct(g, f.key);
        NormalDecides(f.value, Lookup(g, f.key).value);
      }
      assert Agree(f, g, f.key) <==> (Lookup(g, f.key).Some? && Same(f.value, Lookup(g, f.key).value));
      assert forall k :: k in Keys(f.rest) ==> (Agree(f, g, k) <==> Agree(f.rest, g, k));
    }
  }

  lemma FieldsDecide(f: Fields, g: Fields)
    requires CleanFields(f) && CleanFields(g) && DistinctFields(f) && DistinctFields(g)
    ensures (Count(f) == Count(g) && forall k :: k in Keys(f) ==> Agree(f, g, k))
            <==> NormalFields(f) == NormalFields(g)
  {
    KeysCount(f);
    KeysCount(g);
    forall k ensures Lookup(NormalFields(f), k) == Lookup(NormalFields(g), k) <==> Agree(f, g, k) {
      NormalLookup(f, k);
      NormalLookup(g, k);
    }
    forall k ensures Agree(f, g, k) ==> (k in Keys(f) <==> k in Keys(g)) {
      KeysAreLookups(f, k);
      KeysAreLookups(g, k);
    }
    if NormalFields(f) == NormalFields(g) {
      assert forall k :: Agree(f, g, k);
      assert Keys(f) == Keys(g);
    }
    if Count(f) == Count(g) && forall k :: k in Keys(f) ==> Agree(f, g, k) {
      SameKeys(f, g);
      forall k | k !in Keys(f) ensures Agree(f, g, k) {
        KeysAreLookups(f, k);
        KeysAreLookups(g, k);
      }
      NormalAscends(f);
      NormalAscends(g);
      AscendingIsUnique(NormalFields(f), NormalFields(g));
    }
  }

  lemma SameKeys(f: Fields, g: Fields)
    requires |Keys(f)| == |Keys(g)| && forall k :: k in Keys(f) ==> Agree(f, g, k)
    ensures Keys(f) == Keys(g)
  {
    forall k | k in Keys(f) ensures k in Keys(g) {
      assert Agree(f, g, k);
      KeysAreLookups(f, k);
      KeysAreLookups(g, k);
    }
    SubsetOfEqualSize(Keys(f), Keys(g));
  }

  lemma SubsetOfEqualSize<T>(a: set<T>, b: set<T>)
    requires a <= b && |a| == |b|
    ensures a == b
  {
    assert b == a + (b - a);
    assert |b| == |a| + |b - a|;
  }

  /* ---- equal payloads are accepted together ---------------------------------- */

  predicate NamedAndClean(g: Fields, k: Key) {
    k.Name? && Lookup(g, k).Some? && Clean(Lookup(g, k).value)
  }

  lemma {:induction false} SameKeepsClean(v: Value, w: Value)
    requires Same(v, w) && Clean(v) && Distinct(v) && Distinct(w)
    ensures Clean(w)
    decreases v
  {
    match v
    case List(items) => SameItemsKeepClean(items, w.items);
    case Dict(fields) =>
      WithinKeepsClean(fields, w.fields);
      KeysCount(fields);
      KeysCount(w.fields);
      assert Keys(fields) <= Keys(w.fields) by {
        forall k | k in Keys(fields) ensures k in Keys(w.fields) {
          assert NamedAndClean(w.fields, k);
          KeysAreLookups(w.fields, k);
        }
      }
      SubsetOfEqualSize(Keys(fields), Keys(w.fields));
      CleanByKeys(w.fields);
    case _ =>
  }

  lemma {:induction false} SameItemsKeepClean(a: Items, b: Items)
    requires SameItems(a, b) && CleanItems(a) && DistinctItems(a) && DistinctItems(b)
    ensures CleanItems(b)
    decreases a
  {
    if a != NoItems {
      SameKeepsClean(a.head, b.head);
      SameItemsKeepClean(a.tail, b.tail);
    }
  }

  lemma {:induction false} WithinKeepsClean(f: Fields, g: Fields)
    requires Within(f, g) && CleanFields(f) && DistinctFields(f) && DistinctFields(g)
    ensures forall k :: k in Keys(f) ==> NamedAndClean(g, k)
    decreases f
  {
    if f != NoFields {
      LookupKeepsDistinct(g, f.key);
      SameKeepsClean(f.value, Lookup(g, f.key).value);
      WithinKeepsClean(f.rest, g);
    }
  }

  lemma {:induction false} LookupKeepsDistinct(g: Fields, k: Key)
    requires DistinctFields(g) && Lookup(g, k).Some?
    ensures Distinct(Lookup(g, k).value)
  {
    if g.key != k { LookupKeepsDistinct(g.rest, k); }
  }

  lemma {:induction false} CleanByKeys(g: Fields)
    requires DistinctFields(g) && forall k :: k in Keys(g) ==> NamedAndClean(g, k)
    ensures CleanFields(g)
  {
    if g != NoFields {
      assert NamedAndClean(g, g.key);
      forall k | k in Keys(g.rest) ensures NamedAndClean(g.rest, k) {
        assert NamedAndClean(g, k);
        KeysAreLookups(g.rest, k);
      }
      CleanByKeys(g.rest);
    }
  }

  /* ---- sorting and fusing keep what the reader needs ------------------------ */

  /** No string or key holds a high surrogate followed by a low one. */
  ghost predicate Unpaired(v: Value) {
    match v
    case Str(text) => !HasPair(text)
    case List(items) => UnpairedItems(items)
    case Dict(fields) => UnpairedFields(fields)
    case _ => true
  }

  ghost predicate UnpairedItems(items: Items) {
    items == NoItems || (Unpaired(items.head) && UnpairedItems(items.tail))
  }

  ghost predicate UnpairedFields(f: Fields) {
    f == NoFields || (!HasPair(KeyText(f.key)) && Unpaired(f.value) && UnpairedFields(f.rest))
  }

  lemma {:induction false} NormalKeeps(v: Value)
    ensures Clean(Normal(v)) <==> Clean(v)
    ensures Unpaired(Normal(v)) <==> Unpaired(v)
    decreases v
  {
    match v
    case List(items) => NormalItemsKeep(items);
    case Dict(fields) => NormalFieldsKeep(fields);
    case _ =>
  }

  lemma {:induction false} NormalItemsKeep(items: Items)
    ensures CleanItems(NormalItems(items)) <==> CleanItems(items)
    ensures UnpairedItems(NormalItems(items)) <==> UnpairedItems(items)
    decreases items
  {
    if items != NoItems {
      NormalKeeps(items.head);
      NormalItemsKeep(items.tail);
    }
  }

  lemma {:induction false} NormalFieldsKeep(f: Fields)
    ensures CleanFields(NormalFields(f)) <==> CleanFields(f)
    ensures UnpairedFields(NormalFields(f)) <==> UnpairedFields(f)
    decreases f
  {
    if f != NoFields {
      NormalKeeps(f.value);
      NormalFieldsKeep(f.rest);
      InsertKeeps(f.key, Normal(f.value), NormalFields(f.rest));
    }
  }

  lemma {:induction false} InsertKeeps(key: Key, value: Value, f: Fields)
    ensures CleanFields(Insert(key, value, f)) <==> (key.Name? && Clean(value) && CleanFields(f))
    ensures UnpairedFields(Insert(key, value, f)) <==> (!HasPair(KeyText(key)) && Unpaired(value) && UnpairedFields(f))
  {
    if f != NoFields { InsertKeeps(key, value, f.rest); }
  }

  lemma {:induction false} FusedIsIdentityIff(v: Value)
    requires Clean(v)
    ensures Fused(v) == v <==> Unpaired(v)
    decreases v
  {
    match v
    case Str(text) => FuseIsIdentityIff(text);
    case List(items) => FusedItemsIdentityIff(items);
    case Dict(fields) => FusedFieldsIdentityIff(fields);
    case _ =>
  }

  lemma {:induction false} FusedItemsIdentityIff(items: Items)
    requires CleanItems(items)
    ensures FusedItems(items) == items <==> UnpairedItems(items)
    decreases items
  {
    if items != NoItems {
      FusedIsIdentityIff(items.head);
      FusedItemsIdentityIff(items.tail);
    }
  }

  lemma {:induction false} FusedFieldsIdentityIff(f: Fields)
    requires CleanFields(f)
    ensures FusedFields(f) == f <==> UnpairedFields(f)
    decreases f
  {
    if f != NoFields {
      FuseIsIdentityIff(f.key.text);
      FusedIsIdentityIff(f.value);
      FusedFieldsIdentityIff(f.rest);
    }
  }

  /** How a pair is spelled does not reach the text. */
  lemma {:induction false} FusedPrintsTheSame(v: Value)
    ensures Print(Fused(v)) == Print(v)
    decreases v
  {
    match v
    case Str(text) => UnitsOfFused(text);
    case List(items) => FusedItemsPrint(items);
    case Dict(fields) => FusedFieldsPrint(fields);
    case _ =>
  }

  lemma {:induction false} FusedItemsPrint(items: Items)
    ensures PrintItems(FusedItems(items)) == PrintItems(items)
    decreases items
  {
    if items != NoItems {
      FusedPrintsTheSame(items.head);
      FusedItemsPrint(items.tail);
    }
  }

  lemma {:induction false} FusedFieldsPrint(f: Fields)
    ensures PrintFields(FusedFields(f)) == PrintFields(f)
    decreases f
  {
    if f != NoFields {
      UnitsOfFused(KeyText(f.key));
      FusedPrintsTheSame(f.value);
      FusedFieldsPrint(f.rest);
    }
  }

  /* ---- where a refusal points -------------------------------------------------- */

  function Length(items: Items): nat { if items == NoItems then 0 else 1 + Length(items.tail) }

  function Nth(items: Items, i: nat): Value
    requires i < Length(items)
  {
    if i == 0 then items.head else Nth(items.tail, i - 1)
  }

  predicate OddKey(f: Fields) { f != NoFields && (f.key == NotAString || OddKey(f.rest)) }

  /** Following the path from the payload arrives at something JSON cannot hold. */
  predicate Offends(v: Value, path: Path)
    decreases |path|
  {
    if path == [] then v.Foreign? || (v.Dict? && OddKey(v.fields))
    else
      match path[0]
      case At(i) => v.List? && i < Length(v.items) && Offends(Nth(v.items, i), path[1..])
      case Under(key) =>
        v.Dict? && Lookup(v.fields, Name(key)).Some? && Offends(Lookup(v.fields, Name(key)).value, path[1..])
  }

  lemma PathGrows(prefix: Path, step: Step, path: Path)
    requires prefix + [step] <= path
    ensures prefix <= path && |prefix| < |path| && path[|prefix|] == step
    ensures path[|prefix|..][0] == step && path[|prefix|..][1..] == path[|prefix + [step]|..]
  {
    assert path[..|prefix| + 1] == prefix + [step];
  }

  /** The path in the `TypeError` leads to an offender. */
  lemma {:induction false} RejectNamesOffender(v: Value, prefix: Path)
    requires Distinct(v) && Reject(v, prefix).Some?
    ensures prefix <= Reject(v, prefix).value && Offends(v, Reject(v, prefix).value[|prefix|..])
    decreases v
  {
    match v
    case List(items) => RejectItemsNames(items, 0, prefix);
    case Dict(fields) => RejectFieldsNames(fields, prefix);
    case Foreign =>
  }

  lemma {:induction false} RejectItemsNames(items: Items, index: nat, prefix: Path)
    requires DistinctItems(items) && RejectItems(items, index, prefix).Some?
    ensures var path := RejectItems(items, index, prefix).value;
            && prefix <= path && |prefix| < |path| && path[|prefix|].At?
            && index <= path[|prefix|].index < index + Length(items)
            && Offends(Nth(items, path[|prefix|].index - index), path[|prefix|..][1..])
    decreases items
  {
    var first := Reject(items.head, prefix + [At(index)]);
    if first.Some? {
      RejectNamesOffender(items.head, prefix + [At(index)]);
      PathGrows(prefix, At(index), first.value);
    } else {
      RejectItemsNames(items.tail, index + 1, prefix);
    }
  }

  lemma {:induction false} RejectFieldsNames(f: Fields, prefix: Path)
    requires DistinctFields(f) && RejectFields(f, prefix).Some?
    ensures var path := RejectFields(f, prefix).value;
            prefix <= path && Offends(Dict(f), path[|prefix|..])
    decreases f
  {
    if f.key.Name? {
      var key := f.key.text;
      var first := Reject(f.value, prefix + [Under(key)]);
      if first.Some? {
        RejectNamesOffender(f.value, prefix + [Under(key)]);
        PathGrows(prefix, Under(key), first.value);
      } else {
        RejectFieldsNames(f.rest, prefix);
        var tail := RejectFields(f.rest, prefix).value[|prefix|..];
        if tail != [] && tail[0].Under? { assert Name(tail[0].key) != f.key; }
      }
    }
  }

  /* ---- the theorems ----------------------------------------------------------- */

  /** A payload Python can hand over: keys once each, and every float a double's spelling. */
  predicate Legal(v: Value) { Distinct(v) && Spelled(v) }

  predicate Spelled(v: Value) {
    match v
    case Float(token) => FloatToken(token)
    case List(items) => SpelledItems(items)
    case Dict(fields) => SpelledFields(fields)
    case _ => true
  }

  predicate SpelledItems(items: Items) { items == NoItems || (Spelled(items.head) && SpelledItems(items.tail)) }

  predicate SpelledFields(f: Fields) { f == NoFields || (Spelled(f.value) && SpelledFields(f.rest)) }

  /** Nothing is refused but the two things the source names. */
  lemma {:induction false} AcceptedIffClean(v: Value, path: Path)
    requires Spelled(v)
    ensures Reject(v, path).None? && Finite(v) <==> Clean(v)
    decreases v
  {
    match v
    case List(items) => AcceptedItemsIffClean(items, 0, path);
    case Dict(fields) => AcceptedFieldsIffClean(fields, path);
    case _ =>
  }

  lemma {:induction false} AcceptedItemsIffClean(items: Items, index: nat, path: Path)
    requires SpelledItems(items)
    ensures RejectItems(items, index, path).None? && FiniteItems(items) <==> CleanItems(items)
    decreases items
  {
    if items != NoItems {
      AcceptedIffClean(items.head, path + [At(index)]);
      AcceptedItemsIffClean(items.tail, index + 1, path);
    }
  }

  lemma {:induction false} AcceptedFieldsIffClean(f: Fields, path: Path)
    requires SpelledFields(f)
    ensures RejectFields(f, path).None? && FiniteFields(f) <==> CleanFields(f)
    decreases f
  {
    if f != NoFields && f.key.Name? {
      AcceptedIffClean(f.value, path + [Under(f.key.text)]);
      AcceptedFieldsIffClean(f.rest, path);
    }
  }

  /**
    The parser inverts the canonical form on every accepted payload: it gives
    back the payload with keys sorted and pairs joined, and gives back the
    sorted payload itself exactly when no string holds an adjacent pair.
  */
  lemma CanonicalFormReadsBack(payload: Fields)
    requires Legal(Dict(payload)) && Canonical(payload).Ok?
    ensures Read(Canonical(payload).value) == Some(Fused(Normal(Dict(payload))))
    ensures Read(Canonical(payload).value) == Some(Normal(Dict(payload))) <==> Unpaired(Dict(payload))
  {
    var v := Dict(payload);
    AcceptedFieldsIffClean(payload, []);
    NormalKeeps(v);
    ReadPrinted(Normal(v), "");
    assert Print(Normal(v)) + "" == Print(Normal(v));
    FusedIsIdentityIff(Normal(v));
  }

  predicate Ascii(s: string) { forall i :: 0 <= i < |s| ==> ' ' <= s[i] <= '~' }

  lemma AsciiJoin(a: string, b: string)
    requires Ascii(a) && Ascii(b)
    ensures Ascii(a + b)
  {
  }

  lemma DigitIsAscii(d: int)
    requires 0 <= d < 16
    ensures ' ' <= HEX[d] <= '~'
  {
  }

  lemma HexIsAscii(u: Unit)
    ensures Ascii("\\u" + Hex4(u))
  {
    DigitIsAscii(u / 16 / 16 / 16);
    DigitIsAscii(u / 16 / 16 % 16);
    DigitIsAscii(u / 16 % 16);
    DigitIsAscii(u % 16);
    AsciiJoin("\\u", Hex4(u));
  }

  lemma EscapeIsAscii(u: Unit)
    ensures Ascii(Escape(u))
  {
    if |Escape(u)| == 6 { HexIsAscii(u); }
  }

  lemma {:induction false} EscapesAreAscii(us: seq<Unit>)
    ensures Ascii(EscapeAll(us))
  {
    if us != [] {
      EscapesAreAscii(us[1..]);
      EscapeIsAscii(us[0]);
      AsciiJoin(Escape(us[0]), EscapeAll(us[1..]));
    }
  }

  lemma NumbersAreAscii(s: string)
    requires AllNumeric(s)
    ensures Ascii(s)
  {
    forall i | 0 <= i < |s| ensures ' ' <= s[i] <= '~' { assert Numeric(s[i]); }
  }

  lemma AsciiAround(open: string, body: string, close: string)
    requires Ascii(open) && Ascii(body) && Ascii(close)
    ensures Ascii(open + body + close)
  {
    AsciiJoin(open, body);
    AsciiJoin(open + body, close);
  }

  lemma QuotedIsAscii(t: Text)
    ensures Ascii(Quoted(t))
  {
    EscapesAreAscii(Units(t));
    AsciiAround("\"", EscapeAll(Units(t)), "\"");
  }

  /** What is hashed is printable ASCII, so the text fixes its bytes under any encoding. */
  lemma {:induction false} PrintIsAscii(v: Value)
    requires Clean(v)
    ensures Ascii(Print(v))
    decreases v
  {
    match v
    case Int(n) => IntRoundTrip(n); NumbersAreAscii(IntText(n));
    case Float(token) => NumbersAreAscii(token);
    case Str(text) => QuotedIsAscii(text);
    case List(items) => PrintItemsAreAscii(items); AsciiAround("[", PrintItems(items), "]");
    case Dict(fields) => PrintFieldsAreAscii(fields); AsciiAround("{", PrintFields(fields), "}");
    case _ =>
  }

  lemma {:induction false} PrintItemsAreAscii(items: Items)
    requires CleanItems(items)
    ensures Ascii(PrintItems(items))
    decreases items
  {
    if items != NoItems {
      PrintIsAscii(items.head);
      PrintItemsAreAscii(items.tail);
      AsciiJoin(",", PrintItems(items.tail));
      AsciiJoin(Print(items.head), if items.tail == NoItems then "" else "," + PrintItems(items.tail));
    }
  }

  lemma {:induction false} PrintFieldsAreAscii(f: Fields)
    requires CleanFields(f)
    ensures Ascii(PrintFields(f))
    decreases f
  {
    if f != NoFields {
      QuotedIsAscii(KeyText(f.key));
      PrintIsAscii(f.value);
      PrintFieldsAreAscii(f.rest);
      AsciiAround(Quoted(KeyText(f.key)), ":", Print(f.value));
      AsciiJoin(",", PrintFields(f.rest));
      AsciiJoin(Quoted(KeyText(f.key)) + ":" + Print(f.value),
                if f.rest == NoFields then "" else "," + PrintFields(f.rest));
    }
  }

  lemma CanonicalIsAscii(payload: Fields)
    requires Legal(Dict(payload)) && Canonical(payload).Ok?
    ensures Ascii(Canonical(payload).value)
  {
    AcceptedFieldsIffClean(payload, []);
    NormalKeeps(Dict(payload));
    PrintIsAscii(Normal(Dict(payload)));
  }

  /** Two accepted payloads share a canonical form iff they sort and fuse to the same value. */
  lemma SameFormIff(p: Fields, q: Fields)
    requires Legal(Dict(p)) && Legal(Dict(q)) && Canonical(p).Ok? && Canonical(q).Ok?
    ensures Canonical(p) == Canonical(q) <==> Fused(Normal(Dict(p))) == Fused(Normal(Dict(q)))
  {
    CanonicalFormReadsBack(p);
    CanonicalFormReadsBack(q);
    FusedPrintsTheSame(Normal(Dict(p)));
    FusedPrintsTheSame(Normal(Dict(q)));
  }

  /**
    Key order never reaches the digest: a payload equal to an accepted one is
    accepted, with the same form. Without adjacent pairs, nothing else is lost.
  */
  lemma FormIgnoresKeyOrderOnly(p: Fields, q: Fields)
    requires Legal(Dict(p)) && Legal(Dict(q)) && Canonical(p).Ok?
    ensures Same(Dict(p), Dict(q)) ==> Canonical(q) == Canonical(p)
    ensures Unpaired(Dict(p)) && Unpaired(Dict(q)) && Canonical(q) == Canonical(p) ==> Same(Dict(p), Dict(q))
  {
    AcceptedFieldsIffClean(p, []);
    AcceptedFieldsIffClean(q, []);
    if Same(Dict(p), Dict(q)) { SameKeepsClean(Dict(p), Dict(q)); }
    if CleanFields(q) {
      NormalDecides(Dict(p), Dict(q));
      CanonicalFormReadsBack(q);
      CanonicalFormReadsBack(p);
    }
  }

  /** Two different strings, a pair of surrogates and the character they spell, with one digest. */
  lemma PairedStringsCollide()
    ensures var p := Field(Name([107]), Str([0xD83D, 0xDE00]), NoFields);
            var q := Field(Name([107]), Str([0x1F600]), NoFields);
            && Canonical(p).Ok? && Canonical(p) == Canonical(q)
            && !Same(Dict(p), Dict(q)) && !Unpaired(Dict(p)) && Unpaired(Dict(q))
  {
    var pair: Text := [0xD83D, 0xDE00];
    var face: Text := [0x1F600];
    assert PairAt(pair, 0);
    assert Fuse(pair) == face by { assert pair[2..] == []; }
    UnitsOfFused(pair);
  }
}
