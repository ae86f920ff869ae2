/**
  The one form a payload's digest is taken over (`observability/audit.py`):
  sorted keys, no whitespace, ASCII escapes, and everything else refused.
*/
module CanonicalJson {
  import opened Prelude
  import opened JsonText

  datatype Key = Name(text: Text) | NotAString

  /** What a payload may hold. `Foreign` is any other object: a `datetime`, a `UUID`, a `Decimal`. */
  datatype Value =
    | Null | Bool(b: bool) | Int(n: int) | Float(token: string) | NonFinite
    | Str(text: Text) | List(items: Items) | Dict(fields: Fields) | Foreign

  datatype Items = NoItems | Item(head: Value, tail: Items)

  /** A dict in insertion order. */
  datatype Fields = NoFields | Field(key: Key, value: Value, rest: Fields)

  datatype Step = Under(key: Text) | At(index: nat)
  type Path = seq<Step>

  datatype Refusal = NotSerialisable(path: Path) | NotFinite

  /* ---- what is refused -------------------------------------------------- */

  function Reject(v: Value, path: Path): Option<Path> {
    match v
    case List(items) => RejectItems(items, 0, path)
    case Dict(fields) => RejectFields(fields, path)
    case Foreign => Some(path)
    case _ => None
  }

  function RejectItems(items: Items, index: nat, path: Path): Option<Path> {
    match items
    case NoItems => None
    case Item(head, tail) =>
      var first := Reject(head, path + [At(index)]);
      if first.Some? then first else RejectItems(tail, index + 1, path)
  }

  function RejectFields(fields: Fields, path: Path): Option<Path> {
    match fields
    case NoFields => None
    case Field(NotAString, _, _) => Some(path)
    case Field(Name(key), value, rest) =>
      var first := Reject(value, path + [Under(key)]);
      if first.Some? then first else RejectFields(rest, path)
  }

  predicate Finite(v: Value) {
    match v
    case List(items) => FiniteItems(items)
    case Dict(fields) => FiniteFields(fields)
    case _ => v != NonFinite
  }

  predicate FiniteItems(items: Items) { items == NoItems || (Finite(items.head) && FiniteItems(items.tail)) }

  predicate FiniteFields(fields: Fields) { fields == NoFields || (Finite(fields.value) && FiniteFields(fields.rest)) }

  /* ---- what is written -------------------------------------------------- */

  /** Python compares strings code point by code point. */
  predicate Less(a: Text, b: Text) {
    b != [] && (a == [] || a[0] < b[0] || (a[0] == b[0] && Less(a[1..], b[1..])))
  }

  function KeyText(key: Key): Text { if key.Name? then key.text else [] }

  function Insert(key: Key, value: Value, fields: Fields): Fields {
    if fields == NoFields || Less(KeyText(key), KeyText(fields.key)) then Field(key, value, fields)
    else Field(fields.key, fields.value, Insert(key, value, fields.rest))
  }

  /** `sort_keys=True`, at every depth. */
  function Normal(v: Value): Value {
    match v
    case List(items) => List(NormalItems(items))
    case Dict(fields) => Dict(NormalFields(fields))
    case _ => v
  }

  function NormalItems(items: Items): Items {
    if items == NoItems then NoItems else Item(Normal(items.head), NormalItems(items.tail))
  }

  function NormalFields(fields: Fields): Fields {
    if fields == NoFields then NoFields else Insert(fields.key, Normal(fields.value), NormalFields(fields.rest))
  }

  /** `separators=(",", ":")`, `ensure_ascii=True`. */
  function Print(v: Value): string {
    match v
    case Null => "null"
    case Bool(b) => if b then "true" else "false"
    case Int(n) => IntText(n)
    case Float(token) => token
    case NonFinite => "NaN"
    case Str(text) => Quoted(text)
    case List(items) => "[" + PrintItems(items) + "]"
    case Dict(fields) => "{" + PrintFields(fields) + "}"
    case Foreign => ""
  }

  function PrintItems(items: Items): string {
    if items == NoItems then ""
    else Print(items.head) + (if items.tail == NoItems then "" else "," + PrintItems(items.tail))
  }

  function PrintFields(fields: Fields): string {
    if fields == NoFields then ""
    else
      Quoted(KeyText(fields.key)) + ":" + Print(fields.value)
      + (if fields.rest == NoFields then "" else "," + PrintFields(fields.rest))
  }

  function Canonical(payload: Fields): Result<string, Refusal> {
    match RejectFields(payload, [])
    case Some(path) => Err(NotSerialisable(path))
    case None => if FiniteFields(payload) then Ok(Print(Normal(Dict(payload)))) else Err(NotFinite)
  }

  /* ---- a reader for what is written -------------------------------------- */

  function ReadNumber(s: string): (r: Option<Parsed<Value>>)
    ensures r.Some? ==> |r.value.rest| < |s|
  {
    var t := s[..NumericRun(s)];
    if t == "" then None
    else if Fractional(t) then Some(Parsed(Float(t), s[|t|..]))
    else
      match ReadInt(t)
      case None => None
      case Some(n) => Some(Parsed(Int(n), s[|t|..]))
  }

  function ReadValue(s: string): (r: Option<Parsed<Value>>)
    ensures r.Some? ==> |r.value.rest| < |s|
    decreases |s|, 0
  {
    if s == "" then None
    else if s[0] == '"' then
      match ReadText(s[1..])
      case None => None
      case Some(p) => Some(Parsed(Str(p.value), p.rest))
    else if s[0] == '[' then
      if |s| > 1 && s[1] == ']' then Some(Parsed(List(NoItems), s[2..]))
      else
        match ReadItems(s[1..])
        case None => None
        case Some(p) => Some(Parsed(List(p.value), p.rest))
    else if s[0] == '{' then
      if |s| > 1 && s[1] == '}' then Some(Parsed(Dict(NoFields), s[2..]))
      else
        match ReadFields(s[1..])
        case None => None
        case Some(p) => Some(Parsed(Dict(p.value), p.rest))
    else if "null" <= s then Some(Parsed(Null, s[4..]))
    else if "true" <= s then Some(Parsed(Bool(true), s[4..]))
    else if "false" <= s then Some(Parsed(Bool(false), s[5..]))
    else ReadNumber(s)
  }

  function ReadItems(s: string): (r: Option<Parsed<Items>>)
    ensures r.Some? ==> |r.value.rest| < |s|
    decreases |s|, 1
  {
    match ReadValue(s)
    case None => None
    case Some(p) =>
      if p.rest == "" then None
      else if p.rest[0] == ']' then Some(Parsed(Item(p.value, NoItems), p.rest[1..]))
      else if p.rest[0] != ',' then None
      else
        match ReadItems(p.rest[1..])
        case None => None
        case Some(more) => Some(Parsed(Item(p.value, more.value), more.rest))
  }

  function ReadFields(s: string): (r: Option<Parsed<Fields>>)
    ensures r.Some? ==> |r.value.rest| < |s|
    decreases |s|, 1
  {
    if s == "" || s[0] != '"' then None
    else
      match ReadText(s[1..])
      case None => None
      case Some(k) =>
        if k.rest == "" || k.rest[0] != ':' then None
        else
          match ReadValue(k.rest[1..])
          case None => None
          case Some(p) =>
            if p.rest == "" then None
            else if p.rest[0] == '}' then Some(Parsed(Field(Name(k.value), p.value, NoFields), p.rest[1..]))
            else if p.rest[0] != ',' then None
            else
              match ReadFields(p.rest[1..])
              case None => None
              case Some(more) => Some(Parsed(Field(Name(k.value), p.value, more.value), more.rest))
  }

  function Read(s: string): Option<Value> {
    match ReadValue(s)
    case None => None
    case Some(p) => if p.rest == "" then Some(p.value) else None
  }

  /* ---- what reading gives back -------------------------------------------- */

  /** Every string and key with its surrogate pairs joined. */
  function Fused(v: Value): Value {
    match v
    case Str(text) => Str(Fuse(text))
    case List(items) => List(FusedItems(items))
    case Dict(fields) => Dict(FusedFields(fields))
    case _ => v
  }

  function FusedItems(items: Items): Items {
    if items == NoItems then NoItems else Item(Fused(items.head), FusedItems(items.tail))
  }

  function FusedFields(fields: Fields): Fields {
    if fields == NoFields then NoFields
    else Field(Name(Fuse(KeyText(fields.key))), Fused(fields.value), FusedFields(fields.rest))
  }

  /** Writable as it stands: nothing refused, and every float a finite spelling. */
  predicate Clean(v: Value) {
    match v
    case Float(token) => FloatToken(token)
    case List(items) => CleanItems(items)
    case Dict(fields) => CleanFields(fields)
    case NonFinite => false
    case Foreign => false
    case _ => true
  }

  predicate CleanItems(items: Items) { items == NoItems || (Clean(items.head) && CleanItems(items.tail)) }

  predicate CleanFields(fields: Fields) {
    fields == NoFields || (fields.key.Name? && Clean(fields.value) && CleanFields(fields.rest))
  }

  predicate Closes(r: string) { r == "" || r[0] == ',' || r[0] == ']' || r[0] == '}' }

  lemma ReadNumberText(t: string, r: string)
    requires t != "" && AllNumeric(t) && Closes(r)
    ensures NumericRun(t + r) == |t| && (t + r)[..|t|] == t && (t + r)[|t|..] == r
  {
    RunStops(t, r);
  }

  lemma FirstOf(v: Value, r: string)
    requires Clean(v)
    ensures Print(v) != "" && Print(v)[0] != ']' && Print(v)[0] != '}' && (Print(v) + r)[0] == Print(v)[0]
  {
    if v.Int? { IntRoundTrip(v.n); }
  }

  lemma IntStart(n: int)
    ensures IntText(n) != "" && (Digit(IntText(n)[0]) || IntText(n)[0] == '-')
  {
    if n >= 0 { assert Digit(Digits(n)[0]); }
  }

  lemma ReadNumberAs(t: string, v: Value, r: string)
    requires t != "" && (Digit(t[0]) || t[0] == '-') && AllNumeric(t) && Closes(r)
    requires if Fractional(t) then v == Float(t) else ReadInt(t).Some? && v == Int(ReadInt(t).value)
    ensures ReadValue(t + r) == Some(Parsed(v, r))
  {
    ReadNumberText(t, r);
    assert (t + r)[0] == t[0];
  }

  lemma ReadWord(word: string, v: Value, r: string)
    requires (word == "null" && v == Null) || (word == "true" && v == Bool(true))
             || (word == "false" && v == Bool(false))
    ensures ReadValue(word + r) == Some(Parsed(v, r))
  {
    var s := word + r;
    assert word <= s && s[|word|..] == r && s[0] == word[0];
  }

  lemma ReadString(text: Text, r: string)
    ensures ReadValue(Quoted(text) + r) == Some(Parsed(Str(Fuse(text)), r))
  {
    ReadQuoted(text, r);
  }

  lemma ReadScalar(v: Value, r: string)
    requires Clean(v) && Closes(r) && !v.List? && !v.Dict?
    ensures ReadValue(Print(v) + r) == Some(Parsed(Fused(v), r))
  {
    match v
    case Str(text) => ReadString(text, r);
    case Int(n) =>
      IntRoundTrip(n);
      IntStart(n);
      ReadNumberAs(IntText(n), v, r);
    case Float(token) => ReadNumberAs(token, v, r);
    case Bool(b) => ReadWord(Print(v), v, r);
    case Null => ReadWord("null", v, r);
  }

  lemma Associate(a: string, b: string, c: string)
    ensures (a + b) + c == a + (b + c)
  {
  }

  lemma AfterFirst(first: string, t: string)
    requires |first| == 1
    ensures (first + t)[0] == first[0] && (first + t)[1..] == t
  {
  }

  lemma ItemsText(head: string, tail: string, close: string, r: string)
    ensures (head + ("," + tail)) + (close + r) == head + ("," + (tail + (close + r)))
  {
    Associate(head, "," + tail, close + r);
    Associate(",", tail, close + r);
  }

  lemma FieldText(key: string, value: string, r: string)
    ensures (key + ":" + value + "") + ("}" + r) == key + (":" + (value + ("}" + r)))
  {
    assert key + ":" + value + "" == key + (":" + value);
    Associate(key, ":" + value, "}" + r);
    Associate(":", value, "}" + r);
  }

  lemma FieldsText(key: string, value: string, tail: string, r: string)
    ensures (key + ":" + value + ("," + tail)) + ("}" + r) == key + (":" + (value + ("," + (tail + ("}" + r)))))
  {
    Associate(key, ":", value);
    Associate(key, ":" + value, "," + tail);
    Associate(":", value, "," + tail);
    Associate(key, ":" + (value + ("," + tail)), "}" + r);
    Associate(":", value + ("," + tail), "}" + r);
    ItemsText(value, tail, "}", r);
  }

  lemma ItemsEnd(s: string, v: Value, r: string)
    requires ReadValue(s) == Some(Parsed(v, "]" + r))
    ensures ReadItems(s) == Some(Parsed(Item(v, NoItems), r))
  {
    AfterFirst("]", r);
  }

  lemma ItemsGoOn(s: string, v: Value, t: string, more: Items, r: string)
    requires ReadValue(s) == Some(Parsed(v, "," + t)) && ReadItems(t) == Some(Parsed(more, r))
    ensures ReadItems(s) == Some(Parsed(Item(v, more), r))
  {
    AfterFirst(",", t);
  }

  lemma FieldsEnd(key: Text, after: string, v: Value, r: string)
    requires ReadValue(after) == Some(Parsed(v, "}" + r))
    ensures ReadFields(Quoted(key) + (":" + after)) == Some(Parsed(Field(Name(Fuse(key)), v, NoFields), r))
  {
    ReadQuoted(key, ":" + after);
    AfterFirst(":", after);
    AfterFirst("}", r);
  }

  lemma FieldsGoOn(key: Text, after: string, v: Value, t: string, more: Fields, r: string)
    requires ReadValue(after) == Some(Parsed(v, "," + t)) && ReadFields(t) == Some(Parsed(more, r))
    ensures ReadFields(Quoted(key) + (":" + after)) == Some(Parsed(Field(Name(Fuse(key)), v, more), r))
  {
    ReadQuoted(key, ":" + after);
    AfterFirst(":", after);
    AfterFirst(",", t);
  }

  lemma Enclosed(open: string, body: string, close: string, r: string)
    ensures (open + body + close) + r == open + (body + (close + r))
  {
    Associate(open, body, close);
    Associate(open, body + close, r);
    Associate(body, close, r);
  }

  lemma ListAround(body: string, items: Items, r: string)
    requires body != "" && body[0] != ']' && ReadItems(body + ("]" + r)) == Some(Parsed(items, r))
    ensures ReadValue(("[" + body + "]") + r) == Some(Parsed(List(items), r))
  {
    Enclosed("[", body, "]", r);
    AfterFirst("[", body + ("]" + r));
  }

  lemma DictAround(body: string, fields: Fields, r: string)
    requires body != "" && body[0] != '}' && ReadFields(body + ("}" + r)) == Some(Parsed(fields, r))
    ensures ReadValue(("{" + body + "}") + r) == Some(Parsed(Dict(fields), r))
  {
    Enclosed("{", body, "}", r);
    AfterFirst("{", body + ("}" + r));
  }

  /** Reading undoes writing, whatever follows. */
  lemma {:induction false} ReadPrinted(v: Value, r: string)
    requires Clean(v) && Closes(r)
    ensures ReadValue(Print(v) + r) == Some(Parsed(Fused(v), r))
    decreases v
  {
    match v
    case List(items) =>
      if items == NoItems {
        assert Print(v) + r == "[]" + r && ("[]" + r)[2..] == r;
      } else {
        ReadPrintedItems(items, r);
        FirstOf(items.head, "");
        ListAround(PrintItems(items), FusedItems(items), r);
      }
    case Dict(fields) =>
      if fields == NoFields {
        assert Print(v) + r == "{}" + r && ("{}" + r)[2..] == r;
      } else {
        ReadPrintedFields(fields, r);
        DictAround(PrintFields(fields), FusedFields(fields), r);
      }
    case _ => ReadScalar(v, r);
  }

  lemma {:induction false} ReadPrintedItems(items: Items, r: string)
    requires items != NoItems && CleanItems(items)
    ensures ReadItems(PrintItems(items) + ("]" + r)) == Some(Parsed(FusedItems(items), r))
    decreases items
  {
    var head := Print(items.head);
    if items.tail == NoItems {
      ReadPrinted(items.head, "]" + r);
      ItemsEnd(head + ("]" + r), Fused(items.head), r);
      assert PrintItems(items) == head;
    } else {
      var tail := PrintItems(items.tail) + ("]" + r);
      ReadPrinted(items.head, "," + tail);
      ReadPrintedItems(items.tail, r);
      ItemsGoOn(head + ("," + tail), Fused(items.head), tail, FusedItems(items.tail), r);
      ItemsText(head, PrintItems(items.tail), "]", r);
    }
  }

  lemma {:induction false} ReadPrintedFields(fields: Fields, r: string)
    requires fields != NoFields && CleanFields(fields)
    ensures ReadFields(PrintFields(fields) + ("}" + r)) == Some(Parsed(FusedFields(fields), r))
    ensures PrintFields(fields) != "" && PrintFields(fields)[0] == '"'
    decreases fields
  {
    var key, value := KeyText(fields.key), Print(fields.value);
    if fields.rest == NoFields {
      ReadPrinted(fields.value, "}" + r);
      FieldsEnd(key, value + ("}" + r), Fused(fields.value), r);
      FieldText(Quoted(key), value, r);
    } else {
      var tail := PrintFields(fields.rest) + ("}" + r);
      ReadPrinted(fields.value, "," + tail);
      ReadPrintedFields(fields.rest, r);
      FieldsGoOn(key, value + ("," + tail), Fused(fields.value), tail, FusedFields(fields.rest), r);
      FieldsText(Quoted(key), value, PrintFields(fields.rest), r);
    }
  }
}
