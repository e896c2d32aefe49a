/**
 * Canonical JSON text: string quoting, the printer with sorted keys, and a decoder that
 * recovers the value from the text.
 */
module CanonicalJson {
  import opened Utf16
  import opened Wrappers
  import opened Entries
  import opened EcmaNumber

  /** Acyclic JSON data; the fields of an object are in insertion order. */
  datatype Json =
    | Null
    | Bool(b: bool)
    | Num(x: Number)
    | Str(s: Text)
    | Arr(items: seq<Json>)
    | Obj(fields: seq<Entry<Json>>)

  /** Every object has distinct keys, as every JavaScript object does. */
  predicate WellKeyed(v: Json) {
    match v
    case Arr(items) => forall i :: 0 <= i < |items| ==> WellKeyed(items[i])
    case Obj(fields) => DistinctKeys(fields) && forall i :: 0 <= i < |fields| ==> WellKeyed(fields[i].val)
    case _ => true
  }

  // ---------------------------------------------------------------------- strings

  const QUOTE: CodeUnit := 34
  const BACKSLASH: CodeUnit := 92
  const COMMA: CodeUnit := 44
  const COLON: CodeUnit := 58
  const OPEN_BRACKET: CodeUnit := 91
  const CLOSE_BRACKET: CodeUnit := 93
  const OPEN_BRACE: CodeUnit := 123
  const CLOSE_BRACE: CodeUnit := 125

  function HexDigit(d: int): (c: CodeUnit)
    requires 0 <= d < 16
    ensures c < 0x80 && HexValue(c) == Some(d)
  {
    if d < 10 then 48 + d else 87 + d
  }

  function HexValue(c: int): Option<int> {
    if 48 <= c <= 57 then Some(c - 48) else if 97 <= c <= 102 then Some(c - 87) else None
  }

  /** Backslash-u escape of one code unit, lower-case hexadecimal. */
  function UnicodeEscape(c: CodeUnit): Text {
    [BACKSLASH, 117, HexDigit(c / 4096), HexDigit(c / 256 % 16), HexDigit(c / 16 % 16), HexDigit(c % 16)]
  }

  /** The letter of a two-character escape (QuoteJSONString, ECMA-262 section 25.5.2.3). */
  function ShortEscape(c: CodeUnit): (e: Option<CodeUnit>)
    ensures e.Some? ==> e.value != 117 && e.value < 0x80 && FromShortEscape(e.value) == Some(c)
  {
    if c == 8 then Some(98)
    else if c == 9 then Some(116)
    else if c == 10 then Some(110)
    else if c == 12 then Some(102)
    else if c == 13 then Some(114)
    else if c == QUOTE || c == BACKSLASH then Some(c)
    else None
  }

  function FromShortEscape(e: CodeUnit): Option<CodeUnit> {
    if e == 98 then Some(8)
    else if e == 116 then Some(9)
    else if e == 110 then Some(10)
    else if e == 102 then Some(12)
    else if e == 114 then Some(13)
    else if e == QUOTE || e == BACKSLASH then Some(e)
    else None
  }

  function EscapeUnit(c: CodeUnit): (t: Text)
    ensures t != []
  {
    match ShortEscape(c)
    case Some(e) => [BACKSLASH, e]
    case None => if c < 32 || IsHigh(c) || IsLow(c) then UnicodeEscape(c) else [c]
  }

  predicate StartsPair(s: Text) {
    |s| > 1 && IsHigh(s[0]) && IsLow(s[1])
  }

  function Escape(s: Text): Text {
    if s == [] then []
    else if StartsPair(s) then s[..2] + Escape(s[2..])
    else EscapeUnit(s[0]) + Escape(s[1..])
  }

  function Quote(s: Text): Text {
    [QUOTE] + Escape(s) + [QUOTE]
  }

  // ---------------------------------------------------------------------- printing

  function Join(parts: seq<Text>): Text {
    if parts == [] then []
    else if |parts| == 1 then parts[0]
    else parts[0] + [COMMA] + Join(parts[1..])
  }

  function Print(v: Json): Text
    decreases v
  {
    match v
    case Null => Lit("null")
    case Bool(b) => if b then Lit("true") else Lit("false")
    case Num(x) => Format(x)
    case Str(s) => Quote(s)
    case Arr(items) => [OPEN_BRACKET] + Join(PrintItems(items)) + [CLOSE_BRACKET]
    case Obj(fields) => [OPEN_BRACE] + Join(EntryTexts(SortByKey(PrintFields(fields)))) + [CLOSE_BRACE]
  }

  function PrintItems(items: seq<Json>): (ts: seq<Text>)
    ensures |ts| == |items|
    decreases items
  {
    if items == [] then [] else [Print(items[0])] + PrintItems(items[1..])
  }

  function PrintFields(fields: seq<Entry<Json>>): (es: seq<Entry<Text>>)
    ensures |es| == |fields|
    decreases fields
  {
    if fields == [] then []
    else [Entry(fields[0].key, Print(fields[0].val))] + PrintFields(fields[1..])
  }

  function EntryText(e: Entry<Text>): Text {
    Quote(e.key) + [COLON] + e.val
  }

  function EntryTexts(es: seq<Entry<Text>>): (ts: seq<Text>)
    ensures |ts| == |es|
  {
    if es == [] then [] else [EntryText(es[0])] + EntryTexts(es[1..])
  }

  // ---------------------------------------------------------------------- decoding

  function HexQuad(t: Text): Option<CodeUnit>
    requires |t| >= 4
  {
    match (HexValue(t[0]), HexValue(t[1]), HexValue(t[2]), HexValue(t[3]))
    case (Some(a), Some(b), Some(c), Some(d)) =>
      var n := 4096 * a + 256 * b + 16 * c + d;
      if 0 <= n < 0x10000 then Some(n) else None
    case _ => None
  }

  /** Reads up to the closing quote; the opening one is already consumed. */
  function ReadString(t: Text): (r: Option<(Text, Text)>)
    ensures r.Some? ==> |r.value.1| < |t|
  {
    if t == [] then None
    else if t[0] == QUOTE then Some(([], t[1..]))
    else if t[0] != BACKSLASH then Prepend(t[0], ReadString(t[1..]))
    else if |t| >= 6 && t[1] == 117 then
      match HexQuad(t[2..6])
      case Some(c) => Prepend(c, ReadString(t[6..]))
      case None => None
    else if |t| >= 2 then
      match FromShortEscape(t[1])
      case Some(c) => Prepend(c, ReadString(t[2..]))
      case None => None
    else None
  }

  function Prepend(c: CodeUnit, r: Option<(Text, Text)>): Option<(Text, Text)> {
    match r
    case None => None
    case Some((s, rest)) => Some(([c] + s, rest))
  }

  /** One value from the front of the text, and what follows it. */
  function ReadValue(t: Text): (r: Option<(Json, Text)>)
    ensures r.Some? ==> |r.value.1| < |t|
    decreases |t|, 0
  {
    if t == [] then None
    else if t[0] == QUOTE then
      match ReadString(t[1..])
      case Some((s, rest)) => Some((Str(s), rest))
      case None => None
    else if t[0] == OPEN_BRACKET then
      if |t| > 1 && t[1] == CLOSE_BRACKET then Some((Arr([]), t[2..]))
      else
        match ReadItems(t[1..])
        case Some((items, rest)) => Some((Arr(items), rest))
        case None => None
    else if t[0] == OPEN_BRACE then
      if |t| > 1 && t[1] == CLOSE_BRACE then Some((Obj([]), t[2..]))
      else
        match ReadFields(t[1..])
        case Some((fields, rest)) => Some((Obj(fields), rest))
        case None => None
    else ReadScalar(t)
  }

  function ReadScalar(t: Text): (r: Option<(Json, Text)>)
    ensures r.Some? ==> |r.value.1| < |t|
  {
    if Lit("null") <= t then Some((Null, t[4..]))
    else if Lit("true") <= t then Some((Bool(true), t[4..]))
    else if Lit("false") <= t then Some((Bool(false), t[5..]))
    else
      var (x, rest) := Scan(t);
      if |rest| < |t| then Some((Num(x), rest)) else None
  }

  /** One or more values separated by commas, then a closing bracket. */
  function ReadItems(t: Text): (r: Option<(seq<Json>, Text)>)
    ensures r.Some? ==> |r.value.1| < |t|
    decreases |t|, 1
  {
    match ReadValue(t)
    case None => None
    case Some((v, rest)) =>
      if rest == [] then None
      else if rest[0] == CLOSE_BRACKET then Some(([v], rest[1..]))
      else if rest[0] == COMMA then
        match ReadItems(rest[1..])
        case Some((vs, rest')) => Some(([v] + vs, rest'))
        case None => None
      else None
  }

  /** One or more key-value pairs separated by commas, then a closing brace. */
  function ReadFields(t: Text): (r: Option<(seq<Entry<Json>>, Text)>)
    ensures r.Some? ==> |r.value.1| < |t|
    decreases |t|, 1
  {
    if t == [] || t[0] != QUOTE then None else
    match ReadString(t[1..])
    case None => None
    case Some((key, rest0)) =>
      if rest0 == [] || rest0[0] != COLON then None else
      match ReadValue(rest0[1..])
      case None => None
      case Some((v, rest)) =>
        if rest == [] then None
        else if rest[0] == CLOSE_BRACE then Some(([Entry(key, v)], rest[1..]))
        else if rest[0] == COMMA then
          match ReadFields(rest[1..])
          case Some((es, rest')) => Some(([Entry(key, v)] + es, rest'))
          case None => None
        else None
  }

  function Decode(t: Text): Option<Json> {
    match ReadValue(t)
    case Some((v, rest)) => if rest == [] then Some(v) else None
    case None => None
  }
}
