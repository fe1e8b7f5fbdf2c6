/**
 * JSON values, and a reader for JSON texts by the grammar of RFC 8259, sections 2 to 7, written without
 * regard to any printer. JavaScript strings are sequences of UTF-16 code units; an object is the list of
 * its properties in order.
 */
module JsonGrammar {
  import opened Prelude

  type Unit = u: int | 0 <= u < 0x1_0000

  type JsString = seq<Unit>

  /** The integers that a JavaScript number holds, and prints, exactly. */
  type SafeInt = n: int | -0x1F_FFFF_FFFF_FFFF <= n <= 0x1F_FFFF_FFFF_FFFF

  datatype Json =
    | Null
    | Bool(b: bool)
    | Num(n: SafeInt)
    | Str(s: JsString)
    | Arr(items: seq<Json>)
    | Obj(fields: seq<Field>)

  datatype Field = Field(key: JsString, value: Json)

  predicate Is(t: JsString, i: nat, c: char) {
    i < |t| && t[i] == c as int
  }

  /* White space */

  predicate IsSpace(u: Unit) {
    u == 0x20 || u == 0x09 || u == 0x0A || u == 0x0D
  }

  /** `ws` says whether white space between tokens is read over; without it only compact texts are read. */
  function SkipSpace(ws: bool, t: JsString): (rest: JsString)
    ensures |rest| <= |t|
    decreases t
  {
    if ws && t != [] && IsSpace(t[0]) then SkipSpace(ws, t[1..]) else t
  }

  /* Strings */

  function HexValue(c: Unit): Option<int> {
    if '0' as int <= c <= '9' as int then Some(c - '0' as int)
    else if 'A' as int <= c <= 'F' as int then Some(c - 'A' as int + 10)
    else if 'a' as int <= c <= 'f' as int then Some(c - 'a' as int + 10)
    else None
  }

  /** The unit that a backslash and a letter stand for. */
  function LetterMeans(c: Unit): Option<Unit> {
    if c == '"' as int || c == '\\' as int || c == '/' as int then Some(c)
    else if c == 'b' as int then Some(0x08)
    else if c == 'f' as int then Some(0x0C)
    else if c == 'n' as int then Some(0x0A)
    else if c == 'r' as int then Some(0x0D)
    else if c == 't' as int then Some(0x09)
    else None
  }

  function ReadHex4(t: JsString): Option<int>
    requires |t| == 4
  {
    var a, b, c, d := HexValue(t[0]), HexValue(t[1]), HexValue(t[2]), HexValue(t[3]);
    if a.Some? && b.Some? && c.Some? && d.Some?
    then Some(((a.value * 0x10 + b.value) * 0x10 + c.value) * 0x10 + d.value) else None
  }

  /** One unit of a string, and how many units of text it took. */
  function ReadUnit(t: JsString): (r: Option<(Unit, nat)>)
    ensures r.Some? ==> 0 < r.value.1 <= |t|
  {
    if t == [] || Is(t, 0, '"') || t[0] < 0x20 then None
    else if !Is(t, 0, '\\') then Some((t[0], 1))
    else if |t| < 2 then None
    else if Is(t, 1, 'u') then
      if |t| >= 6 && ReadHex4(t[2..6]).Some? && 0 <= ReadHex4(t[2..6]).value < 0x1_0000
      then Some((ReadHex4(t[2..6]).value, 6)) else None
    else if LetterMeans(t[1]).Some? then Some((LetterMeans(t[1]).value, 2))
    else None
  }

  /** The string that ends at the first bare quotation mark, and the text after that mark. */
  function ReadToQuote(t: JsString): (r: Option<(JsString, JsString)>)
    ensures r.Some? ==> |r.value.1| < |t|
    decreases |t|
  {
    if t == [] then None
    else if Is(t, 0, '"') then Some(([], t[1..]))
    else match ReadUnit(t)
      case None => None
      case Some((u, len)) =>
        match ReadToQuote(t[len..])
        case None => None
        case Some((s, rest)) => Some(([u] + s, rest))
  }

  function ReadString(t: JsString): (r: Option<(JsString, JsString)>)
    ensures r.Some? ==> |r.value.1| < |t|
  {
    if Is(t, 0, '"') then ReadToQuote(t[1..]) else None
  }

  /* Numbers */

  predicate IsDigit(u: Unit) {
    '0' as int <= u <= '9' as int
  }

  /** The number of digits that the text starts with. */
  function DigitCount(t: JsString): (k: nat)
    ensures k <= |t| && forall i | 0 <= i < k :: IsDigit(t[i])
    ensures k < |t| ==> !IsDigit(t[k])
  {
    if t != [] && IsDigit(t[0]) then 1 + DigitCount(t[1..]) else 0
  }

  function DecimalValue(t: JsString): nat
    requires forall i | 0 <= i < |t| :: IsDigit(t[i])
  {
    if t == [] then 0
    else
      assert IsDigit(t[|t| - 1]);
      10 * DecimalValue(t[..|t| - 1]) + (t[|t| - 1] as int - '0' as int)
  }

  /** An integer. Fractions, exponents and integers that a JavaScript number may round are no values here. */
  function ReadNumber(t: JsString): (r: Option<(SafeInt, JsString)>)
    ensures r.Some? ==> |r.value.1| < |t|
  {
    var s := if Is(t, 0, '-') then t[1..] else t;
    var k := DigitCount(s);
    if k == 0 || (k > 1 && Is(s, 0, '0')) || Is(s, k, '.') || Is(s, k, 'e') || Is(s, k, 'E') then None
    else
      var n: int := DecimalValue(s[..k]);
      if n > 0x1F_FFFF_FFFF_FFFF then None else Some((if Is(t, 0, '-') then -n else n, s[k..]))
  }

  /* Values */

  predicate StartsWith(t: JsString, word: string) {
    |word| <= |t| && forall i | 0 <= i < |word| :: t[i] == word[i] as int
  }

  predicate Spells(t: JsString, word: string) {
    |t| == |word| && StartsWith(t, word)
  }

  function ReadValue(ws: bool, t: JsString): (r: Option<(Json, JsString)>)
    ensures r.Some? ==> |r.value.1| < |t|
    decreases |t|, 0
  {
    var s := SkipSpace(ws, t);
    if StartsWith(s, "null") then Some((Null, s[4..]))
    else if StartsWith(s, "true") then Some((Bool(true), s[4..]))
    else if StartsWith(s, "false") then Some((Bool(false), s[5..]))
    else if Is(s, 0, '"') then
      match ReadString(s)
      case None => None
      case Some((x, rest)) => Some((Str(x), rest))
    else if Is(s, 0, '[') then
      var inside := SkipSpace(ws, s[1..]);
      if Is(inside, 0, ']') then Some((Arr([]), inside[1..]))
      else
        match ReadItems(ws, s[1..])
        case None => None
        case Some((items, rest)) => Some((Arr(items), rest))
    else if Is(s, 0, '{') then
      var inside := SkipSpace(ws, s[1..]);
      if Is(inside, 0, '}') then Some((Obj([]), inside[1..]))
      else
        match ReadMembers(ws, s[1..])
        case None => None
        case Some((fields, rest)) => Some((Obj(fields), rest))
    else
      match ReadNumber(s)
      case None => None
      case Some((n, rest)) => Some((Num(n), rest))
  }

  /** One or more values, up to the closing bracket. */
  function ReadItems(ws: bool, t: JsString): (r: Option<(seq<Json>, JsString)>)
    ensures r.Some? ==> |r.value.1| < |t|
    decreases |t|, 1
  {
    match ReadValue(ws, t)
    case None => None
    case Some((v, afterValue)) =>
      var s := SkipSpace(ws, afterValue);
      if Is(s, 0, ']') then Some(([v], s[1..]))
      else if Is(s, 0, ',') then
        match ReadItems(ws, s[1..])
        case None => None
        case Some((items, rest)) => Some(([v] + items, rest))
      else None
  }

  /** One or more members, up to the closing brace. */
  function ReadMembers(ws: bool, t: JsString): (r: Option<(seq<Field>, JsString)>)
    ensures r.Some? ==> |r.value.1| < |t|
    decreases |t|, 1
  {
    match ReadString(SkipSpace(ws, t))
    case None => None
    case Some((key, afterKey)) =>
      var colon := SkipSpace(ws, afterKey);
      if !Is(colon, 0, ':') then None
      else
        match ReadValue(ws, colon[1..])
        case None => None
        case Some((v, afterValue)) =>
          var s := SkipSpace(ws, afterValue);
          if Is(s, 0, '}') then Some(([Field(key, v)], s[1..]))
          else if Is(s, 0, ',') then
            match ReadMembers(ws, s[1..])
            case None => None
            case Some((fields, rest)) => Some(([Field(key, v)] + fields, rest))
          else None
  }

  /** A whole text. */
  function Read(ws: bool, t: JsString): Option<Json> {
    match ReadValue(ws, t)
    case None => None
    case Some((v, rest)) => if SkipSpace(ws, rest) == [] then Some(v) else None
  }
}
