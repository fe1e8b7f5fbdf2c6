/**
 * The canonical JSON printer of blockchainService.js, and what a JSON reader makes of its texts. The
 * properties of an object are in creation order.
 */
module StableJson {
  import opened Prelude
  import opened JsonGrammar

  function Js(s: string): JsString {
    seq(|s|, i requires 0 <= i < |s| => (s[i] as int) % 0x1_0000)
  }

  /* Strings */

  const QUOTE: Unit := 0x22
  const COMMA: Unit := 0x2C
  const COLON: Unit := 0x3A
  const OPEN_ARRAY: Unit := 0x5B
  const BACKSLASH: Unit := 0x5C
  const CLOSE_ARRAY: Unit := 0x5D
  const OPEN_OBJECT: Unit := 0x7B
  const CLOSE_OBJECT: Unit := 0x7D
  const MINUS: Unit := 0x2D
  const LETTER_U: Unit := 0x75

  predicate HighSurrogate(u: Unit) {
    0xD800 <= u < 0xDC00
  }

  predicate LowSurrogate(u: Unit) {
    0xDC00 <= u < 0xE000
  }

  function HexDigit(d: int): Unit
    requires 0 <= d < 16
  {
    if d < 10 then 0x30 + d else 0x61 + (d - 10)
  }

  function Hex4(u: Unit): JsString {
    [HexDigit(u / 0x1000), HexDigit(u / 0x100 % 0x10), HexDigit(u / 0x10 % 0x10), HexDigit(u % 0x10)]
  }

  /** The letter of a two-unit escape, if the unit has one. */
  function ShortEscape(u: Unit): Option<Unit> {
    if u == QUOTE || u == BACKSLASH then Some(u)
    else if u == 0x08 then Some(0x62)
    else if u == 0x09 then Some(0x74)
    else if u == 0x0A then Some(0x6E)
    else if u == 0x0C then Some(0x66)
    else if u == 0x0D then Some(0x72)
    else None
  }

  /** How JSON.stringify writes one unit; surrogates are written as they are only in pairs. */
  function Escape(afterHigh: bool, u: Unit, beforeLow: bool): JsString {
    if ShortEscape(u).Some? then [BACKSLASH, ShortEscape(u).value]
    else if u < 0x20 || (HighSurrogate(u) && !beforeLow) || (LowSurrogate(u) && !afterHigh)
    then [BACKSLASH, LETTER_U] + Hex4(u)
    else [u]
  }

  function EscapeAll(afterHigh: bool, s: JsString): JsString
    decreases s
  {
    if s == [] then []
    else Escape(afterHigh, s[0], |s| > 1 && LowSurrogate(s[1])) + EscapeAll(HighSurrogate(s[0]), s[1..])
  }

  function Quoted(s: JsString): JsString {
    [QUOTE] + EscapeAll(false, s) + [QUOTE]
  }

  /* Numbers */

  function Decimal(n: nat): JsString {
    seq(|Digits(n)|, i requires 0 <= i < |Digits(n)| => 0x30 + (Digits(n)[i] as int))
  }

  function Number(n: SafeInt): JsString {
    if n < 0 then [MINUS] + Decimal(-n) else Decimal(n)
  }

  /* Objects */

  /** Less in the order of Array.prototype.sort: unit by unit, a proper prefix first. */
  predicate Less(a: JsString, b: JsString) {
    b != [] && (a == [] || a[0] < b[0] || (a[0] == b[0] && Less(a[1..], b[1..])))
  }

  function InsertKey(k: JsString, sorted: seq<JsString>): seq<JsString> {
    if sorted == [] || !Less(sorted[0], k) then [k] + sorted else [sorted[0]] + InsertKey(k, sorted[1..])
  }

  function SortedKeys(fields: seq<Field>): seq<JsString> {
    if fields == [] then [] else InsertKey(fields[0].key, SortedKeys(fields[1..]))
  }

  predicate HasKey(fields: seq<Field>, k: JsString) {
    exists i | 0 <= i < |fields| :: fields[i].key == k
  }

  /** The value of a property. */
  function Get(fields: seq<Field>, k: JsString): (v: Json)
    requires HasKey(fields, k)
    ensures exists i | 0 <= i < |fields| :: fields[i] == Field(k, v)
  {
    if fields[0].key == k then
      assert fields[0] == Field(k, fields[0].value);
      fields[0].value
    else
      assert HasKey(fields[1..], k) by {
        var i :| 0 <= i < |fields| && fields[i].key == k;
        assert fields[1..][i - 1].key == k;
      }
      var v := Get(fields[1..], k);
      assert exists i | 0 <= i < |fields| :: fields[i] == Field(k, v) by {
        var i :| 0 <= i < |fields[1..]| && fields[1..][i] == Field(k, v);
        assert fields[i + 1] == Field(k, v);
      }
      v
  }

  predicate UniqueKeys(fields: seq<Field>) {
    forall i, j | 0 <= i < j < |fields| :: fields[i].key != fields[j].key
  }

  /** Every object, at every depth, has each key once. */
  predicate WellFormed(v: Json) {
    match v
    case Arr(items) => forall i | 0 <= i < |items| :: WellFormed(items[i])
    case Obj(fields) => UniqueKeys(fields) && forall i | 0 <= i < |fields| :: WellFormed(fields[i].value)
    case _ => true
  }

  /** Equal up to the order of object keys. */
  predicate Same(a: Json, b: Json) {
    match (a, b)
    case (Arr(x), Arr(y)) => |x| == |y| && forall i | 0 <= i < |x| :: Same(x[i], y[i])
    case (Obj(f), Obj(g)) =>
      && (forall i | 0 <= i < |f| :: HasKey(g, f[i].key) && Same(f[i].value, Get(g, f[i].key)))
      && (forall i | 0 <= i < |g| :: HasKey(f, g[i].key))
    case _ => a == b
  }

  lemma {:induction false} SortedKeysHas(fields: seq<Field>, k: JsString)
    ensures k in SortedKeys(fields) <==> HasKey(fields, k)
  {
    if fields == [] {
    } else {
      SortedKeysHas(fields[1..], k);
      InsertHas(fields[0].key, SortedKeys(fields[1..]), k);
      if HasKey(fields[1..], k) {
        var i :| 0 <= i < |fields[1..]| && fields[1..][i].key == k;
        assert fields[i + 1].key == k;
      }
      if HasKey(fields, k) && fields[0].key != k {
        var i :| 0 <= i < |fields| && fields[i].key == k;
        assert fields[1..][i - 1].key == k;
      }
    }
  }

  lemma {:induction false} InsertHas(k: JsString, sorted: seq<JsString>, x: JsString)
    ensures x in InsertKey(k, sorted) <==> x == k || x in sorted
  {
    if sorted != [] && Less(sorted[0], k) {
      InsertHas(k, sorted[1..], x);
      assert x in sorted <==> x == sorted[0] || x in sorted[1..];
    }
  }

  /** The printer. Keys are printed in sorted order, whatever order they were created in. */
  function StableStringify(v: Json): JsString
    decreases v, 0
  {
    match v
    case Null => Js("null")
    case Bool(b) => if b then Js("true") else Js("false")
    case Num(n) => Number(n)
    case Str(s) => Quoted(s)
    case Arr(items) => [OPEN_ARRAY] + PrintItems(items) + [CLOSE_ARRAY]
    case Obj(fields) =>
      forall k ensures k in SortedKeys(fields) <==> HasKey(fields, k) {
        SortedKeysHas(fields, k);
      }
      [OPEN_OBJECT] + PrintMembers(v, SortedKeys(fields)) + [CLOSE_OBJECT]
  }

  function PrintItems(items: seq<Json>): JsString
    decreases items, 0
  {
    if items == [] then []
    else if |items| == 1 then StableStringify(items[0])
    else StableStringify(items[0]) + [COMMA] + PrintItems(items[1..])
  }

  function PrintMembers(v: Json, keys: seq<JsString>): JsString
    requires v.Obj? && forall k | k in keys :: HasKey(v.fields, k)
    decreases v, 0, |keys|
  {
    if keys == [] then []
    else
      var member := Quoted(keys[0]) + [COLON] + StableStringify(Get(v.fields, keys[0]));
      if |keys| == 1 then member else member + [COMMA] + PrintMembers(v, keys[1..])
  }

  /* Reading printed strings */

  lemma HexValueOfDigit(d: int)
    requires 0 <= d < 16
    ensures HexValue(HexDigit(d)) == Some(d)
  {
  }

  lemma Nibbles(u: Unit)
    ensures u == ((u / 0x1000 * 0x10 + u / 0x100 % 0x10) * 0x10 + u / 0x10 % 0x10) * 0x10 + u % 0x10
  {
    var q := u / 0x10;
    var r := q / 0x10;
    assert u / 0x100 == r && u / 0x1000 == r / 0x10;
  }

  lemma ReadHex4OfHex4(u: Unit)
    ensures ReadHex4(Hex4(u)) == Some(u)
  {
    var a, b, c, d := u / 0x1000, u / 0x100 % 0x10, u / 0x10 % 0x10, u % 0x10;
    Nibbles(u);
    HexValueOfDigit(a);
    HexValueOfDigit(b);
    HexValueOfDigit(c);
    HexValueOfDigit(d);
    hide HexValue, HexDigit;
    assert Hex4(u) == [HexDigit(a), HexDigit(b), HexDigit(c), HexDigit(d)];
  }

  lemma ReadUnitOfEscape(p: bool, u: Unit, n: bool, x: JsString)
    ensures Escape(p, u, n) != [] && Escape(p, u, n)[0] != QUOTE
    ensures ReadUnit(Escape(p, u, n) + x) == Some((u, |Escape(p, u, n)|))
  {
    var e := Escape(p, u, n);
    if |e| == 6 {
      ReadHex4OfHex4(u);
      hide Hex4, ReadHex4;
      assert (e + x)[2..6] == Hex4(u);
    }
  }

  lemma ReadToQuoteNext(t: JsString, u: Unit, len: nat, s: JsString, x: JsString)
    requires ReadUnit(t) == Some((u, len)) && 0 < len <= |t| && t[0] != QUOTE
    requires ReadToQuote(t[len..]) == Some((s, x))
    ensures ReadToQuote(t) == Some(([u] + s, x))
  {
    hide ReadUnit;
  }

  lemma EscapeAllNext(p: bool, s: JsString)
    requires s != []
    ensures EscapeAll(p, s) ==
            Escape(p, s[0], |s| > 1 && LowSurrogate(s[1])) + EscapeAll(HighSurrogate(s[0]), s[1..])
  {
  }

  lemma {:induction false} ReadToQuoteOfEscapeAll(p: bool, s: JsString, x: JsString)
    ensures ReadToQuote(EscapeAll(p, s) + ([QUOTE] + x)) == Some((s, x))
    decreases s
  {
    hide Escape, ReadUnit;
    var t := EscapeAll(p, s) + ([QUOTE] + x);
    if s == [] {
      assert t == [QUOTE] + x && t[1..] == x;
    } else {
      hide EscapeAll, ReadToQuote;
      var n := |s| > 1 && LowSurrogate(s[1]);
      var e, rest := Escape(p, s[0], n), EscapeAll(HighSurrogate(s[0]), s[1..]) + ([QUOTE] + x);
      EscapeAllNext(p, s);
      ReadUnitOfEscape(p, s[0], n, rest);
      ReadToQuoteOfEscapeAll(HighSurrogate(s[0]), s[1..], x);
      assert t == e + rest && t[|e|..] == rest;
      ReadToQuoteNext(t, s[0], |e|, s[1..], x);
      assert [s[0]] + s[1..] == s;
    }
  }

  /** Every printed string reads back, by the JSON grammar, as the string, whatever text follows it. */
  lemma QuotedReadsBack(s: JsString, x: JsString)
    ensures ReadString(Quoted(s) + x) == Some((s, x))
  {
    ReadToQuoteOfEscapeAll(false, s, x);
    hide EscapeAll, ReadToQuote;
    assert (Quoted(s) + x)[1..] == EscapeAll(false, s) + ([QUOTE] + x);
  }

  /**
   * What is escaped and how: nothing that need not be, by a letter where there is one, and otherwise by
   * four digits in lower case.
   */
  lemma EscapesAreMinimal(p: bool, u: Unit, n: bool)
    ensures
      var e := Escape(p, u, n);
      && (|e| == 2 <==> u in {0x08, 0x09, 0x0A, 0x0C, 0x0D, '"' as int, '\\' as int})
      && (|e| == 6 <==>
        || (u < 0x20 && u !in {0x08, 0x09, 0x0A, 0x0C, 0x0D})
        || (0xD800 <= u < 0xDC00 && !n) || (0xDC00 <= u < 0xE000 && !p))
      && (|e| != 2 && |e| != 6 ==> e == [u])
      && (|e| == 6 ==> forall i | 2 <= i < 6 :: '0' as int <= e[i] <= '9' as int || 'a' as int <= e[i] <= 'f' as int)
  {
  }

  /* Reading printed numbers */

  /** What can follow a value: nothing, a comma or a closing bracket. */
  predicate Stops(x: JsString) {
    x == [] || x[0] == COMMA || x[0] == CLOSE_ARRAY || x[0] == CLOSE_OBJECT
  }

  lemma DecimalDigit(n: nat, i: nat)
    requires i < |Digits(n)|
    ensures |Decimal(n)| == |Digits(n)| && Decimal(n)[i] == 0x30 + (Digits(n)[i] as int)
  {
  }

  lemma {:induction false} DecimalValueOf(t: JsString, ds: seq<digit>)
    requires |t| == |ds| && forall i | 0 <= i < |t| :: IsDigit(t[i]) && t[i] == 0x30 + (ds[i] as int)
    ensures DecimalValue(t) == FromDigits(ds)
    decreases |t|
  {
    if t == [] {
    } else {
      DecimalValueOf(t[..|t| - 1], ds[..|ds| - 1]);
    }
  }

  lemma {:induction false} FirstDigit(n: nat)
    ensures n > 0 ==> Digits(n)[0] > 0
    ensures n < 10 ==> |Digits(n)| == 1
  {
    if n < 10 {
    } else {
      FirstDigit(n / 10);
    }
  }

  lemma {:induction false} DigitCountIs(t: JsString, x: JsString)
    requires Stops(x) && forall i | 0 <= i < |t| :: IsDigit(t[i])
    ensures DigitCount(t + x) == |t|
    decreases |t|
  {
    if t == [] {
      assert t + x == x;
    } else {
      assert (t + x)[1..] == t[1..] + x;
      DigitCountIs(t[1..], x);
    }
  }

  /** The digits of a number, and what follows them. */
  lemma DecimalShape(n: nat, x: JsString)
    requires Stops(x)
    ensures
      var s, k := Decimal(n) + x, |Decimal(n)|;
      && 0 < k == DigitCount(s) && s[..k] == Decimal(n) && s[k..] == x && (k > 1 ==> s[0] != 0x30)
      && s[0] != MINUS && (k < |s| ==> s[k] == x[0])
    ensures (forall i | 0 <= i < |Decimal(n)| :: IsDigit(Decimal(n)[i])) && DecimalValue(Decimal(n)) == n
  {
    forall i | 0 <= i < |Decimal(n)| ensures IsDigit(Decimal(n)[i]) {
      DecimalDigit(n, i);
    }
    DecimalValueOf(Decimal(n), Digits(n));
    DigitsDetermine(n);
    DigitCountIs(Decimal(n), x);
    FirstDigit(n);
    DecimalDigit(n, 0);
    hide Decimal;
    assert |Decimal(n)| > 0 && (Decimal(n) + x)[0] == Decimal(n)[0];
  }

  /** Every printed integer reads back, whatever text follows it that can follow a value. */
  lemma NumberReadsBack(n: SafeInt, x: JsString)
    requires Stops(x)
    ensures ReadNumber(Number(n) + x) == Some((n, x))
  {
    hide Decimal, DigitCount, DecimalValue, Number, ReadNumber, Stops;
    var m := if n < 0 then -n else n;
    DecimalShape(m, x);
    NumberText(n, x);
    ReadsDigits(Number(n) + x, n < 0, Decimal(m), m, x);
  }

  lemma NumberText(n: SafeInt, x: JsString)
    ensures n < 0 ==> Number(n) + x == [MINUS] + (Decimal(-n) + x)
    ensures n >= 0 ==> Number(n) + x == Decimal(n) + x
  {
    hide Decimal;
  }

  lemma ReadsDigits(t: JsString, negative: bool, ds: JsString, m: int, x: JsString)
    requires Stops(x) && ds != [] && 0 <= m <= 0x1F_FFFF_FFFF_FFFF
    requires forall i | 0 <= i < |ds| :: IsDigit(ds[i])
    requires DigitCount(ds + x) == |ds| && DecimalValue(ds) == m && (|ds| > 1 ==> ds[0] != 0x30)
    requires t == if negative then [MINUS] + (ds + x) else ds + x
    ensures ReadNumber(t) == Some((if negative then -m else m, x))
  {
    hide DigitCount, DecimalValue;
    var s := ds + x;
    assert s[0] == ds[0] && s[..|ds|] == ds && s[|ds|..] == x;
    if negative {
      assert t[1..] == s;
    }
  }

  lemma NumberInjective(m: SafeInt, n: SafeInt, x: JsString, y: JsString)
    requires Number(m) + x == Number(n) + y && Stops(x) && Stops(y)
    ensures m == n && x == y
  {
    NumberReadsBack(m, x);
    NumberReadsBack(n, y);
  }

  lemma NumberStart(n: SafeInt)
    ensures Number(n) != [] && (Number(n)[0] == MINUS || IsDigit(Number(n)[0]))
  {
    var m := if n < 0 then -n else n;
    DecimalShape(m, []);
    hide Decimal, DigitCount, DecimalValue;
    assert Decimal(m) + [] == Decimal(m);
  }

  lemma Regroup(a: JsString, b: JsString, c: JsString, d: JsString)
    ensures a + b + c + d == a + (b + (c + d))
  {
  }

  /* Canonical form: the key order does not show in the text, and nothing else is lost. */

  lemma {:induction false} LessTotal(a: JsString, b: JsString)
    ensures Less(a, b) || Less(b, a) || a == b
  {
    if a != [] && b != [] && a[0] == b[0] {
      LessTotal(a[1..], b[1..]);
      assert a == [a[0]] + a[1..] && b == [b[0]] + b[1..];
    }
  }

  lemma {:induction false} LessTransitive(a: JsString, b: JsString, c: JsString)
    requires Less(a, b) && Less(b, c)
    ensures Less(a, c)
  {
    if a != [] && a[0] == b[0] && b[0] == c[0] {
      LessTransitive(a[1..], b[1..], c[1..]);
    }
  }

  lemma {:induction false} LessIrreflexive(a: JsString)
    ensures !Less(a, a)
  {
    if a == [] {
    } else {
      LessIrreflexive(a[1..]);
    }
  }

  /** Strictly ascending. */
  predicate Ascending(keys: seq<JsString>) {
    forall i, j | 0 <= i < j < |keys| :: Less(keys[i], keys[j])
  }

  lemma {:induction false} InsertAscends(k: JsString, sorted: seq<JsString>)
    requires Ascending(sorted) && k !in sorted
    ensures Ascending(InsertKey(k, sorted))
  {
    var result := InsertKey(k, sorted);
    if sorted == [] {
    } else {
      LessTotal(sorted[0], k);
      if Less(sorted[0], k) {
        assert Ascending(sorted[1..]);
        InsertAscends(k, sorted[1..]);
        var rest := InsertKey(k, sorted[1..]);
        forall j | 0 <= j < |rest| ensures Less(sorted[0], rest[j]) {
          InsertHas(k, sorted[1..], rest[j]);
        }
      } else {
        forall j | 0 <= j < |sorted| ensures Less(k, sorted[j]) {
          if j > 0 {
            LessTransitive(k, sorted[0], sorted[j]);
          }
        }
      }
    }
  }

  lemma {:induction false} SortedKeysAscend(fields: seq<Field>)
    requires UniqueKeys(fields)
    ensures Ascending(SortedKeys(fields))
  {
    if fields == [] {
    } else {
      SortedKeysAscend(fields[1..]);
      SortedKeysHas(fields[1..], fields[0].key);
      InsertAscends(fields[0].key, SortedKeys(fields[1..]));
    }
  }

  /** Ascending lists with the same elements are equal. */
  lemma {:induction false} AscendingUnique(a: seq<JsString>, b: seq<JsString>)
    requires Ascending(a) && Ascending(b) && forall k :: k in a <==> k in b
    ensures a == b
  {
    if a == [] || b == [] {
      HasFirst(a);
      HasFirst(b);
    } else {
      LessIrreflexive(a[0]);
      LessIrreflexive(b[0]);
      FirstIsLeast(a, b[0]);
      FirstIsLeast(b, a[0]);
      if a[0] != b[0] {
        LessTransitive(a[0], b[0], a[0]);
      }
      forall k ensures k in a[1..] <==> k in b[1..] {
        NotAgain(a);
        NotAgain(b);
        assert k in a <==> k == a[0] || k in a[1..];
        assert k in b <==> k == b[0] || k in b[1..];
      }
      AscendingUnique(a[1..], b[1..]);
    }
  }

  lemma HasFirst(a: seq<JsString>)
    ensures a != [] ==> exists k :: k in a
  {
    assert a != [] ==> a[0] in a;
  }

  lemma FirstIsLeast(a: seq<JsString>, k: JsString)
    requires Ascending(a) && k in a
    ensures k == a[0] || Less(a[0], k)
  {
  }

  lemma NotAgain(a: seq<JsString>)
    requires Ascending(a) && a != []
    ensures a[0] !in a[1..]
  {
    LessIrreflexive(a[0]);
  }

  /** A property of the given key has the value that Get finds. */
  lemma {:induction false} GetUnique(fields: seq<Field>, i: nat)
    requires UniqueKeys(fields) && i < |fields|
    ensures HasKey(fields, fields[i].key) && Get(fields, fields[i].key) == fields[i].value
  {
    var v := Get(fields, fields[i].key);
    var j :| 0 <= j < |fields| && fields[j] == Field(fields[i].key, v);
    assert !(i < j) && !(j < i);
  }

  lemma GetSame(f: seq<Field>, g: seq<Field>, k: JsString)
    requires WellFormed(Obj(f)) && WellFormed(Obj(g)) && Same(Obj(f), Obj(g)) && HasKey(f, k)
    ensures HasKey(g, k) && Same(Get(f, k), Get(g, k))
    ensures WellFormed(Get(f, k)) && WellFormed(Get(g, k))
  {
    var i :| 0 <= i < |f| && f[i].key == k;
    GetUnique(f, i);
    var j :| 0 <= j < |g| && g[j] == Field(k, Get(g, k));
  }

  lemma SortedKeysSame(f: seq<Field>, g: seq<Field>)
    requires UniqueKeys(f) && UniqueKeys(g) && forall k :: HasKey(f, k) <==> HasKey(g, k)
    ensures SortedKeys(f) == SortedKeys(g)
  {
    SortedKeysAscend(f);
    SortedKeysAscend(g);
    forall k ensures k in SortedKeys(f) <==> k in SortedKeys(g) {
      SortedKeysHas(f, k);
      SortedKeysHas(g, k);
    }
    AscendingUnique(SortedKeys(f), SortedKeys(g));
  }

  lemma SameKeys(f: seq<Field>, g: seq<Field>, k: JsString)
    requires Same(Obj(f), Obj(g))
    ensures HasKey(f, k) <==> HasKey(g, k)
  {
  }

  /** Values that are the same up to key order print alike. */
  lemma {:induction false} SamePrintsAlike(a: Json, b: Json)
    requires WellFormed(a) && WellFormed(b) && Same(a, b)
    ensures StableStringify(a) == StableStringify(b)
    decreases a, 0
  {
    match (a, b) {
      case (Arr(x), Arr(y)) => ItemsPrintAlike(x, y);
      case (Obj(f), Obj(g)) =>
        forall k ensures HasKey(f, k) <==> HasKey(g, k) {
          SameKeys(f, g, k);
        }
        SortedKeysSame(f, g);
        forall k ensures k in SortedKeys(f) <==> HasKey(f, k) {
          SortedKeysHas(f, k);
        }
        MembersPrintAlike(a, b, SortedKeys(f));
      case _ =>
    }
  }

  lemma {:induction false} ItemsPrintAlike(x: seq<Json>, y: seq<Json>)
    requires |x| == |y| && forall i | 0 <= i < |x| :: WellFormed(x[i]) && WellFormed(y[i]) && Same(x[i], y[i])
    ensures PrintItems(x) == PrintItems(y)
    decreases x, 0
  {
    if x == [] {
    } else {
      SamePrintsAlike(x[0], y[0]);
      ItemsPrintAlike(x[1..], y[1..]);
    }
  }

  lemma {:induction false} MembersPrintAlike(a: Json, b: Json, keys: seq<JsString>)
    requires a.Obj? && b.Obj? && WellFormed(a) && WellFormed(b) && Same(a, b)
    requires forall k | k in keys :: HasKey(a.fields, k) && HasKey(b.fields, k)
    ensures PrintMembers(a, keys) == PrintMembers(b, keys)
    decreases a, 0, |keys|
  {
    if keys == [] {
    } else {
      GetSame(a.fields, b.fields, keys[0]);
      SamePrintsAlike(Get(a.fields, keys[0]), Get(b.fields, keys[0]));
      MembersPrintAlike(a, b, keys[1..]);
    }
  }

  /* What follows the first item of an array, or the first value of an object, up to the end. */

  function ItemsRest(items: seq<Json>, tail: JsString): JsString
    requires items != []
  {
    if |items| == 1 then tail else [COMMA] + (PrintItems(items[1..]) + tail)
  }

  function MembersRest(v: Json, keys: seq<JsString>, tail: JsString): JsString
    requires v.Obj? && keys != [] && forall k | k in keys :: HasKey(v.fields, k)
  {
    if |keys| == 1 then tail else [COMMA] + (PrintMembers(v, keys[1..]) + tail)
  }

  lemma ItemsRestIs(items: seq<Json>, tail: JsString)
    requires items != []
    ensures ItemsRest(items, tail) == if |items| == 1 then tail else [COMMA] + (PrintItems(items[1..]) + tail)
  {
  }

  lemma ItemsUnfold(items: seq<Json>, tail: JsString)
    requires items != [] && tail != [] && tail[0] == CLOSE_ARRAY
    ensures PrintItems(items) + tail == StableStringify(items[0]) + ItemsRest(items, tail)
    ensures Stops(ItemsRest(items, tail)) && (ItemsRest(items, tail)[0] == COMMA <==> |items| > 1)
  {
    hide StableStringify;
    if |items| > 1 {
      Regroup(StableStringify(items[0]), [COMMA], PrintItems(items[1..]), tail);
    }
  }

  lemma MembersUnfold(v: Json, keys: seq<JsString>, tail: JsString)
    requires v.Obj? && keys != [] && forall k | k in keys :: HasKey(v.fields, k)
    requires tail != [] && tail[0] == CLOSE_OBJECT
    ensures PrintMembers(v, keys) + tail ==
            Quoted(keys[0]) + ([COLON] + (StableStringify(Get(v.fields, keys[0])) + MembersRest(v, keys, tail)))
    ensures Stops(MembersRest(v, keys, tail)) && (MembersRest(v, keys, tail)[0] == COMMA <==> |keys| > 1)
    ensures (PrintMembers(v, keys) + tail)[0] == QUOTE
  {
    var q := Quoted(keys[0]);
    assert q[0] == QUOTE;
    hide StableStringify, Quoted;
    var value := StableStringify(Get(v.fields, keys[0]));
    if |keys| > 1 {
      Regroup(q + [COLON] + value, [COMMA], PrintMembers(v, keys[1..]), tail);
    }
    Regroup(q, [COLON], value, MembersRest(v, keys, tail));
  }

  lemma MembersRestIs(v: Json, keys: seq<JsString>, tail: JsString)
    requires v.Obj? && keys != [] && forall k | k in keys :: HasKey(v.fields, k)
    ensures MembersRest(v, keys, tail) == if |keys| == 1 then tail else [COMMA] + (PrintMembers(v, keys[1..]) + tail)
  {
  }

  /* Reading printed values */

  /** Earlier by the first unit that differs, a proper prefix first. */
  ghost predicate Before(a: JsString, b: JsString) {
    exists k :: 0 <= k <= |a| && k < |b| && a[..k] == b[..k] && (k == |a| || a[k] < b[k])
  }

  /** In every object, at every depth, the properties come in the order of their keys. */
  ghost predicate KeysInOrder(v: Json) {
    match v
    case Arr(items) => forall i | 0 <= i < |items| :: KeysInOrder(items[i])
    case Obj(fields) =>
      && (forall i, j | 0 <= i < j < |fields| :: Before(fields[i].key, fields[j].key))
      && forall i | 0 <= i < |fields| :: KeysInOrder(fields[i].value)
    case _ => true
  }

  lemma {:induction false} LessIsBefore(a: JsString, b: JsString)
    requires Less(a, b)
    ensures Before(a, b)
  {
    if a == [] || a[0] < b[0] {
      assert a[..0] == b[..0];
    } else {
      LessIsBefore(a[1..], b[1..]);
      var k :| 0 <= k <= |a[1..]| && k < |b[1..]| && a[1..][..k] == b[1..][..k] &&
        (k == |a[1..]| || a[1..][k] < b[1..][k]);
      assert a[..k + 1] == [a[0]] + a[1..][..k] && b[..k + 1] == [b[0]] + b[1..][..k];
    }
  }

  /** What the reader makes of a printed value: an equal value, in key order, and the text that follows. */
  ghost predicate ReadAs(r: Option<(Json, JsString)>, v: Json, x: JsString) {
    r.Some? && r.value.1 == x && Same(r.value.0, v) && KeysInOrder(r.value.0)
  }

  lemma NoSpace(ws: bool, t: JsString)
    requires t == [] || t[0] > 0x20
    ensures SkipSpace(ws, t) == t
  {
  }

  lemma FirstUnit(v: Json)
    ensures StableStringify(v) != [] && StableStringify(v)[0] > 0x20
    ensures StableStringify(v)[0] != CLOSE_ARRAY && StableStringify(v)[0] != CLOSE_OBJECT
  {
    if v.Num? {
      NumberStart(v.n);
    }
  }

  /**
   * Every printed value reads back, by the grammar of JSON, as a value that is the same up to key order,
   * with its keys in order, whatever text follows it that can follow a value.
   */
  lemma {:induction false} ReadsBack(ws: bool, v: Json, x: JsString)
    requires WellFormed(v) && Stops(x)
    ensures ReadAs(ReadValue(ws, StableStringify(v) + x), v, x)
    decreases v, 2
  {
    match v {
      case Num(n) => NumberValueReadsBack(ws, n, x);
      case Str(s) => StringValueReadsBack(ws, s, x);
      case Arr(items) => ArrayReadsBack(ws, v, x);
      case Obj(fields) => ObjectReadsBack(ws, v, x);
      case _ => LiteralReadsBack(ws, v, x);
    }
  }

  /* The reader, one step at a time */

  lemma NoLiteral(t: JsString)
    requires t != [] && !Is(t, 0, 'n') && !Is(t, 0, 't') && !Is(t, 0, 'f')
    ensures !StartsWith(t, "null") && !StartsWith(t, "true") && !StartsWith(t, "false")
  {
    assert "null"[0] == 'n' && "true"[0] == 't' && "false"[0] == 'f';
  }

  lemma ReadsArray(ws: bool, inside: JsString)
    ensures
      ReadValue(ws, [OPEN_ARRAY] + inside) ==
        var s := SkipSpace(ws, inside);
        if Is(s, 0, ']') then Some((Arr([]), s[1..]))
        else
          match ReadItems(ws, inside)
          case None => None
          case Some((items, rest)) => Some((Arr(items), rest))
  {
    var t := [OPEN_ARRAY] + inside;
    NoSpace(ws, t);
    NoLiteral(t);
    assert t[1..] == inside;
    hide ReadItems, ReadMembers, ReadNumber, ReadString, SkipSpace, StartsWith;
  }

  lemma ReadsObject(ws: bool, inside: JsString)
    ensures
      ReadValue(ws, [OPEN_OBJECT] + inside) ==
        var s := SkipSpace(ws, inside);
        if Is(s, 0, '}') then Some((Obj([]), s[1..]))
        else
          match ReadMembers(ws, inside)
          case None => None
          case Some((fields, rest)) => Some((Obj(fields), rest))
  {
    var t := [OPEN_OBJECT] + inside;
    NoSpace(ws, t);
    NoLiteral(t);
    assert t[1..] == inside;
    hide ReadItems, ReadMembers, ReadNumber, ReadString, SkipSpace, StartsWith;
  }

  lemma ReadsLastItem(ws: bool, t: JsString, v: Json, x: JsString)
    requires ReadValue(ws, t) == Some((v, [CLOSE_ARRAY] + x))
    ensures ReadItems(ws, t) == Some(([v], x))
  {
    NoSpace(ws, [CLOSE_ARRAY] + x);
    assert ([CLOSE_ARRAY] + x)[1..] == x;
    hide ReadValue, SkipSpace;
  }

  lemma ReadsItem(ws: bool, t: JsString, v: Json, more: JsString, items: seq<Json>, x: JsString)
    requires ReadValue(ws, t) == Some((v, [COMMA] + more)) && ReadItems(ws, more) == Some((items, x))
    ensures ReadItems(ws, t) == Some(([v] + items, x))
  {
    NoSpace(ws, [COMMA] + more);
    assert ([COMMA] + more)[1..] == more;
    hide ReadValue, SkipSpace;
  }

  lemma ReadsLastMember(ws: bool, t: JsString, key: JsString, afterColon: JsString, v: Json, x: JsString)
    requires t != [] && t[0] > 0x20 && ReadString(t) == Some((key, [COLON] + afterColon))
    requires ReadValue(ws, afterColon) == Some((v, [CLOSE_OBJECT] + x))
    ensures ReadMembers(ws, t) == Some(([Field(key, v)], x))
  {
    NoSpace(ws, t);
    NoSpace(ws, [COLON] + afterColon);
    NoSpace(ws, [CLOSE_OBJECT] + x);
    assert ([COLON] + afterColon)[1..] == afterColon && ([CLOSE_OBJECT] + x)[1..] == x;
    hide ReadValue, ReadString, SkipSpace;
  }

  lemma ReadsMember(
    ws: bool, t: JsString, key: JsString, afterColon: JsString, v: Json, more: JsString, fields: seq<Field>,
    x: JsString)
    requires t != [] && t[0] > 0x20 && ReadString(t) == Some((key, [COLON] + afterColon))
    requires ReadValue(ws, afterColon) == Some((v, [COMMA] + more)) && ReadMembers(ws, more) == Some((fields, x))
    ensures ReadMembers(ws, t) == Some(([Field(key, v)] + fields, x))
  {
    NoSpace(ws, t);
    NoSpace(ws, [COLON] + afterColon);
    NoSpace(ws, [COMMA] + more);
    assert ([COLON] + afterColon)[1..] == afterColon && ([COMMA] + more)[1..] == more;
    hide ReadValue, ReadString, SkipSpace;
  }

  /* Each kind of value */

  lemma LiteralReadsBack(ws: bool, v: Json, x: JsString)
    requires v.Null? || v.Bool?
    ensures ReadAs(ReadValue(ws, StableStringify(v) + x), v, x)
  {
    var p := StableStringify(v);
    var t := p + x;
    LiteralStarts(v, x);
    NoSpace(ws, t);
    assert t[|p|..] == x;
    hide StartsWith, SkipSpace, ReadItems, ReadMembers, ReadNumber, ReadString;
  }

  lemma LiteralStarts(v: Json, x: JsString)
    requires v.Null? || v.Bool?
    ensures
      var t := StableStringify(v) + x;
      && t != [] && t[0] > 0x20
      && (StartsWith(t, "null") <==> v.Null?)
      && (StartsWith(t, "true") <==> v == Bool(true)) && (StartsWith(t, "false") <==> v == Bool(false))
    ensures |StableStringify(v)| == if v == Bool(false) then 5 else 4
  {
    var t := StableStringify(v) + x;
    assert "null"[0] == 'n' && "true"[0] == 't' && "false"[0] == 'f';
    assert t[0] == StableStringify(v)[0];
  }

  lemma NumberValueReadsBack(ws: bool, n: SafeInt, x: JsString)
    requires Stops(x)
    ensures ReadAs(ReadValue(ws, StableStringify(Num(n)) + x), Num(n), x)
  {
    hide Number, ReadNumber, StartsWith, SkipSpace, ReadItems, ReadMembers, ReadString;
    var t := Number(n) + x;
    NumberReadsBack(n, x);
    NumberStart(n);
    assert t[0] == Number(n)[0];
    NoSpace(ws, t);
    NoLiteral(t);
  }

  lemma StringValueReadsBack(ws: bool, s: JsString, x: JsString)
    ensures ReadAs(ReadValue(ws, StableStringify(Str(s)) + x), Str(s), x)
  {
    hide ReadNumber, StartsWith, SkipSpace, ReadItems, ReadMembers, ReadString, EscapeAll;
    var t := Quoted(s) + x;
    QuotedReadsBack(s, x);
    assert t[0] == QUOTE;
    NoSpace(ws, t);
    NoLiteral(t);
  }

  lemma {:induction false} ArrayReadsBack(ws: bool, v: Json, x: JsString)
    requires v.Arr? && WellFormed(v)
    ensures ReadAs(ReadValue(ws, StableStringify(v) + x), v, x)
    decreases v, 1
  {
    hide ReadValue, ReadItems, StableStringify, PrintItems, SkipSpace;
    var inside := PrintItems(v.items) + ([CLOSE_ARRAY] + x);
    ArrayText(v, x);
    ReadsArray(ws, inside);
    if v.items == [] {
      assert inside[1..] == x;
      NoSpace(ws, inside);
    } else {
      ItemsReadBack(ws, v.items, x);
      ItemsStart(v.items, x);
      NoSpace(ws, inside);
    }
  }

  lemma ArrayText(v: Json, x: JsString)
    requires v.Arr?
    ensures StableStringify(v) + x == [OPEN_ARRAY] + (PrintItems(v.items) + ([CLOSE_ARRAY] + x))
    ensures v.items == [] ==> PrintItems(v.items) + ([CLOSE_ARRAY] + x) == [CLOSE_ARRAY] + x
  {
  }

  lemma ItemsStart(items: seq<Json>, x: JsString)
    requires items != []
    ensures
      var t := PrintItems(items) + ([CLOSE_ARRAY] + x);
      t != [] && t[0] > 0x20 && t[0] != CLOSE_ARRAY
  {
    FirstUnit(items[0]);
    ItemsUnfold(items, [CLOSE_ARRAY] + x);
    hide StableStringify, PrintItems, ItemsRest;
  }

  /** The reader's items are the printed ones, one by one. */
  ghost predicate ItemsReadAs(r: Option<(seq<Json>, JsString)>, items: seq<Json>, x: JsString) {
    && r.Some? && r.value.1 == x && |r.value.0| == |items|
    && forall i | 0 <= i < |items| :: Same(r.value.0[i], items[i]) && KeysInOrder(r.value.0[i])
  }

  lemma {:induction false} ItemsReadBack(ws: bool, items: seq<Json>, x: JsString)
    requires items != [] && forall i | 0 <= i < |items| :: WellFormed(items[i])
    ensures ItemsReadAs(ReadItems(ws, PrintItems(items) + ([CLOSE_ARRAY] + x)), items, x)
    decreases items, 0
  {
    hide StableStringify, PrintItems, ItemsRest, Same, KeysInOrder, ReadValue, ReadItems, WellFormed, Stops;
    var tail := [CLOSE_ARRAY] + x;
    var t, rest := PrintItems(items) + tail, ItemsRest(items, tail);
    ItemsUnfold(items, tail);
    ItemsRestIs(items, tail);
    ReadsBack(ws, items[0], rest);
    var v := ReadValue(ws, t).value.0;
    if |items| == 1 {
      ReadsLastItem(ws, t, v, x);
    } else {
      ItemsReadBack(ws, items[1..], x);
      var more := PrintItems(items[1..]) + tail;
      ReadsItem(ws, t, v, more, ReadItems(ws, more).value.0, x);
    }
  }

  lemma {:induction false} ObjectReadsBack(ws: bool, v: Json, x: JsString)
    requires v.Obj? && WellFormed(v)
    ensures ReadAs(ReadValue(ws, StableStringify(v) + x), v, x)
    decreases v, 1
  {
    var keys := SortedKeys(v.fields);
    forall k ensures k in keys <==> HasKey(v.fields, k) {
      SortedKeysHas(v.fields, k);
    }
    SortedKeysAscend(v.fields);
    hide StableStringify, PrintMembers, SortedKeys, ReadMembers, ReadValue, Ascending, HasKey, SkipSpace;
    var inside := PrintMembers(v, keys) + ([CLOSE_OBJECT] + x);
    ObjectText(v, x);
    ReadsObject(ws, inside);
    if keys == [] {
      assert inside[1..] == x;
      NoSpace(ws, inside);
      NoFields(v.fields);
    } else {
      MembersReadBack(ws, v, keys, x);
      MembersUnfold(v, keys, [CLOSE_OBJECT] + x);
      hide Same, KeysInOrder;
      NoSpace(ws, inside);
      MembersAreSame(ReadMembers(ws, inside).value.0, v, keys);
    }
  }

  lemma ObjectText(v: Json, x: JsString)
    requires v.Obj? && forall k | k in SortedKeys(v.fields) :: HasKey(v.fields, k)
    ensures StableStringify(v) + x ==
            [OPEN_OBJECT] + (PrintMembers(v, SortedKeys(v.fields)) + ([CLOSE_OBJECT] + x))
    ensures SortedKeys(v.fields) == [] ==>
            PrintMembers(v, SortedKeys(v.fields)) + ([CLOSE_OBJECT] + x) == [CLOSE_OBJECT] + x
  {
    hide SortedKeys;
  }

  lemma NoFields(fields: seq<Field>)
    requires SortedKeys(fields) == []
    ensures fields == []
  {
    if fields != [] {
      SortedKeysHas(fields, fields[0].key);
    }
  }

  /** The reader's fields have the printed keys and the values of those keys. */
  ghost predicate MembersReadAs(fields: seq<Field>, v: Json, keys: seq<JsString>)
    requires v.Obj? && forall k | k in keys :: HasKey(v.fields, k)
  {
    && |fields| == |keys|
    && forall i | 0 <= i < |keys| ::
      fields[i].key == keys[i] && Same(fields[i].value, Get(v.fields, keys[i])) && KeysInOrder(fields[i].value)
  }

  lemma {:induction false} MembersReadBack(ws: bool, v: Json, keys: seq<JsString>, x: JsString)
    requires v.Obj? && WellFormed(v) && keys != [] && forall k | k in keys :: HasKey(v.fields, k)
    ensures
      var r := ReadMembers(ws, PrintMembers(v, keys) + ([CLOSE_OBJECT] + x));
      r.Some? && r.value.1 == x && MembersReadAs(r.value.0, v, keys)
    decreases v, 0, |keys|
  {
    hide StableStringify, PrintMembers, MembersRest, Same, KeysInOrder, ReadValue, ReadString, ReadMembers, WellFormed;
    hide Quoted, Get, HasKey, Stops;
    var tail, value := [CLOSE_OBJECT] + x, Get(v.fields, keys[0]);
    var rest := MembersRest(v, keys, tail);
    var afterKey := [COLON] + (StableStringify(value) + rest);
    MembersUnfold(v, keys, tail);
    MembersRestIs(v, keys, tail);
    QuotedReadsBack(keys[0], afterKey);
    GetSmaller(v, keys[0]);
    GetWellFormed(v.fields, keys[0]);
    ReadsBack(ws, value, rest);
    var t, afterColon := PrintMembers(v, keys) + tail, StableStringify(value) + rest;
    var w := ReadValue(ws, afterColon).value.0;
    if |keys| == 1 {
      ReadsLastMember(ws, t, keys[0], afterColon, w, x);
    } else {
      var more := PrintMembers(v, keys[1..]) + tail;
      MembersReadBack(ws, v, keys[1..], x);
      ReadsMember(ws, t, keys[0], afterColon, w, more, ReadMembers(ws, more).value.0, x);
      MembersCons(keys[0], w, ReadMembers(ws, more).value.0, v, keys);
    }
  }

  lemma MembersCons(key: JsString, w: Json, fields: seq<Field>, v: Json, keys: seq<JsString>)
    requires v.Obj? && keys != [] && forall k | k in keys :: HasKey(v.fields, k)
    requires key == keys[0] && Same(w, Get(v.fields, key)) && KeysInOrder(w) && MembersReadAs(fields, v, keys[1..])
    ensures MembersReadAs([Field(key, w)] + fields, v, keys)
  {
    hide Same, KeysInOrder, Get, HasKey;
    forall i | 0 < i < |keys| ensures keys[i] == keys[1..][i - 1] {
    }
  }

  lemma MembersAreSame(fields: seq<Field>, v: Json, keys: seq<JsString>)
    requires v.Obj? && forall k :: k in keys <==> HasKey(v.fields, k)
    requires MembersReadAs(fields, v, keys) && Ascending(keys)
    ensures Same(Obj(fields), v) && KeysInOrder(Obj(fields))
  {
    forall i | 0 <= i < |v.fields| ensures HasKey(fields, v.fields[i].key) {
      assert v.fields[i].key in keys;
      var j :| 0 <= j < |keys| && keys[j] == v.fields[i].key;
      assert fields[j].key == keys[j];
    }
    forall i, j | 0 <= i < j < |fields| ensures Before(fields[i].key, fields[j].key) {
      LessIsBefore(keys[i], keys[j]);
    }
    hide Before, Less;
    forall i | 0 <= i < |fields| ensures HasKey(v.fields, fields[i].key) {
      assert keys[i] in keys;
    }
  }

  /** A printed text as a whole is a JSON text of the value, and has no white space between its tokens. */
  lemma TextReadsBack(ws: bool, v: Json)
    requires WellFormed(v)
    ensures
      var r := Read(ws, StableStringify(v));
      r.Some? && Same(r.value, v) && KeysInOrder(r.value)
  {
    ReadsBack(ws, v, []);
    assert StableStringify(v) + [] == StableStringify(v);
  }

  /** Two values that are the same as a third are the same. */
  lemma {:induction false} SameAsThird(w: Json, a: Json, b: Json)
    requires Same(w, a) && Same(w, b) && WellFormed(a)
    ensures Same(a, b)
    decreases w, 1
  {
    match w {
      case Arr(items) =>
        forall i | 0 <= i < |items| ensures Same(a.items[i], b.items[i]) {
          SameAsThird(items[i], a.items[i], b.items[i]);
        }
      case Obj(fields) => SameObjects(fields, a, b);
      case _ =>
    }
  }

  lemma {:induction false} SameObjects(fields: seq<Field>, a: Json, b: Json)
    requires Same(Obj(fields), a) && Same(Obj(fields), b) && WellFormed(a)
    ensures Same(a, b)
    decreases Obj(fields), 0
  {
    assert a.Obj? && b.Obj?;
    forall i | 0 <= i < |a.fields|
      ensures HasKey(b.fields, a.fields[i].key) && Same(a.fields[i].value, Get(b.fields, a.fields[i].key))
    {
      assert HasKey(fields, a.fields[i].key);
      var j :| 0 <= j < |fields| && fields[j].key == a.fields[i].key;
      GetUnique(a.fields, i);
      SameAsThird(fields[j].value, a.fields[i].value, Get(b.fields, fields[j].key));
    }
    forall i | 0 <= i < |b.fields| ensures HasKey(a.fields, b.fields[i].key) {
      assert HasKey(fields, b.fields[i].key);
      var j :| 0 <= j < |fields| && fields[j].key == b.fields[i].key;
      assert HasKey(a.fields, fields[j].key);
    }
  }

  /**
   * Two texts that start with printed values and go on with something that can follow a value
   * start with the same value and go on alike.
   */
  lemma PrintInjective(a: Json, b: Json, x: JsString, y: JsString)
    requires WellFormed(a) && WellFormed(b) && Stops(x) && Stops(y)
    requires StableStringify(a) + x == StableStringify(b) + y
    ensures Same(a, b) && x == y
  {
    ReadsBack(false, a, x);
    ReadsBack(false, b, y);
    hide Same, StableStringify, ReadValue;
    SameAsThird(ReadValue(false, StableStringify(a) + x).value.0, a, b);
  }

  lemma GetSmaller(v: Json, k: JsString)
    requires v.Obj? && HasKey(v.fields, k)
    ensures Get(v.fields, k) < v
  {
  }

  lemma GetWellFormed(fields: seq<Field>, k: JsString)
    requires HasKey(fields, k)
    ensures WellFormed(Obj(fields)) ==> WellFormed(Get(fields, k))
  {
  }

  /** stableStringify is canonical and loses nothing: equal texts are exactly equal values up to key order. */
  lemma Canonical(a: Json, b: Json)
    requires WellFormed(a) && WellFormed(b)
    ensures StableStringify(a) == StableStringify(b) <==> Same(a, b)
  {
    if StableStringify(a) == StableStringify(b) {
      assert StableStringify(a) + [] == StableStringify(b) + [];
      PrintInjective(a, b, [], []);
    }
    if Same(a, b) {
      SamePrintsAlike(a, b);
    }
  }

  /* The printed text is Unicode: hashing its UTF-8 encoding loses nothing. */

  /** Every high surrogate is followed by a low one, and every low one follows a high one. */
  predicate PairedFrom(afterHigh: bool, s: JsString)
    decreases s
  {
    if s == [] then !afterHigh
    else if afterHigh then LowSurrogate(s[0]) && PairedFrom(false, s[1..])
    else !LowSurrogate(s[0]) && PairedFrom(HighSurrogate(s[0]), s[1..])
  }

  predicate NoSurrogates(s: JsString) {
    forall i | 0 <= i < |s| :: s[i] < 0xD800
  }

  lemma {:induction false} PlainIsPaired(s: JsString)
    requires NoSurrogates(s)
    ensures PairedFrom(false, s)
  {
    if s == [] {
    } else {
      PlainIsPaired(s[1..]);
    }
  }

  lemma {:induction false} PairedConcat(afterHigh: bool, a: JsString, b: JsString)
    requires PairedFrom(afterHigh, a) && PairedFrom(false, b)
    ensures PairedFrom(afterHigh, a + b)
    decreases a
  {
    if a == [] {
      assert a + b == b;
    } else {
      assert (a + b)[1..] == a[1..] + b;
      PairedConcat(!afterHigh && HighSurrogate(a[0]), a[1..], b);
    }
  }

  /** One unit as written: in state `p` it is part of a pair, or it stands for itself or an escape. */
  lemma EscapePaired(p: bool, u: Unit, n: bool, rest: JsString)
    requires PairedFrom(HighSurrogate(u) && n, rest)
    ensures PairedFrom(p && LowSurrogate(u), Escape(p, u, n) + rest)
  {
    var first := Escape(p, u, n);
    if first == [u] {
      assert (first + rest)[1..] == rest;
    } else {
      PlainIsPaired(first);
      hide Escape;
      PairedConcat(false, first, rest);
    }
  }

  /** A low surrogate is written as it is exactly when the high one before it was. */
  lemma {:induction false} EscapeAllPaired(p: bool, s: JsString)
    ensures PairedFrom(p && s != [] && LowSurrogate(s[0]), EscapeAll(p, s))
    decreases s
  {
    hide PairedFrom, Escape;
    if s == [] {
      NothingPaired();
    } else {
      EscapeAllPaired(HighSurrogate(s[0]), s[1..]);
      EscapePaired(p, s[0], |s| > 1 && LowSurrogate(s[1]), EscapeAll(HighSurrogate(s[0]), s[1..]));
    }
  }

  lemma NothingPaired()
    ensures PairedFrom(false, [])
  {
  }

  lemma QuotedPaired(s: JsString)
    ensures PairedFrom(false, Quoted(s))
  {
    EscapeAllPaired(false, s);
    PlainIsPaired([QUOTE]);
    PairedConcat(false, [QUOTE], EscapeAll(false, s));
    PairedConcat(false, [QUOTE] + EscapeAll(false, s), [QUOTE]);
  }

  lemma Enclosed(open: Unit, s: JsString, close: Unit)
    requires open < 0xD800 && close < 0xD800 && PairedFrom(false, s)
    ensures PairedFrom(false, [open] + s + [close])
  {
    PlainIsPaired([open]);
    PlainIsPaired([close]);
    PairedConcat(false, [open], s);
    PairedConcat(false, [open] + s, [close]);
  }

  lemma Separate(a: JsString, u: Unit, b: JsString)
    requires u < 0xD800 && PairedFrom(false, a) && PairedFrom(false, b)
    ensures PairedFrom(false, a + [u] + b)
  {
    PlainIsPaired([u]);
    PairedConcat(false, a, [u]);
    PairedConcat(false, a + [u], b);
  }

  /** No printed text holds an unpaired surrogate, whatever strings the value holds. */
  lemma {:induction false} TextIsUnicode(v: Json)
    ensures PairedFrom(false, StableStringify(v))
    decreases v, 1
  {
    hide PairedFrom, Quoted, PrintItems, PrintMembers;
    match v
    case Null => PlainIsPaired(StableStringify(v));
    case Bool(_) => PlainIsPaired(StableStringify(v));
    case Num(_) => PlainIsPaired(StableStringify(v));
    case Str(s) => QuotedPaired(s);
    case Arr(items) =>
      ItemsPaired(items);
      Enclosed(OPEN_ARRAY, PrintItems(items), CLOSE_ARRAY);
    case Obj(fields) =>
      forall k ensures k in SortedKeys(fields) <==> HasKey(fields, k) {
        SortedKeysHas(fields, k);
      }
      MembersPaired(v, SortedKeys(fields));
      Enclosed(OPEN_OBJECT, PrintMembers(v, SortedKeys(fields)), CLOSE_OBJECT);
  }

  lemma {:induction false} ItemsPaired(items: seq<Json>)
    ensures PairedFrom(false, PrintItems(items))
    decreases items, 0
  {
    hide StableStringify;
    if items == [] {
    } else {
      TextIsUnicode(items[0]);
      if |items| > 1 {
        ItemsPaired(items[1..]);
        hide PairedFrom;
        Separate(StableStringify(items[0]), COMMA, PrintItems(items[1..]));
      }
    }
  }

  lemma {:induction false} MembersPaired(v: Json, keys: seq<JsString>)
    requires v.Obj? && forall k | k in keys :: HasKey(v.fields, k)
    ensures PairedFrom(false, PrintMembers(v, keys))
    decreases v, 0, |keys|
  {
    hide StableStringify, Quoted;
    if keys == [] {
    } else {
      var value := Get(v.fields, keys[0]);
      GetSmaller(v, keys[0]);
      QuotedPaired(keys[0]);
      TextIsUnicode(value);
      Separate(Quoted(keys[0]), COLON, StableStringify(value));
      if |keys| > 1 {
        MembersPaired(v, keys[1..]);
        hide PairedFrom;
        Separate(Quoted(keys[0]) + [COLON] + StableStringify(value), COMMA, PrintMembers(v, keys[1..]));
      }
    }
  }
}
