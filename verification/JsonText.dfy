/**
 Text as UTF-16 code units, JSON values, and string quoting as `JSON.stringify` does it
 (section 7 of RFC 8259, with lone surrogates escaped).
 */
module JsonText {
  import opened Prelude

  /** A UTF-16 code unit, as `charCodeAt` returns it. */
  type Unit = u: int | 0 <= u < 0x1_0000
  type Text = seq<Unit>

  /** A finite IEEE 754 double by its bit fields; both zeros are values. */
  datatype Double = Double(negative: bool, exponent: nat, fraction: nat) {
    /** The value `JSON.parse` reads back: negative zero is printed as `0`. */
    function Printed(): Double {
      if exponent == 0 && fraction == 0 then Double(false, 0, 0) else this
    }
  }

  datatype Json =
    | Null
    | Bool(b: bool)
    | Num(d: Double)
    | Str(s: Text)
    | Arr(items: seq<Json>)
    | Obj(entries: seq<Entry>)

  /** One own property, in `Object.entries` order. */
  datatype Entry = Entry(key: Text, value: Json)

  ghost predicate DistinctKeys(es: seq<Entry>) {
    forall i, j :: 0 <= i < j < |es| ==> es[i].key != es[j].key
  }

  /** Property names are distinct in every object, at every depth. */
  ghost predicate WellFormed(v: Json) {
    match v
    case Arr(items) => forall x | x in items :: WellFormed(x)
    case Obj(es) => DistinctKeys(es) && forall e | e in es :: WellFormed(e.value)
    case _ => true
  }

  /** Equal up to the order of properties at every depth, and up to the sign of zero. */
  ghost predicate Same(v: Json, w: Json) {
    match v
    case Null => w.Null?
    case Bool(b) => w == Bool(b)
    case Num(d) => w.Num? && d.Printed() == w.d.Printed()
    case Str(s) => w == Str(s)
    case Arr(xs) =>
      w.Arr? && |xs| == |w.items| && forall i | 0 <= i < |xs| :: Same(xs[i], w.items[i])
    case Obj(es) =>
      w.Obj? && |es| == |w.entries| &&
      forall e | e in es :: exists f | f in w.entries :: e.key == f.key && Same(e.value, f.value)
  }

  /** Seven-bit characters as code units. */
  function Ascii(s: string): Text
    requires forall i | 0 <= i < |s| :: s[i] as int < 0x80
  {
    seq(|s|, i requires 0 <= i < |s| => s[i] as Unit)
  }

  const QUOTE: Unit := 0x22
  const BACKSLASH: Unit := 0x5C

  predicate IsHigh(u: Unit) { 0xD800 <= u < 0xDC00 }
  predicate IsLow(u: Unit) { 0xDC00 <= u < 0xE000 }

  function HexDigit(n: int): (u: Unit)
    requires 0 <= n < 16
  {
    if n < 10 then 0x30 + n else 0x57 + n
  }

  function HexValue(u: Unit): Option<int> {
    if 0x30 <= u < 0x3A then Some(u - 0x30)
    else if 0x61 <= u < 0x67 then Some(u - 0x57)
    else None
  }

  /** Four hexadecimal digits, most significant first. */
  function Hex4(u: Unit): Text {
    var q := u / 16;
    var p := q / 16;
    [HexDigit(p / 16), HexDigit(p % 16), HexDigit(q % 16), HexDigit(u % 16)]
  }

  /** The second character of a two-character escape, if the code unit has one. */
  function ShortEscape(u: Unit): Option<Unit> {
    if u == 0x08 then Some(0x62)
    else if u == 0x09 then Some(0x74)
    else if u == 0x0A then Some(0x6E)
    else if u == 0x0C then Some(0x66)
    else if u == 0x0D then Some(0x72)
    else if u == QUOTE then Some(QUOTE)
    else if u == BACKSLASH then Some(BACKSLASH)
    else None
  }

  function ReadShortEscape(u: Unit): Option<Unit> {
    if u == 0x62 then Some(0x08)
    else if u == 0x74 then Some(0x09)
    else if u == 0x6E then Some(0x0A)
    else if u == 0x66 then Some(0x0C)
    else if u == 0x72 then Some(0x0D)
    else if u == QUOTE then Some(QUOTE)
    else if u == BACKSLASH then Some(BACKSLASH)
    else if u == 0x2F then Some(0x2F)
    else None
  }

  function EscapeUnit(u: Unit): Text {
    match ShortEscape(u)
    case Some(c) => [BACKSLASH, c]
    case None =>
      if u < 0x20 || IsHigh(u) || IsLow(u) then [BACKSLASH, 0x75] + Hex4(u) else [u]
  }

  /** A surrogate pair is copied; a lone surrogate is escaped. */
  function QuoteBody(s: Text): Text {
    if s == [] then []
    else if |s| >= 2 && IsHigh(s[0]) && IsLow(s[1]) then [s[0], s[1]] + QuoteBody(s[2..])
    else EscapeUnit(s[0]) + QuoteBody(s[1..])
  }

  function Quote(s: Text): Text {
    [QUOTE] + QuoteBody(s) + [QUOTE]
  }

  /** No control character, and every surrogate in a pair: text that any JSON reader accepts. */
  predicate LegalUnits(t: Text)
    decreases |t|
  {
    if t == [] then true
    else if |t| >= 2 && IsHigh(t[0]) && IsLow(t[1]) then LegalUnits(t[2..])
    else t[0] >= 0x20 && !IsHigh(t[0]) && !IsLow(t[0]) && LegalUnits(t[1..])
  }

  lemma {:induction false} LegalAppend(a: Text, b: Text)
    requires LegalUnits(a) && LegalUnits(b)
    ensures LegalUnits(a + b)
    decreases |a|
  {
    if a == [] {
      assert a + b == b;
    } else {
      var n := if |a| >= 2 && IsHigh(a[0]) && IsLow(a[1]) then 2 else 1;
      LegalAppend(a[n..], b);
      assert (a + b)[n..] == a[n..] + b;
    }
  }

  lemma LegalEscape(u: Unit)
    ensures LegalUnits(EscapeUnit(u))
  {
    if ShortEscape(u).Some? {
      LegalPair(BACKSLASH, ShortEscape(u).value);
    } else if u < 0x20 || IsHigh(u) || IsLow(u) {
      var h := Hex4(u);
      LegalPair(BACKSLASH, 0x75);
      LegalPair(h[0], h[1]);
      LegalPair(h[2], h[3]);
      LegalAppend([h[0], h[1]], [h[2], h[3]]);
      assert h == [h[0], h[1]] + [h[2], h[3]];
      LegalAppend([BACKSLASH, 0x75], h);
    } else {
      assert [u][1..] == [];
    }
  }

  lemma LegalPair(u: Unit, v: Unit)
    requires 0x20 <= u < 0xD800 && 0x20 <= v < 0xD800
    ensures LegalUnits([u, v])
  {
    assert [u, v][1..] == [v] && [v][1..] == [];
  }

  /** Quoting any text, lone surrogates and control characters included, gives legal units only. */
  lemma {:induction false} QuotedIsLegal(s: Text)
    ensures LegalUnits(QuoteBody(s))
    decreases |s|
  {
    if s == [] {
    } else if |s| >= 2 && IsHigh(s[0]) && IsLow(s[1]) {
      QuotedIsLegal(s[2..]);
      assert ([s[0], s[1]] + QuoteBody(s[2..]))[2..] == QuoteBody(s[2..]);
    } else {
      QuotedIsLegal(s[1..]);
      LegalEscape(s[0]);
      LegalAppend(EscapeUnit(s[0]), QuoteBody(s[1..]));
    }
  }

  /**
   What is escaped, and how: five control characters, the quote and the backslash in two characters,
   other control characters and lone surrogates in six, and nothing else.
   */
  lemma EscapeForms(u: Unit)
    ensures EscapeUnit(u) == [u] <==> u >= 0x20 && u != 0x22 && u != 0x5C && !(0xD800 <= u < 0xE000)
    ensures |EscapeUnit(u)| == 2 <==>
      u == 0x08 || u == 0x09 || u == 0x0A || u == 0x0C || u == 0x0D || u == 0x22 || u == 0x5C
    ensures |EscapeUnit(u)| == 1 || |EscapeUnit(u)| == 2 || |EscapeUnit(u)| == 6
  {
    hide HexDigit;
  }

  /** How the escapes are spelled, in lower-case hexadecimal. */
  lemma EscapeSpellings()
    ensures EscapeUnit(0x08) == Ascii("\\b") && EscapeUnit(0x09) == Ascii("\\t") && EscapeUnit(0x0A) == Ascii("\\n")
    ensures EscapeUnit(0x0C) == Ascii("\\f") && EscapeUnit(0x0D) == Ascii("\\r")
    ensures EscapeUnit(0x22) == Ascii("\\\"") && EscapeUnit(0x5C) == Ascii("\\\\")
    ensures EscapeUnit(0x1F) == Ascii("\\u001f")
  {
    assert Hex4(0x1F) == [0x30, 0x30, 0x31, 0x66];
  }

  /** One possibly escaped code unit and what follows it. */
  function ReadUnit(t: Text): (r: Option<(Unit, Text)>)
    ensures r.Some? ==> |r.value.1| < |t|
  {
    if t == [] then None
    else if t[0] != BACKSLASH then Some((t[0], t[1..]))
    else if |t| < 2 then None
    else if t[1] == 0x75 then
      if |t| < 6 then None
      else
        match (HexValue(t[2]), HexValue(t[3]), HexValue(t[4]), HexValue(t[5]))
        case (Some(a), Some(b), Some(c), Some(d)) =>
          var u := ((a * 16 + b) * 16 + c) * 16 + d;
          if 0 <= u < 0x1_0000 then Some((u, t[6..])) else None
        case _ => None
    else
      match ReadShortEscape(t[1])
      case Some(u) => Some((u, t[2..]))
      case None => None
  }

  /** The contents of a quoted string whose opening quote has been read, and what follows it. */
  function ReadString(t: Text): (r: Option<(Text, Text)>)
    ensures r.Some? ==> |r.value.1| < |t|
    decreases |t|
  {
    if t == [] then None
    else if t[0] == QUOTE then Some(([], t[1..]))
    else
      match ReadUnit(t)
      case None => None
      case Some((u, rest)) =>
        match ReadString(rest)
        case None => None
        case Some((s, after)) => Some(([u] + s, after))
  }

  lemma ReadDigit(n: int)
    requires 0 <= n < 16
    ensures HexValue(HexDigit(n)) == Some(n)
  {
  }

  /** A `\u` escape reads back. */
  lemma ReadHex4(u: Unit, rest: Text)
    ensures ReadUnit([BACKSLASH, 0x75] + Hex4(u) + rest) == Some((u, rest))
  {
    var q := u / 16;
    var p := q / 16;
    ReadDigit(p / 16);
    ReadDigit(p % 16);
    ReadDigit(q % 16);
    ReadDigit(u % 16);
    var t := [BACKSLASH, 0x75] + Hex4(u) + rest;
    assert t[2] == HexDigit(p / 16) && t[3] == HexDigit(p % 16);
    assert t[4] == HexDigit(q % 16) && t[5] == HexDigit(u % 16);
    assert t[6..] == rest;
  }

  /** An escaped code unit reads back, whatever follows it. */
  lemma ReadEscapedUnit(u: Unit, rest: Text)
    ensures ReadUnit(EscapeUnit(u) + rest) == Some((u, rest))
    ensures (EscapeUnit(u) + rest)[0] != QUOTE
  {
    if ShortEscape(u).Some? {
      assert (EscapeUnit(u) + rest)[2..] == rest;
    } else if u < 0x20 || IsHigh(u) || IsLow(u) {
      hide Hex4;
      ReadHex4(u, rest);
    } else {
      ReadPlainUnit(u, rest);
    }
  }

  /** One unescaped code unit reads as itself. */
  lemma ReadPlainUnit(u: Unit, rest: Text)
    requires u != QUOTE && u != BACKSLASH
    ensures ReadUnit([u] + rest) == Some((u, rest))
  {
    assert ([u] + rest)[1..] == rest;
  }

  lemma ReadStringStep(t: Text, u: Unit, rest: Text, s: Text, after: Text)
    requires t != [] && t[0] != QUOTE
    requires ReadUnit(t) == Some((u, rest))
    requires ReadString(rest) == Some((s, after))
    ensures ReadString(t) == Some(([u] + s, after))
  {
  }

  /** Quoting is self-delimiting and reading it back loses nothing, for every text. */
  lemma {:induction false} ReadQuoted(s: Text, rest: Text)
    ensures ReadString(QuoteBody(s) + [QUOTE] + rest) == Some((s, rest))
    decreases |s|
  {
    hide ReadUnit, EscapeUnit;
    if s == [] {
      ReadEnd(rest);
    } else if |s| >= 2 && IsHigh(s[0]) && IsLow(s[1]) {
      ReadQuoted(s[2..], rest);
      ReadQuotedPair(s[0], s[1], s[2..], QuoteBody(s[2..]) + [QUOTE] + rest, rest);
      QuoteBodyPair(s, rest);
    } else {
      var t1 := QuoteBody(s[1..]) + [QUOTE] + rest;
      ReadQuoted(s[1..], rest);
      ReadEscapedUnit(s[0], t1);
      ReadStringStep(EscapeUnit(s[0]) + t1, s[0], t1, s[1..], rest);
      QuoteBodyStep(s, rest);
    }
  }

  lemma ReadEnd(rest: Text)
    ensures ReadString(QuoteBody([]) + [QUOTE] + rest) == Some(([], rest))
  {
    assert [] + [QUOTE] + rest == [QUOTE] + rest;
    assert ([QUOTE] + rest)[1..] == rest;
  }

  lemma QuoteBodyPair(s: Text, rest: Text)
    requires |s| >= 2 && IsHigh(s[0]) && IsLow(s[1])
    ensures s == [s[0]] + ([s[1]] + s[2..])
    ensures QuoteBody(s) + [QUOTE] + rest
         == [s[0]] + ([s[1]] + (QuoteBody(s[2..]) + [QUOTE] + rest))
  {
    SplitPair(s);
    JoinPair(s[0], s[1], QuoteBody(s[2..]), [QUOTE], rest);
  }

  lemma SplitPair(s: Text)
    requires |s| >= 2
    ensures s == [s[0]] + ([s[1]] + s[2..])
  {
  }

  lemma JoinPair(hi: Unit, lo: Unit, body: Text, quote: Text, rest: Text)
    ensures [hi, lo] + body + quote + rest == [hi] + ([lo] + (body + quote + rest))
  {
  }

  lemma QuoteBodyStep(s: Text, rest: Text)
    requires s != [] && !(|s| >= 2 && IsHigh(s[0]) && IsLow(s[1]))
    ensures s == [s[0]] + s[1..]
    ensures QuoteBody(s) + [QUOTE] + rest
         == EscapeUnit(s[0]) + (QuoteBody(s[1..]) + [QUOTE] + rest)
  {
    hide EscapeUnit;
    var body := QuoteBody(s[1..]);
    assert QuoteBody(s) == EscapeUnit(s[0]) + body;
    hide QuoteBody;
    Associate(EscapeUnit(s[0]), body, [QUOTE], rest);
  }

  lemma Associate(a: Text, b: Text, c: Text, d: Text)
    ensures (a + b) + c + d == a + (b + c + d)
  {
  }

  lemma Regroup(a: Text, b: Text, c: Text)
    ensures (a + b) + c == a + (b + c)
  {
  }

  lemma ReadQuotedPair(hi: Unit, lo: Unit, s: Text, t: Text, rest: Text)
    requires IsHigh(hi) && IsLow(lo)
    requires ReadString(t) == Some((s, rest))
    ensures ReadString([hi] + ([lo] + t)) == Some(([hi] + ([lo] + s), rest))
  {
    ReadPlainUnit(lo, t);
    ReadStringStep([lo] + t, lo, t, s, rest);
    ReadPlainUnit(hi, [lo] + t);
    ReadStringStep([hi] + ([lo] + t), hi, [lo] + t, [lo] + s, rest);
  }

  lemma QuoteReads(s: Text, rest: Text)
    ensures (Quote(s) + rest)[0] == QUOTE
    ensures ReadString((Quote(s) + rest)[1..]) == Some((s, rest))
  {
    assert (Quote(s) + rest)[1..] == QuoteBody(s) + [QUOTE] + rest;
    ReadQuoted(s, rest);
  }
}
