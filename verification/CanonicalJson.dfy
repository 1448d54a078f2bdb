/**
 The canonical JSON text that decides whether two idempotent requests agree. Keys are ordered by
 a comparator (`localeCompare` in the program), so the comparator is a parameter; so is the text
 of a number, which is only known to identify its value and to use the characters of numbers.
 */
module CanonicalJson {
  import opened Prelude
  import opened JsonText
  import opened Sorting

  datatype Style = Style(
    compareKeys: (Text, Text) -> int,
    numberText: Double -> Text,
    readNumber: Text -> Double)

  /** Digits, signs, the decimal point and the exponent mark. */
  predicate NumberUnit(u: Unit) {
    0x30 <= u < 0x3A || u == 0x2B || u == 0x2D || u == 0x2E || u == 0x65
  }

  /** Number text names the value, with one text for both zeros. */
  ghost predicate FaithfulNumbers(style: Style) {
    forall d: Double ::
      var t := style.numberText(d);
      && t != []
      && (forall i :: 0 <= i < |t| ==> NumberUnit(t[i]))
      && style.readNumber(t) == d.Printed()
      && t == style.numberText(d.Printed())
  }

  const NULL: Text := [0x6E, 0x75, 0x6C, 0x6C]
  const TRUE: Text := [0x74, 0x72, 0x75, 0x65]
  const FALSE: Text := [0x66, 0x61, 0x6C, 0x73, 0x65]
  const COMMA: Unit := 0x2C
  const COLON: Unit := 0x3A
  const OPEN_ARRAY: Unit := 0x5B
  const CLOSE_ARRAY: Unit := 0x5D
  const OPEN_OBJECT: Unit := 0x7B
  const CLOSE_OBJECT: Unit := 0x7D

  function EntryOrder(style: Style): (Entry, Entry) -> int {
    (a: Entry, b: Entry) => style.compareKeys(a.key, b.key)
  }

  function SortedEntries(es: seq<Entry>, style: Style): (r: seq<Entry>)
    ensures |r| == |es|
    ensures forall e :: e in r <==> e in es
  {
    SortMembers(es, EntryOrder(style));
    Sort(es, EntryOrder(style))
  }

  function Print(v: Json, style: Style): Text
    decreases v
  {
    match v
    case Null => NULL
    case Bool(b) => if b then TRUE else FALSE
    case Num(d) => style.numberText(d)
    case Str(s) => Quote(s)
    case Arr(items) =>
      [OPEN_ARRAY] + if items == [] then [CLOSE_ARRAY] else PrintItems(v, 0, style)
    case Obj(es) =>
      [OPEN_OBJECT] +
      if es == [] then [CLOSE_OBJECT] else PrintMembers(v, SortedEntries(es, style), style)
  }

  /** The items from index `i` on, comma-separated and closed. */
  function PrintItems(v: Json, i: nat, style: Style): Text
    requires v.Arr? && i < |v.items|
    decreases v, |v.items| - i
  {
    Print(v.items[i], style) +
    if i + 1 == |v.items| then [CLOSE_ARRAY] else [COMMA] + PrintItems(v, i + 1, style)
  }

  /** The given entries of `v`, comma-separated and closed. */
  function PrintMembers(v: Json, es: seq<Entry>, style: Style): Text
    requires v.Obj? && es != [] && forall e | e in es :: e in v.entries
    decreases v, |es|
  {
    assert es[0] in es;
    Quote(es[0].key) + [COLON] + Print(es[0].value, style) +
    if |es| == 1 then [CLOSE_OBJECT] else [COMMA] + PrintMembers(v, es[1..], style)
  }

  /** The value with the properties of every object in canonical order and one zero. */
  function Normal(v: Json, style: Style): Json
    decreases v
  {
    match v
    case Num(d) => Num(d.Printed())
    case Arr(items) => Arr(NormalItems(v, 0, style))
    case Obj(es) => Obj(NormalMembers(v, SortedEntries(es, style), style))
    case _ => v
  }

  function NormalItems(v: Json, i: nat, style: Style): (r: seq<Json>)
    requires v.Arr? && i <= |v.items|
    ensures |r| == |v.items| - i
    decreases v, |v.items| - i
  {
    if i == |v.items| then [] else [Normal(v.items[i], style)] + NormalItems(v, i + 1, style)
  }

  function NormalMembers(v: Json, es: seq<Entry>, style: Style): (r: seq<Entry>)
    requires v.Obj? && forall e | e in es :: e in v.entries
    ensures |r| == |es|
    decreases v, |es|
  {
    if es == [] then []
    else
      assert es[0] in es;
      [Entry(es[0].key, Normal(es[0].value, style))] + NormalMembers(v, es[1..], style)
  }

  /** Length of the longest prefix that looks like a number. */
  function NumberSpan(t: Text): (n: nat)
    ensures n <= |t|
  {
    if t != [] && NumberUnit(t[0]) then 1 + NumberSpan(t[1..]) else 0
  }

  /** Read one value from the front of a text. */
  function ParseValue(t: Text, style: Style): (r: Option<(Json, Text)>)
    ensures r.Some? ==> |r.value.1| < |t|
    decreases |t|, 0
  {
    if t == [] then None
    else if NULL <= t then Some((Json.Null, t[4..]))
    else if TRUE <= t then Some((Bool(true), t[4..]))
    else if FALSE <= t then Some((Bool(false), t[5..]))
    else if t[0] == QUOTE then
      match ReadString(t[1..])
      case None => None
      case Some((s, rest)) => Some((Str(s), rest))
    else if t[0] == OPEN_ARRAY then
      if |t| > 1 && t[1] == CLOSE_ARRAY then Some((Arr([]), t[2..]))
      else
        match ParseItems(t[1..], style)
        case None => None
        case Some((xs, rest)) => Some((Arr(xs), rest))
    else if t[0] == OPEN_OBJECT then
      if |t| > 1 && t[1] == CLOSE_OBJECT then Some((Obj([]), t[2..]))
      else
        match ParseMembers(t[1..], style)
        case None => None
        case Some((es, rest)) => Some((Obj(es), rest))
    else
      var n := NumberSpan(t);
      if n == 0 then None else Some((Num(style.readNumber(t[..n])), t[n..]))
  }

  function ParseItems(t: Text, style: Style): (r: Option<(seq<Json>, Text)>)
    ensures r.Some? ==> |r.value.1| < |t|
    decreases |t|, 1
  {
    match ParseValue(t, style)
    case None => None
    case Some((x, rest)) =>
      if rest == [] then None
      else if rest[0] == CLOSE_ARRAY then Some(([x], rest[1..]))
      else if rest[0] != COMMA then None
      else
        match ParseItems(rest[1..], style)
        case None => None
        case Some((xs, after)) => Some(([x] + xs, after))
  }

  function ParseMembers(t: Text, style: Style): (r: Option<(seq<Entry>, Text)>)
    ensures r.Some? ==> |r.value.1| < |t|
    decreases |t|, 1
  {
    if t == [] || t[0] != QUOTE then None
    else
      match ReadString(t[1..])
      case None => None
      case Some((key, afterKey)) =>
        if afterKey == [] || afterKey[0] != COLON then None
        else
          match ParseValue(afterKey[1..], style)
          case None => None
          case Some((x, rest)) =>
            if rest == [] then None
            else if rest[0] == CLOSE_OBJECT then Some(([Entry(key, x)], rest[1..]))
            else if rest[0] != COMMA then None
            else
              match ParseMembers(rest[1..], style)
              case None => None
              case Some((es, after)) => Some(([Entry(key, x)] + es, after))
  }

  /** What may follow a value: nothing, or something that is not part of a number. */
  ghost predicate Ends(rest: Text) {
    rest == [] || !NumberUnit(rest[0])
  }

  lemma {:induction false} NumberSpanExact(t: Text, rest: Text)
    requires forall i :: 0 <= i < |t| ==> NumberUnit(t[i])
    requires Ends(rest)
    ensures NumberSpan(t + rest) == |t|
  {
    if t == [] {
      assert t + rest == rest;
    } else {
      NumberSpanExact(t[1..], rest);
      assert (t + rest)[1..] == t[1..] + rest;
    }
  }

  /** Printed text starts with a character that no separator or closing bracket shares. */
  lemma PrintStarts(v: Json, style: Style)
    requires FaithfulNumbers(style)
    ensures Print(v, style) != []
    ensures Print(v, style)[0] != CLOSE_ARRAY
  {
    if v.Num? {
      assert NumberUnit(style.numberText(v.d)[0]);
    }
  }

  lemma ParseNumber(d: Double, rest: Text, style: Style)
    requires FaithfulNumbers(style) && Ends(rest)
    ensures ParseValue(style.numberText(d) + rest, style) == Some((Num(d.Printed()), rest))
  {
    var t := style.numberText(d);
    assert NumberUnit(t[0]);
    NumberSpanExact(t, rest);
    assert (t + rest)[0] == t[0];
    assert (t + rest)[..|t|] == t && (t + rest)[|t|..] == rest;
  }

  lemma ParseLiteral(rest: Text, style: Style)
    ensures ParseValue(NULL + rest, style) == Some((Json.Null, rest))
    ensures ParseValue(TRUE + rest, style) == Some((Bool(true), rest))
    ensures ParseValue(FALSE + rest, style) == Some((Bool(false), rest))
  {
    assert (NULL + rest)[4..] == rest;
    assert (TRUE + rest)[4..] == rest && (TRUE + rest)[0] == 0x74;
    assert (FALSE + rest)[5..] == rest && (FALSE + rest)[0] == 0x66;
  }

  lemma ParseQuoted(s: Text, rest: Text, style: Style)
    ensures ParseValue(Quote(s) + rest, style) == Some((Str(s), rest))
  {
    QuoteReads(s, rest);
  }

  lemma ParseEmpty(rest: Text, style: Style)
    ensures ParseValue([OPEN_ARRAY] + [CLOSE_ARRAY] + rest, style) == Some((Arr([]), rest))
    ensures ParseValue([OPEN_OBJECT] + [CLOSE_OBJECT] + rest, style) == Some((Obj([]), rest))
  {
    var a, o := [OPEN_ARRAY] + [CLOSE_ARRAY] + rest, [OPEN_OBJECT] + [CLOSE_OBJECT] + rest;
    assert a[0] == OPEN_ARRAY && a[1] == CLOSE_ARRAY && a[2..] == rest;
    assert o[0] == OPEN_OBJECT && o[1] == CLOSE_OBJECT && o[2..] == rest;
  }

  lemma ParseArray(t: Text, xs: seq<Json>, rest: Text, style: Style)
    requires t != [] && t[0] != CLOSE_ARRAY
    requires ParseItems(t, style) == Some((xs, rest))
    ensures ParseValue([OPEN_ARRAY] + t, style) == Some((Arr(xs), rest))
  {
    assert ([OPEN_ARRAY] + t)[1..] == t;
  }

  lemma ParseObject(t: Text, es: seq<Entry>, rest: Text, style: Style)
    requires t != [] && t[0] != CLOSE_OBJECT
    requires ParseMembers(t, style) == Some((es, rest))
    ensures ParseValue([OPEN_OBJECT] + t, style) == Some((Obj(es), rest))
  {
    assert ([OPEN_OBJECT] + t)[1..] == t;
  }

  /** The printer is faithful: parsing printed text gives back the normal form and the rest. */
  lemma {:induction false} ParsePrinted(v: Json, rest: Text, style: Style)
    requires FaithfulNumbers(style) && Ends(rest)
    ensures ParseValue(Print(v, style) + rest, style) == Some((Normal(v, style), rest))
    decreases v
  {
    match v
    case Null => ParseLiteral(rest, style);
    case Bool(b) => ParseLiteral(rest, style);
    case Num(d) => ParseNumber(d, rest, style);
    case Str(s) => ParseQuoted(s, rest, style);
    case Arr(items) =>
      if items == [] {
        ParseEmpty(rest, style);
      } else {
        ParsePrintedItems(v, 0, rest, style);
        ParsePrintedArray(v, rest, style);
      }
    case Obj(es) =>
      if es == [] {
        ParseEmpty(rest, style);
      } else {
        ParsePrintedMembers(v, SortedEntries(es, style), rest, style);
        ParsePrintedObject(v, rest, style);
      }
  }

  lemma ParsePrintedObject(v: Json, rest: Text, style: Style)
    requires v.Obj? && v.entries != []
    requires PrintMembers(v, SortedEntries(v.entries, style), style)[0] == QUOTE
    requires ParseMembers(PrintMembers(v, SortedEntries(v.entries, style), style) + rest, style)
          == Some((NormalMembers(v, SortedEntries(v.entries, style), style), rest))
    ensures ParseValue(Print(v, style) + rest, style) == Some((Normal(v, style), rest))
  {
    hide PrintMembers, NormalMembers, SortedEntries, ParseMembers, ParseValue;
    var members := PrintMembers(v, SortedEntries(v.entries, style), style);
    assert Print(v, style) == [OPEN_OBJECT] + members;
    ParseObject(members + rest, NormalMembers(v, SortedEntries(v.entries, style), style), rest, style);
    Regroup([OPEN_OBJECT], members, rest);
  }

  lemma ParsePrintedArray(v: Json, rest: Text, style: Style)
    requires FaithfulNumbers(style) && v.Arr? && v.items != []
    requires ParseItems(PrintItems(v, 0, style) + rest, style)
          == Some((NormalItems(v, 0, style), rest))
    ensures ParseValue(Print(v, style) + rest, style) == Some((Normal(v, style), rest))
  {
    hide NormalItems, ParseItems, ParseValue;
    var items := PrintItems(v, 0, style);
    PrintStarts(v.items[0], style);
    assert items[0] == Print(v.items[0], style)[0];
    assert Print(v, style) == [OPEN_ARRAY] + items;
    hide PrintItems;
    ParseArray(items + rest, NormalItems(v, 0, style), rest, style);
    Regroup([OPEN_ARRAY], items, rest);
  }

  lemma ParseLastItem(t: Text, x: Json, rest: Text, style: Style)
    requires ParseValue(t, style) == Some((x, [CLOSE_ARRAY] + rest))
    ensures ParseItems(t, style) == Some(([x], rest))
  {
    hide ParseValue;
    assert ([CLOSE_ARRAY] + rest)[1..] == rest;
  }

  lemma ParseNextItem(t: Text, x: Json, more: Text, xs: seq<Json>, rest: Text, style: Style)
    requires ParseValue(t, style) == Some((x, [COMMA] + more))
    requires ParseItems(more, style) == Some((xs, rest))
    ensures ParseItems(t, style) == Some(([x] + xs, rest))
  {
    hide ParseValue;
    assert ([COMMA] + more)[1..] == more;
  }

  /** The printed items split into the first value and what follows. */
  lemma PrintItemsSplit(v: Json, i: nat, rest: Text, style: Style)
    requires v.Arr? && i < |v.items|
    ensures i + 1 == |v.items| ==>
      && PrintItems(v, i, style) + rest == Print(v.items[i], style) + ([CLOSE_ARRAY] + rest)
      && NormalItems(v, i, style) == [Normal(v.items[i], style)]
    ensures i + 1 < |v.items| ==>
      && PrintItems(v, i, style) + rest
           == Print(v.items[i], style) + ([COMMA] + (PrintItems(v, i + 1, style) + rest))
      && NormalItems(v, i, style) == [Normal(v.items[i], style)] + NormalItems(v, i + 1, style)
  {
    hide Print, Normal;
    var first := Print(v.items[i], style);
    if i + 1 == |v.items| {
      assert PrintItems(v, i, style) == first + [CLOSE_ARRAY];
      assert NormalItems(v, i + 1, style) == [];
      Regroup(first, [CLOSE_ARRAY], rest);
    } else {
      var more := PrintItems(v, i + 1, style);
      assert PrintItems(v, i, style) == first + ([COMMA] + more);
      Regroup(first, [COMMA] + more, rest);
      Regroup([COMMA], more, rest);
    }
  }

  lemma {:induction false} ParsePrintedItems(v: Json, i: nat, rest: Text, style: Style)
    requires FaithfulNumbers(style) && v.Arr? && i < |v.items|
    ensures ParseItems(PrintItems(v, i, style) + rest, style)
         == Some((NormalItems(v, i, style), rest))
    decreases v, |v.items| - i
  {
    hide Print, PrintItems, Normal, NormalItems, ParseValue, ParseItems, FaithfulNumbers;
    var first, x := Print(v.items[i], style), Normal(v.items[i], style);
    PrintItemsSplit(v, i, rest, style);
    if i + 1 == |v.items| {
      ParsePrinted(v.items[i], [CLOSE_ARRAY] + rest, style);
      ParseLastItem(first + ([CLOSE_ARRAY] + rest), x, rest, style);
    } else {
      var more := PrintItems(v, i + 1, style) + rest;
      ParsePrinted(v.items[i], [COMMA] + more, style);
      ParsePrintedItems(v, i + 1, rest, style);
      ParseNextItem(first + ([COMMA] + more), x, more, NormalItems(v, i + 1, style), rest, style);
    }
  }

  lemma ParseLastMember(key: Text, value: Text, x: Json, rest: Text, style: Style)
    requires ParseValue(value, style) == Some((x, [CLOSE_OBJECT] + rest))
    ensures ParseMembers(Quote(key) + ([COLON] + value), style) == Some(([Entry(key, x)], rest))
  {
    QuoteReads(key, [COLON] + value);
    assert ([COLON] + value)[1..] == value;
    assert ([CLOSE_OBJECT] + rest)[1..] == rest;
  }

  lemma ParseNextMember(key: Text, value: Text, x: Json, more: Text, es: seq<Entry>, rest: Text,
                        style: Style)
    requires ParseValue(value, style) == Some((x, [COMMA] + more))
    requires ParseMembers(more, style) == Some((es, rest))
    ensures ParseMembers(Quote(key) + ([COLON] + value), style)
         == Some(([Entry(key, x)] + es, rest))
  {
    QuoteReads(key, [COLON] + value);
    assert ([COLON] + value)[1..] == value;
    assert ([COMMA] + more)[1..] == more;
  }

  /** The printed members split into the first key, its value and what follows. */
  lemma PrintMembersSplit(v: Json, es: seq<Entry>, rest: Text, style: Style)
    requires v.Obj? && es != [] && forall e | e in es :: e in v.entries
    ensures PrintMembers(v, es, style)[0] == QUOTE
    ensures |es| == 1 ==>
      PrintMembers(v, es, style) + rest ==
      Quote(es[0].key) + ([COLON] + (Print(es[0].value, style) + ([CLOSE_OBJECT] + rest)))
    ensures |es| > 1 ==>
      PrintMembers(v, es, style) + rest ==
      Quote(es[0].key) + ([COLON] + (Print(es[0].value, style) +
        ([COMMA] + (PrintMembers(v, es[1..], style) + rest))))
  {
    assert es[0] in es;
    var key, value := Quote(es[0].key), Print(es[0].value, style);
    if |es| == 1 {
      Reassociate(key, [COLON], value, [CLOSE_OBJECT], rest);
    } else {
      var more := PrintMembers(v, es[1..], style);
      Reassociate(key, [COLON], value, [COMMA] + more, rest);
      Regroup([COMMA], more, rest);
    }
  }

  lemma Reassociate(a: Text, b: Text, c: Text, d: Text, r: Text)
    ensures a + b + c + d + r == a + (b + (c + (d + r)))
  {
  }

  lemma NormalMembersSplit(v: Json, es: seq<Entry>, style: Style)
    requires v.Obj? && es != [] && forall e | e in es :: e in v.entries
    ensures NormalMembers(v, es, style)
         == [Entry(es[0].key, Normal(es[0].value, style))] + NormalMembers(v, es[1..], style)
    ensures |es| == 1 ==>
      NormalMembers(v, es, style) == [Entry(es[0].key, Normal(es[0].value, style))]
  {
  }

  lemma {:induction false} ParsePrintedMembers(v: Json, es: seq<Entry>, rest: Text, style: Style)
    requires FaithfulNumbers(style)
    requires v.Obj? && es != [] && forall e | e in es :: e in v.entries
    ensures PrintMembers(v, es, style)[0] == QUOTE
    ensures ParseMembers(PrintMembers(v, es, style) + rest, style)
         == Some((NormalMembers(v, es, style), rest))
    decreases v, |es|
  {
    var e := es[0];
    assert e in es;
    PrintMembersSplit(v, es, rest, style);
    NormalMembersSplit(v, es, style);
    if |es| == 1 {
      ParsePrinted(e.value, [CLOSE_OBJECT] + rest, style);
      ParseLastMember(e.key, Print(e.value, style) + ([CLOSE_OBJECT] + rest),
                      Normal(e.value, style), rest, style);
    } else {
      var more := PrintMembers(v, es[1..], style) + rest;
      ParsePrinted(e.value, [COMMA] + more, style);
      ParsePrintedMembers(v, es[1..], rest, style);
      ParseNextMember(e.key, Print(e.value, style) + ([COMMA] + more), Normal(e.value, style),
                      more, NormalMembers(v, es[1..], style), rest, style);
    }
  }

  lemma {:induction false} NormalItemsAt(v: Json, i: nat, k: nat, style: Style)
    requires v.Arr? && i + k < |v.items|
    ensures NormalItems(v, i, style)[k] == Normal(v.items[i + k], style)
    decreases k
  {
    if k > 0 {
      NormalItemsAt(v, i + 1, k - 1, style);
    }
  }

  lemma {:induction false} NormalMembersAt(v: Json, es: seq<Entry>, k: nat, style: Style)
    requires v.Obj? && k < |es| && forall e | e in es :: e in v.entries
    ensures es[k] in v.entries
    ensures NormalMembers(v, es, style)[k] == Entry(es[k].key, Normal(es[k].value, style))
    decreases k
  {
    assert es[k] in es;
    if k > 0 {
      NormalMembersAt(v, es[1..], k - 1, style);
    }
  }

  /** Equal normal forms mean equal values, whatever the comparator does. */
  lemma {:induction false} NormalDetermines(v: Json, w: Json, style: Style)
    requires Normal(v, style) == Normal(w, style)
    ensures Same(v, w)
    decreases v
  {
    match v
    case Arr(xs) =>
      forall i | 0 <= i < |xs| ensures Same(xs[i], w.items[i]) {
        NormalItemsAt(v, 0, i, style);
        NormalItemsAt(w, 0, i, style);
        NormalDetermines(xs[i], w.items[i], style);
      }
    case Obj(es) =>
      var a, b := SortedEntries(es, style), SortedEntries(w.entries, style);
      assert |a| == |b|;
      forall e | e in es
        ensures exists f | f in w.entries :: e.key == f.key && Same(e.value, f.value)
      {
        assert e in a;
        var k :| 0 <= k < |a| && a[k] == e;
        NormalMembersAt(v, a, k, style);
        NormalMembersAt(w, b, k, style);
        NormalDetermines(e.value, b[k].value, style);
        assert b[k] in w.entries;
      }
    case _ =>
  }

  /** Equal text implies values equal up to key order at every depth, for any comparator. */
  lemma EqualTextIsSound(v: Json, w: Json, style: Style)
    requires FaithfulNumbers(style)
    requires Print(v, style) == Print(w, style)
    ensures Same(v, w)
  {
    ParsePrinted(v, [], style);
    ParsePrinted(w, [], style);
    assert Print(v, style) + [] == Print(w, style) + [];
    NormalDetermines(v, w, style);
  }

  function Keys(es: seq<Entry>): (ks: seq<Text>)
    ensures |ks| == |es|
    ensures forall i :: 0 <= i < |es| ==> ks[i] == es[i].key
  {
    seq(|es|, i requires 0 <= i < |es| => es[i].key)
  }

  /** No two different keys of the object tie. */
  ghost predicate EntriesApart(es: seq<Entry>, style: Style) {
    forall e, f | e in es && f in es && e.key != f.key :: style.compareKeys(e.key, f.key) != 0
  }

  /** In every object of the value, at every depth, no two different keys tie. */
  ghost predicate KeysApart(v: Json, style: Style) {
    match v
    case Arr(items) => forall x | x in items :: KeysApart(x, style)
    case Obj(es) => EntriesApart(es, style) && forall e | e in es :: KeysApart(e.value, style)
    case _ => true
  }

  lemma {:induction false} DistinctKeysUnique(es: seq<Entry>, e: Entry, f: Entry)
    requires DistinctKeys(es) && e in es && f in es && e.key == f.key
    ensures e == f
  {
    var i :| 0 <= i < |es| && es[i] == e;
    var j :| 0 <= j < |es| && es[j] == f;
    assert i == j || i < j || j < i;
  }

  lemma ConsistentEntries(style: Style)
    requires Consistent(style.compareKeys)
    ensures Consistent(EntryOrder(style))
  {
    var cmp := style.compareKeys;
    var order := EntryOrder(style);
    forall a: Entry, b: Entry ensures order(a, b) <= 0 <==> 0 <= order(b, a) {
      assert cmp(a.key, b.key) <= 0 <==> 0 <= cmp(b.key, a.key);
    }
    forall a: Entry, b: Entry, c: Entry | order(a, b) <= 0 && order(b, c) <= 0
      ensures order(a, c) <= 0
    {
      assert cmp(a.key, b.key) <= 0 && cmp(b.key, c.key) <= 0;
    }
  }

  lemma SortedEntriesDistinct(es: seq<Entry>, style: Style)
    requires DistinctKeys(es)
    ensures DistinctKeys(SortedEntries(es, style))
  {
    var key := (e: Entry) => e.key;
    SortDistinct(es, EntryOrder(style), key);
    var r := SortedEntries(es, style);
    forall i, j | 0 <= i < j < |r| ensures r[i].key != r[j].key {
      assert key(r[i]) != key(r[j]);
    }
  }

  lemma SortedKeysStrict(es: seq<Entry>, style: Style)
    requires Consistent(style.compareKeys) && DistinctKeys(es) && EntriesApart(es, style)
    ensures StrictlySorted(Keys(SortedEntries(es, style)), style.compareKeys)
  {
    var r, order := SortedEntries(es, style), EntryOrder(style);
    ConsistentEntries(style);
    forall i, j | 0 <= i < j < |es| ensures order(es[i], es[j]) != 0 {
      assert es[i] in es && es[j] in es;
    }
    SortStrict(es, order);
    var ks := Keys(r);
    forall i, j | 0 <= i < j < |ks| ensures style.compareKeys(ks[i], ks[j]) < 0 {
      assert order(r[i], r[j]) < 0;
    }
  }

  ghost predicate KeysWithin(a: seq<Entry>, b: seq<Entry>) {
    forall e | e in a :: exists f | f in b :: e.key == f.key
  }

  /** Equally many distinct keys, all found in the other object, are the same keys. */
  lemma {:induction false} KeysWithinBack(a: seq<Entry>, b: seq<Entry>)
    requires DistinctKeys(a) && DistinctKeys(b) && |a| == |b| && KeysWithin(a, b)
    ensures KeysWithin(b, a)
  {
    var ka, kb := set e | e in a :: e.key, set e | e in b :: e.key;
    KeyCount(a);
    KeyCount(b);
    forall k | k in ka ensures k in kb {
      var e :| e in a && e.key == k;
      var f :| f in b && e.key == f.key;
    }
    SubsetOfSameSize(ka, kb);
    forall f | f in b ensures exists e | e in a :: f.key == e.key {
      assert f.key in kb;
      var e :| e in a && e.key == f.key;
    }
  }

  lemma SubsetOfSameSize<T>(a: set<T>, b: set<T>)
    requires a <= b && |a| == |b|
    ensures a == b
  {
    assert b == a + (b - a);
    assert |b - a| == 0;
  }

  lemma {:induction false} KeyCount(es: seq<Entry>)
    requires DistinctKeys(es)
    ensures |set e | e in es :: e.key| == |es|
  {
    if es != [] {
      var n := |es| - 1;
      var front := set e | e in es[..n] :: e.key;
      KeyCount(es[..n]);
      assert es == es[..n] + [es[n]];
      assert (set e | e in es :: e.key) == front + {es[n].key};
      assert es[n].key !in front;
    }
  }

  lemma {:induction false} SameKeySequence(a: seq<Entry>, b: seq<Entry>, style: Style)
    requires Consistent(style.compareKeys) && EntriesApart(a, style)
    requires DistinctKeys(a) && DistinctKeys(b) && |a| == |b| && KeysWithin(a, b)
    ensures Keys(SortedEntries(a, style)) == Keys(SortedEntries(b, style))
  {
    hide DistinctKeys, KeysWithin, EntriesApart, StrictlySorted, Transitive, Antisymmetric, SortedEntries, Keys;
    KeysWithinBack(a, b);
    ApartCarries(a, b, style);
    SortedKeysStrict(a, style);
    SortedKeysStrict(b, style);
    var ka, kb := Keys(SortedEntries(a, style)), Keys(SortedEntries(b, style));
    forall k ensures k in ka <==> k in kb {
      KeyCarries(a, b, k, style);
      KeyCarries(b, a, k, style);
    }
    StrictlySortedUnique(ka, kb, style.compareKeys);
  }

  lemma ApartCarries(a: seq<Entry>, b: seq<Entry>, style: Style)
    requires EntriesApart(a, style) && KeysWithin(b, a)
    ensures EntriesApart(b, style)
  {
    forall e, f | e in b && f in b && e.key != f.key ensures style.compareKeys(e.key, f.key) != 0 {
      var e' :| e' in a && e.key == e'.key;
      var f' :| f' in a && f.key == f'.key;
    }
  }

  lemma KeyCarries(a: seq<Entry>, b: seq<Entry>, k: Text, style: Style)
    requires KeysWithin(a, b)
    ensures k in Keys(SortedEntries(a, style)) ==> k in Keys(SortedEntries(b, style))
  {
    var sa, sb := SortedEntries(a, style), SortedEntries(b, style);
    if k in Keys(sa) {
      var i :| 0 <= i < |sa| && Keys(sa)[i] == k;
      assert sa[i] in a;
      var f :| f in b && f.key == k;
      assert f in sb;
      var j :| 0 <= j < |sb| && sb[j] == f;
      assert Keys(sb)[j] == k;
    }
  }

  /** Where no two different keys tie, reordering keys at any depth prints identically. */
  lemma {:induction false} SamePrintsAlike(v: Json, w: Json, style: Style)
    requires FaithfulNumbers(style) && Consistent(style.compareKeys) && KeysApart(v, style)
    requires WellFormed(v) && WellFormed(w) && Same(v, w)
    ensures Print(v, style) == Print(w, style)
    decreases v
  {
    match v
    case Num(d) =>
      assert style.numberText(d) == style.numberText(d.Printed());
      assert style.numberText(w.d) == style.numberText(w.d.Printed());
    case Arr(xs) =>
      forall i | 0 <= i < |xs| ensures Print(xs[i], style) == Print(w.items[i], style) {
        assert xs[i] in xs && w.items[i] in w.items;
        SamePrintsAlike(xs[i], w.items[i], style);
      }
      if xs != [] {
        AlikeItems(v, w, 0, style);
      }
    case Obj(es) =>
      var a, b := SortedEntries(es, style), SortedEntries(w.entries, style);
      assert KeysWithin(es, w.entries) by {
        forall e | e in es ensures exists f | f in w.entries :: e.key == f.key {
          var f :| f in w.entries && e.key == f.key && Same(e.value, f.value);
        }
      }
      SameKeySequence(es, w.entries, style);
      forall k | 0 <= k < |a|
        ensures a[k].key == b[k].key && Print(a[k].value, style) == Print(b[k].value, style)
      {
        assert a[k].key == Keys(a)[k] == Keys(b)[k] == b[k].key;
        assert a[k] in es && b[k] in w.entries;
        var f :| f in w.entries && a[k].key == f.key && Same(a[k].value, f.value);
        DistinctKeysUnique(w.entries, f, b[k]);
        SamePrintsAlike(a[k].value, b[k].value, style);
      }
      if es != [] {
        AlikeMembers(v, w, a, b, style);
      }
    case _ =>
  }

  lemma {:induction false} AlikeItems(v: Json, w: Json, i: nat, style: Style)
    requires v.Arr? && w.Arr? && |v.items| == |w.items| && i < |v.items|
    requires forall k | 0 <= k < |v.items| :: Print(v.items[k], style) == Print(w.items[k], style)
    ensures PrintItems(v, i, style) == PrintItems(w, i, style)
    decreases |v.items| - i
  {
    if i + 1 < |v.items| {
      AlikeItems(v, w, i + 1, style);
    }
  }

  lemma {:induction false} AlikeMembers(v: Json, w: Json, a: seq<Entry>, b: seq<Entry>, style: Style)
    requires v.Obj? && w.Obj? && a != [] && |a| == |b|
    requires forall e | e in a :: e in v.entries
    requires forall e | e in b :: e in w.entries
    requires forall k | 0 <= k < |a| ::
      a[k].key == b[k].key && Print(a[k].value, style) == Print(b[k].value, style)
    ensures PrintMembers(v, a, style) == PrintMembers(w, b, style)
    decreases |a|
  {
    if |a| > 1 {
      AlikeMembers(v, w, a[1..], b[1..], style);
    }
  }

  /** Where no two different keys of one value tie, canonical text decides `Same`, both ways. */
  lemma EqualTextIffSame(v: Json, w: Json, style: Style)
    requires FaithfulNumbers(style) && Consistent(style.compareKeys) && KeysApart(v, style)
    requires WellFormed(v) && WellFormed(w)
    ensures Print(v, style) == Print(w, style) <==> Same(v, w)
  {
    if Print(v, style) == Print(w, style) {
      EqualTextIsSound(v, w, style);
    }
    if Same(v, w) {
      SamePrintsAlike(v, w, style);
    }
  }

  /** An object with two null properties in the given order. */
  function TwoKeys(a: Text, b: Text): Json {
    Obj([Entry(a, Json.Null), Entry(b, Json.Null)])
  }

  /** Two keys that compare as equal print in insertion order, so the texts differ. */
  lemma TiedKeysPrintApart(a: Text, b: Text, style: Style)
    requires FaithfulNumbers(style) && a != b
    requires style.compareKeys(a, b) == 0 && style.compareKeys(b, a) == 0
    ensures WellFormed(TwoKeys(a, b)) && WellFormed(TwoKeys(b, a))
    ensures Same(TwoKeys(a, b), TwoKeys(b, a))
    ensures Print(TwoKeys(a, b), style) != Print(TwoKeys(b, a), style)
  {
    var v, w := TwoKeys(a, b), TwoKeys(b, a);
    TwoKeysSame(a, b);
    FirstKeyPrinted(a, b, style);
    FirstKeyPrinted(b, a, style);
    hide FaithfulNumbers, Print, Normal, WellFormed, Same;
    ParsePrinted(v, [], style);
    ParsePrinted(w, [], style);
    assert Print(v, style) + [] == Print(v, style);
    assert Print(w, style) + [] == Print(w, style);
  }

  lemma TwoKeysSame(a: Text, b: Text)
    requires a != b
    ensures WellFormed(TwoKeys(a, b)) && WellFormed(TwoKeys(b, a))
    ensures Same(TwoKeys(a, b), TwoKeys(b, a))
  {
    var w := TwoKeys(b, a);
    assert w.entries[0] in w.entries && w.entries[1] in w.entries;
  }

  lemma FirstKeyPrinted(a: Text, b: Text, style: Style)
    requires style.compareKeys(a, b) == 0
    ensures var n := Normal(TwoKeys(a, b), style);
      n.Obj? && |n.entries| == 2 && n.entries[0].key == a
  {
    TiedKeysStay(a, b, style);
    NormalMembersAt(TwoKeys(a, b), TwoKeys(a, b).entries, 0, style);
  }

  lemma TiedKeysStay(a: Text, b: Text, style: Style)
    requires style.compareKeys(a, b) == 0
    ensures SortedEntries(TwoKeys(a, b).entries, style) == TwoKeys(a, b).entries
  {
    hide Insert, Sort;
    var es, order := TwoKeys(a, b).entries, EntryOrder(style);
    SortPair(es[0], es[1], order);
    assert es == [es[0], es[1]];
  }

  /** A stable sort keeps two elements that tie in the order they came. */
  lemma SortPair(x: Entry, y: Entry, order: (Entry, Entry) -> int)
    requires order(x, y) <= 0
    ensures Sort([x, y], order) == [x, y]
  {
    assert [x, y][..1] == [x] && [x][..0] == [];
    assert Sort([x], order) == Insert([], x, order) == [x];
    assert Sort([x, y], order) == Insert([x], y, order);
  }

  // ---------------------------------------------------------------- when key order matters

  function Reversed(es: seq<Entry>): (r: seq<Entry>)
    ensures |r| == |es|
    ensures forall i :: 0 <= i < |r| ==> r[i] == es[|es| - 1 - i]
  {
    seq(|es|, i requires 0 <= i < |es| => es[|es| - 1 - i])
  }

  lemma {:induction false} SameReflexive(v: Json)
    ensures Same(v, v)
    decreases v
  {
    match v
    case Arr(xs) =>
      forall i | 0 <= i < |xs| ensures Same(xs[i], xs[i]) {
        SameReflexive(xs[i]);
      }
    case Obj(es) =>
      forall e | e in es ensures Same(e.value, e.value) {
        SameReflexive(e.value);
      }
    case _ =>
  }

  /** The properties of one object in reverse order. */
  lemma ReversedIsSame(es: seq<Entry>)
    requires WellFormed(Obj(es))
    ensures WellFormed(Obj(Reversed(es))) && Same(Obj(es), Obj(Reversed(es)))
  {
    var r := Reversed(es);
    forall i, j | 0 <= i < j < |r| ensures r[i].key != r[j].key {
      assert es[|es| - 1 - j].key != es[|es| - 1 - i].key;
    }
    forall e | e in r ensures WellFormed(e.value) {
      assert e in es;
    }
    forall e | e in es ensures exists f | f in r :: e.key == f.key && Same(e.value, f.value) {
      var i :| 0 <= i < |es| && es[i] == e;
      assert r[|es| - 1 - i] == e;
      assert e in r;
      SameReflexive(e.value);
    }
  }

  lemma ReversedPrecedes(es: seq<Entry>, e: Entry, f: Entry)
    requires Precedes(es, e, f)
    ensures Precedes(Reversed(es), f, e)
  {
    var i, j :| 0 <= i < j < |es| && es[i] == e && es[j] == f;
    assert Reversed(es)[|es| - 1 - j] == f && Reversed(es)[|es| - 1 - i] == e;
  }

  /** Two tied properties keep their order when sorted, so reversing an object reverses them. */
  lemma TiedReversedApart(es: seq<Entry>, e: Entry, f: Entry, style: Style)
    requires WellFormed(Obj(es)) && Precedes(es, e, f)
    requires style.compareKeys(e.key, f.key) == 0 && style.compareKeys(f.key, e.key) == 0
    ensures Normal(Obj(es), style) != Normal(Obj(Reversed(es)), style)
  {
    var r, order := Reversed(es), EntryOrder(style);
    ReversedPrecedes(es, e, f);
    SortStable(es, order, e, f);
    SortStable(r, order, f, e);
    ReversedIsSame(es);
    SortedEntriesDistinct(es, style);
    SortedEntriesDistinct(r, style);
    var a, b := SortedEntries(es, style), SortedEntries(r, style);
    var i, j :| 0 <= i < j < |a| && a[i] == e && a[j] == f;
    var k, l :| 0 <= k < l < |b| && b[k] == f && b[l] == e;
    NormalKeys(Obj(es), i, style);
    NormalKeys(Obj(es), j, style);
    NormalKeys(Obj(r), i, style);
    NormalKeys(Obj(r), j, style);
    OppositeOrders(a, b, e, f, i, j, k, l);
  }

  /** Where keys are distinct, two lists cannot agree on keys and disagree on the order of two entries. */
  lemma OppositeOrders(a: seq<Entry>, b: seq<Entry>, e: Entry, f: Entry, i: nat, j: nat, k: nat, l: nat)
    requires |a| == |b| && DistinctKeys(b)
    requires i < j < |a| && a[i] == e && a[j] == f
    requires k < l < |b| && b[k] == f && b[l] == e
    ensures a[i].key != b[i].key || a[j].key != b[j].key
  {
  }

  /** The properties of a normal form are those of the object, sorted, with normal values. */
  lemma NormalKeys(v: Json, i: nat, style: Style)
    requires v.Obj? && i < |v.entries|
    ensures Normal(v, style).Obj? && |Normal(v, style).entries| == |v.entries|
    ensures var e := SortedEntries(v.entries, style)[i];
      e in v.entries && Normal(v, style).entries[i] == Entry(e.key, Normal(e.value, style))
  {
    var sorted := SortedEntries(v.entries, style);
    assert sorted[i] in sorted;
    NormalMembersAt(v, sorted, i, style);
  }

  /** A value with tied keys anywhere has a reordering whose text differs. */
  lemma {:induction false} ReorderedApart(v: Json, style: Style) returns (w: Json)
    requires Consistent(style.compareKeys) && WellFormed(v) && !KeysApart(v, style)
    ensures WellFormed(w) && Same(v, w) && Normal(v, style) != Normal(w, style)
    decreases v
  {
    if v.Arr? {
      var x :| x in v.items && !KeysApart(x, style);
      var i :| 0 <= i < |v.items| && v.items[i] == x;
      var y := ReorderedApart(x, style);
      w := Arr(v.items[i := y]);
      ItemReplaced(v, i, y, style);
    } else if e :| e in v.entries && !KeysApart(e.value, style) {
      var i :| 0 <= i < |v.entries| && v.entries[i] == e;
      var y := ReorderedApart(e.value, style);
      w := Obj(v.entries[i := Entry(e.key, y)]);
      EntryReplaced(v, i, y, style);
    } else {
      var e, f :| e in v.entries && f in v.entries && e.key != f.key && style.compareKeys(e.key, f.key) == 0;
      w := Obj(Reversed(v.entries));
      ReversedIsSame(v.entries);
      Tied(style.compareKeys, e.key, f.key);
      EitherOrder(v.entries, e, f);
      if Precedes(v.entries, e, f) {
        TiedReversedApart(v.entries, e, f, style);
      } else {
        TiedReversedApart(v.entries, f, e, style);
      }
    }
  }

  lemma Tied(cmp: (Text, Text) -> int, a: Text, b: Text)
    requires Antisymmetric(cmp) && cmp(a, b) == 0
    ensures cmp(b, a) == 0
  {
    assert cmp(a, b) <= 0 <==> 0 <= cmp(b, a);
    assert cmp(b, a) <= 0 <==> 0 <= cmp(a, b);
  }

  lemma EitherOrder(es: seq<Entry>, e: Entry, f: Entry)
    requires e in es && f in es && e != f
    ensures Precedes(es, e, f) || Precedes(es, f, e)
  {
    var i :| 0 <= i < |es| && es[i] == e;
    var j :| 0 <= j < |es| && es[j] == f;
    assert i < j || j < i;
  }

  lemma ItemReplaced(v: Json, i: nat, y: Json, style: Style)
    requires v.Arr? && i < |v.items| && WellFormed(v) && WellFormed(y)
    requires Same(v.items[i], y) && Normal(v.items[i], style) != Normal(y, style)
    ensures var w := Arr(v.items[i := y]);
      WellFormed(w) && Same(v, w) && Normal(v, style) != Normal(w, style)
  {
    var w := Arr(v.items[i := y]);
    ItemSame(v, i, y);
    hide Same, WellFormed, NormalItems;
    NormalItemsAt(v, 0, i, style);
    NormalItemsAt(w, 0, i, style);
    assert Normal(v, style) == Arr(NormalItems(v, 0, style)) && Normal(w, style) == Arr(NormalItems(w, 0, style));
    hide Normal;
    assert NormalItems(v, 0, style)[i] != NormalItems(w, 0, style)[i];
  }

  lemma ItemSame(v: Json, i: nat, y: Json)
    requires v.Arr? && i < |v.items| && WellFormed(v) && WellFormed(y) && Same(v.items[i], y)
    ensures WellFormed(Arr(v.items[i := y])) && Same(v, Arr(v.items[i := y]))
  {
    var w := Arr(v.items[i := y]);
    forall x | x in w.items ensures WellFormed(x) {
      assert x == y || x in v.items;
    }
    forall k | 0 <= k < |v.items| ensures Same(v.items[k], w.items[k]) {
      SameReflexive(v.items[k]);
    }
  }

  lemma EntrySame(v: Json, i: nat, y: Json)
    requires v.Obj? && i < |v.entries| && WellFormed(v) && WellFormed(y) && Same(v.entries[i].value, y)
    ensures var w := Obj(v.entries[i := Entry(v.entries[i].key, y)]); WellFormed(w) && Same(v, w)
  {
    var w := Obj(v.entries[i := Entry(v.entries[i].key, y)]);
    assert w.entries[i] in w.entries;
    forall e | e in w.entries ensures WellFormed(e.value) {
      assert e == w.entries[i] || e in v.entries;
    }
    forall e | e in v.entries ensures exists f | f in w.entries :: e.key == f.key && Same(e.value, f.value) {
      var k :| 0 <= k < |v.entries| && v.entries[k] == e;
      SameReflexive(e.value);
      assert w.entries[k] in w.entries;
    }
  }

  lemma EntryReplaced(v: Json, i: nat, y: Json, style: Style)
    requires v.Obj? && i < |v.entries| && WellFormed(v) && WellFormed(y)
    requires Same(v.entries[i].value, y) && Normal(v.entries[i].value, style) != Normal(y, style)
    ensures var w := Obj(v.entries[i := Entry(v.entries[i].key, y)]);
      WellFormed(w) && Same(v, w) && Normal(v, style) != Normal(w, style)
  {
    var key := v.entries[i].key;
    var w := Obj(v.entries[i := Entry(key, y)]);
    EntrySame(v, i, y);
    hide Same, WellFormed, Normal;
    assert w.entries[i] in w.entries;
    NormalValue(v, v.entries[i], style);
    NormalValue(w, w.entries[i], style);
    if Normal(v, style) == Normal(w, style) {
      NormalDistinct(v, style);
      DistinctKeysUnique(Normal(v, style).entries, Entry(key, Normal(v.entries[i].value, style)),
                         Entry(key, Normal(y, style)));
    }
  }

  lemma NormalValue(v: Json, e: Entry, style: Style)
    requires v.Obj? && e in v.entries
    ensures Normal(v, style).Obj? && Entry(e.key, Normal(e.value, style)) in Normal(v, style).entries
  {
    var sorted := SortedEntries(v.entries, style);
    assert e in sorted;
    var i :| 0 <= i < |sorted| && sorted[i] == e;
    NormalKeys(v, i, style);
  }

  lemma NormalDistinct(v: Json, style: Style)
    requires v.Obj? && WellFormed(v)
    ensures Normal(v, style).Obj? && DistinctKeys(Normal(v, style).entries)
  {
    SortedEntriesDistinct(v.entries, style);
    var es := Normal(v, style).entries;
    forall i, j | 0 <= i < j < |es| ensures es[i].key != es[j].key {
      NormalKeys(v, i, style);
      NormalKeys(v, j, style);
    }
  }

  /**
   A value prints the same however storage reorders its properties, exactly when in every object of
   it, at every depth, no two different keys tie.
   */
  lemma OrderIndependentIffKeysApart(v: Json, style: Style)
    requires FaithfulNumbers(style) && Consistent(style.compareKeys) && WellFormed(v)
    ensures (forall w | WellFormed(w) && Same(v, w) :: Print(v, style) == Print(w, style))
      <==> KeysApart(v, style)
  {
    hide FaithfulNumbers, WellFormed, Same, Print, Normal, KeysApart;
    if KeysApart(v, style) {
      forall w | WellFormed(w) && Same(v, w) ensures Print(v, style) == Print(w, style) {
        SamePrintsAlike(v, w, style);
      }
    } else {
      var w := ReorderedApart(v, style);
      ParsePrinted(v, [], style);
      ParsePrinted(w, [], style);
      assert Print(v, style) + [] == Print(v, style);
      assert Print(w, style) + [] == Print(w, style);
    }
  }

  // ---------------------------------------------------------------- spellings

  /** The marks and words of the canonical text are those of JSON, with no white space. */
  lemma PrintedMarks(style: Style)
    ensures Print(Json.Null, style) == Ascii("null")
    ensures Print(Bool(true), style) == Ascii("true") && Print(Bool(false), style) == Ascii("false")
    ensures Print(Str([0x61]), style) == Ascii("\"a\"")
    ensures Print(Arr([]), style) == Ascii("[]") && Print(Obj([]), style) == Ascii("{}")
  {
    assert [0x61][1..] == [];
    assert SortedEntries([], style) == [];
  }

  /** Two numbers print alike exactly when they are the same double or both zeros. */
  lemma NumbersPrintAlike(a: Double, b: Double, style: Style)
    requires FaithfulNumbers(style)
    ensures Print(Num(a), style) == Print(Num(b), style) <==>
      a == b || (a.exponent == b.exponent == 0 && a.fraction == b.fraction == 0)
  {
    assert style.readNumber(style.numberText(a)) == a.Printed();
    assert style.readNumber(style.numberText(b)) == b.Printed();
    assert style.numberText(a) == style.numberText(a.Printed());
    assert style.numberText(b) == style.numberText(b.Printed());
  }

  lemma PrintedArray(style: Style)
    ensures Print(Arr([Json.Null, Bool(true)]), style) == Ascii("[null,true]")
  {
    PrintedMarks(style);
    var v := Arr([Json.Null, Bool(true)]);
    assert PrintItems(v, 1, style) == Ascii("true]") by {
      assert Print(v.items[1], style) == Ascii("true");
    }
    assert PrintItems(v, 0, style) == Ascii("null") + Ascii(",true]") by {
      assert Print(v.items[0], style) == Ascii("null");
    }
    hide PrintItems;
  }

  lemma PrintedObject(style: Style)
    ensures Print(Obj([Entry([0x61], Json.Null)]), style) == Ascii("{\"a\":null}")
  {
    PrintedMarks(style);
    var es := [Entry([0x61], Json.Null)];
    SingleSorted(es[0], style);
    assert es[1..] == [];
  }

  /** Properties are printed in ascending order of their keys. */
  lemma PrintedInOrder(a: Unit, b: Unit, v: Json, w: Json, style: Style)
    requires style.compareKeys([a], [b]) < 0 && style.compareKeys([b], [a]) > 0
    ensures Print(Obj([Entry([b], w), Entry([a], v)]), style)
         == Ascii("{") + Quote([a]) + Ascii(":") + Print(v, style) + Ascii(",") + Quote([b]) + Ascii(":") + Print(w, style)
            + Ascii("}")
  {
    hide Quote, SortedEntries, PrintMembers;
    var x, y := Entry([a], v), Entry([b], w);
    PairSorted(x, y, style);
    TwoMembers(Obj([y, x]), x, y, style);
    assert Print(Obj([y, x]), style) == [OPEN_OBJECT] + PrintMembers(Obj([y, x]), [x, y], style);
    hide Print;
    assert [OPEN_OBJECT] == Ascii("{");
  }

  lemma TwoMembers(o: Json, x: Entry, y: Entry, style: Style)
    requires o == Obj([y, x])
    ensures PrintMembers(o, [x, y], style) == Quote(x.key) + Ascii(":") + Print(x.value, style) + Ascii(",")
      + Quote(y.key) + Ascii(":") + Print(y.value, style) + Ascii("}")
  {
    hide Quote, Print;
    assert [x, y][1..] == [y];
    assert PrintMembers(o, [y], style) == Quote(y.key) + [COLON] + Print(y.value, style) + [CLOSE_OBJECT];
    assert PrintMembers(o, [x, y], style)
        == Quote(x.key) + [COLON] + Print(x.value, style) + ([COMMA] + PrintMembers(o, [y], style));
    hide PrintMembers;
    assert [COLON] == Ascii(":") && [COMMA] == Ascii(",") && [CLOSE_OBJECT] == Ascii("}");
  }

  lemma PairSorted(x: Entry, y: Entry, style: Style)
    requires style.compareKeys(x.key, y.key) < 0 && style.compareKeys(y.key, x.key) > 0
    ensures SortedEntries([y, x], style) == [x, y]
  {
    var order := EntryOrder(style);
    assert [y, x][..1] == [y] && [y][..0] == [];
    assert Sort([y], order) == [y];
    assert Insert([y], x, order) == Insert([], x, order) + [y];
  }

  lemma SingleSorted(e: Entry, style: Style)
    ensures SortedEntries([e], style) == [e]
  {
    assert [e][..0] == [];
  }
}
