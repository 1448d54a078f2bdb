/** Why a copy of a JSON value is what it is: it goes through the value's text. */
module JsonCopies {
  import opened JsonText
  import opened Prelude
  import opened Sorting
  import opened CanonicalJson
  import opened JsonOwnership

  /** A printer that leaves properties in the order they have, as plain printing does. */
  ghost predicate KeepsOrder(style: Style) {
    forall a: Text, b: Text :: style.compareKeys(a, b) == 0
  }

  lemma {:induction false} SortNothing(es: seq<Entry>, style: Style)
    requires KeepsOrder(style)
    ensures Sort(es, EntryOrder(style)) == es
    decreases |es|
  {
    hide Insert, KeepsOrder;
    if es != [] {
      var n := |es| - 1;
      SortNothing(es[..n], style);
      InsertLast(es[..n], es[n], style);
      assert es == es[..n] + [es[n]];
    }
  }

  lemma InsertLast(es: seq<Entry>, e: Entry, style: Style)
    requires KeepsOrder(style)
    ensures Insert(es, e, EntryOrder(style)) == es + [e]
  {
    if es == [] {
      assert es + [e] == [e];
    } else {
      var last := es[|es| - 1];
      assert EntryOrder(style)(last, e) == style.compareKeys(last.key, e.key);
      assert style.compareKeys(last.key, e.key) == 0;
    }
  }

  lemma {:induction false} NormalIsCopy(v: Json, style: Style)
    requires KeepsOrder(style)
    ensures Normal(v, style) == Copied(v)
    decreases v, 1, 0
  {
    hide KeepsOrder, Normal, NormalItems, NormalMembers;
    if v.Arr? {
      NormalItemsCopied(v, 0, style);
      assert forall k | 0 <= k < |v.items| :: NormalItems(v, 0, style)[k - 0] == Copied(v.items[k]);
      ArrayIsCopy(v, style);
    } else if v.Obj? {
      assert v.entries[0..] == v.entries;
      NormalMembersCopied(v, 0, style);
      assert forall k | 0 <= k < |v.entries| ::
        NormalMembers(v, v.entries, style)[k - 0] == Entry(v.entries[k].key, Copied(v.entries[k].value));
      ObjectIsCopy(v, style);
    } else {
      PrimitiveIsCopy(v, style);
    }
  }

  lemma PrimitiveIsCopy(v: Json, style: Style)
    requires !v.Arr? && !v.Obj?
    ensures Normal(v, style) == Copied(v)
  {
  }

  lemma ArrayIsCopy(v: Json, style: Style)
    requires v.Arr? && forall k | 0 <= k < |v.items| :: NormalItems(v, 0, style)[k] == Copied(v.items[k])
    ensures Normal(v, style) == Copied(v)
  {
    hide NormalItems;
    assert Copied(v).Arr? && Copied(v).items == NormalItems(v, 0, style);
  }

  lemma ObjectIsCopy(v: Json, style: Style)
    requires KeepsOrder(style) && v.Obj?
    requires forall k | 0 <= k < |v.entries| ::
      NormalMembers(v, v.entries, style)[k] == Entry(v.entries[k].key, Copied(v.entries[k].value))
    ensures Normal(v, style) == Copied(v)
  {
    hide NormalMembers, KeepsOrder;
    SortNothing(v.entries, style);
    assert SortedEntries(v.entries, style) == v.entries;
    hide SortedEntries;
    assert Normal(v, style) == Obj(NormalMembers(v, v.entries, style));
    hide Normal;
    assert Copied(v).Obj? && Copied(v).entries == NormalMembers(v, v.entries, style);
  }

  lemma ItemsNext(v: Json, i: nat, style: Style)
    requires v.Arr? && i < |v.items|
    ensures NormalItems(v, i, style) == [Normal(v.items[i], style)] + NormalItems(v, i + 1, style)
  {
    hide Normal;
  }

  lemma MembersNext(v: Json, i: nat, style: Style)
    requires v.Obj? && i < |v.entries|
    ensures NormalMembers(v, v.entries[i..], style)
         == [Entry(v.entries[i].key, Normal(v.entries[i].value, style))] + NormalMembers(v, v.entries[i + 1..], style)
  {
    hide Normal;
    assert v.entries[i..][1..] == v.entries[i + 1..];
  }

  lemma {:induction false} NormalItemsCopied(v: Json, i: nat, style: Style)
    requires KeepsOrder(style) && v.Arr? && i <= |v.items|
    ensures forall k | i <= k < |v.items| :: NormalItems(v, i, style)[k - i] == Copied(v.items[k])
    decreases v, 0, |v.items| - i
  {
    hide KeepsOrder, Normal, NormalItems;
    if i < |v.items| {
      NormalIsCopy(v.items[i], style);
      NormalItemsCopied(v, i + 1, style);
      ItemsNext(v, i, style);
    }
  }

  lemma {:induction false} NormalMembersCopied(v: Json, i: nat, style: Style)
    requires KeepsOrder(style) && v.Obj? && i <= |v.entries|
    ensures forall k | i <= k < |v.entries| ::
      NormalMembers(v, v.entries[i..], style)[k - i] == Entry(v.entries[k].key, Copied(v.entries[k].value))
    decreases v, 0, |v.entries| - i
  {
    hide KeepsOrder, Normal, NormalMembers;
    if i < |v.entries| {
      assert v.entries[i] in v.entries;
      NormalIsCopy(v.entries[i].value, style);
      NormalMembersCopied(v, i + 1, style);
      MembersNext(v, i, style);
    }
  }

  /** A copy is what a parser reads from the printed text of the value. */
  lemma CopyIsReadBack(v: Json, style: Style)
    requires FaithfulNumbers(style) && KeepsOrder(style)
    ensures ParseValue(Print(v, style), style) == Some((Copied(v), []))
  {
    hide Print, ParseValue, FaithfulNumbers, KeepsOrder;
    ParsePrinted(v, [], style);
    assert Print(v, style) + [] == Print(v, style);
    NormalIsCopy(v, style);
  }
}
