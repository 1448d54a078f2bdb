/**
 Who can reach the JSON a store keeps. The caller's JSON lives in mutable heap objects; the
 in-memory store deep-copies every JSON value it takes in and every one it hands out, so no
 write of a caller can change what is stored.
 */
module JsonOwnership {
  import opened Prelude
  import opened JsonText

  /** A JSON value in memory: a primitive, or a reference to a mutable array or object. */
  datatype Ref = Primitive(value: Json) | Tree(node: JsonNode)

  class JsonNode {
    var isArray: bool
    var keys: seq<Text>
    var parts: seq<Ref>

    constructor (isArray: bool, keys: seq<Text>, parts: seq<Ref>)
      ensures this.isArray == isArray && this.keys == keys && this.parts == parts
    {
      this.isArray, this.keys, this.parts := isArray, keys, parts;
    }
  }

  predicate IsTree(v: Json) {
    v.Arr? || v.Obj?
  }

  /** The values directly inside an array or object. */
  function Parts(v: Json): (r: seq<Json>)
    ensures forall i :: 0 <= i < |r| ==> r[i] < v
  {
    match v
    case Arr(items) => items
    case Obj(es) => seq(|es|, i requires 0 <= i < |es| => es[i].value)
    case _ => []
  }

  function Keys(v: Json): seq<Text> {
    if v.Obj? then seq(|v.entries|, i requires 0 <= i < |v.entries| => v.entries[i].key) else []
  }

  /** The reference reads as `v`, through objects of `nodes` only. */
  ghost predicate Represents(r: Ref, v: Json, nodes: set<JsonNode>)
    reads nodes
    decreases v
  {
    if IsTree(v) then
      && r.Tree? && r.node in nodes
      && r.node.isArray == v.Arr? && r.node.keys == Keys(v)
      && |r.node.parts| == |Parts(v)|
      && forall i | 0 <= i < |Parts(v)| :: Represents(r.node.parts[i], Parts(v)[i], nodes)
    else r == Primitive(v)
  }

  ghost predicate RepresentsAll(rs: seq<Ref>, vs: seq<Json>, nodes: set<JsonNode>)
    reads nodes
  {
    |rs| == |vs| && forall i | 0 <= i < |vs| :: Represents(rs[i], vs[i], nodes)
  }

  /** What reading the printed text of a value back gives: negative zero becomes zero. */
  function Copied(v: Json): (r: Json)
    ensures IsTree(r) == IsTree(v)
    decreases v
  {
    match v
    case Num(d) => Num(d.Printed())
    case Arr(items) => Arr(seq(|items|, i requires 0 <= i < |items| => Copied(items[i])))
    case Obj(es) =>
      Obj(seq(|es|, i requires 0 <= i < |es| => Entry(es[i].key, Copied(es[i].value))))
    case _ => v
  }

  /** A primitive is handed on as it is; anything else goes through its text. */
  function Cloned(v: Json): (r: Json)
    ensures IsTree(r) == IsTree(v)
  {
    if IsTree(v) then Copied(v) else v
  }

  function ClonedAll(vs: seq<Json>): (r: seq<Json>)
    ensures |r| == |vs| && forall i :: 0 <= i < |r| ==> r[i] == Cloned(vs[i])
  {
    seq(|vs|, i requires 0 <= i < |vs| => Cloned(vs[i]))
  }

  lemma CopiedParts(v: Json)
    requires IsTree(v)
    ensures Keys(Copied(v)) == Keys(v) && Copied(v).Arr? == v.Arr?
    ensures |Parts(Copied(v))| == |Parts(v)|
    ensures forall i :: 0 <= i < |Parts(v)| ==> Parts(Copied(v))[i] == Copied(Parts(v)[i])
  {
  }

  /** A copy is the same JSON value, and copying it again changes nothing. */
  lemma {:induction false} CopiedIsSame(v: Json)
    ensures Same(v, Copied(v)) && Copied(Copied(v)) == Copied(v)
    decreases v
  {
    match v
    case Arr(items) =>
      forall i | 0 <= i < |items| ensures Same(items[i], Copied(items[i]))
        ensures Copied(Copied(items[i])) == Copied(items[i])
      {
        CopiedIsSame(items[i]);
      }
      assert Copied(Copied(v)).items == Copied(v).items;
    case Obj(es) =>
      var fs := Copied(v).entries;
      forall i | 0 <= i < |es| ensures Same(es[i].value, fs[i].value) && Copied(fs[i].value) == fs[i].value {
        CopiedIsSame(es[i].value);
      }
      forall e | e in es ensures exists f | f in fs :: e.key == f.key && Same(e.value, f.value) {
        var i :| 0 <= i < |es| && es[i] == e;
        assert fs[i] in fs;
      }
      assert Copied(Copied(v)).entries == fs;
    case _ =>
  }

  /** A record whose given parts have been replaced by clones. */
  function MergedParts(existing: seq<Json>, vs: seq<Option<Json>>): (r: seq<Json>)
    requires |vs| == |existing|
    ensures |r| == |existing|
    ensures forall i :: 0 <= i < |r| ==> r[i] == if vs[i].Some? then Cloned(vs[i].value) else existing[i]
  {
    seq(|existing|, i requires 0 <= i < |existing| => if vs[i].Some? then Cloned(vs[i].value) else existing[i])
  }

  lemma MergedClones(existing: seq<Json>, vs: seq<Option<Json>>)
    requires |vs| == |existing| && ClonedAll(existing) == existing
    ensures ClonedAll(MergedParts(existing, vs)) == MergedParts(existing, vs)
  {
    forall i | 0 <= i < |vs| ensures Cloned(MergedParts(existing, vs)[i]) == MergedParts(existing, vs)[i] {
      if vs[i].Some? {
        CopiedIsSame(vs[i].value);
      } else {
        assert ClonedAll(existing)[i] == Cloned(existing[i]);
      }
    }
  }

  ghost predicate RepresentsGiven(rs: seq<Option<Ref>>, vs: seq<Option<Json>>, nodes: set<JsonNode>)
    reads nodes
  {
    && |rs| == |vs|
    && forall i | 0 <= i < |vs| ::
         rs[i].Some? == vs[i].Some? && (vs[i].Some? ==> Represents(rs[i].value, vs[i].value, nodes))
  }

  lemma ClonedTwice(vs: seq<Json>)
    ensures ClonedAll(ClonedAll(vs)) == ClonedAll(vs)
  {
    forall i | 0 <= i < |vs| ensures Cloned(Cloned(vs[i])) == Cloned(vs[i]) {
      CopiedIsSame(vs[i]);
    }
  }

  lemma {:induction false} Widen(r: Ref, v: Json, nodes: set<JsonNode>, more: set<JsonNode>)
    requires Represents(r, v, nodes) && nodes <= more
    ensures Represents(r, v, more)
    decreases v
  {
    if IsTree(v) {
      forall i | 0 <= i < |Parts(v)| ensures Represents(r.node.parts[i], Parts(v)[i], more) {
        Widen(r.node.parts[i], Parts(v)[i], nodes, more);
      }
    }
  }

  lemma WidenAll(rs: seq<Ref>, vs: seq<Json>, nodes: set<JsonNode>, more: set<JsonNode>)
    requires RepresentsAll(rs, vs, nodes) && nodes <= more
    ensures RepresentsAll(rs, vs, more)
  {
    forall i | 0 <= i < |vs| ensures Represents(rs[i], vs[i], more) {
      Widen(rs[i], vs[i], nodes, more);
    }
  }

  lemma PrimitiveCopied(v: Json)
    requires !IsTree(v)
    ensures Copied(v) == if v.Num? then Num(v.d.Printed()) else v
  {
  }

  // ---------------------------------------------------------------- deep copies

  /** Writing a value as text and parsing it: every array and object of the copy is new. */
  method DeepCopy(r: Ref, ghost v: Json, ghost nodes: set<JsonNode>)
    returns (c: Ref, ghost own: set<JsonNode>)
    requires Represents(r, v, nodes)
    ensures fresh(own) && Represents(c, Copied(v), own)
    decreases v
  {
    hide Copied, Keys;
    match r
    case Primitive(value) =>
      PrimitiveCopied(v);
      own := {};
      c := Primitive(if value.Num? then Num(value.d.Printed()) else value);
    case Tree(node) =>
      CopiedParts(v);
      var parts: seq<Ref> := [];
      own := {};
      var i := 0;
      while i < |node.parts|
        invariant 0 <= i <= |node.parts| && |parts| == i && fresh(own)
        invariant RepresentsAll(parts, Parts(Copied(v))[..i], own)
      {
        var part, more := DeepCopy(node.parts[i], Parts(v)[i], nodes);
        WidenAll(parts, Parts(Copied(v))[..i], own, own + more);
        Widen(part, Copied(Parts(v)[i]), more, own + more);
        parts, own := parts + [part], own + more;
        i := i + 1;
      }
      var copy := new JsonNode(node.isArray, node.keys, parts);
      assert Parts(Copied(v))[..i] == Parts(Copied(v));
      WidenAll(parts, Parts(Copied(v)), own, own + {copy});
      c, own := Tree(copy), own + {copy};
  }

  method CloneJsonValue(r: Ref, ghost v: Json, ghost nodes: set<JsonNode>)
    returns (c: Ref, ghost own: set<JsonNode>)
    requires Represents(r, v, nodes)
    ensures fresh(own) && Represents(c, Cloned(v), own)
  {
    if r.Primitive? {
      c, own := r, {};
    } else {
      c, own := DeepCopy(r, v, nodes);
    }
  }

  method CloneAll(rs: seq<Ref>, ghost vs: seq<Json>, ghost nodes: set<JsonNode>)
    returns (cs: seq<Ref>, ghost own: set<JsonNode>)
    requires RepresentsAll(rs, vs, nodes)
    ensures fresh(own) && RepresentsAll(cs, ClonedAll(vs), own)
  {
    cs, own := [], {};
    var i := 0;
    while i < |rs|
      invariant 0 <= i <= |rs| && |cs| == i && fresh(own)
      invariant RepresentsAll(cs, ClonedAll(vs)[..i], own)
    {
      var c, more := CloneJsonValue(rs[i], vs[i], nodes);
      WidenAll(cs, ClonedAll(vs)[..i], own, own + more);
      Widen(c, Cloned(vs[i]), more, own + more);
      cs, own := cs + [c], own + more;
      i := i + 1;
    }
    assert ClonedAll(vs)[..i] == ClonedAll(vs);
  }

  // ---------------------------------------------------------------- the store's records

  /** The JSON parts of the stored records, by record; `values` is what they read as. */
  class JsonRecords {
    var records: seq<seq<Ref>>
    ghost var values: seq<seq<Json>>
    ghost var Repr: set<JsonNode>

    ghost predicate Valid()
      reads this, Repr
    {
      && |records| == |values|
      && forall k | 0 <= k < |values| ::
           RepresentsAll(records[k], values[k], Repr) && ClonedAll(values[k]) == values[k]
    }

    constructor ()
      ensures Valid() && values == [] && Repr == {}
    {
      records, values, Repr := [], [], {};
    }

    /** Store copies of the caller's parts and return copies of what was stored. */
    method Create(parts: seq<Ref>, ghost vs: seq<Json>, ghost nodes: set<JsonNode>)
      returns (result: seq<Ref>, ghost out: set<JsonNode>)
      requires Valid() && RepresentsAll(parts, vs, nodes)
      modifies this
      ensures Valid() && values == old(values) + [ClonedAll(vs)]
      ensures old(Repr) <= Repr && fresh(Repr - old(Repr))
      ensures fresh(out) && out !! Repr && RepresentsAll(result, ClonedAll(vs), out)
    {
      ClonedTwice(vs);
      var stored, own := CloneAll(parts, vs, nodes);
      KeepAll(own);
      WidenAll(stored, ClonedAll(vs), own, Repr + own);
      records, values, Repr := records + [stored], values + [ClonedAll(vs)], Repr + own;
      result, out := CloneAll(stored, ClonedAll(vs), own);
    }

    /** Copies of one record's parts. */
    method Get(k: nat) returns (result: seq<Ref>, ghost out: set<JsonNode>)
      requires Valid() && k < |values|
      ensures fresh(out) && RepresentsAll(result, values[k], out)
    {
      result, out := CloneAll(records[k], values[k], Repr);
    }

    /** Replace the given parts of a record by copies and keep its other parts as they are. */
    method Update(k: nat, given: seq<Option<Ref>>, ghost vs: seq<Option<Json>>, ghost nodes: set<JsonNode>)
      returns (result: seq<Ref>, ghost out: set<JsonNode>)
      requires Valid() && k < |values| && |vs| == |values[k]| && RepresentsGiven(given, vs, nodes)
      modifies this
      ensures Valid() && values == old(values)[k := MergedParts(old(values)[k], vs)]
      ensures old(Repr) <= Repr && fresh(Repr - old(Repr))
      ensures fresh(out) && out !! Repr && RepresentsAll(result, values[k], out)
    {
      hide Represents, Copied, Cloned;
      ghost var merged := MergedParts(values[k], vs);
      assert RepresentsAll(records[k], values[k], Repr);
      var updated: seq<Ref> := [];
      ghost var own: set<JsonNode> := {};
      var i := 0;
      while i < |given|
        invariant 0 <= i <= |given| && |updated| == i && fresh(own)
        invariant Valid() && RepresentsAll(updated, merged[..i], Repr + own)
        modifies {}
      {
        if given[i].Some? {
          var c, more := CloneJsonValue(given[i].value, vs[i].value, nodes);
          WidenAll(updated, merged[..i], Repr + own, Repr + own + more);
          Widen(c, Cloned(vs[i].value), more, Repr + own + more);
          updated, own := updated + [c], own + more;
          assert Repr + own == Repr + (own - more) + more;
        } else {
          Widen(records[k][i], values[k][i], Repr, Repr + own);
          updated := updated + [records[k][i]];
        }
        i := i + 1;
      }
      assert merged[..i] == merged;
      KeepAll(own);
      MergedClones(values[k], vs);
      records, values, Repr := records[k := updated], values[k := merged], Repr + own;
      result, out := CloneAll(updated, merged, Repr);
    }

    lemma KeepAll(own: set<JsonNode>)
      requires Valid()
      ensures forall k | 0 <= k < |values| :: RepresentsAll(records[k], values[k], Repr + own)
    {
      forall k | 0 <= k < |values| ensures RepresentsAll(records[k], values[k], Repr + own) {
        WidenAll(records[k], values[k], Repr, Repr + own);
      }
    }

    /** A transaction's captured state shares nothing with the live one. */
    method CaptureState() returns (saved: seq<seq<Ref>>, ghost own: set<JsonNode>)
      requires Valid()
      ensures fresh(own)
      ensures |saved| == |values| && forall k | 0 <= k < |values| :: RepresentsAll(saved[k], values[k], own)
    {
      saved, own := [], {};
      var k := 0;
      while k < |records|
        invariant 0 <= k <= |records| && |saved| == k && fresh(own)
        invariant forall j | 0 <= j < k :: RepresentsAll(saved[j], values[j], own)
      {
        var copies, more := CloneAll(records[k], values[k], Repr);
        forall j | 0 <= j < k ensures RepresentsAll(saved[j], values[j], own + more) {
          WidenAll(saved[j], values[j], own, own + more);
        }
        WidenAll(copies, values[k], more, own + more);
        saved, own := saved + [copies], own + more;
        k := k + 1;
      }
    }

    /** Put the captured records back, themselves: nobody else holds them. */
    method RestoreState(saved: seq<seq<Ref>>, ghost vss: seq<seq<Json>>, ghost own: set<JsonNode>)
      requires |saved| == |vss|
      requires forall k | 0 <= k < |vss| ::
        RepresentsAll(saved[k], vss[k], own) && ClonedAll(vss[k]) == vss[k]
      modifies this
      ensures Valid() && values == vss && Repr == own
    {
      records, values, Repr := saved, vss, own;
    }
  }

  // ---------------------------------------------------------------- what a caller can do

  /** A caller makes a JSON value of its own. */
  method Build(v: Json) returns (r: Ref, ghost own: set<JsonNode>)
    ensures fresh(own) && Represents(r, v, own)
    decreases v
  {
    if !IsTree(v) {
      r, own := Primitive(v), {};
    } else {
      var parts: seq<Ref>;
      parts, own := BuildParts(v);
      var node := new JsonNode(v.Arr?, Keys(v), parts);
      WidenAll(parts, Parts(v), own, own + {node});
      r, own := Tree(node), own + {node};
    }
  }

  method BuildParts(v: Json) returns (parts: seq<Ref>, ghost own: set<JsonNode>)
    ensures fresh(own) && RepresentsAll(parts, Parts(v), own)
    decreases v, 0
  {
    parts, own := [], {};
    var i := 0;
    while i < |Parts(v)|
      invariant 0 <= i <= |Parts(v)| && |parts| == i && fresh(own)
      invariant RepresentsAll(parts, Parts(v)[..i], own)
    {
      var part, more := Build(Parts(v)[i]);
      WidenAll(parts, Parts(v)[..i], own, own + more);
      Widen(part, Parts(v)[i], more, own + more);
      parts, own := parts + [part], own + more;
      i := i + 1;
    }
    assert Parts(v)[..i] == Parts(v);
  }

  method BuildAll(vs: seq<Json>) returns (rs: seq<Ref>, ghost own: set<JsonNode>)
    ensures fresh(own) && RepresentsAll(rs, vs, own)
  {
    rs, own := BuildParts(Arr(vs));
  }

  method BuildGiven(vs: seq<Option<Json>>) returns (rs: seq<Option<Ref>>, ghost own: set<JsonNode>)
    ensures fresh(own) && RepresentsGiven(rs, vs, own)
  {
    rs, own := [], {};
    var i := 0;
    while i < |vs|
      invariant 0 <= i <= |vs| && |rs| == i && fresh(own)
      invariant RepresentsGiven(rs, vs[..i], own)
    {
      if vs[i].Some? {
        var r, more := Build(vs[i].value);
        WidenGiven(rs, vs[..i], own, own + more);
        Widen(r, vs[i].value, more, own + more);
        rs, own := rs + [Some(r)], own + more;
      } else {
        rs := rs + [None];
      }
      i := i + 1;
    }
    assert vs[..i] == vs;
  }

  lemma WidenGiven(rs: seq<Option<Ref>>, vs: seq<Option<Json>>, nodes: set<JsonNode>, more: set<JsonNode>)
    requires RepresentsGiven(rs, vs, nodes) && nodes <= more
    ensures RepresentsGiven(rs, vs, more)
  {
    forall i | 0 <= i < |vs| && vs[i].Some? ensures Represents(rs[i].value, vs[i].value, more) {
      Widen(rs[i].value, vs[i].value, nodes, more);
    }
  }

  /** A call of the store with JSON arguments, or the start or abort of a transaction. */
  datatype Call =
    | CreateCall(parts: seq<Json>)
    | GetCall(k: nat)
    | UpdateCall(k: nat, given: seq<Option<Json>>)
    | CaptureCall
    | RestoreCall

  /** What the store holds, and what the open transaction has captured. */
  datatype Kept = Kept(values: seq<seq<Json>>, saved: Option<seq<seq<Json>>>)

  function After(kept: Kept, call: Call): Kept {
    match call
    case CreateCall(parts) => kept.(values := kept.values + [ClonedAll(parts)])
    case GetCall(_) => kept
    case UpdateCall(k, given) =>
      if k < |kept.values| && |given| == |kept.values[k]|
      then kept.(values := kept.values[k := MergedParts(kept.values[k], given)]) else kept
    case CaptureCall => kept.(saved := Some(kept.values))
    case RestoreCall => if kept.saved.Some? then Kept(kept.saved.value, None) else kept
  }

  function Replay(calls: seq<Call>): Kept {
    if calls == [] then Kept([], None)
    else After(Replay(calls[..|calls| - 1]), calls[|calls| - 1])
  }

  ghost predicate Holds(saved: seq<seq<Ref>>, vss: seq<seq<Json>>, own: set<JsonNode>)
    reads own
  {
    && |saved| == |vss|
    && forall k | 0 <= k < |vss| :: RepresentsAll(saved[k], vss[k], own) && ClonedAll(vss[k]) == vss[k]
  }

  /** A caller builds arguments and creates a record; it then holds the arguments and the result. */
  method CallCreate(records: JsonRecords, parts: seq<Json>) returns (ghost reached: set<JsonNode>)
    requires records.Valid()
    modifies records
    ensures records.Valid() && records.values == old(records.values) + [ClonedAll(parts)]
    ensures old(records.Repr) <= records.Repr && fresh(records.Repr - old(records.Repr))
    ensures fresh(reached) && reached !! records.Repr
  {
    hide Represents, RepresentsAll, ClonedAll;
    var args, given := BuildAll(parts);
    var result, out := records.Create(args, parts, given);
    reached := given + out;
  }

  /** The same for an update, which the store refuses for an unknown record. */
  method CallUpdate(records: JsonRecords, k: nat, vs: seq<Option<Json>>) returns (ghost reached: set<JsonNode>)
    requires records.Valid()
    modifies records
    ensures records.Valid()
    ensures records.values == if k < |old(records.values)| && |vs| == |old(records.values)[k]|
      then old(records.values)[k := MergedParts(old(records.values)[k], vs)] else old(records.values)
    ensures old(records.Repr) <= records.Repr && fresh(records.Repr - old(records.Repr))
    ensures fresh(reached) && reached !! records.Repr
  {
    hide Represents, RepresentsGiven, RepresentsAll, MergedParts;
    reached := {};
    if k < |records.records| {
      assert RepresentsAll(records.records[k], records.values[k], records.Repr);
      SameLength(records.records[k], records.values[k], records.Repr);
      if |vs| == |records.records[k]| {
        var args, given := BuildGiven(vs);
        var result, out := records.Update(k, args, vs, given);
        reached := given + out;
      }
    }
  }

  /**
   Any history of calls by a caller that, before every call, overwrites in any way it likes every
   array and object it ever passed in or got back: the store ends with exactly the values the calls
   alone determine, and owns no object the caller holds.
   */
  method AnyHistory(calls: seq<Call>) returns (records: JsonRecords, ghost held: set<JsonNode>)
    ensures fresh(records) && records.Valid() && records.values == Replay(calls).values
    ensures held !! records.Repr
  {
    hide Represents, RepresentsAll, RepresentsGiven, MergedParts, ClonedAll, Cloned, Copied;
    records := new JsonRecords();
    held := {};
    var saved: seq<seq<Ref>> := [];
    ghost var own: set<JsonNode> := {};
    var captured := false;
    var i := 0;
    while i < |calls|
      invariant 0 <= i <= |calls|
      invariant fresh(records) && fresh(records.Repr) && fresh(held) && fresh(own)
      invariant records.Valid() && held !! records.Repr && held !! own
      invariant records.values == Replay(calls[..i]).values && captured == Replay(calls[..i]).saved.Some?
      invariant captured ==> Holds(saved, Replay(calls[..i]).saved.value, own)
    {
      assert calls[..i + 1][..i] == calls[..i];
      modify held;
      match calls[i] {
        case CreateCall(parts) =>
          ghost var reached := CallCreate(records, parts);
          held := held + reached;
        case GetCall(k) =>
          if k < |records.records| {
            var result, out := records.Get(k);
            held := held + out;
          }
        case UpdateCall(k, vs) =>
          ghost var reached := CallUpdate(records, k, vs);
          held := held + reached;
        case CaptureCall =>
          saved, own := records.CaptureState();
          captured := true;
        case RestoreCall =>
          if captured {
            records.RestoreState(saved, Replay(calls[..i]).saved.value, own);
            own, captured := {}, false;
          }
      }
      i := i + 1;
    }
    assert calls[..i] == calls;
  }

  lemma SameLength(rs: seq<Ref>, vs: seq<Json>, nodes: set<JsonNode>)
    requires RepresentsAll(rs, vs, nodes)
    ensures |rs| == |vs|
  {
  }
}
