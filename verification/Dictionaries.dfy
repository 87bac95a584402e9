/** The schema dictionary and the union a chain builds from its files' dictionaries
    (src/schema/types.rs, src/schema/dict.rs, src/read/chain.rs). */
module Dictionaries {
  import opened Bytes
  import opened Schemas
  import opened Events

  const MISSING: u16 := 0xFFFF

  function SchemaId(s: Schema): Id { (s.group, s.item) }

  // ---- SchemaIndex --------------------------------------------------------

  /** The flat `(group << 8) | item` table. Its empty mark is also a legal schema number. */
  datatype SchemaIndex = SchemaIndex(table: seq<u16>) {
    static function Key(id: Id): nat { id.0 as int * 256 + id.1 as int }

    function Insert(id: Id, idx: u16): (r: SchemaIndex)
      ensures forall other :: r.Get(other) == if other == id then Slot(idx) else Get(other)
    {
      var k := Key(id);
      var grown := if k >= |table| then table + seq(k + 1 - |table|, _ => MISSING) else table;
      var r := SchemaIndex(grown[k := idx]);
      assert forall other :: Key(other) == k ==> other == id by {
        forall other: Id | Key(other) == k ensures other == id { KeyInjective(other, id); }
      }
      r
    }

    function Get(id: Id): Option<u16>
    {
      var k := Key(id);
      if k < |table| then Slot(table[k]) else None
    }
  }

  lemma KeyInjective(a: Id, b: Id)
    requires SchemaIndex.Key(a) == SchemaIndex.Key(b)
    ensures a == b
  {
    assert a.0 as int == SchemaIndex.Key(a) / 256;
    assert b.0 as int == SchemaIndex.Key(b) / 256;
  }

  function Slot(idx: u16): Option<u16> { if idx == MISSING then None else Some(idx) }

  // ---- Dict ---------------------------------------------------------------

  ghost predicate UniqueNames(ss: seq<Schema>)
  {
    forall i, j :: 0 <= i < j < |ss| ==> ss[i].name != ss[j].name
  }

  ghost predicate UniqueIds(ss: seq<Schema>)
  {
    forall i, j :: 0 <= i < j < |ss| ==> SchemaId(ss[i]) != SchemaId(ss[j])
  }

  ghost predicate IndexedBy(schemas: seq<Schema>, byId: SchemaIndex)
  {
    && UniqueIds(schemas) && |schemas| <= U16_LIMIT
    && (forall i :: 0 <= i < |schemas| ==> byId.Get(SchemaId(schemas[i])) == Slot(i))
    && (forall id :: (forall i :: 0 <= i < |schemas| ==> SchemaId(schemas[i]) != id) ==> byId.Get(id) == None)
  }

  lemma IndexedGrows(schemas: seq<Schema>, byId: SchemaIndex, s: Schema)
    requires IndexedBy(schemas, byId) && |schemas| < U16_LIMIT
    requires forall t :: t in schemas ==> SchemaId(t) != SchemaId(s)
    ensures IndexedBy(schemas + [s], byId.Insert(SchemaId(s), |schemas|))
  {
    var grown, index := schemas + [s], byId.Insert(SchemaId(s), |schemas|);
    forall i | 0 <= i < |grown|
      ensures index.Get(SchemaId(grown[i])) == Slot(i)
    {
      if i < |schemas| {
        assert schemas[i] in schemas;
      }
    }
    forall id | forall i :: 0 <= i < |grown| ==> SchemaId(grown[i]) != id
      ensures index.Get(id) == None
    {
      assert SchemaId(grown[|schemas|]) != id;
      assert forall i :: 0 <= i < |schemas| ==> SchemaId(schemas[i]) == SchemaId(grown[i]);
    }
  }

  class Dict {
    var schemas: seq<Schema>
    var byName: map<string, nat>
    var byId: SchemaIndex

    ghost predicate Valid()
      reads this
    {
      && |schemas| <= U16_LIMIT
      && UniqueNames(schemas)
      && (forall i :: 0 <= i < |schemas| ==> schemas[i].name in byName && byName[schemas[i].name] == i)
      && (forall n :: n in byName ==> byName[n] < |schemas| && schemas[byName[n]].name == n)
      && (forall id :: byId.Get(id).Some? ==> byId.Get(id).value < |schemas|)
    }

    /** Every id resolves to its own schema. Holds while no name is replaced under a new id. */
    ghost predicate Indexed()
      reads this
    {
      IndexedBy(schemas, byId)
    }

    constructor ()
      ensures Valid() && Indexed() && schemas == []
    {
      schemas, byName, byId := [], map[], SchemaIndex([]);
    }

    function Get(name: string): (r: Option<Schema>)
      reads this
      requires Valid()
      ensures r.Some? ==> r.value in schemas && r.value.name == name
      ensures r.None? <==> forall s :: s in schemas ==> s.name != name
    {
      if name in byName then Some(schemas[byName[name]]) else None
    }

    function GetById(id: Id): (r: Option<Schema>)
      reads this
      requires Valid()
    {
      match byId.Get(id)
      case None => None
      case Some(i) => Some(schemas[i])
    }

    /** `Dict::try_add`. A replaced schema keeps its number; its old id entry survives. */
    method TryAdd(s: Schema) returns (ok: bool)
      requires Valid()
      modifies this
      ensures Valid()
      ensures ok <==> old(Get(s.name)).Some? || old(|schemas|) < U16_LIMIT
      ensures !ok ==> schemas == old(schemas) && byName == old(byName) && byId == old(byId)
      ensures ok && old(Get(s.name)).None? ==> schemas == old(schemas) + [s]
      ensures ok && old(Get(s.name)).Some? ==> exists i ::
                0 <= i < |old(schemas)| && old(schemas)[i].name == s.name && schemas == old(schemas)[i := s]
      ensures ok ==> Get(s.name) == Some(s)
      ensures ok ==>
        s.name in byName && byName[s.name] < U16_LIMIT && byId == old(byId).Insert(SchemaId(s), byName[s.name])
      ensures ok && old(Indexed()) && old(Get(s.name)).None? && (forall t :: t in old(schemas) ==> SchemaId(t) != SchemaId(s))
              ==> Indexed()
    {
      hide IndexedBy, SchemaIndex.Get, SchemaIndex.Insert, SchemaId;
      if s.name in byName {
        var idx := byName[s.name];
        // A number past the u16 range cannot occur: the list never holds more.
        byId := byId.Insert(SchemaId(s), idx);
        schemas := schemas[idx := s];
        return true;
      }
      if |schemas| >= U16_LIMIT {
        return false;
      }
      var idx := |schemas|;
      if IndexedBy(schemas, byId) && (forall t :: t in schemas ==> SchemaId(t) != SchemaId(s)) {
        IndexedGrows(schemas, byId, s);
      }
      byId := byId.Insert(SchemaId(s), idx);
      byName := byName[s.name := idx];
      schemas := schemas + [s];
      ok := true;
      assert schemas[idx] == s;
    }
  }

  // ---- The union ----------------------------------------------------------

  /** One name never means two layouts, one id never means two names. */
  ghost predicate Compatible(ss: seq<Schema>)
  {
    forall s, t :: s in ss && t in ss ==>
      && (s.name == t.name ==> s == t)
      && (SchemaId(s) == SchemaId(t) ==> s.name == t.name)
  }

  /** Each schema once, where it first appears. */
  function Firsts(ss: seq<Schema>): (r: seq<Schema>)
    ensures forall s :: s in r <==> s in ss
  {
    if ss == [] then []
    else
      var n := |ss| - 1;
      var r := Firsts(ss[..n]);
      assert ss == ss[..n] + [ss[n]];
      if ss[n] in r then r else r + [ss[n]]
  }

  lemma {:induction false} FirstsDistinct(ss: seq<Schema>)
    ensures forall i, j :: 0 <= i < j < |Firsts(ss)| ==> Firsts(ss)[i] != Firsts(ss)[j]
  {
    if ss != [] {
      FirstsDistinct(ss[..|ss| - 1]);
    }
  }

  lemma {:induction false} FirstsPrefix(a: seq<Schema>, b: seq<Schema>)
    ensures Firsts(a) <= Firsts(a + b)
    decreases |b|
  {
    if b == [] {
      assert a + b == a;
    } else {
      assert (a + b)[..|a + b| - 1] == a + b[..|b| - 1];
      FirstsPrefix(a, b[..|b| - 1]);
    }
  }

  lemma {:induction false} FirstsOfDistinct(a: seq<Schema>)
    requires UniqueNames(a)
    ensures Firsts(a) == a
  {
    if a != [] {
      var n := |a| - 1;
      assert UniqueNames(a[..n]);
      FirstsOfDistinct(a[..n]);
      assert a == a[..n] + [a[n]];
    }
  }

  /** The schemas the chain has seen after `i` schemas of file `f`. */
  function Seen(dicts: seq<seq<Schema>>, f: nat, i: nat): seq<Schema>
    requires f < |dicts| && i <= |dicts[f]|
  {
    Flatten(dicts[..f]) + dicts[f][..i]
  }

  lemma SeenAll(dicts: seq<seq<Schema>>, f: nat)
    requires f < |dicts|
    ensures Seen(dicts, f, |dicts[f]|) == Flatten(dicts[..f + 1])
  {
    assert dicts[..f + 1] == dicts[..f] + [dicts[f]];
    FlattenSnoc(dicts[..f], dicts[f]);
  }

  lemma SeenStep(dicts: seq<seq<Schema>>, f: nat, i: nat)
    requires f < |dicts| && i < |dicts[f]|
    ensures Seen(dicts, f, i + 1) == Seen(dicts, f, i) + [dicts[f][i]]
    ensures dicts[f][i] in Flatten(dicts)
    ensures forall s :: s in Seen(dicts, f, i) ==> s in Flatten(dicts)
    ensures |Firsts(Seen(dicts, f, i + 1))| <= |Firsts(Flatten(dicts))|
  {
    assert dicts == dicts[..f] + ([dicts[f]] + dicts[f + 1..]);
    FlattenAppend(dicts[..f], [dicts[f]] + dicts[f + 1..]);
    var rest := dicts[f][i + 1..] + Flatten(dicts[f + 1..]);
    assert ([dicts[f]] + dicts[f + 1..])[1..] == dicts[f + 1..];
    assert dicts[f] == dicts[f][..i + 1] + dicts[f][i + 1..];
    assert Flatten(dicts) == Seen(dicts, f, i + 1) + rest;
    FirstsPrefix(Seen(dicts, f, i + 1), rest);
    assert Seen(dicts, f, i + 1) == Seen(dicts, f, i) + [dicts[f][i]];
  }

  /** The claim table of the walk: every stored schema owns its id. */
  ghost predicate Owners(ids: map<Id, string>, ss: seq<Schema>)
  {
    && (forall s :: s in ss ==> SchemaId(s) in ids && ids[SchemaId(s)] == s.name)
    && (forall id :: id in ids ==> exists s :: s in ss && SchemaId(s) == id && s.name == ids[id])
  }

  lemma FirstsSnoc(seen: seq<Schema>, s: Schema)
    ensures Firsts(seen + [s]) == if s in seen then Firsts(seen) else Firsts(seen) + [s]
  {
    assert (seen + [s])[..|seen|] == seen;
  }

  lemma CompatibleSnoc(seen: seq<Schema>, s: Schema)
    requires Compatible(seen)
    requires forall t :: t in seen ==>
      (t.name == s.name ==> t == s) && (SchemaId(t) == SchemaId(s) ==> t.name == s.name)
    ensures Compatible(seen + [s])
  {
  }

  /** A second schema under a stored name is either the same one or a conflict. */
  lemma KnownName(seen: seq<Schema>, s: Schema, earlier: Schema)
    requires Compatible(seen)
    requires earlier in seen && earlier.name == s.name
    ensures earlier == s ==> Compatible(seen + [s]) && Firsts(seen + [s]) == Firsts(seen)
    ensures earlier != s ==> !Compatible(seen + [s])
  {
    hide Firsts;
    FirstsSnoc(seen, s);
    if earlier == s {
      forall t | t in seen
        ensures (t.name == s.name ==> t == s) && (SchemaId(t) == SchemaId(s) ==> t.name == s.name)
      {
        assert earlier in seen;
      }
      CompatibleSnoc(seen, s);
    } else {
      assert earlier in seen + [s] && s in seen + [s];
    }
  }

  /** A new name joins unless its id already belongs to another. */
  lemma NewName(seen: seq<Schema>, s: Schema, ids: map<Id, string>)
    requires Compatible(seen) && Owners(ids, Firsts(seen))
    requires forall t :: t in seen ==> t.name != s.name
    ensures SchemaId(s) in ids ==> ids[SchemaId(s)] != s.name && !Compatible(seen + [s])
    ensures SchemaId(s) !in ids ==>
              && Compatible(seen + [s])
              && Firsts(seen + [s]) == Firsts(seen) + [s]
              && Owners(ids[SchemaId(s) := s.name], Firsts(seen + [s]))
              && (forall t :: t in Firsts(seen) ==> SchemaId(t) != SchemaId(s))
  {
    FirstsSnoc(seen, s);
    if SchemaId(s) in ids {
      var t :| t in Firsts(seen) && SchemaId(t) == SchemaId(s) && t.name == ids[SchemaId(s)];
      assert t in seen + [s] && s in seen + [s];
    } else {
      assert forall t :: t in seen ==> t in Firsts(seen);
      CompatibleSnoc(seen, s);
      var grown := Firsts(seen) + [s];
      var claims := ids[SchemaId(s) := s.name];
      forall id | id in claims
        ensures exists t :: t in grown && SchemaId(t) == id && t.name == claims[id]
      {
        if id == SchemaId(s) {
          assert s in grown;
        } else {
          var t :| t in Firsts(seen) && SchemaId(t) == id && t.name == ids[id];
          assert t in grown;
        }
      }
    }
  }

  lemma CompatiblePart(part: seq<Schema>, whole: seq<Schema>)
    requires forall s :: s in part ==> s in whole
    requires Compatible(whole)
    ensures Compatible(part)
  {
  }

  /** `union_dict`: walk every file's schemas in order, refusing a name or an id that already
      means something else. */
  method UnionDict(dicts: seq<seq<Schema>>) returns (r: Option<Dict>)
    ensures r.Some? <==> Compatible(Flatten(dicts)) && |Firsts(Flatten(dicts))| <= U16_LIMIT
    ensures r.Some? ==> fresh(r.value) && r.value.Valid() && r.value.Indexed()
    ensures r.Some? ==> r.value.schemas == Firsts(Flatten(dicts))
  {
    hide *;
    var union := new Dict();
    var ids: map<Id, string> := map[];
    Start(dicts);
    var f := 0;
    while f < |dicts|
      invariant f <= |dicts|
      invariant fresh(union) && union.Valid() && union.Indexed()
      invariant Compatible(Flatten(dicts[..f]))
      invariant union.schemas == Firsts(Flatten(dicts[..f]))
      invariant Owners(ids, union.schemas)
    {
      var i := 0;
      SeenNone(dicts, f);
      while i < |dicts[f]|
        invariant i <= |dicts[f]|
        invariant fresh(union) && union.Valid() && union.Indexed()
        invariant Compatible(Seen(dicts, f, i))
        invariant union.schemas == Firsts(Seen(dicts, f, i))
        invariant Owners(ids, union.schemas)
      {
        var schema := dicts[f][i];
        ghost var seen := Seen(dicts, f, i);
        Within(dicts, f, i);
        match union.Get(schema.name) {
          case Some(earlier) =>
            KnownName(seen, schema, earlier);
            if earlier != schema {
              return None;
            }
          case None =>
            NewName(seen, schema, ids);
            if SchemaId(schema) in ids && ids[SchemaId(schema)] != schema.name {
              return None;
            }
            var ok := union.TryAdd(schema);
            if !ok {
              return None;
            }
            ids := ids[SchemaId(schema) := schema.name];
        }
        i := i + 1;
      }
      SeenAll(dicts, f);
      f := f + 1;
    }
    assert dicts[..f] == dicts;
    Bounded(union);
    r := Some(union);
  }

  lemma Bounded(d: Dict)
    requires d.Valid()
    ensures |d.schemas| <= U16_LIMIT
  {
  }

  lemma Start(dicts: seq<seq<Schema>>)
    ensures Compatible(Flatten(dicts[..0])) && Firsts(Flatten(dicts[..0])) == []
    ensures Owners(map[], [])
  {
  }

  lemma SeenNone(dicts: seq<seq<Schema>>, f: nat)
    requires f < |dicts|
    ensures Seen(dicts, f, 0) == Flatten(dicts[..f])
  {
  }

  lemma Within(dicts: seq<seq<Schema>>, f: nat, i: nat)
    requires f < |dicts| && i < |dicts[f]|
    ensures Seen(dicts, f, i + 1) == Seen(dicts, f, i) + [dicts[f][i]]
    ensures Compatible(Flatten(dicts)) ==> Compatible(Seen(dicts, f, i + 1))
    ensures |Firsts(Seen(dicts, f, i + 1))| <= |Firsts(Flatten(dicts))|
    ensures forall s :: s in Firsts(Seen(dicts, f, i)) <==> s in Seen(dicts, f, i)
  {
    hide Firsts;
    SeenStep(dicts, f, i);
    if Compatible(Flatten(dicts)) {
      CompatiblePart(Seen(dicts, f, i + 1), Flatten(dicts));
    }
  }

  // ---- What the chain promises -------------------------------------------

  lemma SameSchemas(a: seq<seq<Schema>>, b: seq<seq<Schema>>)
    requires multiset(a) == multiset(b)
    ensures forall s :: s in Flatten(a) <==> s in Flatten(b)
  {
    forall s
      ensures s in Flatten(a) <==> s in Flatten(b)
    {
      hide Flatten;
      FlattenMember(a, s);
      FlattenMember(b, s);
      assert forall d :: d in a <==> d in multiset(a);
      assert forall d :: d in b <==> d in multiset(b);
    }
  }

  /** Listing the files in another order changes neither the verdict nor the schemas kept. */
  lemma UnionOrderFree(a: seq<seq<Schema>>, b: seq<seq<Schema>>)
    requires multiset(a) == multiset(b)
    ensures Compatible(Flatten(a)) <==> Compatible(Flatten(b))
    ensures |Firsts(Flatten(a))| == |Firsts(Flatten(b))|
    ensures multiset(Firsts(Flatten(a))) == multiset(Firsts(Flatten(b)))
  {
    hide Flatten, Firsts;
    var x, y := Flatten(a), Flatten(b);
    SameSchemas(a, b);
    if Compatible(x) {
      CompatiblePart(y, x);
    }
    if Compatible(y) {
      CompatiblePart(x, y);
    }
    FirstsDistinct(x);
    FirstsDistinct(y);
    SameElementsSameMultiset(Firsts(x), Firsts(y));
    assert |multiset(Firsts(x))| == |Firsts(x)| && |multiset(Firsts(y))| == |Firsts(y)|;
  }

  /** The first file's schemas come first and in its order. */
  lemma FirstFileFirst(dicts: seq<seq<Schema>>)
    requires dicts != [] && UniqueNames(dicts[0])
    ensures dicts[0] <= Firsts(Flatten(dicts))
  {
    assert dicts == [dicts[0]] + dicts[1..];
    FirstsPrefix(dicts[0], Flatten(dicts[1..]));
    FirstsOfDistinct(dicts[0]);
  }

  /** Every file's bank resolves by name to that file's own schema. It resolves by id as well,
      except the schema numbered 65,535: that number doubles as the table's empty mark. */
  lemma BanksResolve(dicts: seq<seq<Schema>>, d: Dict, f: nat, i: nat)
    requires d.Valid() && d.Indexed() && d.schemas == Firsts(Flatten(dicts))
    requires f < |dicts| && i < |dicts[f]|
    ensures d.Get(dicts[f][i].name) == Some(dicts[f][i])
    ensures d.GetById(SchemaId(dicts[f][i])) == Some(dicts[f][i])
            <==> !(|d.schemas| == U16_LIMIT && d.schemas[U16_LIMIT - 1] == dicts[f][i])
  {
    hide Firsts;
    var s := dicts[f][i];
    SeenStep(dicts, f, i);
    assert s in d.schemas;
    var n :| 0 <= n < |d.schemas| && d.schemas[n] == s;
    assert d.byName[s.name] == n;
    assert d.byId.Get(SchemaId(s)) == Slot(n);
    if |d.schemas| == U16_LIMIT && d.schemas[U16_LIMIT - 1] == s {
      assert n == U16_LIMIT - 1;
    }
  }

  /** Ids nobody declared resolve to nothing. */
  lemma StrangersUnresolved(dicts: seq<seq<Schema>>, d: Dict, id: Id)
    requires d.Valid() && d.Indexed() && d.schemas == Firsts(Flatten(dicts))
    requires forall s :: s in Flatten(dicts) ==> SchemaId(s) != id
    ensures d.GetById(id) == None
  {
    hide Firsts;
    assert forall i :: 0 <= i < |d.schemas| ==> d.schemas[i] in d.schemas;
  }
}
