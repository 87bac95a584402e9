/** Event filters: clauses, binding to one dictionary, and the checks of the three layouts
    (src/read/filter.rs). */
module Filters {
  import opened Bytes
  import opened Bits
  import opened Events
  import opened Schemas
  import opened Records
  import opened Layouts
  import opened SplitParsers
  import opened RoundTrip
  import opened Dictionaries

  datatype Clauses = Clauses(names: seq<string>, recordTags: seq<nat>, eventTags: seq<u32>, eventTagMask: u32) {
    predicate TagActive() { eventTags != [] || eventTagMask != 0 }

    /** `tag_matches`: the list and the mask both hold, each only when it was given. */
    predicate TagMatches(tag: u32)
    {
      && (eventTags == [] || tag in eventTags)
      && (eventTagMask == 0 || And(tag, eventTagMask) != 0)
    }
  }

  /** A filter as the checks see it. */
  datatype Bound = Bound(clauses: Clauses, ids: seq<Id>, unsatisfiable: bool)

  function Named(schemas: seq<Schema>, name: string): (r: Option<Schema>)
    ensures r.Some? ==> r.value in schemas && r.value.name == name
    ensures r.None? <==> forall s :: s in schemas ==> s.name != name
  {
    if schemas == [] then None
    else if schemas[0].name == name then Some(schemas[0])
    else Named(schemas[1..], name)
  }

  class Filter {
    const clauses: Clauses
    var ids: seq<Id>
    var unsatisfiable: bool

    constructor (clauses: Clauses)
      ensures this.clauses == clauses && ids == [] && !unsatisfiable
    {
      this.clauses := clauses;
      ids, unsatisfiable := [], false;
    }

    function View(): Bound
      reads this
    {
      Bound(clauses, ids, unsatisfiable)
    }

    /** `Filter::bind`: whatever an earlier dictionary left is forgotten; a name this one does
        not declare makes the filter unsatisfiable. */
    method Bind(schemas: seq<Schema>)
      modifies this
      ensures View() == BoundTo(clauses, schemas)
    {
      ids := [];
      unsatisfiable := false;
      for k := 0 to |clauses.names|
        invariant ids == ResolvedIds(clauses.names[..k], schemas)
        invariant unsatisfiable == !AllDeclared(clauses.names[..k], schemas)
      {
        ghost var names := clauses.names[..k + 1];
        assert names[..k] == clauses.names[..k] && names[k] == clauses.names[k];
        match Named(schemas, clauses.names[k]) {
          case Some(s) => ids := ids + [SchemaId(s)];
          case None => unsatisfiable := true;
        }
      }
      assert clauses.names[..|clauses.names|] == clauses.names;
    }
  }

  function ResolvedIds(names: seq<string>, schemas: seq<Schema>): (r: seq<Id>)
  {
    if names == [] then []
    else ResolvedIds(names[..|names| - 1], schemas)
         + match Named(schemas, names[|names| - 1]) case Some(s) => [SchemaId(s)] case None => []
  }

  predicate AllDeclared(names: seq<string>, schemas: seq<Schema>)
  {
    forall k :: 0 <= k < |names| ==> Named(schemas, names[k]).Some?
  }

  function BoundTo(clauses: Clauses, schemas: seq<Schema>): Bound
  {
    Bound(clauses, ResolvedIds(clauses.names, schemas), !AllDeclared(clauses.names, schemas))
  }

  // ---- Checks -------------------------------------------------------------

  /** `Filter::check` on event bytes. */
  predicate Check(f: Bound, ev: seq<byte>)
  {
    && !f.unsatisfiable
    && (f.clauses.TagActive() ==> f.clauses.TagMatches(EventTag(ev)))
    && forall k :: 0 <= k < |f.ids| ==> Has(ev, f.ids[k])
  }

  /** `check_by_bank` and `check_per_column`: the same answer from the directory alone. */
  predicate CheckDirectory(f: Bound, d: Directory, e: nat)
    requires d.Valid() && e < d.Events()
  {
    && !f.unsatisfiable
    && (f.clauses.TagActive() ==> f.clauses.TagMatches(d.tags[e]))
    && forall k :: 0 <= k < |f.ids| ==> InDirectory(d, e, f.ids[k])
  }

  predicate InDirectory(d: Directory, e: nat, id: Id)
    requires d.Valid() && e < d.Events()
  {
    IndexOf(d.descriptors, id).Some? && d.Has(e, IndexOf(d.descriptors, id).value)
  }

  /** A filter as it was built, asked of one event's tag: the tag is in the list when there is one, and
      some bit is set in both tag and mask when there is a mask. */
  ghost predicate TagAsked(c: Clauses, tag: u32)
  {
    && (|c.eventTags| > 0 ==> exists k :: 0 <= k < |c.eventTags| && c.eventTags[k] == tag)
    && (c.eventTagMask > 0 ==> exists k: nat :: k < 32 && SetInBoth(tag, c.eventTagMask, k))
  }

  ghost predicate SetInBoth(a: nat, b: nat, k: nat)
  {
    a / Pow2(k) % 2 == 1 && b / Pow2(k) % 2 == 1
  }

  lemma TagVerdict(c: Clauses, tag: u32)
    ensures (c.TagActive() ==> c.TagMatches(tag)) <==> TagAsked(c, tag)
  {
    WordBits();
    hide And, Bit, Pow2;
    Meet(tag, c.eventTagMask, 32);
    forall k: nat
      ensures SetInBoth(tag, c.eventTagMask, k) <==> Bit(tag, k) && Bit(c.eventTagMask, k)
    {
      BitMeans(tag, k);
      BitMeans(c.eventTagMask, k);
    }
  }

  /** The bank a required name stands for is declared, and the event holds a structure of that id. */
  ghost predicate NameCarried(schemas: seq<Schema>, name: string, ev: seq<byte>)
  {
    Named(schemas, name).Some? && exists s :: s in Structures(ev) && IdOf(s) == SchemaId(Named(schemas, name).value)
  }

  /** The bank a required name stands for is declared, and the directory marks it in event `e`. */
  ghost predicate NameMarked(schemas: seq<Schema>, name: string, d: Directory, e: nat)
  {
    && Named(schemas, name).Some?
    && exists b: nat :: b < |d.descriptors| && DescriptorId(d.descriptors[b]) == SchemaId(Named(schemas, name).value)
                        && b < |d.present| && e < |d.present[b]| && d.present[b][e]
  }

  /** A filter bound to a dictionary lets an event through exactly when it carries every required bank
      and its tag is as asked. */
  lemma EventVerdict(c: Clauses, schemas: seq<Schema>, ev: seq<byte>)
    ensures Check(BoundTo(c, schemas), ev) <==>
      TagAsked(c, EventTag(ev)) && forall k :: 0 <= k < |c.names| ==> NameCarried(schemas, c.names[k], ev)
  {
    var f := BoundTo(c, schemas);
    TagVerdict(c, EventTag(ev));
    hide TagAsked, EventTag, Structures, Clauses.TagActive, Clauses.TagMatches, ResolvedIds;
    var carried := iset id: Id | Has(ev, id);
    RequiredOfAll(c.names, schemas, carried);
    forall k | 0 <= k < |c.names|
      ensures NameCarried(schemas, c.names[k], ev)
        <==> Named(schemas, c.names[k]).Some? && SchemaId(Named(schemas, c.names[k]).value) in carried
    {
    }
    assert forall k :: 0 <= k < |f.ids| ==> f.ids[k] in f.ids;
    assert (forall k :: 0 <= k < |f.ids| ==> Has(ev, f.ids[k])) <==> forall id :: id in f.ids ==> id in carried;
  }

  /** The same of an event in a split record, by the directory alone. */
  lemma SplitVerdict(c: Clauses, schemas: seq<Schema>, d: Directory, e: nat)
    requires d.Valid() && e < d.Events()
    ensures CheckDirectory(BoundTo(c, schemas), d, e) <==>
      TagAsked(c, d.tags[e]) && forall k :: 0 <= k < |c.names| ==> NameMarked(schemas, c.names[k], d, e)
  {
    var f := BoundTo(c, schemas);
    TagVerdict(c, d.tags[e]);
    hide TagAsked, Clauses.TagActive, Clauses.TagMatches, ResolvedIds;
    forall id: Id
      ensures InDirectory(d, e, id) <==>
        exists b: nat :: b < |d.descriptors| && DescriptorId(d.descriptors[b]) == id && d.present[b][e]
    {
      OneSlot(d, e, id);
    }
    var carried := iset id: Id | InDirectory(d, e, id);
    RequiredOfAll(c.names, schemas, carried);
    forall k | 0 <= k < |c.names|
      ensures NameMarked(schemas, c.names[k], d, e)
        <==> Named(schemas, c.names[k]).Some? && SchemaId(Named(schemas, c.names[k]).value) in carried
    {
    }
    assert forall k :: 0 <= k < |f.ids| ==> f.ids[k] in f.ids;
    assert (forall k :: 0 <= k < |f.ids| ==> InDirectory(d, e, f.ids[k])) <==> forall id :: id in f.ids ==>
      id in carried;
  }

  /** A table in ascending order has at most one slot for an id. */
  lemma OneSlot(d: Directory, e: nat, id: Id)
    requires d.Valid() && e < d.Events()
    ensures InDirectory(d, e, id) <==>
      exists b: nat :: b < |d.descriptors| && DescriptorId(d.descriptors[b]) == id && d.present[b][e]
  {
    if b: nat :| b < |d.descriptors| && DescriptorId(d.descriptors[b]) == id && d.present[b][e] {
      var i := IndexOf(d.descriptors, id).value;
      assert !(i < b) && !(b < i);
    }
  }

  /** Asking for the resolved ids of a satisfiable filter is asking for what every name stands for. */
  lemma RequiredOfAll(names: seq<string>, schemas: seq<Schema>, carried: iset<Id>)
    ensures AllDeclared(names, schemas) && (forall id :: id in ResolvedIds(names, schemas) ==> id in carried) <==>
      forall k :: 0 <= k < |names| ==>
        Named(schemas, names[k]).Some? && SchemaId(Named(schemas, names[k]).value) in carried
  {
    hide ResolvedIds;
    forall id: Id
      ensures id in ResolvedIds(names, schemas) <==> exists k :: 0 <= k < |names| && Asks(schemas, names[k], id)
    {
      ResolvedAre(names, schemas, id);
    }
    forall k | 0 <= k < |names| && Named(schemas, names[k]).Some?
      ensures SchemaId(Named(schemas, names[k]).value) in ResolvedIds(names, schemas)
    {
      assert Asks(schemas, names[k], SchemaId(Named(schemas, names[k]).value));
    }
  }

  /** The id loop every check ends with. */
  method CheckLoop(f: Bound, d: Directory, e: nat) returns (pass: bool)
    requires d.Valid() && e < d.Events()
    ensures pass == CheckDirectory(f, d, e)
  {
    if f.unsatisfiable {
      return false;
    }
    if f.clauses.TagActive() && !f.clauses.TagMatches(d.tags[e]) {
      return false;
    }
    for k := 0 to |f.ids|
      invariant forall j :: 0 <= j < k ==> InDirectory(d, e, f.ids[j])
    {
      var b := BankIndex(d.descriptors, f.ids[k]);
      if b.None? || !d.Has(e, b.value) {
        return false;
      }
    }
    pass := true;
  }

  /** One event, three layouts, one verdict, repeated banks included, on every record that is read at
      all; and which split records are. */
  lemma LayoutsAgree(f: Bound, layout: RoundTrip.Layout, evs: seq<seq<byte>>, table: Table, e: nat)
    requires TableOk(table) && Fits(Parsed(evs)) && e < |evs|
    ensures
      var r := Written(layout, evs, table);
      && r.Valid() && (Parses(r) <==> Readable(layout, Parsed(evs), table))
      && (Parses(r) ==> r.Dir().Valid() && e < r.Dir().Events() && (CheckDirectory(f, r.Dir(), e) <==> Check(f, evs[e])))
  {
    hide TableOk, Fits, Written, Parses, Readable, CheckDirectory, Check;
    ParsesIff(layout, evs, table);
    DirectoryVerdict(f, layout, evs, table, e);
  }

  /** The directory has what the checks ask for, whatever the parsers make of the streams. */
  lemma DirectoryVerdict(f: Bound, layout: RoundTrip.Layout, evs: seq<seq<byte>>, table: Table, e: nat)
    requires TableOk(table) && e < |evs|
    ensures
      var r := Written(layout, evs, table);
      && r.Valid() && r.Dir().Valid() && e < r.Dir().Events()
      && (CheckDirectory(f, r.Dir(), e) <==> Check(f, evs[e]))
  {
    hide Written, DirectoryOf, Structures, Directory.Valid;
    WrittenShape(layout, evs, table);
    var d := Written(layout, evs, table).Dir();
    TagsOf(evs, e);
    forall k | 0 <= k < |f.ids|
      ensures InDirectory(d, e, f.ids[k]) <==> Has(evs[e], f.ids[k])
    {
      DirectoryAnswers(Tags(evs), Parsed(evs), e, f.ids[k]);
    }
    DirectoryShape(Tags(evs), Parsed(evs));
  }

  lemma TagsOf(evs: seq<seq<byte>>, e: nat)
    requires e < |evs|
    ensures Tags(evs)[e] == EventTag(evs[e]) && Parsed(evs)[e] == Structures(evs[e])
  {
  }

  // ---- Binding to a file or to the chain ----------------------------------

  /** Every bank id in use is declared by the file's own dictionary. */
  predicate DeclaredIn(schemas: seq<Schema>, id: Id)
  {
    exists s :: s in schemas && SchemaId(s) == id
  }

  /** A required name in the chain's union: the file either declares the same bank, or cannot
      hold one with its id. */
  lemma NameInFile(schemas: seq<Schema>, union: seq<Schema>, name: string)
    requires Compatible(union) && forall s :: s in schemas ==> s in union
    requires Named(union, name).Some?
    ensures Named(schemas, name).Some? ==> SchemaId(Named(schemas, name).value) == SchemaId(Named(union, name).value)
    ensures Named(schemas, name).None? ==> !DeclaredIn(schemas, SchemaId(Named(union, name).value))
  {
    var u := Named(union, name).value;
    match Named(schemas, name)
    case Some(s) => assert s in union && u in union;
    case None =>
      forall s | s in schemas
        ensures SchemaId(s) != SchemaId(u)
      {
        assert s in union && u in union;
      }
  }

  ghost predicate Asks(schemas: seq<Schema>, name: string, id: Id)
  {
    Named(schemas, name).Some? && SchemaId(Named(schemas, name).value) == id
  }

  /** The ids a filter looks for are those its names stand for. */
  lemma {:induction false} ResolvedAre(names: seq<string>, schemas: seq<Schema>, id: Id)
    ensures id in ResolvedIds(names, schemas) <==> exists k :: 0 <= k < |names| && Asks(schemas, names[k], id)
  {
    if names != [] {
      hide ResolvedIds, Asks;
      var n := |names| - 1;
      ResolvedAre(names[..n], schemas, id);
      LastResolved(names, schemas, id);
      if k :| 0 <= k < |names| && Asks(schemas, names[k], id) {
        assert k < n ==> names[..n][k] == names[k];
      }
      if k :| 0 <= k < n && Asks(schemas, names[..n][k], id) {
        assert names[..n][k] == names[k];
      }
    }
  }

  lemma LastResolved(names: seq<string>, schemas: seq<Schema>, id: Id)
    requires names != []
    ensures
      var n := |names| - 1;
      id in ResolvedIds(names, schemas) <==> id in ResolvedIds(names[..n], schemas) || Asks(schemas, names[n], id)
  {
  }

  /** Bound to its own dictionary or to the chain's union, a filter asks the same of any set of
      banks the file declares. */
  lemma BindingsAgree(clauses: Clauses, schemas: seq<Schema>, union: seq<Schema>, carried: iset<Id>)
    requires Compatible(union) && forall s :: s in schemas ==> s in union
    requires AllDeclared(clauses.names, union)
    requires forall id :: id in carried ==> DeclaredIn(schemas, id)
    ensures
      var own, all := BoundTo(clauses, schemas), BoundTo(clauses, union);
      && !all.unsatisfiable
      && (!own.unsatisfiable && (forall id :: id in own.ids ==> id in carried) <==> forall id :: id in all.ids ==> id in carried)
  {
    hide Compatible, DeclaredIn, ResolvedIds;
    var own, all := BoundTo(clauses, schemas), BoundTo(clauses, union);
    var names := clauses.names;
    if !own.unsatisfiable && (forall id :: id in own.ids ==> id in carried) {
      forall id | id in all.ids
        ensures id in carried
      {
        ResolvedAre(names, union, id);
        var k :| 0 <= k < |names| && Asks(union, names[k], id);
        NameInFile(schemas, union, names[k]);
        assert Asks(schemas, names[k], id);
        ResolvedAre(names, schemas, id);
      }
    }
    if forall id :: id in all.ids ==> id in carried {
      forall k | 0 <= k < |names|
        ensures Named(schemas, names[k]).Some?
      {
        NameInFile(schemas, union, names[k]);
        var id := SchemaId(Named(union, names[k]).value);
        assert Asks(union, names[k], id);
        ResolvedAre(names, union, id);
      }
      forall id | id in own.ids
        ensures id in carried
      {
        ResolvedAre(names, schemas, id);
        var k :| 0 <= k < |names| && Asks(schemas, names[k], id);
        NameInFile(schemas, union, names[k]);
        assert Asks(union, names[k], id);
        ResolvedAre(names, union, id);
      }
    }
  }
}
