/** Client code that exercises the record layer the way its usage examples
    do: each method builds a fresh store, runs a few operations, and states
    what they must return. */
module Scenarios {
  import opened Values
  import opened Registry
  import opened Sequence
  import opened Documents
  import opened Sirop

  /** A store after `setup!` on an empty blob store and index, in counter
      mode, with the class Doc registered. */
  method EmptyStore() returns (s: Store)
    ensures fresh(s) && s.Valid() && !s.uuid
    ensures s.db == map[] && s.index == map[] && s.types == map["Doc" := NewType("Doc")]
    ensures s.indexUpserts == 0 && s.blobSets == 0
  {
    s := new Store(map[], map[], {}, false, n => "");
    s.Include("Doc");
  }

  /** Counter mode: a domain's ids run 1, 2, ... and another domain starts
      again at 1. */
  method CounterDraws() returns (a: Value, b: Value, c: Value)
    ensures a == Int(1) && b == Int(2) && c == Int(1)
  {
    var s := EmptyStore();
    a := s.NextSequence("Doc");
    b := s.NextSequence("Doc");
    c := s.NextSequence("Tag");
  }

  /** Two new records that have never drawn an id are not `==`: the
      comparison draws the other record's id first (1), then this one's (2),
      so their doc keys differ. */
  method NewRecordsDiffer() returns (b: bool)
    ensures !b
  {
    var s := EmptyStore();
    var x := new Record("Doc");
    var y := new Record("Doc");
    b := x.Equals(s, y);
    assert y.id == Int(1) && x.id == Int(2);
    assert y.docKey.value == "Doc/1" && x.docKey.value == "Doc/2";
  }

  /** After `delete(id)` a `get` of that record's doc key finds nothing. */
  method DeleteThenGet() returns (r: Result<Option<Record>>)
    ensures r == Ok(None)
  {
    var s := EmptyStore();
    s.db := map["Doc/1" := Dumped(Hash([("id", Int(1))]))];
    assert KeyFor("Doc", Int(1)) == "Doc/1";
    s.Delete("Doc", Int(1));
    r := s.Get("Doc", "Doc/1", 3);
  }

  /** `get` materialises a stored record; after its `destroy` a `get` of the
      same doc key finds nothing. */
  method GetDestroyGet() returns (a: Result<Option<Record>>, b: Result<Option<Record>>)
    ensures a.Ok? && a.value.Some? && a.value.value.id == Int(1)
    ensures b == Ok(None)
  {
    var s := EmptyStore();
    s.db := map["Doc/1" := Dumped(Hash([("id", Int(1))]))];
    assert DocLoadable(s.db, s.types, "Doc", "Doc/1", 3);
    a := s.Get("Doc", "Doc/1", 3);
    var x := a.value.value;
    assert KeyFor("Doc", Int(1)) == "Doc/1";
    x.Destroy(s);
    b := s.Get("Doc", "Doc/1", 3);
  }

  /** `find(1)` gives the stored record with id 1, and `find([])` gives an
      empty array. */
  method FindStored() returns (a: Result<Slot>, b: Result<Slot>)
    ensures a.Ok? && a.value.One? && a.value.r.id == Int(1)
    ensures b == Ok(Many([]))
  {
    var s := EmptyStore();
    s.db := map["Doc/1" := Dumped(Hash([("id", Int(1))]))];
    assert KeyFor("Doc", Int(1)) == "Doc/1";
    assert DocLoadable(s.db, s.types, "Doc", "Doc/1", 3);
    a := s.Find("Doc", Int(1), 3);
    b := s.Find("Doc", List([]), 3);
  }

  /** The table has neither lazy properties nor associations. */
  predicate Plain(props: seq<Property>) {
    forall i :: 0 <= i < |props| ==> !props[i].lazy && props[i].model.None?
  }

  /** A save of a plain record whose index document equals the copy kept by
      its last save, nothing having changed since, writes no index document. */
  method SaveAgain(s: Store, x: Record, ghost vals: seq<Value>) returns (r: Result<bool>)
    requires s.Valid() && x.typ in s.types && x.Typed(s) && AllRefs(x.slots) == {}
    requires Plain(s.types[x.typ].properties) && !SeqLike(s.types[x.typ].domain)
    requires x.docKey.Some? && !SeqLike(x.docKey.value) && Truthy(x.id)
    requires x.SavedPrefix(s.types[x.typ].properties, |s.types[x.typ].properties|, vals)
    requires x.prevIdx == Some(IdxDoc(x.id, x.docKey.value, s.types[x.typ].domain, s.types[x.typ].properties, vals))
    modifies x`id, x`docKey, x`slots, x`prevIdx
    modifies s`db, s`index, s`uuidsDrawn, s`indexUpserts, s`blobSets
    ensures r == Ok(true) && s.indexUpserts == old(s.indexUpserts) && s.index == old(s.index)
  {
    ghost var props := s.types[x.typ].properties;
    ghost var vals2;
    r, vals2 := x.Save(s, {}, 3);
    assert vals == vals2 by {
      forall i | 0 <= i < |props| ensures vals[i] == vals2[i] {
        assert !LazyName(props, props[i].name);
      }
    }
  }

  /** Two saves in a row of a record of a plain type write the index
      document at most once in total, and exactly once when the record was
      never saved or loaded: the second save finds its index document equal
      to the copy kept by the first, because nothing it indexes changed. */
  method SaveTwiceIndexesOnce(s: Store, x: Record) returns (r1: Result<bool>, r2: Result<bool>)
    requires s.Valid() && x.typ in s.types && x.Typed(s) && AllRefs(x.slots) == {}
    requires Plain(s.types[x.typ].properties) && !SeqLike(s.types[x.typ].domain)
    requires x.docKey.Some? ==> !SeqLike(x.docKey.value)
    modifies x`id, x`docKey, x`slots, x`prevIdx
    modifies s`db, s`index, s`uuidsDrawn, s`indexUpserts, s`blobSets
    ensures r1 == Ok(true) && r2 == Ok(true)
    ensures s.indexUpserts <= old(s.indexUpserts) + 1
    ensures old(x.prevIdx).None? ==> s.indexUpserts == old(s.indexUpserts) + 1
  {
    ghost var props := s.types[x.typ].properties;
    ghost var slots0 := x.slots;
    ghost var vals;
    r1, vals := x.Save(s, {}, 3);
    forall n | n in x.slots ensures Refs(x.slots[n]) == {} {
      assert !LazyName(props, n);
      assert x.SlotOf(n) == SlotAt(slots0, n);
    }
    r2 := SaveAgain(s, x, vals);
  }

  /** The property `title` of the scenarios below: indexed, not lazy, no model. */
  function Title(): Property {
    Property("title", true, false, None, true)
  }

  /** A new Doc with an indexed title, saved twice: one index write. */
  method SaveTitleTwice() returns (s: Store, r1: Result<bool>, r2: Result<bool>)
    ensures r1 == Ok(true) && r2 == Ok(true) && s.indexUpserts == 1
  {
    s := EmptyStore();
    s.DeclareProperty("Doc", Title());
    assert s.types["Doc"].properties == [Title()];
    var x := new Record("Doc");
    x.Set(s, "title", Data(Str("a")));
    r1, r2 := SaveTwiceIndexesOnce(s, x);
  }
}
