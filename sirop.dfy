/** The record-mapping layer: the `Sirop` module state (blob store, search
    index, per-class configuration, id source) as the class Store, and an
    instance of a class that includes `Sirop` as the class Record. Class
    methods of a record type (`find`, `get`, `remove`, `property`, ...) are
    Store methods that take the type's name. */
module Sirop {
  import opened Values
  import opened Registry
  import opened Sequence
  import opened Documents

  /** What an instance variable of a record holds: a plain value, one
      associated record, or an array of associated records. */
  datatype Slot = Data(v: Value) | One(r: Record) | Many(rs: seq<Record>)

  /** Ruby truthiness of an instance variable: records and arrays are true. */
  predicate SlotTruthy(slot: Slot) {
    !slot.Data? || Truthy(slot.v)
  }

  /** The instance variable `name` among `slots`: nil when it was never set. */
  function SlotAt(slots: map<string, Slot>, name: string): Slot {
    if name in slots then slots[name] else Data(Nil)
  }

  /** The records an instance variable refers to. */
  function Refs(slot: Slot): set<Record> {
    match slot
    case Data(_) => {}
    case One(r) => {r}
    case Many(rs) => set r | r in rs
  }

  /** The records a list refers to are those of its front and its last one. */
  lemma RefsLast(rs: seq<Record>)
    requires rs != []
    ensures Refs(Many(rs)) == Refs(Many(rs[..|rs| - 1])) + {rs[|rs| - 1]}
  {
    assert rs == rs[..|rs| - 1] + [rs[|rs| - 1]];
  }

  /** The records all instance variables of a record refer to. */
  function AllRefs(slots: map<string, Slot>): set<Record> {
    set n, r | n in slots && r in Refs(slots[n]) :: r
  }

  /** The ids of a sequence of records, in order. */
  function Ids(rs: seq<Record>): (ids: seq<Value>)
    reads rs`id
    ensures |ids| == |rs|
    ensures forall i :: 0 <= i < |rs| ==> ids[i] == rs[i].id
  {
    if rs == [] then [] else [rs[0].id] + Ids(rs[1..])
  }

  /** Every record an instance variable refers to has an id. */
  /** The ids records hold, one entry per record. */
  ghost function IdsOf(rs: set<Record>): (m: map<Record, Value>)
    reads rs`id
    ensures m.Keys == rs && forall x :: x in rs ==> m[x] == x.id
  {
    map x | x in rs :: x.id
  }

  ghost predicate IdsSet(slot: Slot)
    reads Refs(slot)`id
  {
    forall r :: r in Refs(slot) ==> Truthy(r.id)
  }

  /** The value `fold_association` makes of an association's instance
      variable once every record in it has its id: nil for nil or false, the
      id of a single record, the ids of an array of records in order. */
  function FoldedSlot(slot: Slot): (v: Value)
    reads Refs(slot)`id
    ensures slot.Data? ==> v == Nil
    ensures slot.One? ==> v == slot.r.id
    ensures slot.Many? ==>
      && v.List? && |v.items| == |slot.rs|
      && forall i :: 0 <= i < |slot.rs| ==> v.items[i] == slot.rs[i].id
  {
    match slot
    case Data(_) => Nil
    case One(r) => r.id
    case Many(rs) => List(Ids(rs))
  }

  /** The value `save` writes for a property: folded to ids when the property
      is an association, the plain value otherwise. */
  function SavedValue(p: Property, slot: Slot): Value
    reads Refs(slot)`id
  {
    if p.model.Some? then FoldedSlot(slot) else if slot.Data? then slot.v else Nil
  }

  /** SavedPrefix on a map of instance variables whose records' ids are
      `ids`: the first j values are what `save` writes for them. */
  ghost predicate PrefixWith(props: seq<Property>, j: nat, vals: seq<Value>, slots: map<string, Slot>, ids: map<Record, Value>) {
    && j <= |props| && |vals| == j
    && forall i :: 0 <= i < j ==>
         && Refs(SlotAt(slots, props[i].name)) <= ids.Keys
         && vals[i] == SavedWith(props[i], SlotAt(slots, props[i].name), ids)
         && (props[i].model.Some? ==> forall x :: x in Refs(SlotAt(slots, props[i].name)) ==> Truthy(ids[x]))
         && (props[i].model.None? ==> SlotAt(slots, props[i].name).Data?)
  }

  /** Typed, on a map of instance variables. */
  ghost predicate SlotsTyped(types: map<string, TypeConfig>, props: seq<Property>, slots: map<string, Slot>) {
    && (forall i :: 0 <= i < |props| ==> SlotTyped(props[i], SlotAt(slots, props[i].name)))
    && forall n, r :: n in slots && r in Refs(slots[n]) ==> r.typ in types
  }

  /** Setting one instance variable to a shape its property accepts, over
      records of registered types, keeps the map typed. */
  lemma SlotsTypedSet(types: map<string, TypeConfig>, props: seq<Property>, slots: map<string, Slot>, name: string, slot: Slot)
    requires SlotsTyped(types, props, slots)
    requires forall i :: 0 <= i < |props| && props[i].name == name ==> SlotTyped(props[i], slot)
    requires forall r :: r in Refs(slot) ==> r.typ in types
    ensures SlotsTyped(types, props, slots[name := slot])
  {
  }

  /** SavedValue with each record's id taken from `ids` rather than from the
      record, so that one value serves before and after ids are drawn. */
  function SavedWith(p: Property, slot: Slot, ids: map<Record, Value>): Value
    requires Refs(slot) <= ids.Keys
  {
    if p.model.None? then (if slot.Data? then slot.v else Nil)
    else match slot
      case Data(_) => Nil
      case One(r) => ids[r]
      case Many(rs) => List(seq(|rs|, k requires 0 <= k < |rs| => ids[rs[k]]))
  }

  /** Where `ids` holds the records' own ids, SavedWith is SavedValue. */
  lemma SavedAsWith(p: Property, slot: Slot, ids: map<Record, Value>)
    requires Refs(slot) <= ids.Keys && forall x :: x in Refs(slot) ==> ids[x] == x.id
    ensures SavedValue(p, slot) == SavedWith(p, slot, ids)
  {
    if p.model.Some? && slot.Many? {
      var rs := slot.rs;
      assert forall k :: 0 <= k < |rs| ==> rs[k] in Refs(slot);
      assert FoldedSlot(slot).items == seq(|rs|, k requires 0 <= k < |rs| => ids[rs[k]]);
    }
  }

  /** The shapes `save` accepts in a property's instance variable: a plain
      value for a plain property; for an association, records, an array of
      records, or nil/false. */
  predicate SlotTyped(p: Property, slot: Slot) {
    if p.model.Some? then !slot.Data? || !Truthy(slot.v) else slot.Data?
  }

  /** The doc key of a registered record type's record with the given id. */
  function KeyFor(domain: string, id: Value): string {
    domain + "/" + ToS(id)
  }

  /** The blob keys of the lazy properties of a record under doc key `key`. */
  function LazyKeys(key: string, props: seq<Property>): set<string>
    decreases |props|
  {
    if props == [] then {}
    else
      var n := |props| - 1;
      LazyKeys(key, props[..n]) + if props[n].lazy then {key + "/" + props[n].name} else {}
  }

  /** `get(key)` finds nothing under the key: it is absent, or holds nil or
      false. */
  predicate Absent(db: Db, key: string) {
    key !in db || (db[key].Dumped? && !Truthy(db[key].v))
  }

  /** How many of the ids have no record in the domain. */
  function Missing(db: Db, domain: string, ids: seq<Value>): (n: nat)
    ensures n <= |ids|
    decreases |ids|
  {
    if ids == [] then 0
    else Missing(db, domain, ids[..|ids| - 1]) + if Absent(db, KeyFor(domain, ids[|ids| - 1])) then 1 else 0
  }

  /** When every id is missing, each one's doc key is absent. */
  lemma {:induction false} AllMissing(db: Db, domain: string, items: seq<Value>)
    requires Missing(db, domain, items) == |items|
    ensures forall i :: 0 <= i < |items| ==> Absent(db, KeyFor(domain, items[i]))
    decreases |items|
  {
    if items != [] {
      var n := |items| - 1;
      AllMissing(db, domain, items[..n]);
      assert forall i :: 0 <= i < n ==> items[..n][i] == items[i];
    }
  }

  /** The blob store db agrees with db0 on every key outside `except` that
      is no counter key, and no domain's counter has gone back. */
  ghost predicate SameBlobs(db: Db, db0: Db, except: set<string>) {
    && (forall k :: !SeqLike(k) && k !in except ==> (k in db <==> k in db0))
    && (forall k :: !SeqLike(k) && k !in except && k in db ==> db[k] == db0[k])
    && (forall d :: Counter(db0, d) <= Counter(db, d))
  }

  /** Agreement outside the counters composes: what differs from db1 to db
      and from db0 to db1 is all that can differ from db0 to db. */
  lemma SameBlobsTrans(db: Db, db1: Db, db0: Db, x: set<string>, y: set<string>)
    requires SameBlobs(db, db1, x) && SameBlobs(db1, db0, y)
    ensures SameBlobs(db, db0, x + y)
  {
  }

  /** The table has a lazy property. */
  predicate HasLazy(props: seq<Property>) {
    exists i :: 0 <= i < |props| && props[i].lazy
  }

  /** p names a lazy property of the table. */
  predicate LazyName(props: seq<Property>, n: string) {
    Lookup(props, n).Some? && Lookup(props, n).value.lazy
  }

  /** A map of instance variables left as it was or with one of them set
      agrees with the old one everywhere else. */
  lemma SlotsElsewhere(m: map<string, Slot>, m1: map<string, Slot>, name: string)
    requires m1 == m || (name in m1 && m1 == m[name := m1[name]])
    ensures forall n :: n != name ==> SlotAt(m1, n) == SlotAt(m, n)
  {
  }

  /** The records of one instance variable are among all of them. */
  lemma RefsInAll(slots: map<string, Slot>, n: string)
    ensures Refs(SlotAt(slots, n)) <= AllRefs(slots)
  {
    if n in slots {
      forall x | x in Refs(slots[n]) ensures x in AllRefs(slots) {
      }
    }
  }

  /** The lazy keys of a prefix of the table are lazy keys of the table. */
  lemma {:induction false} LazyKeysPrefix(key: string, props: seq<Property>, j: nat)
    requires j <= |props|
    ensures LazyKeys(key, props[..j]) <= LazyKeys(key, props)
    decreases |props|
  {
    if j < |props| {
      var n := |props| - 1;
      assert props[..n][..j] == props[..j];
      LazyKeysPrefix(key, props[..n], j);
    } else {
      assert props[..j] == props;
    }
  }

  /** What `save`'s loop has written after the first j properties, starting
      from db0: each lazy property's value under its blob key, and no other
      key outside the counters changed. */
  ghost predicate Written(db: Db, db0: Db, key: string, props: seq<Property>, j: nat, vals: seq<Value>) {
    && j <= |props| && |vals| == j
    && SameBlobs(db, db0, LazyKeys(key, props[..j]))
    && forall i :: 0 <= i < j && props[i].lazy ==>
         key + "/" + props[i].name in db && db[key + "/" + props[i].name] == Dumped(vals[i])
  }

  /** One more property: a lazy one adds its blob, any other writes nothing
      outside the counters. */
  lemma WrittenStep(db: Db, db1: Db, db0: Db, key: string, props: seq<Property>, j: nat, vals: seq<Value>, v: Value)
    requires UniqueNames(props) && !SeqLike(key) && j < |props|
    requires Written(db, db0, key, props, j, vals)
    requires props[j].lazy ==>
      && SameBlobs(db1, db, {key + "/" + props[j].name})
      && key + "/" + props[j].name in db1 && db1[key + "/" + props[j].name] == Dumped(v)
    requires !props[j].lazy ==> SameBlobs(db1, db, {})
    ensures Written(db1, db0, key, props, j + 1, vals + [v])
  {
    var k := key + "/" + props[j].name;
    assert props[..j + 1][..j] == props[..j] && props[..j + 1][j] == props[j];
    assert LazyKeys(key, props[..j + 1]) == LazyKeys(key, props[..j]) + if props[j].lazy then {k} else {};
    forall i | 0 <= i < j && props[i].lazy
      ensures key + "/" + props[i].name in db1 && db1[key + "/" + props[i].name] == Dumped((vals + [v])[i])
    {
      LazyKeysApart(key, props[i].name, props[j].name);
    }
  }

  /** Pass j of `save`'s loop reads the blob of property j as it was before
      the loop: no earlier pass wrote it. */
  lemma WrittenElsewhere(db: Db, db0: Db, key: string, props: seq<Property>, j: nat, vals: seq<Value>)
    requires UniqueNames(props) && !SeqLike(key) && j < |props|
    requires Written(db, db0, key, props, j, vals)
    ensures DbGet(db, key + "/" + props[j].name) == DbGet(db0, key + "/" + props[j].name)
  {
    LazyKeyNotEarlier(key, props, j);
    LazyKeysApart(key, props[j].name, props[j].name);
  }

  /** Keys the loop wrote are lazy keys of the whole table. */
  lemma WrittenWithin(db: Db, db0: Db, key: string, props: seq<Property>, j: nat, vals: seq<Value>)
    requires Written(db, db0, key, props, j, vals)
    ensures SameBlobs(db, db0, LazyKeys(key, props))
  {
    LazyKeysPrefix(key, props, j);
  }

  /** After j passes of `save`'s loop the properties still to come have
      their instance variables from before the loop (slots0), and so does
      every name that is not a lazy property. */
  ghost predicate SlotsKept(slots: map<string, Slot>, slots0: map<string, Slot>, props: seq<Property>, j: nat) {
    && (forall i :: j <= i < |props| ==> SlotAt(slots, props[i].name) == SlotAt(slots0, props[i].name))
    && forall n :: !LazyName(props, n) ==> SlotAt(slots, n) == SlotAt(slots0, n)
  }

  /** Pass j touches at most the instance variable of property j, and only
      when that property is lazy. */
  lemma SlotsKeptStep(before: map<string, Slot>, after: map<string, Slot>, slots0: map<string, Slot>,
                      props: seq<Property>, j: nat)
    requires UniqueNames(props) && j < |props| && SlotsKept(before, slots0, props, j)
    requires forall n :: n != props[j].name ==> SlotAt(after, n) == SlotAt(before, n)
    requires !props[j].lazy ==> SlotAt(after, props[j].name) == SlotAt(before, props[j].name)
    ensures SlotsKept(after, slots0, props, j + 1)
  {
    LookupAt(props, j);
  }

  /** What a successful `save` leaves in the blob store, starting from db0:
      the main document under the doc key, each lazy property's value under
      its own blob key, and every other key outside the counters as it was. */
  ghost predicate Committed(db: Db, db0: Db, key: string, props: seq<Property>, main: Entries, vals: seq<Value>) {
    && |vals| == |props|
    && key in db && db[key] == Dumped(Hash(main))
    && (forall i :: 0 <= i < |props| && props[i].lazy ==>
          key + "/" + props[i].name in db && db[key + "/" + props[i].name] == Dumped(vals[i]))
    && SameBlobs(db, db0, {key} + LazyKeys(key, props))
  }

  /** Writing the main document after the loop commits what the loop wrote. */
  lemma CommitWritten(db: Db, db0: Db, key: string, props: seq<Property>, main: Entries, vals: seq<Value>)
    requires !SeqLike(key) && Written(db, db0, key, props, |props|, vals)
    ensures Committed(db[key := Dumped(Hash(main))], db0, key, props, main, vals)
  {
    assert props[..|props|] == props;
    forall i | 0 <= i < |props| && props[i].lazy
      ensures key + "/" + props[i].name != key
    {
      LazyKeysApart(key, props[i].name, props[i].name);
    }
  }

  /** A commit stays one over an earlier store that differs only in the
      counters. */
  lemma CommittedSince(db: Db, db1: Db, db0: Db, key: string, props: seq<Property>, main: Entries, vals: seq<Value>)
    requires Committed(db, db1, key, props, main, vals) && SameBlobs(db1, db0, {})
    ensures Committed(db, db0, key, props, main, vals)
  {
    SameBlobsTrans(db, db1, db0, {key} + LazyKeys(key, props), {});
  }

  /** `index << idx_doc unless idx_doc == @_prev_idx_doc`: the index gets doc
      under key, counted as one upsert, exactly when doc differs from the
      document kept from the last load or save. */
  predicate Reindexed(index: map<string, IndexDoc>, index0: map<string, IndexDoc>, ups: nat, ups0: nat,
                      prev0: Option<IndexDoc>, key: string, doc: IndexDoc) {
    if prev0 == Some(doc) then index == index0 && ups == ups0
    else index == index0[key := doc] && ups == ups0 + 1
  }

  /** Every lazy property's blob key is one of the lazy keys. */
  lemma {:induction false} LazyKeyIn(key: string, props: seq<Property>, i: nat)
    requires i < |props| && props[i].lazy
    ensures key + "/" + props[i].name in LazyKeys(key, props)
    decreases |props|
  {
    var n := |props| - 1;
    if i < n {
      assert props[..n][i] == props[i];
      LazyKeyIn(key, props[..n], i);
    }
  }

  /** Lazy blob keys of distinct property names under one doc key are
      distinct, differ from the doc key, and are no counter keys. */
  lemma LazyKeysApart(key: string, a: string, b: string)
    requires !SeqLike(key)
    ensures a != b ==> key + "/" + a != key + "/" + b
    ensures key + "/" + a != key
    ensures !SeqLike(key + "/" + a)
  {
    NotSeqLikeExtends(key, a);
    if key + "/" + a == key + "/" + b {
      assert a == (key + "/" + a)[|key| + 1..];
      assert b == (key + "/" + b)[|key| + 1..];
    }
    assert |key + "/" + a| > |key|;
  }

  /** Every lazy key names a lazy property of the table. */
  lemma {:induction false} LazyKeyOf(key: string, props: seq<Property>, k: string)
    requires k in LazyKeys(key, props)
    ensures exists i :: 0 <= i < |props| && props[i].lazy && k == key + "/" + props[i].name
    decreases |props|
  {
    var n := |props| - 1;
    if k in LazyKeys(key, props[..n]) {
      LazyKeyOf(key, props[..n], k);
      var i :| 0 <= i < n && props[..n][i].lazy && k == key + "/" + props[..n][i].name;
      assert props[..n][i] == props[i];
    }
  }

  /** Pass j of `save`'s loop reads a blob that no earlier pass wrote: the
      blob of property j is no lazy key of the table's first j properties. */
  lemma LazyKeyNotEarlier(key: string, props: seq<Property>, j: nat)
    requires UniqueNames(props) && !SeqLike(key) && j < |props|
    ensures key + "/" + props[j].name !in LazyKeys(key, props[..j])
  {
    var k := key + "/" + props[j].name;
    if k in LazyKeys(key, props[..j]) {
      LazyKeyOf(key, props[..j], k);
      var i :| 0 <= i < j && props[..j][i].lazy && k == key + "/" + props[..j][i].name;
      assert props[..j][i] == props[i];
      LazyKeysApart(key, props[i].name, props[j].name);
      assert false;
    }
  }

  /** The lazy reader of property p on a record whose doc key is key and
      whose instance variable held `before`, as far as the blob alone
      decides what it leaves in `after`: a truthy variable stays as it is;
      otherwise the blob `key/name` reads, and `after` is the value read
      when p is plain, nil when p is an association and the blob is falsy. */
  predicate LazySlot(db: Db, key: string, p: Property, before: Slot, after: Slot) {
    if SlotTruthy(before) then after == before
    else
      var blob := DbGet(db, key + "/" + p.name);
      && blob.Ok?
      && (p.model.None? ==> after == Data(blob.value))
      && (p.model.Some? && !Truthy(blob.value) ==> after == Data(Nil))
  }

  /** The lazy reader cannot fail here: the variable is truthy, or the blob
      reads and holds no ids to unfold. */
  predicate LazyReadable(db: Db, key: string, p: Property, before: Slot) {
    || SlotTruthy(before)
    || (var blob := DbGet(db, key + "/" + p.name);
        blob.Ok? && (p.model.None? || !Truthy(blob.value)))
  }

  /** The lazy reader succeeds exactly here: where it cannot fail, or where
      the blob holds ids of a model that unfold. */
  ghost predicate LazyLoads(db: Db, types: map<string, TypeConfig>, key: string, p: Property, before: Slot, fuel: nat) {
    || LazyReadable(db, key, p, before)
    || (var blob := DbGet(db, key + "/" + p.name);
        blob.Ok? && p.model.Some? && IdsLoadable(db, types, p.model.value, blob.value, fuel))
  }

  /** LazySlot for each of the first n properties that is lazy, from the
      instance variables `before` to `after`. */
  predicate LazySlots(db: Db, key: string, props: seq<Property>, n: nat,
                      before: map<string, Slot>, after: map<string, Slot>) {
    forall i :: 0 <= i < n && i < |props| && props[i].lazy ==>
      LazySlot(db, key, props[i], SlotAt(before, props[i].name), SlotAt(after, props[i].name))
  }

  /** Every lazy property of the table is LazyReadable. */
  predicate AllLazyReadable(db: Db, key: string, props: seq<Property>, slots: map<string, Slot>) {
    forall i :: 0 <= i < |props| && props[i].lazy ==>
      LazyReadable(db, key, props[i], SlotAt(slots, props[i].name))
  }

  /** Pass j of `save`'s loop adds property j to LazySlots when it changes
      no other instance variable. */
  lemma LazySlotsStep(db: Db, key: string, props: seq<Property>, j: nat,
                      slots0: map<string, Slot>, before: map<string, Slot>, after: map<string, Slot>)
    requires UniqueNames(props) && j < |props| && LazySlots(db, key, props, j, slots0, before)
    requires forall n :: n != props[j].name ==> SlotAt(after, n) == SlotAt(before, n)
    requires props[j].lazy ==> LazySlot(db, key, props[j], SlotAt(slots0, props[j].name), SlotAt(after, props[j].name))
    ensures LazySlots(db, key, props, j + 1, slots0, after)
  {
    forall i | 0 <= i < j && props[i].lazy
      ensures LazySlot(db, key, props[i], SlotAt(slots0, props[i].name), SlotAt(after, props[i].name))
    {
      assert props[i].name != props[j].name;
    }
  }

  /** The blob store without its counters: what the lazy readers can see. */
  function Blobs(db: Db): (b: Db)
    ensures forall k :: !SeqLike(k) ==> DbGet(b, k) == DbGet(db, k)
  {
    map k | k in db && !SeqLike(k) :: db[k]
  }

  /** Two blob stores that agree outside the counters have the same Blobs. */
  lemma BlobsUnmoved(db: Db, db0: Db)
    requires SameBlobs(db, db0, {})
    ensures Blobs(db) == Blobs(db0)
  {
  }

  /** The lazy reads of a save hold of the blobs without the counters, and
      so does a lazy read that cannot be made. */
  lemma LazyBlobs(db: Db, key: string, props: seq<Property>, before: map<string, Slot>, after: map<string, Slot>)
    requires !SeqLike(key)
    ensures LazySlots(db, key, props, |props|, before, after) ==> LazySlots(Blobs(db), key, props, |props|, before, after)
    ensures !AllLazyReadable(db, key, props, before) ==> !AllLazyReadable(Blobs(db), key, props, before)
  {
    forall i | 0 <= i < |props|
      ensures DbGet(Blobs(db), key + "/" + props[i].name) == DbGet(db, key + "/" + props[i].name)
    {
      LazyKeysApart(key, props[i].name, props[i].name);
    }
  }

  /** The shape `unfold_association` gives a stored association value: nil
      for nil or false, an array of records for an array of ids (one per
      id), a single record otherwise. */
  predicate Shaped(slot: Slot, v: Value) {
    if !Truthy(v) then slot == Data(Nil)
    else if v.List? then slot.Many? && |slot.rs| == |v.items|
    else slot.One?
  }

  /** An instance variable loaded from the stored value v of property p. */
  predicate FieldLoaded(slot: Slot, v: Value, p: Option<Property>) {
    p.Some? && if p.value.model.None? then slot == Data(v) else Shaped(slot, v)
  }

  /** Record x is what `get` materialises for type m from the document
      under key k, with associations unfolded but not looked into: every
      stored field is an instance variable (plain values as stored), the
      id is the stored id, no doc key is memoised, and the previous index
      document is rebuilt from the stored, still-folded values. */
  ghost predicate LoadedShallow(db: Db, types: map<string, TypeConfig>, x: Record, m: string, k: string)
    reads x
  {
    StateLoaded(db, types, x.typ, x.id, x.docKey, x.slots, x.prevIdx, m, k)
  }

  /** LoadedShallow on the values of a record's fields. */
  ghost predicate StateLoaded(db: Db, types: map<string, TypeConfig>, typ: string, id: Value,
    docKey: Option<string>, slots: map<string, Slot>, prevIdx: Option<IndexDoc>, m: string, k: string)
  {
    && m in types && k in db && db[k].Dumped? && db[k].v.Hash?
    && var entries := db[k].v.entries;
       var ps := types[m].properties;
       && typ == m
       && id == ValueAt(entries, "id")
       && docKey.None?
       && prevIdx == Some(PrevIdx(k, types[m].domain, entries, ps))
       && slots.Keys == Keys(entries) - {"id"}
       && forall n :: n in slots ==> FieldLoaded(slots[n], ValueAt(entries, n), Lookup(ps, n))
  }

  /** The association value slot is the unfolding of stored ids v into
      records of type m: the right shape, and each record loaded from the
      doc key its id names. */
  ghost predicate Unfolded(db: Db, types: map<string, TypeConfig>, slot: Slot, v: Value, m: string)
    reads Refs(slot)
  {
    && Shaped(slot, v)
    && (slot.One? ==> m in types && LoadedShallow(db, types, slot.r, m, KeyFor(types[m].domain, v)))
    && (slot.Many? ==>
          && m in types
          && forall i :: 0 <= i < |slot.rs| ==> LoadedShallow(db, types, slot.rs[i], m, KeyFor(types[m].domain, v.items[i])))
  }

  /** The instance variable of a declared property loaded from its stored
      value: as stored when plain, unfolded when an association. */
  ghost predicate FieldOk(db: Db, types: map<string, TypeConfig>, slot: Slot, v: Value, p: Option<Property>)
    reads Refs(slot)
  {
    && FieldLoaded(slot, v, p)
    && (p.Some? && p.value.model.Some? ==> Unfolded(db, types, slot, v, p.value.model.value))
  }

  /** Every record of recs is what `get` materialises for type m from the
      doc key of the id at its position in ids. */
  ghost predicate AllLoaded(db: Db, types: map<string, TypeConfig>, recs: seq<Record>, m: string, domain: string, ids: seq<Value>)
    reads recs
  {
    && |recs| <= |ids|
    && forall j :: 0 <= j < |recs| ==> LoadedShallow(db, types, recs[j], m, KeyFor(domain, ids[j]))
  }

  /** `get`'s result: materialised from the document under `key`, each
      association unfolded into records loaded from their own doc keys. */
  ghost predicate Loaded(db: Db, types: map<string, TypeConfig>, x: Record, typ: string, key: string)
    reads x, AllRefs(x.slots)
  {
    && LoadedShallow(db, types, x, typ, key)
    && forall n :: n in x.slots ==>
         FieldOk(db, types, x.slots[n], ValueAt(db[key].v.entries, n), Lookup(types[typ].properties, n))
  }

  /** No id is missing exactly when no id's doc key is absent. */
  lemma {:induction false} NoneMissing(db: Db, domain: string, items: seq<Value>)
    ensures Missing(db, domain, items) == 0 <==> forall i :: 0 <= i < |items| ==> !Absent(db, KeyFor(domain, items[i]))
    decreases |items|
  {
    if items != [] {
      var n := |items| - 1;
      NoneMissing(db, domain, items[..n]);
      assert forall i :: 0 <= i < n ==> items[..n][i] == items[i];
    }
  }

  /** `get` of key for type typ yields a record within fuel nested `find`s:
      a hash is stored under key and every entry of it loads. */
  ghost predicate DocLoadable(db: Db, types: map<string, TypeConfig>, typ: string, key: string, fuel: nat)
    decreases fuel, 3
  {
    && typ in types && key in db && db[key].Dumped? && db[key].v.Hash?
    && forall i :: 0 <= i < |db[key].v.entries| ==> EntryLoadable(db, types, typ, db[key].v.entries[i], fuel)
  }

  /** An entry of a stored hash loads: it is the id, or it names a property
      that is plain or whose stored ids unfold. */
  ghost predicate EntryLoadable(db: Db, types: map<string, TypeConfig>, typ: string, e: (string, Value), fuel: nat)
    decreases fuel, 2
  {
    && typ in types
    && (e.0 == "id" || FieldLoadable(db, types, Lookup(types[typ].properties, e.0), e.1, fuel))
  }

  /** A stored value of property p loads: p is declared, and when it is an
      association its stored ids unfold. */
  ghost predicate FieldLoadable(db: Db, types: map<string, TypeConfig>, p: Option<Property>, v: Value, fuel: nat)
    decreases fuel, 1
  {
    p.Some? && (p.value.model.None? || IdsLoadable(db, types, p.value.model.value, v, fuel))
  }

  /** `unfold_association` of stored ids for model m succeeds: nil or false
      unfold to nil; anything else needs m registered, one more level of
      nesting, and a record stored under each id's doc key (every id of an
      array, or the one id). */
  ghost predicate IdsLoadable(db: Db, types: map<string, TypeConfig>, m: string, ids: Value, fuel: nat)
    decreases fuel, 0
  {
    !Truthy(ids) ||
    (m in types && fuel > 0 &&
     if ids.List? then forall i :: 0 <= i < |ids.items| ==> DocLoadable(db, types, m, KeyFor(types[m].domain, ids.items[i]), fuel - 1)
     else DocLoadable(db, types, m, KeyFor(types[m].domain, ids), fuel - 1))
  }

  /** Save, then get succeeds: the document a save committed loads as soon
      as each stored non-lazy association's ids unfold. */
  lemma CommittedLoadable(db: Db, db0: Db, types: map<string, TypeConfig>, typ: string, key: string,
                          id: Value, vals: seq<Value>, fuel: nat)
    requires typ in types && UniqueNames(types[typ].properties) && NoReservedNames(types[typ].properties)
    requires |vals| == |types[typ].properties|
    requires Committed(db, db0, key, types[typ].properties, MainDoc(id, types[typ].properties, vals), vals)
    requires forall i :: 0 <= i < |types[typ].properties| && !types[typ].properties[i].lazy && types[typ].properties[i].model.Some? ==>
      IdsLoadable(db, types, types[typ].properties[i].model.value, vals[i], fuel)
    ensures DocLoadable(db, types, typ, key, fuel)
  {
    var ps := types[typ].properties;
    var main := MainDoc(id, ps, vals);
    MainDocEntries(id, ps, vals);
    forall j | 0 <= j < |main|
      ensures EntryLoadable(db, types, typ, main[j], fuel)
    {
      if main[j] != ("id", id) {
        assert MainEntry(id, ps, vals, main[j]);
        var i :| 0 <= i < |ps| && !ps[i].lazy && main[j] == (ps[i].name, vals[i]);
        LookupAt(ps, i);
      }
    }
  }

  /** Fold, then unfold: the ids `save` writes for an association unfold,
      as `get` or the lazy reader does it, into the same shape with records
      carrying the same ids, provided each record was saved under its id
      (a single record's id is no array, which would read as many). */
  lemma UnfoldFolded(db: Db, types: map<string, TypeConfig>, m: string, orig: Slot, slot: Slot)
    requires m in types && IdsSet(orig) && (orig.One? ==> !orig.r.id.List?)
    requires forall x :: x in Refs(orig) ==>
      var k := KeyFor(types[m].domain, x.id);
      k in db && db[k].Dumped? && db[k].v.Hash? && HashGet(db[k].v.entries, "id") == Some(x.id)
    requires Unfolded(db, types, slot, FoldedSlot(orig), m)
    ensures orig.Data? ==> slot == Data(Nil)
    ensures orig.One? ==> slot.One? && slot.r.id == orig.r.id
    ensures orig.Many? ==>
      && slot.Many? && |slot.rs| == |orig.rs|
      && forall i :: 0 <= i < |orig.rs| ==> slot.rs[i].id == orig.rs[i].id
  {
    if orig.One? {
      assert orig.r in Refs(orig);
    }
    if orig.Many? {
      forall i | 0 <= i < |orig.rs|
        ensures slot.rs[i].id == orig.rs[i].id
      {
        assert orig.rs[i] in Refs(orig);
        assert FoldedSlot(orig).items[i] == orig.rs[i].id;
      }
    }
  }

  /** Save, then get: a record materialised from the document a save
      committed carries the saved id, every plain non-lazy property's saved
      value, no instance variable for a lazy property, and, when no indexed
      property is lazy, exactly the index document the save sent. */
  lemma SavedThenLoaded(db: Db, db0: Db, types: map<string, TypeConfig>, typ: string, key: string,
                        id: Value, vals: seq<Value>, x: Record)
    requires typ in types && UniqueNames(types[typ].properties) && NoReservedNames(types[typ].properties)
    requires |vals| == |types[typ].properties|
    requires Committed(db, db0, key, types[typ].properties, MainDoc(id, types[typ].properties, vals), vals)
    requires LoadedShallow(db, types, x, typ, key)
    ensures x.id == id
    ensures forall i :: 0 <= i < |types[typ].properties| && !types[typ].properties[i].lazy ==>
      var p := types[typ].properties[i];
      p.name in x.slots && (p.model.None? ==> x.slots[p.name] == Data(vals[i]))
    ensures forall i :: 0 <= i < |types[typ].properties| && types[typ].properties[i].lazy ==>
      types[typ].properties[i].name !in x.slots
    ensures (forall i :: 0 <= i < |types[typ].properties| && types[typ].properties[i].index ==>
               !types[typ].properties[i].lazy) ==>
      x.prevIdx == Some(IdxDoc(id, key, types[typ].domain, types[typ].properties, vals))
  {
    var ps := types[typ].properties;
    var main := MainDoc(id, ps, vals);
    MainDocContents(id, ps, vals);
    forall i | 0 <= i < |ps|
      ensures (ps[i].name in x.slots) == !ps[i].lazy
      ensures !ps[i].lazy && ps[i].model.None? ==> x.slots[ps[i].name] == Data(vals[i])
    {
      LookupAt(ps, i);
      assert ps[i].name != "id";
    }
    if forall i :: 0 <= i < |ps| && ps[i].index ==> !ps[i].lazy {
      LoadedPrevIdxMatchesSaved(id, key, types[typ].domain, ps, vals);
    }
  }

  /** An instance of a class that includes Sirop. */
  class Record {
    /** The Ruby class, as the name its configuration is registered under. */
    const typ: string
    /** `@id`; nil until it is first read. */
    var id: Value
    /** `@doc_key`; unset until it is first read. */
    var docKey: Option<string>
    /** The other instance variables, one per property name. */
    var slots: map<string, Slot>
    /** `@_prev_idx_doc`. */
    var prevIdx: Option<IndexDoc>

    /** `new` and `allocate`: a record with no instance variable set. */
    constructor (typ: string)
      ensures this.typ == typ && id == Nil && docKey == None && slots == map[] && prevIdx == None
    {
      this.typ := typ;
      id := Nil;
      docKey := None;
      slots := map[];
      prevIdx := None;
    }

    /** `allocate` followed by `instance_variable_set` of every loaded
        instance variable, as `get` does. */
    constructor Materialised(typ: string, id: Value, slots: map<string, Slot>, prevIdx: IndexDoc)
      ensures this.typ == typ && this.id == id && docKey == None && this.slots == slots
      ensures this.prevIdx == Some(prevIdx)
    {
      this.typ := typ;
      this.id := id;
      docKey := None;
      this.slots := slots;
      this.prevIdx := Some(prevIdx);
    }

    /** `instance_variable_get("@" + name)`: nil when it was never set. */
    function SlotOf(name: string): Slot
      reads this`slots
    {
      SlotAt(slots, name)
    }

    /** The first j values are what `save` writes for the first j properties
        of the table: each one's instance variable as it is, folded to the ids
        of its records when an association, every such record having an id. */
    ghost predicate SavedPrefix(props: seq<Property>, j: nat, vals: seq<Value>)
      reads this`slots, AllRefs(slots)`id
    {
      && j <= |props| && |vals| == j
      && forall i :: 0 <= i < j ==>
           && vals[i] == SavedValue(props[i], SlotOf(props[i].name))
           && (props[i].model.Some? ==> IdsSet(SlotOf(props[i].name)))
           && (props[i].model.None? ==> SlotOf(props[i].name).Data?)
    }

    /** Every property's instance variable holds a shape save accepts, and
        every record it refers to is of a registered type. */
    ghost predicate Typed(s: Store)
      reads this`slots, s`types
      requires typ in s.types
    {
      SlotsTyped(s.types, s.types[typ].properties, slots)
    }

    /** `id`: memoised with `||=`, so a record without a (truthy) id draws one
        from the store and keeps it; later calls draw nothing. */
    method Id(s: Store) returns (v: Value)
      requires s.Valid() && typ in s.types
      modifies this`id, s`db, s`uuidsDrawn
      ensures v == id && Truthy(v)
      ensures (id, s.db, s.uuidsDrawn) == s.Memo(old(id), old(s.db), old(s.uuidsDrawn), s.types[typ].domain)
    {
      if !Truthy(id) {
        id := s.NextSequence(s.types[typ].domain);
      }
      v := id;
    }

    /** `doc_key`: memoised with `||=`; the first call builds
        domain + "/" + id, drawing the id if there is none yet. */
    method DocKey(s: Store) returns (k: string)
      requires s.Valid() && typ in s.types
      modifies this`id, this`docKey, s`db, s`uuidsDrawn
      ensures docKey == Some(k)
      ensures old(docKey).Some? ==>
        k == old(docKey).value && id == old(id) && s.db == old(s.db) && s.uuidsDrawn == old(s.uuidsDrawn)
      ensures old(docKey).None? ==>
        && k == KeyFor(s.types[typ].domain, id)
        && (id, s.db, s.uuidsDrawn) == s.Memo(old(id), old(s.db), old(s.uuidsDrawn), s.types[typ].domain)
    {
      if docKey.None? {
        var i := Id(s);
        docKey := Some(KeyFor(s.types[typ].domain, i));
      }
      k := docKey.value;
    }

    /** `==`: two records are equal when their doc keys are; the other
        record's doc key is computed first. */
    method Equals(s: Store, other: Record) returns (b: bool)
      requires s.Valid() && typ in s.types && other.typ in s.types
      modifies this`id, this`docKey, other`id, other`docKey, s`db, s`uuidsDrawn
      ensures old(s.uuidsDrawn) <= s.uuidsDrawn
      ensures docKey.Some? && other.docKey.Some?
      ensures b <==> other.docKey.value == docKey.value
      ensures old(docKey).Some? && old(other.docKey).Some? ==>
        && docKey == old(docKey) && other.docKey == old(other.docKey)
        && s.db == old(s.db) && s.uuidsDrawn == old(s.uuidsDrawn)
      ensures old(docKey).None? ==> docKey.value == KeyFor(s.types[typ].domain, id)
      ensures old(other.docKey).None? ==> other.docKey.value == KeyFor(s.types[other.typ].domain, other.id)
      ensures Truthy(old(id)) ==> id == old(id)
      ensures Truthy(old(other.id)) ==> other.id == old(other.id)
      ensures (old(docKey).None? ==> Truthy(id)) && (old(other.docKey).None? ==> Truthy(other.id))
      ensures SameBlobs(s.db, old(s.db), {})
      ensures old(docKey).Some? ==> docKey == old(docKey)
      ensures old(other.docKey).Some? ==> other.docKey == old(other.docKey)
      ensures old(other.docKey).None? ==>
        other.id == s.Memo(old(other.id), old(s.db), old(s.uuidsDrawn), s.types[other.typ].domain).0
      ensures old(other.docKey).None? && (this == other || old(docKey).Some?) ==>
        (other.id, s.db, s.uuidsDrawn) == s.Memo(old(other.id), old(s.db), old(s.uuidsDrawn), s.types[other.typ].domain)
      ensures old(other.docKey).Some? && old(docKey).None? ==>
        (id, s.db, s.uuidsDrawn) == s.Memo(old(id), old(s.db), old(s.uuidsDrawn), s.types[typ].domain)
      ensures this != other && old(other.docKey).None? && old(docKey).None? ==>
        var m := s.Memo(old(other.id), old(s.db), old(s.uuidsDrawn), s.types[other.typ].domain);
        (id, s.db, s.uuidsDrawn) == s.Memo(old(id), m.1, m.2, s.types[typ].domain)
    {
      var theirs := other.DocKey(s);
      var mine := DocKey(s);
      b := theirs == mine;
    }

    /** `destroy`: removes the record's doc key from both stores. */
    method Destroy(s: Store)
      requires s.Valid() && typ in s.types
      modifies this`id, this`docKey, s`db, s`index, s`uuidsDrawn
      ensures docKey.Some? && docKey.value !in s.db && docKey.value !in s.index
      ensures s.index == old(s.index) - {docKey.value}
      ensures old(docKey).Some? ==>
        && docKey == old(docKey) && id == old(id)
        && s.db == old(s.db) - {docKey.value} && s.uuidsDrawn == old(s.uuidsDrawn)
      ensures old(docKey).None? ==>
        var m := s.Memo(old(id), old(s.db), old(s.uuidsDrawn), s.types[typ].domain);
        && docKey.value == KeyFor(s.types[typ].domain, id)
        && id == m.0 && s.db == m.1 - {docKey.value} && s.uuidsDrawn == m.2
      ensures forall k :: k != docKey.value && !SeqLike(k) ==> (k in s.db <==> k in old(s.db))
      ensures forall k :: k != docKey.value && !SeqLike(k) && k in s.db ==> s.db[k] == old(s.db)[k]
    {
      var k := DocKey(s);
      s.Remove(k);
    }

    /** `save`: draws the id and builds the doc key if need be, then walks
        the property table in order, writing each lazy property's value to
        its own blob and collecting the others in the main document, which
        is written last; the index document goes to the index only when it
        differs from the one kept from the last load or save. `vals` are the
        values written, one per property; `rs` are the records the instance
        variables refer to: with this record, those that had an id keep it
        and those that had none may hold one drawn during the call, distinct
        from the others drawn from the same source (the clause on Drew). */
    method Save(s: Store, ghost rs: set<Record>, fuel: nat) returns (r: Result<bool>, ghost vals: seq<Value>)
      requires s.Valid() && typ in s.types && Typed(s) && rs == AllRefs(slots)
      requires !SeqLike(s.types[typ].domain) && (docKey.Some? ==> !SeqLike(docKey.value))
      modifies this`id, this`docKey, this`slots, this`prevIdx
      modifies s`db, s`index, s`uuidsDrawn, s`indexUpserts, s`blobSets, rs`id
      ensures old(s.uuidsDrawn) <= s.uuidsDrawn
      ensures docKey.Some? && !SeqLike(docKey.value) && Typed(s)
      ensures id == s.Memo(old(id), old(s.db), old(s.uuidsDrawn), s.types[typ].domain).0
      ensures old(docKey).Some? ==> docKey == old(docKey)
      ensures old(docKey).None? ==> docKey == Some(KeyFor(s.types[typ].domain, id))
      ensures forall n :: !LazyName(s.types[typ].properties, n) ==> SlotOf(n) == old(SlotOf(n))
      ensures r.Ok? ==> r.value && SavedPrefix(s.types[typ].properties, |s.types[typ].properties|, vals)
      ensures r.Ok? ==>
        Committed(s.db, old(s.db), docKey.value, s.types[typ].properties, MainDoc(id, s.types[typ].properties, vals), vals)
      ensures r.Ok? ==>
        && prevIdx == Some(IdxDoc(id, docKey.value, s.types[typ].domain, s.types[typ].properties, vals))
        && Reindexed(s.index, old(s.index), s.indexUpserts, old(s.indexUpserts), old(prevIdx), docKey.value, prevIdx.value)
      ensures r.Ok? ==> s.blobSets == old(s.blobSets) + LazyCount(s.types[typ].properties) + 1
      ensures r.Err? ==> HasLazy(s.types[typ].properties)
      ensures r.Err? ==>
        && SameBlobs(s.db, old(s.db), LazyKeys(docKey.value, s.types[typ].properties))
        && s.index == old(s.index) && s.indexUpserts == old(s.indexUpserts) && prevIdx == old(prevIdx)
      ensures r.Err? ==> old(s.blobSets) <= s.blobSets <= old(s.blobSets) + LazyCount(s.types[typ].properties)
      ensures r.Ok? ==> LazySlots(Blobs(old(s.db)), docKey.value, s.types[typ].properties, |s.types[typ].properties|, old(slots), slots)
      ensures AllLazyReadable(Blobs(old(s.db)), docKey.value, s.types[typ].properties, old(slots)) ==> r.Ok?
      ensures s.Drew(rs + {this}, old(IdsOf(rs + {this})), old(s.db), old(s.uuidsDrawn), IdsOf(rs + {this}), s.db, s.uuidsDrawn)
    {
      var key := IdAndKey(s, rs + {this});
      r, vals := SaveUnder(s, key, rs, old(s.db), old(IdsOf(rs + {this})), old(s.uuidsDrawn), fuel);
    }

    /** The head of `save`: `id`, then `doc_key`. Afterwards the record has
        an id and a doc key that is no counter key, and only counters have
        changed in the blob store. */
    method IdAndKey(s: Store, ghost rs: set<Record>) returns (key: string)
      requires s.Valid() && typ in s.types
      requires !SeqLike(s.types[typ].domain) && (docKey.Some? ==> !SeqLike(docKey.value))
      modifies this`id, this`docKey, s`db, s`uuidsDrawn
      ensures docKey == Some(key) && !SeqLike(key) && Truthy(id)
      ensures (id, s.db, s.uuidsDrawn) == s.Memo(old(id), old(s.db), old(s.uuidsDrawn), s.types[typ].domain)
      ensures old(docKey).Some? ==> docKey == old(docKey)
      ensures old(docKey).None? ==> key == KeyFor(s.types[typ].domain, id)
      ensures SameBlobs(s.db, old(s.db), {}) && Blobs(s.db) == Blobs(old(s.db))
      ensures s.Drew(rs, old(IdsOf(rs)), old(s.db), old(s.uuidsDrawn), IdsOf(rs), s.db, s.uuidsDrawn)
    {
      var theId := Id(s);
      key := DocKey(s);
      if old(docKey).None? {
        NotSeqLikeExtends(s.types[typ].domain, ToS(theId));
      }
      BlobsUnmoved(s.db, old(s.db));
      s.DrewOne(rs, this, old(IdsOf(rs)), old(s.db), old(s.uuidsDrawn), IdsOf(rs), s.db, s.uuidsDrawn);
    }

    /** `save` once the id is drawn and the doc key built, stated against
        the blob store db0 before the id was drawn. */
    method SaveUnder(s: Store, key: string, ghost rs: set<Record>, ghost db0: Db, ghost ids0: map<Record, Value>, ghost drawn0: nat, fuel: nat)
      returns (r: Result<bool>, ghost vals: seq<Value>)
      requires s.Valid() && typ in s.types && Typed(s)
      requires docKey == Some(key) && !SeqLike(key) && Truthy(id) && rs == AllRefs(slots)
      requires SameBlobs(s.db, db0, {}) && Blobs(s.db) == Blobs(db0)
      requires s.Drew(rs + {this}, ids0, db0, drawn0, IdsOf(rs + {this}), s.db, s.uuidsDrawn) && drawn0 <= s.uuidsDrawn
      modifies this`id, this`docKey, this`slots, this`prevIdx
      modifies s`db, s`index, s`uuidsDrawn, s`indexUpserts, s`blobSets, rs`id
      ensures old(s.uuidsDrawn) <= s.uuidsDrawn
      ensures id == old(id) && docKey == old(docKey) && Typed(s)
      ensures forall n :: !LazyName(s.types[typ].properties, n) ==> SlotOf(n) == old(SlotOf(n))
      ensures r.Ok? ==> r.value && SavedPrefix(s.types[typ].properties, |s.types[typ].properties|, vals)
      ensures r.Ok? ==> Committed(s.db, db0, key, s.types[typ].properties, MainDoc(id, s.types[typ].properties, vals), vals)
      ensures r.Ok? ==>
        && prevIdx == Some(IdxDoc(id, key, s.types[typ].domain, s.types[typ].properties, vals))
        && Reindexed(s.index, old(s.index), s.indexUpserts, old(s.indexUpserts), old(prevIdx), key, prevIdx.value)
      ensures r.Ok? ==> s.blobSets == old(s.blobSets) + LazyCount(s.types[typ].properties) + 1
      ensures r.Err? ==> HasLazy(s.types[typ].properties)
      ensures r.Err? ==>
        && SameBlobs(s.db, db0, LazyKeys(key, s.types[typ].properties))
        && s.index == old(s.index) && s.indexUpserts == old(s.indexUpserts) && prevIdx == old(prevIdx)
      ensures r.Err? ==> old(s.blobSets) <= s.blobSets <= old(s.blobSets) + LazyCount(s.types[typ].properties)
      ensures forall x :: x in rs && Truthy(old(x.id)) ==> x.id == old(x.id)
      ensures r.Ok? ==> LazySlots(Blobs(db0), key, s.types[typ].properties, |s.types[typ].properties|, old(slots), slots)
      ensures AllLazyReadable(Blobs(db0), key, s.types[typ].properties, old(slots)) ==> r.Ok?
      ensures s.Drew(rs + {this}, ids0, db0, drawn0, IdsOf(rs + {this}), s.db, s.uuidsDrawn)
    {
      ghost var ids1 := IdsOf(rs + {this});
      r, vals := SaveBody(s, key, rs + {this}, fuel);
      s.DrewTrans(rs + {this}, ids0, db0, drawn0, ids1, old(s.db), old(s.uuidsDrawn), IdsOf(rs + {this}), s.db, s.uuidsDrawn);
      if r.Ok? {
        CommittedSince(s.db, old(s.db), db0, key, s.types[typ].properties, MainDoc(id, s.types[typ].properties, vals), vals);
      } else {
        SameBlobsTrans(s.db, old(s.db), db0, LazyKeys(key, s.types[typ].properties), {});
      }
    }

    /** `save` once the id is drawn and the doc key built: the loop, then
        the commit. */
    method SaveBody(s: Store, key: string, ghost rs: set<Record>, fuel: nat) returns (r: Result<bool>, ghost vals: seq<Value>)
      requires s.Valid() && typ in s.types && Typed(s)
      requires docKey == Some(key) && !SeqLike(key) && Truthy(id) && AllRefs(slots) <= rs
      modifies this`id, this`docKey, this`slots, this`prevIdx
      modifies s`db, s`index, s`uuidsDrawn, s`indexUpserts, s`blobSets, rs`id
      ensures old(s.uuidsDrawn) <= s.uuidsDrawn
      ensures id == old(id) && docKey == old(docKey) && Typed(s)
      ensures forall n :: !LazyName(s.types[typ].properties, n) ==> SlotOf(n) == old(SlotOf(n))
      ensures r.Ok? ==> r.value && SavedPrefix(s.types[typ].properties, |s.types[typ].properties|, vals)
      ensures r.Ok? ==> Committed(s.db, old(s.db), key, s.types[typ].properties, MainDoc(id, s.types[typ].properties, vals), vals)
      ensures r.Ok? ==>
        && prevIdx == Some(IdxDoc(id, key, s.types[typ].domain, s.types[typ].properties, vals))
        && Reindexed(s.index, old(s.index), s.indexUpserts, old(s.indexUpserts), old(prevIdx), key, prevIdx.value)
      ensures r.Ok? ==> s.blobSets == old(s.blobSets) + LazyCount(s.types[typ].properties) + 1
      ensures r.Err? ==> HasLazy(s.types[typ].properties)
      ensures r.Err? ==>
        && SameBlobs(s.db, old(s.db), LazyKeys(key, s.types[typ].properties))
        && s.index == old(s.index) && s.indexUpserts == old(s.indexUpserts) && prevIdx == old(prevIdx)
      ensures r.Err? ==> old(s.blobSets) <= s.blobSets <= old(s.blobSets) + LazyCount(s.types[typ].properties)
      ensures forall x :: x in rs && Truthy(old(x.id)) ==> x.id == old(x.id)
      ensures r.Ok? ==> LazySlots(Blobs(old(s.db)), key, s.types[typ].properties, |s.types[typ].properties|, old(slots), slots)
      ensures AllLazyReadable(Blobs(old(s.db)), key, s.types[typ].properties, old(slots)) ==> r.Ok?
      ensures s.Drew(rs, old(IdsOf(rs)), old(s.db), old(s.uuidsDrawn), IdsOf(rs), s.db, s.uuidsDrawn)
    {
      var w;
      w, vals := SaveFields(s, key, rs, fuel);
      LazyBlobs(old(s.db), key, s.types[typ].properties, old(slots), slots);
      if w.Err? {
        r := Err(w.error);
        return;
      }
      ghost var ids1, db1 := IdsOf(rs), s.db;
      CounterUnmoved(s.db, key, Dumped(Hash(w.value.0)));
      Commit(s, key, w.value.0, w.value.1, s.types[typ].properties, vals, old(s.db));
      s.DrewRecount(rs, old(IdsOf(rs)), old(s.db), old(s.uuidsDrawn), ids1, db1, s.uuidsDrawn, s.db);
      r := Ok(true);
    }

    /** The end of `save`: `db_set(doc_key, db_doc)`, then `index << idx_doc`
        unless the index document is the one kept, which becomes the kept
        one. db0 is the blob store before the loop. */
    method Commit(s: Store, key: string, main: Entries, doc: IndexDoc, ghost props: seq<Property>,
                  ghost vals: seq<Value>, ghost db0: Db)
      requires !SeqLike(key) && Written(s.db, db0, key, props, |props|, vals)
      requires SavedPrefix(props, |props|, vals)
      modifies this`prevIdx, s`db, s`blobSets, s`index, s`indexUpserts
      ensures SavedPrefix(props, |props|, vals)
      ensures Committed(s.db, db0, key, props, main, vals) && s.blobSets == old(s.blobSets) + 1
      ensures prevIdx == Some(doc)
      ensures Reindexed(s.index, old(s.index), s.indexUpserts, old(s.indexUpserts), old(prevIdx), key, doc)
      ensures s.db == old(s.db)[key := Dumped(Hash(main))]
    {
      CommitWritten(s.db, db0, key, props, main, vals);
      s.db := s.db[key := Dumped(Hash(main))];
      s.blobSets := s.blobSets + 1;
      if prevIdx != Some(doc) {
        s.index := s.index[key := doc];
        s.indexUpserts := s.indexUpserts + 1;
      }
      prevIdx := Some(doc);
    }

    /** `save`'s loop over the property table: every property's value in
        order, each lazy one written to its blob on the way; the result is
        the main document and the index document to write. */
    method SaveFields(s: Store, key: string, ghost rs: set<Record>, fuel: nat) returns (r: Result<(Entries, IndexDoc)>, ghost vals: seq<Value>)
      requires s.Valid() && typ in s.types && Typed(s)
      requires docKey == Some(key) && !SeqLike(key) && Truthy(id)
      modifies this`id, this`docKey, this`slots, s`db, s`uuidsDrawn, s`blobSets, AllRefs(slots)`id
      ensures old(s.uuidsDrawn) <= s.uuidsDrawn
      ensures id == old(id) && docKey == old(docKey) && Typed(s)
      ensures forall n :: !LazyName(s.types[typ].properties, n) ==> SlotOf(n) == old(SlotOf(n))
      ensures r.Ok? ==>
        && SavedPrefix(s.types[typ].properties, |s.types[typ].properties|, vals)
        && r.value.0 == MainDoc(id, s.types[typ].properties, vals)
        && r.value.1 == IdxDoc(id, key, s.types[typ].domain, s.types[typ].properties, vals)
      ensures r.Ok? ==>
        && Written(s.db, old(s.db), key, s.types[typ].properties, |s.types[typ].properties|, vals)
        && s.blobSets == old(s.blobSets) + LazyCount(s.types[typ].properties)
      ensures r.Err? ==> HasLazy(s.types[typ].properties)
      ensures r.Err? ==> SameBlobs(s.db, old(s.db), LazyKeys(key, s.types[typ].properties))
      ensures r.Err? ==> old(s.blobSets) <= s.blobSets <= old(s.blobSets) + LazyCount(s.types[typ].properties)
      ensures forall x :: x in rs && Truthy(old(x.id)) ==> x.id == old(x.id)
      ensures r.Ok? ==> LazySlots(old(s.db), key, s.types[typ].properties, |s.types[typ].properties|, old(slots), slots)
      ensures r.Err? ==> !AllLazyReadable(old(s.db), key, s.types[typ].properties, old(slots))
      ensures s.Drew(rs, old(IdsOf(rs)), old(s.db), old(s.uuidsDrawn), IdsOf(rs), s.db, s.uuidsDrawn)
    {
      var props := s.types[typ].properties;
      var domain := s.types[typ].domain;
      var main: Entries := [("id", id)];
      var idx: IndexDoc := map["id" := id, "_doc_key" := Str(key), "_domain" := Str(domain)];
      vals := [];
      var j := 0;
      s.DrewNone(rs, IdsOf(rs), s.db, s.uuidsDrawn, s.db, s.uuidsDrawn);
      while j < |props|
        invariant 0 <= j <= |props| && |vals| == j
        invariant id == old(id) && docKey == old(docKey) && Typed(s)
        invariant main == MainDoc(id, props[..j], vals) && idx == IdxDoc(id, key, domain, props[..j], vals)
        invariant SavedPrefix(props, j, vals)
        invariant SlotsKept(slots, old(slots), props, j)
        invariant Written(s.db, old(s.db), key, props, j, vals)
        invariant s.blobSets == old(s.blobSets) + LazyCount(props[..j])
        invariant forall x :: x in rs && Truthy(old(x.id)) ==> x.id == old(x.id)
        invariant LazySlots(old(s.db), key, props, j, old(slots), slots)
        invariant old(s.uuidsDrawn) <= s.uuidsDrawn
        invariant s.Drew(rs, old(IdsOf(rs)), old(s.db), old(s.uuidsDrawn), IdsOf(rs), s.db, s.uuidsDrawn)
      {
        var p := props[j];
        RefsInAll(old(slots), p.name);
        var v := SaveStep(s, key, props, j, vals, old(s.db), old(slots), rs, old(IdsOf(rs)), old(s.uuidsDrawn), fuel);
        if v.Err? {
          assert props[j].lazy;
          LazyCountPrefix(props, j);
          r := Err(v.error);
          return;
        }
        DocsStep(id, key, domain, props, j, vals, v.value);
        if !p.lazy {
          main := Put(main, p.name, v.value);
        }
        if p.index {
          idx := idx[p.name := v.value];
        }
        vals := vals + [v.value];
        j := j + 1;
      }
      assert props[..j] == props;
      r := Ok((main, idx));
    }

    /** SavedPrefix, with the records' ids read into a map. */
    lemma PrefixToWith(props: seq<Property>, j: nat, vals: seq<Value>, ids: map<Record, Value>)
      requires SavedPrefix(props, j, vals)
      requires forall x :: x in AllRefs(slots) ==> x in ids && ids[x] == x.id
      ensures PrefixWith(props, j, vals, slots, ids)
    {
      forall i | 0 <= i < j
        ensures Refs(SlotOf(props[i].name)) <= ids.Keys
        ensures vals[i] == SavedWith(props[i], SlotOf(props[i].name), ids)
      {
        RefsInAll(slots, props[i].name);
        SavedAsWith(props[i], SlotOf(props[i].name), ids);
      }
    }

    /** SavedPrefix extended by one property saved as `save` does. */
    lemma PrefixSnoc(props: seq<Property>, j: nat, vals: seq<Value>, v: Value)
      requires SavedPrefix(props, j, vals) && j < |props|
      requires v == SavedValue(props[j], SlotOf(props[j].name))
      requires props[j].model.Some? ==> IdsSet(SlotOf(props[j].name))
      requires props[j].model.None? ==> SlotOf(props[j].name).Data?
      ensures SavedPrefix(props, j + 1, vals + [v])
    {
      forall i | 0 <= i < j ensures (vals + [v])[i] == vals[i] {
      }
    }

    /** PrefixWith of instance variables the first j properties still hold,
        over records whose true ids are still those of the map, is
        SavedPrefix now. */
    lemma PrefixFromWith(props: seq<Property>, j: nat, vals: seq<Value>, slots0: map<string, Slot>, ids: map<Record, Value>)
      requires PrefixWith(props, j, vals, slots0, ids)
      requires forall i :: 0 <= i < j ==> SlotOf(props[i].name) == SlotAt(slots0, props[i].name)
      requires forall x :: x in ids && Truthy(ids[x]) ==> x.id == ids[x]
      ensures SavedPrefix(props, j, vals)
    {
      forall i | 0 <= i < j
        ensures vals[i] == SavedValue(props[i], SlotOf(props[i].name))
        ensures props[i].model.Some? ==> IdsSet(SlotOf(props[i].name))
      {
        var sl := SlotOf(props[i].name);
        if props[i].model.Some? {
          assert forall x :: x in Refs(sl) ==> x.id == ids[x];
        }
        SavedAsWith(props[i], sl, ids);
      }
    }

    /** Pass j of `save`'s loop, with db0 and slots0 the blob store and the
        instance variables before the loop: what the first j passes
        established holds for j + 1 passes once property j is saved. */
    method SaveStep(s: Store, key: string, props: seq<Property>, j: nat, ghost vals: seq<Value>,
                    ghost db0: Db, ghost slots0: map<string, Slot>, ghost rs: set<Record>,
                    ghost ids0: map<Record, Value>, ghost drawn0: nat, fuel: nat) returns (r: Result<Value>)
      requires s.Valid() && typ in s.types && props == s.types[typ].properties && Typed(s)
      requires docKey.Some? && key == docKey.value && !SeqLike(key) && Truthy(id) && j < |props|
      requires SavedPrefix(props, j, vals) && Written(s.db, db0, key, props, j, vals)
      requires SlotsKept(slots, slots0, props, j) && LazySlots(db0, key, props, j, slots0, slots)
      requires s.Drew(rs, ids0, db0, drawn0, IdsOf(rs), s.db, s.uuidsDrawn) && drawn0 <= s.uuidsDrawn
      modifies this`id, this`docKey, this`slots, s`db, s`uuidsDrawn, s`blobSets, Refs(SlotOf(props[j].name))`id
      ensures old(s.uuidsDrawn) <= s.uuidsDrawn
      ensures id == old(id) && docKey == old(docKey) && Typed(s)
      ensures forall x :: x in rs && Truthy(old(x.id)) ==> x.id == old(x.id)
      ensures r.Err? ==> props[j].lazy
      ensures r.Err? ==> SameBlobs(s.db, db0, LazyKeys(key, props)) && SlotsKept(slots, slots0, props, j)
      ensures r.Err? ==> s.blobSets == old(s.blobSets)
      ensures r.Ok? ==>
        && SavedPrefix(props, j + 1, vals + [r.value])
        && Written(s.db, db0, key, props, j + 1, vals + [r.value])
        && SlotsKept(slots, slots0, props, j + 1)
        && s.blobSets == old(s.blobSets) + if props[j].lazy then 1 else 0
      ensures r.Ok? ==> LazySlots(db0, key, props, j + 1, slots0, slots)
      ensures r.Err? ==> !LazyReadable(db0, key, props[j], SlotAt(slots0, props[j].name))
      ensures s.Drew(rs, ids0, db0, drawn0, IdsOf(rs), s.db, s.uuidsDrawn)
    {
      ghost var db1 := s.db;
      ghost var slots1 := slots;
      ghost var ids1, drawn1 := IdsOf(rs), s.uuidsDrawn;
      WrittenElsewhere(db1, db0, key, props, j, vals);
      r := SaveKept(s, key, props, j, vals, rs, fuel);
      s.DrewTrans(rs, ids0, db0, drawn0, ids1, db1, drawn1, IdsOf(rs), s.db, s.uuidsDrawn);
      if r.Err? {
        WrittenWithin(db1, db0, key, props, j, vals);
        return;
      }
      WrittenStep(db1, s.db, db0, key, props, j, vals, r.value);
      SlotsKeptStep(slots1, slots, slots0, props, j);
      LazySlotsStep(db0, key, props, j, slots0, slots1, slots);
    }

    /** Property j saved after the first j: its value is what `save` writes
        for it, and the values of the first j stay what they were. */
    method SaveKept(s: Store, key: string, props: seq<Property>, j: nat, ghost vals: seq<Value>, ghost rs: set<Record>, fuel: nat)
      returns (r: Result<Value>)
      requires s.Valid() && typ in s.types && props == s.types[typ].properties && Typed(s)
      requires docKey.Some? && key == docKey.value && !SeqLike(key) && Truthy(id) && j < |props|
      requires SavedPrefix(props, j, vals)
      modifies this`id, this`docKey, this`slots, s`db, s`uuidsDrawn, s`blobSets, Refs(SlotOf(props[j].name))`id
      ensures old(s.uuidsDrawn) <= s.uuidsDrawn
      ensures id == old(id) && docKey == old(docKey) && Typed(s)
      ensures forall n :: n != props[j].name ==> SlotAt(slots, n) == SlotAt(old(slots), n)
      ensures !props[j].lazy ==> SlotAt(slots, props[j].name) == SlotAt(old(slots), props[j].name)
      ensures r.Ok? ==> SavedPrefix(props, j + 1, vals + [r.value])
      ensures forall x :: x in rs && Truthy(old(x.id)) ==> x.id == old(x.id)
      ensures r.Err? ==> props[j].lazy
      ensures r.Err? ==> SameBlobs(s.db, old(s.db), {}) && slots == old(slots) && s.blobSets == old(s.blobSets)
      ensures props[j].lazy && r.Ok? ==>
        && SameBlobs(s.db, old(s.db), {key + "/" + props[j].name})
        && key + "/" + props[j].name in s.db && s.db[key + "/" + props[j].name] == Dumped(r.value)
        && s.blobSets == old(s.blobSets) + 1
      ensures !props[j].lazy && r.Ok? ==> SameBlobs(s.db, old(s.db), {}) && s.blobSets == old(s.blobSets)
      ensures props[j].lazy ==> (r.Ok? <==> LazyLoads(old(s.db), s.types, key, props[j], old(SlotOf(props[j].name)), fuel))
      ensures props[j].lazy && r.Ok? ==> LazySlot(old(s.db), key, props[j], old(SlotOf(props[j].name)), SlotOf(props[j].name))
      ensures s.Drew(rs, old(IdsOf(rs)), old(s.db), old(s.uuidsDrawn), IdsOf(rs), s.db, s.uuidsDrawn)
    {
      var p := props[j];
      LookupAt(props, j);
      ghost var cur := SlotOf(p.name);
      ghost var slots0 := slots;
      ghost var all := AllRefs(slots);
      ghost var ids0 := map x | x in all :: x.id;
      PrefixToWith(props, j, vals, ids0);
      ghost var u0, r0 := IdsOf(all + rs), IdsOf(rs);
      r := SaveField(s, key, p, cur, all + rs, fuel);
      s.DrewOn(rs, r0, IdsOf(rs), all + rs, u0, IdsOf(all + rs), old(s.db), old(s.uuidsDrawn), s.db, s.uuidsDrawn);
      SlotsElsewhere(slots0, slots, p.name);
      if r.Err? {
        return;
      }
      forall x | x in ids0 && Truthy(ids0[x])
        ensures x.id == ids0[x]
      {
        assert x in all + rs;
      }
      assert forall i :: 0 <= i < j ==> props[i].name != p.name;
      PrefixFromWith(props, j, vals, slots0, ids0);
      PrefixSnoc(props, j, vals, r.value);
    }

    /** The writer `attr_accessor` or `attr_writer` defines for a property:
        sets that instance variable and no other. */
    method Set(s: Store, name: string, slot: Slot)
      requires typ in s.types && Lookup(s.types[typ].properties, name).Some?
      requires Lookup(s.types[typ].properties, name).value.accessors || Lookup(s.types[typ].properties, name).value.lazy
      modifies this`slots
      ensures SlotOf(name) == slot
      ensures forall n :: n != name ==> SlotOf(n) == old(SlotOf(n))
      ensures slots == old(slots)[name := slot]
    {
      slots := slots[name := slot];
    }

    /** The reader `define_lazy_attribute` defines: memoised with `||=`, so an
        instance variable that is already true is returned as it is;
        otherwise the blob under doc key + "/" + name is read (drawing the
        id and building the doc key if need be), unfolded when the property
        is an association, and kept. */
    method Lazy(s: Store, name: string, fuel: nat) returns (r: Result<Slot>)
      requires s.Valid() && typ in s.types
      requires Lookup(s.types[typ].properties, name).Some? && Lookup(s.types[typ].properties, name).value.lazy
      modifies this`id, this`docKey, this`slots, s`db, s`uuidsDrawn
      ensures SlotTruthy(old(SlotOf(name))) ==>
        && r == Ok(old(SlotOf(name))) && slots == old(slots) && id == old(id) && docKey == old(docKey)
        && s.db == old(s.db) && s.uuidsDrawn == old(s.uuidsDrawn)
      ensures !SlotTruthy(old(SlotOf(name))) ==>
        && docKey.Some?
        && (old(docKey).None? ==>
              && docKey.value == KeyFor(s.types[typ].domain, id)
              && (id, s.db, s.uuidsDrawn) == s.Memo(old(id), old(s.db), old(s.uuidsDrawn), s.types[typ].domain))
        && var blob := DbGet(s.db, docKey.value + "/" + name);
           var p := Lookup(s.types[typ].properties, name).value;
           && (blob.Err? ==> r == Err(blob.error))
           && (blob.Ok? && p.model.None? ==> r == Ok(Data(blob.value)))
           && (blob.Ok? && p.model.Some? && !Truthy(blob.value) ==> r == Ok(Data(Nil)))
           && (blob.Ok? && p.model.Some? && Truthy(blob.value) && p.model.value !in s.types ==>
                 r == Err(NotAModel(p.model.value)))
           && (blob.Ok? && p.model.Some? ==> (r.Ok? <==> IdsLoadable(s.db, s.types, p.model.value, blob.value, fuel)))
           && (blob.Ok? && p.model.Some? && r.Ok? ==> Unfolded(s.db, s.types, r.value, blob.value, p.model.value))
           && (r.Ok? ==> forall x :: x in Refs(r.value) ==> fresh(x))
      ensures old(docKey).Some? ==>
        id == old(id) && docKey == old(docKey) && s.db == old(s.db) && s.uuidsDrawn == old(s.uuidsDrawn)
      ensures r.Ok? ==> slots == old(slots)[name := r.value]
      ensures r.Err? ==> slots == old(slots)
      ensures r.Ok? && !SlotTruthy(old(SlotOf(name))) ==>
        && SlotTyped(Lookup(s.types[typ].properties, name).value, r.value)
        && forall x :: x in Refs(r.value) ==> x.typ in s.types
    {
      var p := Lookup(s.types[typ].properties, name).value;
      var cur := SlotOf(name);
      if SlotTruthy(cur) {
        return Ok(cur);
      }
      var k := DocKey(s);
      var blob := DbGet(s.db, k + "/" + name);
      if blob.Err? {
        return Err(blob.error);
      }
      var slot: Slot;
      if p.model.None? {
        slot := Data(blob.value);
      } else {
        var u := s.Unfold(typ, name, blob.value, fuel);
        if u.Err? {
          return Err(u.error);
        }
        slot := u.value;
      }
      slots := slots[name := slot];
      return Ok(slot);
    }

    /** One pass of `save`'s loop over the property table: the value of
        property p (through the lazy reader when the property is lazy),
        folded to ids when an association, and written to its own blob when
        lazy. */
    method SaveField(s: Store, key: string, p: Property, ghost cur: Slot, ghost rs: set<Record>, fuel: nat) returns (r: Result<Value>)
      requires s.Valid() && typ in s.types && Lookup(s.types[typ].properties, p.name) == Some(p)
      requires docKey == Some(key) && !SeqLike(key) && Truthy(id)
      requires cur == SlotOf(p.name) && SlotTyped(p, cur)
      requires forall x :: x in Refs(cur) ==> x.typ in s.types
      requires Typed(s)
      modifies this`id, this`docKey, this`slots, s`db, s`uuidsDrawn, s`blobSets, Refs(cur)`id
      ensures old(s.uuidsDrawn) <= s.uuidsDrawn
      ensures id == old(id) && docKey == old(docKey) && Typed(s)
      ensures !p.lazy ==> r.Ok? && slots == old(slots)
      ensures r.Err? ==> p.lazy && slots == old(slots)
      ensures p.lazy && r.Ok? ==> slots == old(slots)[p.name := SlotOf(p.name)]
      ensures r.Ok? ==> r.value == SavedValue(p, SlotOf(p.name)) && (p.model.Some? ==> IdsSet(SlotOf(p.name)))
      ensures r.Ok? ==> SlotTyped(p, SlotOf(p.name))
      ensures r.Ok? ==> forall x :: x in Refs(SlotOf(p.name)) ==>
        x.typ in s.types && (x in Refs(cur) || fresh(x))
      ensures forall x :: x in rs && Truthy(old(x.id)) ==> x.id == old(x.id)
      ensures p.lazy && r.Ok? ==>
        && SameBlobs(s.db, old(s.db), {key + "/" + p.name})
        && key + "/" + p.name in s.db && s.db[key + "/" + p.name] == Dumped(r.value)
        && s.blobSets == old(s.blobSets) + 1
      ensures !(p.lazy && r.Ok?) ==> SameBlobs(s.db, old(s.db), {}) && s.blobSets == old(s.blobSets)
      ensures p.lazy ==> (r.Ok? <==> LazyLoads(old(s.db), s.types, key, p, cur, fuel))
      ensures p.lazy && r.Ok? ==> LazySlot(old(s.db), key, p, cur, SlotOf(p.name))
      ensures s.Drew(rs, old(IdsOf(rs)), old(s.db), old(s.uuidsDrawn), IdsOf(rs), s.db, s.uuidsDrawn)
    {
      ghost var props := s.types[typ].properties;
      ghost var ids0 := IdsOf(rs);
      assert SlotsTyped(s.types, props, slots);
      var l := FieldSlot(s, p, fuel);
      assert IdsOf(rs) == ids0;
      if l.Err? {
        s.DrewNone(rs, ids0, s.db, s.uuidsDrawn, s.db, s.uuidsDrawn);
        return Err(l.error);
      }
      if p.lazy {
        forall i | 0 <= i < |props| && props[i].name == p.name
          ensures props[i] == p
        {
          LookupAt(props, i);
        }
        SlotsTypedSet(s.types, props, old(slots), p.name, l.value);
      }
      assert SlotsTyped(s.types, props, slots);
      var value := s.SaveValue(p, l.value, key, rs);
      return Ok(value);
    }

    /** What `save` reads for property p: the lazy reader's result when p is
        lazy, the instance variable otherwise. The doc key is memoised
        already, so nothing is drawn. */
    method FieldSlot(s: Store, p: Property, fuel: nat) returns (r: Result<Slot>)
      requires s.Valid() && typ in s.types && Lookup(s.types[typ].properties, p.name) == Some(p)
      requires docKey.Some? && SlotTyped(p, SlotOf(p.name))
      modifies this`id, this`docKey, this`slots, s`db, s`uuidsDrawn
      ensures id == old(id) && docKey == old(docKey) && s.db == old(s.db) && s.uuidsDrawn == old(s.uuidsDrawn)
      ensures !p.lazy ==> r == Ok(old(SlotOf(p.name)))
      ensures !p.lazy || r.Err? ==> slots == old(slots)
      ensures p.lazy && r.Ok? ==> slots == old(slots)[p.name := r.value]
      ensures r.Ok? ==> SlotTyped(p, r.value)
      ensures r.Ok? ==> forall x :: x in Refs(r.value) ==>
        x in old(Refs(SlotOf(p.name))) || (fresh(x) && x.typ in s.types)
      ensures p.lazy ==> (r.Ok? <==> LazyLoads(s.db, s.types, docKey.value, p, old(SlotOf(p.name)), fuel))
      ensures p.lazy && r.Ok? ==> LazySlot(s.db, docKey.value, p, old(SlotOf(p.name)), r.value)
      ensures p.lazy && r.Ok? && !SlotTruthy(old(SlotOf(p.name))) && p.model.Some? ==>
        Unfolded(s.db, s.types, r.value, DbGet(s.db, docKey.value + "/" + p.name).value, p.model.value)
    {
      if !p.lazy {
        return Ok(SlotOf(p.name));
      }
      r := Lazy(s, p.name, fuel);
    }

  }

  /** The `Sirop` module state after `setup!`. */
  class Store {
    /** The blob store (LocalMemCache), keyed by string. */
    var db: Db
    /** The search index (Ferret), one document per `_doc_key`. */
    var index: map<string, IndexDoc>
    /** The index's registered field names (`field_infos.fields`). */
    var fields: set<string>
    /** `Sirop.config[klass]` for every registered class. */
    var types: map<string, TypeConfig>
    /** `config[:uuid]`: ids are UUIDs rather than per-domain counters. */
    const uuid: bool
    /** The UUID generator, as the sequence of values it hands out. */
    const uuidGen: nat -> string
    /** How many UUIDs have been handed out. */
    var uuidsDrawn: nat
    /** How many documents have been sent to the index (`index <<`). */
    ghost var indexUpserts: nat
    /** How many blobs have been written with `db_set`. */
    ghost var blobSets: nat

    /** Every registered type has a well-formed property table, and the UUID
        generator never hands out a value twice. */
    ghost predicate Valid()
      reads this`types
    {
      && (forall t :: t in types ==> UniqueNames(types[t].properties) && NoReservedNames(types[t].properties))
      && (uuid ==> forall i: nat, j: nat :: i < j ==> uuidGen(i) != uuidGen(j))
    }

    /** `setup!` on an existing blob store and index: the index gets its two
        key fields, no class is registered yet. */
    constructor (db0: Db, index0: map<string, IndexDoc>, fields0: set<string>, uuid: bool, uuidGen: nat -> string)
      requires uuid ==> forall i: nat, j: nat :: i < j ==> uuidGen(i) != uuidGen(j)
      ensures Valid()
      ensures db == db0 && index == index0 && fields == fields0 + {"_doc_key", "id"} && types == map[]
      ensures this.uuid == uuid && this.uuidGen == uuidGen && uuidsDrawn == 0
      ensures indexUpserts == 0 && blobSets == 0
    {
      db := db0;
      index := index0;
      fields := fields0 + {"_doc_key", "id"};
      types := map[];
      this.uuid := uuid;
      this.uuidGen := uuidGen;
      uuidsDrawn := 0;
      indexUpserts := 0;
      blobSets := 0;
    }

    /** One draw of the id source: the next UUID, or the domain's counter
        advanced by one. */
    function Draw(db0: Db, drawn: nat, domain: string): (r: (Value, Db, nat))
      ensures DrawnBetween(r.0, domain, db0, drawn, r.1, r.2)
    {
      if uuid then (Str(uuidGen(drawn)), db0, drawn + 1)
      else (Int(Advance(db0, domain).0), Advance(db0, domain).1, drawn)
    }

    /** The effect of reading a `||=`-memoised id: a truthy id stays and
        nothing is drawn; otherwise one draw. */
    function Memo(cur: Value, db0: Db, drawn: nat, domain: string): (r: (Value, Db, nat))
      ensures Truthy(r.0) && SameBlobs(r.1, db0, {})
      ensures Truthy(cur) ==> r == (cur, db0, drawn)
      ensures drawn <= r.2
      ensures !Truthy(cur) ==> DrawnBetween(r.0, domain, db0, drawn, r.1, r.2)
    {
      if Truthy(cur) then (cur, db0, drawn) else Draw(db0, drawn, domain)
    }

    /** v was handed out by the id source between two of its states: a UUID
        with a draw number from drawn0 up to drawn1, or in counter mode a
        value of the domain's counter above where it stood in db0 and no
        higher than where it stands in db1. */
    ghost predicate DrawnBetween(v: Value, domain: string, db0: Db, drawn0: nat, db1: Db, drawn1: nat) {
      if uuid then exists k: nat :: drawn0 <= k < drawn1 && v == Str(uuidGen(k))
      else v.Int? && Counter(db0, domain) < v.i <= Counter(db1, domain)
    }

    /** Two records whose ids come from one source: every id is a UUID, or
        both types share a domain and so a counter. */
    ghost predicate SameSource(types: map<string, TypeConfig>, x: Record, y: Record) {
      uuid || (x.typ in types && y.typ in types && types[x.typ].domain == types[y.typ].domain)
    }

    /** From ids0 to ids1, each record of rs that had an id keeps it, and
        each that had none either still has the same value or holds one
        drawn between (db0, drawn0) and (db1, drawn1); two such records of
        one source that now have ids hold different ones. */
    ghost predicate Drew(rs: set<Record>, ids0: map<Record, Value>, db0: Db, drawn0: nat,
                         ids1: map<Record, Value>, db1: Db, drawn1: nat)
      reads this`types
    {
      DrewIn(types, rs, ids0, db0, drawn0, ids1, db1, drawn1)
    }

    /** Drew, over the registered types given. */
    ghost predicate DrewIn(types: map<string, TypeConfig>, rs: set<Record>, ids0: map<Record, Value>, db0: Db, drawn0: nat,
                           ids1: map<Record, Value>, db1: Db, drawn1: nat)
    {
      && rs <= ids0.Keys && rs <= ids1.Keys
      && (forall x :: x in rs && Truthy(ids0[x]) ==> ids1[x] == ids0[x])
      && (forall x :: x in rs && !Truthy(ids0[x]) ==>
            ids1[x] == ids0[x] || (x.typ in types && DrawnBetween(ids1[x], types[x.typ].domain, db0, drawn0, db1, drawn1)))
      && (forall x, y | x in rs && y in rs && x != y ::
            !Truthy(ids0[x]) && !Truthy(ids0[y]) && Truthy(ids1[x]) && Truthy(ids1[y]) && SameSource(types, x, y) ==>
              ids1[x] != ids1[y])
    }

    /** A drawn id is a truthy one. */
    lemma DrawnTruthy(v: Value, domain: string, db0: Db, drawn0: nat, db1: Db, drawn1: nat)
      requires DrawnBetween(v, domain, db0, drawn0, db1, drawn1)
      ensures Truthy(v)
    {
      if uuid {
        var k: nat :| drawn0 <= k < drawn1 && v == Str(uuidGen(k));
      }
    }

    /** What was drawn within a span of the source was drawn within any
        wider span. */
    lemma DrawnWiden(v: Value, domain: string, db0: Db, drawn0: nat, db1: Db, drawn1: nat,
                     db0': Db, drawn0': nat, db1': Db, drawn1': nat)
      requires DrawnBetween(v, domain, db0, drawn0, db1, drawn1)
      requires Counter(db0', domain) <= Counter(db0, domain) && drawn0' <= drawn0
      requires Counter(db1, domain) <= Counter(db1', domain) && drawn1 <= drawn1'
      ensures DrawnBetween(v, domain, db0', drawn0', db1', drawn1')
    {
      if uuid {
        var k: nat :| drawn0 <= k < drawn1 && v == Str(uuidGen(k));
        assert drawn0' <= k < drawn1' && v == Str(uuidGen(k));
      }
    }

    /** Ids drawn from one source in two consecutive spans differ: UUIDs
        are never repeated and a counter only goes up. */
    lemma DrawnApart(v: Value, w: Value, dv: string, dw: string, db0: Db, drawn0: nat,
                     db1: Db, drawn1: nat, db2: Db, drawn2: nat)
      requires Valid() && (uuid || dv == dw)
      requires DrawnBetween(v, dv, db0, drawn0, db1, drawn1)
      requires DrawnBetween(w, dw, db1, drawn1, db2, drawn2)
      ensures v != w
    {
      if uuid {
        var k: nat :| drawn0 <= k < drawn1 && v == Str(uuidGen(k));
        var l: nat :| drawn1 <= l < drawn2 && w == Str(uuidGen(l));
        assert uuidGen(k) != uuidGen(l);
      }
    }

    /** Draws compose: what rs drew in two consecutive spans it drew in the
        whole span. */
    lemma {:induction false} DrewTrans(rs: set<Record>, ids0: map<Record, Value>, db0: Db, drawn0: nat,
                                       ids1: map<Record, Value>, db1: Db, drawn1: nat,
                                       ids2: map<Record, Value>, db2: Db, drawn2: nat)
      requires Valid()
      requires Drew(rs, ids0, db0, drawn0, ids1, db1, drawn1) && Drew(rs, ids1, db1, drawn1, ids2, db2, drawn2)
      requires forall d :: Counter(db0, d) <= Counter(db1, d)
      requires forall d :: Counter(db1, d) <= Counter(db2, d)
      requires drawn0 <= drawn1 <= drawn2
      ensures Drew(rs, ids0, db0, drawn0, ids2, db2, drawn2)
    {
      forall x | x in rs && !Truthy(ids0[x])
        ensures ids2[x] == ids0[x] || (x.typ in types && DrawnBetween(ids2[x], types[x.typ].domain, db0, drawn0, db2, drawn2))
      {
        if ids1[x] == ids0[x] {
          if ids2[x] != ids1[x] {
            var d := types[x.typ].domain;
            DrawnWiden(ids2[x], d, db1, drawn1, db2, drawn2, db0, drawn0, db2, drawn2);
          }
        } else {
          var d := types[x.typ].domain;
          DrawnTruthy(ids1[x], d, db0, drawn0, db1, drawn1);
          DrawnWiden(ids1[x], d, db0, drawn0, db1, drawn1, db0, drawn0, db2, drawn2);
        }
      }
      forall x, y | x in rs && y in rs && x != y && !Truthy(ids0[x]) && !Truthy(ids0[y])
          && Truthy(ids2[x]) && Truthy(ids2[y]) && SameSource(types, x, y)
        ensures ids2[x] != ids2[y]
      {
        if Truthy(ids1[x]) && !Truthy(ids1[y]) {
          DrawnApart(ids1[x], ids2[y], types[x.typ].domain, types[y.typ].domain, db0, drawn0, db1, drawn1, db2, drawn2);
        } else if !Truthy(ids1[x]) && Truthy(ids1[y]) {
          DrawnApart(ids1[y], ids2[x], types[y.typ].domain, types[x.typ].domain, db0, drawn0, db1, drawn1, db2, drawn2);
        }
      }
    }

    /** Draws stay draws when the blob store changes outside the counters. */
    lemma DrewRecount(rs: set<Record>, ids0: map<Record, Value>, db0: Db, drawn0: nat,
                      ids1: map<Record, Value>, db1: Db, drawn1: nat, db2: Db)
      requires Drew(rs, ids0, db0, drawn0, ids1, db1, drawn1)
      requires forall d :: Counter(db2, d) == Counter(db1, d)
      ensures Drew(rs, ids0, db0, drawn0, ids1, db2, drawn1)
    {
      forall x | x in rs && !Truthy(ids0[x]) && ids1[x] != ids0[x]
        ensures x.typ in types && DrawnBetween(ids1[x], types[x.typ].domain, db0, drawn0, db2, drawn1)
      {
        DrawnWiden(ids1[x], types[x.typ].domain, db0, drawn0, db1, drawn1, db0, drawn0, db2, drawn1);
      }
    }

    /** A span in which no record changed its id. */
    lemma DrewNone(rs: set<Record>, ids: map<Record, Value>, db0: Db, drawn0: nat, db1: Db, drawn1: nat)
      requires rs <= ids.Keys
      ensures Drew(rs, ids, db0, drawn0, ids, db1, drawn1)
    {
    }

    /** A span in which at most record x changed its id, by a `||=` draw. */
    lemma DrewOne(rs: set<Record>, x: Record, ids0: map<Record, Value>, db0: Db, drawn0: nat,
                  ids1: map<Record, Value>, db1: Db, drawn1: nat)
      requires rs <= ids0.Keys && rs <= ids1.Keys
      requires forall y :: y in rs && y != x ==> ids1[y] == ids0[y]
      requires x in rs && Truthy(ids0[x]) ==> ids1[x] == ids0[x]
      requires x in rs && !Truthy(ids0[x]) ==>
        x.typ in types && DrawnBetween(ids1[x], types[x.typ].domain, db0, drawn0, db1, drawn1)
      ensures Drew(rs, ids0, db0, drawn0, ids1, db1, drawn1)
    {
    }

    /** Draws seen on a set s carry over to a set rs whose other records kept
        their ids. */
    lemma DrewOn(rs: set<Record>, ids0: map<Record, Value>, ids1: map<Record, Value>,
                 s: set<Record>, m0: map<Record, Value>, m1: map<Record, Value>,
                 db0: Db, drawn0: nat, db1: Db, drawn1: nat)
      requires Drew(s, m0, db0, drawn0, m1, db1, drawn1)
      requires rs <= ids0.Keys && rs <= ids1.Keys
      requires forall x :: x in rs && x in s ==> ids0[x] == m0[x] && ids1[x] == m1[x]
      requires forall x :: x in rs && x !in s ==> ids1[x] == ids0[x]
      ensures Drew(rs, ids0, db0, drawn0, ids1, db1, drawn1)
    {
    }

    /** `records.collect { |r| r.id }` on ids held in a map: each record's
        id memoised in turn. The result is the ids collected, the ids
        afterwards, and the id source afterwards. */
    ghost function CollectIds(rs: seq<Record>, ids: map<Record, Value>, db: Db, drawn: nat)
      : (r: (seq<Value>, map<Record, Value>, Db, nat))
      reads this`types
      requires forall x :: x in rs ==> x in ids && x.typ in types
      ensures |r.0| == |rs| && r.1.Keys == ids.Keys
      decreases |rs|
    {
      if rs == [] then ([], ids, db, drawn)
      else
        var p := CollectIds(rs[..|rs| - 1], ids, db, drawn);
        var x := rs[|rs| - 1];
        var m := Memo(p.1[x], p.2, p.3, types[x.typ].domain);
        (p.0 + [m.0], p.1[x := m.0], m.1, m.2)
    }

    /** `collect` keeps ids that were set and leaves records outside rs
        untouched. */
    lemma {:induction false} CollectIdsKept(rs: seq<Record>, ids: map<Record, Value>, db: Db, drawn: nat)
      requires forall x :: x in rs ==> x in ids && x.typ in types
      ensures var r := CollectIds(rs, ids, db, drawn);
        forall x :: x in ids && (x !in rs || Truthy(ids[x])) ==> r.1[x] == ids[x]
      decreases |rs|
    {
      if rs != [] {
        var n := |rs| - 1;
        assert forall y :: y in rs[..n] ==> y in rs;
        CollectIdsKept(rs[..n], ids, db, drawn);
      }
    }

    /** After `collect` every record of rs holds a truthy id. */
    lemma {:induction false} CollectIdsTruthy(rs: seq<Record>, ids: map<Record, Value>, db: Db, drawn: nat)
      requires forall x :: x in rs ==> x in ids && x.typ in types
      ensures var r := CollectIds(rs, ids, db, drawn);
        forall x :: x in rs ==> Truthy(r.1[x])
      decreases |rs|
    {
      if rs != [] {
        var n := |rs| - 1;
        assert forall y :: y in rs[..n] ==> y in rs;
        assert forall y :: y in rs ==> y in rs[..n] || y == rs[n];
        CollectIdsTruthy(rs[..n], ids, db, drawn);
      }
    }

    /** `collect` returns, in order, the id each record holds afterwards. */
    lemma {:induction false} CollectIdsValues(rs: seq<Record>, ids: map<Record, Value>, db: Db, drawn: nat)
      requires forall x :: x in rs ==> x in ids && x.typ in types
      ensures var r := CollectIds(rs, ids, db, drawn);
        forall j :: 0 <= j < |rs| ==> r.0[j] == r.1[rs[j]]
      decreases |rs|
    {
      if rs != [] {
        var n := |rs| - 1;
        assert forall y :: y in rs[..n] ==> y in rs;
        CollectIdsValues(rs[..n], ids, db, drawn);
        CollectIdsTruthy(rs[..n], ids, db, drawn);
        var p := CollectIds(rs[..n], ids, db, drawn);
        var x := rs[n];
        var m := Memo(p.1[x], p.2, p.3, types[x.typ].domain);
        var r := CollectIds(rs, ids, db, drawn);
        assert r.0 == p.0 + [m.0] && r.1 == p.1[x := m.0];
        forall j | 0 <= j < |rs|
          ensures r.0[j] == r.1[rs[j]]
        {
          if j == n {
            assert r.0[j] == m.0;
          } else {
            assert rs[j] == rs[..n][j] && r.0[j] == p.0[j] == p.1[rs[j]];
            if rs[j] == x {
              assert rs[..n][j] in rs[..n] && Truthy(p.1[x]);
              assert m.0 == p.1[x];
            }
          }
        }
      }
    }

    /** `collect` moves only counters, never back, and never lowers the
        number of UUIDs drawn. */
    lemma {:induction false} CollectIdsSource(rs: seq<Record>, ids: map<Record, Value>, db: Db, drawn: nat)
      requires forall x :: x in rs ==> x in ids && x.typ in types
      ensures var r := CollectIds(rs, ids, db, drawn);
        SameBlobs(r.2, db, {}) && drawn <= r.3
      decreases |rs|
    {
      if rs != [] {
        var n := |rs| - 1;
        assert forall y :: y in rs[..n] ==> y in rs;
        CollectIdsSource(rs[..n], ids, db, drawn);
        var p := CollectIds(rs[..n], ids, db, drawn);
        var x := rs[n];
        var m := Memo(p.1[x], p.2, p.3, types[x.typ].domain);
        SameBlobsTrans(m.1, p.2, db, {}, {});
      }
    }

    /** The records of rs that had no id hold distinct freshly drawn ones
        after `collect`. */
    lemma {:induction false} CollectIdsDrew(rs: seq<Record>, ids: map<Record, Value>, db: Db, drawn: nat)
      requires Valid()
      requires forall x :: x in rs ==> x in ids && x.typ in types
      ensures var r := CollectIds(rs, ids, db, drawn);
        Drew(Refs(Many(rs)), ids, db, drawn, r.1, r.2, r.3)
      decreases |rs|
    {
      if rs != [] {
        var n := |rs| - 1;
        var x := rs[n];
        assert forall y :: y in rs[..n] ==> y in rs;
        CollectIdsDrew(rs[..n], ids, db, drawn);
        CollectIdsKept(rs[..n], ids, db, drawn);
        CollectIdsSource(rs[..n], ids, db, drawn);
        var p := CollectIds(rs[..n], ids, db, drawn);
        var m := Memo(p.1[x], p.2, p.3, types[x.typ].domain);
        RefsLast(rs);
        DrewOn(Refs(Many(rs)), ids, p.1, Refs(Many(rs[..n])), ids, p.1, db, drawn, p.2, p.3);
        DrewOne(Refs(Many(rs)), x, p.1, p.2, p.3, p.1[x := m.0], m.1, m.2);
        DrewTrans(Refs(Many(rs)), ids, db, drawn, p.1, p.2, p.3, p.1[x := m.0], m.1, m.2);
        assert CollectIds(rs, ids, db, drawn) == (p.0 + [m.0], p.1[x := m.0], m.1, m.2);
      }
    }

    /** `Sirop.included(klass)`: registers the class under its own name as
        domain with no properties, unless it is registered already. */
    method Include(cls: string)
      requires Valid()
      modifies this`types
      ensures Valid()
      ensures cls in old(types) ==> types == old(types)
      ensures cls !in old(types) ==> types == old(types)[cls := NewType(cls)]
    {
      if cls !in types {
        types := types[cls := NewType(cls)];
      }
    }

    /** `property name, opts`: records the options in the class's table and
        registers an indexed name as an index field. */
    method DeclareProperty(typ: string, p: Property)
      requires Valid() && typ in types && p.name !in {"id", "_doc_key", "_domain"}
      modifies this`types, this`fields
      ensures Valid()
      ensures types == old(types)[typ := TypeConfig(old(types)[typ].domain, Declare(old(types)[typ].properties, p))]
      ensures Lookup(types[typ].properties, p.name) == Some(p)
      ensures forall n :: n != p.name ==> Lookup(types[typ].properties, n) == Lookup(old(types)[typ].properties, n)
      ensures fields == if p.index then old(fields) + {p.name} else old(fields)
    {
      var c := types[typ];
      DeclareSpec(c.properties, p);
      var ps := Declare(c.properties, p);
      assert NoReservedNames(ps) by {
        forall i | 0 <= i < |ps| ensures ps[i].name !in {"id", "_doc_key", "_domain"} {
          if Lookup(c.properties, p.name).None? {
            assert ps == c.properties + [p];
            if i < |c.properties| { assert ps[i] == c.properties[i]; }
          } else {
            assert ps[i] == if c.properties[i].name == p.name then p else c.properties[i];
          }
        }
      }
      types := types[typ := TypeConfig(c.domain, ps)];
      if p.index && p.name !in fields {
        fields := fields + {p.name};
      }
    }

    /** `domain = new_domain`. */
    method SetDomain(typ: string, domain: string)
      requires Valid() && typ in types
      modifies this`types
      ensures Valid()
      ensures types == old(types)[typ := TypeConfig(domain, old(types)[typ].properties)]
    {
      types := types[typ := types[typ].(domain := domain)];
    }

    /** `fold_association(records)`: nil for nil or false, the id of a single
        record, the ids of an array of records in order. Reading an id that
        is not set yet draws one, so only counters change in the blob store
        and ids already set stay. */
    method FoldAssociation(slot: Slot) returns (v: Value)
      requires Valid()
      requires forall x :: x in Refs(slot) ==> x.typ in types
      requires !(slot.Data? && Truthy(slot.v))
      modifies Refs(slot)`id, this`db, this`uuidsDrawn
      ensures old(uuidsDrawn) <= uuidsDrawn
      ensures v == FoldedSlot(slot) && IdsSet(slot)
      ensures forall x :: x in Refs(slot) && Truthy(old(x.id)) ==> x.id == old(x.id)
      ensures SameBlobs(db, old(db), {})
      ensures Drew(Refs(slot), old(IdsOf(Refs(slot))), old(db), old(uuidsDrawn), IdsOf(Refs(slot)), db, uuidsDrawn)
    {
      match slot
      case Data(_) =>
        v := Nil;
      case One(x) =>
        v := x.Id(this);
        DrewOne(Refs(slot), x, old(IdsOf(Refs(slot))), old(db), old(uuidsDrawn), IdsOf(Refs(slot)), db, uuidsDrawn);
      case Many(rs) =>
        var ids := FoldRecords(rs);
        v := List(ids);
    }

    /** `records.collect { |r| r.id }`: the ids of an array of records in
        order, each memoised on the way. */
    method FoldRecords(rs: seq<Record>) returns (ids: seq<Value>)
      requires Valid()
      requires forall x :: x in rs ==> x.typ in types
      modifies Refs(Many(rs))`id, this`db, this`uuidsDrawn
      ensures (ids, IdsOf(Refs(Many(rs))), db, uuidsDrawn) == CollectIds(rs, old(IdsOf(Refs(Many(rs)))), old(db), old(uuidsDrawn))
      ensures old(uuidsDrawn) <= uuidsDrawn
      ensures ids == Ids(rs) && forall x :: x in rs ==> Truthy(x.id)
      ensures forall x :: x in Refs(Many(rs)) && Truthy(old(x.id)) ==> x.id == old(x.id)
      ensures SameBlobs(db, old(db), {})
      ensures Drew(Refs(Many(rs)), old(IdsOf(Refs(Many(rs)))), old(db), old(uuidsDrawn), IdsOf(Refs(Many(rs))), db, uuidsDrawn)
    {
      ghost var ids0 := IdsOf(Refs(Many(rs)));
      ids := CollectLoop(rs);
      CollectIdsKept(rs, ids0, old(db), old(uuidsDrawn));
      CollectIdsTruthy(rs, ids0, old(db), old(uuidsDrawn));
      CollectIdsValues(rs, ids0, old(db), old(uuidsDrawn));
      CollectIdsSource(rs, ids0, old(db), old(uuidsDrawn));
      CollectIdsDrew(rs, ids0, old(db), old(uuidsDrawn));
    }

    /** The loop of that `collect`, one `x.id` after the other. */
    method CollectLoop(rs: seq<Record>) returns (ids: seq<Value>)
      requires Valid()
      requires forall x :: x in rs ==> x.typ in types
      modifies Refs(Many(rs))`id, this`db, this`uuidsDrawn
      ensures (ids, IdsOf(Refs(Many(rs))), db, uuidsDrawn) == CollectIds(rs, old(IdsOf(Refs(Many(rs)))), old(db), old(uuidsDrawn))
    {
      ghost var all := Refs(Many(rs));
      ghost var ids0 := IdsOf(all);
      ids := [];
      var i := 0;
      while i < |rs|
        invariant 0 <= i <= |rs|
        invariant (ids, IdsOf(all), db, uuidsDrawn) == CollectIds(rs[..i], ids0, old(db), old(uuidsDrawn))
      {
        assert rs[..i + 1][..i] == rs[..i];
        var d := IdOf(rs[i], all);
        ids := ids + [d];
        i := i + 1;
      }
      assert rs[..i] == rs;
    }

    /** One step of that `collect`: `x.id`, seen on the ids of all. */
    method IdOf(x: Record, ghost all: set<Record>) returns (v: Value)
      requires Valid() && x.typ in types && x in all
      modifies x`id, this`db, this`uuidsDrawn
      ensures (v, db, uuidsDrawn) == Memo(old(x.id), old(db), old(uuidsDrawn), types[x.typ].domain)
      ensures IdsOf(all) == old(IdsOf(all))[x := v]
    {
      v := x.Id(this);
    }

    /** The value `save` writes for property p from instance variable slot:
        folded when p is an association, plain otherwise; a lazy property's
        value goes to its own blob under key + "/" + name. */
    method SaveValue(p: Property, slot: Slot, key: string, ghost rs: set<Record>) returns (v: Value)
      requires Valid() && SlotTyped(p, slot) && !SeqLike(key)
      requires forall x :: x in Refs(slot) ==> x.typ in types
      modifies Refs(slot)`id, this`db, this`uuidsDrawn, this`blobSets
      ensures old(uuidsDrawn) <= uuidsDrawn
      ensures v == SavedValue(p, slot) && (p.model.Some? ==> IdsSet(slot))
      ensures forall x :: x in Refs(slot) && Truthy(old(x.id)) ==> x.id == old(x.id)
      ensures p.lazy ==>
        && SameBlobs(db, old(db), {key + "/" + p.name})
        && key + "/" + p.name in db && db[key + "/" + p.name] == Dumped(v)
        && blobSets == old(blobSets) + 1
      ensures !p.lazy ==> SameBlobs(db, old(db), {}) && blobSets == old(blobSets)
      ensures Drew(rs, old(IdsOf(rs)), old(db), old(uuidsDrawn), IdsOf(rs), db, uuidsDrawn)
    {
      v := SavedFold(p, slot, rs);
      if p.lazy {
        LazyKeysApart(key, p.name, p.name);
        CounterUnmoved(db, key + "/" + p.name, Dumped(v));
        ghost var ids1, db1 := IdsOf(rs), db;
        DbSet(key + "/" + p.name, v);
        DrewNone(rs, ids1, db1, uuidsDrawn, db, uuidsDrawn);
        DrewTrans(rs, old(IdsOf(rs)), old(db), old(uuidsDrawn), ids1, db1, uuidsDrawn, ids1, db, uuidsDrawn);
      }
    }

    /** The value `save` writes for property p before any blob is written:
        the ids of the records when p is an association, the instance
        variable as it is otherwise. */
    method SavedFold(p: Property, slot: Slot, ghost rs: set<Record>) returns (v: Value)
      requires Valid() && SlotTyped(p, slot)
      requires forall x :: x in Refs(slot) ==> x.typ in types
      modifies Refs(slot)`id, this`db, this`uuidsDrawn
      ensures old(uuidsDrawn) <= uuidsDrawn
      ensures v == SavedValue(p, slot) && (p.model.Some? ==> IdsSet(slot))
      ensures forall x :: x in Refs(slot) && Truthy(old(x.id)) ==> x.id == old(x.id)
      ensures SameBlobs(db, old(db), {})
      ensures Drew(rs, old(IdsOf(rs)), old(db), old(uuidsDrawn), IdsOf(rs), db, uuidsDrawn)
    {
      ghost var m0, r0 := IdsOf(Refs(slot)), IdsOf(rs);
      if p.model.Some? {
        v := FoldAssociation(slot);
      } else {
        v := if slot.Data? then slot.v else Nil;
        DrewNone(Refs(slot), m0, db, uuidsDrawn, db, uuidsDrawn);
      }
      DrewOn(rs, r0, IdsOf(rs), Refs(slot), m0, IdsOf(Refs(slot)), old(db), old(uuidsDrawn), db, uuidsDrawn);
    }

    /** `next_sequence(domain)`: a fresh UUID, or in counter mode the
        read-increment-write of the domain's counter. */
    method NextSequence(domain: string) returns (v: Value)
      modifies this`db, this`uuidsDrawn
      ensures (v, db, uuidsDrawn) == Draw(old(db), old(uuidsDrawn), domain)
      ensures Truthy(v)
      ensures !uuid ==> v == Int(Counter(old(db), domain) + 1) && Counter(db, domain) == v.i
      ensures uuid ==> v == Str(uuidGen(old(uuidsDrawn))) && uuidsDrawn == old(uuidsDrawn) + 1 && db == old(db)
    {
      if uuid {
        v := Str(uuidGen(uuidsDrawn));
        uuidsDrawn := uuidsDrawn + 1;
      } else {
        var key := SeqKey(domain);
        var n := if key in db && db[key].Raw? then db[key].n else 0;
        var id := n + 1;
        db := db[key := Raw(id)];
        v := Int(id);
      }
    }

    /** `db_set(key, value)`. */
    method DbSet(key: string, v: Value)
      modifies this`db, this`blobSets
      ensures db == old(db)[key := Dumped(v)] && blobSets == old(blobSets) + 1
    {
      db := db[key := Dumped(v)];
      blobSets := blobSets + 1;
    }

    /** `remove(doc_key)`: deletes the key from the index, then from the blob
        store. */
    method Remove(key: string)
      modifies this`index, this`db
      ensures index == old(index) - {key} && db == old(db) - {key}
    {
      index := index - {key};
      db := db - {key};
    }

    /** `delete(id)`: `remove` of the doc key the id has in the type's domain. */
    method Delete(typ: string, id: Value)
      requires typ in types
      modifies this`index, this`db
      ensures index == old(index) - {KeyFor(types[typ].domain, id)}
      ensures db == old(db) - {KeyFor(types[typ].domain, id)}
    {
      Remove(KeyFor(types[typ].domain, id));
    }

    /** `get(doc_key)` for the record type typ. */
    method Get(typ: string, key: string, fuel: nat) returns (r: Result<Option<Record>>)
      requires Valid() && typ in types
      ensures Absent(db, key) <==> r == Ok(None)
      ensures r.Ok? <==> Absent(db, key) || DocLoadable(db, types, typ, key, fuel)
      ensures key in db && db[key].Raw? ==> r == Err(CorruptEntry(key))
      ensures key in db && db[key].Dumped? && Truthy(db[key].v) && !db[key].v.Hash? ==> r == Err(NotAHash(key))
      ensures key in db && db[key].Dumped? && db[key].v.Hash? && !AllKnown(db[key].v.entries, types[typ].properties) ==> r.Err?
      ensures r.Ok? && r.value.Some? ==>
        && fresh(r.value.value) && Loaded(db, types, r.value.value, typ, key)
        && forall n, x :: n in r.value.value.slots && x in Refs(r.value.value.slots[n]) ==> fresh(x)
      decreases fuel, 1, 2
    {
      if key !in db {
        return Ok(None);
      }
      match db[key]
      case Raw(_) =>
        return Err(CorruptEntry(key));
      case Dumped(data) =>
        if !Truthy(data) {
          return Ok(None);
        }
        if !data.Hash? {
          return Err(NotAHash(key));
        }
        var o := LoadDoc(typ, key, data.entries, fuel);
        if o.Err? {
          return Err(o.error);
        }
        return Ok(Some(o.value));
    }

    /** `get` as `find` uses it: nil exactly when nothing is stored, otherwise
        a fresh record loaded from the key. */
    method Fetch(typ: string, key: string, fuel: nat) returns (r: Result<Option<Record>>)
      requires Valid() && typ in types
      ensures Absent(db, key) <==> r == Ok(None)
      ensures r.Ok? <==> Absent(db, key) || DocLoadable(db, types, typ, key, fuel)
      ensures r.Ok? && r.value.Some? ==> fresh(r.value.value) && LoadedShallow(db, types, r.value.value, typ, key)
      decreases fuel, 1, 3
    {
      r := Get(typ, key, fuel);
    }

    /** `get`'s loop over a stored hash: each entry becomes an instance
        variable, `id` the id; the previous index document is rebuilt on the
        way. */
    method LoadDoc(typ: string, key: string, entries: Entries, fuel: nat) returns (r: Result<Record>)
      requires Valid() && typ in types && key in db && db[key] == Dumped(Hash(entries))
      ensures !AllKnown(entries, types[typ].properties) ==> r.Err?
      ensures r.Ok? <==> forall i :: 0 <= i < |entries| ==> EntryLoadable(db, types, typ, entries[i], fuel)
      ensures r.Ok? ==>
        && fresh(r.value) && Loaded(db, types, r.value, typ, key)
        && forall n, x :: n in r.value.slots && x in Refs(r.value.slots[n]) ==> fresh(x)
      decreases fuel, 1, 1
    {
      var prev: IndexDoc := map["_doc_key" := Str(key), "_domain" := Str(types[typ].domain)];
      var theId := Nil;
      var slots: map<string, Slot> := map[];
      var i := 0;
      while i < |entries|
        invariant 0 <= i <= |entries|
        invariant Walked(db, types, typ, key, entries[..i], theId, prev, slots)
        invariant forall k :: 0 <= k < i ==> EntryLoadable(db, types, typ, entries[k], fuel)
        invariant forall n, x :: n in slots && x in Refs(slots[n]) ==> fresh(x)
      {
        assert entries[..i + 1] == entries[..i] + [entries[i]];
        var w := LoadEntry(typ, key, entries[..i], entries[i], theId, prev, slots, fuel);
        if w.Err? {
          return Err(w.error);
        }
        theId, prev, slots := w.value.0, w.value.1, w.value.2;
        i := i + 1;
      }
      assert entries[..i] == entries;
      var obj := new Record.Materialised(typ, theId, slots, prev);
      assert StateLoaded(db, types, obj.typ, obj.id, obj.docKey, obj.slots, obj.prevIdx, typ, key);
      return Ok(obj);
    }

    /** The state of `get`'s loop after the entries `seen`: the id is the
        stored id so far, the previous index document is rebuilt from them,
        every name is a declared property and every instance variable is
        loaded from its entry. */
    ghost predicate Walked(db: Db, types: map<string, TypeConfig>, typ: string, key: string, seen: Entries,
      theId: Value, prev: IndexDoc, slots: map<string, Slot>)
      reads AllRefs(slots)
    {
      && typ in types
      && theId == ValueAt(seen, "id")
      && prev == PrevIdx(key, types[typ].domain, seen, types[typ].properties)
      && AllKnown(seen, types[typ].properties)
      && slots.Keys == Keys(seen) - {"id"}
      && forall n :: n in slots ==> FieldOk(db, types, slots[n], ValueAt(seen, n), Lookup(types[typ].properties, n))
    }

    /** One pass of `get`'s loop: the entry `id` sets the id; any other entry
        must name a property, is recorded in the previous index document when
        indexed, and is unfolded when an association. */
    method LoadEntry(typ: string, key: string, seen: Entries, e: (string, Value),
      theId: Value, prev: IndexDoc, slots: map<string, Slot>, fuel: nat)
      returns (r: Result<(Value, IndexDoc, map<string, Slot>)>)
      requires Valid() && typ in types
      requires Walked(db, types, typ, key, seen, theId, prev, slots)
      ensures e.0 != "id" && Lookup(types[typ].properties, e.0).None? ==> r.Err?
      ensures r.Ok? <==> EntryLoadable(db, types, typ, e, fuel)
      ensures r.Ok? ==> Walked(db, types, typ, key, seen + [e], r.value.0, r.value.1, r.value.2)
      ensures r.Ok? ==> forall n, x :: n in r.value.2 && x in Refs(r.value.2[n]) ==>
        fresh(x) || (n in slots && x in Refs(slots[n]))
      decreases fuel, 1, 0
    {
      var (name, value) := e;
      var props := types[typ].properties;
      KeysAppend(seen, e);
      PrevIdxAppend(key, types[typ].domain, seen, props, name, value);
      if name == "id" {
        return Ok((value, prev["id" := value], slots));
      }
      var f := LoadField(typ, name, value, fuel);
      if f.Err? {
        return Err(f.error);
      }
      var prev' := if Lookup(props, name).value.index then prev[name := value] else prev;
      var slots' := slots[name := f.value];
      assert AllKnown(seen + [e], props) by {
        assert forall i :: 0 <= i < |seen| ==> (seen + [e])[i] == seen[i];
      }
      FieldStep(db, types, props, seen, slots, name, value, f.value);
      return Ok((theId, prev', slots'));
    }

    /** Adding a loaded field to the instance variables keeps every one of
        them loaded from the entries walked so far. */
    static lemma FieldStep(db: Db, types: map<string, TypeConfig>, props: seq<Property>, seen: Entries,
      slots: map<string, Slot>, name: string, value: Value, slot: Slot)
      requires name != "id" && slots.Keys == Keys(seen) - {"id"}
      requires forall n :: n in slots ==> FieldOk(db, types, slots[n], ValueAt(seen, n), Lookup(props, n))
      requires FieldOk(db, types, slot, value, Lookup(props, name))
      ensures slots[name := slot].Keys == Keys(seen + [(name, value)]) - {"id"}
      ensures forall n :: n in slots[name := slot] ==>
        FieldOk(db, types, slots[name := slot][n], ValueAt(seen + [(name, value)], n), Lookup(props, n))
    {
      KeysAppend(seen, (name, value));
    }

    /** One field of `get`'s loop: the property must exist; an association's
        stored ids are unfolded. */
    method LoadField(typ: string, name: string, value: Value, fuel: nat) returns (r: Result<Slot>)
      requires Valid() && typ in types
      ensures Lookup(types[typ].properties, name).None? ==> r == Err(UnknownProperty(name))
      ensures Lookup(types[typ].properties, name).Some? && Lookup(types[typ].properties, name).value.model.None? ==>
        r == Ok(Data(value))
      ensures r.Ok? <==> FieldLoadable(db, types, Lookup(types[typ].properties, name), value, fuel)
      ensures r.Ok? ==> FieldOk(db, types, r.value, value, Lookup(types[typ].properties, name))
      ensures r.Ok? ==> forall x :: x in Refs(r.value) ==> fresh(x)
      decreases fuel, 0, 1
    {
      var p := Lookup(types[typ].properties, name);
      if p.None? {
        return Err(UnknownProperty(name));
      }
      if p.value.model.None? {
        return Ok(Data(value));
      }
      r := Unfold(typ, name, value, fuel);
    }

    /** `find(id)` on the record type typ: an array of ids yields all their
        records or fails; a single id yields its record or fails. */
    method Find(typ: string, ids: Value, fuel: nat) returns (r: Result<Slot>)
      requires Valid() && typ in types
      ensures ids.List? && r.Ok? ==>
        && r.value.Many? && |r.value.rs| == |ids.items|
        && forall i :: 0 <= i < |ids.items| ==> LoadedShallow(db, types, r.value.rs[i], typ, KeyFor(types[typ].domain, ids.items[i]))
      ensures ids.List? ==> (r.Ok? <==>
        forall i :: 0 <= i < |ids.items| ==> DocLoadable(db, types, typ, KeyFor(types[typ].domain, ids.items[i]), fuel))
      ensures !ids.List? ==> (r.Ok? <==> DocLoadable(db, types, typ, KeyFor(types[typ].domain, ids), fuel))
      ensures ids == List([]) ==> r == Ok(Many([]))
      ensures ids.List? && Missing(db, types[typ].domain, ids.items) > 0 ==> r.Err?
      ensures ids.List? && |ids.items| > 0 && Missing(db, types[typ].domain, ids.items) == |ids.items| ==>
        r == Err(RecordsNotFound(|ids.items|, 0))
      ensures ids.List? && (&& Missing(db, types[typ].domain, ids.items) > 0
               && forall i :: 0 <= i < |ids.items| ==>
                    Absent(db, KeyFor(types[typ].domain, ids.items[i])) || DocLoadable(db, types, typ, KeyFor(types[typ].domain, ids.items[i]), fuel))
        ==> r == Err(RecordsNotFound(|ids.items|, |ids.items| - Missing(db, types[typ].domain, ids.items)))
      ensures !ids.List? && r.Ok? ==> r.value.One? && LoadedShallow(db, types, r.value.r, typ, KeyFor(types[typ].domain, ids))
      ensures !ids.List? && Absent(db, KeyFor(types[typ].domain, ids)) ==> r == Err(RecordNotFound(ids))
      ensures r.Ok? ==> forall x :: x in Refs(r.value) ==> fresh(x)
      decreases fuel, 2, 2
    {
      if ids.List? {
        var m := FindAll(typ, ids.items, fuel);
        if m.Err? {
          return Err(m.error);
        }
        return Ok(Many(m.value));
      }
      var g := Fetch(typ, KeyFor(types[typ].domain, ids), fuel);
      if g.Err? {
        return Err(g.error);
      }
      if g.value.None? {
        return Err(RecordNotFound(ids));
      }
      return Ok(One(g.value.value));
    }

    /** `find` on an array of ids: `get` of each id's doc key, in order; when
        fewer records come back than ids were given, RecordNotFound. */
    method FindAll(typ: string, items: seq<Value>, fuel: nat) returns (r: Result<seq<Record>>)
      requires Valid() && typ in types
      ensures r.Ok? ==>
        && |r.value| == |items|
        && forall i :: 0 <= i < |items| ==> LoadedShallow(db, types, r.value[i], typ, KeyFor(types[typ].domain, items[i]))
      ensures r.Ok? <==> forall i :: 0 <= i < |items| ==> DocLoadable(db, types, typ, KeyFor(types[typ].domain, items[i]), fuel)
      ensures Missing(db, types[typ].domain, items) > 0 ==> r.Err?
      ensures |items| > 0 && Missing(db, types[typ].domain, items) == |items| ==> r == Err(RecordsNotFound(|items|, 0))
      ensures (&& Missing(db, types[typ].domain, items) > 0
               && forall i :: 0 <= i < |items| ==>
                    Absent(db, KeyFor(types[typ].domain, items[i])) || DocLoadable(db, types, typ, KeyFor(types[typ].domain, items[i]), fuel))
        ==> r == Err(RecordsNotFound(|items|, |items| - Missing(db, types[typ].domain, items)))
      ensures r.Ok? ==> forall x :: x in r.value ==> fresh(x)
      decreases fuel, 2, 1
    {
      var domain := types[typ].domain;
      if Missing(db, domain, items) == |items| {
        AllMissing(db, domain, items);
      }
      var recs: seq<Record> := [];
      var i := 0;
      while i < |items|
        invariant 0 <= i <= |items|
        invariant |recs| + Missing(db, domain, items[..i]) == i
        invariant forall x :: x in recs ==> fresh(x)
        invariant Missing(db, domain, items[..i]) == 0 ==> AllLoaded(db, types, recs, typ, domain, items)
        invariant forall k :: 0 <= k < i ==>
          Absent(db, KeyFor(domain, items[k])) || DocLoadable(db, types, typ, KeyFor(domain, items[k]), fuel)
      {
        var n := FindNext(typ, items, i, recs, fuel);
        if n.Err? {
          return Err(n.error);
        }
        recs := n.value;
        i := i + 1;
      }
      assert items[..i] == items;
      NoneMissing(db, domain, items);
      if |recs| < |items| {
        return Err(RecordsNotFound(|items|, |recs|));
      }
      return Ok(recs);
    }

    /** One pass of `find`'s loop over ids: `get` of the doc key of id i,
        kept when a record comes back. */
    method FindNext(typ: string, items: seq<Value>, i: nat, recs: seq<Record>, fuel: nat)
      returns (r: Result<seq<Record>>)
      requires Valid() && typ in types && i < |items|
      requires |recs| + Missing(db, types[typ].domain, items[..i]) == i
      requires Missing(db, types[typ].domain, items[..i]) == 0 ==> AllLoaded(db, types, recs, typ, types[typ].domain, items)
      ensures r.Ok? ==> |r.value| + Missing(db, types[typ].domain, items[..i + 1]) == i + 1
      ensures r.Ok? && Missing(db, types[typ].domain, items[..i + 1]) == 0 ==>
        AllLoaded(db, types, r.value, typ, types[typ].domain, items)
      ensures Absent(db, KeyFor(types[typ].domain, items[i])) ==> r == Ok(recs)
      ensures r.Ok? <==>
        Absent(db, KeyFor(types[typ].domain, items[i])) || DocLoadable(db, types, typ, KeyFor(types[typ].domain, items[i]), fuel)
      ensures r.Ok? ==> forall x :: x in r.value ==> x in recs || fresh(x)
      decreases fuel, 2, 0
    {
      var domain := types[typ].domain;
      var k := KeyFor(domain, items[i]);
      assert items[..i + 1][..i] == items[..i];
      assert Missing(db, domain, items[..i + 1]) == Missing(db, domain, items[..i]) + if Absent(db, k) then 1 else 0;
      var g := Fetch(typ, k, fuel);
      if g.Err? {
        return Err(g.error);
      }
      if g.value.Some? {
        return Ok(recs + [g.value.value]);
      }
      return Ok(recs);
    }

    /** `unfold_association(name, ids)` of the record type typ. */
    method Unfold(typ: string, name: string, ids: Value, fuel: nat) returns (r: Result<Slot>)
      requires Valid() && typ in types
      ensures r.Ok? ==> Shaped(r.value, ids)
      ensures Lookup(types[typ].properties, name).None? ==> r == Err(UnknownProperty(name))
      ensures Lookup(types[typ].properties, name).Some? && Lookup(types[typ].properties, name).value.model.None? ==>
        r == Err(MissingModel(name))
      ensures Lookup(types[typ].properties, name).Some? && Lookup(types[typ].properties, name).value.model.Some? ==>
        var m := Lookup(types[typ].properties, name).value.model.value;
        && (!Truthy(ids) ==> r == Ok(Data(Nil)))
        && (Truthy(ids) && m !in types ==> r == Err(NotAModel(m)))
        && (r.Ok? <==> IdsLoadable(db, types, m, ids, fuel))
        && (r.Ok? ==> Unfolded(db, types, r.value, ids, m))
      ensures r.Ok? ==> forall x :: x in Refs(r.value) ==> fresh(x)
      decreases fuel, 0, 0
    {
      var p := Lookup(types[typ].properties, name);
      if p.None? {
        return Err(UnknownProperty(name));
      }
      if p.value.model.None? {
        return Err(MissingModel(name));
      }
      var m := p.value.model.value;
      if !Truthy(ids) {
        return Ok(Data(Nil));
      }
      if m !in types {
        return Err(NotAModel(m));
      }
      if fuel == 0 {
        return Err(StackExhausted);
      }
      r := Find(m, ids, fuel - 1);
    }
  }
}
