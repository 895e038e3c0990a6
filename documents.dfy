/** The three documents of the save/load protocol, as functions of the
    values involved: the main blob document (`db_doc`) and the index document
    (`idx_doc`) that `save` builds from the record's folded property values,
    and the previous index document (`prev_idx_doc`) that `get` rebuilds from
    a stored main document. */
module Documents {
  import opened Values
  import opened Registry

  type Entries = seq<(string, Value)>

  /** The names that occur as keys of a hash. */
  function Keys(h: Entries): set<string>
    decreases |h|
  {
    if h == [] then {} else Keys(h[..|h| - 1]) + {h[|h| - 1].0}
  }

  /** `h[k]`: the value stored under k. Ruby hashes hold each key once; for
      the entry sequences `get` walks, where a key could repeat, this is the
      value the last entry leaves behind. */
  function HashGet(h: Entries, k: string): (r: Option<Value>)
    ensures r.None? <==> k !in Keys(h)
    decreases |h|
  {
    if h == [] then None
    else if h[|h| - 1].0 == k then Some(h[|h| - 1].1)
    else HashGet(h[..|h| - 1], k)
  }

  lemma KeysAppend(h: Entries, e: (string, Value))
    ensures Keys(h + [e]) == Keys(h) + {e.0}
    ensures forall n :: HashGet(h + [e], n) == if n == e.0 then Some(e.1) else HashGet(h, n)
  {
    assert (h + [e])[..|h|] == h;
  }

  /** Every entry under k gets the value v. */
  function Replace(h: Entries, k: string, v: Value): (r: Entries)
    ensures Keys(r) == Keys(h)
    ensures k in Keys(h) ==> HashGet(r, k) == Some(v)
    ensures forall n :: n != k ==> HashGet(r, n) == HashGet(h, n)
    decreases |h|
  {
    if h == [] then []
    else
      var n := |h| - 1;
      var e := if h[n].0 == k then (k, v) else h[n];
      KeysAppend(Replace(h[..n], k, v), e);
      Replace(h[..n], k, v) + [e]
  }

  /** `h[k] = v` (Hash#[]=): a key already present keeps its place and gets the
      new value; a new key goes to the end. */
  function Put(h: Entries, k: string, v: Value): (r: Entries)
    ensures k !in Keys(h) ==> r == h + [(k, v)]
    ensures Keys(r) == Keys(h) + {k}
    ensures HashGet(r, k) == Some(v)
    ensures forall n :: n != k ==> HashGet(r, n) == HashGet(h, n)
  {
    KeysAppend(h, (k, v));
    if k in Keys(h) then Replace(h, k, v) else h + [(k, v)]
  }

  /** No property is named after one of the fields the layer adds itself. */
  ghost predicate NoReservedNames(props: seq<Property>) {
    forall i :: 0 <= i < |props| ==> props[i].name !in {"id", "_doc_key", "_domain"}
  }

  /** The main document `save` writes under the doc key: `{ :id => id }`, then
      every non-lazy property's value, in table order. */
  function MainDoc(id: Value, props: seq<Property>, vals: seq<Value>): Entries
    requires |vals| == |props|
    decreases |props|
  {
    if props == [] then [("id", id)]
    else
      var n := |props| - 1;
      var doc := MainDoc(id, props[..n], vals[..n]);
      if props[n].lazy then doc else Put(doc, props[n].name, vals[n])
  }

  /** The index document `save` builds: id, doc key and domain, then every
      indexed property's value (lazy or not), in table order. */
  function IdxDoc(id: Value, key: string, domain: string, props: seq<Property>, vals: seq<Value>): IndexDoc
    requires |vals| == |props|
    decreases |props|
  {
    if props == [] then map["id" := id, "_doc_key" := Str(key), "_domain" := Str(domain)]
    else
      var n := |props| - 1;
      var doc := IdxDoc(id, key, domain, props[..n], vals[..n]);
      if props[n].index then doc[props[n].name := vals[n]] else doc
  }

  /** The number of lazy properties: each costs `save` one extra `db_set`. */
  function LazyCount(props: seq<Property>): nat
    decreases |props|
  {
    if props == [] then 0
    else LazyCount(props[..|props| - 1]) + if props[|props| - 1].lazy then 1 else 0
  }

  /** A prefix of the table has no more lazy properties than the table. */
  lemma {:induction false} LazyCountPrefix(props: seq<Property>, j: nat)
    requires j <= |props|
    ensures LazyCount(props[..j]) <= LazyCount(props)
    decreases |props|
  {
    if j < |props| {
      var n := |props| - 1;
      assert props[..n][..j] == props[..j];
      LazyCountPrefix(props[..n], j);
    } else {
      assert props[..j] == props;
    }
  }

  /** The previous index document `get` rebuilds while it walks a stored main
      document: doc key and domain, the stored id, and the stored value of
      every field whose property is indexed. */
  function PrevIdx(key: string, domain: string, entries: Entries, props: seq<Property>): IndexDoc
    decreases |entries|
  {
    if entries == [] then map["_doc_key" := Str(key), "_domain" := Str(domain)]
    else
      var n := |entries| - 1;
      var doc := PrevIdx(key, domain, entries[..n], props);
      var (name, v) := entries[n];
      if name == "id" then doc["id" := v]
      else match Lookup(props, name)
        case Some(p) => if p.index then doc[name := v] else doc
        case None => doc
  }

  /** The value an instance variable holds after `get` has walked the
      entries: the stored value, nil when the name was never stored. */
  function ValueAt(h: Entries, k: string): (v: Value)
    ensures k !in Keys(h) ==> v == Nil
  {
    match HashGet(h, k)
    case Some(v) => v
    case None => Nil
  }

  /** Every stored field other than `id` names a declared property. */
  ghost predicate AllKnown(entries: Entries, props: seq<Property>) {
    forall i :: 0 <= i < |entries| && entries[i].0 != "id" ==> Lookup(props, entries[i].0).Some?
  }

  /** A name that only lazy properties carry (or none at all), other than
      `id`, is not a key of the main document. */
  lemma {:induction false} MainDocLacks(id: Value, props: seq<Property>, vals: seq<Value>, x: string)
    requires |vals| == |props| && x != "id"
    requires forall i :: 0 <= i < |props| && props[i].name == x ==> props[i].lazy
    ensures x !in Keys(MainDoc(id, props, vals))
    decreases |props|
  {
    if props != [] {
      var n := |props| - 1;
      assert forall i :: 0 <= i < n ==> props[..n][i] == props[i];
      MainDocLacks(id, props[..n], vals[..n], x);
    }
  }

  /** A name that only non-indexed properties carry (or none at all), other
      than the three added fields, is not a key of the index document. */
  lemma {:induction false} IndexDocLacks(id: Value, key: string, domain: string, props: seq<Property>, vals: seq<Value>, x: string)
    requires |vals| == |props| && x !in {"id", "_doc_key", "_domain"}
    requires forall i :: 0 <= i < |props| && props[i].name == x ==> !props[i].index
    ensures x !in IdxDoc(id, key, domain, props, vals)
    decreases |props|
  {
    if props != [] {
      var n := |props| - 1;
      assert forall i :: 0 <= i < n ==> props[..n][i] == props[i];
      IndexDocLacks(id, key, domain, props[..n], vals[..n], x);
    }
  }

  /** In a table with unique names, the name of entry n is not among the
      names before it. */
  lemma EarlierNamesDiffer(props: seq<Property>, n: nat)
    requires UniqueNames(props) && n < |props|
    ensures forall i :: 0 <= i < n ==> props[..n][i].name != props[n].name
    ensures UniqueNames(props[..n])
  {
    assert forall i :: 0 <= i < n ==> props[..n][i] == props[i];
  }

  /** After save, the main document holds the id under `id`, each non-lazy
      property's value under its name, and nothing under a lazy property's
      name. */
  lemma {:induction false} MainDocContents(id: Value, props: seq<Property>, vals: seq<Value>)
    requires |vals| == |props| && UniqueNames(props) && NoReservedNames(props)
    ensures HashGet(MainDoc(id, props, vals), "id") == Some(id)
    ensures forall i :: 0 <= i < |props| && !props[i].lazy ==>
      HashGet(MainDoc(id, props, vals), props[i].name) == Some(vals[i])
    ensures forall i :: 0 <= i < |props| && props[i].lazy ==>
      HashGet(MainDoc(id, props, vals), props[i].name) == None
  {
    MainDocId(id, props, vals);
    forall i | 0 <= i < |props|
      ensures HashGet(MainDoc(id, props, vals), props[i].name) == if props[i].lazy then None else Some(vals[i])
    {
      MainDocAt(id, props, vals, i);
    }
  }

  /** Entry e of a main document is the id or a non-lazy property's name
      with its value. */
  ghost predicate MainEntry(id: Value, props: seq<Property>, vals: seq<Value>, e: (string, Value))
    requires |vals| == |props|
  {
    e == ("id", id) || exists i :: 0 <= i < |props| && !props[i].lazy && e == (props[i].name, vals[i])
  }

  /** Every entry of the main document is a MainEntry. */
  lemma {:induction false} MainDocEntries(id: Value, props: seq<Property>, vals: seq<Value>)
    requires |vals| == |props| && UniqueNames(props) && NoReservedNames(props)
    ensures forall j :: 0 <= j < |MainDoc(id, props, vals)| ==> MainEntry(id, props, vals, MainDoc(id, props, vals)[j])
    decreases |props|
  {
    if props != [] {
      var n := |props| - 1;
      var doc := MainDoc(id, props[..n], vals[..n]);
      EarlierNamesDiffer(props, n);
      assert NoReservedNames(props[..n]) by {
        assert forall i :: 0 <= i < n ==> props[..n][i] == props[i];
      }
      MainDocEntries(id, props[..n], vals[..n]);
      forall j | 0 <= j < |doc| && doc[j] != ("id", id)
        ensures exists i :: 0 <= i < |props| && !props[i].lazy && doc[j] == (props[i].name, vals[i])
      {
        assert MainEntry(id, props[..n], vals[..n], doc[j]);
        var i :| 0 <= i < n && !props[..n][i].lazy && doc[j] == (props[..n][i].name, vals[..n][i]);
        assert props[..n][i] == props[i] && vals[..n][i] == vals[i];
      }
      if !props[n].lazy {
        MainDocLacks(id, props[..n], vals[..n], props[n].name);
        assert MainDoc(id, props, vals) == doc + [(props[n].name, vals[n])];
      }
    }
  }

  /** The id stays under `id`: no property may take that name. */
  lemma {:induction false} MainDocId(id: Value, props: seq<Property>, vals: seq<Value>)
    requires |vals| == |props| && NoReservedNames(props)
    ensures HashGet(MainDoc(id, props, vals), "id") == Some(id)
    decreases |props|
  {
    if props != [] {
      var n := |props| - 1;
      assert NoReservedNames(props[..n]) by {
        assert forall i :: 0 <= i < n ==> props[..n][i] == props[i];
      }
      MainDocId(id, props[..n], vals[..n]);
      assert props[n].name != "id";
    }
  }

  /** What the main document holds under the name of the property at i. */
  lemma {:induction false} MainDocAt(id: Value, props: seq<Property>, vals: seq<Value>, i: nat)
    requires |vals| == |props| && UniqueNames(props) && i < |props|
    requires props[i].name != "id"
    ensures HashGet(MainDoc(id, props, vals), props[i].name) == if props[i].lazy then None else Some(vals[i])
    decreases |props|
  {
    var n := |props| - 1;
    var doc := MainDoc(id, props[..n], vals[..n]);
    var x := props[n].name;
    if i == n {
      if props[n].lazy {
        MainDocLacks(id, props[..n], vals[..n], x);
        assert MainDoc(id, props, vals) == doc;
      }
    } else {
      EarlierNamesDiffer(props, n);
      assert props[..n][i] == props[i] && vals[..n][i] == vals[i];
      MainDocAt(id, props[..n], vals[..n], i);
      assert props[i].name != x;
    }
  }

  /** The index document holds id, doc key and domain under their fields,
      each indexed property's value under its name, and nothing under a
      non-indexed property's name. */
  lemma {:induction false} IndexDocContents(id: Value, key: string, domain: string, props: seq<Property>, vals: seq<Value>)
    requires |vals| == |props| && UniqueNames(props) && NoReservedNames(props)
    ensures var d := IdxDoc(id, key, domain, props, vals);
      && "id" in d && d["id"] == id
      && "_doc_key" in d && d["_doc_key"] == Str(key)
      && "_domain" in d && d["_domain"] == Str(domain)
    ensures forall i :: 0 <= i < |props| && props[i].index ==>
      var d := IdxDoc(id, key, domain, props, vals); props[i].name in d && d[props[i].name] == vals[i]
    ensures forall i :: 0 <= i < |props| && !props[i].index ==>
      props[i].name !in IdxDoc(id, key, domain, props, vals)
    decreases |props|
  {
    if props != [] {
      var n := |props| - 1;
      EarlierNamesDiffer(props, n);
      IndexDocContents(id, key, domain, props[..n], vals[..n]);
      assert forall i :: 0 <= i < n ==> props[..n][i] == props[i] && vals[..n][i] == vals[i];
      if !props[n].index {
        IndexDocLacks(id, key, domain, props[..n], vals[..n], props[n].name);
      }
    }
  }

  /** Re-indexing is skipped exactly when it should be: two index documents for
      the same record are equal if and only if every indexed property has the
      same value in both. */
  lemma IndexDocUnchangedIff(id: Value, key: string, domain: string, props: seq<Property>, v1: seq<Value>, v2: seq<Value>)
    requires |v1| == |props| && |v2| == |props| && UniqueNames(props) && NoReservedNames(props)
    ensures IdxDoc(id, key, domain, props, v1) == IdxDoc(id, key, domain, props, v2)
      <==> forall i :: 0 <= i < |props| && props[i].index ==> v1[i] == v2[i]
  {
    IndexDocContents(id, key, domain, props, v1);
    IndexDocContents(id, key, domain, props, v2);
    if forall i :: 0 <= i < |props| && props[i].index ==> v1[i] == v2[i] {
      IndexDocSameIndexed(id, key, domain, props, v1, v2);
    }
  }

  lemma {:induction false} IndexDocSameIndexed(id: Value, key: string, domain: string, props: seq<Property>, v1: seq<Value>, v2: seq<Value>)
    requires |v1| == |props| && |v2| == |props|
    requires forall i :: 0 <= i < |props| && props[i].index ==> v1[i] == v2[i]
    ensures IdxDoc(id, key, domain, props, v1) == IdxDoc(id, key, domain, props, v2)
    decreases |props|
  {
    if props != [] {
      var n := |props| - 1;
      IndexDocSameIndexed(id, key, domain, props[..n], v1[..n], v2[..n]);
    }
  }

  /** Walking one more stored entry. */
  lemma PrevIdxAppend(key: string, domain: string, entries: Entries, props: seq<Property>, name: string, v: Value)
    ensures PrevIdx(key, domain, entries + [(name, v)], props) ==
      var doc := PrevIdx(key, domain, entries, props);
      if name == "id" then doc["id" := v]
      else match Lookup(props, name)
        case Some(p) => if p.index then doc[name := v] else doc
        case None => doc
  {
    assert (entries + [(name, v)])[..|entries|] == entries;
  }

  /** Loading a main document that save wrote rebuilds exactly the index
      document that save built, provided no indexed property is lazy (and no
      property is named `id`): a save right after get then skips the index. */
  lemma LoadedPrevIdxMatchesSaved(id: Value, key: string, domain: string, props: seq<Property>, vals: seq<Value>)
    requires |vals| == |props| && UniqueNames(props)
    requires forall i :: 0 <= i < |props| ==> props[i].name != "id"
    requires forall i :: 0 <= i < |props| && props[i].index ==> !props[i].lazy
    ensures PrevIdx(key, domain, MainDoc(id, props, vals), props) == IdxDoc(id, key, domain, props, vals)
  {
    PrevIdxPrefix(id, key, domain, props, vals, |props|);
    assert props[..|props|] == props && vals[..|props|] == vals;
  }

  lemma {:induction false} PrevIdxPrefix(id: Value, key: string, domain: string, props: seq<Property>, vals: seq<Value>, k: nat)
    requires |vals| == |props| && UniqueNames(props) && k <= |props|
    requires forall i :: 0 <= i < |props| ==> props[i].name != "id"
    requires forall i :: 0 <= i < |props| && props[i].index ==> !props[i].lazy
    ensures PrevIdx(key, domain, MainDoc(id, props[..k], vals[..k]), props) == IdxDoc(id, key, domain, props[..k], vals[..k])
    decreases k
  {
    if k == 0 {
      PrevIdxAppend(key, domain, [], props, "id", id);
    } else {
      PrevIdxPrefix(id, key, domain, props, vals, k - 1);
      PrevIdxStep(id, key, domain, props, vals, k - 1);
    }
  }

  lemma PrevIdxStep(id: Value, key: string, domain: string, props: seq<Property>, vals: seq<Value>, n: nat)
    requires |vals| == |props| && UniqueNames(props) && n < |props|
    requires props[n].name != "id"
    requires props[n].index ==> !props[n].lazy
    requires PrevIdx(key, domain, MainDoc(id, props[..n], vals[..n]), props) == IdxDoc(id, key, domain, props[..n], vals[..n])
    ensures PrevIdx(key, domain, MainDoc(id, props[..n + 1], vals[..n + 1]), props) == IdxDoc(id, key, domain, props[..n + 1], vals[..n + 1])
  {
    assert props[..n + 1][..n] == props[..n] && vals[..n + 1][..n] == vals[..n];
    var doc := MainDoc(id, props[..n], vals[..n]);
    if !props[n].lazy {
      EarlierNamesDiffer(props, n);
      MainDocLacks(id, props[..n], vals[..n], props[n].name);
      PrevIdxAppend(key, domain, doc, props, props[n].name, vals[n]);
      LookupAt(props, n);
    }
  }

  /** The other side: an indexed lazy property is in the index document save
      builds but never in the one get rebuilds, so the first save after a get
      always re-indexes a record whose type has one. */
  lemma LoadedPrevIdxMissesLazyIndexed(id: Value, key: string, domain: string, props: seq<Property>, vals: seq<Value>, i: nat)
    requires |vals| == |props| && UniqueNames(props) && NoReservedNames(props)
    requires i < |props| && props[i].lazy && props[i].index
    ensures props[i].name in IdxDoc(id, key, domain, props, vals)
    ensures props[i].name !in PrevIdx(key, domain, MainDoc(id, props, vals), props)
    ensures PrevIdx(key, domain, MainDoc(id, props, vals), props) != IdxDoc(id, key, domain, props, vals)
  {
    IndexDocContents(id, key, domain, props, vals);
    MainDocLacks(id, props, vals, props[i].name);
    PrevIdxOnlyStoredNames(key, domain, MainDoc(id, props, vals), props, props[i].name);
  }

  /** A name that is not a key of the stored document and not one of the
      added fields never appears in the rebuilt index document. */
  lemma {:induction false} PrevIdxOnlyStoredNames(key: string, domain: string, entries: Entries, props: seq<Property>, name: string)
    requires name !in Keys(entries) && name !in {"id", "_doc_key", "_domain"}
    ensures name !in PrevIdx(key, domain, entries, props)
    decreases |entries|
  {
    if entries != [] {
      var n := |entries| - 1;
      PrevIdxOnlyStoredNames(key, domain, entries[..n], props, name);
    }
  }
  /** The documents after j + 1 properties extend those after j: the main
      document by a non-lazy property's value, the index document by an
      indexed property's value. */
  lemma DocsStep(id: Value, key: string, domain: string, props: seq<Property>, j: nat, vals: seq<Value>, v: Value)
    requires j < |props| && |vals| == j
    ensures MainDoc(id, props[..j + 1], vals + [v]) ==
      if props[j].lazy then MainDoc(id, props[..j], vals) else Put(MainDoc(id, props[..j], vals), props[j].name, v)
    ensures IdxDoc(id, key, domain, props[..j + 1], vals + [v]) ==
      if props[j].index then IdxDoc(id, key, domain, props[..j], vals)[props[j].name := v]
      else IdxDoc(id, key, domain, props[..j], vals)
    ensures LazyCount(props[..j + 1]) == LazyCount(props[..j]) + if props[j].lazy then 1 else 0
  {
    assert props[..j + 1][..j] == props[..j] && props[..j + 1][j] == props[j];
    assert (vals + [v])[..j] == vals;
  }
}
