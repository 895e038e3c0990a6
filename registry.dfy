/** The property table of a record type: `property name, opts` stores the
    options under the name in an insertion-ordered hash, and `properties`
    hands that hash to the save and load code. */
module Registry {
  import opened Values

  /** The options of one property. `index` records `:index` (true or a hash of
      index-field options, which only the search engine's schema uses);
      `model` is the `:model` association target, a record type name;
      `accessors` is false for `:accessors => false`. */
  datatype Property = Property(
    name: string,
    index: bool,
    lazy: bool,
    model: Option<string>,
    accessors: bool)

  /** `Sirop.config[base]`: the domain string and the ordered property table. */
  datatype TypeConfig = TypeConfig(domain: string, properties: seq<Property>)

  /** What `Sirop.included` stores for a newly registered class. */
  function NewType(className: string): (t: TypeConfig)
    ensures t.domain == className && t.properties == []
  {
    TypeConfig(className, [])
  }

  /** A Ruby hash has each key once. */
  ghost predicate UniqueNames(ps: seq<Property>) {
    forall i, j :: 0 <= i < j < |ps| ==> ps[i].name != ps[j].name
  }

  /** `properties[name]`: the options stored under `name`, if any. */
  function Lookup(ps: seq<Property>, name: string): (r: Option<Property>)
    ensures r.Some? ==> r.value.name == name && r.value in ps
    ensures r.None? <==> forall i :: 0 <= i < |ps| ==> ps[i].name != name
  {
    if ps == [] then None
    else if ps[0].name == name then Some(ps[0])
    else Lookup(ps[1..], name)
  }

  /** In a table with unique names, the entry at position i is what a lookup
      of its name finds. */
  lemma {:induction false} LookupAt(ps: seq<Property>, i: nat)
    requires UniqueNames(ps) && i < |ps|
    ensures Lookup(ps, ps[i].name) == Some(ps[i])
  {
    if i > 0 {
      assert ps[0].name != ps[i].name;
      assert UniqueNames(ps[1..]) by {
        forall a, b | 0 <= a < b < |ps[1..]| ensures ps[1..][a].name != ps[1..][b].name {
          assert ps[1..][a] == ps[a + 1] && ps[1..][b] == ps[b + 1];
        }
      }
      LookupAt(ps[1..], i - 1);
      assert ps[1..][i - 1] == ps[i];
    }
  }

  /** `config[self][:properties][name] = opts`: a name already present keeps its
      position and gets the new options; a new name goes to the end. */
  function Declare(ps: seq<Property>, p: Property): (r: seq<Property>)
    ensures Lookup(ps, p.name).Some? ==> |r| == |ps|
    ensures UniqueNames(ps) && Lookup(ps, p.name).Some? ==>
      forall i :: 0 <= i < |ps| ==> r[i] == if ps[i].name == p.name then p else ps[i]
    ensures Lookup(ps, p.name).None? ==> r == ps + [p]
  {
    if ps == [] then [p]
    else if ps[0].name == p.name then [p] + ps[1..]
    else [ps[0]] + Declare(ps[1..], p)
  }

  /** Declaring keeps the names unique, finds the new options under the
      declared name, and changes no other name's options. */
  lemma DeclareSpec(ps: seq<Property>, p: Property)
    requires UniqueNames(ps)
    ensures UniqueNames(Declare(ps, p))
    ensures Lookup(Declare(ps, p), p.name) == Some(p)
    ensures forall n :: n != p.name ==> Lookup(Declare(ps, p), n) == Lookup(ps, n)
  {
    var r := Declare(ps, p);
    if Lookup(ps, p.name).Some? {
      var k :| 0 <= k < |ps| && ps[k].name == p.name;
      DeclareReplaces(ps, p, k);
    } else {
      DeclareAppends(ps, p);
    }
  }

  lemma DeclareReplaces(ps: seq<Property>, p: Property, k: nat)
    requires UniqueNames(ps) && k < |ps| && ps[k].name == p.name
    ensures UniqueNames(Declare(ps, p))
    ensures Lookup(Declare(ps, p), p.name) == Some(p)
    ensures forall n :: n != p.name ==> Lookup(Declare(ps, p), n) == Lookup(ps, n)
  {
    var r := Declare(ps, p);
    assert Lookup(ps, p.name).Some?;
    assert |r| == |ps|;
    assert forall i :: 0 <= i < |ps| ==> r[i] == if ps[i].name == p.name then p else ps[i];
    assert UniqueNames(r) by {
      forall i, j | 0 <= i < j < |r| ensures r[i].name != r[j].name {
        assert r[i].name == ps[i].name && r[j].name == ps[j].name;
      }
    }
    LookupAt(r, k);
    forall n | n != p.name ensures Lookup(r, n) == Lookup(ps, n) {
      SameLookupElsewhere(ps, r, n);
    }
  }

  lemma DeclareAppends(ps: seq<Property>, p: Property)
    requires UniqueNames(ps) && Lookup(ps, p.name).None?
    ensures UniqueNames(Declare(ps, p))
    ensures Lookup(Declare(ps, p), p.name) == Some(p)
    ensures forall n :: n != p.name ==> Lookup(Declare(ps, p), n) == Lookup(ps, n)
  {
    var r := Declare(ps, p);
    assert r == ps + [p];
    assert UniqueNames(r) by {
      forall i, j | 0 <= i < j < |r| ensures r[i].name != r[j].name {
        if j == |ps| { assert r[i] == ps[i]; }
      }
    }
    LookupAt(r, |ps|);
    forall n | n != p.name ensures Lookup(r, n) == Lookup(ps, n) {
      SameLookupElsewhere(ps, r, n);
    }
  }

  /** Two unique tables that agree on every entry whose name is n, and
      have n at the same positions, agree on the lookup of n. */
  lemma SameLookupElsewhere(ps: seq<Property>, r: seq<Property>, n: string)
    requires UniqueNames(ps) && UniqueNames(r) && |ps| <= |r|
    requires forall i :: 0 <= i < |ps| && ps[i].name == n ==> r[i] == ps[i]
    requires forall i :: 0 <= i < |r| && r[i].name == n ==> i < |ps| && ps[i].name == n
    ensures Lookup(r, n) == Lookup(ps, n)
  {
    if j :| 0 <= j < |ps| && ps[j].name == n {
      LookupAt(r, j);
      LookupAt(ps, j);
    }
  }
}
