/** The counter mode of `Sirop.next_sequence`: one integer counter per
    domain, kept in the blob store under `"_seq_" + domain`, read,
    incremented and written back in one atomic step. */
module Sequence {
  import opened Values

  /** The blob-store key of a domain's counter. */
  function SeqKey(domain: string): (k: string)
    ensures SeqLike(k)
  {
    "_seq_" + domain
  }

  /** A key that lies in the counters' part of the key space. */
  predicate SeqLike(k: string) {
    |k| >= 5 && k[..5] == "_seq_"
  }

  lemma SeqKeyInjective(a: string, b: string)
    requires SeqKey(a) == SeqKey(b)
    ensures a == b
  {
    assert a == SeqKey(a)[5..];
    assert b == SeqKey(b)[5..];
  }

  /** `db.get("_seq_" + domain).to_i`: the stored counter, 0 when there is none
      (nil.to_i) or when the entry is a marshalled value, whose text starts
      with a non-digit. */
  function Counter(db: Db, domain: string): int {
    var k := SeqKey(domain);
    if k in db && db[k].Raw? then db[k].n else 0
  }

  /** One counter-mode draw: the new id is the stored counter plus one, and it
      replaces the counter. Only that key changes, so every other domain's
      counter stays as it was. */
  function Advance(db: Db, domain: string): (r: (int, Db))
    ensures r.0 == Counter(db, domain) + 1
    ensures SeqKey(domain) in r.1 && r.1[SeqKey(domain)] == Raw(r.0)
    ensures Counter(r.1, domain) == r.0
    ensures forall d :: d != domain ==> Counter(r.1, d) == Counter(db, d)
    ensures forall k :: k != SeqKey(domain) ==> (k in r.1 <==> k in db)
    ensures forall k :: k != SeqKey(domain) && k in db ==> r.1[k] == db[k]
  {
    var id := Counter(db, domain) + 1;
    var db' := db[SeqKey(domain) := Raw(id)];
    assert forall d :: d != domain ==> SeqKey(d) != SeqKey(domain) by {
      forall d | SeqKey(d) == SeqKey(domain) ensures d == domain {
        SeqKeyInjective(d, domain);
      }
    }
    (id, db')
  }

  /** The first draw for a domain that has no counter yet returns 1. */
  lemma FirstDrawIsOne(db: Db, domain: string)
    requires SeqKey(domain) !in db
    ensures Advance(db, domain).0 == 1
  {
  }

  /** k draws in a row for one domain. */
  function Draws(db: Db, domain: string, k: nat): (r: (seq<int>, Db))
    decreases k
  {
    if k == 0 then ([], db)
    else
      var (id, db1) := Advance(db, domain);
      var (rest, db2) := Draws(db1, domain, k - 1);
      ([id] + rest, db2)
  }

  /** k draws for one domain return the k integers that follow the stored
      counter, in increasing order, and leave the counter at the last of them;
      no other domain's counter moves. */
  lemma {:induction false} DrawsAreConsecutive(db: Db, domain: string, k: nat)
    ensures |Draws(db, domain, k).0| == k
    ensures forall i :: 0 <= i < k ==> Draws(db, domain, k).0[i] == Counter(db, domain) + 1 + i
    ensures Counter(Draws(db, domain, k).1, domain) == Counter(db, domain) + k
    ensures forall d :: d != domain ==> Counter(Draws(db, domain, k).1, d) == Counter(db, d)
    decreases k
  {
    if k > 0 {
      var (id, db1) := Advance(db, domain);
      DrawsAreConsecutive(db1, domain, k - 1);
      var (rest, db2) := Draws(db1, domain, k - 1);
      assert Draws(db, domain, k).0 == [id] + rest;
      assert Draws(db, domain, k).1 == db2;
    }
  }

  /** Starting from a domain without a counter, k draws return exactly
      1, 2, ..., k: distinct, strictly increasing and contiguous from 1. */
  lemma FreshDomainDrawsOneToK(db: Db, domain: string, k: nat)
    requires SeqKey(domain) !in db
    ensures Draws(db, domain, k).0 == seq(k, i => i + 1)
  {
    DrawsAreConsecutive(db, domain, k);
  }

  /** Writing a key outside the counters' key space moves no counter. */
  lemma CounterUnmoved(db: Db, k: string, e: Entry)
    requires !SeqLike(k)
    ensures forall d :: Counter(db[k := e], d) == Counter(db, d)
  {
    assert forall d :: SeqKey(d) != k;
  }

  /** A key that does not start with "_seq_" followed by "/" and anything else
      still does not start with "_seq_": blob keys built as
      `domain + "/" + ...` from such a domain never meet a counter key. */
  lemma NotSeqLikeExtends(prefix: string, rest: string)
    requires !SeqLike(prefix)
    ensures !SeqLike(prefix + "/" + rest)
  {
    var k := prefix + "/" + rest;
    if |prefix| >= 5 {
      assert k[..5] == prefix[..5];
    } else {
      assert k[|prefix|] == '/';
      assert forall j :: 0 <= j < 5 ==> "_seq_"[j] != '/';
    }
  }
}
