/**
 * The cash-flow record and the in-memory record list it lives in, with the
 * lookups and updates by id that the service forwards to its repository.
 */
module CashFlows {
  import opened Wrappers
  import opened Seqs

  /** One income or expense entry. `flowType` and `labelText` are the
      record's `type` and `label` fields (both words are reserved in Dafny). */
  datatype CashFlow = CashFlow(
    id: string,
    flowType: string,
    source: string,
    labelText: string,
    amount: real,
    description: string,
    createdAt: string,
    updatedAt: string)

  predicate HasId(rs: seq<CashFlow>, id: string) {
    exists i | 0 <= i < |rs| :: rs[i].id == id
  }

  /** No two records share an id. */
  predicate UniqueIds(rs: seq<CashFlow>) {
    forall i, j | 0 <= i < j < |rs| :: rs[i].id != rs[j].id
  }

  /** The record with id `id`, if there is one (the first such, should ids repeat). */
  function FindById(rs: seq<CashFlow>, id: string): (r: Option<CashFlow>)
    ensures r.None? <==> !HasId(rs, id)
    ensures r.Some? ==> r.value in rs && r.value.id == id
  {
    if rs == [] then None
    else if rs[0].id == id then Some(rs[0])
    else
      assert forall i | 1 <= i < |rs| :: rs[i] == rs[1..][i - 1];
      FindById(rs[1..], id)
  }

  /** In a list with unique ids, the record found for an id is the one at its index. */
  lemma FindByIdUnique(rs: seq<CashFlow>, k: nat)
    requires UniqueIds(rs) && k < |rs|
    ensures FindById(rs, rs[k].id) == Some(rs[k])
  {
    var r := FindById(rs, rs[k].id);
    var i :| 0 <= i < |rs| && rs[i] == r.value;
  }

  /** Every record with id `id` replaced by `cf`; every other record kept where it was. */
  function ReplaceById(rs: seq<CashFlow>, id: string, cf: CashFlow): (r: seq<CashFlow>)
    ensures |r| == |rs|
    ensures forall i | 0 <= i < |rs| && rs[i].id != id :: r[i] == rs[i]
    ensures forall i | 0 <= i < |rs| && rs[i].id == id :: r[i] == cf
  {
    seq(|rs|, i requires 0 <= i < |rs| => if rs[i].id == id then cf else rs[i])
  }

  /** Replacing the record of `id` by one with the same id leaves the lookup of every
      other id as it was. */
  lemma {:induction false} ReplaceByIdKeepsOthers(rs: seq<CashFlow>, id: string, cf: CashFlow, other: string)
    requires cf.id == id && other != id
    ensures FindById(ReplaceById(rs, id, cf), other) == FindById(rs, other)
  {
    if rs != [] {
      var r := ReplaceById(rs, id, cf);
      assert r[1..] == ReplaceById(rs[1..], id, cf);
      ReplaceByIdKeepsOthers(rs[1..], id, cf, other);
      assert r[0].id == other <==> rs[0].id == other;
    }
  }

  /** Replacing a record by one with the same id keeps ids unique and makes the new
      record the one found for that id. */
  lemma ReplaceByIdKeepsIds(rs: seq<CashFlow>, id: string, cf: CashFlow)
    requires UniqueIds(rs) && HasId(rs, id) && cf.id == id
    ensures UniqueIds(ReplaceById(rs, id, cf))
    ensures FindById(ReplaceById(rs, id, cf), id) == Some(cf)
  {
    var r := ReplaceById(rs, id, cf);
    var k :| 0 <= k < |rs| && rs[k].id == id;
    assert r[k] == cf;
    FindByIdUnique(r, k);
  }

  /** Every record with id `id` removed; the others kept, in order. */
  function RemoveById(rs: seq<CashFlow>, id: string): (r: seq<CashFlow>)
    ensures forall x | x in r :: x in rs && x.id != id
    ensures forall x | x in rs && x.id != id :: x in r
  {
    if rs == [] then []
    else
      var rest := RemoveById(rs[1..], id);
      if rs[0].id == id then rest else [rs[0]] + rest
  }

  /** Removal keeps the surviving records in their order, and is the identity when no
      record has the id. */
  lemma {:induction false} RemoveByIdOrder(rs: seq<CashFlow>, id: string)
    ensures IsSubsequence(RemoveById(rs, id), rs)
    ensures !HasId(rs, id) ==> RemoveById(rs, id) == rs
  {
    if rs != [] {
      RemoveByIdOrder(rs[1..], id);
      if !HasId(rs, id) {
        assert !HasId(rs[1..], id);
        assert rs == [rs[0]] + rs[1..];
      }
      var r := RemoveById(rs, id);
      if rs[0].id != id {
        assert r[1..] == RemoveById(rs[1..], id);
      }
    }
  }

  /** With unique ids, removing the first record's id removes exactly that record. */
  lemma {:induction false} RemoveFirstId(rs: seq<CashFlow>)
    requires UniqueIds(rs) && rs != []
    ensures RemoveById(rs, rs[0].id) == rs[1..]
  {
    assert !HasId(rs[1..], rs[0].id) by {
      assert forall i | 0 <= i < |rs| - 1 :: rs[1..][i] == rs[i + 1];
    }
    RemoveByIdOrder(rs[1..], rs[0].id);
  }

  /** With unique ids, removing a present id removes exactly one record. */
  lemma {:induction false} RemoveByIdCount(rs: seq<CashFlow>, id: string)
    requires UniqueIds(rs) && HasId(rs, id)
    ensures |RemoveById(rs, id)| == |rs| - 1
  {
    if rs[0].id == id {
      RemoveFirstId(rs);
    } else {
      UniqueTail(rs);
      assert HasId(rs[1..], id) by {
        var k :| 0 <= k < |rs| && rs[k].id == id;
        assert rs[1..][k - 1].id == id;
      }
      RemoveByIdCount(rs[1..], id);
    }
  }

  /** Removal keeps ids unique. */
  lemma {:induction false} RemoveByIdKeepsUnique(rs: seq<CashFlow>, id: string)
    requires UniqueIds(rs)
    ensures UniqueIds(RemoveById(rs, id))
  {
    if rs != [] {
      UniqueTail(rs);
      RemoveByIdKeepsUnique(rs[1..], id);
      if rs[0].id != id {
        FirstIdNotInTail(rs);
        UniqueCons(rs[0], RemoveById(rs[1..], id));
      }
    }
  }

  lemma FirstIdNotInTail(rs: seq<CashFlow>)
    requires UniqueIds(rs) && rs != []
    ensures forall y | y in rs[1..] :: y.id != rs[0].id
  {
    forall y | y in rs[1..] ensures y.id != rs[0].id {
      var i :| 0 <= i < |rs| - 1 && rs[1..][i] == y;
      assert y == rs[i + 1];
    }
  }

  lemma UniqueCons(x: CashFlow, rest: seq<CashFlow>)
    requires UniqueIds(rest) && forall y | y in rest :: y.id != x.id
    ensures UniqueIds([x] + rest)
  {
    var r := [x] + rest;
    forall i, j | 0 <= i < j < |r| ensures r[i].id != r[j].id {
      assert r[j] == rest[j - 1];
      if i > 0 {
        assert r[i] == rest[i - 1];
      } else {
        assert r[j] in rest;
      }
    }
  }

  lemma UniqueTail(rs: seq<CashFlow>)
    requires UniqueIds(rs) && rs != []
    ensures UniqueIds(rs[1..])
  {
    assert forall i | 0 <= i < |rs| - 1 :: rs[1..][i] == rs[i + 1];
  }
}
