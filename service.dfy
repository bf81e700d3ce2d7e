/**
 * The cash-flow service: the record list it owns (through its repository) and the
 * create / update / remove operations it forwards to it, beside read-only views of
 * the query functions.
 */
module Services {
  import opened Wrappers
  import opened CashFlows
  import Queries
  import Seqs
  import Text

  class CashFlowService {
    /** The repository's records, in insertion order. */
    var records: seq<CashFlow>

    /** Store invariant: ids are unique (the caller of `add` guarantees it). */
    ghost predicate Valid()
      reads this
    {
      UniqueIds(records)
    }

    constructor ()
      ensures Valid() && records == []
    {
      records := [];
    }

    /** `getAllCashFlows(query)`. */
    function GetAllCashFlows(q: Queries.CashFlowQuery): (r: Result<seq<CashFlow>, Queries.QueryError>)
      reads this
      ensures r.Err? <==> records != [] && !Queries.BoundsParse(q)
      ensures r.Ok? ==> Seqs.IsSubsequence(r.value, records)
      ensures r.Ok? && records != [] ==> forall x | x in r.value :: Queries.Matches(q, x)
      ensures r.Ok? && records != [] ==> forall x | x in records && Queries.Matches(q, x) :: x in r.value
    {
      var r := Queries.GetAllCashFlows(q, records);
      if r.Ok? then Queries.GetAllCashFlowsSelects(q, records); r else r
    }

    function GetDistinctTypes(): (r: seq<string>)
      reads this
      ensures Seqs.NoDuplicates(r)
      ensures forall cf | cf in records :: cf.flowType in r
      ensures forall t | t in r :: exists i | 0 <= i < |records| :: records[i].flowType == t
    {
      Queries.DistinctTypes(records)
    }

    function GetDistinctSources(): (r: seq<string>)
      reads this
      ensures Seqs.NoDuplicates(r)
      ensures forall cf | cf in records :: cf.source in r
      ensures forall t | t in r :: exists i | 0 <= i < |records| :: records[i].source == t
    {
      Queries.DistinctSources(records)
    }

    function GetDistinctLabels(): (r: seq<string>)
      reads this
      ensures Seqs.NoDuplicates(r)
      ensures forall x | x in r :: x != [] && Text.Trim(x) == x
      ensures forall x | x in r ::
        exists i, p | 0 <= i < |records| && p in Text.Split(records[i].labelText, ',') :: Text.Trim(p) == x
      ensures forall i, p | 0 <= i < |records| && p in Text.Split(records[i].labelText, ',') && !Text.IsBlank(p) ::
        Text.Trim(p) in r
    {
      Queries.DistinctLabels(records)
    }

    /** `findById(id)`. */
    function FindById(id: string): (r: Option<CashFlow>)
      reads this
      ensures r.None? <==> !HasId(records, id)
      ensures r.Some? ==> r.value in records && r.value.id == id
    {
      CashFlows.FindById(records, id)
    }

    /** `create(cf)`: append a record whose id is not yet in the store. */
    method Create(cf: CashFlow)
      requires Valid() && !HasId(records, cf.id)
      modifies this
      ensures Valid()
      ensures records == old(records) + [cf]
    {
      records := records + [cf];
    }

    /** `update(id, cf)`: the record with that id is replaced, the others are kept. */
    method Update(id: string, cf: CashFlow)
      requires Valid() && cf.id == id
      modifies this
      ensures Valid()
      ensures records == ReplaceById(old(records), id, cf)
      ensures HasId(old(records), id) ==> FindById(id) == Some(cf)
      ensures forall other | other != id :: FindById(other) == CashFlows.FindById(old(records), other)
    {
      forall other | other != id
        ensures CashFlows.FindById(ReplaceById(records, id, cf), other) == CashFlows.FindById(records, other)
      {
        ReplaceByIdKeepsOthers(records, id, cf, other);
      }
      if HasId(records, id) {
        ReplaceByIdKeepsIds(records, id, cf);
      } else {
        assert ReplaceById(records, id, cf) == records;
      }
      records := ReplaceById(records, id, cf);
    }

    /** `remove(id)`: drop the record with that id and report whether there was one. */
    method Remove(id: string) returns (removed: bool)
      requires Valid()
      modifies this
      ensures Valid()
      ensures removed == HasId(old(records), id)
      ensures records == RemoveById(old(records), id)
      ensures !HasId(records, id)
      ensures removed ==> |records| == |old(records)| - 1
      ensures !removed ==> records == old(records)
    {
      removed := HasId(records, id);
      RemoveByIdOrder(records, id);
      RemoveByIdKeepsUnique(records, id);
      if removed {
        RemoveByIdCount(records, id);
      }
      records := RemoveById(records, id);
    }

    /** `removeCashFlow(id)`: the same removal, without the report. */
    method RemoveCashFlow(id: string)
      requires Valid()
      modifies this
      ensures Valid()
      ensures records == RemoveById(old(records), id)
    {
      var _ := Remove(id);
    }

    /** `createRawCashFlow(...)`: append a record built from the given fields as they are. */
    method CreateRawCashFlow(id: string, flowType: string, source: string, labelText: string,
                             amount: real, createdAt: string, updatedAt: string, description: string)
      requires Valid() && !HasId(records, id)
      modifies this
      ensures Valid()
      ensures records == old(records) + [CashFlow(id, flowType, source, labelText, amount, description, createdAt, updatedAt)]
    {
      Create(CashFlow(id, flowType, source, labelText, amount, description, createdAt, updatedAt));
    }
  }
}
