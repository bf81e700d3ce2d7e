/**
 * The request handlers of the cash-flow controller: field validation that collects
 * every error before answering, and the choice between success, bad request, not
 * found and a failed request, with the store changes each outcome implies.
 * A request body is the map from each field present to its text (`toString()` of
 * the JSON value); a JSON null is an absent field.
 */
module Controllers {
  import opened Wrappers
  import opened Text
  import opened Amounts
  import opened Seqs
  import opened CashFlows
  import opened Queries
  import opened Services

  /** What a successful response carries as `data`. */
  datatype Payload =
    | NoData
    | CashFlowId(cashFlowId: string)
    | OneCashFlow(cashFlow: CashFlow)
    | CashFlowList(cashFlows: seq<CashFlow>, total: int)
    | Names(names: seq<string>)

  /** The outcome of a handler: HTTP 200, 400 with the field errors, 404, or an
      exception escaping the handler. */
  datatype Response =
    | Success(data: Payload)
    | BadRequest(errors: map<string, string>)
    | NotFound
    | Failed

  /** The five fields a create or update body must carry. */
  const Fields: seq<string> := ["type", "source", "label", "amount", "description"]

  const RequiredOnCreate := "Is required"
  const NotPositive := "Must be > 0"
  const RequiredOnUpdate := "Required"

  /** `req[field]?.toString().isNullOrBlank()`. */
  predicate IsMissing(body: map<string, string>, field: string) {
    field !in body || IsBlank(body[field])
  }

  /** `req["amount"]?.toString()?.toDoubleOrNull() ?: 0.0`. */
  function AmountOrZero(body: map<string, string>): (r: real)
    ensures r != 0.0 ==> "amount" in body && ParseAmount(body["amount"]) == Some(r)
    ensures "amount" in body && ParseAmount(body["amount"]).Some? ==> r == ParseAmount(body["amount"]).value
  {
    if "amount" in body && ParseAmount(body["amount"]).Some? then ParseAmount(body["amount"]).value else 0.0
  }

  // ---- validation ----

  /** `errors` holds exactly the missing fields, each with `message`. */
  ghost predicate RequiredErrors(body: map<string, string>, message: string, errors: map<string, string>) {
    && (forall f :: f in errors <==> f in Fields && IsMissing(body, f))
    && (forall f | f in errors :: errors[f] == message)
  }

  /** The `fields.forEach` loop of create and update: one error per missing field. */
  method CollectRequiredErrors(body: map<string, string>, message: string) returns (errors: map<string, string>)
    ensures RequiredErrors(body, message, errors)
  {
    errors := map[];
    var i := 0;
    while i < |Fields|
      invariant 0 <= i <= |Fields|
      invariant forall f :: f in errors <==> f in Fields[..i] && IsMissing(body, f)
      invariant forall f | f in errors :: errors[f] == message
    {
      if IsMissing(body, Fields[i]) {
        errors := errors[Fields[i] := message];
      }
      assert Fields[..i + 1] == Fields[..i] + [Fields[i]];
      i := i + 1;
    }
    assert Fields[..i] == Fields;
  }

  /** The errors of a create request: "Is required" for each missing field, and
      "Must be > 0" on `amount` when it is present but not a positive number. */
  ghost predicate CreateErrors(body: map<string, string>, errors: map<string, string>) {
    && (forall f :: f in errors <==> (f in Fields && IsMissing(body, f)) || (f == "amount" && AmountOrZero(body) <= 0.0))
    && (forall f | f in errors && IsMissing(body, f) :: errors[f] == RequiredOnCreate)
    && (forall f | f in errors && !IsMissing(body, f) :: errors[f] == NotPositive)
  }

  /** A create request passes validation. */
  predicate CreateIsValid(body: map<string, string>) {
    (forall f | f in Fields :: !IsMissing(body, f)) && AmountOrZero(body) > 0.0
  }

  /** Validation of a create request: all errors together, and the amount rule never
      replaces an "Is required" on `amount`. There are none exactly when the request
      is valid. */
  method ValidateCreate(body: map<string, string>) returns (errors: map<string, string>)
    ensures CreateErrors(body, errors)
    ensures errors == map[] <==> CreateIsValid(body)
  {
    errors := CollectRequiredErrors(body, RequiredOnCreate);
    if AmountOrZero(body) <= 0.0 && "amount" !in errors {
      errors := errors["amount" := NotPositive];
    }
    if CreateIsValid(body) {
      assert errors.Keys == {};
    }
  }

  /** The record a valid create request adds. */
  function NewCashFlow(body: map<string, string>, id: string, now: string): (cf: CashFlow)
    requires CreateIsValid(body)
    ensures cf.id == id && cf.createdAt == now && cf.updatedAt == now
    ensures "type" in body && cf.flowType == body["type"]
    ensures "source" in body && cf.source == body["source"]
    ensures "label" in body && cf.labelText == body["label"]
    ensures "description" in body && cf.description == body["description"]
    ensures "amount" in body && ParseAmount(body["amount"]).Some?
    ensures cf.amount == ParseAmount(body["amount"]).value && cf.amount > 0.0
  {
    assert Fields[0] == "type" && Fields[1] == "source" && Fields[2] == "label";
    assert Fields[3] == "amount" && Fields[4] == "description";
    assert !IsMissing(body, Fields[0]) && !IsMissing(body, Fields[1]) && !IsMissing(body, Fields[2]);
    assert !IsMissing(body, Fields[4]);
    CashFlow(id, body["type"], body["source"], body["label"], AmountOrZero(body), body["description"], now, now)
  }

  /** The record a valid update turns `existing` into: the five fields and
      `updatedAt` are new, `id` and `createdAt` are kept. */
  function UpdatedCashFlow(existing: CashFlow, body: map<string, string>, amount: real, now: string): (cf: CashFlow)
    requires forall f | f in Fields :: !IsMissing(body, f)
    ensures cf.id == existing.id && cf.createdAt == existing.createdAt && cf.updatedAt == now
    ensures "type" in body && cf.flowType == body["type"]
    ensures "source" in body && cf.source == body["source"]
    ensures "label" in body && cf.labelText == body["label"]
    ensures "description" in body && cf.description == body["description"]
    ensures cf.amount == amount
  {
    assert Fields[0] == "type" && Fields[1] == "source" && Fields[2] == "label";
    assert Fields[3] == "amount" && Fields[4] == "description";
    assert !IsMissing(body, Fields[0]) && !IsMissing(body, Fields[1]) && !IsMissing(body, Fields[2]);
    assert !IsMissing(body, Fields[4]);
    existing.(flowType := body["type"], source := body["source"], labelText := body["label"],
              amount := amount, description := body["description"], updatedAt := now)
  }

  /** `CashFlowQuery` built from the query parameters; an amount bound that does not
      parse as a number is dropped, as `toDoubleOrNull()` makes it null. */
  function QueryOf(params: map<string, string>): (q: CashFlowQuery)
    ensures TakesParam(q.flowType, params, "type") && TakesParam(q.source, params, "source")
    ensures TakesParam(q.labels, params, "labels") && TakesParam(q.search, params, "search")
    ensures TakesParam(q.startDate, params, "startDate") && TakesParam(q.endDate, params, "endDate")
    ensures q.gteAmount.Some? <==> "gteAmount" in params && ParseAmount(params["gteAmount"]).Some?
    ensures q.lteAmount.Some? <==> "lteAmount" in params && ParseAmount(params["lteAmount"]).Some?
    ensures "gteAmount" in params ==> q.gteAmount == ParseAmount(params["gteAmount"])
    ensures "lteAmount" in params ==> q.lteAmount == ParseAmount(params["lteAmount"])
  {
    CashFlowQuery(
      Param(params, "type"), Param(params, "source"), Param(params, "labels"),
      AmountParam(params, "gteAmount"), AmountParam(params, "lteAmount"),
      Param(params, "search"), Param(params, "startDate"), Param(params, "endDate"))
  }

  /** A text criterion is the parameter's value as given, or absent with it. */
  predicate TakesParam(criterion: Option<string>, params: map<string, string>, name: string) {
    (name in params ==> criterion == Some(params[name])) && (name !in params ==> criterion.None?)
  }

  function Param(params: map<string, string>, name: string): Option<string> {
    if name in params then Some(params[name]) else None
  }

  function AmountParam(params: map<string, string>, name: string): Option<real> {
    if name in params then ParseAmount(params[name]) else None
  }

  class CashFlowController {
    const service: CashFlowService

    constructor (service: CashFlowService)
      ensures this.service == service
    {
      this.service := service;
    }

    /** `setupData`: remove every record, then add each seed record in order. */
    method SetupData(seed: seq<CashFlow>) returns (resp: Response)
      requires service.Valid() && UniqueIds(seed)
      modifies service
      ensures service.Valid()
      ensures service.records == seed
      ensures resp == Success(NoData)
    {
      NoCriteriaReturnsAll(service.records);
      var all := service.GetAllCashFlows(NoCriteria).value;
      RemoveEach(all);
      AddEach(seed);
      resp := Success(NoData);
    }

    /** The first loop of `setupData`: `remove` each listed record, front to back. */
    method RemoveEach(all: seq<CashFlow>)
      requires service.Valid() && service.records == all
      modifies service
      ensures service.Valid() && service.records == []
    {
      var i := 0;
      while i < |all|
        invariant 0 <= i <= |all|
        invariant service.Valid()
        invariant service.records == all[i..]
      {
        RemoveFirstId(all[i..]);
        assert all[i..][1..] == all[i + 1..];
        var _ := service.Remove(all[i].id);
        i := i + 1;
      }
    }

    /** The second loop of `setupData`: add each seed record as it is, in order. */
    method AddEach(seed: seq<CashFlow>)
      requires service.Valid() && service.records == [] && UniqueIds(seed)
      modifies service
      ensures service.Valid() && service.records == seed
    {
      var j := 0;
      while j < |seed|
        invariant 0 <= j <= |seed|
        invariant service.Valid()
        invariant service.records == seed[..j]
      {
        var cf := seed[j];
        assert !HasId(seed[..j], cf.id);
        service.CreateRawCashFlow(cf.id, cf.flowType, cf.source, cf.labelText, cf.amount, cf.createdAt, cf.updatedAt, cf.description);
        assert seed[..j + 1] == seed[..j] + [cf];
        j := j + 1;
      }
      assert seed[..j] == seed;
    }

    /** `getAll`: the filtered list with `total` equal to its length; a query whose date
        bound does not parse fails as soon as there is a record to test. */
    method GetAll(params: map<string, string>) returns (resp: Response)
      ensures resp.Failed? <==> service.records != [] && !BoundsParse(QueryOf(params))
      ensures !resp.Failed? ==> resp.Success?
      ensures resp.Success? ==> resp.data.CashFlowList?
      ensures resp.Success? ==> Queries.GetAllCashFlows(QueryOf(params), service.records) == Ok(resp.data.cashFlows)
      ensures resp.Success? ==> resp.data.total == |resp.data.cashFlows|
      ensures resp.Success? ==> IsSubsequence(resp.data.cashFlows, service.records)
      ensures resp.Success? && service.records != [] ==>
        forall x | x in resp.data.cashFlows :: Matches(QueryOf(params), x)
      ensures resp.Success? && service.records != [] ==>
        forall x | x in service.records && Matches(QueryOf(params), x) :: x in resp.data.cashFlows
    {
      var result := service.GetAllCashFlows(QueryOf(params));
      match result
      case Ok(list) =>
        GetAllCashFlowsSelects(QueryOf(params), service.records);
        resp := Success(CashFlowList(list, |list|));
      case Err(_) =>
        resp := Failed;
    }

    /** `create`: answer 400 with every error and change nothing, or append the new
        record under the fresh id and answer with that id. */
    method Create(body: map<string, string>, freshId: string, now: string) returns (resp: Response)
      requires service.Valid() && !HasId(service.records, freshId)
      modifies service
      ensures service.Valid()
      ensures !CreateIsValid(body) ==>
        (resp.BadRequest? && CreateErrors(body, resp.errors) && resp.errors != map[]
         && service.records == old(service.records))
      ensures CreateIsValid(body) ==>
        (resp == Success(CashFlowId(freshId))
         && service.records == old(service.records) + [NewCashFlow(body, freshId, now)])
    {
      var errors := ValidateCreate(body);
      if errors != map[] {
        resp := BadRequest(errors);
        return;
      }
      service.Create(NewCashFlow(body, freshId, now));
      resp := Success(CashFlowId(freshId));
    }

    /** `getById`: the record with that id, or not found. */
    method GetById(id: string) returns (resp: Response)
      ensures resp.NotFound? <==> !HasId(service.records, id)
      ensures !resp.NotFound? ==>
        (resp.Success? && resp.data.OneCashFlow?
         && resp.data.cashFlow in service.records && resp.data.cashFlow.id == id)
    {
      match service.FindById(id)
      case None =>
        resp := NotFound;
      case Some(cf) =>
        resp := Success(OneCashFlow(cf));
    }

    /** `update`: not found is decided before the body is looked at; then every missing
        field is reported with "Required"; an amount that is no number makes
        `toDouble()` throw; otherwise the record is replaced in full, keeping its id
        and creation time. No positivity check is made on the amount. */
    method Update(id: string, body: map<string, string>, now: string) returns (resp: Response)
      requires service.Valid()
      modifies service
      ensures service.Valid()
      ensures !HasId(old(service.records), id) ==> resp == NotFound && service.records == old(service.records)
      ensures HasId(old(service.records), id) && (exists f | f in Fields :: IsMissing(body, f)) ==>
        (resp.BadRequest? && RequiredErrors(body, RequiredOnUpdate, resp.errors)
         && service.records == old(service.records))
      ensures (HasId(old(service.records), id) && (forall f | f in Fields :: !IsMissing(body, f))
               && "amount" in body && ParseAmount(body["amount"]).None?) ==>
        (resp == Failed && service.records == old(service.records))
      ensures (HasId(old(service.records), id) && (forall f | f in Fields :: !IsMissing(body, f))
               && "amount" in body && ParseAmount(body["amount"]).Some?) ==>
        (resp == Success(NoData)
         && service.records == ReplaceById(old(service.records), id,
              UpdatedCashFlow(CashFlows.FindById(old(service.records), id).value, body,
                              ParseAmount(body["amount"]).value, now)))
    {
      var existing := service.FindById(id);
      if existing.None? {
        resp := NotFound;
        return;
      }
      var errors := CollectRequiredErrors(body, RequiredOnUpdate);
      if errors != map[] {
        resp := BadRequest(errors);
        return;
      }
      assert "amount" in Fields;
      var amount := ParseAmount(body["amount"]);
      if amount.None? {
        resp := Failed;
        return;
      }
      service.Update(id, UpdatedCashFlow(existing.value, body, amount.value, now));
      resp := Success(NoData);
    }

    /** `delete`: not found exactly when no record has the id; otherwise that record is
        gone, so a later `getById` on the id is not found. */
    method Delete(id: string) returns (resp: Response)
      requires service.Valid()
      modifies service
      ensures service.Valid()
      ensures resp.NotFound? <==> !HasId(old(service.records), id)
      ensures !resp.NotFound? ==> resp == Success(NoData)
      ensures service.records == RemoveById(old(service.records), id)
      ensures !HasId(service.records, id)
    {
      var removed := service.Remove(id);
      if !removed {
        resp := NotFound;
        return;
      }
      resp := Success(NoData);
    }

    /** `getTypes`, `getSources`, `getLabels`: the distinct values, each once. */
    method GetTypes() returns (resp: Response)
      ensures resp == Success(Names(DistinctTypes(service.records)))
      ensures NoDuplicates(resp.data.names)
    {
      resp := Success(Names(service.GetDistinctTypes()));
    }

    method GetSources() returns (resp: Response)
      ensures resp == Success(Names(DistinctSources(service.records)))
      ensures NoDuplicates(resp.data.names)
    {
      resp := Success(Names(service.GetDistinctSources()));
    }

    method GetLabels() returns (resp: Response)
      ensures resp == Success(Names(DistinctLabels(service.records)))
      ensures NoDuplicates(resp.data.names)
    {
      resp := Success(Names(service.GetDistinctLabels()));
    }
  }

  /** Deleting a record and then asking for it by id answers not found. */
  method DeleteThenGetById(controller: CashFlowController, id: string) returns (deleted: Response, fetched: Response)
    requires controller.service.Valid()
    modifies controller.service
    ensures fetched == NotFound
  {
    deleted := controller.Delete(id);
    fetched := controller.GetById(id);
  }
}
