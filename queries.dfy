/**
 * The query side of the cash-flow service: the multi-criteria filter behind
 * `getAllCashFlows`, and the distinct types, sources and labels offered as filter
 * choices. Everything here is a pure selection over the record list.
 */
module Queries {
  import opened Wrappers
  import opened Text
  import opened Dates
  import opened Seqs
  import opened CashFlows

  /** The optional filter criteria; `None` means the criterion is not given. */
  datatype CashFlowQuery = CashFlowQuery(
    flowType: Option<string>,
    source: Option<string>,
    labels: Option<string>,
    gteAmount: Option<real>,
    lteAmount: Option<real>,
    search: Option<string>,
    startDate: Option<string>,
    endDate: Option<string>)

  /** `CashFlowQuery()`: no criterion given. */
  const NoCriteria := CashFlowQuery(None, None, None, None, None, None, None, None)

  /** `LocalDate.parse(bound, dd-MM-yyyy)` throws; the exception escapes the filter. */
  datatype QueryError = UnparsableDate(text: string)

  // ---- one predicate per criterion; an absent criterion always holds ----

  /** `type` and `source`: equality ignoring case. */
  predicate MatchesIgnoringCase(criterion: Option<string>, value: string) {
    criterion.None? || EqualsIgnoreCase(value, criterion.value)
  }

  /** The comma-separated pieces of a `labels` criterion that are not blank, untrimmed. */
  function RequestedPieces(labels: string): seq<string> {
    NonBlank(Split(labels, ','))
  }

  function NonBlank(ps: seq<string>): (r: seq<string>)
    ensures forall p | p in r :: p in ps && !IsBlank(p)
    ensures forall p | p in ps && !IsBlank(p) :: p in r
  {
    if ps == [] then []
    else if IsBlank(ps[0]) then NonBlank(ps[1..])
    else [ps[0]] + NonBlank(ps[1..])
  }

  /** A record's tags: its `label` split on commas, each piece trimmed. There is one
      more tag than there are commas, and every tag is trimmed and comma-free. */
  function RecordTags(labelText: string): (r: seq<string>)
    ensures |r| == Count(labelText, ',') + 1
    ensures forall t | t in r :: IsTrimmed(t) && ',' !in t
    ensures |r| == |Split(labelText, ',')|
    ensures forall i | 0 <= i < |r| :: r[i] == Trim(Split(labelText, ',')[i])
  {
    var ps := Split(labelText, ',');
    var r := seq(|ps|, i requires 0 <= i < |ps| => Trim(ps[i]));
    TrimmedPiecesCommaFree(ps, r);
    r
  }

  lemma TrimmedPiecesCommaFree(ps: seq<string>, r: seq<string>)
    requires forall p | p in ps :: ',' !in p
    requires |r| == |ps| && forall i | 0 <= i < |ps| :: r[i] == Trim(ps[i])
    ensures forall t | t in r :: IsTrimmed(t) && ',' !in t
  {
    forall t | t in r ensures IsTrimmed(t) && ',' !in t {
      var i :| 0 <= i < |r| && r[i] == t;
      TrimOmits(ps[i], ',');
    }
  }

  /** `labels`: every requested piece, trimmed, is one of the record's tags. */
  predicate MatchesLabels(criterion: Option<string>, labelText: string) {
    criterion.None? ||
    forall p | p in RequestedPieces(criterion.value) :: Trim(p) in RecordTags(labelText)
  }

  predicate MatchesAtLeast(criterion: Option<real>, amount: real) {
    criterion.None? || amount >= criterion.value
  }

  predicate MatchesAtMost(criterion: Option<real>, amount: real) {
    criterion.None? || amount <= criterion.value
  }

  /** `search`: the description contains the text, ignoring case. */
  predicate MatchesSearch(criterion: Option<string>, description: string) {
    criterion.None? || ContainsIgnoreCase(description, criterion.value)
  }

  /** The date of a record: the ISO date in the first ten characters of `createdAt`,
      or `None` when it is shorter or those characters are not a date. */
  function CreatedDate(createdAt: string): (d: Option<Date>)
    ensures d.Some? ==> |createdAt| >= 10 && IsValid(d.value)
    ensures d.Some? ==> 0 <= d.value.year <= 9999 && FormatIsoDate(d.value) == createdAt[..10]
  {
    if |createdAt| >= 10 then
      var d := ParseIsoDate(createdAt[..10]);
      if d.Some? then FormatParseIsoDate(createdAt[..10]); d else d
    else None
  }

  /** `startDate`: the record has a date and it is not before the bound. */
  predicate MatchesStart(bound: Option<Date>, created: Option<Date>) {
    bound.None? || (created.Some? && !IsBefore(created.value, bound.value))
  }

  /** `endDate`: the record has a date and it is not after the bound. */
  predicate MatchesEnd(bound: Option<Date>, created: Option<Date>) {
    bound.None? || (created.Some? && !IsBefore(bound.value, created.value))
  }

  // ---- date bounds of the query ----

  predicate BoundParses(bound: Option<string>) {
    bound.None? || ParseDayMonthYear(bound.value).Some?
  }

  predicate BoundsParse(q: CashFlowQuery) {
    BoundParses(q.startDate) && BoundParses(q.endDate)
  }

  function BoundDate(bound: Option<string>): Option<Date>
    requires BoundParses(bound)
  {
    if bound.None? then None else ParseDayMonthYear(bound.value)
  }

  /** A record passes the query: the conjunction of all criteria. */
  predicate Matches(q: CashFlowQuery, cf: CashFlow)
    requires BoundsParse(q)
  {
    && MatchesIgnoringCase(q.flowType, cf.flowType)
    && MatchesIgnoringCase(q.source, cf.source)
    && MatchesLabels(q.labels, cf.labelText)
    && MatchesAtLeast(q.gteAmount, cf.amount)
    && MatchesAtMost(q.lteAmount, cf.amount)
    && MatchesSearch(q.search, cf.description)
    && MatchesStart(BoundDate(q.startDate), CreatedDate(cf.createdAt))
    && MatchesEnd(BoundDate(q.endDate), CreatedDate(cf.createdAt))
  }

  /** The records that pass the query, in store order: an order-preserving selection
      that keeps every copy of a passing record and drops every copy of a failing one. */
  function Select(q: CashFlowQuery, rs: seq<CashFlow>): (r: seq<CashFlow>)
    requires BoundsParse(q)
    ensures IsSubsequence(r, rs)
    ensures forall x | x in r :: Matches(q, x)
    ensures forall x {:trigger multiset(r)[x]} :: multiset(r)[x] == if Matches(q, x) then multiset(rs)[x] else 0
  {
    if rs == [] then []
    else
      var rest := Select(q, rs[1..]);
      assert rs == [rs[0]] + rs[1..];
      if Matches(q, rs[0]) then
        var r := [rs[0]] + rest;
        assert r[1..] == rest;
        r
      else rest
  }

  /** `getAllCashFlows(query)` over the store's records. The date bounds are parsed
      inside the per-record predicate, so an unparsable bound aborts the query as soon
      as there is a record to test and goes unnoticed on an empty store. */
  function GetAllCashFlows(q: CashFlowQuery, rs: seq<CashFlow>): (r: Result<seq<CashFlow>, QueryError>)
    ensures r.Err? <==> rs != [] && !BoundsParse(q)
    ensures r.Ok? && rs != [] ==> BoundsParse(q) && r.value == Select(q, rs)
    ensures r.Ok? && rs == [] ==> r.value == []
  {
    if rs == [] then Ok([])
    else if !BoundParses(q.startDate) then Err(UnparsableDate(q.startDate.value))
    else if !BoundParses(q.endDate) then Err(UnparsableDate(q.endDate.value))
    else Ok(Select(q, rs))
  }

  // ---- properties of the filter ----

  /** When every record passes, the selection is the whole list, in order. */
  lemma {:induction false} SelectAllPass(q: CashFlowQuery, rs: seq<CashFlow>)
    requires BoundsParse(q)
    requires forall x | x in rs :: Matches(q, x)
    ensures Select(q, rs) == rs
  {
    if rs != [] {
      assert forall x | x in rs[1..] :: x in rs;
      SelectAllPass(q, rs[1..]);
      assert Matches(q, rs[0]);
      assert Select(q, rs) == [rs[0]] + Select(q, rs[1..]);
      assert rs == [rs[0]] + rs[1..];
    }
  }

  /** With no criterion given, the query returns the store unchanged and in order. */
  lemma NoCriteriaReturnsAll(rs: seq<CashFlow>)
    ensures GetAllCashFlows(NoCriteria, rs) == Ok(rs)
  {
    if rs != [] {
      SelectAllPass(NoCriteria, rs);
    }
  }

  /** The result of a successful query is an order-preserving selection of the store,
      every selected record passes every criterion, and no passing record is dropped. */
  lemma GetAllCashFlowsSelects(q: CashFlowQuery, rs: seq<CashFlow>)
    requires GetAllCashFlows(q, rs).Ok?
    ensures IsSubsequence(GetAllCashFlows(q, rs).value, rs)
    ensures rs != [] ==> forall x | x in GetAllCashFlows(q, rs).value :: Matches(q, x)
    ensures rs != [] ==> forall x | x in rs && Matches(q, x) :: x in GetAllCashFlows(q, rs).value
  {
    if rs != [] {
      var r := Select(q, rs);
      forall x | x in rs && Matches(q, x) ensures x in r {
        assert multiset(r)[x] == multiset(rs)[x];
      }
    }
  }

  /** An unparsable `startDate` or `endDate` aborts the query exactly when the store has
      a record; the start bound is reported first. */
  lemma UnparsableBoundAborts(q: CashFlowQuery, rs: seq<CashFlow>)
    requires rs != []
    ensures !BoundParses(q.startDate) ==> GetAllCashFlows(q, rs) == Err(UnparsableDate(q.startDate.value))
    ensures BoundParses(q.startDate) && !BoundParses(q.endDate) ==>
      GetAllCashFlows(q, rs) == Err(UnparsableDate(q.endDate.value))
  {
  }

  // ---- properties of the single criteria ----

  /** The trimmed, non-blank comma-separated pieces of a `labels` criterion. */
  function RequestedTags(labels: string): set<string> {
    set p | p in RequestedPieces(labels) :: Trim(p)
  }

  /** The trimmed comma-separated pieces of a record's `label`. */
  function TagSet(labelText: string): set<string> {
    set t | t in RecordTags(labelText)
  }

  /** The label criterion is containment of tag sets: a record passes exactly when each
      requested tag is one of its own tags (AND, not OR). Blank requested pieces, and
      the empty tags of the record, play no part, since a requested tag is never empty. */
  lemma MatchesLabelsIsContainment(labels: string, labelText: string)
    ensures MatchesLabels(Some(labels), labelText) <==> RequestedTags(labels) <= TagSet(labelText)
    ensures "" !in RequestedTags(labels)
  {
    var pieces := RequestedPieces(labels);
    if MatchesLabels(Some(labels), labelText) {
      forall t | t in RequestedTags(labels) ensures t in TagSet(labelText) {
        var p :| p in pieces && Trim(p) == t;
      }
    }
    if RequestedTags(labels) <= TagSet(labelText) {
      forall p | p in pieces ensures Trim(p) in RecordTags(labelText) {
        assert Trim(p) in RequestedTags(labels);
      }
    }
    forall p | p in pieces ensures Trim(p) != "" {
    }
  }

  /** A `labels` criterion with no non-blank piece imposes nothing. */
  lemma BlankLabelsMatchAll(labels: string, labelText: string)
    requires forall p | p in Split(labels, ',') :: IsBlank(p)
    ensures MatchesLabels(Some(labels), labelText)
  {
  }

  /** Two tags separated by a comma, such as "A,B", ask for both: a record passes
      exactly when it carries tag A and tag B. */
  lemma TwoLabelsBothRequired(a: char, b: char, labelText: string)
    requires !IsWhitespace(a) && !IsWhitespace(b) && a != ',' && b != ','
    ensures MatchesLabels(Some([a, ',', b]), labelText) <==> [a] in TagSet(labelText) && [b] in TagSet(labelText)
  {
    var pieces := RequestedPieces([a, ',', b]);
    RequestedPiecesOfTwo(a, b);
    TrimOfLetter(a);
    TrimOfLetter(b);
    assert pieces[0] in pieces && pieces[1] in pieces;
  }

  lemma RequestedPiecesOfTwo(a: char, b: char)
    requires !IsWhitespace(a) && !IsWhitespace(b) && a != ',' && b != ','
    ensures RequestedPieces([a, ',', b]) == [[a], [b]]
  {
    SplitTwo(a, b, ',');
    assert !IsBlank([a]) && !IsBlank([b]);
    var ps: seq<string> := [[a], [b]];
    assert ps[1..] == [[b]] && [[b]][1..] == [];
    assert NonBlank([[b]]) == [[b]];
  }

  /** A query with only a lower amount bound `a` keeps exactly the records whose amount
      is at least `a`; a query with only an upper bound keeps exactly those at most it. */
  lemma AmountBoundsInclusive(rs: seq<CashFlow>, a: real)
    ensures GetAllCashFlows(NoCriteria.(gteAmount := Some(a)), rs).Ok?
    ensures forall x | x in rs ::
      x in GetAllCashFlows(NoCriteria.(gteAmount := Some(a)), rs).value <==> x.amount >= a
    ensures forall x | x in rs ::
      x in GetAllCashFlows(NoCriteria.(lteAmount := Some(a)), rs).value <==> x.amount <= a
  {
    GetAllCashFlowsSelects(NoCriteria.(gteAmount := Some(a)), rs);
    GetAllCashFlowsSelects(NoCriteria.(lteAmount := Some(a)), rs);
  }

  /** A query with only a type (or only a source) keeps exactly the records whose type
      (source) equals it ignoring case. */
  lemma TypeAndSourceIgnoreCase(rs: seq<CashFlow>, t: string)
    ensures forall x | x in rs ::
      x in GetAllCashFlows(NoCriteria.(flowType := Some(t)), rs).value <==> EqualsIgnoreCase(x.flowType, t)
    ensures forall x | x in rs ::
      x in GetAllCashFlows(NoCriteria.(source := Some(t)), rs).value <==> EqualsIgnoreCase(x.source, t)
  {
    GetAllCashFlowsSelects(NoCriteria.(flowType := Some(t)), rs);
    GetAllCashFlowsSelects(NoCriteria.(source := Some(t)), rs);
  }

  /** An empty search text matches every description. */
  lemma EmptySearchMatchesAll(description: string)
    ensures MatchesSearch(Some(""), description)
  {
    assert Lower("") == "";
  }

  /** Given a date bound, a record whose `createdAt` does not start with an ISO date is
      excluded; without date bounds, `createdAt` plays no part. */
  lemma DateBoundsNeedRecordDate(q: CashFlowQuery, cf: CashFlow)
    requires BoundsParse(q)
    ensures (q.startDate.Some? || q.endDate.Some?) && CreatedDate(cf.createdAt).None? ==> !Matches(q, cf)
    ensures q.startDate.None? && q.endDate.None? ==>
      forall c :: Matches(q, cf) == Matches(q, cf.(createdAt := c))
  {
  }

  /** The date bounds compare calendar days and are inclusive: a record whose
      `createdAt` starts with the ISO text of day `c` passes the start bound written
      for day `a` exactly when `c` is not before `a`, and the end bound written for
      day `b` exactly when `c` is not after `b`; the time of day plays no part. */
  lemma DateBoundsCompareDays(a: Date, b: Date, c: Date, timeOfDay: string)
    requires IsValid(a) && IsValid(b) && IsValid(c)
    requires 1 <= a.year <= 9999 && 1 <= b.year <= 9999 && 0 <= c.year <= 9999
    ensures MatchesStart(ParseDayMonthYear(FormatDayMonthYear(a)), CreatedDate(FormatIsoDate(c) + timeOfDay))
      <==> !IsBefore(c, a)
    ensures MatchesEnd(ParseDayMonthYear(FormatDayMonthYear(b)), CreatedDate(FormatIsoDate(c) + timeOfDay))
      <==> !IsBefore(b, c)
  {
    ParseFormatDayMonthYear(a);
    ParseFormatDayMonthYear(b);
    CreatedDateOfIso(c, timeOfDay);
  }

  /** A `createdAt` that starts with the ISO text of a day has that day as its date. */
  lemma CreatedDateOfIso(c: Date, timeOfDay: string)
    requires IsValid(c) && 0 <= c.year <= 9999
    ensures CreatedDate(FormatIsoDate(c) + timeOfDay) == Some(c)
  {
    assert (FormatIsoDate(c) + timeOfDay)[..10] == FormatIsoDate(c);
    ParseFormatIsoDate(c);
  }

  // ---- distinct types, sources and labels ----

  /** `getDistinctTypes()`: each record type once, in order of first appearance. */
  function DistinctTypes(rs: seq<CashFlow>): (r: seq<string>)
    ensures NoDuplicates(r)
    ensures forall t | t in r :: exists i | 0 <= i < |rs| :: rs[i].flowType == t
    ensures forall i | 0 <= i < |rs| :: rs[i].flowType in r
  {
    var types := seq(|rs|, i requires 0 <= i < |rs| => rs[i].flowType);
    forall i | 0 <= i < |rs| ensures rs[i].flowType in Distinct(types) {
      assert types[i] in types;
    }
    forall t | t in types ensures exists i | 0 <= i < |rs| :: rs[i].flowType == t {
      var i :| 0 <= i < |types| && types[i] == t;
    }
    Distinct(types)
  }

  /** `getDistinctSources()`: each record source once, in order of first appearance. */
  function DistinctSources(rs: seq<CashFlow>): (r: seq<string>)
    ensures NoDuplicates(r)
    ensures forall t | t in r :: exists i | 0 <= i < |rs| :: rs[i].source == t
    ensures forall i | 0 <= i < |rs| :: rs[i].source in r
  {
    var sources := seq(|rs|, i requires 0 <= i < |rs| => rs[i].source);
    forall i | 0 <= i < |rs| ensures rs[i].source in Distinct(sources) {
      assert sources[i] in sources;
    }
    forall t | t in sources ensures exists i | 0 <= i < |rs| :: rs[i].source == t {
      var i :| 0 <= i < |sources| && sources[i] == t;
    }
    Distinct(sources)
  }

  /** `flatMap { it.label.split(",") }`: the comma-separated pieces of every record's
      label, record after record. */
  function LabelPieces(rs: seq<CashFlow>): (r: seq<string>)
    ensures forall p | p in r :: exists i | 0 <= i < |rs| :: p in Split(rs[i].labelText, ',')
    ensures forall i, p | 0 <= i < |rs| && p in Split(rs[i].labelText, ',') :: p in r
  {
    if rs == [] then []
    else
      var rest := LabelPieces(rs[1..]);
      assert forall i | 1 <= i < |rs| :: rs[i] == rs[1..][i - 1];
      Split(rs[0].labelText, ',') + rest
  }

  /** `map { it.trim() }.filter { it.isNotEmpty() }`. */
  function TrimmedNonEmpty(ps: seq<string>): seq<string> {
    if ps == [] then []
    else
      var t := Trim(ps[0]);
      (if t == [] then [] else [t]) + TrimmedNonEmpty(ps[1..])
  }

  /** The kept pieces are exactly the trims of the non-blank pieces, none empty and
      each trimmed. */
  lemma {:induction false} TrimmedNonEmptyPieces(ps: seq<string>)
    ensures forall x | x in TrimmedNonEmpty(ps) :: x != [] && IsTrimmed(x) && exists p | p in ps :: Trim(p) == x
    ensures forall p | p in ps && !IsBlank(p) :: Trim(p) in TrimmedNonEmpty(ps)
  {
    if ps != [] {
      var rest := TrimmedNonEmpty(ps[1..]);
      var t := Trim(ps[0]);
      TrimmedNonEmptyPieces(ps[1..]);
      assert TrimmedNonEmpty(ps) == (if t == [] then [] else [t]) + rest;
      forall x | x in TrimmedNonEmpty(ps)
        ensures x != [] && IsTrimmed(x) && exists p | p in ps :: Trim(p) == x
      {
        if x in rest {
          var p :| p in ps[1..] && Trim(p) == x;
          assert p in ps;
        } else {
          assert ps[0] in ps && x == t;
        }
      }
      forall p | p in ps && !IsBlank(p) ensures Trim(p) in TrimmedNonEmpty(ps) {
        if p != ps[0] {
          assert p in ps[1..];
        }
      }
    }
  }

  /** `getDistinctLabels()`: every trimmed non-empty label piece of every record, once,
      in order of first appearance. */
  function DistinctLabels(rs: seq<CashFlow>): (r: seq<string>)
    ensures NoDuplicates(r)
    ensures forall x | x in r :: x != [] && Trim(x) == x
    ensures forall x | x in r :: exists i, p | 0 <= i < |rs| && p in Split(rs[i].labelText, ',') :: Trim(p) == x
    ensures forall i, p | 0 <= i < |rs| && p in Split(rs[i].labelText, ',') && !IsBlank(p) :: Trim(p) in r
  {
    var kept := TrimmedNonEmpty(LabelPieces(rs));
    KeptLabelPieces(rs);
    var r := Distinct(kept);
    assert forall x | x in r :: x in kept;
    r
  }

  /** The kept label pieces are non-empty, trimmed, and exactly the trims of the
      non-blank pieces of the records' labels. */
  lemma KeptLabelPieces(rs: seq<CashFlow>)
    ensures forall x | x in TrimmedNonEmpty(LabelPieces(rs)) :: x != [] && Trim(x) == x
    ensures forall x | x in TrimmedNonEmpty(LabelPieces(rs)) ::
      exists i, p | 0 <= i < |rs| && p in Split(rs[i].labelText, ',') :: Trim(p) == x
    ensures forall i, p | 0 <= i < |rs| && p in Split(rs[i].labelText, ',') && !IsBlank(p) ::
      Trim(p) in TrimmedNonEmpty(LabelPieces(rs))
  {
    var pieces := LabelPieces(rs);
    var kept := TrimmedNonEmpty(pieces);
    TrimmedNonEmptyPieces(pieces);
    forall x | x in kept
      ensures x != [] && Trim(x) == x
      ensures exists i, p | 0 <= i < |rs| && p in Split(rs[i].labelText, ',') :: Trim(p) == x
    {
      TrimTrimmed(x);
      var p :| p in pieces && Trim(p) == x;
      var i :| 0 <= i < |rs| && p in Split(rs[i].labelText, ',');
    }
    forall i, p | 0 <= i < |rs| && p in Split(rs[i].labelText, ',') && !IsBlank(p) ensures Trim(p) in kept {
      assert p in pieces;
    }
  }

  /** The distinct labels appear in the order in which the trimmed pieces first occur. */
  lemma DistinctLabelsFirstOccurrence(rs: seq<CashFlow>)
    ensures forall i, j | 0 <= i < j < |DistinctLabels(rs)| ::
      FirstIndex(TrimmedNonEmpty(LabelPieces(rs)), DistinctLabels(rs)[i])
        < FirstIndex(TrimmedNonEmpty(LabelPieces(rs)), DistinctLabels(rs)[j])
  {
    DistinctFirstOccurrenceOrder(TrimmedNonEmpty(LabelPieces(rs)));
  }

  /** Labels "a, b" and "b,c" give exactly the tags a, b and c, each once. */
  lemma DistinctLabelsExample(r1: CashFlow, r2: CashFlow)
    requires r1.labelText == "a, b" && r2.labelText == "b,c"
    ensures forall x :: x in DistinctLabels([r1, r2]) <==> x == "a" || x == "b" || x == "c"
    ensures NoDuplicates(DistinctLabels([r1, r2]))
  {
    var rs := [r1, r2];
    var r := DistinctLabels(rs);
    ExampleTrims();
    forall x | x in r ensures x == "a" || x == "b" || x == "c" {
      var i, p :| 0 <= i < |rs| && p in Split(rs[i].labelText, ',') && Trim(p) == x;
      ExamplePieceCases(rs, i, p);
    }
    ExampleTagsPresent(rs);
  }

  lemma ExampleTrims()
    ensures Trim("a") == "a" && Trim(" b") == "b" && Trim("b") == "b" && Trim("c") == "c"
  {
    TrimOfLetter('a');
    TrimOfLetter('b');
    TrimOfLetter('c');
    TrimOfSpaceLetter('b');
  }

  lemma ExampleTagsPresent(rs: seq<CashFlow>)
    requires |rs| == 2 && rs[0].labelText == "a, b" && rs[1].labelText == "b,c"
    ensures "a" in DistinctLabels(rs) && "b" in DistinctLabels(rs) && "c" in DistinctLabels(rs)
  {
    ExampleSplits();
    ExampleTrims();
    var first, second := Split(rs[0].labelText, ','), Split(rs[1].labelText, ',');
    assert first[0] == "a" && first[1] == " b" && second[1] == "c";
    assert !IsWhitespace(first[0][0]) && !IsWhitespace(first[1][1]) && !IsWhitespace(second[1][0]);
    LabelPresent(rs, 0, 0);
    LabelPresent(rs, 0, 1);
    LabelPresent(rs, 1, 1);
  }

  /** A non-blank label piece of a stored record is listed, trimmed. */
  lemma LabelPresent(rs: seq<CashFlow>, i: int, k: int)
    requires 0 <= i < |rs| && 0 <= k < |Split(rs[i].labelText, ',')|
    requires !IsBlank(Split(rs[i].labelText, ',')[k])
    ensures Trim(Split(rs[i].labelText, ',')[k]) in DistinctLabels(rs)
  {
    assert Split(rs[i].labelText, ',')[k] in Split(rs[i].labelText, ',');
  }

  lemma ExamplePieceCases(rs: seq<CashFlow>, i: int, p: string)
    requires |rs| == 2 && rs[0].labelText == "a, b" && rs[1].labelText == "b,c"
    requires 0 <= i < 2 && p in Split(rs[i].labelText, ',')
    ensures p == "a" || p == " b" || p == "b" || p == "c"
  {
    ExampleSplits();
    var pieces := Split(rs[i].labelText, ',');
    if i == 0 {
      assert pieces == ["a", " b"];
    } else {
      assert pieces == ["b", "c"];
    }
  }

  lemma ExampleSplits()
    ensures Split("a, b", ',') == ["a", " b"]
    ensures Split("b,c", ',') == ["b", "c"]
  {
    SplitJoin(["a", " b"], ',');
    SplitJoin(["b", "c"], ',');
  }

}
