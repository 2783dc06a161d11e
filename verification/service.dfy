/** EntryService: the operations the web layer calls, over an entry
    repository. The clock and the Guid generator are parameters. */
module Service {
  import opened Common
  import opened Ordering
  import opened Entities
  import opened Response
  import AddRequest
  import UpdateRequest
  import opened EntryValidation
  import opened Repository

  const IdEmpty: string := "ID must not be empty."
  const SearchDataMissing: string := "Search Data must not be null."
  const SortDataMissing: string := "List/Sort Data must not be null."
  const EntryIdMissing: string := "Entry ID does not exist."
  /** ArgumentNullException(nameof(request)) names the parameter. */
  const RequestParam: string := "request"

  // -----------------------------------------------------------------------
  // Creating.
  // -----------------------------------------------------------------------

  /** The entry CreateEntryAsync stores: the converted request with the
      fresh Id and the creation time filled in. */
  function NewEntry(req: AddRequest.EntryAddRequest, newId: Guid, now: int): Entry
  {
    AddRequest.ToEntry(req, now).(id := newId, createDt := Some(now))
  }

  /** What CreateEntryAsync returns or throws. */
  function CreateOutcome(request: Option<AddRequest.EntryAddRequest>, newId: Guid, now: int): Result<EntryResponse>
  {
    if request.None? then Err(NullArgument(RequestParam))
    else if AddErrors(request.value) != [] then Err(Rejection(AddErrors(request.value)))
    else Ok(ToEntryResponse(NewEntry(request.value, newId, now)))
  }

  /** Creation succeeds exactly for a present request whose fields are valid;
      the stored entry then is well formed, carries the new Id and the
      request's owner, and the response shows the request's values. */
  lemma CreateOutcomeMeaning(request: Option<AddRequest.EntryAddRequest>, newId: Guid, now: int)
    ensures CreateOutcome(request, newId, now).Ok? <==> request.Some? && FieldsValid(AddFields(request.value))
    ensures CreateOutcome(request, newId, now).Ok? ==>
              var req := request.value;
              var e := NewEntry(req, newId, now);
              var resp := CreateOutcome(request, newId, now).value;
              && WellFormed(e) && e.id == newId && e.userId == req.userId && e.createDt == Some(now)
              && resp.id == newId && resp.name == req.name && Some(resp.amount) == req.amount
              && Some(resp.date) == req.date && resp.details == req.details && Some(resp.category) == req.category
  {
    if request.Some? {
      FieldErrorsEmpty(AddFields(request.value));
      if AddErrors(request.value) == [] {
        ValidAddRequestGivesWellFormedEntry(request.value, now);
      }
    }
  }

  // -----------------------------------------------------------------------
  // Updating.
  // -----------------------------------------------------------------------

  /** What UpdateEntryAsync returns or throws against the stored entries. The
      response is built from the converted request, which the repository
      hands back. */
  function UpdateOutcome(entries: seq<Entry>, request: Option<UpdateRequest.EntryUpdateRequest>, now: int): Result<EntryResponse>
  {
    if request.None? then Err(NullArgument(RequestParam))
    else if UpdateErrors(request.value) != [] then Err(Rejection(UpdateErrors(request.value)))
    else if IndexOfId(entries, request.value.id) < 0 then Err(InvalidArgument(EntryIdMissing))
    else Ok(ToEntryResponse(UpdateRequest.ToEntry(request.value, now)))
  }

  /** An update succeeds exactly for a present, valid request whose Id is
      stored; the stored entry then takes the request's values and keeps its
      Id, owner and creation time, and every other entry stays as it was. */
  lemma UpdateOutcomeMeaning(entries: seq<Entry>, request: Option<UpdateRequest.EntryUpdateRequest>, now: int)
    requires UniqueIds(entries)
    ensures UpdateOutcome(entries, request, now).Ok? <==>
              && request.Some? && FieldsValid(UpdateFields(request.value)) && request.value.userId != EmptyGuid
              && exists k :: 0 <= k < |entries| && entries[k].id == request.value.id
    ensures UpdateOutcome(entries, request, now).Ok? ==>
              var req := request.value;
              var r := Updated(entries, UpdateRequest.ToEntry(req, now), now);
              && |r| == |entries|
              && (forall k :: 0 <= k < |entries| && entries[k].id == req.id ==>
                    && r[k].id == req.id && r[k].userId == entries[k].userId && r[k].createDt == entries[k].createDt
                    && r[k].name == req.name && Some(r[k].amount) == req.amount && Some(r[k].date) == req.date
                    && r[k].details == req.details && Some(r[k].category) == req.category
                    && r[k].updateDt == Some(now) && WellFormed(r[k]))
              && (forall k :: 0 <= k < |entries| && entries[k].id != req.id ==> r[k] == entries[k])
  {
    if request.Some? {
      UpdateErrorsEmpty(request.value);
      if UpdateErrors(request.value) == [] {
        ValidUpdateRequestGivesWellFormedEntry(request.value, now);
        UpdatedEffect(entries, UpdateRequest.ToEntry(request.value, now), now);
      }
    }
  }

  // -----------------------------------------------------------------------
  // Searching.
  // -----------------------------------------------------------------------

  /** The page of responses a search returns and the search model as the
      search leaves it. */
  datatype SearchPage = SearchPage(entries: seq<EntryResponse>, model: SearchModel)

  /** Page number 1 when the search activates a filter and the request is
      not a page change; otherwise the model as it came. */
  function PageReset(m: SearchModel, searchQueries: seq<SearchFilter>): SearchModel
  {
    if |searchQueries| > 0 && !m.isPagination then m.(pageNumber := 1) else m
  }

  /** What SearchEntriesAsync returns or throws against the stored entries. */
  function SearchOutcome(entries: seq<Entry>, searchModel: Option<SearchModel>, sortModel: Option<SortModel>): Result<SearchPage>
  {
    if searchModel.None? then Err(NullArgument(SearchDataMissing))
    else if sortModel.None? then Err(NullArgument(SortDataMissing))
    else
      match SearchVerdict(searchModel.value)
      case Err(e) => Err(e)
      case Ok(queries) =>
        var m := PageReset(searchModel.value, queries);
        var all := Ordered(entries, m.userId, queries, m, sortModel.value.sortBy, sortModel.value.orderBy);
        var page := Take(Skip(all, (m.pageNumber - 1) * m.pageSize), m.pageSize);
        Ok(SearchPage(ToEntryResponses(page), m.(totalRecords := |Matching(entries, m.userId, queries, m)|)))
  }

  /** The outcome of a search whose criteria the validator accepted. */
  lemma AcceptedSearch(entries: seq<Entry>, m: SearchModel, sortModel: SortModel, queries: seq<SearchFilter>)
    requires SearchVerdict(m) == Ok(queries)
    ensures var m1 := PageReset(m, queries);
            SearchOutcome(entries, Some(m), Some(sortModel)) ==
              Ok(SearchPage(ToEntryResponses(Take(Skip(Ordered(entries, m1.userId, queries, m1, sortModel.sortBy, sortModel.orderBy),
                                                       (m1.pageNumber - 1) * m1.pageSize), m1.pageSize)),
                            m1.(totalRecords := |Matching(entries, m1.userId, queries, m1)|)))
  {
  }

  /** A search fails exactly for a missing model or invalid criteria, with
      every broken rule in the message; otherwise the page number is reset
      exactly when some filter field is set and the request is not a page
      change, and nothing else in the model but the count changes. */
  lemma SearchOutcomeMeaning(entries: seq<Entry>, searchModel: Option<SearchModel>, sortModel: Option<SortModel>)
    ensures var r := SearchOutcome(entries, searchModel, sortModel);
            && (r.Ok? <==> searchModel.Some? && sortModel.Some? && SearchCriteriaValid(searchModel.value))
            && (searchModel.Some? && sortModel.Some? && !SearchCriteriaValid(searchModel.value) ==>
                  r == Err(Rejection(SearchErrors(searchModel.value))))
            && (r.Ok? ==>
                  var m := searchModel.value;
                  var reset := (exists f :: FilterPresent(m, f)) && !m.isPagination;
                  r.value.model == m.(pageNumber := if reset then 1 else m.pageNumber,
                                      totalRecords := r.value.model.totalRecords))
  {
    if searchModel.Some? && sortModel.Some? {
      var m := searchModel.value;
      SearchErrorsEmpty(m);
      if SearchCriteriaValid(m) {
        ActiveFiltersWhenValid(m);
        var queries := ActiveFilters(m);
        if |queries| > 0 {
          assert queries[0] in queries;
        }
        if exists f :: FilterPresent(m, f) {
          var f :| FilterPresent(m, f);
          assert f in queries;
        }
      }
    }
  }

  /** A valid search returns the responses of one page of matches and the
      model with the page reset applied and the count of every match. */
  lemma ValidSearchOutcome(entries: seq<Entry>, m: SearchModel, sortModel: SortModel)
    requires SearchCriteriaValid(m)
    ensures SearchOutcome(entries, Some(m), Some(sortModel)) ==
              Ok(SearchPage(ToEntryResponses(SearchedEntries(entries, m, sortModel)),
                            PageReset(m, ActiveFilters(m)).(totalRecords := |Matching(entries, m.userId, ActiveFilters(m), m)|)))
  {
    SearchErrorsEmpty(m);
    var queries := ActiveFilters(m);
    assert SearchVerdict(m) == Ok(queries);
    AcceptedSearch(entries, m, sortModel, queries);
    var m1 := PageReset(m, queries);
    assert m1.userId == m.userId;
    MatchingSameCriteria(entries, m.userId, queries, m, m1);
  }

  /** Every response of a valid search shows a stored entry of the searching
      user that meets every set criterion, and the page holds at most
      PageSize responses. */
  lemma SearchResultsMatch(entries: seq<Entry>, m: SearchModel, sortModel: SortModel)
    requires SearchCriteriaValid(m)
    ensures var page := ToEntryResponses(SearchedEntries(entries, m, sortModel));
            && |page| <= Max(0, m.pageSize)
            && forall i :: 0 <= i < |page| ==>
                 exists e :: e in entries && e.userId == m.userId && page[i] == ToEntryResponse(e) &&
                   forall f :: FilterPresent(m, f) ==> ClauseHolds(f, e, m)
  {
    var found := SearchedEntries(entries, m, sortModel);
    var page := ToEntryResponses(found);
    SearchedEntriesMatch(entries, m, sortModel);
    forall i | 0 <= i < |page|
      ensures exists e :: e in entries && e.userId == m.userId && page[i] == ToEntryResponse(e) &&
                forall f :: FilterPresent(m, f) ==> ClauseHolds(f, e, m)
    {
      var e := found[i];
      assert e in found;
      assert page[i] == ToEntryResponse(e);
    }
  }

  /** The entries of the page a valid search returns. */
  function SearchedEntries(entries: seq<Entry>, m: SearchModel, sortModel: SortModel): seq<Entry>
  {
    var queries := ActiveFilters(m);
    var m1 := PageReset(m, queries);
    var all := Ordered(entries, m1.userId, queries, m1, sortModel.sortBy, sortModel.orderBy);
    Take(Skip(all, (m1.pageNumber - 1) * m1.pageSize), m1.pageSize)
  }

  lemma SearchedEntriesMatch(entries: seq<Entry>, m: SearchModel, sortModel: SortModel)
    requires SearchCriteriaValid(m)
    ensures var page := SearchedEntries(entries, m, sortModel);
            && |page| <= Max(0, m.pageSize)
            && forall e :: e in page ==>
                 e in entries && e.userId == m.userId && forall f :: FilterPresent(m, f) ==> ClauseHolds(f, e, m)
  {
    var queries := ActiveFilters(m);
    var m1 := PageReset(m, queries);
    RetrievedPage(entries, m1.userId, queries, m1, sortModel.sortBy, sortModel.orderBy,
                  (m1.pageNumber - 1) * m1.pageSize, m1.pageSize);
    forall e | e in SearchedEntries(entries, m, sortModel)
      ensures forall f :: FilterPresent(m, f) ==> ClauseHolds(f, e, m)
    {
      ActiveClausesCover(m, e);
    }
  }

  /** An entry meeting the clause of every active filter meets every set criterion. */
  lemma ActiveClausesCover(m: SearchModel, e: Entry)
    requires SearchCriteriaValid(m)
    requires AllHold(ActiveFilters(m), e, PageReset(m, ActiveFilters(m)))
    ensures forall f :: FilterPresent(m, f) ==> ClauseHolds(f, e, m)
  {
    ActiveFiltersWhenValid(m);
    var queries := ActiveFilters(m);
    forall f | FilterPresent(m, f) ensures ClauseHolds(f, e, m) {
      var k :| 0 <= k < |queries| && queries[k] == f;
      assert ClauseHolds(queries[k], e, PageReset(m, queries));
    }
  }

  /** The clauses read only the criteria, not the paging fields. */
  lemma {:induction false} MatchingSameCriteria(s: seq<Entry>, userId: Guid, queries: seq<SearchFilter>, m: SearchModel, m1: SearchModel)
    requires m1 == m.(pageNumber := m1.pageNumber)
    ensures Matching(s, userId, queries, m1) == Matching(s, userId, queries, m)
  {
    if |queries| > 0 {
      MatchingSameCriteria(s, userId, queries[..|queries| - 1], m, m1);
      var f := queries[|queries| - 1];
      FilterSame(Matching(s, userId, queries[..|queries| - 1], m),
                 (e: Entry) => ClauseHolds(f, e, m1), (e: Entry) => ClauseHolds(f, e, m));
    }
  }

  // -----------------------------------------------------------------------
  // Sorting a list of responses.
  // -----------------------------------------------------------------------

  /** The key the in-memory sort orders responses by. */
  function SortKey(o: SortOrder): EntryResponse -> Key
  {
    (x: EntryResponse) => ResponseKey(o.field, x)
  }

  /** SortEntries: a missing list or sort model is rejected; otherwise the
      list is reordered by the (SortBy, OrderBy) table's key and direction,
      keeping the input order among equal keys. */
  function SortEntries(unsortedList: Option<seq<EntryResponse>>, sortModel: Option<SortModel>): (r: Result<seq<EntryResponse>>)
    ensures unsortedList.None? || sortModel.None? ==> r == Err(NullArgument(SortDataMissing))
    ensures unsortedList.Some? && sortModel.Some? ==>
              var o := SortOrderOf(sortModel.value.sortBy, sortModel.value.orderBy);
              && r.Ok?
              && multiset(r.value) == multiset(unsortedList.value)
              && SortedBy(r.value, SortKey(o), o.descending)
              && forall k :: WithKey(r.value, SortKey(o), k) == WithKey(unsortedList.value, SortKey(o), k)
  {
    if unsortedList.None? || sortModel.None? then Err(NullArgument(SortDataMissing))
    else
      var o := SortOrderOf(sortModel.value.sortBy, sortModel.value.orderBy);
      StableSortCorrect(unsortedList.value, SortKey(o), o.descending);
      Ok(StableSort(unsortedList.value, SortKey(o), o.descending))
  }

  // -----------------------------------------------------------------------
  // Card totals.
  // -----------------------------------------------------------------------

  /** Sum of the amounts. */
  function AmountSum(s: seq<Entry>): int
  {
    if |s| == 0 then 0 else s[0].amount + AmountSum(s[1..])
  }

  function InCategory(s: seq<Entry>, c: int): seq<Entry>
  {
    Filter(s, (e: Entry) => e.category == c)
  }

  function Uncategorised(s: seq<Entry>): seq<Entry>
  {
    Filter(s, (e: Entry) => !IsCategory(e.category))
  }

  /** The total splits into the NEEDS total, the WANTS total and the total of
      entries with no valid category. */
  lemma {:induction false} AmountSumSplits(s: seq<Entry>)
    ensures AmountSum(s) == AmountSum(InCategory(s, NEEDS)) + AmountSum(InCategory(s, WANTS)) + AmountSum(Uncategorised(s))
  {
    if |s| > 0 {
      AmountSumSplits(s[1..]);
      AmountSumFilterCons(s, (e: Entry) => e.category == NEEDS);
      AmountSumFilterCons(s, (e: Entry) => e.category == WANTS);
      AmountSumFilterCons(s, (e: Entry) => !IsCategory(e.category));
    }
  }

  /** The dashboard card over one owner's entries: the sum of all their
      amounts, of their WANTS amounts and of their NEEDS amounts. */
  function CardTotals(entries: seq<Entry>, userId: Guid): (c: CardDisplay)
    ensures c.totalExpenses == c.totalNeeds + c.totalWants + AmountSum(Uncategorised(WhereOwner(entries, userId)))
  {
    var mine := WhereOwner(entries, userId);
    AmountSumSplits(mine);
    CardDisplay(AmountSum(mine), AmountSum(InCategory(mine, WANTS)), AmountSum(InCategory(mine, NEEDS)))
  }

  /** Three entries of one owner, 100 NEEDS, 200 WANTS and 50 NEEDS, beside
      an entry of another owner: the card shows 350 in all, 200 WANTS and
      150 NEEDS, and the other owner's amount is not counted. */
  lemma CardTotalsExample()
    ensures var rent := Entry(1, Some("Rent"), 100, 0, None, NEEDS, None, None, 7);
            var film := Entry(2, Some("Film"), 200, 0, None, WANTS, None, None, 7);
            var food := Entry(3, Some("Food"), 50, 0, None, NEEDS, None, None, 7);
            var other := Entry(4, Some("Rent"), 999, 0, None, NEEDS, None, None, 8);
            CardTotals([rent, film, food, other], 7) == CardDisplay(350, 200, 150)
  {
    var rent := Entry(1, Some("Rent"), 100, 0, None, NEEDS, None, None, 7);
    var film := Entry(2, Some("Film"), 200, 0, None, WANTS, None, None, 7);
    var food := Entry(3, Some("Food"), 50, 0, None, NEEDS, None, None, 7);
    var other := Entry(4, Some("Rent"), 999, 0, None, NEEDS, None, None, 8);
    CardExampleOwner(rent, film, food, other);
    CardExampleCategories(rent, film, food);
    CardExampleSums(rent, film, food);
  }

  lemma CardExampleOwner(a: Entry, b: Entry, c: Entry, d: Entry)
    requires a.userId == b.userId == c.userId == 7 && d.userId == 8
    ensures WhereOwner([a, b, c, d], 7) == [a, b, c]
  {
    assert WhereOwner([d], 7) == [] by { assert [d][1..] == []; }
    assert WhereOwner([c, d], 7) == [c] by { assert [c, d][1..] == [d]; }
    assert WhereOwner([b, c, d], 7) == [b, c] by { assert [b, c, d][1..] == [c, d]; }
    assert [a, b, c, d][1..] == [b, c, d];
  }

  lemma CardExampleCategories(a: Entry, b: Entry, c: Entry)
    requires a.category == c.category == NEEDS && b.category == WANTS
    ensures InCategory([a, b, c], NEEDS) == [a, c] && InCategory([a, b, c], WANTS) == [b]
  {
    assert InCategory([c], NEEDS) == [c] && InCategory([c], WANTS) == [] by { assert [c][1..] == []; }
    assert InCategory([b, c], NEEDS) == [c] && InCategory([b, c], WANTS) == [b] by { assert [b, c][1..] == [c]; }
    assert [a, b, c][1..] == [b, c];
  }

  lemma CardExampleSums(a: Entry, b: Entry, c: Entry)
    requires a.amount == 100 && b.amount == 200 && c.amount == 50
    ensures AmountSum([a, b, c]) == 350 && AmountSum([a, c]) == 150 && AmountSum([b]) == 200
  {
    assert AmountSum([c]) == 50 by { assert [c][1..] == []; }
    assert AmountSum([b]) == 200 by { assert [b][1..] == []; }
    assert AmountSum([a, c]) == 150 by { assert [a, c][1..] == [c]; }
    assert AmountSum([b, c]) == 250 by { assert [b, c][1..] == [c]; }
    assert [a, b, c][1..] == [b, c];
  }

  /** Every response made from a sequence of one owner's entries is the
      response of a stored entry of that owner. */
  lemma ResponsesOfOwner(entries: seq<Entry>, all: seq<Entry>, userId: Guid)
    requires forall e :: e in entries <==> e in all && e.userId == userId
    ensures var r := ToEntryResponses(entries);
            forall i :: 0 <= i < |r| ==> exists e :: e in all && e.userId == userId && r[i] == ToEntryResponse(e)
  {
    var r := ToEntryResponses(entries);
    assert forall i :: 0 <= i < |r| ==> entries[i] in entries && r[i] == ToEntryResponse(entries[i]);
  }

  lemma AmountSumFilterCons(s: seq<Entry>, p: Entry -> bool)
    requires |s| > 0
    ensures AmountSum(Filter(s, p)) == (if p(s[0]) then s[0].amount else 0) + AmountSum(Filter(s[1..], p))
  {
    var rest := Filter(s[1..], p);
    if p(s[0]) {
      assert ([s[0]] + rest)[1..] == rest;
    } else {
      assert Filter(s, p) == rest;
    }
  }

  /** Entries with no valid category add nothing to any filtered total when
      there are none. */
  lemma {:induction false} UncategorisedEmpty(s: seq<Entry>)
    requires forall k :: 0 <= k < |s| ==> IsCategory(s[k].category)
    ensures Uncategorised(s) == []
  {
    if |s| > 0 {
      UncategorisedEmpty(s[1..]);
    }
  }

  lemma OwnerEntriesCategorised(s: seq<Entry>, userId: Guid)
    ensures (forall e :: e in s && e.userId == userId ==> IsCategory(e.category)) ==>
              Uncategorised(WhereOwner(s, userId)) == []
  {
    var mine := WhereOwner(s, userId);
    if forall e :: e in s && e.userId == userId ==> IsCategory(e.category) {
      assert forall k :: 0 <= k < |mine| ==> mine[k] in mine;
      UncategorisedEmpty(mine);
    }
  }

  // -----------------------------------------------------------------------
  // The service.
  // -----------------------------------------------------------------------

  class EntryService {
    var repository: EntryRepository

    ghost predicate Valid()
      reads this, repository
    {
      repository.Valid()
    }

    constructor(entryRepository: EntryRepository)
      ensures repository == entryRepository
    {
      repository := entryRepository;
    }

    /** CreateEntryAsync, with the new Id and the clock reading as inputs. */
    method CreateEntry(request: Option<AddRequest.EntryAddRequest>, newId: Guid, now: int) returns (r: Result<EntryResponse>)
      requires Valid()
      requires forall k :: 0 <= k < |repository.entries| ==> repository.entries[k].id != newId
      modifies repository
      ensures Valid()
      ensures r == CreateOutcome(request, newId, now)
      ensures r.Ok? ==> repository.entries == old(repository.entries) + [NewEntry(request.value, newId, now)]
      ensures r.Err? ==> repository.entries == old(repository.entries)
    {
      if request.None? {
        return Err(NullArgument(RequestParam));
      }
      var verdict := ValidateAddRequest(request.value);
      if verdict.Fail? {
        return Err(verdict.error);
      }
      var newEntry := AddRequest.ToEntry(request.value, now);
      newEntry := newEntry.(id := newId);
      newEntry := newEntry.(createDt := Some(now));
      var _ := repository.CreateEntry(newEntry);
      return Ok(ToEntryResponse(newEntry));
    }

    /** GetEntryAsync: the empty Id is rejected; an unknown Id gives no entry. */
    function GetEntry(entryId: Guid): (r: Result<Option<EntryResponse>>)
      reads this, repository
      ensures entryId == EmptyGuid ==> r == Err(NullArgument(IdEmpty))
      ensures entryId != EmptyGuid ==>
                && r.Ok?
                && (r.value.Some? <==> exists k :: 0 <= k < |repository.entries| && repository.entries[k].id == entryId)
                && (r.value.Some? ==>
                      r.value.value.id == entryId &&
                      exists e :: e in repository.entries && r.value.value == ToEntryResponse(e))
    {
      if entryId == EmptyGuid then Err(NullArgument(IdEmpty))
      else
        var found := repository.RetrieveEntryById(entryId);
        if found.None? then Ok(None) else Ok(Some(ToEntryResponse(found.value)))
    }

    /** GetEntriesAsync: the user's entries as responses, newest first. */
    function GetEntries(userId: Guid): (r: seq<EntryResponse>)
      reads this, repository
      ensures r == ToEntryResponses(repository.RetrieveAllEntriesByUserId(userId))
      ensures exists s :: && multiset(s) == multiset(WhereOwner(repository.entries, userId))
                          && SortedBy(s, CreatedKey, true)
                          && r == ToEntryResponses(s)
      ensures |r| == repository.RetrieveTotalCount(userId)
      ensures forall i :: 0 <= i < |r| ==>
                exists e :: e in repository.entries && e.userId == userId && r[i] == ToEntryResponse(e)
    {
      var entries := repository.RetrieveAllEntriesByUserId(userId);
      ResponsesOfOwner(entries, repository.entries, userId);
      ToEntryResponses(entries)
    }

    /** SearchEntriesAsync: the null checks, validation, the page reset, and
        the repository query for one page. */
    method SearchEntries(searchModel: Option<SearchModel>, sortModel: Option<SortModel>) returns (r: Result<SearchPage>)
      ensures r == SearchOutcome(repository.entries, searchModel, sortModel)
    {
      if searchModel.None? {
        return Err(NullArgument(SearchDataMissing));
      }
      if sortModel.None? {
        return Err(NullArgument(SortDataMissing));
      }
      var m := searchModel.value;
      var verdict := ValidateSearchModel(m);
      if verdict.Err? {
        return Err(verdict.error);
      }
      var searchQueries := verdict.value;
      if |searchQueries| > 0 && !m.isPagination {
        m := m.(pageNumber := 1);
      }
      assert m == PageReset(searchModel.value, searchQueries);
      AcceptedSearch(repository.entries, searchModel.value, sortModel.value, searchQueries);
      var result, updated := repository.RetrieveAllEntries(m.userId, searchQueries, m,
                                                           sortModel.value.sortBy, sortModel.value.orderBy,
                                                           (m.pageNumber - 1) * m.pageSize, m.pageSize);
      return Ok(SearchPage(ToEntryResponses(result), updated));
    }

    /** UpdateEntryAsync, with the clock reading as input. */
    method UpdateEntry(request: Option<UpdateRequest.EntryUpdateRequest>, now: int) returns (r: Result<EntryResponse>)
      requires Valid()
      modifies repository
      ensures Valid()
      ensures r == UpdateOutcome(old(repository.entries), request, now)
      ensures r.Ok? ==> repository.entries == Updated(old(repository.entries), UpdateRequest.ToEntry(request.value, now), now)
      ensures r.Err? ==> repository.entries == old(repository.entries)
    {
      if request.None? {
        return Err(NullArgument(RequestParam));
      }
      var verdict := ValidateUpdateRequest(request.value);
      if verdict.Fail? {
        return Err(verdict.error);
      }
      var existing := repository.RetrieveEntryById(request.value.id);
      if existing.None? {
        return Err(InvalidArgument(EntryIdMissing));
      }
      var updated := repository.UpdateEntry(UpdateRequest.ToEntry(request.value, now), now);
      return Ok(ToEntryResponse(updated));
    }

    /** DeleteEntryAsync: false for an unknown Id; otherwise the entry is gone. */
    method DeleteEntry(entryId: Guid) returns (deleted: bool)
      requires Valid()
      modifies repository
      ensures Valid()
      ensures deleted <==> exists k :: 0 <= k < |old(repository.entries)| && old(repository.entries)[k].id == entryId
      ensures !deleted ==> repository.entries == old(repository.entries)
      ensures forall e :: e in repository.entries <==> e in old(repository.entries) && e.id != entryId
    {
      var existing := repository.RetrieveEntryById(entryId);
      if existing.None? {
        return false;
      }
      RemovedEffect(repository.entries, entryId);
      deleted := repository.DeleteEntry(entryId);
    }

    /** UpdateCardDisplayAsync: the user's total, WANTS total and NEEDS total. */
    function UpdateCardDisplay(searchModel: SearchModel): (c: CardDisplay)
      reads this, repository
      ensures c == CardTotals(repository.entries, searchModel.userId)
      ensures var mine := repository.RetrieveAllEntriesAsQueryable(searchModel.userId);
              && c.totalExpenses == AmountSum(mine)
              && c.totalNeeds == AmountSum(InCategory(mine, NEEDS))
              && c.totalWants == AmountSum(InCategory(mine, WANTS))
      ensures var mine := repository.RetrieveAllEntriesAsQueryable(searchModel.userId);
              c.totalExpenses == c.totalNeeds + c.totalWants + AmountSum(Uncategorised(mine))
      ensures (forall e :: e in repository.entries && e.userId == searchModel.userId ==> IsCategory(e.category)) ==>
                c.totalExpenses == c.totalNeeds + c.totalWants
    {
      OwnerEntriesCategorised(repository.entries, searchModel.userId);
      CardTotals(repository.entries, searchModel.userId)
    }
  }
}
