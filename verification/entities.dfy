/** The ledger's data: the persisted Entry, the search and sort request
    models, the enumeration codes, the card totals, and the (SortBy, OrderBy)
    table that picks a sort key and direction. */
module Entities {
  import opened Common
  import opened Ordering

  // EntryCategoryOptions: the two categories. Any other code (0, the
  // default of an absent nullable enum, among them) is not a category.
  const NEEDS: int := 10
  const WANTS: int := 20

  predicate IsCategory(c: int) { c == NEEDS || c == WANTS }

  // EntrySortOptions. 0, the default of an unbound field, is not a member.
  const NAME: int := 100
  const AMOUNT: int := 200
  const DATE: int := 300
  const CATEGORY: int := 400

  // OrderOptions: two distinct codes, neither of them 0.
  const ASCENDING: int := 1
  const DESCENDING: int := 2

  /** DateTime's default value; dates are day numbers. */
  const DefaultDate: int := 0

  /** A persisted ledger entry. Amounts are decimals held exactly as integers
      in their smallest unit; dates and timestamps are integers. */
  datatype Entry = Entry(
    id: Guid,
    name: Option<string>,
    amount: int,
    date: int,
    details: Option<string>,
    category: int,
    createDt: Option<int>,
    updateDt: Option<int>,
    userId: Guid)

  /** What the add and update validators guarantee of an entry they let through. */
  predicate WellFormed(e: Entry)
  {
    && e.name.Some? && Utf16Length(e.name.value) <= 50
    && e.amount > 0
    && (e.details.None? || Utf16Length(e.details.value) <= 100)
    && IsCategory(e.category)
  }

  datatype SortModel = SortModel(sortBy: int, orderBy: int)

  /** One item of the visible page list: a page number or the "..." marker. */
  datatype PageItem = PageNo(n: int) | Ellipsis

  const DefaultPageSize: int := 10
  const DefaultPageNumber: int := 1

  /** The search form with its pagination and display state. */
  datatype SearchModel = SearchModel(
    searchString: Option<string>,
    minAmount: Option<int>,
    maxAmount: Option<int>,
    dateFrom: Option<int>,
    dateTo: Option<int>,
    category: Option<int>,
    userId: Guid,
    totalRecords: int,
    currentRecords: Option<string>,
    pageSize: int,
    pageNumber: int,
    pageList: seq<PageItem>,
    pagesExceedLimit: bool,
    isPagination: bool)

  /** A search model as the form binder creates it when no field is given. */
  function BlankSearch(userId: Guid): SearchModel
  {
    SearchModel(None, None, None, None, None, None, userId, 0, None,
                DefaultPageSize, DefaultPageNumber, [], false, false)
  }

  /** The filters a search can activate, in the order they are applied. */
  datatype SearchFilter = SearchString | MinAmount | MaxAmount | DateFrom | DateTo | Category

  function FilterRank(f: SearchFilter): int
  {
    match f
    case SearchString => 0
    case MinAmount => 1
    case MaxAmount => 2
    case DateFrom => 3
    case DateTo => 4
    case Category => 5
  }

  datatype CardDisplay = CardDisplay(totalExpenses: int, totalWants: int, totalNeeds: int)

  // -----------------------------------------------------------------------
  // Sort resolution.
  // -----------------------------------------------------------------------

  datatype SortField = ByName | ByAmount | ByDate | ByCategory

  datatype SortOrder = SortOrder(field: SortField, descending: bool)

  /** The EntrySortOptions code of a sort field. */
  function FieldCode(f: SortField): int
  {
    match f
    case ByName => NAME
    case ByAmount => AMOUNT
    case ByDate => DATE
    case ByCategory => CATEGORY
  }

  predicate IsSortOption(code: int) { code == NAME || code == AMOUNT || code == DATE || code == CATEGORY }

  predicate IsOrderOption(code: int) { code == ASCENDING || code == DESCENDING }

  /** The switch over (SortBy, OrderBy): eight listed pairs, and ascending by
      name for every other pair. */
  function SortOrderOf(sortBy: int, orderBy: int): (o: SortOrder)
    ensures IsSortOption(sortBy) && IsOrderOption(orderBy) ==>
              FieldCode(o.field) == sortBy && o.descending == (orderBy == DESCENDING)
    ensures !(IsSortOption(sortBy) && IsOrderOption(orderBy)) ==> o == SortOrder(ByName, false)
  {
    if sortBy == NAME && orderBy == ASCENDING then SortOrder(ByName, false)
    else if sortBy == NAME && orderBy == DESCENDING then SortOrder(ByName, true)
    else if sortBy == AMOUNT && orderBy == ASCENDING then SortOrder(ByAmount, false)
    else if sortBy == AMOUNT && orderBy == DESCENDING then SortOrder(ByAmount, true)
    else if sortBy == DATE && orderBy == ASCENDING then SortOrder(ByDate, false)
    else if sortBy == DATE && orderBy == DESCENDING then SortOrder(ByDate, true)
    else if sortBy == CATEGORY && orderBy == ASCENDING then SortOrder(ByCategory, false)
    else if sortBy == CATEGORY && orderBy == DESCENDING then SortOrder(ByCategory, true)
    else SortOrder(ByName, false)
  }

  /** Every sort order is reached by exactly one listed (SortBy, OrderBy) pair. */
  lemma SortOrderOfListedPairs(o: SortOrder)
    ensures SortOrderOf(FieldCode(o.field), if o.descending then DESCENDING else ASCENDING) == o
    ensures forall b, d :: IsSortOption(b) && IsOrderOption(d) && SortOrderOf(b, d) == o ==>
              b == FieldCode(o.field) && d == (if o.descending then DESCENDING else ASCENDING)
  {
  }

  function OptionalText(s: Option<string>): Key
  {
    if s.None? then Absent else Text(s.value)
  }

  /** The key an entry is ordered by for a sort field. */
  function EntryKey(f: SortField, e: Entry): Key
  {
    match f
    case ByName => OptionalText(e.name)
    case ByAmount => Num(e.amount)
    case ByDate => Num(e.date)
    case ByCategory => Num(e.category)
  }

  /** Ordering entries by category puts NEEDS before WANTS. */
  lemma NeedsBeforeWants(a: Entry, b: Entry)
    requires a.category == NEEDS && b.category == WANTS
    ensures Precedes(EntryKey(ByCategory, a), EntryKey(ByCategory, b), false)
    ensures Precedes(EntryKey(ByCategory, b), EntryKey(ByCategory, a), true)
  {
  }
}
