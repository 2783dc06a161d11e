# ExpensesTracker core, modelled in Dafny

ExpensesTracker is an ASP.NET Core application in which a signed-in user keeps
a ledger of expense entries. Each entry has a name, an amount, a date, optional
details and a category, NEEDS or WANTS. This project models the core of the
application and proves properties of the model:

- **The entry service (`EntryService`):**
  - its create, read, search, sort, update and delete operations;
  - the three validators that guard them: add request, update request and search model;
  - the pagination helpers: the visible page list with "..." markers, and the "current records" label;
  - the dashboard totals card.
- **The repository (`EntryRepository`):** the store of entries. The model covers:
  - the owner clause, the search clauses and the eight-way sort switch;
  - the record count, and skip/take paging;
  - lookup by id, the in-place field update, and deletion.
- **The DTOs:**
  - `EntryResponse`: its `ToEntryResponse` mapping and its `Equals`;
  - the two request types, each with its `ToEntry`.
- **`AccountController`:** the blank-field checks of its registration and sign-in forms.
- **`EntryController`:** the default sort order of the entry list.

## Modules
- `Common`:
  - Option, Result and the error kinds;
  - LINQ-style `Select`, `Skip` and `Take`;
  - `string.Join` and splitting on a separator;
  - `string.IsNullOrWhiteSpace`;
  - decimal text of natural numbers.
- `Ordering`:
  - sort keys and the order `OrderBy`/`OrderByDescending` put on them;
  - a stable insertion sort that stands for LINQ's stable sort.
- `Entities`:
  - the `Entry` entity, the search and sort models and the enumerations;
  - the (SortBy, OrderBy) switch.
- `Response`, `AddRequest` and `UpdateRequest`: the DTO files.
- `EntryValidation`: `ValidateAddRequest`, `ValidateUpdateRequest` and `ValidateSearchModel`.
- `Pagination`: `GeneratePageNumbers` and `UpdatePagination`.
- `Repository`: the class `EntryRepository`, whose store is a `seq<Entry>` field.
- `Service`: the class `EntryService` over an `EntryRepository`.
- `AccountValidation`: `UserIsValid` and `CredentialIsValid`.
- `EntryController`: the default sort.

## Conventions
- **Parameters for the environment.** Clocks and identifiers are parameters:
  - `now` stands for `DateTime.Now`;
  - `newId` stands for `Guid.NewGuid()`.
- **Nulls and exceptions.**
  - A nullable reference or value is an `Option`.
  - A thrown `ArgumentNullException` or `ArgumentException` is an `Err` carrying the text the code passes to the exception. For `ArgumentNullException` that text is the parameter name, which .NET wraps into a message of the form "Value cannot be null. (Parameter '…')". The model keeps the bare text.
- **Numbers.** Amounts are decimals and are held exactly as integers. Dates are day numbers.
- **Enumeration codes:**
  - the categories are NEEDS = 10 and WANTS = 20;
  - the sort fields are NAME = 100, AMOUNT = 200, DATE = 300 and CATEGORY = 400;
  - the declaration of `OrderOptions` is not part of this model, so ASCENDING = 1 and DESCENDING = 2 are assumed. All the model relies on is that they are distinct and non-zero.
- **Store order.**
  - The repository keeps its entries in a sequence, in insertion order.
  - `SortEntries` sorts a list in memory with LINQ to Objects, whose `OrderBy` is stable, so rows with equal sort keys keep their input order there.
  - The repository's queries are translated to SQL, where `ORDER BY` leaves the order of ties open. The model fixes those ties to store order too (see "Left out").
- **Text length.** `string.Length` counts UTF-16 code units. `Utf16Length` counts a character above U+FFFF as two, and the name, details and search-text limits use it.
- **The search model.**
  - C# mutates the search model in place: the page reset in `SearchEntriesAsync`, the record count in `RetrieveAllEntriesAsync`, and the page list and label in `UpdatePagination`.
  - The model returns the updated value instead.

Where the design description of the system and the code differ, the model follows the code:
- **The "current records" label** (`EntryService.cs:198-213`).
  - The upper bound is `P * S`. It becomes the total record count only when the current page is the last page.
  - So an empty result, with 0 pages, labels page 1 "1-10" rather than clamping to the total.
- **The add validator's owner check** (`EntryService.cs:282-286`).
  - The check on `UserId` comes after the throw and adds to a list nobody reads.
  - So an add request with an empty owner is not rejected. `ValidateAddRequest` states this.

## Model

| member | source | states |
|---|---|---|
| Common.Utf16Length | ExpensesTracker.Services/EntryService.cs:300 | `string.Length`: the number of UTF-16 code units, at least the number of characters and at most twice it |
| Common.Utf16LengthBasic | ExpensesTracker.Services/EntryService.cs:300 | a string inside the Basic Multilingual Plane has one code unit per character |
| Common.Utf16LengthSupplementary | ExpensesTracker.Services/EntryService.cs:300 | a string of characters above U+FFFF has two code units per character |
| Common.EmojiLength | ExpensesTracker.Services/EntryService.cs:300 | twenty-six emoji are twenty-six characters and fifty-two code units |
| Common.SkipTakeWindow | ExpensesTracker.Repositories/EntryRepository.cs:71 | `Skip(n).Take(m)` yields the elements starting at position max(0, n), as many as remain but at most max(0, m); negative counts clamp as LINQ to Objects does (SQL Server instead rejects a negative OFFSET; see "Left out") |
| Common.SplitJoin | ExpensesTracker.Services/EntryService.cs:344-347 | messages joined with a separator character that none of them contains split back into exactly those messages |
| Common.ParseNatToString | ExpensesTracker.Services/EntryService.cs:206-213 | the decimal text of a record number reads back as that number |
| Ordering.KeyLtStrictTotal | ExpensesTracker.Repositories/EntryRepository.cs:56-67 | the order on sort keys (null text first, then text compared ordinally, numbers by value) is irreflexive, transitive and total |
| Ordering.PrecedesOrder | ExpensesTracker.Repositories/EntryRepository.cs:56-67 | both the ascending and the descending order are strict total orders, and asymmetric |
| Ordering.Insert | ExpensesTracker.Services/EntryService.cs:86-115 | inserting an element adds exactly that element: one more element, multiset grows by it |
| Ordering.InsertSorted | ExpensesTracker.Services/EntryService.cs:86-115 | inserting into a sorted list keeps it sorted |
| Ordering.InsertWithKey | ExpensesTracker.Services/EntryService.cs:86-115 | an inserted element goes behind every element with an equal key, so the elements of each key keep their order |
| Ordering.StableSortCorrect | ExpensesTracker.Services/EntryService.cs:86-115 | the sort yields a sorted permutation of its input in which elements with equal keys keep their input order (the stability of `OrderBy`) |
| Ordering.StableSortSorted | ExpensesTracker.Services/EntryService.cs:86-115 | the sort's result is ordered by the key in the requested direction |
| Ordering.StableSortPermutes | ExpensesTracker.Services/EntryService.cs:86-115 | the sort's result has the same multiset of elements as its input |
| Ordering.StableSortKeepsTies | ExpensesTracker.Services/EntryService.cs:86-115 | for every key, the elements with that key appear in the result in their input order |
| Entities.SortOrderOf | ExpensesTracker.Repositories/EntryRepository.cs:56-67 | each of the eight listed (SortBy, OrderBy) pairs selects its field and direction; every other pair, the unbound (0, 0) included, selects name ascending |
| Entities.SortOrderOfListedPairs | ExpensesTracker.Services/EntryService.cs:86-111 | every sort order is selected by exactly one listed pair |
| Entities.NeedsBeforeWants | ExpensesTracker.Tests/EntryServiceTest.cs:476-481 | sorting by category puts NEEDS entries before WANTS entries ascending, and after them descending |
| Response.ToEntryResponse | ExpensesTracker.Models/DTOs/EntryResponse.cs:34-37 | the response carries the entry's id, name, amount, date, details and category unchanged |
| Response.ToEntryResponseDropsHidden | ExpensesTracker.Models/DTOs/EntryResponse.cs:34-37 | two entries map to the same response exactly when they agree on every field except owner, creation time and update time |
| Response.ToEntryResponses | ExpensesTracker.Services/EntryService.cs:74 | the mapped list has one response per entry, in the same order |
| Response.Equals | ExpensesTracker.Models/DTOs/EntryResponse.cs:20-27 | a response never equals null or an object of another type |
| Response.EqualsIsEquivalence | ExpensesTracker.Models/DTOs/EntryResponse.cs:26 | response equality is reflexive, symmetric and transitive, and ignores date, details and category |
| Response.EqualsOnEntries | ExpensesTracker.Models/DTOs/EntryResponse.cs:26 | the responses of two entries are equal exactly when the entries share id, name and amount |
| Response.ResponseKeyAgrees | ExpensesTracker.Services/EntryService.cs:86-115 | sorting responses by a field orders them as sorting their entries by that field would |
| AddRequest.ToEntry | ExpensesTracker.Models/DTOs/EntryAddRequest.cs:17 | the entry copies name, details and owner, has no id yet, is stamped as created now and not updated; a present amount, date or category is carried over, and an absent one takes its type default (amount 0, the default date, category code 0, which is neither NEEDS nor WANTS) |
| UpdateRequest.ToEntry | ExpensesTracker.Models/DTOs/EntryUpdateRequest.cs:18 | the entry copies id, name, details and owner, carries no creation time, is stamped as updated now; a present amount, date or category is carried over, and an absent one takes its type default (amount 0, the default date, category code 0) |
| EntryValidation.ValidateAddRequest | ExpensesTracker.Services/EntryService.cs:228-287 | rejects with the field messages in rule order, joined by newlines; passes exactly when all five field rules hold, whatever the owner id |
| EntryValidation.ValidateUpdateRequest | ExpensesTracker.Services/EntryService.cs:289-348 | rejects with all violated messages (the five field rules, then the owner rule) in order; passes exactly when the fields are valid and the owner id is not empty |
| EntryValidation.CheckFields | ExpensesTracker.Services/EntryService.cs:293-336 | the five field rules together collect exactly the messages of the violated rules, in order |
| EntryValidation.CheckName | ExpensesTracker.Services/EntryService.cs:293-304 | a missing name adds the empty-name message, one over 50 UTF-16 code units the length message, and nothing else is added |
| EntryValidation.CheckAmount | ExpensesTracker.Services/EntryService.cs:306-317 | a missing amount and a non-positive amount each add their own message |
| EntryValidation.CheckDate | ExpensesTracker.Services/EntryService.cs:319-323 | a missing date adds the date message |
| EntryValidation.CheckDetails | ExpensesTracker.Services/EntryService.cs:325-329 | details over 100 UTF-16 code units add the details message; absent details are accepted |
| EntryValidation.CheckCategory | ExpensesTracker.Services/EntryService.cs:331-336 | an absent category, or one that is neither NEEDS nor WANTS, adds the category message |
| EntryValidation.EmojiNameTooLong | ExpensesTracker.Services/EntryService.cs:300-303 | a name of twenty-six emoji is reported as too long, although it has fewer than fifty characters |
| EntryValidation.FieldErrorsEmpty | ExpensesTracker.Services/EntryService.cs:277-280 | no field message is collected exactly when all field rules hold |
| EntryValidation.UpdateErrorsEmpty | ExpensesTracker.Services/EntryService.cs:344-347 | an update request is let through exactly when its fields are valid and its owner id is not empty |
| EntryValidation.UpdateMessagesDistinct | ExpensesTracker.Services/EntryService.cs:293-342 | the six update messages are pairwise different, so each names one rule |
| EntryValidation.AddMessageIffViolation | ExpensesTracker.Services/EntryService.cs:232-275 | each add-request message appears exactly when its rule is violated |
| EntryValidation.UpdateMessageIffViolation | ExpensesTracker.Services/EntryService.cs:293-342 | each update-request message appears exactly when its rule is violated |
| EntryValidation.UpdateMessagesHaveNoNewline | ExpensesTracker.Services/EntryService.cs:293-342 | no message contains the newline that joins them |
| EntryValidation.RejectionListsEveryError | ExpensesTracker.Services/EntryService.cs:344-347 | splitting the rejection message at newlines gives back every violated message, in order |
| EntryValidation.ValidAddRequestGivesWellFormedEntry | ExpensesTracker.Models/DTOs/EntryAddRequest.cs:17 | a request the add validator accepts becomes an entry with a name of at most 50 UTF-16 code units, a positive amount, details of at most 100 code units and a real category, holding the requested values |
| EntryValidation.ValidUpdateRequestGivesWellFormedEntry | ExpensesTracker.Models/DTOs/EntryUpdateRequest.cs:18 | the same for a request the update validator accepts |
| EntryValidation.ValidateSearchModel | ExpensesTracker.Services/EntryService.cs:350-459 | rejects with every violated search message joined by newlines; otherwise returns exactly the filters present in the model, each once, in rule order |
| EntryValidation.CheckSearchString | ExpensesTracker.Services/EntryService.cs:355-366 | search text over 50 UTF-16 code units is an error; shorter text activates the text filter |
| EntryValidation.CheckAmountRange | ExpensesTracker.Services/EntryService.cs:368-410 | with both bounds: each non-positive bound and an inverted range add their messages, and the bounds activate together only if the range is ordered; a single bound is checked and activated alone |
| EntryValidation.CheckDateRange | ExpensesTracker.Services/EntryService.cs:412-432 | an inverted date range is an error; an ordered range activates both bounds; a single bound activates alone |
| EntryValidation.CheckSearchCategory | ExpensesTracker.Services/EntryService.cs:434-445 | a category other than NEEDS or WANTS is an error; a valid one activates the category filter |
| EntryValidation.SearchErrorsEmpty | ExpensesTracker.Services/EntryService.cs:453-456 | no search message is collected exactly when the search criteria are valid |
| EntryValidation.SearchMessagesDistinct | ExpensesTracker.Services/EntryService.cs:355-451 | the seven search messages are pairwise different |
| EntryValidation.SearchMessageIffViolation | ExpensesTracker.Services/EntryService.cs:355-451 | each search message appears exactly when its rule is violated |
| EntryValidation.ActiveFiltersWhenValid | ExpensesTracker.Services/EntryService.cs:355-458 | for valid criteria the active filters are exactly the filters present, without repeats, in rule order |
| EntryValidation.ActiveFilterIffPresent | ExpensesTracker.Services/EntryService.cs:355-445 | for valid criteria a filter is active exactly when its value is present |
| EntryValidation.InvertedRangeRejected | ExpensesTracker.Services/EntryService.cs:379-417 | a minimum amount above the maximum, or a start date after the end date, makes the search fail with the range message |
| Pagination.Run | ExpensesTracker.Services/EntryService.cs:494 | a run of pages lists the consecutive page numbers from its start |
| Pagination.Window | ExpensesTracker.Services/EntryService.cs:468-481 | when the pages do not all fit, the window lies within the pages, holds exactly the visible count, contains the current page, and is centred on it when it does not touch an end |
| Pagination.GeneratePageNumbers | ExpensesTracker.Services/EntryService.cs:461-506 | the page list built step by step equals the specification of the page list |
| Pagination.MarkerHidesPages | ExpensesTracker.Services/EntryService.cs:485-503 | every "..." stands between two page numbers and hides at least one page |
| Pagination.WindowedParts | ExpensesTracker.Services/EntryService.cs:483-505 | the list starts at page 1 and continues up to the window's end; then nothing follows if the window reaches the last page, the last page alone if it is adjacent, and "..." with the last page otherwise |
| Pagination.PageNumbersSpaced | ExpensesTracker.Services/EntryService.cs:461-506 | page numbers ascend, neighbours are consecutive pages, and a "..." never opens, closes or doubles the list |
| Pagination.PageNumbersHoldCurrent | ExpensesTracker.Services/EntryService.cs:468-494 | the current page is always listed |
| Pagination.PageNumbersShape | ExpensesTracker.Services/EntryService.cs:461-506 | the list is spaced, lists only real pages, is empty exactly when there are no pages, runs from page 1 to the last page, holds the current page, lists every page when they fit, and has at most the visible count plus four items |
| Pagination.AllPagesShape | ExpensesTracker.Services/EntryService.cs:463-466 | when the pages fit, every page from 1 to the last is listed, and nothing else |
| Pagination.WindowedShape | ExpensesTracker.Services/EntryService.cs:483-505 | a windowed list runs from page 1 to the last page, lists only real pages, and is at most four items longer than its window |
| Pagination.PageCount | ExpensesTracker.Services/EntryService.cs:194 | the page count is the exact ceiling of records over page size |
| Pagination.UpdatePagination | ExpensesTracker.Services/EntryService.cs:190-214 | stores the page list for the page count and the five-page limit, and the records label; nothing else in the search model changes |
| Pagination.RecordRangeMatchesPage | ExpensesTracker.Services/EntryService.cs:198-204 | on an existing page the label's range lies within the records and counts exactly the records that page shows |
| Pagination.RecordsLabelParses | ExpensesTracker.Services/EntryService.cs:206-213 | the label is one number when the range is a single record and "first-last" otherwise; its parts are digit strings that read back as the range's bounds |
| Pagination.RecordRangePositive | ExpensesTracker.Services/EntryService.cs:198-204 | both ends of the range are at least 1 for every page from 1 on |
| Pagination.EmptyResultLabel | ExpensesTracker.Services/EntryService.cs:198-213 | with no records, page 1 of size 10 is labelled "1-10" |
| Pagination.LabelExamples | ExpensesTracker.Services/EntryService.cs:198-213 | with 47 records of 10 per page, page 3 reads "21-30" and page 5 reads "41-47"; with 41 records page 5 reads "41" |
| Repository.Filter | ExpensesTracker.Repositories/EntryRepository.cs:28 | `Where` keeps exactly the entries satisfying the predicate, and never more entries than it was given |
| Repository.FilterFilter | ExpensesTracker.Repositories/EntryRepository.cs:30-54 | two chained `Where` calls equal one `Where` with both conditions |
| Repository.FilterSubMultiset | ExpensesTracker.Repositories/EntryRepository.cs:30-54 | a `Where` only removes entries |
| Repository.Contains | ExpensesTracker.Repositories/EntryRepository.cs:35-36 | text contains a fragment exactly when the fragment occurs at some position |
| Repository.MatchingIsConjunction | ExpensesTracker.Repositories/EntryRepository.cs:28-54 | the owner clause and the clause of each active filter combine by AND |
| Repository.MatchingMembers | ExpensesTracker.Repositories/EntryRepository.cs:28-54 | an entry is in the query exactly when it is stored, belongs to the owner and satisfies every active clause; with no filters the query is the owner's entries |
| Repository.MatchingShrinks | ExpensesTracker.Repositories/EntryRepository.cs:30-54 | adding a filter never adds entries to the query |
| Repository.IndexOfId | ExpensesTracker.Repositories/EntryRepository.cs:81 | `FirstOrDefault` finds the first entry with the id, or reports that there is none |
| Repository.Overwrite | ExpensesTracker.Repositories/EntryRepository.cs:90-95 | the stored entry takes the new name, amount, date, category and details and the update time; its id, owner and creation time stay |
| Repository.UpdatedEffect | ExpensesTracker.Repositories/EntryRepository.cs:84-101 | updating overwrites the entry with the id in place, leaves every other entry as it was, and keeps ids unique |
| Repository.Removed | ExpensesTracker.Repositories/EntryRepository.cs:112 | removing one entry keeps the others in order |
| Repository.RemovedEffect | ExpensesTracker.Repositories/EntryRepository.cs:103-116 | deleting by id drops exactly the entry with that id and keeps ids unique |
| Repository.PageOfSorted | ExpensesTracker.Repositories/EntryRepository.cs:71 | a page of a sorted query is sorted and drawn from the query |
| Repository.RetrievedPage | ExpensesTracker.Repositories/EntryRepository.cs:26-72 | the record count is the number of matching entries; the page holds only the owner's matching entries, sorted by the selected order, at most the requested number |
| Repository.EntryRepository.constructor | ExpensesTracker.Repositories/EntryRepository.cs:13-16 | a new repository is empty |
| Repository.EntryRepository.CreateEntry | ExpensesTracker.Repositories/EntryRepository.cs:18-24 | the entry is appended to the store and returned; ids stay unique |
| Repository.EntryRepository.RetrieveAllEntries | ExpensesTracker.Repositories/EntryRepository.cs:26-72 | the loop over the search filters builds the conjunctive query; the result is the requested page of it in the selected order, and the record count is written back; a skip below 0 or a take below 1 is clamped as in LINQ to Objects, where SQL Server would fail (see "Left out") |
| Repository.EntryRepository.RetrieveAllEntriesByUserId | ExpensesTracker.Repositories/EntryRepository.cs:74-77 | exactly the owner's entries, newest creation first |
| Repository.EntryRepository.RetrieveEntryById | ExpensesTracker.Repositories/EntryRepository.cs:79-82 | finds a stored entry with the id exactly when one exists |
| Repository.EntryRepository.UpdateEntry | ExpensesTracker.Repositories/EntryRepository.cs:84-101 | the store becomes the updated store and the given entry is returned |
| Repository.EntryRepository.DeleteEntry | ExpensesTracker.Repositories/EntryRepository.cs:103-116 | reports success exactly when an entry with the id existed, and then removes that one entry; otherwise nothing changes |
| Repository.EntryRepository.RetrieveTotalCount | ExpensesTracker.Repositories/EntryRepository.cs:118-121 | the count equals the number of entries the owner has |
| Repository.EntryRepository.RetrieveAllEntriesAsQueryable | ExpensesTracker.Repositories/EntryRepository.cs:123-126 | exactly the owner's entries |
| Service.CreateOutcomeMeaning | ExpensesTracker.Services/EntryService.cs:21-37 | creation succeeds exactly when a request is given and its fields are valid; the stored entry is well formed, has the new id and the creation time, and the response echoes the request |
| Service.UpdateOutcomeMeaning | ExpensesTracker.Services/EntryService.cs:120-138 | an update succeeds exactly when the request is given, valid, carries a non-empty owner id and its id is stored (the code never checks that the stored entry belongs to that owner); then only that entry changes, and it takes the requested values and the update time |
| Service.SearchOutcomeMeaning | ExpensesTracker.Services/EntryService.cs:56-72 | a search fails on a missing model or sort model, and on invalid criteria with the joined messages; otherwise it returns the model with the page reset to 1 exactly when a filter is present and the request is not a page change; a page size below 1, or a page number below 1 after the reset, still succeeds here, although SQL Server rejects it (see "Left out") |
| Service.ValidSearchOutcome | ExpensesTracker.Services/EntryService.cs:67-74 | for valid criteria the result is the mapped page of the sorted query, and the model carries the matching record count |
| Service.SearchResultsMatch | ExpensesTracker.Services/EntryService.cs:56-75 | every response on the page comes from a stored entry of the owner that satisfies every filter present, and the page holds at most a page size of them |
| Service.SearchedEntriesMatch | ExpensesTracker.Services/EntryService.cs:67-74 | the entries on the page are the owner's and satisfy every filter present |
| Service.ActiveClausesCover | ExpensesTracker.Services/EntryService.cs:67-72 | satisfying the active clauses means satisfying every filter present in the model |
| Service.MatchingSameCriteria | ExpensesTracker.Services/EntryService.cs:68-72 | resetting the page number does not change which entries match |
| Service.SortEntries | ExpensesTracker.Services/EntryService.cs:77-118 | fails on a missing list or sort model; otherwise returns the same responses ordered by the selected order, ties in input order |
| Service.AmountSumSplits | ExpensesTracker.Services/EntryService.cs:220-222 | the sum of all amounts is the NEEDS sum plus the WANTS sum plus the sum over entries in neither category |
| Service.OwnerEntriesCategorised | ExpensesTracker.Services/EntryService.cs:220-222 | when all of the owner's entries are categorised, no amount falls outside the two category sums |
| Service.EntryService.constructor | ExpensesTracker.Services/EntryService.cs:16-19 | the service uses the given repository |
| Service.EntryService.CreateEntry | ExpensesTracker.Services/EntryService.cs:21-37 | returns the creation outcome; on success the new entry is appended to the store, on failure the store is unchanged |
| Service.EntryService.GetEntry | ExpensesTracker.Services/EntryService.cs:39-49 | an empty id is an error; otherwise it finds the stored entry with the id exactly when one exists and returns its response |
| Service.ResponsesOfOwner | ExpensesTracker.Services/EntryService.cs:51-54 | every response made from the owner's entries is the response of a stored entry of that owner |
| Service.EntryService.GetEntries | ExpensesTracker.Services/EntryService.cs:51-54 | returns the responses of the owner's entries, newest creation first: the response list of a sequence that holds exactly the owner's stored entries, each once, sorted by creation time descending; one response per entry |
| Service.EntryService.SearchEntries | ExpensesTracker.Services/EntryService.cs:56-75 | returns the search outcome over the current store |
| Service.EntryService.UpdateEntry | ExpensesTracker.Services/EntryService.cs:120-138 | returns the update outcome; on success the store is updated, on failure it is unchanged |
| Service.EntryService.DeleteEntry | ExpensesTracker.Services/EntryService.cs:140-152 | reports success exactly when the id was stored; then only the entries with other ids remain, otherwise the store is unchanged |
| Service.CardTotals | ExpensesTracker.Services/EntryService.cs:218-224 | the card over one owner's entries: its total is the NEEDS total plus the WANTS total plus the uncategorised amounts |
| Service.CardTotalsExample | ExpensesTracker.Services/EntryService.cs:218-224 | entries of 100 NEEDS, 200 WANTS and 50 NEEDS of one owner, beside an entry of another owner, give a card of 350 in all, 200 WANTS and 150 NEEDS |
| Service.EntryService.UpdateCardDisplay | ExpensesTracker.Services/EntryService.cs:216-225 | the card holds the owner's totals: all their amounts, their WANTS amounts and their NEEDS amounts, each in its own field; the total is the NEEDS total plus the WANTS total plus any uncategorised amounts, and exactly the sum of the two when every entry of the owner is categorised |
| AccountValidation.UserIsValid | ExpensesTracker/Controllers/AccountController.cs:227-249 | one message per blank registration field, in field order; valid exactly when name, email, phone and password are all non-blank |
| AccountValidation.CredentialIsValid | ExpensesTracker/Controllers/AccountController.cs:251-265 | one message per blank sign-in field; valid exactly when user name and password are both non-blank |
| AccountValidation.UserErrorsInFieldOrder | ExpensesTracker/Controllers/AccountController.cs:231-246 | the registration messages are those of the blank fields, in the order name, email, phone, password |
| AccountValidation.CredentialErrorsInFieldOrder | ExpensesTracker/Controllers/AccountController.cs:255-262 | the sign-in messages are those of the blank fields, user name first |
| AccountValidation.UserMessageIffBlank | ExpensesTracker/Controllers/AccountController.cs:231-246 | each registration message appears exactly when its field is blank |
| AccountValidation.CredentialErrorsOrder | ExpensesTracker/Controllers/AccountController.cs:255-262 | a blank user name is reported first, a blank password after it |
| EntryController.DefaultSortOrder | ExpensesTracker/Controllers/EntryController.cs:33-37 | an unbound sort model sorts by date, newest first, where it would otherwise fall back to name ascending; a listed model is kept, and the rule is idempotent |

## Left out
- `GetEntryBytesAsync` (CSV export): I/O through a stream writer and a CSV library; no logic of the core depends on it.
- Persistence and concurrency are not modelled. This covers asynchrony, Entity Framework and `SaveChangesAsync`, so each store operation is one atomic step on a sequence of entries.
- SQL translation, and the database collation that decides `Contains` and the ordering of names, are not modelled. Text is compared ordinally and case-sensitively.
- Service.SortEntries compares names ordinally. The C# code sorts in memory with LINQ to Objects and `Comparer<string>.Default`, which is culture-aware: it puts "apple" before "Banana", where the ordinal order puts "Banana" first.
- Repository.Ordered, Repository.RetrievedPage and Repository.EntryRepository.RetrieveAllEntries place rows with equal sort keys in store order. SQL `ORDER BY` leaves ties in any order, so the database may return them, and split them across pages, differently. Repository.EntryRepository.RetrieveAllEntriesByUserId does the same for equal creation times.
- Repository.EntryRepository.RetrieveAllEntries treats paging as LINQ to Objects does: a skip below 0 is taken as 0 and a take below 1 gives an empty page. The query actually runs on SQL Server as `OFFSET skip ROWS FETCH NEXT take ROWS ONLY`, and SQL Server rejects an OFFSET below 0 and a FETCH count below 1, so such a request fails in C# where the model returns a page.
- Service.SearchOutcomeMeaning promises success for every valid search, including two search models that fail in C#, because `ValidateSearchModel` never reads the paging fields and the query then hits SQL Server's OFFSET/FETCH rules:
  - a `PageSize` of 0 or less, passed as the take (`EntryService.cs:72`): the model returns an empty page with the record count;
  - a page number below 1 after the page reset (page number 0 with no filter, say), which makes `(PageNumber - 1) * PageSize` negative: the model returns the first page.
- Repository.EntryRepository.CreateEntry and Service.EntryService.CreateEntry require a fresh id. The database key and `Guid.NewGuid()` guarantee this, and the model takes it as given.
- Pagination.PageCount: the page count is the exact integer ceiling. The `float` division at `EntryService.cs:194` can round only for totals beyond 2^24 records.
- Pagination.UpdatePagination requires a positive page size and a non-negative record count. With a zero page size the C# `float` division yields infinity or NaN, and the page count is not meaningful. With a negative page size and a positive total the ceiling is zero or negative (15 records at page size -10 give -1). A negative count makes `Enumerable.Range(1, count)` throw `ArgumentOutOfRangeException`; a zero count gives an empty page list.
- Pagination.GeneratePageNumbers requires a non-negative page count and at least one visible page. Its only caller passes five.
- Decimal and `int` overflow are not modelled. Amounts, sums, record numbers and `(PageNumber - 1) * PageSize` are unbounded integers.
- Time is a single `now` parameter. The two reads of `DateTime.Now` during an update (one in `ToEntry`, one in the repository) are taken as the same instant, and creation time is likewise one value.
- The declaration of `OrderOptions` is not part of this model, and ASCENDING = 1, DESCENDING = 2 are assumed. The declaration of `EntryCategoryOptions` is not part of this model either, and NEEDS = 10, WANTS = 20 are assumed. The `ExpensesTracker.Tests/EntryServiceTest.cs` test at lines 476-481 shows NEEDS sorting first.
- `RegisterRequest.cs` is not part of this model. Only the four fields checked by `UserIsValid` are modelled.
- `ToString` and `GetHashCode` of `EntryResponse` are not modelled. Neither takes part in any behaviour of the core.
- The rest of `AccountController` and `EntryController` is not modelled: sign-in, registration, views and redirects. That is framework plumbing around the modelled checks.
- The search model's in-place updates are returned as new values. This covers the page reset, the record count, and the page list and label. Aliasing of the one object between the controller, the service and the repository is not captured.
