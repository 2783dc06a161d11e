/** EntryRepository: the entry store and the queries over it. The store is
    the sequence of persisted entries in the order the store enumerates them;
    Id is its key. */
module Repository {
  import opened Common
  import opened Ordering
  import opened Entities

  // -----------------------------------------------------------------------
  // Filtering.
  // -----------------------------------------------------------------------

  /** Where(p): the items satisfying p, in their order. */
  function Filter(s: seq<Entry>, p: Entry -> bool): (r: seq<Entry>)
    ensures |r| <= |s|
    ensures forall x :: x in r <==> x in s && p(x)
  {
    if |s| == 0 then []
    else (if p(s[0]) then [s[0]] else []) + Filter(s[1..], p)
  }

  /** Two Where calls in a row keep what one Where with both conditions keeps. */
  lemma {:induction false} FilterFilter(s: seq<Entry>, p: Entry -> bool, q: Entry -> bool)
    ensures Filter(Filter(s, p), q) == Filter(s, x => p(x) && q(x))
  {
    if |s| > 0 {
      FilterFilter(s[1..], p, q);
      var rest := Filter(s[1..], p);
      if p(s[0]) {
        assert Filter(s, p) == [s[0]] + rest;
        assert ([s[0]] + rest)[1..] == rest;
      } else {
        assert Filter(s, p) == rest;
      }
    }
  }

  /** Filtering keeps a sub-multiset of the items. */
  lemma {:induction false} FilterSubMultiset(s: seq<Entry>, p: Entry -> bool)
    ensures multiset(Filter(s, p)) <= multiset(s)
  {
    if |s| > 0 {
      FilterSubMultiset(s[1..], p);
      MultisetCons(s);
      var head := if p(s[0]) then [s[0]] else [];
      assert multiset(Filter(s, p)) == multiset(head) + multiset(Filter(s[1..], p));
    }
  }

  lemma MultisetCons<T>(s: seq<T>)
    requires |s| > 0
    ensures multiset(s) == multiset{s[0]} + multiset(s[1..])
  {
    assert s == [s[0]] + s[1..];
  }

  /** needle occurs in hay starting at position i. */
  predicate OccursAt(hay: string, needle: string, i: int)
  {
    0 <= i && i + |needle| <= |hay| && hay[i..i + |needle|] == needle
  }

  /** string.Contains: needle occurs in hay at some position. */
  function Contains(hay: string, needle: string): (r: bool)
    ensures r <==> exists i :: OccursAt(hay, needle, i)
  {
    if |needle| > |hay| then false
    else if hay[..|needle|] == needle then
      assert OccursAt(hay, needle, 0);
      true
    else
      var r := Contains(hay[1..], needle);
      assert r ==> exists i :: OccursAt(hay, needle, i) by {
        if r {
          var i :| OccursAt(hay[1..], needle, i);
          assert hay[1..][i..i + |needle|] == hay[i + 1..i + 1 + |needle|];
          assert OccursAt(hay, needle, i + 1);
        }
      }
      assert (exists i :: OccursAt(hay, needle, i)) ==> r by {
        if exists i :: OccursAt(hay, needle, i) {
          var i :| OccursAt(hay, needle, i);
          assert i != 0;
          assert hay[1..][i - 1..i - 1 + |needle|] == hay[i..i + |needle|];
          assert OccursAt(hay[1..], needle, i - 1);
        }
      }
      r
  }

  /** A nullable text column contains the search text; null contains nothing. */
  predicate ColumnContains(column: Option<string>, text: string)
  {
    column.Some? && Contains(column.value, text)
  }

  /** The clause one filter adds. A bound the search model does not hold
      compares as SQL NULL does: the clause is false. */
  predicate ClauseHolds(f: SearchFilter, e: Entry, m: SearchModel)
  {
    match f
    case SearchString =>
      m.searchString.Some? &&
      (ColumnContains(e.name, m.searchString.value) || ColumnContains(e.details, m.searchString.value))
    case MinAmount => m.minAmount.Some? && e.amount >= m.minAmount.value
    case MaxAmount => m.maxAmount.Some? && e.amount <= m.maxAmount.value
    case DateFrom => m.dateFrom.Some? && e.date >= m.dateFrom.value
    case DateTo => m.dateTo.Some? && e.date <= m.dateTo.value
    case Category => m.category.Some? && e.category == m.category.value
  }

  function WhereOwner(s: seq<Entry>, userId: Guid): seq<Entry>
  {
    Filter(s, (e: Entry) => e.userId == userId)
  }

  function Where(s: seq<Entry>, f: SearchFilter, m: SearchModel): seq<Entry>
  {
    Filter(s, (e: Entry) => ClauseHolds(f, e, m))
  }

  /** The owner's entries with one Where per filter, in the filters' order. */
  function Matching(s: seq<Entry>, userId: Guid, queries: seq<SearchFilter>, m: SearchModel): seq<Entry>
  {
    if |queries| == 0 then WhereOwner(s, userId)
    else Where(Matching(s, userId, queries[..|queries| - 1], m), queries[|queries| - 1], m)
  }

  /** Every clause of the filter list holds. */
  predicate AllHold(queries: seq<SearchFilter>, e: Entry, m: SearchModel)
  {
    forall k :: 0 <= k < |queries| ==> ClauseHolds(queries[k], e, m)
  }

  /** The chain of Where calls is one conjunctive filter: the owner clause and
      one clause per filter. */
  lemma {:induction false} MatchingIsConjunction(s: seq<Entry>, userId: Guid, queries: seq<SearchFilter>, m: SearchModel)
    ensures Matching(s, userId, queries, m) == Filter(s, (e: Entry) => e.userId == userId && AllHold(queries, e, m))
  {
    var owner := (e: Entry) => e.userId == userId;
    if |queries| == 0 {
      FilterSame(s, owner, (e: Entry) => e.userId == userId && AllHold(queries, e, m));
    } else {
      var init := queries[..|queries| - 1];
      var f := queries[|queries| - 1];
      MatchingIsConjunction(s, userId, init, m);
      var p := (e: Entry) => e.userId == userId && AllHold(init, e, m);
      var q := (e: Entry) => ClauseHolds(f, e, m);
      FilterFilter(s, p, q);
      forall e ensures (p(e) && q(e)) == (e.userId == userId && AllHold(queries, e, m)) {
        AllHoldSnoc(queries, e, m);
      }
      FilterSame(s, x => p(x) && q(x), (e: Entry) => e.userId == userId && AllHold(queries, e, m));
    }
  }

  lemma AllHoldSnoc(queries: seq<SearchFilter>, e: Entry, m: SearchModel)
    requires |queries| > 0
    ensures AllHold(queries, e, m) <==>
              AllHold(queries[..|queries| - 1], e, m) && ClauseHolds(queries[|queries| - 1], e, m)
  {
    var init := queries[..|queries| - 1];
    if AllHold(init, e, m) && ClauseHolds(queries[|queries| - 1], e, m) {
      forall k | 0 <= k < |queries| ensures ClauseHolds(queries[k], e, m) {
        if k < |init| {
          assert queries[k] == init[k];
        }
      }
    }
    if AllHold(queries, e, m) {
      forall k | 0 <= k < |init| ensures ClauseHolds(init[k], e, m) {
        assert init[k] == queries[k];
      }
    }
  }

  lemma {:induction false} FilterSame(s: seq<Entry>, p: Entry -> bool, q: Entry -> bool)
    requires forall x :: p(x) == q(x)
    ensures Filter(s, p) == Filter(s, q)
  {
    if |s| > 0 {
      FilterSame(s[1..], p, q);
    }
  }

  /** An entry matches exactly when it is stored, belongs to the user, and
      every clause holds; with no filter that is every entry of the user. */
  lemma MatchingMembers(s: seq<Entry>, userId: Guid, queries: seq<SearchFilter>, m: SearchModel, e: Entry)
    ensures e in Matching(s, userId, queries, m) <==> e in s && e.userId == userId && AllHold(queries, e, m)
    ensures Matching(s, userId, [], m) == WhereOwner(s, userId)
  {
    MatchingIsConjunction(s, userId, queries, m);
  }

  /** Adding a filter can only remove entries. */
  lemma MatchingShrinks(s: seq<Entry>, userId: Guid, queries: seq<SearchFilter>, f: SearchFilter, m: SearchModel)
    ensures var before := Matching(s, userId, queries, m);
            var after := Matching(s, userId, queries + [f], m);
            |after| <= |before| && multiset(after) <= multiset(before)
  {
    var qs := queries + [f];
    assert qs[..|qs| - 1] == queries;
    FilterSubMultiset(Matching(s, userId, queries, m), (e: Entry) => ClauseHolds(f, e, m));
  }

  // -----------------------------------------------------------------------
  // Lookup by Id.
  // -----------------------------------------------------------------------

  /** The position of the first entry with the Id, or -1. */
  function IndexOfId(s: seq<Entry>, id: Guid): (i: int)
    ensures -1 <= i < |s|
    ensures i == -1 <==> forall k :: 0 <= k < |s| ==> s[k].id != id
    ensures i >= 0 ==> s[i].id == id && forall k :: 0 <= k < i ==> s[k].id != id
  {
    if |s| == 0 then -1
    else if s[0].id == id then 0
    else
      var j := IndexOfId(s[1..], id);
      if j == -1 then -1 else j + 1
  }

  /** No two stored entries share an Id. */
  predicate UniqueIds(s: seq<Entry>)
  {
    forall i, j :: 0 <= i < j < |s| ==> s[i].id != s[j].id
  }

  /** UpdateEntryAsync's assignments to the stored entry. */
  function Overwrite(stored: Entry, e: Entry, now: int): (r: Entry)
    ensures r.id == stored.id && r.userId == stored.userId && r.createDt == stored.createDt
    ensures r.name == e.name && r.amount == e.amount && r.date == e.date
    ensures r.category == e.category && r.details == e.details && r.updateDt == Some(now)
  {
    stored.(name := e.name, amount := e.amount, date := e.date, category := e.category,
            details := e.details, updateDt := Some(now))
  }

  /** The store after updating the entry with e's Id. */
  function Updated(s: seq<Entry>, e: Entry, now: int): seq<Entry>
  {
    var i := IndexOfId(s, e.id);
    if i < 0 then s else s[i := Overwrite(s[i], e, now)]
  }

  /** Updating overwrites the entry with the same Id and nothing else. */
  lemma UpdatedEffect(s: seq<Entry>, e: Entry, now: int)
    requires UniqueIds(s)
    ensures var r := Updated(s, e, now);
            && |r| == |s| && UniqueIds(r)
            && (forall k :: 0 <= k < |s| && s[k].id == e.id ==> r[k] == Overwrite(s[k], e, now))
            && (forall k :: 0 <= k < |s| && s[k].id != e.id ==> r[k] == s[k])
  {
  }

  /** The store without the entry at position i. */
  function Removed(s: seq<Entry>, i: int): (r: seq<Entry>)
    requires 0 <= i < |s|
    ensures |r| == |s| - 1
    ensures forall k :: 0 <= k < |r| ==> r[k] == if k < i then s[k] else s[k + 1]
  {
    s[..i] + s[i + 1..]
  }

  /** Deleting by Id takes out exactly the entry with that Id. */
  lemma RemovedEffect(s: seq<Entry>, id: Guid)
    requires UniqueIds(s) && IndexOfId(s, id) >= 0
    ensures var r := Removed(s, IndexOfId(s, id));
            && UniqueIds(r)
            && (forall x :: x in r <==> x in s && x.id != id)
            && multiset(r) + multiset{s[IndexOfId(s, id)]} == multiset(s)
  {
    var i := IndexOfId(s, id);
    RemovedKeepsUnique(s, i);
    RemovedKeepsOthers(s, i);
    RemovedDropsOne(s, i);
    MultisetWithout(s, i);
  }

  lemma MultisetWithout<T>(s: seq<T>, i: int)
    requires 0 <= i < |s|
    ensures multiset(s[..i] + s[i + 1..]) + multiset{s[i]} == multiset(s)
  {
    assert s == s[..i] + [s[i]] + s[i + 1..];
  }

  lemma RemovedKeepsUnique(s: seq<Entry>, i: int)
    requires UniqueIds(s) && 0 <= i < |s|
    ensures UniqueIds(Removed(s, i))
  {
    var r := Removed(s, i);
    forall a, b | 0 <= a < b < |r| ensures r[a].id != r[b].id {
      var a', b' := if a < i then a else a + 1, if b < i then b else b + 1;
      assert r[a] == s[a'] && r[b] == s[b'];
    }
  }

  lemma RemovedKeepsOthers(s: seq<Entry>, i: int)
    requires UniqueIds(s) && 0 <= i < |s|
    ensures forall x :: x in Removed(s, i) ==> x in s && x.id != s[i].id
  {
    var r := Removed(s, i);
    forall x | x in r ensures x in s && x.id != s[i].id {
      var k :| 0 <= k < |r| && r[k] == x;
      if k < i {
        assert x == s[k];
      } else {
        assert x == s[k + 1];
      }
    }
  }

  lemma RemovedDropsOne(s: seq<Entry>, i: int)
    requires 0 <= i < |s|
    ensures forall x :: x in s && x.id != s[i].id ==> x in Removed(s, i)
  {
    var r := Removed(s, i);
    forall x | x in s && x.id != s[i].id ensures x in r {
      var k :| 0 <= k < |s| && s[k] == x;
      if k < i {
        assert r[k] == x;
      } else {
        assert r[k - 1] == x;
      }
    }
  }

  // -----------------------------------------------------------------------
  // Ordering.
  // -----------------------------------------------------------------------

  /** The key OrderByDescending(CreateDt) uses; an unset time sorts as null. */
  function CreatedKey(e: Entry): Key
  {
    if e.createDt.None? then Absent else Num(e.createDt.value)
  }

  /** The matching entries ordered by the (SortBy, OrderBy) table. */
  function Ordered(s: seq<Entry>, userId: Guid, queries: seq<SearchFilter>, m: SearchModel,
                   sortBy: int, orderBy: int): seq<Entry>
  {
    var o := SortOrderOf(sortBy, orderBy);
    StableSort(Matching(s, userId, queries, m), (e: Entry) => EntryKey(o.field, e), o.descending)
  }

  /** One page of a sequence holds only its items, and a page of a sorted
      sequence is sorted. */
  lemma PageOfSorted<T>(s: seq<T>, key: T -> Key, descending: bool, toSkip: int, toTake: int)
    requires SortedBy(s, key, descending)
    ensures var page := Take(Skip(s, toSkip), toTake);
            SortedBy(page, key, descending) && multiset(page) <= multiset(s)
  {
    var page := Take(Skip(s, toSkip), toTake);
    SkipTakeSlice(s, toSkip, toTake);
    var from := Max(0, toSkip);
    if |page| > 0 {
      SliceSorted(s, key, descending, from, from + |page|);
      SliceSubMultiset(s, from, from + |page|);
    }
  }

  /** A slice of a sorted sequence is sorted. */
  lemma SliceSorted<T>(s: seq<T>, key: T -> Key, descending: bool, lo: int, hi: int)
    requires SortedBy(s, key, descending) && 0 <= lo <= hi <= |s|
    ensures SortedBy(s[lo..hi], key, descending)
  {
    var t := s[lo..hi];
    forall i, j | 0 <= i < j < |t| ensures !Precedes(key(t[j]), key(t[i]), descending) {
      assert t[i] == s[lo + i] && t[j] == s[lo + j];
    }
  }

  /** A slice holds no element more often than the whole sequence. */
  lemma SliceSubMultiset<T>(s: seq<T>, lo: int, hi: int)
    requires 0 <= lo <= hi <= |s|
    ensures multiset(s[lo..hi]) <= multiset(s)
  {
    assert s == s[..lo] + s[lo..hi] + s[hi..];
  }

  /** Every entry a search returns is the user's and passes every clause, the
      page is ordered by the chosen key, and the count is that of all matches. */
  lemma RetrievedPage(s: seq<Entry>, userId: Guid, queries: seq<SearchFilter>, m: SearchModel,
                      sortBy: int, orderBy: int, toSkip: int, toTake: int)
    ensures var o := SortOrderOf(sortBy, orderBy);
            var all := Ordered(s, userId, queries, m, sortBy, orderBy);
            var page := Take(Skip(all, toSkip), toTake);
            && |all| == |Matching(s, userId, queries, m)|
            && (forall e :: e in page ==> e in s && e.userId == userId && AllHold(queries, e, m))
            && SortedBy(page, (e: Entry) => EntryKey(o.field, e), o.descending)
            && |page| <= Max(0, toTake)
  {
    var o := SortOrderOf(sortBy, orderBy);
    var key := (e: Entry) => EntryKey(o.field, e);
    var matches := Matching(s, userId, queries, m);
    var all := Ordered(s, userId, queries, m, sortBy, orderBy);
    StableSortCorrect(matches, key, o.descending);
    assert |all| == |multiset(all)| == |multiset(matches)| == |matches|;
    PageOfSorted(all, key, o.descending, toSkip, toTake);
    SkipTakeWindow(all, toSkip, toTake);
    var page := Take(Skip(all, toSkip), toTake);
    forall e | e in page ensures e in s && e.userId == userId && AllHold(queries, e, m) {
      assert e in multiset(page);
      assert e in multiset(matches);
      MatchingMembers(s, userId, queries, m, e);
    }
  }

  /** The store. */
  class EntryRepository {
    var entries: seq<Entry>

    ghost predicate Valid()
      reads this
    {
      UniqueIds(entries)
    }

    constructor()
      ensures entries == [] && Valid()
    {
      entries := [];
    }

    /** CreateEntryAsync: adds the entry; the store's key forbids an Id it already holds. */
    method CreateEntry(entry: Entry) returns (r: Entry)
      requires Valid()
      requires forall k :: 0 <= k < |entries| ==> entries[k].id != entry.id
      modifies this
      ensures Valid()
      ensures entries == old(entries) + [entry] && r == entry
    {
      entries := entries + [entry];
      return entry;
    }

    /** RetrieveAllEntriesAsync: the owner clause, one clause per filter, the
        order from the (SortBy, OrderBy) table, the count of all matches
        written to the search model, then one page. */
    method RetrieveAllEntries(userId: Guid, searchQueries: seq<SearchFilter>, searchModel: SearchModel,
                              sortBy: int, orderBy: int, toSkip: int, toTake: int)
      returns (page: seq<Entry>, updatedModel: SearchModel)
      ensures updatedModel == searchModel.(totalRecords := |Matching(entries, userId, searchQueries, searchModel)|)
      ensures page == Take(Skip(Ordered(entries, userId, searchQueries, searchModel, sortBy, orderBy), toSkip), toTake)
    {
      var query := WhereOwner(entries, userId);
      var i := 0;
      while i < |searchQueries|
        invariant 0 <= i <= |searchQueries|
        invariant query == Matching(entries, userId, searchQueries[..i], searchModel)
      {
        assert searchQueries[..i + 1][..i] == searchQueries[..i];
        query := Where(query, searchQueries[i], searchModel);
        i := i + 1;
      }
      assert searchQueries[..i] == searchQueries;

      var total := |query|;
      var o := SortOrderOf(sortBy, orderBy);
      query := StableSort(query, (e: Entry) => EntryKey(o.field, e), o.descending);

      updatedModel := searchModel.(totalRecords := total);
      page := Take(Skip(query, toSkip), toTake);
    }

    /** RetrieveAllEntriesByUserIdAsync: the user's entries, newest first. */
    function RetrieveAllEntriesByUserId(userId: Guid): (r: seq<Entry>)
      reads this
      ensures multiset(r) == multiset(WhereOwner(entries, userId))
      ensures forall e :: e in r <==> e in entries && e.userId == userId
      ensures SortedBy(r, CreatedKey, true)
    {
      StableSortCorrect(WhereOwner(entries, userId), CreatedKey, true);
      var r := StableSort(WhereOwner(entries, userId), CreatedKey, true);
      assert forall e :: e in r <==> e in multiset(r);
      r
    }

    /** RetrieveEntryByIdAsync: the first entry with the Id, if any. */
    function RetrieveEntryById(id: Guid): (r: Option<Entry>)
      reads this
      ensures r.Some? <==> exists k :: 0 <= k < |entries| && entries[k].id == id
      ensures r.Some? ==> r.value in entries && r.value.id == id
    {
      var i := IndexOfId(entries, id);
      if i < 0 then None else Some(entries[i])
    }

    /** UpdateEntryAsync: overwrites the stored entry with the same Id (an
        unknown Id changes nothing) and returns its argument. */
    method UpdateEntry(entry: Entry, now: int) returns (r: Entry)
      requires Valid()
      modifies this
      ensures Valid()
      ensures entries == Updated(old(entries), entry, now) && r == entry
    {
      var i := IndexOfId(entries, entry.id);
      if i >= 0 {
        var existing := entries[i];
        existing := existing.(name := entry.name);
        existing := existing.(amount := entry.amount);
        existing := existing.(date := entry.date);
        existing := existing.(category := entry.category);
        existing := existing.(details := entry.details);
        existing := existing.(updateDt := Some(now));
        entries := entries[i := existing];
      }
      UpdatedEffect(old(entries), entry, now);
      return entry;
    }

    /** DeleteEntryAsync: false and no change for an unknown Id; otherwise
        removes that entry and reports true. */
    method DeleteEntry(id: Guid) returns (deleted: bool)
      requires Valid()
      modifies this
      ensures Valid()
      ensures deleted <==> old(RetrieveEntryById(id)).Some?
      ensures !deleted ==> entries == old(entries)
      ensures deleted ==> entries == Removed(old(entries), IndexOfId(old(entries), id))
    {
      var i := IndexOfId(entries, id);
      if i < 0 {
        return false;
      }
      RemovedEffect(entries, id);
      entries := entries[..i] + entries[i + 1..];
      return true;
    }

    /** RetrieveTotalCountAsync: the number of the user's entries. */
    function RetrieveTotalCount(userId: Guid): (n: nat)
      reads this
      ensures n == |RetrieveAllEntriesByUserId(userId)|
    {
      var r := RetrieveAllEntriesByUserId(userId);
      assert |r| == |multiset(r)|;
      |WhereOwner(entries, userId)|
    }

    /** RetrieveAllEntriesAsQueryable: the user's entries, unordered. */
    function RetrieveAllEntriesAsQueryable(userId: Guid): (r: seq<Entry>)
      reads this
      ensures forall e :: e in r <==> e in entries && e.userId == userId
    {
      WhereOwner(entries, userId)
    }
  }
}
