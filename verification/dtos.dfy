/** EntryResponse: the view of an entry handed to the web layer, its
    conversion from Entry, and its Equals override. */
module Response {
  import opened Common
  import opened Ordering
  import opened Entities

  datatype EntryResponse = EntryResponse(
    id: Guid,
    name: Option<string>,
    amount: int,
    date: int,
    details: Option<string>,
    category: int)

  /** The argument of Equals(object?): null, an EntryResponse, or an object
      of some other type. */
  datatype Object = ResponseObject(response: EntryResponse) | OtherObject

  /** Entry.ToEntryResponse(): keeps the six displayed fields and drops the
      owner and the two timestamps. */
  function ToEntryResponse(e: Entry): (r: EntryResponse)
    ensures r.id == e.id && r.name == e.name && r.amount == e.amount
    ensures r.date == e.date && r.details == e.details && r.category == e.category
  {
    EntryResponse(e.id, e.name, e.amount, e.date, e.details, e.category)
  }

  /** The fields ToEntryResponse does not carry over, reset to fixed values. */
  function WithoutHiddenFields(e: Entry): Entry
  {
    e.(userId := EmptyGuid, createDt := None, updateDt := None)
  }

  /** Two entries give the same response exactly when they differ at most in
      owner, creation time and update time. */
  lemma ToEntryResponseDropsHidden(a: Entry, b: Entry)
    ensures ToEntryResponse(a) == ToEntryResponse(b) <==> WithoutHiddenFields(a) == WithoutHiddenFields(b)
  {
    if ToEntryResponse(a) == ToEntryResponse(b) {
      assert a.id == b.id && a.name == b.name && a.amount == b.amount;
    }
  }

  function ToEntryResponses(s: seq<Entry>): (r: seq<EntryResponse>)
    ensures |r| == |s| && forall i :: 0 <= i < |s| ==> r[i] == ToEntryResponse(s[i])
  {
    if |s| == 0 then [] else [ToEntryResponse(s[0])] + ToEntryResponses(s[1..])
  }

  /** EntryResponse.Equals(object?): false for null and for another type;
      otherwise Id, Name and Amount decide. */
  predicate Equals(self: EntryResponse, obj: Option<Object>)
    ensures obj.None? ==> !Equals(self, obj)
    ensures obj.Some? && obj.value.OtherObject? ==> !Equals(self, obj)
  {
    match obj
    case None => false
    case Some(OtherObject) => false
    case Some(ResponseObject(other)) =>
      self.id == other.id && self.name == other.name && self.amount == other.amount
  }

  /** Equals is an equivalence on responses, and date, details and category
      play no part in it. */
  lemma EqualsIsEquivalence(a: EntryResponse, b: EntryResponse, c: EntryResponse)
    ensures Equals(a, Some(ResponseObject(a)))
    ensures Equals(a, Some(ResponseObject(b))) == Equals(b, Some(ResponseObject(a)))
    ensures Equals(a, Some(ResponseObject(b))) && Equals(b, Some(ResponseObject(c))) ==> Equals(a, Some(ResponseObject(c)))
    ensures Equals(a, Some(ResponseObject(b))) <==>
              Equals(a.(date := c.date, details := c.details, category := c.category), Some(ResponseObject(b)))
  {
  }

  /** Equal responses of two entries means equal Id, Name and Amount. */
  lemma EqualsOnEntries(a: Entry, b: Entry)
    ensures Equals(ToEntryResponse(a), Some(ResponseObject(ToEntryResponse(b))))
        <==> a.id == b.id && a.name == b.name && a.amount == b.amount
  {
  }

  /** The key a response is ordered by for a sort field (the same fields as Entry's). */
  function ResponseKey(f: SortField, r: EntryResponse): Key
  {
    match f
    case ByName => OptionalText(r.name)
    case ByAmount => Num(r.amount)
    case ByDate => Num(r.date)
    case ByCategory => Num(r.category)
  }

  /** Converting to a response keeps every sort key. */
  lemma ResponseKeyAgrees(f: SortField, e: Entry)
    ensures ResponseKey(f, ToEntryResponse(e)) == EntryKey(f, e)
  {
  }
}

/** EntryAddRequest: the add form, and its conversion to a new Entry. */
module AddRequest {
  import opened Common
  import opened Entities

  datatype EntryAddRequest = EntryAddRequest(
    name: Option<string>,
    amount: Option<int>,
    date: Option<int>,
    details: Option<string>,
    category: Option<int>,
    userId: Guid)

  /** EntryAddRequest.ToEntry(): an absent amount, date or category becomes
      its type's default (0, DateTime's default, code 0); the Id is left
      empty and the creation time is the clock reading `now`. */
  function ToEntry(req: EntryAddRequest, now: int): (e: Entry)
    ensures e.name == req.name && e.details == req.details && e.userId == req.userId
    ensures e.id == EmptyGuid && e.createDt == Some(now) && e.updateDt.None?
    ensures req.amount.Some? ==> e.amount == req.amount.value
    ensures req.date.Some? ==> e.date == req.date.value
    ensures req.category.Some? ==> e.category == req.category.value
    ensures req.amount.None? ==> e.amount == 0
    ensures req.date.None? ==> e.date == DefaultDate
    ensures req.category.None? ==> e.category == 0 && !IsCategory(e.category)
  {
    Entry(EmptyGuid, req.name,
          if req.amount.Some? then req.amount.value else 0,
          if req.date.Some? then req.date.value else DefaultDate,
          req.details,
          if req.category.Some? then req.category.value else 0,
          Some(now), None, req.userId)
  }
}

/** EntryUpdateRequest: the edit form, and its conversion to an Entry. */
module UpdateRequest {
  import opened Common
  import opened Entities

  datatype EntryUpdateRequest = EntryUpdateRequest(
    id: Guid,
    name: Option<string>,
    amount: Option<int>,
    date: Option<int>,
    details: Option<string>,
    category: Option<int>,
    userId: Guid)

  /** EntryUpdateRequest.ToEntry(): like the add conversion, but the Id is
      the request's, the creation time is unset and the update time is `now`. */
  function ToEntry(req: EntryUpdateRequest, now: int): (e: Entry)
    ensures e.id == req.id && e.name == req.name && e.details == req.details && e.userId == req.userId
    ensures e.createDt.None? && e.updateDt == Some(now)
    ensures req.amount.Some? ==> e.amount == req.amount.value
    ensures req.date.Some? ==> e.date == req.date.value
    ensures req.category.Some? ==> e.category == req.category.value
    ensures req.amount.None? ==> e.amount == 0
    ensures req.date.None? ==> e.date == DefaultDate
    ensures req.category.None? ==> e.category == 0 && !IsCategory(e.category)
  {
    Entry(req.id, req.name,
          if req.amount.Some? then req.amount.value else 0,
          if req.date.Some? then req.date.value else DefaultDate,
          req.details,
          if req.category.Some? then req.category.value else 0,
          None, Some(now), req.userId)
  }
}
