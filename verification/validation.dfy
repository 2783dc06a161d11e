/** The EntryService validators: each rule is checked without stopping, one
    message is added per failed rule in a fixed order, and when any rule
    failed one ArgumentException carries all messages joined by "\n". The
    search validator also collects the filters that are switched on. */
module EntryValidation {
  import opened Common
  import opened Entities
  import Ordering
  import AddRequest
  import UpdateRequest

  // -----------------------------------------------------------------------
  // Add and update requests.
  // -----------------------------------------------------------------------

  // The messages, as the validators word them.
  const NameEmpty: string := "Name must not be empty."
  const NameTooLong: string := "Name must not exceed 50 characters."
  const AmountEmpty: string := "Amount must not be empty."
  const AmountNotPositive: string := "Amount must be more than zero (0)."
  const DateEmpty: string := "Date must not be empty."
  const DetailsTooLong: string := "Details must not exceed 100 characters."
  const CategoryEmpty: string := "Category must not be empty."
  const UserMissing: string := "User does not exist."
  const SearchTextTooLong: string := "Search text must not exceed 50 characters."
  const MinAmountNotPositive: string := "Minimum Amount must be greater than zero (0)."
  const MaxAmountNotPositive: string := "Maximum Amount must be greater than zero (0)."
  const AmountRangeInvalid: string := "Search Amount must be a valid range."
  const DateRangeInvalid: string := "Search Date must be a valid range."
  const CategoryInvalid: string := "Search Category must be a valid Category."

  /** The messages of the field rules shared by the add and update forms. */
  const FieldMessages: seq<string> := [
    NameEmpty,
    NameTooLong,
    AmountEmpty,
    AmountNotPositive,
    DateEmpty,
    DetailsTooLong,
    CategoryEmpty
  ]

  /** The fields the add and update forms have in common. */
  datatype FormFields = FormFields(
    name: Option<string>,
    amount: Option<int>,
    date: Option<int>,
    details: Option<string>,
    category: Option<int>)

  function AddFields(req: AddRequest.EntryAddRequest): FormFields
  {
    FormFields(req.name, req.amount, req.date, req.details, req.category)
  }

  function UpdateFields(req: UpdateRequest.EntryUpdateRequest): FormFields
  {
    FormFields(req.name, req.amount, req.date, req.details, req.category)
  }

  /** Which field rule the form breaks, in the order of FieldMessages. */
  function FieldViolations(f: FormFields): (v: seq<bool>)
    ensures |v| == |FieldMessages|
  {
    [ f.name.None?,
      f.name.Some? && Utf16Length(f.name.value) > 50,
      f.amount.None?,
      f.amount.Some? && f.amount.value <= 0,
      f.date.None?,
      f.details.Some? && Utf16Length(f.details.value) > 100,
      f.category.None? || !IsCategory(f.category.value) ]
  }

  /** The form's fields are complete and within their limits. */
  predicate FieldsValid(f: FormFields)
  {
    && f.name.Some? && Utf16Length(f.name.value) <= 50
    && f.amount.Some? && f.amount.value > 0
    && f.date.Some?
    && (f.details.None? || Utf16Length(f.details.value) <= 100)
    && f.category.Some? && IsCategory(f.category.value)
  }

  function FieldErrors(f: FormFields): seq<string>
  {
    Select(FieldMessages, FieldViolations(f))
  }

  function AddErrors(req: AddRequest.EntryAddRequest): seq<string>
  {
    FieldErrors(AddFields(req))
  }

  /** The update form's rules: the field rules, then the owner rule. */
  const UpdateMessages: seq<string> := FieldMessages + [UserMissing]

  function UpdateViolations(req: UpdateRequest.EntryUpdateRequest): (v: seq<bool>)
    ensures |v| == |UpdateMessages|
  {
    FieldViolations(UpdateFields(req)) + [req.userId == EmptyGuid]
  }

  function UpdateErrors(req: UpdateRequest.EntryUpdateRequest): seq<string>
  {
    Select(UpdateMessages, UpdateViolations(req))
  }

  /** The exception for a non-empty list of messages. */
  function Rejection(errors: seq<string>): Error
  {
    InvalidArgument(Join(errors, "\n"))
  }

  /** Throws when the list of messages is not empty. */
  function Verdict(errors: seq<string>): Outcome
  {
    if errors == [] then Pass else Fail(Rejection(errors))
  }

  /** The messages of the first k field rules, as collected so far. */
  predicate FieldsCollectedSoFar(f: FormFields, errors: seq<string>, k: nat)
    requires k <= |FieldMessages|
  {
    errors == Select(FieldMessages[..k], FieldViolations(f)[..k])
  }

  /** ValidateAddRequest. The empty-UserId rule is evaluated after the throw,
      so it never rejects a request. */
  method ValidateAddRequest(req: AddRequest.EntryAddRequest) returns (r: Outcome)
    ensures r == Verdict(AddErrors(req))
    ensures r == Pass <==> FieldsValid(AddFields(req))
  {
    var errors := CheckFields(AddFields(req));
    FieldErrorsEmpty(AddFields(req));
    if errors != [] {
      return Fail(Rejection(errors));
    }
    if req.userId == EmptyGuid {
      errors := errors + [UserMissing];
    }
    return Pass;
  }

  /** ValidateUpdateRequest: the same field rules, and an empty UserId rejects. */
  method ValidateUpdateRequest(req: UpdateRequest.EntryUpdateRequest) returns (r: Outcome)
    ensures r == Verdict(UpdateErrors(req))
    ensures r == Pass <==> FieldsValid(UpdateFields(req)) && req.userId != EmptyGuid
  {
    var errors := CheckFields(UpdateFields(req));
    if req.userId == EmptyGuid {
      errors := errors + [UserMissing];
    }
    SelectAppendOne(FieldMessages, FieldViolations(UpdateFields(req)), UserMissing, req.userId == EmptyGuid);
    assert UpdateMessages == FieldMessages + [UserMissing];
    assert errors == UpdateErrors(req);
    UpdateErrorsEmpty(req);
    if errors != [] {
      return Fail(Rejection(errors));
    }
    return Pass;
  }

  /** The five field checks the two validators share, in their order. */
  method CheckFields(f: FormFields) returns (errors: seq<string>)
    ensures errors == FieldErrors(f)
  {
    errors := [];
    errors := CheckName(f, errors);
    errors := CheckAmount(f, errors);
    errors := CheckDate(f, errors);
    errors := CheckDetails(f, errors);
    errors := CheckCategory(f, errors);
    assert FieldMessages[..7] == FieldMessages && FieldViolations(f)[..7] == FieldViolations(f);
  }

  method CheckName(f: FormFields, errors0: seq<string>) returns (errors: seq<string>)
    requires FieldsCollectedSoFar(f, errors0, 0)
    ensures FieldsCollectedSoFar(f, errors, 2)
  {
    errors := errors0;
    if f.name.None? {
      errors := errors + [NameEmpty];
    } else if Utf16Length(f.name.value) > 50 {
      errors := errors + [NameTooLong];
    }
    SelectStep(FieldMessages, FieldViolations(f), 0);
    SelectStep(FieldMessages, FieldViolations(f), 1);
  }

  method CheckAmount(f: FormFields, errors0: seq<string>) returns (errors: seq<string>)
    requires FieldsCollectedSoFar(f, errors0, 2)
    ensures FieldsCollectedSoFar(f, errors, 4)
  {
    errors := errors0;
    if f.amount.None? {
      errors := errors + [AmountEmpty];
    } else if f.amount.value <= 0 {
      errors := errors + [AmountNotPositive];
    }
    SelectStep(FieldMessages, FieldViolations(f), 2);
    SelectStep(FieldMessages, FieldViolations(f), 3);
  }

  method CheckDate(f: FormFields, errors0: seq<string>) returns (errors: seq<string>)
    requires FieldsCollectedSoFar(f, errors0, 4)
    ensures FieldsCollectedSoFar(f, errors, 5)
  {
    errors := errors0;
    if f.date.None? {
      errors := errors + [DateEmpty];
    }
    SelectStep(FieldMessages, FieldViolations(f), 4);
  }

  method CheckDetails(f: FormFields, errors0: seq<string>) returns (errors: seq<string>)
    requires FieldsCollectedSoFar(f, errors0, 5)
    ensures FieldsCollectedSoFar(f, errors, 6)
  {
    errors := errors0;
    if f.details.Some? && Utf16Length(f.details.value) > 0 && Utf16Length(f.details.value) > 100 {
      errors := errors + [DetailsTooLong];
    }
    SelectStep(FieldMessages, FieldViolations(f), 5);
  }

  method CheckCategory(f: FormFields, errors0: seq<string>) returns (errors: seq<string>)
    requires FieldsCollectedSoFar(f, errors0, 6)
    ensures FieldsCollectedSoFar(f, errors, 7)
  {
    errors := errors0;
    if f.category.None? || !IsCategory(f.category.value) {
      errors := errors + [CategoryEmpty];
    }
    SelectStep(FieldMessages, FieldViolations(f), 6);
  }

  /** No field message is reported exactly when the fields are valid. */
  lemma FieldErrorsEmpty(f: FormFields)
    ensures FieldErrors(f) == [] <==> FieldsValid(f)
  {
    var v := FieldViolations(f);
    SelectEmpty(FieldMessages, v);
    assert (forall i :: 0 <= i < |v| ==> !v[i]) <==> !v[0] && !v[1] && !v[2] && !v[3] && !v[4] && !v[5] && !v[6];
  }

  /** Twenty-six emoji in the name are only twenty-six characters but
      fifty-two UTF-16 code units, so the name is reported as too long. */
  lemma EmojiNameTooLong(f: FormFields)
    requires f.name == Some(seq(26, i => '\U{1F600}'))
    ensures NameTooLong in FieldErrors(f) && !FieldsValid(f)
  {
    EmojiLength();
    SelectMember(FieldMessages, FieldViolations(f), NameTooLong);
    assert FieldViolations(f)[1] && FieldMessages[1] == NameTooLong;
  }

  /** An update request is rejected exactly when a field is invalid or it has no owner. */
  lemma UpdateErrorsEmpty(req: UpdateRequest.EntryUpdateRequest)
    ensures UpdateErrors(req) == [] <==> FieldsValid(UpdateFields(req)) && req.userId != EmptyGuid
  {
    var v := UpdateViolations(req);
    SelectEmpty(UpdateMessages, v);
    assert (forall i :: 0 <= i < |v| ==> !v[i])
       <==> !v[0] && !v[1] && !v[2] && !v[3] && !v[4] && !v[5] && !v[6] && !v[7];
  }

  /** The update form's messages are pairwise different. */
  lemma UpdateMessagesDistinct()
    ensures forall j, k :: 0 <= j < k < |UpdateMessages| ==> UpdateMessages[j] != UpdateMessages[k]
  {
    var u := UpdateMessages;
    assert u == [NameEmpty, NameTooLong, AmountEmpty, AmountNotPositive, DateEmpty, DetailsTooLong, CategoryEmpty, UserMissing];
  }

  /** Each field message is reported for an add request exactly when its rule is broken. */
  lemma AddMessageIffViolation(req: AddRequest.EntryAddRequest, i: nat)
    requires i < |FieldMessages|
    ensures FieldMessages[i] in AddErrors(req) <==> FieldViolations(AddFields(req))[i]
  {
    UpdateMessagesDistinct();
    assert forall j :: 0 <= j < |FieldMessages| ==> FieldMessages[j] == UpdateMessages[j];
    SelectMemberAt(FieldMessages, FieldViolations(AddFields(req)), i);
  }

  /** Each message is reported for an update request exactly when its rule is broken. */
  lemma UpdateMessageIffViolation(req: UpdateRequest.EntryUpdateRequest, i: nat)
    requires i < |UpdateMessages|
    ensures UpdateMessages[i] in UpdateErrors(req) <==> UpdateViolations(req)[i]
  {
    UpdateMessagesDistinct();
    SelectMemberAt(UpdateMessages, UpdateViolations(req), i);
  }

  predicate NoNewline(s: string)
  {
    forall i :: 0 <= i < |s| ==> s[i] != '\n'
  }

  /** No message of the update form contains the separator. */
  lemma UpdateMessagesHaveNoNewline()
    ensures forall i :: 0 <= i < |UpdateMessages| ==> NoNewline(UpdateMessages[i])
  {
    NoNewlineInNameMessages();
    NoNewlineInAmountMessages();
    NoNewlineInDateAndDetailsMessages();
    NoNewlineInCategoryAndUserMessages();
    var u := UpdateMessages;
    assert u == [NameEmpty, NameTooLong, AmountEmpty, AmountNotPositive, DateEmpty, DetailsTooLong, CategoryEmpty, UserMissing];
  }

  lemma NoNewlineInNameMessages()
    ensures NoNewline(NameEmpty) && NoNewline(NameTooLong)
  {
    forall i | 0 <= i < |NameEmpty| ensures NameEmpty[i] != '\n' { }
    forall i | 0 <= i < |NameTooLong| ensures NameTooLong[i] != '\n' { }
  }

  lemma NoNewlineInAmountMessages()
    ensures NoNewline(AmountEmpty) && NoNewline(AmountNotPositive)
  {
    forall i | 0 <= i < |AmountEmpty| ensures AmountEmpty[i] != '\n' { }
    forall i | 0 <= i < |AmountNotPositive| ensures AmountNotPositive[i] != '\n' { }
  }

  lemma NoNewlineInDateAndDetailsMessages()
    ensures NoNewline(DateEmpty) && NoNewline(DetailsTooLong)
  {
    forall i | 0 <= i < |DateEmpty| ensures DateEmpty[i] != '\n' { }
    forall i | 0 <= i < |DetailsTooLong| ensures DetailsTooLong[i] != '\n' { }
  }

  lemma NoNewlineInCategoryAndUserMessages()
    ensures NoNewline(CategoryEmpty) && NoNewline(UserMissing)
  {
    forall i | 0 <= i < |CategoryEmpty| ensures CategoryEmpty[i] != '\n' { }
    forall i | 0 <= i < |UserMissing| ensures UserMissing[i] != '\n' { }
  }

  /** The thrown message splits at "\n" back into the list of broken rules. */
  lemma RejectionListsEveryError(req: UpdateRequest.EntryUpdateRequest)
    requires UpdateErrors(req) != []
    ensures Split(Rejection(UpdateErrors(req)).message, '\n') == UpdateErrors(req)
  {
    var errs := UpdateErrors(req);
    UpdateMessagesHaveNoNewline();
    forall p | p in errs ensures '\n' !in p {
      var i :| 0 <= i < |UpdateMessages| && UpdateMessages[i] == p;
      assert NoNewline(p);
    }
    assert "\n" == ['\n'];
    SplitJoin(errs, '\n');
  }

  /** An add request that passes validation converts to a well-formed entry
      with the request's amount, date and category. */
  lemma ValidAddRequestGivesWellFormedEntry(req: AddRequest.EntryAddRequest, now: int)
    requires AddErrors(req) == []
    ensures WellFormed(AddRequest.ToEntry(req, now))
    ensures var e := AddRequest.ToEntry(req, now);
            Some(e.amount) == req.amount && Some(e.date) == req.date && Some(e.category) == req.category
  {
    FieldErrorsEmpty(AddFields(req));
  }

  /** An update request that passes validation converts to a well-formed entry. */
  lemma ValidUpdateRequestGivesWellFormedEntry(req: UpdateRequest.EntryUpdateRequest, now: int)
    requires UpdateErrors(req) == []
    ensures WellFormed(UpdateRequest.ToEntry(req, now))
    ensures var e := UpdateRequest.ToEntry(req, now);
            Some(e.amount) == req.amount && Some(e.date) == req.date && Some(e.category) == req.category
  {
    UpdateErrorsEmpty(req);
  }

  // -----------------------------------------------------------------------
  // Search model.
  // -----------------------------------------------------------------------

  const SearchMessages: seq<string> := [
    SearchTextTooLong,
    MinAmountNotPositive,
    MaxAmountNotPositive,
    AmountRangeInvalid,
    DateRangeInvalid,
    CategoryInvalid,
    UserMissing
  ]

  /** Which search rule the model breaks, in the order of SearchMessages. */
  function SearchViolations(m: SearchModel): (v: seq<bool>)
    ensures |v| == |SearchMessages|
  {
    [ m.searchString.Some? && Utf16Length(m.searchString.value) > 50,
      m.minAmount.Some? && m.minAmount.value <= 0,
      m.maxAmount.Some? && m.maxAmount.value <= 0,
      m.minAmount.Some? && m.maxAmount.Some? && m.minAmount.value > m.maxAmount.value,
      m.dateFrom.Some? && m.dateTo.Some? && m.dateFrom.value > m.dateTo.value,
      m.category.Some? && !IsCategory(m.category.value),
      m.userId == EmptyGuid ]
  }

  function SearchErrors(m: SearchModel): seq<string>
  {
    Select(SearchMessages, SearchViolations(m))
  }

  /** The search criteria are well formed: a short text, positive amount
      bounds in order, dates in order, a real category, and an owner. */
  predicate SearchCriteriaValid(m: SearchModel)
  {
    && (m.searchString.Some? ==> Utf16Length(m.searchString.value) <= 50)
    && (m.minAmount.Some? ==> m.minAmount.value > 0)
    && (m.maxAmount.Some? ==> m.maxAmount.value > 0)
    && (m.minAmount.Some? && m.maxAmount.Some? ==> m.minAmount.value <= m.maxAmount.value)
    && (m.dateFrom.Some? && m.dateTo.Some? ==> m.dateFrom.value <= m.dateTo.value)
    && (m.category.Some? ==> IsCategory(m.category.value))
    && m.userId != EmptyGuid
  }

  const FilterOrder: seq<SearchFilter> := [SearchString, MinAmount, MaxAmount, DateFrom, DateTo, Category]

  /** Which filter the validator switches on, in the order of FilterOrder. A
      pair of bounds is switched on together, and only when it is in order. */
  function ActivationFlags(m: SearchModel): (v: seq<bool>)
    ensures |v| == |FilterOrder|
  {
    var bothAmounts := m.minAmount.Some? && m.maxAmount.Some?;
    var bothDates := m.dateFrom.Some? && m.dateTo.Some?;
    [ m.searchString.Some? && Utf16Length(m.searchString.value) <= 50,
      if bothAmounts then m.minAmount.value <= m.maxAmount.value
      else m.minAmount.Some? && m.minAmount.value > 0,
      if bothAmounts then m.minAmount.value <= m.maxAmount.value
      else m.maxAmount.Some? && m.maxAmount.value > 0,
      if bothDates then m.dateFrom.value <= m.dateTo.value else m.dateFrom.Some?,
      if bothDates then m.dateFrom.value <= m.dateTo.value else m.dateTo.Some?,
      m.category.Some? && IsCategory(m.category.value) ]
  }

  function ActiveFilters(m: SearchModel): seq<SearchFilter>
  {
    Select(FilterOrder, ActivationFlags(m))
  }

  /** The search field behind a filter holds a value. */
  predicate FilterPresent(m: SearchModel, f: SearchFilter)
  {
    match f
    case SearchString => m.searchString.Some?
    case MinAmount => m.minAmount.Some?
    case MaxAmount => m.maxAmount.Some?
    case DateFrom => m.dateFrom.Some?
    case DateTo => m.dateTo.Some?
    case Category => m.category.Some?
  }

  /** The result of ValidateSearchModel: the active filters, or the exception. */
  function SearchVerdict(m: SearchModel): Result<seq<SearchFilter>>
  {
    if SearchErrors(m) == [] then Ok(ActiveFilters(m)) else Err(Rejection(SearchErrors(m)))
  }

  /** The messages of the first k search rules and the filters of the first
      n filter slots, as the validator has collected them so far. */
  predicate CollectedSoFar(m: SearchModel, errors: seq<string>, k: nat, options: seq<SearchFilter>, n: nat)
    requires k <= |SearchMessages| && n <= |FilterOrder|
  {
    && errors == Select(SearchMessages[..k], SearchViolations(m)[..k])
    && options == Select(FilterOrder[..n], ActivationFlags(m)[..n])
  }

  /** ValidateSearchModel: rejects with every broken rule, or returns the
      active filters. */
  method ValidateSearchModel(m: SearchModel) returns (r: Result<seq<SearchFilter>>)
    ensures r == SearchVerdict(m)
    ensures r.Ok? <==> SearchCriteriaValid(m)
    ensures r.Ok? ==> forall f :: f in r.value <==> FilterPresent(m, f)
    ensures r.Ok? ==> StrictlyRanked(r.value, FilterRank)
  {
    var errors: seq<string> := [];
    var options: seq<SearchFilter> := [];
    errors, options := CheckSearchString(m, errors, options);
    errors, options := CheckAmountRange(m, errors, options);
    errors, options := CheckDateRange(m, errors, options);
    errors, options := CheckSearchCategory(m, errors, options);
    if m.userId == EmptyGuid {
      errors := errors + [UserMissing];
    }
    SelectStep(SearchMessages, SearchViolations(m), 6);
    assert errors == Select(SearchMessages[..7], SearchViolations(m)[..7]);
    assert SearchMessages[..7] == SearchMessages && SearchViolations(m)[..7] == SearchViolations(m);
    assert FilterOrder[..6] == FilterOrder && ActivationFlags(m)[..6] == ActivationFlags(m);
    SearchErrorsEmpty(m);
    if errors != [] {
      return Err(Rejection(errors));
    }
    ActiveFiltersWhenValid(m);
    return Ok(options);
  }

  /** The search text rule. */
  method CheckSearchString(m: SearchModel, errors0: seq<string>, options0: seq<SearchFilter>)
    returns (errors: seq<string>, options: seq<SearchFilter>)
    requires CollectedSoFar(m, errors0, 0, options0, 0)
    ensures CollectedSoFar(m, errors, 1, options, 1)
  {
    errors, options := errors0, options0;
    if m.searchString.Some? {
      if Utf16Length(m.searchString.value) > 50 {
        errors := errors + [SearchTextTooLong];
      } else {
        options := options + [SearchString];
      }
    }
    SelectStep(SearchMessages, SearchViolations(m), 0);
    SelectStep(FilterOrder, ActivationFlags(m), 0);
  }

  /** What the amount rules add to the messages, branch by branch. */
  function AmountMessages(m: SearchModel): seq<string>
  {
    if m.minAmount.Some? && m.maxAmount.Some? then
      (if m.minAmount.value <= 0 then [MinAmountNotPositive] else [])
      + (if m.maxAmount.value <= 0 then [MaxAmountNotPositive] else [])
      + (if m.minAmount.value > m.maxAmount.value then [AmountRangeInvalid] else [])
    else if m.minAmount.Some? then (if m.minAmount.value <= 0 then [MinAmountNotPositive] else [])
    else if m.maxAmount.Some? then (if m.maxAmount.value <= 0 then [MaxAmountNotPositive] else [])
    else []
  }

  /** What the amount rules add to the active filters, branch by branch. */
  function AmountFilters(m: SearchModel): seq<SearchFilter>
  {
    if m.minAmount.Some? && m.maxAmount.Some? then
      (if m.minAmount.value > m.maxAmount.value then [] else [MinAmount, MaxAmount])
    else if m.minAmount.Some? then (if m.minAmount.value <= 0 then [] else [MinAmount])
    else if m.maxAmount.Some? then (if m.maxAmount.value <= 0 then [] else [MaxAmount])
    else []
  }

  /** The amount rules: each bound positive, and the two bounds in order. */
  method CheckAmountRange(m: SearchModel, errors0: seq<string>, options0: seq<SearchFilter>)
    returns (errors: seq<string>, options: seq<SearchFilter>)
    requires CollectedSoFar(m, errors0, 1, options0, 1)
    ensures CollectedSoFar(m, errors, 4, options, 3)
  {
    errors, options := errors0, options0;
    if m.minAmount.Some? && m.maxAmount.Some? {
      if m.minAmount.value <= 0 {
        errors := errors + [MinAmountNotPositive];
      }
      if m.maxAmount.value <= 0 {
        errors := errors + [MaxAmountNotPositive];
      }
      if m.minAmount.value > m.maxAmount.value {
        errors := errors + [AmountRangeInvalid];
      } else {
        options := options + [MinAmount, MaxAmount];
      }
    } else if m.minAmount.Some? {
      if m.minAmount.value <= 0 {
        errors := errors + [MinAmountNotPositive];
      } else {
        options := options + [MinAmount];
      }
    } else if m.maxAmount.Some? {
      if m.maxAmount.value <= 0 {
        errors := errors + [MaxAmountNotPositive];
      } else {
        options := options + [MaxAmount];
      }
    }
    assert errors == errors0 + AmountMessages(m);
    assert options == options0 + AmountFilters(m);
    AmountRulesStep(m);
  }

  /** What the amount rules add to the messages and filters collected for
      the search text. */
  lemma AmountRulesStep(m: SearchModel)
    ensures Select(SearchMessages[..4], SearchViolations(m)[..4])
              == Select(SearchMessages[..1], SearchViolations(m)[..1]) + AmountMessages(m)
    ensures Select(FilterOrder[..3], ActivationFlags(m)[..3])
              == Select(FilterOrder[..1], ActivationFlags(m)[..1]) + AmountFilters(m)
  {
    AmountMessagesStep(m);
    AmountFiltersStep(m);
  }

  lemma AmountMessagesStep(m: SearchModel)
    ensures Select(SearchMessages[..4], SearchViolations(m)[..4])
              == Select(SearchMessages[..1], SearchViolations(m)[..1]) + AmountMessages(m)
  {
    var v := SearchViolations(m);
    var s1 := Select(SearchMessages[..1], v[..1]);
    var o1: seq<string> := if v[1] then [MinAmountNotPositive] else [];
    var o2: seq<string> := if v[2] then [MaxAmountNotPositive] else [];
    var o3: seq<string> := if v[3] then [AmountRangeInvalid] else [];
    SelectStep(SearchMessages, v, 1);
    SelectStep(SearchMessages, v, 2);
    SelectStep(SearchMessages, v, 3);
    assert Select(SearchMessages[..4], v[..4]) == s1 + o1 + o2 + o3;
    Ordering.ConcatAssoc(s1, o1, o2);
    Ordering.ConcatAssoc(s1, o1 + o2, o3);
    AmountMessagesByRule(m);
  }

  lemma AmountFiltersStep(m: SearchModel)
    ensures Select(FilterOrder[..3], ActivationFlags(m)[..3])
              == Select(FilterOrder[..1], ActivationFlags(m)[..1]) + AmountFilters(m)
  {
    var a := ActivationFlags(m);
    var s1 := Select(FilterOrder[..1], a[..1]);
    var o1: seq<SearchFilter> := if a[1] then [MinAmount] else [];
    var o2: seq<SearchFilter> := if a[2] then [MaxAmount] else [];
    SelectStep(FilterOrder, a, 1);
    SelectStep(FilterOrder, a, 2);
    assert Select(FilterOrder[..3], a[..3]) == s1 + o1 + o2;
    Ordering.ConcatAssoc(s1, o1, o2);
    AmountFiltersByRule(m);
  }

  /** The amount messages, one rule at a time. */
  lemma AmountMessagesByRule(m: SearchModel)
    ensures var v := SearchViolations(m);
            AmountMessages(m)
              == (if v[1] then [MinAmountNotPositive] else []) + (if v[2] then [MaxAmountNotPositive] else [])
                 + (if v[3] then [AmountRangeInvalid] else [])
  {
  }

  /** The amount filters, one filter at a time. */
  lemma AmountFiltersByRule(m: SearchModel)
    ensures var a := ActivationFlags(m);
            AmountFilters(m) == (if a[1] then [MinAmount] else []) + (if a[2] then [MaxAmount] else [])
  {
  }

  /** The date rule: the two bounds in order. */
  method CheckDateRange(m: SearchModel, errors0: seq<string>, options0: seq<SearchFilter>)
    returns (errors: seq<string>, options: seq<SearchFilter>)
    requires CollectedSoFar(m, errors0, 4, options0, 3)
    ensures CollectedSoFar(m, errors, 5, options, 5)
  {
    errors, options := errors0, options0;
    if m.dateFrom.Some? && m.dateTo.Some? {
      if m.dateFrom.value > m.dateTo.value {
        errors := errors + [DateRangeInvalid];
      } else {
        options := options + [DateFrom, DateTo];
      }
    } else if m.dateFrom.Some? {
      options := options + [DateFrom];
    } else if m.dateTo.Some? {
      options := options + [DateTo];
    }
    SelectStep(SearchMessages, SearchViolations(m), 4);
    SelectStep(FilterOrder, ActivationFlags(m), 3);
    SelectStep(FilterOrder, ActivationFlags(m), 4);
  }

  /** The category rule. */
  method CheckSearchCategory(m: SearchModel, errors0: seq<string>, options0: seq<SearchFilter>)
    returns (errors: seq<string>, options: seq<SearchFilter>)
    requires CollectedSoFar(m, errors0, 5, options0, 5)
    ensures CollectedSoFar(m, errors, 6, options, 6)
  {
    errors, options := errors0, options0;
    if m.category.Some? {
      if !IsCategory(m.category.value) {
        errors := errors + [CategoryInvalid];
      } else {
        options := options + [Category];
      }
    }
    SelectStep(SearchMessages, SearchViolations(m), 5);
    SelectStep(FilterOrder, ActivationFlags(m), 5);
  }

  /** No search message is reported exactly when the criteria are valid. */
  lemma SearchErrorsEmpty(m: SearchModel)
    ensures SearchErrors(m) == [] <==> SearchCriteriaValid(m)
  {
    var v := SearchViolations(m);
    SelectEmpty(SearchMessages, v);
    assert (forall i :: 0 <= i < |v| ==> !v[i]) <==> !v[0] && !v[1] && !v[2] && !v[3] && !v[4] && !v[5] && !v[6];
  }

  /** The search messages are pairwise different. */
  lemma SearchMessagesDistinct()
    ensures forall j, k :: 0 <= j < k < |SearchMessages| ==> SearchMessages[j] != SearchMessages[k]
  {
  }

  /** Each search message is reported exactly when its rule is broken. */
  lemma SearchMessageIffViolation(m: SearchModel, i: nat)
    requires i < |SearchMessages|
    ensures SearchMessages[i] in SearchErrors(m) <==> SearchViolations(m)[i]
  {
    SearchMessagesDistinct();
    SelectMemberAt(SearchMessages, SearchViolations(m), i);
  }

  /** When the criteria are valid, a filter is active exactly when its field
      holds a value (equal bounds included), and the filters keep the fixed order. */
  lemma ActiveFiltersWhenValid(m: SearchModel)
    requires SearchCriteriaValid(m)
    ensures forall f :: f in ActiveFilters(m) <==> FilterPresent(m, f)
    ensures StrictlyRanked(ActiveFilters(m), FilterRank)
  {
    forall f ensures f in ActiveFilters(m) <==> FilterPresent(m, f) {
      ActiveFilterIffPresent(m, f);
    }
    assert StrictlyRanked(FilterOrder, FilterRank);
    SelectRanked(FilterOrder, ActivationFlags(m), FilterRank);
  }

  /** One filter of a valid model is active exactly when its field is set. */
  lemma ActiveFilterIffPresent(m: SearchModel, f: SearchFilter)
    requires SearchCriteriaValid(m)
    ensures f in ActiveFilters(m) <==> FilterPresent(m, f)
  {
    var i := FilterRank(f);
    assert FilterOrder[i] == f;
    SelectMemberAt(FilterOrder, ActivationFlags(m), i);
  }

  /** An inverted amount or date range is always rejected, with its message. */
  lemma InvertedRangeRejected(m: SearchModel)
    ensures m.minAmount.Some? && m.maxAmount.Some? && m.minAmount.value > m.maxAmount.value
            ==> SearchVerdict(m).Err? && AmountRangeInvalid in SearchErrors(m)
    ensures m.dateFrom.Some? && m.dateTo.Some? && m.dateFrom.value > m.dateTo.value
            ==> SearchVerdict(m).Err? && DateRangeInvalid in SearchErrors(m)
  {
    SearchMessageIffViolation(m, 3);
    SearchMessageIffViolation(m, 4);
  }
}
