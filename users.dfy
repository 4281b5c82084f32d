/**
 * `GET /users` (main.py:309-396): filter the stored users, sort them, cut
 * out one page, reduce each item to its id and username unless `detailed`,
 * and answer as CSV or as a listing with pagination, filter echo and
 * statistics.
 *
 * As with the workspaces, the handler starts from `users.copy()`, a dict
 * whose keys the comprehensions would walk; this model takes the user
 * records, in insertion order, as its `snapshot`.
 *
 * The stages run in a different order from the workspace listing: search
 * comes before hiding soft-deleted users, so a deleted user whose searched
 * field is not a string still makes the search raise.
 */
module Users {
  import opened Wrappers
  import opened Text
  import opened Values
  import opened Stages
  import opened Sorting
  import opened Csv
  import opened Responses

  datatype UserQuery = UserQuery(
    limit: nat,
    offset: nat,
    sortBy: string,
    sortOrder: string,
    status: Option<string>,
    role: Option<string>,
    search: Option<string>,
    includeDeleted: bool,
    detailed: bool,
    format: string)

  /** The parameters a bare `GET /users` gets. */
  const DefaultQuery: UserQuery := UserQuery(100, 0, "username", "asc", None, None, None, false, false, "json")

  const SearchFields: seq<string> := ["username", "email", "full_name"]
  const SortFields: seq<string> := ["username", "email", "created_at", "last_login"]
  const ProcessingTimeMs: nat := 42

  // ---------------------------------------------------------------------------
  // The status rule

  /** `user.get("is_active", False)`, as a condition. */
  predicate IsActive(r: Record)
  {
    Truthy(GetOr(r, "is_active", VBool(false)))
  }

  predicate IsInactive(r: Record)
  {
    !IsActive(r)
  }

  /** `user.get("status") == "pending"`. */
  predicate IsPending(r: Record)
  {
    FieldIs(r, "status", "pending")
  }

  /** The `if status:` block: three recognised values, and any other keeps everyone. */
  function StatusStage(s: seq<Record>, status: Option<string>): seq<Record>
  {
    if !Given(status) then s
    else if status.value == "active" then Where(s, IsActive)
    else if status.value == "inactive" then Where(s, IsInactive)
    else if status.value == "pending" then Where(s, IsPending)
    else s
  }

  /** A user passes the status criterion. */
  predicate StatusOk(r: Record, status: Option<string>)
  {
    if !Given(status) then true
    else if status.value == "active" then IsActive(r)
    else if status.value == "inactive" then !IsActive(r)
    else if status.value == "pending" then Get(r, "status") == VStr("pending")
    else true
  }

  /** `StatusOk` as a test. */
  function StatusTest(status: Option<string>): Record -> bool
  {
    r => StatusOk(r, status)
  }

  /** The status stage keeps exactly the users passing the status criterion, in order. */
  lemma StatusStageIsFilter(s: seq<Record>, status: Option<string>)
    ensures StatusStage(s, status) == Where(s, StatusTest(status))
  {
    var t := StatusTest(status);
    if !Given(status) {
      WhereAll(s, t);
    } else if status.value == "active" {
      WhereAgree(s, IsActive, t);
    } else if status.value == "inactive" {
      WhereAgree(s, IsInactive, t);
    } else if status.value == "pending" {
      WhereAgree(s, IsPending, t);
    } else {
      WhereAll(s, t);
    }
  }

  /** The status values that filter, and what each keeps; any other value keeps everyone. */
  lemma StatusMeans(r: Record, status: Option<string>)
    ensures Given(status) && status.value == "active" ==>
              (StatusOk(r, status) <==> Truthy(GetOr(r, "is_active", VBool(false))))
    ensures Given(status) && status.value == "inactive" ==>
              (StatusOk(r, status) <==> !Truthy(GetOr(r, "is_active", VBool(false))))
    ensures Given(status) && status.value == "pending" ==>
              (StatusOk(r, status) <==> Get(r, "status") == VStr("pending"))
    ensures !Given(status) || status.value !in {"active", "inactive", "pending"} ==> StatusOk(r, status)
    ensures !Has(r, "is_active") && Given(status) && status.value == "inactive" ==> StatusOk(r, status)
  {
  }

  // ---------------------------------------------------------------------------
  // Filtering

  /** Every criterion of the query, as one test. */
  function QueryTest(q: UserQuery): Record -> bool
  {
    And(And(And(
      StatusTest(q.status),
      EqTest("role", q.role)),
      SearchTest(q.search, SearchFields)),
      Visible(q.includeDeleted))
  }

  /** A user passes every supplied criterion. */
  predicate Matches(r: Record, q: UserQuery)
  {
    && StatusOk(r, q.status)
    && EqOk(r, "role", q.role)
    && SearchOk(r, q.search, SearchFields)
    && (q.includeDeleted || NotDeleted(r))
  }

  lemma QueryTestIsMatches(q: UserQuery, r: Record)
    ensures QueryTest(q)(r) == Matches(r, q)
  {
  }

  /** The filter stages, in the handler's order: status, role, search, soft delete. */
  function FilterUsers(s: seq<Record>, q: UserQuery): Result<seq<Record>, Failure>
  {
    var byStatus := StatusStage(s, q.status);
    var byRole := WhereEq(byStatus, "role", q.role);
    var searched :- SearchStage(byRole, q.search, SearchFields);
    Ok(HideDeleted(searched, q.includeDeleted))
  }

  /**
   * When filtering succeeds it keeps exactly the users passing every
   * criterion, in collection order.
   */
  lemma FilterUsersExact(s: seq<Record>, q: UserQuery)
    requires FilterUsers(s, q).Ok?
    ensures FilterUsers(s, q).value == Where(s, QueryTest(q))
    ensures forall r :: r in FilterUsers(s, q).value ==> r in s && Matches(r, q)
  {
    var t1, t2 := StatusTest(q.status), EqTest("role", q.role);
    var t3, t4 := SearchTest(q.search, SearchFields), Visible(q.includeDeleted);
    var byStatus := StatusStage(s, q.status);
    var byRole := WhereEq(byStatus, "role", q.role);
    StatusStageIsFilter(s, q.status);
    WhereEqIsFilter(byStatus, "role", q.role);
    WhereWhere(s, t1, t2);
    var searched := SearchStage(byRole, q.search, SearchFields).value;
    SearchStageIsFilter(byRole, q.search, SearchFields);
    WhereWhere(s, And(t1, t2), t3);
    HideDeletedIsFilter(searched, q.includeDeleted);
    WhereWhere(s, And(And(t1, t2), t3), t4);
    forall r | r in FilterUsers(s, q).value
      ensures r in s && Matches(r, q)
    {
      QueryTestIsMatches(q, r);
    }
  }

  /** Filtering can only crash, on a searched field that is not a string. */
  lemma FilterUsersFailure(s: seq<Record>, q: UserQuery)
    requires FilterUsers(s, q).Err?
    ensures FilterUsers(s, q).error == Crash
    ensures exists x, j :: x in s && 0 <= j < |SearchFields| && !GetOr(x, SearchFields[j], VStr("")).VStr?
  {
    var byStatus := StatusStage(s, q.status);
    var byRole := WhereEq(byStatus, "role", q.role);
    SearchStageFailure(byRole, q.search, SearchFields);
    var x, j :| x in byRole && 0 <= j < |SearchFields| && !GetOr(x, SearchFields[j], VStr("")).VStr?;
    assert x in byStatus;
    assert x in s;
  }

  /** A record whose test raises makes the whole search raise. */
  lemma {:induction false} KeepHitsRaises(s: seq<Record>, q: string, fields: seq<string>, x: Record)
    requires x in s && Hit(q, fields, x).Err?
    ensures KeepHits(s, q, fields).Err?
  {
    if s[0] != x {
      KeepHitsRaises(s[1..], q, fields, x);
    }
  }

  /**
   * Search runs before soft-deleted users are hidden: a user passing the
   * status and role criteria whose `username` is not a string makes the
   * listing fail, even when that user is soft-deleted and would not be listed.
   */
  lemma SearchSeesDeletedUsers(s: seq<Record>, q: UserQuery, x: Record)
    requires Given(q.search) && x in s
    requires StatusOk(x, q.status) && EqOk(x, "role", q.role)
    requires !GetOr(x, "username", VStr("")).VStr?
    ensures FilterUsers(s, q) == Err(Crash)
  {
    var byStatus := StatusStage(s, q.status);
    var byRole := WhereEq(byStatus, "role", q.role);
    StatusStageIsFilter(s, q.status);
    WhereMultiset(s, StatusTest(q.status), x);
    assert x in byStatus;
    WhereEqIsFilter(byStatus, "role", q.role);
    WhereMultiset(byStatus, EqTest("role", q.role), x);
    assert x in byRole;
    assert SearchFields[0] == "username";
    KeepHitsRaises(byRole, Lower(q.search.value), SearchFields, x);
    KeepHitsFailure(byRole, Lower(q.search.value), SearchFields);
  }

  // ---------------------------------------------------------------------------
  // Projection

  /** `{"id": user.get("id"), "username": user.get("username")}`. */
  function Brief(u: Record): Record
  {
    [Field("id", Get(u, "id")), Field("username", Get(u, "username"))]
  }

  /** The brief form has exactly the keys `id` and `username`, holding the user's values. */
  lemma BriefShape(u: Record)
    ensures Keys(Brief(u)) == ["id", "username"]
    ensures Get(Brief(u), "id") == Get(u, "id")
    ensures Get(Brief(u), "username") == Get(u, "username")
  {
    var b := Brief(u);
    var t := b[1..];
    assert t == [Field("username", Get(u, "username"))] && t[1..] == [];
    assert Keys(t) == ["username"];
    assert Keys(b) == ["id"] + Keys(t);
    assert GetOr(b, "username", VNone) == GetOr(t, "username", VNone);
  }

  /** `if not detailed:` reduce every item to its brief form. */
  function Project(page: seq<Record>, detailed: bool): (r: seq<Record>)
    ensures |r| == |page|
  {
    if detailed then page else seq(|page|, i requires 0 <= i < |page| => Brief(page[i]))
  }

  /** Projection keeps the items' order: item `i` is user `i`, whole or in brief. */
  lemma ProjectAt(page: seq<Record>, detailed: bool, i: nat)
    requires i < |page|
    ensures detailed ==> Project(page, detailed)[i] == page[i]
    ensures !detailed ==> Keys(Project(page, detailed)[i]) == ["id", "username"]
                          && Get(Project(page, detailed)[i], "id") == Get(page[i], "id")
                          && Get(Project(page, detailed)[i], "username") == Get(page[i], "username")
  {
    if !detailed {
      assert Project(page, detailed)[i] == Brief(page[i]);
      BriefShape(page[i]);
    }
  }

  // ---------------------------------------------------------------------------
  // The response

  /** The `filters` block: the criteria as given, `search` lowered. */
  function Filters(q: UserQuery): Record
  {
    [Field("status", Echo(q.status)),
     Field("role", Echo(q.role)),
     Field("search", Echo(SearchEcho(q.search))),
     Field("include_deleted", VBool(q.includeDeleted))]
  }

  /** The body `GET /users` answers with for a snapshot of the stored users. */
  function UsersResponse(snapshot: seq<Record>, q: UserQuery): Response
  {
    match FilterUsers(snapshot, q)
    case Err(f) => FailureBody(f)
    case Ok(filtered) =>
      var sorted := SortStage(filtered, q.sortBy, q.sortOrder, SortFields);
      var page := Project(Page(sorted, q.offset, q.limit), q.detailed);
      if q.format == "csv" then CsvBody(CsvText(page))
      else Listed(page, Pagination(q.limit, q.offset, |sorted|), Filters(q),
                  Stats(|sorted|, |page|, ProcessingTimeMs))
  }

  /** The handler, stage by stage, on a snapshot of the stored users. */
  method GetUsers(snapshot: seq<Record>, q: UserQuery) returns (resp: Response)
    ensures resp == UsersResponse(snapshot, q)
  {
    var filtered := FilterUsers(snapshot, q);
    if filtered.Err? {
      return FailureBody(filtered.error);
    }
    var result := ToArray(filtered.value);
    SortListing(result, q.sortBy, q.sortOrder, SortFields);
    var totalCount := result.Length;
    var page := ToArray(Project(Page(result[..], q.offset, q.limit), q.detailed));
    if q.format == "csv" {
      var text := RenderCsv(page);
      return CsvBody(text);
    }
    resp := Listed(page[..], Pagination(q.limit, q.offset, totalCount), Filters(q),
                   Stats(totalCount, page.Length, ProcessingTimeMs));
  }

  /** The listing body, stage by stage. */
  lemma ListingIs(snapshot: seq<Record>, q: UserQuery)
    requires UsersResponse(snapshot, q).Listed?
    ensures FilterUsers(snapshot, q).Ok?
    ensures var sorted := SortStage(FilterUsers(snapshot, q).value, q.sortBy, q.sortOrder, SortFields);
            var page := Project(Page(sorted, q.offset, q.limit), q.detailed);
            UsersResponse(snapshot, q)
              == Listed(page, Pagination(q.limit, q.offset, |sorted|), Filters(q), Stats(|sorted|, |page|, ProcessingTimeMs))
  {
  }

  /** Sorting keeps the matches' number: the total is the number of matching users. */
  lemma SortedCount(snapshot: seq<Record>, q: UserQuery)
    requires FilterUsers(snapshot, q).Ok?
    ensures |SortStage(FilterUsers(snapshot, q).value, q.sortBy, q.sortOrder, SortFields)|
            == |Where(snapshot, QueryTest(q))|
  {
    FilterUsersExact(snapshot, q);
  }

  /** Sorting only reorders the matches. */
  lemma SortedMatch(snapshot: seq<Record>, q: UserQuery)
    requires FilterUsers(snapshot, q).Ok?
    ensures forall r :: r in SortStage(FilterUsers(snapshot, q).value, q.sortBy, q.sortOrder, SortFields)
              ==> r in snapshot && Matches(r, q)
  {
    FilterUsersExact(snapshot, q);
    var filtered := FilterUsers(snapshot, q).value;
    var sorted := SortStage(filtered, q.sortBy, q.sortOrder, SortFields);
    SortStageFacts(filtered, q.sortBy, q.sortOrder, SortFields);
    forall r | r in sorted
      ensures r in snapshot && Matches(r, q)
    {
      assert r in multiset(sorted);
    }
  }

  /**
   * A listing reports as total the number of stored users passing every
   * criterion and as returned count the number of items it holds, and
   * echoes `limit` and `offset`.
   */
  lemma ListingTotal(snapshot: seq<Record>, q: UserQuery)
    requires UsersResponse(snapshot, q).Listed?
    ensures var resp := UsersResponse(snapshot, q);
            var total := |Where(snapshot, QueryTest(q))|;
            && resp.pagination == Pagination(q.limit, q.offset, total)
            && resp.stats == Stats(total, |resp.items|, ProcessingTimeMs)
  {
    ListingIs(snapshot, q);
    SortedCount(snapshot, q);
  }

  /**
   * A listing returns `min(limit, max(0, total - offset))` users, where
   * `total` is the number of stored users passing every criterion.
   */
  lemma ListingReturned(snapshot: seq<Record>, q: UserQuery)
    requires UsersResponse(snapshot, q).Listed?
    ensures |UsersResponse(snapshot, q).items|
            == Min(q.limit, Max(0, |Where(snapshot, QueryTest(q))| - q.offset))
  {
    ListingIs(snapshot, q);
    SortedCount(snapshot, q);
    var sorted := SortStage(FilterUsers(snapshot, q).value, q.sortBy, q.sortOrder, SortFields);
    ProjectedPageCount(snapshot, sorted, q);
  }

  lemma ProjectedPageCount(snapshot: seq<Record>, sorted: seq<Record>, q: UserQuery)
    requires |sorted| == |Where(snapshot, QueryTest(q))|
    ensures |Project(Page(sorted, q.offset, q.limit), q.detailed)|
            == Min(q.limit, Max(0, |Where(snapshot, QueryTest(q))| - q.offset))
  {
    PageCount(sorted, |Where(snapshot, QueryTest(q))|, q.offset, q.limit);
  }

  /**
   * Item `i` of a listing is sorted match number `offset + i`: the whole
   * record when `detailed`, otherwise exactly its `id` and `username`.
   */
  lemma ListingItemAt(snapshot: seq<Record>, q: UserQuery, i: nat)
    requires UsersResponse(snapshot, q).Listed? && i < |UsersResponse(snapshot, q).items|
    ensures var sorted := SortStage(FilterUsers(snapshot, q).value, q.sortBy, q.sortOrder, SortFields);
            var item := UsersResponse(snapshot, q).items[i];
            && q.offset + i < |sorted|
            && (q.detailed ==> item == sorted[q.offset + i])
            && (!q.detailed ==> Keys(item) == ["id", "username"]
                                && Get(item, "id") == Get(sorted[q.offset + i], "id")
                                && Get(item, "username") == Get(sorted[q.offset + i], "username"))
  {
    ListingIs(snapshot, q);
    var sorted := SortStage(FilterUsers(snapshot, q).value, q.sortBy, q.sortOrder, SortFields);
    ProjectedItem(sorted, q, i);
  }

  lemma ProjectedItem(sorted: seq<Record>, q: UserQuery, i: nat)
    requires i < |Project(Page(sorted, q.offset, q.limit), q.detailed)|
    ensures var item := Project(Page(sorted, q.offset, q.limit), q.detailed)[i];
            && q.offset + i < |sorted|
            && (q.detailed ==> item == sorted[q.offset + i])
            && (!q.detailed ==> Keys(item) == ["id", "username"]
                                && Get(item, "id") == Get(sorted[q.offset + i], "id")
                                && Get(item, "username") == Get(sorted[q.offset + i], "username"))
  {
    var page := Page(sorted, q.offset, q.limit);
    ProjectAt(page, q.detailed, i);
    assert page[i] == sorted[q.offset + i];
  }

  /** With `detailed`, every listed user passes every criterion; none is soft-deleted unless asked for. */
  lemma DetailedItemsMatch(snapshot: seq<Record>, q: UserQuery)
    requires UsersResponse(snapshot, q).Listed? && q.detailed
    ensures forall r :: r in UsersResponse(snapshot, q).items ==> r in snapshot && Matches(r, q)
    ensures !q.includeDeleted ==> forall r :: r in UsersResponse(snapshot, q).items ==> NotDeleted(r)
  {
    ListingIs(snapshot, q);
    SortedMatch(snapshot, q);
    var sorted := SortStage(FilterUsers(snapshot, q).value, q.sortBy, q.sortOrder, SortFields);
    assert forall r :: r in Page(sorted, q.offset, q.limit) ==> r in sorted;
  }

  /** A brief CSV starts with the header `id,username`, unless the page is empty. */
  lemma BriefCsvHeader(snapshot: seq<Record>, q: UserQuery)
    requires UsersResponse(snapshot, q).CsvBody? && !q.detailed
    ensures var text := UsersResponse(snapshot, q).text;
            text == NoResults || StartsWith(text, "id,username\n")
  {
    var sorted := SortStage(FilterUsers(snapshot, q).value, q.sortBy, q.sortOrder, SortFields);
    BriefCsvText(Page(sorted, q.offset, q.limit));
  }

  lemma BriefCsvText(page: seq<Record>)
    ensures var text := CsvText(Project(page, false));
            text == NoResults || StartsWith(text, "id,username\n")
  {
    var brief := Project(page, false);
    if brief != [] {
      ProjectAt(page, false, 0);
      CsvHeaderLine(brief);
      BriefHeader();
    }
  }

  lemma BriefHeader()
    ensures Join(["id", "username"], ",") + "\n" == "id,username\n"
  {
    var h: seq<string> := ["id", "username"];
    assert h[1..] == ["username"];
    assert Join(h, ",") == "id" + "," + "username";
  }

  /** The `filters` block echoes the criteria, with the search lower-cased. */
  lemma FiltersEcho(q: UserQuery)
    ensures Get(Filters(q), "status") == Echo(q.status)
    ensures Get(Filters(q), "role") == Echo(q.role)
    ensures Get(Filters(q), "search") == Echo(SearchEcho(q.search))
    ensures Get(Filters(q), "include_deleted") == VBool(q.includeDeleted)
    ensures Given(q.search) ==> Get(Filters(q), "search") == VStr(Lower(q.search.value))
  {
    var f0 := Filters(q);
    var f1 := f0[1..];
    var f2 := f1[1..];
    var f3 := f2[1..];
    assert f1 == [f0[1], f0[2], f0[3]] && f2 == [f0[2], f0[3]] && f3 == [f0[3]];
    assert Get(f0, "role") == Get(f1, "role");
    assert Get(f0, "search") == Get(f1, "search") == Get(f2, "search");
    assert Get(f0, "include_deleted") == Get(f1, "include_deleted") == Get(f2, "include_deleted") == Get(f3, "include_deleted");
  }

  /** Which body the handler answers with follows from the filter outcome and `format` alone. */
  lemma ResponseKind(snapshot: seq<Record>, q: UserQuery)
    ensures var resp := UsersResponse(snapshot, q);
            && (FilterUsers(snapshot, q).Err? <==> resp == ServerError)
            && (FilterUsers(snapshot, q).Ok? && q.format == "csv" ==> resp.CsvBody?)
            && (FilterUsers(snapshot, q).Ok? && q.format != "csv" ==> resp.Listed?)
  {
    if FilterUsers(snapshot, q).Err? {
      FilterUsersFailure(snapshot, q);
    }
  }
}
