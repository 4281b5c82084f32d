/**
 * The two listings as main.py writes them. `workspaces.copy()` and
 * `users.copy()` are dicts keyed by id, so [... for ws in result ...] walks
 * the ids. Each id is a string, so the first `ws.get(...)` raises. When no
 * comprehension runs, `result` stays a dict, and a dict has neither `sort`
 * nor slicing. A list that a comprehension built is therefore always empty.
 *
 * Only an empty walk lets a listing through, so on a store holding any
 * record both handlers answer with a crash or a date message. The rest of
 * the model (`Workspaces`, `Users`) takes the stored records as the evidently
 * intended input. The lemmas below tie the two readings together: they
 * agree whenever the as-written handler survives.
 */
module AsWritten {
  import opened Wrappers
  import opened Values
  import opened Dates
  import opened Stages
  import opened Csv
  import opened Responses
  import Workspaces
  import Users
  import Store

  /** What `result` holds: the dict copy itself, or a list built by a comprehension (necessarily empty). */
  datatype Held = DictCopy(ids: seq<string>) | EmptyList

  /**
   * A comprehension over `result`: it raises on the first id, or builds the
   * empty list. It survives exactly when nothing is left to walk, leaves
   * nothing to walk, and never raises a date message.
   */
  function Comprehend(h: Held): (r: Result<Held, Failure>)
    ensures r.Ok? <==> Drained(h)
    ensures r.Ok? ==> Drained(r.value) && r.value.EmptyList?
    ensures r.Err? ==> !r.error.BadDate?
  {
    if h.DictCopy? && h.ids != [] then Err(Crash) else Ok(EmptyList)
  }

  /** An `if criterion:` block whose body is one comprehension. */
  function When(h: Held, applies: bool): Result<Held, Failure>
  {
    if applies then Comprehend(h) else Ok(h)
  }

  /** A date block: the bound is parsed first, then the comprehension runs. */
  function DateBlock(h: Held, bound: Option<string>, kind: Bound): Result<Held, Failure>
  {
    if !Given(bound) then Ok(h)
    else if ParseDate(bound.value).None? then Err(BadDate(BoundMessage(kind)))
    else Comprehend(h)
  }

  /** The workspace filter blocks, in the handler's order. */
  function FilterWorkspaces(ids: seq<string>, q: Workspaces.WorkspaceQuery): Result<Held, Failure>
  {
    var h1 :- When(DictCopy(ids), Given(q.typeFilter));
    var h2 :- When(h1, Given(q.status));
    var h3 :- When(h2, Given(q.ownerId));
    var h4 :- DateBlock(h3, q.createdAfter, After);
    var h5 :- DateBlock(h4, q.createdBefore, Before);
    var h6 :- When(h5, !q.includeDeleted);
    When(h6, Given(q.search))
  }

  /**
   * `GET /workspaces` as written. A dict that reaches the sort or the slice
   * raises. The empty list gives an empty page: enrichment then does nothing,
   * CSV is the sentinel, and the summary counts nothing.
   */
  function WorkspacesResponse(ids: seq<string>, q: Workspaces.WorkspaceQuery): Response
  {
    match FilterWorkspaces(ids, q)
    case Err(f) => FailureBody(f)
    case Ok(h) =>
      if h.DictCopy? then ServerError
      else if q.format == "csv" then CsvBody(NoResults)
      else if q.format == "summary" then Summary(0, map[], map[])
      else Listed([], Pagination(q.limit, q.offset, 0), Workspaces.Filters(q),
                  Stats(0, 0, Workspaces.ProcessingTimeMs))
  }

  /** The user filter blocks; an unknown `status` runs no comprehension. */
  function FilterUsers(ids: seq<string>, q: Users.UserQuery): Result<Held, Failure>
  {
    var known := Given(q.status) && q.status.value in {"active", "inactive", "pending"};
    var h1 :- When(DictCopy(ids), known);
    var h2 :- When(h1, Given(q.role));
    var h3 :- When(h2, Given(q.search));
    When(h3, !q.includeDeleted)
  }

  /** `GET /users` as written. */
  function UsersResponse(ids: seq<string>, q: Users.UserQuery): Response
  {
    match FilterUsers(ids, q)
    case Err(f) => FailureBody(f)
    case Ok(h) =>
      if h.DictCopy? then ServerError
      else if q.format == "csv" then CsvBody(NoResults)
      else Listed([], Pagination(q.limit, q.offset, 0), Users.Filters(q),
                  Stats(0, 0, Users.ProcessingTimeMs))
  }

  lemma WorkspaceBlocksHold(ids: seq<string>, q: Workspaces.WorkspaceQuery)
    requires ids != []
    ensures FilterWorkspaces(ids, q).Ok? ==> FilterWorkspaces(ids, q).value == DictCopy(ids)
    ensures FilterWorkspaces(ids, q).Err? ==>
              FilterWorkspaces(ids, q).error in {BadDate(BoundMessage(After)), BadDate(BoundMessage(Before)), Crash}
  {
  }

  /**
   * On a store holding any workspace, `GET /workspaces` as written never
   * lists, renders or summarizes: it answers 500 or a date message.
   */
  lemma WorkspacesNeverListed(ids: seq<string>, q: Workspaces.WorkspaceQuery)
    requires ids != []
    ensures WorkspacesResponse(ids, q) in
              {ServerError, ErrorBody(BoundMessage(After)), ErrorBody(BoundMessage(Before))}
  {
    WorkspaceBlocksHold(ids, q);
  }

  /** A bare `GET /workspaces` on a store holding one workspace answers 500. */
  lemma DefaultWorkspacesCrash(id: string)
    ensures WorkspacesResponse([id], Workspaces.DefaultQuery) == ServerError
  {
  }

  /** An empty page is what the intended listing holds for an empty store. */
  lemma EmptyStoreFiltered(q: Workspaces.WorkspaceQuery, draws: Workspaces.Draws)
    requires Workspaces.FilterWorkspaces([], q).Ok?
    ensures Workspaces.FilterWorkspaces([], q).value == []
    ensures var sorted := SortStage(Workspaces.FilterWorkspaces([], q).value, q.sortBy, q.sortOrder, Workspaces.SortFields);
            sorted == [] && Workspaces.Enrich(Page(sorted, q.offset, q.limit), q, draws) == []
  {
    Workspaces.FilterWorkspacesExact([], q);
    var sorted := SortStage(Workspaces.FilterWorkspaces([], q).value, q.sortBy, q.sortOrder, Workspaces.SortFields);
    SortStageFacts([], q.sortBy, q.sortOrder, Workspaces.SortFields);
    assert |sorted| == 0;
    Workspaces.EnrichLength(Page(sorted, q.offset, q.limit), q, draws);
  }

  /** Nothing is left to walk: the dict copy of an empty store, or a built list. */
  predicate Drained(h: Held)
  {
    h.EmptyList? || h.ids == []
  }

  /** On an empty store an as-written date block fails exactly as the intended stage does. */
  lemma EmptyDateBlock(h: Held, bound: Option<string>, kind: Bound)
    requires Drained(h)
    ensures DateBlock(h, bound, kind).Ok? == DateStage([], bound, kind).Ok?
    ensures DateBlock(h, bound, kind).Ok? ==>
              Drained(DateBlock(h, bound, kind).value) && DateStage([], bound, kind).value == []
    ensures DateBlock(h, bound, kind).Err? ==> DateBlock(h, bound, kind).error == DateStage([], bound, kind).error
  {
  }

  /** On an empty store the intended search and soft-delete stages keep the empty list. */
  lemma EmptyTail(q: Workspaces.WorkspaceQuery)
    ensures SearchStage(HideDeleted([], q.includeDeleted), q.search, Workspaces.SearchFields) == Ok([])
  {
    assert HideDeleted([], q.includeDeleted) == [];
  }

  /** On an empty store both readings of the filter blocks fail alike, or both keep nothing. */
  lemma EmptyFilterAgrees(q: Workspaces.WorkspaceQuery)
    ensures FilterWorkspaces([], q).Ok? == Workspaces.FilterWorkspaces([], q).Ok?
    ensures FilterWorkspaces([], q).Ok? ==>
              Drained(FilterWorkspaces([], q).value) && Workspaces.FilterWorkspaces([], q).value == []
    ensures FilterWorkspaces([], q).Err? ==> FilterWorkspaces([], q).error == Workspaces.FilterWorkspaces([], q).error
  {
    var h3 := When(When(When(DictCopy([]), Given(q.typeFilter)).value, Given(q.status)).value, Given(q.ownerId)).value;
    assert FilterWorkspaces([], q) == match DateBlock(h3, q.createdAfter, After)
      case Err(f) => Err(f)
      case Ok(h4) => match DateBlock(h4, q.createdBefore, Before)
        case Err(f) => Err(f)
        case Ok(h5) => When(When(h5, !q.includeDeleted).value, Given(q.search));
    var byOwner := WhereEq(WhereEq(WhereEq([], "type", q.typeFilter), "status", q.status), "owner_id", q.ownerId);
    assert byOwner == [];
    EmptyDateBlock(h3, q.createdAfter, After);
    EmptyTail(q);
    if DateBlock(h3, q.createdAfter, After).Ok? {
      EmptyDateBlock(DateBlock(h3, q.createdAfter, After).value, q.createdBefore, Before);
    }
  }

  /** The summary of an empty page counts nothing. */
  lemma EmptySummary()
    ensures Workspaces.Summarize([]) == Summary(0, map[], map[])
  {
    assert Workspaces.Tally([], "type") == Ok(map[]);
    assert Workspaces.Tally([], "status") == Ok(map[]);
  }

  /**
   * The two readings agree on an empty store: whenever the handler as
   * written survives, it answers what the intended handler answers.
   */
  lemma WorkspacesAgreeWhenEmpty(q: Workspaces.WorkspaceQuery, draws: Workspaces.Draws)
    ensures WorkspacesResponse([], q) != ServerError ==>
              WorkspacesResponse([], q) == Workspaces.WorkspacesResponse([], q, draws)
  {
    EmptyFilterAgrees(q);
    if Workspaces.FilterWorkspaces([], q).Ok? {
      EmptyStoreFiltered(q, draws);
      CsvReadBack([]);
      EmptySummary();
    }
  }

  /** On a store holding any user, `GET /users` as written always answers 500, whatever the query. */
  lemma UsersAlwaysCrash(ids: seq<string>, q: Users.UserQuery)
    requires ids != []
    ensures UsersResponse(ids, q) == ServerError
  {
  }

  /** The store is seeded with two users, so as written the user listing answers 500 from the start. */
  lemma SeededUsersCrash(q: Users.UserQuery)
    ensures UsersResponse(["user1", "user2"], q) == ServerError
  {
    UsersAlwaysCrash(["user1", "user2"], q);
  }

  /** The intended listing shows both seeded users to a bare `GET /users`. */
  lemma SeededUsersListed()
    ensures Users.UsersResponse([Store.John(), Store.Jane()], Users.DefaultQuery).Listed?
    ensures |Users.UsersResponse([Store.John(), Store.Jane()], Users.DefaultQuery).items| == 2
  {
    var s := [Store.John(), Store.Jane()];
    var q := Users.DefaultQuery;
    SeededUsersFiltered();
    assert Users.UsersResponse(s, q).Listed?;
    Users.ListingReturned(s, q);
    Users.FilterUsersExact(s, q);
  }

  /** A bare `GET /users` keeps both seeded users through every filter block. */
  lemma SeededUsersFiltered()
    ensures Users.FilterUsers([Store.John(), Store.Jane()], Users.DefaultQuery) == Ok([Store.John(), Store.Jane()])
  {
    var s := [Store.John(), Store.Jane()];
    assert Keys(Store.John()) == ["id", "name", "email", "role"];
    assert Keys(Store.Jane()) == ["id", "name", "email", "role"];
    assert NotDeleted(Store.John()) && NotDeleted(Store.Jane());
    WhereAll(s, NotDeleted);
  }
}
