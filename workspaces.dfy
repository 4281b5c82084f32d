/**
 * `GET /workspaces` (main.py:159-305): filter the stored workspaces, sort
 * them, cut out one page, optionally attach dummy members and resources, and
 * answer as CSV, as a summary of types and statuses, or as a listing with
 * pagination, filter echo and statistics.
 *
 * The handler starts from `workspaces.copy()`, a dict, so its comprehensions
 * would walk the workspace ids and `result.sort` would fail on a dict. The
 * handler evidently means the stored records, and this model takes the
 * records, in insertion order, as its `snapshot`. The copy is also shallow,
 * so the handler's enrichment writes into the stored records themselves;
 * here every stage works on values and the store is left as it was.
 */
module Workspaces {
  import opened Wrappers
  import opened Text
  import opened Values
  import opened Dates
  import opened Stages
  import opened Sorting
  import opened Csv
  import opened Responses

  /** The query parameters; `typeFilter` is the `type` parameter. */
  datatype WorkspaceQuery = WorkspaceQuery(
    limit: nat,
    offset: nat,
    sortBy: string,
    sortOrder: string,
    typeFilter: Option<string>,
    status: Option<string>,
    ownerId: Option<string>,
    createdAfter: Option<string>,
    createdBefore: Option<string>,
    includeMembers: bool,
    includeResources: bool,
    includeDeleted: bool,
    search: Option<string>,
    format: string)

  /** The parameters a bare `GET /workspaces` gets. */
  const DefaultQuery: WorkspaceQuery :=
    WorkspaceQuery(50, 0, "name", "asc", None, None, None, None, None, false, false, false, None, "json")

  const SearchFields: seq<string> := ["name", "description"]
  const SortFields: seq<string> := ["name", "created_at", "updated_at", "member_count"]
  const ProcessingTimeMs: nat := 37

  // ---------------------------------------------------------------------------
  // Filtering

  /** Every criterion of the query, as one test. */
  function QueryTest(q: WorkspaceQuery): Record -> bool
  {
    And(And(And(And(And(And(
      EqTest("type", q.typeFilter),
      EqTest("status", q.status)),
      EqTest("owner_id", q.ownerId)),
      DateTest(q.createdAfter, After)),
      DateTest(q.createdBefore, Before)),
      Visible(q.includeDeleted)),
      SearchTest(q.search, SearchFields))
  }

  /** A workspace passes every supplied criterion. */
  predicate Matches(r: Record, q: WorkspaceQuery)
  {
    && EqOk(r, "type", q.typeFilter)
    && EqOk(r, "status", q.status)
    && EqOk(r, "owner_id", q.ownerId)
    && DateOk(r, q.createdAfter, After)
    && DateOk(r, q.createdBefore, Before)
    && (q.includeDeleted || NotDeleted(r))
    && SearchOk(r, q.search, SearchFields)
  }

  lemma QueryTestIsMatches(q: WorkspaceQuery, r: Record)
    ensures QueryTest(q)(r) == Matches(r, q)
  {
  }

  /** The filter stages, in the handler's order. */
  function FilterWorkspaces(s: seq<Record>, q: WorkspaceQuery): Result<seq<Record>, Failure>
  {
    var byType := WhereEq(s, "type", q.typeFilter);
    var byStatus := WhereEq(byType, "status", q.status);
    var byOwner := WhereEq(byStatus, "owner_id", q.ownerId);
    var after :- DateStage(byOwner, q.createdAfter, After);
    var before :- DateStage(after, q.createdBefore, Before);
    SearchStage(HideDeleted(before, q.includeDeleted), q.search, SearchFields)
  }

  /**
   * When filtering succeeds it keeps exactly the workspaces passing every
   * criterion, in collection order.
   */
  lemma FilterWorkspacesExact(s: seq<Record>, q: WorkspaceQuery)
    requires FilterWorkspaces(s, q).Ok?
    ensures FilterWorkspaces(s, q).value == Where(s, QueryTest(q))
    ensures forall r :: r in FilterWorkspaces(s, q).value ==> r in s && Matches(r, q)
  {
    var t1, t2, t3 := EqTest("type", q.typeFilter), EqTest("status", q.status), EqTest("owner_id", q.ownerId);
    var t4, t5 := DateTest(q.createdAfter, After), DateTest(q.createdBefore, Before);
    var t6, t7 := Visible(q.includeDeleted), SearchTest(q.search, SearchFields);
    var byType := WhereEq(s, "type", q.typeFilter);
    var byStatus := WhereEq(byType, "status", q.status);
    var byOwner := WhereEq(byStatus, "owner_id", q.ownerId);
    WhereEqIsFilter(s, "type", q.typeFilter);
    WhereEqIsFilter(byType, "status", q.status);
    WhereWhere(s, t1, t2);
    WhereEqIsFilter(byStatus, "owner_id", q.ownerId);
    WhereWhere(s, And(t1, t2), t3);
    var after := DateStage(byOwner, q.createdAfter, After).value;
    DateStageIsFilter(byOwner, q.createdAfter, After);
    WhereWhere(s, And(And(t1, t2), t3), t4);
    var before := DateStage(after, q.createdBefore, Before).value;
    DateStageIsFilter(after, q.createdBefore, Before);
    WhereWhere(s, And(And(And(t1, t2), t3), t4), t5);
    HideDeletedIsFilter(before, q.includeDeleted);
    WhereWhere(s, And(And(And(And(t1, t2), t3), t4), t5), t6);
    SearchStageIsFilter(HideDeleted(before, q.includeDeleted), q.search, SearchFields);
    WhereWhere(s, And(And(And(And(And(t1, t2), t3), t4), t5), t6), t7);
    forall r | r in FilterWorkspaces(s, q).value
      ensures r in s && Matches(r, q)
    {
      QueryTestIsMatches(q, r);
    }
  }

  /** Filtering fails only with one of the two date messages or a crash. */
  lemma FilterWorkspacesFailures(s: seq<Record>, q: WorkspaceQuery)
    requires FilterWorkspaces(s, q).Err?
    ensures FilterWorkspaces(s, q).error
            in {BadDate(BoundMessage(After)), BadDate(BoundMessage(Before)), Crash}
  {
    var byOwner := WhereEq(WhereEq(WhereEq(s, "type", q.typeFilter), "status", q.status), "owner_id", q.ownerId);
    var a := DateStage(byOwner, q.createdAfter, After);
    if a.Err? {
      DateStageFailure(byOwner, q.createdAfter, After);
    } else {
      var b := DateStage(a.value, q.createdBefore, Before);
      if b.Err? {
        DateStageFailure(a.value, q.createdBefore, Before);
      } else {
        SearchStageFailure(HideDeleted(b.value, q.includeDeleted), q.search, SearchFields);
      }
    }
  }

  /** An unreadable `created_after` is reported whatever is stored. */
  lemma BadAfterReported(s: seq<Record>, q: WorkspaceQuery, draws: Draws)
    requires Given(q.createdAfter) && ParseDate(q.createdAfter.value).None?
    ensures WorkspacesResponse(s, q, draws) == ErrorBody(BoundMessage(After))
  {
  }

  /**
   * An unreadable `created_before` is reported, whatever is stored, unless the
   * `created_after` stage failed first; then that failure is answered.
   */
  lemma BadBeforeReported(s: seq<Record>, q: WorkspaceQuery, draws: Draws)
    requires Given(q.createdBefore) && ParseDate(q.createdBefore.value).None?
    ensures WorkspacesResponse(s, q, draws) == ErrorBody(BoundMessage(Before))
            || WorkspacesResponse(s, q, draws) == ErrorBody(BoundMessage(After))
            || WorkspacesResponse(s, q, draws) == ServerError
    ensures var byOwner := WhereEq(WhereEq(WhereEq(s, "type", q.typeFilter), "status", q.status), "owner_id", q.ownerId);
            DateStage(byOwner, q.createdAfter, After).Ok? ==>
              WorkspacesResponse(s, q, draws) == ErrorBody(BoundMessage(Before))
    ensures var byOwner := WhereEq(WhereEq(WhereEq(s, "type", q.typeFilter), "status", q.status), "owner_id", q.ownerId);
            DateStage(byOwner, q.createdAfter, After).Err? ==>
              WorkspacesResponse(s, q, draws) == FailureBody(DateStage(byOwner, q.createdAfter, After).error)
    ensures !Given(q.createdAfter) ==> WorkspacesResponse(s, q, draws) == ErrorBody(BoundMessage(Before))
  {
    var byOwner := WhereEq(WhereEq(WhereEq(s, "type", q.typeFilter), "status", q.status), "owner_id", q.ownerId);
    var a := DateStage(byOwner, q.createdAfter, After);
    if a.Err? {
      DateStageFailure(byOwner, q.createdAfter, After);
    } else {
      DateStageBadBound(a.value, q.createdBefore, Before);
    }
  }

  // ---------------------------------------------------------------------------
  // Dummy enrichment

  datatype ResourceKind = Document | Dashboard | Dataset

  function KindName(k: ResourceKind): string
  {
    match k
    case Document => "document"
    case Dashboard => "dashboard"
    case Dataset => "dataset"
  }

  /** `random.randint(3, 8)`: one more than the number of dummy members. */
  type MemberDraw = n: nat | 3 <= n <= 8 witness 3

  /** `random.randint(2, 6)`: one more than the number of dummy resources. */
  type ResourceDraw = n: nat | 2 <= n <= 6 witness 2

  /**
   * The random choices, supplied by the caller and indexed by position on the
   * page (and, for a resource's type, by the resource's number).
   */
  datatype Draws = Draws(members: nat -> MemberDraw, resources: nat -> ResourceDraw, kinds: (nat, nat) -> ResourceKind)

  /** Dummy member `i`: `user_1` is the admin, the others are members. */
  function MemberEntry(i: nat): Value
  {
    VDict([Field("user_id", VStr("user_" + NatToString(i))),
           Field("role", VStr(if i > 1 then "member" else "admin"))])
  }

  function DummyMembers(n: MemberDraw): seq<Value>
  {
    seq(n - 1, k requires 0 <= k < n - 1 => MemberEntry(k + 1))
  }

  /** Dummy resource `i` of a workspace named `owner`. */
  function ResourceEntry(i: nat, kind: ResourceKind, owner: string): Value
  {
    VDict([Field("id", VStr("resource_" + NatToString(i))),
           Field("type", VStr(KindName(kind))),
           Field("name", VStr("Resource " + NatToString(i) + " for " + owner))])
  }

  /** The resources of the workspace at position `pos`, named after `ws.get('name', 'Unknown')`. */
  function DummyResources(ws: Record, pos: nat, draws: Draws): seq<Value>
  {
    var owner := Str(GetOr(ws, "name", VStr("Unknown")));
    var n := draws.resources(pos);
    seq(n - 1, k requires 0 <= k < n - 1 => ResourceEntry(k + 1, draws.kinds(pos, k + 1), owner))
  }

  /** `if "id" in ws: ws["members"] = ...` for one item. */
  function MembersAdded(ws: Record, n: MemberDraw): Record
  {
    if Has(ws, "id") then Set(ws, "members", VList(DummyMembers(n))) else ws
  }

  /** `if "id" in ws: ws["resources"] = ...` for the item at position `pos`. */
  function ResourcesAdded(ws: Record, pos: nat, draws: Draws): Record
  {
    if Has(ws, "id") then Set(ws, "resources", VList(DummyResources(ws, pos, draws))) else ws
  }

  /** Attaching one field to an item with an `id`, and leaving an item without one alone. */
  lemma AttachFacts(ws: Record, k: string, v: Value)
    requires k != "id"
    ensures var r := if Has(ws, "id") then Set(ws, k, v) else ws;
            && Has(r, "id") == Has(ws, "id")
            && (Has(ws, "id") ==> Get(r, k) == v)
            && forall k', d :: k' != k ==> GetOr(r, k', d) == GetOr(ws, k', d)
  {
    SetFacts(ws, k, v);
  }

  lemma MembersAddedFacts(ws: Record, n: MemberDraw)
    ensures Has(MembersAdded(ws, n), "id") == Has(ws, "id")
    ensures Has(ws, "id") ==> Get(MembersAdded(ws, n), "members") == VList(DummyMembers(n))
    ensures forall k, d :: k != "members" ==> GetOr(MembersAdded(ws, n), k, d) == GetOr(ws, k, d)
  {
    AttachFacts(ws, "members", VList(DummyMembers(n)));
  }

  /** One field of an item read after its members are attached. */
  lemma MembersAddedReads(ws: Record, n: MemberDraw, k: string, d: Value)
    requires k != "members"
    ensures Has(MembersAdded(ws, n), "id") == Has(ws, "id")
    ensures GetOr(MembersAdded(ws, n), k, d) == GetOr(ws, k, d)
  {
    MembersAddedFacts(ws, n);
  }

  lemma ResourcesAddedFacts(ws: Record, pos: nat, draws: Draws)
    ensures Has(ResourcesAdded(ws, pos, draws), "id") == Has(ws, "id")
    ensures Has(ws, "id") ==> Get(ResourcesAdded(ws, pos, draws), "resources") == VList(DummyResources(ws, pos, draws))
    ensures forall k, d :: k != "resources" ==> GetOr(ResourcesAdded(ws, pos, draws), k, d) == GetOr(ws, k, d)
  {
    AttachFacts(ws, "resources", VList(DummyResources(ws, pos, draws)));
  }

  /** `for ws in result: if "id" in ws: ws["members"] = ...`. */
  function WithMembers(page: seq<Record>, draws: Draws): seq<Record>
  {
    seq(|page|, i requires 0 <= i < |page| => MembersAdded(page[i], draws.members(i)))
  }

  /** `for ws in result: if "id" in ws: ws["resources"] = ...`. */
  function WithResources(page: seq<Record>, draws: Draws): seq<Record>
  {
    seq(|page|, i requires 0 <= i < |page| => ResourcesAdded(page[i], i, draws))
  }

  function Enrich(page: seq<Record>, q: WorkspaceQuery, draws: Draws): seq<Record>
  {
    var withMembers := if q.includeMembers then WithMembers(page, draws) else page;
    if q.includeResources then WithResources(withMembers, draws) else withMembers
  }

  /** Both enrichment steps on the item at position `pos`. */
  function EnrichItem(ws: Record, pos: nat, q: WorkspaceQuery, draws: Draws): Record
  {
    var withMembers := if q.includeMembers then MembersAdded(ws, draws.members(pos)) else ws;
    if q.includeResources then ResourcesAdded(withMembers, pos, draws) else withMembers
  }

  lemma EnrichLength(page: seq<Record>, q: WorkspaceQuery, draws: Draws)
    ensures |Enrich(page, q, draws)| == |page|
  {
  }

  lemma EnrichAt(page: seq<Record>, q: WorkspaceQuery, draws: Draws, i: nat)
    requires i < |page|
    ensures |Enrich(page, q, draws)| == |page|
    ensures Enrich(page, q, draws)[i] == EnrichItem(page[i], i, q, draws)
  {
  }

  method AddMembers(page: array<Record>, draws: Draws)
    modifies page
    ensures page[..] == WithMembers(old(page[..]), draws)
  {
    ghost var before := page[..];
    for i := 0 to page.Length
      invariant forall k :: 0 <= k < i ==> page[k] == MembersAdded(before[k], draws.members(k))
      invariant forall k :: i <= k < page.Length ==> page[k] == before[k]
    {
      if Has(page[i], "id") {
        page[i] := Set(page[i], "members", VList(DummyMembers(draws.members(i))));
      }
    }
  }

  method AddResources(page: array<Record>, draws: Draws)
    modifies page
    ensures page[..] == WithResources(old(page[..]), draws)
  {
    ghost var before := page[..];
    for i := 0 to page.Length
      invariant page[..i] == WithResources(before[..i], draws)
      invariant page[i..] == before[i..]
    {
      var ws := page[i];
      assert ws == before[i];
      if Has(ws, "id") {
        page[i] := Set(ws, "resources", VList(DummyResources(ws, i, draws)));
      }
      assert page[..i + 1] == WithResources(before[..i], draws) + [ResourcesAdded(ws, i, draws)];
      assert before[..i + 1] == before[..i] + [before[i]];
    }
    assert page[..] == page[..page.Length] && before == before[..page.Length];
  }

  /**
   * Enrichment keeps the page's length, leaves items without an `id` as they
   * are, and changes no field but `members` and `resources`.
   */
  lemma EnrichIsLocal(page: seq<Record>, q: WorkspaceQuery, draws: Draws)
    ensures |Enrich(page, q, draws)| == |page|
    ensures forall i :: 0 <= i < |page| && !Has(page[i], "id") ==> Enrich(page, q, draws)[i] == page[i]
    ensures forall i :: 0 <= i < |page| ==> Has(Enrich(page, q, draws)[i], "id") == Has(page[i], "id")
    ensures forall i, k, d :: 0 <= i < |page| && k != "members" && k != "resources" ==>
              GetOr(Enrich(page, q, draws)[i], k, d) == GetOr(page[i], k, d)
  {
    var e := Enrich(page, q, draws);
    forall i | 0 <= i < |page|
      ensures !Has(page[i], "id") ==> e[i] == page[i]
      ensures Has(e[i], "id") == Has(page[i], "id")
      ensures forall k, d :: k != "members" && k != "resources" ==> GetOr(e[i], k, d) == GetOr(page[i], k, d)
    {
      EnrichAt(page, q, draws, i);
      MembersAddedFacts(page[i], draws.members(i));
      var w := if q.includeMembers then MembersAdded(page[i], draws.members(i)) else page[i];
      ResourcesAddedFacts(w, i, draws);
    }
  }

  lemma MemberEntryFields(i: nat)
    ensures MemberEntry(i).VDict?
    ensures Get(MemberEntry(i).fields, "user_id") == VStr("user_" + NatToString(i))
    ensures Get(MemberEntry(i).fields, "role") == VStr(if i > 1 then "member" else "admin")
  {
    var fs := MemberEntry(i).fields;
    assert fs[1..] == [fs[1]];
    assert GetOr(fs, "role", VNone) == GetOr(fs[1..], "role", VNone);
  }

  lemma ResourceEntryFields(i: nat, kind: ResourceKind, owner: string)
    ensures ResourceEntry(i, kind, owner).VDict?
    ensures Get(ResourceEntry(i, kind, owner).fields, "id") == VStr("resource_" + NatToString(i))
    ensures Get(ResourceEntry(i, kind, owner).fields, "name") == VStr("Resource " + NatToString(i) + " for " + owner)
  {
    var fs := ResourceEntry(i, kind, owner).fields;
    var rest := fs[1..];
    assert rest == [fs[1], fs[2]] && rest[1..] == [fs[2]];
    assert GetOr(fs, "name", VNone) == GetOr(rest, "name", VNone) == GetOr(rest[1..], "name", VNone);
  }

  /** Two to seven dummy members `user_1`, `user_2`, ..., only the first an admin. */
  lemma DummyMembersShape(n: MemberDraw)
    ensures 2 <= |DummyMembers(n)| <= 7
    ensures forall j :: 0 <= j < |DummyMembers(n)| ==>
              && DummyMembers(n)[j].VDict?
              && Get(DummyMembers(n)[j].fields, "user_id") == VStr("user_" + NatToString(j + 1))
              && Get(DummyMembers(n)[j].fields, "role") == VStr(if j == 0 then "admin" else "member")
  {
    forall j | 0 <= j < |DummyMembers(n)|
      ensures && DummyMembers(n)[j].VDict?
              && Get(DummyMembers(n)[j].fields, "user_id") == VStr("user_" + NatToString(j + 1))
              && Get(DummyMembers(n)[j].fields, "role") == VStr(if j == 0 then "admin" else "member")
    {
      MemberEntryFields(j + 1);
    }
  }

  /** One to five dummy resources `resource_1`, ..., named after the workspace. */
  lemma DummyResourcesShape(ws: Record, pos: nat, draws: Draws)
    ensures 1 <= |DummyResources(ws, pos, draws)| <= 5
    ensures forall j :: 0 <= j < |DummyResources(ws, pos, draws)| ==>
              && DummyResources(ws, pos, draws)[j].VDict?
              && Get(DummyResources(ws, pos, draws)[j].fields, "id") == VStr("resource_" + NatToString(j + 1))
              && Get(DummyResources(ws, pos, draws)[j].fields, "name")
                 == VStr("Resource " + NatToString(j + 1) + " for " + Str(GetOr(ws, "name", VStr("Unknown"))))
  {
    var rs := DummyResources(ws, pos, draws);
    var owner := Str(GetOr(ws, "name", VStr("Unknown")));
    forall j | 0 <= j < |rs|
      ensures && rs[j].VDict?
              && Get(rs[j].fields, "id") == VStr("resource_" + NatToString(j + 1))
              && Get(rs[j].fields, "name") == VStr("Resource " + NatToString(j + 1) + " for " + owner)
    {
      assert rs[j] == ResourceEntry(j + 1, draws.kinds(pos, j + 1), owner);
      ResourceEntryFields(j + 1, draws.kinds(pos, j + 1), owner);
    }
  }

  /**
   * With `include_members`, an item that has an `id` gets two to seven dummy
   * members `user_1`, `user_2`, ... of which only the first is an admin.
   */
  lemma EnrichedMembers(page: seq<Record>, q: WorkspaceQuery, draws: Draws, i: nat)
    requires q.includeMembers && i < |page| && Has(page[i], "id")
    ensures Get(Enrich(page, q, draws)[i], "members").VList?
    ensures var ms := Get(Enrich(page, q, draws)[i], "members").items;
            && 2 <= |ms| <= 7
            && forall j :: 0 <= j < |ms| ==>
                 && ms[j].VDict?
                 && Get(ms[j].fields, "user_id") == VStr("user_" + NatToString(j + 1))
                 && Get(ms[j].fields, "role") == VStr(if j == 0 then "admin" else "member")
  {
    EnrichAt(page, q, draws, i);
    var n := draws.members(i);
    MembersAddedFacts(page[i], n);
    if q.includeResources {
      ResourcesAddedFacts(MembersAdded(page[i], n), i, draws);
    }
    assert Get(Enrich(page, q, draws)[i], "members") == VList(DummyMembers(n));
    DummyMembersShape(n);
  }

  /**
   * With `include_resources`, an item that has an `id` gets one to five dummy
   * resources `resource_1`, ... named after the workspace, `Unknown` when it
   * has no name.
   */
  lemma EnrichedResources(page: seq<Record>, q: WorkspaceQuery, draws: Draws, i: nat)
    requires q.includeResources && i < |page| && Has(page[i], "id")
    ensures Get(Enrich(page, q, draws)[i], "resources").VList?
    ensures var rs := Get(Enrich(page, q, draws)[i], "resources").items;
            && 1 <= |rs| <= 5
            && forall j :: 0 <= j < |rs| ==>
                 && rs[j].VDict?
                 && Get(rs[j].fields, "id") == VStr("resource_" + NatToString(j + 1))
                 && Get(rs[j].fields, "name")
                    == VStr("Resource " + NatToString(j + 1) + " for " + Str(GetOr(page[i], "name", VStr("Unknown"))))
  {
    EnrichAt(page, q, draws, i);
    var w := if q.includeMembers then MembersAdded(page[i], draws.members(i)) else page[i];
    MembersAddedReads(page[i], draws.members(i), "name", VStr("Unknown"));
    assert Has(w, "id") && GetOr(w, "name", VStr("Unknown")) == GetOr(page[i], "name", VStr("Unknown"));
    ResourcesAddedFacts(w, i, draws);
    assert Get(Enrich(page, q, draws)[i], "resources") == VList(DummyResources(w, i, draws));
    DummyResourcesShape(w, i, draws);
  }

  /** Whether a workspace matches depends only on the fields the criteria read. */
  lemma MatchesFromFields(r1: Record, r2: Record, q: WorkspaceQuery)
    requires Get(r1, "type") == Get(r2, "type") && Get(r1, "status") == Get(r2, "status")
    requires Get(r1, "owner_id") == Get(r2, "owner_id") && Get(r1, "deleted_at") == Get(r2, "deleted_at")
    requires GetOr(r1, "created_at", VStr(BoundDefault(After))) == GetOr(r2, "created_at", VStr(BoundDefault(After)))
    requires GetOr(r1, "created_at", VStr(BoundDefault(Before))) == GetOr(r2, "created_at", VStr(BoundDefault(Before)))
    requires GetOr(r1, "name", VStr("")) == GetOr(r2, "name", VStr(""))
    requires GetOr(r1, "description", VStr("")) == GetOr(r2, "description", VStr(""))
    ensures Matches(r1, q) == Matches(r2, q)
  {
    DateOkAgrees(r1, r2, q.createdAfter, After);
    DateOkAgrees(r1, r2, q.createdBefore, Before);
    forall j | 0 <= j < |SearchFields|
      ensures GetOr(r1, SearchFields[j], VStr("")) == GetOr(r2, SearchFields[j], VStr(""))
    {
      assert SearchFields[j] == if j == 0 then "name" else "description";
    }
    SearchOkAgrees(r1, r2, q.search, SearchFields);
    assert EqOk(r1, "type", q.typeFilter) == EqOk(r2, "type", q.typeFilter);
    assert EqOk(r1, "status", q.status) == EqOk(r2, "status", q.status);
    assert EqOk(r1, "owner_id", q.ownerId) == EqOk(r2, "owner_id", q.ownerId);
    assert NotDeleted(r1) == NotDeleted(r2);
  }

  /** Whether a workspace matches depends on no field enrichment writes. */
  lemma MatchesIgnoresEnrichment(r1: Record, r2: Record, q: WorkspaceQuery)
    requires forall k, d :: k != "members" && k != "resources" ==> GetOr(r1, k, d) == GetOr(r2, k, d)
    ensures Matches(r1, q) == Matches(r2, q)
  {
    MatchesFromFields(r1, r2, q);
  }

  /** Enrichment writes no field any criterion reads, so enriched items still match. */
  lemma EnrichKeepsMatches(page: seq<Record>, q: WorkspaceQuery, draws: Draws)
    requires forall r :: r in page ==> Matches(r, q)
    ensures forall r :: r in Enrich(page, q, draws) ==> Matches(r, q)
  {
    EnrichIsLocal(page, q, draws);
    var e := Enrich(page, q, draws);
    forall r | r in e
      ensures Matches(r, q)
    {
      var i :| 0 <= i < |e| && e[i] == r;
      assert page[i] in page;
      MatchesIgnoresEnrichment(e[i], page[i], q);
    }
  }

  // ---------------------------------------------------------------------------
  // Summary

  /** `set(ws.get(field, "unknown") for ws in result)`. */
  function TallyKeys(page: seq<Record>, field: string): set<Value>
  {
    set i | 0 <= i < |page| :: GetOr(page[i], field, VStr("unknown"))
  }

  /** `ws.get(field) == k` as a test. */
  function FieldEquals(field: string, k: Value): Record -> bool
  {
    r => Get(r, field) == k
  }

  /**
   * `{k: len([ws for ws in result if ws.get(field) == k]) for k in <keys>}`;
   * building the set raises when some value is unhashable.
   */
  function Tally(page: seq<Record>, field: string): Result<map<Value, nat>, Failure>
  {
    if exists i | 0 <= i < |page| :: !Hashable(GetOr(page[i], field, VStr("unknown"))) then Err(Crash)
    else Ok(map k | k in TallyKeys(page, field) :: |Where(page, FieldEquals(field, k))|)
  }

  /** The `format == "summary"` body. */
  function Summarize(page: seq<Record>): Response
  {
    match (Tally(page, "type"), Tally(page, "status"))
    case (Ok(types), Ok(statuses)) => Summary(|page|, types, statuses)
    case _ => ServerError
  }

  /**
   * A tally succeeds exactly when every value is hashable; its keys are the
   * values read with default `"unknown"`, and each key maps to the number of
   * items whose field literally equals it.
   */
  lemma TallyMeans(page: seq<Record>, field: string)
    ensures Tally(page, field).Ok? <==> forall i :: 0 <= i < |page| ==> Hashable(GetOr(page[i], field, VStr("unknown")))
    ensures Tally(page, field).Ok? ==>
              forall k :: k in Tally(page, field).value <==>
                exists i :: 0 <= i < |page| && GetOr(page[i], field, VStr("unknown")) == k
    ensures Tally(page, field).Ok? ==>
              forall k :: k in Tally(page, field).value ==>
                Tally(page, field).value[k] == |Where(page, FieldEquals(field, k))| <= |page|
  {
  }

  /** An item holding the field adds at least one to the count of its value. */
  lemma TallyCountsItem(page: seq<Record>, field: string, i: nat)
    requires Tally(page, field).Ok? && i < |page| && Has(page[i], field)
    ensures Get(page[i], field) in Tally(page, field).value
    ensures Tally(page, field).value[Get(page[i], field)] >= 1
  {
    var k := Get(page[i], field);
    GetOrPresent(page[i], field, VStr("unknown"), VNone);
    assert k in TallyKeys(page, field);
    WhereMultiset(page, FieldEquals(field, k), page[i]);
    assert page[i] in multiset(Where(page, FieldEquals(field, k)));
  }

  /**
   * Items without the field are tallied under `"unknown"`, but counted only
   * where the field equals `"unknown"`: with no item holding it the tally is
   * `{"unknown": 0}`.
   */
  lemma TallyAllMissing(page: seq<Record>, field: string)
    requires page != []
    requires forall i :: 0 <= i < |page| ==> !Has(page[i], field)
    ensures Tally(page, field) == Ok(map[VStr("unknown") := 0])
  {
    forall i | 0 <= i < |page|
      ensures GetOr(page[i], field, VStr("unknown")) == VStr("unknown")
    {
    }
    assert TallyKeys(page, field) == {VStr("unknown")} by {
      assert GetOr(page[0], field, VStr("unknown")) == VStr("unknown");
    }
    forall x | x in page
      ensures !FieldEquals(field, VStr("unknown"))(x)
    {
      var i :| 0 <= i < |page| && page[i] == x;
      assert Get(x, field) == VNone;
    }
    WhereNone(page, FieldEquals(field, VStr("unknown")));
    var m := Tally(page, field).value;
    assert m.Keys == {VStr("unknown")};
    assert m[VStr("unknown")] == 0;
    assert m == map[VStr("unknown") := 0];
  }

  // ---------------------------------------------------------------------------
  // The response

  /** The `filters` block: the criteria as given, `search` lowered. */
  function Filters(q: WorkspaceQuery): Record
  {
    [Field("type", Echo(q.typeFilter)),
     Field("status", Echo(q.status)),
     Field("owner_id", Echo(q.ownerId)),
     Field("include_deleted", VBool(q.includeDeleted)),
     Field("search", Echo(SearchEcho(q.search)))]
  }

  /** The body `GET /workspaces` answers with for a snapshot of the stored workspaces. */
  function WorkspacesResponse(snapshot: seq<Record>, q: WorkspaceQuery, draws: Draws): Response
  {
    match FilterWorkspaces(snapshot, q)
    case Err(f) => FailureBody(f)
    case Ok(filtered) =>
      var sorted := SortStage(filtered, q.sortBy, q.sortOrder, SortFields);
      var page := Enrich(Page(sorted, q.offset, q.limit), q, draws);
      if q.format == "csv" then CsvBody(CsvText(page))
      else if q.format == "summary" then Summarize(page)
      else Listed(page, Pagination(q.limit, q.offset, |sorted|), Filters(q),
                  Stats(|sorted|, |page|, ProcessingTimeMs))
  }

  /** The handler, stage by stage, on a snapshot of the stored workspaces. */
  method GetWorkspaces(snapshot: seq<Record>, q: WorkspaceQuery, draws: Draws) returns (resp: Response)
    ensures resp == WorkspacesResponse(snapshot, q, draws)
  {
    var filtered := FilterWorkspaces(snapshot, q);
    if filtered.Err? {
      return FailureBody(filtered.error);
    }
    var result := ToArray(filtered.value);
    SortListing(result, q.sortBy, q.sortOrder, SortFields);
    var totalCount := result.Length;
    var page := ToArray(Page(result[..], q.offset, q.limit));
    if q.includeMembers {
      AddMembers(page, draws);
    }
    if q.includeResources {
      AddResources(page, draws);
    }
    if q.format == "csv" {
      var text := RenderCsv(page);
      return CsvBody(text);
    } else if q.format == "summary" {
      return Summarize(page[..]);
    }
    resp := Listed(page[..], Pagination(q.limit, q.offset, totalCount), Filters(q),
                   Stats(totalCount, page.Length, ProcessingTimeMs));
  }

  /** The listing body, stage by stage. */
  lemma ListingIs(snapshot: seq<Record>, q: WorkspaceQuery, draws: Draws)
    requires WorkspacesResponse(snapshot, q, draws).Listed?
    ensures FilterWorkspaces(snapshot, q).Ok?
    ensures var sorted := SortStage(FilterWorkspaces(snapshot, q).value, q.sortBy, q.sortOrder, SortFields);
            var page := Enrich(Page(sorted, q.offset, q.limit), q, draws);
            WorkspacesResponse(snapshot, q, draws)
              == Listed(page, Pagination(q.limit, q.offset, |sorted|), Filters(q), Stats(|sorted|, |page|, ProcessingTimeMs))
  {
  }

  /** Sorting keeps the matches' number: the total is the number of matching workspaces. */
  lemma SortedCount(snapshot: seq<Record>, q: WorkspaceQuery)
    requires FilterWorkspaces(snapshot, q).Ok?
    ensures |SortStage(FilterWorkspaces(snapshot, q).value, q.sortBy, q.sortOrder, SortFields)|
            == |Where(snapshot, QueryTest(q))|
  {
    FilterWorkspacesExact(snapshot, q);
  }

  /** Sorting only reorders the matches. */
  lemma SortedMatch(snapshot: seq<Record>, q: WorkspaceQuery)
    requires FilterWorkspaces(snapshot, q).Ok?
    ensures forall r :: r in SortStage(FilterWorkspaces(snapshot, q).value, q.sortBy, q.sortOrder, SortFields)
              ==> Matches(r, q)
  {
    FilterWorkspacesExact(snapshot, q);
    var filtered := FilterWorkspaces(snapshot, q).value;
    var sorted := SortStage(filtered, q.sortBy, q.sortOrder, SortFields);
    SortStageFacts(filtered, q.sortBy, q.sortOrder, SortFields);
    forall r | r in sorted
      ensures Matches(r, q)
    {
      assert r in multiset(sorted);
    }
  }

  /**
   * A listing reports as total the number of stored workspaces passing every
   * criterion and as returned count the number of items it holds, and echoes
   * `limit` and `offset`.
   */
  lemma ListingTotal(snapshot: seq<Record>, q: WorkspaceQuery, draws: Draws)
    requires WorkspacesResponse(snapshot, q, draws).Listed?
    ensures var resp := WorkspacesResponse(snapshot, q, draws);
            var total := |Where(snapshot, QueryTest(q))|;
            && resp.pagination == Pagination(q.limit, q.offset, total)
            && resp.stats == Stats(total, |resp.items|, ProcessingTimeMs)
  {
    ListingIs(snapshot, q, draws);
    SortedCount(snapshot, q);
  }

  /**
   * A listing returns `min(limit, max(0, total - offset))` workspaces, where
   * `total` is the number of stored workspaces passing every criterion.
   */
  lemma ListingReturned(snapshot: seq<Record>, q: WorkspaceQuery, draws: Draws)
    requires WorkspacesResponse(snapshot, q, draws).Listed?
    ensures |WorkspacesResponse(snapshot, q, draws).items|
            == Min(q.limit, Max(0, |Where(snapshot, QueryTest(q))| - q.offset))
  {
    ListingIs(snapshot, q, draws);
    SortedCount(snapshot, q);
    var sorted := SortStage(FilterWorkspaces(snapshot, q).value, q.sortBy, q.sortOrder, SortFields);
    EnrichedPageCount(snapshot, sorted, q, draws);
  }

  lemma EnrichedPageCount(snapshot: seq<Record>, sorted: seq<Record>, q: WorkspaceQuery, draws: Draws)
    requires |sorted| == |Where(snapshot, QueryTest(q))|
    ensures |Enrich(Page(sorted, q.offset, q.limit), q, draws)|
            == Min(q.limit, Max(0, |Where(snapshot, QueryTest(q))| - q.offset))
  {
    EnrichLength(Page(sorted, q.offset, q.limit), q, draws);
  }

  /** Every listed workspace passes every criterion, so none is soft-deleted unless asked for. */
  lemma ListingItemsMatch(snapshot: seq<Record>, q: WorkspaceQuery, draws: Draws)
    requires WorkspacesResponse(snapshot, q, draws).Listed?
    ensures forall r :: r in WorkspacesResponse(snapshot, q, draws).items ==> Matches(r, q)
    ensures !q.includeDeleted ==> forall r :: r in WorkspacesResponse(snapshot, q, draws).items ==> NotDeleted(r)
  {
    ListingIs(snapshot, q, draws);
    SortedMatch(snapshot, q);
    var sorted := SortStage(FilterWorkspaces(snapshot, q).value, q.sortBy, q.sortOrder, SortFields);
    var page := Page(sorted, q.offset, q.limit);
    assert forall r :: r in page ==> r in sorted;
    EnrichKeepsMatches(page, q, draws);
  }

  /** The `filters` block echoes the criteria, with the search lower-cased. */
  lemma FiltersEcho(q: WorkspaceQuery)
    ensures Get(Filters(q), "type") == Echo(q.typeFilter)
    ensures Get(Filters(q), "status") == Echo(q.status)
    ensures Get(Filters(q), "owner_id") == Echo(q.ownerId)
    ensures Get(Filters(q), "include_deleted") == VBool(q.includeDeleted)
    ensures Get(Filters(q), "search") == Echo(SearchEcho(q.search))
    ensures Given(q.search) ==> Get(Filters(q), "search") == VStr(Lower(q.search.value))
  {
    var f0 := Filters(q);
    var f1 := f0[1..];
    var f2 := f1[1..];
    var f3 := f2[1..];
    var f4 := f3[1..];
    assert f1 == [f0[1], f0[2], f0[3], f0[4]] && f2 == [f0[2], f0[3], f0[4]];
    assert f3 == [f0[3], f0[4]] && f4 == [f0[4]];
    assert Get(f0, "status") == Get(f1, "status");
    assert Get(f0, "owner_id") == Get(f1, "owner_id") == Get(f2, "owner_id");
    assert Get(f0, "include_deleted") == Get(f1, "include_deleted") == Get(f2, "include_deleted") == Get(f3, "include_deleted");
    assert Get(f0, "search") == Get(f1, "search") == Get(f2, "search") == Get(f3, "search") == Get(f4, "search");
  }

  /**
   * Before enrichment the page is a window onto the sorted matches: the
   * items from `offset` on, in sorted order, that are a permutation of the
   * matching workspaces.
   */
  lemma PageIsWindow(snapshot: seq<Record>, q: WorkspaceQuery)
    requires FilterWorkspaces(snapshot, q).Ok?
    ensures var sorted := SortStage(FilterWorkspaces(snapshot, q).value, q.sortBy, q.sortOrder, SortFields);
            && multiset(sorted) == multiset(Where(snapshot, QueryTest(q)))
            && (q.sortBy in SortFields ==> Sorted(sorted, KeyOf(q.sortBy), Descending(q.sortOrder)))
            && (q.sortBy !in SortFields ==> sorted == Where(snapshot, QueryTest(q)))
            && forall i :: 0 <= i < |Page(sorted, q.offset, q.limit)| ==>
                 Page(sorted, q.offset, q.limit)[i] == sorted[q.offset + i]
  {
    FilterWorkspacesExact(snapshot, q);
    SortStageFacts(FilterWorkspaces(snapshot, q).value, q.sortBy, q.sortOrder, SortFields);
  }

  /** The summary counts the page, not the total: its `count` is the listing's returned count. */
  lemma SummaryCountsPage(snapshot: seq<Record>, q: WorkspaceQuery, draws: Draws)
    requires WorkspacesResponse(snapshot, q, draws).Summary?
    ensures var total := |Where(snapshot, QueryTest(q))|;
            WorkspacesResponse(snapshot, q, draws).count == Min(q.limit, Max(0, total - q.offset))
  {
    FilterWorkspacesExact(snapshot, q);
    var filtered := FilterWorkspaces(snapshot, q).value;
    SortStageFacts(filtered, q.sortBy, q.sortOrder, SortFields);
    EnrichIsLocal(Page(SortStage(filtered, q.sortBy, q.sortOrder, SortFields), q.offset, q.limit), q, draws);
  }

  /** Which body the handler answers with follows from the filter outcome and `format` alone. */
  lemma ResponseKind(snapshot: seq<Record>, q: WorkspaceQuery, draws: Draws)
    ensures var resp := WorkspacesResponse(snapshot, q, draws);
            && (resp.ErrorBody? ==> FilterWorkspaces(snapshot, q).Err?)
            && (FilterWorkspaces(snapshot, q).Ok? && q.format == "csv" ==> resp.CsvBody?)
            && (FilterWorkspaces(snapshot, q).Ok? && q.format != "csv" && q.format != "summary" ==> resp.Listed?)
            && (resp.Listed? ==> q.format != "csv" && q.format != "summary")
  {
  }
}
