/**
 * The in-memory store and the handlers that change it: token lookup
 * (main.py:61-70), adding a member to a workspace (main.py:87-103),
 * updating a user (main.py:121-135) and creating a workspace
 * (main.py:139-155), plus the two listings read off the stored records.
 *
 * The handlers check only what the code checks: any authenticated caller may
 * add any member and update any user, and creating a workspace asks for no
 * authentication at all.
 */
module Store {
  import opened Wrappers
  import opened Text
  import opened Values
  import opened Dates
  import opened Stages
  import opened Responses
  import Workspaces
  import Users

  /** An `HTTPException`: its status code and its `detail`. */
  datatype HttpError = HttpError(status: nat, detail: string)

  const Unauthorized: nat := 401
  const InternalServerError: nat := 500

  // ---------------------------------------------------------------------------
  // Authentication

  const BearerPrefix: string := "Bearer "

  /** `authorization.replace("Bearer ", "")`: every occurrence goes, not only a leading one. */
  function Token(authorization: string): string
  {
    ReplaceAll(authorization, BearerPrefix, "")
  }

  /**
   * `get_current_user`: header, then token, then user id, then user record.
   * A user found is a stored user that some stored token leads to.
   */
  function Authenticate(authorization: Option<string>, tokens: map<string, string>,
                        users: map<string, Record>): (u: Option<Record>)
    ensures u.Some? ==> u.value in users.Values
    ensures u.Some? ==> exists t :: t in tokens && tokens[t] in users && users[tokens[t]] == u.value
    ensures tokens == map[] || users == map[] ==> u.None?
  {
    if authorization.None? then None
    else
      var token := Token(authorization.value);
      if token !in tokens then None
      else
        var id := tokens[token];
        if id in users then Some(users[id]) else None
  }

  /**
   * `get_current_user` as a lookup. No header finds nobody. A known token,
   * with or without the prefix, finds exactly the user `auth_tokens` names for
   * it, or nobody when that id is not a stored user; an unknown token finds
   * nobody.
   */
  lemma AuthenticateLookup(t: string, tokens: map<string, string>, users: map<string, Record>)
    requires !IsSubstring(BearerPrefix, t)
    ensures Authenticate(None, tokens, users) == None
    ensures t in tokens && tokens[t] in users ==>
              && Authenticate(Some(t), tokens, users) == Some(users[tokens[t]])
              && Authenticate(Some(BearerPrefix + t), tokens, users) == Some(users[tokens[t]])
    ensures t in tokens && tokens[t] !in users ==>
              Authenticate(Some(t), tokens, users) == None && Authenticate(Some(BearerPrefix + t), tokens, users) == None
    ensures t !in tokens ==>
              Authenticate(Some(t), tokens, users) == None && Authenticate(Some(BearerPrefix + t), tokens, users) == None
  {
    BearerOptional(t, tokens, users);
    ReplaceAllAbsent(t, BearerPrefix, "");
  }

  /** A token that does not itself contain `"Bearer "` works with or without the prefix. */
  lemma BearerOptional(token: string, tokens: map<string, string>, users: map<string, Record>)
    requires !IsSubstring(BearerPrefix, token)
    ensures Authenticate(Some(BearerPrefix + token), tokens, users) == Authenticate(Some(token), tokens, users)
    ensures Token(BearerPrefix + token) == token
  {
    ReplaceAllLeading(BearerPrefix, token, "");
    ReplaceAllAbsent(token, BearerPrefix, "");
    assert "" + token == token;
  }

  // ---------------------------------------------------------------------------
  // Membership

  /** `if v not in members: members.append(v)`. */
  function AddIfAbsent(members: seq<Value>, v: Value): seq<Value>
  {
    if v in members then members else members + [v]
  }

  /**
   * After the add the value is a member, the old members keep their places,
   * and nothing else joins.
   */
  lemma AddIfAbsentFacts(members: seq<Value>, v: Value)
    ensures v in AddIfAbsent(members, v)
    ensures forall x :: x in AddIfAbsent(members, v) <==> x in members || x == v
    ensures AddIfAbsent(members, v)[..|members|] == members
    ensures |AddIfAbsent(members, v)| == if v in members then |members| else |members| + 1
  {
  }

  /** Adding twice is adding once. */
  lemma AddIfAbsentIdempotent(members: seq<Value>, v: Value)
    ensures AddIfAbsent(AddIfAbsent(members, v), v) == AddIfAbsent(members, v)
  {
    AddIfAbsentFacts(members, v);
  }

  ghost predicate NoDuplicates(xs: seq<Value>)
  {
    forall i, j :: 0 <= i < j < |xs| ==> xs[i] != xs[j]
  }

  /** A member list without duplicates never gets one. */
  lemma AddIfAbsentNoDuplicates(members: seq<Value>, v: Value)
    requires NoDuplicates(members)
    ensures NoDuplicates(AddIfAbsent(members, v))
  {
    if v !in members {
      var r := members + [v];
      forall i, j | 0 <= i < j < |r|
        ensures r[i] != r[j]
      {
        if j == |members| {
          assert r[i] == members[i];
        }
      }
    }
  }

  /** A stored workspace's `members` is a list. */
  predicate HasMemberList(ws: Record)
  {
    Get(ws, "members").VList?
  }

  /** The workspace after `add_member_to_workspace`: left as it is when the user is already a member. */
  function Joined(ws: Record, userId: string): Record
    requires HasMemberList(ws)
  {
    var members := Get(ws, "members").items;
    if VStr(userId) in members then ws
    else Set(ws, "members", VList(members + [VStr(userId)]))
  }

  /**
   * Joining adds the user id to the member list if absent, keeps the
   * workspace's keys in place and changes no other field.
   */
  lemma JoinedFacts(ws: Record, userId: string)
    requires HasMemberList(ws)
    ensures HasMemberList(Joined(ws, userId))
    ensures Get(Joined(ws, userId), "members") == VList(AddIfAbsent(Get(ws, "members").items, VStr(userId)))
    ensures Keys(Joined(ws, userId)) == Keys(ws)
    ensures forall k, d :: k != "members" ==> GetOr(Joined(ws, userId), k, d) == GetOr(ws, k, d)
  {
    var members := Get(ws, "members").items;
    if VStr(userId) !in members {
      SetFacts(ws, "members", VList(members + [VStr(userId)]));
      GetOrFound(ws, "members", VNone);
    }
  }

  /** Joining twice is joining once. */
  lemma JoinedIdempotent(ws: Record, userId: string)
    requires HasMemberList(ws)
    ensures HasMemberList(Joined(ws, userId))
    ensures Joined(Joined(ws, userId), userId) == Joined(ws, userId)
  {
    JoinedFacts(ws, userId);
    AddIfAbsentFacts(Get(ws, "members").items, VStr(userId));
  }

  /** The member list of a joined workspace has no duplicates if it had none. */
  lemma JoinedNoDuplicates(ws: Record, userId: string)
    requires HasMemberList(ws) && NoDuplicates(Get(ws, "members").items)
    ensures HasMemberList(Joined(ws, userId)) && NoDuplicates(Get(Joined(ws, userId), "members").items)
  {
    JoinedFacts(ws, userId);
    AddIfAbsentNoDuplicates(Get(ws, "members").items, VStr(userId));
  }

  // ---------------------------------------------------------------------------
  // User update

  /** The body of `PUT /user/{user_id}`: each field is optional. */
  datatype UserUpdate = UserUpdate(name: Option<string>, email: Option<string>, role: Option<string>)

  /** `if value: user[key] = value`. */
  function Assign(u: Record, key: string, value: Option<string>): Record
  {
    if Given(value) then Set(u, key, VStr(value.value)) else u
  }

  /** The user after `update_user`: name, then email, then role, each only when truthy. */
  function Updated(u: Record, upd: UserUpdate): Record
  {
    Assign(Assign(Assign(u, "name", upd.name), "email", upd.email), "role", upd.role)
  }

  /** One assignment reads back its value, or leaves the key alone when skipped, and touches no other key. */
  lemma AssignReads(u: Record, key: string, value: Option<string>, k: string, d: Value)
    ensures Given(value) ==> (Get(Assign(u, key, value), key) == VStr(value.value)
                              && Has(Assign(u, key, value), key))
    ensures k != key || !Given(value) ==> GetOr(Assign(u, key, value), k, d) == GetOr(u, k, d)
    ensures Has(u, key) ==> Keys(Assign(u, key, value)) == Keys(u)
  {
    if Given(value) {
      SetFacts(u, key, VStr(value.value));
    }
  }

  /**
   * A truthy new value replaces the field; a missing or empty one leaves it;
   * no other field changes.
   */
  lemma UpdatedReads(u: Record, upd: UserUpdate, k: string, d: Value)
    ensures Given(upd.name) ==> Get(Updated(u, upd), "name") == VStr(upd.name.value)
    ensures Given(upd.email) ==> Get(Updated(u, upd), "email") == VStr(upd.email.value)
    ensures Given(upd.role) ==> Get(Updated(u, upd), "role") == VStr(upd.role.value)
    ensures (k != "name" || !Given(upd.name)) && (k != "email" || !Given(upd.email))
            && (k != "role" || !Given(upd.role))
            ==> GetOr(Updated(u, upd), k, d) == GetOr(u, k, d)
  {
    var u1 := Assign(u, "name", upd.name);
    var u2 := Assign(u1, "email", upd.email);
    AssignReads(u, "name", upd.name, k, d);
    AssignReads(u1, "email", upd.email, k, d);
    AssignReads(u2, "role", upd.role, k, d);
    AssignReads(u1, "email", upd.email, "name", VNone);
    AssignReads(u2, "role", upd.role, "name", VNone);
    AssignReads(u2, "role", upd.role, "email", VNone);
  }

  /** A user holding name, email and role keeps its keys, in order. */
  lemma UpdatedKeys(u: Record, upd: UserUpdate)
    requires Has(u, "name") && Has(u, "email") && Has(u, "role")
    ensures Keys(Updated(u, upd)) == Keys(u)
  {
    var u1 := Assign(u, "name", upd.name);
    var u2 := Assign(u1, "email", upd.email);
    AssignReads(u, "name", upd.name, "name", VNone);
    AssignReads(u1, "email", upd.email, "email", VNone);
    AssignReads(u2, "role", upd.role, "role", VNone);
  }

  /** Assigning a key the value it already reads as changes nothing. */
  lemma {:induction false} SetSame(r: Record, k: string, v: Value)
    requires Has(r, k) && Get(r, k) == v
    ensures Set(r, k, v) == r
  {
    if r[0].key != k {
      assert Keys(r) == [r[0].key] + Keys(r[1..]);
      SetSame(r[1..], k, v);
    }
  }

  /** The same update applied twice is applied once. */
  lemma UpdatedIdempotent(u: Record, upd: UserUpdate)
    ensures Updated(Updated(u, upd), upd) == Updated(u, upd)
  {
    var w := Updated(u, upd);
    var fields := ["name", "email", "role"];
    UpdatedReads(u, upd, "name", VNone);
    ValueKept(u, upd);
    if Given(upd.name) {
      SetSame(w, "name", VStr(upd.name.value));
    }
    assert Assign(w, "name", upd.name) == w;
    if Given(upd.email) {
      SetSame(w, "email", VStr(upd.email.value));
    }
    assert Assign(w, "email", upd.email) == w;
    if Given(upd.role) {
      SetSame(w, "role", VStr(upd.role.value));
    }
  }

  /** Each field an update gives is present afterwards. */
  lemma ValueKept(u: Record, upd: UserUpdate)
    ensures Given(upd.name) ==> Has(Updated(u, upd), "name")
    ensures Given(upd.email) ==> Has(Updated(u, upd), "email")
    ensures Given(upd.role) ==> Has(Updated(u, upd), "role")
  {
    var u1 := Assign(u, "name", upd.name);
    var u2 := Assign(u1, "email", upd.email);
    var u3 := Assign(u2, "role", upd.role);
    AssignReads(u, "name", upd.name, "name", VNone);
    AssignReads(u1, "email", upd.email, "email", VNone);
    AssignReads(u2, "role", upd.role, "role", VNone);
    if Given(upd.name) {
      HasKept(u1, "email", upd.email, "name");
      HasKept(u2, "role", upd.role, "name");
    }
    if Given(upd.email) {
      HasKept(u2, "role", upd.role, "email");
    }
  }

  /** An assignment keeps every key present. */
  lemma HasKept(u: Record, key: string, value: Option<string>, k: string)
    requires Has(u, k)
    ensures Has(Assign(u, key, value), k)
  {
    if Given(value) {
      SetFacts(u, key, VStr(value.value));
    }
  }

  // ---------------------------------------------------------------------------
  // Workspace creation

  /** The body of `POST /workspace`. */
  datatype WorkspaceIn = WorkspaceIn(id: Option<string>, name: string, description: Option<string>, members: seq<string>)

  /** `workspace.dict()`: the model's fields in declaration order. */
  function WorkspaceDict(w: WorkspaceIn): Record
  {
    [Field("id", Echo(w.id)),
     Field("name", VStr(w.name)),
     Field("description", Echo(w.description)),
     Field("members", VList(seq(|w.members|, i requires 0 <= i < |w.members| => VStr(w.members[i]))))]
  }

  /** `workspace.id or str(uuid.uuid4())`, with the fresh id supplied by the caller. */
  function WorkspaceId(w: WorkspaceIn, freshId: string): string
  {
    if Given(w.id) then w.id.value else freshId
  }

  /** The stored record: the dict with its `id` replaced in place. */
  function Created(w: WorkspaceIn, freshId: string): Record
  {
    Set(WorkspaceDict(w), "id", VStr(WorkspaceId(w, freshId)))
  }

  /**
   * A created workspace has the keys `id`, `name`, `description` and
   * `members` in that order, its id is the given one or the fresh one, and its
   * members are the given ids.
   */
  lemma CreatedShape(w: WorkspaceIn, freshId: string)
    ensures Keys(Created(w, freshId)) == ["id", "name", "description", "members"]
    ensures Get(Created(w, freshId), "id") == VStr(WorkspaceId(w, freshId))
    ensures Get(Created(w, freshId), "name") == VStr(w.name)
    ensures Get(Created(w, freshId), "description") == Echo(w.description)
    ensures HasMemberList(Created(w, freshId))
    ensures |Get(Created(w, freshId), "members").items| == |w.members|
    ensures forall i :: 0 <= i < |w.members| ==> Get(Created(w, freshId), "members").items[i] == VStr(w.members[i])
  {
    var d := WorkspaceDict(w);
    var c := Created(w, freshId);
    assert c == [Field("id", VStr(WorkspaceId(w, freshId))), d[1], d[2], d[3]];
    var t1 := c[1..];
    var t2 := t1[1..];
    var t3 := t2[1..];
    assert t1 == [d[1], d[2], d[3]] && t2 == [d[2], d[3]] && t3 == [d[3]] && t3[1..] == [];
    assert Keys(t3) == ["members"];
    assert Keys(t2) == ["description"] + Keys(t3);
    assert Keys(t1) == ["name"] + Keys(t2);
    assert Keys(c) == ["id"] + Keys(t1);
    assert Get(c, "name") == Get(t1, "name");
    assert Get(c, "description") == Get(t1, "description") == Get(t2, "description");
    assert Get(c, "members") == Get(t1, "members") == Get(t2, "members") == Get(t3, "members");
  }

  /**
   * `create_workspace` sets no `created_at`, so a created workspace passes a
   * date bound exactly when the bound is absent or lets the default date
   * through: any `created_after` later than 1970-01-01, or `created_before`
   * earlier than 2099-12-31, hides it.
   */
  lemma CreatedDateBound(w: WorkspaceIn, freshId: string, bound: Option<string>, kind: Bound)
    ensures DateOk(Created(w, freshId), bound, kind) <==>
              !Given(bound) || (ParseDate(bound.value).Some? && Within(kind, UndatedAs(kind), ParseDate(bound.value).value))
  {
    CreatedShape(w, freshId);
    UndatedBound(Created(w, freshId), bound, kind);
  }

  /** A workspace created without a date is hidden by `created_after=2024-03-01`. */
  lemma CreatedHiddenByLaterBound()
    ensures !DateOk(Created(WorkspaceIn(Some("w1"), "Alpha", Some("desc"), []), "fresh"), Some("2024-03-01"), After)
  {
    var b := "2024-03-01";
    ParseFourDigits(b[..4]);
    ParseTwoDigits(b[5..7]);
    ParseTwoDigits(b[8..]);
    assert ParseDate(b) == Some(Date(2024, 3, 1));
    CreatedDateBound(WorkspaceIn(Some("w1"), "Alpha", Some("desc"), []), "fresh", Some(b), After);
  }

  /** A bare `GET /workspaces` lists a workspace just created in an empty store. */
  lemma CreatedWorkspaceListed(w: WorkspaceIn, freshId: string, draws: Workspaces.Draws)
    ensures Workspaces.WorkspacesResponse([Created(w, freshId)], Workspaces.DefaultQuery, draws).Listed?
    ensures |Workspaces.WorkspacesResponse([Created(w, freshId)], Workspaces.DefaultQuery, draws).items| == 1
  {
    var c := Created(w, freshId);
    var q := Workspaces.DefaultQuery;
    CreatedVisible(w, freshId);
    assert Workspaces.FilterWorkspaces([c], q) == Ok([c]);
    assert Workspaces.WorkspacesResponse([c], q, draws).Listed?;
    Workspaces.ListingReturned([c], q, draws);
    Workspaces.FilterWorkspacesExact([c], q);
  }

  /**
   * `description` defaults to `None` and `create_workspace` stores it as it
   * is, while the search reads `ws.get("description", "").lower()`, which
   * raises on `None`. So a search over a workspace created without a
   * description keeps it when its name matches and crashes otherwise.
   */
  lemma UndescribedSearch(w: WorkspaceIn, freshId: string, search: string)
    requires w.description.None? && search != ""
    ensures var c := Created(w, freshId);
            Workspaces.FilterWorkspaces([c], Workspaces.DefaultQuery.(search := Some(search)))
            == if IsSubstring(Lower(search), Lower(w.name)) then Ok([c]) else Err(Crash)
  {
    var c := Created(w, freshId);
    var needle := Lower(search);
    UndescribedHit(w, freshId, needle);
    CreatedVisible(w, freshId);
    assert [c][1..] == [];
    assert KeepHits([c], needle, Workspaces.SearchFields)
           == if IsSubstring(needle, Lower(w.name)) then Ok([c]) else Err(Crash);
  }

  /** The search test on a workspace created without a description. */
  lemma UndescribedHit(w: WorkspaceIn, freshId: string, needle: string)
    requires w.description.None?
    ensures Hit(needle, Workspaces.SearchFields, Created(w, freshId))
            == if IsSubstring(needle, Lower(w.name)) then Ok(true) else Err(Crash)
  {
    var c := Created(w, freshId);
    CreatedShape(w, freshId);
    GetOrPresent(c, "name", VNone, VStr(""));
    GetOrPresent(c, "description", VNone, VStr(""));
    var fields := Workspaces.SearchFields;
    assert fields[1..] == ["description"] && fields[1..][1..] == [];
  }

  /** A created workspace is not soft-deleted. */
  lemma CreatedVisible(w: WorkspaceIn, freshId: string)
    ensures HideDeleted([Created(w, freshId)], false) == [Created(w, freshId)]
  {
    CreatedShape(w, freshId);
    assert NotDeleted(Created(w, freshId));
    WhereAll([Created(w, freshId)], NotDeleted);
  }

  /** On a store holding a workspace created without a description, a search its name misses answers HTTP 500. */
  lemma UndescribedSearchCrash(w: WorkspaceIn, freshId: string, search: string, draws: Workspaces.Draws)
    requires w.description.None? && search != ""
    requires !IsSubstring(Lower(search), Lower(w.name))
    ensures Workspaces.WorkspacesResponse([Created(w, freshId)], Workspaces.DefaultQuery.(search := Some(search)), draws)
            == ServerError
  {
    UndescribedSearch(w, freshId, search);
  }

  /** The same search on a workspace whose name matches lists exactly that workspace. */
  lemma UndescribedNameHit(w: WorkspaceIn, freshId: string, search: string, draws: Workspaces.Draws)
    requires w.description.None? && search != ""
    requires IsSubstring(Lower(search), Lower(w.name))
    ensures Workspaces.WorkspacesResponse([Created(w, freshId)], Workspaces.DefaultQuery.(search := Some(search)), draws).Listed?
    ensures |Workspaces.WorkspacesResponse([Created(w, freshId)], Workspaces.DefaultQuery.(search := Some(search)), draws).items| == 1
  {
    var c := Created(w, freshId);
    var q := Workspaces.DefaultQuery.(search := Some(search));
    UndescribedSearch(w, freshId, search);
    assert Workspaces.WorkspacesResponse([c], q, draws).Listed?;
    Workspaces.ListingReturned([c], q, draws);
    Workspaces.FilterWorkspacesExact([c], q);
  }

  /** `ws_id in workspaces`: keys in insertion order. */
  function AppendKey(ids: seq<string>, id: string): seq<string>
  {
    if id in ids then ids else ids + [id]
  }

  // ---------------------------------------------------------------------------
  // The seeded data

  function John(): Record
  {
    [Field("id", VStr("user1")), Field("name", VStr("John Doe")),
     Field("email", VStr("john@example.com")), Field("role", VStr("user"))]
  }

  function Jane(): Record
  {
    [Field("id", VStr("user2")), Field("name", VStr("Jane Smith")),
     Field("email", VStr("jane@example.com")), Field("role", VStr("admin"))]
  }

  function InitialUsers(): map<string, Record>
  {
    map["user1" := John(), "user2" := Jane()]
  }

  function InitialTokens(): map<string, string>
  {
    map["token1" := "user1", "token2" := "user2"]
  }

  /** With the seeded data, `Bearer token1` is John Doe and `Bearer token2` is Jane Smith. */
  lemma SeededTokens()
    ensures Authenticate(Some("Bearer token1"), InitialTokens(), InitialUsers()) == Some(John())
    ensures Authenticate(Some("Bearer token2"), InitialTokens(), InitialUsers()) == Some(Jane())
    ensures Authenticate(Some("token1"), InitialTokens(), InitialUsers()) == Some(John())
    ensures Authenticate(Some("Bearer token3"), InitialTokens(), InitialUsers()) == None
  {
    ShortTokenBearer("token1");
    ShortTokenBearer("token2");
    ShortTokenBearer("token3");
  }

  /** A token shorter than the prefix works with or without it. */
  lemma ShortTokenBearer(token: string)
    requires |token| < |BearerPrefix|
    ensures Token(BearerPrefix + token) == token && Token(token) == token
  {
    assert !IsSubstring(BearerPrefix, token);
    BearerOptional(token, map[], map[]);
    ReplaceAllAbsent(token, BearerPrefix, "");
  }

  /** The records of `m` in the order `ids` lists their keys. */
  function InOrder(ids: seq<string>, m: map<string, Record>): (r: seq<Record>)
    requires forall i :: 0 <= i < |ids| ==> ids[i] in m
    ensures |r| == |ids| && forall i :: 0 <= i < |ids| ==> r[i] == m[ids[i]]
  {
    seq(|ids|, i requires 0 <= i < |ids| => m[ids[i]])
  }

  /** A key new to `ids` puts its record at the end of the snapshot. */
  lemma InOrderAppend(ids: seq<string>, m: map<string, Record>, id: string, r: Record)
    requires forall i :: 0 <= i < |ids| ==> ids[i] in m
    requires id !in ids
    ensures InOrder(ids + [id], m[id := r]) == InOrder(ids, m) + [r]
  {
    var after, before := InOrder(ids + [id], m[id := r]), InOrder(ids, m);
    forall i | 0 <= i < |ids|
      ensures after[i] == before[i]
    {
      assert (ids + [id])[i] == ids[i] != id;
    }
  }

  /** Storing a record under the key at position `j` replaces the record there and nothing else. */
  lemma InOrderReplace(ids: seq<string>, m: map<string, Record>, j: nat, r: Record)
    requires forall i :: 0 <= i < |ids| ==> ids[i] in m
    requires j < |ids| && forall i :: 0 <= i < |ids| && i != j ==> ids[i] != ids[j]
    ensures InOrder(ids, m[ids[j] := r]) == InOrder(ids, m)[j := r]
  {
  }

  /** `InOrderReplace` for whichever position holds `id`, with the keys listed once. */
  lemma InOrderReplaceKey(ids: seq<string>, m: map<string, Record>, id: string, r: Record)
    requires forall i :: 0 <= i < |ids| ==> ids[i] in m
    requires forall i, j :: 0 <= i < j < |ids| ==> ids[i] != ids[j]
    ensures forall j :: 0 <= j < |ids| && ids[j] == id ==> InOrder(ids, m[id := r]) == InOrder(ids, m)[j := r]
  {
    forall j | 0 <= j < |ids| && ids[j] == id
      ensures InOrder(ids, m[id := r]) == InOrder(ids, m)[j := r]
    {
      InOrderReplace(ids, m, j, r);
    }
  }

  /** `m[id] = r` on the snapshot: appended under a new key, replaced in place under a listed one. */
  lemma InOrderStore(ids: seq<string>, m: map<string, Record>, id: string, r: Record)
    requires forall i :: 0 <= i < |ids| ==> ids[i] in m
    requires forall i, j :: 0 <= i < j < |ids| ==> ids[i] != ids[j]
    ensures forall i :: 0 <= i < |AppendKey(ids, id)| ==> AppendKey(ids, id)[i] in m[id := r]
    ensures id !in ids ==> InOrder(AppendKey(ids, id), m[id := r]) == InOrder(ids, m) + [r]
    ensures forall j :: 0 <= j < |ids| && ids[j] == id ==> InOrder(AppendKey(ids, id), m[id := r]) == InOrder(ids, m)[j := r]
  {
    if id !in ids {
      InOrderAppend(ids, m, id, r);
    } else {
      InOrderReplaceKey(ids, m, id, r);
    }
  }

  /** The keys of `m`, each once, in insertion order. */
  ghost predicate KeyOrder<V>(ids: seq<string>, m: map<string, V>)
  {
    && (forall i, j :: 0 <= i < j < |ids| ==> ids[i] != ids[j])
    && (forall k :: k in m <==> k in ids)
  }

  /** The module-level dicts of `main.py`. */
  class Database {
    var workspaceIds: seq<string>
    var workspaces: map<string, Record>
    var userIds: seq<string>
    var users: map<string, Record>
    var authTokens: map<string, string>

    ghost predicate Valid()
      reads this
    {
      && KeyOrder(workspaceIds, workspaces)
      && KeyOrder(userIds, users)
      && forall id :: id in workspaces ==> HasMemberList(workspaces[id])
    }

    /** The data the service starts with: two users, two tokens, no workspaces. */
    constructor()
      ensures Valid()
      ensures workspaceIds == [] && workspaces == map[]
      ensures userIds == ["user1", "user2"] && users == InitialUsers()
      ensures authTokens == InitialTokens()
    {
      workspaceIds := [];
      workspaces := map[];
      userIds := ["user1", "user2"];
      users := InitialUsers();
      authTokens := InitialTokens();
    }

    /** The current user for an `Authorization` header. */
    function CurrentUser(authorization: Option<string>): Option<Record>
      reads this
    {
      Authenticate(authorization, authTokens, users)
    }

    /** The stored workspaces, in insertion order. */
    function WorkspaceSnapshot(): seq<Record>
      reads this
      requires Valid()
    {
      InOrder(workspaceIds, workspaces)
    }

    /** The stored users, in insertion order. */
    function UserSnapshot(): seq<Record>
      reads this
      requires Valid()
    {
      InOrder(userIds, users)
    }

    /** `POST /workspace/membership`. */
    method AddMember(authorization: Option<string>, workspaceId: string, userId: string)
      returns (r: Result<Record, HttpError>)
      requires Valid()
      modifies this
      ensures Valid()
      ensures old(CurrentUser(authorization)).None? ==>
                r == Err(HttpError(Unauthorized, "Authentication required")) && unchanged(this)
      ensures old(CurrentUser(authorization)).Some? && workspaceId !in old(workspaces) ==>
                r == Err(HttpError(InternalServerError, "Workspace not found")) && unchanged(this)
      ensures old(CurrentUser(authorization)).Some? && workspaceId in old(workspaces) && userId !in old(users) ==>
                r == Err(HttpError(InternalServerError, "User not found")) && unchanged(this)
      ensures old(CurrentUser(authorization)).Some? && workspaceId in old(workspaces) && userId in old(users) ==> r.Ok?
      ensures r.Ok? ==>
                && old(CurrentUser(authorization)).Some? && workspaceId in old(workspaces) && userId in old(users)
                && workspaces == old(workspaces)[workspaceId := Joined(old(workspaces)[workspaceId], userId)]
                && workspaceIds == old(workspaceIds) && users == old(users)
                && userIds == old(userIds) && authTokens == old(authTokens)
                && r.value == [Field("message", VStr("User added to workspace")),
                               Field("workspace", VDict(workspaces[workspaceId]))]
      ensures r.Ok? ==> forall j :: 0 <= j < |workspaceIds| && workspaceIds[j] == workspaceId ==>
                WorkspaceSnapshot() == old(WorkspaceSnapshot())[j := workspaces[workspaceId]]
    {
      if CurrentUser(authorization).None? {
        return Err(HttpError(Unauthorized, "Authentication required"));
      }
      if workspaceId !in workspaces {
        return Err(HttpError(InternalServerError, "Workspace not found"));
      }
      if userId !in users {
        return Err(HttpError(InternalServerError, "User not found"));
      }
      var workspace := AppendMember(workspaceId, userId);
      r := Ok([Field("message", VStr("User added to workspace")), Field("workspace", VDict(workspace))]);
    }

    /** The update of `add_member_to_workspace`, once both ids are known. */
    method AppendMember(workspaceId: string, userId: string) returns (workspace: Record)
      requires Valid() && workspaceId in workspaces
      modifies this
      ensures Valid()
      ensures workspaces == old(workspaces)[workspaceId := Joined(old(workspaces)[workspaceId], userId)]
      ensures workspaceIds == old(workspaceIds) && users == old(users)
      ensures userIds == old(userIds) && authTokens == old(authTokens)
      ensures workspace == workspaces[workspaceId]
      ensures forall j :: 0 <= j < |workspaceIds| && workspaceIds[j] == workspaceId ==>
                WorkspaceSnapshot() == old(WorkspaceSnapshot())[j := workspace]
    {
      InOrderReplaceKey(workspaceIds, workspaces, workspaceId, Joined(workspaces[workspaceId], userId));
      workspace := workspaces[workspaceId];
      var members := Get(workspace, "members").items;
      if VStr(userId) !in members {
        workspace := Set(workspace, "members", VList(members + [VStr(userId)]));
        workspaces := workspaces[workspaceId := workspace];
      }
      JoinedFacts(old(workspaces)[workspaceId], userId);
    }

    /** `PUT /user/{user_id}`. */
    method UpdateUser(authorization: Option<string>, userId: string, upd: UserUpdate)
      returns (r: Result<Record, HttpError>)
      requires Valid()
      modifies this
      ensures Valid()
      ensures old(CurrentUser(authorization)).None? ==>
                r == Err(HttpError(Unauthorized, "Authentication required")) && unchanged(this)
      ensures old(CurrentUser(authorization)).Some? && userId !in old(users) ==>
                r == Err(HttpError(InternalServerError, "User not found")) && unchanged(this)
      ensures old(CurrentUser(authorization)).Some? && userId in old(users) ==> r.Ok?
      ensures r.Ok? ==>
                && old(CurrentUser(authorization)).Some? && userId in old(users)
                && users == old(users)[userId := Updated(old(users)[userId], upd)]
                && userIds == old(userIds) && workspaces == old(workspaces)
                && workspaceIds == old(workspaceIds) && authTokens == old(authTokens)
                && r.value == [Field("message", VStr("User updated")), Field("user", VDict(users[userId]))]
      ensures r.Ok? ==> forall j :: 0 <= j < |userIds| && userIds[j] == userId ==>
                UserSnapshot() == old(UserSnapshot())[j := users[userId]]
    {
      if CurrentUser(authorization).None? {
        return Err(HttpError(Unauthorized, "Authentication required"));
      }
      if userId !in users {
        return Err(HttpError(InternalServerError, "User not found"));
      }
      var user := users[userId];
      if Given(upd.name) {
        user := Set(user, "name", VStr(upd.name.value));
      }
      if Given(upd.email) {
        user := Set(user, "email", VStr(upd.email.value));
      }
      if Given(upd.role) {
        user := Set(user, "role", VStr(upd.role.value));
      }
      InOrderReplaceKey(userIds, users, userId, user);
      users := users[userId := user];
      r := Ok([Field("message", VStr("User updated")), Field("user", VDict(user))]);
    }

    /** `POST /workspace`, with the fresh id `uuid.uuid4()` would give supplied by the caller. */
    method CreateWorkspace(w: WorkspaceIn, freshId: string) returns (r: Record)
      requires Valid()
      modifies this
      ensures Valid()
      ensures var id := WorkspaceId(w, freshId);
              && workspaces == old(workspaces)[id := Created(w, freshId)]
              && workspaceIds == AppendKey(old(workspaceIds), id)
              && users == old(users) && userIds == old(userIds) && authTokens == old(authTokens)
              && r == [Field("message", VStr("Workspace created")), Field("workspace", VDict(Created(w, freshId)))]
      ensures WorkspaceId(w, freshId) !in old(workspaceIds) ==>
                WorkspaceSnapshot() == old(WorkspaceSnapshot()) + [Created(w, freshId)]
      ensures forall j :: 0 <= j < |old(workspaceIds)| && old(workspaceIds)[j] == WorkspaceId(w, freshId) ==>
                WorkspaceSnapshot() == old(WorkspaceSnapshot())[j := Created(w, freshId)]
    {
      var id := WorkspaceId(w, freshId);
      var workspace := Set(WorkspaceDict(w), "id", VStr(id));
      CreatedShape(w, freshId);
      InOrderStore(workspaceIds, workspaces, id, workspace);
      if id !in workspaceIds {
        workspaceIds := workspaceIds + [id];
      }
      workspaces := workspaces[id := workspace];
      r := [Field("message", VStr("Workspace created")), Field("workspace", VDict(workspace))];
    }

    /** `GET /workspaces` on the stored workspaces; the store is only read. */
    method ListWorkspaces(q: Workspaces.WorkspaceQuery, draws: Workspaces.Draws) returns (resp: Response)
      requires Valid()
      ensures resp == Workspaces.WorkspacesResponse(WorkspaceSnapshot(), q, draws)
    {
      resp := Workspaces.GetWorkspaces(WorkspaceSnapshot(), q, draws);
    }

    /** `GET /users` on the stored users; the store is only read. */
    method ListUsers(q: Users.UserQuery) returns (resp: Response)
      requires Valid()
      ensures resp == Users.UsersResponse(UserSnapshot(), q)
    {
      resp := Users.GetUsers(UserSnapshot(), q);
    }
  }
}
