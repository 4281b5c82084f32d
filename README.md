# Workspace service: listing engine and store handlers, in Dafny

This project models `main.py`, a small FastAPI service that keeps three
in-memory dicts: workspaces, users and bearer tokens. The model covers:

- the two listing endpoints, `GET /workspaces` and `GET /users`. Each one
  filters, sorts, paginates, optionally enriches or projects, and answers
  as JSON, CSV or a summary;
- the handlers that read or change the store: token lookup
  (`get_current_user`), `POST /workspace/membership`, `PUT /user/{user_id}`
  and `POST /workspace`.

Modules, one file each:

- `Wrappers` (`wrappers.dfy`): `Option` and `Result`.
- `Text`: lower-casing, substring search, `str.replace`, `",".join`, a split
  that inverts the join, Python's string order, and decimal digits.
- `Values`: a Python value, and a dict as an ordered list of fields. The
  order matters because the CSV header line is `result[0].keys()`. Also
  `dict.get`, assignment that keeps a key's position, truthiness, `str()`
  and hashability.
- `Dates`: `YYYY-MM-DD` dates, their parse and render, and the order on them.
- `Stages`: the filter stages. Exact match, the inclusive date bounds on
  `created_at`, soft-delete hiding, case-insensitive search, and the page
  slice. Each stage is proved equal to one filter `Where(s, test)`, with its
  error cases.
- `Sorting`: Python's stable sort, as insertion sort. There is a function
  `SortSeq`, and an in-place method on an array proved to compute it. It is
  proved to be a permutation, sorted, and stable with `reverse`.
- `Csv`: the CSV body, a method that builds it line by line, and a
  read-back lemma.
- `Responses`: the body shapes, the filter echo, and the allow-listed sort.
- `Workspaces`: `GET /workspaces`. The seeded dummy enrichment draws from a
  caller-supplied `Draws` value instead of `random`.
- `Users`: `GET /users`. Here search runs *before* soft-deleted users are
  hidden, so a deleted user whose searched field is not a string still makes
  the request fail.
- `Store`: a `Database` class whose fields are the three dicts, plus the
  insertion order of the workspaces and of the users. Its methods are the mutating handlers, with their
  401 and 500 error paths. Its class invariant `Valid` states that the
  insertion orders list each key once and that every workspace holds a
  member list.
- `AsWritten`: the two listings exactly as written, starting from
  `dict.copy()` (see "## Findings").

Uncaught Python exceptions (`None.lower()`, `fromisoformat` on a non-string,
an unhashable value in `set(...)`, `.sort` on a dict) are modelled as the
failure `Crash`, which the response maps to `ServerError`, HTTP 500. The
date messages `{"error": ...}` are `ErrorBody`.

The listings are modelled on the records in insertion order (`snapshot`)
and on values. The source's shallow copy means its enrichment writes the
dummy `members` and `resources` into the stored workspaces. Here the store
is left as it was: see "## Left out".

## Model

| member | source | states |
|---|---|---|
| Text.Lower | main.py:220 | same length; every character lowered; no upper-case letter left |
| Text.LowerIdempotent | main.py:220 | lowering twice is lowering once |
| Text.SubstringSurvivesLower | main.py:224-225 | a substring stays a substring after both sides are lowered |
| Text.ReplaceAllAbsent | main.py:65 | replacing a pattern that does not occur leaves the text unchanged |
| Text.ReplaceAllLeading | main.py:65 | a leading occurrence is replaced and the rest is processed on |
| Text.Split | main.py:267-269 | a split yields at least one piece |
| Text.SplitNoSeparator | main.py:269 | text without the separator splits into itself |
| Text.SplitAfterPiece | main.py:269 | splitting `a + c + b` gives `a` followed by the split of `b` |
| Text.SplitJoin | main.py:267-269 | splitting a join of pieces free of the separator gives the pieces back |
| Text.LessIrreflexive | main.py:231 | no string sorts before itself |
| Text.LessTransitive | main.py:231 | the string order is transitive |
| Text.LessTotal | main.py:231 | two different strings are ordered one way or the other |
| Text.LessAsymmetric | main.py:231 | the string order is asymmetric |
| Text.NotLessTransitive | main.py:231 | "not before" is transitive, which stable insertion needs |
| Text.NatToString | main.py:245 | the rendering of a number is non-empty digits with no leading zero |
| Text.ParseNatToString | main.py:245 | reading a rendered number back gives the number |
| Text.Pow10 | main.py:190 | powers of ten are positive |
| Text.FixedWidth | main.py:190 | a fixed-width rendering has the width and only digits |
| Text.ParseFixedWidth | main.py:190 | reading a fixed-width rendering of a number that fits gives the number |
| Text.FixedWidthParse | main.py:190 | a digit string is the fixed-width rendering of its value |
| Values.Keys | main.py:266 | the keys are the fields' keys, in order |
| Values.GetOr | main.py:180 | `get` of a missing key gives the default |
| Values.GetOrFound | main.py:180 | `get` of a present key gives the value stored under it |
| Values.GetOrPresent | main.py:180 | for a present key the default does not matter |
| Values.SetFacts | main.py:244 | assignment keeps the key order (appending a new key), stores the value, and leaves every other key alone |
| Values.SetWellFormed | main.py:244 | assignment keeps keys unique |
| Dates.ParseDate | main.py:190 | a parsed date is a valid calendar date |
| Dates.ParseFormatDate | main.py:190 | a valid date rendered and parsed back is itself |
| Dates.FormatParseDate | main.py:190 | a text that parses is the rendering of its date |
| Dates.EarliestDefaultParses | main.py:194 | the default `"1970-01-01"` parses to 1 January 1970 |
| Dates.LatestDefaultParses | main.py:208 | the default `"2099-12-31"` parses to 31 December 2099 |
| Stages.Where | main.py:180 | a comprehension keeps only the items of its input that pass |
| Stages.WhereAppend | main.py:180 | filtering distributes over concatenation |
| Stages.WhereSnoc | main.py:180 | filtering a sequence is filtering all but its last item, then that item |
| Stages.WhereMultiset | main.py:180 | each item is kept as often as it occurs, if it passes, else never |
| Stages.WhereWhere | main.py:179-186 | two comprehensions in a row keep what their conjunction keeps |
| Stages.WhereNone | main.py:275 | a filter no item passes keeps nothing |
| Stages.WhereAgree | main.py:180 | two tests that agree on the input keep the same items |
| Stages.WhereAll | main.py:217 | a filter every item passes keeps the input |
| Stages.WhereEqIsFilter | main.py:179-186 | `if v:` and `x.get(field) == v` form one filter, and an absent or empty criterion keeps everything |
| Stages.HideDeleted | main.py:216-217 | without `include_deleted` no kept item has a truthy `deleted_at`; with it the input is kept |
| Stages.HideDeletedIsFilter | main.py:216-217 | soft-delete hiding is one filter |
| Stages.DateOkAgrees | main.py:194 | whether a record passes a date bound depends only on its `created_at` |
| Stages.UndatedAs | main.py:194-208 | the default spellings `1970-01-01` and `2099-12-31` parse as those dates |
| Stages.UndatedBound | main.py:194-208 | a record without `created_at` passes a date bound exactly when the bound is absent, or parses and lets 1970-01-01 (lower bound) or 2099-12-31 (upper bound) through |
| Stages.KeepWithinOk | main.py:191-196 | the date comprehension succeeds exactly when every record's date can be read, and then keeps the records within the bound |
| Stages.KeepWithinFirstFailure | main.py:191-196 | a failed date comprehension has a record whose date cannot be read |
| Stages.DateStageIsFilter | main.py:188-214 | a date block that succeeds is one filter, inclusive at the bound |
| Stages.DateStageFailure | main.py:188-214 | a date block fails only with its own message (caught `ValueError`) or a crash |
| Stages.DateStageBadBound | main.py:189-200 | an unreadable bound gives its message whatever is stored |
| Stages.SearchOkAgrees | main.py:224-225 | whether a record matches a search depends only on the searched fields |
| Stages.HitMeans | main.py:224-225 | a record is a hit exactly when some searched field contains the lowered query |
| Stages.HitTotal | main.py:224-225 | a record whose searched fields are all strings (or missing) never crashes the search |
| Stages.KeepHitsIsFilter | main.py:221-226 | a successful search comprehension reads every record and keeps exactly the hits, in order |
| Stages.SearchStageIsFilter | main.py:219-226 | a successful search block is one filter |
| Stages.KeepHitsFailure | main.py:221-226 | a failed search comprehension crashed on a record with a non-string searched field |
| Stages.HitFailure | main.py:224-225 | a record only crashes the search through a non-string searched field |
| Stages.SearchStageFailure | main.py:219-226 | a failed search block is a crash caused by some non-string searched field |
| Stages.SearchKeepsVerbatimMatch | main.py:219-226 | a record containing the query verbatim is kept |
| Stages.Page | main.py:237 | the slice has `min(limit, max(0, n - offset))` items, item `i` being input item `offset + i` |
| Stages.PageCount | main.py:237 | the slice's length in terms of the input's length |
| Sorting.PrecedesAsymmetric | main.py:231 | "strictly before" is asymmetric and implies different keys |
| Sorting.NotPrecedesTransitive | main.py:231 | "not strictly before" is transitive, in either direction |
| Sorting.Insert | main.py:231 | inserting one item adds one item |
| Sorting.SortSeq | main.py:231 | sorting keeps the length |
| Sorting.InsertPermutes | main.py:231 | insertion adds exactly the inserted item |
| Sorting.SortSeqPermutes | main.py:231 | the sort is a permutation of its input |
| Sorting.InsertAtPosition | main.py:231 | insertion lands after the last item the new one does not precede |
| Sorting.InsertSorted | main.py:231 | insertion into a sorted sequence keeps it sorted |
| Sorting.SortSeqSorted | main.py:231 | the result is sorted by the key, ascending or with `reverse=True` descending |
| Sorting.InsertStable | main.py:231 | insertion puts the new item after every item with its key |
| Sorting.SortSeqStable | main.py:231 | items with equal keys keep their input order, with `reverse` too |
| Sorting.SortInPlace | main.py:231 | the in-place sort leaves the array holding `SortSeq` of its old contents |
| Sorting.InsertAt | main.py:231 | one pass moves the next item into place and leaves the rest of the array alone |
| Csv.TerminatedSnoc | main.py:268-269 | adding a row adds that row and a newline |
| Csv.TerminatedIsJoin | main.py:267-269 | the newline-terminated rows are a newline join with an empty last piece |
| Csv.RenderCsv | main.py:263-270 | the loop that appends row after row builds exactly the CSV body |
| Csv.CsvHeaderLine | main.py:266-267 | a non-empty body starts with the first item's keys joined by commas |
| Csv.CsvReadBack | main.py:263-270 | an empty page gives "No results found"; otherwise, when no cell holds a separator, the text splits into a header of the first item's keys and one line per item holding its value per key, empty where missing |
| Csv.NoCharInJoin | main.py:269 | joining pieces without a character, by a separator without it, has no such character |
| Responses.SortStageFacts | main.py:229-231 | the optional sort is a permutation; on an allowed key it is sorted and stable per key value; on any other key it leaves the order alone |
| Responses.SortListing | main.py:229-231 | the in-place sort of the result array computes the sort stage |
| Responses.ToArray | main.py:176 | the working copy holds the records in order |
| Workspaces.QueryTestIsMatches | main.py:179-226 | the combined test is the criteria, stated field by field |
| Workspaces.FilterWorkspacesExact | main.py:178-226 | successful filtering keeps exactly the stored workspaces passing every criterion, in store order |
| Workspaces.FilterWorkspacesFailures | main.py:188-226 | filtering fails only with one of the two date messages or a crash |
| Workspaces.BadAfterReported | main.py:188-200 | an unreadable `created_after` is always answered with its message |
| Workspaces.BadBeforeReported | main.py:188-214 | an unreadable `created_before` is answered with its message, whatever is stored, whenever the `created_after` block survives (in particular when no `created_after` is given); otherwise that block's failure is answered |
| Responses.FailureBody | main.py:197-200 | the answer tells the failure apart: an `{"error": m}` body comes only from the date failure with message m, and HTTP 500 only from a crash |
| Responses.SearchEcho | main.py:220-221 | the echoed search is given exactly when the search is, is already in lower case, and has the same lower-case form as the query |
| Workspaces.AttachFacts | main.py:243-244 | attaching a field only happens to a workspace with an `id` and changes only that field |
| Workspaces.MembersAddedFacts | main.py:240-247 | only the `members` field changes, to the dummy list, and only when `id` is present |
| Workspaces.ResourcesAddedFacts | main.py:249-260 | only the `resources` field changes, to the dummy list, and only when `id` is present |
| Workspaces.EnrichLength | main.py:239-260 | enrichment keeps the page's length |
| Workspaces.EnrichAt | main.py:239-260 | item `i` of the enriched page is item `i` enriched with that position's draws |
| Workspaces.AddMembers | main.py:240-247 | the loop over the page attaches dummy members to each item, position by position |
| Workspaces.AddResources | main.py:249-260 | the loop over the page attaches dummy resources to each item, position by position |
| Workspaces.EnrichIsLocal | main.py:239-260 | enrichment leaves items without `id` as they are and changes no field besides `members` and `resources` |
| Workspaces.MemberEntryFields | main.py:245 | dummy member `i` is `user_i`, the admin when `i` is 1, a member otherwise |
| Workspaces.ResourceEntryFields | main.py:254-258 | dummy resource `i` is `resource_i`, named after the workspace |
| Workspaces.DummyMembersShape | main.py:244-247 | two to seven dummy members, numbered from 1 |
| Workspaces.DummyResourcesShape | main.py:253-260 | one to five dummy resources, numbered from 1, of one of the three types |
| Workspaces.EnrichedMembers | main.py:240-247 | with `include_members`, an item with `id` carries the dummy member list |
| Workspaces.EnrichedResources | main.py:249-260 | with `include_resources`, an item with `id` carries the dummy resource list |
| Workspaces.MatchesFromFields | main.py:179-226 | whether a workspace matches depends only on the fields the criteria read |
| Workspaces.MatchesIgnoresEnrichment | main.py:239-260 | enrichment does not change whether an item matches |
| Workspaces.EnrichKeepsMatches | main.py:239-260 | an enriched page of matches still holds only matches |
| Workspaces.TallyMeans | main.py:274-281 | a tally succeeds exactly when every value is hashable; its keys are the values read with default `"unknown"`; each counts the items whose field literally equals it |
| Workspaces.TallyCountsItem | main.py:275 | an item's own value is counted at least once |
| Workspaces.TallyAllMissing | main.py:276 | when no item has the field, the only key is `"unknown"`, counted 0 |
| Workspaces.GetWorkspaces | main.py:159-305 | the handler, stage by stage on arrays, answers the specified response |
| Workspaces.ListingIs | main.py:287-305 | a listing is the enriched page of the sorted matches, with pagination, filters and statistics |
| Workspaces.SortedCount | main.py:234 | the total is the number of matching stored workspaces |
| Workspaces.SortedMatch | main.py:229-234 | everything sorted is a match |
| Workspaces.ListingTotal | main.py:288-296 | the listing reports the match count as total, its own length as returned count, echoes `limit` and `offset`, and reports 37 ms |
| Workspaces.ListingReturned | main.py:290 | the listing returns `min(limit, max(0, total - offset))` workspaces |
| Workspaces.ListingItemsMatch | main.py:294-295 | every listed workspace passes every criterion, so none is soft-deleted unless asked for |
| Workspaces.FiltersEcho | main.py:297-303 | the filter block echoes each criterion, with the search lowered |
| Workspaces.PageIsWindow | main.py:236-237 | the page is the window from `offset` onto a sorted permutation of the matches |
| Workspaces.SummaryCountsPage | main.py:271-273 | the summary's count is the page size, not the total |
| Workspaces.ResponseKind | main.py:262-305 | which body is answered follows from the filter outcome and `format` |
| Users.StatusStageIsFilter | main.py:325-331 | the status block is one filter |
| Users.StatusMeans | main.py:325-331 | `active` keeps truthy `is_active`, `inactive` the rest (missing included), `pending` a literal `status`; any other value keeps everyone |
| Users.QueryTestIsMatches | main.py:325-347 | the combined test is the criteria, stated field by field |
| Users.FilterUsersExact | main.py:324-347 | successful filtering keeps exactly the stored users passing every criterion, in store order |
| Users.FilterUsersFailure | main.py:336-344 | filtering fails only by crashing on a non-string searched field |
| Users.KeepHitsRaises | main.py:338-344 | one record that crashes the search crashes the whole comprehension |
| Users.SearchSeesDeletedUsers | main.py:336-347 | a soft-deleted user passing status and role, with a non-string username, crashes a search even without `include_deleted` |
| Users.BriefShape | main.py:361 | the brief form has exactly `id` and `username`, copied |
| Users.Project | main.py:359-362 | projection keeps the page's length |
| Users.ProjectAt | main.py:359-362 | `detailed` keeps each item as it is; otherwise each becomes its brief form |
| Users.GetUsers | main.py:309-396 | the handler, stage by stage on arrays, answers the specified response |
| Users.ListingIs | main.py:379-396 | a listing is the projected page of the sorted matches, with pagination, filters and statistics |
| Users.SortedCount | main.py:355 | the total is the number of matching stored users |
| Users.SortedMatch | main.py:349-352 | everything sorted is a match |
| Users.ListingTotal | main.py:380-388 | the listing reports the match count as total, its own length as returned count, echoes `limit` and `offset`, and reports 42 ms |
| Users.ListingReturned | main.py:382 | the listing returns `min(limit, max(0, total - offset))` users |
| Users.ListingItemAt | main.py:354-362 | listed item `i` is sorted match `offset + i`, brief unless `detailed` |
| Users.DetailedItemsMatch | main.py:386-387 | in a detailed listing every item is a stored user passing every criterion |
| Users.BriefCsvHeader | main.py:364-369 | a non-detailed CSV body is the sentinel or starts with `id,username` |
| Users.FiltersEcho | main.py:389-394 | the filter block echoes each criterion, with the search lowered |
| Users.ResponseKind | main.py:364-396 | a failed filter gives HTTP 500; otherwise `format` picks CSV or listing |
| Store.BearerOptional | main.py:65 | a token works with or without the `Bearer ` prefix |
| Store.Authenticate | main.py:61-70 | a user found is a stored user that some stored token leads to; with no tokens or no users nobody is found |
| Store.AuthenticateLookup | main.py:61-70 | no header finds nobody; a known token, with or without `Bearer `, finds exactly the stored user `auth_tokens` names, or nobody when that id is not stored; an unknown token finds nobody |
| Store.AddIfAbsentFacts | main.py:100-101 | afterwards the user is a member, no member is lost or reordered, and the list grows only when the user was missing |
| Store.AddIfAbsentIdempotent | main.py:100-101 | adding the same member twice is adding once |
| Store.AddIfAbsentNoDuplicates | main.py:100-101 | a duplicate-free member list stays duplicate-free |
| Store.JoinedFacts | main.py:99-101 | joining changes only `members`, by adding the user if absent, and keeps the field order |
| Store.JoinedIdempotent | main.py:99-101 | repeating the membership request changes nothing |
| Store.JoinedNoDuplicates | main.py:100-101 | a member list without duplicates stays without duplicates |
| Store.AssignReads | main.py:128-133 | a given value is stored under its key; an absent or empty one changes nothing |
| Store.UpdatedReads | main.py:127-133 | each given field of the update is stored, and every other field is kept |
| Store.UpdatedKeys | main.py:127-133 | updating a user with name, email and role keeps its key order |
| Store.UpdatedIdempotent | main.py:127-133 | repeating an update changes nothing |
| Store.ValueKept | main.py:128-133 | every given field is present afterwards |
| Store.CreatedShape | main.py:146-148 | a new workspace has keys `id, name, description, members`, the chosen id, the name, the description as given (`None` when left out), and the members as listed |
| Store.CreatedDateBound | main.py:146-148 | a created workspace has no `created_at`, so it passes a date bound exactly when the bound lets the default date through |
| Store.CreatedHiddenByLaterBound | main.py:191-196 | a workspace just created is hidden by `created_after=2024-03-01` |
| Store.CreatedWorkspaceListed | main.py:146-149 | a bare listing of a store holding one created workspace lists exactly that one |
| Store.CreatedVisible | main.py:216-217 | a created workspace has no `deleted_at`, so soft-delete hiding keeps it |
| Store.UndescribedHit | main.py:222-227 | on a workspace created without a description (`None` by default, main.py:50), the search test is a hit when the name matches and raises otherwise, since `None` has no `.lower()` |
| Store.UndescribedSearch | main.py:220-227 | a bare search over a workspace created without a description keeps it when its name matches and crashes otherwise |
| Store.UndescribedSearchCrash | main.py:220-227 | such a search that misses the name answers HTTP 500 |
| Store.UndescribedNameHit | main.py:220-227 | such a search that hits the name lists exactly that workspace |
| Store.SeededTokens | main.py:12-31 | `token1` and `token2`, with or without the prefix, authenticate John and Jane; `token3` does not |
| Store.InOrderAppend | main.py:149 | storing a record under a new key appends it to the snapshot, after the others in their order |
| Store.InOrderReplace | main.py:149 | storing a record under a listed key replaces it at that key's position and changes nothing else in the snapshot |
| Store.InOrderStore | main.py:149 | `workspaces[ws_id] = ...` on the snapshot: a new key appends the record, a listed key has its record replaced in place |
| Store.Database.constructor | main.py:10-31 | the store starts with two users, two tokens and no workspaces |
| Store.Database.AddMember | main.py:76-103 | 401 without a user, 500 `Workspace not found`, 500 `User not found`, each leaving the store unchanged; otherwise only that workspace changes, to `Joined`, in its place in the snapshot, and it is returned |
| Store.Database.AppendMember | main.py:99-101 | the update in place of one workspace's member list, which keeps its position in the snapshot |
| Store.Database.UpdateUser | main.py:109-135 | 401 without a user, 500 `User not found`, each leaving the store unchanged; otherwise only that user changes, to `Updated`, in its place in the snapshot, and it is returned |
| Store.Database.CreateWorkspace | main.py:140-150 | the workspace is stored under `id` or the fresh id; a new id appends it to the snapshot, an existing one replaces that workspace in its position |
| Store.Database.ListWorkspaces | main.py:159-176 | the listing is computed on the stored workspaces in insertion order |
| Store.Database.ListUsers | main.py:309-322 | the listing is computed on the stored users in insertion order |
| AsWritten.WorkspacesNeverListed | main.py:176-237 | as written, a store holding any workspace gets only HTTP 500 or a date message |
| AsWritten.Comprehend | main.py:176-180 | a comprehension over `result` survives exactly when nothing is left to walk, then leaves the empty list, and never raises a date message |
| AsWritten.DefaultWorkspacesCrash | main.py:216-217 | as written, a bare request on a store with one workspace answers HTTP 500 |
| AsWritten.EmptyFilterAgrees | main.py:178-226 | on an empty store the written and the intended filter blocks fail with the same message, or both keep nothing |
| AsWritten.WorkspacesAgreeWhenEmpty | main.py:176-305 | on an empty store, whenever the as-written handler survives it answers what the intended one does |
| AsWritten.UsersAlwaysCrash | main.py:322-356 | as written, a store holding any user answers every user listing with HTTP 500 |
| AsWritten.SeededUsersCrash | main.py:12-25 | the seeded store therefore answers every user listing with HTTP 500 |
| AsWritten.SeededUsersListed | main.py:309-396 | the intended listing shows both seeded users to a bare request |

## Findings

| source | as written | input that shows it | evidently intended | confidence | as-written member | corrected member |
|---|---|---|---|---|---|---|
| main.py:176 | `result = workspaces.copy()` is a dict, so each comprehension walks the ids and `ws.get` raises on a string; a dict that reaches `result.sort` or the slice raises too | one stored workspace and a bare `GET /workspaces` | walk the stored records: `list(workspaces.values())` | high, not executed | AsWritten.WorkspacesNeverListed | Workspaces.ListingReturned |
| main.py:322 | `result = users.copy()` is a dict, with the same consequences | the seeded store and a bare `GET /users` | `list(users.values())` | high, not executed | AsWritten.UsersAlwaysCrash | AsWritten.SeededUsersListed |

The rest of the model (`Workspaces`, `Users`, `Store.Database.ListWorkspaces`,
`Store.Database.ListUsers`) uses the corrected reading.

## Left out

- HTTP plumbing (FastAPI routing, pydantic validation, JSON encoding), the `print` logging and `uvicorn` startup are not modelled. Requests arrive as query values and bodies as typed records.
- `random.randint` and `random.choice` are replaced by the caller-supplied `Workspaces.Draws`. `uuid.uuid4()` is replaced by the `freshId` parameter of `Store.Database.CreateWorkspace`.
- Store.Database.CreateWorkspace: the `except` branch (`Failed to create workspace`) is not modelled, because nothing in the `try` body can raise once the body has been validated.
- Stages.Page: `limit` and `offset` are `nat`. Python's negative slice bounds are not modelled.
- Dates.ParseDate: accepts exactly `YYYY-MM-DD` with a valid calendar date. The rest of `datetime.fromisoformat`'s grammar (times, offsets, week dates) and comparisons between dates and datetimes are not modelled.
- Sorting.SortSeq: every key is compared as text (`str()` of the value, `""` when missing). Python's ordering of numbers, and the `TypeError` for mixed key types, are not modelled.
- Values.Hashable and the summary tally do not model that Python hashes `1`, `1.0` and `True` equal. Floating point values are not represented.
- Text.Lower lowers ASCII letters only. Unicode case mapping is not modelled.
- Values.Repr renders nested lists and dicts in a simplified `repr` form, without Python's string escaping.
- Shallow-copy aliasing: the source's enrichment (main.py:239-260) writes the dummy `members` and `resources` into the stored workspace records. The model enriches copies and leaves the store unchanged.
- Store.Database.Valid requires every stored workspace to hold a list under `members`. The source guarantees this through its pydantic model. Membership on a record without such a list is not modelled.
- Concurrency between requests is not modelled: each handler runs atomically on the store.
- The missing authorization checks (any authenticated caller may change any membership or user, and anyone may create a workspace) are modelled as written, not corrected.
- `processing_time_ms` is the source's constant (37 or 42), not a measured time.
