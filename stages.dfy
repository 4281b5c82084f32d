/**
 * The filter and pagination stages shared by the workspace and user listings
 * (main.py:179-237 and main.py:325-356).
 *
 * Each Python list comprehension `[x for x in result if p(x)]` is `Where`.
 * A stage whose test can raise returns a `Result`: the comprehension walks
 * the records in order, so the first record whose test raises decides the
 * failure, and nothing after it is looked at.
 */
module Stages {
  import opened Wrappers
  import opened Text
  import opened Values
  import opened Dates

  /** Why a listing produced no payload. */
  datatype Failure =
    | BadDate(message: string) // the `except ValueError` branch: `{"error": message}`
    | Crash                    // an exception nothing catches: HTTP 500

  // ---------------------------------------------------------------------------
  // Order-preserving filtering

  /** `[x for x in s if p(x)]`. */
  function Where<T>(s: seq<T>, p: T -> bool): (r: seq<T>)
    ensures |r| <= |s|
    ensures forall x :: x in r ==> x in s && p(x)
  {
    if s == [] then [] else (if p(s[0]) then [s[0]] else []) + Where(s[1..], p)
  }

  /** Filtering distributes over concatenation: kept records stay in collection order. */
  lemma {:induction false} WhereAppend<T>(a: seq<T>, b: seq<T>, p: T -> bool)
    ensures Where(a + b, p) == Where(a, p) + Where(b, p)
  {
    if a == [] {
      assert a + b == b;
    } else {
      assert (a + b)[1..] == a[1..] + b;
      WhereAppend(a[1..], b, p);
    }
  }

  /** Filtering a sequence is filtering all but its last element, then the last. */
  lemma WhereSnoc<T>(s: seq<T>, p: T -> bool)
    requires s != []
    ensures Where(s, p) == Where(s[..|s| - 1], p) + Where([s[|s| - 1]], p)
  {
    SnocSplit(s);
    WhereAppend(s[..|s| - 1], [s[|s| - 1]], p);
  }

  lemma SnocSplit<T>(s: seq<T>)
    requires s != []
    ensures s == s[..|s| - 1] + [s[|s| - 1]]
  {
  }

  /** Each record satisfying `p` is kept as often as it occurs; no other record is kept. */
  lemma {:induction false} WhereMultiset<T>(s: seq<T>, p: T -> bool, x: T)
    ensures multiset(Where(s, p))[x] == if p(x) then multiset(s)[x] else 0
  {
    if s != [] {
      WhereMultiset(s[1..], p, x);
      assert s == [s[0]] + s[1..];
    }
  }

  /** The conjunction of two tests. */
  function And<T>(p: T -> bool, q: T -> bool): T -> bool
  {
    x => p(x) && q(x)
  }

  /** Two filters in a row keep what their conjunction keeps. */
  lemma {:induction false} WhereWhere<T>(s: seq<T>, p: T -> bool, q: T -> bool)
    ensures Where(Where(s, p), q) == Where(s, And(p, q))
  {
    if s != [] {
      WhereWhere(s[1..], p, q);
      assert And(p, q)(s[0]) == (p(s[0]) && q(s[0]));
      if p(s[0]) {
        assert Where(s, p) == [s[0]] + Where(s[1..], p);
        WhereAppend([s[0]], Where(s[1..], p), q);
        assert [s[0]][1..] == [];
        assert Where([s[0]], q) == if q(s[0]) then [s[0]] else [];
      } else {
        assert Where(s, p) == Where(s[1..], p);
      }
    }
  }

  /** A filter no record passes keeps nothing. */
  lemma {:induction false} WhereNone<T>(s: seq<T>, p: T -> bool)
    requires forall x :: x in s ==> !p(x)
    ensures Where(s, p) == []
  {
    if s != [] {
      WhereNone(s[1..], p);
    }
  }

  /** Filters that agree on the records present keep the same records. */
  lemma {:induction false} WhereAgree<T>(s: seq<T>, p: T -> bool, q: T -> bool)
    requires forall x :: x in s ==> p(x) == q(x)
    ensures Where(s, p) == Where(s, q)
  {
    if s != [] {
      WhereAgree(s[1..], p, q);
    }
  }

  /** A filter every record passes changes nothing. */
  lemma {:induction false} WhereAll<T>(s: seq<T>, p: T -> bool)
    requires forall x :: x in s ==> p(x)
    ensures Where(s, p) == s
  {
    if s != [] {
      WhereAll(s[1..], p);
      assert s == [s[0]] + s[1..];
    }
  }

  /** `if criterion:` in Python: the criterion is present and not empty. */
  predicate Given(o: Option<string>)
  {
    o.Some? && o.value != ""
  }

  // ---------------------------------------------------------------------------
  // Exact match and soft-delete visibility

  /** `r.get(field) == t`: a missing field reads as `None`, which equals no string. */
  predicate FieldIs(r: Record, field: string, t: string)
  {
    Get(r, field) == VStr(t)
  }

  /** A record passes an exact-match criterion; an absent or empty criterion passes all. */
  predicate EqOk(r: Record, field: string, v: Option<string>)
  {
    !Given(v) || FieldIs(r, field, v.value)
  }

  /** `if v: result = [x for x in result if x.get(field) == v]`. */
  function WhereEq(s: seq<Record>, field: string, v: Option<string>): seq<Record>
  {
    if Given(v) then
      var t := v.value;
      Where(s, r => FieldIs(r, field, t))
    else s
  }

  /** `EqOk` as a test. */
  function EqTest(field: string, v: Option<string>): Record -> bool
  {
    r => EqOk(r, field, v)
  }

  /** The exact-match stage keeps exactly the records that pass the criterion, in order. */
  lemma WhereEqIsFilter(s: seq<Record>, field: string, v: Option<string>)
    ensures WhereEq(s, field, v) == Where(s, EqTest(field, v))
  {
    if Given(v) {
      var t := v.value;
      WhereAgree(s, r => FieldIs(r, field, t), EqTest(field, v));
    } else {
      WhereAll(s, EqTest(field, v));
    }
  }

  /** `not r.get("deleted_at")`. */
  predicate NotDeleted(r: Record)
  {
    !Truthy(Get(r, "deleted_at"))
  }

  /** `if not include_deleted: result = [x for x in result if not x.get("deleted_at")]`. */
  function HideDeleted(s: seq<Record>, includeDeleted: bool): (r: seq<Record>)
    ensures !includeDeleted ==> forall x :: x in r ==> NotDeleted(x)
    ensures includeDeleted ==> r == s
  {
    if includeDeleted then s else Where(s, NotDeleted)
  }

  /** Whether a record is listed, given `include_deleted`. */
  function Visible(includeDeleted: bool): Record -> bool
  {
    r => includeDeleted || NotDeleted(r)
  }

  lemma HideDeletedIsFilter(s: seq<Record>, includeDeleted: bool)
    ensures HideDeleted(s, includeDeleted) == Where(s, Visible(includeDeleted))
  {
    if includeDeleted {
      WhereAll(s, Visible(includeDeleted));
    } else {
      WhereAgree(s, NotDeleted, Visible(includeDeleted));
    }
  }

  // ---------------------------------------------------------------------------
  // Inclusive date range on `created_at`

  datatype Bound = After | Before

  /**
   * What a record without `created_at` reads as: 1970-01-01 against
   * `created_after` and 2099-12-31 against `created_before`. Such a record is
   * dropped by any `created_after` later than 1970-01-01 and by any
   * `created_before` earlier than 2099-12-31.
   */
  function BoundDefault(kind: Bound): string
  {
    if kind == After then EarliestDefault else LatestDefault
  }

  /** The message returned when the bound or a record's date is not a date. */
  function BoundMessage(kind: Bound): string
  {
    if kind == After then "Invalid date format for created_after. Use ISO format (YYYY-MM-DD)."
    else "Invalid date format for created_before. Use ISO format (YYYY-MM-DD)."
  }

  /** `created_at >= created_after`, or `created_at <= created_before`. */
  predicate Within(kind: Bound, d: Date, limit: Date)
  {
    if kind == After then NotAfter(limit, d) else NotAfter(d, limit)
  }

  /**
   * `datetime.fromisoformat(r.get("created_at", default))`: a string that is
   * not a date raises `ValueError` (caught), any other value raises
   * `TypeError` (not caught).
   */
  function RecordDate(r: Record, kind: Bound): Result<Date, Failure>
  {
    match GetOr(r, "created_at", VStr(BoundDefault(kind)))
    case VStr(t) => (match ParseDate(t)
                     case Some(d) => Ok(d)
                     case None => Err(BadDate(BoundMessage(kind))))
    case _ => Err(Crash)
  }

  function KeepWithin(s: seq<Record>, kind: Bound, limit: Date): Result<seq<Record>, Failure>
  {
    if s == [] then Ok([])
    else
      var d :- RecordDate(s[0], kind);
      var rest :- KeepWithin(s[1..], kind, limit);
      Ok(if Within(kind, d, limit) then [s[0]] + rest else rest)
  }

  /** The `if created_after:` (or `if created_before:`) block. */
  function DateStage(s: seq<Record>, bound: Option<string>, kind: Bound): Result<seq<Record>, Failure>
  {
    if !Given(bound) then Ok(s)
    else
      match ParseDate(bound.value)
      case None => Err(BadDate(BoundMessage(kind)))
      case Some(limit) => KeepWithin(s, kind, limit)
  }

  /** A record passes a date bound: its date parses and lies on the right side. */
  predicate DateOk(r: Record, bound: Option<string>, kind: Bound)
  {
    !Given(bound)
    || (ParseDate(bound.value).Some? && RecordDate(r, kind).Ok?
        && Within(kind, RecordDate(r, kind).value, ParseDate(bound.value).value))
  }

  /** `DateOk` as a test. */
  function DateTest(bound: Option<string>, kind: Bound): Record -> bool
  {
    r => DateOk(r, bound, kind)
  }

  /** Records that agree on `created_at` agree on a date bound. */
  lemma DateOkAgrees(r1: Record, r2: Record, bound: Option<string>, kind: Bound)
    requires GetOr(r1, "created_at", VStr(BoundDefault(kind))) == GetOr(r2, "created_at", VStr(BoundDefault(kind)))
    ensures DateOk(r1, bound, kind) == DateOk(r2, bound, kind)
  {
    assert RecordDate(r1, kind) == RecordDate(r2, kind);
  }

  /** The date a record without `created_at` is compared as. */
  function UndatedAs(kind: Bound): (d: Date)
    ensures ParseDate(BoundDefault(kind)) == Some(d)
  {
    EarliestDefaultParses();
    LatestDefaultParses();
    if kind == After then Date(1970, 1, 1) else Date(2099, 12, 31)
  }

  /**
   * A record without `created_at` passes a date bound exactly when the bound
   * is absent, or parses and lets the default date through.
   */
  lemma UndatedBound(r: Record, bound: Option<string>, kind: Bound)
    requires !Has(r, "created_at")
    ensures DateOk(r, bound, kind) <==>
              !Given(bound) || (ParseDate(bound.value).Some? && Within(kind, UndatedAs(kind), ParseDate(bound.value).value))
  {
    assert RecordDate(r, kind) == Ok(UndatedAs(kind));
  }

  /** The date filter succeeds exactly when every record's date can be read. */
  lemma {:induction false} KeepWithinOk(s: seq<Record>, kind: Bound, limit: Date)
    ensures KeepWithin(s, kind, limit).Ok? <==> forall x :: x in s ==> RecordDate(x, kind).Ok?
    ensures KeepWithin(s, kind, limit).Ok? ==>
      KeepWithin(s, kind, limit).value
        == Where(s, r => RecordDate(r, kind).Ok? && Within(kind, RecordDate(r, kind).value, limit))
  {
    if s != [] {
      KeepWithinOk(s[1..], kind, limit);
      assert s == [s[0]] + s[1..];
    }
  }

  /** When the date filter fails, it is with the failure of the first unreadable date. */
  lemma {:induction false} KeepWithinFirstFailure(s: seq<Record>, kind: Bound, limit: Date)
    requires KeepWithin(s, kind, limit).Err?
    ensures exists i :: 0 <= i < |s| && RecordDate(s[i], kind).Err?
                      && KeepWithin(s, kind, limit).error == RecordDate(s[i], kind).error
                      && forall j :: 0 <= j < i ==> RecordDate(s[j], kind).Ok?
  {
    if RecordDate(s[0], kind).Ok? {
      KeepWithinFirstFailure(s[1..], kind, limit);
      var i :| 0 <= i < |s[1..]| && RecordDate(s[1..][i], kind).Err?
        && KeepWithin(s[1..], kind, limit).error == RecordDate(s[1..][i], kind).error
        && forall j :: 0 <= j < i ==> RecordDate(s[1..][j], kind).Ok?;
      assert RecordDate(s[i + 1], kind).Err?;
      forall j | 0 <= j < i + 1
        ensures RecordDate(s[j], kind).Ok?
      {
        if j > 0 {
          assert s[j] == s[1..][j - 1];
        }
      }
    } else {
      assert RecordDate(s[0], kind).Err?;
    }
  }

  /** On success the date stage keeps exactly the records within the bound, in order. */
  lemma DateStageIsFilter(s: seq<Record>, bound: Option<string>, kind: Bound)
    requires DateStage(s, bound, kind).Ok?
    ensures DateStage(s, bound, kind).value == Where(s, DateTest(bound, kind))
  {
    if Given(bound) {
      var limit := ParseDate(bound.value).value;
      KeepWithinOk(s, kind, limit);
      WhereAgree(s, r => RecordDate(r, kind).Ok? && Within(kind, RecordDate(r, kind).value, limit),
                 DateTest(bound, kind));
    } else {
      WhereAll(s, DateTest(bound, kind));
    }
  }

  /** A date stage fails only with its own message or a crash. */
  lemma DateStageFailure(s: seq<Record>, bound: Option<string>, kind: Bound)
    requires DateStage(s, bound, kind).Err?
    ensures DateStage(s, bound, kind).error in {BadDate(BoundMessage(kind)), Crash}
  {
    if ParseDate(bound.value).Some? {
      KeepWithinFirstFailure(s, kind, ParseDate(bound.value).value);
    }
  }

  /** An unreadable bound is reported whatever the records are. */
  lemma DateStageBadBound(s: seq<Record>, bound: Option<string>, kind: Bound)
    requires Given(bound) && ParseDate(bound.value).None?
    ensures DateStage(s, bound, kind) == Err(BadDate(BoundMessage(kind)))
  {
  }

  // ---------------------------------------------------------------------------
  // Case-insensitive search

  /** `q in r.get(f, "").lower()`, for a field that holds a string (or is missing). */
  predicate FieldContains(q: string, r: Record, f: string)
  {
    GetOr(r, f, VStr("")).VStr? && IsSubstring(q, Lower(GetOr(r, f, VStr("")).s))
  }

  /**
   * `q in r.get(f1, "").lower() or q in r.get(f2, "").lower() or ...`:
   * evaluated left to right and stopping at the first hit; `.lower()` on a
   * value that is not a string raises.
   */
  function Hit(q: string, fields: seq<string>, r: Record): Result<bool, Failure>
  {
    if fields == [] then Ok(false)
    else
      match GetOr(r, fields[0], VStr(""))
      case VStr(t) => if IsSubstring(q, Lower(t)) then Ok(true) else Hit(q, fields[1..], r)
      case _ => Err(Crash)
  }

  function KeepHits(s: seq<Record>, q: string, fields: seq<string>): Result<seq<Record>, Failure>
  {
    if s == [] then Ok([])
    else
      var b :- Hit(q, fields, s[0]);
      var rest :- KeepHits(s[1..], q, fields);
      Ok(if b then [s[0]] + rest else rest)
  }

  /** `if search: search = search.lower(); result = [x for x in result if <hit>]`. */
  function SearchStage(s: seq<Record>, search: Option<string>, fields: seq<string>): Result<seq<Record>, Failure>
  {
    if !Given(search) then Ok(s) else KeepHits(s, Lower(search.value), fields)
  }

  /** A record passes search: the lowered query occurs in the lowered value of some field. */
  predicate SearchOk(r: Record, search: Option<string>, fields: seq<string>)
  {
    !Given(search) || exists j :: 0 <= j < |fields| && FieldContains(Lower(search.value), r, fields[j])
  }

  /** `SearchOk` as a test. */
  function SearchTest(search: Option<string>, fields: seq<string>): Record -> bool
  {
    r => SearchOk(r, search, fields)
  }

  /** Records that agree on the searched fields agree on search. */
  lemma SearchOkAgrees(r1: Record, r2: Record, search: Option<string>, fields: seq<string>)
    requires forall j :: 0 <= j < |fields| ==> GetOr(r1, fields[j], VStr("")) == GetOr(r2, fields[j], VStr(""))
    ensures SearchOk(r1, search, fields) == SearchOk(r2, search, fields)
  {
    if Given(search) {
      var q := Lower(search.value);
      forall j | 0 <= j < |fields|
        ensures FieldContains(q, r1, fields[j]) == FieldContains(q, r2, fields[j])
      {
      }
    }
  }

  /** A search test that does not raise answers whether some field contains the query. */
  lemma {:induction false} HitMeans(q: string, fields: seq<string>, r: Record)
    requires Hit(q, fields, r).Ok?
    ensures Hit(q, fields, r).value <==> exists j :: 0 <= j < |fields| && FieldContains(q, r, fields[j])
  {
    if fields != [] && !FieldContains(q, r, fields[0]) {
      HitMeans(q, fields[1..], r);
      if exists j :: 0 <= j < |fields| && FieldContains(q, r, fields[j]) {
        var j :| 0 <= j < |fields| && FieldContains(q, r, fields[j]);
        assert j > 0 && fields[1..][j - 1] == fields[j];
      }
      if Hit(q, fields, r).value {
        var j :| 0 <= j < |fields[1..]| && FieldContains(q, r, fields[1..][j]);
        assert fields[j + 1] == fields[1..][j];
      }
    }
  }

  /** A search test cannot raise when every searched field is a string or missing. */
  lemma {:induction false} HitTotal(q: string, fields: seq<string>, r: Record)
    requires forall j :: 0 <= j < |fields| ==> GetOr(r, fields[j], VStr("")).VStr?
    ensures Hit(q, fields, r).Ok?
  {
    if fields != [] {
      HitTotal(q, fields[1..], r);
    }
  }

  lemma {:induction false} KeepHitsIsFilter(s: seq<Record>, q: string, fields: seq<string>)
    requires KeepHits(s, q, fields).Ok?
    ensures forall x :: x in s ==> Hit(q, fields, x).Ok?
    ensures KeepHits(s, q, fields).value == Where(s, r => Hit(q, fields, r).Ok? && Hit(q, fields, r).value)
  {
    if s != [] {
      KeepHitsIsFilter(s[1..], q, fields);
    }
  }

  /** On success the search stage keeps exactly the matching records, in order. */
  lemma SearchStageIsFilter(s: seq<Record>, search: Option<string>, fields: seq<string>)
    requires SearchStage(s, search, fields).Ok?
    ensures SearchStage(s, search, fields).value == Where(s, SearchTest(search, fields))
  {
    if Given(search) {
      var q := Lower(search.value);
      KeepHitsIsFilter(s, q, fields);
      forall x | x in s
        ensures (Hit(q, fields, x).Ok? && Hit(q, fields, x).value) == SearchOk(x, search, fields)
      {
        HitMeans(q, fields, x);
      }
      WhereAgree(s, r => Hit(q, fields, r).Ok? && Hit(q, fields, r).value, SearchTest(search, fields));
    } else {
      WhereAll(s, SearchTest(search, fields));
    }
  }

  /** The search stage can only crash, on a searched field that is not a string. */
  lemma {:induction false} KeepHitsFailure(s: seq<Record>, q: string, fields: seq<string>)
    requires KeepHits(s, q, fields).Err?
    ensures KeepHits(s, q, fields).error == Crash
    ensures exists x, j :: x in s && 0 <= j < |fields| && !GetOr(x, fields[j], VStr("")).VStr?
  {
    if Hit(q, fields, s[0]).Err? {
      HitFailure(q, fields, s[0]);
      var j :| 0 <= j < |fields| && !GetOr(s[0], fields[j], VStr("")).VStr?;
      assert s[0] in s;
    } else {
      KeepHitsFailure(s[1..], q, fields);
      var x, j :| x in s[1..] && 0 <= j < |fields| && !GetOr(x, fields[j], VStr("")).VStr?;
      assert x in s;
    }
  }

  lemma {:induction false} HitFailure(q: string, fields: seq<string>, r: Record)
    requires Hit(q, fields, r).Err?
    ensures Hit(q, fields, r).error == Crash
    ensures exists j :: 0 <= j < |fields| && !GetOr(r, fields[j], VStr("")).VStr?
  {
    if GetOr(r, fields[0], VStr("")).VStr? {
      HitFailure(q, fields[1..], r);
      var j :| 0 <= j < |fields[1..]| && !GetOr(r, fields[1..][j], VStr("")).VStr?;
      assert fields[1..][j] == fields[j + 1];
    }
  }

  lemma SearchStageFailure(s: seq<Record>, search: Option<string>, fields: seq<string>)
    requires SearchStage(s, search, fields).Err?
    ensures SearchStage(s, search, fields).error == Crash
    ensures exists x, j :: x in s && 0 <= j < |fields| && !GetOr(x, fields[j], VStr("")).VStr?
  {
    KeepHitsFailure(s, Lower(search.value), fields);
  }

  /** Search ignores case: a field containing the query as typed is always a match. */
  lemma SearchKeepsVerbatimMatch(s: seq<Record>, search: Option<string>, fields: seq<string>, x: Record, j: nat)
    requires SearchStage(s, search, fields).Ok?
    requires Given(search) && x in s && j < |fields|
    requires GetOr(x, fields[j], VStr("")).VStr?
    requires IsSubstring(search.value, GetOr(x, fields[j], VStr("")).s)
    ensures x in SearchStage(s, search, fields).value
  {
    SubstringSurvivesLower(search.value, GetOr(x, fields[j], VStr("")).s);
    assert FieldContains(Lower(search.value), x, fields[j]);
    SearchStageIsFilter(s, search, fields);
    WhereMultiset(s, SearchTest(search, fields), x);
  }

  // ---------------------------------------------------------------------------
  // Pagination

  function Min(a: int, b: int): int
  {
    if a <= b then a else b
  }

  function Max(a: int, b: int): int
  {
    if a >= b then a else b
  }

  /** `s[offset : offset + limit]` for non-negative bounds: Python clips both ends. */
  function Page<T>(s: seq<T>, offset: nat, limit: nat): (r: seq<T>)
    ensures |r| == Min(limit, Max(0, |s| - offset))
    ensures forall i :: 0 <= i < |r| ==> r[i] == s[offset + i]
  {
    s[Min(offset, |s|)..Min(offset + limit, |s|)]
  }

  /** The page's length in terms of the length `n` of what is paged. */
  lemma PageCount<T>(s: seq<T>, n: nat, offset: nat, limit: nat)
    requires |s| == n
    ensures |Page(s, offset, limit)| == Min(limit, Max(0, n - offset))
  {
  }
}
