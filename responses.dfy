/**
 * What both listings share after filtering: the optional sort on an
 * allow-listed key, the shape of the bodies they answer with, and the echo
 * of the query in the `filters` block.
 */
module Responses {
  import opened Wrappers
  import opened Text
  import opened Values
  import opened Stages
  import opened Sorting

  datatype Pagination = Pagination(limit: nat, offset: nat, total: nat)

  datatype Stats = Stats(totalCount: nat, returnedCount: nat, processingTimeMs: nat)

  /** The body of a listing request. */
  datatype Response =
    | Listed(items: seq<Record>, pagination: Pagination, filters: Record, stats: Stats)
    | CsvBody(text: string)
    | Summary(count: nat, types: map<Value, nat>, statuses: map<Value, nat>)
    | ErrorBody(message: string) // `{"error": message}`
    | ServerError                // an uncaught exception: HTTP 500

  /** The body for a failed filter stage; the body tells which failure it was. */
  function FailureBody(f: Failure): (r: Response)
    ensures r.ErrorBody? || r.ServerError?
    ensures r.ErrorBody? ==> f == BadDate(r.message)
    ensures r.ServerError? ==> f == Crash
  {
    match f
    case BadDate(m) => ErrorBody(m)
    case Crash => ServerError
  }

  /** An optional query parameter as echoed in the payload: `None` stays `None`. */
  function Echo(o: Option<string>): Value
  {
    match o
    case None => VNone
    case Some(s) => VStr(s)
  }

  /**
   * The query as echoed back: `search` was reassigned to its lower-case form
   * when given. The echo is given exactly when the search is, is already in
   * lower case, and matches what the search matches.
   */
  function SearchEcho(search: Option<string>): (r: Option<string>)
    ensures r.None? <==> search.None?
    ensures Given(r) <==> Given(search)
    ensures Given(search) ==> Lower(r.value) == r.value && Lower(r.value) == Lower(search.value)
  {
    if Given(search) then LowerIdempotent(search.value); Some(Lower(search.value)) else search
  }

  /** `sort_order.lower() == "desc"`. */
  predicate Descending(sortOrder: string)
  {
    Lower(sortOrder) == "desc"
  }

  /** `if sort_by in allowed: result.sort(key=..., reverse=...)`. */
  function SortStage(s: seq<Record>, sortBy: string, sortOrder: string, allowed: seq<string>): seq<Record>
  {
    if sortBy in allowed then SortSeq(s, KeyOf(sortBy), Descending(sortOrder)) else s
  }

  /**
   * The sort stage only reorders; on an allow-listed key the result is ordered
   * by it in the requested direction, and records with equal keys keep their
   * order; on any other key nothing moves.
   */
  lemma SortStageFacts(s: seq<Record>, sortBy: string, sortOrder: string, allowed: seq<string>)
    ensures multiset(SortStage(s, sortBy, sortOrder, allowed)) == multiset(s)
    ensures sortBy in allowed ==> Sorted(SortStage(s, sortBy, sortOrder, allowed), KeyOf(sortBy), Descending(sortOrder))
    ensures sortBy in allowed ==> forall k :: Where(SortStage(s, sortBy, sortOrder, allowed), KeyIs(KeyOf(sortBy), k))
                                            == Where(s, KeyIs(KeyOf(sortBy), k))
    ensures sortBy !in allowed ==> SortStage(s, sortBy, sortOrder, allowed) == s
  {
    if sortBy in allowed {
      var key, desc := KeyOf(sortBy), Descending(sortOrder);
      SortSeqPermutes(s, key, desc);
      SortSeqSorted(s, key, desc);
      forall k
        ensures Where(SortSeq(s, key, desc), KeyIs(key, k)) == Where(s, KeyIs(key, k))
      {
        SortSeqStable(s, key, desc, k);
      }
    }
  }

  /** The sort stage on the list the handler holds. */
  method SortListing(a: array<Record>, sortBy: string, sortOrder: string, allowed: seq<string>)
    modifies a
    ensures a[..] == SortStage(old(a[..]), sortBy, sortOrder, allowed)
  {
    if sortBy in allowed {
      SortInPlace(a, KeyOf(sortBy), Descending(sortOrder));
    }
  }

  /** A fresh array holding `s`, as Python's list built from a comprehension. */
  method ToArray(s: seq<Record>) returns (a: array<Record>)
    ensures fresh(a)
    ensures a[..] == s
  {
    a := new Record[|s|](i requires 0 <= i < |s| => s[i]);
  }
}
