/**
 * The `format == "csv"` branch of both listings (main.py:263-270 and
 * main.py:364-372): a header line of the first row's keys, then one line
 * per row with the value of each header key, every line ending in a newline.
 * No quoting is done, so the text reads back field by field only when no key
 * or value contains a comma or a newline.
 */
module Csv {
  import opened Text
  import opened Values

  /** What an empty page renders as, instead of a header. */
  const NoResults: string := "No results found"

  /** `str(item.get(h, ""))` for each header key `h`: a missing key is an empty cell. */
  function Cells(item: Record, headers: seq<string>): seq<string>
  {
    seq(|headers|, j requires 0 <= j < |headers| => Str(GetOr(item, headers[j], VStr(""))))
  }

  function Row(item: Record, headers: seq<string>): string
  {
    Join(Cells(item, headers), ",")
  }

  function Rows(items: seq<Record>, headers: seq<string>): seq<string>
  {
    seq(|items|, i requires 0 <= i < |items| => Row(items[i], headers))
  }

  /** Each line followed by a newline. */
  function Terminated(lines: seq<string>): string
  {
    if lines == [] then "" else lines[0] + "\n" + Terminated(lines[1..])
  }

  /** The text of the CSV response for a page. */
  function CsvText(page: seq<Record>): string
  {
    if page == [] then NoResults
    else
      var headers := Keys(page[0]);
      Terminated([Join(headers, ",")] + Rows(page, headers))
  }

  lemma {:induction false} TerminatedSnoc(lines: seq<string>, line: string)
    ensures Terminated(lines + [line]) == Terminated(lines) + line + "\n"
  {
    if lines == [] {
      assert [line][1..] == [];
    } else {
      assert (lines + [line])[1..] == lines[1..] + [line];
      TerminatedSnoc(lines[1..], line);
    }
  }

  /** Newline-terminated lines are the lines joined by newlines, with one empty piece after the last. */
  lemma {:induction false} TerminatedIsJoin(lines: seq<string>)
    ensures Terminated(lines) == Join(lines + [""], "\n")
  {
    if lines != [] {
      TerminatedIsJoin(lines[1..]);
      assert (lines + [""])[1..] == lines[1..] + [""];
    }
  }

  /**
   * The loop of the source: start from the header line and append one line
   * per item. `page` is only read.
   */
  method RenderCsv(page: array<Record>) returns (text: string)
    ensures text == CsvText(page[..])
  {
    if page.Length == 0 {
      return NoResults;
    }
    var headers := Keys(page[0]);
    text := Join(headers, ",") + "\n";
    var i := 0;
    while i < page.Length
      invariant 0 <= i <= page.Length
      invariant text == Terminated([Join(headers, ",")] + Rows(page[..i], headers))
    {
      var line := Join(Cells(page[i], headers), ",");
      TerminatedSnoc([Join(headers, ",")] + Rows(page[..i], headers), line);
      assert Rows(page[..i + 1], headers) == Rows(page[..i], headers) + [line];
      assert [Join(headers, ",")] + Rows(page[..i + 1], headers)
          == ([Join(headers, ",")] + Rows(page[..i], headers)) + [line];
      text := text + line + "\n";
      i := i + 1;
    }
    assert page[..page.Length] == page[..];
  }

  /** A page's text opens with its header line. */
  lemma CsvHeaderLine(page: seq<Record>)
    requires page != []
    ensures StartsWith(CsvText(page), Join(Keys(page[0]), ",") + "\n")
  {
    var lines := [Join(Keys(page[0]), ",")] + Rows(page, Keys(page[0]));
    assert lines[1..] == Rows(page, Keys(page[0]));
    assert CsvText(page) == (Join(Keys(page[0]), ",") + "\n") + Terminated(lines[1..]);
  }

  /** No key or value of the page, as rendered, contains a comma or a newline. */
  ghost predicate PlainCells(page: seq<Record>)
    requires page != []
  {
    (forall h :: h in Keys(page[0]) ==> ',' !in h && '\n' !in h)
    && forall i, h :: 0 <= i < |page| && h in Keys(page[0]) ==>
         ',' !in Str(GetOr(page[i], h, VStr(""))) && '\n' !in Str(GetOr(page[i], h, VStr("")))
  }

  /**
   * Reading the text back: an empty page is exactly the sentinel; otherwise
   * the text has a header line plus one line per item, each newline
   * terminated, and, when no cell contains a separator, the header splits into
   * the first item's keys and line `i + 1` into one field per header key,
   * holding item `i`'s value for that key (empty when it lacks the key).
   */
  lemma CsvReadBack(page: seq<Record>)
    requires page != [] ==> PlainCells(page) && Keys(page[0]) != []
    ensures page == [] ==> CsvText(page) == NoResults
    ensures page != [] ==>
      var lines := Split(CsvText(page), '\n');
      var headers := Keys(page[0]);
      && |lines| == |page| + 2
      && lines[|page| + 1] == ""
      && Split(lines[0], ',') == headers
      && forall i :: 0 <= i < |page| ==> Split(lines[i + 1], ',') == Cells(page[i], headers)
  {
    if page != [] {
      var headers := Keys(page[0]);
      var ls := [Join(headers, ",")] + Rows(page, headers);
      forall i | 0 <= i < |page|
        ensures Split(Row(page[i], headers), ',') == Cells(page[i], headers)
        ensures '\n' !in Row(page[i], headers)
      {
        var cells := Cells(page[i], headers);
        forall j | 0 <= j < |cells|
          ensures ',' !in cells[j] && '\n' !in cells[j]
        {
          assert headers[j] in headers;
        }
        SplitJoin(cells, ',');
        NoCharInJoin(cells, ",", '\n');
      }
      forall j | 0 <= j < |headers|
        ensures ',' !in headers[j]
      {
        assert headers[j] in headers;
      }
      SplitJoin(headers, ',');
      NoCharInJoin(headers, ",", '\n');
      TerminatedIsJoin(ls);
      forall k | 0 <= k < |ls + [""]|
        ensures '\n' !in (ls + [""])[k]
      {
        if 1 <= k <= |page| {
          assert (ls + [""])[k] == Row(page[k - 1], headers);
        }
      }
      SplitJoin(ls + [""], '\n');
    }
  }

  lemma {:induction false} NoCharInJoin(xs: seq<string>, sep: string, c: char)
    requires c !in sep
    requires forall i :: 0 <= i < |xs| ==> c !in xs[i]
    ensures c !in Join(xs, sep)
  {
    if |xs| > 1 {
      NoCharInJoin(xs[1..], sep, c);
    }
  }
}
