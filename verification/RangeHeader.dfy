/** player/server.go: the Range header parser, the Content-Range printer, and what they mean. */
module RangeHeader {
  import opened Common
  import opened GoStrings

  datatype HttpRange = HttpRange(start: int, length: int)
  {
    predicate Inside(size: int) { 0 <= start && 0 <= length && start + length <= size }

    function ContentRange(size: int): string
    {
      "bytes " + FormatInt(start) + "-" + FormatInt(Int64(start + length - 1)) + "/" + FormatInt(size)
    }
  }

  datatype RangeError = InvalidRange | NoOverlap

  /** What one list item of the header contributes. */
  datatype Item = Blank | Bad | Outside | Keep(range: HttpRange)

  const UNIT := "bytes="

  /** The last n bytes of the file, all of it if it is shorter, in int64 arithmetic: n may carry a minus sign. */
  function SuffixRange(n: int, size: int): HttpRange
  {
    var from := Int64(size - Min(n, size));
    HttpRange(from, Int64(size - from))
  }

  function ParseItem(item: string, size: int): Item
  {
    var ra := TrimSpace(item);
    if ra == "" then Blank
    else
      var i := Index(ra, '-');
      if i < 0 then Bad else RangeBetween(TrimSpace(ra[..i]), TrimSpace(ra[i + 1..]), size)
  }

  /** What the texts before and after the dash stand for. */
  function RangeBetween(start: string, end: string, size: int): Item
  {
    if start == "" then
      match ParseInt(end)
      case None => Bad
      case Some(n) => Keep(SuffixRange(n, size))
    else
      match ParseInt(start)
      case None => Bad
      case Some(first) =>
        if first < 0 then Bad
        else if first >= size then Outside
        else if end == "" then Keep(HttpRange(first, size - first))
        else
          match ParseInt(end)
          case None => Bad
          case Some(last) =>
            if first > last then Bad
            else Keep(HttpRange(first, Min(last, size - 1) - first + 1))
  }

  /** The items of a list, in order. */
  function Items(parts: seq<string>, size: int): (items: seq<Item>)
    ensures |items| == |parts|
    ensures forall i :: 0 <= i < |parts| ==> items[i] == ParseItem(parts[i], size)
  {
    if parts == [] then [] else Items(parts[..|parts| - 1], size) + [ParseItem(parts[|parts| - 1], size)]
  }

  function Kept(items: seq<Item>): seq<HttpRange>
  {
    if items == [] then []
    else Kept(items[..|items| - 1]) + match items[|items| - 1] case Keep(r) => [r] case _ => []
  }

  /** The outcome of a list of items: an invalid item spoils the header; out-of-range items are dropped,
      and are an error only if no range is kept. */
  function Outcome(items: seq<Item>): Result<seq<HttpRange>, RangeError>
  {
    if Bad in items then Err(InvalidRange)
    else if Outside in items && Kept(items) == [] then Err(NoOverlap)
    else Ok(Kept(items))
  }

  function RangesOf(s: string, size: int): Result<seq<HttpRange>, RangeError>
  {
    if s == "" then Ok([])
    else if !(UNIT <= s) then Err(InvalidRange)
    else Outcome(Items(Split(s[|UNIT|..], ','), size))
  }

  lemma ItemsOfPrefix(parts: seq<string>, size: int, k: nat)
    requires k < |parts|
    ensures Items(parts[..k + 1], size) == Items(parts[..k], size) + [ParseItem(parts[k], size)]
    ensures Kept(Items(parts[..k + 1], size)) ==
            Kept(Items(parts[..k], size)) + match ParseItem(parts[k], size) case Keep(r) => [r] case _ => []
  {
    assert parts[..k + 1][..k] == parts[..k];
    var items := Items(parts[..k + 1], size);
    assert items[..k] == Items(parts[..k], size);
  }

  lemma BadSpoils(parts: seq<string>, size: int, k: nat)
    requires k < |parts| && ParseItem(parts[k], size) == Bad
    ensures Outcome(Items(parts, size)) == Err(InvalidRange)
  {
    assert Items(parts, size)[k] == Bad;
  }

  /** What the parser's loop knows after k items. */
  ghost predicate Scanned(parts: seq<string>, size: int, k: nat, noOverlap: bool, ranges: seq<HttpRange>)
    requires k <= |parts|
  {
    var items := Items(parts[..k], size);
    Bad !in items && (noOverlap <==> Outside in items) && ranges == Kept(items)
  }

  lemma ScanSkips(parts: seq<string>, size: int, k: nat, noOverlap: bool, ranges: seq<HttpRange>)
    requires k < |parts| && Scanned(parts, size, k, noOverlap, ranges)
    ensures ParseItem(parts[k], size) == Blank ==> Scanned(parts, size, k + 1, noOverlap, ranges)
    ensures ParseItem(parts[k], size) == Outside ==> Scanned(parts, size, k + 1, true, ranges)
  {
    ItemsOfPrefix(parts, size, k);
  }

  lemma ScanKeeps(parts: seq<string>, size: int, k: nat, noOverlap: bool, before: seq<HttpRange>, r: HttpRange,
                  ranges: seq<HttpRange>)
    requires k < |parts| && Scanned(parts, size, k, noOverlap, before)
    requires ParseItem(parts[k], size) == Keep(r) && ranges == before + [r]
    ensures Scanned(parts, size, k + 1, noOverlap, ranges)
  {
    ItemsOfPrefix(parts, size, k);
  }

  lemma ScanEnds(parts: seq<string>, size: int, noOverlap: bool, ranges: seq<HttpRange>)
    requires Scanned(parts, size, |parts|, noOverlap, ranges)
    ensures Outcome(Items(parts, size)) == if noOverlap && ranges == [] then Err(NoOverlap) else Ok(ranges)
  {
    assert parts[..|parts|] == parts;
  }

  lemma KeepsFrom(start: string, end: string, size: int, first: int, range: HttpRange)
    requires start != "" && end == "" && ParseInt(start) == Some(first) && 0 <= first < size
    requires range == HttpRange(first, size - first)
    ensures RangeBetween(start, end, size) == Keep(range)
  {
  }

  lemma KeepsBetween(start: string, end: string, size: int, first: int, last: int, range: HttpRange)
    requires start != "" && end != "" && ParseInt(start) == Some(first) && ParseInt(end) == Some(last)
    requires 0 <= first < size && first <= last && range == HttpRange(first, Min(last, size - 1) - first + 1)
    ensures RangeBetween(start, end, size) == Keep(range)
  {
  }

  /** parseRange. */
  method ParseRange(s: string, size: int) returns (r: Result<seq<HttpRange>, RangeError>)
    requires 0 <= size < TWO_63
    ensures r == RangesOf(s, size)
  {
    if s == "" {
      return Ok([]);
    }
    if !(UNIT <= s) {
      return Err(InvalidRange);
    }
    r := ParseItems(Split(s[|UNIT|..], ','), size);
  }

  /** The loop of parseRange over the list items. */
  method ParseItems(parts: seq<string>, size: int) returns (r: Result<seq<HttpRange>, RangeError>)
    requires 0 <= size < TWO_63
    ensures r == Outcome(Items(parts, size))
  {
    var ranges: seq<HttpRange> := [];
    var noOverlap := false;
    for k := 0 to |parts|
      invariant Scanned(parts, size, k, noOverlap, ranges)
    {
      ghost var item := ParseItem(parts[k], size);
      var ra := TrimSpace(parts[k]);
      if ra == "" {
        ScanSkips(parts, size, k, noOverlap, ranges);
        continue;
      }
      var i := Index(ra, '-');
      if i < 0 {
        BadSpoils(parts, size, k);
        return Err(InvalidRange);
      }
      var start, end := TrimSpace(ra[..i]), TrimSpace(ra[i + 1..]);
      assert item == RangeBetween(start, end, size);
      var range;
      if start == "" {
        // Without a start, the end counts bytes from the end of the file.
        var n := ParseInt(end);
        if n.None? {
          BadSpoils(parts, size, k);
          return Err(InvalidRange);
        }
        range := SuffixRange(n.value, size);
        assert item == Keep(range);
      } else {
        var first := ParseInt(start);
        if first.None? || first.value < 0 {
          BadSpoils(parts, size, k);
          return Err(InvalidRange);
        }
        if first.value >= size {
          ScanSkips(parts, size, k, noOverlap, ranges);
          noOverlap := true;
          continue;
        }
        if end == "" {
          range := HttpRange(first.value, size - first.value);
          KeepsFrom(start, end, size, first.value, range);
        } else {
          var last := ParseInt(end);
          if last.None? || first.value > last.value {
            BadSpoils(parts, size, k);
            return Err(InvalidRange);
          }
          range := HttpRange(first.value, Min(last.value, size - 1) - first.value + 1);
          KeepsBetween(start, end, size, first.value, last.value, range);
        }
      }
      ghost var before := ranges;
      ranges := ranges + [range];
      ScanKeeps(parts, size, k, noOverlap, before, range, ranges);
    }
    ScanEnds(parts, size, noOverlap, ranges);
    if noOverlap && ranges == [] {
      return Err(NoOverlap);
    }
    r := Ok(ranges);
  }
}
