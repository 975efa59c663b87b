/** What the parser accepts and returns, against the grammar and semantics of section 2.1 of RFC 7233. */
module RangeMeaning {
  import opened Common
  import opened GoStrings
  import opened RangeHeader

  /** byte-range-spec and suffix-byte-range-spec.  Positions and lengths are 1*DIGIT, as written. */
  datatype Spec = FromTo(first: string, last: string) | From(first: string) | Suffix(length: string)
  {
    predicate Grammatical()
    {
      match this
      case FromTo(first, last) => first != "" && AllDigits(first) && last != "" && AllDigits(last)
      case From(first) => first != "" && AllDigits(first)
      case Suffix(length) => length != "" && AllDigits(length)
    }

    function Text(): string
    {
      match this
      case FromTo(first, last) => first + "-" + last
      case From(first) => first + "-"
      case Suffix(length) => "-" + length
    }

    /** Whether the spec selects byte p of a file of that size. */
    predicate Selects(size: int, p: int)
      requires Grammatical()
    {
      && 0 <= p < size
      && match this
         case FromTo(first, last) => DigitsValue(first) <= p <= DigitsValue(last)
         case From(first) => DigitsValue(first) <= p
         case Suffix(length) => p >= size - DigitsValue(length)
    }

    /** Every number that the parser looks at fits int64, and a last position that it looks at is not before the
        first. */
    predicate Acceptable(size: int)
      requires Grammatical()
    {
      match this
      case FromTo(first, last) =>
        && DigitsValue(first) < TWO_63
        && (DigitsValue(first) < size ==> DigitsValue(first) <= DigitsValue(last) < TWO_63)
      case From(first) => DigitsValue(first) < TWO_63
      case Suffix(length) => DigitsValue(length) < TWO_63
    }

    predicate StartsOutside(size: int)
      requires Grammatical()
    {
      match this
      case FromTo(first, _) => DigitsValue(first) >= size
      case From(first) => DigitsValue(first) >= size
      case Suffix(_) => false
    }
  }

  /** An element of the comma-separated list: a spec with optional white space around it, or nothing but white space. */
  datatype Element = Empty(space: string) | Element(before: string, spec: Spec, after: string)
  {
    predicate Grammatical()
    {
      match this
      case Empty(space) => AllSpace(space)
      case Element(before, spec, after) => AllSpace(before) && spec.Grammatical() && AllSpace(after)
    }

    function Text(): string
    {
      match this
      case Empty(space) => space
      case Element(before, spec, after) => before + spec.Text() + after
    }
  }

  /** The range holds exactly the bytes the spec selects; a suffix range ends where the file ends, even if empty. */
  ghost predicate Covers(range: HttpRange, spec: Spec, size: int)
    requires spec.Grammatical()
  {
    && range.Inside(size)
    && (forall p :: range.start <= p < range.start + range.length <==> spec.Selects(size, p))
    && (spec.Suffix? ==> range.start + range.length == size)
  }

  /** Covering leaves no choice: the range is determined by the spec. */
  lemma CoversIsUnique(r: HttpRange, r': HttpRange, spec: Spec, size: int)
    requires spec.Grammatical() && !spec.StartsOutside(size) && spec.Acceptable(size)
    requires Covers(r, spec, size) && Covers(r', spec, size)
    ensures r == r'
  {
    var end, end' := r.start + r.length, r'.start + r'.length;
    if r.length > 0 {
      assert spec.Selects(size, r.start) && spec.Selects(size, end - 1);
    }
    if r'.length > 0 {
      assert spec.Selects(size, r'.start) && spec.Selects(size, end' - 1);
    }
    match spec {
      case FromTo(first, _) => assert spec.Selects(size, DigitsValue(first));
      case From(first) => assert spec.Selects(size, DigitsValue(first));
      case Suffix(_) =>
    }
  }

  /** What an element must contribute to the outcome. */
  ghost predicate Means(e: Element, size: int, item: Item)
    requires e.Grammatical()
  {
    match e
    case Empty(_) => item == Blank
    case Element(_, spec, _) =>
      if !spec.Acceptable(size) then item == Bad
      else if spec.StartsOutside(size) then item == Outside
      else item.Keep? && Covers(item.range, spec, size)
  }

  lemma ItemMeans(e: Element, size: int)
    requires e.Grammatical() && 0 <= size < TWO_63
    ensures Means(e, size, ParseItem(e.Text(), size))
  {
    match e {
      case Empty(space) =>
        assert space == space + "" + "";
        TrimSpaceRemoves(space, "", "");
      case Element(before, spec, after) =>
        var (start, end) := Parts(spec);
        assert spec.Text() == start + "-" + end;
        ItemBetween(before, start, end, after, size);
        SpecMeans(spec, size);
    }
  }

  /** The digits before and after the dash. */
  function Parts(spec: Spec): (string, string)
  {
    match spec
    case FromTo(first, last) => (first, last)
    case From(first) => (first, "")
    case Suffix(length) => ("", length)
  }

  /** The parts around the dash come out as they were written. */
  lemma ItemBetween(before: string, start: string, end: string, after: string, size: int)
    requires AllSpace(before) && AllDigits(start) && AllDigits(end) && AllSpace(after)
    ensures ParseItem(before + (start + "-" + end) + after, size) == RangeBetween(start, end, size)
  {
    var ra := start + "-" + end;
    TrimSpaceRemoves(before, ra, after);
    DashSplits(start, end, ra);
  }

  lemma DashSplits(start: string, end: string, ra: string)
    requires AllDigits(start) && AllDigits(end) && ra == start + "-" + end
    ensures Index(ra, '-') == |start|
    ensures TrimSpace(ra[..|start|]) == start && TrimSpace(ra[|start| + 1..]) == end
  {
    IndexIs(start, '-', end);
    assert ra[..|start|] == start;
    assert ra[|start| + 1..] == end;
    DigitsAreTrimmed(start);
    DigitsAreTrimmed(end);
  }

  lemma DigitsAreTrimmed(s: string)
    requires AllDigits(s)
    ensures TrimSpace(s) == s
  {
    TrimSpaceRemoves("", s, "");
    assert "" + s + "" == s;
  }

  lemma SpecMeans(spec: Spec, size: int)
    requires spec.Grammatical() && 0 <= size < TWO_63
    ensures Means(Element("", spec, ""), size, RangeBetween(Parts(spec).0, Parts(spec).1, size))
  {
    match spec {
      case FromTo(first, last) =>
        ParseOfDigits(first);
        ParseOfDigits(last);
      case From(first) =>
        ParseOfDigits(first);
      case Suffix(length) =>
        ParseOfDigits(length);
    }
  }

  // ---- whole headers

  function Texts(es: seq<Element>): (texts: seq<string>)
    ensures |texts| == |es|
    ensures forall i :: 0 <= i < |es| ==> texts[i] == es[i].Text()
  {
    if es == [] then [] else Texts(es[..|es| - 1]) + [es[|es| - 1].Text()]
  }

  function Header(es: seq<Element>): string { UNIT + Join(Texts(es), ',') }

  predicate AllGrammatical(es: seq<Element>)
  {
    forall i :: 0 <= i < |es| ==> es[i].Grammatical()
  }

  predicate SomeUnacceptable(es: seq<Element>, size: int)
    requires AllGrammatical(es)
  {
    exists i :: 0 <= i < |es| && es[i].Element? && !es[i].spec.Acceptable(size)
  }

  predicate SomeOutside(es: seq<Element>, size: int)
    requires AllGrammatical(es)
  {
    exists i :: 0 <= i < |es| && es[i].Element? && es[i].spec.StartsOutside(size)
  }

  /** The specs, in order, that select something or could: those that are acceptable and start inside the file. */
  function KeptSpecs(es: seq<Element>, size: int): seq<Spec>
    requires AllGrammatical(es)
  {
    if es == [] then []
    else
      var e := es[|es| - 1];
      assert e.Grammatical();
      KeptSpecs(es[..|es| - 1], size) +
      if e.Element? && e.spec.Acceptable(size) && !e.spec.StartsOutside(size) then [e.spec] else []
  }

  ghost predicate CoverInOrder(ranges: seq<HttpRange>, specs: seq<Spec>, size: int)
  {
    && |ranges| == |specs|
    && forall k :: 0 <= k < |ranges| ==> specs[k].Grammatical() && Covers(ranges[k], specs[k], size)
  }

  lemma NoCommaInside(e: Element)
    requires e.Grammatical()
    ensures ',' !in e.Text()
  {
  }

  lemma HeaderItems(es: seq<Element>, size: int)
    requires es != [] && AllGrammatical(es)
    ensures RangesOf(Header(es), size) == Outcome(Items(Texts(es), size))
  {
    forall i | 0 <= i < |es|
      ensures ',' !in Texts(es)[i]
    {
      NoCommaInside(es[i]);
    }
    SplitUndoesJoin(Texts(es), ',');
    assert Header(es)[|UNIT|..] == Join(Texts(es), ',');
  }

  lemma {:induction false} KeptCover(es: seq<Element>, size: int)
    requires AllGrammatical(es) && 0 <= size < TWO_63
    ensures CoverInOrder(Kept(Items(Texts(es), size)), KeptSpecs(es, size), size)
  {
    if es != [] {
      var rest, e := es[..|es| - 1], es[|es| - 1];
      KeptCover(rest, size);
      assert e.Grammatical();
      ItemMeans(e, size);
      KeptOfLast(es, size);
      CoverOneMore(Kept(Items(Texts(rest), size)), KeptSpecs(rest, size), e, ParseItem(e.Text(), size), size);
    }
  }

  lemma KeptOfLast(es: seq<Element>, size: int)
    requires es != []
    ensures var n := |es| - 1;
            Kept(Items(Texts(es), size)) ==
              Kept(Items(Texts(es[..n]), size)) + match ParseItem(es[n].Text(), size) case Keep(r) => [r] case _ => []
  {
    var texts, n := Texts(es), |es| - 1;
    assert texts[..n] == Texts(es[..n]);
    assert Items(texts, size)[..n] == Items(Texts(es[..n]), size);
  }

  lemma CoverOneMore(ranges: seq<HttpRange>, specs: seq<Spec>, e: Element, item: Item, size: int)
    requires CoverInOrder(ranges, specs, size) && e.Grammatical() && Means(e, size, item)
    ensures CoverInOrder(ranges + (match item case Keep(r) => [r] case _ => []),
                         specs + (if e.Element? && e.spec.Acceptable(size) && !e.spec.StartsOutside(size) then [e.spec]
                                  else []), size)
  {
  }

  /** The parser on every grammatical header: which headers it refuses, which it calls non-overlapping, and that
      otherwise it returns one range per kept spec, in order, holding exactly the bytes that the spec selects. */
  lemma ParserMeans(es: seq<Element>, size: int)
    requires es != [] && AllGrammatical(es) && 0 <= size < TWO_63
    ensures var r := RangesOf(Header(es), size);
            && (r == Err(InvalidRange) <==> SomeUnacceptable(es, size))
            && (r == Err(NoOverlap) <==>
                  !SomeUnacceptable(es, size) && SomeOutside(es, size) && KeptSpecs(es, size) == [])
            && (r.Ok? ==> CoverInOrder(r.value, KeptSpecs(es, size), size))
  {
    HeaderItems(es, size);
    KeptCover(es, size);
    var items := Items(Texts(es), size);
    forall i | 0 <= i < |es|
      ensures Means(es[i], size, items[i])
    {
      ItemMeans(es[i], size);
    }
    BadMeans(es, size, items);
    if Bad !in items {
      OutsideMeans(es, size, items);
    }
    assert (Kept(items) == []) <==> (KeptSpecs(es, size) == []);
  }

  ghost predicate AllMean(es: seq<Element>, size: int, items: seq<Item>)
  {
    AllGrammatical(es) && |items| == |es| && forall i :: 0 <= i < |es| ==> Means(es[i], size, items[i])
  }

  lemma BadMeans(es: seq<Element>, size: int, items: seq<Item>)
    requires AllMean(es, size, items)
    ensures Bad in items <==> SomeUnacceptable(es, size)
  {
    if i :| 0 <= i < |es| && es[i].Element? && !es[i].spec.Acceptable(size) {
      assert Means(es[i], size, items[i]) && items[i] == Bad;
    }
    if Bad in items {
      var i :| 0 <= i < |items| && items[i] == Bad;
      assert Means(es[i], size, items[i]);
    }
  }

  lemma OutsideMeans(es: seq<Element>, size: int, items: seq<Item>)
    requires AllMean(es, size, items) && Bad !in items
    ensures Outside in items <==> SomeOutside(es, size)
  {
    if i :| 0 <= i < |es| && es[i].Element? && es[i].spec.StartsOutside(size) {
      assert Means(es[i], size, items[i]) && items[i] != Bad && items[i] == Outside;
    }
    if Outside in items {
      var i :| 0 <= i < |items| && items[i] == Outside;
      assert Means(es[i], size, items[i]);
    }
  }

  // ---- printing and parsing back

  function SpecText(r: HttpRange): string { FormatInt(r.start) + "-" + FormatInt(r.start + r.length - 1) }

  function SpecTexts(ranges: seq<HttpRange>): seq<string>
  {
    seq(|ranges|, i requires 0 <= i < |ranges| => SpecText(ranges[i]))
  }

  function PrintHeader(ranges: seq<HttpRange>): string { UNIT + Join(SpecTexts(ranges), ',') }

  ghost predicate Servable(r: HttpRange, size: int) { r.Inside(size) && r.length >= 1 }

  lemma PrintedItem(r: HttpRange, size: int)
    requires 0 <= size < TWO_63 && Servable(r, size)
    ensures ParseItem(SpecText(r), size) == Keep(r)
    ensures ',' !in SpecText(r)
  {
    var last := r.start + r.length - 1;
    PrintedNumbers(r.start, last, size);
    assert SpecText(r) == FormatInt(r.start) + "-" + FormatInt(last);
  }

  lemma PrintedNumbers(first: int, last: int, size: int)
    requires 0 <= first <= last < size < TWO_63
    ensures var text := FormatInt(first) + "-" + FormatInt(last);
            ParseItem(text, size) == Keep(HttpRange(first, last - first + 1)) && ',' !in text
  {
    ItemOfDigits(FormatInt(first), FormatInt(last), size);
    ParseOfFormat(first);
    ParseOfFormat(last);
    BetweenNumbers(FormatInt(first), FormatInt(last), first, last, size);
  }

  lemma ItemOfDigits(start: string, end: string, size: int)
    requires AllDigits(start) && AllDigits(end)
    ensures ParseItem(start + "-" + end, size) == RangeBetween(start, end, size)
    ensures ',' !in start + "-" + end
  {
    ItemBetween("", start, end, "", size);
    NothingAround(start + "-" + end);
    NoCommaBetween(start, end);
  }

  lemma NothingAround(text: string)
    ensures "" + text + "" == text
  {
  }

  lemma NoCommaBetween(start: string, end: string)
    requires AllDigits(start) && AllDigits(end)
    ensures ',' !in start + "-" + end
  {
  }

  lemma BetweenNumbers(start: string, end: string, first: int, last: int, size: int)
    requires start != "" && end != "" && ParseInt(start) == Some(first) && ParseInt(end) == Some(last)
    requires 0 <= first <= last < size
    ensures RangeBetween(start, end, size) == Keep(HttpRange(first, last - first + 1))
  {
  }

  lemma {:induction false} AllKept(items: seq<Item>, ranges: seq<HttpRange>)
    requires |items| == |ranges| && forall i :: 0 <= i < |ranges| ==> items[i] == Keep(ranges[i])
    ensures Outcome(items) == Ok(ranges)
  {
    if ranges != [] {
      var n := |ranges| - 1;
      AllKept(items[..n], ranges[..n]);
      assert ranges == ranges[..n] + [ranges[n]];
    }
  }

  /** The parser undoes the printer, for every list of non-empty ranges inside the file. */
  lemma ParserUndoesPrinter(ranges: seq<HttpRange>, size: int)
    requires 0 <= size < TWO_63 && ranges != []
    requires forall i :: 0 <= i < |ranges| ==> Servable(ranges[i], size)
    ensures RangesOf(PrintHeader(ranges), size) == Ok(ranges)
  {
    forall i | 0 <= i < |ranges|
      ensures ParseItem(SpecTexts(ranges)[i], size) == Keep(ranges[i]) && ',' !in SpecTexts(ranges)[i]
    {
      PrintedItem(ranges[i], size);
    }
    ListParses(SpecTexts(ranges), ranges, size);
  }

  lemma ListParses(texts: seq<string>, ranges: seq<HttpRange>, size: int)
    requires |texts| == |ranges| && texts != []
    requires forall i :: 0 <= i < |ranges| ==> ParseItem(texts[i], size) == Keep(ranges[i]) && ',' !in texts[i]
    ensures RangesOf(UNIT + Join(texts, ','), size) == Ok(ranges)
  {
    SplitUndoesJoin(texts, ',');
    var s := UNIT + Join(texts, ',');
    assert s[|UNIT|..] == Join(texts, ',');
    AllKept(Items(texts, size), ranges);
  }

  /** The range part of a Content-Range, sent back as a Range, parses to the range that was served. */
  lemma ContentRangeSentBack(r: HttpRange, size: int)
    requires 0 <= size < TWO_63 && Servable(r, size)
    ensures r.ContentRange(size) == "bytes " + SpecText(r) + "/" + FormatInt(size)
    ensures RangesOf(UNIT + SpecText(r), size) == Ok([r])
  {
    PrintedItem(r, size);
    var text := SpecText(r);
    ListParses([text], [r], size);
    assert Join([text], ',') == text;
    ContentRangeText(r, size);
  }

  lemma ContentRangeText(r: HttpRange, size: int)
    requires 0 <= size < TWO_63 && Servable(r, size)
    ensures r.ContentRange(size) == "bytes " + SpecText(r) + "/" + FormatInt(size)
  {
    var first, last, total := FormatInt(r.start), FormatInt(r.start + r.length - 1), FormatInt(size);
    SpecTextIs(r);
    Regroup("bytes ", first, "-", last, "/" + total);
  }

  lemma SpecTextIs(r: HttpRange)
    ensures SpecText(r) == FormatInt(r.start) + "-" + FormatInt(r.start + r.length - 1)
  {
  }

  lemma Regroup(a: string, b: string, c: string, d: string, e: string)
    ensures a + b + c + d + e == a + (b + c + d) + e
  {
  }

  // ---- every header at all

  /** The item is a suffix whose length carries a minus sign. */
  predicate NegativeSuffix(item: string)
  {
    var ra := TrimSpace(item);
    && ra != "" && ra[0] == '-'
    && ParseInt(TrimSpace(ra[1..])).Some?
    && ParseInt(TrimSpace(ra[1..])).value < 0
  }

  lemma SuffixIs(n: int, size: int)
    requires -TWO_63 <= n < TWO_63 && 0 <= size < TWO_63
    ensures SuffixRange(n, size).length == Min(n, size)
    ensures n >= 0 ==> SuffixRange(n, size).start == size - Min(n, size)
  {
  }

  lemma BetweenIsInsideIff(start: string, end: string, size: int)
    requires 0 <= size < TWO_63 && RangeBetween(start, end, size).Keep?
    ensures RangeBetween(start, end, size).range.Inside(size) <==> !(start == "" && ParseInt(end).value < 0)
    ensures RangeBetween(start, end, size).range.length >= 0 <==> !(start == "" && ParseInt(end).value < 0)
  {
    if start == "" {
      SuffixIs(ParseInt(end).value, size);
    }
  }

  lemma {:induction false} TrimLeftFirst(s: string)
    ensures TrimLeft(s) == "" || !IsSpace(TrimLeft(s)[0])
    ensures TrimLeft(s) != "" ==> !AllSpace(s)
    ensures s != "" && !IsSpace(s[0]) ==> TrimLeft(s) == s
  {
    if s != "" && IsSpace(s[0]) {
      TrimLeftFirst(s[1..]);
    }
  }

  lemma {:induction false} TrimRightKeepsFirst(s: string)
    ensures TrimRight(s) <= s
    ensures s != "" && !IsSpace(s[0]) ==> TrimRight(s) != "" && TrimRight(s)[0] == s[0]
  {
    if s != "" && IsSpace(s[|s| - 1]) {
      TrimRightKeepsFirst(s[..|s| - 1]);
    }
  }

  lemma TrimmedBegins(s: string)
    ensures TrimSpace(s) == "" || !IsSpace(TrimSpace(s)[0])
    ensures s != "" && !IsSpace(s[0]) ==> TrimSpace(s) != ""
  {
    TrimLeftFirst(s);
    TrimRightKeepsFirst(TrimLeft(s));
  }

  /** On any header whatsoever, a range that the parser keeps lies inside the file if and only if
      it does not come from a suffix length with a minus sign. */
  lemma AnyItemIsInsideIff(item: string, size: int)
    requires 0 <= size < TWO_63 && ParseItem(item, size).Keep?
    ensures ParseItem(item, size).range.Inside(size) <==> !NegativeSuffix(item)
    ensures ParseItem(item, size).range.length >= 0 <==> !NegativeSuffix(item)
  {
    var ra := TrimSpace(item);
    var i := Index(ra, '-');
    var start, end := TrimSpace(ra[..i]), TrimSpace(ra[i + 1..]);
    TrimmedBegins(item);
    TrimmedBegins(ra[..i]);
    assert (start == "") == (ra[0] == '-');
    BetweenIsInsideIff(start, end, size);
  }

  lemma {:induction false} KeptComesFrom(items: seq<Item>, r: HttpRange) returns (i: nat)
    requires r in Kept(items)
    ensures i < |items| && items[i] == Keep(r)
  {
    var n := |items| - 1;
    if r in Kept(items[..n]) {
      i := KeptComesFrom(items[..n], r);
    } else {
      i := n;
    }
  }

  /** Hence a range returned for any header lies inside the file as soon as its length is not negative. */
  lemma AnyRangeIsInside(s: string, size: int, r: HttpRange)
    requires 0 <= size < TWO_63 && RangesOf(s, size).Ok? && r in RangesOf(s, size).value && r.length >= 0
    ensures r.Inside(size)
  {
    var parts := Split(s[|UNIT|..], ',');
    var i := KeptComesFrom(Items(parts, size), r);
    AnyItemIsInsideIff(parts[i], size);
  }

  lemma BetweenIsOutside(start: string, end: string, size: int)
    requires 0 <= size < TWO_63 && RangeBetween(start, end, size).Keep?
    requires !RangeBetween(start, end, size).range.Inside(size)
    ensures var r := RangeBetween(start, end, size).range; r.start < 0 || r.start > size
  {
    BetweenIsInsideIff(start, end, size);
  }

  lemma AnyItemIsOutside(item: string, size: int)
    requires 0 <= size < TWO_63 && ParseItem(item, size).Keep? && !ParseItem(item, size).range.Inside(size)
    ensures var r := ParseItem(item, size).range; r.start < 0 || r.start > size
  {
    var ra := TrimSpace(item);
    var i := Index(ra, '-');
    BetweenIsOutside(TrimSpace(ra[..i]), TrimSpace(ra[i + 1..]), size);
  }

  /** A returned range that is not inside the file does not even start in it. */
  lemma AnyRangeOutside(s: string, size: int, r: HttpRange)
    requires 0 <= size < TWO_63 && RangesOf(s, size).Ok? && r in RangesOf(s, size).value && !r.Inside(size)
    ensures r.start < 0 || r.start > size
  {
    var parts := Split(s[|UNIT|..], ',');
    var i := KeptComesFrom(Items(parts, size), r);
    AnyItemIsOutside(parts[i], size);
  }
}
