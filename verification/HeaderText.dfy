/** What the Range parser makes of any header at all, told by the characters of its items. */
module HeaderText {
  import opened Common
  import opened GoStrings
  import opened RangeHeader

  /** The text is a numeral of n with nothing but white space around it. */
  ghost predicate Reads(text: string, n: int)
  {
    exists before, s, after :: Surrounds(text, before, s, after) && Numeral(s, n)
  }

  predicate Surrounds(text: string, before: string, s: string, after: string)
  {
    text == before + s + after && AllSpace(before) && AllSpace(after)
  }

  ghost predicate Readable(text: string) { exists n :: Reads(text, n) }

  /** The item consists of `before`, its first dash, and `after`. */
  predicate Dashed(item: string, before: string, after: string)
  {
    item == before + "-" + after && '-' !in before
  }

  /** No numeral where one is needed: after the dash if nothing is before it, before it if something is; and after it
      again if something is there and the range starts inside the file, where it must not come before the start. */
  ghost predicate BadSides(before: string, after: string, size: int)
  {
    if AllSpace(before) then !Readable(after)
    else
      || !Readable(before)
      || (&& !AllSpace(after)
          && exists n :: Reads(before, n) && n < size && !exists m :: Reads(after, m) && n <= m)
  }

  ghost predicate Malformed(item: string, size: int)
  {
    && !AllSpace(item)
    && ('-' !in item || exists before, after :: Dashed(item, before, after) && BadSides(before, after, size))
  }

  /** What the sides of the first dash say of a well-formed item. */
  ghost predicate Says(before: string, after: string, size: int, item: Item)
  {
    match item
    case Blank => false
    case Bad => BadSides(before, after, size)
    case Outside => !AllSpace(before) && exists n :: Reads(before, n) && n >= size
    case Keep(r) =>
      if AllSpace(before) then
        exists n ::
          Reads(after, n) && if n >= 0 then r == HttpRange(size - Min(n, size), Min(n, size)) else r.length == n
      else
        && Reads(before, r.start) && 0 <= r.start < size
        && if AllSpace(after) then r.start + r.length == size
           else exists m :: Reads(after, m) && r.start <= m && r.start + r.length == Min(m + 1, size)
  }

  lemma ReadsIff(text: string, n: int)
    ensures Reads(text, n) <==> ParseInt(TrimSpace(text)) == Some(n)
  {
    var t := TrimSpace(text);
    ParseIntIff(t, n);
    if Reads(text, n) {
      var before, s, after :| Surrounds(text, before, s, after) && Numeral(s, n);
      NumeralIsTrimmed(s, n);
      TrimSpaceRemoves(before, s, after);
    }
    if Numeral(t, n) {
      var before, after := TrimSpaceLeaves(text);
      assert Surrounds(text, before, t, after);
    }
  }

  lemma NumeralIsTrimmed(s: string, n: int)
    requires Numeral(s, n)
    ensures Trimmed(s) && s != ""
    ensures '-' !in s ==> n >= 0
  {
    var sign, digits :| NumeralOf(s, sign, digits, n);
    assert s[|s| - 1] == digits[|digits| - 1];
    assert s[0] == if sign == "" then digits[0] else sign[0];
  }

  lemma NotReadable(text: string)
    ensures Readable(text) <==> ParseInt(TrimSpace(text)).Some?
  {
    if Readable(text) {
      var n :| Reads(text, n);
      ReadsIff(text, n);
    }
    if ParseInt(TrimSpace(text)).Some? {
      ReadsIff(text, ParseInt(TrimSpace(text)).value);
    }
  }

  /** Trimming first and splitting at the dash then, or the other way round, gives the same two sides. */
  lemma SidesAre(item: string, before: string, after: string)
    requires Dashed(item, before, after)
    ensures var ra := TrimSpace(item);
            var i := Index(ra, '-');
            && i >= 0
            && TrimSpace(ra[..i]) == TrimSpace(before)
            && TrimSpace(ra[i + 1..]) == TrimSpace(after)
  {
    var b, a := TrimSpaceLeaves(item);
    var ra := TrimSpace(item);
    assert item[|before|] == '-';
    DashInside(b, ra, a, |before|);
    var i := Index(ra, '-');
    assert ra == ra[..i] + "-" + ra[i + 1..];
    assert item == (b + ra[..i]) + "-" + (ra[i + 1..] + a);
    FirstDashIs(item, before, after, b + ra[..i], ra[i + 1..] + a);
    NothingAdded(b, ra[..i], ra[i + 1..], a);
  }

  lemma FirstDashIs(item: string, before: string, after: string, before': string, after': string)
    requires Dashed(item, before, after) && Dashed(item, before', after')
    ensures before == before' && after == after'
  {
    IndexIs(before, '-', after);
    IndexIs(before', '-', after');
    assert before == item[..|before|] && before' == item[..|before'|];
    assert after == item[|before| + 1..] && after' == item[|before'| + 1..];
  }

  lemma NothingAdded(b: string, left: string, right: string, a: string)
    requires AllSpace(b) && AllSpace(a)
    ensures TrimSpace(b + left) == TrimSpace(left) && TrimSpace(right + a) == TrimSpace(right)
  {
    TrimSpaceIgnores(b, left, "");
    TrimSpaceIgnores("", right, a);
    assert b + left + "" == b + left && "" + right + a == right + a;
  }

  lemma DashInside(b: string, ra: string, a: string, k: nat)
    requires AllSpace(b) && AllSpace(a) && k < |b + ra + a| && (b + ra + a)[k] == '-'
    ensures '-' in ra
  {
    assert |b| <= k < |b| + |ra| && ra[k - |b|] == '-';
  }

  lemma NoDashInside(item: string)
    requires '-' !in item
    ensures Index(TrimSpace(item), '-') < 0
  {
    var b, a := TrimSpaceLeaves(item);
    var ra := TrimSpace(item);
    assert ra == item[|b|..|b| + |ra|];
  }

  lemma StartIsNatural(before: string, n: int)
    requires '-' !in before && Reads(before, n)
    ensures n >= 0
  {
    var b, s, a :| Surrounds(before, b, s, a) && Numeral(s, n);
    assert s == before[|b|..|b| + |s|];
    NumeralIsTrimmed(s, n);
  }

  lemma SidesSay(before: string, after: string, size: int)
    requires 0 <= size < TWO_63 && '-' !in before
    ensures Says(before, after, size, RangeBetween(TrimSpace(before), TrimSpace(after), size))
    ensures RangeBetween(TrimSpace(before), TrimSpace(after), size) == Bad <==> BadSides(before, after, size)
  {
    TrimSpaceIsEmptyIff(before);
    TrimSpaceIsEmptyIff(after);
    NotReadable(before);
    NotReadable(after);
    forall n
      ensures Reads(before, n) <==> ParseInt(TrimSpace(before)) == Some(n)
      ensures Reads(after, n) <==> ParseInt(TrimSpace(after)) == Some(n)
    {
      ReadsIff(before, n);
      ReadsIff(after, n);
    }
    if ParseInt(TrimSpace(before)).Some? {
      StartIsNatural(before, ParseInt(TrimSpace(before)).value);
    }
    ValuesSay(before, after, size, ParseInt(TrimSpace(before)), ParseInt(TrimSpace(after)));
  }

  lemma ValuesSay(before: string, after: string, size: int, first: Option<int>, last: Option<int>)
    requires 0 <= size < TWO_63
    requires first == ParseInt(TrimSpace(before)) && last == ParseInt(TrimSpace(after))
    requires first.Some? ==> 0 <= first.value
    requires last.Some? ==> -TWO_63 <= last.value < TWO_63
    requires TrimSpace(before) == "" <==> AllSpace(before)
    requires TrimSpace(after) == "" <==> AllSpace(after)
    requires Readable(before) <==> first.Some?
    requires Readable(after) <==> last.Some?
    requires forall n :: Reads(before, n) <==> first == Some(n)
    requires forall n :: Reads(after, n) <==> last == Some(n)
    ensures Says(before, after, size, RangeBetween(TrimSpace(before), TrimSpace(after), size))
    ensures RangeBetween(TrimSpace(before), TrimSpace(after), size) == Bad <==> BadSides(before, after, size)
  {
    if AllSpace(before) {
      if last.Some? {
        assert Reads(after, last.value);
        SuffixSays(last.value, size);
      }
    } else if first.Some? {
      assert Reads(before, first.value);
      if last.Some? {
        assert Reads(after, last.value);
      }
    }
  }

  lemma SuffixSays(n: int, size: int)
    requires -TWO_63 <= n < TWO_63 && 0 <= size < TWO_63
    ensures n >= 0 ==> SuffixRange(n, size) == HttpRange(size - Min(n, size), Min(n, size))
    ensures n < 0 ==> SuffixRange(n, size).length == n
  {
  }

  /** One item of any header: blank, without a dash, or what its two sides say. */
  lemma ItemSays(item: string, size: int)
    requires 0 <= size < TWO_63
    ensures ParseItem(item, size) == Blank <==> AllSpace(item)
    ensures !AllSpace(item) && '-' !in item ==> ParseItem(item, size) == Bad
    ensures forall before, after :: Dashed(item, before, after) ==> Says(before, after, size, ParseItem(item, size))
  {
    TrimSpaceIsEmptyIff(item);
    if '-' !in item {
      NoDashInside(item);
    }
    forall before, after | Dashed(item, before, after)
      ensures Says(before, after, size, ParseItem(item, size))
    {
      DashedSays(item, before, after, size);
    }
  }

  lemma DashedSays(item: string, before: string, after: string, size: int)
    requires 0 <= size < TWO_63 && Dashed(item, before, after)
    ensures Says(before, after, size, ParseItem(item, size))
    ensures ParseItem(item, size) == Bad <==> BadSides(before, after, size)
    ensures !AllSpace(item)
  {
    assert item[|before|] == '-';
    TrimSpaceIsEmptyIff(item);
    SidesAre(item, before, after);
    SidesSay(before, after, size);
  }

  lemma DashSplitsItem(item: string) returns (before: string, after: string)
    requires '-' in item
    ensures Dashed(item, before, after)
  {
    var i := Index(item, '-');
    before, after := item[..i], item[i + 1..];
  }

  /** The items that the parser calls bad are the malformed ones. */
  lemma BadIff(item: string, size: int)
    requires 0 <= size < TWO_63
    ensures ParseItem(item, size) == Bad <==> Malformed(item, size)
  {
    if '-' in item {
      var before, after := DashSplitsItem(item);
      DashedSays(item, before, after, size);
      if Malformed(item, size) {
        var before', after' :| Dashed(item, before', after') && BadSides(before', after', size);
        FirstDashIs(item, before, after, before', after');
      }
    } else {
      NoDashInside(item);
      TrimSpaceIsEmptyIff(item);
    }
  }

  predicate NoCommas(items: seq<string>) { forall i :: 0 <= i < |items| ==> ',' !in items[i] }

  /** Every text is a list of items without commas between them, and only one such list. */
  lemma TextIsList(text: string) returns (items: seq<string>)
    ensures items != [] && NoCommas(items) && Join(items, ',') == text
    ensures forall other :: other != [] && NoCommas(other) && Join(other, ',') == text ==> other == items
  {
    items := Split(text, ',');
    JoinUndoesSplit(text, ',');
    forall other | other != [] && NoCommas(other) && Join(other, ',') == text
      ensures other == items
    {
      SplitUndoesJoin(other, ',');
    }
  }

  /** A header in bytes is invalid if and only if one of its items is malformed, whatever the others are. */
  lemma InvalidIff(header: string, items: seq<string>, size: int)
    requires 0 <= size < TWO_63
    requires items != [] && NoCommas(items) && header == "bytes=" + Join(items, ',')
    ensures RangesOf(header, size) == Err(InvalidRange) <==> exists i :: 0 <= i < |items| && Malformed(items[i], size)
  {
    SplitUndoesJoin(items, ',');
    assert UNIT <= header && header[|UNIT|..] == Join(items, ',');
    var parsed := Items(items, size);
    assert RangesOf(header, size) == Outcome(parsed);
    forall i | 0 <= i < |items|
      ensures parsed[i] == Bad <==> Malformed(items[i], size)
    {
      BadIff(items[i], size);
    }
    BadAmong(items, size, parsed);
  }

  lemma BadAmong(items: seq<string>, size: int, parsed: seq<Item>)
    requires |parsed| == |items|
    requires forall i :: 0 <= i < |items| ==> (parsed[i] == Bad <==> Malformed(items[i], size))
    ensures Bad in parsed <==> exists i :: 0 <= i < |items| && Malformed(items[i], size)
  {
    if i :| 0 <= i < |items| && Malformed(items[i], size) {
      assert parsed[i] == Bad;
    }
    if Bad in parsed {
      var i :| 0 <= i < |parsed| && parsed[i] == Bad;
      assert Malformed(items[i], size);
    }
  }

  /** A header that is not in bytes. */
  lemma OtherUnitIsInvalid(header: string, size: int)
    requires header != "" && !("bytes=" <= header)
    ensures RangesOf(header, size) == Err(InvalidRange)
  {
  }
}
