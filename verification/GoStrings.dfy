/** The string and decimal functions of Go's standard library that the Range parser and printer use. */
module GoStrings {
  import opened Common

  /** unicode.IsSpace. */
  predicate IsSpace(c: char)
  {
    || '\t' <= c <= '\r' || c == ' ' || c == '\U{0085}' || c == '\U{00A0}' || c == '\U{1680}'
    || '\U{2000}' <= c <= '\U{200A}' || c == '\U{2028}' || c == '\U{2029}' || c == '\U{202F}'
    || c == '\U{205F}' || c == '\U{3000}'
  }

  predicate IsDigit(c: char) { '0' <= c <= '9' }

  predicate AllSpace(s: string) { forall i :: 0 <= i < |s| ==> IsSpace(s[i]) }

  predicate AllDigits(s: string) { forall i :: 0 <= i < |s| ==> IsDigit(s[i]) }

  // ---- strings.TrimSpace

  function TrimLeft(s: string): string
  {
    if s != "" && IsSpace(s[0]) then TrimLeft(s[1..]) else s
  }

  function TrimRight(s: string): string
  {
    if s != "" && IsSpace(s[|s| - 1]) then TrimRight(s[..|s| - 1]) else s
  }

  function TrimSpace(s: string): string { TrimRight(TrimLeft(s)) }

  /** Neither end is white space. */
  predicate Trimmed(s: string) { s == "" || (!IsSpace(s[0]) && !IsSpace(s[|s| - 1])) }

  lemma {:induction false} TrimLeftRemoves(ws: string, s: string)
    requires AllSpace(ws) && (s == "" || !IsSpace(s[0]))
    ensures TrimLeft(ws + s) == s
  {
    if ws == "" {
      assert ws + s == s;
    } else {
      assert (ws + s)[1..] == ws[1..] + s;
      TrimLeftRemoves(ws[1..], s);
    }
  }

  lemma {:induction false} TrimRightRemoves(s: string, ws: string)
    requires AllSpace(ws) && (s == "" || !IsSpace(s[|s| - 1]))
    ensures TrimRight(s + ws) == s
  {
    if ws == "" {
      assert s + ws == s;
    } else {
      assert (s + ws)[..|s + ws| - 1] == s + ws[..|ws| - 1];
      TrimRightRemoves(s, ws[..|ws| - 1]);
    }
  }

  lemma TrimSpaceRemoves(before: string, s: string, after: string)
    requires AllSpace(before) && AllSpace(after) && Trimmed(s)
    ensures TrimSpace(before + s + after) == s
  {
    if s == "" {
      assert AllSpace(before + after) && before + s + after == (before + after) + "";
      TrimLeftRemoves(before + after, "");
    } else {
      assert before + s + after == before + (s + after);
      TrimLeftRemoves(before, s + after);
      TrimRightRemoves(s, after);
    }
  }

  lemma {:induction false} TrimLeftLeaves(s: string) returns (ws: string)
    ensures s == ws + TrimLeft(s) && AllSpace(ws)
    ensures TrimLeft(s) == "" || !IsSpace(TrimLeft(s)[0])
  {
    if s != "" && IsSpace(s[0]) {
      var rest := TrimLeftLeaves(s[1..]);
      ws := [s[0]] + rest;
    } else {
      ws := "";
    }
  }

  lemma {:induction false} TrimRightLeaves(s: string) returns (ws: string)
    ensures s == TrimRight(s) + ws && AllSpace(ws)
    ensures TrimRight(s) == "" || !IsSpace(TrimRight(s)[|TrimRight(s)| - 1])
  {
    if s != "" && IsSpace(s[|s| - 1]) {
      var rest := TrimRightLeaves(s[..|s| - 1]);
      ws := rest + [s[|s| - 1]];
    } else {
      ws := "";
    }
  }

  /** Trimming takes nothing but white space off both ends. */
  lemma TrimSpaceLeaves(s: string) returns (before: string, after: string)
    ensures s == before + TrimSpace(s) + after && AllSpace(before) && AllSpace(after)
    ensures Trimmed(TrimSpace(s))
  {
    before := TrimLeftLeaves(s);
    after := TrimRightLeaves(TrimLeft(s));
    if TrimSpace(s) != "" {
      assert TrimSpace(s)[0] == TrimLeft(s)[0];
    }
  }

  /** More white space around a text does not matter. */
  lemma TrimSpaceIgnores(before: string, s: string, after: string)
    requires AllSpace(before) && AllSpace(after)
    ensures TrimSpace(before + s + after) == TrimSpace(s)
  {
    var b, a := TrimSpaceLeaves(s);
    var t := TrimSpace(s);
    assert before + s + after == (before + b) + t + (a + after);
    TrimSpaceRemoves(before + b, t, a + after);
  }

  lemma TrimSpaceIsEmptyIff(s: string)
    ensures TrimSpace(s) == "" <==> AllSpace(s)
  {
    var b, a := TrimSpaceLeaves(s);
    if AllSpace(s) {
      assert s + "" + "" == s;
      TrimSpaceRemoves(s, "", "");
    }
  }

  // ---- strings.Split and its inverse

  function Split(s: string, sep: char): (parts: seq<string>)
    ensures |parts| >= 1
  {
    if s == "" then [""]
    else
      var rest := Split(s[1..], sep);
      if s[0] == sep then [""] + rest else [[s[0]] + rest[0]] + rest[1..]
  }

  function Join(parts: seq<string>, sep: char): string
  {
    if parts == [] then ""
    else if |parts| == 1 then parts[0]
    else parts[0] + [sep] + Join(parts[1..], sep)
  }

  lemma {:induction false} SplitWithoutSep(s: string, sep: char)
    requires sep !in s
    ensures Split(s, sep) == [s]
  {
    if s != "" {
      SplitWithoutSep(s[1..], sep);
      assert [s[0]] + s[1..] == s;
    }
  }

  lemma {:induction false} SplitAtSep(head: string, rest: string, sep: char)
    requires sep !in head
    ensures Split(head + [sep] + rest, sep) == [head] + Split(rest, sep)
  {
    var s := head + [sep] + rest;
    if head == "" {
      assert s[1..] == rest;
    } else {
      assert s[1..] == head[1..] + [sep] + rest;
      SplitAtSep(head[1..], rest, sep);
      assert [head[0]] + head[1..] == head;
    }
  }

  /** Splitting undoes joining. */
  lemma {:induction false} SplitUndoesJoin(parts: seq<string>, sep: char)
    requires parts != [] && forall i :: 0 <= i < |parts| ==> sep !in parts[i]
    ensures Split(Join(parts, sep), sep) == parts
  {
    if |parts| == 1 {
      SplitWithoutSep(parts[0], sep);
    } else {
      SplitUndoesJoin(parts[1..], sep);
      SplitAtSep(parts[0], Join(parts[1..], sep), sep);
      assert [parts[0]] + parts[1..] == parts;
    }
  }

  /** Joining undoes splitting, for every text. */
  lemma {:induction false} JoinUndoesSplit(s: string, sep: char)
    ensures Join(Split(s, sep), sep) == s
    ensures forall i :: 0 <= i < |Split(s, sep)| ==> sep !in Split(s, sep)[i]
  {
    if s != "" {
      JoinUndoesSplit(s[1..], sep);
      var rest := Split(s[1..], sep);
      if s[0] == sep {
        assert ([""] + rest)[1..] == rest;
        assert "" + [sep] + Join(rest, sep) == s;
      } else {
        var parts := [[s[0]] + rest[0]] + rest[1..];
        assert parts[1..] == rest[1..];
        JoinOfLongerHead(s[0], rest, parts, sep);
        assert [s[0]] + s[1..] == s;
      }
    }
  }

  lemma JoinOfLongerHead(c: char, rest: seq<string>, parts: seq<string>, sep: char)
    requires rest != [] && |parts| == |rest| && parts[0] == [c] + rest[0] && parts[1..] == rest[1..]
    ensures Join(parts, sep) == [c] + Join(rest, sep)
  {
  }

  // ---- strings.Index for one character

  function Index(s: string, c: char): (i: int)
    ensures -1 <= i < |s|
    ensures i >= 0 ==> s[i] == c && c !in s[..i]
    ensures i < 0 <==> c !in s
  {
    if s == "" then -1
    else if s[0] == c then 0
    else
      var i := Index(s[1..], c);
      assert s == [s[0]] + s[1..];
      if i < 0 then -1 else
        assert s[..i + 1] == [s[0]] + s[1..][..i];
        i + 1
  }

  lemma IndexIs(head: string, c: char, tail: string)
    requires c !in head
    ensures Index(head + [c] + tail, c) == |head|
  {
    var s := head + [c] + tail;
    assert s[|head|] == c && s[..|head|] == head;
  }

  // ---- strconv.ParseInt(s, 10, 64) and strconv.FormatInt(n, 10)

  function DigitsValue(s: string): nat
    requires AllDigits(s)
  {
    if s == "" then 0 else DigitsValue(s[..|s| - 1]) * 10 + (s[|s| - 1] as int - '0' as int)
  }

  /** An optional sign and at least one digit, within int64; anything else is an error. */
  function ParseInt(s: string): Option<int>
  {
    if s == "" then None
    else
      var negative := s[0] == '-';
      var digits := if s[0] == '+' || s[0] == '-' then s[1..] else s;
      if digits == "" || !AllDigits(digits) then None
      else
        var n: int := DigitsValue(digits);
        if !negative && n >= TWO_63 then None
        else if negative && n > TWO_63 then None
        else Some(if negative then -n else n)
  }

  function DigitChar(d: nat): (c: char)
    requires d < 10
    ensures IsDigit(c) && c as int - '0' as int == d
  {
    (d + '0' as int) as char
  }

  function FormatNat(n: nat): (s: string)
    ensures s != "" && AllDigits(s)
  {
    if n < 10 then [DigitChar(n)] else FormatNat(n / 10) + [DigitChar(n % 10)]
  }

  function FormatInt(n: int): string
  {
    if n < 0 then "-" + FormatNat(-n) else FormatNat(n)
  }

  /** Parsing undoes printing. */
  lemma {:induction false} ValueOfFormat(n: nat)
    ensures DigitsValue(FormatNat(n)) == n
  {
    var s := FormatNat(n);
    if n < 10 {
      assert s[..|s| - 1] == "";
    } else {
      ValueOfFormat(n / 10);
      assert s[..|s| - 1] == FormatNat(n / 10);
    }
  }

  lemma ParseOfFormat(n: int)
    requires -TWO_63 <= n < TWO_63
    ensures ParseInt(FormatInt(n)) == Some(n)
  {
    var digits := FormatNat(if n < 0 then -n else n);
    ValueOfFormat(if n < 0 then -n else n);
    if n < 0 {
      assert FormatInt(n)[1..] == digits;
    } else {
      assert IsDigit(digits[0]);
    }
  }

  /** What is printed has no leading zero, and a sign only if it is negative. */
  lemma {:induction false} FormatIsCanonical(n: int)
    ensures n >= 0 ==> AllDigits(FormatInt(n)) && (FormatInt(n)[0] == '0' <==> n == 0)
    ensures n == 0 ==> FormatInt(n) == "0"
    ensures n < 0 ==> FormatInt(n) == "-" + FormatInt(-n)
    decreases if n < 0 then 1 - n else n
  {
    if n >= 10 {
      FormatIsCanonical(n / 10);
    }
  }

  lemma ParseOfDigits(s: string)
    requires s != "" && AllDigits(s)
    ensures ParseInt(s) == if DigitsValue(s) < TWO_63 then Some(DigitsValue(s)) else None
  {
  }

  /** A sign or none, then digits: a numeral of n within int64. */
  predicate NumeralOf(s: string, sign: string, digits: string, n: int)
  {
    && (sign == "" || sign == "+" || sign == "-")
    && s == sign + digits
    && digits != "" && AllDigits(digits)
    && n == (if sign == "-" then -(DigitsValue(digits) as int) else DigitsValue(digits))
    && -TWO_63 <= n < TWO_63
  }

  ghost predicate Numeral(s: string, n: int) { exists sign, digits :: NumeralOf(s, sign, digits, n) }

  /** The texts that parse are the numerals, and they parse to what they are numerals of. */
  lemma ParseIntIff(s: string, n: int)
    ensures ParseInt(s) == Some(n) <==> Numeral(s, n)
  {
    if ParseInt(s) == Some(n) {
      if s[0] == '+' || s[0] == '-' {
        assert s == [s[0]] + s[1..];
        assert NumeralOf(s, [s[0]], s[1..], n);
      } else {
        assert "" + s == s;
        assert NumeralOf(s, "", s, n);
      }
    }
    if Numeral(s, n) {
      var sign, digits :| NumeralOf(s, sign, digits, n);
      if sign == "" {
        assert s == digits && IsDigit(s[0]);
      } else {
        assert s[1..] == digits;
      }
    }
  }

  function Pow10(n: nat): nat { if n == 0 then 1 else 10 * Pow10(n - 1) }

  /** Digits count by tens. */
  lemma {:induction false} DigitsConcatenate(s: string, t: string)
    requires AllDigits(s) && AllDigits(t)
    ensures AllDigits(s + t)
    ensures DigitsValue(s + t) == DigitsValue(s) * Pow10(|t|) + DigitsValue(t)
    ensures |t| == 1 ==> DigitsValue(t) == t[0] as int - '0' as int
  {
    if t == "" {
      assert s + t == s;
    } else {
      var n := |t| - 1;
      DigitsConcatenate(s, t[..n]);
      assert (s + t)[..|s + t| - 1] == s + t[..n];
      TimesTen(DigitsValue(s), n);
    }
  }

  lemma TimesTen(v: nat, n: nat)
    ensures v * Pow10(n + 1) == v * Pow10(n) * 10
  {
  }
}
