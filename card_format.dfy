/**
  The live formatter of the card-number field: on every keystroke the value
  becomes `value.replace(/[^\d]/g, '').replace(/(.{4})/g, '$1 ').trim()`.
*/
module CardFormat {
  import opened Text

  predicate NoLineTerminator(s: string) {
    forall i :: 0 <= i < |s| ==> !IsLineTerminator(s[i])
  }

  /**
    `s.replace(/(.{4})/g, '$1 ')`: scanning from the left, each run of four
    characters that `.` accepts is copied with a space after it; where no
    such run starts, one character is copied and the scan moves on.
  */
  function GroupByFour(s: string): string {
    if |s| >= 4 && NoLineTerminator(s[..4]) then s[..4] + " " + GroupByFour(s[4..])
    else if s == [] then []
    else [s[0]] + GroupByFour(s[1..])
  }

  /** The value the card-number field holds after an `input` event. */
  function FormatCardNumber(v: string): (r: string)
    ensures forall i :: 0 <= i < |r| ==> (r[i] == ' ' <==> i % 5 == 4)
    ensures forall i :: 0 <= i < |r| ==> r[i] == ' ' || IsDigit(r[i])
    ensures r == [] || r[|r| - 1] != ' '
    ensures Digits(r) == Digits(v)
  {
    TrimmedGroups(Digits(v));
    Trim(GroupByFour(Digits(v)))
  }

  /** The shape the formatter promises, stated of one string. */
  predicate Grouped(r: string) {
    && (forall i :: 0 <= i < |r| ==> (r[i] == ' ' <==> i % 5 == 4))
    && (forall i :: 0 <= i < |r| ==> r[i] == ' ' || IsDigit(r[i]))
  }

  /** The trailing space after a final full group is the only thing `trim()` removes. */
  lemma TrimmedGroups(d: string)
    requires AllDigits(d)
    ensures var r := Trim(GroupByFour(d));
            Grouped(r) && (r == [] || r[|r| - 1] != ' ') && Digits(r) == d
  {
    GroupedDigits(d);
    var g := GroupByFour(d);
    if |d| > 0 && |d| % 4 == 0 {
      TrimmedFull(d, g);
    } else {
      TrimmedPartial(d, g);
    }
  }

  lemma TrimmedFull(d: string, g: string)
    requires |d| > 0 && |d| % 4 == 0
    requires |g| == |d| + |d| / 4 && Grouped(g) && Digits(g) == d
    ensures var r := Trim(g);
            Grouped(r) && (r == [] || r[|r| - 1] != ' ') && Digits(r) == d
  {
    var n := |g|;
    FullGroupsWidth(n, |d|);
    var r := GroupedEnds(g);
    assert Trim(g) == r;
    DigitsAppend(r, " ");
  }

  /** Grouped text that ends in the space after a full group loses exactly that space to `trim()`. */
  lemma GroupedEnds(g: string) returns (r: string)
    requires Grouped(g) && |g| >= 5 && (|g| - 1) % 5 == 4 && (|g| - 2) % 5 == 3
    ensures r == g[..|g| - 1] && g == r + " " && Trim(g) == r
    ensures Grouped(r) && r[|r| - 1] != ' '
  {
    var n := |g|;
    GroupedEndChars(g);
    DigitIsNotSpace(g[0]);
    DigitIsNotSpace(g[n - 2]);
    TrimOneTrailing(g);
    r := g[..n - 1];
    assert g == r + " ";
    GroupedPrefix(g, n - 1);
  }

  lemma GroupedEndChars(g: string)
    requires Grouped(g) && |g| >= 5 && (|g| - 1) % 5 == 4 && (|g| - 2) % 5 == 3
    ensures IsDigit(g[0]) && g[|g| - 1] == ' ' && IsDigit(g[|g| - 2])
  {
    assert 0 % 5 == 0;
  }

  /** Full groups of four, each followed by a space, end in a space preceded by a digit position. */
  lemma FullGroupsWidth(n: int, m: int)
    requires m > 0 && m % 4 == 0 && n == m + m / 4
    ensures n >= 5 && (n - 1) % 5 == 4 && (n - 2) % 5 == 3
  {
    var q := m / 4;
    assert m == 4 * q;
    assert n == 5 * (q - 1) + 5;
  }

  lemma GroupedPrefix(g: string, k: nat)
    requires Grouped(g) && k <= |g|
    ensures Grouped(g[..k])
  {
    assert forall i :: 0 <= i < k ==> g[..k][i] == g[i];
  }

  lemma TrimmedPartial(d: string, g: string)
    requires !(|d| > 0 && |d| % 4 == 0)
    requires |g| == |d| + |d| / 4 && Grouped(g) && Digits(g) == d
    ensures var r := Trim(g);
            Grouped(r) && (r == [] || r[|r| - 1] != ' ') && Digits(r) == d
  {
    if |d| > 0 {
      var q, k := |d| / 4, |d| % 4;
      assert |g| - 1 == 5 * q + k - 1 && 0 < k < 4;
      assert (|g| - 1) % 5 == k - 1;
      assert g[0] != ' ' && g[|g| - 1] != ' ';
      DigitIsNotSpace(g[0]);
      DigitIsNotSpace(g[|g| - 1]);
    }
    TrimNoOp(g);
  }

  /** Fewer than four digits are copied as they are. */
  lemma {:induction false} ShortRunUnchanged(d: string)
    requires |d| < 4 && AllDigits(d)
    ensures GroupByFour(d) == d
    decreases |d|
  {
    if d != [] {
      ShortRunUnchanged(d[1..]);
    }
  }

  /**
    On a string of digits the grouping puts a space after every fourth digit
    and nowhere else, and keeps the digits in order.
  */
  lemma {:induction false} GroupedDigits(d: string)
    requires AllDigits(d)
    ensures |GroupByFour(d)| == |d| + |d| / 4
    ensures Grouped(GroupByFour(d))
    ensures Digits(GroupByFour(d)) == d
    decreases |d|
  {
    var g := GroupByFour(d);
    if |d| < 4 {
      ShortRunUnchanged(d);
      DigitsOfDigits(d);
    } else {
      assert NoLineTerminator(d[..4]);
      var rest := GroupByFour(d[4..]);
      GroupedDigits(d[4..]);
      assert g == d[..4] + " " + rest;
      GroupedCons(d[..4], rest);
      DigitsAppend(d[..4] + " ", rest);
      DigitsAppend(d[..4], " ");
      DigitsOfDigits(d[..4]);
      assert d[..4] + d[4..] == d;
    }
  }

  /** Formatting an already formatted value changes nothing. */
  lemma FormatIdempotent(v: string)
    ensures FormatCardNumber(FormatCardNumber(v)) == FormatCardNumber(v)
  {
  }

  /** Sixteen digits, however they were typed, come out as four groups of four. */
  lemma FormatSixteen(v: string)
    requires |Digits(v)| == 16
    ensures var d := Digits(v);
            FormatCardNumber(v) == d[..4] + " " + d[4..8] + " " + d[8..12] + " " + d[12..]
  {
    var d := Digits(v);
    var g := GroupByFour(d);
    GroupSixteen(d);
    DigitIsNotSpace(g[0]);
    DigitIsNotSpace(g[|g| - 2]);
    TrimOneTrailing(g);
    assert g[..|g| - 1] == d[..4] + " " + d[4..8] + " " + d[8..12] + " " + d[12..];
  }

  lemma GroupSixteen(d: string)
    requires |d| == 16 && AllDigits(d)
    ensures GroupByFour(d) == d[..4] + " " + d[4..8] + " " + d[8..12] + " " + d[12..] + " "
  {
    var a, b, c, e := d[..4], d[4..8], d[8..12], d[12..];
    assert d[12..][4..] == [];
    GroupStep(d[12..]);
    assert GroupByFour(e) == e + " ";
    GroupStep(d[8..]);
    assert d[8..][..4] == c && d[8..][4..] == e;
    GroupStep(d[4..]);
    assert d[4..][..4] == b && d[4..][4..] == d[8..];
    GroupStep(d);
  }

  /** A group of four digits and a space in front of grouped text keeps it grouped. */
  lemma GroupedCons(h: string, rest: string)
    requires |h| == 4 && AllDigits(h) && Grouped(rest)
    ensures Grouped(h + " " + rest)
  {
    var g := h + " " + rest;
    forall i | 0 <= i < |g|
      ensures (g[i] == ' ' <==> i % 5 == 4) && (g[i] == ' ' || IsDigit(g[i]))
    {
      if i >= 5 {
        assert g[i] == rest[i - 5];
        assert (i - 5) % 5 == i % 5;
      } else if i < 4 {
        assert g[i] == h[i];
      }
    }
  }

  /** One step of the scan over digits: a full group of four is copied with a space after it. */
  lemma GroupStep(s: string)
    requires |s| >= 4 && AllDigits(s[..4])
    ensures GroupByFour(s) == s[..4] + " " + GroupByFour(s[4..])
  {
    assert NoLineTerminator(s[..4]);
  }
}
