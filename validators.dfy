/**
  The per-field rules of the checkout form. Each rule is a predicate on the
  field's value; the regular-expression rules are stated with the page's own
  patterns, and lemmas say in plain terms which values each pattern accepts.
  The current time, which the expiry rule reads, is a parameter.
*/
module Validators {
  import opened Text
  import opened Regex
  import opened CardFormat

  const FourDigits: Regex := Rep(Chars(Digit), 4, 4)
  const OptionalSpace: Regex := Opt(Chars(Space))

  /** `/^[6-9]\d{9}$/` */
  const PhonePattern: Regex := Cat(Chars(Range('6', '9')), Rep(Chars(Digit), 9, 9))

  /** `/^\d{4}\s?\d{4}\s?\d{4}\s?\d{4}$/` */
  const CardPattern: Regex :=
    Cat(FourDigits, Cat(OptionalSpace, Cat(FourDigits, Cat(OptionalSpace, Cat(FourDigits, Cat(OptionalSpace, FourDigits))))))

  /** `/^(0[1-9]|1[0-2])\/\d{2}$/` */
  const ExpiryPattern: Regex :=
    Cat(Alt(Cat(Chars(Literal('0')), Chars(Range('1', '9'))), Cat(Chars(Literal('1')), Chars(Range('0', '2')))),
        Cat(Chars(Literal('/')), Rep(Chars(Digit), 2, 2)))

  /** `/^\d{3,4}$/` */
  const CvvPattern: Regex := Rep(Chars(Digit), 3, 4)

  /** The postal codes the shop delivers to. */
  const ServiceablePincodes: seq<string> := ["123456", "987654", "213454", "781009"]

  /**
    The instant `new Date()` returns, as far as the expiry rule can tell:
    its local year and month (1 to 12) and whether it is exactly the first
    instant of that month.
  */
  datatype Clock = Clock(year: int, month: int, atMonthStart: bool)

  predicate NameValid(v: string) {
    Trim(v) != ""
  }

  predicate PhoneValid(v: string) {
    Matches(PhonePattern, v)
  }

  predicate AddressValid(v: string) {
    |Trim(v)| >= 10
  }

  predicate PincodeValid(v: string) {
    v in ServiceablePincodes
  }

  predicate CardNumberValid(v: string) {
    Matches(CardPattern, Trim(v))
  }

  predicate CvvValid(v: string) {
    Matches(CvvPattern, v)
  }

  /** The number a two-digit string such as `"07"` converts to. */
  function TwoDigitValue(hi: char, lo: char): int
    requires IsDigit(hi) && IsDigit(lo)
  {
    10 * DigitValue(hi) + DigitValue(lo)
  }

  /** Months counted from year 0, so that comparing instants month by month is comparing integers. */
  function MonthIndex(year: int, month: int): int {
    12 * year + month - 1
  }

  /** `new Date(year, month - 1) < new Date()`: the first instant of the month lies before now. */
  predicate MonthStartBeforeNow(year: int, month: int, now: Clock) {
    || MonthIndex(year, month) < MonthIndex(now.year, now.month)
    || (MonthIndex(year, month) == MonthIndex(now.year, now.month) && !now.atMonthStart)
  }

  /**
    The expiry rule: the value has the `MM/YY` shape and the first instant
    of month `MM` of year `20YY` is not before now. The conditions after the
    pattern (length and digits) follow from it (see ExpiryShape) and only
    make the month and year readable.
  */
  predicate ExpiryValid(v: string, now: Clock) {
    && Matches(ExpiryPattern, v)
    && |v| == 5 && IsDigit(v[0]) && IsDigit(v[1]) && IsDigit(v[3]) && IsDigit(v[4])
    && !MonthStartBeforeNow(2000 + TwoDigitValue(v[3], v[4]), TwoDigitValue(v[0], v[1]), now)
  }

  // ----- What each rule accepts -----

  /** A name passes exactly when it has a character that is not whitespace. */
  lemma NameValidIff(v: string)
    ensures NameValid(v) <==> exists i :: 0 <= i < |v| && !IsWhiteSpace(v[i])
  {
    var a, b := TrimIsInfix(v);
    if a < b {
      assert !IsWhiteSpace(v[a]);
    }
  }

  /**
    An address passes exactly when its first and last non-whitespace
    characters are at least ten characters apart, counting both.
  */
  lemma AddressValidIff(v: string)
    ensures AddressValid(v) <==>
            exists i, j :: 0 <= i && i + 9 <= j < |v| && !IsWhiteSpace(v[i]) && !IsWhiteSpace(v[j])
  {
    var a, b := TrimIsInfix(v);
    if AddressValid(v) {
      assert !IsWhiteSpace(v[a]) && !IsWhiteSpace(v[b - 1]);
    }
    if exists i, j :: 0 <= i && i + 9 <= j < |v| && !IsWhiteSpace(v[i]) && !IsWhiteSpace(v[j]) {
      var i, j :| 0 <= i && i + 9 <= j < |v| && !IsWhiteSpace(v[i]) && !IsWhiteSpace(v[j]);
      assert a <= i && j < b;
    }
  }

  /** `\d` as a class is `IsDigit`: a string is all digits exactly when all its characters are in `\d`. */
  lemma DigitsHeadTail(v: string)
    requires |v| >= 1
    ensures AllDigits(v) <==> IsDigit(v[0]) && AllIn(Digit, v[1..])
  {
    assert forall i :: 1 <= i < |v| ==> v[i] == v[1..][i - 1];
  }

  /** A phone number passes exactly when it is ten ASCII digits, the first of them 6 to 9. */
  lemma PhoneValidIff(v: string)
    ensures PhoneValid(v) <==> |v| == 10 && '6' <= v[0] <= '9' && AllDigits(v)
  {
    CatFixed(Chars(Range('6', '9')), Rep(Chars(Digit), 9, 9), v);
    if |v| >= 1 {
      assert v[..1] == [v[0]];
      ClassRunMatches(Digit, 9, 9, v[1..]);
      DigitsHeadTail(v);
    }
  }

  lemma PhoneExamples()
    ensures PhoneValid("9876543210")
    ensures !PhoneValid("1234567890") && !PhoneValid("98765432")
  {
    PhoneValidIff("9876543210");
    PhoneValidIff("1234567890");
    PhoneValidIff("98765432");
  }

  /** Every serviceable pincode is six digits; "123456" is served and "000000" is not. */
  lemma PincodeShape(v: string)
    ensures PincodeValid(v) ==> |v| == 6 && AllDigits(v)
    ensures PincodeValid("123456") && !PincodeValid("000000")
  {
  }

  /** A CVV passes exactly when it is three or four ASCII digits. */
  lemma CvvValidIff(v: string)
    ensures CvvValid(v) <==> (|v| == 3 || |v| == 4) && AllDigits(v)
  {
    ClassRunMatches(Digit, 3, 4, v);
  }

  // ----- The card-number rule -----

  /** `CardPattern` read as four digit blocks, `n + 1` blocks in general. */
  function Blocks(n: nat): Regex {
    if n == 0 then FourDigits else Cat(FourDigits, Cat(OptionalSpace, Blocks(n - 1)))
  }

  lemma AllInDigit(s: string)
    ensures AllIn(Digit, s) <==> AllDigits(s)
  {
  }

  predicate DigitsOrSpaces(s: string) {
    forall i :: 0 <= i < |s| ==> IsDigit(s[i]) || IsWhiteSpace(s[i])
  }

  lemma DigitsOrSpacesAppend(a: string, b: string)
    ensures DigitsOrSpaces(a + b) <==> DigitsOrSpaces(a) && DigitsOrSpaces(b)
  {
    if DigitsOrSpaces(a + b) {
      forall i | 0 <= i < |a|
        ensures IsDigit(a[i]) || IsWhiteSpace(a[i])
      {
        assert a[i] == (a + b)[i];
      }
      forall i | 0 <= i < |b|
        ensures IsDigit(b[i]) || IsWhiteSpace(b[i])
      {
        assert b[i] == (a + b)[|a| + i];
      }
    }
  }

  /** The first of several blocks is four digits, and what follows it carries the other blocks' digits. */
  lemma {:induction false} FirstBlock(m: nat, s: string)
    requires Matches(Cat(FourDigits, Cat(OptionalSpace, Blocks(m))), s)
    ensures |s| >= 4 && AllDigits(s[..4])
    ensures |s[4..]| >= 4 && |Digits(s[4..])| == 4 * (m + 1) && DigitsOrSpaces(s[4..]) && IsDigit(s[4..][|s[4..]| - 1])
    decreases m + 1, 0
  {
    BlockSplit(m, s);
    GapThenBlocks(m, s[4..]);
  }

  lemma BlockSplit(m: nat, s: string)
    requires Matches(Cat(FourDigits, Cat(OptionalSpace, Blocks(m))), s)
    ensures |s| >= 4 && AllDigits(s[..4]) && Matches(Cat(OptionalSpace, Blocks(m)), s[4..])
  {
    CatFixed(FourDigits, Cat(OptionalSpace, Blocks(m)), s);
    BlockShape(s[..4]);
  }

  /** What follows a block: an optional whitespace character, then the remaining blocks. */
  lemma {:induction false} GapThenBlocks(m: nat, t: string)
    requires Matches(Cat(OptionalSpace, Blocks(m)), t)
    ensures |t| >= 4 && |Digits(t)| == 4 * (m + 1) && DigitsOrSpaces(t) && IsDigit(t[|t| - 1])
    decreases m, 3
  {
    GapSplit(m, t);
    if Matches(Blocks(m), t) {
      BlocksSound(m, t);
    } else {
      BlocksSound(m, t[1..]);
      GapBefore(t, 4 * (m + 1));
    }
  }

  /** What `\s?` lets through before the next block: nothing, or one whitespace character. */
  lemma GapSplit(m: nat, t: string)
    requires Matches(Cat(OptionalSpace, Blocks(m)), t)
    ensures Matches(Blocks(m), t) || (|t| >= 1 && IsWhiteSpace(t[0]) && Matches(Blocks(m), t[1..]))
  {
    OptCat(Chars(Space), Blocks(m), t);
    if !Matches(Blocks(m), t) {
      CatFixed(Chars(Space), Blocks(m), t);
    }
  }

  lemma GapBefore(t: string, k: nat)
    requires |t| >= 1 && IsWhiteSpace(t[0])
    requires |t[1..]| >= 4 && |Digits(t[1..])| == k && DigitsOrSpaces(t[1..]) && IsDigit(t[1..][|t[1..]| - 1])
    ensures |t| >= 4 && |Digits(t)| == k && DigitsOrSpaces(t) && IsDigit(t[|t| - 1])
  {
    DigitsOfSpaces(t[..1]);
    Prepend(t[..1], t[1..], k);
    SplitAt(t, 1);
  }

  /** Putting `prefix` (digits or whitespace) in front of `t` adds its digits and keeps the shape. */
  lemma Prepend(prefix: string, t: string, k: nat)
    requires DigitsOrSpaces(prefix) && |t| >= 4 && |Digits(t)| == k && DigitsOrSpaces(t) && IsDigit(t[|t| - 1])
    ensures var s := prefix + t;
            |s| >= 4 && |Digits(s)| == |Digits(prefix)| + k && DigitsOrSpaces(s) && IsDigit(s[|s| - 1])
  {
    DigitsAppend(prefix, t);
    DigitsOrSpacesAppend(prefix, t);
    LastOfAppend(prefix, t);
  }

  lemma LastOfAppend(a: string, b: string)
    requires |b| > 0
    ensures (a + b)[|a + b| - 1] == b[|b| - 1]
  {
  }

  lemma {:induction false} BlocksSound(n: nat, s: string)
    requires Matches(Blocks(n), s)
    ensures |s| >= 4 && |Digits(s)| == 4 * (n + 1) && DigitsOrSpaces(s)
    ensures IsDigit(s[0]) && IsDigit(s[|s| - 1])
    decreases n, 2
  {
    if n == 0 {
      LoneBlock(s);
    } else {
      SeveralBlocks(n - 1, s);
    }
  }

  lemma {:induction false} SeveralBlocks(m: nat, s: string)
    requires Matches(Cat(FourDigits, Cat(OptionalSpace, Blocks(m))), s)
    ensures |s| >= 4 && |Digits(s)| == 4 * (m + 2) && DigitsOrSpaces(s)
    ensures IsDigit(s[0]) && IsDigit(s[|s| - 1])
    decreases m + 1, 1
  {
    FirstBlock(m, s);
    BlockBefore(s, 4 * (m + 1));
  }

  /** `\d{4}` accepts exactly four digits. */
  lemma BlockShape(s: string)
    ensures Matches(FourDigits, s) <==> |s| == 4 && AllDigits(s)
  {
    ClassRunMatches(Digit, 4, 4, s);
    AllInDigit(s);
  }

  lemma LoneBlock(s: string)
    requires Matches(FourDigits, s)
    ensures |Digits(s)| == 4 && DigitsOrSpaces(s) && IsDigit(s[0]) && IsDigit(s[|s| - 1])
  {
    BlockShape(s);
    DigitsOfDigits(s);
  }

  lemma BlockBefore(s: string, k: nat)
    requires |s| >= 4 && AllDigits(s[..4])
    requires |s[4..]| >= 4 && |Digits(s[4..])| == k && DigitsOrSpaces(s[4..]) && IsDigit(s[4..][|s[4..]| - 1])
    ensures |Digits(s)| == 4 + k && DigitsOrSpaces(s) && IsDigit(s[0]) && IsDigit(s[|s| - 1])
  {
    DigitsOfDigits(s[..4]);
    Prepend(s[..4], s[4..], k);
    SplitAt(s, 4);
    assert s[0] == s[..4][0];
  }

  lemma CardPatternIsBlocks()
    ensures CardPattern == Blocks(3)
  {
  }

  predicate AllSpaces(s: string) {
    forall i :: 0 <= i < |s| ==> IsWhiteSpace(s[i])
  }

  lemma Surrounded(pre: string, t: string, post: string)
    requires AllSpaces(pre) && AllSpaces(post) && DigitsOrSpaces(t)
    ensures Digits(pre + t + post) == Digits(t) && DigitsOrSpaces(pre + t + post)
  {
    DigitsOfSpaces(pre);
    DigitsOfSpaces(post);
    DigitsAppend(pre + t, post);
    DigitsAppend(pre, t);
    DigitsOrSpacesAppend(pre + t, post);
    DigitsOrSpacesAppend(pre, t);
  }

  lemma SliceSpaces(v: string, lo: nat, hi: nat)
    requires lo <= hi <= |v| && forall i :: lo <= i < hi ==> IsWhiteSpace(v[i])
    ensures AllSpaces(v[lo..hi])
  {
  }

  lemma SplitAt(s: string, i: nat)
    requires i <= |s|
    ensures s == s[..i] + s[i..]
  {
  }

  lemma SplitThree(s: string, a: nat, b: nat)
    requires a <= b <= |s|
    ensures s == s[..a] + s[a..b] + s[b..]
  {
  }

  /** Whitespace that `trim()` removes around a value carries no digits. */
  lemma AroundTrim(v: string)
    requires DigitsOrSpaces(Trim(v))
    ensures Digits(v) == Digits(Trim(v)) && DigitsOrSpaces(v)
  {
    var a, b := TrimIsInfix(v);
    SliceSpaces(v, 0, a);
    SliceSpaces(v, b, |v|);
    Surrounded(v[..a], v[a..b], v[b..]);
    SplitThree(v, a, b);
  }

  /** A value that passes the card rule carries exactly sixteen digits and otherwise only whitespace. */
  lemma CardNumberSound(v: string)
    requires CardNumberValid(v)
    ensures |Digits(v)| == 16 && DigitsOrSpaces(v)
  {
    CardPatternIsBlocks();
    BlocksSound(3, Trim(v));
    AroundTrim(v);
  }

  /**
    `n + 1` groups of four digits in a row, neighbouring groups joined by
    nothing or by one whitespace character: the card pattern read without
    the regular expression.
  */
  predicate BlockRun(t: string, n: nat)
    decreases n
  {
    && |t| >= 4 && AllDigits(t[..4])
    && if n == 0 then |t| == 4
       else BlockRun(t[4..], n - 1) || (|t| >= 5 && IsWhiteSpace(t[4]) && BlockRun(t[5..], n - 1))
  }

  lemma BlockHead(r: Regex, t: string)
    ensures Matches(Cat(FourDigits, r), t) <==> |t| >= 4 && AllDigits(t[..4]) && Matches(r, t[4..])
  {
    CatFixed(FourDigits, r, t);
    if |t| >= 4 {
      BlockShape(t[..4]);
    }
  }

  lemma GapHead(r: Regex, u: string)
    ensures Matches(Cat(OptionalSpace, r), u) <==> Matches(r, u) || (|u| >= 1 && IsWhiteSpace(u[0]) && Matches(r, u[1..]))
  {
    OptCat(Chars(Space), r, u);
    CatFixed(Chars(Space), r, u);
    if |u| >= 1 {
      assert u[..1][0] == u[0];
    }
  }

  /** The regular expression `Blocks(n)` accepts exactly the runs of `n + 1` groups. */
  lemma {:induction false} BlockRunIff(n: nat, t: string)
    ensures Matches(Blocks(n), t) <==> BlockRun(t, n)
    decreases n
  {
    if n == 0 {
      BlockShape(t);
      if |t| == 4 {
        assert t[..4] == t;
      }
    } else {
      BlockHead(Cat(OptionalSpace, Blocks(n - 1)), t);
      if |t| >= 4 {
        var u := t[4..];
        GapHead(Blocks(n - 1), u);
        BlockRunIff(n - 1, u);
        if |t| >= 5 {
          assert u[1..] == t[5..] && u[0] == t[4];
          BlockRunIff(n - 1, t[5..]);
        }
      }
    }
  }

  /**
    The card rule exactly: after `trim()`, the value is four groups of four
    digits with nothing or one whitespace character between neighbours.
  */
  lemma CardNumberIff(v: string)
    ensures CardNumberValid(v) <==> BlockRun(Trim(v), 3)
  {
    CardPatternIsBlocks();
    BlockRunIff(3, Trim(v));
  }

  /** Any whitespace before and after the groups is accepted, since `trim()` removes it first. */
  lemma CardPadded(pre: string, core: string, post: string)
    requires AllSpaces(pre) && AllSpaces(post) && BlockRun(core, 3)
    ensures CardNumberValid(pre + core + post)
  {
    CardPatternIsBlocks();
    BlockRunIff(3, core);
    BlocksSound(3, core);
    DigitIsNotSpace(core[0]);
    DigitIsNotSpace(core[|core| - 1]);
    TrimSurrounded(pre, core, post);
  }

  /** Two whitespace characters between groups are refused, although the value has sixteen digits. */
  lemma DoubleGapRejected()
    ensures !CardNumberValid("1234  5678 9012 3456")
  {
    var v := "1234  5678 9012 3456";
    DoubleGapNoRun(v);
    TrimNoOp(v);
    CardNumberIff(v);
  }

  lemma DoubleGapNoRun(v: string)
    requires v == "1234  5678 9012 3456"
    ensures !BlockRun(v, 3)
  {
    assert v[4..][..4][0] == ' ';
    assert v[5..][..4][0] == ' ';
  }

  /** Either nothing or a single whitespace character: what `\s?` accepts. */
  predicate Separator(x: string) {
    x == [] || (|x| == 1 && IsWhiteSpace(x[0]))
  }

  lemma GapThen(sep: string, rest: string, r: Regex)
    requires Separator(sep) && Matches(r, rest)
    ensures Matches(Cat(OptionalSpace, r), sep + rest)
  {
    OptCat(Chars(Space), r, sep + rest);
    if sep == [] {
      assert sep + rest == rest;
    } else {
      CatFixed(Chars(Space), r, sep + rest);
      assert (sep + rest)[..1] == sep && (sep + rest)[1..] == rest;
    }
  }

  lemma BlockThen(head: string, sep: string, rest: string, r: Regex)
    requires |head| == 4 && AllDigits(head) && Separator(sep) && Matches(r, rest)
    ensures Matches(Cat(FourDigits, Cat(OptionalSpace, r)), head + (sep + rest))
  {
    GapThen(sep, rest, r);
    LastBlock(head);
    CatJoin(FourDigits, Cat(OptionalSpace, r), head, sep + rest);
  }

  /** A value that the card pattern accepts as it stands is left alone by `trim()`. */
  lemma PatternIsValid(v: string)
    requires Matches(CardPattern, v)
    ensures CardNumberValid(v)
  {
    CardPatternIsBlocks();
    BlocksSound(3, v);
    DigitIsNotSpace(v[0]);
    DigitIsNotSpace(v[|v| - 1]);
    TrimNoOp(v);
  }

  /**
    Four blocks of four digits pass the card rule, with each of the three
    gaps empty or a single whitespace character.
  */
  lemma CardAccepts(b1: string, b2: string, b3: string, b4: string, s1: string, s2: string, s3: string)
    requires |b1| == |b2| == |b3| == |b4| == 4
    requires AllDigits(b1) && AllDigits(b2) && AllDigits(b3) && AllDigits(b4)
    requires Separator(s1) && Separator(s2) && Separator(s3)
    ensures CardNumberValid(b1 + s1 + b2 + s2 + b3 + s3 + b4)
  {
    FourBlocks(b1, b2, b3, b4, s1, s2, s3);
    Regroup(b1, b2, b3, b4, s1, s2, s3);
    PatternIsValid(b1 + s1 + b2 + s2 + b3 + s3 + b4);
  }

  lemma FourBlocks(b1: string, b2: string, b3: string, b4: string, s1: string, s2: string, s3: string)
    requires |b1| == |b2| == |b3| == |b4| == 4
    requires AllDigits(b1) && AllDigits(b2) && AllDigits(b3) && AllDigits(b4)
    requires Separator(s1) && Separator(s2) && Separator(s3)
    ensures Matches(CardPattern, b1 + (s1 + (b2 + (s2 + (b3 + (s3 + b4))))))
  {
    LastBlock(b4);
    NextBlock(0, b3, s3, b4);
    NextBlock(1, b2, s2, b3 + (s3 + b4));
    NextBlock(2, b1, s1, b2 + (s2 + (b3 + (s3 + b4))));
    CardPatternIsBlocks();
  }

  lemma Regroup(b1: string, b2: string, b3: string, b4: string, s1: string, s2: string, s3: string)
    ensures b1 + (s1 + (b2 + (s2 + (b3 + (s3 + b4))))) == b1 + s1 + b2 + s2 + b3 + s3 + b4
  {
  }

  lemma LastBlock(b: string)
    requires |b| == 4 && AllDigits(b)
    ensures Matches(Blocks(0), b)
  {
    ClassRunMatches(Digit, 4, 4, b);
    AllInDigit(b);
  }

  lemma NextBlock(n: nat, head: string, sep: string, rest: string)
    requires |head| == 4 && AllDigits(head) && Separator(sep) && Matches(Blocks(n), rest)
    ensures Matches(Blocks(n + 1), head + (sep + rest))
  {
    BlockThen(head, sep, rest, Blocks(n));
  }

  /**
    What the live formatter leaves in the card field passes the card rule
    exactly when sixteen digits were typed.
  */
  lemma FormattedCardIff(text: string)
    ensures CardNumberValid(FormatCardNumber(text)) <==> |Digits(text)| == 16
  {
    var r := FormatCardNumber(text);
    if CardNumberValid(r) {
      CardNumberSound(r);
    }
    if |Digits(text)| == 16 {
      FormatSixteen(text);
      SixteenPass(Digits(text));
    }
  }

  /** Sixteen digits written as four groups separated by single spaces pass the card rule. */
  lemma SixteenPass(d: string)
    requires |d| == 16 && AllDigits(d)
    ensures CardNumberValid(d[..4] + " " + d[4..8] + " " + d[8..12] + " " + d[12..])
  {
    assert Separator(" ") by { assert IsWhiteSpace(' '); }
    CardAccepts(d[..4], d[4..8], d[8..12], d[12..], " ", " ", " ");
  }

  /** A sixteen-digit number typed without spaces is shown in four groups and then passes. */
  lemma CardExample()
    ensures FormatCardNumber("4111111111111111") == "4111 1111 1111 1111"
    ensures CardNumberValid("4111 1111 1111 1111")
  {
    var d := "4111111111111111";
    SampleDigits(d);
    FormatSixteen(d);
    SampleGroups(d);
    FormattedCardIff(d);
  }

  lemma SampleGroups(d: string)
    requires d == "4111111111111111"
    ensures d[..4] + " " + d[4..8] + " " + d[8..12] + " " + d[12..] == "4111 1111 1111 1111"
  {
  }

  lemma SampleDigits(d: string)
    requires d == "4111111111111111"
    ensures Digits(d) == d
  {
    DigitsOfDigits(d);
  }

  // ----- The expiry rule -----

  const MonthPattern: Regex := Alt(Cat(Chars(Literal('0')), Chars(Range('1', '9'))), Cat(Chars(Literal('1')), Chars(Range('0', '2'))))
  const YearPattern: Regex := Cat(Chars(Literal('/')), Rep(Chars(Digit), 2, 2))

  /** `(0[1-9]|1[0-2])` accepts exactly the two-digit months 01 to 12. */
  lemma MonthShape(m: string)
    ensures Matches(MonthPattern, m) <==> |m| == 2 && AllDigits(m) && 1 <= TwoDigitValue(m[0], m[1]) <= 12
  {
    ClassPair(Literal('0'), Range('1', '9'), m);
    ClassPair(Literal('1'), Range('0', '2'), m);
  }

  /** `\/\d{2}` accepts exactly a slash followed by two digits. */
  lemma YearShape(t: string)
    ensures Matches(YearPattern, t) <==> |t| == 3 && t[0] == '/' && AllDigits(t[1..])
  {
    CatFixed(Chars(Literal('/')), Rep(Chars(Digit), 2, 2), t);
    if |t| >= 1 {
      ClassRunMatches(Digit, 2, 2, t[1..]);
      assert t[..1] == [t[0]];
    }
  }

  /** The `MM/YY` pattern accepts exactly a month 01 to 12, a slash and two digits. */
  lemma ExpiryShape(v: string)
    ensures Matches(ExpiryPattern, v) <==>
            |v| == 5 && v[2] == '/' && AllDigits(v[..2]) && AllDigits(v[3..]) && 1 <= TwoDigitValue(v[0], v[1]) <= 12
  {
    assert ExpiryPattern == Cat(MonthPattern, YearPattern);
    CatFixed(MonthPattern, YearPattern, v);
    if |v| >= 2 {
      MonthShape(v[..2]);
      YearShape(v[2..]);
      if |v| >= 3 {
        assert v[2..][1..] == v[3..];
      }
    }
  }

  /** The text `MM/YY` for month `mm` of year `20yy`. */
  function ExpiryText(mm: int, yy: int): string
    requires 1 <= mm <= 12 && 0 <= yy <= 99
  {
    [DigitChar(mm / 10), DigitChar(mm % 10), '/', DigitChar(yy / 10), DigitChar(yy % 10)]
  }

  function DigitChar(n: int): (c: char)
    requires 0 <= n <= 9
    ensures IsDigit(c) && DigitValue(c) == n
  {
    ('0' as int + n) as char
  }

  /**
    A well-formed expiry passes exactly when its month starts no earlier
    than now: any later month passes, the current month passes only at its
    first instant, and any earlier month fails.
  */
  lemma ExpiryValidIff(mm: int, yy: int, now: Clock)
    requires 1 <= mm <= 12 && 0 <= yy <= 99
    ensures ExpiryValid(ExpiryText(mm, yy), now) <==>
            || MonthIndex(2000 + yy, mm) > MonthIndex(now.year, now.month)
            || (MonthIndex(2000 + yy, mm) == MonthIndex(now.year, now.month) && now.atMonthStart)
  {
    var v := ExpiryText(mm, yy);
    ExpiryShape(v);
    assert TwoDigitValue(v[0], v[1]) == mm;
    assert TwoDigitValue(v[3], v[4]) == yy;
    assert AllDigits(v[..2]) && AllDigits(v[3..]);
  }

  /** "01/20" fails at any moment after the first instant of January 2020. */
  lemma ExpiredExample(now: Clock)
    requires MonthStartBeforeNow(2020, 1, now)
    ensures !ExpiryValid("01/20", now)
  {
    assert "01/20" == ExpiryText(1, 20);
    ExpiryValidIff(1, 20, now);
  }

  // ----- Fields and steps -----

  /** An input of the checkout form: its id, the step whose section holds it, and its value. */
  datatype Field = Field(id: string, step: int, value: string)

  /** The ids the rules look at; an input with any other id always passes. */
  const KnownIds: set<string> := {"name", "phone", "address", "pincode", "card-number", "expiry", "cvv"}

  predicate FieldPasses(f: Field, now: Clock) {
    if f.id == "name" then NameValid(f.value)
    else if f.id == "phone" then PhoneValid(f.value)
    else if f.id == "address" then AddressValid(f.value)
    else if f.id == "pincode" then PincodeValid(f.value)
    else if f.id == "card-number" then CardNumberValid(f.value)
    else if f.id == "expiry" then ExpiryValid(f.value, now)
    else if f.id == "cvv" then CvvValid(f.value)
    else true
  }

  /** The message written next to the input: empty exactly when it passes. */
  function ErrorMessage(f: Field, now: Clock): (m: string)
    ensures m == "" <==> FieldPasses(f, now)
    ensures f.id !in KnownIds ==> m == ""
  {
    if f.id == "name" && !NameValid(f.value) then "Name cannot be empty."
    else if f.id == "phone" && !PhoneValid(f.value) then "Please enter a valid 10-digit Indian phone number."
    else if f.id == "address" && !AddressValid(f.value) then "Please enter a complete address."
    else if f.id == "pincode" && !PincodeValid(f.value) then "Sorry, we do not deliver to this pincode yet."
    else if f.id == "card-number" && !CardNumberValid(f.value) then "Please enter a valid 16-digit card number."
    else if f.id == "expiry" && !ExpiryValid(f.value, now) then "Please enter a valid, future expiry date (MM/YY)."
    else if f.id == "cvv" && !CvvValid(f.value) then "Please enter a valid 3 or 4 digit CVV."
    else ""
  }

  /** Every input in the section of `step` passes its rule. */
  predicate StepPasses(fields: seq<Field>, step: int, now: Clock) {
    forall i :: 0 <= i < |fields| && fields[i].step == step ==> FieldPasses(fields[i], now)
  }

  /** An input with an unrecognised id never changes whether a step passes. */
  lemma UnknownFieldIgnored(before: seq<Field>, f: Field, after: seq<Field>, step: int, now: Clock)
    requires f.id !in KnownIds
    ensures StepPasses(before + [f] + after, step, now) == StepPasses(before + after, step, now)
  {
    var all, rest := before + [f] + after, before + after;
    assert FieldPasses(f, now);
    if StepPasses(all, step, now) {
      forall i | 0 <= i < |rest| && rest[i].step == step
        ensures FieldPasses(rest[i], now)
      {
        if i < |before| {
          assert rest[i] == all[i];
        } else {
          assert rest[i] == all[i + 1];
        }
      }
    }
    if StepPasses(rest, step, now) {
      forall i | 0 <= i < |all| && all[i].step == step
        ensures FieldPasses(all[i], now)
      {
        if i < |before| {
          assert all[i] == rest[i];
        } else if i > |before| {
          assert all[i] == rest[i - 1];
        }
      }
    }
  }

  /** A field typed into the card-number input, once formatted, passes exactly when sixteen digits were typed. */
  lemma TypedCardNumber(step: int, text: string, now: Clock)
    ensures FieldPasses(Field("card-number", step, FormatCardNumber(text)), now) <==> |Digits(text)| == 16
  {
    CardField(step, FormatCardNumber(text), now);
    FormattedCardIff(text);
  }

  lemma CardField(step: int, v: string, now: Clock)
    ensures FieldPasses(Field("card-number", step, v), now) == CardNumberValid(v)
  {
  }
}
