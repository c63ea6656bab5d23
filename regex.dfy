/**
  The fragment of JavaScript regular expressions the field checks use, with
  the meaning `/^r$/.test(s)` gives it: the whole of `s` must match `r`.
  A match is described by the language of `r`, so backtracking order, which
  only decides WHICH match is found, plays no part.
*/
module Regex {
  import opened Wrappers
  import opened Text

  datatype CharClass =
    | Digit                       // \d
    | Space                       // \s
    | Range(lo: char, hi: char)   // [lo-hi]
    | Literal(c: char)            // c, or \c for a metacharacter

  predicate InClass(k: CharClass, c: char) {
    match k
    case Digit => IsDigit(c)
    case Space => IsWhiteSpace(c)
    case Range(lo, hi) => lo <= c <= hi
    case Literal(x) => c == x
  }

  /** Every character of `s` is in class `k`. */
  predicate AllIn(k: CharClass, s: string) {
    forall i :: 0 <= i < |s| ==> InClass(k, s[i])
  }

  datatype Regex =
    | Chars(k: CharClass)                   // one character of a class
    | Cat(left: Regex, right: Regex)        // left right
    | Alt(left: Regex, right: Regex)        // (left|right)
    | Opt(body: Regex)                      // body?
    | Rep(body: Regex, min: nat, max: nat)  // body{min,max}

  /** `/^r$/.test(s)` */
  predicate Matches(r: Regex, s: string)
    decreases r, 0
  {
    match r
    case Chars(k) => |s| == 1 && InClass(k, s[0])
    case Cat(a, b) => exists i :: 0 <= i <= |s| && Matches(a, s[..i]) && Matches(b, s[i..])
    case Alt(a, b) => Matches(a, s) || Matches(b, s)
    case Opt(a) => s == [] || Matches(a, s)
    case Rep(a, lo, hi) => MatchesRep(a, lo, hi, s)
  }

  /** `s` is a concatenation of between `lo` and `hi` strings that each match `a`. */
  predicate MatchesRep(a: Regex, lo: nat, hi: nat, s: string)
    decreases a, hi + 1
  {
    || (lo == 0 && s == [])
    || (hi > 0 && exists i :: 0 <= i <= |s| && Matches(a, s[..i]) && MatchesRep(a, if lo == 0 then 0 else lo - 1, hi - 1, s[i..]))
  }

  /** The length every match of `r` has, when the pattern fixes one. */
  function FixedWidth(r: Regex): Option<nat> {
    match r
    case Chars(_) => Some(1)
    case Cat(a, b) =>
      if FixedWidth(a).Some? && FixedWidth(b).Some? then Some(FixedWidth(a).value + FixedWidth(b).value) else None
    case Alt(a, b) =>
      if FixedWidth(a).Some? && FixedWidth(a) == FixedWidth(b) then FixedWidth(a) else None
    case Opt(a) => if FixedWidth(a) == Some(0) then Some(0) else None
    case Rep(a, lo, hi) =>
      if lo == hi && FixedWidth(a).Some? then Some(FixedWidth(a).value * lo) else None
  }

  lemma {:induction false} FixedWidthSound(r: Regex, s: string)
    requires FixedWidth(r).Some? && Matches(r, s)
    ensures |s| == FixedWidth(r).value
    decreases r, 0
  {
    match r
    case Chars(_) =>
    case Cat(a, b) =>
      var i :| 0 <= i <= |s| && Matches(a, s[..i]) && Matches(b, s[i..]);
      FixedWidthSound(a, s[..i]);
      FixedWidthSound(b, s[i..]);
    case Alt(a, b) =>
      if Matches(a, s) {
        FixedWidthSound(a, s);
      } else {
        FixedWidthSound(b, s);
      }
    case Opt(a) =>
      if s != [] {
        FixedWidthSound(a, s);
      }
    case Rep(a, lo, hi) =>
      RepWidthSound(a, lo, s);
  }

  lemma {:induction false} RepWidthSound(a: Regex, n: nat, s: string)
    requires FixedWidth(a).Some? && MatchesRep(a, n, n, s)
    ensures |s| == FixedWidth(a).value * n
    decreases a, n + 1
  {
    var w := FixedWidth(a).value;
    if n == 0 {
      assert s == [];
    } else {
      var i :| 0 <= i <= |s| && Matches(a, s[..i]) && MatchesRep(a, n - 1, n - 1, s[i..]);
      FixedWidthSound(a, s[..i]);
      RepWidthSound(a, n - 1, s[i..]);
      assert w * n == w * (n - 1) + w;
    }
  }

  /**
    `c{lo,hi}` for a character class `c` accepts exactly the strings of
    between `lo` and `hi` characters, all of the class.
  */
  lemma {:induction false} ClassRun(k: CharClass, lo: nat, hi: nat, s: string)
    ensures MatchesRep(Chars(k), lo, hi, s) <==> lo <= |s| <= hi && AllIn(k, s)
    decreases hi
  {
    var lo' := if lo == 0 then 0 else lo - 1;
    if MatchesRep(Chars(k), lo, hi, s) && !(lo == 0 && s == []) {
      var i :| 0 <= i <= |s| && Matches(Chars(k), s[..i]) && MatchesRep(Chars(k), lo', hi - 1, s[i..]);
      assert i == 1;
      ClassRun(k, lo', hi - 1, s[1..]);
      forall j | 0 <= j < |s|
        ensures InClass(k, s[j])
      {
        if j == 0 {
          assert s[..1][0] == s[0];
        } else {
          assert s[j] == s[1..][j - 1];
        }
      }
    }
    if lo <= |s| <= hi && AllIn(k, s) && s != [] {
      ClassRun(k, lo', hi - 1, s[1..]);
      assert Matches(Chars(k), s[..1]);
      assert MatchesRep(Chars(k), lo', hi - 1, s[1..]);
    }
  }

  lemma ClassRunMatches(k: CharClass, lo: nat, hi: nat, s: string)
    ensures Matches(Rep(Chars(k), lo, hi), s) <==> lo <= |s| <= hi && AllIn(k, s)
  {
    ClassRun(k, lo, hi, s);
  }

  /** A match of `a` followed by a match of `b` matches their concatenation. */
  lemma CatJoin(a: Regex, b: Regex, x: string, y: string)
    requires Matches(a, x) && Matches(b, y)
    ensures Matches(Cat(a, b), x + y)
  {
    assert (x + y)[..|x|] == x && (x + y)[|x|..] == y;
  }

  /** Two single-character classes in a row match exactly the two-character strings they describe. */
  lemma ClassPair(a: CharClass, b: CharClass, s: string)
    ensures Matches(Cat(Chars(a), Chars(b)), s) <==> |s| == 2 && InClass(a, s[0]) && InClass(b, s[1])
  {
    CatFixed(Chars(a), Chars(b), s);
    if |s| == 2 {
      assert s[..1] == [s[0]] && s[1..] == [s[1]];
    }
  }

  /** A concatenation whose left part has a fixed width splits at that width. */
  lemma CatFixed(a: Regex, b: Regex, s: string)
    requires FixedWidth(a).Some?
    ensures Matches(Cat(a, b), s) <==>
            FixedWidth(a).value <= |s| && Matches(a, s[..FixedWidth(a).value]) && Matches(b, s[FixedWidth(a).value..])
  {
    if Matches(Cat(a, b), s) {
      var i :| 0 <= i <= |s| && Matches(a, s[..i]) && Matches(b, s[i..]);
      FixedWidthSound(a, s[..i]);
    }
  }

  /** An optional part either is skipped or is matched in full. */
  lemma OptCat(a: Regex, b: Regex, s: string)
    ensures Matches(Cat(Opt(a), b), s) <==> Matches(b, s) || Matches(Cat(a, b), s)
  {
    if Matches(Cat(Opt(a), b), s) {
      var i :| 0 <= i <= |s| && Matches(Opt(a), s[..i]) && Matches(b, s[i..]);
      if s[..i] == [] {
        assert s[i..] == s;
      }
    }
    if Matches(b, s) {
      assert s[..0] == [] && s[0..] == s;
      assert Matches(Opt(a), s[..0]);
    }
    if Matches(Cat(a, b), s) {
      var i :| 0 <= i <= |s| && Matches(a, s[..i]) && Matches(b, s[i..]);
      assert Matches(Opt(a), s[..i]);
    }
  }
}
