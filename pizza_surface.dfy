/**
  The pizza surface as the list of its decorative pieces, each known only by
  the topping it is tagged with (`topping-<key>`); the random position and
  rotation of each piece are not part of this model.
*/
module PizzaSurface {
  import opened Toppings

  /** How many pieces one check of a topping adds. */
  const PiecesPerTopping: nat := 4

  /** `n` pieces tagged `t`. */
  function Copies(t: Topping, n: nat): (r: seq<Topping>)
    ensures |r| == n && forall i :: 0 <= i < n ==> r[i] == t
  {
    if n == 0 then [] else Copies(t, n - 1) + [t]
  }

  /** The surface after every piece tagged `t` is removed, whatever their number. */
  function Without(s: seq<Topping>, t: Topping): (r: seq<Topping>)
    ensures forall u :: u in r <==> u in s && u != t
    ensures |r| == |s| - Count(s, t)
  {
    if s == [] then []
    else if s[0] == t then Without(s[1..], t)
    else [s[0]] + Without(s[1..], t)
  }

  lemma {:induction false} CountAppend(a: seq<Topping>, b: seq<Topping>, t: Topping)
    ensures Count(a + b, t) == Count(a, t) + Count(b, t)
    decreases |a|
  {
    if a == [] {
      assert a + b == b;
    } else {
      assert (a + b)[1..] == a[1..] + b;
      CountAppend(a[1..], b, t);
    }
  }

  lemma {:induction false} CountCopies(t: Topping, n: nat, u: Topping)
    ensures Count(Copies(t, n), u) == if u == t then n else 0
    decreases n
  {
    if n > 0 {
      CountCopies(t, n - 1, u);
      CountAppend(Copies(t, n - 1), [t], u);
    }
  }

  /** Adding the pieces of `t` adds `PiecesPerTopping` pieces tagged `t` and no others. */
  lemma AddedCounts(s: seq<Topping>, t: Topping, u: Topping)
    ensures Count(s + Copies(t, PiecesPerTopping), u) == Count(s, u) + if u == t then PiecesPerTopping else 0
  {
    CountAppend(s, Copies(t, PiecesPerTopping), u);
    CountCopies(t, PiecesPerTopping, u);
  }

  lemma {:induction false} WithoutAppend(a: seq<Topping>, b: seq<Topping>, t: Topping)
    ensures Without(a + b, t) == Without(a, t) + Without(b, t)
    decreases |a|
  {
    if a == [] {
      assert a + b == b;
    } else {
      assert (a + b)[1..] == a[1..] + b;
      WithoutAppend(a[1..], b, t);
    }
  }

  /** Removing a tag that is absent changes nothing. */
  lemma {:induction false} WithoutAbsent(s: seq<Topping>, t: Topping)
    requires t !in s
    ensures Without(s, t) == s
    decreases |s|
  {
    if s != [] {
      assert s == [s[0]] + s[1..];
      WithoutAbsent(s[1..], t);
    }
  }

  /** After every piece tagged `t` is removed, none is left. */
  lemma {:induction false} RemoveLeavesNone(s: seq<Topping>, t: Topping)
    ensures Count(Without(s, t), t) == 0
    decreases |s|
  {
    if s != [] {
      RemoveLeavesNone(s[1..], t);
      if s[0] != t {
        assert Without(s, t)[1..] == Without(s[1..], t);
      }
    }
  }

  /** Removing one tag leaves the number of pieces of every other tag as it was. */
  lemma {:induction false} WithoutKeepsOthers(s: seq<Topping>, t: Topping, u: Topping)
    requires u != t
    ensures Count(Without(s, t), u) == Count(s, u)
    decreases |s|
  {
    if s != [] {
      WithoutKeepsOthers(s[1..], t, u);
      if s[0] != t {
        assert ([s[0]] + Without(s[1..], t))[1..] == Without(s[1..], t);
      }
    }
  }

  /** Pieces tagged `t` that are all removed: only the removal of every such piece counts. */
  lemma {:induction false} WithoutCopies(t: Topping, n: nat)
    ensures Without(Copies(t, n), t) == []
    decreases n
  {
    if n > 0 {
      WithoutCopies(t, n - 1);
      WithoutAppend(Copies(t, n - 1), [t], t);
    }
  }

  /**
    Adding the pieces of `t` and then removing `t` leaves the surface as
    removing `t` alone would; on a surface without `t` that is the surface
    as it was before the check.
  */
  lemma AddThenRemove(s: seq<Topping>, t: Topping)
    ensures Without(s + Copies(t, PiecesPerTopping), t) == Without(s, t)
    ensures t !in s ==> Without(s + Copies(t, PiecesPerTopping), t) == s
  {
    WithoutAppend(s, Copies(t, PiecesPerTopping), t);
    WithoutCopies(t, PiecesPerTopping);
    assert Without(s, t) + [] == Without(s, t);
    if t !in s {
      WithoutAbsent(s, t);
    }
  }

  /** Removing the four tags one after the other clears the surface. */
  lemma RemoveEveryKind(s: seq<Topping>)
    ensures Without(Without(Without(Without(s, Pepperoni), Mushrooms), Onions), Olives) == []
  {
  }
}
