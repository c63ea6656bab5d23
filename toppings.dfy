/**
  The price table and the order summary: a base pizza at 150 and four
  toppings, and the line items and total the summary is rebuilt from.
*/
module Toppings {

  datatype Topping = Pepperoni | Mushrooms | Onions | Olives

  const BasePrice: int := 150

  /** The checkbox order: controls are generated from the table in this order. */
  const AllToppings: seq<Topping> := [Pepperoni, Mushrooms, Onions, Olives]

  /** The key that names the topping's checkbox and tags its pieces on the pizza. */
  function Key(t: Topping): string {
    match t
    case Pepperoni => "pepperoni"
    case Mushrooms => "mushrooms"
    case Onions => "onions"
    case Olives => "olives"
  }

  /**
    Different toppings have different keys, so the class `topping-<key>`
    that removal selects picks out the pieces of one topping only.
  */
  lemma KeyInjective(t: Topping, u: Topping)
    ensures Key(t) == Key(u) <==> t == u
  {
    if t != u {
      assert Key(t)[0] != Key(u)[0] || Key(t)[1] != Key(u)[1];
    }
  }

  function Name(t: Topping): string {
    match t
    case Pepperoni => "Pepperoni"
    case Mushrooms => "Mushrooms"
    case Onions => "Onions"
    case Olives => "Olives"
  }

  function Price(t: Topping): int {
    match t
    case Pepperoni => 80
    case Mushrooms => 50
    case Onions => 40
    case Olives => 60
  }

  datatype LineItem = LineItem(caption: string, price: int)

  const BaseLine: LineItem := LineItem("Base Pizza", BasePrice)

  function Line(t: Topping): LineItem {
    LineItem(Name(t), Price(t))
  }

  /** What the summary shows: its line items and the total written below them. */
  datatype Receipt = Receipt(lines: seq<LineItem>, total: int)

  /** The sum of the prices of `ts`, added up from the front. */
  function PriceSum(ts: seq<Topping>): int {
    if ts == [] then 0 else Price(ts[0]) + PriceSum(ts[1..])
  }

  lemma {:induction false} PriceSumAppend(ts: seq<Topping>, t: Topping)
    ensures PriceSum(ts + [t]) == PriceSum(ts) + Price(t)
    decreases |ts|
  {
    if ts != [] {
      assert (ts + [t])[1..] == ts[1..] + [t];
      PriceSumAppend(ts[1..], t);
    }
  }

  /**
    The summary of the checked toppings `ts` (in checkbox order), built as
    the page builds it: the base line first, then one line per topping,
    the running total starting at the base price.
  */
  function Summary(ts: seq<Topping>): (r: Receipt)
    ensures |r.lines| == |ts| + 1 && r.lines[0] == BaseLine
    ensures forall i :: 0 <= i < |ts| ==> r.lines[i + 1] == Line(ts[i])
    ensures r.total == BasePrice + PriceSum(ts)
  {
    if ts == [] then Receipt([BaseLine], BasePrice)
    else
      var prev := Summary(ts[..|ts| - 1]);
      var t := ts[|ts| - 1];
      assert ts == ts[..|ts| - 1] + [t];
      PriceSumAppend(ts[..|ts| - 1], t);
      Receipt(prev.lines + [Line(t)], prev.total + Price(t))
  }

  /** The elements of `s` that are in `chosen`, in the order of `s`. */
  function Selected(s: seq<Topping>, chosen: set<Topping>): seq<Topping> {
    if s == [] then []
    else if s[0] in chosen then [s[0]] + Selected(s[1..], chosen)
    else Selected(s[1..], chosen)
  }

  /** The checked boxes as the page finds them: in checkbox order. */
  function InOrder(checked: set<Topping>): seq<Topping> {
    Selected(AllToppings, checked)
  }

  lemma {:induction false} SelectedMembers(s: seq<Topping>, chosen: set<Topping>)
    ensures forall t :: t in Selected(s, chosen) <==> t in s && t in chosen
    decreases |s|
  {
    if s != [] {
      SelectedMembers(s[1..], chosen);
      assert forall t :: t in s <==> t == s[0] || t in s[1..];
    }
  }

  predicate Distinct(s: seq<Topping>) {
    forall i, j :: 0 <= i < j < |s| ==> s[i] != s[j]
  }

  lemma {:induction false} SelectedDistinct(s: seq<Topping>, chosen: set<Topping>)
    requires Distinct(s)
    ensures Distinct(Selected(s, chosen))
    decreases |s|
  {
    if s != [] {
      var rest := Selected(s[1..], chosen);
      SelectedDistinct(s[1..], chosen);
      SelectedMembers(s[1..], chosen);
      assert s[0] !in s[1..] by {
        forall k | 0 <= k < |s[1..]|
          ensures s[1..][k] != s[0]
        {
          assert s[1..][k] == s[k + 1];
        }
      }
      if s[0] in chosen {
        var r := [s[0]] + rest;
        forall i, j | 0 <= i < j < |r|
          ensures r[i] != r[j]
        {
          if i == 0 {
            assert r[j] == rest[j - 1];
            assert r[j] in rest;
            assert r[0] == s[0];
          } else {
            assert r[i] == rest[i - 1] && r[j] == rest[j - 1];
          }
        }
      }
    }
  }

  /**
    The checked toppings in checkbox order list each checked topping
    exactly once and nothing else: the summary has one line per checked box.
  */
  lemma InOrderIsChecked(checked: set<Topping>)
    ensures forall t :: t in InOrder(checked) <==> t in checked
    ensures Distinct(InOrder(checked))
  {
    forall t: Topping
      ensures t in AllToppings
    {
      match t
      case Pepperoni => assert AllToppings[0] == t;
      case Mushrooms => assert AllToppings[1] == t;
      case Onions => assert AllToppings[2] == t;
      case Olives => assert AllToppings[3] == t;
    }
    SelectedMembers(AllToppings, checked);
    SelectedDistinct(AllToppings, checked);
  }

  lemma {:induction false} SelectedSumBounds(s: seq<Topping>, chosen: set<Topping>)
    ensures 0 <= PriceSum(Selected(s, chosen)) <= PriceSum(s)
    decreases |s|
  {
    if s != [] {
      SelectedSumBounds(s[1..], chosen);
      var rest := Selected(s[1..], chosen);
      assert ([s[0]] + rest)[1..] == rest;
    }
  }

  /** Whatever is checked, the total lies between 150 and 380. */
  lemma TotalBounds(checked: set<Topping>)
    ensures BasePrice <= Summary(InOrder(checked)).total <= 380
  {
    SelectedSumBounds(AllToppings, checked);
  }

  /** How many times `t` occurs in `s`. */
  function Count(s: seq<Topping>, t: Topping): nat {
    if s == [] then 0 else (if s[0] == t then 1 else 0) + Count(s[1..], t)
  }

  lemma {:induction false} SelectedAddOne(s: seq<Topping>, chosen: set<Topping>, t: Topping)
    requires t !in chosen
    ensures PriceSum(Selected(s, chosen + {t})) == PriceSum(Selected(s, chosen)) + Count(s, t) * Price(t)
    decreases |s|
  {
    if s != [] {
      var more, fewer := Selected(s[1..], chosen + {t}), Selected(s[1..], chosen);
      SelectedAddOne(s[1..], chosen, t);
      if s[0] == t {
        PriceSumCons(t, more);
      } else if s[0] in chosen {
        PriceSumCons(s[0], more);
        PriceSumCons(s[0], fewer);
      }
    }
  }

  lemma PriceSumCons(t: Topping, ts: seq<Topping>)
    ensures PriceSum([t] + ts) == Price(t) + PriceSum(ts)
  {
    assert ([t] + ts)[1..] == ts;
  }

  /**
    Checking one more topping raises the total by exactly its price, so
    unchecking it again restores the previous total.
  */
  lemma CheckAddsPrice(checked: set<Topping>, t: Topping)
    requires t !in checked
    ensures Summary(InOrder(checked + {t})).total == Summary(InOrder(checked)).total + Price(t)
  {
    SelectedAddOne(AllToppings, checked, t);
  }

  /** With nothing checked only the base line remains and the total is the base price. */
  lemma NothingChecked()
    ensures Summary(InOrder({})) == Receipt([BaseLine], BasePrice)
  {
    assert InOrder({}) == [];
  }
}
