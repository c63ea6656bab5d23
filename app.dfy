/**
  The page's mutable state and the handlers that change it: the topping
  checkboxes, the pieces on the pizza, the order summary, the checkout
  wizard's current step with its sections and progress markers, the form's
  inputs with their error messages, and the captured customer name.
*/
module PizzaApp {
  import opened Wrappers
  import opened Toppings
  import opened PizzaSurface
  import opened CardFormat
  import opened Validators

  /** The number of wizard sections and of progress markers on the page. */
  const StepCount: int := 3

  /** The step whose inputs the submit handler validates. */
  const FinalStep: int := 3

  /** The position of the first input with id `id`, as `getElementById` finds it. */
  function FirstWithId(fields: seq<Field>, id: string): (r: Option<nat>)
    ensures r.Some? ==> r.value < |fields| && fields[r.value].id == id
    ensures r.Some? ==> forall j :: 0 <= j < r.value ==> fields[j].id != id
    ensures r.None? ==> forall j :: 0 <= j < |fields| ==> fields[j].id != id
  {
    if fields == [] then None
    else if fields[0].id == id then Some(0)
    else match FirstWithId(fields[1..], id)
      case None => None
      case Some(k) => Some(k + 1)
  }

  /** The inputs after the form is reset: every value is cleared. */
  function Cleared(fields: seq<Field>): (r: seq<Field>)
    ensures |r| == |fields|
    ensures forall i :: 0 <= i < |r| ==> r[i] == fields[i].(value := "")
  {
    seq(|fields|, i requires 0 <= i < |fields| => fields[i].(value := ""))
  }

  /** The progress markers as the step update leaves them: marker `i` is active exactly when `i < step`. */
  function ProgressFor(step: int): (r: seq<bool>)
    ensures |r| == StepCount
    ensures forall i :: 0 <= i < StepCount ==> (r[i] <==> i < step)
  {
    seq(StepCount, i => i < step)
  }

  class App {
    /** The checkboxes that are ticked. */
    var checked: set<Topping>
    /** The pieces on the pizza, in document order, each by its tag. */
    var pizza: seq<Topping>
    /** The summary's line items and the total shown below them. */
    var summary: seq<LineItem>
    var total: int
    /** The wizard's current step. */
    var step: int
    /** The section shown as active, if any. */
    var activeSection: Option<int>
    /** Whether each progress marker is active. */
    var progress: seq<bool>
    /** The form's inputs, in document order. */
    var fields: seq<Field>
    /** The error message shown next to each input. */
    var messages: seq<string>
    /** The customer name captured by a successful submit. */
    var customerName: Option<string>

    /**
      What every handler keeps: one message per input, one flag per marker,
      exactly four pieces of each ticked topping and none of the others, and
      a summary that lists the ticked toppings in checkbox order.
    */
    ghost predicate Valid()
      reads this
    {
      && |messages| == |fields|
      && |progress| == StepCount
      && (forall t :: Count(pizza, t) == if t in checked then PiecesPerTopping else 0)
      && summary == Summary(InOrder(checked)).lines
      && total == Summary(InOrder(checked)).total
    }

    /** The page as it loads: nothing ticked, the base line alone, step 1 shown. */
    constructor(form: seq<Field>)
      ensures Valid()
      ensures checked == {} && pizza == [] && summary == [BaseLine] && total == BasePrice
      ensures step == 1 && activeSection == Some(1) && progress == ProgressFor(1)
      ensures fields == form && customerName == None
      ensures forall i :: 0 <= i < |messages| ==> messages[i] == ""
    {
      checked := {};
      pizza := [];
      summary := [BaseLine];
      total := BasePrice;
      step := 1;
      activeSection := Some(1);
      progress := ProgressFor(1);
      fields := form;
      messages := seq(|form|, _ => "");
      customerName := None;
      NothingChecked();
    }

    /** Appends four pieces tagged `t`, one at a time. */
    method AddTopping(t: Topping)
      modifies this`pizza
      ensures pizza == old(pizza) + Copies(t, PiecesPerTopping)
    {
      for i := 0 to PiecesPerTopping
        invariant pizza == old(pizza) + Copies(t, i)
      {
        pizza := pizza + [t];
      }
    }

    /** Removes every piece tagged `t` and keeps the others in order. */
    method RemoveTopping(t: Topping)
      modifies this`pizza
      ensures pizza == Without(old(pizza), t)
    {
      var pieces := pizza;
      var kept := [];
      for i := 0 to |pieces|
        invariant kept == Without(pieces[..i], t)
      {
        WithoutAppend(pieces[..i], [pieces[i]], t);
        assert pieces[..i + 1] == pieces[..i] + [pieces[i]];
        if pieces[i] != t {
          kept := kept + [pieces[i]];
        }
      }
      assert pieces[..|pieces|] == pieces;
      pizza := kept;
    }

    /** Rebuilds the summary from the ticked boxes, in checkbox order. */
    method UpdateSummary()
      modifies this`summary, this`total
      ensures summary == Summary(InOrder(checked)).lines
      ensures total == Summary(InOrder(checked)).total
    {
      var selected := InOrder(checked);
      summary := [BaseLine];
      total := BasePrice;
      for i := 0 to |selected|
        invariant |summary| == i + 1 && summary[0] == BaseLine
        invariant forall j :: 0 <= j < i ==> summary[j + 1] == Line(selected[j])
        invariant total == BasePrice + PriceSum(selected[..i])
      {
        PriceSumAppend(selected[..i], selected[i]);
        assert selected[..i + 1] == selected[..i] + [selected[i]];
        total := total + Price(selected[i]);
        summary := summary + [Line(selected[i])];
      }
      assert selected[..|selected|] == selected;
      var r := Summary(selected);
      forall j | 0 <= j < |summary|
        ensures summary[j] == r.lines[j]
      {
        if j > 0 {
          assert summary[(j - 1) + 1] == Line(selected[j - 1]);
        }
      }
    }

    /**
      The change handler. `target` is the topping whose checkbox the user
      flipped, or `None` when the event came from another element, which
      the handler ignores.
    */
    method Toggle(target: Option<Topping>)
      requires Valid()
      modifies this`checked, this`pizza, this`summary, this`total
      ensures Valid()
      ensures target.None? ==> checked == old(checked) && pizza == old(pizza) && total == old(total)
      ensures target.Some? && target.value !in old(checked) ==>
                checked == old(checked) + {target.value}
                && pizza == old(pizza) + Copies(target.value, PiecesPerTopping)
                && total == old(total) + Price(target.value)
      ensures target.Some? && target.value in old(checked) ==>
                checked == old(checked) - {target.value}
                && pizza == Without(old(pizza), target.value)
                && total == old(total) - Price(target.value)
    {
      if target.None? {
        return;
      }
      if target.value !in checked {
        Tick(target.value);
      } else {
        Untick(target.value);
      }
    }

    /** The change handler for a box that becomes ticked. */
    method Tick(t: Topping)
      requires Valid() && t !in checked
      modifies this`checked, this`pizza, this`summary, this`total
      ensures Valid()
      ensures checked == old(checked) + {t}
      ensures pizza == old(pizza) + Copies(t, PiecesPerTopping)
      ensures total == old(total) + Price(t)
    {
      checked := checked + {t};
      AddTopping(t);
      forall u ensures Count(pizza, u) == if u in checked then PiecesPerTopping else 0 {
        AddedCounts(old(pizza), t, u);
      }
      CheckAddsPrice(old(checked), t);
      UpdateSummary();
    }

    /** The change handler for a box that becomes unticked. */
    method Untick(t: Topping)
      requires Valid() && t in checked
      modifies this`checked, this`pizza, this`summary, this`total
      ensures Valid()
      ensures checked == old(checked) - {t}
      ensures pizza == Without(old(pizza), t)
      ensures total == old(total) - Price(t)
    {
      checked := checked - {t};
      RemoveTopping(t);
      forall u ensures Count(pizza, u) == if u in checked then PiecesPerTopping else 0 {
        if u == t {
          RemoveLeavesNone(old(pizza), t);
        } else {
          WithoutKeepsOthers(old(pizza), t, u);
        }
      }
      assert old(checked) == checked + {t};
      CheckAddsPrice(checked, t);
      UpdateSummary();
    }

    /** Shows the section of the current step and marks the markers before it. */
    method UpdateFormStep()
      requires |progress| == StepCount
      modifies this`activeSection, this`progress
      ensures 1 <= step <= StepCount ==> activeSection == Some(step) && progress == ProgressFor(step)
      ensures !(1 <= step <= StepCount) ==> activeSection == None && progress == old(progress)
    {
      activeSection := None;
      if !(1 <= step <= StepCount) {
        // No section carries this step: the lookup fails and the handler stops here.
        return;
      }
      activeSection := Some(step);
      var marks := progress;
      for i := 0 to StepCount
        invariant |marks| == StepCount
        invariant forall j :: 0 <= j < i ==> (marks[j] <==> j < step)
      {
        marks := marks[i := i < step];
      }
      progress := marks;
    }

    /**
      Checks the inputs of step `s`: their messages are cleared first, then
      each failing input gets its own message. Inputs of other steps are
      left alone.
    */
    method ValidateStep(s: int, now: Clock) returns (ok: bool)
      requires |messages| == |fields|
      modifies this`messages
      ensures |messages| == |fields|
      ensures ok <==> StepPasses(fields, s, now)
      ensures forall i :: 0 <= i < |fields| ==>
                messages[i] == if fields[i].step == s then ErrorMessage(fields[i], now) else old(messages[i])
    {
      ClearMessages(s);
      ok := CheckStep(s, now);
    }

    /** The first loop of the validation: empties the message of every input of step `s`. */
    method ClearMessages(s: int)
      requires |messages| == |fields|
      modifies this`messages
      ensures |messages| == |fields|
      ensures forall i :: 0 <= i < |fields| ==> messages[i] == if fields[i].step == s then "" else old(messages[i])
    {
      for i := 0 to |fields|
        invariant |messages| == |fields|
        invariant forall j :: 0 <= j < |fields| ==>
                    messages[j] == if j < i && fields[j].step == s then "" else old(messages[j])
      {
        if fields[i].step == s {
          messages := messages[i := ""];
        }
      }
    }

    /** The second loop of the validation: runs the rule of every input of step `s`, whose messages start empty. */
    method CheckStep(s: int, now: Clock) returns (ok: bool)
      requires |messages| == |fields|
      requires forall i :: 0 <= i < |fields| && fields[i].step == s ==> messages[i] == ""
      modifies this`messages
      ensures |messages| == |fields|
      ensures ok <==> StepPasses(fields, s, now)
      ensures forall i :: 0 <= i < |fields| ==>
                messages[i] == if fields[i].step == s then ErrorMessage(fields[i], now) else old(messages[i])
    {
      ok := true;
      for i := 0 to |fields|
        invariant |messages| == |fields|
        invariant forall j :: 0 <= j < |fields| && fields[j].step == s ==>
                    messages[j] == if j < i then ErrorMessage(fields[j], now) else ""
        invariant forall j :: 0 <= j < |fields| && fields[j].step != s ==> messages[j] == old(messages[j])
        invariant ok <==> forall j :: 0 <= j < i && fields[j].step == s ==> FieldPasses(fields[j], now)
      {
        var f := fields[i];
        if f.step == s {
          var m := CheckField(f, now);
          if m != "" {
            ok := false;
            messages := messages[i := m];
          }
        }
      }
    }

    /**
      The body of the validation loop for one input: one independent check
      per known id, each setting the message when its rule fails. An input
      has a single id, so at most one check fires, and the message left is
      the one `ErrorMessage` gives.
    */
    static method CheckField(f: Field, now: Clock) returns (m: string)
      ensures m == "" <==> FieldPasses(f, now)
      ensures m == ErrorMessage(f, now)
    {
      m := "";
      if f.id == "name" && !NameValid(f.value) {
        m := "Name cannot be empty.";
      }
      if f.id == "phone" && !PhoneValid(f.value) {
        m := "Please enter a valid 10-digit Indian phone number.";
      }
      if f.id == "address" && !AddressValid(f.value) {
        m := "Please enter a complete address.";
      }
      if f.id == "pincode" && !PincodeValid(f.value) {
        m := "Sorry, we do not deliver to this pincode yet.";
      }
      if f.id == "card-number" && !CardNumberValid(f.value) {
        m := "Please enter a valid 16-digit card number.";
      }
      if f.id == "expiry" && !ExpiryValid(f.value, now) {
        m := "Please enter a valid, future expiry date (MM/YY).";
      }
      if f.id == "cvv" && !CvvValid(f.value) {
        m := "Please enter a valid 3 or 4 digit CVV.";
      }
    }

    /** The "next" button: advances only when the current step's inputs pass. */
    method Next(now: Clock)
      requires |messages| == |fields| && |progress| == StepCount
      modifies this`step, this`messages, this`activeSection, this`progress
      ensures |messages| == |fields|
      ensures step == if StepPasses(fields, old(step), now) then old(step) + 1 else old(step)
      ensures 1 <= step <= StepCount ==> activeSection == Some(step) && progress == ProgressFor(step)
      ensures !(1 <= step <= StepCount) ==> activeSection == None && progress == old(progress)
      ensures forall i :: 0 <= i < |fields| ==>
                messages[i] == if fields[i].step == old(step) then ErrorMessage(fields[i], now) else old(messages[i])
    {
      var ok := ValidateStep(step, now);
      if ok {
        step := step + 1;
      }
      UpdateFormStep();
    }

    /** The "previous" button: steps back with no lower bound. */
    method Prev()
      requires |progress| == StepCount
      modifies this`step, this`activeSection, this`progress
      ensures step == old(step) - 1
      ensures 1 <= step <= StepCount ==> activeSection == Some(step) && progress == ProgressFor(step)
      ensures !(1 <= step <= StepCount) ==> activeSection == None && progress == old(progress)
    {
      step := step - 1;
      UpdateFormStep();
    }

    /**
      Typing `text` into input `i`. The formatter is attached at load time to
      the element `getElementById('card-number')` returns, so only the first
      input with that id reformats what is typed; any other input, including
      a later one with the same id, stores the text as it is.
    */
    method Input(i: nat, text: string)
      requires i < |fields|
      modifies this`fields
      ensures fields == old(fields)[i := old(fields)[i].(value :=
                if FirstWithId(old(fields), "card-number") == Some(i) then FormatCardNumber(text) else text)]
    {
      var value := text;
      var formatted := FirstWithId(fields, "card-number");
      if formatted == Some(i) {
        value := FormatCardNumber(text);
      }
      fields := fields[i := fields[i].(value := value)];
    }

    /**
      The submit handler: validates the last step and, only when it passes,
      captures the value of the first input with id `name`.
    */
    method Submit(now: Clock) returns (submitted: bool)
      requires |messages| == |fields|
      modifies this`messages, this`customerName
      ensures |messages| == |fields|
      ensures submitted <==> StepPasses(fields, FinalStep, now) && FirstWithId(fields, "name").Some?
      ensures submitted ==> customerName == Some(fields[FirstWithId(fields, "name").value].value)
      ensures !submitted ==> customerName == old(customerName)
      ensures forall i :: 0 <= i < |fields| ==>
                messages[i] == if fields[i].step == FinalStep then ErrorMessage(fields[i], now) else old(messages[i])
    {
      submitted := false;
      var ok := ValidateStep(FinalStep, now);
      if ok {
        var k := FirstWithId(fields, "name");
        if k.Some? {
          customerName := Some(fields[k.value].value);
          submitted := true;
        }
      }
    }

    /** Clears the pizza and every checkbox, then rebuilds the summary. */
    method ClearPizza()
      modifies this`pizza, this`checked, this`summary, this`total
      ensures checked == {} && pizza == [] && summary == [BaseLine] && total == BasePrice
    {
      RemoveTopping(Pepperoni);
      RemoveTopping(Mushrooms);
      RemoveTopping(Onions);
      RemoveTopping(Olives);
      RemoveEveryKind(old(pizza));
      checked := {};
      UpdateSummary();
      NothingChecked();
    }

    /**
      The "new order" button: clears the pizza, unticks every box, rebuilds
      the summary, clears the form and goes back to step 1. Error messages
      and the captured name are left as they were.
    */
    method Reset()
      requires Valid()
      modifies this`pizza, this`checked, this`summary, this`total
      modifies this`fields, this`step, this`activeSection, this`progress
      ensures Valid()
      ensures checked == {} && pizza == [] && summary == [BaseLine] && total == BasePrice
      ensures step == 1 && activeSection == Some(1) && progress == ProgressFor(1)
      ensures fields == Cleared(old(fields))
      ensures messages == old(messages) && customerName == old(customerName)
    {
      ClearPizza();
      NothingChecked();
      fields := Cleared(fields);
      step := 1;
      UpdateFormStep();
    }
  }

}
