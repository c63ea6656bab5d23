# Pizza builder: a verified model of the page logic

The pizza builder is a single-page shop. The customer ticks toppings, sees pieces of
each topping appear on the pizza, and reads an order summary with a running
total. They then walk through a three-step checkout form and land on a
confirmation page. This project models the logic behind that page in Dafny:

- **Prices and summary** (`Toppings`). The base price is 150 and four toppings
  have fixed prices. The summary has the base line followed by one line per
  ticked topping, in checkbox order, and the total is the sum of those lines.
- **The pizza surface** (`PizzaSurface`). The pizza container is a list of piece
  tags. Ticking a topping appends four pieces tagged with it, and unticking
  removes every piece with that tag.
- **Field rules and the card-number formatter** (`Text`, `Regex`, `CardFormat`,
  `Validators`). Each checkout input has a rule:
  - name: not blank;
  - phone: an Indian mobile number;
  - address: long enough;
  - pincode: on the serviceable list;
  - card number: 16 digits in groups of four;
  - expiry: `MM/YY`, not in the past;
  - CVV: 3 or 4 digits.

  The rules that test a regular expression are stated through a small regex
  syntax tree with full-match semantics. The card-number input reformats what is
  typed: it keeps only the digits and writes them in groups of four.
- **The page state and its handlers** (`PizzaApp.App`). This is a class holding:
  - the ticked boxes, the pieces on the pizza, and the summary and total;
  - the wizard's current step, the visible section and the progress markers;
  - the form inputs, the error message next to each input, and the captured customer name.

  Its methods are the page's handlers: topping change, next, previous, typing
  into an input, submit and "new order".

The current time is a parameter, `Validators.Clock(year, month, atMonthStart)`.
It gives the current month and whether now is exactly the first instant of that
month, which is all the expiry comparison depends on.

## Model

| member | source | states |
|---|---|---|
| Text.Digits | script.js:181 | Removing every non-digit leaves only digits and never makes the text longer. |
| Text.DigitsAppend | script.js:181 | Stripping non-digits from two joined texts gives the two digit runs joined, in order. |
| Text.DigitsOfDigits | script.js:181 | Text that is already all digits is left as it is. |
| Text.DigitsOfSpaces | script.js:181 | Whitespace contributes no digits. |
| Text.TrimIsInfix | script.js:140 | `trim()` returns a contiguous slice of its input. Everything cut off on either side is whitespace. A non-empty result starts and ends with non-whitespace. An empty result means the input was all whitespace. |
| Text.TrimSurrounded | script.js:159 | `trim()` of whitespace, then text that starts and ends with non-whitespace, then whitespace, gives exactly that text. |
| Text.TrimNoOp | script.js:159 | Text that neither starts nor ends with whitespace is unchanged by `trim()`. |
| Regex.ClassRunMatches | script.js:144 | A counted repetition of one character class, such as `\d{9}`, matches exactly the strings of allowed length made of that class. |
| Regex.ClassPair | script.js:166 | Two single-character classes in a row, such as `0[1-9]`, match exactly the two-character strings whose characters are in those classes. |
| Regex.CatFixed | script.js:166 | A concatenation whose left part always has the same width matches exactly when the input splits at that width into a left match and a right match. |
| Regex.OptCat | script.js:159 | An optional part followed by `b`, such as `\s?\d{4}`, matches exactly what `b` matches, plus the optional part followed by `b`. |
| Regex.FixedWidthSound | script.js:159 | Every match of a pattern with a computed fixed width has exactly that length. |
| Toppings.KeyInjective | script.js:72-83 | Two toppings share a key exactly when they are the same topping, so the class `topping-<key>` selects the pieces of one topping only. |
| Toppings.Summary | script.js:88-102 | The summary is the base line "Base Pizza" at 150, followed by one line per selected topping, in order, each with the topping's name and price. The total is 150 plus the sum of those prices. |
| Toppings.InOrderIsChecked | script.js:92 | The toppings the summary walks over are exactly the ticked ones, each once, in checkbox order. |
| Toppings.TotalBounds | script.js:2-8 | Whatever is ticked, the total lies between 150 and 380. |
| Toppings.CheckAddsPrice | script.js:90-96 | Ticking one more topping raises the total by exactly that topping's price. |
| Toppings.NothingChecked | script.js:224-225 | With nothing ticked, the summary is the base line alone and the total is 150. |
| Toppings.SelectedSumBounds | script.js:92-96 | The selected toppings' prices add up to between 0 and the sum of all prices. |
| PizzaSurface.Copies | script.js:68-78 | One check adds exactly `n` pieces, all tagged with the topping. |
| PizzaSurface.Without | script.js:82-85 | Removal leaves exactly the pieces with other tags, and is shorter by the number of removed pieces. |
| PizzaSurface.AddedCounts | script.js:65-79 | Adding a topping raises its piece count by 4 and leaves every other count as it was. |
| PizzaSurface.WithoutAppend | script.js:82-85 | Removing from a joined list removes from each part, and keeps the parts in order. |
| PizzaSurface.WithoutAbsent | script.js:82-85 | Removing a tag with no pieces changes nothing. |
| PizzaSurface.RemoveLeavesNone | script.js:82-85 | After removal, no piece with the tag is left, however many there were. |
| PizzaSurface.WithoutKeepsOthers | script.js:82-85 | Removal keeps the count of every other tag. |
| PizzaSurface.AddThenRemove | script.js:51-62 | Adding and then removing a topping removes the added pieces too. When the topping was absent, the surface is back where it started. |
| PizzaSurface.RemoveEveryKind | script.js:223 | Removing all four kinds leaves an empty pizza. |
| CardFormat.FormatCardNumber | script.js:181 | The formatted value holds only digits and spaces. Spaces sit exactly at every fifth position, so every group but the last has four digits. There is no trailing space, and removing the spaces gives back exactly the digits typed, in order. |
| CardFormat.GroupedDigits | script.js:181 | Grouping `n` digits adds one space after each full group of four and keeps the digits in order. |
| CardFormat.ShortRunUnchanged | script.js:181 | Fewer than four digits are not grouped. |
| CardFormat.FormatIdempotent | script.js:181 | Formatting an already formatted value changes nothing. |
| CardFormat.FormatSixteen | script.js:181 | Sixteen typed digits, with anything else around them, come out as four groups of four separated by single spaces. |
| Validators.NameValidIff | script.js:140 | A name passes exactly when it contains a character that is not whitespace. |
| Validators.PhoneValidIff | script.js:144 | A phone number passes exactly when it is ten ASCII digits and the first is 6 to 9. |
| Validators.PhoneExamples | script.js:144 | "9876543210" passes; "1234567890" and "98765432" fail. |
| Validators.AddressValidIff | script.js:148 | An address passes exactly when its first and last non-whitespace characters are at least ten positions apart, counting both. |
| Validators.PincodeShape | script.js:152-154 | Every serviceable pincode is six digits. "123456" passes and "000000" does not. |
| Validators.CardNumberSound | script.js:159 | A card number that passes holds exactly sixteen digits and nothing but digits and whitespace. |
| Validators.BlockRunIff | script.js:159 | The pattern `\d{4}\s?\d{4}...` read as blocks accepts exactly the runs of four-digit groups in which neighbouring groups are joined by nothing or by one whitespace character. |
| Validators.CardNumberIff | script.js:159 | The card rule exactly: a value passes if and only if its trimmed text is four groups of four digits with nothing or one whitespace character between neighbours. |
| Validators.CardPadded | script.js:159 | Any whitespace before and after such groups is accepted, since `trim()` removes it first. |
| Validators.DoubleGapRejected | script.js:159 | "1234  5678 9012 3456" fails although it has sixteen digits and otherwise only whitespace: two whitespace characters may not join groups. |
| Validators.CardAccepts | script.js:159 | Four groups of four digits, each pair joined by nothing or by one whitespace character, pass. |
| Validators.FormattedCardIff | script.js:159 | What the live formatter leaves in the card input passes exactly when sixteen digits were typed. |
| Validators.CardExample | script.js:181 | "4111111111111111" is shown as "4111 1111 1111 1111", which passes. |
| Validators.TypedCardNumber | script.js:159 | A card-number input filled by typing passes exactly when sixteen digits were typed. |
| Validators.ExpiryShape | script.js:166 | The `MM/YY` pattern accepts exactly five characters: a month 01 to 12, a slash and two digits. |
| Validators.ExpiryValidIff | script.js:163-170 | A well-formed expiry for month MM of 20YY passes exactly when that month is after the current month, or is the current month and now is its first instant. |
| Validators.ExpiredExample | script.js:163-170 | "01/20" fails at any time after the first instant of January 2020. |
| Validators.CvvValidIff | script.js:171 | A CVV passes exactly when it is three or four ASCII digits. |
| Validators.ErrorMessage | script.js:139-174 | An input's message is empty exactly when the input passes its rule. Inputs with an unrecognised id always have an empty message. |
| Validators.UnknownFieldIgnored | script.js:139-176 | Inserting an input with an unrecognised id never changes whether a step passes. |
| PizzaApp.FirstWithId | script.js:193 | The lookup finds the first input with the id, or reports that none has it. |
| PizzaApp.Cleared | script.js:227 | The form reset keeps every input and its step, and empties every value. |
| PizzaApp.ProgressFor | script.js:122-128 | Marker `i` is active exactly when `i` is less than the step. |
| PizzaApp.App.constructor | script.js:107 | The page starts with nothing ticked, an empty pizza, the base line alone, a total of 150, step 1 shown with only the first marker active, and no messages. |
| PizzaApp.App.AddTopping | script.js:65-79 | The loop appends exactly four pieces tagged with the topping after those already there. |
| PizzaApp.App.RemoveTopping | script.js:82-85 | The pizza becomes the old pizza without the topping's pieces, with the others in their order. |
| PizzaApp.App.UpdateSummary | script.js:88-102 | The loop rebuilds the summary and total to match the ticked boxes. |
| PizzaApp.App.Toggle | script.js:51-62 | Ticking a box adds its four pieces and raises the total by its price. Unticking removes all its pieces and lowers the total by the same amount. An event from any other element changes nothing. The page invariant is kept: four pieces per ticked topping, none otherwise, and a matching summary. |
| PizzaApp.App.Tick | script.js:56-61 | Ticking a box adds exactly its four pieces after the others, raises the total by its price and keeps the page invariant. |
| PizzaApp.App.Untick | script.js:58-61 | Unticking a box removes all its pieces, keeps the others in order, lowers the total by its price and keeps the page invariant. |
| PizzaApp.App.UpdateFormStep | script.js:118-129 | For steps 1 to 3, exactly the current step's section is shown and the markers before it are active. For any other step, no section is shown and the markers are untouched. |
| PizzaApp.App.ValidateStep | script.js:132-177 | The result is true exactly when every input of the step passes. Each input of the step ends with its own message, empty when it passes. Inputs of other steps keep their messages. |
| PizzaApp.App.ClearMessages | script.js:136 | Every input of the step gets an empty message. Every other message is unchanged. |
| PizzaApp.App.CheckStep | script.js:133-177 | Starting from empty messages, the result is true exactly when every input of the step passes, and each input of the step ends with its own message. |
| PizzaApp.App.CheckField | script.js:139-174 | The loop body's separate checks leave an empty message exactly when the input passes. The message left is the one for the input's id. |
| PizzaApp.App.Next | script.js:109-116 | The step goes up by one exactly when the current step passes, and otherwise stays. The section and markers then follow the new step. |
| PizzaApp.App.Prev | script.js:112-115 | The step always goes down by one, with no lower bound. |
| PizzaApp.App.Input | script.js:180-182 | Typing into the first input with id `card-number`, the one `getElementById` returns, stores the formatted value. Any other input stores the text as typed, even a later input with the same id. Nothing else changes. |
| PizzaApp.App.Submit | script.js:189-199 | The name is captured only when step 3 passes and a name input exists. Otherwise the captured name is unchanged. Step 3's messages are refreshed. |
| PizzaApp.App.ClearPizza | script.js:223-225 | Afterwards the pizza is empty, nothing is ticked, and the summary is the base line with a total of 150. |
| PizzaApp.App.Reset | script.js:221-230 | The pizza is empty and nothing is ticked. The summary is the base line with a total of 150, every input is emptied, and the form is back on step 1. Messages and the captured name stay as they were. |

## Left out

- Random placement of pieces (script.js:74-76), together with each piece's image, alt text and CSS class. Nothing checkable depends on them: a piece is modelled by its tag alone.
- Money formatting with `toFixed(2)` and all HTML string building (script.js:37-46, 89, 98, 101). Prices and totals are integers, and a summary line is a caption and a price.
- Creating the topping controls (script.js:35-48). Their order is the table's order, which is the constant `Toppings.AllToppings`.
- The confirmation page (script.js:202-218). It re-parses rendered text split on `' - '`, and that depends on how the browser lays out `innerText`.
- Hash routing, `preventDefault` and the event-listener wiring (script.js:24-31, 190, 197, 232-240). These are browser plumbing. The handlers are called directly as methods.
- The real clock and time zones. The expiry check takes a `Clock` value instead of calling `new Date()`.
- The whitespace set. `Text.IsWhiteSpace` is the ECMAScript WhiteSpace and LineTerminator set as of Unicode 15. A later Unicode version could add space separators.
- String length in UTF-16 code units. The address length counts characters, which differs only for characters outside the Basic Multilingual Plane.
- The page's HTML. The model assumes:
  - three sections and three progress markers (`PizzaApp.StepCount`);
  - an initial summary of the base line alone, with step 1 shown;
  - inputs whose reset value is the empty string;
  - each input directly followed by its own error element (script.js:184-187), which is why every input has its own message slot, `messages[i]`;
  - every error element empty when the page loads.
- Exceptions. When no section exists for the current step, `querySelector` returns null and the `.classList` access on it throws (script.js:120). The model keeps the effect up to that point: every section hidden, markers untouched. In the same way, Submit without a name input captures nothing.
- The load-time throw when no input has id `card-number`. Then `getElementById` returns null at script.js:180, and attaching the listener throws. Nothing after it is wired: the reset, topping, submit, next and previous listeners (script.js:232-240) and the topping controls (script.js:244). `PizzaApp.App.constructor` accepts any list of inputs and models the page as if the wiring had completed.
- The throw from a missing error element. If an input of the validated step had no following element, writing its message would throw a TypeError inside the validation. That would stop the next handler before the step changes, and the submit handler before the name is captured. The model assumes the element is there, so validation always completes.
- Other customer data. Only the name is stored by the submit handler (script.js:193), so only the name is modelled.
- The regex engine. Only the constructs these patterns use are modelled: character classes, concatenation, alternation, `?` and counted repetition, each tested as a full match.
