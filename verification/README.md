# WeeChat core, verified

This project models four pieces of WeeChat's core in Dafny and proves what they
promise: the dynamic array (`src/core/core-arraylist.c`), the expression
calculator (`src/core/core-calc.c`), the configuration store
(`src/core/core-config-file.c`) and the time-based one-time passwords
(`src/core/core-crypto.c`).

Check everything with `dafny verify --resource-limit 2000000 dfyconfig.toml`.

## How it is built

Each piece has a pure layer, which says what the code means, and an imperative
layer, which does what the code does, with its loops, in-place changes and
pointers, and is proved equal to the pure layer. The main results are lemmas
about the pure layer.

- **Dynamic array.** `Arraylist` is the class: slots, size, allocation, free
  callback. `ListSpec` says what one insertion means for the sequence of
  elements. The class keeps a ghost history of single events; `ListHistory` proves
  ownership, the capacity bound and the amortised cost for every history, and
  `ListRuns` what sorted lists and lists without duplicates keep; `ListDriver` takes
  the class through such runs. A search asks
  only that the element *splits* the list (`Ordering`): comparison callbacks need
  not be antisymmetric, and one in the configuration store is not.
- **Calculator.** `CalcMachine` is the reader with its two stacks as a state
  machine, `CalcLayout` the expressions together with the ways of writing them
  down, `CalcCorrect` the proof that reading a layout computes its tree.
  `CalcNumbers` has the text side, `CalcSanitize` and `CalcFixedPoint` its laws;
  `CalcBuffer` and `Calc` are the code on buffers and on two `Arraylist`s.
  Values are reals; the power of two numbers is any function.
- **Options.** `OptionValue` says what every operation does to the value of an
  option and returns, `OptionLaws` what runs of them keep, `OptionSetter` has the
  branches of the code.
- **Files as text.** `ConfigText` is writing and reading as functions, with the
  16384-byte line buffer; `SaveReload` and `Checkpoint` prove that saving is a
  checkpoint. `ConfigLines` and `ConfigFiles` are the loops on strings and on the heap.
- **The store.** `Names` has the order of names, full names and the finite map a
  sorted list stands for. `ConfigStore` has options and the doubly linked list of a
  section, `ConfigRegistry` all files, `ConfigSearch` look-ups, inherited values and
  priorities. `ConfigWorld` is the same store as a map, with the list of
  notifications: its runs are the setting of listener coherence and of inheritance,
  and every operation of `ConfigRegistry` is proved to be one of its steps.
  `ConfigReload` says which steps reading and reloading a text are, and what they
  tell listeners. `ConfigRuns`, `StoreReload` and `ConfigSession` put the heap
  together: from a new store on, any sequence of calls on options, new files, new
  sections and reloads leaves the store ready for the next call, and a written file
  is a checkpoint.
- **Passwords.** `Truncation` has the bits, `Totp` the rest, over any keyed hash of
  20 bytes.
- **Meanings.** The functions of the pure layer follow the code, so their results are
  also said in other words, without those functions: `ListMeaning` (where an insertion
  puts an element), `CalcArithmetic` (what operators compute, which bind tighter, the
  value of an expression), `CalcShown` (digits, rounding, separators), `OptionMeaning`
  and `CreationMeaning` (what each text sets, and what an option starts with),
  `ReloadMeaning` and `ReloadTelling` (what the lines of a file make of each option, and
  what listeners hear meanwhile), `WritingMeaning` (the shape of a written file),
  `WorldMeaning` (what each call changes and tells, what is read, how names are ordered
  and split) and `PasswordMeaning` (the examples of the standards).

## What the code does that a reader might not expect

- The comment at `src/core/core-calc.c:198` says that "1,23" stays as it is; the
  code makes it "1.23", and the model follows the code.
- A minus in front of a parenthesis is read as the number 0: "-(3)" is 3 and
  "2*-(3)" is 0 (`CalcCorrect.MinusBeforeGroup`, `CalcCorrect.TwoTimesMinusThree`).
- A parenthesis that is never closed makes the result 0, because it is applied as an
  operator in the end: "(2+3" is 0 (`CalcArithmetic.NeverClosed`).
- "-0" is the one result that is not read back as itself, and
  `CalcFixedPoint.MinusZeroIsAnswered` has a text that gives it.
- A step with a negative amount can leave the range of an integer option
  (`OptionLaws.NegativeStepEscapes`); enum indexes always stay in theirs.
- `size_alloc_min` is a lower bound of the allocation only up to 2
  (`ListHistory.NoFloorExactly`): a list that has grown beyond it can shrink below it,
  from 32 to 24 slots for example (`ListHistory.ThirtyTwoBecome24`).
- A password window that reaches below counter 0 accepts nothing
  (`Totp.EarlyWindowRejects`). The loop of the validation does not end if and only
  if the last counter is the greatest 64-bit number (`Totp.LoopEndsExactly`), which
  takes a negative time; `Totp.Validate` excludes that case and no other.
- Renaming an option gives its value to null options that named the new full name
  as their parent before it existed: what is read of them can change without anyone
  setting it (`ConfigWorld.RenameDisturbsExactly`, `ConfigWorld.RenameChangesAValue`).
- A new option whose name ends with " <<" is cut short by that arrow: a name and a
  parent are taken apart again exactly if no arrow comes before the end of the name
  (`WorldMeaning.NamedParent`).
- A value that a file has and that is refused still keeps its option from being reset
  (`ReloadMeaning.RefusedLinesKeep`).
- An enum of two strings that cannot be null is brought back to its first string by
  "++-1" from either value, because a negative remainder is refused
  (`Checkpoint.EnumReadsBackExactly`).

## Model

| member | source | states |
|---|---|---|
| `Arraylist.Arraylist.constructor` | src/core/core-arraylist.c:68-115 | a new list is empty, has the allocation asked for and an empty history |
| `Arraylist.Arraylist.Get` | src/core/core-arraylist.c:133-144 | the element at an index of the list, nothing for any other index, negative ones included |
| `Arraylist.Arraylist.Grow` | src/core/core-arraylist.c:151-175 | the elements stay, the new slots are null, the allocation becomes 2, 1.5 times as large or stays |
| `Arraylist.Arraylist.Shrink` | src/core/core-arraylist.c:188-229 | the elements that remain stay, the allocation is halved only above the initial size and only if they fit |
| `Arraylist.Arraylist.Remove` | src/core/core-arraylist.c:582-613 | exactly the element at the index goes, the free callback gets it, any other index returns -1 and changes nothing |
| `Arraylist.Arraylist.Clear` | src/core/core-arraylist.c:623-668 | the list is empty, with the initial allocation, and its elements are recorded as dropped |
| `Arraylist.Arraylist.Free` | src/core/core-arraylist.c:674-693 | after the end of a list its free callback has got every element ever inserted, as often as it was inserted: the elements that Insert and Add have added to Added, whatever the comparison callback does |
| `Arraylist.Arraylist.BinarySearch` | src/core/core-arraylist.c:244-397 | three fast paths, halving and widening give the result of two linear scans: the first equal index and the last one + 1, or -1 and the number of smaller elements, on every list that the element splits |
| `Arraylist.Arraylist.StandardSearch` | src/core/core-arraylist.c:412-441 | the first element that compares equal in an unsorted list, or -1 and none does |
| `Arraylist.Arraylist.Search` | src/core/core-arraylist.c:455-476 | the search that belongs to the kind of list; an empty sorted list finds nothing |
| `Arraylist.Arraylist.Insert` | src/core/core-arraylist.c:492-558 | in a list that is not sorted and allows duplicates the element stands exactly at the index, with all others around it in their order, and at the end for an index outside; it counts as added in every case; if it splits the list: drop what compares equal (duplicates off), then place it at its order position if sorted, else at the index clipped to the end; the freed elements are exactly the dropped ones, in order |
| `Arraylist.Arraylist.Add` | src/core/core-arraylist.c:567-573 | an insertion at the end, or at the order position of a sorted list; the element counts as added in every case |
| `Ordering.ScansBracketEquals` | src/core/core-arraylist.c:244-397 | in a list that an element splits, the equal elements are exactly those between the lower and the upper scan |
| `Ordering.InsertAllIsStableSort` | src/core/core-arraylist.c:492-558 | inserting behind equals, one by one, is ordered, loses and invents nothing and keeps every class of equal elements in arrival order |
| `Ordering.StableSortUnique` | src/core/core-arraylist.c:492-558 | the three conditions of a stable sort determine one sequence |
| `ListRuns.AddingSorts` | src/core/core-arraylist.c:492-573 | a sequence is the content of a new sorted list after adding elements one by one if and only if it is their stable sort, for every total preorder |
| `ListRuns.RunsKeepPromise` | src/core/core-arraylist.c:492-668 | over every run of insertions, removals and clears a sorted list is sorted, a list without duplicates holds no two equal elements, and the next insertion may rely on it |
| `ListDriver.PerformOn` | src/core/core-arraylist.c:492-668 | one insertion, removal or clear of a list object is the operation of these runs |
| `ListDriver.RunOn` | src/core/core-arraylist.c:492-668 | every run on a new list object: its contents are those of the pure run, sorted and without equal elements as its settings promise |
| `ListDriver.AddAll` | src/core/core-arraylist.c:492-573 | elements added one by one to a new sorted list object end up as their stable sort |
| `ListSpec.EqualsAreABlock` | src/core/core-arraylist.c:492-558 | what an insertion without duplicates drops from a sorted list is one block, between the two scans |
| `ListSpec.NothingLost` | src/core/core-arraylist.c:492-558 | kept and dropped elements together are all elements, each counted once |
| `ListMeaning.Parted` | src/core/core-arraylist.c:516-535 | the elements that do not compare equal stay, each judged on its own, in their order |
| `ListMeaning.AtIndex` | src/core/core-arraylist.c:537-553 | insertion at an index of an unsorted list with duplicates: s[..index] + [x] + s[index..], nothing is freed |
| `ListMeaning.AtEnd` | src/core/core-arraylist.c:537-553 | an index below 0 or beyond the end: s + [x] |
| `ListMeaning.AmongOthers` | src/core/core-arraylist.c:516-553 | without duplicates the index counts the elements that do not compare equal, and is clipped to their number |
| `ListMeaning.BehindEquals` | src/core/core-arraylist.c:500-515 | in a sorted list the element comes behind every smaller and equal one and before every greater one, whatever the index |
| `ListMeaning.InPlaceOfEquals` | src/core/core-arraylist.c:500-515 | in a sorted list without duplicates it takes the place of the equal ones, which are what is freed |
| `ListMeaning.GrowsByHalf` | src/core/core-arraylist.c:151-175 | a full list grows by half its slots, rounded down, and at least to 2; another does not grow |
| `ListMeaning.ShrinksToHalf` | src/core/core-arraylist.c:188-229 | only above the initial allocation, to half the slots rounded up, if the elements that remain leave one of them free |
| `ListHistory.CapacityBound` | src/core/core-arraylist.c:151-229 | in every reachable state size <= allocation <= max(initial allocation, 2 * size, 1) |
| `ListHistory.AmortizedCost` | src/core/core-arraylist.c:151-229 | over every run the slots copied by realloc are at most 6 per element event + 4 * the initial allocation per new or cleared array |
| `ListHistory.NoFloorExactly` | src/core/core-arraylist.c:151-229 | no run brings the allocation below the initial one if and only if that is at most 2 |
| `ListHistory.ThirtyTwoBecome24` | src/core/core-arraylist.c:151-229 | a list of 32 slots that gets 33 elements and loses 10 of them has 24 slots |
| `ListHistory.Ownership` | src/core/core-arraylist.c:492-668 | over every run the elements added are those still in the list and those handed to the free callback, as multisets |
| `ListHistory.LeavesInOrder` | src/core/core-arraylist.c:582-668 | a removal hands its element to the free callback, a clear all of them from the front, an insertion none |
| `ListHistory.InsertEffect` | src/core/core-arraylist.c:492-558 | the single removals that make room and the final placement amount to one insertion, and drop exactly the equal elements |
| `Capacity.RemovePays` | src/core/core-arraylist.c:188-229 | a removal's copies are paid by the potential max(3*size - 2*alloc, 4*alloc - 6*size) and 6 units |
| `CalcCorrect.EvaluatorCorrect` | src/core/core-calc.c:368-477 | for every expression written with the needed parentheses, any redundant ones and any spaces, the run ends with one value and no operator, the value is that of the tree, and no operator lacked an operand |
| `CalcArithmetic.OperationExactly` | src/core/core-calc.c:123-152 | each operator gives r if and only if r is what arithmetic asks for: r - b = a for +, r + b = a for -, r / b = a for *, r * b = a for /, the whole number n with n <= a/b < n + 1 for //, a minus a multiple of b with |r| < |b| and the sign of a for %, pow for **; 0 for a divisor 0 and for any other operator |
| `CalcArithmetic.NeededParentheses` | src/core/core-calc.c:69-91 | which parentheses a text needs, with the operators named: * / // % ** bind tighter than + -, and equal ones go from the left |
| `CalcArithmetic.CalculatesExactly` | src/core/core-calc.c:368-477 | the calculator gives v for the text of an expression if and only if v is its value by the arithmetic of its operators, which does not mention the evaluator |
| `CalcArithmetic.FiveMinusThree` | src/core/core-calc.c:132-133 | "5-3" gives 2 |
| `CalcArithmetic.MinusFromTheLeft` | src/core/core-calc.c:448-460 | "7-2-1" gives 4 |
| `CalcArithmetic.PowerFromTheLeft` | src/core/core-calc.c:448-460 | "2**3**2" is (2**3)**2 |
| `CalcArithmetic.PlusTimes` | src/core/core-calc.c:448-460 | "2+3*4" gives 14 |
| `CalcArithmetic.TimesPlus` | src/core/core-calc.c:448-460 | "2*3+4" gives 10 |
| `CalcArithmetic.ParenthesesFirst` | src/core/core-calc.c:424-440 | "(2+3)*4" gives 20 |
| `CalcArithmetic.LaterPoint` | src/core/core-calc.c:399-419 | a second point in a number makes no difference |
| `CalcArithmetic.NeverClosed` | src/core/core-calc.c:467-477 | a parenthesis that is never closed makes the result 0, for every expression behind it |
| `CalcArithmetic.NeverOpened` | src/core/core-calc.c:424-440 | one that was never opened makes no difference, for every expression before it |
| `CalcArithmetic.MissingOperand` | src/core/core-calc.c:97-117 | a missing left operand is 0: "2-" gives -2 |
| `CalcArithmetic.NoSuchOperator` | src/core/core-calc.c:123-152 | "2^3" gives 0 |
| `CalcCorrect.ReadsMinusGroup` | src/core/core-calc.c:379-423 | a minus before a parenthesis, behind any waiting operators and with any spaces on both sides, is read as the number 0 under the value of the group |
| `CalcCorrect.MinusBeforeGroup` | src/core/core-calc.c:379-423 | so at the start of a text the minus is lost: the result is the value of the group |
| `CalcCorrect.MinusBehindOperator` | src/core/core-calc.c:379-423 | and behind an operator the left operand is lost: the operator takes 0 for it |
| `CalcCorrect.TwoTimesMinusThree` | src/core/core-calc.c:379-423 | "2*-(3)" gives 0 |
| `CalcCorrect.Reads` | src/core/core-calc.c:368-465 | reading a subexpression behind waiting operators leaves stacks that settle to the old ones with its value on top |
| `Calc.CalcExpression` | src/core/core-calc.c:335-485 | the text of the value of any input, "0" without one: the stacks and loops compute the reader's run |
| `Calc.Evaluate` | src/core/core-calc.c:368-477 | tokens, both stacks and the final loop give the value of the pure machine, and both lists are freed |
| `Calc.ReadToken` | src/core/core-calc.c:369-466 | one round of the loop is one step of the pure reader, in all five branches |
| `Calc.OperationStacks` | src/core/core-calc.c:160-187 | takes the operator on top and two values, a missing one being 0, and pushes the result |
| `Calc.OperateWhileHigher` | src/core/core-calc.c:448-460 | operators of at least the arriving precedence are applied: left association |
| `Calc.OperateToOpen` | src/core/core-calc.c:424-440 | operators are applied back to the nearest opening parenthesis |
| `Calc.PopValue` | src/core/core-calc.c:97-117 | the value on top, or 0 from an empty stack |
| `Calc.ReadNumber` | src/core/core-calc.c:399-419 | digits and points, the first point starts the decimals |
| `CalcBuffer.FindDecimalSeparator` | src/core/core-calc.c:211-245 | the loop from the end finds the last separator, or -1 if two or more are all the same |
| `CalcBuffer.Compact` | src/core/core-calc.c:246-279 | in place, the text loses all separators before the decimal point, and the terminator moves |
| `CalcBuffer.SanitizeDecimalNumber` | src/core/core-calc.c:211-279 | the buffer holds the normalised number, and the result says whether a point is left |
| `CalcBuffer.FormatResult` | src/core/core-calc.c:286-314 | the buffer holds the number with ten decimals, cut to its size, normalised and without trailing zeros |
| `CalcSanitize.SanitizedKeepsDigits` | src/core/core-calc.c:211-279 | for any text the subsequence of digits and '-' is unchanged |
| `CalcSanitize.SanitizedPointOnly` | src/core/core-calc.c:211-279 | at most one separator is left, a '.', where the last one stood, and the flag says whether it is |
| `CalcSanitize.SanitizedIsShorter` | src/core/core-calc.c:211-279 | the result is never longer than the text: it can be written in place |
| `CalcSanitize.SameSeparatorsGo` | src/core/core-calc.c:211-279 | two or more identical separators are all dropped |
| `CalcSanitize.SanitizeIdempotent` | src/core/core-calc.c:211-279 | normalising twice is normalising once, in text and flag |
| `CalcShown.PlaceValue` | src/core/core-calc.c:399-419 | digits are read by place value |
| `CalcShown.Nearest` | src/core/core-calc.c:286-314 | the ten decimals are rounded to the nearest, ties to even |
| `CalcShown.ShownNearest` | src/core/core-calc.c:286-314 | the number that a result shows is within half of 10^-10 of the value, if its text fits into the buffer |
| `CalcShown.ShownExactly` | src/core/core-calc.c:286-314 | a value of at most ten decimals that fits is shown with just its digits |
| `CalcShown.LongInteger` | src/core/core-calc.c:472-478 | an integer of 63 digits or more is shown by its first 63 |
| `CalcShown.Separators` | src/core/core-calc.c:218-245 | the ten digits and '-' are kept, every other character is a separator |
| `CalcShown.DecimalPoint` | src/core/core-calc.c:211-279 | the last separator becomes the point if it is the only one or another one differs |
| `CalcShown.ThousandsOnly` | src/core/core-calc.c:211-279 | it goes like the others if there are more and all are the same |
| `CalcShown.WrittenNumbers` | src/core/core-calc.c:195-204 | "1,234.5" and "1.234,5" for any digits and separators: the same number; "1,234,567": no decimals |
| `CalcShown.FiveMinusThree` | src/core/core-calc.c:335-485 | "5-3" is answered "2" |
| `CalcShown.NoNumber` | src/core/core-calc.c:335-485 | a text without a number is answered "0" |
| `CalcFixedPoint.ResultsAreFixedPoints` | src/core/core-calc.c:286-314 | a shown result given to the calculator again comes back unchanged, for every value however long its text, if and only if it is not a negative value that rounds to zero (shown "-0", read 0) |
| `CalcFixedPoint.ExactlyReadBack` | src/core/core-calc.c:382-423 | a whole number of units of 10^-10 whose text fits is read back exactly |
| `CalcFixedPoint.AnswersAreFixedPoints` | src/core/core-calc.c:472-478 | the text of an answer calculates to itself, unless it is "-0" |
| `CalcFixedPoint.MinusZeroIsAnswered` | src/core/core-calc.c:472-478 | "-0.00000000001" is a text that is answered "-0" |
| `CalcFixedPoint.NoTrailingZero` | src/core/core-calc.c:286-314 | a result ends with a digit, which is not 0 if there are decimals |
| `OptionValue.IntTextParsed` | src/core/core-util.c:64-88 | the decimal text of any int is parsed back to it |
| `OptionSetter.StringBooleanIsValid` | src/core/core-config-file.c:1223-1243 | exactly the six true words and the six false words are valid |
| `OptionMeaning.IntegerForm` | src/core/core-util.c:64-88 | blanks, a sign or none and digits are read as their number, if it is an int32 |
| `OptionMeaning.OnlyIntegerForm` | src/core/core-util.c:64-88 | nothing else is read as a number |
| `OptionMeaning.CheckComesFirst` | src/core/core-config-file.c:1438-1449 | what the check callback refuses changes nothing |
| `OptionMeaning.NullText` | src/core/core-config-file.c:1696-1707 | NULL makes null of an option that may be null, and leaves another as it is |
| `OptionMeaning.StringText` | src/core/core-config-file.c:1564-1578 | a string option has any text that it is set to |
| `OptionMeaning.BooleanText` | src/core/core-config-file.c:1456-1507 | each of twelve words gives 1 or 0, toggle the other one, null counting as off, and any other text is refused |
| `OptionMeaning.IntegerText` | src/core/core-config-file.c:1536-1544 | a number is the value if it is in the range, and refused if not |
| `OptionMeaning.NoIntegerText` | src/core/core-config-file.c:1536-1544 | a text that is no number and no step is refused |
| `OptionMeaning.IntegerUp` | src/core/core-config-file.c:1517-1525 | "++n" from v, for every int n: the value v + n, refused if that is above the maximum; null counts as 0 |
| `OptionMeaning.IntegerDown` | src/core/core-config-file.c:1526-1535 | "--n" from v, for every int n: the value v - n, refused if that is below the minimum; null counts as 0 |
| `OptionMeaning.BadStep` | src/core/core-config-file.c:1517-1688 | a step by what is no number is refused, for integers, enums and colors |
| `OptionMeaning.EnumText` | src/core/core-config-file.c:1662-1671 | a name gives the index of the first string that is equal |
| `OptionMeaning.NoEnumText` | src/core/core-config-file.c:1662-1671 | a text that is no string and no step is refused |
| `OptionMeaning.EnumUp` | src/core/core-config-file.c:1641-1650 | "++n" from v: (v + n) modulo the number of strings; a negative n is refused if v is less than its remainder |
| `OptionMeaning.EnumDown` | src/core/core-config-file.c:1651-1661 | "--n" from v: (v - n) modulo the number of strings, for every int n |
| `OptionMeaning.ColorText` | src/core/core-config-file.c:1605-1609 | a color is looked up by its name, and another text refused |
| `OptionMeaning.ColorStep` | src/core/core-config-file.c:1586-1604 | a step goes by n, or by -n, from the name of the present color |
| `OptionMeaning.DefaultText` | src/core/core-config-file.c:1891-2175 | setting the default is setting a value with no check callback, and leaves the value alone |
| `OptionMeaning.NullSet` | src/core/core-config-file.c:1841-1880 | set_null leaves null where null is allowed, and is refused elsewhere |
| `OptionMeaning.ResetSet` | src/core/core-config-file.c:1280-1417 | reset leaves the default, CHANGED exactly if the value was another |
| `OptionMeaning.BooleanToggle` | src/core/core-config-file.c:1753-1758 | a toggle without values makes a boolean the other one, null on, and a second one brings it back |
| `OptionMeaning.StringToggle` | src/core/core-config-file.c:1764-1771 | a toggle without values makes a string empty, and an empty one the default: two of them bring the default back |
| `OptionMeaning.OthersDoNotToggle` | src/core/core-config-file.c:1760-1780 | integers, colors and enums need values to toggle between |
| `OptionMeaning.ListToggle` | src/core/core-config-file.c:1784-1821 | with any list of values: a toggle sets the text behind the first place of the value, round to the first text, and resets with a list of one |
| `OptionMeaning.UnlistedToggle` | src/core/core-config-file.c:1784-1821 | a value that is not in the list: the first text is set |
| `CreationMeaning.RefusedExactly` | src/core/core-config-file.c:776-803 | a definition is refused if and only if it is an enum without strings, or has no text at all and must not be null |
| `CreationMeaning.Bounds` | src/core/core-config-file.c:776-925 | booleans have the bounds 0 and 1, enums, and integers with strings, which become enums, one value for each string; nothing else changes |
| `CreationMeaning.OneText` | src/core/core-config-file.c:793-803 | with one text only the other of value and default is null where it may be, and else the same |
| `CreationMeaning.BothTexts` | src/core/core-config-file.c:822-957 | the value comes from the text of the value, the default from the text of the default |
| `CreationMeaning.NewBoolean` | src/core/core-config-file.c:825-843 | six words start at 1, every other text at 0, as value and as default |
| `CreationMeaning.NewInteger` | src/core/core-config-file.c:844-873 | a number starts as the bound that is nearest to it |
| `CreationMeaning.NewIntegerWithoutNumber` | src/core/core-config-file.c:844-873 | what is no int32 starts as 0 does |
| `CreationMeaning.NewString` | src/core/core-config-file.c:874-889 | a string starts as its text |
| `CreationMeaning.NewColor` | src/core/core-config-file.c:890-908 | a color starts as the one of the name, or as 0 |
| `CreationMeaning.NewEnum` | src/core/core-config-file.c:909-957 | an enum starts at the first string that is equal, or at the first of all |
| `CreationMeaning.CreatedAsSet` | src/core/core-config-file.c:793-957 | a text that is no step and can be set, from any value, starts a new option with what it sets, as value and as default |
| `OptionSetter.AssignBoolean` | src/core/core-config-file.c:1456-1507 | null, toggle, valid and invalid words, as the assignment of a value says |
| `OptionSetter.AssignInteger` | src/core/core-config-file.c:1508-1563 | ++ checks the maximum only, -- the minimum only, null counts as 0, and an invalid text leaves null null |
| `OptionSetter.AssignEnum` | src/core/core-config-file.c:1633-1688 | steps go round with C remainders, a negative index is refused, names are searched from the front |
| `OptionSetter.ResetValue` | src/core/core-config-file.c:1281-1396 | all branches by type end in the default value, with CHANGED exactly if it differed or was null |
| `OptionSetter.ChooseValue` | src/core/core-config-file.c:1735-1826 | the place of the shown value in the list decides: the next, the first, a reset, or the type's own pair |
| `ConfigStore.ConfigOption.Set` | src/core/core-config-file.c:1428-1723 | value and return code as assigned, the check callback first, one notification exactly if CHANGED |
| `ConfigStore.ConfigOption.SetNull` | src/core/core-config-file.c:1841-1880 | null only where it is allowed, SAME if it is null already, one notification exactly if CHANGED |
| `ConfigStore.ConfigOption.SetDefault` | src/core/core-config-file.c:1891-2175 | the default value as assigned, without the check callback, the notification showing the value |
| `ConfigStore.ConfigOption.Reset` | src/core/core-config-file.c:1280-1417 | the default value, or null, or an error, one notification exactly if CHANGED |
| `ConfigStore.ConfigOption.Toggle` | src/core/core-config-file.c:1734-1830 | what the list or the type chooses next is set or reset |
| `ConfigStore.ConfigOption.HookConfigExec` | src/core/core-config-file.c:515-562 | listeners get the full name and the value as text, NULL for null |
| `OptionLaws.RunsStaySound` | src/core/core-config-file.c:1428-1830 | over every run: null only where allowed, booleans 0 or 1, enum indexes in range, for steps by any amount |
| `OptionLaws.AssignedInRange` | src/core/core-config-file.c:1516-1544 | an assignment keeps an integer in its range if and only if it is not a step past the bound that is not checked |
| `OptionLaws.DoInRange` | src/core/core-config-file.c:1428-1830 | the same for every operation: the range is kept if and only if the step it takes does not escape |
| `OptionLaws.RunsStayInRange` | src/core/core-config-file.c:1428-2175 | over every run without negative amounts an integer stays in [min, max], if null is forbidden or 0 is in it |
| `OptionLaws.NegativeStepEscapes` | src/core/core-config-file.c:1517-1524 | "++-7" takes 5 out of [0, 10] and returns CHANGED |
| `OptionLaws.ResetAlwaysWorks` | src/core/core-config-file.c:1280-1417 | a sound option resets without error to has_changed false, and again to SAME |
| `OptionLaws.CreatedIsSound` | src/core/core-config-file.c:793-957 | a new option is sound, and in range if its range is not empty |
| `OptionLaws.ResultIsTruthful` | src/core/core-config-file.c:1404-1416 | CHANGED if and only if the value (for set_default the default) differs from before, and nothing else changes |
| `OptionLaws.TogglesCycle` | src/core/core-config-file.c:1734-1830 | k toggles from values[i] end at values[(i + k) mod n] |
| `OptionLaws.TogglesEnter` | src/core/core-config-file.c:1734-1830 | k >= 1 toggles from an unlisted value end at values[(k - 1) mod n] |
| `OptionLaws.TogglesAlternate` | src/core/core-config-file.c:1734-1830 | with one value toggling alternates between it and the default |
| `ConfigLines.Gets` | src/core/core-config-file.c:3641-3660 | one fgets: up to a newline or the size of the buffer |
| `ConfigLines.SplitLine` | src/core/core-config-file.c:3661-3770 | the line in its parts: spaces, CR and LF, comments, section names, the escape, the first " =" |
| `ConfigLines.ReadRight` | src/core/core-config-file.c:3745-3775 | the value: the word null, one character, spaces at the end and quotes |
| `SaveReload.OptionLineRead` | src/core/core-config-file.c:3032-3089 | the line written for an option is one line and is read back as its name and the text of its value |
| `SaveReload.LoadRestores` | src/core/core-config-file.c:3841-3850 | that text sets the saved value again whatever the value is then |
| `SaveReload.SaveThenReload` | src/core/core-config-file.c:3928-3972 | write a file, change the values in any way, reload: each option has its value at save time, null included, and its present default; lines may fill the buffer to the last character |
| `Checkpoint.ReloadGoesBack` | src/core/core-config-file.c:3928-3972 | the same for every run of set, set_null, set_default, reset and toggle in between |
| `Checkpoint.EnumReadsBackExactly` | src/core/core-config-file.c:3072-3079 | for every list of strings and every check callback: the string of an enum option brings its value back from every value if and only if it is accepted, plain, no step and the first of its name, or one of three cases with one or two strings that the contract lists |
| `Checkpoint.OthersReadBackExactly` | src/core/core-config-file.c:3032-3071 | a saved null, and the saved value of a string, boolean or integer, comes back from every value if and only if the check callback accepts what was read and the bounds hold |
| `Checkpoint.PlainIsReadBack` | src/core/core-config-file.c:3741-3775 | a text written without quotes is read as itself if and only if it has no outer space, no outer quotes and is not null |
| `ConfigFiles.Write` | src/core/core-config-file.c:3223-3270 | the loops over sections and options produce the text of the file |
| `ConfigFiles.Read` | src/core/core-config-file.c:3637-3893 | the reader's loop on the heap, line by line, leaves the options as the text says, and listeners are told exactly what ReadNotes lists |
| `ConfigFiles.ReadLine` | src/core/core-config-file.c:3641-3888 | one round of that loop: section pointer, version check, option search and set, and the notification of a change |
| `ConfigFiles.LoadIn` | src/core/core-config-file.c:3838-3851 | the option is searched and set, and counts as loaded even if its value is refused; unknown names change nothing; listeners hear of a change and of nothing else |
| `ConfigFiles.Reload` | src/core/core-config-file.c:3928-3972 | unload all, read, reset what was not in the file; listeners are told exactly what ReloadNotes lists |
| `ReloadMeaning.LineSets` | src/core/core-config-file.c:3838-3851 | a line of an option sets its text and nothing else, and keeps it from being reset, also if the text is refused |
| `ReloadMeaning.RefusedValueStays` | src/core/core-config-file.c:3848-3849 | an integer in [0, 10] with value 7 and default 5 keeps 7 if the file says 99 |
| `ReloadMeaning.TextLoads` | src/core/core-config-file.c:3637-3893 | for every text and every option: reading sets, in their order, the texts of the lines that name it in its section, and nothing else |
| `ReloadMeaning.ReloadedExactly` | src/core/core-config-file.c:3928-3972 | for every file and every text: an option that no line names has its default, every other what its lines set one after the other |
| `ReloadMeaning.RefusedLinesKeep` | src/core/core-config-file.c:3928-3972 | an option all of whose lines are refused keeps value and default |
| `ReloadTelling.ReloadTells` | src/core/core-config-file.c:3928-3972 | for every file, text and option: under its full name listeners hear, and in this order, the value after each line that changed it, or, if no line names it, the default if that is another value, and nothing else |
| `ReloadMeaning.LastDecides` | src/core/core-config-file.c:3838-3851 | of several lines the last decides, unless it is a step, a toggle or refused |
| `ReloadMeaning.VersionDecides` | src/core/core-config-file.c:3777-3822 | what follows a version is read if and only if the version is from 1 to the present one |
| `ReloadMeaning.PieceOfLine` | src/core/core-config-file.c:3641-3660 | a line is read in pieces of 16382 characters, and at once if it is shorter |
| `ReloadMeaning.IndentedLine` | src/core/core-config-file.c:3661-3665 | spaces in front of a line do not count |
| `ReloadMeaning.CarriageReturn` | src/core/core-config-file.c:3667-3673 | nothing behind a carriage return counts |
| `ReloadMeaning.NothingToRead` | src/core/core-config-file.c:3675-3677 | an empty line and a comment are ignored |
| `ReloadMeaning.SectionLine` | src/core/core-config-file.c:3679-3725 | a section name ends at the first closing bracket, and a line without one is ignored |
| `ReloadMeaning.AlwaysOption` | src/core/core-config-file.c:3679-3729 | a line behind a backslash is an option whatever it starts with, and so is one in brackets that has an equals sign |
| `ReloadMeaning.OptionForms` | src/core/core-config-file.c:3731-3747 | a name, " =" and a text with any spaces around are that name and that text |
| `ReloadMeaning.QuotedValue` | src/core/core-config-file.c:3748-3770 | a text between quotes of either kind, with any spaces behind, is that text |
| `ReloadMeaning.PlainValue` | src/core/core-config-file.c:3748-3770 | another text of two characters or more, with any spaces behind, is that text, unless it is the word null |
| `ReloadMeaning.ShortValues` | src/core/core-config-file.c:3748-3775 | null without quotes is null, with quotes a text; one character and no character are themselves |
| `WritingMeaning.LineOfOption` | src/core/core-config-file.c:3005-3089 | a backslash in front of a name that starts with one of three characters; strings in quotes, other values as shown, null as the name alone |
| `WritingMeaning.OneMoreOption` | src/core/core-config-file.c:3263-3268 | one line for each option, in their order |
| `WritingMeaning.OneMoreSection` | src/core/core-config-file.c:3234-3270 | one part for each section, in their order |
| `WritingMeaning.SectionText` | src/core/core-config-file.c:3258-3269 | an empty line, the name in brackets, the lines of the options |
| `WritingMeaning.WholeText` | src/core/core-config-file.c:3204-3270 | the comments, the version if it is above 1, the sections |
| `ConfigReload.ReadIsRun` | src/core/core-config-file.c:3637-3893 | reading a text is a run of the world: one set for each line with a known option, in their order, which tells listeners ReadNotes and leaves other files alone |
| `ConfigReload.SettleAllIsRun` | src/core/core-config-file.c:3959-3969 | resetting what was not in the text is a run of resets, in the order of the options |
| `ConfigReload.ReloadIsRun` | src/core/core-config-file.c:3928-3972 | reloading is these two runs: in the end the world knows the reloaded file, is coherent, has the notifications of ReloadNotes behind its own, and differs in nothing but values of this file |
| `ConfigFiles.Unload` | src/core/core-config-file.c:3944-3954 | the loaded flag of every option of a section is cleared |
| `ConfigFiles.Settle` | src/core/core-config-file.c:3959-3969 | exactly the options not loaded are reset, and listeners hear of those that change |
| `Names.SplitFull` | src/core/core-config-file.c:495-509 | splitting the full name gives the option back if and only if the names of file and section have no dot |
| `Names.SplitPlain` | src/core/core-config-file.c:1155-1163 | splitting yields names without dots, and joining them gives the text back |
| `Names.FullNameInjective` | src/core/core-config-file.c:495-509 | different options have different full names, given names without dots |
| `Names.TablePlaced` | src/core/core-config-file.c:591-630 | an insertion into the sorted list adds one entry to the finite map |
| `Names.TableTaken` | src/core/core-config-file.c:4011-4027 | a removal takes exactly that entry out |
| `Names.NoneBefore` | src/core/core-config-file.c:1025-1030 | behind a smaller name there is nothing to find further to the front |
| `WorldMeaning.FirstDifference` | src/core/core-config-file.c:568-584 | names are ordered by the first characters that differ |
| `WorldMeaning.ShorterFirst` | src/core/core-config-file.c:568-584 | and what a name starts with comes before it |
| `WorldMeaning.NamedParent` | src/core/core-config-file.c:731-740 | "name << parent" is taken apart into just these if and only if no arrow comes before the end of the name |
| `WorldMeaning.NoParent` | src/core/core-config-file.c:731-740 | a name without an arrow is the whole name, without a parent |
| `ConfigStore.Section.FindPos` | src/core/core-config-file.c:568-584 | the first option with a greater name, searched from the end |
| `ConfigStore.Section.Link` | src/core/core-config-file.c:590-630 | the option gets in front of the first greater one, at all three places of the list, and all links stay inverse |
| `ConfigStore.Section.InsertOption` | src/core/core-config-file.c:590-630 | the list stays linked, sorted and without equal names, and the finite map gets one entry |
| `ConfigStore.Section.SearchOption` | src/core/core-config-file.c:1009-1052 | the early exit search is the look-up in the finite map |
| `ConfigStore.Section.RenameOption` | src/core/core-config-file.c:2256-2293 | nothing for an empty or existing name, else the entry moves in the map and the list stays linked and sorted |
| `ConfigStore.Section.FreeOption` | src/core/core-config-file.c:3996-4038 | the list stays linked and sorted, and the map loses that entry |
| `ConfigStore.Section.Untouched` | src/core/core-config-file.c:568-630 | a list stays well-formed while none of its links and names change |
| `ConfigStore.Section.ReplaceParent` | src/core/core-config-file.c:2304-2313 | in a section exactly the parents with the old name get the new one |
| `ConfigWorld.ShownIsRendered` | src/core/core-config-file.c:515-562 | what listeners get is the rendering of the value, NULL if and only if it is null |
| `ConfigWorld.ListenersKnow` | src/core/core-config-file.c:515-562 | after every run of new, set, set_null, set_default, toggle, reset, rename, free and unset the last notification under an option's present full name is its present value |
| `ConfigWorld.StepCoherent` | src/core/core-config-file.c:1404-1416 | every call keeps that, for all options at once |
| `WorldMeaning.EditDoes` | src/core/core-config-file.c:1280-2175 | an operation changes its option as it does alone and no other, and listeners get one notification, the full name and the value as shown, exactly if it changed the option |
| `WorldMeaning.NewDoes` | src/core/core-config-file.c:683-1001 | a new option has its name, its parent and its first value, and listeners hear it; nothing happens if the name is taken or the option refused |
| `WorldMeaning.RenameDoes` | src/core/core-config-file.c:2256-2325 | a renamed option has only its new name, no value or default changes, and a parent exactly where it was the old name; listeners hear the new name with the value |
| `WorldMeaning.FreeDoes` | src/core/core-config-file.c:3996-4038 | a freed option is gone, no other changes, and listeners hear NULL if they are told |
| `WorldMeaning.ReadingsAre` | src/core/core-config-file.c:2628-2990 | what the boolean, integer, string and color getters return for each kind of value, and for null |
| `WorldMeaning.UsersSee` | src/core/core-config-file.c:2338-2420 | on and off, the decimal number, the string of the index, the name of the color |
| `WorldMeaning.OwnValueFirst` | src/core/core-config-file.c:2660-2677 | a value that is not null is read itself |
| `WorldMeaning.ParentNext` | src/core/core-config-file.c:2660-2677 | of a null option its parent's value is read, or the parent's default if that is null too |
| `WorldMeaning.DefaultLast` | src/core/core-config-file.c:2660-2677 | without a registered parent a null option's own default is read |
| `ConfigWorld.RenameKeepsInheritance` | src/core/core-config-file.c:2256-2319 | renaming keeps the inherited value of every option of every file, but for null options that waited for a parent of the new name: they get the renamed option's value |
| `ConfigWorld.RenamedReadings` | src/core/core-config-file.c:2256-3000 | what each getter of inherited values returns after a renaming: as before, or, for a null option that waited for the new name and read its default, what the renamed option reads |
| `ConfigWorld.RenameDisturbsExactly` | src/core/core-config-file.c:2256-3000 | renaming leaves everything that the getters of inherited values return, in every file, if and only if the renamed option reads the same as the default of each option that waited for the new name |
| `ConfigWorld.RenameChangesAValue` | src/core/core-config-file.c:2256-3000 | a store of two integers in which a renaming turns an inherited 7 into a 5 |
| `ConfigRegistry.Store.Edit` | src/core/core-config-file.c:1280-1880 | an operation on the heap is the step of the world: one option changes, listeners hear of it exactly if it did |
| `ConfigRegistry.Store.Rename` | src/core/core-config-file.c:2256-2325 | renaming on the heap, with its loops over all files, is the step of the world, and keeps every list linked and sorted |
| `ConfigRegistry.Store.Create` | src/core/core-config-file.c:683-1001 | creation on the heap is the step of the world: name and parent are split, a taken name or missing values add nothing |
| `ConfigRegistry.Store.Free` | src/core/core-config-file.c:3996-4038 | freeing on the heap is the step of the world, with or without the notification |
| `ConfigRegistry.Store.Unset` | src/core/core-config-file.c:2188-2250 | unsetting frees and tells listeners NULL where users may delete, and resets elsewhere; every list stays linked and sorted |
| `ConfigRegistry.Store.ReplaceParents` | src/core/core-config-file.c:2298-2315 | the three loops reach every option of every file |
| `ConfigRegistry.Store.TableKnows` | src/core/core-config-file.c:1009-1052 | a name is in the map of its section if and only if its key is one of the store |
| `ConfigRegistry.Store.OneWorld` | src/core/core-config-file.c:495-509 | the store stands for one world only |
| `ConfigRuns.Call` | src/core/core-config-file.c:683-2325 | any call on a store that is ready leaves it ready, with every list linked, sorted and without equal names, every option sound and the listeners coherent, and is the step of the world |
| `ConfigRuns.RunCalls` | src/core/core-config-file.c:683-2325 | the same for every sequence of calls: the store shows the world of the run, and what the run has added is fresh, so that the next run may follow |
| `ConfigRuns.HeapListenersKnow` | src/core/core-config-file.c:515-562 | so on the heap the last notification under an option's full name is its present value |
| `ConfigRuns.NewStore` | src/core/core-config-file.c:683-2325 | a new store is ready and empty |
| `StoreReload.OneText` | src/core/core-config-file.c:3223-3270 | a file of the store stands for one text only, so what is written and reloaded is determined |
| `StoreReload.Write` | src/core/core-config-file.c:3223-3270 | a file of the store is written as the text it stands for |
| `StoreReload.Reload` | src/core/core-config-file.c:3928-3972 | reloading a file leaves the store ready, makes the file stand for the reloaded text, and is the run of sets and resets that the text prescribes: listeners know every value it restored |
| `ConfigSession.WriteEditReload` | src/core/core-config-file.c:3928-3972 | on the heap: write a file, run any operations on the options of the store, reload: every option of the file has the value it had when it was written, and the store is ready |
| `ConfigSession.Serve` | src/core/core-config-file.c:149-3972 | one call of any kind, on options, files, sections or a reload, leaves the store ready and is the run of the calls on options that it amounts to |
| `ConfigSession.ServeAll` | src/core/core-config-file.c:149-3972 | the same for every sequence of such calls, in any order, so from a new store on |
| `ConfigSearch.SearchFile` | src/core/core-config-file.c:99-120 | the early exit search finds a file if and only if one has the name |
| `ConfigSearch.PriorityIsRead` | src/core/core-string.c:4472-4503 | any int before '|' is read as the priority of the name behind it; a name without '|' has the default priority |
| `ConfigSearch.NoPriority` | src/core/core-string.c:4472-4503 | a prefix that is no number is dropped, and the priority is 1000 |
| `ConfigSearch.NewFile` | src/core/core-config-file.c:149-251 | priority and name are parsed; an empty or taken name adds nothing, else the file goes to its place and the files stay sorted |
| `ConfigSearch.SearchKey` | src/core/core-config-file.c:1055-1190 | an option is found if and only if its key is one of the store |
| `ConfigSearch.NewSection` | src/core/core-config-file.c:374-460 | a taken name adds nothing, else the section goes to the end of its file and the store stays well-formed |
| `ConfigSearch.SearchWithString` | src/core/core-config-file.c:1121-1190 | a full name is found if and only if it splits into the key of an option, and then it is that option |
| `ConfigSearch.GetParentOption` | src/core/core-config-file.c:1196-1212 | the parent option if there is one of that full name |
| `ConfigSearch.InheritedValue` | src/core/core-config-file.c:2660-2677 | own value, else the parent's, else the parent's default, else the own default |
| `ConfigSearch.GetConfigsByPriority` | src/core/core-config-file.c:294-340 | every file once, descending priority, ties in name order |
| `ConfigSearch.ConfigsSplit` | src/core/core-config-file.c:294-309 | although the callback never returns 0, every file splits a list in that order |
| `Totp.Validate` | src/core/core-crypto.c:628-679 | accepts if and only if some counter from the first to the last of the window, both modulo 2^64, generates the password; only calls whose loop never ends are left out |
| `Totp.LoopEndsExactly` | src/core/core-crypto.c:669 | the loop gets past the last counter, after any number of rounds, if and only if that is not the greatest uint64 |
| `Totp.WindowIsEmptyExactly` | src/core/core-crypto.c:669 | a window has counters at all if and only if it reaches neither below 0 nor beyond a uint64 |
| `Totp.Generate` | src/core/core-crypto.c:570-618 | no result exactly for a bad number of digits or secret, else the password of the counter of the time |
| `Totp.GenerateInternal` | src/core/core-crypto.c:528-559 | offset, masks, shifts, modulo, printing and the check of the length give the standard's password; fails without a secret |
| `Totp.PreciseIsPadded` | src/core/core-crypto.c:550-555 | printing with a precision gives exactly that many digits for a smaller number, and more than that for a greater one |
| `Truncation.BinCodeIsTruncation` | src/core/core-crypto.c:541-546 | the masked shifts are the dynamic truncation of section 5.3 of RFC 4226 |
| `Totp.CodeIsDecimal` | src/core/core-crypto.c:548-553 | exactly the digits asked for, all decimal, with the value of the truncation modulo 10^digits |
| `Totp.WindowIsInterval` | src/core/core-crypto.c:665 | a window that fits into a uint64 is [T - window, T + window] |
| `Totp.EarlyWindowRejects` | src/core/core-crypto.c:665 | a window that reaches below 0 wraps and is empty: nothing is accepted, not even the password of now |
| `Totp.GeneratedIsAccepted` | src/core/core-crypto.c:570-679 | a password generated at most window steps before or after is accepted, at its full length |
| `PasswordMeaning.ExamplePassword` | src/core/core-crypto.c:528-559 | the hash of the example in section 5.4 of RFC 4226 gives "872921" |
| `PasswordMeaning.TimeSteps` | src/core/core-crypto.c:600-612 | the counter is the number of whole steps of 30 seconds |
| `PasswordMeaning.EarlyTimes` | src/core/core-crypto.c:600-612 | a negative time is divided towards 0, and its counter wraps to the end of the 64-bit numbers |
| `PasswordMeaning.SecretExactly` | src/core/core-crypto.c:528-595 | a secret is a decoding that is not empty, of a text that is not empty |
| `PasswordMeaning.ExampleTimes` | src/core/core-crypto.c:600-612 | the counters 1 and 0x23523EC of appendix B of RFC 6238 for the times 59 and 1111111109 |
| `PasswordMeaning.NowIsZero` | src/core/core-crypto.c:600-612 | the time 0 stands for the clock, every other for itself |

## Left out

- Totp.Validate: leaves out the calls that reach the loop with a last counter of 2^64 - 1, because it never ends then.
- SaveReload.SaveThenReload: assumes the conditions of `GoodFile`: names without outer spaces, " =", CR and LF, lines of at most 16382 characters, section names without ']' and '=', texts of colors and enums that are plain and no steps, and a check callback that accepts the saved texts. The exact condition on the value is proved for every kind but colors, whose names, steps and numbers are abstract.
- ConfigRegistry.Store.Edit: asks for the key of the option to be its own; `KeyOfOne` gives it in every valid store.
- ConfigRuns.Call: a creation names a section that exists; a call on an option that does not exist does nothing, where the code is not called at all. `ConfigSession.Serve` makes no call for a missing section either.
- Files and sections are sequences of objects; the links between them are not modelled, those between options are.
- Options outside of any section, and options of files that are NULL.
- Callbacks of sections that read, write, create or delete options, change callbacks and the update callback of a file: arbitrary user code. The check callback is any function of the text.
- The header comment of a written file is a parameter: lines that start with '#'.
- Colors are three functions: the name of a number, the number of a name, and the step between names.
- `string_strcmp` is not part of this model: names are compared as `strcmp` does.
- The split of an enum's strings at '|', type names, "themable" and descriptions: an option is created from its kind and its list of strings.
- Toggling with an empty list of values, for which the code reads beyond the list.
- Overflow of `int` sums in steps and of sizes of lists; parsed numbers are checked to be 32 bits wide.
- Temporary files, renaming, permissions, `fsync`, backups, charset conversion, messages and logging: a file is its text.
- Failing allocations, lists with a negative initial size, NULL lists and NULL elements.
- The default comparison of an arraylist by address: a list has the comparison callback it is given.
- Rounding of floating point: values are exact, and only the text of a result is rounded; division by zero gives 0 as in the code.
- The calculator on ill-formed input: the machine and the methods handle any text and end, but a value is claimed only for a few forms (`CalcArithmetic.NeverClosed`, `NeverOpened`, `MissingOperand`, `NoSuchOperator`, a minus before a group).
- Hashing, HMAC, base32 decoding and the constant time of the comparison; the clock is a value.
- Arguments, completion, display, infolists and the other parts of the core around these files.
