# TradingPost crafting-profit calculator, modelled in Dafny

TradingPost is a single-page form that estimates the profit of crafting an
item. The user enters the final item's market price and a list of required
materials, each with a name, a unit price and a quantity. The page then
computes the total material cost and the resulting profit.

This project models the logic of that page (`app/page.tsx`) and proves
properties of it:

- **Material rows** (`Materials.Material`): records `{id, name, price, quantity}`.
  Price and quantity are kept as text.
- **The material list editor.** The page replaces its list wholesale on
  every action, so each action is a function from the old list to the new one:
  - `AddMaterial` appends a blank row whose id is the old length plus one.
  - `RemoveMaterial` drops every row with a given id.
  - `UpdateMaterial` edits one field of every row with a given id. For
    price and quantity it first runs the sanitiser (module `Sanitizer`):
    remove every character outside `[0-9.]`, and reject the edit if more
    than one `.` remains.
- **Action sequences.** `Materials.Run` applies a sequence of actions
  (`Edit`), starting from the page's initial list of one blank row. The
  invariant "every stored price and quantity holds only `[0-9.]` and at most
  one `.`" is proved over every such sequence.
- **The profit summary** (module `Profit`). `CalculateProfit` computes:
  - the total cost, a left fold ("reduce") of price × quantity over the rows;
  - the profit, which is the final price minus the total cost;
  - the profit flag, which is set only when the profit is strictly positive.
  `ShowsSummary` is the page's rule for showing the summary panel: the total
  cost must be positive.
- **Number parsing** (module `Decimal`). `parseFloat(text) || 0` is modelled
  over exact reals. `ScanWhole` and `ScanFraction` read the longest
  decimal-literal prefix left to right; no literal gives NaN, and `|| 0`
  turns NaN into 0. On valid stored numbers the parse is proved to equal an
  independent exact decimal value (`ExactValue`).

`removeMaterial` is easy to read as deleting "the" row with an id, but the
code filters out every row with that id, and the model does the same. The id quirk is real: ids come from
the list length, not a counter. After a removal, an append can produce a
duplicate id, and an edit or removal then hits both rows. `IdReuseAfterRemove`
exhibits this, and `RunWithoutRemoveKeepsIdsSequential` shows that ids stay
distinct as long as nothing is removed.

Files: `wrappers.dfy` (Option), `sanitizer.dfy`, `decimal.dfy`,
`materials.dfy`, `profit.dfy`.

## Model

| member | source | states |
|---|---|---|
| Sanitizer.Sanitize | app/page.tsx:47 | the sanitised text holds only characters of `[0-9.]` and is never longer than the input |
| Sanitizer.SanitizeCounts | app/page.tsx:47 | every `[0-9.]` character survives as often as it occurs in the input; every other character is gone |
| Sanitizer.SanitizeAppend | app/page.tsx:47 | sanitising a concatenation is the concatenation of the sanitised parts, so kept characters stay in order |
| Sanitizer.SanitizeFixedPoints | app/page.tsx:47 | the sanitiser leaves a text unchanged exactly when the text holds only `[0-9.]` |
| Sanitizer.SanitizeIdempotent | app/page.tsx:47 | sanitising twice is the same as sanitising once |
| Sanitizer.SanitizeKeepsDots | app/page.tsx:47-49 | the sanitiser never changes the number of `.` characters |
| Sanitizer.SanitizeEdit | app/page.tsx:46-51 | a price/quantity edit is accepted exactly when the raw value has at most one `.`; an accepted value is the sanitised text and is a valid stored number |
| Sanitizer.ValidNumericIsPattern | app/page.tsx:47-50 | valid stored numbers (only `[0-9.]`, at most one `.`) are exactly the texts matching `^[0-9]*\.?[0-9]*$` |
| Sanitizer.RejectsSecondDot | app/page.tsx:49-50 | the edit `"12.3.4"` is rejected |
| Sanitizer.DropsStrayCharacters | app/page.tsx:47-51 | the edit `"1,2a3.50"` is accepted as `"123.50"` |
| Decimal.ScanWhole | app/page.tsx:61-62 | reading the integer part gives NaN exactly when no digit was read and no literal follows; a value is never negative |
| Decimal.ScanFraction | app/page.tsx:61-62 | reading the fraction gives NaN exactly when no digit was read and no digit follows; a value is never negative |
| Decimal.ParseFloat | app/page.tsx:61-62 | parseFloat gives NaN exactly when no unsigned literal starts the text, after an optional sign |
| Decimal.Parse | app/page.tsx:61-62 | parseFloat(s) with NaN replaced by 0 is 0 whenever parseFloat gives NaN, and is never negative on text made of `[0-9.]` |
| Decimal.ParseDefaultsToZero | app/page.tsx:61-62 | every text with no unsigned literal at its start, even after one sign, counts as 0: `""`, `"."`, `"-"`, `"+x"`, `".x"`, `"..5"` |
| Decimal.ParseIsExactOnValidNumbers | app/page.tsx:61-62 | on a valid stored number the parse is its exact decimal value: all its digits as one integer divided by 10 to the number of digits after the `.` |
| Decimal.ParseNatural | app/page.tsx:61-62 | a non-empty run of digits parses as the integer it spells |
| Decimal.ParseSignedPrefix | app/page.tsx:66 | a sign is honoured and text after the literal is ignored: `"-3.25x"` gives -3.25 |
| Materials.AddMaterial | app/page.tsx:26-36 | the list grows by one; earlier rows are unchanged and in order; the new last row has id old length + 1 and empty name, price and quantity |
| Materials.RemoveMaterial | app/page.tsx:38-40 | no row with the id is left, every row left comes from the old list, and the list never grows |
| Materials.RemoveMaterialCounts | app/page.tsx:39 | every row whose id differs keeps its number of occurrences; rows with the id occur zero times |
| Materials.RemoveMaterialAppend | app/page.tsx:39 | removal distributes over concatenation, so the surviving rows keep their original order |
| Materials.RemoveMaterialUnchanged | app/page.tsx:39 | the list is unchanged exactly when no row has the id, and gets shorter exactly when some row has it |
| Materials.UpdateRow | app/page.tsx:44-53 | the id never changes; a name is stored verbatim; a price/quantity becomes the sanitised value, or the row stays as it was when the raw value has two or more dots; no other field changes; valid stored numbers stay valid |
| Materials.UpdateMaterial | app/page.tsx:42-57 | length, every id and order are preserved; rows with another id are untouched; rows with the id are updated as UpdateRow says |
| Materials.ApplyKeepsNumericFieldsValid | app/page.tsx:26-57 | each add, remove or edit keeps every stored price and quantity a valid number |
| Materials.RunKeepsNumericFieldsValid | app/page.tsx:26-57 | every sequence of actions keeps every stored price and quantity a valid number |
| Materials.ReachableListsHaveValidNumbers | app/page.tsx:16-18 | every list reachable from the initial blank row holds only valid stored numbers |
| Materials.RunWithoutRemoveKeepsIdsSequential | app/page.tsx:30 | without removals row k has id k + 1, so ids are distinct |
| Materials.IdReuseAfterRemove | app/page.tsx:30 | add, remove id 1, add: both rows have id 2, and an edit or removal of id 2 affects both |
| Materials.SecondDotIsRejected | app/page.tsx:47-50 | typing `"12.3.4"` over a stored `"12.3"` leaves the row as it was |
| Profit.InitialSummaryHidden | app/page.tsx:20-24 | before the first calculation the summary has cost 0 and profit 0, is not a profit, and the panel at line 163 is hidden |
| Profit.FoldCostIsSum | app/page.tsx:60-64 | the left fold from an accumulator equals the accumulator plus the sum of the row costs |
| Profit.CalculateProfit | app/page.tsx:59-74 | the total cost is the sum of the row costs; the profit is the parsed final price minus the total; the flag is set exactly when the total is strictly below the parsed price |
| Profit.SumCostsAppend | app/page.tsx:60-64 | the total of a concatenation is the sum of the totals |
| Profit.RowCostNonNegative | app/page.tsx:61-63 | a row whose price and quantity hold only `[0-9.]` never costs less than 0 |
| Profit.SumCostsNonNegative | app/page.tsx:60-64 | with valid stored numbers the total cost is never negative |
| Profit.ReachableTotalsAreNonNegative | app/page.tsx:59-74 | on every reachable list the total cost is at least 0, and the profit is at most the parsed final price |
| Profit.BlankRowCostsNothing | app/page.tsx:29-34 | a blank row costs 0 |
| Profit.AddMaterialKeepsTotal | app/page.tsx:26-36 | adding a row never changes the total cost |
| Profit.RenameKeepsTotal | app/page.tsx:53 | renaming rows never changes the total cost |
| Profit.ProfitExample | app/page.tsx:59-74 | rows 10 × 2 and 5 × 4 against a price of 100: cost 40, profit 60, a profit, and the panel is shown |
| Profit.BlankRowsExample | app/page.tsx:163 | a blank row against a price of 50: cost 0, profit 50, a profit, but the panel stays hidden |
| Profit.BreakEvenExample | app/page.tsx:72 | cost 30 against a price of 30: profit 0, which is not a profit |

## Left out

- JSX rendering, React `useState` and the re-render cycle (app/page.tsx:76-174): these are UI concerns. Each state replacement by `setMaterials` or `setProfit` is a function result here. The summary-panel gate (app/page.tsx:163) is only the predicate `ShowsSummary`.
- The imported UI components `Card`, `Input`, `Button`, `Label` and the `X` icon: they are foreign code and not part of this model.
- The final item's name and price handlers (app/page.tsx:92, 103-106): the price handler rounds IEEE doubles with `Math.round(... * 100) / 100` and can store NaN. The final price enters the model only as a text given to `Parse`.
- Floating point: all numbers are exact reals, so IEEE rounding of the products and sums is not modelled. Neither is overflow. A sanitised price whose value is above the largest double, about 1.8e308 (for example `"1"` followed by 309 zeros), makes parseFloat at app/page.tsx:61 return Infinity. With a blank quantity, line 63 then computes Infinity × 0 = NaN, so the total cost is NaN, `isProfit` is false and the panel is hidden. The model's total stays finite, so `ReachableTotalsAreNonNegative` and `SumCostsNonNegative` hold only for the exact-real model, not for the page's doubles. Rounding can also flip the strict test of line 72 near break-even, so `CalculateProfit`'s flag can disagree with the page there. One row `"0.7"` × `"3"` against a final price of 2.1 costs 2.0999999999999996 in doubles, so the page reports a profit. Over exact reals the profit is 0 and `isProfit` is false. `toFixed(2)` display formatting is left out too.
- ParseFloat: reads only an optional sign, digits and one `.`. It does not model leading white space, exponents (`1e3`), `Infinity`, or the `-0` that `|| 0` also turns into 0. None of these texts can occur in a sanitised price or quantity, but the value Infinity can: see the floating-point line. The texts can occur in the final price: the handler at app/page.tsx:105 can store `Infinity` or a number of 1e21 or more, whose text (`"Infinity"`, `"1e+21"`) parseFloat reads as Infinity and 1e21, while `Parse` gives 0 and 1.
- UpdateRow: `field` is limited to the three names the page passes. The JavaScript spread `[field]: value` with any other key, which would add a new property, is not modelled.
- Browser behaviour of `type="number"` inputs (app/page.tsx:130, 140): it lies outside the code.
