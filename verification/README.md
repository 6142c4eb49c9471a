# Dev Expense Tracker — a Dafny model of the expense and savings engine

The Dev Expense Tracker is a single-page widget. A user types an income and
three expense categories (software, courses, internet), presses
"Calculate Expenses", and sees the total expenses and the balance. A
"Savings Percentage" button then splits that balance into a saved amount
and a remaining balance. Every successful calculation is recorded in an
in-memory history, newest first.

This project models the only non-presentational part of the widget: the
validator `validateInput` and the two button handlers `calculateExpenses`
and `calculateSavings`, together with the session state they read and
write (`results`, `errors`, `history` and the five text fields).

- `wrappers.dfy`, module `Wrappers`: `Option`, where `None` stands for JavaScript's `NaN`.
- `validation.dfy`, module `Validation`: `ValidateInput` checks the text against an abstract
  `parse: string -> Option<real>` that stands in for `parseFloat`.
- `tracker.dfy`, module `Tracker`: the immutable `Session` record (flags, results record,
  `seq<HistoryEntry>`, raw texts). It defines the pure transitions `Edit`, `CalculateExpenses`
  and `CalculateSavings`, one `Step` per user `Action`, and `Run` over a sequence of actions.
- `properties.dfy`, module `TrackerProperties`: the reachability invariant `Inv`, the
  history-ledger properties, the outcome lemmas and the worked scenarios.

Parameters stand in for what the component takes from the environment:
- `parse` is `parseFloat`.
- `id` and `date` in `CalculateExpenses` are what `Date.now()` and
  `toLocaleDateString()` would give.

Amounts are Dafny `real`s, so the arithmetic is exact.

Two behaviours of the code worth noting:
- The code rejects a calculation only when total expenses are strictly greater than the income.
  Expenses equal to the income are accepted with a balance of 0, so the model promises
  `balance >= 0`, not `balance > 0`.
- No maximum is placed on the savings percentage. A percentage above 100 therefore leaves a
  negative remaining balance. `TrackerProperties.SavingsWithinBalance` states exactly when this happens.

## Model

| member | source | states |
|---|---|---|
| Validation.ValidateInput | src/DevExpenseTracker.jsx:39-42 | A text is accepted exactly when some strictly positive real is what it parses to, that is, when the parse is not NaN and the number is above zero. |
| Validation.ValidateInputRejects | src/DevExpenseTracker.jsx:39-42 | The definition of `ValidateInput` spelled out case by case: text that is not a number (NaN), zero or negative is rejected, and every text that parses to a positive number is accepted. |
| Tracker.Edit | src/DevExpenseTracker.jsx:17-21 | Typing into a field (the `onChange` handlers at lines 159, 179, 196, 213 and 243) sets that field's text. The other four texts, the results, the history and the flags are unchanged. |
| Tracker.ParseAmounts | src/DevExpenseTracker.jsx:57-65 | The four parsed amounts exist exactly when all four fields validate. Each amount is then positive and equal to what its field parses to. |
| Tracker.CalculateExpenses | src/DevExpenseTracker.jsx:45-95 | Each field flag becomes "this field is invalid", whatever it was before. The logic flag is raised exactly when valid expenses exceed the income. On either failure, results and history are unchanged. On success, total = software + courses + internet > 0 and balance + total = income with balance >= 0. Savings are 0 and remaining equals balance. Exactly one entry (id, date, income, total, balance) is put in front of the old history. |
| Tracker.CalculateSavings | src/DevExpenseTracker.jsx:97-111 | An invalid percentage changes nothing. Otherwise only savingsAmount and remainingBalance change: savings × 100 = rate × balance, and savings + remaining = balance. |
| Tracker.Step | src/DevExpenseTracker.jsx:159-248 | How the inputs and buttons are wired to their handlers: the `onChange` setters (lines 159, 179, 196, 213, 243) and the two `onClick` buttons (lines 228 and 248). Only typing changes a text. Typing leaves results, history and flags alone. The savings button changes neither the history nor the flags. |
| TrackerProperties.OutcomesExclusive | src/DevExpenseTracker.jsx:57-74 | A calculation ends in exactly one of three outcomes: a field error, the logic error, or success. |
| TrackerProperties.CalculateGrowsHistoryIff | src/DevExpenseTracker.jsx:57-94 | The history grows by one if and only if the calculation succeeds. Otherwise its length is unchanged. |
| TrackerProperties.FlagsIgnorePrevious | src/DevExpenseTracker.jsx:47-54 | The flags after a calculation do not depend on the flags before it. |
| TrackerProperties.CalculateTwice | src/DevExpenseTracker.jsx:86-94 | Two calculations on the same valid inputs add two entries with equal figures, the second id in front, ahead of the earlier history. |
| TrackerProperties.SavingsIdempotent | src/DevExpenseTracker.jsx:97-111 | Applying the savings split twice gives the same session as applying it once. |
| TrackerProperties.SavingsWithinBalance | src/DevExpenseTracker.jsx:102-104 | On a positive balance the saved amount is positive. The remaining balance is non-negative exactly when the percentage is at most 100. |
| TrackerProperties.InitialInv | src/DevExpenseTracker.jsx:17-36 | The initial session (empty texts, zero results, empty history, no flags) satisfies the invariant. |
| TrackerProperties.StepPreservesInv | src/DevExpenseTracker.jsx:45-111 | Every single action keeps the invariant. The invariant says: the results show the newest entry's totals (zeros when there is no history), remaining = balance − savings, balance >= 0, and every entry is well formed. |
| TrackerProperties.RunPreservesInv | src/DevExpenseTracker.jsx:45-111 | Every sequence of actions keeps the invariant. |
| TrackerProperties.ReachableSessions | src/DevExpenseTracker.jsx:17-111 | In every reachable session the balance is non-negative. The total expenses are positive exactly when the history is non-empty. Every entry has balance = income − total >= 0. |
| TrackerProperties.StepHistory | src/DevExpenseTracker.jsx:94 | An action either leaves the history alone or puts exactly one entry in front of it. |
| TrackerProperties.HistoryOnlyGrows | src/DevExpenseTracker.jsx:94 | After any sequence of actions, the earlier history is still at the back, with the same values and order. |
| TrackerProperties.HistoryStaysNewestFirst | src/DevExpenseTracker.jsx:86-94 | If the clock only moves forward, history ids stay strictly decreasing from the front. |
| TrackerProperties.NewestFirstIdsUnique | src/DevExpenseTracker.jsx:87 | In a newest-first history no two entries share an id. |
| TrackerProperties.ScenarioWithinBudget | src/DevExpenseTracker.jsx:67-94 | Income 1000 with expenses 100, 50 and 20 gives total 170 and balance 830, with one new entry and no flags. |
| TrackerProperties.ScenarioOverBudget | src/DevExpenseTracker.jsx:67-74 | Income 100 with expenses 80, 30 and 10 raises only the logic flag. Results and history are unchanged. |
| TrackerProperties.ScenarioBadIncome | src/DevExpenseTracker.jsx:47-60 | A non-numeric income with valid expenses raises only the income flag. Results and history are unchanged. |
| TrackerProperties.ScenarioSavings | src/DevExpenseTracker.jsx:97-111 | 10% of a balance of 830 saves 83 and leaves 747. Totals, flags and history are unchanged. |

## Left out

- Rendering, tab switching (`activeTab`), icons and styling (src/DevExpenseTracker.jsx:113-354): presentation only.
- Currency formatting with `toFixed(2)` and the gate that shows the results panel only when `totalExpenses > 0`: display concerns.
  `TrackerProperties.ReachableSessions` does show that this gate opens exactly when the history is non-empty.
- `Date.now()` and `toLocaleDateString()`: clock and locale calls. They are the `id` and `date` parameters.
- TrackerProperties.HistoryStaysNewestFirst: assumes a clock that strictly advances between calculations. `Date.now()` can repeat within one millisecond, so the source itself does not guarantee distinct ids.
- The internals of `parseFloat`: the abstract `parse` parameter replaces them, including its prefix parsing and its `Infinity` results.
- IEEE-754 floating point: amounts are exact `real`s. Rounding, overflow to `Infinity`, and `NaN` produced by arithmetic are not modelled.
- React's state batching and updater functions: each button press is one atomic transition.
  The two `setErrors` updates on the logic-error path are applied in order, as React applies them.
- src/main.jsx: only the React mount.
