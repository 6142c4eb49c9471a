/**
 * The session state of the expense tracker and the transitions its buttons
 * and input fields drive. Every user action is one atomic transition from a
 * `Session` to a `Session`; React's hook batching is not modelled.
 */
module Tracker {
  import opened Wrappers
  import opened Validation

  /** One "currently invalid" flag per input field, plus the expenses-exceed-income flag. */
  datatype Errors = Errors(
    income: bool,
    software: bool,
    courses: bool,
    internet: bool,
    logicError: bool)

  /** The figures shown in the results panel. */
  datatype Results = Results(
    totalExpenses: real,
    balance: real,
    savingsAmount: real,
    remainingBalance: real)

  /** A snapshot of one successful expense calculation. */
  datatype HistoryEntry = HistoryEntry(
    id: int,
    date: string,
    income: real,
    totalExpenses: real,
    balance: real)

  /** The five raw text fields, the results, the history (newest first) and the flags. */
  datatype Session = Session(
    income: string,
    software: string,
    courses: string,
    internet: string,
    savingsPercentage: string,
    results: Results,
    history: seq<HistoryEntry>,
    errors: Errors)

  /** The text inputs a user can edit. */
  datatype Field = Income | Software | Courses | Internet | SavingsPercentage

  /** The four amounts of a calculation, each already known to be strictly positive. */
  datatype Amounts = Amounts(income: real, software: real, courses: real, internet: real)

  const ZeroResults := Results(0.0, 0.0, 0.0, 0.0)

  const NoErrors := Errors(false, false, false, false, false)

  /** The state a fresh session starts in: empty fields, zero results, no history, no flags. */
  const Initial := Session("", "", "", "", "", ZeroResults, [], NoErrors)

  /** The current text of field `f`. */
  function Text(s: Session, f: Field): (text: string)
  {
    match f
    case Income => s.income
    case Software => s.software
    case Courses => s.courses
    case Internet => s.internet
    case SavingsPercentage => s.savingsPercentage
  }

  /** Typing into field `f`: that field takes the new text and nothing else changes. */
  function Edit(s: Session, f: Field, text: string): (t: Session)
    ensures Text(t, f) == text
    ensures forall g: Field :: g != f ==> Text(t, g) == Text(s, g)
    ensures t.results == s.results && t.history == s.history && t.errors == s.errors
  {
    match f
    case Income => s.(income := text)
    case Software => s.(software := text)
    case Courses => s.(courses := text)
    case Internet => s.(internet := text)
    case SavingsPercentage => s.(savingsPercentage := text)
  }

  /** All four calculation fields pass the validator. */
  predicate AllFieldsValid(parse: Parser, s: Session)
  {
    && ValidateInput(parse, s.income)
    && ValidateInput(parse, s.software)
    && ValidateInput(parse, s.courses)
    && ValidateInput(parse, s.internet)
  }

  /** The parsed amounts, present exactly when every calculation field is valid. */
  function ParseAmounts(parse: Parser, s: Session): (a: Option<Amounts>)
    ensures a.Some? <==> AllFieldsValid(parse, s)
    ensures a.Some? ==>
      && a.value.income > 0.0 && a.value.software > 0.0
      && a.value.courses > 0.0 && a.value.internet > 0.0
      && parse(s.income) == Some(a.value.income)
      && parse(s.software) == Some(a.value.software)
      && parse(s.courses) == Some(a.value.courses)
      && parse(s.internet) == Some(a.value.internet)
  {
    if AllFieldsValid(parse, s) then
      Some(Amounts(parse(s.income).value, parse(s.software).value,
                   parse(s.courses).value, parse(s.internet).value))
    else
      None
  }

  /** Sum of the three expense categories. */
  function Spent(a: Amounts): (total: real)
  {
    a.software + a.courses + a.internet
  }

  /** The calculation succeeds: every field valid and the expenses within the income. */
  predicate Succeeds(parse: Parser, s: Session)
  {
    match ParseAmounts(parse, s)
    case None => false
    case Some(a) => Spent(a) <= a.income
  }

  /** Every field valid but the expenses above the income. */
  predicate Overspends(parse: Parser, s: Session)
  {
    match ParseAmounts(parse, s)
    case None => false
    case Some(a) => Spent(a) > a.income
  }

  /**
   * The "Calculate Expenses" button. `id` and `date` are what the clock and
   * the locale would supply for a new history entry.
   */
  function CalculateExpenses(parse: Parser, s: Session, id: int, date: string): (t: Session)
    // the inputs are only read
    ensures forall f: Field :: Text(t, f) == Text(s, f)
    // every field flag is recomputed from the field alone, whatever it was before
    ensures t.errors.income <==> !ValidateInput(parse, s.income)
    ensures t.errors.software <==> !ValidateInput(parse, s.software)
    ensures t.errors.courses <==> !ValidateInput(parse, s.courses)
    ensures t.errors.internet <==> !ValidateInput(parse, s.internet)
    // the logic flag is raised exactly when valid expenses exceed the income
    ensures t.errors.logicError <==> Overspends(parse, s)
    // both failure branches leave results and history as they were
    ensures !Succeeds(parse, s) ==> t.results == s.results && t.history == s.history
    // on success the results are replaced wholesale and one entry goes in front
    ensures Succeeds(parse, s) ==>
      var a := ParseAmounts(parse, s).value;
      && t.results.totalExpenses == a.software + a.courses + a.internet
      && t.results.totalExpenses > 0.0
      && t.results.balance + t.results.totalExpenses == a.income
      && t.results.balance >= 0.0
      && t.results.savingsAmount == 0.0
      && t.results.remainingBalance == t.results.balance
      && |t.history| == |s.history| + 1
      && t.history[0] == HistoryEntry(id, date, a.income, t.results.totalExpenses, t.results.balance)
      && t.history[1..] == s.history
  {
    var flags := Errors(
      !ValidateInput(parse, s.income),
      !ValidateInput(parse, s.software),
      !ValidateInput(parse, s.courses),
      !ValidateInput(parse, s.internet),
      false);
    match ParseAmounts(parse, s)
    case None => s.(errors := flags)
    case Some(a) =>
      var totalExpenses := Spent(a);
      var balance := a.income - totalExpenses;
      if totalExpenses > a.income then
        s.(errors := flags.(logicError := true))
      else
        var entry := HistoryEntry(id, date, a.income, totalExpenses, balance);
        s.(errors := flags,
           results := Results(totalExpenses, balance, 0.0, balance),
           history := [entry] + s.history)
  }

  /**
   * The savings button: with a valid percentage it splits the current balance
   * into the part saved and the part remaining; otherwise it does nothing.
   */
  function CalculateSavings(parse: Parser, s: Session): (t: Session)
    ensures !ValidateInput(parse, s.savingsPercentage) ==> t == s
    // only the two savings figures of the results may change
    ensures t == s.(results := s.results.(savingsAmount := t.results.savingsAmount,
                                          remainingBalance := t.results.remainingBalance))
    ensures ValidateInput(parse, s.savingsPercentage) ==>
      && t.results.savingsAmount * 100.0 == parse(s.savingsPercentage).value * s.results.balance
      && t.results.savingsAmount + t.results.remainingBalance == s.results.balance
  {
    if !ValidateInput(parse, s.savingsPercentage) then
      s
    else
      var savingsRate := parse(s.savingsPercentage).value;
      var savingsAmount := (savingsRate * s.results.balance) / 100.0;
      var remainingBalance := s.results.balance - savingsAmount;
      s.(results := s.results.(savingsAmount := savingsAmount,
                               remainingBalance := remainingBalance))
  }

  /** What a user can do: type into a field or press one of the two buttons. */
  datatype Action =
    | Typed(field: Field, text: string)
    | CalculatePressed(id: int, date: string)
    | SavingsPressed

  /** One user action as one atomic transition. */
  function Step(parse: Parser, s: Session, act: Action): (t: Session)
    // the texts change only by typing
    ensures !act.Typed? ==> forall f: Field :: Text(t, f) == Text(s, f)
    // typing touches neither results, history nor flags
    ensures act.Typed? ==> t.results == s.results && t.history == s.history && t.errors == s.errors
    // only the "Calculate Expenses" button can change the history or the flags
    ensures act.SavingsPressed? ==> t.history == s.history && t.errors == s.errors
  {
    match act
    case Typed(f, text) => Edit(s, f, text)
    case CalculatePressed(id, date) => CalculateExpenses(parse, s, id, date)
    case SavingsPressed => CalculateSavings(parse, s)
  }

  /** A sequence of actions applied in order, the first one first. */
  function Run(parse: Parser, s: Session, acts: seq<Action>): (t: Session)
    decreases |acts|
  {
    if |acts| == 0 then s else Run(parse, Step(parse, s, acts[0]), acts[1..])
  }
}
