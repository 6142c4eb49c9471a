/**
 * Properties of the tracker's transitions: an invariant every reachable
 * session keeps, the history ledger that only grows newest-first, the
 * failure branches that change nothing, and the worked scenarios.
 */
module TrackerProperties {
  import opened Wrappers
  import opened Validation
  import opened Tracker

  /** A history snapshot of a calculation that passed both guards. */
  predicate WellFormedEntry(e: HistoryEntry)
  {
    && e.income > 0.0
    && e.totalExpenses > 0.0
    && e.balance == e.income - e.totalExpenses
    && e.balance >= 0.0
  }

  /**
   * What holds in every session reachable from `Initial`: the results panel
   * shows the newest history entry's totals (zeros while the history is
   * empty), the remaining balance is the balance less the savings, the
   * balance is never negative, and every history entry is well formed.
   */
  predicate Inv(s: Session)
  {
    && (|s.history| == 0 ==> s.results.totalExpenses == 0.0 && s.results.balance == 0.0)
    && (|s.history| > 0 ==>
          && s.results.totalExpenses == s.history[0].totalExpenses
          && s.results.balance == s.history[0].balance)
    && s.results.remainingBalance == s.results.balance - s.results.savingsAmount
    && s.results.balance >= 0.0
    && (forall i :: 0 <= i < |s.history| ==> WellFormedEntry(s.history[i]))
  }

  /** `a` ends with `b`: everything in `b` is still there, in the same order, at the back. */
  predicate EndsWith(a: seq<HistoryEntry>, b: seq<HistoryEntry>)
  {
    |b| <= |a| && a[|a| - |b|..] == b
  }

  /** History ids strictly decrease from the front: newest first, no two alike. */
  predicate NewestFirst(h: seq<HistoryEntry>)
  {
    forall i, j :: 0 <= i < j < |h| ==> h[i].id > h[j].id
  }

  /** The clock only moves forward: every button press after `last` carries a larger id than the one before. */
  predicate ClockAdvances(acts: seq<Action>, last: int)
    decreases |acts|
  {
    if |acts| == 0 then true
    else if acts[0].CalculatePressed? then
      acts[0].id > last && ClockAdvances(acts[1..], acts[0].id)
    else
      ClockAdvances(acts[1..], last)
  }

  // ---------------------------------------------------------------------
  // The three outcomes of an expense calculation

  /** Exactly one of: a field error, the logic error, success. */
  lemma OutcomesExclusive(parse: Parser, s: Session)
    ensures !AllFieldsValid(parse, s) <==> !Succeeds(parse, s) && !Overspends(parse, s)
    ensures !(Succeeds(parse, s) && Overspends(parse, s))
  {
  }

  /** The history grows by one when the calculation succeeds and stays the same length otherwise. */
  lemma CalculateGrowsHistoryIff(parse: Parser, s: Session, id: int, date: string)
    ensures var t := CalculateExpenses(parse, s, id, date);
      && (|t.history| == |s.history| + 1 <==> Succeeds(parse, s))
      && (|t.history| == |s.history| <==> !Succeeds(parse, s))
  {
  }

  /** The flags after a calculation do not depend on the flags before it. */
  lemma FlagsIgnorePrevious(parse: Parser, s: Session, e1: Errors, e2: Errors, id: int, date: string)
    ensures CalculateExpenses(parse, s.(errors := e1), id, date).errors
         == CalculateExpenses(parse, s.(errors := e2), id, date).errors
  {
  }

  /**
   * Pressing "Calculate" twice on the same valid inputs leaves two entries
   * with equal figures and the clock's two ids, newest first, in front of
   * the earlier history.
   */
  lemma CalculateTwice(parse: Parser, s: Session, id1: int, d1: string, id2: int, d2: string)
    requires Succeeds(parse, s)
    ensures var t := CalculateExpenses(parse, CalculateExpenses(parse, s, id1, d1), id2, d2);
      && |t.history| == |s.history| + 2
      && t.history[0].id == id2 && t.history[1].id == id1
      && t.history[0].income == t.history[1].income
      && t.history[0].totalExpenses == t.history[1].totalExpenses
      && t.history[0].balance == t.history[1].balance
      && t.history[2..] == s.history
  {
  }

  // ---------------------------------------------------------------------
  // The savings refinement

  /** Saving twice with the same percentage is the same as saving once. */
  lemma SavingsIdempotent(parse: Parser, s: Session)
    ensures CalculateSavings(parse, CalculateSavings(parse, s)) == CalculateSavings(parse, s)
  {
  }

  /**
   * On a positive balance the saved amount is positive, and the remaining
   * balance stays non-negative exactly when the percentage is at most 100.
   */
  lemma SavingsWithinBalance(parse: Parser, s: Session)
    requires ValidateInput(parse, s.savingsPercentage)
    requires s.results.balance > 0.0
    ensures var t := CalculateSavings(parse, s);
      && t.results.savingsAmount > 0.0
      && (t.results.remainingBalance >= 0.0 <==> parse(s.savingsPercentage).value <= 100.0)
  {
    var t := CalculateSavings(parse, s);
    SplitSign(s.results.balance, parse(s.savingsPercentage).value);
    assert t.results.savingsAmount == parse(s.savingsPercentage).value * s.results.balance / 100.0;
  }

  /** The sign of each part when `rate` percent of a positive balance `b` is set aside. */
  lemma SplitSign(b: real, rate: real)
    requires b > 0.0 && rate > 0.0
    ensures rate * b / 100.0 > 0.0
    ensures b - rate * b / 100.0 >= 0.0 <==> rate <= 100.0
  {
    assert b - rate * b / 100.0 == b * (100.0 - rate) / 100.0;
    if rate <= 100.0 {
      assert b * (100.0 - rate) >= 0.0;
    } else {
      assert b * (rate - 100.0) > 0.0;
    }
  }

  // ---------------------------------------------------------------------
  // The reachability invariant

  lemma InitialInv()
    ensures Inv(Initial)
  {
  }

  /** Each single action keeps the invariant. */
  lemma StepPreservesInv(parse: Parser, s: Session, act: Action)
    requires Inv(s)
    ensures Inv(Step(parse, s, act))
  {
  }

  /** Any sequence of actions keeps the invariant. */
  lemma {:induction false} RunPreservesInv(parse: Parser, s: Session, acts: seq<Action>)
    requires Inv(s)
    ensures Inv(Run(parse, s, acts))
    decreases |acts|
  {
    if |acts| > 0 {
      StepPreservesInv(parse, s, acts[0]);
      RunPreservesInv(parse, Step(parse, s, acts[0]), acts[1..]);
    }
  }

  /**
   * In every reachable session the balance shown is non-negative, the
   * panel's totals are positive exactly when some calculation has succeeded,
   * and every history entry satisfies balance = income - totalExpenses.
   */
  lemma {:induction false} ReachableSessions(parse: Parser, acts: seq<Action>)
    ensures var s := Run(parse, Initial, acts);
      && Inv(s)
      && s.results.balance >= 0.0
      && (s.results.totalExpenses > 0.0 <==> |s.history| > 0)
  {
    InitialInv();
    RunPreservesInv(parse, Initial, acts);
  }

  // ---------------------------------------------------------------------
  // The history ledger

  /** One action either leaves the history alone or puts exactly one entry in front of it. */
  lemma StepHistory(parse: Parser, s: Session, act: Action)
    ensures var h := Step(parse, s, act).history;
      h == s.history || (|h| == |s.history| + 1 && h[1..] == s.history)
  {
  }

  /** The history only grows: earlier entries keep their values and order at the back. */
  lemma {:induction false} HistoryOnlyGrows(parse: Parser, s: Session, acts: seq<Action>)
    ensures EndsWith(Run(parse, s, acts).history, s.history)
    decreases |acts|
  {
    if |acts| > 0 {
      var s' := Step(parse, s, acts[0]);
      StepHistory(parse, s, acts[0]);
      HistoryOnlyGrows(parse, s', acts[1..]);
      var h := Run(parse, s', acts[1..]).history;
      assert h[|h| - |s'.history|..] == s'.history;
      if s'.history != s.history {
        assert s'.history[1..] == s.history;
        assert h[|h| - |s.history|..] == h[|h| - |s'.history|..][1..];
      }
    }
  }

  /** With a clock that only moves forward, the ledger stays newest first with distinct ids. */
  lemma {:induction false} HistoryStaysNewestFirst(parse: Parser, s: Session, acts: seq<Action>, last: int)
    requires NewestFirst(s.history)
    requires forall i :: 0 <= i < |s.history| ==> s.history[i].id <= last
    requires ClockAdvances(acts, last)
    ensures NewestFirst(Run(parse, s, acts).history)
    decreases |acts|
  {
    if |acts| > 0 {
      var s' := Step(parse, s, acts[0]);
      StepHistory(parse, s, acts[0]);
      var last' := if acts[0].CalculatePressed? then acts[0].id else last;
      if s'.history != s.history {
        var h := s'.history;
        assert h[0].id == acts[0].id;
        forall i | 0 <= i < |h|
          ensures h[i].id <= last'
        {
          if i > 0 {
            assert h[i] == s.history[i - 1];
          }
        }
        forall i, j | 0 <= i < j < |h|
          ensures h[i].id > h[j].id
        {
          assert h[j] == s.history[j - 1];
          if i > 0 {
            assert h[i] == s.history[i - 1];
          }
        }
      }
      HistoryStaysNewestFirst(parse, s', acts[1..], last');
    }
  }

  /**
   * Consequently ids in a newest-first ledger are unique, which is what the
   * history list relies on when it uses each entry's id as its React key.
   */
  lemma NewestFirstIdsUnique(h: seq<HistoryEntry>)
    requires NewestFirst(h)
    ensures forall i, j :: 0 <= i < |h| && 0 <= j < |h| && i != j ==> h[i].id != h[j].id
  {
    forall i, j | 0 <= i < |h| && 0 <= j < |h| && i != j
      ensures h[i].id != h[j].id
    {
      if i < j {
        assert h[i].id > h[j].id;
      } else {
        assert h[j].id > h[i].id;
      }
    }
  }

  // ---------------------------------------------------------------------
  // Worked scenarios

  /** Income 1000 with expenses 100, 50 and 20: total 170, balance 830, one new entry. */
  lemma ScenarioWithinBudget(parse: Parser, s: Session, id: int, date: string)
    requires parse(s.income) == Some(1000.0)
    requires parse(s.software) == Some(100.0)
    requires parse(s.courses) == Some(50.0)
    requires parse(s.internet) == Some(20.0)
    ensures var t := CalculateExpenses(parse, s, id, date);
      && t.results == Results(170.0, 830.0, 0.0, 830.0)
      && t.errors == NoErrors
      && |t.history| == |s.history| + 1
      && t.history[0] == HistoryEntry(id, date, 1000.0, 170.0, 830.0)
  {
  }

  /** Income 100 with expenses 80, 30 and 10: the logic error, nothing stored. */
  lemma ScenarioOverBudget(parse: Parser, s: Session, id: int, date: string)
    requires parse(s.income) == Some(100.0)
    requires parse(s.software) == Some(80.0)
    requires parse(s.courses) == Some(30.0)
    requires parse(s.internet) == Some(10.0)
    ensures var t := CalculateExpenses(parse, s, id, date);
      && t.errors == Errors(false, false, false, false, true)
      && t.results == s.results
      && t.history == s.history
  {
  }

  /** An income that is not a number with the other fields valid: only the income flag, nothing stored. */
  lemma ScenarioBadIncome(parse: Parser, s: Session, id: int, date: string)
    requires parse(s.income) == None
    requires ValidateInput(parse, s.software)
    requires ValidateInput(parse, s.courses)
    requires ValidateInput(parse, s.internet)
    ensures var t := CalculateExpenses(parse, s, id, date);
      && t.errors == Errors(true, false, false, false, false)
      && t.results == s.results
      && t.history == s.history
  {
  }

  /** Saving 10% of a balance of 830: 83 saved, 747 remaining, totals and history untouched. */
  lemma ScenarioSavings(parse: Parser, s: Session)
    requires s.results == Results(170.0, 830.0, 0.0, 830.0)
    requires parse(s.savingsPercentage) == Some(10.0)
    ensures var t := CalculateSavings(parse, s);
      && t.results == Results(170.0, 830.0, 83.0, 747.0)
      && t.history == s.history
      && t.errors == s.errors
  {
  }
}
