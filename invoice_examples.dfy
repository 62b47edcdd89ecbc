/**
 * Worked invoices: concrete schedules and deposit logs, with the status,
 * due amount and attribution the invoice utilities derive for them.
 */
module InvoiceExamples {
  import opened Wrappers
  import opened Sums
  import opened InvoiceUtils

  /** An invoice with the given milestone amounts and deposits, and nothing else. */
  function Schedule(amounts: seq<nat>, deposits: seq<nat>): Invoice {
    Invoice(Some(amounts), Some(seq(|deposits|, i requires 0 <= i < |deposits| => Deposit("", "", deposits[i], i))),
            None, None, None, false, None, None, "")
  }

  /** Schedule [100, 200, 300] with one deposit of 150. */
  lemma PartialScheduleExample()
    ensures MilestoneLabels(Schedule([100, 200, 300], [150])) == [Some(Deposited), Some(PartiallyDeposited), None]
    ensures TotalDue(Schedule([100, 200, 300], [150])) == Some(450)
  {
    var inv := Schedule([100, 200, 300], [150]);
    assert DepositAmounts(inv.deposits.value) == [150];
    assert Sum([150]) == 150 by { assert [150][..0] == []; }
    var amounts := [100, 200, 300];
    assert PrefixSum(amounts, 1) == 100 by { PrefixSumStep(amounts, 0); }
    assert PrefixSum(amounts, 2) == 300 by { PrefixSumStep(amounts, 1); }
    assert PrefixSum(amounts, 3) == 600 by { PrefixSumStep(amounts, 2); }
    PrefixSumWhole(amounts);
  }

  /** Schedule [100, 200] paid by deposits of 100 and 200. */
  lemma FullyPaidExample()
    ensures MilestoneLabels(Schedule([100, 200], [100, 200])) == [Some(Deposited), Some(Deposited)]
    ensures TotalDue(Schedule([100, 200], [100, 200])) == Some(0)
  {
    var inv := Schedule([100, 200], [100, 200]);
    assert DepositAmounts(inv.deposits.value) == [100, 200];
    var amounts := [100, 200];
    assert PrefixSum(amounts, 1) == 100 by { PrefixSumStep(amounts, 0); }
    assert PrefixSum(amounts, 2) == 300 by { PrefixSumStep(amounts, 1); }
    PrefixSumWhole(amounts);
  }

  /** An empty deposit list deposits 0, which is falsy: no amount is reported due. */
  lemma EmptyDepositsNoDueExample()
    ensures TotalDeposited(Schedule([50], [])) == Some(0)
    ensures TotalDue(Schedule([50], [])) == None
    ensures MilestoneLabels(Schedule([50], [])) == [None]
    ensures DepositAssignment(Schedule([50], [])) == [None]
  {
    var inv := Schedule([50], []);
    assert DepositAmounts(inv.deposits.value) == [];
  }
}
