/**
 * The milestone checkboxes of the client's "Pay Invoice" form: which
 * milestones start checked, what checking or unchecking a box selects, how
 * much that asks the client to deposit, and the two warnings the form derives
 * from the amount.
 */
module DepositFunds {
  import opened Wrappers
  import opened Sums
  import InvoiceUtils

  /** Milestone i starts checked when `deposited` is strictly above the schedule through i. */
  function CheckedStatus(deposited: int, amounts: seq<nat>): seq<bool> {
    seq(|amounts|, i requires 0 <= i < |amounts| => deposited > PrefixSum(amounts, i + 1))
  }

  /** `getCheckedStatus`: the running-sum loop over the milestone amounts. */
  method GetCheckedStatus(deposited: int, amounts: seq<nat>) returns (r: seq<bool>)
    ensures r == CheckedStatus(deposited, amounts)
  {
    var sum := 0;
    r := [];
    for i := 0 to |amounts|
      invariant sum == PrefixSum(amounts, i)
      invariant r == CheckedStatus(deposited, amounts)[..i]
    {
      PrefixSumStep(amounts, i);
      sum := sum + amounts[i];
      r := r + [deposited > sum];
    }
  }

  /** No box is checked after an unchecked one. */
  ghost predicate PrefixClosed(checked: seq<bool>) {
    forall i, j :: 0 <= i <= j < |checked| && checked[j] ==> checked[i]
  }

  /** The pre-checked boxes form a prefix of the schedule. */
  lemma CheckedStatusPrefixClosed(deposited: int, amounts: seq<nat>)
    ensures PrefixClosed(CheckedStatus(deposited, amounts))
  {
    var status := CheckedStatus(deposited, amounts);
    forall i, j | 0 <= i <= j < |status| && status[j]
      ensures status[i]
    {
      PrefixSumMonotone(amounts, i + 1, j + 1);
    }
  }

  /** Depositing more never unchecks a box. */
  lemma CheckedStatusMonotone(deposited: int, more: int, amounts: seq<nat>, i: nat)
    requires deposited <= more
    requires i < |amounts| && CheckedStatus(deposited, amounts)[i]
    ensures CheckedStatus(more, amounts)[i]
  {
  }

  /**
   * A pre-checked box is a milestone `depositedMilestones` calls deposited, but
   * not conversely: the comparison here is strict.
   */
  lemma CheckedImpliesDeposited(inv: InvoiceUtils.Invoice, i: nat)
    requires inv.amounts.Some? && InvoiceUtils.TotalDeposited(inv).Some?
    requires i < |inv.amounts.value|
    requires CheckedStatus(InvoiceUtils.TotalDeposited(inv).value, inv.amounts.value)[i]
    ensures InvoiceUtils.MilestoneFlags(inv)[i]
  {
    assert InvoiceUtils.Amounts(inv) == inv.amounts.value;
    assert InvoiceUtils.Truthy(InvoiceUtils.TotalDeposited(inv));
  }

  /**
   * A milestone paid exactly, with nothing beyond it, is deposited for the
   * invoice, yet its box is not pre-checked: `>=` there, `>` here.
   */
  lemma ExactPaymentNotPreChecked(inv: InvoiceUtils.Invoice, i: nat)
    requires inv.amounts.Some? && i < |inv.amounts.value|
    requires PrefixSum(inv.amounts.value, i + 1) > 0
    requires InvoiceUtils.TotalDeposited(inv) == Some(PrefixSum(inv.amounts.value, i + 1))
    ensures i < |InvoiceUtils.MilestoneFlags(inv)| && InvoiceUtils.MilestoneFlags(inv)[i]
    ensures !CheckedStatus(InvoiceUtils.TotalDeposited(inv).value, inv.amounts.value)[i]
  {
    assert InvoiceUtils.Amounts(inv) == inv.amounts.value;
    assert InvoiceUtils.Truthy(InvoiceUtils.TotalDeposited(inv));
  }

  /** `checkedAtIndex`: exactly the boxes up to `index` are selected, whatever was selected before. */
  function CheckedAtIndex(index: int, checked: seq<bool>): (r: seq<bool>)
    ensures |r| == |checked|
    ensures PrefixClosed(r)
  {
    seq(|checked|, i requires 0 <= i < |checked| => i <= index)
  }

  /** The selection depends only on the number of boxes, not on what was selected before. */
  lemma CheckedAtIndexIgnoresValues(index: int, before: seq<bool>, other: seq<bool>)
    requires |before| == |other|
    ensures CheckedAtIndex(index, before) == CheckedAtIndex(index, other)
  {
  }

  /** Unchecking the first box (index -1) clears every box. */
  lemma UncheckFirstClearsAll(checked: seq<bool>, i: nat)
    requires i < |checked|
    ensures !CheckedAtIndex(-1, checked)[i]
  {
  }

  /** Every one of the first `k` boxes is ticked. */
  predicate AllTicked(checked: seq<bool>, k: nat) {
    k <= |checked| && forall i :: 0 <= i < k ==> checked[i]
  }

  /** None of the first `k` boxes is ticked. */
  predicate NoneTicked(checked: seq<bool>, k: nat) {
    forall i :: 0 <= i < k && i < |checked| ==> !checked[i]
  }

  /** The `reduce` of the handler: the amounts of the selected milestones; a missing entry is unselected. */
  function CheckedTotal(checked: seq<bool>, amounts: seq<nat>): (r: nat)
    ensures r <= Sum(amounts)
    ensures AllTicked(checked, |amounts|) ==> r == Sum(amounts)
    ensures NoneTicked(checked, |amounts|) ==> r == 0
  {
    if |amounts| == 0 then 0
    else
      var n := |amounts| - 1;
      assert Sum(amounts) == Sum(amounts[..n]) + amounts[n];
      assert AllTicked(checked, |amounts|) ==> AllTicked(checked, n) && n < |checked| && checked[n];
      assert NoneTicked(checked, |amounts|) ==> NoneTicked(checked, n) && !(n < |checked| && checked[n]);
      CheckedTotal(checked, amounts[..n]) + (if n < |checked| && checked[n] then amounts[n] else 0)
  }

  /** What the selection still asks for beyond `deposited`, never below zero. */
  function DepositAmount(checked: seq<bool>, amounts: seq<nat>, deposited: int): (r: int)
    ensures r >= 0
    ensures r >= CheckedTotal(checked, amounts) - deposited
    ensures r == 0 || r == CheckedTotal(checked, amounts) - deposited
  {
    var totAmount := CheckedTotal(checked, amounts);
    if totAmount >= deposited then totAmount - deposited else 0
  }

  function Clamp(x: int, lo: int, hi: int): int
    requires lo <= hi
  {
    if x < lo then lo else if x > hi then hi else x
  }

  /** Selecting the boxes up to `index` selects the first `index + 1` amounts of the schedule. */
  lemma {:induction false} CheckedTotalUpTo(index: int, checked: seq<bool>, amounts: seq<nat>)
    requires |amounts| <= |checked|
    requires forall i :: 0 <= i < |checked| ==> (checked[i] <==> i <= index)
    ensures CheckedTotal(checked, amounts) == PrefixSum(amounts, Clamp(index + 1, 0, |amounts|))
  {
    if |amounts| > 0 {
      var n := |amounts| - 1;
      CheckedTotalUpTo(index, checked, amounts[..n]);
      PrefixSumOfPrefix(amounts, n, Clamp(index + 1, 0, n));
      PrefixSumStep(amounts, n);
    }
  }

  /**
   * Checking box i asks for the schedule through i less what is deposited;
   * unchecking it asks for the schedule before i less what is deposited.
   */
  lemma CheckboxAmount(i: nat, target: bool, checked: seq<bool>, amounts: seq<nat>, deposited: int)
    requires i < |amounts| == |checked|
    ensures var newChecked := CheckedAtIndex(if target then i else i - 1, checked);
            DepositAmount(newChecked, amounts, deposited)
              == Max(PrefixSum(amounts, if target then i + 1 else i) - deposited, 0)
  {
    var newChecked := CheckedAtIndex(if target then i else i - 1, checked);
    CheckedTotalUpTo(if target then i else i - 1, newChecked, amounts);
  }

  /**
   * The methods a JavaScript bigint has: its own, from `BigInt.prototype`, and
   * those it inherits from `Object.prototype`.
   */
  const BigIntMethods: set<string> := {
    "constructor", "toString", "toLocaleString", "valueOf",
    "hasOwnProperty", "isPrototypeOf", "propertyIsEnumerable",
    "__defineGetter__", "__defineSetter__", "__lookupGetter__", "__lookupSetter__"}

  /**
   * The checkbox handler as written. `totAmount` is a native bigint, so
   * `totAmount.gte(deposited)` finds no `gte` method and throws a TypeError
   * before `setChecked` and `setAmount` run; `None` is that throw. The
   * evidently intended `>=` is `DepositAmount`, used by `OnCheckboxChange`.
   */
  function CheckboxChangeAsWritten(i: nat, target: bool, checked: seq<bool>, amounts: seq<nat>, deposited: int): (r: Option<(seq<bool>, int)>)
    ensures r.None? <==> "gte" !in BigIntMethods
    ensures r.Some? ==> r.value == (CheckedAtIndex(if target then i else i - 1, checked),
                                    DepositAmount(r.value.0, amounts, deposited))
  {
    var newChecked := CheckedAtIndex(if target then i else i - 1, checked);
    var totAmount := CheckedTotal(newChecked, amounts);
    if "gte" in BigIntMethods then Some((newChecked, if totAmount >= deposited then totAmount - deposited else 0))
    else None
  }

  /** As written, every checkbox change throws, so no click changes the selection or the amount. */
  lemma CheckboxChangeThrowsAsWritten(i: nat, target: bool, checked: seq<bool>, amounts: seq<nat>, deposited: int)
    ensures CheckboxChangeAsWritten(i, target, checked, amounts, deposited).None?
  {
  }

  /**
   * The over-due warning: the amount entered exceeds what is due. With a
   * non-negative due, an amount that warns can still be deposited.
   */
  predicate OverDue(amount: int, due: int): (r: bool)
    ensures r && due >= 0 ==> !DepositDisabled(amount)
  {
    amount > due
  }

  /** The Deposit button is disabled for a non-positive amount. */
  predicate DepositDisabled(amount: int) {
    amount <= 0
  }

  /**
   * When `due` is the shortfall of the whole schedule, an amount chosen with the
   * checkboxes never triggers the over-due warning, and it disables the Deposit
   * button exactly when the selected milestones are already paid for.
   */
  lemma CheckboxAmountWarnings(i: nat, target: bool, checked: seq<bool>, amounts: seq<nat>, deposited: int, due: int)
    requires i < |amounts| == |checked|
    requires due == Max(Sum(amounts) - deposited, 0)
    ensures var covered := if target then i + 1 else i;
            var amount := DepositAmount(CheckedAtIndex(if target then i else i - 1, checked), amounts, deposited);
            && !OverDue(amount, due)
            && (DepositDisabled(amount) <==> PrefixSum(amounts, covered) <= deposited)
  {
    CheckboxAmount(i, target, checked, amounts, deposited);
    PrefixSumBounded(amounts, if target then i + 1 else i);
  }

  /**
   * The form's state: the props it was given and the `checked` and `amount`
   * React state that its handlers update.
   */
  class DepositFundsState {
    const amounts: seq<nat>
    const deposited: int
    const due: int
    const initialStatus: seq<bool>
    var checked: seq<bool>
    var amount: int

    ghost predicate Valid()
      reads this
    {
      && initialStatus == CheckedStatus(deposited, amounts)
      && |checked| == |amounts|
      && PrefixClosed(checked)
    }

    /** The first render: the pre-checked boxes are selected and the amount is 0. */
    constructor (amounts: seq<nat>, deposited: int, due: int)
      ensures Valid()
      ensures this.amounts == amounts && this.deposited == deposited && this.due == due
      ensures checked == CheckedStatus(deposited, amounts) && amount == 0
    {
      var status := GetCheckedStatus(deposited, amounts);
      CheckedStatusPrefixClosed(deposited, amounts);
      this.amounts := amounts;
      this.deposited := deposited;
      this.due := due;
      initialStatus := status;
      checked := status;
      amount := 0;
    }

    /** The `onChange` of checkbox i, which is now `target`. */
    method OnCheckboxChange(i: nat, target: bool)
      requires Valid()
      requires i < |amounts|
      modifies this
      ensures Valid()
      ensures checked == CheckedAtIndex(if target then i else i - 1, old(checked))
      ensures amount == DepositAmount(checked, amounts, deposited)
      ensures amount == Max(PrefixSum(amounts, if target then i + 1 else i) - deposited, 0)
      ensures due == Max(Sum(amounts) - deposited, 0) ==> !ShowsOverDueWarning()
      ensures IsDepositDisabled() <==> PrefixSum(amounts, if target then i + 1 else i) <= deposited
    {
      var newChecked := if target then CheckedAtIndex(i, checked) else CheckedAtIndex(i - 1, checked);
      var newAmount := DepositAmount(newChecked, amounts, deposited);
      CheckboxAmount(i, target, checked, amounts, deposited);
      checked := newChecked;
      amount := newAmount;
      if due == Max(Sum(amounts) - deposited, 0) {
        CheckboxAmountWarnings(i, target, old(checked), amounts, deposited, due);
      }
    }

    /**
     * The `onChange` of the amount field: `None` for an emptied field,
     * otherwise the parsed amount.
     */
    method OnAmountInput(input: Option<int>)
      requires Valid()
      modifies this
      ensures Valid()
      ensures input.Some? ==> amount == input.value && checked == CheckedStatus(deposited + input.value, amounts)
      ensures input.None? ==> amount == 0 && checked == initialStatus
      ensures input.Some? ==> (ShowsOverDueWarning() <==> input.value > due)
      ensures IsDepositDisabled() <==> input.None? || input.value <= 0
    {
      if input.Some? {
        var newAmount := input.value;
        amount := newAmount;
        checked := GetCheckedStatus(deposited + newAmount, amounts);
        CheckedStatusPrefixClosed(deposited + newAmount, amounts);
      } else {
        amount := 0;
        checked := initialStatus;
        CheckedStatusPrefixClosed(deposited, amounts);
      }
    }

    /** Whether the "greater than the due amount" warning shows. */
    predicate ShowsOverDueWarning()
      reads this
    {
      OverDue(amount, due)
    }

    /** Whether the Deposit button is disabled. */
    predicate IsDepositDisabled()
      reads this
    {
      DepositDisabled(amount)
    }
  }
}
