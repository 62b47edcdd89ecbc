/**
 * The invoice reconciliation of the Smart Invoice utilities: from one invoice
 * record (milestone amounts, deposit, release, dispute and resolution events)
 * and the escrow's balances it derives totals, per-milestone funding status, a
 * best-effort deposit-to-milestone attribution, the exact release-to-milestone
 * attribution, the dispute pairing and the action flags.
 *
 * Absent fields are `None`; the wall clock is the parameter `nowMs`.
 */
module InvoiceUtils {
  import opened Wrappers
  import opened Sums

  // ---------------------------------------------------------------------------
  // Data model
  // ---------------------------------------------------------------------------

  datatype Deposit = Deposit(txHash: string, sender: string, amount: nat, timestamp: int)

  /** A release names the milestone the escrow contract paid out. */
  datatype Release = Release(txHash: string, milestone: int, amount: nat, timestamp: int)

  datatype Dispute = Dispute(txHash: string, sender: string, timestamp: int)

  datatype Resolution = Resolution(txHash: string, resolver: string, timestamp: int)

  /** The fields of an invoice record that the derivation reads. */
  datatype Invoice = Invoice(
    amounts: Option<seq<nat>>,
    deposits: Option<seq<Deposit>>,
    releases: Option<seq<Release>>,
    disputes: Option<seq<Dispute>>,
    resolutions: Option<seq<Resolution>>,
    isLocked: bool,
    terminationTime: Option<int>,  // epoch seconds
    currentMilestone: Option<int>,
    resolver: string)

  datatype TokenMetadata = TokenMetadata(decimals: nat, symbol: string)

  datatype TokenBalance = TokenBalance(value: nat, decimals: nat, symbol: string)

  /** Instant-payment fields, carried into the snapshot unchanged. */
  datatype InstantDetails = InstantDetails(deadline: Option<int>, lateFee: Option<nat>, lateFeeTimeInterval: Option<nat>)

  /** What the resolver helpers answered for this invoice's resolver. */
  datatype ResolverLookup = ResolverLookup(isKnown: bool, knownName: Option<string>)

  /** The two display labels of `depositedMilestonesString`; `None` is `undefined`. */
  datatype MilestoneLabel = Deposited | PartiallyDeposited

  datatype DisputeState = DisputeState(dispute: Option<Dispute>, resolution: Option<Resolution>)

  /** The snapshot assembled by `getInvoiceDetails`. */
  datatype InvoiceDetails = InvoiceDetails(
    invoice: Invoice,
    currentMilestoneNumber: Option<int>,
    total: nat,
    deposited: Option<nat>,
    due: Option<nat>,
    currentMilestoneAmount: nat,
    depositedMilestones: seq<bool>,
    depositedMilestonesDisplay: seq<Option<MilestoneLabel>>,
    depositedTxs: seq<Option<Deposit>>,
    releasedTxs: seq<Option<Release>>,
    resolverName: Option<string>,
    dispute: Option<Dispute>,
    resolution: Option<Resolution>,
    isExpired: bool,
    isReleasable: bool,
    isLockable: bool,
    isWithdrawable: bool,
    tokenMetadata: TokenMetadata,
    tokenBalance: TokenBalance,
    nativeBalance: TokenBalance,
    instantDetails: Option<InstantDetails>)

  /** JavaScript truthiness of an optional bigint: `undefined` and `0n` are falsy. */
  predicate Truthy(x: Option<nat>) {
    x.Some? && x.value != 0
  }

  /** The milestone amounts; lodash reads a missing collection as empty. */
  function Amounts(inv: Invoice): seq<nat> {
    inv.amounts.GetOr([])
  }

  function DepositAmounts(ds: seq<Deposit>): seq<nat> {
    seq(|ds|, i requires 0 <= i < |ds| => ds[i].amount)
  }

  lemma DepositAmountsAppend(ds: seq<Deposit>, d: Deposit)
    ensures DepositAmounts(ds + [d]) == DepositAmounts(ds) + [d.amount]
  {
  }

  // ---------------------------------------------------------------------------
  // Totals
  // ---------------------------------------------------------------------------

  /** The sum of the deposit amounts; `undefined` only when there is no deposit list. */
  function TotalDeposited(inv: Invoice): (r: Option<nat>)
    ensures r.None? <==> inv.deposits.None?
    ensures inv.deposits == Some([]) ==> r == Some(0)
  {
    match inv.deposits
    case None => None
    case Some(ds) => Some(Sum(DepositAmounts(ds)))
  }

  /** The sum of the milestone amounts, 0 when there are none. */
  function TotalAmount(inv: Invoice): (r: nat)
    ensures inv.amounts.None? ==> r == 0
  {
    Sum(Amounts(inv))
  }

  /**
   * What is still owed. A falsy total deposited (none, or zero) or a zero total
   * makes it `undefined`; otherwise it is the shortfall, never negative.
   */
  function TotalDue(inv: Invoice): (r: Option<nat>)
    ensures r.None? <==> !Truthy(TotalDeposited(inv)) || TotalAmount(inv) == 0
    ensures r.Some? ==> r.value + Min(TotalDeposited(inv).value, TotalAmount(inv)) == TotalAmount(inv)
  {
    var deposited := TotalDeposited(inv);
    var total := TotalAmount(inv);
    if !Truthy(deposited) || total == 0 then None
    else if deposited.value > total then Some(0)
    else Some(total - deposited.value)
  }

  /** An append-only deposit log only ever raises the total deposited. */
  lemma TotalDepositedAppend(inv: Invoice, d: Deposit)
    requires inv.deposits.Some?
    ensures TotalDeposited(inv.(deposits := Some(inv.deposits.value + [d]))) == Some(TotalDeposited(inv).value + d.amount)
  {
    DepositAmountsAppend(inv.deposits.value, d);
    SumAppend(DepositAmounts(inv.deposits.value), d.amount);
  }

  // ---------------------------------------------------------------------------
  // Milestone status
  // ---------------------------------------------------------------------------

  /** Milestone i is deposited when a truthy total deposited covers the schedule through i. */
  function MilestoneFlags(inv: Invoice): seq<bool> {
    var amounts := Amounts(inv);
    var deposited := TotalDeposited(inv);
    seq(|amounts|, i requires 0 <= i < |amounts| =>
      Truthy(deposited) && deposited.value >= PrefixSum(amounts, i + 1))
  }

  /** `depositedMilestones`: the running-sum loop over the milestone amounts. */
  method DepositedMilestones(inv: Invoice) returns (r: seq<bool>)
    ensures r == MilestoneFlags(inv)
  {
    var amounts := Amounts(inv);
    var sum := 0;
    r := [];
    for i := 0 to |amounts|
      invariant sum == PrefixSum(amounts, i)
      invariant r == MilestoneFlags(inv)[..i]
    {
      PrefixSumStep(amounts, i);
      sum := sum + amounts[i];
      var amount := TotalDeposited(inv);
      var entry: bool;
      if !Truthy(amount) {
        entry := false;
      } else {
        entry := amount.value >= sum;
      }
      r := r + [entry];
    }
  }

  /**
   * Milestone i is labelled deposited when the total deposited covers the
   * schedule through i, partially deposited when it only goes beyond the
   * schedule before i, and has no label otherwise or when nothing is deposited.
   */
  function MilestoneLabels(inv: Invoice): seq<Option<MilestoneLabel>> {
    var amounts := Amounts(inv);
    var deposited := TotalDeposited(inv);
    seq(|amounts|, i requires 0 <= i < |amounts| =>
      if Truthy(deposited) && deposited.value >= PrefixSum(amounts, i + 1) then Some(Deposited)
      else if Truthy(deposited) && deposited.value > PrefixSum(amounts, i) then Some(PartiallyDeposited)
      else None)
  }

  /** `depositedMilestonesString`: the same loop, also keeping the sum before each milestone. */
  method DepositedMilestonesString(inv: Invoice) returns (r: seq<Option<MilestoneLabel>>)
    ensures r == MilestoneLabels(inv)
  {
    var amounts := Amounts(inv);
    var sum := 0;
    r := [];
    for i := 0 to |amounts|
      invariant sum == PrefixSum(amounts, i)
      invariant r == MilestoneLabels(inv)[..i]
    {
      PrefixSumStep(amounts, i);
      var prevAmount := sum;
      sum := sum + amounts[i];
      var deposited := TotalDeposited(inv);
      var entry: Option<MilestoneLabel>;
      if Truthy(deposited) && deposited.value >= sum {
        entry := Some(Deposited);
      } else if Truthy(deposited) && deposited.value > prevAmount {
        entry := Some(PartiallyDeposited);
      } else {
        entry := None;
      }
      r := r + [entry];
    }
  }

  /** The deposited milestones form a prefix of the schedule. */
  lemma MilestoneFlagsPrefixClosed(inv: Invoice, i: nat, j: nat)
    requires i <= j < |MilestoneFlags(inv)|
    requires MilestoneFlags(inv)[j]
    ensures MilestoneFlags(inv)[i]
  {
    PrefixSumMonotone(Amounts(inv), i + 1, j + 1);
  }

  /** The label is `deposited` exactly where `depositedMilestones` is true. */
  lemma LabelsAgreeWithFlags(inv: Invoice, i: nat)
    requires i < |Amounts(inv)|
    ensures |MilestoneLabels(inv)| == |MilestoneFlags(inv)| == |Amounts(inv)|
    ensures MilestoneLabels(inv)[i] == Some(Deposited) <==> MilestoneFlags(inv)[i]
  {
  }

  /**
   * The labels read deposited, deposited, ..., at most one partially deposited,
   * then nothing: every milestone before a labelled one is deposited.
   */
  lemma LabelsOrdered(inv: Invoice, i: nat, j: nat)
    requires i < j < |MilestoneLabels(inv)|
    requires MilestoneLabels(inv)[j].Some?
    ensures MilestoneLabels(inv)[i] == Some(Deposited)
  {
    PrefixSumMonotone(Amounts(inv), i + 1, j);
    PrefixSumStep(Amounts(inv), j);
  }

  lemma AtMostOnePartial(inv: Invoice, i: nat, j: nat)
    requires i < |MilestoneLabels(inv)| && j < |MilestoneLabels(inv)|
    requires MilestoneLabels(inv)[i] == Some(PartiallyDeposited)
    requires MilestoneLabels(inv)[j] == Some(PartiallyDeposited)
    ensures i == j
  {
    if i < j {
      LabelsOrdered(inv, i, j);
    } else if j < i {
      LabelsOrdered(inv, j, i);
    }
  }

  /** With nothing (or zero) deposited no milestone is deposited and none has a label. */
  lemma NothingDepositedNoStatus(inv: Invoice, i: nat)
    requires !Truthy(TotalDeposited(inv))
    requires i < |Amounts(inv)|
    ensures !MilestoneFlags(inv)[i] && MilestoneLabels(inv)[i].None?
  {
  }

  /** Appending a deposit never turns a deposited milestone back. */
  lemma DepositedStaysDeposited(inv: Invoice, d: Deposit, i: nat)
    requires inv.deposits.Some?
    requires i < |MilestoneFlags(inv)| && MilestoneFlags(inv)[i]
    ensures var after := inv.(deposits := Some(inv.deposits.value + [d]));
            i < |MilestoneFlags(after)| && MilestoneFlags(after)[i]
  {
    var after := inv.(deposits := Some(inv.deposits.value + [d]));
    TotalDepositedAppend(inv, d);
    var amounts := Amounts(inv);
    assert Amounts(after) == amounts;
    assert TotalDeposited(inv).value >= PrefixSum(amounts, i + 1);
    assert TotalDeposited(after).value >= TotalDeposited(inv).value;
    assert Truthy(TotalDeposited(after));
    assert MilestoneFlags(after)[i] == (Truthy(TotalDeposited(after)) && TotalDeposited(after).value >= PrefixSum(amounts, i + 1));
  }

  /**
   * With a truthy total deposited and a non-zero schedule, nothing is due
   * exactly when every milestone is deposited.
   */
  lemma NothingDueIffAllDeposited(inv: Invoice)
    requires Truthy(TotalDeposited(inv)) && TotalAmount(inv) > 0
    ensures TotalDue(inv) == Some(0) <==> forall i :: 0 <= i < |MilestoneFlags(inv)| ==> MilestoneFlags(inv)[i]
  {
    var amounts := Amounts(inv);
    var flags := MilestoneFlags(inv);
    PrefixSumWhole(amounts);
    if TotalDue(inv) == Some(0) {
      forall i | 0 <= i < |flags|
        ensures flags[i]
      {
        PrefixSumBounded(amounts, i + 1);
      }
    } else {
      assert |amounts| > 0;
      assert !flags[|amounts| - 1];
    }
  }

  // ---------------------------------------------------------------------------
  // Deposit attribution (heuristic)
  // ---------------------------------------------------------------------------

  /** `_.reverse` applied to a copy: the newest deposit comes first. */
  function Reverse<T>(s: seq<T>): seq<T> {
    seq(|s|, i requires 0 <= i < |s| => s[|s| - 1 - i])
  }

  /** Adding up the deposits newest first gives the same total. */
  lemma {:induction false} SumReverse(xs: seq<nat>)
    ensures Sum(Reverse(xs)) == Sum(xs)
  {
    if xs != [] {
      assert Reverse(xs) == Reverse(xs[1..]) + [xs[0]];
      SumReverse(xs[1..]);
      SumAppend(Reverse(xs[1..]), xs[0]);
      SumPrepend(xs[0], xs[1..]);
      assert [xs[0]] + xs[1..] == xs;
    }
  }

  lemma DepositAmountsReverse(ds: seq<Deposit>)
    ensures DepositAmounts(Reverse(ds)) == Reverse(DepositAmounts(ds))
  {
  }

  /**
   * Scanning `xs` from position `from`, the first position whose running sum
   * reaches `target`, or the last position when none does.
   */
  function FirstReachingFrom(xs: seq<nat>, target: int, from: nat): (k: nat)
    requires from < |xs|
    ensures from <= k < |xs|
    ensures PrefixSum(xs, k + 1) >= target || k == |xs| - 1
    ensures forall n :: from < n <= k ==> PrefixSum(xs, n) < target
    decreases |xs| - from
  {
    if PrefixSum(xs, from + 1) >= target || from == |xs| - 1 then from
    else FirstReachingFrom(xs, target, from + 1)
  }

  function FirstReaching(xs: seq<nat>, target: int): (k: nat)
    requires |xs| > 0
    ensures k < |xs|
  {
    FirstReachingFrom(xs, target, 0)
  }

  /** The two properties of `FirstReaching` single out one position. */
  lemma FirstReachingUnique(xs: seq<nat>, target: int, k: nat)
    requires k < |xs|
    requires PrefixSum(xs, k + 1) >= target || k == |xs| - 1
    requires forall n :: 0 < n <= k ==> PrefixSum(xs, n) < target
    ensures FirstReaching(xs, target) == k
  {
    var f := FirstReaching(xs, target);
    if f < k {
      assert false;
    } else if k < f {
      assert false;
    }
  }

  /**
   * Which deposit, counted from the oldest, the newest-first scan stops at:
   * the first one at which the sum reaches `amount`, or the oldest.
   */
  function FoundPosition(amount: int, ds: seq<Deposit>): (p: nat)
    requires ds != []
    ensures p < |ds|
  {
    |ds| - 1 - FirstReaching(DepositAmounts(Reverse(ds)), amount)
  }

  /**
   * The deposit credited with covering `amount`: scanning from the newest
   * deposit and adding up amounts, the first deposit at which the sum reaches
   * `amount`, or the oldest deposit when it never does. `undefined` without
   * deposits.
   */
  function FindDeposit(amount: int, deposits: Option<seq<Deposit>>): (r: Option<Deposit>)
    ensures r.None? <==> deposits.None? || deposits.value == []
    ensures r.Some? ==> r.value in deposits.value
  {
    match deposits
    case None => None
    case Some(ds) => if ds == [] then None else Some(ds[FoundPosition(amount, ds)])
  }

  /**
   * When the deposit k places back from the newest is the first at which the
   * newest-first sum reaches `amount` (or the oldest), that deposit is the one found.
   */
  lemma FindDepositNewestReaching(amount: int, ds: seq<Deposit>, k: nat)
    requires k < |ds|
    requires PrefixSum(DepositAmounts(Reverse(ds)), k + 1) >= amount || k == |ds| - 1
    requires forall n :: 0 < n <= k ==> PrefixSum(DepositAmounts(Reverse(ds)), n) < amount
    ensures FindDeposit(amount, Some(ds)) == Some(ds[|ds| - 1 - k])
  {
    FirstReachingUnique(DepositAmounts(Reverse(ds)), amount, k);
    FindDepositAt(amount, ds, |ds| - 1 - k);
  }

  lemma FindDepositAt(amount: int, ds: seq<Deposit>, p: nat)
    requires p < |ds| && FoundPosition(amount, ds) == p
    ensures FindDeposit(amount, Some(ds)) == Some(ds[p])
  {
  }

  /** When all deposits together fall short of `amount`, the oldest deposit is the one found. */
  lemma FindDepositOldestWhenShort(amount: int, ds: seq<Deposit>)
    requires ds != []
    requires Sum(DepositAmounts(ds)) < amount
    ensures FindDeposit(amount, Some(ds)) == Some(ds[0])
  {
    var xs := DepositAmounts(Reverse(ds));
    DepositAmountsReverse(ds);
    SumReverse(DepositAmounts(ds));
    forall n | 0 < n <= |ds| - 1
      ensures PrefixSum(xs, n) < amount
    {
      PrefixSumBounded(xs, n);
    }
    FindDepositNewestReaching(amount, ds, |ds| - 1);
  }

  /** `findDepositForAmount`: the `find` over the reversed copy with a running sum. */
  method FindDepositForAmount(amount: int, deposits: Option<seq<Deposit>>) returns (r: Option<Deposit>)
    ensures r == FindDeposit(amount, deposits)
  {
    if deposits.None? {
      return None;
    }
    var depositsReversed := Reverse(deposits.value);
    ghost var xs := DepositAmounts(depositsReversed);
    var sum := 0;
    var i := 0;
    while i < |depositsReversed|
      invariant 0 <= i <= |depositsReversed|
      invariant sum == PrefixSum(xs, i)
      invariant i > 0 ==> i < |xs|
      invariant forall n :: 0 < n <= i ==> PrefixSum(xs, n) < amount
    {
      PrefixSumStep(xs, i);
      sum := sum + depositsReversed[i].amount;
      if sum >= amount || i + 1 >= |depositsReversed| {
        FirstReachingUnique(xs, amount, i);
        return Some(depositsReversed[i]);
      }
      i := i + 1;
    }
    return None;
  }

  /**
   * Milestone i gets no deposit once the schedule before it already uses up the
   * total deposited; otherwise it gets the deposit found for the schedule
   * through i. No assignment at all without amounts or deposits.
   */
  function DepositAssignment(inv: Invoice): seq<Option<Deposit>> {
    if inv.amounts.None? || inv.deposits.None? then []
    else
      var amounts := inv.amounts.value;
      var deposited := Sum(DepositAmounts(inv.deposits.value));
      seq(|amounts|, i requires 0 <= i < |amounts| =>
        if PrefixSum(amounts, i) >= deposited then None
        else FindDeposit(PrefixSum(amounts, i + 1), inv.deposits))
  }

  /**
   * `assignDeposits`: the running sum stops growing at the first milestone it
   * already covers the total deposited, so every later milestone is skipped too.
   */
  method AssignDeposits(inv: Invoice) returns (r: seq<Option<Deposit>>)
    ensures r == DepositAssignment(inv)
  {
    if inv.amounts.None? || inv.deposits.None? {
      return [];
    }
    var amounts, deposits := inv.amounts.value, inv.deposits.value;
    var deposited := Sum(DepositAmounts(deposits));
    var sum := 0;
    r := [];
    for i := 0 to |amounts|
      invariant sum < deposited ==> sum == PrefixSum(amounts, i)
      invariant sum >= deposited ==> PrefixSum(amounts, i) >= deposited
      invariant r == DepositAssignment(inv)[..i]
    {
      PrefixSumStep(amounts, i);
      var entry: Option<Deposit>;
      if sum >= deposited {
        entry := None;
      } else {
        sum := sum + amounts[i];
        entry := FindDepositForAmount(sum, inv.deposits);
      }
      r := r + [entry];
    }
  }

  /** One entry per milestone whenever both lists are present. */
  lemma DepositAssignmentShape(inv: Invoice)
    ensures inv.amounts.Some? && inv.deposits.Some? ==> |DepositAssignment(inv)| == |inv.amounts.value|
    ensures inv.amounts.None? || inv.deposits.None? ==> DepositAssignment(inv) == []
  {
  }

  /** Every attributed deposit is one of the invoice's deposits. */
  lemma AssignedDepositsAreDeposits(inv: Invoice, i: nat)
    requires i < |DepositAssignment(inv)| && DepositAssignment(inv)[i].Some?
    ensures inv.deposits.Some? && DepositAssignment(inv)[i].value in inv.deposits.value
  {
  }

  /**
   * When every milestone amount is positive, a milestone is credited with a
   * deposit exactly when it carries a deposited or partially deposited label.
   */
  lemma FundingMatchesStatus(inv: Invoice, i: nat)
    requires inv.amounts.Some? && inv.deposits.Some?
    requires i < |inv.amounts.value|
    requires forall k :: 0 <= k < |inv.amounts.value| ==> inv.amounts.value[k] > 0
    ensures DepositAssignment(inv)[i].Some? <==> MilestoneLabels(inv)[i].Some?
  {
    var amounts := inv.amounts.value;
    PrefixSumStep(amounts, i);
    if inv.deposits.value == [] {
      assert DepositAmounts(inv.deposits.value) == [];
    }
  }

  // ---------------------------------------------------------------------------
  // Release attribution (exact)
  // ---------------------------------------------------------------------------

  /** From position `from`, the first release for milestone `i`, or `|rs|` when there is none. */
  function FirstReleaseIndex(rs: seq<Release>, i: int, from: nat): (k: nat)
    requires from <= |rs|
    ensures from <= k <= |rs|
    ensures k < |rs| ==> rs[k].milestone == i
    ensures forall j :: from <= j < k ==> rs[j].milestone != i
    decreases |rs| - from
  {
    if from == |rs| then from
    else if rs[from].milestone == i then from
    else FirstReleaseIndex(rs, i, from + 1)
  }

  /** `releases?.find(r => r.milestone === i)`. */
  function FindRelease(releases: Option<seq<Release>>, i: int): (r: Option<Release>)
    ensures r.None? <==> releases.None? || forall k :: 0 <= k < |releases.value| ==> releases.value[k].milestone != i
    ensures r.Some? ==> r.value.milestone == i && r.value in releases.value
    ensures r.Some? ==> forall k :: 0 <= k < |releases.value| && releases.value[k].milestone == i ==> r.value in releases.value[..k + 1]
  {
    match releases
    case None => None
    case Some(rs) =>
      var k := FirstReleaseIndex(rs, i, 0);
      if k < |rs| then
        assert rs[k] == rs[..k + 1][k];
        Some(rs[k])
      else None
  }

  /** `assignReleases`: the first release for each milestone index. */
  function AssignReleases(inv: Invoice): (r: seq<Option<Release>>)
    ensures |r| == |Amounts(inv)|
    ensures forall i :: 0 <= i < |r| && r[i].Some? ==>
              r[i].value.milestone == i && inv.releases.Some? && r[i].value in inv.releases.value
    ensures forall i :: 0 <= i < |r| ==> r[i] == FindRelease(inv.releases, i)
  {
    match inv.amounts
    case None => []
    case Some(amounts) => seq(|amounts|, i requires 0 <= i < |amounts| => FindRelease(inv.releases, i))
  }

  /** A release naming a milestone outside the schedule is never attributed. */
  lemma OutOfRangeReleaseIgnored(inv: Invoice, rel: Release)
    requires !(0 <= rel.milestone < |Amounts(inv)|)
    ensures Some(rel) !in AssignReleases(inv)
  {
  }

  /** A release naming a milestone inside the schedule gives that milestone an attribution. */
  lemma InRangeReleaseAttributed(inv: Invoice, rel: Release)
    requires inv.releases.Some? && rel in inv.releases.value
    requires 0 <= rel.milestone < |Amounts(inv)|
    ensures AssignReleases(inv)[rel.milestone].Some?
  {
    var rs := inv.releases.value;
    var k :| 0 <= k < |rs| && rs[k] == rel;
    assert rs[k].milestone == rel.milestone;
  }

  // ---------------------------------------------------------------------------
  // Flags
  // ---------------------------------------------------------------------------

  /**
   * Expired once a truthy termination time (seconds) is at or before
   * `nowMs / 1000`, the clock read in milliseconds turned into seconds.
   */
  function IsInvoiceExpired(inv: Invoice, nowMs: int): (r: bool)
    ensures r <==> inv.terminationTime.Some? && inv.terminationTime.value != 0 && inv.terminationTime.value * 1000 <= nowMs
  {
    match inv.terminationTime
    case None => false
    case Some(t) => if t == 0 then false else t as real <= nowMs as real / 1000.0
  }

  lemma ExpiredStaysExpired(inv: Invoice, earlier: int, later: int)
    requires earlier <= later
    requires IsInvoiceExpired(inv, earlier)
    ensures IsInvoiceExpired(inv, later)
  {
  }

  /**
   * The amount of the milestone `current` points at; 0 when `current` is
   * not a number, negative, or past the schedule.
   */
  function CurrentMilestoneAmount(inv: Invoice, current: Option<int>): (r: nat)
    ensures current.None? || current.value < 0 || current.value >= |Amounts(inv)| ==> r == 0
    ensures current.Some? && 0 <= current.value < |Amounts(inv)| ==> r == Amounts(inv)[current.value]
  {
    var amounts := Amounts(inv);
    if current.Some? && current.value < |amounts| then At(amounts, current.value).GetOr(0) else 0
  }

  /** Releasable when not locked and the balance covers a positive current milestone. */
  function IsMilestoneReleasable(inv: Invoice, tokenBalance: TokenBalance, current: Option<int>): (r: bool)
    ensures r <==> !inv.isLocked && CurrentMilestoneAmount(inv, current) > 0
                   && tokenBalance.value >= CurrentMilestoneAmount(inv, current)
  {
    var amount := CurrentMilestoneAmount(inv, current);
    if !inv.isLocked && amount != 0 && tokenBalance.value != 0 then
      tokenBalance.value >= amount && amount > 0
    else false
  }

  /** Lockable when not locked, not expired and something is held in escrow. */
  function IsLockable(inv: Invoice, tokenBalance: TokenBalance, nowMs: int): (r: bool)
    ensures r <==> !inv.isLocked && !IsInvoiceExpired(inv, nowMs) && tokenBalance.value > 0
  {
    if inv.isLocked || IsInvoiceExpired(inv, nowMs) then false
    else !inv.isLocked && !IsInvoiceExpired(inv, nowMs) && tokenBalance.value > 0
  }

  /** Withdrawable when expired and something is held in escrow. */
  function IsWithdrawable(inv: Invoice, tokenBalance: TokenBalance, nowMs: int): (r: bool)
    ensures r <==> IsInvoiceExpired(inv, nowMs) && tokenBalance.value > 0
  {
    IsInvoiceExpired(inv, nowMs) && tokenBalance.value != 0 && tokenBalance.value > 0
  }

  // ---------------------------------------------------------------------------
  // Disputes
  // ---------------------------------------------------------------------------

  /** `_.size` of a possibly missing list. */
  function Size<T>(s: Option<seq<T>>): nat {
    if s.Some? then |s.value| else 0
  }

  /** `s?.[0]`. */
  function First<T>(s: Option<seq<T>>): Option<T> {
    if s.Some? then At(s.value, 0) else None
  }

  /**
   * The first dispute and the first resolution; the resolution is withheld
   * while there are more disputes than resolutions.
   */
  function GetDisputeAndResolution(inv: Invoice): (r: DisputeState)
    ensures r.dispute.Some? <==> Size(inv.disputes) > 0
    ensures r.dispute.Some? ==> r.dispute.value == inv.disputes.value[0]
    ensures r.resolution.Some? <==> 0 < Size(inv.resolutions) && Size(inv.disputes) <= Size(inv.resolutions)
    ensures r.resolution.Some? ==> r.resolution.value == inv.resolutions.value[0]
  {
    var dispute := First(inv.disputes);
    var resolution := First(inv.resolutions);
    if Size(inv.disputes) > Size(inv.resolutions) then DisputeState(dispute, None)
    else DisputeState(dispute, resolution)
  }

  // ---------------------------------------------------------------------------
  // Snapshot
  // ---------------------------------------------------------------------------

  /**
   * `getInvoiceDetails`: no snapshot unless the invoice, the token metadata and
   * both balances are present; otherwise every derived field at once.
   */
  function GetInvoiceDetails(
    invoice: Option<Invoice>,
    tokenMetadata: Option<TokenMetadata>,
    tokenBalance: Option<TokenBalance>,
    nativeBalance: Option<TokenBalance>,
    instantDetails: Option<InstantDetails>,
    resolverLookup: ResolverLookup,
    nowMs: int): (r: Option<InvoiceDetails>)
    ensures r.None? <==> invoice.None? || tokenMetadata.None? || tokenBalance.None? || nativeBalance.None?
    ensures r.Some? ==>
      var d, inv := r.value, invoice.value;
      // the inputs, carried over
      && d.invoice == inv && d.currentMilestoneNumber == inv.currentMilestone
      && d.tokenMetadata == tokenMetadata.value && d.tokenBalance == tokenBalance.value
      && d.nativeBalance == nativeBalance.value && d.instantDetails == instantDetails
      && d.resolverName == (if resolverLookup.isKnown then resolverLookup.knownName else Some(inv.resolver))
      // the computed values, each the helper that defines it
      && d.total == TotalAmount(inv) && d.deposited == TotalDeposited(inv) && d.due == TotalDue(inv)
      && d.currentMilestoneAmount == CurrentMilestoneAmount(inv, inv.currentMilestone)
      && d.depositedMilestones == MilestoneFlags(inv) && d.depositedMilestonesDisplay == MilestoneLabels(inv)
      && d.depositedTxs == DepositAssignment(inv) && d.releasedTxs == AssignReleases(inv)
      && DisputeState(d.dispute, d.resolution) == GetDisputeAndResolution(inv)
      // and what they amount to
      && |d.depositedMilestones| == |d.depositedMilestonesDisplay| == |d.releasedTxs| == |Amounts(inv)|
      && (forall i :: 0 <= i < |d.depositedMilestones| ==>
            (d.depositedMilestones[i] <==> d.depositedMilestonesDisplay[i] == Some(Deposited)))
      && (d.due.Some? ==> d.deposited.Some? && d.due.value + Min(d.deposited.value, d.total) == d.total)
      && (d.isExpired <==> inv.terminationTime.Some? && inv.terminationTime.value != 0
                           && inv.terminationTime.value * 1000 <= nowMs)
      && (d.isReleasable <==> !inv.isLocked && 0 < d.currentMilestoneAmount <= d.tokenBalance.value)
      && (d.isLockable <==> !inv.isLocked && !d.isExpired && d.tokenBalance.value > 0)
      && (d.isWithdrawable <==> d.isExpired && d.tokenBalance.value > 0)
      && (d.resolution.Some? ==> Size(inv.disputes) <= Size(inv.resolutions))
  {
    if invoice.None? || tokenMetadata.None? || tokenBalance.None? || nativeBalance.None? then None
    else
      var inv, balance := invoice.value, tokenBalance.value;
      var current := inv.currentMilestone;
      var state := GetDisputeAndResolution(inv);
      Some(InvoiceDetails(
        invoice := inv,
        currentMilestoneNumber := current,
        total := TotalAmount(inv),
        deposited := TotalDeposited(inv),
        due := TotalDue(inv),
        currentMilestoneAmount := CurrentMilestoneAmount(inv, current),
        depositedMilestones := MilestoneFlags(inv),
        depositedMilestonesDisplay := MilestoneLabels(inv),
        depositedTxs := DepositAssignment(inv),
        releasedTxs := AssignReleases(inv),
        resolverName := if resolverLookup.isKnown then resolverLookup.knownName else Some(inv.resolver),
        dispute := state.dispute,
        resolution := state.resolution,
        isExpired := IsInvoiceExpired(inv, nowMs),
        isReleasable := IsMilestoneReleasable(inv, balance, current),
        isLockable := IsLockable(inv, balance, nowMs),
        isWithdrawable := IsWithdrawable(inv, balance, nowMs),
        tokenMetadata := tokenMetadata.value,
        tokenBalance := balance,
        nativeBalance := nativeBalance.value,
        instantDetails := instantDetails))
  }

  /** Lock and withdrawal are never offered together. */
  lemma LockableExcludesWithdrawable(inv: Invoice, tokenBalance: TokenBalance, nowMs: int)
    ensures !(IsLockable(inv, tokenBalance, nowMs) && IsWithdrawable(inv, tokenBalance, nowMs))
  {
  }
}
