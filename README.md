# Smart Invoice: invoice arithmetic and the deposit form

This project models, in Dafny, the part of Smart Invoice that turns an escrow
invoice into what its dashboard shows. An invoice is a schedule of milestone
payments held in escrow, with its deposits, releases, disputes and
resolutions. The model covers:

- `packages/utils/src/invoice.ts`:
  - the totals: deposited, scheduled and due;
  - which milestones count as deposited or partially deposited;
  - the heuristic that attributes milestones to deposit transactions;
  - the attribution of releases to milestones;
  - the expiry, release, lock and withdraw flags;
  - the dispute/resolution pair;
  - the `getInvoiceDetails` snapshot that assembles all of these.
- `packages/dapp/components/DepositFunds.tsx`: the milestone checkboxes of
  the client's payment form:
  - which boxes start checked;
  - what checking or unchecking a box selects;
  - the deposit amount that selection asks for;
  - the over-due warning and the disabled Deposit button.

Modules:

- `Wrappers` (`wrappers.dfy`): `Option` for JavaScript's `undefined`, and a
  bounds-checked index `At` for `arr[i]`, which reads `undefined` out of
  range.
- `Sums` (`sums.dfy`): `Sum` and `PrefixSum` over milestone and deposit
  amounts, with their algebra.
- `InvoiceUtils` (`invoice.dfy`): the entities (`Invoice`, `Deposit`,
  `Release`, `Dispute`, `Resolution`, the token records and the
  `InvoiceDetails` snapshot) and every computation of `invoice.ts`. The
  running-sum loops become methods (`DepositedMilestones`,
  `DepositedMilestonesString`, `FindDepositForAmount`, `AssignDeposits`).
  Each is proved equal to a specification function, and the snapshot and
  the lemmas are stated over that function.
- `DepositFunds` (`deposit_funds.dfy`): the form's pure helpers, plus the
  `DepositFundsState` class. The class holds the form's props and its
  `checked`/`amount` React state. Its methods are the two `onChange`
  handlers, and each keeps the invariant that `checked` is a prefix of the
  schedule.
- `InvoiceExamples` (`invoice_examples.dfy`): worked invoices, which are
  concrete schedules and deposit logs, with the labels, the amount due and
  the attribution derived for them.

Semantics made explicit:

- A bigint of 0 is falsy. `Truthy(x)` means "present and non-zero", so with
  nothing deposited `totalDue` is `undefined` and no milestone is deposited.
- lodash's `_.map`, `_.reduce` and `_.size` treat a missing list as empty
  (`Amounts`, `Size`).
- `Number(undefined)` is `NaN`, and `NaN < n` is false. The current
  milestone is an `Option<int>`, with `None` for `NaN`.
- `terminationTime <= Date.now() / 1000` is a comparison of reals. It is
  proved equivalent to `terminationTime * 1000 <= nowMs`.
- Amounts are `uint256` values, modelled as `nat`. The form's
  `deposited + parsed input` may be any `int`.

Behaviour a reader might not expect, modelled as the code has it:

- With an empty deposit list the total deposited is 0, which is falsy. So
  `totalDue` is `undefined`, not the whole schedule
  (`EmptyDepositsNoDueExample`).
- `getDisputeAndResolution` takes the first dispute and the first
  resolution (index 0), not the most recent ones.
- A release whose milestone index is outside the schedule is silently
  ignored, not reported (`OutOfRangeReleaseIgnored`).
- `getCheckedStatus` compares strictly (`deposited > sum`), while
  `depositedMilestones` uses `>=`. A milestone paid exactly is "deposited"
  on the invoice, but its box in the form is neither pre-checked nor
  disabled (`ExactPaymentNotPreChecked`).
- `invoice.ts` computes no late-fee accrual. Its only late-fee logic is the
  `getDeadlineLabel` display string. The instant-payment page reads the
  accrued total from the escrow contract, and that page is not part of this
  model.

## Model

| member | source | states |
|---|---|---|
| InvoiceUtils.TotalDeposited | packages/utils/src/invoice.ts:25-32 | undefined exactly when the invoice has no deposit list; an empty list gives 0 |
| InvoiceUtils.TotalDepositedAppend | packages/utils/src/invoice.ts:25-32 | appending a deposit raises the total deposited by exactly its amount |
| InvoiceUtils.TotalAmount | packages/utils/src/invoice.ts:124-134 | a missing schedule totals 0 |
| InvoiceUtils.TotalDue | packages/utils/src/invoice.ts:136-144 | undefined exactly when the total deposited is falsy or the schedule totals 0; otherwise due plus min(deposited, total) is the total, so due is the shortfall and never negative |
| InvoiceUtils.NothingDueIffAllDeposited | packages/utils/src/invoice.ts:34-44 | with something deposited and a non-zero schedule, nothing is due if and only if every milestone is flagged deposited |
| InvoiceUtils.DepositedMilestones | packages/utils/src/invoice.ts:34-44 | the running-sum loop flags milestone i exactly when a truthy total deposited covers the schedule through i |
| InvoiceUtils.MilestoneFlagsPrefixClosed | packages/utils/src/invoice.ts:34-44 | a deposited milestone has every earlier milestone deposited too |
| InvoiceUtils.DepositedStaysDeposited | packages/utils/src/invoice.ts:34-44 | appending a deposit never turns a deposited milestone back |
| InvoiceUtils.DepositedMilestonesString | packages/utils/src/invoice.ts:46-62 | the loop labels milestone i "deposited" when the total covers the schedule through i, "partially deposited" when it only exceeds the schedule before i, and nothing otherwise |
| InvoiceUtils.LabelsAgreeWithFlags | packages/utils/src/invoice.ts:34-62 | labels and flags have one entry per milestone, and the label is "deposited" if and only if the flag is set |
| InvoiceUtils.LabelsOrdered | packages/utils/src/invoice.ts:46-62 | every milestone before a labelled one is fully deposited |
| InvoiceUtils.AtMostOnePartial | packages/utils/src/invoice.ts:46-62 | at most one milestone is partially deposited |
| InvoiceUtils.NothingDepositedNoStatus | packages/utils/src/invoice.ts:40-41 | with a falsy total deposited no milestone is flagged or labelled |
| InvoiceUtils.FirstReachingFrom | packages/utils/src/invoice.ts:78-82 | the `find` predicate: the first position at or after `from` whose running sum reaches the target, or the last position |
| InvoiceUtils.FirstReachingUnique | packages/utils/src/invoice.ts:78-82 | any position meeting the stop condition with no earlier running sum reaching the target is the one `find` returns |
| InvoiceUtils.FindDeposit | packages/utils/src/invoice.ts:69-83 | undefined exactly when there is no deposit list or it is empty; otherwise one of the invoice's deposits |
| InvoiceUtils.FindDepositForAmount | packages/utils/src/invoice.ts:69-83 | the loop over the reversed deposits returns the same deposit as the specification |
| InvoiceUtils.FindDepositNewestReaching | packages/utils/src/invoice.ts:75-82 | newest first, the deposit found is the first whose running sum reaches the amount |
| InvoiceUtils.FindDepositOldestWhenShort | packages/utils/src/invoice.ts:78-82 | when all deposits together fall short of the amount, the oldest deposit is returned |
| InvoiceUtils.AssignDeposits | packages/utils/src/invoice.ts:91-109 | the loop matches the specification: a milestone gets no deposit once the schedule before it reaches the total deposited, and otherwise the deposit found for the schedule through it |
| InvoiceUtils.DepositAssignmentShape | packages/utils/src/invoice.ts:92-93 | one entry per milestone when both lists exist, and none when either is missing |
| InvoiceUtils.AssignedDepositsAreDeposits | packages/utils/src/invoice.ts:100-108 | every assigned deposit is one of the invoice's deposits |
| InvoiceUtils.FundingMatchesStatus | packages/utils/src/invoice.ts:99-108 | for a schedule of positive amounts, a milestone gets a deposit if and only if it is labelled deposited or partially deposited |
| InvoiceUtils.FirstReleaseIndex | packages/utils/src/invoice.ts:116 | the index of the first release for milestone i past `from`, or the end |
| InvoiceUtils.FindRelease | packages/utils/src/invoice.ts:116 | undefined if and only if no release names milestone i; otherwise the earliest release naming it |
| InvoiceUtils.AssignReleases | packages/utils/src/invoice.ts:111-122 | one entry per milestone; entry i is the release `FindRelease` gives for milestone i, so it is undefined if and only if no release names i, and otherwise the earliest release of the invoice for i |
| InvoiceUtils.OutOfRangeReleaseIgnored | packages/utils/src/invoice.ts:114-119 | a release whose milestone lies outside the schedule is attributed to no milestone |
| InvoiceUtils.InRangeReleaseAttributed | packages/utils/src/invoice.ts:114-119 | a release for a milestone in the schedule leaves that milestone with a release |
| InvoiceUtils.IsInvoiceExpired | packages/utils/src/invoice.ts:146-151 | expired if and only if the termination time is truthy and, in milliseconds, at or before the clock |
| InvoiceUtils.ExpiredStaysExpired | packages/utils/src/invoice.ts:146-151 | once expired, an invoice stays expired as the clock advances |
| InvoiceUtils.CurrentMilestoneAmount | packages/utils/src/invoice.ts:153-160 | the amount of the current milestone when it indexes the schedule; 0 for NaN, negative or past the end |
| InvoiceUtils.IsMilestoneReleasable | packages/utils/src/invoice.ts:162-174 | releasable if and only if unlocked and the balance covers a positive current milestone amount |
| InvoiceUtils.IsLockable | packages/utils/src/invoice.ts:176-183 | lockable if and only if unlocked, unexpired and holding a positive balance |
| InvoiceUtils.IsWithdrawable | packages/utils/src/invoice.ts:304-307 | withdrawable if and only if expired and holding a positive balance |
| InvoiceUtils.LockableExcludesWithdrawable | packages/utils/src/invoice.ts:176-183 | lock and withdraw are never offered together |
| InvoiceUtils.GetDisputeAndResolution | packages/utils/src/invoice.ts:219-227 | the dispute is the first one, present if and only if there is one; the first resolution is reported if and only if there is one and disputes do not outnumber resolutions |
| InvoiceUtils.GetInvoiceDetails | packages/utils/src/invoice.ts:229-321 | no snapshot if and only if the invoice, token metadata or a balance is missing. Otherwise every field is given: the inputs carried over, each computed field the helper that defines it, and the dispute pair. Flags and labels have one entry per milestone and agree, due is the shortfall, expiry is the termination time in milliseconds at or before the clock, and each of the release, lock and withdraw flags holds if and only if its conditions do |
| InvoiceExamples.PartialScheduleExample | packages/utils/src/invoice.ts:46-62 | schedule 100/200/300 with 150 deposited: deposited, partially deposited, nothing; 450 due |
| InvoiceExamples.FullyPaidExample | packages/utils/src/invoice.ts:136-144 | a schedule paid in full has every milestone deposited and 0 due |
| InvoiceExamples.EmptyDepositsNoDueExample | packages/utils/src/invoice.ts:136-144 | an empty deposit list totals 0, so due is undefined and no milestone is deposited or attributed |
| DepositFunds.GetCheckedStatus | packages/dapp/components/DepositFunds.tsx:39-45 | the loop checks box i exactly when the deposit is strictly above the schedule through i |
| DepositFunds.CheckedStatusPrefixClosed | packages/dapp/components/DepositFunds.tsx:39-45 | the pre-checked boxes form a prefix of the schedule |
| DepositFunds.CheckedStatusMonotone | packages/dapp/components/DepositFunds.tsx:236-238 | entering a larger amount never unchecks a box |
| DepositFunds.CheckedImpliesDeposited | packages/dapp/components/DepositFunds.tsx:39-45 | a box pre-checked for the invoice's total deposited is a milestone the invoice calls deposited |
| DepositFunds.ExactPaymentNotPreChecked | packages/dapp/components/DepositFunds.tsx:43 | for every invoice and milestone: when the total deposited equals the positive schedule through that milestone, the invoice calls it deposited but its box is not pre-checked |
| DepositFunds.CheckedAtIndex | packages/dapp/components/DepositFunds.tsx:47-48 | selects one box per milestone, forming a prefix |
| DepositFunds.CheckedAtIndexIgnoresValues | packages/dapp/components/DepositFunds.tsx:47-48 | the new selection does not depend on the old one |
| DepositFunds.UncheckFirstClearsAll | packages/dapp/components/DepositFunds.tsx:179-181 | unchecking the first box clears every box |
| DepositFunds.DepositAmount | packages/dapp/components/DepositFunds.tsx:182-189 | the amount is never negative, at least the selected total less the deposit, and either 0 or exactly that difference |
| DepositFunds.CheckedTotalUpTo | packages/dapp/components/DepositFunds.tsx:182-186 | selecting the boxes up to an index totals the schedule through that index |
| DepositFunds.CheckboxAmount | packages/dapp/components/DepositFunds.tsx:178-189 | checking box i asks for the schedule through i less the deposit; unchecking it asks for the schedule before i less the deposit; never below 0 |
| DepositFunds.CheckedTotal | packages/dapp/components/DepositFunds.tsx:182-186 | the selected total never exceeds the schedule's total; with every box ticked it is the whole schedule, and with none ticked it is 0 |
| DepositFunds.CheckboxChangeAsWritten | packages/dapp/components/DepositFunds.tsx:178-194 | the handler as written throws exactly when a bigint has no `gte` method; if it had one, the result would be the prefix selection and its deposit amount |
| DepositFunds.CheckboxChangeThrowsAsWritten | packages/dapp/components/DepositFunds.tsx:182-189 | as written, the checkbox handler throws for every input, because a bigint has no `gte` method |
| DepositFunds.OverDue | packages/dapp/components/DepositFunds.tsx:265 | the warning shows when the amount exceeds due; with a non-negative due, an amount that warns never disables Deposit |
| DepositFunds.DepositDisabled | packages/dapp/components/DepositFunds.tsx:319 | Deposit is disabled for an amount of 0 or less |
| DepositFunds.CheckboxAmountWarnings | packages/dapp/components/DepositFunds.tsx:265-319 | an amount chosen with the boxes never exceeds the schedule's shortfall, and disables Deposit exactly when the selected milestones are already covered |
| DepositFunds.DepositFundsState.constructor | packages/dapp/components/DepositFunds.tsx:72-82 | the first render selects the pre-checked boxes with amount 0 |
| DepositFunds.DepositFundsState.OnCheckboxChange | packages/dapp/components/DepositFunds.tsx:178-193 | the new selection is the prefix through the box, or before it when unchecked; the amount is what that selection asks for; with due the schedule's shortfall there is no over-due warning; Deposit is disabled exactly when the selected milestones are already covered; the prefix invariant is kept |
| DepositFunds.DepositFundsState.OnAmountInput | packages/dapp/components/DepositFunds.tsx:230-243 | a typed amount rechecks the boxes it covers beyond the deposit; an emptied field resets to amount 0 and the pre-checked boxes; the warning shows exactly for a typed amount above due; Deposit is disabled exactly for an emptied field or a non-positive amount; the prefix invariant is kept |

## Left out

- `parseMilestoneAmounts` and the display strings are left out because they are formatting by floating point and string conversion. The display strings are `currentMilestoneAmountDisplay`, `resolverFeeDisplay` and `getDeadlineLabel`.
- `invoice.ts` computes no late-fee accrual, so there is none to model. The instant-payment page derives its late-fee total from reads of the escrow contract, and that page is not part of this model. The late-fee fields are carried as `InstantDetails`.
- The foreign helpers are left out. These are `chainByName`, `getResolverInfo`, `getResolverFee` and `convertByte32ToIpfsCidV0` (`detailsHash`). They are lookups and decodings outside this model.
- `isKnownResolver` is left out. The resolver name is chosen from a `ResolverLookup` parameter that stands for its answer.
- The clock is the parameter `nowMs`. The source reads `Date` at each call of `isInvoiceExpired`; the snapshot model uses one reading for all of them.
- `async` and the `try`/`catch` of `getInvoiceDetails` are left out. The modelled computations do not throw. The model assumes the left-out helpers inside the `try` do not throw either: `formatUnits`, `parseMilestoneAmounts`, `convertByte32ToIpfsCidV0`, `resolverFeeLabel`, and `getDeadlineLabel` with `getDateString`. If one of them throws, the source returns `null` with every input present, where `GetInvoiceDetails` returns a snapshot.
- The object spreads `...invoice` and `...instantDetails` become the fields `invoice` and `instantDetails`. Which keys of `instantDetails` would override computed fields is not modelled.
- Amounts are modelled as `nat`, without a `uint256` bound. No modelled operation can overflow a JavaScript bigint.
- Numbers that are not integers are not modelled. Termination times and milestone indexes are integers; `NaN` is `None`.
- That the helpers do not mutate their input holds by construction, because every entity is a value.
- The form's `deposit` handler is left out because it is wallet I/O. This includes its balance check, which compares `formatUnits` strings lexicographically.
- The form's balance effect, `paymentType`, `txHash` and the loading states are left out because they are wallet and transaction I/O.
- The "Potential Dispute Fee" text is left out because it is display only.
- `parseUnits` of the typed amount is left out. `OnAmountInput` receives the parsed value, and parse errors are left out.
- The form is modelled only with both props defined. The component's caller is not part of this model, so the model assumes `deposited` and `due` are defined bigints, as their declared `bigint` types say. The component's `!== undefined` guards, and what an `undefined` prop would do, are not modelled: no warning, no pre-checked box, and a throw in the amount handler.
- `DepositFunds.DepositFundsState.OnCheckboxChange` accepts any box. The form additionally disables pre-checked boxes (`isDisabled`), and that restriction is not required.

## Findings

| source | as written | input that shows it | evidently intended | confidence | as-written member | corrected member |
|---|---|---|---|---|---|---|
| packages/dapp/components/DepositFunds.tsx:187 | `totAmount.gte(deposited)` calls a BigNumber-style method on a native bigint, which has none, so the checkbox `onChange` throws before updating `checked` or `amount` | ticking or unticking any milestone box, for any schedule and deposit | `totAmount >= deposited`, asking for the selected total less the deposit, never below 0 | not executed; high: `gte` is not among the methods a bigint has, its own (`BigInt.prototype`) or inherited (`Object.prototype`), and no `gte` is defined elsewhere in the source | DepositFunds.CheckboxChangeAsWritten, DepositFunds.CheckboxChangeThrowsAsWritten | DepositFunds.DepositFundsState.OnCheckboxChange |
