# Verified model of the property-management backend

A Dafny model of the backend's row-mutating services: what one call writes, what every run of
calls keeps, and where a documented promise stops holding.

| file | part of the backend |
|---|---|
| `Outcomes.dfy` | results and exceptions shared by the services |
| `Numbering.dfy` | display codes: printing, MAX+1 under the table lock, the cap at 5000, unit codes |
| `Calendar.dfy` | lease-end dates on civil day numbers |
| `Ledger.dfy` | invoices and receipts in cents, each call as a read and a write, and the service class |
| `Interleaving.dfy` | billing calls in flight together |
| `Rounding.dfy` | real payment amounts against numeric(12,2) columns |
| `Occupancy.dfy` | units, tenants, leases and the calls that link them, overlapping creations |
| `OccupancyRaces.dfy` | creations, terminations and blacklistings in flight together |
| `Leasing.dfy` | lease creation as one transaction over occupancy, codes, terms and invoices |
| `Sessions.dfy`, `AuthService.dfy`, `SessionOutcomes.dfy` | tokens, users, access-token versions: the calls, the service class, when each call goes through |
| `SessionSafety.dfy`, `TokenLife.dfy` | what runs of those calls keep, how long each token works |
| `RotationRaces.dfy`, `LinkRaces.dfy` | overlapping redemptions of refresh tokens and of links |
| `Template.dfy` | placeholder substitution |
| `Reports.dfy` | buckets, rent rolls, maintenance groups |
| `OverdueJob.dfy` | the notify-once job, its executions overlapping or not, among all billing activity |
| `Tally.dfy` | counting what unfinished activities still hold |

Each service that overwrites rows is a class whose methods are proved equal to functions on table
values; the run theorems are about those functions. Rows are never deleted by the modelled calls, so
a row's index stands for its id. Reference points outside the repository: dates follow section 21.4.1
of ECMA-262; rotation with reuse detection is in the style of section 4.14.2 of RFC 9700.

## What was found

- **Money.** Serial runs conserve money exactly, and so does each invoice on which no two calls
  overlap. Overlapping payments can charge twice, never forgive debt; a payment shifts the books by
  exactly how stale its read was. An edit that writes while a payment is in flight can forgive debt,
  and the exact range of safe totals is proved. An edit that writes after a payment it did not see
  gives a paid invoice its full balance back, contrary to the comment on `update`; that is the only
  step that breaks the reading of its guard. A void and a payment that overlap can end in a paid
  invoice marked void or a voided one marked paid.
- **Occupancy.** `ARCHITECTURE.md` section 8 and the comment on `create` call a lease the sole source of truth for
  occupancy. That holds in a serial run exactly while no leaseholder is blacklisted. Blacklisting
  vacates a unit without ending the lease, after which terminating that lease evicts whoever holds
  the unit. The model follows the code and proves the weaker links that always hold and the exact
  check that keeps the stronger one. Terminating a blacklisted tenant's own lease also takes the
  tenant off the blacklist. Calls whose guards overlap keep the bijection exactly while each write
  passes a check stated for it: creations sharing a tenant or a unit and a second termination of one
  lease can break it, and a creation that overlaps a blacklisting undoes the blacklisting.
- **Leasing.** A lease needs an invoice number: when those run out below 5000 no lease can be created.
- **Rounding.** A payment that leaves more than nothing but less than half a cent strands the invoice
  as `partial` with a zero balance.
- **Sessions.** An access token lives exactly until a password change, reset, log-out everywhere or
  suspension, and is usable while its user is active. A suspended user who still has an invite link
  outstanding becomes active by accepting it. A refresh token presented while it is being redeemed
  is accepted twice and forks the session without the reuse being noticed, and one in flight outlives
  a log-out everywhere. A link opened while it is being redeemed works twice.
- **Numbering.** The sequences capped below 5000 end: 3986 invoice numbers from the seeded or an empty
  table, 3987 receipt numbers from the seeded payments, and then every insert is refused.
  Unit codes can collide across properties once a property passes 100 units.
- **Calendar.** The whole-months law fails exactly for years 0 to 99, which `Date.UTC` reads as 19xx.
- **Overdue job.** The stamp comes after the query, so executions that overlap can notify twice.
- **Templates.** A token named like a property the variables object inherits is replaced by that property.

## Model

| member | source | states |
|---|---|---|
| Numbering.PaddedRoundTrip | src/leases/leases.service.ts:70-77 | the padded print of a number, cut and cast as the query does, reads back as that number at every width |
| Numbering.CodesRead | src/leases/leases.service.ts:74-77 | codes are the prefix and at least two digits, padded no further, that say the number |
| Numbering.SeventhAndHundredth | src/leases/leases.service.ts:74-77 | L-07, L-100 and U-101 are printed as such |
| Numbering.MaxIsInTable | src/leases/leases.service.ts:70-74 | the queried maximum is the largest number of the table, or 0 |
| Numbering.LeaseCodesAreGapFree | src/leases/leases.service.ts:66-93 | in every interleaving of lease transactions with commits and rollbacks, committed codes continue the table's sequence without gap or repeat |
| Numbering.NewLeaseCodesAreFresh | src/leases/leases.service.ts:70-77 | no newly committed code was in the starting table |
| Numbering.TransactionsProgress | src/leases/leases.service.ts:66-93 | ending a transaction frees the lock, and one that finds it free and runs through adds the next code |
| Numbering.TxNextKeepsAllocating | src/leases/leases.service.ts:66-93 | each step keeps: only the lock holder has a row in flight, and it carries the next number |
| Numbering.LockIsNeeded | src/leases/leases.service.ts:68 | without the table lock two transactions draw one code and the second row is lost |
| Numbering.MaxBelowCap | src/invoices/invoices.service.ts:58-62 | the filtered maximum is a table number below 5000 |
| Numbering.CappedMaxBounds | src/invoices/invoices.service.ts:58-62 | and no table number below 5000 exceeds it |
| Numbering.CappedSequence | src/invoices/invoices.service.ts:58-63 | exactly 5000 minus the starting maximum attempts succeed, in order and fresh; every later one repeats 5000 and is refused |
| Numbering.InvoiceSequence | src/invoices/invoices.service.ts:58-63 | invoice numbers from the seeded invoices table or an empty one: 1015 to 5000, 3986 of them, then only refusals |
| Numbering.ReceiptSequence | src/payments/payments.service.ts:82-87 | receipt numbers from the seeded payments table: 1014 to 5000, 3987 of them; from an empty one as invoices |
| Numbering.UnitsService.Create | src/units/units.service.ts:32-79 | the new row carries the code its property's row count gives; a repeated label is a conflict and writes nothing |
| Numbering.CreationOutcome | src/units/units.service.ts:32-79 | a unit is added exactly when its property has no unit of that label, at the end, under one more than the property's units |
| Numbering.UnitCodesDistinctInProperty | src/units/units.service.ts:39-51 | inside a property the code determines the sequence number at any size |
| Numbering.UnitCodesCollideAt101 | src/units/units.service.ts:39-51 | unit 101 of property p prints like unit 1 of property 10p + 1 |
| Numbering.UnitCodeLimit | src/units/units.service.ts:39-51 | codes are distinct across properties if and only if no property may pass 100 units |
| Numbering.UnitCodesOfRuns | src/units/units.service.ts:32-79 | in every run of creations, from any table whose codes count its rows, no code repeats inside a property, nor across properties of at most 100 units |
| Numbering.UnitCodesCollideInRuns | src/units/units.service.ts:39-51 | every run that gives property p 101 units and property 10p + 1 one unit repeats a code |
| Numbering.CollidingRun | src/units/units.service.ts:39-51 | and such a run exists for every property |
| Calendar.YearFromDay | src/common/date.util.ts:22-24 | the year recovered from a day number is the one whose days contain it |
| Calendar.DateFromDayCorrect | src/common/date.util.ts:22-25 | the civil date recovered from any day number is valid and has that day number |
| Calendar.CivilRoundTrip | src/common/date.util.ts:22-25 | day number and civil date are inverse on every valid date, leap days included |
| Calendar.MonthLengths | src/common/date.util.ts:20-26 | the length of every month of every year, by the 30-day months and the 4/100/400 rule |
| Calendar.DaysAreCounted | src/common/date.util.ts:22-25 | day 0 is 1 January 1970 and numbers go up by one from each day to the next |
| Calendar.JsDate.SetUTCMonth | src/common/date.util.ts:23 | the month setter keeps year and day and lets the day overflow |
| Calendar.JsDate.SetUTCDate | src/common/date.util.ts:24 | the day setter moves the time by the difference in days |
| Calendar.AddMonthsMinusDay | src/common/date.util.ts:20-26 | the two setters in sequence compute `LeaseEnd`, for every start and any number of months |
| Calendar.LeaseSpan | src/common/date.util.ts:15-26 | the inclusive span is the summed length of that many calendar months from the start's month, if and only if the year is 100 or later |
| Calendar.MonthLeaseEndsWithMonth | src/common/date.util.ts:20-26 | a one-month lease from the first of any month ends on the month's last day |
| Calendar.LeaseSplits | src/common/date.util.ts:20-26 | an (a+b)-month lease ends with an a-month lease followed by a b-month one if and only if the start's day exists in the month a later or the two month lengths agree |
| Calendar.EarlyStartsSplit | src/common/date.util.ts:20-26 | for days 1 to 28 leases always split and the second starts on the same day of the month |
| Calendar.EndsOutOfOrder | src/common/date.util.ts:20-26 | exactly when a later start ends earlier |
| Calendar.EarlyStartsMonotone | src/common/date.util.ts:20-26 | the end is monotone in the start for days 1 to 28 |
| Calendar.JanuaryOutOfOrder | src/common/date.util.ts:20-26 | 31 January ends on 2 March, 1 February on 28 February, for one-month leases |
| Ledger.ParseItems | src/invoices/invoices.service.ts:122-132 | succeeds exactly when every row is a pair with a non-negative amount, keeping order; otherwise names the first bad row |
| Ledger.BillingService.CreateForLease | src/invoices/invoices.service.ts:48-80 | appends a due invoice whose amount and balance are the item sum, or writes nothing when the number is taken |
| Ledger.BillingService.Update | src/invoices/invoices.service.ts:87-104 | replaces items, amount and balance under the guards, or writes nothing |
| Ledger.BillingService.Void | src/invoices/invoices.service.ts:107-119 | flips the status under the guards, or writes nothing |
| Ledger.BillingService.FindPayable | src/payments/payments.service.ts:62-75 | the checks and the capped amount of `record`, read before its transaction |
| Ledger.BillingService.CommitReceipt | src/payments/payments.service.ts:77-108 | inserts the receipt and writes the balance computed from the earlier read |
| Ledger.BillingService.Record | src/payments/payments.service.ts:61-108 | the two together, with nothing in between |
| Ledger.ApplyKeepsExact | src/payments/payments.service.ts:61-108 | every call keeps balance + receipts = amount = item sum and the status reading |
| Ledger.SerialRunsBalance | src/invoices/invoices.service.ts:48-119 | money is conserved exactly in every serial run and the status is determined by the ledger |
| Ledger.GuardMeansNoReceipt | src/invoices/invoices.service.ts:93-97 | after any serial run the guard balance = amount means exactly that no receipt exists |
| Ledger.IssueOutcome | src/invoices/invoices.service.ts:48-80 | exactly when an invoice is issued, and the whole row it appends |
| Ledger.PaymentOutcome | src/payments/payments.service.ts:56-108 | exactly when a payment is taken, and every column it writes: the receipt, and the balance and status of one invoice |
| Ledger.ItemsRoundTrip | src/invoices/invoices.service.ts:122-132 | stored items sent back as a request parse to themselves |
| Ledger.EditOutcome | src/invoices/invoices.service.ts:87-104 | in balanced books exactly when an edit goes through, what it bills, and that sending the old items back undoes it |
| Ledger.VoidIsFinal | src/invoices/invoices.service.ts:107-119 | exactly when a void goes through; no later serial run changes the row or records a receipt against it |
| Ledger.BillingRefusals | src/payments/payments.service.ts:62-75 | which refusal a payment, an edit or a void meets |
| Ledger.CollectedIsIncome | src/reports/reports.service.ts:105-115 | after serial runs the "Collected" figure equals the sum of all receipts |
| Interleaving.NextKeepsSound | src/payments/payments.service.ts:61-108 | each step, reads and writes apart, keeps every balance within 0 and the amount and backed by receipts |
| Interleaving.NoDebtForgiven | src/payments/payments.service.ts:61-108 | under every interleaving of payments and voids, and of edits writing with no payment in flight on their invoice, a stale write never forgives debt |
| Interleaving.CollectedAtMostIncome | src/reports/reports.service.ts:105-115 | in the same runs the amount collected never exceeds the receipts |
| Interleaving.EditKeepsGuardExactly | src/invoices/invoices.service.ts:82-97 | an edit's write keeps "balance below amount means a receipt exists" if and only if no receipt stands against its invoice |
| Interleaving.NextKeepsGuardExactly | src/invoices/invoices.service.ts:93-97 | the only step that breaks that reading is an edit writing over a receipt recorded since its check |
| Interleaving.GuardSurvivesRaces | src/invoices/invoices.service.ts:93-97 | in interleavings of payments, voids and edits without such a step the guard still means exactly that no receipt exists |
| Interleaving.EditOverwritesPayment | src/invoices/invoices.service.ts:82-104 | the run in which a paid amount is silently rewritten, which the comment on `update` rules out |
| Interleaving.EditFreeMeetsBoth | src/payments/payments.service.ts:61-108 | runs without edits meet the conditions of the interleaving results, whatever overlaps in them |
| Interleaving.NextKeepsVoidExactly | src/invoices/invoices.service.ts:106-119 | the only step after which a void invoice has receipts is a void writing over a receipt recorded since its check |
| Interleaving.VoidMeansUnpaid | src/invoices/invoices.service.ts:106-119 | in every interleaving without such a step void means nothing was paid |
| Interleaving.VoidIsFinalInRaces | src/invoices/invoices.service.ts:107-119 | a voided invoice stays void and unpaid in every interleaving if no payment on it was in flight when the void was written |
| Interleaving.PaymentOverwritesVoid | src/payments/payments.service.ts:99-103 | a payment that was in flight turns the void invoice paid or partial as it writes |
| Interleaving.VoidAfterPayment | src/invoices/invoices.service.ts:107-119 | the run that voids a paid invoice |
| Interleaving.PaymentAfterVoid | src/payments/payments.service.ts:61-108 | the run that pays a voided one |
| Interleaving.StalenessIsDrift | src/payments/payments.service.ts:99-103 | a payment's write moves balance + receipts by exactly how stale its read was and touches no other invoice |
| Interleaving.OverlapChargesTwice | src/payments/payments.service.ts:61-108 | two overlapping full payments both go through: twice the money against a zero balance |
| Interleaving.EditDuringPayment | src/invoices/invoices.service.ts:87-104 | an edit written inside a payment leaves the books safe if and only if the new total lies in a stated range |
| Interleaving.EditForgivesDebt | src/invoices/invoices.service.ts:87-104 | the run in which an edit inside a payment leaves an increased total paid without the money |
| Interleaving.HistoryIsAppendOnly | src/payments/payments.service.ts:89-97 | no interleaving changes a recorded receipt or an invoice's number or due date |
| Interleaving.NumbersRunOn | src/payments/payments.service.ts:79-90 | in every interleaving receipt and invoice numbers continue the starting tables consecutively and stop at 5000 |
| Interleaving.SerialIsNoOverlap | src/payments/payments.service.ts:61-108 | calls that do not overlap give exactly the serial semantics |
| Interleaving.NoOverlapIsExact | src/payments/payments.service.ts:61-108 | hence equality, and not only the inequality, when no two calls overlap |
| Interleaving.ApartIsExact | src/payments/payments.service.ts:61-108 | an invoice's books stay exact as long as no two calls on that invoice overlap, whatever overlaps elsewhere |
| Rounding.StoreSplits | src/invoices/entities/invoice.entity.ts:66-70 | receipt and balance rounded separately add up, but for one cent on an exact half-cent amount |
| Rounding.StoreIsNearest | src/payments/entities/payment.entity.ts:37 | a column holds the nearest cent, halves going up |
| Rounding.RecordOutcome | src/payments/payments.service.ts:61-108 | when a real payment is taken; the receipt is what was paid, the balance what was owed less that, each to the nearest cent, and when the invoice is paid |
| Rounding.WholeCentsArePay | src/payments/payments.service.ts:61-108 | on whole cents it is the ledger's payment: receipts, balance and status alike |
| Rounding.RecordStep | src/payments/payments.service.ts:71-103 | one payment drifts by a cent exactly on a half-cent amount and lowers the balance by at least a cent |
| Rounding.DriftCountsHalfCents | src/payments/entities/payment.entity.ts:37 | after any payments the drift is the number of half-cent payments, at most one cent a receipt, and receipts never outnumber the cents owed |
| Rounding.StrandedExactly | src/payments/payments.service.ts:99-103 | the invoice is left partial with a zero balance if and only if the rest is between nothing and half a cent |
| Rounding.StrandedStaysPartial | src/payments/payments.service.ts:67-69 | such an invoice refuses every later payment |
| Rounding.StatusFollowsBalance | src/payments/payments.service.ts:99-103 | without such payments the status still reads the balance |
| Occupancy.OccupancyService.Create | src/leases/leases.service.ts:39-124 | the guards in order, then lease, unit and tenant rows, or no write at all |
| Occupancy.OccupancyService.FindLiveLease | src/leases/leases.service.ts:50-55 | finds an active or ending lease of the tenant, or there is none |
| Occupancy.CreationAccepted | src/leases/leases.service.ts:40-60 | a creation is accepted exactly when both rows exist, the unit is vacant, the tenant is not blacklisted and every lease naming the tenant has ended |
| Occupancy.CreationRefusals | src/leases/leases.service.ts:40-60 | which refusal a creation meets |
| Occupancy.CreationOutcome | src/leases/leases.service.ts:66-113 | all an accepted creation writes in the three tables; a refused one writes nothing |
| Occupancy.TerminationOutcome | src/leases/leases.service.ts:191-205 | exactly when a termination is accepted, and all it writes |
| Occupancy.BlacklistingOutcome | src/tenants/tenants.service.ts:127-150 | exactly when a blacklisting is accepted, and all it writes |
| Occupancy.OccupancyService.TerminateLease | src/leases/leases.service.ts:191-205 | ends the lease and vacates its unit and tenant unconditionally |
| Occupancy.OccupancyService.BlacklistTenant | src/tenants/tenants.service.ts:127-150 | vacates the tenant's unit if any and clears the tenant, leaving leases alone |
| Occupancy.ApplyKeepsConsistent | src/tenants/tenants.service.ts:127-173 | each call keeps the one-directional links between the three tables |
| Occupancy.RunsStayConsistent | src/leases/leases.service.ts:39-60 | so does every serial run, blacklisting included |
| Occupancy.OccupiedUnitHasOneLease | src/leases/leases.service.ts:39-60 | an occupied unit names a tenant in good standing who names it back and has one live lease, on it |
| Occupancy.GoodStandingMeansLeased | src/tenants/tenants.service.ts:157-173 | in every serial run a tenant is active (or on notice) exactly when it points at a unit, and then has exactly one live lease, on it |
| Occupancy.TerminateHousedExactly | src/leases/leases.service.ts:198-202 | terminating keeps live leases backed by their units if and only if no other tenant holds the lease's unit |
| Occupancy.ApplyKeepsHoused | src/leases/leases.service.ts:191-205 | no other call breaks that, and this one exactly then |
| Occupancy.CarefulRunsStayHoused | src/leases/leases.service.ts:191-205 | a run making that check before each termination keeps every live lease of an unblacklisted tenant housed |
| Occupancy.BijectiveIsHoused | src/leases/leases.service.ts:32-38 | given the links that always hold, the bijection with matching properties is exactly every live lease housed and none a blacklisted tenant's |
| Occupancy.BlacklistBijectiveExactly | src/tenants/tenants.service.ts:127-150 | blacklisting keeps the bijection if and only if the tenant holds no live lease |
| Occupancy.ApplyBijectiveExactly | src/tenants/tenants.service.ts:127-173 | blacklisting a leaseholder is the one call that breaks the bijection, and it always does |
| Occupancy.BijectionExactly | src/leases/leases.service.ts:32-38 | a serial run keeps unit pointers, tenant pointers and live leases one bijection all along if and only if it never blacklists a tenant with a live lease |
| Occupancy.BlacklistBreaksTheConverse | src/tenants/tenants.service.ts:134-153 | the concrete four-call run after which a live lease's unit is vacant |
| Occupancy.BlacklistingLastsUntilTermination | src/tenants/tenants.service.ts:169-173 | a blacklisted tenant leaves the blacklist exactly when one of its live leases is terminated |
| Occupancy.TerminateUndoesCreate | src/leases/leases.service.ts:187-205 | terminating straight after creating restores every unit row, and the same tenant may take the same unit again |
| Occupancy.OverlappingBatchExactly | src/leases/leases.service.ts:40-66 | any number of creations that all pass the guards before one writes leave the bijection intact if and only if no two share a tenant or a unit |
| Occupancy.OverlappingPairExactly | src/leases/leases.service.ts:40-66 | two of them are harmless exactly when the second would also pass its guards after the first has written |
| Occupancy.OverlappingLeases | src/leases/leases.service.ts:40-66 | the witness: two tenants, one unit, two live leases |
| OccupancyRaces.UninterruptedIsApply | src/leases/leases.service.ts:39-66 | a call that finishes straight after its guards is the serial call |
| OccupancyRaces.WriteExactly | src/leases/leases.service.ts:191-205 | a creation, termination or blacklisting that writes after others have keeps the bijection if and only if a stated check still passes at its write |
| OccupancyRaces.RacesExactly | src/leases/leases.service.ts:40-66 | however these calls overlap, the bijection holds all along if and only if every write passes that check |
| OccupancyRaces.BlacklistingUndoneExactly | src/tenants/tenants.service.ts:157-173 | the two writes that take a tenant off the blacklist |
| OccupancyRaces.CreationUndoesBlacklisting | src/leases/leases.service.ts:46-48 | the run in which a creation that checked before a blacklisting makes the tenant active again |
| OccupancyRaces.SecondTerminationEvicts | src/leases/leases.service.ts:191-205 | the run in which the second of two terminations of one lease evicts the next tenant |
| Leasing.LeasingService.CreateLease | src/leases/leases.service.ts:39-124 | guards, code, term, lease row, first invoice, unit and tenant, with the lease row undone when the invoice is refused |
| Leasing.CreateOutcome | src/leases/leases.service.ts:39-124 | exactly when a lease is made, over the rows and the numbers left, and what it writes in all four tables; otherwise nothing |
| Leasing.ApplyKeepsWhole | src/leases/leases.service.ts:66-113 | each call of the three services keeps the occupancy links, the balanced books and one first invoice of its own per lease |
| Leasing.LeasesFollowInvoices | src/invoices/invoices.service.ts:48-80 | in every serial run of the three services leases and invoices grow together, codes without gap, and no more leases are made than invoice numbers are left below 5000 |
| Leasing.NoNumberNoLease | src/invoices/invoices.service.ts:58-63 | once invoice numbers have run out no lease can be created again |
| Sessions.FindRefresh | src/auth/token.service.ts:134-136 | a row found has the hash; none found means no row has it |
| AuthService.Service.IssueRefreshToken | src/auth/token.service.ts:101-119 | appends an unrevoked row, or refuses a digest already stored |
| AuthService.Service.RotateRefreshToken | src/auth/token.service.ts:130-160 | rotation with its four refusals; reuse revokes the family before refusing |
| AuthService.Service.RevokeRefreshToken | src/auth/token.service.ts:163-168 | stamps the one row if unrevoked, else nothing |
| AuthService.Service.RevokeAllForUser | src/auth/token.service.ts:171-173 | the row loop equals `RevokeAll` |
| AuthService.Service.IssueToken | src/auth/token.service.ts:58-80 | retires outstanding tokens, then inserts; a refused insert leaves the retirement |
| AuthService.Service.RedeemToken | src/auth/token.service.ts:83-97 | consumes a known, unused, unexpired token of the purpose |
| AuthService.Service.ApplyAndSaveStatus | src/users/users.service.ts:231-246 | the status change with its refusals; suspending bumps the version and revokes all |
| AuthService.Service.UpdateUserStatus | src/users/users.service.ts:203-208 | applies a status only when it differs |
| AuthService.Service.ToggleUserStatus | src/users/users.service.ts:212-225 | flips active and suspended, refusing invited users |
| AuthService.Service.InviteNewUser | src/users/users.service.ts:94-160 | refuses a registered e-mail, else creates an invited user without password and issues the invite token |
| AuthService.Service.ResendUserInvite | src/users/users.service.ts:163-179 | only for a user still invited |
| AuthService.Service.RegisterFirst | src/auth/auth.service.ts:53-77 | open only while there are no users |
| AuthService.Service.SignIn | src/auth/auth.service.ts:81-107 | the credential and status checks; success hands out a validating access token and one new refresh token |
| AuthService.Service.RefreshSession | src/auth/auth.service.ts:109-124 | rotation, then revocation of everything if the user is not active |
| AuthService.Service.SignOutEverywhere | src/auth/auth.service.ts:131-135 | with a valid access token every refresh token of the user is revoked, the version is one higher and nobody else is touched |
| AuthService.Service.RequestReset | src/auth/auth.service.ts:143-159 | silent for unknown or suspended users, else a reset token |
| AuthService.Service.ResetWithToken | src/auth/auth.service.ts:161-181 | a valid link sets the password and ends every session of its user, and only theirs; a refused one writes nothing |
| AuthService.Service.AcceptWithToken | src/auth/auth.service.ts:184-200 | redeem, set password and activate, open a session |
| AuthService.Service.ChangeOwnPassword | src/auth/auth.service.ts:202-222 | a valid access token and the current password are required; then the new password holds and every session of the user is over |
| SessionOutcomes.UpdateStatusOutcome | src/users/users.service.ts:203-246 | exactly when a status change is accepted, over user, actor, present and next status, and all it writes; a refused one writes nothing |
| SessionOutcomes.ToggleStatusOutcome | src/users/users.service.ts:212-246 | the same for the toggle |
| SessionOutcomes.OwnAccountIsSafe | src/users/users.service.ts:232-234 | nobody takes the status from their own active account; the call writes nothing |
| SessionOutcomes.ActiveEndsExactly | src/users/users.service.ts:231-246 | an active account stops being active exactly by somebody else's status change |
| SessionOutcomes.InvitedActivatesExactly | src/users/users.service.ts:241-243 | an invited account becomes active exactly by accepting its own invite |
| SessionOutcomes.AdministratorStaysActive | src/users/users.service.ts:231-246 | in every serial run an administrator's account stays active until somebody else changes its status |
| SessionOutcomes.RegisterOutcome | src/auth/auth.service.ts:53-77 | exactly when registration is open, and the account it makes |
| SessionOutcomes.LoginOutcome | src/auth/auth.service.ts:81-107 | exactly when signing in succeeds, over the account row; no account changes |
| SessionOutcomes.SignInRefusals | src/auth/auth.service.ts:81-103 | a wrong password is answered like an unknown account; the status shows only with the password |
| SessionOutcomes.RefreshOutcome | src/auth/token.service.ts:130-160 | exactly when a refresh token is exchanged, over its row and its user's, and for which access token |
| SessionOutcomes.OwnSessionsOutcome | src/auth/strategies/jwt.strategy.ts:36-51 | exactly which access tokens end all sessions or change the password, and the account row after |
| SessionOutcomes.RedeemOutcome | src/auth/token.service.ts:83-97 | exactly when a link is redeemed, over its row, and for which user |
| SessionOutcomes.ResetOutcome | src/auth/auth.service.ts:161-181 | the account row after a reset |
| SessionOutcomes.AcceptOutcome | src/auth/auth.service.ts:184-200 | exactly when an invite is accepted, and the account row after |
| SessionOutcomes.MailOutcome | src/users/users.service.ts:138-179 | exactly who is mailed a reset link, a repeated invite or a first one |
| SessionSafety.ChainStart | src/auth/entities/refresh-token.entity.ts:5-12 | every refresh token descends by rotations from the first token of a session of the same user |
| SessionSafety.ChainsAreDisjoint | src/auth/entities/refresh-token.entity.ts:5-12 | from only one, at only one place: chains are disjoint and acyclic |
| SessionSafety.OnlyLastUnrevoked | src/auth/token.service.ts:154-157 | only the last link of a chain can be unrevoked |
| SessionSafety.CallKeepsSound | src/auth/auth.service.ts:53-222 | every call keeps the token invariant; opening a session adds one chain and nothing else does |
| SessionSafety.RunsStaySound | src/auth/token.service.ts:101-173 | so does every serial run: one chain per session, and a suspended user never holds an unrevoked refresh token |
| SessionSafety.OneChainPerSession | src/auth/entities/refresh-token.entity.ts:5-12 | in every serial run each refresh token lies on exactly one chain, at one place, and there are as many chains as sessions opened |
| SessionSafety.EmailsStayUnique | src/users/users.service.ts:102-106 | in every serial run no two accounts share an e-mail |
| SessionSafety.RunEvolves | src/auth/token.service.ts:54-173 | in every serial run rows keep their identity, revocation and use are permanent and bear the time they happened at |
| SessionSafety.AcceptedOnce | src/auth/token.service.ts:121-160 | a refresh token is accepted at most once, whatever calls follow |
| RotationRaces.UninterruptedIsRefresh | src/auth/token.service.ts:130-160 | a redemption finished straight after its read is the serial refresh |
| RotationRaces.NextKeepsRecorded | src/auth/token.service.ts:154-157 | each step of overlapping redemptions keeps every redeemed row revoked |
| RotationRaces.AcceptedOnceInRaces | src/auth/token.service.ts:121-160 | however redemptions and other calls overlap, tokens are accepted at most once as long as none is presented while another attempt is redeeming it; exactly then once all are answered |
| RotationRaces.OverlapForksSession | src/auth/token.service.ts:130-160 | two overlapping redemptions of one token are both accepted and leave two working successors |
| RotationRaces.KillExactly | src/auth/auth.service.ts:131-222 | a password change, reset, log-out everywhere or suspension leaves its user no refresh token, now or on the way, if and only if none of theirs is being redeemed as it is made |
| RotationRaces.KilledForGoodInRaces | src/auth/auth.service.ts:131-222 | then no refresh token of the user works again in any race until a new session is opened |
| RotationRaces.InFlightOutlivesKill | src/auth/auth.service.ts:109-124 | a redemption in flight hands out a token that works after such a call if and only if the call left the user active |
| RotationRaces.RefreshOutlivesLogout | src/auth/auth.service.ts:109-135 | the run in which a refresh outlives a log-out everywhere |
| SessionSafety.ReuseEndsEverySession | src/auth/token.service.ts:142-148 | presenting a revoked token leaves its user no unrevoked token and every other user unchanged |
| SessionSafety.SuccessorIsAcceptable | src/auth/token.service.ts:154-159 | the token a refresh hands out is itself accepted |
| SessionSafety.RedeemedOnce | src/auth/token.service.ts:82-97 | an invite or reset link works once in every serial run |
| LinkRaces.UninterruptedIsCall | src/auth/auth.service.ts:161-200 | a link finished straight after its read is the serial call |
| LinkRaces.NextKeepsRecorded | src/auth/token.service.ts:83-97 | each step of overlapping redemptions keeps every redeemed link used up |
| LinkRaces.RedeemedOnceInRaces | src/auth/token.service.ts:83-97 | however redemptions and other calls overlap, links are redeemed at most once as long as none is opened while another attempt is redeeming it; exactly then once all are answered |
| LinkRaces.OverlapResetsTwice | src/auth/auth.service.ts:161-181 | two overlapping redemptions of one reset link both set the password |
| SessionSafety.ReissueRetires | src/auth/token.service.ts:54-59 | issuing a new link retires every earlier one of that user and purpose for good |
| TokenLife.RefreshStep | src/auth/token.service.ts:130-173 | which calls end a refresh token; every other call leaves its row untouched |
| TokenLife.RefreshTokenLife | src/auth/token.service.ts:130-173 | an accepted refresh token is accepted after a run if and only if no such call was made and its time has not run out |
| TokenLife.IssuedRefreshLife | src/auth/token.service.ts:101-119 | the refresh token handed out with an access token lives, for the same user, exactly the configured time unless ended |
| TokenLife.LinkStep | src/auth/token.service.ts:54-97 | which calls spend an invite or reset link; every other call leaves it untouched |
| TokenLife.LinkLife | src/auth/token.service.ts:83-97 | a link can be redeemed after a run, by its user and for its purpose only, if and only if no such call was made and its time has not run out |
| TokenLife.MailedLinkLife | src/auth/token.service.ts:58-80 | every link an invite, a resend or a forgotten password mails works for its user exactly the purpose's configured time unless spent |
| SessionSafety.VersionStep | src/users/users.service.ts:236-239 | the version moves by one on exactly the calls that end every session |
| SessionSafety.AccessTokenLife | src/auth/strategies/jwt.strategy.ts:36-51 | an access token minted now validates after a run if and only if no such call was made for its user and the user ends active |
| SessionSafety.KilledForGood | src/users/entities/user.entity.ts:54-60 | after such a call no earlier access or refresh token of the user works again in any serial run, reactivation included |
| SessionSafety.MintedTokensValidate | src/auth/auth.service.ts:231-251 | every access token handed out validates in the state the call leaves |
| SessionSafety.NewPasswordSignsIn | src/auth/auth.service.ts:81-107 | after a password is set, exactly that password signs the active user in |
| SessionSafety.SuspensionEnds | src/auth/auth.service.ts:184-200 | a suspension ends exactly by an administrator's status change or by accepting an outstanding invite |
| SessionSafety.SuspendedInviteeReactivates | src/users/users.service.ts:252-258 | the concrete run in which a suspended invitee becomes active |
| Template.MatchIsToken | src/notifications/notifications.service.ts:112 | the greedy scan matches at a position exactly when a token stands there |
| Template.WordClass | src/notifications/notifications.service.ts:112 | the characters of a token's name, by code point |
| Template.TokeniseIsLeftmost | src/notifications/notifications.service.ts:111-113 | the scan's pieces are a leftmost, non-overlapping cut of the text |
| Template.LeftmostUnique | src/notifications/notifications.service.ts:111-113 | which is the only such cut |
| Template.RenderMeetsSpecification | src/notifications/notifications.service.ts:66-70 | reading the cut back restores the text, replacing each token by its value gives the rendered text, and values go in unexpanded |
| Template.RenderAround | src/notifications/notifications.service.ts:111-113 | whatever surrounds a token, it renders to its own value between the renderings of the texts around it |
| Template.TenantNameIsReplaced | src/notifications/notifications.service.ts:66-70 | `{{tenant_name}}` takes its value anywhere in any text |
| Template.UnknownTokensSurvive | src/notifications/notifications.service.ts:68-70 | a token without a value survives verbatim in every text, known tokens beside it or not |
| Template.UntouchedText | src/notifications/notifications.service.ts:111-113 | a text none of whose tokens has a value comes out verbatim |
| Template.NoBracesNoChange | src/notifications/notifications.service.ts:111-113 | a text without doubled opening braces comes out verbatim |
| Template.EmptyVarsIdentity | src/notifications/notifications.service.ts:111-113 | with no variables rendering is the identity if and only if no inherited property is named by a word |
| Template.ConstructorIsReplaced | src/notifications/notifications.service.ts:111-113 | `{{constructor}}` is replaced although no variable is given |
| Template.ValuesAreNotExpanded | src/notifications/notifications.service.ts:111-113 | a value that is itself a token stays text in one pass |
| Reports.PaymentTrends | src/reports/reports.service.ts:212-223 | the twelve buckets are the consecutive months ending now, each holding exactly its month's receipts |
| Reports.OneMoreReceipt | src/reports/reports.service.ts:219-223 | a receipt counts in full for the month of its date and for no other |
| Reports.BucketsPartitionWindow | src/reports/reports.service.ts:219-223 | the buckets sum to exactly the receipts dated in the window |
| Reports.BarsInRange | src/reports/reports.service.ts:225-231 | every bar is 0 to 100 percent and the tallest is 100 once it reaches a shilling |
| Reports.PercentIsNearest | src/reports/reports.service.ts:226-231 | a printed percentage is the nearest whole one, halves going up |
| Reports.Tallest | src/reports/reports.service.ts:225 | the scale is at least one shilling and no total exceeds it |
| Reports.PeakOf | src/reports/reports.service.ts:239 | the peak is the first maximum |
| Reports.LettingAddsRent | src/reports/reports.service.ts:177-185 | letting a vacant unit adds its rent to its property's roll and to the total, and to no other roll |
| Reports.VacantEarnsNothing | src/reports/reports.service.ts:177-185 | vacant units earn nothing |
| Reports.RollsSumToTotal | src/reports/reports.service.ts:177-185 | rent rolls sum to the portfolio total |
| Reports.SharesSumNear100 | src/reports/reports.service.ts:195 | n rounded shares sum to within n/2 of 100 |
| Reports.MaintenanceSummary | src/reports/reports.service.ts:349-365 | the loop's entries are the categories in order of first occurrence, each with its own figures |
| Reports.OneMoreRequest | src/reports/reports.service.ts:349-378 | what one request adds to its category's row and to the headline figures, and that no other row changes |
| Reports.CountIsOpenPlusDone | src/reports/reports.service.ts:352-358 | every row's count is its open plus its completed requests |
| Reports.SummaryLosesNothing | src/reports/reports.service.ts:367-378 | the rows sum to the headline counts and cost |
| OverdueJob.CandidatesAreOverdue | src/invoices/entities/invoice.entity.ts:93-99 | the job's candidates are exactly the overdue invoices minus those due today and those already stamped |
| OverdueJob.TodayIsUtcDate | src/invoices/invoice-overdue.job.ts:35 | the date of an instant is the civil UTC day it lies in |
| OverdueJob.OverdueMeansUnpaid | src/invoices/entities/invoice.entity.ts:93-99 | in balanced books overdue means due day begun, not void and not paid in full |
| OverdueJob.Candidates | src/invoices/invoice-overdue.job.ts:35-42 | the query returns every candidate once, in order, and nothing else |
| OverdueJob.CheckOverdueInvoices | src/invoices/invoice-overdue.job.ts:33-57 | the loop fires for exactly the candidates, stamps each with its own reading of the clock, and changes nothing else of any invoice |
| OverdueJob.NextKeepsTracked | src/invoices/invoice-overdue.job.ts:44-57 | each event keeps stamps equal to fired triggers |
| OverdueJob.PromisedStep | src/invoices/invoice-overdue.job.ts:35-57 | an execution promises its candidates as it begins, and no event drops or adds a promised trigger otherwise |
| OverdueJob.NotifiedAtMostOnce | src/invoices/invoice-overdue.job.ts:11-21 | with any number of overlapping executions, no invoice is notified twice if none begins with a candidate still waiting in another; exactly then once all lists are worked through |
| OverdueJob.SequentialNotifiesOnce | src/invoices/invoice-overdue.job.ts:33-57 | executions that do not overlap notify no invoice twice |
| OverdueJob.OverlapNotifiesTwice | src/invoices/invoice-overdue.job.ts:33-57 | two executions that begin together notify an invoice twice |
| OverdueJob.CandidatesAreNotified | src/invoices/invoice-overdue.job.ts:33-57 | every candidate of an execution has been notified when that execution has worked through its list |
| OverdueJob.LoopIsRun | src/invoices/invoice-overdue.job.ts:44-57 | the loop is the run of the execution's single steps with only the clock in between |
| OverdueJob.JobLeavesBooks | src/invoices/invoice-overdue.job.ts:44-57 | apart from billing calls no event writes anything but stamps |
| OverdueJob.StampsKeepBooks | src/invoices/invoice-overdue.job.ts:56 | stamps disturb neither the exact nor the safe books |
| OverdueJob.NoDebtForgivenBesideJob | src/payments/payments.service.ts:61-108 | the job among overlapping billing calls forgives no debt |

## Left out

- Controllers, request validation, permissions, audit entries, documents, mail and storage: wiring or foreign calls; validated inputs appear as types or guards.
- Password hashing, token hashing and signing: a digest is the free image of its token, a password is compared by value, and an access token is its claims; its own expiry is not modelled.
- Concurrency of session calls beyond overlapping redemptions: the other calls are single steps among them, and inside a redemption the writes after the read are one step.
- Occupancy.OccupancyService.Create: states the occupancy rows alone, because `Leasing.LeasingService.CreateLease` states the whole transaction.
- The agreement PDF inside `create`, the lease columns that only copy input, and the defaulting of rent and deposit from the unit.
- Looking an account up by its e-mail: calls name the account; `SessionSafety.EmailsStayUnique` makes that the same.
- Tenant statuses set by nothing but the seeds (`notice`), which the occupancy links allow for.
- The int width of the code casts in SQL, the width of `numeric(12,2)` and the float noise of JavaScript sums.
- ISO text: dates are year, month and day; years past 9999, which the ISO slice would cut, are not singled out.
- `daysUntil`, labels and money formatting, row sorting and the other reports: each is one expression.
- The expired-token purge, which nothing calls, and `lastLoginAt`, which nothing reads here.
- Rounding.Record: modelled on values, without the class, since it is the same call as `Ledger.BillingService.Record` in other arithmetic.
