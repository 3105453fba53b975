# BidVault backend: verified models

A Dafny model of the parts of the BidVault auction backend whose correctness spans several handlers,
several requests or whole runs. Run `dafny verify dfyconfig.toml` to check everything.

| files | what they model |
|---|---|
| `Bidding`, `Market`, `MarketInvariant`, `MarketPreservation`, `MarketHistory`, `MarketTheorems`, `MarketWitnesses`, `MarketAnswers`, `Marketplace` | the sale lifecycle: listings, auctions, bids, sales, payments, disputes, payouts, relists and the worker's sweeps |
| `SellerStages`, `SellerItems` | the seller's item list: stage, database filter, tabs, offered actions, next-bidder preview |
| `RefreshTokens` | refresh-token rotation with reuse interval and family revocation |
| `Subscriptions` | the live-update socket: token bucket, asynchronous room joins, existence cache |
| `Pagination` | keyset pages over a table that changes between requests |
| `Apportionment` | largest-remainder percentages |
| `LikePattern` | search terms in LIKE patterns |
| `TypeEmitter` | the JSON-Schema-to-TypeScript emitter |
| `Options`, `Sums` | shared helpers |

## How it is modelled

**The sale lifecycle** is a state machine whose step is one committed database transaction (rows are
read under `FOR UPDATE`, so a transaction is atomic). A handler with two transactions is two steps:
a RELEASE decision and its payout (`SResolve`, then `SFinishRelease` or `SCrashRelease`), a takedown and
the cancellation behind it. A sweep is a read of a list followed by one step per id, with anything in
between. The listing handlers check a row they read earlier and outside any lock; the model lets them
hold any version of the row that was ever stored (`seen`). A write that the database refuses (a
unique or foreign key, an `int4` balance out of range) is an outcome that changes nothing.
`Market.Leads` relates two states when some sequence of steps leads from one to the other, and a state is
`Market.Reachable` when one leads to it from the empty database. The class `MarketplaceService.Marketplace` performs the same
transactions in place on its tables; every method is tied to its transition.

`MarketInvariant.Inv` is inductive: every step keeps it. `MarketHistory.Evolves` relates any
earlier state to any later one: what has become final and what can only move one way.

**Refresh tokens** are a state machine whose step is one database call of one request, so any number of
requests presenting any tokens interleave. Section 4.14.2 of RFC 9700 describes rotation with
replay detection; section 4.1.6 of RFC 7519 defines the `iat` claim that is pinned so that a successor can be
signed again.

**Findings.** Where the code and its own comments disagree the model follows the code.

- A close job returns early only on CLOSED, so it also closes, and may sell, an auction that was CANCELLED
  in the meantime; `prisma/schema.prisma:55-57` says a cancelled auction never gets a sale.
  `MarketWitnesses.CancelledIsSold` runs there, and `MarketTheorems.CloseSellsToLastBidder` says exactly when a
  close of either kind sells.
- If a RELEASE's handler dies between its two transactions, or the payout does not fit the seller's `int4`
  balance, the sale stays DISPUTED with its money held, and no later step of the system can change
  that (`MarketTheorems.StrandedForever`; both ways are run in `MarketWitnesses.StrandedIsReached` and
  `MarketWitnesses.PayoutOutOfRange`). `MarketTheorems.ReleasePaidIff` says exactly which runs pay a release out.
- The same refused payout makes the shipment sweep give up in the middle of its list
  (`Marketplace.AutoConfirmTimedOutShipments`; `MarketWitnesses.PayoutOutOfRange` reaches such a list).
- "The screen offers only what works" (`src/modules/seller-items/seller-item-stage.ts:141`) has exactly two
  exceptions, both reached by runs: Withdraw on a PENDING listing that already has an auction
  (`SellerItems.WithdrawRace`), and Respond in the window of a release (`SellerItems.ReleaseWindow`).
- The type emitter assumes that an open set holds strings. Without a `type` that says so the emitted type is
  too narrow (`TypeEmitter.OpenSetWithoutTypeIsUnsound`); `TypeEmitter.OpenSetSoundIff` gives the exact condition.
- It prints a constant that holds an object as JSON, which TypeScript reads as an open object type, so the emitted
  type is wider than the constant (`TypeEmitter.ObjectConstantIsWider`; exactly then, by `TypeEmitter.ConstantExactIff`).
- A token revoked by logout or a sweep has no successor, so presenting it again is always treated as a
  replay and signs the user out everywhere (`RefreshTokens.RepeatAnswered` with no `replacedBy`).

## Model

| member | source | states |
|---|---|---|
| Bidding.FindNextBid | src/services/auction-control.service.ts:246-252 | finds a bid exactly when one by a real, not excluded buyer exists, and then one that no other such bid precedes (amount, then time, then id) |
| Bidding.FirstAmongEquals | src/services/auction-control.service.ts:246-252 | the bid found is a real, not excluded buyer's, and among such bids the highest, then the earliest, then the one with the smallest id |
| Bidding.NextBidIsLastEligible | src/workers/close-auction.ts:60-70 | in a rising book the three-key choice is the last eligible bid |
| Bidding.ExcludingMoreNeverRaises | src/services/auction-control.service.ts:332-343 | excluding more people never finds a higher bid |
| Bidding.MaxAmountIsNextBid | src/services/auction-control.service.ts:267-275 | the SQL maximum with its NULL rules is the amount of the one-row choice, or NULL when that finds nothing |
| Bidding.BatchAgreesWithNextBid | src/services/auction-control.service.ts:254-277 | for distinct auctions the batch has an entry exactly where the one-row rule finds a bid, and it is that bid's amount |
| MarketInvariant.EmptyIsValid | prisma/schema.prisma:145-240 | the empty database satisfies the invariant |
| MarketPreservation.StepKeeps | src/services/fulfillment.service.ts:71-438 | every transaction, on any arguments, keeps the whole invariant of keys, bid books, sale columns, offers, disputes, charges, ledger, balances, conservation and relists |
| MarketPreservation.RunKeeps | src/services/auction-control.service.ts:37-513 | so does every run of transactions |
| MarketPreservation.ReleaseFindsDisputed | src/services/fulfillment.service.ts:425-428 | while a release is between its transactions its sale is DISPUTED and has no ledger entry, whatever else runs |
| MarketHistory.StepEvolves | src/services/auction-control.service.ts:294-375 | no step reopens a closed auction, edits a placed bid's amount, changes a charged sale's buyer or price, a decided dispute, or a past offer, or moves a stranded sale |
| MarketHistory.RunEvolves | src/modules/payments/payments.routes.ts:26-39 | the same between any two states of a run |
| MarketTheorems.Reached | src/modules/auctions/auctions.routes.ts:285-389 | every state a run can reach satisfies the invariant |
| MarketTheorems.Later | src/modules/payments/payments.routes.ts:26-39 | whatever a run does from a reachable state, invariant and finality hold between its ends |
| MarketTheorems.RelistedFellThrough | src/services/auction-control.service.ts:383-396 | a listing that was relisted has a closed auction and a voided sale |
| MarketTheorems.ChainFellThrough | src/services/auction-control.service.ts:427-513 | in a relist chain of any length every listing but the last has a CLOSED auction and a VOIDED sale, and keeps them whatever happens later |
| MarketTheorems.ChainsFromOneRoot | prisma/schema.prisma:164-172 | relists never branch: of two chains from one listing one continues the other |
| MarketTheorems.ItemInPlayOnce | src/services/auction-control.service.ts:301-305 | of all listings of one item at most one is live or carries a sale that is not void, so no item is sold twice |
| MarketTheorems.RelistCopies | src/services/auction-control.service.ts:456-511 | a relist puts the same item up on the same terms for the same seller in a fresh auction, touches no other row, and leaves the old listing fallen through |
| MarketTheorems.RelistIsFinal | src/services/auction-control.service.ts:393-396 | whatever happens after a relist, the old sale stays VOIDED and is never relisted, offered or paid again |
| MarketTheorems.NeverChargedTwice | src/modules/payments/payments.routes.ts:199-239 | in every later state another payment of a charged sale changes nothing, and its buyer is told it is paid |
| MarketTheorems.DeclineCanBeRetried | src/modules/payments/payments.routes.ts:231-261 | a decline charges nothing and keeps the deadline; the same buyer's next approval goes through at the same price |
| MarketTheorems.ApproveOpensOneAuction | src/modules/listings/listings.routes.ts:88-128 | however many stale approvals run, a listing has one auction, opened ACTIVE at the starting price |
| MarketTheorems.WhoCancels | src/services/auction-control.service.ts:42-55 | a seller can cancel exactly while nobody ever bid; an admin can cancel any ACTIVE auction |
| MarketTheorems.RefusedOrByItsParty | src/services/fulfillment.service.ts:71-305 | a buyer's or seller's transaction succeeds only for that buyer or seller, and any transaction that is refused changes no table |
| MarketAnswers.SubmitThenWithdraw | src/modules/listings/listings.routes.ts:249-428 | a new listing waits for review, and withdrawing it leaves everything as before |
| MarketAnswers.RejectThenResubmit | src/modules/listings/listings.routes.ts:365-384 | rejected and resubmitted unchanged a listing is as before; an edit changes its terms only, and an omitted reserve stays |
| MarketAnswers.ApproveAnswers | src/modules/listings/listings.routes.ts:88-128 | when an approval succeeds, and that it changes the listing's status and opens at most its one auction |
| MarketAnswers.TakedownAnswers | src/services/auction-control.service.ts:529-548 | when a takedown succeeds, and that a removed item's sale is then neither relisted nor offered |
| MarketAnswers.BidAnswers | src/modules/auctions/auctions.routes.ts:303-347 | over the bid book alone: each refusal's exact condition, the floor and the ceiling with it, and the rows an accepted bid leaves |
| MarketAnswers.CancelAnswered | src/services/auction-control.service.ts:46-55 | whoever cancels, an Ok leaves the auction CANCELLED and nothing else changed |
| MarketAnswers.CancelStopsBids | src/services/auction-control.service.ts:42-55 | after a cancellation, by whomever, no bid on the auction is ever accepted in any later state |
| MarketAnswers.CloseAnswers | src/workers/close-auction.ts:41-122 | a close changes one auction and adds at most one unpaid sale, dated when it closed |
| MarketAnswers.PayAnswers | src/modules/payments/payments.routes.ts:214-261 | each answer's exact condition, and every column a payment or a decline stores |
| MarketAnswers.VoidAnswers | src/services/auction-control.service.ts:141-184 | what an admin and the sweep may void, a sale without a due date by its age, and the row either leaves |
| MarketAnswers.OfferAnswers | src/services/auction-control.service.ts:311-354 | an offer goes to the highest bidder never offered the sale, with a full deadline from now and no trace of the last payment; each refusal's exact condition |
| MarketAnswers.RelistAnswers | src/services/auction-control.service.ts:439-457 | a relist succeeds exactly for the seller of a void sale that was neither relisted nor taken down |
| MarketAnswers.ShipAnswers | src/services/fulfillment.service.ts:71-91 | a seller ships exactly their paid sales, which then differ in status and shipping time only |
| MarketAnswers.ConfirmAnswers | src/services/fulfillment.service.ts:127-157 | each answer's exact condition, the ledger's unique key playing no part, and the three rows a payout writes |
| MarketAnswers.DisputeAnswers | src/services/fulfillment.service.ts:211-230 | a winner disputes exactly their shipped sale, and the dispute starts open and unanswered |
| MarketAnswers.RespondAnswers | src/services/fulfillment.service.ts:279-305 | each answer's exact condition; a response changes nothing else |
| MarketAnswers.ResolveAnswers | src/services/fulfillment.service.ts:316-370 | an open dispute is decided, and only a refund writes the sale |
| MarketAnswers.FinishAnswers | src/services/fulfillment.service.ts:425-428 | a release's second transaction pays like a confirmation |
| MarketAnswers.DeleteAnswers | prisma/schema.prisma:223-240 | a user goes exactly when no listing is theirs and no sale was won by them; their bids stay at their amounts, without them |
| MarketTheorems.MoneyConserved | src/services/fulfillment.service.ts:146-157 | charged = held + paid out + refunded; each balance is the sum of its ledger entries; at most one charge and one entry per sale, and exactly for the paid and the DELIVERED ones |
| MarketTheorems.ChargedForGood | src/modules/payments/payments.routes.ts:231-261 | a charge is never undone: its sale keeps payer, amount and address in every later state |
| MarketTheorems.VerdictFitsSale | src/services/fulfillment.service.ts:322-370 | OPEN means DISPUTED, refunded means REFUNDED, released means DISPUTED or DELIVERED, one dispute per sale |
| MarketTheorems.RefundOverwritesNoPayout | src/services/fulfillment.service.ts:365-370 | the unconditional REFUNDED write only ever overwrites DISPUTED, never a payout |
| MarketTheorems.ReleasePaysUnlessOutOfRange | src/services/fulfillment.service.ts:131-157 | a release's second transaction succeeds exactly when the payout fits the seller's balance column |
| MarketTheorems.ResponseAndDecisionFinal | src/services/fulfillment.service.ts:271-305 | a response is never replaced, and nothing is written on a dispute after its decision |
| MarketTheorems.StrandedForever | src/services/fulfillment.service.ts:411-438 | a released sale whose second transaction was lost stays DISPUTED and unpaid after every continuation |
| MarketTheorems.ReleasePaidIff | src/services/fulfillment.service.ts:425-428 | along any run from a decided release, the sale is DELIVERED in a later state if and only if the first step that ended the release was its second transaction, at a state where the payout fitted |
| MarketTheorems.ReleaseEndsOnce | src/services/fulfillment.service.ts:131-157 | the step that ends a release either pays it out or strands it |
| MarketTheorems.FinishPaysOrOverflows | src/services/fulfillment.service.ts:425-428 | a release's second transaction fails only for the payout's size |
| MarketTheorems.OfferRounds | src/services/auction-control.service.ts:294-354 | over all void-and-offer rounds the winners are distinct real bidders other than the seller, prices never rise, the first meets the reserve, every offer, past ones included, is at its buyer's own highest bid (anonymised since, perhaps), and offers number at most the people who bid |
| MarketTheorems.OfferShrinksPool | src/services/auction-control.service.ts:332-336 | an accepted offer removes exactly its buyer from those still to be offered |
| MarketTheorems.BookOfEveryAuction | src/modules/auctions/auctions.routes.ts:303-347 | bids rise by at least the increment, the last is current and greatest, the counter counts them, and the ceiling bounds their number |
| MarketTheorems.AcceptedBidLeads | src/modules/auctions/auctions.routes.ts:338-347 | an accepted bid is the last of the book and the current one, and a close at that moment would sell to its buyer |
| MarketTheorems.BidsClimb | src/modules/auctions/auctions.routes.ts:308-316 | the k-th bid is at least k increments above the starting price |
| MarketTheorems.FrozenBook | src/modules/auctions/auctions.routes.ts:303-306 | once not ACTIVE an auction's bids never change, and CLOSED is for good |
| MarketTheorems.CloseSellsToLastBidder | src/workers/close-auction.ts:41-122 | any reachable auction that is not CLOSED, a CANCELLED one included, is closed with its verdict; a sale appears if and only if some bid still has a buyer and the last such bid meets the reserve, and is then that buyer's at that amount |
| MarketTheorems.QueryFindsLastRealBid | src/workers/close-auction.ts:60-70 | in a rising book the close's query finds the last bid with a buyer, and nothing exactly when there is none |
| MarketTheorems.NoSaleBeforeClose | src/workers/close-auction.ts:112-122 | an auction that is not CLOSED has no sale |
| MarketTheorems.RepeatedCloseDoesNothing | src/workers/close-auction.ts:45-50 | however often a close is delivered, and whatever runs in between, nothing more is written and there is at most one sale |
| MarketTheorems.OneSalePerAuction | src/services/auction-control.service.ts:294-300 | an auction never has two sales |
| MarketTheorems.QueryIsRule | src/services/auction-control.service.ts:146-184 | the sweep's query selects exactly the waiting sales that the rule under the lock accepts at the same instant |
| MarketTheorems.SweepWaitsForOffer | src/services/auction-control.service.ts:178-184 | from however stale a list, no sweep voids a re-offered sale before its buyer's full deadline has passed |
| MarketTheorems.SweepNeverEarly | src/services/auction-control.service.ts:141-153 | every sale a sweep voids has its own due date, and it is past |
| MarketTheorems.ReviewWindowFromShipment | src/services/fulfillment.service.ts:88-91 | no sweep lists a shipment before its review window has passed since it was marked shipped |
| MarketTheorems.StaleAutoConfirm | src/services/fulfillment.service.ts:445-454 | an auto-confirm from an old list only touches a sale still SHIPPED since the shipment that was listed |
| MarketplaceService.Marketplace.constructor | prisma/schema.prisma:95-143 | starts with empty tables |
| MarketplaceService.Marketplace.ApproveOneListing | src/modules/listings/listings.routes.ts:88-150 | approval opens the one ACTIVE auction at the starting price, on the row read earlier |
| MarketplaceService.Marketplace.TakedownListing | src/services/auction-control.service.ts:529-548 | the first transaction of a takedown |
| MarketplaceService.Marketplace.CheckBid | src/modules/auctions/auctions.routes.ts:303-327 | the answer to a bid by the book as it stands: the floor is the last amount and the increment, the ceiling ten times the last or a hundred times the start |
| MarketplaceService.Marketplace.PlaceABid | src/modules/auctions/auctions.routes.ts:285-347 | appends the bid and moves current bid and counter with it, keeping the book's invariant |
| MarketplaceService.Marketplace.CancelAnAuction | src/services/auction-control.service.ts:42-55 | an Ok leaves the auction CANCELLED and nothing else changed, for an admin or for its seller, who leaves no bidder behind |
| MarketplaceService.Marketplace.JudgeAuction | src/workers/close-auction.ts:60-76 | the last bid that still has a buyer, if any, and a verdict that is true exactly when that bid exists and meets the reserve, null when there is none |
| MarketplaceService.Marketplace.CloseAnAuction | src/workers/close-auction.ts:41-137 | the whole close, in place, with the result CloseSellsToLastBidder describes |
| MarketplaceService.Marketplace.PayForSale | src/modules/payments/payments.routes.ts:214-261 | charges the sale's amount to its winner once exactly when it answers Ok, and otherwise charges nothing |
| MarketplaceService.Marketplace.VoidByAdmin | src/modules/admin/admin.routes.ts:246-258 | voids only a PENDING sale |
| MarketplaceService.Marketplace.VoidOverduePayment | src/services/auction-control.service.ts:174-184 | voids a waiting sale only past its own due date |
| MarketplaceService.Marketplace.OfferToNext | src/services/auction-control.service.ts:311-354 | re-targets the void sale's own row at someone who was never offered it, at no higher price |
| MarketplaceService.Marketplace.RelistOnce | src/services/auction-control.service.ts:439-512 | a fresh approved listing and auction for a void sale, once |
| MarketplaceService.Marketplace.Ship | src/services/fulfillment.service.ts:71-91 | a paid sale is shipped by its seller, who never lacks an address |
| MarketplaceService.Marketplace.PayOut | src/services/fulfillment.service.ts:146-157 | status, ledger entry and balance change together |
| MarketplaceService.Marketplace.ConfirmADelivery | src/services/fulfillment.service.ts:127-157 | the payout transaction, from SHIPPED or from DISPUTED |
| MarketplaceService.Marketplace.ConfirmReceipt | src/services/fulfillment.service.ts:127-157 | pays out a SHIPPED sale; the ledger's unique key never has to stop it |
| MarketplaceService.Marketplace.RaiseADispute | src/services/fulfillment.service.ts:216-230 | the buyer's dispute on a SHIPPED sale, never a second one |
| MarketplaceService.Marketplace.Respond | src/services/fulfillment.service.ts:284-304 | the seller's one response while the dispute is open |
| MarketplaceService.Marketplace.Resolve | src/services/fulfillment.service.ts:322-370 | the first transaction of a resolution; what it decides about is always DISPUTED |
| MarketplaceService.Marketplace.FinishARelease | src/services/fulfillment.service.ts:425-428 | the second transaction of a RELEASE pays out or fails for the payout's size |
| MarketplaceService.Marketplace.ListOverdue | src/services/auction-control.service.ts:155-168 | the list a payment sweep reads holds exactly the sales that voiding would accept at that instant |
| MarketplaceService.Marketplace.AutoVoidOverduePayments | src/workers/auction-lifecycle.worker.ts:164-177 | run alone, a payment sweep voids exactly the sales it listed and leaves every other row alone |
| MarketplaceService.Marketplace.ListTimedOut | src/services/fulfillment.service.ts:445-454 | the list a shipment sweep reads holds exactly the SHIPPED sales past their review window, and confirming one can only fail for the payout's size |
| MarketplaceService.Marketplace.AutoConfirmTimedOutShipments | src/workers/auction-lifecycle.worker.ts:130-151 | run alone, a shipment sweep pays out exactly the listed shipments, or stops at one whose payout does not fit its seller's balance |
| MarketplaceService.Marketplace.ShippedPaysUnlessOutOfRange | src/services/fulfillment.service.ts:139-157 | a SHIPPED sale's confirmation is refused exactly when the payout does not fit the balance column |
| SellerStages.WhereAgreesWithStage | src/modules/seller-items/seller-item-stage.ts:204-231 | for every listing exactly one stage filter is true under SQL's three-valued logic, and it is the stage derived from the row |
| SellerStages.NaiveComplementLosesNoReserve | src/modules/seller-items/seller-item-stage.ts:224-230 | NOT (reserveMet = false) would drop every auction that closed with no reserve |
| SellerStages.TabsPartition | src/modules/seller-items/seller-item-stage.ts:233-236 | each item is in the tab of its stage and in no other |
| SellerStages.StageTells | src/modules/seller-items/seller-item-stage.ts:86-139 | what each stage shown says about the listing, auction, sale and dispute behind it |
| SellerStages.TabTells | src/modules/seller-items/seller-item-stage.ts:67-84 | what each tab says became of the item |
| SellerStages.BadgesCoverInventory | src/modules/seller-items/seller-items.routes.ts:259-270 | the six badge counts add up to the inventory |
| SellerItems.QueriesAreDistinct | src/modules/seller-items/seller-items.routes.ts:146-152 | a page never asks about one auction twice |
| SellerItems.PreviewIsOffer | src/modules/seller-items/seller-items.routes.ts:143-165 | a defaulted item shows a next bidder exactly when the offer would find one |
| SellerItems.ShipAccepted | src/modules/seller-items/seller-item-stage.ts:152-153 | an offered Mark shipped is accepted |
| SellerItems.CancelAccepted | src/modules/seller-items/seller-item-stage.ts:149-151 | an offered Cancel is accepted |
| SellerItems.OfferAccepted | src/modules/seller-items/seller-item-stage.ts:156-157 | an offered second-chance offer finds its bidder and is accepted |
| SellerItems.RelistAccepted | src/services/auction-control.service.ts:439-457 | an offered Relist is accepted |
| SellerItems.ResubmitAccepted | src/modules/listings/listings.routes.ts:329-402 | an offered Edit and resubmit is accepted |
| SellerItems.WithdrawAccepted | src/modules/listings/listings.routes.ts:404-428 | an offered Withdraw passes the state check, and the delete goes through exactly when there is no auction |
| SellerItems.AnswerAcceptedWhileOpen | src/modules/seller-items/seller-item-stage.ts:154-155 | an offered Respond is accepted exactly while the dispute is open; otherwise the sale is in the window of a release |
| SellerItems.OfferedIsAccepted | src/modules/seller-items/seller-item-stage.ts:141-176 | on every page of every reachable state each offered action succeeds for the owning seller, with two exact exceptions |
| SellerItems.OfferedExactly | src/modules/seller-items/seller-item-stage.ts:141-176 | on every page of every reachable state an endpoint action would succeed for the owning seller if and only if it is offered, but for named exceptions; and exactly which items offer List again and the invoice |
| SellerItems.ActionTabIsToDo | src/modules/seller-items/seller-item-stage.ts:64-84 | the "Needs action" tab holds exactly the items on which the seller can ship, answer, offer or relist |
| SellerItems.WithdrawRace | src/modules/listings/listings.routes.ts:404-428 | a run of four steps after which Withdraw is offered and refused |
| SellerItems.ReleaseWindow | src/services/fulfillment.service.ts:411-428 | a reachable state in the window of a release where Respond is offered and refused |
| MarketWitnesses.HonestSale | src/services/fulfillment.service.ts:71-91 | from any reachable state a new item can be listed, sold, paid and shipped |
| MarketWitnesses.CancelledIsSold | src/workers/close-auction.ts:45-50 | from any reachable state a run leads to a CANCELLED auction that its close job then sells |
| MarketWitnesses.WindowIsReached | src/services/fulfillment.service.ts:411-428 | from any reachable state a run leads into the window of a release |
| MarketWitnesses.StrandedIsReached | src/services/fulfillment.service.ts:411-428 | and, when the handler dies there, to a stranded sale |
| MarketWitnesses.PayoutOutOfRange | prisma/schema.prisma:107-110 | a reachable state where the sweep lists a shipment whose payout is out of range, and one where a release fails for the same reason and strands its sale |
| RefreshTokens.CandidateIsIssued | src/modules/auth/auth.routes.ts:105-119 | in a reachable state the re-signed successor is always the string that was issued, so the hash check never fails, and it is handed out exactly under the interval's conditions |
| RefreshTokens.StepKeeps | src/modules/auth/auth.routes.ts:389-479 | every database call of every request keeps the token invariant |
| RefreshTokens.RunKeeps | src/modules/auth/auth.routes.ts:338-487 | so does every interleaving |
| RefreshTokens.OnePerGeneration | src/modules/auth/auth.routes.ts:448-475 | families are disjoint lines: one token per generation, each rotated at most once |
| RefreshTokens.OneLivePerFamily | src/modules/auth/auth.routes.ts:448-475 | only the last token of a family can be unrevoked, so one sign-in is never two sessions |
| RefreshTokens.SameTokenForAll | src/modules/auth/auth.routes.ts:411-427 | all requests that present one token and are answered get the same string, for the same user and as remembered as before |
| RefreshTokens.IssuedIsFound | src/modules/auth/auth.routes.ts:374-445 | presenting an issued string is decided by its own row; a spent one always becomes a repeat |
| RefreshTokens.RowOutlivesString | src/modules/auth/auth.routes.ts:142-160 | a row is not expired while its token string verifies |
| RefreshTokens.SessionRefreshes | src/modules/auth/auth.routes.ts:338-487 | from any reachable state a new session's string refreshes as long as it verifies, handing on one new live token with the same claims |
| RefreshTokens.NeverMismatch | src/modules/auth/auth.routes.ts:439-442 | the mismatch answer is never given |
| RefreshTokens.RepeatAnswered | src/modules/auth/auth.routes.ts:95-119 | a repeat is answered exactly when the presented token is the immediate parent of a live, unexpired token and was spent within the interval |
| RefreshTokens.RaceGivesOneToken | src/modules/auth/auth.routes.ts:448-487 | two requests race for one live token: both are given the same new token, which stays live with nothing swept, if and only if the loser asks within the interval since the spending and before the successor expires |
| RefreshTokens.LoserReadsAgain | src/modules/auth/auth.routes.ts:475-480 | the loser of the compare-and-set is decided by the token's row as it is now |
| RefreshTokens.LoserOfGoneRow | src/modules/auth/auth.routes.ts:475-480 | and is refused as a replay when the row is gone |
| RefreshTokens.StringLastsItsDays | src/utils/jwt.ts:62-78 | a string verifies for its days from the second it was issued in, and no longer |
| RefreshTokens.ClaimsComeBack | src/utils/jwt.ts:70-88 | a string gives back user, token, remembering and the second it was pinned to, and equal strings were signed for the same |
| RefreshTokens.StrangerIsRefused | src/modules/auth/auth.routes.ts:363-382 | a string that is forged, expired or stored nowhere is refused and revokes nothing |
| RefreshTokens.LogoutRevokesOne | src/modules/auth/auth.routes.ts:506-516 | signing out revokes the presented token and no other |
| RefreshTokens.OthersLeftAlone | src/modules/auth/auth.routes.ts:389-479 | no call touches a token row it is not about |
| RefreshTokens.RequestsLeftAlone | src/modules/auth/auth.routes.ts:389-479 | nor another request in flight |
| RefreshTokens.SpentForGood | src/modules/auth/auth.routes.ts:454-459 | a spent row never changes again |
| RefreshTokens.ReuseEnds | src/modules/auth/auth.routes.ts:386-432 | every reuse ends with the successor or with a refusal whose commit leaves the user no live token; the alert tells whether there was one |
| RefreshTokens.DeadUntilLogin | src/modules/auth/auth.routes.ts:386-393 | after that, no request in flight can revive a session; only a sign-in can |
| RefreshTokens.AlertedOnce | src/modules/auth/auth.routes.ts:398-403 | later replays do not alert again until a sign-in |
| TokenService.TokenStore.constructor | prisma/schema.prisma:279-292 | no tokens at first |
| TokenService.TokenStore.CreateSessionTokens | src/modules/auth/auth.routes.ts:135-167 | starts a family whose stored hash is the issued string's |
| TokenService.TokenStore.FindUnique | src/modules/auth/auth.routes.ts:374-377 | the row with a hash, of which there is at most one |
| TokenService.TokenStore.StartRefresh | src/modules/auth/auth.routes.ts:365-445 | a refresh up to its first decision |
| TokenService.TokenStore.SpendToken | src/modules/auth/auth.routes.ts:448-475 | the compare-and-set: rotates exactly when the row was still unspent |
| TokenService.TokenStore.ReadAgain | src/modules/auth/auth.routes.ts:475-480 | the loser of the race goes on as a repeat of the row it finds, or as a replay when there is none, and nothing else changes |
| TokenService.TokenStore.Repeat | src/modules/auth/auth.routes.ts:414-427 | answers a repeat or turns it into a replay |
| TokenService.TokenStore.Sweep | src/services/account.service.ts:92-95 | revokes all of a user's live tokens and says whether there were any |
| TokenService.TokenStore.Reject | src/modules/auth/auth.routes.ts:389-406 | a replay leaves the user no live token |
| TokenService.TokenStore.Logout | src/modules/auth/auth.routes.ts:506-516 | the presented token is live no more |
| TokenBucket.SubscriptionBucket.ConsumeToken | src/socket/auction-subscriptions.ts:22-36 | refills by elapsed time, then takes a token if there is one; the level stays in range |
| TokenBucket.AcceptsWhateverFits | src/socket/auction-subscriptions.ts:22-36 | a call is accepted if and only if in every window it would end the accepted calls stay within 50 plus 50 per minute |
| TokenBucket.RateLimited | src/socket/auction-subscriptions.ts:11-12 | at most 50 + 50 d / 60000 calls are accepted in any interval of d milliseconds |
| TokenBucket.LevelInRange | src/socket/auction-subscriptions.ts:25-35 | the stored level is always between 0 and 50 |
| AuctionSubscriptions.LastCommandWins | src/socket/auction-subscriptions.ts:67-118 | for every sequence of commands and answers, a settled room is joined exactly when its last accepted command was subscribe and its last lookup found the auction |
| AuctionSubscriptions.AlwaysWithinCap | src/socket/auction-subscriptions.ts:94-97 | joined and pending rooms never exceed 25 and are disjoint, and a closed socket is in no room |
| AuctionSubscriptions.OpenIff | src/socket/auction-subscriptions.ts:81-86 | a socket is open exactly until its client hangs up or a well-formed subscribe command finds no token left |
| AuctionSubscriptions.MalformedIsIgnored | src/socket/auction-subscriptions.ts:81-82 | a command with no text, a blank or an overlong id changes nothing and costs no token |
| AuctionSubscriptions.AnswerEndsWait | src/socket/auction-subscriptions.ts:99-107 | a lookup's answer, a failure too, ends the wait for its room and for no other |
| AuctionSubscriptions.LateAnswer | src/socket/auction-subscriptions.ts:69-78 | an unsubscribe and the lookup's answer commute |
| AuctionSubscriptions.AuctionSocket.constructor | src/socket/auction-subscriptions.ts:67-79 | a new connection is in no room |
| AuctionSubscriptions.AuctionSocket.OnSubscribe | src/socket/auction-subscriptions.ts:81-108 | the subscribe handler; a lookup starts exactly when a room becomes pending |
| AuctionSubscriptions.AuctionSocket.OnUnsubscribe | src/socket/auction-subscriptions.ts:110-117 | the unsubscribe handler; it never adds a pending room |
| AuctionSubscriptions.AuctionSocket.OnLookupSettled | src/socket/auction-subscriptions.ts:100-107 | the lookup's answer, with the wish checked again |
| AuctionSubscriptions.AuctionSocket.OnDisconnect | src/socket/auction-subscriptions.ts:83-86 | a disconnected socket is in no room |
| ExistenceCache.AuctionExistenceCache.constructor | src/socket/auction-subscriptions.ts:38-39 | an empty cache |
| ExistenceCache.AuctionExistenceCache.Probe | src/socket/auction-subscriptions.ts:41-49 | answers exactly when a fresh entry is there, and then as a lookup of that auction begun less than 30 seconds ago did; the entry becomes the newest |
| ExistenceCache.AuctionExistenceCache.StoreAnswer | src/socket/auction-subscriptions.ts:51-60 | stores a lookup's answer and never holds more than 1000 |
| ExistenceCache.RecentlyReadStays | src/socket/auction-subscriptions.ts:43-58 | eviction is least recently used: an entry just read survives any 999 uses of other auctions |
| Pagination.ParseLimit | src/utils/pagination.ts:13-18 | the page size is always between 1 and the maximum; a number in range is rounded down |
| Pagination.OrderIs | src/modules/seller-items/seller-items.routes.ts:74-79 | ascending is by sort value and then id, descending its reverse |
| Pagination.PastIsAfter | src/modules/auctions/auctions.routes.ts:107-121 | the cursor filter selects exactly the rows behind the cursor in the query's order |
| Pagination.OrderIsUnique | src/modules/seller-items/seller-items.routes.ts:74-79 | the order is total: a set of rows has one ordered list |
| Pagination.PageIs | src/utils/pagination.ts:57-69 | a page is the first rows past the cursor, and has a next cursor exactly when there are more |
| Pagination.CursorCuts | src/modules/seller-items/seller-items.routes.ts:81-92 | a row's cursor leaves exactly the rows behind it |
| Pagination.WalkIsOrdered | src/utils/pagination.ts:1-8 | whatever is inserted or deleted between pages, the rows received are strictly in order, so none comes twice |
| Pagination.WalkOnlyPast | src/utils/pagination.ts:1-8 | every row received was in the table when its page was read, and past the cursor |
| Pagination.WalkIsComplete | src/utils/pagination.ts:1-8 | a finished walk has received every row that was there all along |
| Pagination.StayingRowComesOnce | src/utils/pagination.ts:1-8 | and exactly once |
| Pagination.WalkOfFixedTable | src/utils/pagination.ts:52-69 | on an unchanging table a finished walk is the sorted table |
| Pagination.WalkFinishes | src/utils/pagination.ts:57-69 | pages of one size finish exactly when together they can hold the table |
| Apportionment.Breakdown | src/modules/admin/admin.routes.ts:154-170 | percentages sum to 100, each is its floor or one more, the extra points go to the largest remainders, and a smaller count never gets more |
| Apportionment.MakeShares | src/modules/admin/admin.routes.ts:155-160 | one distinct row per category, rounded down |
| Apportionment.HandOut | src/modules/admin/admin.routes.ts:165-169 | the loop through the sorted alias list adds one point to each of the first rows and changes no other |
| Apportionment.SortByRemainder | src/modules/admin/admin.routes.ts:162-164 | a stable descending order of all rows |
| Apportionment.LeftoverIsFew | src/modules/admin/admin.routes.ts:161-169 | the leftover is less than the number of categories, so one pass suffices |
| Apportionment.HandedIsApportioned | src/modules/admin/admin.routes.ts:150-153 | handing the leftover out along any such order meets the panel's promise |
| Apportionment.FloorMonotone | src/modules/admin/admin.routes.ts:158-160 | a smaller count has a smaller floor, or the same floor and a smaller remainder |
| LikePattern.EscapedParses | src/utils/escape-like.ts:10-12 | an escaped term reads as its own letters |
| LikePattern.SearchFindsExactly | src/modules/seller-items/seller-items.routes.ts:105-119 | a search matches a text if and only if the typed term occurs in it, for LIKE and for ILIKE |
| LikePattern.EscapingIsNeeded | src/utils/escape-like.ts:5-8 | unescaped, that holds if and only if the term has no special character |
| LikePattern.ShortestIsOther | src/utils/escape-like.ts:5-8 | the shortest text an unescaped special term matches is not the term |
| TypeEmitter.EmitFields | scripts/generate-client-types.ts:141-155 | the property loop emits the fields of the object type, or the first error |
| TypeEmitter.UnionMember | scripts/generate-client-types.ts:82-89 | dropping repeated parts of a union changes no meaning |
| TypeEmitter.EmittedTypeIsSound | scripts/generate-client-types.ts:79-170 | where the type beside every open set in reach allows only strings and what fits a listed literal, every value a schema accepts, strictly or loosely, through any references, belongs to its emitted type |
| TypeEmitter.EmittedTypeIsExact | scripts/generate-client-types.ts:79-170 | a value belongs to the emitted type if and only if the schema accepts it read loosely: the first deciding keyword alone, "integer" as any number, objects open, required only what is named; open sets being of strings |
| TypeEmitter.EmittedTypeIsStrict | scripts/generate-client-types.ts:79-170 | and if and only if the schema accepts it as it stands, where nothing in reach says more than that |
| TypeEmitter.Readings | scripts/generate-client-types.ts:9-15 | what is accepted strictly is accepted loosely, and conversely where nothing in reach says more |
| TypeEmitter.EmitsIff | scripts/generate-client-types.ts:58-64 | the emitter throws exactly where a reference names no component, an array says nothing of its items, a type is unknown, or a schema without a type says what would need one |
| TypeEmitter.ConstantExactIff | scripts/generate-client-types.ts:66-74 | the type printed for a constant has exactly that value if and only if the constant has no object in it |
| TypeEmitter.ObjectConstantIsWider | scripts/generate-client-types.ts:66-74 | a value with one more property than a constant object is refused by the schema and in the emitted type |
| TypeEmitter.OpenSetSoundIff | scripts/generate-client-types.ts:97-103 | an open set's emitted type is sound if and only if every type name allowed is string, or all its values fit a listed literal; `{}` fits everything but null |
| TypeEmitter.OpenSetWithoutTypeIsUnsound | scripts/generate-client-types.ts:97-103 | an accepted number outside the emitted type |

## Left out

- HTTP: routing, middleware, request validation, cookies, rate limits and status codes. Schema bounds (increments of at least 1, amounts up to 2,000,000,000) are checks of the steps.
- Emails, socket broadcasts, audit logs and notifications, the one kept-up-to-date unread BID_RECEIVED row included: output that gates nothing.
- Settings and user-status caches: deadline hours are a parameter read before each step.
- Redis, BullMQ, Prisma, bcrypt, token signatures and the cursor's base64: foreign code. Signing is an injective function of the claims, hashing has no collisions, a cursor is the pair it encodes, and a malformed one is no cursor.
- The payment gateway: any answer, on any charge.
- Statement-level READ COMMITTED anomalies: a transaction is atomic. Reads a handler makes before its transaction are modelled as stale.
- Listing codes and the retry loop around a relist: a code collision only repeats the transaction.
- Listing texts, images, attributes, platform limits, reviews, watchlist and seller enrolment: they gate no step modelled here.
- Submitting, editing, rejecting and withdrawing a listing are steps of the state machine but have no class method: their handlers only check a status and write a row.
- Deleting a user is what the schema's foreign keys do; no route does it.
- MarketTheorems.RefusedOrByItsParty: who is an admin is checked by the routes' middleware, which is not part of this model.
- RefreshTokens.FindByHash: picks a row without saying how; at most one has the hash.
- TypeEmitter.Accepts: reads oneOf as at least one instead of exactly one, because counting matches is not monotone in the references followed; soundness for the wider reading covers the narrower one, and exactness leaves oneOf out.
- TypeEmitter.ToType: models the emitted type, not its text: doc comments, property-name quoting, array parentheses and file writing are not modelled, nor names that only a JavaScript prototype has.
- TypeEmitter.Member: an object type with properties is read as describing JSON objects; TypeScript also admits to it strings and arrays that have such members, as to `{ length: number }`.
- TypeEmitter.RefName: takes the rest of the reference as the component's name; JSON Pointer escapes are not decoded.
- AuctionSubscriptions.IsBlank: characters are Unicode scalar values here and UTF-16 units in the program, so the 128 limit differs for texts outside the basic plane.
- TokenBucket.RateLimited: needs a clock that does not run backwards.
- AuctionSubscriptions.AfterSettled: a lookup may answer anything; the existence cache in front of it is modelled on its own.
- Apportionment.Floor: exact fractions instead of binary floating point.
- Pagination.WalkIsOrdered: a row whose sort value changes between pages counts as another row.
- LikePattern.Like: the case folding of ILIKE is any function on single characters.
- The month buckets and top sellers of the admin panel, seed and verification scripts, the endpoint maps of the type generator.
