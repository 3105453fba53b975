/**
  The inductive invariant of the sale lifecycle, one predicate per concern, each over just the tables
  it speaks of.
 */
module MarketInvariant {
  import opened Options
  import opened Bidding
  import opened Sums
  import opened Market

  // ---- foreign and unique keys ---------------------------------------------------------------

  type Listings = map<Id, Listing>
  type Auctions = map<Id, Auction>
  type Books = map<Id, seq<Bid>>
  type Sales = map<Id, Sale>

  ghost predicate VersionOk(listings: Listings, l: Id, v: Listing) {
    && GoodTerms(v.terms)
    && (l in listings ==> v.seller == listings[l].seller && v.relistedFrom == listings[l].relistedFrom)
  }

  ghost predicate ListingsOk(listings: Listings, seen: map<Id, set<Listing>>) {
    && (forall l :: l in listings ==> l in seen && listings[l] in seen[l])
    && (forall l, v :: l in seen && v in seen[l] ==> VersionOk(listings, l, v))
  }

  ghost predicate AuctionOk(listings: Listings, a: Auction) {
    a.listing in listings && a.seller == listings[a.listing].seller
  }

  /** One auction per listing, ever: the unique key is never what stops a write. */
  ghost predicate AuctionsOk(listings: Listings, auctions: Auctions) {
    && (forall a :: a in auctions ==> AuctionOk(listings, auctions[a]))
    && (forall a, b :: a in auctions && b in auctions && auctions[a].listing == auctions[b].listing ==> a == b)
  }

  ghost predicate SaleKeyOk(auctions: Auctions, r: Sale) {
    r.auction in auctions && auctions[r.auction].status == Closed && r.seller == auctions[r.auction].seller
  }

  /** One sale per auction, ever, and only for an auction that is closed. */
  ghost predicate SaleKeysOk(auctions: Auctions, sales: Sales) {
    && (forall s :: s in sales ==> SaleKeyOk(auctions, sales[s]))
    && (forall s, t :: s in sales && t in sales && sales[s].auction == sales[t].auction ==> s == t)
  }

  // ---- the bid book -------------------------------------------------------------------------

  ghost predicate BookOk(a: Auction, book: seq<Bid>, bidders: set<UserId>) {
    && GoodTerms(a.terms)
    && a.bidCount == |book|
    && a.currentBid == (if book == [] then a.terms.startPrice else book[|book| - 1].amount)
    && (forall i :: 0 <= i < |book| ==> a.terms.startPrice <= book[i].amount <= MAX_MONEY)
    && (forall i, j :: 0 <= i < j < |book| ==> book[i].amount + a.terms.minIncrement <= book[j].amount)
    && (forall i :: 0 <= i < |book| && book[i].buyer.Some? ==> book[i].buyer.value in bidders)
    && a.seller !in bidders
    && |bidders| <= |book|
  }

  ghost predicate BooksOk(auctions: Auctions, bids: Books, bidders: map<Id, set<UserId>>) {
    && bids.Keys == auctions.Keys == bidders.Keys
    && forall a :: a in auctions ==> BookOk(auctions[a], bids[a], bidders[a])
  }

  // ---- one sale row --------------------------------------------------------------------------

  predicate Distinct<T(==)>(s: seq<T>) {
    forall i, j :: 0 <= i < j < |s| ==> s[i] != s[j]
  }

  /** Which columns a status allows. FAILED is never written. */
  predicate ColumnsOk(r: Sale) {
    && r.status != Failed
    && 1 <= r.amount <= MAX_MONEY
    && (r.status == SaleStatus.Pending ==> r.dueAt.Some?)
    && (!IsPaid(r.status) ==> r.reference.None? && r.paidAt.None? && r.shippedAt.None?)
    && (IsPaid(r.status) ==> r.reference.Some? && r.paidAt.Some? && r.address.Some? && r.address.value != "")
    && (IsPaid(r.status) ==> (r.status == Completed <==> r.shippedAt.None?))
  }

  ghost predicate WinnersOk(r: Sale, bidders: set<UserId>) {
    && Distinct(r.previousWinners)
    && r.winner !in r.previousWinners
    && r.winner in bidders
    && (forall w :: w in r.previousWinners ==> w in bidders)
  }

  /** The amount is the winner's own highest bid, and nobody still to be offered bid more. */
  ghost predicate PricedByBid(r: Sale, book: seq<Bid>) {
    && (exists i :: 0 <= i < |book| && book[i].buyer == Some(r.winner) && book[i].amount == r.amount)
    && (forall i :: 0 <= i < |book| && Eligible(book[i], r.previousWinners) ==> book[i].amount <= r.amount)
  }

  ghost predicate OffersOk(r: Sale, offers: seq<Offer>, reserve: Option<int>) {
    && |offers| == |r.previousWinners| + 1
    && (forall i :: 0 <= i < |r.previousWinners| ==> offers[i].winner == r.previousWinners[i])
    && offers[|offers| - 1] == Offer(r.winner, r.amount)
    && (forall i, j :: 0 <= i < j < |offers| ==> offers[j].amount <= offers[i].amount)
    && (reserve.Some? ==> offers[0].amount >= reserve.value)
  }

  /**
    Every offer, past ones included, was at the highest bid of the buyer it went to: that bid is in
    the book, still theirs or anonymised since, and none of theirs is higher.
   */
  ghost predicate OffersPriced(book: seq<Bid>, offers: seq<Offer>) {
    forall i :: 0 <= i < |offers| ==> AtOwnHighestBid(book, offers[i])
  }

  ghost predicate AtOwnHighestBid(book: seq<Bid>, o: Offer) {
    && (exists j ::
          0 <= j < |book| && book[j].amount == o.amount && (book[j].buyer == Some(o.winner) || book[j].buyer.None?))
    && (forall j :: 0 <= j < |book| && book[j].buyer == Some(o.winner) ==> book[j].amount <= o.amount)
  }

  ghost predicate SaleOk(a: Auction, book: seq<Bid>, bidders: set<UserId>, r: Sale, offers: seq<Offer>) {
    && ColumnsOk(r)
    && WinnersOk(r, bidders)
    && PricedByBid(r, book)
    && OffersOk(r, offers, a.terms.reserve)
    && OffersPriced(book, offers)
  }

  ghost predicate SalesOk(auctions: Auctions, bids: Books, bidders: map<Id, set<UserId>>, sales: Sales,
                          offers: map<Id, seq<Offer>>) {
    && offers.Keys == sales.Keys
    && forall s :: s in sales ==>
         && sales[s].auction in auctions && sales[s].auction in bids && sales[s].auction in bidders
         && SaleOk(auctions[sales[s].auction], bids[sales[s].auction], bidders[sales[s].auction], sales[s], offers[s])
  }

  // ---- disputes -----------------------------------------------------------------------------

  ghost predicate DisputeFits(d: Dispute, r: Sale) {
    && d.raisedBy == r.winner
    && match d.status
       case Open => r.status == Disputed
       case ResolvedRefunded => r.status == Refunded
       case ResolvedReleased => r.status == Disputed || r.status == Delivered
  }

  ghost predicate AboutSale(disputes: map<Id, Dispute>, d: Id, s: Id) {
    d in disputes && disputes[d].sale == s
  }

  ghost predicate DisputesOk(disputes: map<Id, Dispute>, sales: Sales, releasing: set<Id>) {
    && (forall d :: d in disputes ==> disputes[d].sale in sales && DisputeFits(disputes[d], sales[disputes[d].sale]))
    && (forall d, e :: d in disputes && e in disputes && disputes[d].sale == disputes[e].sale ==> d == e)
    && (forall s :: s in sales && (sales[s].status == Disputed || sales[s].status == Refunded) ==>
        exists d :: AboutSale(disputes, d, s))
    && (forall s :: s in releasing ==>
          && s in sales && sales[s].status == Disputed
          && (forall d :: AboutSale(disputes, d, s) ==> disputes[d].status == ResolvedReleased))
  }

  // ---- money --------------------------------------------------------------------------------

  function HeldAmount(r: Sale): int {
    if r.status == Completed || r.status == Shipped || r.status == Disputed then r.amount else 0
  }

  function RefundedAmount(r: Sale): int {
    if r.status == Refunded then r.amount else 0
  }

  function ChargeTotal(charges: seq<Charge>): int {
    if charges == [] then 0 else ChargeTotal(charges[..|charges| - 1]) + charges[|charges| - 1].amount
  }

  function LedgerTotal(ledger: seq<LedgerEntry>): int {
    if ledger == [] then 0 else LedgerTotal(ledger[..|ledger| - 1]) + ledger[|ledger| - 1].amount
  }

  function EarnedBy(ledger: seq<LedgerEntry>, u: UserId): int {
    if ledger == [] then 0 else
      var e := ledger[|ledger| - 1];
      EarnedBy(ledger[..|ledger| - 1], u) + if e.seller == u then e.amount else 0
  }

  ghost predicate ChargeOk(sales: Sales, c: Charge) {
    && c.sale in sales
    && var r := sales[c.sale];
       IsPaid(r.status) && c.payer == r.winner && c.amount == r.amount && r.address == Some(c.address)
  }

  ghost predicate ChargedAt(charges: seq<Charge>, i: int, s: Id) {
    0 <= i < |charges| && charges[i].sale == s
  }

  /** Every sale is charged at most once, and exactly the paid ones are. */
  ghost predicate ChargesOk(charges: seq<Charge>, sales: Sales) {
    && (forall i :: 0 <= i < |charges| ==> ChargeOk(sales, charges[i]))
    && (forall i, j :: 0 <= i < j < |charges| ==> charges[i].sale != charges[j].sale)
    && (forall s :: s in sales && IsPaid(sales[s].status) ==> exists i :: ChargedAt(charges, i, s))
  }

  ghost predicate EntryOk(sales: Sales, e: LedgerEntry) {
    && e.sale in sales
    && var r := sales[e.sale];
       r.status == Delivered && e.seller == r.seller && e.amount == r.amount
  }

  ghost predicate PaidOutAt(ledger: seq<LedgerEntry>, i: int, s: Id) {
    0 <= i < |ledger| && ledger[i].sale == s
  }

  /** Exactly one ledger entry per delivered sale and none otherwise. */
  ghost predicate LedgerOk(ledger: seq<LedgerEntry>, sales: Sales) {
    && (forall i :: 0 <= i < |ledger| ==> EntryOk(sales, ledger[i]))
    && (forall i, j :: 0 <= i < j < |ledger| ==> ledger[i].sale != ledger[j].sale)
    && (forall s :: s in sales && sales[s].status == Delivered ==> exists i :: PaidOutAt(ledger, i, s))
  }

  ghost predicate BalancesOk(balances: map<UserId, int>, ledger: seq<LedgerEntry>) {
    forall u :: BalanceOf(balances, u) == EarnedBy(ledger, u) && BalanceOf(balances, u) <= INT4_MAX
  }

  /** What was charged is held, paid out or refunded. */
  ghost predicate Conserved(charges: seq<Charge>, sales: Sales, ledger: seq<LedgerEntry>) {
    ChargeTotal(charges) == SumOver(sales, HeldAmount) + LedgerTotal(ledger) + SumOver(sales, RefundedAmount)
  }

  // ---- relists ------------------------------------------------------------------------------

  /** `s` is the voided sale of listing `l`. */
  ghost predicate VoidedSaleOf(auctions: Auctions, sales: Sales, s: Id, l: Id) {
    && s in sales && sales[s].status == Voided
    && sales[s].auction in auctions && auctions[sales[s].auction].listing == l
  }

  ghost predicate IsAuctionOf(auctions: Auctions, a: Id, l: Id) {
    a in auctions && auctions[a].listing == l
  }

  /** A relisted listing is one whose sale fell through, and it was relisted once. */
  ghost predicate RelistsOk(listings: Listings, auctions: Auctions, sales: Sales) {
    && (forall r :: r in listings && listings[r].relistedFrom.Some? ==>
          && (exists s :: VoidedSaleOf(auctions, sales, s, listings[r].relistedFrom.value))
          && (exists a :: IsAuctionOf(auctions, a, r)))
    && (forall q, r :: (q in listings && r in listings && listings[q].relistedFrom.Some?
                        && listings[q].relistedFrom == listings[r].relistedFrom) ==> q == r)
  }

  ghost predicate Inv(db: Db) {
    && ListingsOk(db.listings, db.seen)
    && AuctionsOk(db.listings, db.auctions)
    && SaleKeysOk(db.auctions, db.sales)
    && BooksOk(db.auctions, db.bids, db.bidders)
    && SalesOk(db.auctions, db.bids, db.bidders, db.sales, db.offers)
    && DisputesOk(db.disputes, db.sales, db.releasing)
    && ChargesOk(db.charges, db.sales)
    && LedgerOk(db.ledger, db.sales)
    && BalancesOk(db.balances, db.ledger)
    && Conserved(db.charges, db.sales, db.ledger)
    && RelistsOk(db.listings, db.auctions, db.sales)
  }

  lemma EmptyIsValid()
    ensures Inv(EMPTY)
  {}
}
