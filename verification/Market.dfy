/**
  The sale lifecycle as a state machine: the database rows, one function per committed transaction,
  and runs of transactions. A handler made of two transactions is two steps, so anything may happen
  between them, a crash included.

  Every step is total: a request the code refuses returns the reason and leaves the rows alone, and
  so does a write the database refuses (a unique or foreign key, an int4 column out of range).
 */
module Market {
  import opened Options
  import opened Bidding

  const MAX_MONEY := 2_000_000_000
  const INT4_MAX := 2_147_483_647
  const HOUR := 3_600_000
  const DAY := 86_400_000

  // ---- rows ---------------------------------------------------------------------------------

  datatype ListingStatus = Draft | Pending | Approved | Rejected | Removed
  datatype AuctionStatus = Active | Closed | Cancelled
  datatype SaleStatus = Pending | Completed | Failed | Voided | Shipped | Delivered | Disputed | Refunded
  datatype DisputeStatus = Open | ResolvedRefunded | ResolvedReleased

  /** What a seller asks for; copied from the listing to its auction. */
  datatype Terms = Terms(startPrice: int, reserve: Option<int>, minIncrement: int, durationDays: int)

  datatype Listing = Listing(seller: UserId, terms: Terms, status: ListingStatus, relistedFrom: Option<Id>)

  datatype Auction = Auction(
    listing: Id, seller: UserId, terms: Terms,
    currentBid: int, bidCount: int, status: AuctionStatus, reserveMet: Option<bool>, endTime: Time)

  datatype Sale = Sale(
    auction: Id, winner: UserId, seller: UserId, amount: int, status: SaleStatus,
    reference: Option<nat>, paymentError: Option<string>, address: Option<string>, phone: Option<string>,
    shippedAt: Option<Time>, paidAt: Option<Time>, dueAt: Option<Time>, createdAt: Time,
    previousWinners: seq<UserId>)

  datatype Dispute = Dispute(sale: Id, raisedBy: UserId, reason: string, response: Option<string>,
                             status: DisputeStatus)

  datatype LedgerEntry = LedgerEntry(seller: UserId, sale: Id, amount: int)

  /** History: a successful charge, and an offer of a sale to a buyer (the close makes the first). */
  datatype Charge = Charge(sale: Id, payer: UserId, amount: int, address: string)
  datatype Offer = Offer(winner: UserId, amount: int)

  /**
    The tables; then `releasing`, the sales whose dispute was resolved RELEASE by a handler that has
    not run its second transaction yet; then the histories, which no code reads: every version of a
    listing row that was ever stored, everyone who ever bid, all charges, all offers.
   */
  datatype Db = Db(
    listings: map<Id, Listing>,
    auctions: map<Id, Auction>,
    bids: map<Id, seq<Bid>>,
    sales: map<Id, Sale>,
    disputes: map<Id, Dispute>,
    ledger: seq<LedgerEntry>,
    balances: map<UserId, int>,
    releasing: set<Id>,
    seen: map<Id, set<Listing>>,
    bidders: map<Id, set<UserId>>,
    charges: seq<Charge>,
    offers: map<Id, seq<Offer>>)

  const EMPTY := Db(map[], map[], map[], map[], map[], [], map[], {}, map[], map[], [], map[])

  datatype Outcome =
    | Ok | Invalid | NotFound | Forbidden | WrongState | HasBids | BiddingClosed | AuctionEnded
    | BidTooLow | BidTooHigh | AlreadyClosed | AlreadyPaid | NotPayable | Declined | NoAddress
    | NoOtherBidder | NoOpenDispute | AlreadyResponded | NotOpen
    | UniqueViolation | ForeignKeyViolation | OutOfRange
    | NeverRead  // a handler cannot hold a row that was never stored, or a release it did not resolve

  // ---- row helpers --------------------------------------------------------------------------

  predicate GoodTerms(t: Terms) {
    && 1 <= t.startPrice <= MAX_MONEY
    && (t.reserve.Some? ==> 1 <= t.reserve.value <= MAX_MONEY)
    && 1 <= t.minIncrement <= MAX_MONEY
    && 1 <= t.durationDays <= 30
  }

  predicate IsPaid(s: SaleStatus) {
    s.Completed? || s.Shipped? || s.Delivered? || s.Disputed? || s.Refunded?
  }

  predicate IsPayable(s: SaleStatus) {
    s == SaleStatus.Pending || s.Failed?
  }

  function BalanceOf(balances: map<UserId, int>, u: UserId): int {
    if u in balances then balances[u] else 0
  }

  function VersionsOf(db: Db, l: Id): set<Listing> {
    if l in db.seen then db.seen[l] else {}
  }

  function SetListing(db: Db, l: Id, row: Listing): Db {
    db.(listings := db.listings[l := row], seen := db.seen[l := VersionsOf(db, l) + {row}])
  }

  function AddAuction(db: Db, a: Id, row: Auction): Db {
    db.(auctions := db.auctions[a := row], bids := db.bids[a := []], bidders := db.bidders[a := {}])
  }

  function SetSale(db: Db, s: Id, row: Sale): Db {
    db.(sales := db.sales[s := row])
  }

  function NewAuction(l: Id, seller: UserId, terms: Terms, start: Time): Auction {
    Auction(l, seller, terms, terms.startPrice, 0, Active, None, start + terms.durationDays * DAY)
  }

  function DueFrom(from: Time, hours: int): Time {
    from + hours * HOUR
  }

  predicate HasAuction(db: Db, l: Id) {
    exists a :: a in db.auctions && db.auctions[a].listing == l
  }

  predicate HasSale(db: Db, a: Id) {
    exists s :: s in db.sales && db.sales[s].auction == a
  }

  predicate HasRelist(db: Db, l: Id) {
    exists r :: r in db.listings && db.listings[r].relistedFrom == Some(l)
  }

  predicate HasEntry(db: Db, s: Id) {
    exists i :: 0 <= i < |db.ledger| && db.ledger[i].sale == s
  }

  predicate HasDispute(db: Db, s: Id) {
    exists d :: d in db.disputes && db.disputes[d].sale == s
  }

  // ---- listings (the status check is on a row read earlier, outside any lock) ------------------

  function Submit(db: Db, l: Id, seller: UserId, terms: Terms): (Db, Outcome) {
    if !GoodTerms(terms) then (db, Invalid)
    else if l in db.seen then (db, UniqueViolation)
    else (SetListing(db, l, Listing(seller, terms, ListingStatus.Pending, None)), Ok)
  }

  /** An omitted reserve leaves the stored one in place. */
  function EditedTerms(stored: Terms, asked: Terms): Terms {
    if asked.reserve.Some? then asked else asked.(reserve := stored.reserve)
  }

  function Resubmit(db: Db, l: Id, read: Listing, user: UserId, terms: Terms): (Db, Outcome) {
    if read !in VersionsOf(db, l) then (db, NeverRead)
    else if !GoodTerms(terms) then (db, Invalid)
    else if read.seller != user then (db, Forbidden)
    else if read.status != Rejected then (db, WrongState)
    else if l !in db.listings then (db, NotFound)
    else (SetListing(db, l,
                     db.listings[l].(terms := EditedTerms(db.listings[l].terms, terms),
                                     status := ListingStatus.Pending)), Ok)
  }

  function Withdraw(db: Db, l: Id, read: Listing, user: UserId): (Db, Outcome) {
    if read !in VersionsOf(db, l) then (db, NeverRead)
    else if read.seller != user then (db, Forbidden)
    else if read.status != ListingStatus.Pending then (db, WrongState)
    else if l !in db.listings then (db, NotFound)
    else if HasAuction(db, l) || HasRelist(db, l) then (db, ForeignKeyViolation)
    else (db.(listings := db.listings - {l}), Ok)
  }

  function Approve(db: Db, l: Id, read: Listing, a: Id, now: Time): (Db, Outcome) {
    if read !in VersionsOf(db, l) then (db, NeverRead)
    else if read.status != ListingStatus.Pending then (db, WrongState)
    else if l !in db.listings then (db, NotFound)
    else
      var db' := SetListing(db, l, db.listings[l].(status := Approved));
      if HasAuction(db, l) then (db', Ok)
      else if a in db.auctions then (db, UniqueViolation)
      else (AddAuction(db', a, NewAuction(l, read.seller, read.terms, now)), Ok)
  }

  function Reject(db: Db, l: Id, read: Listing): (Db, Outcome) {
    if read !in VersionsOf(db, l) then (db, NeverRead)
    else if read.status != ListingStatus.Pending then (db, WrongState)
    else if l !in db.listings then (db, NotFound)
    else (SetListing(db, l, db.listings[l].(status := Rejected)), Ok)
  }

  /** First transaction of a takedown; the cancellation that may follow is a CancelAuction step. */
  function Takedown(db: Db, l: Id, read: Listing): (Db, Outcome) {
    if read !in VersionsOf(db, l) then (db, NeverRead)
    else if read.status != Approved then (db, WrongState)
    else if l !in db.listings then (db, NotFound)
    else (SetListing(db, l, db.listings[l].(status := Removed)), Ok)
  }

  // ---- auctions -----------------------------------------------------------------------------

  function MinAllowed(a: Auction): int {
    if a.bidCount == 0 then a.currentBid else a.currentBid + a.terms.minIncrement
  }

  function MaxAllowed(a: Auction): int {
    var byCurrent := if a.currentBid * 10 > MinAllowed(a) then a.currentBid * 10 else MinAllowed(a);
    var byStart := if a.terms.startPrice * 100 > byCurrent then a.terms.startPrice * 100 else byCurrent;
    if byStart < MAX_MONEY then byStart else MAX_MONEY
  }

  function PlaceBid(db: Db, a: Id, buyer: UserId, amount: int, bid: Id, now: Time): (Db, Outcome) {
    if !(1 <= amount <= MAX_MONEY) then (db, Invalid)
    else if a !in db.auctions || a !in db.bids || a !in db.bidders then (db, NotFound)
    else
      var row := db.auctions[a];
      if row.seller == buyer then (db, Forbidden)
      else if row.status != Active then (db, BiddingClosed)
      else if row.endTime <= now then (db, AuctionEnded)
      else if amount < MinAllowed(row) then (db, BidTooLow)
      else if amount > MaxAllowed(row) then (db, BidTooHigh)
      else
        (db.(bids := db.bids[a := db.bids[a] + [Bid(bid, Some(buyer), amount, now)]],
             auctions := db.auctions[a := row.(currentBid := amount, bidCount := row.bidCount + 1)],
             bidders := db.bidders[a := db.bidders[a] + {buyer}]), Ok)
  }

  function CancelAuction(db: Db, a: Id, user: UserId, isAdmin: bool): (Db, Outcome) {
    if a !in db.auctions then (db, NotFound)
    else
      var row := db.auctions[a];
      if !isAdmin && row.seller != user then (db, Forbidden)
      else if row.status != Active then (db, WrongState)
      else if !isAdmin && row.bidCount > 0 then (db, HasBids)
      else (db.(auctions := db.auctions[a := row.(status := Cancelled)]), Ok)
  }

  function ReserveVerdict(reserve: Option<int>, top: Option<Bid>): Option<bool> {
    if reserve.None? then None
    else Some((if top.Some? then top.value.amount else 0) >= reserve.value)
  }

  /** The row a close creates for the winning bid. */
  function FirstSale(a: Id, row: Auction, top: Bid, now: Time, hours: int): Sale
    requires top.buyer.Some?
  {
    Sale(a, top.buyer.value, row.seller, top.amount, SaleStatus.Pending,
         None, None, None, None, None, None, Some(DueFrom(now, hours)), now, [])
  }

  function SetVerdict(db: Db, a: Id, row: Auction, verdict: Option<bool>): Db {
    db.(auctions := db.auctions[a := row.(status := Closed, reserveMet := verdict)])
  }

  function AddSale(db: Db, s: Id, sale: Sale): Db {
    SetSale(db, s, sale).(offers := db.offers[s := [Offer(sale.winner, sale.amount)]])
  }

  /** Returns early only on CLOSED, so it also closes an auction that was cancelled. */
  function CloseAuction(db: Db, a: Id, s: Id, now: Time, hours: int): (Db, Outcome) {
    if a !in db.auctions then (db, NotFound)
    else
      var row := db.auctions[a];
      if row.status == Closed then (db, AlreadyClosed)
      else
        var top := FindNextBid(BookOf(db.bids, a), []);
        var verdict := ReserveVerdict(row.terms.reserve, top);
        var closed := SetVerdict(db, a, row, verdict);
        if top.None? || verdict == Some(false) then (closed, Ok)
        else if s in db.sales || HasSale(db, a) then (db, UniqueViolation)
        else
          var sale := FirstSale(a, row, top.value, now, hours);
          (AddSale(closed, s, sale), Ok)
  }

  // ---- payment ------------------------------------------------------------------------------

  /** The gateway's answer: outside this model, so any answer. */
  datatype Gateway = Approves(reference: nat) | Declines(reason: string)

  predicate ReferenceTaken(db: Db, reference: nat) {
    exists s :: s in db.sales && db.sales[s].reference == Some(reference)
  }

  function Pay(db: Db, s: Id, user: UserId, gateway: Gateway, address: string, phone: string,
               now: Time): (Db, Outcome) {
    if !(10 <= |address| <= 300) then (db, Invalid)
    else if s !in db.sales then (db, NotFound)
    else
      var row := db.sales[s];
      if row.winner != user then (db, Forbidden)
      else if IsPaid(row.status) then (db, AlreadyPaid)
      else if !IsPayable(row.status) then (db, NotPayable)
      else match gateway
        case Declines(reason) =>
          (SetSale(db, s, row.(address := Some(address), phone := Some(phone), paymentError := Some(reason))), Declined)
        case Approves(reference) =>
          if ReferenceTaken(db, reference) then (db, UniqueViolation)
          else
            (SetSale(db, s, row.(address := Some(address), phone := Some(phone), reference := Some(reference),
                                 status := Completed, paidAt := Some(now), paymentError := None))
             .(charges := db.charges + [Charge(s, user, row.amount, address)]), Ok)
  }

  function AdminVoid(db: Db, s: Id): (Db, Outcome) {
    if s !in db.sales then (db, NotFound)
    else if db.sales[s].status != SaleStatus.Pending then (db, WrongState)
    else (SetSale(db, s, db.sales[s].(status := Voided, paymentError := None)), Ok)
  }

  predicate IsPaymentOverdue(row: Sale, now: Time, hours: int) {
    if row.dueAt.Some? then row.dueAt.value < now else row.createdAt < now - hours * HOUR
  }

  /** The sweep's query, its two OR branches against one cutoff. */
  function FindOverduePayments(db: Db, now: Time, hours: int): set<Id> {
    var cutoff := now - hours * HOUR;
    set s | s in db.sales
         && db.sales[s].status == SaleStatus.Pending
         && (|| (db.sales[s].dueAt.Some? && db.sales[s].dueAt.value < now)
             || (db.sales[s].dueAt.None? && db.sales[s].createdAt < cutoff))
  }

  function VoidOverdue(db: Db, s: Id, now: Time, hours: int): (Db, Outcome) {
    if s !in db.sales then (db, NotFound)
    else if db.sales[s].status != SaleStatus.Pending then (db, WrongState)
    else if !IsPaymentOverdue(db.sales[s], now, hours) then (db, WrongState)
    else (SetSale(db, s, db.sales[s].(status := Voided, paymentError := None)), Ok)
  }

  // ---- recovery from a sale that was never paid ----------------------------------------------

  predicate IsRemoved(db: Db, l: Id) {
    l in db.listings && db.listings[l].status == Removed
  }

  function OfferToNextBidder(db: Db, s: Id, seller: UserId, now: Time, hours: int): (Db, Outcome) {
    if s !in db.sales || db.sales[s].auction !in db.auctions || s !in db.offers then (db, NotFound)
    else
      var row := db.sales[s];
      var listing := db.auctions[row.auction].listing;
      if row.seller != seller then (db, Forbidden)
      else if row.status != Voided then (db, WrongState)
      else if HasRelist(db, listing) || IsRemoved(db, listing) then (db, WrongState)
      else
        var alreadyOffered := row.previousWinners + [row.winner];
        var next := FindNextBid(BookOf(db.bids, row.auction), alreadyOffered);
        if next.None? then (db, NoOtherBidder)
        else
          var row' := row.(winner := next.value.buyer.value, previousWinners := alreadyOffered,
                           amount := next.value.amount, status := SaleStatus.Pending,
                           dueAt := Some(DueFrom(now, hours)), reference := None, paidAt := None,
                           paymentError := None, address := None, phone := None, shippedAt := None);
          (SetSale(db, s, row').(offers := db.offers[s := db.offers[s] + [Offer(row'.winner, row'.amount)]]), Ok)
  }

  function Relist(db: Db, s: Id, seller: UserId, l: Id, a: Id, start: Time): (Db, Outcome) {
    if s !in db.sales || db.sales[s].auction !in db.auctions
       || db.auctions[db.sales[s].auction].listing !in db.listings then (db, NotFound)
    else
      var row := db.sales[s];
      var originalId := db.auctions[row.auction].listing;
      var original := db.listings[originalId];
      if row.seller != seller then (db, Forbidden)
      else if row.status != Voided then (db, WrongState)
      else if original.status == Removed then (db, WrongState)
      else if HasRelist(db, originalId) then (db, WrongState)  // the relistedFromId constraint
      else if l in db.seen || a in db.auctions then (db, UniqueViolation)
      else
        var db' := SetListing(db, l, Listing(original.seller, original.terms, Approved, Some(originalId)));
        (AddAuction(db', a, NewAuction(l, original.seller, original.terms, start)), Ok)
  }

  // ---- fulfilment ---------------------------------------------------------------------------

  function MarkShipped(db: Db, s: Id, seller: UserId, now: Time): (Db, Outcome) {
    if s !in db.sales then (db, NotFound)
    else
      var row := db.sales[s];
      if row.seller != seller then (db, Forbidden)
      else if row.status != Completed then (db, WrongState)
      else if row.address.None? || row.address.value == "" then (db, NoAddress)
      else (SetSale(db, s, row.(status := Shipped, shippedAt := Some(now))), Ok)
  }

  /** The payout: one ledger entry and the seller's running balance, an int4 column. */
  function ConfirmDelivery(db: Db, s: Id, requireWinner: Option<UserId>, fromDisputed: bool): (Db, Outcome) {
    if s !in db.sales then (db, NotFound)
    else
      var row := db.sales[s];
      if requireWinner.Some? && row.winner != requireWinner.value then (db, Forbidden)
      else if row.status != (if fromDisputed then Disputed else Shipped) then (db, WrongState)
      else if HasEntry(db, s) then (db, UniqueViolation)
      else if BalanceOf(db.balances, row.seller) + row.amount > INT4_MAX then (db, OutOfRange)
      else
        (SetSale(db, s, row.(status := Delivered))
         .(ledger := db.ledger + [LedgerEntry(row.seller, s, row.amount)],
           balances := db.balances[row.seller := BalanceOf(db.balances, row.seller) + row.amount]), Ok)
  }

  function FindTimedOutShipments(db: Db, now: Time, reviewHours: int): set<Id> {
    var cutoff := now - reviewHours * HOUR;
    set s | s in db.sales && db.sales[s].status == Shipped
         && db.sales[s].shippedAt.Some? && db.sales[s].shippedAt.value < cutoff
  }

  function RaiseDispute(db: Db, s: Id, buyer: UserId, d: Id, reason: string): (Db, Outcome) {
    if s !in db.sales then (db, NotFound)
    else
      var row := db.sales[s];
      if row.winner != buyer then (db, Forbidden)
      else if row.status != Shipped then (db, WrongState)
      else if d in db.disputes || HasDispute(db, s) then (db, UniqueViolation)
      else
        (SetSale(db, s, row.(status := Disputed))
         .(disputes := db.disputes[d := Dispute(s, buyer, reason, None, Open)]), Ok)
  }

  /** The dispute is found by the sale it is about. */
  function RespondToDispute(db: Db, s: Id, d: Id, seller: UserId, response: string): (Db, Outcome) {
    if s !in db.sales then (db, NotFound)
    else if db.sales[s].seller != seller then (db, Forbidden)
    else if d !in db.disputes || db.disputes[d].sale != s then (db, NoOpenDispute)
    else if db.disputes[d].status != Open then (db, NoOpenDispute)
    else if db.disputes[d].response.Some? then (db, AlreadyResponded)
    else (db.(disputes := db.disputes[d := db.disputes[d].(response := Some(response))]), Ok)
  }

  /** REFUND writes the sale without looking at its status; RELEASE leaves the sale to a second transaction. */
  function ResolveDispute(db: Db, d: Id, refund: bool): (Db, Outcome) {
    if d !in db.disputes then (db, NotFound)
    else
      var row := db.disputes[d];
      if row.status != Open then (db, NotOpen)
      else if row.sale !in db.sales then (db, NotFound)
      else
        var resolved :=
            db.(disputes := db.disputes[d := row.(status := if refund then ResolvedRefunded else ResolvedReleased)]);
        if refund then (SetSale(resolved, row.sale, db.sales[row.sale].(status := Refunded)), Ok)
        else (resolved.(releasing := db.releasing + {row.sale}), Ok)
  }

  /** Second transaction of a RELEASE. Whatever it returns, the handler is over. */
  function FinishRelease(db: Db, s: Id): (Db, Outcome) {
    if s !in db.releasing then (db, NeverRead)
    else ConfirmDelivery(db.(releasing := db.releasing - {s}), s, None, true)
  }

  /** The process dies between the two transactions of a RELEASE. */
  function CrashRelease(db: Db, s: Id): (Db, Outcome) {
    if s !in db.releasing then (db, NeverRead) else (db.(releasing := db.releasing - {s}), Ok)
  }

  // ---- accounts -----------------------------------------------------------------------------

  function WithoutBuyer(book: seq<Bid>, u: UserId): (r: seq<Bid>)
    ensures |r| == |book|
    ensures forall i :: 0 <= i < |r| ==> r[i] == if book[i].buyer == Some(u) then book[i].(buyer := None) else book[i]
  {
    seq(|book|, i requires 0 <= i < |book| => if book[i].buyer == Some(u) then book[i].(buyer := None) else book[i])
  }

  predicate IsReferenced(db: Db, u: UserId) {
    || (exists l :: l in db.listings && db.listings[l].seller == u)
    || (exists a :: a in db.auctions && db.auctions[a].seller == u)
    || (exists s :: s in db.sales && (db.sales[s].winner == u || db.sales[s].seller == u))
    || (exists i :: 0 <= i < |db.ledger| && db.ledger[i].seller == u)
  }

  /**
    What the schema's foreign keys do when a user row goes: RESTRICT on everything but bids, which
    lose their buyer.
   */
  function DeleteUser(db: Db, u: UserId): (Db, Outcome) {
    if IsReferenced(db, u) then (db, ForeignKeyViolation)
    else (db.(bids := map a | a in db.bids :: WithoutBuyer(db.bids[a], u)), Ok)
  }

  // ---- runs ---------------------------------------------------------------------------------

  datatype Step =
    | SSubmit(l: Id, seller: UserId, terms: Terms)
    | SResubmit(l: Id, read: Listing, user: UserId, terms: Terms)
    | SWithdraw(l: Id, read: Listing, user: UserId)
    | SApprove(l: Id, read: Listing, a: Id, now: Time)
    | SReject(l: Id, read: Listing)
    | STakedown(l: Id, read: Listing)
    | SPlaceBid(a: Id, buyer: UserId, amount: int, bid: Id, now: Time)
    | SCancel(a: Id, user: UserId, isAdmin: bool)
    | SClose(a: Id, s: Id, now: Time, hours: int)
    | SPay(s: Id, user: UserId, gateway: Gateway, address: string, phone: string, now: Time)
    | SAdminVoid(s: Id)
    | SVoidOverdue(s: Id, now: Time, hours: int)
    | SOffer(s: Id, seller: UserId, now: Time, hours: int)
    | SRelist(s: Id, seller: UserId, l: Id, a: Id, now: Time)
    | SShip(s: Id, seller: UserId, now: Time)
    | SConfirm(s: Id, requireWinner: Option<UserId>)
    | SDispute(s: Id, user: UserId, d: Id, reason: string)
    | SRespond(s: Id, d: Id, seller: UserId, response: string)
    | SResolve(d: Id, refund: bool)
    | SFinishRelease(s: Id)
    | SCrashRelease(s: Id)
    | SDeleteUser(user: UserId)

  function Apply(db: Db, step: Step): (Db, Outcome) {
    match step
    case SSubmit(l, seller, terms) => Submit(db, l, seller, terms)
    case SResubmit(l, read, user, terms) => Resubmit(db, l, read, user, terms)
    case SWithdraw(l, read, user) => Withdraw(db, l, read, user)
    case SApprove(l, read, a, now) => Approve(db, l, read, a, now)
    case SReject(l, read) => Reject(db, l, read)
    case STakedown(l, read) => Takedown(db, l, read)
    case SPlaceBid(a, buyer, amount, bid, now) => PlaceBid(db, a, buyer, amount, bid, now)
    case SCancel(a, user, isAdmin) => CancelAuction(db, a, user, isAdmin)
    case SClose(a, s, now, hours) => CloseAuction(db, a, s, now, hours)
    case SPay(s, user, gateway, address, phone, now) => Pay(db, s, user, gateway, address, phone, now)
    case SAdminVoid(s) => AdminVoid(db, s)
    case SVoidOverdue(s, now, hours) => VoidOverdue(db, s, now, hours)
    case SOffer(s, seller, now, hours) => OfferToNextBidder(db, s, seller, now, hours)
    case SRelist(s, seller, l, a, now) => Relist(db, s, seller, l, a, now)
    case SShip(s, seller, now) => MarkShipped(db, s, seller, now)
    case SConfirm(s, requireWinner) => ConfirmDelivery(db, s, requireWinner, false)
    case SDispute(s, user, d, reason) => RaiseDispute(db, s, user, d, reason)
    case SRespond(s, d, seller, response) => RespondToDispute(db, s, d, seller, response)
    case SResolve(d, refund) => ResolveDispute(db, d, refund)
    case SFinishRelease(s) => FinishRelease(db, s)
    case SCrashRelease(s) => CrashRelease(db, s)
    case SDeleteUser(user) => DeleteUser(db, user)
  }

  function Run(db: Db, steps: seq<Step>): Db {
    if steps == [] then db else Apply(Run(db, steps[..|steps| - 1]), steps[|steps| - 1]).0
  }

  ghost predicate IsTrace(dbs: seq<Db>, steps: seq<Step>) {
    && |dbs| == |steps| + 1
    && forall i {:trigger steps[i]} :: 0 <= i < |steps| ==> dbs[i + 1] == Apply(dbs[i], steps[i]).0
  }

  /** Some run of transactions leads from one state to the other. */
  ghost predicate Leads(db: Db, db': Db) {
    exists dbs: seq<Db>, steps: seq<Step> :: IsTrace(dbs, steps) && dbs[0] == db && dbs[|steps|] == db'
  }

  ghost predicate Reachable(db: Db) {
    Leads(EMPTY, db)
  }

  lemma {:induction false} RunLeads(db: Db, steps: seq<Step>)
    ensures Leads(db, Run(db, steps))
  {
    hide Apply;
    if steps == [] {
      assert IsTrace([db], []);
    } else {
      var init := steps[..|steps| - 1];
      RunLeads(db, init);
      StepLeads(db, Run(db, init), steps[|steps| - 1]);
    }
  }

  lemma StepLeads(db: Db, db': Db, step: Step)
    requires Leads(db, db')
    ensures Leads(db, Apply(db', step).0)
  {
    hide Apply;
    var dbs, steps :| IsTrace(dbs, steps) && dbs[0] == db && dbs[|steps|] == db';
    var dbs', steps' := dbs + [Apply(db', step).0], steps + [step];
    assert forall i {:trigger steps'[i]} :: 0 <= i < |steps| ==> steps'[i] == steps[i];
    assert IsTrace(dbs', steps');
  }

  lemma {:induction false} TraceIsRun(dbs: seq<Db>, steps: seq<Step>, n: nat)
    requires IsTrace(dbs, steps) && n <= |steps|
    ensures dbs[n] == Run(dbs[0], steps[..n])
  {
    hide Apply;
    if n > 0 {
      TraceIsRun(dbs, steps, n - 1);
      assert steps[..n][..n - 1] == steps[..n - 1];
      assert dbs[n] == Apply(dbs[n - 1], steps[n - 1]).0;
    }
  }

  /** Traces are runs. */
  lemma LeadsByRun(db: Db, db': Db) returns (steps: seq<Step>)
    requires Leads(db, db')
    ensures db' == Run(db, steps)
  {
    hide Apply, Run;
    var dbs, ss :| IsTrace(dbs, ss) && dbs[0] == db && dbs[|ss|] == db';
    TraceIsRun(dbs, ss, |ss|);
    assert ss[..|ss|] == ss;
    steps := ss;
  }

  lemma LeadsOn(a: Db, b: Db, c: Db)
    requires Leads(a, b) && Leads(b, c)
    ensures Leads(a, c)
  {
    hide Apply;
    var dbs, steps :| IsTrace(dbs, steps) && dbs[0] == b && dbs[|steps|] == c;
    LeadsAlong(a, dbs, steps, |steps|);
  }

  lemma {:induction false} LeadsAlong(a: Db, dbs: seq<Db>, steps: seq<Step>, n: nat)
    requires IsTrace(dbs, steps) && n <= |steps| && Leads(a, dbs[0])
    ensures Leads(a, dbs[n])
  {
    hide Apply, Leads;
    if n > 0 {
      LeadsAlong(a, dbs, steps, n - 1);
      assert dbs[n] == Apply(dbs[n - 1], steps[n - 1]).0;
      StepLeads(a, dbs[n - 1], steps[n - 1]);
    }
  }
}
