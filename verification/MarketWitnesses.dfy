/**
  That the states the theorems warn of are reached: honest runs, from any reachable state, into a sold
  cancelled auction, the window of a release, a stranded sale and a payout out of range.
 */
module MarketWitnesses {
  import opened Options
  import opened Bidding
  import opened Market
  import opened MarketInvariant
  import opened MarketPreservation
  import opened MarketHistory
  import opened MarketTheorems

  /** One item, sold to one bidder at its starting price, all at one instant. */
  datatype Plan = Plan(l: Id, a: Id, s: Id, seller: UserId, buyer: UserId, price: int, reference: nat, now: Time)

  const ADDRESS := "10 Main Street"
  const HOURS := 48

  ghost predicate IsFresh(db: Db, p: Plan) {
    && p.l !in db.seen && p.a !in db.auctions && p.s !in db.sales && !ReferenceTaken(db, p.reference)
    && p.seller != p.buyer && 1 <= p.price <= MAX_MONEY
  }

  function TermsOf(p: Plan): Terms {
    Terms(p.price, None, 1, 7)
  }

  function Asked(p: Plan): Listing {
    Listing(p.seller, TermsOf(p), ListingStatus.Pending, None)
  }

  function Opened(p: Plan): Auction {
    NewAuction(p.l, p.seller, TermsOf(p), p.now)
  }

  function BidOn(p: Plan): Auction {
    Opened(p).(currentBid := p.price, bidCount := 1)
  }

  function Won(p: Plan): Sale {
    Sale(p.a, p.buyer, p.seller, p.price, SaleStatus.Pending, None, None, None, None, None, None,
         Some(DueFrom(p.now, HOURS)), p.now, [])
  }

  function Paid(p: Plan): Sale {
    Won(p).(status := Completed, reference := Some(p.reference), paidAt := Some(p.now),
            address := Some(ADDRESS), phone := Some(""))
  }

  function Sent(p: Plan): Sale {
    Paid(p).(status := Shipped, shippedAt := Some(p.now))
  }

  /** A state that differs from an earlier one in the plan's own rows only. */
  ghost predicate Differs(db: Db, db': Db, p: Plan, listing: Listing, auction: Auction, sale: Option<Sale>) {
    && db'.listings == db.listings[p.l := listing]
    && db'.auctions == db.auctions[p.a := auction]
    && db'.sales == (match sale case None => db.sales case Some(r) => db.sales[p.s := r])
    && db'.disputes == db.disputes && db'.ledger == db.ledger
    && db'.balances == db.balances && db'.releasing == db.releasing && db'.seen.Keys == db.seen.Keys + {p.l}
  }

  ghost predicate HasOneBid(db: Db, p: Plan) {
    p.a in db.bids && |db.bids[p.a]| == 1 && db.bids[p.a][0].buyer == Some(p.buyer) && db.bids[p.a][0].amount == p.price
  }

  // ---- one step each ------------------------------------------------------------------------

  /** No row of a reachable state is about a listing, auction or sale that is not there. */
  lemma NothingIsAbout(db: Db, p: Plan)
    requires Inv(db) && IsFresh(db, p)
    ensures !HasAuction(db, p.l) && !HasSale(db, p.a) && !HasDispute(db, p.s) && !HasEntry(db, p.s)
    ensures p.l !in db.listings
  {
    hide BooksOk, SalesOk, ChargesOk, BalancesOk, Conserved, RelistsOk, DisputeFits;
    assert forall a :: a in db.auctions ==> AuctionOk(db.listings, db.auctions[a]);
    assert forall s :: s in db.sales ==> SaleKeyOk(db.auctions, db.sales[s]);
    assert forall i :: 0 <= i < |db.ledger| ==> EntryOk(db.sales, db.ledger[i]);
  }

  lemma Submitting(db: Db, p: Plan)
    requires IsFresh(db, p) && !HasAuction(db, p.l)
    ensures Apply(db, SSubmit(p.l, p.seller, TermsOf(p))).0 == SetListing(db, p.l, Asked(p))
    ensures Asked(p) in VersionsOf(SetListing(db, p.l, Asked(p)), p.l)
    ensures !HasAuction(SetListing(db, p.l, Asked(p)), p.l)
  {}

  lemma Approving(db: Db, p: Plan)
    requires IsFresh(db, p)
    requires Asked(p) in VersionsOf(SetListing(db, p.l, Asked(p)), p.l)
    requires !HasAuction(SetListing(db, p.l, Asked(p)), p.l)
    ensures var db' := Apply(SetListing(db, p.l, Asked(p)), SApprove(p.l, Asked(p), p.a, p.now)).0;
            && Differs(db, db', p, Asked(p).(status := Approved), Opened(p), None)
            && p.a in db'.bids && db'.bids[p.a] == [] && p.a in db'.bidders
  {
    hide HasAuction, ReferenceTaken;
  }

  lemma Opening(db: Db, p: Plan) returns (db': Db)
    requires Inv(db) && IsFresh(db, p)
    ensures Leads(db, db') && Differs(db, db', p, Asked(p).(status := Approved), Opened(p), None)
    ensures p.a in db'.bids && db'.bids[p.a] == [] && p.a in db'.bidders
  {
    hide Inv, Leads, Apply, HasAuction, IsFresh, Differs;
    NothingIsAbout(db, p);
    Submitting(db, p);
    Approving(db, p);
    StaysPut(db);
    StepLeads(db, db, SSubmit(p.l, p.seller, TermsOf(p)));
    StepLeads(db, SetListing(db, p.l, Asked(p)), SApprove(p.l, Asked(p), p.a, p.now));
    db' := Apply(SetListing(db, p.l, Asked(p)), SApprove(p.l, Asked(p), p.a, p.now)).0;
  }

  lemma BiddingFirst(db: Db, db2: Db, p: Plan)
    requires IsFresh(db, p) && Differs(db, db2, p, Asked(p).(status := Approved), Opened(p), None)
    requires p.a in db2.bids && db2.bids[p.a] == [] && p.a in db2.bidders
    ensures var db' := Apply(db2, SPlaceBid(p.a, p.buyer, p.price, 0, p.now)).0;
            HasOneBid(db', p) && Differs(db, db', p, Asked(p).(status := Approved), BidOn(p), None)
  {
    hide ReferenceTaken;
  }

  lemma AuctionWithBid(db: Db, p: Plan) returns (db': Db)
    requires Inv(db) && IsFresh(db, p)
    ensures Leads(db, db') && Differs(db, db', p, Asked(p).(status := Approved), BidOn(p), None) && HasOneBid(db', p)
  {
    hide Inv, Leads, Apply, IsFresh, Differs, HasOneBid;
    var db2 := Opening(db, p);
    BiddingFirst(db, db2, p);
    StepLeads(db, db2, SPlaceBid(p.a, p.buyer, p.price, 0, p.now));
    db' := Apply(db2, SPlaceBid(p.a, p.buyer, p.price, 0, p.now)).0;
  }

  lemma Closing(db: Db, db3: Db, p: Plan, status: AuctionStatus)
    requires Inv(db) && IsFresh(db, p) && status != Closed && HasOneBid(db3, p)
    requires Differs(db, db3, p, Asked(p).(status := Approved), BidOn(p).(status := status), None)
    ensures var (db', outcome) := CloseAuction(db3, p.a, p.s, p.now, HOURS);
            outcome == Ok
            && Differs(db, db', p, Asked(p).(status := Approved), BidOn(p).(status := Closed), Some(Won(p)))
  {
    hide Inv;
    NothingIsAbout(db, p);
    var book := db3.bids[p.a];
    assert book == [book[0]];
    assert FindNextBid(BookOf(db3.bids, p.a), []) == Some(book[0]);
    assert !HasSale(db3, p.a);
  }

  lemma Paying(db: Db, db4: Db, p: Plan)
    requires IsFresh(db, p)
    requires Differs(db, db4, p, Asked(p).(status := Approved), BidOn(p).(status := Closed), Some(Won(p)))
    ensures var db' := Apply(db4, SPay(p.s, p.buyer, Approves(p.reference), ADDRESS, "", p.now)).0;
            Differs(db, db', p, Asked(p).(status := Approved), BidOn(p).(status := Closed), Some(Paid(p)))
  {
    assert !ReferenceTaken(db4, p.reference);
  }

  lemma Shipping(db: Db, db5: Db, p: Plan)
    requires Differs(db, db5, p, Asked(p).(status := Approved), BidOn(p).(status := Closed), Some(Paid(p)))
    ensures var db' := Apply(db5, SShip(p.s, p.seller, p.now)).0;
            Differs(db, db', p, Asked(p).(status := Approved), BidOn(p).(status := Closed), Some(Sent(p)))
  {}

  // ---- an honest sale ------------------------------------------------------------------------

  /** From any reachable state, anything new can be listed, sold, paid and shipped. */
  lemma HonestSale(db: Db, p: Plan) returns (db': Db)
    requires Reachable(db) && IsFresh(db, p)
    ensures Leads(db, db') && Reachable(db')
    ensures Differs(db, db', p, Asked(p).(status := Approved), BidOn(p).(status := Closed), Some(Sent(p)))
  {
    hide Inv, Leads, Apply, CloseAuction, Differs;
    Reached(db);
    var db3 := AuctionWithBid(db, p);
    ActiveIsBidOn(p);
    Closing(db, db3, p, Active);
    var close := SClose(p.a, p.s, p.now, HOURS);
    var db4 := Apply(db3, close).0;
    CloseStep(db3, p);
    StepLeads(db, db3, close);
    Paying(db, db4, p);
    var pay := SPay(p.s, p.buyer, Approves(p.reference), ADDRESS, "", p.now);
    StepLeads(db, db4, pay);
    var db5 := Apply(db4, pay).0;
    Shipping(db, db5, p);
    StepLeads(db, db5, SShip(p.s, p.seller, p.now));
    db' := Apply(db5, SShip(p.s, p.seller, p.now)).0;
    LeadsOn(EMPTY, db, db');
  }

  lemma ActiveIsBidOn(p: Plan)
    ensures BidOn(p).(status := Active) == BidOn(p)
  {}

  lemma CloseStep(db: Db, p: Plan)
    ensures Apply(db, SClose(p.a, p.s, p.now, HOURS)) == CloseAuction(db, p.a, p.s, p.now, HOURS)
  {}

  // ---- a cancelled auction is sold -------------------------------------------------------------

  /** An admin cancels an auction that has a bid; the close job already under way sells it all the same. */
  lemma CancelledIsSold(db: Db, p: Plan) returns (cancelled: Db)
    requires Reachable(db) && IsFresh(db, p)
    ensures Reachable(cancelled) && p.a in cancelled.auctions && cancelled.auctions[p.a].status == Cancelled
    ensures var (sold, outcome) := CloseAuction(cancelled, p.a, p.s, p.now, HOURS);
            && outcome == Ok && p.a in sold.auctions && sold.auctions[p.a].status == Closed
            && p.s !in cancelled.sales && p.s in sold.sales && sold.sales[p.s] == Won(p)
  {
    hide Inv, Leads, Apply, CloseAuction, Differs;
    Reached(db);
    var db3 := AuctionWithBid(db, p);
    StepLeads(db, db3, SCancel(p.a, 0, true));
    cancelled := Apply(db3, SCancel(p.a, 0, true)).0;
    LeadsOn(EMPTY, db, cancelled);
    Cancelling(db, db3, p);
    Closing(db, cancelled, p, Cancelled);
    OwnRows(db, cancelled, p, BidOn(p).(status := Cancelled), None);
    OwnRows(db, CloseAuction(cancelled, p.a, p.s, p.now, HOURS).0, p, BidOn(p).(status := Closed), Some(Won(p)));
  }

  lemma Cancelling(db: Db, db3: Db, p: Plan)
    requires HasOneBid(db3, p) && Differs(db, db3, p, Asked(p).(status := Approved), BidOn(p), None)
    ensures var db' := Apply(db3, SCancel(p.a, 0, true)).0;
            && HasOneBid(db', p)
            && Differs(db, db', p, Asked(p).(status := Approved), BidOn(p).(status := Cancelled), None)
  {}

  lemma OwnRows(db: Db, db': Db, p: Plan, auction: Auction, sale: Option<Sale>)
    requires Differs(db, db', p, Asked(p).(status := Approved), auction, sale)
    ensures p.a in db'.auctions && db'.auctions[p.a] == auction
    ensures sale.Some? ==> p.s in db'.sales && db'.sales[p.s] == sale.value
    ensures sale.None? ==> db'.sales == db.sales
  {}

  // ---- the window of a release, and what can come of it ------------------------------------------

  function Contested(p: Plan): Sale {
    Sent(p).(status := Disputed)
  }

  function Decided(p: Plan): Dispute {
    Dispute(p.s, p.buyer, "broken", None, ResolvedReleased)
  }

  lemma Raising(db: Db, sent: Db, p: Plan, d: Id)
    requires Differs(db, sent, p, Asked(p).(status := Approved), BidOn(p).(status := Closed), Some(Sent(p)))
    requires d !in db.disputes && !HasDispute(db, p.s)
    ensures var db' := Apply(sent, SDispute(p.s, p.buyer, d, "broken")).0;
            && Differs(db, db'.(disputes := db.disputes), p,
                       Asked(p).(status := Approved), BidOn(p).(status := Closed), Some(Contested(p)))
            && db'.disputes == db.disputes[d := Decided(p).(status := Open)]
  {
    hide HasDispute, Opened, BidOn;
    SameDisputes(db, sent, p.s);
  }

  lemma SameDisputes(db: Db, db': Db, s: Id)
    requires db'.disputes == db.disputes
    ensures HasDispute(db', s) <==> HasDispute(db, s)
  {}

  lemma Deciding(db: Db, raised: Db, p: Plan, d: Id)
    requires Differs(db, raised.(disputes := db.disputes), p,
                     Asked(p).(status := Approved), BidOn(p).(status := Closed), Some(Contested(p)))
    requires raised.disputes == db.disputes[d := Decided(p).(status := Open)]
    ensures var db' := Apply(raised, SResolve(d, false)).0;
            && Differs(db, db'.(disputes := db.disputes, releasing := db.releasing), p,
                       Asked(p).(status := Approved), BidOn(p).(status := Closed), Some(Contested(p)))
            && db'.disputes == db.disputes[d := Decided(p)] && db'.releasing == db.releasing + {p.s}
  {}

  /** From any reachable state a sale can be decided for its seller and not be paid out yet. */
  lemma WindowIsReached(db: Db, p: Plan, d: Id) returns (db': Db)
    requires Reachable(db) && IsFresh(db, p) && d !in db.disputes
    ensures Reachable(db')
    ensures Differs(db, db'.(disputes := db.disputes, releasing := db.releasing), p,
                    Asked(p).(status := Approved), BidOn(p).(status := Closed), Some(Contested(p)))
    ensures db'.disputes == db.disputes[d := Decided(p)] && db'.releasing == db.releasing + {p.s}
  {
    hide Inv, Leads, Apply, Differs, HasDispute;
    Reached(db);
    NothingIsAbout(db, p);
    var sent := HonestSale(db, p);
    var raise, decide := SDispute(p.s, p.buyer, d, "broken"), SResolve(d, false);
    Raising(db, sent, p, d);
    StepLeads(EMPTY, sent, raise);
    Deciding(db, Apply(sent, raise).0, p, d);
    StepLeads(EMPTY, Apply(sent, raise).0, decide);
    db' := Apply(Apply(sent, raise).0, decide).0;
  }

  /** And if the handler dies there, the sale is stranded. */
  lemma StrandedIsReached(db: Db, p: Plan, d: Id) returns (db': Db)
    requires Reachable(db) && IsFresh(db, p) && d !in db.disputes
    ensures Reachable(db') && IsStranded(db'.disputes, db'.sales, db'.releasing, p.s)
  {
    hide Inv, Leads;
    var window := WindowIsReached(db, p, d);
    StepLeads(EMPTY, window, SCrashRelease(p.s));
    db' := Apply(window, SCrashRelease(p.s)).0;
    assert AboutSale(db'.disputes, d, p.s);
  }

  // ---- a payout out of range ------------------------------------------------------------------

  const FIRST := Plan(1, 1, 1, 7, 8, MAX_MONEY, 1, 0)
  const SECOND := Plan(2, 2, 2, 7, 8, MAX_MONEY, 2, 0)

  /** One seller was paid the largest amount there is, once. */
  lemma RichSeller() returns (db: Db)
    ensures Reachable(db) && IsFresh(db, SECOND) && db.disputes == map[] && BalanceOf(db.balances, 7) == MAX_MONEY
    ensures db.releasing == {} && forall s :: s in db.sales ==> db.sales[s].status == Delivered
  {
    hide Inv, Leads, Apply;
    StaysPut(EMPTY);
    assert IsFresh(EMPTY, FIRST);
    var sent := HonestSale(EMPTY, FIRST);
    StepLeads(EMPTY, sent, SConfirm(1, None));
    db := Apply(sent, SConfirm(1, None)).0;
    Delivering(sent);
  }

  lemma Delivering(sent: Db)
    requires Differs(EMPTY, sent, FIRST, Asked(FIRST).(status := Approved), BidOn(FIRST).(status := Closed),
                     Some(Sent(FIRST)))
    ensures var db := Apply(sent, SConfirm(1, None)).0;
            && IsFresh(db, SECOND) && db.disputes == map[] && db.releasing == {}
            && BalanceOf(db.balances, 7) == MAX_MONEY
            && db.sales == map[1 := Sent(FIRST).(status := Delivered)]
  {
    assert !HasEntry(sent, 1);
  }

  /**
    A second sale at that price cannot be paid out: its delivery is refused, the sweep that lists it
    gives up on it, and so does a release after a dispute, which strands it.
   */
  lemma PayoutOutOfRange(now: Time) returns (sent: Db, window: Db)
    requires now > HOURS * HOUR
    ensures Reachable(sent) && FindTimedOutShipments(sent, now, HOURS) == {2}
    ensures ConfirmDelivery(sent, 2, None, false).1 == OutOfRange
    ensures Reachable(window) && 2 in window.releasing && FinishRelease(window, 2).1 == OutOfRange
    ensures var after := FinishRelease(window, 2).0; IsStranded(after.disputes, after.sales, after.releasing, 2)
  {
    hide Inv, Leads;
    var rich := RichSeller();
    sent := HonestSale(rich, SECOND);
    Reached(rich);
    NothingIsAbout(rich, SECOND);
    assert !HasEntry(sent, 2);
    window := WindowIsReached(rich, SECOND, 1);
    assert !HasEntry(window.(releasing := window.releasing - {2}), 2);
    assert AboutSale(FinishRelease(window, 2).0.disputes, 1, 2);
  }
}
