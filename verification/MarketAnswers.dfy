/**
  What every transaction answers and what it writes, in a reachable state: each answer's exact
  condition, over the rows rather than over the checks, and the whole new state behind an Ok. That a
  refusal writes nothing is MarketTheorems.RefusedOrByItsParty.
 */
module MarketAnswers {
  import opened Options
  import opened Bidding
  import opened Market
  import opened MarketInvariant
  import opened MarketPreservation
  import opened MarketHistory
  import opened MarketTheorems

  // ---- listings -------------------------------------------------------------------------------

  /** A listing that is submitted can be withdrawn, and then everything is as before. */
  lemma SubmitThenWithdraw(db: Db, l: Id, seller: UserId, terms: Terms)
    requires Reachable(db)
    ensures Submit(db, l, seller, terms).1 == Ok <==> GoodTerms(terms) && l !in db.seen
    ensures Submit(db, l, seller, terms).1 == Ok ==>
              var db1 := Submit(db, l, seller, terms).0;
              && l !in db.listings && l in db1.listings
              && db1 == db.(listings := db.listings[l := db1.listings[l]], seen := db1.seen)
              && db1.listings[l] == Listing(seller, terms, ListingStatus.Pending, None)
              && var (db2, outcome) := Withdraw(db1, l, db1.listings[l], seller);
                 outcome == Ok && db2.(seen := db.seen) == db
  {
    hide Inv, Leads;
    Reached(db);
    if Submit(db, l, seller, terms).1 == Ok {
      Unlisted(db, l);
      var db1 := Submit(db, l, seller, terms).0;
      assert !HasAuction(db1, l) && !HasRelist(db1, l);
      assert db1.listings - {l} == db.listings;
    }
  }

  lemma Unlisted(db: Db, l: Id)
    requires Inv(db) && l !in db.seen
    ensures l !in db.listings && !HasAuction(db, l) && !HasRelist(db, l)
  {
    hide SaleKeysOk, BooksOk, SalesOk, DisputesOk, ChargesOk, LedgerOk, BalancesOk, Conserved;
    assert forall a :: a in db.auctions ==> AuctionOk(db.listings, db.auctions[a]);
    forall r | r in db.listings ensures db.listings[r].relistedFrom != Some(l) {
      if db.listings[r].relistedFrom == Some(l) {
        RelistedFellThrough(db, r, l);
      }
    }
  }

  /**
    Rejected and resubmitted as it was, a listing is as before; an edit changes its terms, an
    omitted reserve stays.
   */
  lemma RejectThenResubmit(db: Db, l: Id, terms: Terms)
    requires Reachable(db) && l in db.listings && db.listings[l].status == ListingStatus.Pending && GoodTerms(terms)
    ensures var row := db.listings[l];
            var (db1, rejected) := Reject(db, l, row);
            && rejected == Ok && l in db1.listings && db1.listings[l] == row.(status := Rejected)
            && db1 == db.(listings := db.listings[l := db1.listings[l]], seen := db1.seen)
            && var (db2, resubmitted) := Resubmit(db1, l, db1.listings[l], row.seller, terms);
               && resubmitted == Ok && l in db2.listings
               && db2 == db.(listings := db.listings[l := db2.listings[l]], seen := db2.seen)
               && db2.listings[l].(terms := row.terms) == row
               && db2.listings[l].terms.(reserve := terms.reserve) == terms
               && db2.listings[l].terms.reserve == (if terms.reserve.Some? then terms.reserve else row.terms.reserve)
               && (terms == row.terms ==> db2.(seen := db.seen) == db)
  {
    hide Inv, Leads;
    Reached(db);
    StoredListing(db, l);
    var row := db.listings[l];
    assert row.(status := Rejected) in VersionsOf(Reject(db, l, row).0, l);
    assert db.listings[l := row] == db.listings;
  }

  /** Approval changes the status and nothing else of the listing, and opens an auction where there was none. */
  lemma ApproveAnswers(db: Db, l: Id, read: Listing, a: Id, now: Time)
    requires Reachable(db) && read in VersionsOf(db, l)
    ensures var (db', outcome) := Approve(db, l, read, a, now);
            && (outcome == WrongState <==> read.status != ListingStatus.Pending)
            && (outcome == NotFound <==> read.status == ListingStatus.Pending && l !in db.listings)
            && (outcome == Ok <==>
                  read.status == ListingStatus.Pending && l in db.listings && (HasAuction(db, l) || a !in db.auctions))
            && (outcome == Ok ==>
                  && db'.listings == db.listings[l := db.listings[l].(status := Approved)]
                  && (HasAuction(db, l) ==> db' == db.(listings := db'.listings, seen := db'.seen))
                  && (!HasAuction(db, l) ==>
                        && db' == db.(listings := db'.listings, seen := db'.seen, auctions := db'.auctions,
                                      bids := db'.bids, bidders := db'.bidders)
                        && db'.auctions == db.auctions[a := Auction(l, db.listings[l].seller, read.terms,
                             read.terms.startPrice, 0, Active, None, now + read.terms.durationDays * 86_400_000)]
                        && db'.bids == db.bids[a := []] && db'.bidders == db.bidders[a := {}]))
  {
    hide Inv, Leads, HasAuction;
    Reached(db);
    ReadVersion(db, l, read);
  }

  /** A takedown marks the listing, and from then on its sale is neither offered nor relisted while it stays removed. */
  lemma TakedownAnswers(db: Db, l: Id, read: Listing)
    requires read in VersionsOf(db, l)
    ensures var (db', outcome) := Takedown(db, l, read);
            && (outcome == WrongState <==> read.status != Approved)
            && (outcome == NotFound <==> read.status == Approved && l !in db.listings)
            && (outcome == Ok <==> read.status == Approved && l in db.listings)
            && (outcome == Ok ==>
                  && db' == db.(listings := db'.listings, seen := db'.seen)
                  && db'.listings == db.listings[l := db.listings[l].(status := Removed)]
                  && (forall s, u, k, b, now :: IsSaleOf(db', s, l) ==> Relist(db', s, u, k, b, now).1 != Ok)
                  && (forall s, u, now, hours :: IsSaleOf(db', s, l) ==>
                      OfferToNextBidder(db', s, u, now, hours).1 != Ok))
  {
    hide Relist, OfferToNextBidder, IsSaleOf;
    var db' := Takedown(db, l, read).0;
    if Takedown(db, l, read).1 == Ok {
      forall s, u, k, b, now | IsSaleOf(db', s, l) ensures Relist(db', s, u, k, b, now).1 != Ok {
        RemovedIsRefused(db', s, l, u, k, b, now, 0);
      }
      forall s, u, now, hours | IsSaleOf(db', s, l) ensures OfferToNextBidder(db', s, u, now, hours).1 != Ok {
        RemovedIsRefused(db', s, l, u, 0, 0, now, hours);
      }
    }
  }

  lemma RemovedIsRefused(db: Db, s: Id, l: Id, u: UserId, k: Id, b: Id, now: Time, hours: int)
    requires IsSaleOf(db, s, l) && IsRemoved(db, l)
    ensures Relist(db, s, u, k, b, now).1 != Ok && OfferToNextBidder(db, s, u, now, hours).1 != Ok
  {
    hide FindNextBid;
  }

  // ---- bids -----------------------------------------------------------------------------------

  /** The last amount, or the starting price of an empty book. */
  function LastAmount(row: Auction, book: seq<Bid>): int {
    if book == [] then row.terms.startPrice else book[|book| - 1].amount
  }

  /** The first bid may be the starting price; every later one must clear the last by an increment. */
  function FloorOf(row: Auction, book: seq<Bid>): int {
    if book == [] then row.terms.startPrice else book[|book| - 1].amount + row.terms.minIncrement
  }

  /** A bid at the floor is always in reach; one above it at ten times the last amount or a hundred times the start. */
  predicate WithinReach(row: Auction, book: seq<Bid>, amount: int) {
    amount == FloorOf(row, book) || amount <= 10 * LastAmount(row, book) || amount <= 100 * row.terms.startPrice
  }

  /** Each answer to a bid, by the book as it stands. */
  ghost predicate BidAnswered(db: Db, a: Id, buyer: UserId, amount: int, now: Time, outcome: Outcome) {
    if !(1 <= amount <= 2_000_000_000) then outcome == Invalid
    else if a !in db.auctions || a !in db.bids then outcome == NotFound
    else
      var row, book := db.auctions[a], db.bids[a];
      && (outcome == Forbidden <==> buyer == row.seller)
      && (outcome == BiddingClosed <==> buyer != row.seller && row.status != Active)
      && (outcome == AuctionEnded <==> buyer != row.seller && row.status == Active && row.endTime <= now)
      && var open := buyer != row.seller && row.status == Active && now < row.endTime;
         && (outcome == BidTooLow <==> open && amount < FloorOf(row, book))
         && (outcome == BidTooHigh <==> open && amount > FloorOf(row, book) && !WithinReach(row, book, amount))
         && (outcome == Ok <==> open && amount >= FloorOf(row, book) && WithinReach(row, book, amount))
  }

  lemma BidIsAnswered(db: Db, a: Id, buyer: UserId, amount: int, bid: Id, now: Time)
    requires Inv(db)
    ensures BidAnswered(db, a, buyer, amount, now, PlaceBid(db, a, buyer, amount, bid, now).1)
  {
    hide Inv;
    KnownTables(db);
    if a in db.auctions { StoredBook(db, a); }
  }

  /** A bid is accepted exactly when the book says so, and then it is the book's last and the auction's current one. */
  lemma BidAnswers(db: Db, a: Id, buyer: UserId, amount: int, bid: Id, now: Time)
    requires Reachable(db)
    ensures BidAnswered(db, a, buyer, amount, now, PlaceBid(db, a, buyer, amount, bid, now).1)
    ensures PlaceBid(db, a, buyer, amount, bid, now).1 == Ok ==>
              var db' := PlaceBid(db, a, buyer, amount, bid, now).0;
              && a in db.auctions && a in db.bids && a in db'.auctions
              && db' == db.(auctions := db.auctions[a := db'.auctions[a]], bids := db'.bids, bidders := db'.bidders)
              && db'.bids == db.bids[a := db.bids[a] + [Bid(bid, Some(buyer), amount, now)]]
              && db'.auctions[a] == db.auctions[a].(currentBid := amount, bidCount := |db.bids[a]| + 1)
  {
    hide Inv, Leads, BidAnswered;
    Reached(db);
    BidIsAnswered(db, a, buyer, amount, bid, now);
    if a in db.auctions { StoredBook(db, a); }
  }

  // ---- cancelling -----------------------------------------------------------------------------

  /** Whoever cancelled, the auction is CANCELLED, and nothing else changed. */
  ghost predicate CancelledRight(db: Db, db': Db, a: Id) {
    && a in db.auctions && a in db'.auctions && db'.auctions[a].status == Cancelled
    && db'.auctions[a].(status := db.auctions[a].status) == db.auctions[a]
    && db' == db.(auctions := db.auctions[a := db'.auctions[a]])
  }

  lemma CancelAnswered(db: Db, a: Id, user: UserId, isAdmin: bool)
    ensures var (db', outcome) := CancelAuction(db, a, user, isAdmin);
            && (outcome == NotFound <==> a !in db.auctions)
            && (outcome == Forbidden <==> a in db.auctions && !isAdmin && user != db.auctions[a].seller)
            && (outcome == Ok ==> CancelledRight(db, db', a))
  {}

  /** A cancelled auction never takes a bid again, whoever cancelled it and whatever happens next. */
  lemma CancelStopsBids(db: Db, a: Id, user: UserId, isAdmin: bool, later: Db,
                        buyer: UserId, amount: int, bid: Id, now: Time)
    requires Reachable(db) && CancelAuction(db, a, user, isAdmin).1 == Ok
    requires Leads(CancelAuction(db, a, user, isAdmin).0, later)
    ensures CancelledRight(db, CancelAuction(db, a, user, isAdmin).0, a)
    ensures a in later.auctions && later.auctions[a].status != Active
    ensures PlaceBid(later, a, buyer, amount, bid, now).1 in {Invalid, Forbidden, BiddingClosed}
  {
    hide Inv, Leads, CancelAuction, PlaceBid;
    Reached(db);
    CancelKeeps(db, a, user, isAdmin);
    CancelAnswered(db, a, user, isAdmin);
    var cancelled := CancelAuction(db, a, user, isAdmin).0;
    Later(cancelled, later);
    NeverActiveAgain(cancelled, later, a);
    KnownTables(later);
    BidIsAnswered(later, a, buyer, amount, bid, now);
  }

  lemma NeverActiveAgain(db: Db, db': Db, a: Id)
    requires Inv(db) && Evolves(db, db') && a in db.auctions && db.auctions[a].status != Active
    ensures a in db'.auctions && db'.auctions[a].status != Active
  {
    hide Inv, SalesEvolve, DisputesEvolve, ListingsEvolve, OffersEvolve, StrandedStay;
    StoredBook(db, a);
  }

  // ---- the close ------------------------------------------------------------------------------

  lemma CloseWrites(db: Db, a: Id, s: Id, now: Time, hours: int)
    ensures var (db', outcome) := CloseAuction(db, a, s, now, hours);
            && (outcome == NotFound <==> a !in db.auctions)
            && (outcome == AlreadyClosed <==> a in db.auctions && db.auctions[a].status == Closed)
            && (outcome == Ok ==>
                  && a in db.auctions
                  && var top := FindNextBid(BookOf(db.bids, a), []);
                     var closed := SetVerdict(db, a, db.auctions[a], ReserveVerdict(db.auctions[a].terms.reserve, top));
                     || db' == closed
                     || (top.Some? && db' == AddSale(closed, s, FirstSale(a, db.auctions[a], top.value, now, hours))))
  {
    hide HasSale, BookOf, FindNextBid, FirstSale, ReserveVerdict, SetVerdict, AddSale;
  }

  /** What a close leaves alone, and its sale as it is first stored. */
  lemma CloseAnswers(db: Db, a: Id, s: Id, now: Time, hours: int)
    requires Reachable(db)
    ensures var (db', outcome) := CloseAuction(db, a, s, now, hours);
            && (outcome == NotFound <==> a !in db.auctions)
            && (outcome == AlreadyClosed <==> a in db.auctions && db.auctions[a].status == Closed)
            && (outcome == Ok ==>
                  && a in db.auctions && a in db'.auctions
                  && db' == db.(auctions := db.auctions[a := db'.auctions[a]], sales := db'.sales, offers := db'.offers)
                  && (s in db'.sales && s !in db.sales ==>
                        && db'.sales[s].createdAt == now && db'.sales[s].previousWinners == []
                        && db'.sales[s].reference.None? && db'.sales[s].paidAt.None? && db'.sales[s].address.None?
                        && db'.sales[s].phone.None? && db'.sales[s].paymentError.None? && db'.sales[s].shippedAt.None?))
  {
    hide Inv, Leads, CloseAuction, FindNextBid, ReserveVerdict;
    CloseWrites(db, a, s, now, hours);
  }

  // ---- payment --------------------------------------------------------------------------------

  /** Whether the charge is taken, who is refused, and what is stored either way. */
  lemma PayAnswers(db: Db, s: Id, user: UserId, gateway: Gateway, address: string, phone: string, now: Time)
    requires Reachable(db) && 10 <= |address| <= 300
    ensures var (db', outcome) := Pay(db, s, user, gateway, address, phone, now);
            if s !in db.sales then outcome == NotFound
            else
              var row := db.sales[s];
              && (outcome == Forbidden <==> user != row.winner)
              && (outcome == AlreadyPaid <==>
                    user == row.winner && row.status !in {SaleStatus.Pending, Voided})
              && (outcome == NotPayable <==> user == row.winner && row.status == Voided)
              && (outcome == Declined <==> user == row.winner && row.status == SaleStatus.Pending && gateway.Declines?)
              && (outcome == Ok <==>
                    && user == row.winner && row.status == SaleStatus.Pending && gateway.Approves?
                    && forall t :: t in db.sales ==> db.sales[t].reference != Some(gateway.reference))
              && (outcome == Declined ==>
                    && s in db'.sales && db' == db.(sales := db.sales[s := db'.sales[s]])
                    && db'.sales[s].address == Some(address) && db'.sales[s].phone == Some(phone)
                    && db'.sales[s].paymentError == Some(gateway.reason)
                    && db'.sales[s].(address := row.address, phone := row.phone, paymentError := row.paymentError)
                         == row)
              && (outcome == Ok ==>
                    && s in db'.sales && db' == db.(sales := db.sales[s := db'.sales[s]], charges := db'.charges)
                    && db'.charges == db.charges + [Charge(s, row.winner, row.amount, address)]
                    && db'.sales[s].address == Some(address) && db'.sales[s].phone == Some(phone)
                    && db'.sales[s].paymentError.None? && db'.sales[s].paidAt == Some(now)
                    && db'.sales[s].reference == Some(gateway.reference) && db'.sales[s].status == Completed
                    && db'.sales[s].winner == row.winner && db'.sales[s].amount == row.amount
                    && db'.sales[s].dueAt == row.dueAt && db'.sales[s].createdAt == row.createdAt)
  {
    hide Inv, Leads;
    Reached(db);
    if s in db.sales { StoredColumns(db, s); }
  }

  /** An address is 10 to 300 characters long. */
  lemma PayNeedsAddress(db: Db, s: Id, user: UserId, gateway: Gateway, address: string, phone: string, now: Time)
    ensures Pay(db, s, user, gateway, address, phone, now).1 == Invalid <==> |address| < 10 || |address| > 300
  {}

  /** Both ways a waiting sale is given up write the same row. */
  ghost predicate VoidedRight(db: Db, db': Db, s: Id) {
    && s in db.sales && s in db'.sales && db' == db.(sales := db.sales[s := db'.sales[s]])
    && db'.sales[s].status == Voided && db'.sales[s].paymentError.None?
    && db'.sales[s].(status := db.sales[s].status, paymentError := db.sales[s].paymentError) == db.sales[s]
  }

  /**
    An admin voids any waiting sale; the sweep one whose time is up, by its own due date or, lacking
    one, by its age.
   */
  lemma VoidAnswers(db: Db, s: Id, now: Time, hours: int)
    ensures AdminVoid(db, s).1 == (if s !in db.sales then NotFound
                                   else if db.sales[s].status == SaleStatus.Pending then Ok else WrongState)
    ensures AdminVoid(db, s).1 == Ok ==> VoidedRight(db, AdminVoid(db, s).0, s)
    ensures VoidOverdue(db, s, now, hours).1 == NotFound <==> s !in db.sales
    ensures VoidOverdue(db, s, now, hours).1 == Ok <==>
              && s in db.sales && db.sales[s].status == SaleStatus.Pending
              && match db.sales[s].dueAt
                 case Some(due) => due < now
                 case None => db.sales[s].createdAt + hours * 3_600_000 < now
    ensures VoidOverdue(db, s, now, hours).1 == Ok ==> VoidedRight(db, VoidOverdue(db, s, now, hours).0, s)
  {}

  // ---- recovery -------------------------------------------------------------------------------

  /**
    The sale starts over for its new buyer: their price, a full deadline from now, and no trace of
    the last payment.
   */
  ghost predicate OfferedRight(db: Db, db': Db, s: Id, now: Time, hours: int) {
    && s in db.sales && s in db'.sales && db' == db.(sales := db.sales[s := db'.sales[s]], offers := db'.offers)
    && var row, row' := db.sales[s], db'.sales[s];
       && row'.previousWinners == row.previousWinners + [row.winner]
       && row'.status == SaleStatus.Pending && row'.dueAt == Some(now + hours * 3_600_000)
       && row'.reference.None? && row'.paidAt.None? && row'.paymentError.None?
       && row'.address.None? && row'.phone.None? && row'.shippedAt.None?
       && row'.auction == row.auction && row'.seller == row.seller && row'.createdAt == row.createdAt
       && row'.auction in db.bids
       && HighestBidOfOthers(db.bids[row'.auction], OfferedTo(row), row'.winner, row'.amount)
  }

  /** The winner is someone not excluded, at their own amount, and nobody else not excluded bid more. */
  ghost predicate HighestBidOfOthers(book: seq<Bid>, excluded: seq<UserId>, winner: UserId, amount: int) {
    && winner !in excluded
    && (exists i :: 0 <= i < |book| && book[i].buyer == Some(winner) && book[i].amount == amount)
    && forall i :: 0 <= i < |book| && book[i].buyer.Some? && book[i].buyer.value !in excluded ==>
         book[i].amount <= amount
  }

  ghost predicate HasOtherBidder(book: seq<Bid>, excluded: seq<UserId>) {
    exists i :: 0 <= i < |book| && book[i].buyer.Some? && book[i].buyer.value !in excluded
  }

  lemma NextBidIsHighest(book: seq<Bid>, excluded: seq<UserId>)
    ensures FindNextBid(book, excluded).Some? <==> HasOtherBidder(book, excluded)
    ensures FindNextBid(book, excluded).Some? ==>
              var next := FindNextBid(book, excluded).value;
              next.buyer.Some? && HighestBidOfOthers(book, excluded, next.buyer.value, next.amount)
  {
    var next := FindNextBid(book, excluded);
    if next.Some? {
      var k :| 0 <= k < |book| && book[k] == next.value;
      forall i | 0 <= i < |book| && book[i].buyer.Some? && book[i].buyer.value !in excluded
        ensures book[i].amount <= next.value.amount
      {
        assert Eligible(book[i], excluded);
      }
    }
    assert forall i :: 0 <= i < |book| && book[i].buyer.Some? && book[i].buyer.value !in excluded ==>
             Eligible(book[i], excluded);
  }

  /**
    A void sale, not relisted and not taken down, goes to the highest bidder it was never offered
    to, if there is one.
   */
  lemma OfferAnswers(db: Db, s: Id, seller: UserId, now: Time, hours: int)
    requires Reachable(db)
    ensures s in db.sales ==>
              && db.sales[s].auction in db.auctions && db.sales[s].auction in db.bids
              && db.auctions[db.sales[s].auction].listing in db.listings
    ensures var (db', outcome) := OfferToNextBidder(db, s, seller, now, hours);
            if s !in db.sales then outcome == NotFound
            else
              var row, listing := db.sales[s], db.auctions[db.sales[s].auction].listing;
              var open := row.status == Voided && !HasRelist(db, listing) && db.listings[listing].status != Removed;
              var others := HasOtherBidder(db.bids[row.auction], OfferedTo(row));
              && outcome == (if seller != row.seller then Forbidden else if !open then WrongState
                             else if others then Ok else NoOtherBidder)
              && (outcome == Ok ==> OfferedRight(db, db', s, now, hours))
  {
    hide Inv, Leads, FindNextBid, HasRelist, HighestBidOfOthers, HasOtherBidder;
    Reached(db);
    if s in db.sales {
      StoredSale(db, s);
      SellerOfSale(db, s);
      NextBidIsHighest(db.bids[db.sales[s].auction], OfferedTo(db.sales[s]));
    }
  }

  /** A void sale, not relisted and not taken down, is relisted; what it then looks like is RelistCopies. */
  lemma RelistAnswers(db: Db, s: Id, seller: UserId, l: Id, a: Id, start: Time)
    requires Reachable(db) && l !in db.seen && a !in db.auctions
    ensures s in db.sales ==>
              db.sales[s].auction in db.auctions && db.auctions[db.sales[s].auction].listing in db.listings
    ensures var outcome := Relist(db, s, seller, l, a, start).1;
            if s !in db.sales then outcome == NotFound
            else
              var row, listing := db.sales[s], db.auctions[db.sales[s].auction].listing;
              var open := row.status == Voided && !HasRelist(db, listing) && db.listings[listing].status != Removed;
              outcome == (if seller != row.seller then Forbidden else if open then Ok else WrongState)
  {
    hide Inv, Leads, HasRelist;
    Reached(db);
    if s in db.sales { SellerOfSale(db, s); }
  }

  // ---- fulfilment -----------------------------------------------------------------------------

  /** A paid sale is shipped by its seller, and only its status and shipping time change. */
  lemma ShipAnswers(db: Db, s: Id, seller: UserId, now: Time)
    requires Reachable(db)
    ensures var (db', outcome) := MarkShipped(db, s, seller, now);
            if s !in db.sales then outcome == NotFound
            else
              var row := db.sales[s];
              && outcome == (if seller != row.seller then Forbidden
                             else if row.status == Completed then Ok else WrongState)
              && (outcome == Ok ==>
                    && s in db'.sales && db' == db.(sales := db.sales[s := db'.sales[s]])
                    && db'.sales[s].status == Shipped && db'.sales[s].shippedAt == Some(now)
                    && db'.sales[s].(status := row.status, shippedAt := row.shippedAt) == row)
  {
    hide Inv, Leads;
    Reached(db);
    if s in db.sales { StoredColumns(db, s); }
  }

  /** A shipped sale is confirmed by its winner, or by the sweep, and its price goes to its seller. */
  lemma ConfirmAnswers(db: Db, s: Id, requireWinner: Option<UserId>)
    requires Reachable(db)
    ensures var (db', outcome) := ConfirmDelivery(db, s, requireWinner, false);
            if s !in db.sales then outcome == NotFound
            else
              var row := db.sales[s];
              var balance := BalanceOf(db.balances, row.seller);
              && outcome == (if requireWinner.Some? && requireWinner.value != row.winner then Forbidden
                             else if row.status != Shipped then WrongState
                             else if balance + row.amount <= 2_147_483_647 then Ok else OutOfRange)
              && (outcome == Ok ==>
                    && db' == db.(sales := db'.sales, ledger := db'.ledger, balances := db'.balances)
                    && db'.sales == db.sales[s := row.(status := Delivered)]
                    && db'.ledger == db.ledger + [LedgerEntry(row.seller, s, row.amount)]
                    && db'.balances == db.balances[row.seller := balance + row.amount])
  {
    hide Inv, Leads, HasEntry;
    Reached(db);
    ConfirmingHasNoEntry(db, s, requireWinner);
  }

  /** The winner of a shipped sale opens its one dispute; the seller is not asked yet. */
  lemma DisputeAnswers(db: Db, s: Id, buyer: UserId, d: Id, reason: string)
    requires Reachable(db) && d !in db.disputes
    ensures var (db', outcome) := RaiseDispute(db, s, buyer, d, reason);
            if s !in db.sales then outcome == NotFound
            else
              var row := db.sales[s];
              && outcome == (if buyer != row.winner then Forbidden else if row.status == Shipped then Ok
                             else WrongState)
              && (outcome == Ok ==>
                    && db' == db.(sales := db'.sales, disputes := db'.disputes)
                    && db'.sales == db.sales[s := row.(status := Disputed)]
                    && db'.disputes == db.disputes[d := Dispute(s, row.winner, reason, None, Open)])
  {
    hide Inv, Leads, HasDispute;
    Reached(db);
    DisputingHasNoDispute(db, s, buyer, d, reason);
  }

  /** The seller answers an open dispute once. */
  lemma RespondAnswers(db: Db, s: Id, d: Id, seller: UserId, response: string)
    requires Reachable(db) && AboutSale(db.disputes, d, s)
    ensures s in db.sales
    ensures var (db', outcome) := RespondToDispute(db, s, d, seller, response);
            var row := db.disputes[d];
            && outcome == (if seller != db.sales[s].seller then Forbidden
                           else if row.status != Open then NoOpenDispute
                           else if row.response.Some? then AlreadyResponded else Ok)
            && (outcome == Ok ==> db' == db.(disputes := db.disputes[d := row.(response := Some(response))]))
  {
    hide Inv, Leads;
    Reached(db);
    StoredDispute(db, d);
  }

  /** A resolution decides an open dispute; a refund also ends the sale, a release leaves it to a second transaction. */
  lemma ResolveAnswers(db: Db, d: Id, refund: bool)
    requires Reachable(db)
    ensures var (db', outcome) := ResolveDispute(db, d, refund);
            if d !in db.disputes then outcome == NotFound
            else
              var row := db.disputes[d];
              && outcome == (if row.status == Open then Ok else NotOpen)
              && row.sale in db.sales
              && (outcome == Ok && refund ==>
                    && db' == db.(disputes := db'.disputes, sales := db'.sales)
                    && db'.disputes == db.disputes[d := row.(status := ResolvedRefunded)]
                    && db'.sales == db.sales[row.sale := db.sales[row.sale].(status := Refunded)])
              && (outcome == Ok && !refund ==>
                    && db' == db.(disputes := db'.disputes, releasing := db.releasing + {row.sale})
                    && db'.disputes == db.disputes[d := row.(status := ResolvedReleased)])
  {
    hide Inv, Leads;
    Reached(db);
    if d in db.disputes { StoredDispute(db, d); }
  }

  lemma PayoutWrites(db: Db, s: Id)
    requires s in db.sales && db.sales[s].status == Disputed && !HasEntry(db, s)
    ensures var (db', outcome) := ConfirmDelivery(db, s, None, true);
            var row := db.sales[s];
            var balance := BalanceOf(db.balances, row.seller);
            && outcome == (if balance + row.amount <= 2_147_483_647 then Ok else OutOfRange)
            && (outcome == Ok ==>
                  && db' == db.(sales := db'.sales, ledger := db'.ledger, balances := db'.balances)
                  && db'.sales == db.sales[s := row.(status := Delivered)]
                  && db'.ledger == db.ledger + [LedgerEntry(row.seller, s, row.amount)]
                  && db'.balances == db.balances[row.seller := balance + row.amount])
  {
    hide HasEntry;
  }

  /** The second transaction of a release pays out like a confirmation, from DISPUTED. */
  lemma FinishAnswers(db: Db, s: Id)
    requires Reachable(db) && s in db.releasing
    ensures s in db.sales
    ensures var (db', outcome) := FinishRelease(db, s);
            var row := db.sales[s];
            var balance := BalanceOf(db.balances, row.seller);
            && db'.releasing == db.releasing - {s}
            && outcome == (if balance + row.amount <= 2_147_483_647 then Ok else OutOfRange)
            && (outcome == Ok ==>
                  && db'.sales == db.sales[s := row.(status := Delivered)]
                  && db'.ledger == db.ledger + [LedgerEntry(row.seller, s, row.amount)]
                  && db'.balances == db.balances[row.seller := balance + row.amount]
                  && db'.listings == db.listings && db'.auctions == db.auctions && db'.bids == db.bids
                  && db'.disputes == db.disputes)
  {
    hide Inv, Leads, HasEntry, ConfirmDelivery;
    Reached(db);
    ReleaseFindsDisputed(db, s);
    var db1 := db.(releasing := db.releasing - {s});
    SameEntries(db, db1, s);
    PayoutWrites(db1, s);
    FinishOutcome(db, s);
  }

  // ---- accounts -------------------------------------------------------------------------------

  /** A user row goes only if nothing it must be kept for refers to it; their bids stay, without them. */
  lemma DeleteAnswers(db: Db, u: UserId)
    requires Reachable(db)
    ensures var (db', outcome) := DeleteUser(db, u);
            && (outcome == Ok <==>
                  && (forall l :: l in db.listings ==> db.listings[l].seller != u)
                  && (forall s :: s in db.sales ==> db.sales[s].winner != u))
            && (outcome == Ok ==>
                  && db' == db.(bids := db'.bids) && db'.bids.Keys == db.bids.Keys
                  && forall a :: a in db.bids ==>
                       && |db'.bids[a]| == |db.bids[a]|
                       && forall i :: 0 <= i < |db.bids[a]| ==>
                            && db'.bids[a][i].(buyer := db.bids[a][i].buyer) == db.bids[a][i]
                            && db'.bids[a][i].buyer == if db.bids[a][i].buyer == Some(u) then None
                                 else db.bids[a][i].buyer)
  {
    hide Inv, Leads;
    Reached(db);
    OwnersAreSellers(db);
  }

  /** Every auction, sale and ledger entry is its listing's seller's. */
  lemma OwnersAreSellers(db: Db)
    requires Inv(db)
    ensures forall a :: a in db.auctions ==>
              && db.auctions[a].listing in db.listings
              && db.auctions[a].seller == db.listings[db.auctions[a].listing].seller
    ensures forall s :: s in db.sales ==>
              db.sales[s].auction in db.auctions && db.sales[s].seller == db.auctions[db.sales[s].auction].seller
    ensures forall i :: 0 <= i < |db.ledger| ==>
              db.ledger[i].sale in db.sales && db.ledger[i].seller == db.sales[db.ledger[i].sale].seller
  {
    hide ListingsOk, BooksOk, SalesOk, DisputesOk, ChargesOk, BalancesOk, Conserved, RelistsOk;
    assert forall a :: a in db.auctions ==> AuctionOk(db.listings, db.auctions[a]);
    assert forall s :: s in db.sales ==> SaleKeyOk(db.auctions, db.sales[s]);
    assert forall i :: 0 <= i < |db.ledger| ==> EntryOk(db.sales, db.ledger[i]);
  }
}
