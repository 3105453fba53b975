/**
  What a run may do to what is already stored: a relation between an earlier and a later state that
  every transaction satisfies and that composes, so it holds across runs of any length.
 */
module MarketHistory {
  import opened Options
  import opened Bidding
  import opened Market
  import opened MarketInvariant
  import opened MarketPreservation

  /** The book stays, buyers may only be forgotten, and once the auction is not ACTIVE nothing is added. */
  ghost predicate BookEvolves(active: bool, book: seq<Bid>, book': seq<Bid>) {
    && |book| <= |book'|
    && (!active ==> |book| == |book'|)
    && forall i :: 0 <= i < |book| ==>
         && book'[i].amount == book[i].amount
         && (book'[i].buyer == book[i].buyer || book'[i].buyer.None?)
  }

  /** CLOSED is final. CANCELLED is not: a close job already under way still closes it. */
  predicate AuctionEvolves(a: Auction, a': Auction) {
    && a'.listing == a.listing && a'.seller == a.seller && a'.terms == a.terms && a'.endTime == a.endTime
    && (a.status != Active ==> a'.status != Active && a'.currentBid == a.currentBid && a'.bidCount == a.bidCount)
    && (a.status == Closed ==> a' == a)
  }

  ghost predicate AuctionsEvolve(auctions: Auctions, bids: Books, auctions': Auctions, bids': Books) {
    forall a :: a in auctions && a in bids ==>
      && a in auctions' && a in bids'
      && AuctionEvolves(auctions[a], auctions'[a])
      && BookEvolves(auctions[a].status == Active, bids[a], bids'[a])
  }

  predicate SaleEvolves(r: Sale, r': Sale) {
    && r'.auction == r.auction && r'.seller == r.seller && r'.createdAt == r.createdAt
    && r.previousWinners <= r'.previousWinners
    && r'.amount <= r.amount
    && (if r'.previousWinners == r.previousWinners then r'.winner == r.winner && r'.amount == r.amount
        && r'.dueAt == r.dueAt
        else r'.previousWinners[|r.previousWinners|] == r.winner)
    && (IsPaid(r.status) ==>
          && IsPaid(r'.status) && r'.previousWinners == r.previousWinners
          && r'.reference == r.reference && r'.paidAt == r.paidAt && r'.address == r.address)
    && (IsPaid(r.status) && r.status != Completed ==> r'.status != Completed && r'.shippedAt == r.shippedAt)
    && (r.status == Disputed ==> r'.status != Shipped)
    && (r.status == Delivered || r.status == Refunded ==> r' == r)
  }

  ghost predicate SalesEvolve(sales: Sales, sales': Sales) {
    forall s :: s in sales ==> s in sales' && SaleEvolves(sales[s], sales'[s])
  }

  /** One response, written while the dispute is open; a decision is final. */
  predicate DisputeEvolves(d: Dispute, d': Dispute) {
    && d'.sale == d.sale && d'.raisedBy == d.raisedBy && d'.reason == d.reason
    && (d.response.Some? ==> d'.response == d.response)
    && (d.status != Open ==> d' == d)
  }

  ghost predicate DisputesEvolve(disputes: map<Id, Dispute>, disputes': map<Id, Dispute>) {
    forall d :: d in disputes ==> d in disputes' && DisputeEvolves(disputes[d], disputes'[d])
  }

  /** A listing with an auction is never removed, nor is what it was relisted from ever rewritten. */
  ghost predicate ListingsEvolve(listings: Listings, auctions: Auctions, listings': Listings) {
    forall a :: a in auctions && auctions[a].listing in listings ==>
      && auctions[a].listing in listings'
      && listings'[auctions[a].listing].relistedFrom == listings[auctions[a].listing].relistedFrom
      && listings'[auctions[a].listing].seller == listings[auctions[a].listing].seller
  }

  ghost predicate OffersEvolve(offers: map<Id, seq<Offer>>, offers': map<Id, seq<Offer>>) {
    forall s :: s in offers ==> s in offers' && offers[s] <= offers'[s]
  }

  /** Its dispute was decided for the seller, and no handler is left to pay. */
  ghost predicate IsStranded(disputes: map<Id, Dispute>, sales: Sales, releasing: set<Id>, s: Id) {
    && s in sales && sales[s].status == Disputed && s !in releasing
    && exists d :: AboutSale(disputes, d, s) && disputes[d].status == ResolvedReleased
  }

  /** Nothing ever moves such a sale again. */
  ghost predicate StrandedStay(disputes: map<Id, Dispute>, sales: Sales, releasing: set<Id>, sales': Sales,
                               releasing': set<Id>) {
    forall s :: IsStranded(disputes, sales, releasing, s) ==> s in sales' && sales'[s] == sales[s] && s !in releasing'
  }

  ghost predicate Evolves(db: Db, db': Db) {
    && AuctionsEvolve(db.auctions, db.bids, db'.auctions, db'.bids)
    && SalesEvolve(db.sales, db'.sales)
    && DisputesEvolve(db.disputes, db'.disputes)
    && ListingsEvolve(db.listings, db.auctions, db'.listings)
    && OffersEvolve(db.offers, db'.offers)
    && StrandedStay(db.disputes, db.sales, db.releasing, db'.sales, db'.releasing)
    && db.ledger <= db'.ledger
    && db.charges <= db'.charges
  }

  // ---- it composes --------------------------------------------------------------------------

  lemma AuctionsCompose(a: Auctions, ab: Books, b: Auctions, bb: Books, c: Auctions, cb: Books)
    requires AuctionsEvolve(a, ab, b, bb) && AuctionsEvolve(b, bb, c, cb)
    ensures AuctionsEvolve(a, ab, c, cb)
  {
    forall x | x in a && x in ab
      ensures x in c && x in cb && AuctionEvolves(a[x], c[x]) && BookEvolves(a[x].status == Active, ab[x], cb[x])
    {
      assert AuctionEvolves(a[x], b[x]) && AuctionEvolves(b[x], c[x]);
      BooksCompose(a[x].status == Active, b[x].status == Active, ab[x], bb[x], cb[x]);
    }
  }

  lemma BooksCompose(active: bool, active': bool, a: seq<Bid>, b: seq<Bid>, c: seq<Bid>)
    requires BookEvolves(active, a, b) && BookEvolves(active', b, c) && (!active ==> !active')
    ensures BookEvolves(active, a, c)
  {}

  lemma SalesCompose(a: Sales, b: Sales, c: Sales)
    requires SalesEvolve(a, b) && SalesEvolve(b, c)
    ensures SalesEvolve(a, c)
  {
    forall s | s in a ensures s in c && SaleEvolves(a[s], c[s]) {
      assert SaleEvolves(a[s], b[s]) && SaleEvolves(b[s], c[s]);
    }
  }

  lemma DisputesCompose(a: map<Id, Dispute>, b: map<Id, Dispute>, c: map<Id, Dispute>)
    requires DisputesEvolve(a, b) && DisputesEvolve(b, c)
    ensures DisputesEvolve(a, c)
  {}

  lemma ListingsCompose(a: Listings, aa: Auctions, ab: Books, b: Listings, ba: Auctions, bb: Books, c: Listings)
    requires ListingsEvolve(a, aa, b) && ListingsEvolve(b, ba, c)
    requires AuctionsEvolve(aa, ab, ba, bb) && aa.Keys <= ab.Keys
    ensures ListingsEvolve(a, aa, c)
  {
    hide BookEvolves;
    forall x | x in aa && aa[x].listing in a
      ensures aa[x].listing in c && c[aa[x].listing].relistedFrom == a[aa[x].listing].relistedFrom
      ensures c[aa[x].listing].seller == a[aa[x].listing].seller
    {
      assert AuctionEvolves(aa[x], ba[x]);
      assert ba[x].listing in b;
    }
  }

  lemma StrandedCompose(ad: map<Id, Dispute>, a: Sales, ar: set<Id>, bd: map<Id, Dispute>, b: Sales, br: set<Id>,
                        c: Sales, cr: set<Id>)
    requires StrandedStay(ad, a, ar, b, br) && StrandedStay(bd, b, br, c, cr) && DisputesEvolve(ad, bd)
    ensures StrandedStay(ad, a, ar, c, cr)
  {
    forall s | IsStranded(ad, a, ar, s) ensures s in c && c[s] == a[s] && s !in cr {
      var d :| AboutSale(ad, d, s) && ad[d].status == ResolvedReleased;
      assert AboutSale(bd, d, s);
      assert IsStranded(bd, b, br, s);
    }
  }

  lemma EvolvesTransitive(a: Db, b: Db, c: Db)
    requires Evolves(a, b) && Evolves(b, c) && a.auctions.Keys <= a.bids.Keys
    ensures Evolves(a, c)
  {
    hide AuctionsEvolve, SalesEvolve, DisputesEvolve, ListingsEvolve, StrandedStay;
    AuctionsCompose(a.auctions, a.bids, b.auctions, b.bids, c.auctions, c.bids);
    SalesCompose(a.sales, b.sales, c.sales);
    DisputesCompose(a.disputes, b.disputes, c.disputes);
    ListingsCompose(a.listings, a.auctions, a.bids, b.listings, b.auctions, b.bids, c.listings);
    StrandedCompose(a.disputes, a.sales, a.releasing, b.disputes, b.sales, b.releasing, c.sales, c.releasing);
  }

  // ---- every transaction satisfies it --------------------------------------------------------

  lemma EvolvesReflexive(db: Db)
    ensures Evolves(db, db)
  {}

  lemma OneSale(sales: Sales, s: Id, r: Sale)
    requires s in sales ==> SaleEvolves(sales[s], r)
    ensures SalesEvolve(sales, sales[s := r])
  {}

  lemma OneSaleStays(disputes: map<Id, Dispute>, sales: Sales, releasing: set<Id>, s: Id, r: Sale, releasing': set<Id>)
    requires releasing' <= releasing && !IsStranded(disputes, sales, releasing, s)
    ensures StrandedStay(disputes, sales, releasing, sales[s := r], releasing')
  {}

  lemma OneDispute(disputes: map<Id, Dispute>, d: Id, row: Dispute)
    requires d in disputes ==> DisputeEvolves(disputes[d], row)
    ensures DisputesEvolve(disputes, disputes[d := row])
  {}

  lemma OneListing(listings: Listings, auctions: Auctions, l: Id, row: Listing)
    requires l in listings ==> row.seller == listings[l].seller && row.relistedFrom == listings[l].relistedFrom
    ensures ListingsEvolve(listings, auctions, listings[l := row])
  {}

  lemma OneAuction(auctions: Auctions, bids: Books, a: Id, row: Auction, book: seq<Bid>)
    requires (a in auctions && a in bids) ==>
               AuctionEvolves(auctions[a], row) && BookEvolves(auctions[a].status == Active, bids[a], book)
    ensures AuctionsEvolve(auctions, bids, auctions[a := row], bids[a := book])
  {}

  lemma OneOffer(offers: map<Id, seq<Offer>>, s: Id, given: seq<Offer>)
    requires s in offers ==> offers[s] <= given
    ensures OffersEvolve(offers, offers[s := given])
  {}

  lemma ListingWriteEvolves(db: Db, l: Id, row: Listing)
    requires l in db.listings ==> row.seller == db.listings[l].seller && row.relistedFrom == db.listings[l].relistedFrom
    ensures Evolves(db, SetListing(db, l, row))
  {
    hide AuctionsEvolve, SalesEvolve, DisputesEvolve, ListingsEvolve, OffersEvolve, StrandedStay;
    EvolvesReflexive(db);
    OneListing(db.listings, db.auctions, l, row);
  }

  lemma SubmitEvolves(db: Db, l: Id, seller: UserId, terms: Terms)
    requires Inv(db)
    ensures Evolves(db, Submit(db, l, seller, terms).0)
  {
    hide Inv, AuctionsEvolve, SalesEvolve, DisputesEvolve, ListingsEvolve, OffersEvolve, StrandedStay;
    KnownTables(db);
    EvolvesReflexive(db);
    if Submit(db, l, seller, terms).1 == Ok {
      ListingWriteEvolves(db, l, Listing(seller, terms, ListingStatus.Pending, None));
    }
  }

  lemma ResubmitEvolves(db: Db, l: Id, read: Listing, user: UserId, terms: Terms)
    ensures Evolves(db, Resubmit(db, l, read, user, terms).0)
  {
    hide AuctionsEvolve, SalesEvolve, DisputesEvolve, ListingsEvolve, OffersEvolve, StrandedStay;
    EvolvesReflexive(db);
    if Resubmit(db, l, read, user, terms).1 == Ok {
      ListingWriteEvolves(db, l,
                          db.listings[l].(terms := EditedTerms(db.listings[l].terms, terms),
                                          status := ListingStatus.Pending));
    }
  }

  lemma WithdrawEvolves(db: Db, l: Id, read: Listing, user: UserId)
    ensures Evolves(db, Withdraw(db, l, read, user).0)
  {
    hide AuctionsEvolve, SalesEvolve, DisputesEvolve, OffersEvolve, StrandedStay;
    EvolvesReflexive(db);
  }

  lemma ApproveEvolves(db: Db, l: Id, read: Listing, a: Id, now: Time)
    ensures Evolves(db, Approve(db, l, read, a, now).0)
  {
    hide AuctionsEvolve, SalesEvolve, DisputesEvolve, ListingsEvolve, OffersEvolve, StrandedStay;
    EvolvesReflexive(db);
    if Approve(db, l, read, a, now).1 == Ok {
      ListingWriteEvolves(db, l, db.listings[l].(status := Approved));
      if !HasAuction(db, l) {
        OneAuction(db.auctions, db.bids, a, NewAuction(l, read.seller, read.terms, now), []);
      }
    }
  }

  lemma RejectEvolves(db: Db, l: Id, read: Listing)
    ensures Evolves(db, Reject(db, l, read).0)
  {
    hide AuctionsEvolve, SalesEvolve, DisputesEvolve, ListingsEvolve, OffersEvolve, StrandedStay;
    EvolvesReflexive(db);
    if Reject(db, l, read).1 == Ok {
      ListingWriteEvolves(db, l, db.listings[l].(status := Rejected));
    }
  }

  lemma TakedownEvolves(db: Db, l: Id, read: Listing)
    ensures Evolves(db, Takedown(db, l, read).0)
  {
    hide AuctionsEvolve, SalesEvolve, DisputesEvolve, ListingsEvolve, OffersEvolve, StrandedStay;
    EvolvesReflexive(db);
    if Takedown(db, l, read).1 == Ok {
      ListingWriteEvolves(db, l, db.listings[l].(status := Removed));
    }
  }

  lemma PlaceBidEvolves(db: Db, a: Id, buyer: UserId, amount: int, bid: Id, now: Time)
    ensures Evolves(db, PlaceBid(db, a, buyer, amount, bid, now).0)
  {
    hide AuctionsEvolve, SalesEvolve, DisputesEvolve, ListingsEvolve, OffersEvolve, StrandedStay;
    EvolvesReflexive(db);
    var db' := PlaceBid(db, a, buyer, amount, bid, now).0;
    if PlaceBid(db, a, buyer, amount, bid, now).1 == Ok {
      OneAuction(db.auctions, db.bids, a, db'.auctions[a], db'.bids[a]);
    }
  }

  lemma CancelEvolves(db: Db, a: Id, user: UserId, isAdmin: bool)
    requires Inv(db)
    ensures Evolves(db, CancelAuction(db, a, user, isAdmin).0)
  {
    hide Inv, AuctionsEvolve, SalesEvolve, DisputesEvolve, ListingsEvolve, OffersEvolve, StrandedStay;
    KnownTables(db);
    EvolvesReflexive(db);
    if CancelAuction(db, a, user, isAdmin).1 == Ok {
      OneAuction(db.auctions, db.bids, a, db.auctions[a].(status := Cancelled), db.bids[a]);
      assert db.bids == db.bids[a := db.bids[a]];
    }
  }

  lemma AuctionClosedEvolves(db: Db, a: Id, row: Auction)
    requires Inv(db) && a in db.auctions && db.auctions[a].status != Closed
    requires row == db.auctions[a].(status := Closed, reserveMet := row.reserveMet)
    ensures Evolves(db, db.(auctions := db.auctions[a := row]))
  {
    hide Inv, AuctionsEvolve, SalesEvolve, DisputesEvolve, ListingsEvolve, OffersEvolve, StrandedStay;
    KnownTables(db);
    EvolvesReflexive(db);
    OneAuction(db.auctions, db.bids, a, row, db.bids[a]);
    assert db.bids == db.bids[a := db.bids[a]];
  }

  lemma CloseEvolves(db: Db, a: Id, s: Id, now: Time, hours: int)
    requires Inv(db)
    ensures Evolves(db, CloseAuction(db, a, s, now, hours).0)
  {
    hide FindNextBid, ReserveVerdict, FirstSale, Inv, AuctionsEvolve, SalesEvolve, DisputesEvolve, ListingsEvolve,
         OffersEvolve, StrandedStay;
    KnownTables(db);
    EvolvesReflexive(db);
    var db' := CloseAuction(db, a, s, now, hours).0;
    if CloseAuction(db, a, s, now, hours).1 == Ok {
      AuctionClosedEvolves(db, a, db'.auctions[a]);
      if s !in db.sales && s in db'.sales {
        OneSale(db.sales, s, db'.sales[s]);
        OneSaleStays(db.disputes, db.sales, db.releasing, s, db'.sales[s], db.releasing);
        OneOffer(db.offers, s, db'.offers[s]);
      }
    }
  }

  lemma PayEvolves(db: Db, s: Id, user: UserId, gateway: Gateway, address: string, phone: string, now: Time)
    ensures Evolves(db, Pay(db, s, user, gateway, address, phone, now).0)
  {
    hide AuctionsEvolve, SalesEvolve, DisputesEvolve, ListingsEvolve, OffersEvolve, StrandedStay;
    EvolvesReflexive(db);
    var db' := Pay(db, s, user, gateway, address, phone, now).0;
    if db' != db {
      assert SaleEvolves(db.sales[s], db'.sales[s]);
      OneSale(db.sales, s, db'.sales[s]);
      OneSaleStays(db.disputes, db.sales, db.releasing, s, db'.sales[s], db.releasing);
    }
  }

  lemma AdminVoidEvolves(db: Db, s: Id)
    ensures Evolves(db, AdminVoid(db, s).0)
  {
    hide AuctionsEvolve, SalesEvolve, DisputesEvolve, ListingsEvolve, OffersEvolve, StrandedStay;
    EvolvesReflexive(db);
    var db' := AdminVoid(db, s).0;
    if db' != db {
      assert SaleEvolves(db.sales[s], db'.sales[s]);
      OneSale(db.sales, s, db'.sales[s]);
      OneSaleStays(db.disputes, db.sales, db.releasing, s, db'.sales[s], db.releasing);
    }
  }

  lemma VoidOverdueEvolves(db: Db, s: Id, now: Time, hours: int)
    ensures Evolves(db, VoidOverdue(db, s, now, hours).0)
  {
    hide AuctionsEvolve, SalesEvolve, DisputesEvolve, ListingsEvolve, OffersEvolve, StrandedStay;
    EvolvesReflexive(db);
    var db' := VoidOverdue(db, s, now, hours).0;
    if db' != db {
      assert SaleEvolves(db.sales[s], db'.sales[s]);
      OneSale(db.sales, s, db'.sales[s]);
      OneSaleStays(db.disputes, db.sales, db.releasing, s, db'.sales[s], db.releasing);
    }
  }

  lemma OfferEvolves(db: Db, s: Id, seller: UserId, now: Time, hours: int)
    requires Inv(db)
    ensures Evolves(db, OfferToNextBidder(db, s, seller, now, hours).0)
  {
    hide Inv, AuctionsEvolve, SalesEvolve, DisputesEvolve, ListingsEvolve, OffersEvolve, StrandedStay, BookOk, SaleOk,
         WinnersOk, PricedByBid, OffersOk;
    EvolvesReflexive(db);
    var db' := OfferToNextBidder(db, s, seller, now, hours).0;
    if OfferToNextBidder(db, s, seller, now, hours).1 == Ok {
      OfferLowersPrice(db, s, db'.sales[s]);
      OneSale(db.sales, s, db'.sales[s]);
      OneSaleStays(db.disputes, db.sales, db.releasing, s, db'.sales[s], db.releasing);
      OneOffer(db.offers, s, db'.offers[s]);
    } else {
      assert db' == db;
    }
  }

  lemma OfferLowersPrice(db: Db, s: Id, r: Sale)
    requires Inv(db) && s in db.sales && r.previousWinners == db.sales[s].previousWinners + [db.sales[s].winner]
    requires db.sales[s].auction in db.bids
    requires FindNextBid(BookOf(db.bids, db.sales[s].auction), r.previousWinners).Some?
    requires var next := FindNextBid(BookOf(db.bids, db.sales[s].auction), r.previousWinners).value;
             r.winner == next.buyer.value && r.amount == next.amount
    ensures r.amount <= db.sales[s].amount
  {
    hide Inv;
    StoredSale(db, s);
    StoredBook(db, db.sales[s].auction);
    NextBidderPriced(db.bids[db.sales[s].auction], db.bidders[db.sales[s].auction], db.sales[s], r);
  }

  lemma RelistEvolves(db: Db, s: Id, seller: UserId, l: Id, a: Id, start: Time)
    requires Inv(db)
    ensures Evolves(db, Relist(db, s, seller, l, a, start).0)
  {
    hide Inv, AuctionsEvolve, SalesEvolve, DisputesEvolve, ListingsEvolve, OffersEvolve, StrandedStay;
    KnownTables(db);
    EvolvesReflexive(db);
    var db' := Relist(db, s, seller, l, a, start).0;
    if Relist(db, s, seller, l, a, start).1 == Ok {
      ListingWriteEvolves(db, l, db'.listings[l]);
      OneAuction(db.auctions, db.bids, a, db'.auctions[a], []);
    } else {
      assert db' == db;
    }
  }

  lemma ShipEvolves(db: Db, s: Id, seller: UserId, now: Time)
    ensures Evolves(db, MarkShipped(db, s, seller, now).0)
  {
    hide AuctionsEvolve, SalesEvolve, DisputesEvolve, ListingsEvolve, OffersEvolve, StrandedStay;
    EvolvesReflexive(db);
    var db' := MarkShipped(db, s, seller, now).0;
    if db' != db {
      assert SaleEvolves(db.sales[s], db'.sales[s]);
      OneSale(db.sales, s, db'.sales[s]);
      OneSaleStays(db.disputes, db.sales, db.releasing, s, db'.sales[s], db.releasing);
    }
  }

  lemma ConfirmEvolves(db: Db, s: Id, requireWinner: Option<UserId>)
    ensures Evolves(db, ConfirmDelivery(db, s, requireWinner, false).0)
  {
    hide AuctionsEvolve, SalesEvolve, DisputesEvolve, ListingsEvolve, OffersEvolve, StrandedStay;
    EvolvesReflexive(db);
    var db' := ConfirmDelivery(db, s, requireWinner, false).0;
    if db' != db {
      assert SaleEvolves(db.sales[s], db'.sales[s]);
      OneSale(db.sales, s, db'.sales[s]);
      OneSaleStays(db.disputes, db.sales, db.releasing, s, db'.sales[s], db.releasing);
    }
  }

  lemma FinishReleaseEvolves(db: Db, s: Id)
    ensures Evolves(db, FinishRelease(db, s).0)
  {
    hide AuctionsEvolve, SalesEvolve, DisputesEvolve, ListingsEvolve, OffersEvolve, StrandedStay;
    EvolvesReflexive(db);
    var db' := FinishRelease(db, s).0;
    if s in db.releasing {
      if FinishRelease(db, s).1 == Ok {
        assert SaleEvolves(db.sales[s], db'.sales[s]);
        OneSale(db.sales, s, db'.sales[s]);
        OneSaleStays(db.disputes, db.sales, db.releasing, s, db'.sales[s], db'.releasing);
      } else {
        FewerReleases(db, s);
      }
    }
  }

  lemma FewerReleases(db: Db, s: Id)
    ensures StrandedStay(db.disputes, db.sales, db.releasing, db.sales, db.releasing - {s})
  {}

  lemma RaiseEvolves(db: Db, s: Id, user: UserId, d: Id, reason: string)
    ensures Evolves(db, RaiseDispute(db, s, user, d, reason).0)
  {
    hide AuctionsEvolve, SalesEvolve, DisputesEvolve, ListingsEvolve, OffersEvolve, StrandedStay;
    EvolvesReflexive(db);
    var db' := RaiseDispute(db, s, user, d, reason).0;
    if RaiseDispute(db, s, user, d, reason).1 == Ok {
      OneSale(db.sales, s, db'.sales[s]);
      OneSaleStays(db.disputes, db.sales, db.releasing, s, db'.sales[s], db.releasing);
      OneDispute(db.disputes, d, db'.disputes[d]);
    }
  }

  lemma RespondEvolves(db: Db, s: Id, d: Id, seller: UserId, response: string)
    ensures Evolves(db, RespondToDispute(db, s, d, seller, response).0)
  {
    hide AuctionsEvolve, SalesEvolve, DisputesEvolve, ListingsEvolve, OffersEvolve, StrandedStay;
    EvolvesReflexive(db);
    var db' := RespondToDispute(db, s, d, seller, response).0;
    if db' != db {
      assert DisputeEvolves(db.disputes[d], db'.disputes[d]);
      OneDispute(db.disputes, d, db'.disputes[d]);
    }
  }

  /** Safe only because an OPEN dispute means DISPUTED: the REFUNDED write itself checks nothing. */
  lemma ResolveEvolves(db: Db, d: Id, refund: bool)
    requires Inv(db)
    ensures Evolves(db, ResolveDispute(db, d, refund).0)
  {
    hide Inv, AuctionsEvolve, SalesEvolve, DisputesEvolve, ListingsEvolve, OffersEvolve, StrandedStay;
    EvolvesReflexive(db);
    var db' := ResolveDispute(db, d, refund).0;
    if ResolveDispute(db, d, refund).1 == Ok {
      var s := db.disputes[d].sale;
      StoredDispute(db, d);
      StoredColumns(db, s);
      OneDispute(db.disputes, d, db'.disputes[d]);
      OneSale(db.sales, s, db'.sales[s]);
      OpenIsNotStranded(db, d);
      ResolvedStays(db.disputes, db.sales, db.releasing, s, db'.sales[s], db'.releasing);
      assert db'.sales == db.sales[s := db'.sales[s]];
    }
  }

  lemma OpenIsNotStranded(db: Db, d: Id)
    requires Inv(db) && d in db.disputes && db.disputes[d].status == Open
    ensures !IsStranded(db.disputes, db.sales, db.releasing, db.disputes[d].sale)
  {
    hide ListingsOk, AuctionsOk, SaleKeysOk, BooksOk, SalesOk, ChargesOk, LedgerOk, BalancesOk, Conserved, RelistsOk,
         DisputeFits;
  }

  lemma ResolvedStays(disputes: map<Id, Dispute>, sales: Sales, releasing: set<Id>, s: Id, r: Sale, releasing': set<Id>)
    requires releasing' <= releasing + {s} && !IsStranded(disputes, sales, releasing, s)
    ensures StrandedStay(disputes, sales, releasing, sales[s := r], releasing')
  {}

  lemma DeleteUserEvolves(db: Db, u: UserId)
    ensures Evolves(db, DeleteUser(db, u).0)
  {
    hide SalesEvolve, DisputesEvolve, ListingsEvolve, OffersEvolve, StrandedStay;
    EvolvesReflexive(db);
  }

  lemma StepEvolves(db: Db, step: Step)
    requires Inv(db)
    ensures Evolves(db, Apply(db, step).0)
  {
    hide Inv, Evolves, Submit, Resubmit, Withdraw, Approve, Reject, Takedown, PlaceBid, CancelAuction, CloseAuction,
         Pay, AdminVoid, VoidOverdue, OfferToNextBidder, Relist, MarkShipped, ConfirmDelivery, RaiseDispute,
         RespondToDispute, ResolveDispute, FinishRelease, DeleteUser;
    match step
    case SSubmit(l, seller, terms) => SubmitEvolves(db, l, seller, terms);
    case SResubmit(l, read, user, terms) => ResubmitEvolves(db, l, read, user, terms);
    case SWithdraw(l, read, user) => WithdrawEvolves(db, l, read, user);
    case SApprove(l, read, a, now) => ApproveEvolves(db, l, read, a, now);
    case SReject(l, read) => RejectEvolves(db, l, read);
    case STakedown(l, read) => TakedownEvolves(db, l, read);
    case SPlaceBid(a, buyer, amount, bid, now) => PlaceBidEvolves(db, a, buyer, amount, bid, now);
    case SCancel(a, user, isAdmin) => CancelEvolves(db, a, user, isAdmin);
    case SClose(a, s, now, hours) => CloseEvolves(db, a, s, now, hours);
    case SPay(s, user, gateway, address, phone, now) => PayEvolves(db, s, user, gateway, address, phone, now);
    case SAdminVoid(s) => AdminVoidEvolves(db, s);
    case SVoidOverdue(s, now, hours) => VoidOverdueEvolves(db, s, now, hours);
    case SOffer(s, seller, now, hours) => OfferEvolves(db, s, seller, now, hours);
    case SRelist(s, seller, l, a, now) => RelistEvolves(db, s, seller, l, a, now);
    case SShip(s, seller, now) => ShipEvolves(db, s, seller, now);
    case SConfirm(s, requireWinner) => ConfirmEvolves(db, s, requireWinner);
    case SDispute(s, user, d, reason) => RaiseEvolves(db, s, user, d, reason);
    case SRespond(s, d, seller, response) => RespondEvolves(db, s, d, seller, response);
    case SResolve(d, refund) => ResolveEvolves(db, d, refund);
    case SFinishRelease(s) => FinishReleaseEvolves(db, s);
    case SCrashRelease(s) => CrashEvolves(db, s);
    case SDeleteUser(user) => DeleteUserEvolves(db, user);
  }

  lemma CrashEvolves(db: Db, s: Id)
    ensures Evolves(db, CrashRelease(db, s).0)
  {
    hide AuctionsEvolve, SalesEvolve, DisputesEvolve, ListingsEvolve, OffersEvolve, StrandedStay;
    EvolvesReflexive(db);
    FewerReleases(db, s);
  }

  lemma {:induction false} RunEvolves(db: Db, steps: seq<Step>)
    requires Inv(db)
    ensures Evolves(db, Run(db, steps))
  {
    hide Inv, Apply, Evolves;
    KnownTables(db);
    if steps == [] {
      EvolvesReflexive(db);
    } else {
      var mid := Run(db, steps[..|steps| - 1]);
      RunEvolves(db, steps[..|steps| - 1]);
      RunKeeps(db, steps[..|steps| - 1]);
      StepEvolves(mid, steps[|steps| - 1]);
      EvolvesTransitive(db, mid, Run(db, steps));
    }
  }
}
