/**
  Every committed transaction keeps the invariant: small lemmas about one table each, then one lemma
  per transaction, then every run.
 */
module MarketPreservation {
  import opened Options
  import opened Bidding
  import opened Sums
  import opened Market
  import opened MarketInvariant

  // ---- listings -----------------------------------------------------------------------------

  lemma RewrittenListing(listings: Listings, seen: map<Id, set<Listing>>, l: Id, row: Listing)
    requires ListingsOk(listings, seen) && l in listings && GoodTerms(row.terms)
    requires row.seller == listings[l].seller && row.relistedFrom == listings[l].relistedFrom
    ensures ListingsOk(listings[l := row], seen[l := seen[l] + {row}])
  {
    var listings', seen' := listings[l := row], seen[l := seen[l] + {row}];
    forall k, v | k in seen' && v in seen'[k] ensures VersionOk(listings', k, v) {
      assert k != l ==> v in seen[k];
      assert k == l && v != row ==> v in seen[k] && VersionOk(listings, k, v);
    }
  }

  lemma RewrittenListingRelists(listings: Listings, auctions: Auctions, sales: Sales, l: Id, row: Listing)
    requires RelistsOk(listings, auctions, sales) && l in listings && row.relistedFrom == listings[l].relistedFrom
    ensures RelistsOk(listings[l := row], auctions, sales)
  {}

  lemma RewrittenListingAuctions(listings: Listings, auctions: Auctions, l: Id, row: Listing)
    requires AuctionsOk(listings, auctions) && l in listings && row.seller == listings[l].seller
    ensures AuctionsOk(listings[l := row], auctions)
  {}

  lemma SetListingKeeps(db: Db, l: Id, row: Listing)
    requires Inv(db) && l in db.listings && GoodTerms(row.terms)
    requires row.seller == db.listings[l].seller && row.relistedFrom == db.listings[l].relistedFrom
    ensures Inv(SetListing(db, l, row))
  {
    hide ListingsOk, AuctionsOk, SaleKeysOk, BooksOk, SalesOk, DisputesOk, ChargesOk, LedgerOk, BalancesOk,
         Conserved, RelistsOk;
    StoredListing(db, l);
    RewrittenListing(db.listings, db.seen, l, row);
    RewrittenListingAuctions(db.listings, db.auctions, l, row);
    RewrittenListingRelists(db.listings, db.auctions, db.sales, l, row);
  }

  lemma AddedListing(listings: Listings, seen: map<Id, set<Listing>>, l: Id, row: Listing)
    requires ListingsOk(listings, seen) && l !in seen && GoodTerms(row.terms)
    ensures l !in listings && ListingsOk(listings[l := row], seen[l := {row}])
  {}

  lemma AddedListingAuctions(listings: Listings, auctions: Auctions, l: Id, row: Listing)
    requires AuctionsOk(listings, auctions) && l !in listings
    ensures AuctionsOk(listings[l := row], auctions)
    ensures forall a :: a in auctions ==> auctions[a].listing != l
  {}

  lemma AddedListingRelists(listings: Listings, auctions: Auctions, sales: Sales, l: Id, row: Listing)
    requires RelistsOk(listings, auctions, sales) && l !in listings && row.relistedFrom.None?
    ensures RelistsOk(listings[l := row], auctions, sales)
  {}

  lemma NewListingKeeps(db: Db, l: Id, row: Listing)
    requires Inv(db) && l !in db.seen && GoodTerms(row.terms) && row.relistedFrom.None?
    ensures Inv(SetListing(db, l, row))
  {
    hide ListingsOk, AuctionsOk, SaleKeysOk, BooksOk, SalesOk, DisputesOk, ChargesOk, LedgerOk, BalancesOk,
         Conserved, RelistsOk;
    AddedListing(db.listings, db.seen, l, row);
    AddedListingAuctions(db.listings, db.auctions, l, row);
    AddedListingRelists(db.listings, db.auctions, db.sales, l, row);
    assert VersionsOf(db, l) + {row} == {row};
  }

  lemma SubmitKeeps(db: Db, l: Id, seller: UserId, terms: Terms)
    requires Inv(db)
    ensures Inv(Submit(db, l, seller, terms).0)
  {
    hide Inv;
    if GoodTerms(terms) && l !in db.seen {
      NewListingKeeps(db, l, Listing(seller, terms, ListingStatus.Pending, None));
    }
  }

  lemma ResubmitKeeps(db: Db, l: Id, read: Listing, user: UserId, terms: Terms)
    requires Inv(db)
    ensures Inv(Resubmit(db, l, read, user, terms).0)
  {
    hide Inv;
    if Resubmit(db, l, read, user, terms).1 == Ok {
      StoredListing(db, l);
      SetListingKeeps(db, l,
                      db.listings[l].(terms := EditedTerms(db.listings[l].terms, terms),
                                      status := ListingStatus.Pending));
    }
  }

  lemma RemovedListing(listings: Listings, seen: map<Id, set<Listing>>, auctions: Auctions, sales: Sales, l: Id)
    requires ListingsOk(listings, seen) && AuctionsOk(listings, auctions) && RelistsOk(listings, auctions, sales)
    requires forall a :: a in auctions ==> auctions[a].listing != l
    ensures ListingsOk(listings - {l}, seen) && AuctionsOk(listings - {l}, auctions)
    ensures RelistsOk(listings - {l}, auctions, sales)
  {}

  lemma WithdrawKeeps(db: Db, l: Id, read: Listing, user: UserId)
    requires Inv(db)
    ensures Inv(Withdraw(db, l, read, user).0)
  {
    hide ListingsOk, AuctionsOk, SaleKeysOk, BooksOk, SalesOk, DisputesOk, ChargesOk, LedgerOk, BalancesOk,
         Conserved, RelistsOk;
    if Withdraw(db, l, read, user).1 == Ok {
      RemovedListing(db.listings, db.seen, db.auctions, db.sales, l);
    }
  }

  /** The auction an approval or a relist opens: ACTIVE, at the start price, with an empty book. */
  lemma AddedAuction(listings: Listings, auctions: Auctions, sales: Sales, a: Id, row: Auction)
    requires AuctionsOk(listings, auctions) && SaleKeysOk(auctions, sales) && a !in auctions
    requires AuctionOk(listings, row) && forall b :: b in auctions ==> auctions[b].listing != row.listing
    ensures AuctionsOk(listings, auctions[a := row]) && SaleKeysOk(auctions[a := row], sales)
  {}

  lemma AddedBook(auctions: Auctions, bids: Books, bidders: map<Id, set<UserId>>, a: Id, row: Auction)
    requires BooksOk(auctions, bids, bidders) && BookOk(row, [], {})
    ensures BooksOk(auctions[a := row], bids[a := []], bidders[a := {}])
  {}

  lemma AddedBookSales(auctions: Auctions, bids: Books, bidders: map<Id, set<UserId>>, sales: Sales,
                       offers: map<Id, seq<Offer>>, a: Id, row: Auction)
    requires SalesOk(auctions, bids, bidders, sales, offers) && a !in auctions
    ensures SalesOk(auctions[a := row], bids[a := []], bidders[a := {}], sales, offers)
  {}

  lemma NewAuctionKeeps(db: Db, a: Id, row: Auction)
    requires Inv(db) && a !in db.auctions && AuctionOk(db.listings, row) && BookOk(row, [], {})
    requires forall b :: b in db.auctions ==> db.auctions[b].listing != row.listing
    ensures Inv(AddAuction(db, a, row))
  {
    hide ListingsOk, AuctionsOk, SaleKeysOk, BooksOk, SalesOk, DisputesOk, ChargesOk, LedgerOk, BalancesOk,
         Conserved, RelistsOk;
    AddedAuction(db.listings, db.auctions, db.sales, a, row);
    AddedBook(db.auctions, db.bids, db.bidders, a, row);
    AddedBookSales(db.auctions, db.bids, db.bidders, db.sales, db.offers, a, row);
    MoreAuctionsKeepRelists(db.listings, db.auctions, db.sales, a, row);
  }

  lemma MoreAuctionsKeepRelists(listings: Listings, auctions: Auctions, sales: Sales, a: Id, row: Auction)
    requires RelistsOk(listings, auctions, sales) && a !in auctions
    ensures RelistsOk(listings, auctions[a := row], sales)
  {
    var auctions' := auctions[a := row];
    forall r | r in listings && listings[r].relistedFrom.Some?
      ensures exists s :: VoidedSaleOf(auctions', sales, s, listings[r].relistedFrom.value)
      ensures exists b :: IsAuctionOf(auctions', b, r)
    {
      var s :| VoidedSaleOf(auctions, sales, s, listings[r].relistedFrom.value);
      assert VoidedSaleOf(auctions', sales, s, listings[r].relistedFrom.value);
      var b :| IsAuctionOf(auctions, b, r);
      assert IsAuctionOf(auctions', b, r);
    }
  }

  lemma ReadVersion(db: Db, l: Id, read: Listing)
    requires Inv(db) && read in VersionsOf(db, l)
    ensures GoodTerms(read.terms)
    ensures l in db.listings ==> read.seller == db.listings[l].seller
  {
    hide AuctionsOk, SaleKeysOk, BooksOk, SalesOk, DisputesOk, ChargesOk, LedgerOk, BalancesOk, Conserved, RelistsOk;
    assert VersionOk(db.listings, l, read);
  }

  lemma StoredListing(db: Db, l: Id)
    requires Inv(db) && l in db.listings
    ensures l in db.seen && db.listings[l] in VersionsOf(db, l) && GoodTerms(db.listings[l].terms)
  {
    hide AuctionsOk, SaleKeysOk, BooksOk, SalesOk, DisputesOk, ChargesOk, LedgerOk, BalancesOk, Conserved, RelistsOk;
    assert VersionOk(db.listings, l, db.listings[l]);
  }

  lemma ApproveKeeps(db: Db, l: Id, read: Listing, a: Id, now: Time)
    requires Inv(db)
    ensures Inv(Approve(db, l, read, a, now).0)
  {
    hide Inv;
    if Approve(db, l, read, a, now).1 == Ok {
      ReadVersion(db, l, read);
      StoredListing(db, l);
      var row := db.listings[l].(status := Approved);
      SetListingKeeps(db, l, row);
      if !HasAuction(db, l) {
        NewAuctionKeeps(SetListing(db, l, row), a, NewAuction(l, read.seller, read.terms, now));
      }
    }
  }

  lemma RejectKeeps(db: Db, l: Id, read: Listing)
    requires Inv(db)
    ensures Inv(Reject(db, l, read).0)
  {
    hide Inv;
    if Reject(db, l, read).1 == Ok {
      StoredListing(db, l);
      SetListingKeeps(db, l, db.listings[l].(status := Rejected));
    }
  }

  lemma TakedownKeeps(db: Db, l: Id, read: Listing)
    requires Inv(db)
    ensures Inv(Takedown(db, l, read).0)
  {
    hide Inv;
    if Takedown(db, l, read).1 == Ok {
      StoredListing(db, l);
      SetListingKeeps(db, l, db.listings[l].(status := Removed));
    }
  }

  // ---- auctions -----------------------------------------------------------------------------

  /** An auction row may change its counters and status while it is not closed; no sale hangs on it. */
  lemma OpenAuctionRewritten(listings: Listings, auctions: Auctions, sales: Sales, a: Id, row: Auction)
    requires AuctionsOk(listings, auctions) && SaleKeysOk(auctions, sales) && RelistsOk(listings, auctions, sales)
    requires a in auctions && auctions[a].status != Closed
    requires row.listing == auctions[a].listing && row.seller == auctions[a].seller
    ensures AuctionsOk(listings, auctions[a := row]) && SaleKeysOk(auctions[a := row], sales)
    ensures RelistsOk(listings, auctions[a := row], sales)
  {
    var auctions' := auctions[a := row];
    forall r | r in listings && listings[r].relistedFrom.Some?
      ensures exists s :: VoidedSaleOf(auctions', sales, s, listings[r].relistedFrom.value)
      ensures exists b :: IsAuctionOf(auctions', b, r)
    {
      var s :| VoidedSaleOf(auctions, sales, s, listings[r].relistedFrom.value);
      assert VoidedSaleOf(auctions', sales, s, listings[r].relistedFrom.value);
      var b :| IsAuctionOf(auctions, b, r);
      assert IsAuctionOf(auctions', b, r);
    }
  }

  lemma BookExtended(a: Auction, book: seq<Bid>, bidders: set<UserId>, bid: Bid, buyer: UserId)
    requires BookOk(a, book, bidders)
    requires bid.buyer == Some(buyer) && buyer != a.seller
    requires MinAllowed(a) <= bid.amount <= MAX_MONEY
    ensures BookOk(a.(currentBid := bid.amount, bidCount := a.bidCount + 1), book + [bid], bidders + {buyer})
  {
    var book' := book + [bid];
    forall i, j | 0 <= i < j < |book'| ensures book'[i].amount + a.terms.minIncrement <= book'[j].amount {
      if j == |book| && i < |book| - 1 {
        assert book[i].amount + a.terms.minIncrement <= book[|book| - 1].amount;
      }
    }
  }

  lemma OpenBookRewritten(auctions: Auctions, bids: Books, bidders: map<Id, set<UserId>>, sales: Sales,
                          offers: map<Id, seq<Offer>>, a: Id, row: Auction, book: seq<Bid>, known: set<UserId>)
    requires BooksOk(auctions, bids, bidders) && SalesOk(auctions, bids, bidders, sales, offers)
    requires SaleKeysOk(auctions, sales)
    requires a in auctions && auctions[a].status != Closed && BookOk(row, book, known)
    ensures BooksOk(auctions[a := row], bids[a := book], bidders[a := known])
    ensures SalesOk(auctions[a := row], bids[a := book], bidders[a := known], sales, offers)
  {
    hide SaleOk, BookOk;
    assert forall s :: s in sales ==> SaleKeyOk(auctions, sales[s]) && sales[s].auction != a;
  }

  /** Any rewriting of an auction that is not closed, book and counters included. */
  lemma OpenAuctionKeeps(db: Db, a: Id, row: Auction, book: seq<Bid>, known: set<UserId>)
    requires Inv(db) && a in db.auctions && db.auctions[a].status != Closed && BookOk(row, book, known)
    requires row.listing == db.auctions[a].listing && row.seller == db.auctions[a].seller
    ensures Inv(db.(auctions := db.auctions[a := row], bids := db.bids[a := book], bidders := db.bidders[a := known]))
  {
    hide ListingsOk, AuctionsOk, SaleKeysOk, BooksOk, SalesOk, DisputesOk, ChargesOk, LedgerOk, BalancesOk,
         Conserved, RelistsOk, BookOk;
    OpenAuctionRewritten(db.listings, db.auctions, db.sales, a, row);
    OpenBookRewritten(db.auctions, db.bids, db.bidders, db.sales, db.offers, a, row, book, known);
  }

  lemma AcceptedBid(db: Db, a: Id, buyer: UserId, amount: int, bid: Id, now: Time)
    requires PlaceBid(db, a, buyer, amount, bid, now).1 == Ok
    ensures a in db.auctions && a in db.bids && a in db.bidders
    ensures db.auctions[a].status == Active && db.auctions[a].seller != buyer
    ensures MinAllowed(db.auctions[a]) <= amount <= MAX_MONEY
    ensures PlaceBid(db, a, buyer, amount, bid, now).0
         == db.(auctions :=
                db.auctions[a := db.auctions[a].(currentBid := amount, bidCount := db.auctions[a].bidCount + 1)],
                bids := db.bids[a := db.bids[a] + [Bid(bid, Some(buyer), amount, now)]],
                bidders := db.bidders[a := db.bidders[a] + {buyer}])
  {}

  lemma KnownTables(db: Db)
    requires Inv(db)
    ensures db.bids.Keys == db.auctions.Keys == db.bidders.Keys && db.offers.Keys == db.sales.Keys
    ensures db.listings.Keys <= db.seen.Keys
  {
    hide AuctionsOk, SaleKeysOk, DisputesOk, ChargesOk, LedgerOk, BalancesOk, Conserved, RelistsOk, BookOk, SaleOk;
  }

  lemma StoredBook(db: Db, a: Id)
    requires Inv(db) && a in db.auctions
    ensures a in db.bids && a in db.bidders && BookOk(db.auctions[a], db.bids[a], db.bidders[a])
  {
    hide ListingsOk, AuctionsOk, SaleKeysOk, SalesOk, DisputesOk, ChargesOk, LedgerOk, BalancesOk, Conserved, RelistsOk,
         BookOk;
  }

  /** The two ways a bid ends. */
  lemma BidCases(db: Db, a: Id, buyer: UserId, amount: int, bid: Id, now: Time)
    ensures PlaceBid(db, a, buyer, amount, bid, now).1 != Ok ==> PlaceBid(db, a, buyer, amount, bid, now).0 == db
    ensures PlaceBid(db, a, buyer, amount, bid, now).1 == Ok ==>
      && a in db.auctions && a in db.bids && a in db.bidders
      && PlaceBid(db, a, buyer, amount, bid, now).0
         == db.(auctions :=
                db.auctions[a := db.auctions[a].(currentBid := amount, bidCount := db.auctions[a].bidCount + 1)],
                bids := db.bids[a := db.bids[a] + [Bid(bid, Some(buyer), amount, now)]],
                bidders := db.bidders[a := db.bidders[a] + {buyer}])
  {}

  lemma PlaceBidKeeps(db: Db, a: Id, buyer: UserId, amount: int, bid: Id, now: Time)
    requires Inv(db)
    ensures Inv(PlaceBid(db, a, buyer, amount, bid, now).0)
  {
    hide Inv, BookOk;
    if PlaceBid(db, a, buyer, amount, bid, now).1 == Ok {
      AcceptedBid(db, a, buyer, amount, bid, now);
      var row := db.auctions[a];
      var added := Bid(bid, Some(buyer), amount, now);
      StoredBook(db, a);
      BookExtended(row, db.bids[a], db.bidders[a], added, buyer);
      OpenAuctionKeeps(db, a, row.(currentBid := amount, bidCount := row.bidCount + 1),
                       db.bids[a] + [added], db.bidders[a] + {buyer});
    } else {
      assert PlaceBid(db, a, buyer, amount, bid, now).0 == db;
    }
  }

  lemma OpenStatusKeeps(db: Db, a: Id, row: Auction)
    requires Inv(db) && a in db.auctions && db.auctions[a].status != Closed
    requires row == db.auctions[a].(status := row.status, reserveMet := row.reserveMet)
    ensures Inv(db.(auctions := db.auctions[a := row]))
  {
    hide Inv;
    StoredBook(db, a);
    assert db.bids == db.bids[a := db.bids[a]] && db.bidders == db.bidders[a := db.bidders[a]];
    OpenAuctionKeeps(db, a, row, db.bids[a], db.bidders[a]);
  }

  lemma CancelKeeps(db: Db, a: Id, user: UserId, isAdmin: bool)
    requires Inv(db)
    ensures Inv(CancelAuction(db, a, user, isAdmin).0)
  {
    hide Inv;
    if CancelAuction(db, a, user, isAdmin).1 == Ok {
      OpenStatusKeeps(db, a, db.auctions[a].(status := Cancelled));
    }
  }

  // ---- a sale is created --------------------------------------------------------------------

  lemma FirstSaleOk(a: Auction, book: seq<Bid>, bidders: set<UserId>, r: Sale)
    requires BookOk(a, book, bidders) && FindNextBid(book, []).Some?
    requires var top := FindNextBid(book, []).value;
             && r.winner == top.buyer.value && r.amount == top.amount
             && ReserveVerdict(a.terms.reserve, Some(top)) != Some(false)
    requires r.status == SaleStatus.Pending && r.previousWinners == [] && r.dueAt.Some?
    requires r.reference.None? && r.paidAt.None? && r.shippedAt.None?
    ensures SaleOk(a, book, bidders, r, [Offer(r.winner, r.amount)])
  {
    hide AtOwnHighestBid;
    var top := FindNextBid(book, []).value;
    var k :| 0 <= k < |book| && book[k] == top;
    forall i | 0 <= i < |book| && Eligible(book[i], r.previousWinners) ensures book[i].amount <= r.amount {
      assert !Precedes(book[i], top);
    }
    assert WinnersOk(r, bidders) && PricedByBid(r, book);
    PricedAtOwnBid(r, book, bidders);
  }

  /** The current price is its winner's own highest bid. */
  lemma PricedAtOwnBid(r: Sale, book: seq<Bid>, bidders: set<UserId>)
    requires WinnersOk(r, bidders) && PricedByBid(r, book)
    ensures AtOwnHighestBid(book, Offer(r.winner, r.amount))
  {
    var k :| 0 <= k < |book| && book[k].buyer == Some(r.winner) && book[k].amount == r.amount;
    forall j | 0 <= j < |book| && book[j].buyer == Some(r.winner) ensures book[j].amount <= r.amount {
      assert Eligible(book[j], r.previousWinners);
    }
  }

  lemma AddedSaleKey(auctions: Auctions, sales: Sales, s: Id, r: Sale)
    requires SaleKeysOk(auctions, sales) && s !in sales && SaleKeyOk(auctions, r)
    requires forall t :: t in sales ==> sales[t].auction != r.auction
    ensures SaleKeysOk(auctions, sales[s := r])
  {}

  lemma AddedSale(auctions: Auctions, bids: Books, bidders: map<Id, set<UserId>>, sales: Sales,
                  offers: map<Id, seq<Offer>>, s: Id, r: Sale, first: seq<Offer>)
    requires SalesOk(auctions, bids, bidders, sales, offers)
    requires r.auction in auctions && r.auction in bids && r.auction in bidders
    requires SaleOk(auctions[r.auction], bids[r.auction], bidders[r.auction], r, first)
    ensures SalesOk(auctions, bids, bidders, sales[s := r], offers[s := first])
  {
    hide SaleOk;
  }

  lemma AddedSaleDisputes(disputes: map<Id, Dispute>, sales: Sales, releasing: set<Id>, s: Id, r: Sale)
    requires DisputesOk(disputes, sales, releasing) && s !in sales && !IsPaid(r.status)
    ensures DisputesOk(disputes, sales[s := r], releasing)
  {}

  lemma AddedSaleMoney(charges: seq<Charge>, sales: Sales, ledger: seq<LedgerEntry>, s: Id, r: Sale)
    requires ChargesOk(charges, sales) && LedgerOk(ledger, sales) && Conserved(charges, sales, ledger)
    requires s !in sales && !IsPaid(r.status)
    ensures ChargesOk(charges, sales[s := r]) && LedgerOk(ledger, sales[s := r])
    ensures Conserved(charges, sales[s := r], ledger)
  {
    hide SaleOk;
    SumInsert(sales, HeldAmount, s, r);
    SumInsert(sales, RefundedAmount, s, r);
  }

  lemma AddedSaleRelists(listings: Listings, auctions: Auctions, sales: Sales, s: Id, r: Sale)
    requires RelistsOk(listings, auctions, sales) && s !in sales
    ensures RelistsOk(listings, auctions, sales[s := r])
  {
    var sales' := sales[s := r];
    forall q | q in listings && listings[q].relistedFrom.Some?
      ensures exists t :: VoidedSaleOf(auctions, sales', t, listings[q].relistedFrom.value)
    {
      var t :| VoidedSaleOf(auctions, sales, t, listings[q].relistedFrom.value);
      assert VoidedSaleOf(auctions, sales', t, listings[q].relistedFrom.value);
    }
  }

  lemma NewSaleKeeps(db: Db, s: Id, r: Sale, first: seq<Offer>)
    requires Inv(db) && s !in db.sales && SaleKeyOk(db.auctions, r) && !IsPaid(r.status)
    requires r.auction in db.bids && r.auction in db.bidders
    requires forall t :: t in db.sales ==> db.sales[t].auction != r.auction
    requires SaleOk(db.auctions[r.auction], db.bids[r.auction], db.bidders[r.auction], r, first)
    ensures Inv(SetSale(db, s, r).(offers := db.offers[s := first]))
  {
    hide ListingsOk, AuctionsOk, SaleKeysOk, BooksOk, SalesOk, DisputesOk, ChargesOk, LedgerOk, BalancesOk,
         Conserved, RelistsOk;
    AddedSaleKey(db.auctions, db.sales, s, r);
    AddedSale(db.auctions, db.bids, db.bidders, db.sales, db.offers, s, r, first);
    AddedSaleDisputes(db.disputes, db.sales, db.releasing, s, r);
    AddedSaleMoney(db.charges, db.sales, db.ledger, s, r);
    AddedSaleRelists(db.listings, db.auctions, db.sales, s, r);
  }

  lemma ClosedAuctionSells(db: Db, a: Id, s: Id, row: Auction, sale: Sale)
    requires Inv(db) && a in db.auctions && row == db.auctions[a] && row.status == Closed
    requires s !in db.sales && !HasSale(db, a)
    requires a in db.bids && FindNextBid(db.bids[a], []).Some?
    requires sale.auction == a && sale.seller == row.seller && sale.status == SaleStatus.Pending
    requires sale.previousWinners == []
    requires sale.dueAt.Some? && sale.reference.None? && sale.paidAt.None? && sale.shippedAt.None?
    requires var top := FindNextBid(db.bids[a], []).value;
             && sale.winner == top.buyer.value && sale.amount == top.amount
             && ReserveVerdict(row.terms.reserve, Some(top)) != Some(false)
    ensures Inv(SetSale(db, s, sale).(offers := db.offers[s := [Offer(sale.winner, sale.amount)]]))
  {
    hide SalesOk, DisputesOk, ChargesOk, LedgerOk, BalancesOk, Conserved, RelistsOk, ListingsOk, SaleOk, BookOk;
    StoredBook(db, a);
    FirstSaleOk(row, db.bids[a], db.bidders[a], sale);
    NewSaleKeeps(db, s, sale, [Offer(sale.winner, sale.amount)]);
  }

  lemma CloseKeeps(db: Db, a: Id, s: Id, now: Time, hours: int)
    requires Inv(db)
    ensures Inv(CloseAuction(db, a, s, now, hours).0)
  {
    hide Inv;
    if CloseAuction(db, a, s, now, hours).1 == Ok {
      var row, book := db.auctions[a], BookOf(db.bids, a);
      var top := FindNextBid(book, []);
      var row' := row.(status := Closed, reserveMet := ReserveVerdict(row.terms.reserve, top));
      var closed := db.(auctions := db.auctions[a := row']);
      OpenStatusKeeps(db, a, row');
      if top.Some? && row'.reserveMet != Some(false) {
        var sale := FirstSale(a, row, top.value, now, hours);
        ClosedAuctionSells(closed, a, s, row', sale);
      }
    } else {
      assert CloseAuction(db, a, s, now, hours).0 == db;
    }
  }

  // ---- a sale row is rewritten --------------------------------------------------------------

  lemma SetSaleKey(auctions: Auctions, sales: Sales, s: Id, r: Sale)
    requires SaleKeysOk(auctions, sales) && s in sales && r.auction == sales[s].auction && r.seller == sales[s].seller
    ensures SaleKeysOk(auctions, sales[s := r])
  {}

  /** A row about which no dispute was ever raised, before and after. */
  lemma SetUndisputedSale(disputes: map<Id, Dispute>, sales: Sales, releasing: set<Id>, s: Id, r: Sale)
    requires DisputesOk(disputes, sales, releasing) && s in sales
    requires !(sales[s].status == Disputed || sales[s].status == Refunded || sales[s].status == Delivered)
    requires !(r.status == Disputed || r.status == Refunded)
    ensures DisputesOk(disputes, sales[s := r], releasing)
    ensures forall d :: d in disputes ==> disputes[d].sale != s
  {
    assert forall d :: d in disputes ==> DisputeFits(disputes[d], sales[disputes[d].sale]);
  }

  /** Neither paid before nor after, or paid both times by the same buyer, at the same price, to the same place. */
  predicate SamePayment(r: Sale, r': Sale) {
    && IsPaid(r.status) == IsPaid(r'.status)
    && (IsPaid(r.status) ==> r.winner == r'.winner && r.amount == r'.amount && r.address == r'.address)
  }

  lemma SetSaleCharges(charges: seq<Charge>, sales: Sales, s: Id, r: Sale)
    requires ChargesOk(charges, sales) && s in sales && SamePayment(sales[s], r)
    ensures ChargesOk(charges, sales[s := r])
  {
    var sales' := sales[s := r];
    forall t | t in sales' && IsPaid(sales'[t].status) ensures exists i :: ChargedAt(charges, i, t) {
      assert IsPaid(sales[t].status);
    }
  }

  lemma SetSaleLedger(ledger: seq<LedgerEntry>, sales: Sales, s: Id, r: Sale)
    requires LedgerOk(ledger, sales) && s in sales && sales[s].status != Delivered && r.status != Delivered
    ensures LedgerOk(ledger, sales[s := r])
  {}

  lemma SetSaleTotals(charges: seq<Charge>, sales: Sales, ledger: seq<LedgerEntry>, s: Id, r: Sale)
    requires Conserved(charges, sales, ledger) && s in sales
    requires HeldAmount(r) + RefundedAmount(r) == HeldAmount(sales[s]) + RefundedAmount(sales[s])
    ensures Conserved(charges, sales[s := r], ledger)
  {
    SumReplace(sales, HeldAmount, s, r);
    SumReplace(sales, RefundedAmount, s, r);
  }

  /** A sale that is not voided, or stays voided, is nobody's ground for a relist that would lose it. */
  lemma SetSaleRelists(listings: Listings, auctions: Auctions, sales: Sales, s: Id, r: Sale)
    requires RelistsOk(listings, auctions, sales) && s in sales && r.auction == sales[s].auction
    requires r.status == Voided || sales[s].status != Voided
          || (sales[s].auction in auctions
              && forall q :: q in listings ==> listings[q].relistedFrom != Some(auctions[sales[s].auction].listing))
    ensures RelistsOk(listings, auctions, sales[s := r])
  {
    var sales' := sales[s := r];
    forall q | q in listings && listings[q].relistedFrom.Some?
      ensures exists t :: VoidedSaleOf(auctions, sales', t, listings[q].relistedFrom.value)
    {
      var t :| VoidedSaleOf(auctions, sales, t, listings[q].relistedFrom.value);
      assert VoidedSaleOf(auctions, sales', t, listings[q].relistedFrom.value);
    }
  }

  /** A rewrite that moves no money and touches no dispute: void, decline, re-offer, ship. */
  lemma QuietSaleKeeps(db: Db, s: Id, r: Sale, given: seq<Offer>)
    requires Inv(db) && s in db.sales
    requires r.auction == db.sales[s].auction && r.seller == db.sales[s].seller
    requires r.auction in db.auctions && r.auction in db.bids && r.auction in db.bidders
    requires SaleOk(db.auctions[r.auction], db.bids[r.auction], db.bidders[r.auction], r, given)
    requires db.sales[s].status in {SaleStatus.Pending, Voided, Completed}
    requires r.status in {SaleStatus.Pending, Voided, Completed, Shipped}
    requires SamePayment(db.sales[s], r)
    requires r.status == Voided || db.sales[s].status != Voided || !HasRelist(db, db.auctions[r.auction].listing)
    ensures Inv(SetSale(db, s, r).(offers := db.offers[s := given]))
  {
    hide ListingsOk, AuctionsOk, SaleKeysOk, BooksOk, SalesOk, DisputesOk, ChargesOk, LedgerOk, BalancesOk,
         Conserved, RelistsOk, SaleOk;
    SetSaleKey(db.auctions, db.sales, s, r);
    AddedSale(db.auctions, db.bids, db.bidders, db.sales, db.offers, s, r, given);
    SetUndisputedSale(db.disputes, db.sales, db.releasing, s, r);
    SetSaleCharges(db.charges, db.sales, s, r);
    SetSaleLedger(db.ledger, db.sales, s, r);
    SetSaleTotals(db.charges, db.sales, db.ledger, s, r);
    SetSaleRelists(db.listings, db.auctions, db.sales, s, r);
  }

  lemma StoredSale(db: Db, s: Id)
    requires Inv(db) && s in db.sales
    ensures var r := db.sales[s];
            && s in db.offers && r.auction in db.auctions && r.auction in db.bids && r.auction in db.bidders
            && SaleOk(db.auctions[r.auction], db.bids[r.auction], db.bidders[r.auction], r, db.offers[s])
            && SaleKeyOk(db.auctions, r)
  {
    hide ListingsOk, AuctionsOk, BooksOk, DisputesOk, ChargesOk, LedgerOk, BalancesOk, Conserved, RelistsOk, SaleOk;
  }

  /** The winner, price and offers of a row stay as they were; only its columns move. */
  lemma SameOfferOk(a: Auction, book: seq<Bid>, bidders: set<UserId>, r: Sale, r': Sale, given: seq<Offer>)
    requires SaleOk(a, book, bidders, r, given) && ColumnsOk(r')
    requires r'.winner == r.winner && r'.amount == r.amount && r'.previousWinners == r.previousWinners
    ensures SaleOk(a, book, bidders, r', given)
  {}

  lemma QuietColumnsKeep(db: Db, s: Id, r: Sale)
    requires Inv(db) && s in db.sales && ColumnsOk(r)
    requires r.auction == db.sales[s].auction && r.seller == db.sales[s].seller
    requires r.winner == db.sales[s].winner && r.amount == db.sales[s].amount
    requires r.previousWinners == db.sales[s].previousWinners
    requires db.sales[s].status in {SaleStatus.Pending, Completed}
    requires r.status in {SaleStatus.Pending, Voided, Completed, Shipped}
    requires SamePayment(db.sales[s], r)
    ensures Inv(SetSale(db, s, r))
  {
    hide Inv, SaleOk;
    StoredSale(db, s);
    SameOfferOk(db.auctions[r.auction], db.bids[r.auction], db.bidders[r.auction], db.sales[s], r, db.offers[s]);
    assert db.offers == db.offers[s := db.offers[s]];
    QuietSaleKeeps(db, s, r, db.offers[s]);
  }

  lemma StoredColumns(db: Db, s: Id)
    requires Inv(db) && s in db.sales
    ensures ColumnsOk(db.sales[s])
  {
    hide Inv, WinnersOk, PricedByBid, OffersOk;
    StoredSale(db, s);
  }

  lemma AdminVoidKeeps(db: Db, s: Id)
    requires Inv(db)
    ensures Inv(AdminVoid(db, s).0)
  {
    hide Inv;
    if AdminVoid(db, s).1 == Ok {
      StoredColumns(db, s);
      QuietColumnsKeep(db, s, db.sales[s].(status := Voided, paymentError := None));
    }
  }

  lemma VoidOverdueKeeps(db: Db, s: Id, now: Time, hours: int)
    requires Inv(db)
    ensures Inv(VoidOverdue(db, s, now, hours).0)
  {
    hide Inv;
    if VoidOverdue(db, s, now, hours).1 == Ok {
      StoredColumns(db, s);
      QuietColumnsKeep(db, s, db.sales[s].(status := Voided, paymentError := None));
    }
  }

  lemma ShipKeeps(db: Db, s: Id, seller: UserId, now: Time)
    requires Inv(db)
    ensures Inv(MarkShipped(db, s, seller, now).0)
  {
    hide Inv;
    if MarkShipped(db, s, seller, now).1 == Ok {
      StoredColumns(db, s);
      QuietColumnsKeep(db, s, db.sales[s].(status := Shipped, shippedAt := Some(now)));
    }
  }

  // ---- the second-chance offer --------------------------------------------------------------

  /** The next bidder is somebody new, at their own highest bid, and nobody left to offer bid more. */
  lemma NextBidderPriced(book: seq<Bid>, bidders: set<UserId>, r: Sale, r': Sale)
    requires forall i :: 0 <= i < |book| && book[i].buyer.Some? ==> book[i].buyer.value in bidders
    requires WinnersOk(r, bidders) && PricedByBid(r, book)
    requires r'.previousWinners == r.previousWinners + [r.winner]
    requires FindNextBid(book, r'.previousWinners).Some?
    requires var next := FindNextBid(book, r'.previousWinners).value;
             r'.winner == next.buyer.value && r'.amount == next.amount
    ensures WinnersOk(r', bidders) && PricedByBid(r', book) && r'.amount <= r.amount
  {
    var next := FindNextBid(book, r'.previousWinners).value;
    var k :| 0 <= k < |book| && book[k] == next;
    assert Eligible(book[k], r.previousWinners);
    forall i | 0 <= i < |book| && Eligible(book[i], r'.previousWinners) ensures book[i].amount <= r'.amount {
      assert !Precedes(book[i], next);
    }
  }

  lemma OfferAppended(r: Sale, r': Sale, given: seq<Offer>, reserve: Option<int>)
    requires OffersOk(r, given, reserve) && r'.amount <= r.amount
    requires r'.previousWinners == r.previousWinners + [r.winner]
    ensures OffersOk(r', given + [Offer(r'.winner, r'.amount)], reserve)
  {
    var given' := given + [Offer(r'.winner, r'.amount)];
    forall i, j | 0 <= i < j < |given'| ensures given'[j].amount <= given'[i].amount {
      if j == |given| && i < |given| - 1 {
        assert given[|given| - 1].amount <= given[i].amount;
      }
    }
  }

  lemma NextOfferOk(a: Auction, book: seq<Bid>, bidders: set<UserId>, r: Sale, r': Sale, given: seq<Offer>)
    requires BookOk(a, book, bidders) && SaleOk(a, book, bidders, r, given) && ColumnsOk(r')
    requires r'.previousWinners == r.previousWinners + [r.winner]
    requires FindNextBid(book, r'.previousWinners).Some?
    requires var next := FindNextBid(book, r'.previousWinners).value;
             r'.winner == next.buyer.value && r'.amount == next.amount
    ensures SaleOk(a, book, bidders, r', given + [Offer(r'.winner, r'.amount)])
  {
    hide WinnersOk, PricedByBid, OffersOk, AtOwnHighestBid;
    NextBidderPriced(book, bidders, r, r');
    OfferAppended(r, r', given, a.terms.reserve);
    PricedAtOwnBid(r', book, bidders);
  }

  lemma NextBidIsMoney(a: Auction, book: seq<Bid>, bidders: set<UserId>, exclude: seq<UserId>)
    requires BookOk(a, book, bidders) && FindNextBid(book, exclude).Some?
    ensures 1 <= FindNextBid(book, exclude).value.amount <= MAX_MONEY
  {
    var k :| 0 <= k < |book| && book[k] == FindNextBid(book, exclude).value;
  }

  lemma OfferKeeps(db: Db, s: Id, seller: UserId, now: Time, hours: int)
    requires Inv(db)
    ensures Inv(OfferToNextBidder(db, s, seller, now, hours).0)
  {
    hide Inv, BookOk, SaleOk;
    if OfferToNextBidder(db, s, seller, now, hours).1 == Ok {
      var row := db.sales[s];
      var db' := OfferToNextBidder(db, s, seller, now, hours).0;
      StoredSale(db, s);
      StoredBook(db, row.auction);
      var a, book, bidders := db.auctions[row.auction], db.bids[row.auction], db.bidders[row.auction];
      NextBidIsMoney(a, book, bidders, row.previousWinners + [row.winner]);
      NextOfferOk(a, book, bidders, row, db'.sales[s], db.offers[s]);
      QuietSaleKeeps(db, s, db'.sales[s], db'.offers[s]);
    } else {
      assert OfferToNextBidder(db, s, seller, now, hours).0 == db;
    }
  }

  // ---- payment ------------------------------------------------------------------------------

  /** A row with the same winner, price and offers, whatever its new status. */
  lemma SetSaleSales(db: Db, s: Id, r: Sale)
    requires Inv(db) && s in db.sales && ColumnsOk(r)
    requires r.auction == db.sales[s].auction && r.seller == db.sales[s].seller
    requires r.winner == db.sales[s].winner && r.amount == db.sales[s].amount
    requires r.previousWinners == db.sales[s].previousWinners
    ensures SaleKeysOk(db.auctions, db.sales[s := r])
    ensures SalesOk(db.auctions, db.bids, db.bidders, db.sales[s := r], db.offers)
  {
    hide ListingsOk, AuctionsOk, SaleKeysOk, BooksOk, SalesOk, DisputesOk, ChargesOk, LedgerOk, BalancesOk,
         Conserved, RelistsOk, SaleOk;
    StoredSale(db, s);
    SameOfferOk(db.auctions[r.auction], db.bids[r.auction], db.bidders[r.auction], db.sales[s], r, db.offers[s]);
    SetSaleKey(db.auctions, db.sales, s, r);
    AddedSale(db.auctions, db.bids, db.bidders, db.sales, db.offers, s, r, db.offers[s]);
    assert db.offers == db.offers[s := db.offers[s]];
  }

  lemma ChargeRecorded(charges: seq<Charge>, sales: Sales, s: Id, r: Sale, c: Charge)
    requires ChargesOk(charges, sales) && s in sales && !IsPaid(sales[s].status) && c.sale == s
    requires ChargeOk(sales[s := r], c)
    ensures ChargesOk(charges + [c], sales[s := r])
  {
    var sales', charges' := sales[s := r], charges + [c];
    assert forall i :: 0 <= i < |charges| ==> ChargeOk(sales, charges[i]) && charges[i].sale != s;
    forall t | t in sales' && IsPaid(sales'[t].status) ensures exists i :: ChargedAt(charges', i, t) {
      if t == s {
        assert ChargedAt(charges', |charges|, t);
      } else {
        var i :| ChargedAt(charges, i, t);
        assert ChargedAt(charges', i, t);
      }
    }
  }

  lemma ChargeHeld(charges: seq<Charge>, sales: Sales, ledger: seq<LedgerEntry>, s: Id, r: Sale, c: Charge)
    requires Conserved(charges, sales, ledger) && s in sales && !IsPaid(sales[s].status)
    requires r.status == Completed && r.amount == c.amount
    ensures Conserved(charges + [c], sales[s := r], ledger)
  {
    SumReplace(sales, HeldAmount, s, r);
    SumReplace(sales, RefundedAmount, s, r);
    assert (charges + [c])[..|charges|] == charges;
  }

  lemma PayKeeps(db: Db, s: Id, user: UserId, gateway: Gateway, address: string, phone: string, now: Time)
    requires Inv(db)
    ensures Inv(Pay(db, s, user, gateway, address, phone, now).0)
  {
    hide Inv;
    var (db', outcome) := Pay(db, s, user, gateway, address, phone, now);
    if outcome == Declined || outcome == Ok {
      StoredColumns(db, s);
      if gateway.Declines? {
        QuietColumnsKeep(db, s, db'.sales[s]);
      } else {
        PaidKeeps(db, s, db'.sales[s], Charge(s, user, db.sales[s].amount, address));
      }
    } else {
      assert db' == db;
    }
  }

  lemma PaidKeeps(db: Db, s: Id, r: Sale, c: Charge)
    requires Inv(db) && s in db.sales && ColumnsOk(r) && db.sales[s].status == SaleStatus.Pending
    requires r.auction == db.sales[s].auction && r.seller == db.sales[s].seller && r.status == Completed
    requires r.winner == db.sales[s].winner && r.amount == db.sales[s].amount
    requires r.previousWinners == db.sales[s].previousWinners
    requires c.sale == s && c.payer == r.winner && c.amount == r.amount && r.address == Some(c.address)
    ensures Inv(SetSale(db, s, r).(charges := db.charges + [c]))
  {
    hide ListingsOk, AuctionsOk, SaleKeysOk, BooksOk, SalesOk, DisputesOk, ChargesOk, LedgerOk, BalancesOk,
         Conserved, RelistsOk;
    SetSaleSales(db, s, r);
    SetUndisputedSale(db.disputes, db.sales, db.releasing, s, r);
    ChargeRecorded(db.charges, db.sales, s, r, c);
    SetSaleLedger(db.ledger, db.sales, s, r);
    ChargeHeld(db.charges, db.sales, db.ledger, s, r, c);
    SetSaleRelists(db.listings, db.auctions, db.sales, s, r);
  }

  // ---- delivery -----------------------------------------------------------------------------

  lemma EntryRecorded(ledger: seq<LedgerEntry>, sales: Sales, s: Id, r: Sale, e: LedgerEntry)
    requires LedgerOk(ledger, sales) && s in sales && sales[s].status != Delivered && e.sale == s
    requires EntryOk(sales[s := r], e)
    ensures LedgerOk(ledger + [e], sales[s := r])
  {
    var sales', ledger' := sales[s := r], ledger + [e];
    assert forall i :: 0 <= i < |ledger| ==> EntryOk(sales, ledger[i]) && ledger[i].sale != s;
    forall t | t in sales' && sales'[t].status == Delivered ensures exists i :: PaidOutAt(ledger', i, t) {
      if t == s {
        assert PaidOutAt(ledger', |ledger|, t);
      } else {
        var i :| PaidOutAt(ledger, i, t);
        assert PaidOutAt(ledger', i, t);
      }
    }
  }

  lemma BalanceCredited(balances: map<UserId, int>, ledger: seq<LedgerEntry>, e: LedgerEntry)
    requires BalancesOk(balances, ledger) && BalanceOf(balances, e.seller) + e.amount <= INT4_MAX
    ensures BalancesOk(balances[e.seller := BalanceOf(balances, e.seller) + e.amount], ledger + [e])
  {
    var balances', ledger' := balances[e.seller := BalanceOf(balances, e.seller) + e.amount], ledger + [e];
    assert ledger'[..|ledger|] == ledger;
    forall u ensures BalanceOf(balances', u) == EarnedBy(ledger', u) && BalanceOf(balances', u) <= INT4_MAX {
      assert BalanceOf(balances, u) == EarnedBy(ledger, u) && BalanceOf(balances, u) <= INT4_MAX;
    }
  }

  lemma HeldIsPaidOut(charges: seq<Charge>, sales: Sales, ledger: seq<LedgerEntry>, s: Id, r: Sale, e: LedgerEntry)
    requires Conserved(charges, sales, ledger) && s in sales
    requires HeldAmount(sales[s]) == sales[s].amount == r.amount == e.amount && RefundedAmount(sales[s]) == 0
    requires r.status == Delivered
    ensures Conserved(charges, sales[s := r], ledger + [e])
  {
    SumReplace(sales, HeldAmount, s, r);
    SumReplace(sales, RefundedAmount, s, r);
    assert (ledger + [e])[..|ledger|] == ledger;
  }

  /**
    Delivery fits every dispute about the sale: from SHIPPED there is none, from DISPUTED it must be
    a released one.
   */
  lemma DeliveredDisputes(disputes: map<Id, Dispute>, sales: Sales, releasing: set<Id>, s: Id, r: Sale)
    requires DisputesOk(disputes, sales, releasing) && s in sales && s !in releasing
    requires r.status == Delivered && r.winner == sales[s].winner
    requires sales[s].status == Shipped
          || (sales[s].status == Disputed && forall d :: AboutSale(disputes, d, s) ==>
              disputes[d].status == ResolvedReleased)
    ensures DisputesOk(disputes, sales[s := r], releasing)
  {
    forall d | d in disputes && disputes[d].sale == s ensures DisputeFits(disputes[d], r) {
      assert DisputeFits(disputes[d], sales[s]) && AboutSale(disputes, d, s);
    }
  }

  lemma DeliveredKeeps(db: Db, s: Id, r: Sale, e: LedgerEntry)
    requires Inv(db) && s in db.sales && s !in db.releasing && r == db.sales[s].(status := Delivered)
    requires db.sales[s].status == Shipped
          || (db.sales[s].status == Disputed && forall d :: AboutSale(db.disputes, d, s) ==>
              db.disputes[d].status == ResolvedReleased)
    requires e == LedgerEntry(r.seller, s, r.amount) && BalanceOf(db.balances, r.seller) + r.amount <= INT4_MAX
    ensures Inv(SetSale(db, s, r).(ledger := db.ledger + [e],
                                   balances := db.balances[r.seller := BalanceOf(db.balances, r.seller) + r.amount]))
  {
    hide ListingsOk, AuctionsOk, SaleKeysOk, BooksOk, SalesOk, DisputesOk, ChargesOk, LedgerOk, BalancesOk,
         Conserved, RelistsOk;
    StoredColumns(db, s);
    SetSaleSales(db, s, r);
    DeliveredDisputes(db.disputes, db.sales, db.releasing, s, r);
    SetSaleCharges(db.charges, db.sales, s, r);
    EntryRecorded(db.ledger, db.sales, s, r, e);
    BalanceCredited(db.balances, db.ledger, e);
    HeldIsPaidOut(db.charges, db.sales, db.ledger, s, r, e);
    SetSaleRelists(db.listings, db.auctions, db.sales, s, r);
  }

  lemma NotReleasing(db: Db, s: Id)
    requires Inv(db) && s in db.sales && db.sales[s].status != Disputed
    ensures s !in db.releasing
  {
    hide ListingsOk, AuctionsOk, SaleKeysOk, BooksOk, SalesOk, ChargesOk, LedgerOk, BalancesOk, Conserved, RelistsOk;
  }

  lemma ConfirmKeeps(db: Db, s: Id, requireWinner: Option<UserId>)
    requires Inv(db)
    ensures Inv(ConfirmDelivery(db, s, requireWinner, false).0)
  {
    hide Inv;
    if ConfirmDelivery(db, s, requireWinner, false).1 == Ok {
      NotReleasing(db, s);
      var r := db.sales[s].(status := Delivered);
      DeliveredKeeps(db, s, r, LedgerEntry(r.seller, s, r.amount));
    }
  }

  lemma ReleaseEnds(db: Db, s: Id)
    requires Inv(db)
    ensures Inv(db.(releasing := db.releasing - {s}))
  {
    hide ListingsOk, AuctionsOk, SaleKeysOk, BooksOk, SalesOk, ChargesOk, LedgerOk, BalancesOk, Conserved, RelistsOk,
         DisputeFits;
  }

  /** The release's second step always finds DISPUTED, resolved in the seller's favour. */
  lemma ReleaseFindsDisputed(db: Db, s: Id)
    requires Inv(db) && s in db.releasing
    ensures s in db.sales && db.sales[s].status == Disputed && !HasEntry(db, s)
    ensures forall d :: AboutSale(db.disputes, d, s) ==> db.disputes[d].status == ResolvedReleased
  {
    hide ListingsOk, AuctionsOk, SaleKeysOk, BooksOk, SalesOk, ChargesOk, BalancesOk, Conserved, RelistsOk, DisputeFits;
    assert forall i :: 0 <= i < |db.ledger| ==> EntryOk(db.sales, db.ledger[i]);
  }

  lemma FinishReleaseKeeps(db: Db, s: Id)
    requires Inv(db)
    ensures Inv(FinishRelease(db, s).0)
  {
    hide Inv;
    if s in db.releasing {
      var db' := db.(releasing := db.releasing - {s});
      ReleaseEnds(db, s);
      ReleaseFindsDisputed(db, s);
      if ConfirmDelivery(db', s, None, true).1 == Ok {
        var r := db.sales[s].(status := Delivered);
        DeliveredKeeps(db', s, r, LedgerEntry(r.seller, s, r.amount));
      }
    }
  }

  lemma CrashReleaseKeeps(db: Db, s: Id)
    requires Inv(db)
    ensures Inv(CrashRelease(db, s).0)
  {
    hide Inv;
    ReleaseEnds(db, s);
  }

  // ---- disputes -----------------------------------------------------------------------------

  lemma DisputeRaised(disputes: map<Id, Dispute>, sales: Sales, releasing: set<Id>, s: Id, r: Sale, d: Id, row: Dispute)
    requires DisputesOk(disputes, sales, releasing) && s in sales && sales[s].status == Shipped && d !in disputes
    requires r.status == Disputed && row.sale == s && row.status == Open && row.raisedBy == r.winner
    ensures DisputesOk(disputes[d := row], sales[s := r], releasing)
  {
    var disputes', sales' := disputes[d := row], sales[s := r];
    assert forall e :: e in disputes ==> DisputeFits(disputes[e], sales[disputes[e].sale]) && disputes[e].sale != s;
    forall t | t in sales' && (sales'[t].status == Disputed || sales'[t].status == Refunded)
      ensures exists e :: AboutSale(disputes', e, t)
    {
      if t == s {
        assert AboutSale(disputes', d, t);
      } else {
        var e :| AboutSale(disputes, e, t);
        assert AboutSale(disputes', e, t);
      }
    }
    forall t | t in releasing
      ensures t in sales' && sales'[t].status == Disputed
      ensures forall e :: AboutSale(disputes', e, t) ==> disputes'[e].status == ResolvedReleased
    {
      forall e | AboutSale(disputes', e, t) ensures disputes'[e].status == ResolvedReleased {
        assert AboutSale(disputes, e, t);
      }
    }
  }

  lemma DisputeKeeps(db: Db, s: Id, user: UserId, d: Id, reason: string)
    requires Inv(db)
    ensures Inv(RaiseDispute(db, s, user, d, reason).0)
  {
    hide ListingsOk, AuctionsOk, SaleKeysOk, BooksOk, SalesOk, DisputesOk, ChargesOk, LedgerOk, BalancesOk,
         Conserved, RelistsOk;
    if RaiseDispute(db, s, user, d, reason).1 == Ok {
      var r := db.sales[s].(status := Disputed);
      StoredColumns(db, s);
      SetSaleSales(db, s, r);
      DisputeRaised(db.disputes, db.sales, db.releasing, s, r, d, Dispute(s, user, reason, None, Open));
      SetSaleCharges(db.charges, db.sales, s, r);
      SetSaleLedger(db.ledger, db.sales, s, r);
      SetSaleTotals(db.charges, db.sales, db.ledger, s, r);
      SetSaleRelists(db.listings, db.auctions, db.sales, s, r);
    }
  }

  /** A dispute row is rewritten: same sale, and a status that fits the sale as it now is. */
  lemma DisputeRewritten(disputes: map<Id, Dispute>, sales: Sales, releasing: set<Id>, d: Id, row: Dispute, r: Sale,
                         releasing': set<Id>)
    requires DisputesOk(disputes, sales, releasing) && d in disputes && disputes[d].status == Open
    requires row.sale == disputes[d].sale && DisputeFits(row, r)
    requires releasing' == releasing
               || (releasing' == releasing + {row.sale} && row.status == ResolvedReleased && r.status == Disputed)
    ensures DisputesOk(disputes[d := row], sales[row.sale := r], releasing')
  {
    var s := row.sale;
    var disputes', sales' := disputes[d := row], sales[s := r];
    assert AboutSale(disputes, d, s);
    forall t | t in sales' && (sales'[t].status == Disputed || sales'[t].status == Refunded)
      ensures exists e :: AboutSale(disputes', e, t)
    {
      if t == s {
        assert AboutSale(disputes', d, t);
      } else {
        var e :| AboutSale(disputes, e, t);
        assert AboutSale(disputes', e, t);
      }
    }
    forall t | t in releasing'
      ensures t in sales' && sales'[t].status == Disputed
      ensures forall e :: AboutSale(disputes', e, t) ==> disputes'[e].status == ResolvedReleased
    {
      forall e | AboutSale(disputes', e, t) ensures disputes'[e].status == ResolvedReleased {
        assert AboutSale(disputes, e, t);
      }
    }
  }

  lemma StoredDispute(db: Db, d: Id)
    requires Inv(db) && d in db.disputes
    ensures db.disputes[d].sale in db.sales && DisputeFits(db.disputes[d], db.sales[db.disputes[d].sale])
  {
    hide ListingsOk, AuctionsOk, SaleKeysOk, BooksOk, SalesOk, ChargesOk, LedgerOk, BalancesOk, Conserved, RelistsOk,
         DisputeFits;
  }

  lemma RespondKeeps(db: Db, s: Id, d: Id, seller: UserId, response: string)
    requires Inv(db)
    ensures Inv(RespondToDispute(db, s, d, seller, response).0)
  {
    hide ListingsOk, AuctionsOk, SaleKeysOk, BooksOk, SalesOk, DisputesOk, ChargesOk, LedgerOk, BalancesOk,
         Conserved, RelistsOk;
    if RespondToDispute(db, s, d, seller, response).1 == Ok {
      StoredDispute(db, d);
      DisputeRewritten(db.disputes, db.sales, db.releasing, d, db.disputes[d].(response := Some(response)),
                       db.sales[s], db.releasing);
      assert db.sales == db.sales[s := db.sales[s]];
    }
  }

  lemma RefundedKeeps(db: Db, d: Id, s: Id, r: Sale)
    requires Inv(db) && d in db.disputes && db.disputes[d].status == Open && db.disputes[d].sale == s
    requires s in db.sales && r == db.sales[s].(status := Refunded)
    ensures Inv(SetSale(db.(disputes := db.disputes[d := db.disputes[d].(status := ResolvedRefunded)]), s, r))
  {
    hide ListingsOk, AuctionsOk, SaleKeysOk, BooksOk, SalesOk, DisputesOk, ChargesOk, LedgerOk, BalancesOk,
         Conserved, RelistsOk;
    StoredDispute(db, d);
    StoredColumns(db, s);
    SetSaleSales(db, s, r);
    DisputeRewritten(db.disputes, db.sales, db.releasing, d, db.disputes[d].(status := ResolvedRefunded), r,
                     db.releasing);
    SetSaleCharges(db.charges, db.sales, s, r);
    SetSaleLedger(db.ledger, db.sales, s, r);
    SetSaleTotals(db.charges, db.sales, db.ledger, s, r);
    SetSaleRelists(db.listings, db.auctions, db.sales, s, r);
  }

  lemma ReleasedKeeps(db: Db, d: Id, s: Id)
    requires Inv(db) && d in db.disputes && db.disputes[d].status == Open && db.disputes[d].sale == s && s in db.sales
    ensures Inv(db.(disputes := db.disputes[d := db.disputes[d].(status := ResolvedReleased)],
                    releasing := db.releasing + {s}))
  {
    hide ListingsOk, AuctionsOk, SaleKeysOk, BooksOk, SalesOk, DisputesOk, ChargesOk, LedgerOk, BalancesOk,
         Conserved, RelistsOk;
    StoredDispute(db, d);
    DisputeRewritten(db.disputes, db.sales, db.releasing, d, db.disputes[d].(status := ResolvedReleased), db.sales[s],
                     db.releasing + {s});
    assert db.sales == db.sales[s := db.sales[s]];
  }

  lemma ResolveKeeps(db: Db, d: Id, refund: bool)
    requires Inv(db)
    ensures Inv(ResolveDispute(db, d, refund).0)
  {
    hide Inv;
    if ResolveDispute(db, d, refund).1 == Ok {
      var s := db.disputes[d].sale;
      if refund {
        RefundedKeeps(db, d, s, db.sales[s].(status := Refunded));
      } else {
        ReleasedKeeps(db, d, s);
      }
    }
  }

  // ---- the relist ---------------------------------------------------------------------------

  lemma RelistedListing(listings: Listings, auctions: Auctions, sales: Sales, s: Id, l: Id, row: Listing, a: Id,
                        newAuction: Auction)
    requires RelistsOk(listings, auctions, sales) && l !in listings && a !in auctions && newAuction.listing == l
    requires row.relistedFrom.Some? && VoidedSaleOf(auctions, sales, s, row.relistedFrom.value)
    requires forall q :: q in listings ==> listings[q].relistedFrom != row.relistedFrom
    ensures RelistsOk(listings[l := row], auctions[a := newAuction], sales)
  {
    var listings', auctions' := listings[l := row], auctions[a := newAuction];
    assert IsAuctionOf(auctions', a, l);
    assert VoidedSaleOf(auctions', sales, s, row.relistedFrom.value);
    forall r | r in listings' && listings'[r].relistedFrom.Some?
      ensures exists t :: VoidedSaleOf(auctions', sales, t, listings'[r].relistedFrom.value)
      ensures exists b :: IsAuctionOf(auctions', b, r)
    {
      if r != l {
        var t :| VoidedSaleOf(auctions, sales, t, listings[r].relistedFrom.value);
        assert VoidedSaleOf(auctions', sales, t, listings[r].relistedFrom.value);
        var b :| IsAuctionOf(auctions, b, r);
        assert IsAuctionOf(auctions', b, r);
      }
    }
  }

  lemma RelistedKeeps(db: Db, s: Id, l: Id, row: Listing, a: Id, start: Time)
    requires Inv(db) && l !in db.seen && a !in db.auctions && GoodTerms(row.terms)
    requires row.relistedFrom.Some? && VoidedSaleOf(db.auctions, db.sales, s, row.relistedFrom.value)
    requires !HasRelist(db, row.relistedFrom.value)
    ensures Inv(AddAuction(SetListing(db, l, row), a, NewAuction(l, row.seller, row.terms, start)))
  {
    hide ListingsOk, AuctionsOk, SaleKeysOk, BooksOk, SalesOk, DisputesOk, ChargesOk, LedgerOk, BalancesOk,
         Conserved, RelistsOk, VoidedSaleOf;
    var newAuction := NewAuction(l, row.seller, row.terms, start);
    AddedListing(db.listings, db.seen, l, row);
    AddedListingAuctions(db.listings, db.auctions, l, row);
    assert VersionsOf(db, l) + {row} == {row};
    AddedAuction(db.listings[l := row], db.auctions, db.sales, a, newAuction);
    AddedBook(db.auctions, db.bids, db.bidders, a, newAuction);
    AddedBookSales(db.auctions, db.bids, db.bidders, db.sales, db.offers, a, newAuction);
    RelistedListing(db.listings, db.auctions, db.sales, s, l, row, a, newAuction);
  }

  lemma RelistKeeps(db: Db, s: Id, seller: UserId, l: Id, a: Id, start: Time)
    requires Inv(db)
    ensures Inv(Relist(db, s, seller, l, a, start).0)
  {
    hide Inv;
    if Relist(db, s, seller, l, a, start).1 == Ok {
      var originalId := db.auctions[db.sales[s].auction].listing;
      var original := db.listings[originalId];
      StoredListing(db, originalId);
      RelistedKeeps(db, s, l, Listing(original.seller, original.terms, Approved, Some(originalId)), a, start);
    } else {
      assert Relist(db, s, seller, l, a, start).0 == db;
    }
  }

  // ---- accounts -----------------------------------------------------------------------------

  lemma BookAnonymised(a: Auction, book: seq<Bid>, bidders: set<UserId>, u: UserId)
    requires BookOk(a, book, bidders)
    ensures BookOk(a, WithoutBuyer(book, u), bidders)
  {}

  lemma SaleAnonymised(a: Auction, book: seq<Bid>, bidders: set<UserId>, r: Sale, given: seq<Offer>, u: UserId)
    requires SaleOk(a, book, bidders, r, given) && r.winner != u
    ensures SaleOk(a, WithoutBuyer(book, u), bidders, r, given)
  {
    hide OffersPriced;
    var i :| 0 <= i < |book| && book[i].buyer == Some(r.winner) && book[i].amount == r.amount;
    var book' := WithoutBuyer(book, u);
    assert book'[i].buyer == Some(r.winner);
    forall k | 0 <= k < |book'| && Eligible(book'[k], r.previousWinners) ensures book'[k].amount <= r.amount {
      assert Eligible(book[k], r.previousWinners);
    }
    OffersAnonymised(book, given, u);
  }

  lemma OffersAnonymised(book: seq<Bid>, given: seq<Offer>, u: UserId)
    requires OffersPriced(book, given)
    ensures OffersPriced(WithoutBuyer(book, u), given)
  {
    var book' := WithoutBuyer(book, u);
    forall i | 0 <= i < |given| ensures AtOwnHighestBid(book', given[i]) {
      assert AtOwnHighestBid(book, given[i]);
      var j :| 0 <= j < |book| && book[j].amount == given[i].amount
               && (book[j].buyer == Some(given[i].winner) || book[j].buyer.None?);
      assert book'[j].amount == given[i].amount;
    }
  }

  lemma DeleteUserKeeps(db: Db, u: UserId)
    requires Inv(db)
    ensures Inv(DeleteUser(db, u).0)
  {
    hide ListingsOk, AuctionsOk, SaleKeysOk, DisputesOk, ChargesOk, LedgerOk, BalancesOk,
         Conserved, RelistsOk, BookOk, SaleOk;
    if DeleteUser(db, u).1 == Ok {
      var bids' := DeleteUser(db, u).0.bids;
      forall a | a in db.auctions ensures BookOk(db.auctions[a], bids'[a], db.bidders[a]) {
        BookAnonymised(db.auctions[a], db.bids[a], db.bidders[a], u);
      }
      forall s | s in db.sales
        ensures var a := db.sales[s].auction;
                SaleOk(db.auctions[a], bids'[a], db.bidders[a], db.sales[s], db.offers[s])
      {
        var a := db.sales[s].auction;
        SaleAnonymised(db.auctions[a], db.bids[a], db.bidders[a], db.sales[s], db.offers[s], u);
      }
    }
  }

  // ---- every step, every run ----------------------------------------------------------------

  lemma StepKeeps(db: Db, step: Step)
    requires Inv(db)
    ensures Inv(Apply(db, step).0)
  {
    hide Inv, Submit, Resubmit, Withdraw, Approve, Reject, Takedown, PlaceBid, CancelAuction, CloseAuction, Pay,
         AdminVoid, VoidOverdue, OfferToNextBidder, Relist, MarkShipped, ConfirmDelivery, RaiseDispute,
         RespondToDispute, ResolveDispute, FinishRelease, CrashRelease, DeleteUser;
    match step
    case SSubmit(l, seller, terms) => SubmitKeeps(db, l, seller, terms);
    case SResubmit(l, read, user, terms) => ResubmitKeeps(db, l, read, user, terms);
    case SWithdraw(l, read, user) => WithdrawKeeps(db, l, read, user);
    case SApprove(l, read, a, now) => ApproveKeeps(db, l, read, a, now);
    case SReject(l, read) => RejectKeeps(db, l, read);
    case STakedown(l, read) => TakedownKeeps(db, l, read);
    case SPlaceBid(a, buyer, amount, bid, now) => PlaceBidKeeps(db, a, buyer, amount, bid, now);
    case SCancel(a, user, isAdmin) => CancelKeeps(db, a, user, isAdmin);
    case SClose(a, s, now, hours) => CloseKeeps(db, a, s, now, hours);
    case SPay(s, user, gateway, address, phone, now) => PayKeeps(db, s, user, gateway, address, phone, now);
    case SAdminVoid(s) => AdminVoidKeeps(db, s);
    case SVoidOverdue(s, now, hours) => VoidOverdueKeeps(db, s, now, hours);
    case SOffer(s, seller, now, hours) => OfferKeeps(db, s, seller, now, hours);
    case SRelist(s, seller, l, a, now) => RelistKeeps(db, s, seller, l, a, now);
    case SShip(s, seller, now) => ShipKeeps(db, s, seller, now);
    case SConfirm(s, requireWinner) => ConfirmKeeps(db, s, requireWinner);
    case SDispute(s, user, d, reason) => DisputeKeeps(db, s, user, d, reason);
    case SRespond(s, d, seller, response) => RespondKeeps(db, s, d, seller, response);
    case SResolve(d, refund) => ResolveKeeps(db, d, refund);
    case SFinishRelease(s) => FinishReleaseKeeps(db, s);
    case SCrashRelease(s) => CrashReleaseKeeps(db, s);
    case SDeleteUser(user) => DeleteUserKeeps(db, user);
  }

  lemma {:induction false} RunKeeps(db: Db, steps: seq<Step>)
    requires Inv(db)
    ensures Inv(Run(db, steps))
  {
    hide Inv;
    if steps != [] {
      RunKeeps(db, steps[..|steps| - 1]);
      StepKeeps(Run(db, steps[..|steps| - 1]), steps[|steps| - 1]);
    }
  }
}
