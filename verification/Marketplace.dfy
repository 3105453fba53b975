/**
  The services and route handlers that write sales: one method per database transaction, reading rows
  under the lock and updating the tables in place. Each is tied to its transition in module Market,
  about which the theorems are proved.
 */
module MarketplaceService {
  import opened Options
  import opened Bidding
  import opened Market
  import opened MarketInvariant
  import opened MarketPreservation
  import opened MarketTheorems
  import opened MarketAnswers

  /** Where a sweep of a fixed list of shipments has confirmed exactly `done`, each with its payout. */
  ghost predicate Confirmed(was: Db, db: Db, done: set<Id>) {
    && db == was.(sales := db.sales, ledger := db.ledger, balances := db.balances) && db.sales.Keys == was.sales.Keys
    && (forall s :: s in db.sales ==>
        db.sales[s] == if s in done then was.sales[s].(status := Delivered) else was.sales[s])
    && was.ledger <= db.ledger && |db.ledger| == |was.ledger| + |done|
  }

  lemma ConfirmedNothing(db: Db)
    ensures Confirmed(db, db, {})
  {}

  lemma ConfirmedOneMore(was: Db, db: Db, done: set<Id>, s: Id)
    requires Confirmed(was, db, done) && s !in done && ConfirmDelivery(db, s, None, false).1 == Ok
    ensures Confirmed(was, ConfirmDelivery(db, s, None, false).0, done + {s})
  {
    hide HasEntry;
  }

  lemma RefusedConfirmation(db: Db, s: Id)
    ensures ConfirmDelivery(db, s, None, false).1 != Ok ==> ConfirmDelivery(db, s, None, false).0 == db
  {}

  lemma ListedIsShipped(was: Db, db: Db, done: set<Id>, s: Id, now: Time, reviewHours: int)
    requires Confirmed(was, db, done) && s !in done && s in FindTimedOutShipments(was, now, reviewHours)
    ensures s in db.sales && db.sales[s].status == Shipped
  {}

  lemma ListedStays(was: Db, db: Db, done: set<Id>, s: Id, now: Time, reviewHours: int)
    requires Confirmed(was, db, done) && s in FindTimedOutShipments(was, now, reviewHours)
    ensures s in db.sales
  {}

  class Marketplace {
    var listings: map<Id, Listing>
    var auctions: map<Id, Auction>
    var bids: map<Id, seq<Bid>>
    var sales: map<Id, Sale>
    var disputes: map<Id, Dispute>
    var ledger: seq<LedgerEntry>
    var balances: map<UserId, int>

    ghost var releasing: set<Id>
    ghost var seen: map<Id, set<Listing>>
    ghost var bidders: map<Id, set<UserId>>
    ghost var charges: seq<Charge>
    ghost var offers: map<Id, seq<Offer>>

    ghost function State(): Db
      reads this
    {
      Db(listings, auctions, bids, sales, disputes, ledger, balances, releasing, seen, bidders, charges, offers)
    }

    ghost predicate Valid()
      reads this
    {
      Inv(State())
    }

    constructor ()
      ensures State() == EMPTY && Valid()
    {
      listings, auctions, bids, sales, disputes, ledger, balances := map[], map[], map[], map[], map[], [], map[];
      releasing, seen, bidders, charges, offers := {}, map[], map[], [], map[];
      new;
      EmptyIsValid();
    }

    // ---- listings -------------------------------------------------------------------------------

    method UpdateListing(l: Id, row: Listing)
      modifies this`listings, this`seen
      ensures State() == SetListing(old(State()), l, row)
    {
      seen := seen[l := VersionsOf(State(), l) + {row}];
      listings := listings[l := row];
    }

    method OpenAuction(a: Id, l: Id, seller: UserId, terms: Terms, start: Time)
      modifies this`auctions, this`bids, this`bidders
      ensures State() == AddAuction(old(State()), a, NewAuction(l, seller, terms, start))
    {
      var endTime := start + terms.durationDays * DAY;
      auctions := auctions[a := Auction(l, seller, terms, terms.startPrice, 0, Active, None, endTime)];
      bids := bids[a := []];
      bidders := bidders[a := {}];
    }

    /** The row was read, and its status checked, before this transaction and outside any lock. */
    method ApproveOneListing(l: Id, read: Listing, a: Id, now: Time) returns (outcome: Outcome)
      requires Valid() && read in VersionsOf(State(), l)
      modifies this
      ensures Valid() && (State(), outcome) == Approve(old(State()), l, read, a, now)
      ensures outcome == Ok ==> exists b :: IsAuctionOf(auctions, b, l)
    {
      hide Inv, IsAuctionOf;
      ApproveKeeps(State(), l, read, a, now);
      ApprovedHasAuction(State(), l, read, a, now);
      if read.status != ListingStatus.Pending { return WrongState; }
      if l !in listings { return NotFound; }
      var existing := exists b :: b in auctions && auctions[b].listing == l;
      if !existing && a in auctions { return UniqueViolation; }
      UpdateListing(l, listings[l].(status := Approved));
      if !existing {
        OpenAuction(a, l, read.seller, read.terms, now);
      }
      return Ok;
    }

    /** First of a takedown's two transactions; CancelAuction is the second. */
    method TakedownListing(l: Id, read: Listing) returns (outcome: Outcome)
      requires Valid() && read in VersionsOf(State(), l)
      modifies this
      ensures Valid() && (State(), outcome) == Takedown(old(State()), l, read)
      ensures outcome == Ok ==>
                l in listings && listings[l].status == Removed && sales == old(sales) && auctions == old(auctions)
    {
      hide Inv;
      TakedownKeeps(State(), l, read);
      if read.status != Approved { return WrongState; }
      if l !in listings { return NotFound; }
      UpdateListing(l, listings[l].(status := Removed));
      return Ok;
    }

    // ---- auctions -------------------------------------------------------------------------------

    /** The checks a bid passes under the auction's row lock. */
    method CheckBid(a: Id, buyer: UserId, amount: int, now: Time) returns (outcome: Outcome)
      requires Valid()
      ensures BidAnswered(State(), a, buyer, amount, now, outcome)
      ensures forall bid :: outcome == PlaceBid(State(), a, buyer, amount, bid, now).1
    {
      hide Inv, BidAnswered;
      KnownTables(State());
      BidIsAnswered(State(), a, buyer, amount, 0, now);
      if amount < 1 || amount > MAX_MONEY { return Invalid; }
      if a !in auctions { return NotFound; }
      var row := auctions[a];
      if row.seller == buyer { return Forbidden; }
      if row.status != Active { return BiddingClosed; }
      if row.endTime <= now { return AuctionEnded; }
      var minAllowed := row.currentBid;
      if row.bidCount != 0 { minAllowed := minAllowed + row.terms.minIncrement; }
      if amount < minAllowed { return BidTooLow; }
      var maxAllowed := minAllowed;
      if row.currentBid * 10 > maxAllowed { maxAllowed := row.currentBid * 10; }
      if row.terms.startPrice * 100 > maxAllowed { maxAllowed := row.terms.startPrice * 100; }
      if MAX_MONEY < maxAllowed { maxAllowed := MAX_MONEY; }
      if amount > maxAllowed { return BidTooHigh; }
      return Ok;
    }

    method StoreBid(a: Id, buyer: UserId, amount: int, bid: Id, now: Time)
      requires a in auctions && a in bids && a in bidders
      modifies this`auctions, this`bids, this`bidders
      ensures State() == old(State()).(
                auctions := old(auctions)[
                  a := old(auctions)[a].(currentBid := amount, bidCount := old(auctions)[a].bidCount + 1)],
                bids := old(bids)[a := old(bids)[a] + [Bid(bid, Some(buyer), amount, now)]],
                bidders := old(bidders)[a := old(bidders)[a] + {buyer}])
    {
      bids := bids[a := bids[a] + [Bid(bid, Some(buyer), amount, now)]];
      auctions := auctions[a := auctions[a].(currentBid := amount, bidCount := auctions[a].bidCount + 1)];
      bidders := bidders[a := bidders[a] + {buyer}];
    }

    method PlaceABid(a: Id, buyer: UserId, amount: int, bid: Id, now: Time) returns (outcome: Outcome)
      requires Valid()
      modifies this
      ensures Valid() && (State(), outcome) == PlaceBid(old(State()), a, buyer, amount, bid, now)
      ensures BidAnswered(old(State()), a, buyer, amount, now, outcome)
      ensures outcome == Ok ==>
                a in auctions && a in bids && auctions[a].currentBid == amount && |bids[a]| == auctions[a].bidCount
    {
      hide BidAnswered, Inv, PlaceBid;
      if a in auctions { StoredBook(State(), a); }
      PlaceBidKeeps(State(), a, buyer, amount, bid, now);
      BidCases(State(), a, buyer, amount, bid, now);
      KnownTables(State());
      outcome := CheckBid(a, buyer, amount, now);
      assert outcome == PlaceBid(State(), a, buyer, amount, bid, now).1;
      if outcome == Ok {
        StoreBid(a, buyer, amount, bid, now);
      }
    }

    method CancelAnAuction(a: Id, user: UserId, isAdmin: bool) returns (outcome: Outcome)
      requires Valid()
      modifies this
      ensures Valid() && (State(), outcome) == CancelAuction(old(State()), a, user, isAdmin)
      ensures outcome == Ok ==> CancelledRight(old(State()), State(), a)
      ensures outcome == Ok && !isAdmin ==> a in bids && bids[a] == []
    {
      hide Inv;
      if a in auctions { StoredBook(State(), a); }
      CancelKeeps(State(), a, user, isAdmin);
      if a !in auctions { return NotFound; }
      var row := auctions[a];
      if !isAdmin && row.seller != user { return Forbidden; }
      if row.status != Active { return WrongState; }
      if !isAdmin && row.bidCount > 0 { return HasBids; }
      auctions := auctions[a := row.(status := Cancelled)];
      return Ok;
    }

    /** The winning bid and the verdict on the reserve, both read under the auction's row lock. */
    method JudgeAuction(a: Id) returns (top: Option<Bid>, reserveMet: Option<bool>)
      requires Valid() && a in auctions
      ensures a in bids
      ensures match top
              case None => forall k :: !IsLastRealBid(bids[a], k)
              case Some(bid) => exists k :: IsLastRealBid(bids[a], k) && bids[a][k] == bid
      ensures reserveMet == if auctions[a].terms.reserve.None? then None
                else Some(Sells(bids[a], auctions[a].terms.reserve))
      ensures top == FindNextBid(BookOf(bids, a), []) && reserveMet == ReserveVerdict(auctions[a].terms.reserve, top)
    {
      hide Inv, FindNextBid, BookOk, Sells, MeetsReserve;
      StoredBook(State(), a);
      BookRises(auctions[a], bids[a], bidders[a]);
      var k := QueryFindsLastRealBid(bids[a]);
      top := FindNextBid(bids[a], []);
      reserveMet := None;
      if auctions[a].terms.reserve.Some? {
        var amount := if top.Some? then top.value.amount else 0;
        reserveMet := Some(amount >= auctions[a].terms.reserve.value);
      }
      VerdictIs(bids[a], auctions[a].terms, top, k);
    }

    lemma VerdictIs(book: seq<Bid>, terms: Terms, top: Option<Bid>, k: nat)
      requires GoodTerms(terms)
      requires match top
               case None => forall l :: !IsLastRealBid(book, l)
               case Some(bid) => k < |book| && IsLastRealBid(book, k) && book[k] == bid
      ensures terms.reserve.Some? ==>
                (Sells(book, terms.reserve) <==> (if top.Some? then top.value.amount else 0) >= terms.reserve.value)
    {
      if top.Some? { SellsAt(book, terms.reserve, k); }
    }

    method StoreVerdict(a: Id, reserveMet: Option<bool>)
      requires a in auctions
      modifies this`auctions
      ensures State() == old(State()).(
                auctions := old(auctions)[a := old(auctions)[a].(status := Closed, reserveMet := reserveMet)])
    {
      auctions := auctions[a := auctions[a].(status := Closed, reserveMet := reserveMet)];
    }

    method StoreSale(s: Id, sale: Sale)
      modifies this`sales, this`offers
      ensures State() == SetSale(old(State()), s, sale).(offers := old(offers)[s := [Offer(sale.winner, sale.amount)]])
    {
      sales := sales[s := sale];
      offers := offers[s := [Offer(sale.winner, sale.amount)]];
    }

    method CloseAnAuction(a: Id, s: Id, now: Time, hours: int) returns (outcome: Outcome)
      requires Valid()
      modifies this
      ensures Valid() && (State(), outcome) == CloseAuction(old(State()), a, s, now, hours)
      ensures a in old(auctions) && old(auctions)[a].status != Closed && s !in old(sales) ==>
                && outcome == Ok && a in bids && a in auctions
                && ClosedRight(a, old(auctions)[a], bids[a], s, now + hours * HOUR, old(sales), auctions[a], sales)
    {
      hide ClosedRight, Inv, FindNextBid, ReserveVerdict, FirstSale;
      if a in auctions && auctions[a].status != Closed && s !in sales { ClosesRight(State(), a, s, now, hours); }
      CloseKeeps(State(), a, s, now, hours);
      if a !in auctions { return NotFound; }
      var row := auctions[a];
      if row.status == Closed { return AlreadyClosed; }
      var top, reserveMet := JudgeAuction(a);
      var sells := top.Some? && reserveMet != Some(false);
      if sells && (s in sales || exists t :: t in sales && sales[t].auction == a) { return UniqueViolation; }
      StoreVerdict(a, reserveMet);
      if sells {
        StoreSale(s, FirstSale(a, row, top.value, now, hours));
      }
      return Ok;
    }

    // ---- payment --------------------------------------------------------------------------------

    method PayForSale(s: Id, user: UserId, gateway: Gateway, address: string, phone: string,
                      now: Time) returns (outcome: Outcome)
      requires Valid()
      modifies this
      ensures Valid() && (State(), outcome) == Pay(old(State()), s, user, gateway, address, phone, now)
      ensures if outcome == Ok then s in old(sales)
                && charges == old(charges) + [Charge(s, user, old(sales)[s].amount, address)]
              else charges == old(charges)
    {
      hide Inv;
      PayKeeps(State(), s, user, gateway, address, phone, now);
      if |address| < 10 || |address| > 300 { return Invalid; }
      if s !in sales { return NotFound; }
      var row := sales[s];
      if row.winner != user { return Forbidden; }
      if IsPaid(row.status) { return AlreadyPaid; }
      if !IsPayable(row.status) { return NotPayable; }
      match gateway {
        case Declines(reason) =>
          sales := sales[s := row.(address := Some(address), phone := Some(phone), paymentError := Some(reason))];
          return Declined;
        case Approves(reference) =>
          if exists t :: t in sales && sales[t].reference == Some(reference) { return UniqueViolation; }
          sales := sales[s := row.(address := Some(address), phone := Some(phone), reference := Some(reference),
                                   status := Completed, paidAt := Some(now), paymentError := None)];
          charges := charges + [Charge(s, user, row.amount, address)];
          return Ok;
      }
    }

    method VoidByAdmin(s: Id) returns (outcome: Outcome)
      requires Valid()
      modifies this
      ensures Valid() && (State(), outcome) == AdminVoid(old(State()), s)
      ensures outcome == Ok <==> s in old(sales) && old(sales)[s].status == SaleStatus.Pending
    {
      hide Inv;
      AdminVoidKeeps(State(), s);
      if s !in sales { return NotFound; }
      if sales[s].status != SaleStatus.Pending { return WrongState; }
      sales := sales[s := sales[s].(status := Voided, paymentError := None)];
      return Ok;
    }

    method VoidOverduePayment(s: Id, now: Time, hours: int) returns (outcome: Outcome)
      requires Valid()
      modifies this
      ensures Valid() && (State(), outcome) == VoidOverdue(old(State()), s, now, hours)
      ensures outcome == Ok ==> s in old(sales) && old(sales)[s].dueAt.Some? && old(sales)[s].dueAt.value < now
    {
      hide Inv;
      if s in sales { StoredColumns(State(), s); }
      VoidOverdueKeeps(State(), s, now, hours);
      if s !in sales { return NotFound; }
      var row := sales[s];
      if row.status != SaleStatus.Pending { return WrongState; }
      var overdue := row.createdAt < now - hours * HOUR;
      if row.dueAt.Some? { overdue := row.dueAt.value < now; }
      if !overdue { return WrongState; }
      sales := sales[s := row.(status := Voided, paymentError := None)];
      return Ok;
    }

    // ---- recovery -------------------------------------------------------------------------------

    /** The sale's own row, re-targeted; no column of the last attempt survives. */
    method StoreOffer(s: Id, next: Bid, now: Time, hours: int)
      requires s in sales && s in offers && next.buyer.Some?
      modifies this`sales, this`offers
      ensures var row := old(sales)[s];
              State() == SetSale(old(State()), s,
                                 row.(winner := next.buyer.value, previousWinners := row.previousWinners + [row.winner],
                                      amount := next.amount, status := SaleStatus.Pending,
                                      dueAt := Some(DueFrom(now, hours)), reference := None, paidAt := None,
                                      paymentError := None, address := None, phone := None, shippedAt := None))
                         .(offers := old(offers)[s := old(offers)[s] + [Offer(next.buyer.value, next.amount)]])
    {
      var row := sales[s];
      sales := sales[s := row.(winner := next.buyer.value, previousWinners := row.previousWinners + [row.winner],
                               amount := next.amount, status := SaleStatus.Pending,
                               dueAt := Some(now + hours * HOUR), reference := None, paidAt := None,
                               paymentError := None, address := None, phone := None, shippedAt := None)];
      offers := offers[s := offers[s] + [Offer(next.buyer.value, next.amount)]];
    }

    method OfferToNext(s: Id, seller: UserId, now: Time, hours: int) returns (outcome: Outcome)
      requires Valid()
      modifies this
      ensures Valid() && (State(), outcome) == OfferToNextBidder(old(State()), s, seller, now, hours)
      ensures outcome == Ok ==>
                && s in old(sales) && s in sales
                && sales[s].winner !in OfferedTo(old(sales)[s]) && sales[s].amount <= old(sales)[s].amount
    {
      hide Inv, FindNextBid, SaleOk, OfferedTo;
      OfferGoesDown(State(), s, seller, now, hours);
      OfferKeeps(State(), s, seller, now, hours);
      if s in sales { StoredSale(State(), s); }
      if s !in sales { return NotFound; }
      var row := sales[s];
      var listing := auctions[row.auction].listing;
      if row.seller != seller { return Forbidden; }
      if row.status != Voided { return WrongState; }
      if exists r :: r in listings && listings[r].relistedFrom == Some(listing) { return WrongState; }
      if listing in listings && listings[listing].status == Removed { return WrongState; }
      var alreadyOffered := row.previousWinners + [row.winner];
      var next := FindNextBid(BookOf(bids, row.auction), alreadyOffered);
      if next.None? { return NoOtherBidder; }
      StoreOffer(s, next.value, now, hours);
      return Ok;
    }

    method RelistOnce(s: Id, seller: UserId, l: Id, a: Id, start: Time) returns (outcome: Outcome)
      requires Valid() && (l in seen ==> l in listings)  // identifiers of deleted rows are not drawn again
      modifies this
      ensures Valid() && (State(), outcome) == Relist(old(State()), s, seller, l, a, start)
      ensures outcome == Ok ==> IsAuctionOf(auctions, a, l) && sales == old(sales)
    {
      hide Inv;
      RelistKeeps(State(), s, seller, l, a, start);
      KnownRows(s);
      if s !in sales { return NotFound; }
      var row := sales[s];
      var originalId := auctions[row.auction].listing;
      var original := listings[originalId];
      if row.seller != seller { return Forbidden; }
      if row.status != Voided { return WrongState; }
      if original.status == Removed { return WrongState; }
      if exists r :: r in listings && listings[r].relistedFrom == Some(originalId) { return WrongState; }
      if l in listings || a in auctions { return UniqueViolation; }
      UpdateListing(l, Listing(original.seller, original.terms, Approved, Some(originalId)));
      OpenAuction(a, l, original.seller, original.terms, start);
      return Ok;
    }

    lemma KnownRows(s: Id)
      requires Valid()
      ensures listings.Keys <= seen.Keys
      ensures s in sales ==> sales[s].auction in auctions && auctions[sales[s].auction].listing in listings
    {
      hide BooksOk, SalesOk, DisputesOk, ChargesOk, LedgerOk, BalancesOk, Conserved, RelistsOk;
      assert s in sales ==> SaleKeyOk(auctions, sales[s]) && AuctionOk(listings, auctions[sales[s].auction]);
    }

    // ---- fulfilment -----------------------------------------------------------------------------

    method Ship(s: Id, seller: UserId, now: Time) returns (outcome: Outcome)
      requires Valid()
      modifies this
      ensures Valid() && (State(), outcome) == MarkShipped(old(State()), s, seller, now)
      ensures outcome != NoAddress
    {
      hide Inv;
      ShippingHasAddress(State(), s, seller, now);
      ShipKeeps(State(), s, seller, now);
      if s !in sales { return NotFound; }
      var row := sales[s];
      if row.seller != seller { return Forbidden; }
      if row.status != Completed { return WrongState; }
      if row.address.None? || row.address.value == "" { return NoAddress; }
      sales := sales[s := row.(status := Shipped, shippedAt := Some(now))];
      return Ok;
    }

    /** Status, ledger entry and balance move together or not at all. */
    method PayOut(s: Id)
      requires s in sales
      modifies this`sales, this`ledger, this`balances
      ensures var was := old(State());
              var row := was.sales[s];
              State() == SetSale(was, s, row.(status := Delivered))
                         .(ledger := was.ledger + [LedgerEntry(row.seller, s, row.amount)],
                           balances := was.balances[row.seller := BalanceOf(was.balances, row.seller) + row.amount])
    {
      var row := sales[s];
      sales := sales[s := row.(status := Delivered)];
      ledger := ledger + [LedgerEntry(row.seller, s, row.amount)];
      balances := balances[row.seller := BalanceOf(balances, row.seller) + row.amount];
    }

    /** confirmDelivery, from SHIPPED or, for a release, from DISPUTED. */
    method ConfirmADelivery(s: Id, requireWinner: Option<UserId>, fromDisputed: bool) returns (outcome: Outcome)
      modifies this`sales, this`ledger, this`balances
      ensures (State(), outcome) == ConfirmDelivery(old(State()), s, requireWinner, fromDisputed)
    {
      if s !in sales { return NotFound; }
      var row := sales[s];
      if requireWinner.Some? && row.winner != requireWinner.value { return Forbidden; }
      var expected := if fromDisputed then Disputed else Shipped;
      if row.status != expected { return WrongState; }
      if exists i :: 0 <= i < |ledger| && ledger[i].sale == s { return UniqueViolation; }
      if BalanceOf(balances, row.seller) + row.amount > INT4_MAX { return OutOfRange; }
      PayOut(s);
      return Ok;
    }

    method ConfirmReceipt(s: Id, requireWinner: Option<UserId>) returns (outcome: Outcome)
      requires Valid()
      modifies this
      ensures Valid() && (State(), outcome) == ConfirmDelivery(old(State()), s, requireWinner, false)
      ensures outcome != UniqueViolation
    {
      hide Inv, ConfirmDelivery;
      ConfirmKeeps(State(), s, requireWinner);
      ConfirmingHasNoEntry(State(), s, requireWinner);
      outcome := ConfirmADelivery(s, requireWinner, false);
    }

    method RaiseADispute(s: Id, buyer: UserId, d: Id, reason: string) returns (outcome: Outcome)
      requires Valid()
      modifies this
      ensures Valid() && (State(), outcome) == RaiseDispute(old(State()), s, buyer, d, reason)
      ensures outcome == UniqueViolation ==> d in old(disputes)
    {
      hide Inv;
      DisputingHasNoDispute(State(), s, buyer, d, reason);
      DisputeKeeps(State(), s, buyer, d, reason);
      if s !in sales { return NotFound; }
      var row := sales[s];
      if row.winner != buyer { return Forbidden; }
      if row.status != Shipped { return WrongState; }
      if d in disputes || exists e :: e in disputes && disputes[e].sale == s { return UniqueViolation; }
      sales := sales[s := row.(status := Disputed)];
      disputes := disputes[d := Dispute(s, buyer, reason, None, Open)];
      return Ok;
    }

    method Respond(s: Id, d: Id, seller: UserId, response: string) returns (outcome: Outcome)
      requires Valid()
      modifies this
      ensures Valid() && (State(), outcome) == RespondToDispute(old(State()), s, d, seller, response)
      ensures outcome == Ok ==>
                && d in old(disputes) && old(disputes)[d].status == Open && old(disputes)[d].response.None?
                && d in disputes && disputes[d].status == Open && disputes[d].response == Some(response)
    {
      hide Inv;
      RespondKeeps(State(), s, d, seller, response);
      if s !in sales { return NotFound; }
      if sales[s].seller != seller { return Forbidden; }
      if d !in disputes || disputes[d].sale != s || disputes[d].status != Open { return NoOpenDispute; }
      if disputes[d].response.Some? { return AlreadyResponded; }
      disputes := disputes[d := disputes[d].(response := Some(response))];
      return Ok;
    }

    /** First transaction of a resolution; on RELEASE, FinishARelease is the second. */
    method Resolve(d: Id, refund: bool) returns (outcome: Outcome)
      requires Valid()
      modifies this
      ensures Valid() && (State(), outcome) == ResolveDispute(old(State()), d, refund)
      ensures outcome == Ok ==>
                && d in old(disputes) && old(disputes)[d].sale in old(sales)
                && old(sales)[old(disputes)[d].sale].status == Disputed
    {
      hide Inv, DisputeFits;
      if d in disputes { OpenIsDisputed(State(), d); }
      ResolveKeeps(State(), d, refund);
      if d !in disputes { return NotFound; }
      if disputes[d].status != Open { return NotOpen; }
      StoredDispute(State(), d);
      if refund {
        StoreRefund(d);
      } else {
        StoreRelease(d);
      }
      return Ok;
    }

    method StoreRefund(d: Id)
      requires d in disputes && disputes[d].sale in sales
      modifies this`disputes, this`sales
      ensures var row := old(disputes)[d];
              State() == SetSale(old(State()).(disputes := old(disputes)[d := row.(status := ResolvedRefunded)]),
                                 row.sale, old(sales)[row.sale].(status := Refunded))
    {
      sales := sales[disputes[d].sale := sales[disputes[d].sale].(status := Refunded)];
      disputes := disputes[d := disputes[d].(status := ResolvedRefunded)];
    }

    method StoreRelease(d: Id)
      requires d in disputes
      modifies this`disputes, this`releasing
      ensures var row := old(disputes)[d];
              State() == old(State()).(disputes := old(disputes)[d := row.(status := ResolvedReleased)],
                                       releasing := old(releasing) + {row.sale})
    {
      releasing := releasing + {disputes[d].sale};
      disputes := disputes[d := disputes[d].(status := ResolvedReleased)];
    }

    method FinishARelease(s: Id) returns (outcome: Outcome)
      requires Valid() && s in releasing
      modifies this
      ensures Valid() && (State(), outcome) == FinishRelease(old(State()), s)
      ensures outcome == Ok || outcome == OutOfRange
    {
      hide Inv, ConfirmDelivery;
      FinishReleaseKeeps(State(), s);
      FinishPaysOrOverflows(State(), s);
      releasing := releasing - {s};
      outcome := ConfirmADelivery(s, None, true);
    }

    // ---- the worker's payment sweep ---------------------------------------------------------------

    /** The rows a sweep of a fixed list has voided so far. */
    ghost predicate Swept(was: Db, done: set<Id>)
      reads this
    {
      && State() == was.(sales := sales) && sales.Keys == was.sales.Keys
      && forall s :: s in sales ==>
           sales[s] == if s in done then was.sales[s].(status := Voided, paymentError := None) else was.sales[s]
    }

    /** The listed sales are those that voiding would accept at this instant. */
    method ListOverdue(now: Time, hours: int) returns (overdue: set<Id>)
      ensures forall s :: s in overdue <==> VoidOverdue(State(), s, now, hours).1 == Ok
      ensures overdue == FindOverduePayments(State(), now, hours)
    {
      overdue := set s | s in sales && sales[s].status == SaleStatus.Pending
                         && (|| (sales[s].dueAt.Some? && sales[s].dueAt.value < now)
                             || (sales[s].dueAt.None? && sales[s].createdAt < now - hours * HOUR));
    }

    lemma SweptNothing()
      ensures Swept(State(), {})
    {}

    /**
      With nothing running in between, one sweep voids exactly the sales it listed and leaves every
      other row alone; the rows come in whatever order the query returns them.
     */
    method AutoVoidOverduePayments(now: Time, hours: int)
      requires Valid()
      modifies this
      ensures Valid() && Swept(old(State()), FindOverduePayments(old(State()), now, hours))
    {
      hide VoidOverdue, Inv, FindOverduePayments, Swept;
      ghost var was := State();
      var overdue := ListOverdue(now, hours);
      var todo, done := overdue, {};
      SweptNothing();
      while todo != {}
        invariant Valid() && done + todo == overdue && done !! todo && Swept(was, done)
        decreases |todo|
      {
        var s :| s in todo;
        VoidListed(was, s, done, now, hours);
        todo, done := todo - {s}, done + {s};
      }
    }

    method VoidListed(ghost was: Db, s: Id, ghost done: set<Id>, now: Time, hours: int)
      requires Valid() && Swept(was, done) && s in FindOverduePayments(was, now, hours) && s !in done
      modifies this
      ensures Valid() && Swept(was, done + {s})
    {
      hide Inv;
      assert sales[s] == was.sales[s];
      var outcome := VoidOverduePayment(s, now, hours);
    }

    // ---- the worker's shipment sweep --------------------------------------------------------------

    /** Every listed shipment's review window is over, and confirming it can only fail for the payout's size. */
    method ListTimedOut(now: Time, reviewHours: int) returns (timedOut: set<Id>)
      requires Valid()
      ensures forall s :: s in timedOut ==>
                && s in sales && sales[s].shippedAt.Some? && now > sales[s].shippedAt.value + reviewHours * HOUR
                && ConfirmDelivery(State(), s, None, false).1 in {Ok, OutOfRange}
      ensures forall s :: s in sales && sales[s].status == Shipped && s !in timedOut ==>
                sales[s].shippedAt.Some? && now <= sales[s].shippedAt.value + reviewHours * HOUR
      ensures timedOut == FindTimedOutShipments(State(), now, reviewHours)
    {
      hide Inv;
      forall s | s in sales && sales[s].status == Shipped
        ensures ConfirmDelivery(State(), s, None, false).1 in {Ok, OutOfRange} && sales[s].shippedAt.Some?
      {
        ShippedPaysUnlessOutOfRange(s);
        StoredColumns(State(), s);
      }
      timedOut := set s | s in sales && sales[s].status == Shipped
                          && sales[s].shippedAt.Some? && sales[s].shippedAt.value < now - reviewHours * HOUR;
    }

    lemma ShippedPaysUnlessOutOfRange(s: Id)
      requires Valid() && s in sales && sales[s].status == Shipped
      ensures ConfirmDelivery(State(), s, None, false).1
           == if BalanceOf(balances, sales[s].seller) + sales[s].amount <= INT4_MAX then Ok else OutOfRange
    {
      hide ListingsOk, AuctionsOk, SaleKeysOk, BooksOk, SalesOk, DisputesOk, ChargesOk, BalancesOk, Conserved,
           RelistsOk;
      assert forall i :: 0 <= i < |ledger| ==> EntryOk(sales, ledger[i]);
    }

    /**
      With nothing running in between: every listed shipment is paid out, unless a payout does not fit
      its seller's balance. That one makes the sweep give up, and whatever it had not reached stays SHIPPED.
     */
    method AutoConfirmTimedOutShipments(now: Time, reviewHours: int) returns (stuck: Option<Id>, ghost done: set<Id>)
      requires Valid()
      modifies this
      ensures Valid() && Confirmed(old(State()), State(), done)
      ensures done <= FindTimedOutShipments(old(State()), now, reviewHours)
      ensures stuck.None? ==> done == FindTimedOutShipments(old(State()), now, reviewHours)
      ensures stuck.Some? ==>
                && stuck.value in FindTimedOutShipments(old(State()), now, reviewHours) - done && stuck.value in sales
                && BalanceOf(balances, sales[stuck.value].seller) + sales[stuck.value].amount > INT4_MAX
    {
      hide Inv, FindTimedOutShipments, Confirmed;
      ghost var was := State();
      var timedOut := ListTimedOut(now, reviewHours);
      var todo := timedOut;
      done := {};
      ConfirmedNothing(was);
      while todo != {}
        invariant Valid() && done + todo == timedOut && done !! todo && Confirmed(was, State(), done)
        decreases |todo|
      {
        var s :| s in todo;
        var paid := ConfirmListed(was, s, done, now, reviewHours);
        if !paid { return Some(s), done; }
        todo, done := todo - {s}, done + {s};
      }
      stuck := None;
    }

    method ConfirmListed(ghost was: Db, s: Id, ghost done: set<Id>, ghost now: Time,
                         ghost reviewHours: int) returns (paid: bool)
      requires Valid() && Confirmed(was, State(), done) && s in FindTimedOutShipments(was, now, reviewHours)
      requires s !in done
      modifies this
      ensures Valid() && Confirmed(was, State(), if paid then done + {s} else done)
      ensures s in sales && (!paid ==> BalanceOf(balances, sales[s].seller) + sales[s].amount > INT4_MAX)
    {
      hide Inv, Confirmed, ConfirmDelivery, FindTimedOutShipments;
      ghost var db := State();
      ListedIsShipped(was, db, done, s, now, reviewHours);
      ShippedPaysUnlessOutOfRange(s);
      RefusedConfirmation(db, s);
      var outcome := ConfirmReceipt(s, None);
      paid := outcome == Ok;
      if paid { ConfirmedOneMore(was, db, done, s); }
      ListedStays(was, State(), if paid then done + {s} else done, s, now, reviewHours);
    }
  }
}
