/**
  The seller's item list over the live tables: what a page shows, and that every action it offers is
  one its endpoint accepts (src/modules/seller-items/seller-items.routes.ts).
 */
module SellerItems {
  import opened Options
  import opened Bidding
  import opened Market
  import opened MarketInvariant
  import opened MarketPreservation
  import opened MarketHistory
  import opened MarketTheorems
  import opened MarketWitnesses
  import opened SellerStages

  /** The rows one item is read from. */
  datatype ItemKeys = ItemKeys(listing: Id, auction: Option<Id>, sale: Option<Id>, dispute: Option<Id>,
                               relist: Option<Id>)

  /** The joins: a key is present exactly when there is a row, and it is that row's. */
  ghost predicate IsItem(db: Db, k: ItemKeys) {
    && k.listing in db.listings
    && (match k.auction
        case Some(a) => IsAuctionOf(db.auctions, a, k.listing)
        case None => !HasAuction(db, k.listing) && k.sale.None?)
    && (match k.sale
        case Some(s) => k.auction.Some? && s in db.sales && db.sales[s].auction == k.auction.value
        case None => k.dispute.None? && (k.auction.Some? ==> !HasSale(db, k.auction.value)))
    && (match k.dispute
        case Some(d) => k.sale.Some? && AboutSale(db.disputes, d, k.sale.value)
        case None => k.sale.Some? ==> !HasDispute(db, k.sale.value))
    && (match k.relist
        case Some(r) => r in db.listings && db.listings[r].relistedFrom == Some(k.listing)
        case None => !HasRelist(db, k.listing))
  }

  function RowOf(db: Db, k: ItemKeys): ItemRow
    requires IsItem(db, k)
  {
    ItemRow(
      db.listings[k.listing].status,
      if k.auction.None? then None else
        var a := db.auctions[k.auction.value];
        Some(AuctionRow(a.status, a.reserveMet, a.bidCount,
          if k.sale.None? then None else
            Some(SaleRow(db.sales[k.sale.value].status,
              if k.dispute.None? then None else Some(DisputeRow(db.disputes[k.dispute.value].response)))))),
      k.relist)
  }

  /** One query per defaulted item of the page: its auction, and everyone it was already taken away from. */
  function DefaultedQueries(db: Db, page: seq<ItemKeys>): seq<OfferQuery>
    requires forall i :: 0 <= i < |page| ==> IsItem(db, page[i])
  {
    if page == [] then [] else
      var k := page[|page| - 1];
      DefaultedQueries(db, page[..|page| - 1]) +
      if DeriveStage(FactsOf(RowOf(db, k), false)) == PaymentDefaulted
      then [OfferQuery(k.auction.value, OfferedTo(db.sales[k.sale.value]))]
      else []
  }

  /**
    The facts an item is shown with: a next bidder exists when the page's one batch query has an
    entry for its auction.
   */
  function ShownFacts(db: Db, page: seq<ItemKeys>, k: ItemKeys): ItemFacts
    requires forall i :: 0 <= i < |page| ==> IsItem(db, page[i])
    requires IsItem(db, k)
  {
    var offers := FindNextBidAmounts(db.bids, DefaultedQueries(db, page));
    FactsOf(RowOf(db, k), k.auction.Some? && k.auction.value in offers)
  }

  ghost predicate IsPage(db: Db, page: seq<ItemKeys>) {
    && (forall i :: 0 <= i < |page| ==> IsItem(db, page[i]))
    && (forall i, j :: 0 <= i < j < |page| ==> page[i].listing != page[j].listing)
  }

  predicate Offers(db: Db, page: seq<ItemKeys>, k: ItemKeys, action: Action)
    requires IsPage(db, page) && IsItem(db, k)
  {
    action in AllowedActions(DeriveStage(ShownFacts(db, page, k)), ShownFacts(db, page, k))
  }

  // ---- the preview --------------------------------------------------------------------------

  lemma DefaultedItem(db: Db, k: ItemKeys, next: bool)
    requires IsItem(db, k) && DeriveStage(FactsOf(RowOf(db, k), next)) == PaymentDefaulted
    ensures k.auction.Some? && k.sale.Some? && k.auction.value in db.auctions && k.sale.value in db.sales
    ensures db.sales[k.sale.value].status == Voided && db.listings[k.listing].status != Removed && k.relist.None?
    ensures DeriveStage(FactsOf(RowOf(db, k), !next)) == PaymentDefaulted
  {}

  /** Each query is some page item's, */
  lemma {:induction false} QueryIsItems(db: Db, page: seq<ItemKeys>, x: nat)
    requires (forall i :: 0 <= i < |page| ==> IsItem(db, page[i])) && x < |DefaultedQueries(db, page)|
    ensures exists i :: 0 <= i < |page| && page[i].auction == Some(DefaultedQueries(db, page)[x].auction)
  {
    hide FactsOf, RowOf, DeriveStage, IsItem;
    var init, k := page[..|page| - 1], page[|page| - 1];
    if x < |DefaultedQueries(db, init)| {
      QueryIsItems(db, init, x);
      var i :| 0 <= i < |init| && init[i].auction == Some(DefaultedQueries(db, init)[x].auction);
      assert page[i] == init[i];
    } else {
      DefaultedItem(db, k, false);
      assert page[|page| - 1].auction == Some(DefaultedQueries(db, page)[x].auction);
    }
  }

  /** each defaulted item has its query, */
  lemma {:induction false} ItemHasQuery(db: Db, page: seq<ItemKeys>, i: nat)
    requires (forall i :: 0 <= i < |page| ==> IsItem(db, page[i])) && i < |page|
    requires DeriveStage(FactsOf(RowOf(db, page[i]), false)) == PaymentDefaulted
    ensures page[i].auction.Some? && page[i].sale.Some? && page[i].sale.value in db.sales
    ensures OfferQuery(page[i].auction.value, OfferedTo(db.sales[page[i].sale.value])) in DefaultedQueries(db, page)
  {
    hide FactsOf, RowOf, DeriveStage, IsItem;
    DefaultedItem(db, page[i], false);
    if i < |page| - 1 {
      ItemHasQuery(db, page[..|page| - 1], i);
    }
  }

  /** and no auction is asked about twice. */
  lemma {:induction false} QueriesAreDistinct(db: Db, page: seq<ItemKeys>)
    requires IsPage(db, page)
    ensures DistinctAuctions(DefaultedQueries(db, page))
  {
    hide FactsOf, RowOf, DeriveStage;
    if page != [] {
      var init, k := page[..|page| - 1], page[|page| - 1];
      QueriesAreDistinct(db, init);
      var q := DefaultedQueries(db, init);
      forall x | 0 <= x < |q| && k.auction.Some? ensures q[x].auction != k.auction.value {
        QueryIsItems(db, init, x);
        var i :| 0 <= i < |init| && init[i].auction == Some(q[x].auction);
        assert IsItem(db, page[i]) && IsItem(db, k);
      }
      if DeriveStage(FactsOf(RowOf(db, k), false)) == PaymentDefaulted {
        DefaultedItem(db, k, false);
      }
    }
  }

  /** A defaulted item is shown a next bidder exactly when the offer would find one. */
  lemma PreviewIsOffer(db: Db, page: seq<ItemKeys>, i: nat)
    requires IsPage(db, page) && i < |page|
    requires DeriveStage(FactsOf(RowOf(db, page[i]), false)) == PaymentDefaulted
    ensures page[i].auction.Some? && page[i].sale.Some? && page[i].sale.value in db.sales
    ensures ShownFacts(db, page, page[i]).hasNextBidder
       <==> FindNextBid(BookOf(db.bids, page[i].auction.value), OfferedTo(db.sales[page[i].sale.value])).Some?
  {
    hide DeriveStage, RowOf, AllowedActions, FindNextBid, FindNextBidAmounts;
    var k, q := page[i], DefaultedQueries(db, page);
    DefaultedItem(db, k, false);
    QueriesAreDistinct(db, page);
    ItemHasQuery(db, page, i);
    var x :| 0 <= x < |q| && q[x] == OfferQuery(k.auction.value, OfferedTo(db.sales[k.sale.value]));
    BatchAgreesWithNextBid(db.bids, q, x);
  }

  // ---- offered means accepted ---------------------------------------------------------------

  /** An item's auction and sale belong to the listing's seller. */
  lemma ItemSeller(db: Db, k: ItemKeys)
    requires Inv(db) && IsItem(db, k)
    ensures k.auction.Some? ==>
              k.auction.value in db.auctions && db.auctions[k.auction.value].seller == db.listings[k.listing].seller
    ensures k.sale.Some? ==> k.sale.value in db.sales && db.sales[k.sale.value].seller == db.listings[k.listing].seller
  {
    hide ListingsOk, BooksOk, SalesOk, DisputesOk, ChargesOk, LedgerOk, BalancesOk, Conserved, RelistsOk;
    if k.auction.Some? { assert AuctionOk(db.listings, db.auctions[k.auction.value]); }
    if k.sale.Some? { assert SaleKeyOk(db.auctions, db.sales[k.sale.value]); }
  }

  lemma ShipAccepted(db: Db, page: seq<ItemKeys>, k: ItemKeys, now: Time)
    requires Reachable(db) && IsPage(db, page) && IsItem(db, k) && Offers(db, page, k, ShipItem)
    ensures k.sale.Some? && MarkShipped(db, k.sale.value, db.listings[k.listing].seller, now).1 == Ok
  {
    hide Inv, FindNextBidAmounts;
    Reached(db);
    ItemSeller(db, k);
    assert k.sale.Some?;
    StoredColumns(db, k.sale.value);
  }

  lemma CancelAccepted(db: Db, page: seq<ItemKeys>, k: ItemKeys)
    requires Reachable(db) && IsPage(db, page) && IsItem(db, k) && Offers(db, page, k, CancelTheAuction)
    ensures k.auction.Some? && CancelAuction(db, k.auction.value, db.listings[k.listing].seller, false).1 == Ok
  {
    hide Inv, FindNextBidAmounts;
    Reached(db);
    ItemSeller(db, k);
  }

  lemma OfferAccepted(db: Db, page: seq<ItemKeys>, i: nat, now: Time, hours: int)
    requires Reachable(db) && IsPage(db, page) && i < |page| && Offers(db, page, page[i], OfferNextBidder)
    ensures page[i].sale.Some?
    ensures OfferToNextBidder(db, page[i].sale.value, db.listings[page[i].listing].seller, now, hours).1 == Ok
  {
    hide Inv, FindNextBidAmounts, FindNextBid;
    Reached(db);
    var k := page[i];
    ItemSeller(db, k);
    assert DeriveStage(ShownFacts(db, page, k)) == PaymentDefaulted;
    DefaultedItem(db, k, ShownFacts(db, page, k).hasNextBidder);
    PreviewIsOffer(db, page, i);
    KnownTables(db);
  }

  lemma RelistAccepted(db: Db, page: seq<ItemKeys>, k: ItemKeys, l: Id, a: Id, start: Time)
    requires Reachable(db) && IsPage(db, page) && IsItem(db, k) && Offers(db, page, k, RelistItem)
    requires l !in db.seen && a !in db.auctions
    ensures k.sale.Some? && Relist(db, k.sale.value, db.listings[k.listing].seller, l, a, start).1 == Ok
  {
    hide Inv, FindNextBidAmounts;
    Reached(db);
    ItemSeller(db, k);
    assert DeriveStage(ShownFacts(db, page, k)) == PaymentDefaulted;
    DefaultedItem(db, k, ShownFacts(db, page, k).hasNextBidder);
  }

  /** Resubmitting passes every check of its endpoint. */
  lemma ResubmitAccepted(db: Db, page: seq<ItemKeys>, k: ItemKeys, terms: Terms)
    requires Reachable(db) && IsPage(db, page) && IsItem(db, k) && Offers(db, page, k, EditResubmit) && GoodTerms(terms)
    ensures Resubmit(db, k.listing, db.listings[k.listing], db.listings[k.listing].seller, terms).1 == Ok
  {
    hide Inv, FindNextBidAmounts;
    Reached(db);
    StoredListing(db, k.listing);
  }

  /**
    Withdrawing passes the endpoint's state check; the delete itself goes through exactly when the
    listing has no auction (see WithdrawRace for how a PENDING listing can have one).
   */
  lemma WithdrawAccepted(db: Db, page: seq<ItemKeys>, k: ItemKeys)
    requires Reachable(db) && IsPage(db, page) && IsItem(db, k) && Offers(db, page, k, WithdrawListing)
    ensures Withdraw(db, k.listing, db.listings[k.listing], db.listings[k.listing].seller).1
         == if k.auction.None? then Ok else ForeignKeyViolation
  {
    hide Inv, FindNextBidAmounts;
    Reached(db);
    StoredListing(db, k.listing);
    if HasRelist(db, k.listing) {
      RelistedHasAuction(db, k.listing);
    }
  }

  lemma RelistedHasAuction(db: Db, l: Id)
    requires Inv(db) && HasRelist(db, l)
    ensures HasAuction(db, l)
  {
    hide Inv, FellThrough;
    var r :| r in db.listings && db.listings[r].relistedFrom == Some(l);
    RelistedFellThrough(db, r, l);
    var a :| IsAuctionOf(db.auctions, a, l);
  }

  /**
    Answering a dispute is accepted exactly while the dispute is open. It is offered and refused only in
    the window of a release: decided for the seller, and the sale not paid out (yet, or ever).
   */
  lemma AnswerAcceptedWhileOpen(db: Db, page: seq<ItemKeys>, k: ItemKeys, response: string)
    requires Reachable(db) && IsPage(db, page) && IsItem(db, k) && Offers(db, page, k, AnswerDispute)
    ensures k.sale.Some? && k.dispute.Some? && k.dispute.value in db.disputes
    ensures RespondToDispute(db, k.sale.value, k.dispute.value, db.listings[k.listing].seller, response).1
         == if db.disputes[k.dispute.value].status == Open then Ok else NoOpenDispute
    ensures db.disputes[k.dispute.value].status != Open
       <==> k.sale.value in db.releasing || IsStranded(db.disputes, db.sales, db.releasing, k.sale.value)
  {
    hide Inv, FindNextBidAmounts;
    Reached(db);
    var s := k.sale.value;
    ItemSeller(db, k);
    DisputedHasDispute(db, s);
    var d := k.dispute.value;
    StoredDispute(db, d);
    if s in db.releasing {
      ReleaseFindsDisputed(db, s);
    } else if db.disputes[d].status == Open {
      OpenIsNotStranded(db, d);
    }
  }

  lemma DisputedHasDispute(db: Db, s: Id)
    requires Inv(db) && s in db.sales && db.sales[s].status == Disputed
    ensures HasDispute(db, s)
  {
    hide ListingsOk, AuctionsOk, SaleKeysOk, BooksOk, SalesOk, ChargesOk, LedgerOk, BalancesOk, Conserved, RelistsOk,
         DisputeFits;
    var d :| AboutSale(db.disputes, d, s);
  }

  /** What the owning seller gets when performing an action on an item; None for what is no endpoint call. */
  function Perform(db: Db, k: ItemKeys, action: Action, l: Id, a: Id, terms: Terms, response: string, now: Time,
                   hours: int): Option<Outcome>
    requires IsItem(db, k)
  {
    var row := db.listings[k.listing];
    match action
    case WithdrawListing => Some(Withdraw(db, k.listing, row, row.seller).1)
    case EditResubmit => Some(Resubmit(db, k.listing, row, row.seller, terms).1)
    case CancelTheAuction => if k.auction.None? then None
        else Some(CancelAuction(db, k.auction.value, row.seller, false).1)
    case ShipItem => if k.sale.None? then None else Some(MarkShipped(db, k.sale.value, row.seller, now).1)
    case AnswerDispute =>
      if k.sale.None? || k.dispute.None? then None
      else Some(RespondToDispute(db, k.sale.value, k.dispute.value, row.seller, response).1)
    case OfferNextBidder => if k.sale.None? then None
        else Some(OfferToNextBidder(db, k.sale.value, row.seller, now, hours).1)
    case RelistItem => if k.sale.None? then None else Some(Relist(db, k.sale.value, row.seller, l, a, now).1)
    case ListAgain => None
    case ViewInvoice => None
  }

  /**
    The screen offers only what works: on any page of any reachable state, an offered action that is an
    endpoint call succeeds for the owning seller, with two exact exceptions.
   */
  lemma OfferedIsAccepted(db: Db, page: seq<ItemKeys>, i: nat, action: Action,
                          l: Id, a: Id, terms: Terms, response: string, now: Time, hours: int)
    requires Reachable(db)
    requires && IsPage(db, page) && i < |page| && Offers(db, page, page[i], action)
             && GoodTerms(terms) && l !in db.seen && a !in db.auctions
    ensures var k := page[i];
            var refusal :=
              if action == WithdrawListing && k.auction.Some? then ForeignKeyViolation
              else if action == AnswerDispute && k.dispute.Some? && k.dispute.value in db.disputes
                  && db.disputes[k.dispute.value].status != Open
                then NoOpenDispute
              else Ok;
            if action == ListAgain || action == ViewInvoice then
              Perform(db, k, action, l, a, terms, response, now, hours).None?
            else Perform(db, k, action, l, a, terms, response, now, hours) == Some(refusal)
  {
    hide Inv, Offers, Withdraw, Resubmit, CancelAuction, MarkShipped, RespondToDispute, OfferToNextBidder, Relist;
    var k := page[i];
    match action
    case WithdrawListing => WithdrawAccepted(db, page, k);
    case EditResubmit => ResubmitAccepted(db, page, k, terms);
    case CancelTheAuction => CancelAccepted(db, page, k);
    case ShipItem => ShipAccepted(db, page, k, now);
    case AnswerDispute => AnswerAcceptedWhileOpen(db, page, k, response);
    case OfferNextBidder => OfferAccepted(db, page, i, now, hours);
    case RelistItem => RelistAccepted(db, page, k, l, a, now);
    case ListAgain =>
    case ViewInvoice =>
  }

  // ---- accepted means offered ---------------------------------------------------------------

  /** Each action in turn: what the endpoint would accept is on the screen. */
  lemma ShippableIsOffered(db: Db, page: seq<ItemKeys>, k: ItemKeys, now: Time)
    requires Reachable(db) && IsPage(db, page) && IsItem(db, k)
    requires k.sale.Some? && MarkShipped(db, k.sale.value, db.listings[k.listing].seller, now).1 == Ok
    ensures Offers(db, page, k, ShipItem)
  {
    hide Leads, FindNextBidAmounts;
  }

  lemma CancellableIsOffered(db: Db, page: seq<ItemKeys>, k: ItemKeys)
    requires Reachable(db) && IsPage(db, page) && IsItem(db, k) && db.listings[k.listing].status == Approved
    requires k.auction.Some? && CancelAuction(db, k.auction.value, db.listings[k.listing].seller, false).1 == Ok
    ensures Offers(db, page, k, CancelTheAuction)
  {
    hide Inv, Leads, FindNextBidAmounts;
    Reached(db);
    NoSaleBeforeClose(db, k.auction.value);
    StoredBook(db, k.auction.value);
    assert k.sale.None?;
  }

  lemma OfferableIsOffered(db: Db, page: seq<ItemKeys>, i: nat, now: Time, hours: int)
    requires Reachable(db) && IsPage(db, page) && i < |page| && page[i].sale.Some?
    requires OfferToNextBidder(db, page[i].sale.value, db.listings[page[i].listing].seller, now, hours).1 == Ok
    ensures Offers(db, page, page[i], OfferNextBidder)
  {
    hide Inv, Leads, FindNextBidAmounts, FindNextBid;
    var k := page[i];
    assert DeriveStage(FactsOf(RowOf(db, k), false)) == PaymentDefaulted by { DefaultedByRows(db, k); }
    PreviewIsOffer(db, page, i);
    DefaultedItem(db, k, false);
    assert DeriveStage(ShownFacts(db, page, k)) == PaymentDefaulted;
  }

  lemma DefaultedByRows(db: Db, k: ItemKeys)
    requires IsItem(db, k) && k.sale.Some? && db.sales[k.sale.value].status == Voided
    requires !HasRelist(db, k.listing) && db.listings[k.listing].status != Removed
    ensures DeriveStage(FactsOf(RowOf(db, k), false)) == PaymentDefaulted
  {
    assert k.relist.None?;
  }

  lemma RelistableIsOffered(db: Db, page: seq<ItemKeys>, k: ItemKeys, l: Id, a: Id, start: Time)
    requires Reachable(db) && IsPage(db, page) && IsItem(db, k) && k.sale.Some?
    requires Relist(db, k.sale.value, db.listings[k.listing].seller, l, a, start).1 == Ok
    ensures Offers(db, page, k, RelistItem)
  {
    hide Inv, Leads, FindNextBidAmounts;
    DefaultedByRows(db, k);
    DefaultedItem(db, k, false);
  }

  lemma ResubmittableIsOffered(db: Db, page: seq<ItemKeys>, k: ItemKeys, terms: Terms)
    requires Reachable(db) && IsPage(db, page) && IsItem(db, k) && k.sale.None?
    requires Resubmit(db, k.listing, db.listings[k.listing], db.listings[k.listing].seller, terms).1 == Ok
    ensures Offers(db, page, k, EditResubmit)
  {
    hide Leads, FindNextBidAmounts;
  }

  lemma WithdrawableIsOffered(db: Db, page: seq<ItemKeys>, k: ItemKeys)
    requires Reachable(db) && IsPage(db, page) && IsItem(db, k)
    requires Withdraw(db, k.listing, db.listings[k.listing], db.listings[k.listing].seller).1 == Ok
    ensures k.auction.None? && Offers(db, page, k, WithdrawListing)
  {
    hide Leads, FindNextBidAmounts;
    assert k.auction.Some? ==> IsAuctionOf(db.auctions, k.auction.value, k.listing);
  }

  lemma AnswerableIsOffered(db: Db, page: seq<ItemKeys>, k: ItemKeys, response: string)
    requires Reachable(db) && IsPage(db, page) && IsItem(db, k) && k.sale.Some? && k.dispute.Some?
    requires RespondToDispute(db, k.sale.value, k.dispute.value, db.listings[k.listing].seller, response).1 == Ok
    ensures Offers(db, page, k, AnswerDispute)
  {
    hide Inv, Leads, FindNextBidAmounts;
    Reached(db);
    StoredDispute(db, k.dispute.value);
  }

  /** Where the database or a release in flight stands in the way of an offered action. */
  predicate GoesThrough(db: Db, k: ItemKeys, action: Action) {
    && (action == WithdrawListing ==> k.auction.None?)
    && (action == AnswerDispute ==>
          k.dispute.Some? && k.dispute.value in db.disputes && db.disputes[k.dispute.value].status == Open)
  }

  /** Where an endpoint would accept what the screen keeps back: between a takedown's two steps, or after a sale. */
  predicate IsShown(db: Db, k: ItemKeys, action: Action)
    requires k.listing in db.listings
  {
    && (action == CancelTheAuction ==> db.listings[k.listing].status == Approved)
    && (action == EditResubmit ==> k.sale.None?)
  }

  /**
    The screen offers exactly what works: on any page of any reachable state an endpoint action would
    succeed for the owning seller if and only if it is offered, but for the exceptions named above.
    List again is offered for an approved item that closed without a sale, the invoice for a paid sale.
   */
  lemma OfferedExactly(db: Db, page: seq<ItemKeys>, i: nat, action: Action,
                       l: Id, a: Id, terms: Terms, response: string, now: Time, hours: int)
    requires Reachable(db)
    requires IsPage(db, page) && i < |page| && GoodTerms(terms) && l !in db.seen && a !in db.auctions
    ensures var k := page[i];
            var offered := Offers(db, page, k, action);
            match action
            case ListAgain =>
              offered <==>
                && db.listings[k.listing].status == Approved && k.sale.None?
                && k.auction.Some? && db.auctions[k.auction.value].status == Closed
            case ViewInvoice => offered <==> k.sale.Some? && IsPaid(db.sales[k.sale.value].status)
            case _ =>
              offered && GoesThrough(db, k, action) <==>
                Perform(db, k, action, l, a, terms, response, now, hours) == Some(Ok) && IsShown(db, k, action)
  {
    hide Inv, Leads, Offers, Withdraw, Resubmit, CancelAuction, MarkShipped, RespondToDispute, OfferToNextBidder,
         Relist, GoodTerms;
    var k := page[i];
    var done := Perform(db, k, action, l, a, terms, response, now, hours);
    if Offers(db, page, k, action) { OfferedIsShown(db, page, k, action); }
    if Offers(db, page, k, action) && action != ListAgain && action != ViewInvoice {
      OfferedIsAccepted(db, page, i, action, l, a, terms, response, now, hours);
    }
    match action
    case ListAgain => PassiveActions(db, page, k);
    case ViewInvoice => PassiveActions(db, page, k);
    case WithdrawListing => if done == Some(Ok) { WithdrawableIsOffered(db, page, k); }
    case EditResubmit => if done == Some(Ok) && k.sale.None? { ResubmittableIsOffered(db, page, k, terms); }
    case CancelTheAuction =>
      if done == Some(Ok) && db.listings[k.listing].status == Approved { CancellableIsOffered(db, page, k); }
    case ShipItem => if done == Some(Ok) { ShippableIsOffered(db, page, k, now); }
    case AnswerDispute =>
        if done == Some(Ok) { AnswerableIsOffered(db, page, k, response); OpenIfAnswered(db, k, response); }
    case OfferNextBidder => if done == Some(Ok) { OfferableIsOffered(db, page, i, now, hours); }
    case RelistItem => if done == Some(Ok) { RelistableIsOffered(db, page, k, l, a, now); }
  }

  lemma OpenIfAnswered(db: Db, k: ItemKeys, response: string)
    requires IsItem(db, k) && k.sale.Some? && k.dispute.Some?
    requires RespondToDispute(db, k.sale.value, k.dispute.value, db.listings[k.listing].seller, response).1 == Ok
    ensures GoesThrough(db, k, AnswerDispute)
  {}

  lemma OfferedIsShown(db: Db, page: seq<ItemKeys>, k: ItemKeys, action: Action)
    requires IsPage(db, page) && IsItem(db, k) && Offers(db, page, k, action)
    ensures IsShown(db, k, action)
  {
    hide FindNextBidAmounts;
  }

  lemma PassiveActions(db: Db, page: seq<ItemKeys>, k: ItemKeys)
    requires IsPage(db, page) && IsItem(db, k)
    ensures Offers(db, page, k, ListAgain) <==>
              && db.listings[k.listing].status == Approved && k.sale.None?
              && k.auction.Some? && db.auctions[k.auction.value].status == Closed
    ensures Offers(db, page, k, ViewInvoice) <==> k.sale.Some? && IsPaid(db.sales[k.sale.value].status)
  {
    hide FindNextBidAmounts;
  }

  /** The "Needs action" tab holds exactly the items on which the seller can ship, answer, offer or relist. */
  lemma ActionTabIsToDo(db: Db, page: seq<ItemKeys>, k: ItemKeys)
    requires IsPage(db, page) && IsItem(db, k)
    ensures StageTab(DeriveStage(ShownFacts(db, page, k))) == ActionTab <==>
              || Offers(db, page, k, ShipItem) || Offers(db, page, k, AnswerDispute)
              || Offers(db, page, k, OfferNextBidder) || Offers(db, page, k, RelistItem)
  {
    hide FindNextBidAmounts, ShownFacts;
  }

  // ---- the exceptions are reachable ----------------------------------------------------------

  const SOME_TERMS := Terms(1000, None, 100, 7)
  const PENDING_ROW := Listing(1, SOME_TERMS, ListingStatus.Pending, None)
  const REJECTED_ROW := Listing(1, SOME_TERMS, Rejected, None)

  const APPROVED_ROW := Listing(1, SOME_TERMS, Approved, None)

  /** One admin's approval and another's rejection both read PENDING; the seller resubmits on the last page it read. */
  const RACE_STEPS: seq<Step> :=
    [SSubmit(5, 1, SOME_TERMS), SReject(5, PENDING_ROW), SApprove(5, PENDING_ROW, 6, 0),
     SResubmit(5, REJECTED_ROW, 1, SOME_TERMS)]

  /** The tables while listing 5 is the only row, in the given status, and after its auction 6 opened. */
  function Raced(row: Listing, versions: set<Listing>, auctioned: bool): Db {
    var db := EMPTY.(listings := map[5 := row], seen := map[5 := versions]);
    if auctioned then
      db.(auctions := map[6 := NewAuction(5, 1, SOME_TERMS, 0)], bids := map[6 := []], bidders := map[6 := {}])
    else db
  }

  lemma RaceSubmitted()
    ensures Apply(EMPTY, RACE_STEPS[0]).0 == Raced(PENDING_ROW, {PENDING_ROW}, false)
  {
    var db := Apply(EMPTY, RACE_STEPS[0]).0;
    assert db.listings == map[5 := PENDING_ROW];
    assert VersionsOf(EMPTY, 5) + {PENDING_ROW} == {PENDING_ROW};
  }

  lemma RaceRejected()
    ensures Apply(Raced(PENDING_ROW, {PENDING_ROW}, false), RACE_STEPS[1]).0
              == Raced(REJECTED_ROW, {PENDING_ROW, REJECTED_ROW}, false)
  {
    var before := Raced(PENDING_ROW, {PENDING_ROW}, false);
    var db := Apply(before, RACE_STEPS[1]).0;
    assert db.listings == map[5 := REJECTED_ROW];
    assert VersionsOf(before, 5) + {REJECTED_ROW} == {PENDING_ROW, REJECTED_ROW};
  }

  lemma RaceApproved()
    ensures Apply(Raced(REJECTED_ROW, {PENDING_ROW, REJECTED_ROW}, false), RACE_STEPS[2]).0
         == Raced(APPROVED_ROW, {PENDING_ROW, REJECTED_ROW, APPROVED_ROW}, true)
  {
    var before := Raced(REJECTED_ROW, {PENDING_ROW, REJECTED_ROW}, false);
    var db := Apply(before, RACE_STEPS[2]).0;
    assert !HasAuction(before, 5);
    assert db.listings == map[5 := APPROVED_ROW];
    assert VersionsOf(before, 5) + {APPROVED_ROW} == {PENDING_ROW, REJECTED_ROW, APPROVED_ROW};
  }

  lemma RaceResubmitted()
    ensures Apply(Raced(APPROVED_ROW, {PENDING_ROW, REJECTED_ROW, APPROVED_ROW}, true), RACE_STEPS[3]).0
         == Raced(PENDING_ROW, {PENDING_ROW, REJECTED_ROW, APPROVED_ROW}, true)
  {
    var before := Raced(APPROVED_ROW, {PENDING_ROW, REJECTED_ROW, APPROVED_ROW}, true);
    var db := Apply(before, RACE_STEPS[3]).0;
    assert db.listings == map[5 := PENDING_ROW];
    assert VersionsOf(before, 5) + {PENDING_ROW} == {PENDING_ROW, REJECTED_ROW, APPROVED_ROW};
  }

  lemma RunFour(db: Db, s: seq<Step>)
    requires |s| == 4
    ensures Run(db, s) == Apply(Apply(Apply(Apply(db, s[0]).0, s[1]).0, s[2]).0, s[3]).0
  {
    hide Apply, Run;
    RunNone(db);
    RunLast(db, s, 0);
    RunLast(db, s, 1);
    RunLast(db, s, 2);
    RunLast(db, s, 3);
    assert s[..4] == s && s[..0] == [];
  }

  lemma RunNone(db: Db)
    ensures Run(db, []) == db
  {}

  lemma RunLast(db: Db, s: seq<Step>, n: nat)
    requires n < |s|
    ensures Run(db, s[..n + 1]) == Apply(Run(db, s[..n]), s[n]).0
  {
    hide Apply;
    assert s[..n + 1][..n] == s[..n];
  }

  /** A PENDING listing with an auction: Withdraw is offered, and the database refuses the delete. */
  lemma WithdrawRace()
    ensures var db := Run(EMPTY, RACE_STEPS);
            var k := ItemKeys(5, Some(6), None, None, None);
            && Reachable(db) && IsItem(db, k) && IsPage(db, [k]) && Offers(db, [k], k, WithdrawListing)
            && Withdraw(db, 5, db.listings[5], 1).1 == ForeignKeyViolation
  {
    hide Apply, Leads, FindNextBidAmounts;
    RunLeads(EMPTY, RACE_STEPS);
    RunFour(EMPTY, RACE_STEPS);
    RaceSubmitted();
    RaceRejected();
    RaceApproved();
    RaceResubmitted();
    var db := Run(EMPTY, RACE_STEPS);
    assert IsAuctionOf(db.auctions, 6, 5);
    assert HasAuction(db, 5);
  }

  /** Listing 5 with its closed auction, disputed sale and decided dispute, and nothing else. */
  ghost predicate IsWindow(db: Db) {
    && db.listings.Keys == {5} && db.listings[5].seller == 1 && db.listings[5].relistedFrom.None?
    && db.auctions.Keys == {6} && db.auctions[6].listing == 5
    && db.sales.Keys == {7} && db.sales[7].auction == 6 && db.sales[7].seller == 1 && db.sales[7].status == Disputed
    && db.disputes.Keys == {10} && db.disputes[10].sale == 7 && db.disputes[10].response.None?
    && db.disputes[10].status == ResolvedReleased
  }

  const WINDOW_ITEM := ItemKeys(5, Some(6), Some(7), Some(10), None)

  lemma WindowOffers(db: Db)
    requires IsWindow(db)
    ensures IsItem(db, WINDOW_ITEM) && IsPage(db, [WINDOW_ITEM])
    ensures Offers(db, [WINDOW_ITEM], WINDOW_ITEM, AnswerDispute)
    ensures RespondToDispute(db, 7, 10, 1, "it works").1 == NoOpenDispute
  {
    hide FindNextBidAmounts;
    assert IsAuctionOf(db.auctions, 6, 5);
    assert AboutSale(db.disputes, 10, 7);
  }

  /** Between the two transactions of a release the screen asks for an answer that the endpoint refuses. */
  lemma ReleaseWindow() returns (db: Db)
    ensures Reachable(db)
    ensures IsItem(db, WINDOW_ITEM) && IsPage(db, [WINDOW_ITEM])
    ensures Offers(db, [WINDOW_ITEM], WINDOW_ITEM, AnswerDispute)
    ensures RespondToDispute(db, 7, 10, 1, "it works").1 == NoOpenDispute
  {
    hide Leads, IsItem, IsPage, Offers, RespondToDispute;
    StaysPut(EMPTY);
    var p := Plan(5, 6, 7, 1, 2, 1000, 9, 0);
    assert IsFresh(EMPTY, p);
    db := WindowIsReached(EMPTY, p, 10);
    assert IsWindow(db);
    WindowOffers(db);
  }
}
