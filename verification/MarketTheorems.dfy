/**
  What the sale lifecycle promises, over every run from the empty database and every interleaving of
  its transactions.
 */
module MarketTheorems {
  import opened Options
  import opened Bidding
  import opened Sums
  import opened Market
  import opened MarketInvariant
  import opened MarketPreservation
  import opened MarketHistory

  /** Every reachable state satisfies the invariant. */
  lemma Reached(db: Db)
    requires Reachable(db)
    ensures Inv(db)
  {
    hide Inv, Leads, Run;
    EmptyIsValid();
    var steps := LeadsByRun(EMPTY, db);
    RunKeeps(EMPTY, steps);
  }

  lemma Later(db: Db, db': Db)
    requires Inv(db) && Leads(db, db')
    ensures Inv(db') && Evolves(db, db')
  {
    hide Inv, Evolves, Leads, Run;
    var steps := LeadsByRun(db, db');
    RunKeeps(db, steps);
    RunEvolves(db, steps);
  }

  // ---- relist chains ------------------------------------------------------------------------

  /** Each listing was relisted from the one before it. */
  predicate IsChain(db: Db, c: seq<Id>) {
    && c != []
    && (forall i :: 0 <= i < |c| ==> c[i] in db.listings)
    && (forall i :: 0 < i < |c| ==> db.listings[c[i]].relistedFrom == Some(c[i - 1]))
  }

  ghost predicate IsSaleOf(db: Db, s: Id, l: Id) {
    s in db.sales && IsAuctionOf(db.auctions, db.sales[s].auction, l)
  }

  /** Its auction is over, it had a sale, and that sale is void. */
  ghost predicate FellThrough(db: Db, l: Id) {
    && (exists s :: IsSaleOf(db, s, l))
    && (forall s :: IsSaleOf(db, s, l) ==> db.sales[s].status == Voided)
    && (forall a :: IsAuctionOf(db.auctions, a, l) ==> db.auctions[a].status == Closed)
  }

  /** Up for sale, or carrying a sale that is not void. */
  ghost predicate InPlay(db: Db, l: Id) {
    || (exists a :: IsAuctionOf(db.auctions, a, l) && db.auctions[a].status != Closed)
    || (exists s :: IsSaleOf(db, s, l) && db.sales[s].status != Voided)
  }

  lemma RelistedFellThrough(db: Db, r: Id, l: Id)
    requires Inv(db) && r in db.listings && db.listings[r].relistedFrom == Some(l)
    ensures FellThrough(db, l)
    ensures exists a :: IsAuctionOf(db.auctions, a, l) && l in db.listings
    ensures exists a :: IsAuctionOf(db.auctions, a, r)
  {
    hide ListingsOk, BooksOk, SalesOk, DisputesOk, ChargesOk, LedgerOk, BalancesOk, Conserved;
    var s :| VoidedSaleOf(db.auctions, db.sales, s, l);
    assert IsSaleOf(db, s, l);
    assert AuctionOk(db.listings, db.auctions[db.sales[s].auction]) && SaleKeyOk(db.auctions, db.sales[s]);
  }

  lemma ChainPersists(db: Db, c: seq<Id>, db': Db)
    requires Inv(db) && IsChain(db, c) && |c| > 1
    requires Leads(db, db')
    ensures IsChain(db', c)
  {
    hide Inv, FellThrough, AuctionsEvolve, SalesEvolve, DisputesEvolve, OffersEvolve, StrandedStay;
    Later(db, db');
    forall i | 0 <= i < |c|
      ensures c[i] in db'.listings && db'.listings[c[i]].relistedFrom == db.listings[c[i]].relistedFrom
    {
      if i == 0 {
        RelistedFellThrough(db, c[1], c[0]);
      } else {
        RelistedFellThrough(db, c[i], c[i - 1]);
      }
      var a :| IsAuctionOf(db.auctions, a, c[i]);
    }
  }

  /** Every listing of a relist chain but the last has fallen through, and stays so for good. */
  lemma ChainFellThrough(db: Db, c: seq<Id>, i: nat, db': Db)
    requires Reachable(db) && Leads(db, db')
    requires IsChain(db, c) && i < |c| - 1
    ensures IsChain(db', c) && FellThrough(db', c[i])
  {
    hide Inv, FellThrough;
    Reached(db);
    ChainPersists(db, c, db');
    Later(db, db');
    RelistedFellThrough(db', c[i + 1], c[i]);
  }

  lemma {:induction false} ChainsFromOneRoot(db: Db, c: seq<Id>, d: seq<Id>)
    requires RelistsOk(db.listings, db.auctions, db.sales) && IsChain(db, c) && IsChain(db, d)
    requires c[0] == d[0] && |c| <= |d|
    ensures c == d[..|c|]
  {
    if |c| > 1 {
      ChainsFromOneRoot(db, c[..|c| - 1], d);
      assert db.listings[c[|c| - 1]].relistedFrom == Some(c[|c| - 2]) == db.listings[d[|c| - 1]].relistedFrom;
      assert c == c[..|c| - 1] + [c[|c| - 1]];
    }
  }

  /**
    An item is a first listing and everything relisted from it: of its listings at most one is ever in
    play, so it is never sold twice.
   */
  lemma ItemInPlayOnce(db: Db, c: seq<Id>, d: seq<Id>)
    requires Reachable(db)
    requires && IsChain(db, c) && IsChain(db, d) && c[0] == d[0]
             && c[|c| - 1] != d[|d| - 1]
    ensures !(InPlay(db, c[|c| - 1]) && InPlay(db, d[|d| - 1]))
  {
    hide Inv;
    var short, long := if |c| <= |d| then c else d, if |c| <= |d| then d else c;
    Reached(db);
    ReachedRelists(db);
    ChainsFromOneRoot(db, short, long);
    assert |short| < |long|;
    assert long[|short| - 1] == short[|short| - 1];
    RelistedFellThrough(db, long[|short|], short[|short| - 1]);
  }

  lemma ReachedRelists(db: Db)
    requires Inv(db)
    ensures RelistsOk(db.listings, db.auctions, db.sales)
  {
    hide ListingsOk, AuctionsOk, SaleKeysOk, BooksOk, SalesOk, DisputesOk, ChargesOk, LedgerOk, BalancesOk, Conserved,
         RelistsOk;
  }

  // ---- recovery, once and faithfully ------------------------------------------------------------

  /**
    A relist offers the same item on the same terms: a new approved listing, a fresh auction on it,
    and nothing else changed.
   */
  lemma RelistCopies(db: Db, s: Id, seller: UserId, l: Id, a: Id, start: Time)
    requires Reachable(db) && Relist(db, s, seller, l, a, start).1 == Ok
    ensures s in db.sales && db.sales[s].auction in db.auctions
    ensures db.auctions[db.sales[s].auction].listing in db.listings
    ensures var original := db.auctions[db.sales[s].auction].listing;
            var db' := Relist(db, s, seller, l, a, start).0;
            && l !in db.listings && a !in db.auctions && IsChain(db', [original, l]) && IsAuctionOf(db'.auctions, a, l)
            && db'.listings[l].terms == db.listings[original].terms && db'.listings[l].status == Approved
            && db'.listings[l].seller == db'.auctions[a].seller == seller == db.listings[original].seller
            && db'.auctions[a].terms == db.listings[original].terms && db'.auctions[a].status == Active
            && db'.auctions[a].currentBid == db.listings[original].terms.startPrice && db'.bids[a] == []
            && db'.auctions[a].endTime - start == db.listings[original].terms.durationDays * DAY
            && db'.sales == db.sales && FellThrough(db', original)
            && (forall k :: k in db.listings ==> db'.listings[k] == db.listings[k])
            && (forall k :: k in db.auctions ==> db'.auctions[k] == db.auctions[k])
  {
    hide Inv, FellThrough, HasRelist;
    Reached(db);
    var original := db.auctions[db.sales[s].auction].listing;
    SellerOfSale(db, s);
    RelistKeeps(db, s, seller, l, a, start);
    StoredListings(db);
    RelistedFellThrough(Relist(db, s, seller, l, a, start).0, l, original);
  }

  lemma SellerOfSale(db: Db, s: Id)
    requires Inv(db) && s in db.sales
    ensures db.sales[s].auction in db.auctions && db.auctions[db.sales[s].auction].listing in db.listings
    ensures db.sales[s].seller == db.listings[db.auctions[db.sales[s].auction].listing].seller
  {
    hide ListingsOk, BooksOk, SalesOk, DisputesOk, ChargesOk, LedgerOk, BalancesOk, Conserved, RelistsOk;
    assert SaleKeyOk(db.auctions, db.sales[s]) && AuctionOk(db.listings, db.auctions[db.sales[s].auction]);
  }

  lemma StoredListings(db: Db)
    requires Inv(db)
    ensures forall l :: l in db.listings ==> l in db.seen
  {
    hide AuctionsOk, SaleKeysOk, BooksOk, SalesOk, DisputesOk, ChargesOk, LedgerOk, BalancesOk, Conserved, RelistsOk;
  }

  /** After a relist the old sale is history: it can never be relisted, offered or paid again, whatever happens. */
  lemma RelistIsFinal(db: Db, s: Id, seller: UserId, l: Id, a: Id, start: Time, db': Db)
    requires Reachable(db) && Relist(db, s, seller, l, a, start).1 == Ok
    requires Leads(Relist(db, s, seller, l, a, start).0, db')
    ensures s in db'.sales && db'.sales[s].status == Voided
    ensures forall u, k, b, now :: Relist(db', s, u, k, b, now).1 in {Forbidden, WrongState}
    ensures forall u, now, hours :: OfferToNextBidder(db', s, u, now, hours).1 in {Forbidden, WrongState}
    ensures forall u, gateway, address, phone, now ::
              Pay(db', s, u, gateway, address, phone, now).1 in {Invalid, Forbidden, NotPayable}
  {
    hide Inv, FellThrough, Relist, OfferToNextBidder, Pay, AuctionsEvolve, SalesEvolve, DisputesEvolve, ListingsEvolve,
         OffersEvolve, StrandedStay;
    Reached(db);
    RelistCopies(db, s, seller, l, a, start);
    var mid := Relist(db, s, seller, l, a, start).0;
    var original := db.auctions[db.sales[s].auction].listing;
    RelistKeeps(db, s, seller, l, a, start);
    ChainPersists(mid, [original, l], db');
    assert IsChain(db', [original, l]);
    assert db'.listings[[original, l][1]].relistedFrom == Some([original, l][0]);
    Later(mid, db');
    RelistedFellThrough(db', l, original);
    SaleStays(mid, db', s);
    assert IsSaleOf(db', s, original);
    assert db'.sales[s].status == Voided by { VoidWithItsListing(db', s, original); }
    RelistedIsRefused(db', s, original, l);
  }

  lemma SaleStays(db: Db, db': Db, s: Id)
    requires Inv(db) && Evolves(db, db') && s in db.sales
    ensures db.sales[s].auction in db.auctions
    ensures s in db'.sales && db'.sales[s].auction == db.sales[s].auction && db'.sales[s].seller == db.sales[s].seller
    ensures db.sales[s].auction in db'.auctions
    ensures db'.auctions[db.sales[s].auction].listing == db.auctions[db.sales[s].auction].listing
  {
    hide Inv, DisputesEvolve, ListingsEvolve, OffersEvolve, StrandedStay;
    StoredSale(db, s);
    assert SaleEvolves(db.sales[s], db'.sales[s]);
  }

  lemma VoidWithItsListing(db: Db, s: Id, l: Id)
    requires FellThrough(db, l) && IsSaleOf(db, s, l)
    ensures db.sales[s].status == Voided
  {}

  lemma RelistedIsRefused(db: Db, s: Id, original: Id, l: Id)
    requires Inv(db) && IsSaleOf(db, s, original) && db.sales[s].status == Voided
    requires original in db.listings && l in db.listings && db.listings[l].relistedFrom == Some(original)
    ensures forall u, k, b, now :: Relist(db, s, u, k, b, now).1 in {Forbidden, WrongState}
    ensures forall u, now, hours :: OfferToNextBidder(db, s, u, now, hours).1 in {Forbidden, WrongState}
    ensures forall u, gateway, address, phone, now ::
              Pay(db, s, u, gateway, address, phone, now).1 in {Invalid, Forbidden, NotPayable}
  {
    hide Inv, FindNextBid;
    StoredSale(db, s);
    assert HasRelist(db, original);
  }

  // ---- paying ---------------------------------------------------------------------------------

  /** A charged sale is never charged again: its buyer is told so, and nobody else may pay. */
  lemma NeverChargedTwice(db: Db, i: nat, db': Db, user: UserId, gateway: Gateway, address: string, phone: string,
                          now: Time)
    requires Reachable(db) && Leads(db, db') && i < |db.charges|
    ensures var (after, outcome) := Pay(db', db.charges[i].sale, user, gateway, address, phone, now);
            && after == db'
            && (10 <= |address| <= 300 ==> outcome == if user == db.charges[i].payer then AlreadyPaid else Forbidden)
  {
    hide Leads;
    ChargedForGood(db, i, db');
  }

  /** A decline charges nothing and may be retried: the same buyer's next approval goes through at the same price. */
  lemma DeclineCanBeRetried(db: Db, s: Id, user: UserId, gateway: Gateway, address: string, phone: string, now: Time,
                            reference: nat, address': string, phone': string, later: Time)
    requires Reachable(db) && Pay(db, s, user, gateway, address, phone, now).1 == Declined
    requires !ReferenceTaken(db, reference) && 10 <= |address'| <= 300
    ensures var declined := Pay(db, s, user, gateway, address, phone, now).0;
            var (paid, outcome) := Pay(declined, s, user, Approves(reference), address', phone', later);
            && declined.charges == db.charges && s in db.sales && s in declined.sales && s in paid.sales
            && IsPayable(declined.sales[s].status) && declined.sales[s].dueAt == db.sales[s].dueAt
            && outcome == Ok && paid.charges == db.charges + [Charge(s, user, db.sales[s].amount, address')]
            && paid.sales[s].status == Completed && paid.sales[s].address == Some(address')
            && paid.sales[s].paymentError.None?
  {
    hide Leads, ReferenceTaken;
    var declined := Pay(db, s, user, gateway, address, phone, now).0;
    SameReferences(db, declined, s, reference);
  }

  lemma SameReferences(db: Db, db': Db, s: Id, reference: nat)
    requires s in db.sales && s in db'.sales && db'.sales == db.sales[s := db'.sales[s]]
    requires db'.sales[s].reference == db.sales[s].reference
    ensures ReferenceTaken(db', reference) <==> ReferenceTaken(db, reference)
  {
    if t :| t in db.sales && db.sales[t].reference == Some(reference) {
      assert db'.sales[t].reference == Some(reference);
    }
  }

  // ---- money --------------------------------------------------------------------------------

  /** Charged is held plus paid out plus refunded; balances are ledger sums; one charge, one payout per sale. */
  lemma MoneyConserved(db: Db)
    requires Reachable(db)
    ensures && ChargeTotal(db.charges)
              == SumOver(db.sales, HeldAmount) + LedgerTotal(db.ledger) + SumOver(db.sales, RefundedAmount)
            && (forall u :: BalanceOf(db.balances, u) == EarnedBy(db.ledger, u) <= INT4_MAX)
            && (forall i, j :: 0 <= i < j < |db.charges| ==> db.charges[i].sale != db.charges[j].sale)
            && (forall s :: s in db.sales ==> (IsPaid(db.sales[s].status) <==> exists i :: ChargedAt(db.charges, i, s)))
            && (forall i, j :: 0 <= i < j < |db.ledger| ==> db.ledger[i].sale != db.ledger[j].sale)
            && (forall s :: s in db.sales ==>
                (db.sales[s].status == Delivered <==> exists i :: PaidOutAt(db.ledger, i, s)))
  {
    hide ListingsOk, AuctionsOk, SaleKeysOk, BooksOk, SalesOk, DisputesOk, RelistsOk;
    Reached(db);
    assert forall i :: 0 <= i < |db.charges| ==> ChargeOk(db.sales, db.charges[i]);
    assert forall i :: 0 <= i < |db.ledger| ==> EntryOk(db.sales, db.ledger[i]);
  }

  /** Once charged, a sale keeps its buyer, price, address and reference for good. */
  lemma ChargedForGood(db: Db, i: nat, db': Db)
    requires Reachable(db) && Leads(db, db')
    requires i < |db.charges|
    ensures var c := db.charges[i];
            && i < |db'.charges| && db'.charges[i] == c && c.sale in db'.sales
            && var r := db'.sales[c.sale];
               IsPaid(r.status) && r.winner == c.payer && r.amount == c.amount && r.address == Some(c.address)
  {
    hide AuctionsEvolve, SalesEvolve, DisputesEvolve, ListingsEvolve, OffersEvolve, StrandedStay, ListingsOk,
         AuctionsOk, SaleKeysOk, BooksOk, SalesOk, DisputesOk, LedgerOk, BalancesOk, Conserved, RelistsOk;
    Reached(db);
    Later(db, db');
    assert ChargeOk(db'.sales, db'.charges[i]);
  }

  // ---- disputes -----------------------------------------------------------------------------

  /** OPEN means DISPUTED, refunded means REFUNDED, released means DISPUTED or DELIVERED; one dispute per sale. */
  lemma VerdictFitsSale(db: Db, d: Id)
    requires Reachable(db)
    requires d in db.disputes
    ensures var s := db.disputes[d].sale;
            && s in db.sales && db.disputes[d].raisedBy == db.sales[s].winner
            && (db.disputes[d].status == Open ==> db.sales[s].status == Disputed)
            && (db.disputes[d].status == ResolvedRefunded ==> db.sales[s].status == Refunded)
            && (db.disputes[d].status == ResolvedReleased ==>
                db.sales[s].status == Disputed || db.sales[s].status == Delivered)
            && (forall e :: AboutSale(db.disputes, e, s) ==> e == d)
  {
    hide ListingsOk, AuctionsOk, SaleKeysOk, BooksOk, SalesOk, ChargesOk, LedgerOk, BalancesOk, Conserved, RelistsOk;
    Reached(db);
    assert DisputeFits(db.disputes[d], db.sales[db.disputes[d].sale]);
  }

  /** The REFUNDED write looks at no status, yet what it overwrites is always DISPUTED and never paid out. */
  lemma RefundOverwritesNoPayout(db: Db, d: Id)
    requires Reachable(db)
    requires ResolveDispute(db, d, true).1 == Ok
    ensures var s := db.disputes[d].sale;
            db.sales[s].status == Disputed && !HasEntry(db, s)
  {
    hide ListingsOk, AuctionsOk, SaleKeysOk, BooksOk, SalesOk, ChargesOk, BalancesOk, Conserved, RelistsOk;
    Reached(db);
    assert DisputeFits(db.disputes[d], db.sales[db.disputes[d].sale]);
    assert forall i :: 0 <= i < |db.ledger| ==> EntryOk(db.sales, db.ledger[i]);
  }

  /**
    A release's second transaction always finds its sale DISPUTED and pays it out, unless the payout
    does not fit the seller's int4 balance: exactly then the database refuses it.
   */
  lemma ReleasePaysUnlessOutOfRange(db: Db, s: Id)
    requires Reachable(db)
    requires s in db.releasing
    ensures && s in db.sales && db.sales[s].status == Disputed
            && var fits := BalanceOf(db.balances, db.sales[s].seller) + db.sales[s].amount <= INT4_MAX;
               && FinishRelease(db, s).1 == (if fits then Ok else OutOfRange)
               && (FinishRelease(db, s).0.sales[s].status == Delivered <==> fits)
  {
    hide Inv;
    Reached(db);
    ReleaseFindsDisputed(db, s);
  }

  /** The seller's response is written once, only while the dispute is open, and a decision is final. */
  lemma ResponseAndDecisionFinal(db: Db, d: Id, db': Db)
    requires Reachable(db) && Leads(db, db')
    requires d in db.disputes
    ensures var before := db.disputes[d];
            && d in db'.disputes
            && (before.response.Some? ==> db'.disputes[d].response == before.response)
            && (before.status != Open ==> db'.disputes[d] == before)
  {
    hide Inv, AuctionsEvolve, SalesEvolve, ListingsEvolve, OffersEvolve, StrandedStay;
    Reached(db);
    Later(db, db');
  }

  /**
    A RELEASE whose handler died, or whose payout was refused, after its first transaction: the sale
    stays DISPUTED with the money held, whatever anyone does afterwards.
   */
  lemma StrandedForever(db: Db, s: Id, db': Db)
    requires Reachable(db) && Leads(db, db')
    requires IsStranded(db.disputes, db.sales, db.releasing, s)
    ensures && s in db'.sales && db'.sales[s] == db.sales[s] && db'.sales[s].status == Disputed
            && !HasEntry(db', s)
  {
    hide AuctionsEvolve, SalesEvolve, DisputesEvolve, ListingsEvolve, OffersEvolve, ListingsOk, AuctionsOk, SaleKeysOk,
         BooksOk, SalesOk, DisputesOk, ChargesOk, BalancesOk, Conserved, RelistsOk;
    Reached(db);
    Later(db, db');
    assert forall i :: 0 <= i < |db'.ledger| ==> EntryOk(db'.sales, db'.ledger[i]);
  }

  // ---- refusals and parties ---------------------------------------------------------------------

  /** Who a transaction is done for, where it is one person's to do. */
  ghost predicate ByItsParty(db: Db, step: Step) {
    match step
    case SResubmit(l, _, user, _) => l in db.listings && user == db.listings[l].seller
    case SWithdraw(l, _, user) => l in db.listings && user == db.listings[l].seller
    case SPlaceBid(a, buyer, _, _, _) => a in db.auctions && buyer != db.auctions[a].seller
    case SCancel(a, user, isAdmin) => isAdmin || (a in db.auctions && user == db.auctions[a].seller)
    case SPay(s, user, _, _, _, _) => s in db.sales && user == db.sales[s].winner
    case SOffer(s, seller, _, _) => s in db.sales && seller == db.sales[s].seller
    case SRelist(s, seller, _, _, _) => s in db.sales && seller == db.sales[s].seller
    case SShip(s, seller, _) => s in db.sales && seller == db.sales[s].seller
    case SConfirm(s, winner) => s in db.sales && (winner.Some? ==> winner.value == db.sales[s].winner)
    case SDispute(s, user, _, _) => s in db.sales && user == db.sales[s].winner
    case SRespond(s, d, seller, _) => s in db.sales && seller == db.sales[s].seller && AboutSale(db.disputes, d, s)
    case _ => true
  }

  ghost predicate RefusedOrDone(db: Db, step: Step) {
    var (db', outcome) := Apply(db, step);
    && (outcome == Ok || outcome == Declined ==> ByItsParty(db, step))
    && (outcome != Ok && outcome != Declined ==> db'.(releasing := db.releasing) == db)
    && (step.SResolve? || step.SFinishRelease? || step.SCrashRelease? || db'.releasing == db.releasing)
  }

  /** The steps that end the release of a sale: its handler's second transaction, or the handler's death. */
  predicate EndsRelease(step: Step, s: Id) {
    step == SFinishRelease(s) || step == SCrashRelease(s)
  }

  lemma SubmitRefusals(db: Db, l: Id, seller: UserId, terms: Terms)
    ensures RefusedOrDone(db, SSubmit(l, seller, terms))
  {}

  lemma ResubmitRefusals(db: Db, l: Id, read: Listing, user: UserId, terms: Terms)
    requires Inv(db)
    ensures RefusedOrDone(db, SResubmit(l, read, user, terms))
  {
    hide Inv, HasAuction, HasRelist;
    if read in VersionsOf(db, l) { ReadVersion(db, l, read); }
  }

  lemma WithdrawRefusals(db: Db, l: Id, read: Listing, user: UserId)
    requires Inv(db)
    ensures RefusedOrDone(db, SWithdraw(l, read, user))
  {
    hide Inv, HasAuction, HasRelist;
    if read in VersionsOf(db, l) { ReadVersion(db, l, read); }
  }

  lemma ApproveRefusals(db: Db, l: Id, read: Listing, a: Id, now: Time)
    ensures RefusedOrDone(db, SApprove(l, read, a, now))
  {
    hide Approve;
    ApproveOrNothing(db, l, read, a, now);
  }

  lemma ApproveOrNothing(db: Db, l: Id, read: Listing, a: Id, now: Time)
    ensures var (db', outcome) := Approve(db, l, read, a, now);
            (outcome != Ok ==> db' == db) && db'.releasing == db.releasing && outcome != Declined
  {
    hide HasAuction;
  }

  lemma RejectRefusals(db: Db, l: Id, read: Listing)
    ensures RefusedOrDone(db, SReject(l, read))
  {}

  lemma TakedownRefusals(db: Db, l: Id, read: Listing)
    ensures RefusedOrDone(db, STakedown(l, read))
  {}

  lemma PlaceBidRefusals(db: Db, a: Id, buyer: UserId, amount: int, bid: Id, now: Time)
    ensures RefusedOrDone(db, SPlaceBid(a, buyer, amount, bid, now))
  {
    hide MinAllowed, MaxAllowed;
  }

  lemma CancelRefusals(db: Db, a: Id, user: UserId, isAdmin: bool)
    ensures RefusedOrDone(db, SCancel(a, user, isAdmin))
  {}

  lemma CloseRefusals(db: Db, a: Id, s: Id, now: Time, hours: int)
    ensures RefusedOrDone(db, SClose(a, s, now, hours))
  {
    hide CloseAuction;
    CloseOrNothing(db, a, s, now, hours);
  }

  lemma CloseOrNothing(db: Db, a: Id, s: Id, now: Time, hours: int)
    ensures var (db', outcome) := CloseAuction(db, a, s, now, hours);
            (outcome != Ok ==> db' == db) && db'.releasing == db.releasing && outcome != Declined
  {
    hide HasSale, BookOf, FindNextBid, FirstSale, ReserveVerdict, SetVerdict, AddSale;
    WritesOfClose();
  }

  lemma WritesOfClose()
    ensures forall db, a, row, verdict :: SetVerdict(db, a, row, verdict).releasing == db.releasing
    ensures forall db, s, sale :: AddSale(db, s, sale).releasing == db.releasing
  {}

  lemma PayRefusals(db: Db, s: Id, user: UserId, gateway: Gateway, address: string, phone: string, now: Time)
    ensures RefusedOrDone(db, SPay(s, user, gateway, address, phone, now))
  {
    hide Pay;
    PayOrNothing(db, s, user, gateway, address, phone, now);
  }

  lemma PayOrNothing(db: Db, s: Id, user: UserId, gateway: Gateway, address: string, phone: string, now: Time)
    ensures var (db', outcome) := Pay(db, s, user, gateway, address, phone, now);
            && (outcome == Ok || outcome == Declined ==> s in db.sales && user == db.sales[s].winner)
            && (outcome != Ok && outcome != Declined ==> db' == db) && db'.releasing == db.releasing
  {
    hide ReferenceTaken;
  }

  lemma AdminVoidRefusals(db: Db, s: Id)
    ensures RefusedOrDone(db, SAdminVoid(s))
  {}

  lemma VoidOverdueRefusals(db: Db, s: Id, now: Time, hours: int)
    ensures RefusedOrDone(db, SVoidOverdue(s, now, hours))
  {}

  lemma OfferRefusals(db: Db, s: Id, seller: UserId, now: Time, hours: int)
    ensures RefusedOrDone(db, SOffer(s, seller, now, hours))
  {
    hide HasRelist, BookOf, FindNextBid;
  }

  lemma RelistRefusals(db: Db, s: Id, seller: UserId, l: Id, a: Id, now: Time)
    ensures RefusedOrDone(db, SRelist(s, seller, l, a, now))
  {
    hide HasRelist;
  }

  lemma ShipRefusals(db: Db, s: Id, seller: UserId, now: Time)
    ensures RefusedOrDone(db, SShip(s, seller, now))
  {}

  lemma ConfirmRefusals(db: Db, s: Id, requireWinner: Option<UserId>)
    ensures RefusedOrDone(db, SConfirm(s, requireWinner))
  {
    hide HasEntry;
  }

  lemma DisputeRefusals(db: Db, s: Id, user: UserId, d: Id, reason: string)
    ensures RefusedOrDone(db, SDispute(s, user, d, reason))
  {
    hide HasDispute;
  }

  lemma RespondRefusals(db: Db, s: Id, d: Id, seller: UserId, response: string)
    ensures RefusedOrDone(db, SRespond(s, d, seller, response))
  {}

  lemma ResolveRefusals(db: Db, d: Id, refund: bool)
    ensures RefusedOrDone(db, SResolve(d, refund))
  {}

  lemma FinishReleaseRefusals(db: Db, s: Id)
    ensures RefusedOrDone(db, SFinishRelease(s))
  {
    hide HasEntry;
  }

  lemma CrashReleaseRefusals(db: Db, s: Id)
    ensures RefusedOrDone(db, SCrashRelease(s))
  {}

  lemma DeleteUserRefusals(db: Db, user: UserId)
    ensures RefusedOrDone(db, SDeleteUser(user))
  {
    hide IsReferenced;
  }

  lemma EveryStepRefusals(db: Db, step: Step)
    requires Inv(db)
    ensures RefusedOrDone(db, step)
  {
    hide Inv, Apply, ByItsParty, RefusedOrDone;
    match step
    case SSubmit(l, seller, terms) => SubmitRefusals(db, l, seller, terms);
    case SResubmit(l, read, user, terms) => ResubmitRefusals(db, l, read, user, terms);
    case SWithdraw(l, read, user) => WithdrawRefusals(db, l, read, user);
    case SApprove(l, read, a, now) => ApproveRefusals(db, l, read, a, now);
    case SReject(l, read) => RejectRefusals(db, l, read);
    case STakedown(l, read) => TakedownRefusals(db, l, read);
    case SPlaceBid(a, buyer, amount, bid, now) => PlaceBidRefusals(db, a, buyer, amount, bid, now);
    case SCancel(a, user, isAdmin) => CancelRefusals(db, a, user, isAdmin);
    case SClose(a, s, now, hours) => CloseRefusals(db, a, s, now, hours);
    case SPay(s, user, gateway, address, phone, now) => PayRefusals(db, s, user, gateway, address, phone, now);
    case SAdminVoid(s) => AdminVoidRefusals(db, s);
    case SVoidOverdue(s, now, hours) => VoidOverdueRefusals(db, s, now, hours);
    case SOffer(s, seller, now, hours) => OfferRefusals(db, s, seller, now, hours);
    case SRelist(s, seller, l, a, now) => RelistRefusals(db, s, seller, l, a, now);
    case SShip(s, seller, now) => ShipRefusals(db, s, seller, now);
    case SConfirm(s, requireWinner) => ConfirmRefusals(db, s, requireWinner);
    case SDispute(s, user, d, reason) => DisputeRefusals(db, s, user, d, reason);
    case SRespond(s, d, seller, response) => RespondRefusals(db, s, d, seller, response);
    case SResolve(d, refund) => ResolveRefusals(db, d, refund);
    case SFinishRelease(s) => FinishReleaseRefusals(db, s);
    case SCrashRelease(s) => CrashReleaseRefusals(db, s);
    case SDeleteUser(user) => DeleteUserRefusals(db, user);
  }

  /** Only the right party succeeds, and a refused transaction changes no table. */
  lemma RefusedOrByItsParty(db: Db, step: Step)
    requires Reachable(db)
    ensures var (db', outcome) := Apply(db, step);
            && (outcome == Ok || outcome == Declined ==> ByItsParty(db, step))
            && (outcome != Ok && outcome != Declined ==> db'.(releasing := db.releasing) == db)
  {
    hide Inv, Leads, Apply, ByItsParty;
    Reached(db);
    EveryStepRefusals(db, step);
  }

  // ---- a release, step by step ----------------------------------------------------------------

  ghost predicate PayoutFits(db: Db, s: Id) {
    s in db.sales && BalanceOf(db.balances, db.sales[s].seller) + db.sales[s].amount <= INT4_MAX
  }

  lemma OthersLeaveRelease(db: Db, step: Step, s: Id)
    requires Inv(db) && s in db.releasing && !EndsRelease(step, s)
    ensures s in Apply(db, step).0.releasing
  {
    hide Inv, Apply, ByItsParty;
    EveryStepRefusals(db, step);
    match step
    case SResolve(d, refund) => ResolveLeavesReleases(db, d, refund);
    case SFinishRelease(t) => FinishLeavesOthers(db, t);
    case SCrashRelease(t) => CrashLeavesOthers(db, t);
    case _ =>
  }

  lemma ResolveLeavesReleases(db: Db, d: Id, refund: bool)
    ensures db.releasing <= Apply(db, SResolve(d, refund)).0.releasing
  {}

  lemma CrashLeavesOthers(db: Db, t: Id)
    ensures db.releasing - {t} <= Apply(db, SCrashRelease(t)).0.releasing
  {}

  lemma FinishLeavesOthers(db: Db, t: Id)
    ensures db.releasing - {t} <= Apply(db, SFinishRelease(t)).0.releasing
  {
    hide HasEntry;
  }

  /** Nothing else that anyone does takes a release out of flight. */
  lemma {:induction false} ReleaseInFlight(dbs: seq<Db>, steps: seq<Step>, s: Id, n: nat)
    requires IsTrace(dbs, steps) && n <= |steps| && Inv(dbs[0]) && s in dbs[0].releasing
    requires forall i :: 0 <= i < n ==> !EndsRelease(steps[i], s)
    ensures s in dbs[n].releasing && Inv(dbs[n])
  {
    hide Inv, Apply, EndsRelease, ByItsParty;
    if n > 0 {
      ReleaseInFlight(dbs, steps, s, n - 1);
      assert !EndsRelease(steps[n - 1], s);
      OthersLeaveRelease(dbs[n - 1], steps[n - 1], s);
      StepKeeps(dbs[n - 1], steps[n - 1]);
    }
  }

  lemma {:induction false} TraceLeads(dbs: seq<Db>, steps: seq<Step>, i: nat, j: nat)
    requires IsTrace(dbs, steps) && i <= j <= |steps|
    ensures Leads(dbs[i], dbs[j])
  {
    hide Apply, Leads;
    if i < j {
      TraceLeads(dbs, steps, i, j - 1);
      assert steps[j - 1] == steps[j - 1];
      StepLeads(dbs[i], dbs[j - 1], steps[j - 1]);
    } else {
      StaysPut(dbs[i]);
    }
  }

  lemma StaysPut(db: Db)
    ensures Leads(db, db)
  {
    hide Apply;
    assert IsTrace([db], []);
  }

  lemma PayoutOutcome(db: Db, s: Id)
    requires s in db.sales && db.sales[s].status == Disputed && !HasEntry(db, s)
    ensures var db' := ConfirmDelivery(db, s, None, true).0;
            && db'.sales == (if PayoutFits(db, s) then db.sales[s := db.sales[s].(status := Delivered)] else db.sales)
            && db'.disputes == db.disputes && db'.releasing == db.releasing
  {
    hide HasEntry, BalanceOf;
  }

  lemma FinishOutcome(db: Db, s: Id)
    requires s in db.releasing && s in db.sales && db.sales[s].status == Disputed && !HasEntry(db, s)
    ensures var db' := FinishRelease(db, s).0;
            && db'.sales == (if PayoutFits(db, s) then db.sales[s := db.sales[s].(status := Delivered)] else db.sales)
            && db'.disputes == db.disputes && db'.releasing == db.releasing - {s}
  {
    hide HasEntry, ConfirmDelivery;
    var db1 := db.(releasing := db.releasing - {s});
    SameEntries(db, db1, s);
    PayoutOutcome(db1, s);
  }

  lemma SameEntries(db: Db, db': Db, s: Id)
    requires db'.ledger == db.ledger
    ensures HasEntry(db', s) <==> HasEntry(db, s)
  {}

  /**
    The step that ends a release pays the sale out exactly when it is the second transaction and the
    payout fits; if not, the sale is stranded.
   */
  lemma ReleaseEndsOnce(db: Db, step: Step, s: Id)
    requires Inv(db) && s in db.releasing && EndsRelease(step, s)
    ensures var db' := Apply(db, step).0;
            && s in db.sales && s in db'.sales
            && if step == SFinishRelease(s) && PayoutFits(db, s) then db'.sales[s].status == Delivered
               else IsStranded(db'.disputes, db'.sales, db'.releasing, s)
  {
    hide Inv, HasEntry, FinishRelease, CrashRelease, PayoutFits, IsStranded;
    ReleaseFindsDisputed(db, s);
    ReleaseHasDispute(db, s);
    FinishOutcome(db, s);
    CrashOutcome(db, s);
    StrandedAfter(db, Apply(db, step).0, s);
  }

  lemma CrashOutcome(db: Db, s: Id)
    requires s in db.releasing
    ensures CrashRelease(db, s).0 == db.(releasing := db.releasing - {s})
  {}

  lemma StrandedAfter(db: Db, db': Db, s: Id)
    requires exists d :: AboutSale(db.disputes, d, s) && db.disputes[d].status == ResolvedReleased
    requires s in db.sales && db.sales[s].status == Disputed
    requires db'.disputes == db.disputes && db'.releasing == db.releasing - {s}
    ensures db'.sales == db.sales ==> IsStranded(db'.disputes, db'.sales, db'.releasing, s)
  {
    var d :| AboutSale(db.disputes, d, s) && db.disputes[d].status == ResolvedReleased;
    assert AboutSale(db'.disputes, d, s);
  }

  lemma ReleaseHasDispute(db: Db, s: Id)
    requires Inv(db) && s in db.releasing
    ensures exists d :: AboutSale(db.disputes, d, s) && db.disputes[d].status == ResolvedReleased
  {
    hide ListingsOk, AuctionsOk, SaleKeysOk, BooksOk, SalesOk, ChargesOk, LedgerOk, BalancesOk, Conserved, RelistsOk,
         DisputeFits;
    var d :| AboutSale(db.disputes, d, s);
  }

  lemma DeliveredStays(db: Db, db': Db, s: Id)
    requires Inv(db) && Leads(db, db') && s in db.sales
    ensures s in db'.sales
    ensures db.sales[s].status == Delivered ==> db'.sales[s].status == Delivered
    ensures IsStranded(db.disputes, db.sales, db.releasing, s) ==> db'.sales[s].status == Disputed
  {
    hide Inv, Leads, AuctionsEvolve, DisputesEvolve, ListingsEvolve, OffersEvolve;
    Later(db, db');
    assert SaleEvolves(db.sales[s], db'.sales[s]);
  }

  /** The k-th step is the first that ends the release, it is the second transaction, and the payout fits there. */
  ghost predicate PaysAt(dbs: seq<Db>, steps: seq<Step>, s: Id, k: int)
    requires |dbs| == |steps| + 1
  {
    && 0 <= k < |steps| && steps[k] == SFinishRelease(s) && PayoutFits(dbs[k], s)
    && forall i :: 0 <= i < k ==> !EndsRelease(steps[i], s)
  }

  function FirstEnd(steps: seq<Step>, s: Id, n: nat): (k: nat)
    requires n <= |steps|
    ensures k <= n && (forall i :: 0 <= i < k ==> !EndsRelease(steps[i], s))
    ensures k < n ==> EndsRelease(steps[k], s)
  {
    if n == 0 then 0
    else
      var k := FirstEnd(steps, s, n - 1);
      if k < n - 1 || EndsRelease(steps[n - 1], s) then k else n
  }

  /**
    A release is paid out in a later state if and only if the run took it there: some step was its
    second transaction, before its handler died, at a state where the payout fitted.
   */
  lemma ReleasePaidIff(dbs: seq<Db>, steps: seq<Step>, s: Id, n: nat)
    requires IsTrace(dbs, steps) && n <= |steps| && Reachable(dbs[0]) && s in dbs[0].releasing
    ensures s in dbs[n].sales
    ensures dbs[n].sales[s].status == Delivered <==> exists k :: k < n && PaysAt(dbs, steps, s, k)
  {
    hide Inv, Apply, Leads, EndsRelease, PayoutFits, IsStranded;
    Reached(dbs[0]);
    var k := FirstEnd(steps, s, n);
    ReleaseInFlight(dbs, steps, s, k);
    ReleaseFindsDisputed(dbs[k], s);
    if k < n {
      assert dbs[k + 1] == Apply(dbs[k], steps[k]).0;
      ReleaseEndsOnce(dbs[k], steps[k], s);
      StepKeeps(dbs[k], steps[k]);
      TraceLeads(dbs, steps, k + 1, n);
      DeliveredStays(dbs[k + 1], dbs[n], s);
      OnlyFirstPays(dbs, steps, s, n, k);
    } else {
      forall l | l < n && PaysAt(dbs, steps, s, l) ensures false { FinishEnds(steps[l], s); }
    }
  }

  lemma FinishEnds(step: Step, s: Id)
    requires step == SFinishRelease(s)
    ensures EndsRelease(step, s)
  {}

  lemma OnlyFirstPays(dbs: seq<Db>, steps: seq<Step>, s: Id, n: nat, k: nat)
    requires IsTrace(dbs, steps) && k < n <= |steps| && EndsRelease(steps[k], s)
    requires forall i :: 0 <= i < k ==> !EndsRelease(steps[i], s)
    ensures (exists l :: l < n && PaysAt(dbs, steps, s, l)) <==> steps[k] == SFinishRelease(s) && PayoutFits(dbs[k], s)
  {
    hide Apply, PayoutFits;
    if steps[k] == SFinishRelease(s) && PayoutFits(dbs[k], s) { assert PaysAt(dbs, steps, s, k); }
    forall l | l < n && PaysAt(dbs, steps, s, l) ensures l == k { FinishEnds(steps[l], s); }
  }

  /** A decision for the seller puts the release in flight. */
  lemma DecisionStartsRelease(db: Db, d: Id)
    requires ResolveDispute(db, d, false).1 == Ok
    ensures d in db.disputes && db.disputes[d].sale in Apply(db, SResolve(d, false)).0.releasing
  {}

  // ---- second-chance offers -----------------------------------------------------------------

  lemma {:induction false} DistinctFits<T(!new)>(q: seq<T>, pool: set<T>)
    requires Distinct(q) && forall x :: x in q ==> x in pool
    ensures |q| <= |pool|
  {
    if q != [] {
      var last := q[|q| - 1];
      DistinctFits(q[..|q| - 1], pool - {last});
    }
  }

  /** Everyone a sale was offered to, in order. */
  function OfferedTo(r: Sale): seq<UserId> {
    r.previousWinners + [r.winner]
  }

  ghost predicate HighestBidOf(book: seq<Bid>, u: UserId, amount: int) {
    && (exists i :: 0 <= i < |book| && book[i].buyer == Some(u) && book[i].amount == amount)
    && (forall i :: 0 <= i < |book| && book[i].buyer == Some(u) ==> book[i].amount <= amount)
  }

  /**
    Over all void-and-offer rounds of one sale: nobody is offered it twice, nobody is its seller, prices
    never rise, the first met any reserve, each is at its buyer's own highest bid (the bid of a past buyer
    may have been anonymised since), and there are at most as many offers (the close included) as people who bid.
   */
  ghost predicate RoundsOk(a: Auction, book: seq<Bid>, bidders: set<UserId>, r: Sale, given: seq<Offer>) {
    && Distinct(OfferedTo(r))
    && |given| == |OfferedTo(r)| <= |bidders| <= a.bidCount
    && (forall i :: 0 <= i < |given| ==> given[i].winner == OfferedTo(r)[i])
    && (forall i :: 0 <= i < |given| ==> given[i].winner in bidders && given[i].winner != r.seller)
    && (forall i, j :: 0 <= i < j < |given| ==> given[j].amount <= given[i].amount)
    && (a.terms.reserve.Some? ==> given[0].amount >= a.terms.reserve.value)
    && given[|given| - 1].amount == r.amount
    && HighestBidOf(book, r.winner, r.amount)
    && (forall i :: 0 <= i < |given| ==> AtOwnHighestBid(book, given[i]))
  }

  lemma RoundsOfRow(a: Auction, book: seq<Bid>, bidders: set<UserId>, r: Sale, given: seq<Offer>)
    requires BookOk(a, book, bidders) && SaleOk(a, book, bidders, r, given) && r.seller == a.seller
    ensures RoundsOk(a, book, bidders, r, given)
  {
    DistinctFits(OfferedTo(r), bidders);
  }

  lemma OfferRounds(db: Db, s: Id)
    requires Reachable(db)
    requires s in db.sales
    ensures var a := db.sales[s].auction;
            && a in db.auctions && a in db.bids && a in db.bidders && s in db.offers
            && RoundsOk(db.auctions[a], db.bids[a], db.bidders[a], db.sales[s], db.offers[s])
  {
    hide Inv, BookOk, SaleOk, RoundsOk;
    var a := db.sales[s].auction;
    Reached(db);
    StoredSale(db, s);
    StoredBook(db, a);
    RoundsOfRow(db.auctions[a], db.bids[a], db.bidders[a], db.sales[s], db.offers[s]);
  }

  /** Bidders the sale has not been offered to yet. */
  function StillToOffer(db: Db, r: Sale): set<UserId>
    requires r.auction in db.bidders
  {
    set u | u in db.bidders[r.auction] && u !in OfferedTo(r)
  }

  /** Each accepted offer takes exactly its buyer out of those still to be offered. */
  lemma OfferShrinksPool(db: Db, s: Id, seller: UserId, now: Time, hours: int)
    requires Reachable(db)
    requires OfferToNextBidder(db, s, seller, now, hours).1 == Ok
    ensures var db' := OfferToNextBidder(db, s, seller, now, hours).0;
            && db.sales[s].auction in db.bidders && db'.sales[s].auction in db'.bidders
            && db'.sales[s].winner in StillToOffer(db, db.sales[s])
            && StillToOffer(db', db'.sales[s]) == StillToOffer(db, db.sales[s]) - {db'.sales[s].winner}
  {
    hide Inv;
    Reached(db);
    StoredSale(db, s);
    StoredBook(db, db.sales[s].auction);
  }

  // ---- opening and cancelling -------------------------------------------------------------------

  /**
    However many admins approve a listing, from whatever they read, it has one auction; a new one
    opens at the starting price.
   */
  lemma ApproveOpensOneAuction(db: Db, l: Id, read: Listing, a: Id, now: Time)
    requires Reachable(db) && Approve(db, l, read, a, now).1 == Ok
    ensures var db' := Approve(db, l, read, a, now).0;
            && (exists b :: IsAuctionOf(db'.auctions, b, l))
            && (forall b, c :: IsAuctionOf(db'.auctions, b, l) && IsAuctionOf(db'.auctions, c, l) ==> b == c)
            && (HasAuction(db, l) ==> db'.auctions == db.auctions)
            && (!HasAuction(db, l) ==>
                  && IsAuctionOf(db'.auctions, a, l) && db'.auctions[a].status == Active && db'.bids[a] == []
                  && db'.auctions[a].currentBid == read.terms.startPrice
                  && db'.auctions[a].seller == db.listings[l].seller
                  && GoodTerms(db'.auctions[a].terms) && db'.auctions[a].endTime == now + read.terms.durationDays * DAY)
  {
    hide Inv, HasAuction, Approve, Leads;
    Reached(db);
    ApproveKeeps(db, l, read, a, now);
    ApprovedTables(db, l, read, a, now);
    ReadVersion(db, l, read);
    OneAuctionPerListing(Approve(db, l, read, a, now).0, l);
    if HasAuction(db, l) {
      AuctionOfListing(db, l);
    } else {
      assert IsAuctionOf(Approve(db, l, read, a, now).0.auctions, a, l);
    }
  }

  lemma AuctionOfListing(db: Db, l: Id)
    requires HasAuction(db, l)
    ensures exists b :: IsAuctionOf(db.auctions, b, l)
  {
    var b :| b in db.auctions && db.auctions[b].listing == l;
    assert IsAuctionOf(db.auctions, b, l);
  }

  lemma ApprovedTables(db: Db, l: Id, read: Listing, a: Id, now: Time)
    requires Approve(db, l, read, a, now).1 == Ok
    ensures var db' := Approve(db, l, read, a, now).0;
            && read in VersionsOf(db, l) && l in db.listings
            && (HasAuction(db, l) ==> db'.auctions == db.auctions)
            && (!HasAuction(db, l) ==>
                  db'.auctions == db.auctions[a := NewAuction(l, read.seller, read.terms, now)]
                      && db'.bids == db.bids[a := []])
  {
    hide HasAuction;
  }

  lemma OneAuctionPerListing(db: Db, l: Id)
    requires Inv(db)
    ensures forall b, c :: IsAuctionOf(db.auctions, b, l) && IsAuctionOf(db.auctions, c, l) ==> b == c
  {
    hide ListingsOk, SaleKeysOk, BooksOk, SalesOk, DisputesOk, ChargesOk, LedgerOk, BalancesOk, Conserved, RelistsOk;
  }

  /** A seller can only cancel where nobody ever bid; an admin can cancel any ACTIVE auction. */
  lemma WhoCancels(db: Db, a: Id, user: UserId, isAdmin: bool)
    requires Reachable(db)
    ensures CancelAuction(db, a, user, isAdmin).1 == Ok
       <==> a in db.auctions && a in db.bids && a in db.bidders && db.auctions[a].status == Active
            && (isAdmin || (user == db.auctions[a].seller && db.bids[a] == [] && db.bidders[a] == {}))
  {
    hide Inv;
    Reached(db);
    if a in db.auctions {
      StoredBook(db, a);
      KnownTables(db);
    }
  }

  // ---- bids and the close -------------------------------------------------------------------

  /**
    Bids rise by at least the increment, the last one is the current and greatest, the counter counts
    them, and the ceiling bounds how many there can be.
   */
  lemma BookOfEveryAuction(db: Db, a: Id)
    requires Reachable(db)
    requires a in db.auctions
    ensures var row := db.auctions[a];
            && a in db.bids
            && row.bidCount == |db.bids[a]|
            && row.currentBid
                 == (if db.bids[a] == [] then row.terms.startPrice else db.bids[a][|db.bids[a]| - 1].amount)
            && row.currentBid <= MAX_MONEY
            && (forall i, j :: 0 <= i < j < |db.bids[a]| ==>
                db.bids[a][i].amount + row.terms.minIncrement <= db.bids[a][j].amount)
            && (row.bidCount > 0 ==> (row.bidCount - 1) * row.terms.minIncrement <= MAX_MONEY - row.terms.startPrice)
  {
    hide Inv;
    Reached(db);
    StoredBook(db, a);
    if db.bids[a] != [] {
      BidsClimb(db.auctions[a].terms, db.bids[a], |db.bids[a]| - 1);
    }
  }

  /** The buyer of an accepted bid leads: the auction shows it, and a close at that moment would pick it. */
  lemma AcceptedBidLeads(db: Db, a: Id, buyer: UserId, amount: int, bid: Id, now: Time)
    requires Reachable(db) && PlaceBid(db, a, buyer, amount, bid, now).1 == Ok
    ensures var db' := PlaceBid(db, a, buyer, amount, bid, now).0;
            && a in db.auctions && a in db'.auctions && a in db.bids && a in db'.bids
            && |db'.bids[a]| == |db.bids[a]| + 1
            && db'.auctions[a].currentBid == amount
            && db.auctions[a].status == Active && now < db.auctions[a].endTime
            && FindNextBid(db'.bids[a], []) == Some(db'.bids[a][|db.bids[a]|])
            && db'.bids[a][|db.bids[a]|].buyer == Some(buyer) && db'.bids[a][|db.bids[a]|].amount == amount
            && (forall b :: b in db.auctions && b != a ==> b in db'.auctions && db'.auctions[b] == db.auctions[b])
            && db'.sales == db.sales && db'.listings == db.listings
  {
    hide Inv, FindNextBid, Leads, MaxAllowed;
    Reached(db);
    PlaceBidKeeps(db, a, buyer, amount, bid, now);
    StoredBook(db, a);
    var db' := PlaceBid(db, a, buyer, amount, bid, now).0;
    StoredBook(db', a);
    NextBidIsLastEligible(db'.bids[a], [], |db.bids[a]|);
  }

  lemma {:induction false} BidsClimb(t: Terms, book: seq<Bid>, k: nat)
    requires k < |book| && t.startPrice <= book[0].amount
    requires forall i, j :: 0 <= i < j < |book| ==> book[i].amount + t.minIncrement <= book[j].amount
    ensures t.startPrice + k * t.minIncrement <= book[k].amount
  {
    if k > 0 {
      BidsClimb(t, book, k - 1);
      assert k * t.minIncrement == (k - 1) * t.minIncrement + t.minIncrement;
    }
  }

  /** Once an auction is not ACTIVE its amounts, counters and current bid never change; CLOSED never reopens. */
  lemma FrozenBook(db: Db, a: Id, db': Db)
    requires Reachable(db) && Leads(db, db')
    requires a in db.auctions && db.auctions[a].status != Active
    ensures && a in db.bids && a in db'.auctions && a in db'.bids
            && db'.auctions[a].status != Active
            && (db.auctions[a].status == Closed ==> db'.auctions[a] == db.auctions[a])
            && db'.auctions[a].currentBid == db.auctions[a].currentBid
            && db'.auctions[a].bidCount == db.auctions[a].bidCount
            && |db'.bids[a]| == |db.bids[a]|
            && forall i :: 0 <= i < |db.bids[a]| ==> db'.bids[a][i].amount == db.bids[a][i].amount
  {
    hide Inv, SalesEvolve, DisputesEvolve, ListingsEvolve, OffersEvolve, StrandedStay;
    Reached(db);
    StoredBook(db, a);
    Later(db, db');
    assert BookEvolves(false, db.bids[a], db'.bids[a]);
  }

  lemma CloseUnsold(db: Db, a: Id, s: Id, now: Time, hours: int, top: Bid)
    requires a in db.auctions && db.auctions[a].status != Closed
    requires FindNextBid(BookOf(db.bids, a), []) == Some(top)
    requires db.auctions[a].terms.reserve.Some? && top.amount < db.auctions[a].terms.reserve.value
    ensures CloseAuction(db, a, s, now, hours)
         == (db.(auctions := db.auctions[a := db.auctions[a].(status := Closed, reserveMet := Some(false))]), Ok)
  {
    hide FindNextBid, HasSale, FirstSale, BookOf;
    assert ReserveVerdict(db.auctions[a].terms.reserve, Some(top)) == Some(false);
  }

  lemma CloseSold(db: Db, a: Id, s: Id, now: Time, hours: int, top: Bid)
    requires a in db.auctions && db.auctions[a].status != Closed && s !in db.sales && !HasSale(db, a)
    requires FindNextBid(BookOf(db.bids, a), []) == Some(top)
    requires db.auctions[a].terms.reserve.Some? ==> top.amount >= db.auctions[a].terms.reserve.value
    ensures var (db', outcome) := CloseAuction(db, a, s, now, hours);
            var verdict := if db.auctions[a].terms.reserve.None? then None else Some(true);
            && outcome == Ok && db'.sales == db.sales[s := FirstSale(a, db.auctions[a], top, now, hours)]
            && db'.auctions == db.auctions[a := db.auctions[a].(status := Closed, reserveMet := verdict)]
  {
    hide FindNextBid, HasSale, FirstSale, BookOf;
    assert ReserveVerdict(db.auctions[a].terms.reserve, Some(top)) != Some(false);
  }

  lemma CloseWithoutBidder(db: Db, a: Id, s: Id, now: Time, hours: int)
    requires a in db.auctions && db.auctions[a].status != Closed && GoodTerms(db.auctions[a].terms)
    requires FindNextBid(BookOf(db.bids, a), []).None?
    ensures var verdict := if db.auctions[a].terms.reserve.None? then None else Some(false);
            CloseAuction(db, a, s, now, hours) ==
            (db.(auctions := db.auctions[a := db.auctions[a].(status := Closed, reserveMet := verdict)]), Ok)
  {
    hide FindNextBid, HasSale, FirstSale, BookOf;
    var reserve := db.auctions[a].terms.reserve;
    assert ReserveVerdict(reserve, None) == if reserve.None? then None else Some(false);
  }

  lemma FirstSaleIs(a: Id, row: Auction, top: Bid, now: Time, hours: int)
    requires top.buyer.Some?
    ensures var sale := FirstSale(a, row, top, now, hours);
            && sale.auction == a && Some(sale.winner) == top.buyer && sale.seller == row.seller
            && sale.amount == top.amount && sale.status == SaleStatus.Pending && sale.dueAt == Some(now + hours * HOUR)
  {}

  ghost predicate IsLastRealBid(book: seq<Bid>, k: int) {
    && 0 <= k < |book| && book[k].buyer.Some?
    && forall i :: k < i < |book| ==> book[i].buyer.None?
  }

  ghost predicate MeetsReserve(reserve: Option<int>, b: Bid) {
    reserve.Some? ==> b.amount >= reserve.value
  }

  /** The bid that a close would sell to, if any. */
  ghost predicate Sells(book: seq<Bid>, reserve: Option<int>) {
    exists k :: IsLastRealBid(book, k) && MeetsReserve(reserve, book[k])
  }

  /**
    In a reachable book the close's query finds the last bid that still has a buyer, and nothing
    when there is none.
   */
  lemma QueryFindsLastRealBid(book: seq<Bid>) returns (k: nat)
    requires Rising(book)
    ensures FindNextBid(book, []).None? ==> forall l :: !IsLastRealBid(book, l)
    ensures FindNextBid(book, []).Some? ==>
              k < |book| && IsLastRealBid(book, k) && book[k] == FindNextBid(book, []).value
  {
    var top := FindNextBid(book, []);
    k := 0;
    if top.Some? {
      k :| 0 <= k < |book| && book[k] == top.value;
    } else {
      forall l ensures !IsLastRealBid(book, l) {
        if IsLastRealBid(book, l) { assert Eligible(book[l], []); }
      }
    }
  }

  lemma SellsAt(book: seq<Bid>, reserve: Option<int>, k: nat)
    requires IsLastRealBid(book, k)
    ensures Sells(book, reserve) <==> MeetsReserve(reserve, book[k])
    ensures forall l :: IsLastRealBid(book, l) ==> l == k
  {}

  lemma CloseOnTop(db: Db, a: Id, s: Id, now: Time, hours: int, top: Bid)
    requires a in db.auctions && db.auctions[a].status != Closed && s !in db.sales && !HasSale(db, a)
    requires FindNextBid(BookOf(db.bids, a), []) == Some(top)
    ensures var (db', outcome) := CloseAuction(db, a, s, now, hours);
            var reserve := db.auctions[a].terms.reserve;
            var verdict := if reserve.None? then None else Some(MeetsReserve(reserve, top));
            && outcome == Ok
            && db'.auctions == db.auctions[a := db.auctions[a].(status := Closed, reserveMet := verdict)]
            && db'.sales
                 == (if MeetsReserve(reserve, top) then db.sales[s := FirstSale(a, db.auctions[a], top, now, hours)]
                     else db.sales)
  {
    hide FindNextBid, HasSale, FirstSale, BookOf, CloseAuction;
    if MeetsReserve(db.auctions[a].terms.reserve, top) {
      CloseSold(db, a, s, now, hours, top);
    } else {
      CloseUnsold(db, a, s, now, hours, top);
    }
  }

  /**
    A close that went right: the auction is CLOSED with its verdict. A sale appears if and only if some
    bid still has a buyer and the last such bid meets the reserve; it is then that buyer's, at that
    bid's amount, and waits for payment.
   */
  ghost predicate ClosedRight(a: Id, row: Auction, book: seq<Bid>, s: Id, due: Time, sales: Sales, row': Auction,
                              sales': Sales) {
    && row' == row.(status := Closed, reserveMet := row'.reserveMet)
    && row'.reserveMet == (if row.terms.reserve.None? then None else Some(Sells(book, row.terms.reserve)))
    && (s in sales' <==> Sells(book, row.terms.reserve))
    && (s !in sales' ==> sales' == sales)
    && (s in sales' ==>
          && sales' == sales[s := sales'[s]] && sales'[s].auction == a && sales'[s].seller == row.seller
          && sales'[s].status == SaleStatus.Pending && sales'[s].dueAt == Some(due)
          && forall k :: IsLastRealBid(book, k) ==>
               Some(sales'[s].winner) == book[k].buyer && sales'[s].amount == book[k].amount)
  }

  /** What a close does to any auction that is not CLOSED, a CANCELLED one included. */
  lemma CloseSellsToLastBidder(db: Db, a: Id, s: Id, now: Time, hours: int)
    requires Reachable(db) && a in db.auctions && db.auctions[a].status != Closed && s !in db.sales
    ensures var (db', outcome) := CloseAuction(db, a, s, now, hours);
            && outcome == Ok && a in db.bids && a in db'.auctions
            && ClosedRight(a, db.auctions[a], db.bids[a], s, now + hours * HOUR, db.sales, db'.auctions[a], db'.sales)
  {
    hide Inv, Leads, CloseAuction, ClosedRight;
    Reached(db);
    ClosesRight(db, a, s, now, hours);
  }

  lemma ClosesRight(db: Db, a: Id, s: Id, now: Time, hours: int)
    requires Inv(db) && a in db.auctions && db.auctions[a].status != Closed && s !in db.sales
    ensures var (db', outcome) := CloseAuction(db, a, s, now, hours);
            && outcome == Ok && a in db.bids && a in db'.auctions
            && ClosedRight(a, db.auctions[a], db.bids[a], s, now + hours * HOUR, db.sales, db'.auctions[a], db'.sales)
  {
    hide Inv, CloseAuction, FindNextBid, HasSale, FirstSale, Sells, MeetsReserve, BookOk, IsLastRealBid, ClosedRight;
    StoredBook(db, a);
    NoSaleBeforeClose(db, a);
    var row, book := db.auctions[a], db.bids[a];
    BookRises(row, book, db.bidders[a]);
    var k := QueryFindsLastRealBid(book);
    if FindNextBid(book, []).None? {
      CloseWithoutBidder(db, a, s, now, hours);
      ClosedRightUnsold(a, row, book, s, now + hours * HOUR, db.sales);
    } else {
      CloseOnTop(db, a, s, now, hours, book[k]);
      ClosedRightOnTop(a, row, book, s, now, hours, db.sales, k);
    }
  }

  lemma ClosedRightUnsold(a: Id, row: Auction, book: seq<Bid>, s: Id, due: Time, sales: Sales)
    requires s !in sales && forall k :: !IsLastRealBid(book, k)
    ensures var verdict := if row.terms.reserve.None? then None else Some(false);
            ClosedRight(a, row, book, s, due, sales, row.(status := Closed, reserveMet := verdict), sales)
  {
    NothingToSell(book, row.terms.reserve);
  }

  lemma ClosedRightOnTop(a: Id, row: Auction, book: seq<Bid>, s: Id, now: Time, hours: int, sales: Sales, k: nat)
    requires s !in sales && k < |book| && IsLastRealBid(book, k)
    ensures var meets := MeetsReserve(row.terms.reserve, book[k]);
            var verdict := if row.terms.reserve.None? then None else Some(meets);
            var sales' := if meets then sales[s := FirstSale(a, row, book[k], now, hours)] else sales;
            ClosedRight(a, row, book, s, now + hours * HOUR, sales, row.(status := Closed, reserveMet := verdict),
                        sales')
  {
    hide FirstSale, Sells, MeetsReserve;
    SellsAt(book, row.terms.reserve, k);
    FirstSaleIs(a, row, book[k], now, hours);
  }

  lemma NothingToSell(book: seq<Bid>, reserve: Option<int>)
    requires forall k :: !IsLastRealBid(book, k)
    ensures !Sells(book, reserve)
  {}

  lemma BookRises(a: Auction, book: seq<Bid>, bidders: set<UserId>)
    requires BookOk(a, book, bidders)
    ensures Rising(book) && GoodTerms(a.terms)
  {}

  lemma NoSaleBeforeClose(db: Db, a: Id)
    requires Inv(db) && a in db.auctions && db.auctions[a].status != Closed
    ensures !HasSale(db, a)
  {
    hide ListingsOk, AuctionsOk, BooksOk, SalesOk, DisputesOk, ChargesOk, LedgerOk, BalancesOk, Conserved, RelistsOk;
    assert forall s :: s in db.sales ==> SaleKeyOk(db.auctions, db.sales[s]);
  }

  /** However often the close is delivered, and whatever happens in between, an auction has at most one sale. */
  lemma RepeatedCloseDoesNothing(db: Db, a: Id, db': Db, s: Id, now: Time, hours: int)
    requires Reachable(db) && Leads(db, db')
    requires a in db.auctions && db.auctions[a].status == Closed
    ensures && CloseAuction(db', a, s, now, hours) == (db', AlreadyClosed)
            && forall t, u :: t in db'.sales && u in db'.sales && db'.sales[t].auction == a == db'.sales[u].auction ==>
                 t == u
  {
    hide Inv;
    Reached(db);
    FrozenBook(db, a, db');
    Later(db, db');
    OneSalePerAuction(db', a);
  }

  lemma OneSalePerAuction(db: Db, a: Id)
    requires Inv(db)
    ensures forall t, u :: t in db.sales && u in db.sales && db.sales[t].auction == a == db.sales[u].auction ==> t == u
  {
    hide ListingsOk, AuctionsOk, BooksOk, SalesOk, DisputesOk, ChargesOk, LedgerOk, BalancesOk, Conserved, RelistsOk;
  }

  // ---- what a handler's answer tells --------------------------------------------------------------

  /** A paid sale always has an address, so a seller is never stopped for want of one. */
  lemma ShippingHasAddress(db: Db, s: Id, seller: UserId, now: Time)
    requires Inv(db)
    ensures MarkShipped(db, s, seller, now).1 != NoAddress
  {
    hide Inv;
    if s in db.sales { StoredColumns(db, s); }
  }

  /** The unique key on ledger entries never decides: a sale that can be confirmed has none. */
  lemma ConfirmingHasNoEntry(db: Db, s: Id, requireWinner: Option<UserId>)
    requires Inv(db)
    ensures ConfirmDelivery(db, s, requireWinner, false).1 != UniqueViolation
  {
    hide ListingsOk, AuctionsOk, SaleKeysOk, BooksOk, SalesOk, DisputesOk, ChargesOk, BalancesOk, Conserved, RelistsOk;
    assert forall i :: 0 <= i < |db.ledger| ==> EntryOk(db.sales, db.ledger[i]);
  }

  /** Nor does the one on disputes: a SHIPPED sale has none yet. */
  lemma DisputingHasNoDispute(db: Db, s: Id, buyer: UserId, d: Id, reason: string)
    requires Inv(db)
    ensures RaiseDispute(db, s, buyer, d, reason).1 == UniqueViolation ==> d in db.disputes
  {
    hide ListingsOk, AuctionsOk, SaleKeysOk, BooksOk, SalesOk, ChargesOk, LedgerOk, BalancesOk, Conserved, RelistsOk;
    assert forall e :: e in db.disputes ==> DisputeFits(db.disputes[e], db.sales[db.disputes[e].sale]);
  }

  /** A release's second transaction fails only for the payout's size. */
  lemma FinishPaysOrOverflows(db: Db, s: Id)
    requires Inv(db) && s in db.releasing
    ensures FinishRelease(db, s).1 in {Ok, OutOfRange}
  {
    hide Inv;
    ReleaseFindsDisputed(db, s);
  }

  lemma ApprovedHasAuction(db: Db, l: Id, read: Listing, a: Id, now: Time)
    requires Inv(db)
    ensures Approve(db, l, read, a, now).1 == Ok ==>
              exists b :: IsAuctionOf(Approve(db, l, read, a, now).0.auctions, b, l)
  {
    hide Inv, HasAuction, Approve;
    if Approve(db, l, read, a, now).1 == Ok {
      ApprovedTables(db, l, read, a, now);
      if HasAuction(db, l) {
        AuctionOfListing(db, l);
      } else {
        assert IsAuctionOf(Approve(db, l, read, a, now).0.auctions, a, l);
      }
    }
  }

  lemma OpenIsDisputed(db: Db, d: Id)
    requires Inv(db) && d in db.disputes
    ensures db.disputes[d].sale in db.sales
    ensures db.disputes[d].status == Open ==> db.sales[db.disputes[d].sale].status == Disputed
  {
    hide Inv;
    StoredDispute(db, d);
  }

  /** An offer goes to someone who never had it, at no higher price. */
  lemma OfferGoesDown(db: Db, s: Id, seller: UserId, now: Time, hours: int)
    requires Inv(db)
    ensures var (db', outcome) := OfferToNextBidder(db, s, seller, now, hours);
            outcome == Ok ==>
              && s in db.sales && s in db'.sales
              && db'.sales[s].winner !in OfferedTo(db.sales[s]) && db'.sales[s].amount <= db.sales[s].amount
  {
    hide Inv, FindNextBid;
    if OfferToNextBidder(db, s, seller, now, hours).1 == Ok {
      StoredSale(db, s);
      StoredBook(db, db.sales[s].auction);
      OfferLowersPrice(db, s, OfferToNextBidder(db, s, seller, now, hours).0.sales[s]);
    }
  }

  // ---- the sweeps ---------------------------------------------------------------------------

  /** The sweep's query and the rule checked again under the lock select the same rows at the same instant. */
  lemma QueryIsRule(db: Db, s: Id, now: Time, hours: int)
    ensures s in FindOverduePayments(db, now, hours)
       <==> s in db.sales && db.sales[s].status == SaleStatus.Pending && IsPaymentOverdue(db.sales[s], now, hours)
    ensures s in FindOverduePayments(db, now, hours) <==> VoidOverdue(db, s, now, hours).1 == Ok
  {}

  /** A buyer has the whole deadline they were given, whatever lists the sweep still holds from before the offer. */
  lemma SweepWaitsForOffer(db: Db, s: Id, seller: UserId, offered: Time, hours: int, db': Db, now: Time, hoursNow: int)
    requires Reachable(db)
    requires OfferToNextBidder(db, s, seller, offered, hours).1 == Ok
    requires var given := OfferToNextBidder(db, s, seller, offered, hours).0;
             && Leads(given, db')
             && s in given.sales && s in db'.sales && db'.sales[s].winner == given.sales[s].winner
             && VoidOverdue(db', s, now, hoursNow).1 == Ok
    ensures now > offered + hours * HOUR
  {
    hide Inv, AuctionsEvolve, DisputesEvolve, ListingsEvolve, OffersEvolve, StrandedStay;
    var given := OfferToNextBidder(db, s, seller, offered, hours).0;
    Reached(db);
    OfferKeeps(db, s, seller, offered, hours);
    Later(given, db');
    StoredWinners(db', s);
    assert SaleEvolves(given.sales[s], db'.sales[s]);
  }

  lemma StoredWinners(db: Db, s: Id)
    requires Inv(db) && s in db.sales
    ensures db.sales[s].winner !in db.sales[s].previousWinners
  {
    hide Inv;
    StoredSale(db, s);
  }

  /** Nothing is voided by the sweep before its own deadline, and every waiting sale has one. */
  lemma SweepNeverEarly(db: Db, s: Id, now: Time, hours: int)
    requires Reachable(db)
    requires VoidOverdue(db, s, now, hours).1 == Ok
    ensures db.sales[s].dueAt.Some? && db.sales[s].dueAt.value < now
  {
    hide Inv;
    Reached(db);
    StoredColumns(db, s);
  }

  /** A buyer has the whole review window from the shipment: no sweep lists it sooner. */
  lemma ReviewWindowFromShipment(db: Db, s: Id, seller: UserId, shipped: Time, db': Db, read: Time, hours: int)
    requires Reachable(db) && MarkShipped(db, s, seller, shipped).1 == Ok
    requires Leads(MarkShipped(db, s, seller, shipped).0, db')
    requires s in FindTimedOutShipments(db', read, hours)
    ensures read > shipped + hours * HOUR
  {
    hide Inv, Leads, AuctionsEvolve, DisputesEvolve, ListingsEvolve, OffersEvolve, StrandedStay;
    Reached(db);
    ShipKeeps(db, s, seller, shipped);
    var mid := MarkShipped(db, s, seller, shipped).0;
    Later(mid, db');
    assert SaleEvolves(mid.sales[s], db'.sales[s]);
  }

  /** An auto-confirm from an old list touches only a sale still SHIPPED since the very shipment that was listed. */
  lemma StaleAutoConfirm(db: Db, read: Time, hours: int, s: Id, db': Db)
    requires Reachable(db) && Leads(db, db')
    requires s in FindTimedOutShipments(db, read, hours)
    requires ConfirmDelivery(db', s, None, false).1 == Ok
    ensures var listed := db.sales[s];
            && s in db'.sales && db'.sales[s].status == Shipped
            && db'.sales[s].shippedAt == listed.shippedAt && listed.shippedAt.Some?
            && listed.shippedAt.value < read - hours * HOUR
            && db'.sales[s].winner == listed.winner && db'.sales[s].amount == listed.amount
  {
    hide Inv, AuctionsEvolve, DisputesEvolve, ListingsEvolve, OffersEvolve, StrandedStay;
    Reached(db);
    Later(db, db');
    assert SaleEvolves(db.sales[s], db'.sales[s]);
  }
}
