/**
  Bids, and the rule that picks the bid an unpaid item is offered to next: the one-auction query
  and the batched preview of it (src/services/auction-control.service.ts).
 */
module Bidding {
  import opened Options

  type Id = nat
  type UserId = nat
  /** Milliseconds. */
  type Time = int

  /** `buyer` is None once the account behind the bid is gone. */
  datatype Bid = Bid(id: Id, buyer: Option<UserId>, amount: int, createdAt: Time)

  predicate Eligible(b: Bid, exclude: seq<UserId>) {
    b.buyer.Some? && b.buyer.value !in exclude
  }

  /** The query's order: highest amount, then earliest, then smallest id. */
  predicate Precedes(x: Bid, y: Bid) {
    || x.amount > y.amount
    || (x.amount == y.amount && x.createdAt < y.createdAt)
    || (x.amount == y.amount && x.createdAt == y.createdAt && x.id < y.id)
  }

  function FindNextBid(book: seq<Bid>, exclude: seq<UserId>): (r: Option<Bid>)
    ensures r.None? <==> forall i :: 0 <= i < |book| ==> !Eligible(book[i], exclude)
    ensures r.Some? ==> r.value in book && Eligible(r.value, exclude)
    ensures r.Some? ==> forall i :: 0 <= i < |book| && Eligible(book[i], exclude) ==> !Precedes(book[i], r.value)
  {
    if book == [] then None else
      var rest := FindNextBid(book[..|book| - 1], exclude);
      var b := book[|book| - 1];
      if !Eligible(b, exclude) then rest
      else if rest.None? || Precedes(b, rest.value) then Some(b)
      else rest
  }

  /** The bid found is a real, not excluded buyer's; of all such bids the highest, then the earliest, then by id. */
  lemma FirstAmongEquals(book: seq<Bid>, exclude: seq<UserId>, i: nat)
    requires FindNextBid(book, exclude).Some? && i < |book|
    ensures var b := FindNextBid(book, exclude).value;
            && b.buyer.Some? && b.buyer.value !in exclude
            && (book[i].buyer.Some? && book[i].buyer.value !in exclude ==>
                  && book[i].amount <= b.amount
                  && (book[i].amount == b.amount ==>
                        b.createdAt < book[i].createdAt || (b.createdAt == book[i].createdAt && b.id <= book[i].id)))
  {
    assert Eligible(book[i], exclude) ==> !Precedes(book[i], FindNextBid(book, exclude).value);
  }

  /** Bids on one auction rise strictly: what the bid route's floor gives every reachable book. */
  predicate Rising(book: seq<Bid>) {
    forall i, j :: 0 <= i < j < |book| ==> book[i].amount < book[j].amount
  }

  /** In a rising book the three-key choice is simply the last eligible bid. */
  lemma NextBidIsLastEligible(book: seq<Bid>, exclude: seq<UserId>, k: nat)
    requires Rising(book) && k < |book|
    requires Eligible(book[k], exclude)
    requires forall i :: k < i < |book| ==> !Eligible(book[i], exclude)
    ensures FindNextBid(book, exclude) == Some(book[k])
  {
    var r := FindNextBid(book, exclude);
    assert !Precedes(book[k], r.value);
  }

  /** Taking buyers away (and nothing else) never makes an ineligible bid eligible. */
  lemma ExcludingMoreNeverRaises(book: seq<Bid>, exclude: seq<UserId>, more: seq<UserId>)
    requires forall u :: u in exclude ==> u in more
    requires FindNextBid(book, more).Some?
    ensures FindNextBid(book, exclude).Some?
    ensures FindNextBid(book, more).value.amount <= FindNextBid(book, exclude).value.amount
  {
    var m := FindNextBid(book, more).value;
    var i :| 0 <= i < |book| && book[i] == m;
    assert Eligible(book[i], exclude);
  }

  // ---- the batched preview ------------------------------------------------------------------

  /** SQL `max(amount)` over the bids with a real buyer that is not excluded; None is NULL. */
  function MaxAmount(book: seq<Bid>, exclude: seq<UserId>): Option<int> {
    if book == [] then None else
      var rest := MaxAmount(book[..|book| - 1], exclude);
      var b := book[|book| - 1];
      if b.buyer.None? || b.buyer.value in exclude then rest
      else if rest.Some? && rest.value > b.amount then rest
      else Some(b.amount)
  }

  lemma {:induction false} MaxAmountIsNextBid(book: seq<Bid>, exclude: seq<UserId>)
    ensures MaxAmount(book, exclude)
         == match FindNextBid(book, exclude) { case None => None case Some(b) => Some(b.amount) }
  {
    if book != [] {
      MaxAmountIsNextBid(book[..|book| - 1], exclude);
    }
  }

  datatype OfferQuery = OfferQuery(auction: Id, exclude: seq<UserId>)

  function BookOf(books: map<Id, seq<Bid>>, auction: Id): seq<Bid> {
    if auction in books then books[auction] else []
  }

  /** One entry per sale that somebody could be offered; a later entry for a key replaces an earlier one. */
  function FindNextBidAmounts(books: map<Id, seq<Bid>>, sales: seq<OfferQuery>): map<Id, int> {
    if sales == [] then map[] else
      var last := sales[|sales| - 1];
      var entries := FindNextBidAmounts(books, sales[..|sales| - 1]);
      match MaxAmount(BookOf(books, last.auction), last.exclude)
      case None => entries
      case Some(amount) => entries[last.auction := amount]
  }

  predicate DistinctAuctions(sales: seq<OfferQuery>) {
    forall i, j :: 0 <= i < j < |sales| ==> sales[i].auction != sales[j].auction
  }

  /** The batch has no key that was not asked about. */
  lemma {:induction false} BatchKeys(books: map<Id, seq<Bid>>, sales: seq<OfferQuery>)
    ensures forall a :: a in FindNextBidAmounts(books, sales) ==> exists i :: 0 <= i < |sales| && sales[i].auction == a
  {
    if sales != [] {
      var init := sales[..|sales| - 1];
      BatchKeys(books, init);
      forall a | a in FindNextBidAmounts(books, sales)
        ensures exists i :: 0 <= i < |sales| && sales[i].auction == a
      {
        if a in FindNextBidAmounts(books, init) {
          var i :| 0 <= i < |init| && init[i].auction == a;
          assert sales[i].auction == a;
        } else {
          assert sales[|sales| - 1].auction == a;
        }
      }
    }
  }

  /** The preview and the offer agree: an entry exactly where the offer finds a bid, and its amount. */
  lemma {:induction false} BatchAgreesWithNextBid(books: map<Id, seq<Bid>>, sales: seq<OfferQuery>, k: nat)
    requires DistinctAuctions(sales) && k < |sales|
    ensures var found := FindNextBid(BookOf(books, sales[k].auction), sales[k].exclude);
            var batch := FindNextBidAmounts(books, sales);
            && (sales[k].auction in batch <==> found.Some?)
            && (found.Some? ==> batch[sales[k].auction] == found.value.amount)
  {
    var init := sales[..|sales| - 1];
    MaxAmountIsNextBid(BookOf(books, sales[k].auction), sales[k].exclude);
    if k < |init| {
      BatchAgreesWithNextBid(books, init, k);
    } else {
      BatchKeys(books, init);
    }
  }
}
