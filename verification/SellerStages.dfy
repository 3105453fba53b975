/**
  The seller's inventory rules: the stage of an item, the same rules as a database filter, the tabs,
  and what each stage offers (src/modules/seller-items/seller-item-stage.ts).
 */
module SellerStages {
  import opened Options
  import opened Market

  datatype Stage =
    | UnderReview | RejectedItem | RemovedItem | Live | AwaitingPayment | NeedsShipping | InTransit
    | DeliveredItem | DisputeAwaitingResponse | DisputeAnswered | RefundedItem | PaymentDefaulted
    | Relisted | EndedReserveNotMet | EndedNoBids | CancelledItem

  datatype Tab = ActionTab | ReviewTab | LiveTab | SoldTab | UnsoldTab | ClosedTab

  datatype Action =
    | WithdrawListing | EditResubmit | CancelTheAuction | ShipItem | AnswerDispute | OfferNextBidder
    | RelistItem | ListAgain | ViewInvoice

  const STAGES: seq<Stage> := [
    UnderReview, RejectedItem, RemovedItem, Live, AwaitingPayment, NeedsShipping, InTransit,
    DeliveredItem, DisputeAwaitingResponse, DisputeAnswered, RefundedItem, PaymentDefaulted,
    Relisted, EndedReserveNotMet, EndedNoBids, CancelledItem]

  const TABS: seq<Tab> := [ActionTab, ReviewTab, LiveTab, SoldTab, UnsoldTab, ClosedTab]

  function StageTab(stage: Stage): Tab {
    match stage
    case UnderReview => ReviewTab
    case RejectedItem => ClosedTab
    case RemovedItem => ClosedTab
    case Live => LiveTab
    case AwaitingPayment => SoldTab
    case NeedsShipping => ActionTab
    case InTransit => SoldTab
    case DeliveredItem => SoldTab
    case DisputeAwaitingResponse => ActionTab
    case DisputeAnswered => SoldTab
    case RefundedItem => SoldTab
    case PaymentDefaulted => ActionTab
    case Relisted => UnsoldTab
    case EndedReserveNotMet => UnsoldTab
    case EndedNoBids => UnsoldTab
    case CancelledItem => UnsoldTab
  }

  // ---- the rules on fetched rows -------------------------------------------------------------

  datatype ItemFacts = ItemFacts(
    listingStatus: ListingStatus, auctionStatus: Option<AuctionStatus>, reserveMet: Option<bool>, bidCount: Option<int>,
    saleStatus: Option<SaleStatus>, disputeResponded: bool, relisted: bool, hasNextBidder: bool)

  function BidCountOf(f: ItemFacts): int {
    if f.bidCount.Some? then f.bidCount.value else 0
  }

  function DeriveStage(f: ItemFacts): Stage {
    match f.saleStatus
    case Some(Pending) => AwaitingPayment
    case Some(Failed) => AwaitingPayment
    case Some(Completed) => NeedsShipping
    case Some(Shipped) => InTransit
    case Some(Delivered) => DeliveredItem
    case Some(Refunded) => RefundedItem
    case Some(Disputed) => if f.disputeResponded then DisputeAnswered else DisputeAwaitingResponse
    case Some(Voided) =>
      if f.relisted then Relisted
      else if f.listingStatus == Removed then RemovedItem
      else PaymentDefaulted
    case None => StageWithoutSale(f)
  }

  function StageWithoutSale(f: ItemFacts): Stage {
    match f.listingStatus
    case Rejected => RejectedItem
    case Removed => RemovedItem
    case Pending => UnderReview
    case Draft => UnderReview
    case Approved =>
      match f.auctionStatus
      case Some(Active) => Live
      case Some(Cancelled) => CancelledItem
      case Some(Closed) => if f.reserveMet == Some(false) && BidCountOf(f) > 0 then EndedReserveNotMet else EndedNoBids
      case None => UnderReview
  }

  function AllowedActions(stage: Stage, f: ItemFacts): seq<Action> {
    match stage
    case UnderReview => if f.listingStatus == ListingStatus.Pending then [WithdrawListing] else []
    case RejectedItem => [EditResubmit]
    case Live => if BidCountOf(f) == 0 then [CancelTheAuction] else []
    case NeedsShipping => [ShipItem, ViewInvoice]
    case DisputeAwaitingResponse => [AnswerDispute, ViewInvoice]
    case PaymentDefaulted => if f.hasNextBidder then [RelistItem, OfferNextBidder] else [RelistItem]
    case EndedReserveNotMet => [ListAgain]
    case EndedNoBids => [ListAgain]
    case InTransit => [ViewInvoice]
    case DeliveredItem => [ViewInvoice]
    case DisputeAnswered => [ViewInvoice]
    case RefundedItem => [ViewInvoice]
    case RemovedItem => []
    case AwaitingPayment => []
    case Relisted => []
    case CancelledItem => []
  }

  // ---- the rules as a filter, in SQL's three-valued logic -------------------------------------

  datatype Tri = True | False | Unknown

  function And3(x: Tri, y: Tri): Tri {
    if x == False || y == False then False else if x == True && y == True then True else Unknown
  }

  function Or3(x: Tri, y: Tri): Tri {
    if x == True || y == True then True else if x == False && y == False then False else Unknown
  }

  function Not3(x: Tri): Tri {
    match x case True => False case False => True case Unknown => Unknown
  }

  function Truth(b: bool): Tri {
    if b then True else False
  }

  /** A nullable column compared with a value: NULL compares as unknown. */
  function Equals3<T(==)>(column: Option<T>, value: T): Tri {
    match column case None => Unknown case Some(x) => Truth(x == value)
  }

  /** The rows behind one item: at most one auction, at most one sale on it, at most one dispute on that. */
  datatype DisputeRow = DisputeRow(sellerResponse: Option<string>)
  datatype SaleRow = SaleRow(status: SaleStatus, dispute: Option<DisputeRow>)
  datatype AuctionRow = AuctionRow(status: AuctionStatus, reserveMet: Option<bool>, bidCount: int,
                                   sale: Option<SaleRow>)
  datatype ItemRow = ItemRow(status: ListingStatus, auction: Option<AuctionRow>, relistedAs: Option<nat>)

  /** `is` and `some`: EXISTS over the related rows, true only where the condition is true. */
  function Exists3<T>(row: Option<T>, condition: T -> Tri): Tri {
    Truth(row.Some? && condition(row.value) == True)
  }

  type SaleWhere = SaleRow -> Tri
  type AuctionWhere = AuctionRow -> Tri
  type ItemWhere = ItemRow -> Tri

  const ANY_SALE: SaleWhere := (s: SaleRow) => True

  function WithSale(where_: SaleWhere): ItemWhere {
    (row: ItemRow) => Exists3(row.auction, (a: AuctionRow) => Exists3(a.sale, where_))
  }

  function SaleIn(statuses: set<SaleStatus>, extra: SaleWhere): ItemWhere {
    WithSale((s: SaleRow) => And3(Truth(s.status in statuses), extra(s)))
  }

  const DISPUTE_ANSWERED: SaleWhere :=
    (s: SaleRow) => Exists3(s.dispute, (d: DisputeRow) => Truth(d.sellerResponse.Some?))

  const DISPUTE_UNANSWERED: SaleWhere := (s: SaleRow) => Not3(DISPUTE_ANSWERED(s))

  function NoSale(row: ItemRow): Tri {
    Or3(Truth(row.auction.None?), Exists3(row.auction, (a: AuctionRow) => Truth(a.sale.None?)))
  }

  function IsRelisted(row: ItemRow): Tri {
    Truth(row.relistedAs.Some?)
  }

  function NotRelisted(row: ItemRow): Tri {
    Truth(row.relistedAs.None?)
  }

  function ApprovedWithAuction(where_: AuctionWhere): ItemWhere {
    (row: ItemRow) => And3(Truth(row.status == Approved), Exists3(row.auction, where_))
  }

  const CLOSED_UNDER_RESERVE: AuctionWhere := (a: AuctionRow) =>
    And3(Truth(a.status == Closed), And3(Equals3(a.reserveMet, false), Truth(a.bidCount > 0)))

  /** The complement spelled out: NOT (reserveMet = false) would be unknown for a NULL. */
  const CLOSED_OTHERWISE: AuctionWhere := (a: AuctionRow) =>
    And3(Truth(a.status == Closed),
         Or3(Truth(a.reserveMet.None?), Or3(Equals3(a.reserveMet, true), Truth(a.bidCount <= 0))))

  /** One fragment per stage, transcribed from the filter table. */
  function StageWhere(stage: Stage, row: ItemRow): Tri {
    match stage
    case AwaitingPayment => SaleIn({SaleStatus.Pending, Failed}, ANY_SALE)(row)
    case NeedsShipping => SaleIn({Completed}, ANY_SALE)(row)
    case InTransit => SaleIn({Shipped}, ANY_SALE)(row)
    case DeliveredItem => SaleIn({Delivered}, ANY_SALE)(row)
    case RefundedItem => SaleIn({Refunded}, ANY_SALE)(row)
    case DisputeAwaitingResponse => SaleIn({Disputed}, DISPUTE_UNANSWERED)(row)
    case DisputeAnswered => SaleIn({Disputed}, DISPUTE_ANSWERED)(row)
    case Relisted => And3(SaleIn({Voided}, ANY_SALE)(row), IsRelisted(row))
    case PaymentDefaulted =>
      And3(SaleIn({Voided}, ANY_SALE)(row), And3(NotRelisted(row), Not3(Truth(row.status == Removed))))
    case RemovedItem =>
      Or3(And3(NoSale(row), Truth(row.status == Removed)),
          And3(SaleIn({Voided}, ANY_SALE)(row), And3(NotRelisted(row), Truth(row.status == Removed))))
    case RejectedItem => And3(NoSale(row), Truth(row.status == Rejected))
    case UnderReview =>
      And3(NoSale(row), Or3(Truth(row.status in {ListingStatus.Pending, Draft}),
                            And3(Truth(row.status == Approved), Truth(row.auction.None?))))
    case Live => And3(NoSale(row), ApprovedWithAuction((a: AuctionRow) => Truth(a.status == Active))(row))
    case CancelledItem => And3(NoSale(row), ApprovedWithAuction((a: AuctionRow) => Truth(a.status == Cancelled))(row))
    case EndedReserveNotMet =>
      And3(NoSale(row), ApprovedWithAuction(CLOSED_UNDER_RESERVE)(row))
    case EndedNoBids =>
      And3(NoSale(row), ApprovedWithAuction(CLOSED_OTHERWISE)(row))
  }

  function FactsOf(row: ItemRow, hasNextBidder: bool): ItemFacts {
    ItemFacts(
      row.status,
      if row.auction.Some? then Some(row.auction.value.status) else None,
      if row.auction.Some? then row.auction.value.reserveMet else None,
      if row.auction.Some? then Some(row.auction.value.bidCount) else None,
      if row.auction.Some? && row.auction.value.sale.Some? then Some(row.auction.value.sale.value.status) else None,
      row.auction.Some? && row.auction.value.sale.Some? && row.auction.value.sale.value.dispute.Some?
        && row.auction.value.sale.value.dispute.value.sellerResponse.Some?,
      row.relistedAs.Some?,
      hasNextBidder)
  }

  // ---- the two halves agree -----------------------------------------------------------------

  /** A row satisfies exactly the fragment of the stage the rules derive for it. */
  lemma WhereAgreesWithStage(row: ItemRow, stage: Stage, next: bool)
    ensures StageWhere(stage, row) == True <==> DeriveStage(FactsOf(row, next)) == stage
  {
    if row.auction.Some? && row.auction.value.sale.Some? {
      WhereWithSale(row, stage, next);
    } else {
      WhereWithoutSale(row, stage, next);
    }
  }

  lemma WhereWithSale(row: ItemRow, stage: Stage, next: bool)
    requires row.auction.Some? && row.auction.value.sale.Some?
    ensures StageWhere(stage, row) == True <==> DeriveStage(FactsOf(row, next)) == stage
  {
    assert NoSale(row) == False;
    var sale := row.auction.value.sale.value;
    assert DISPUTE_ANSWERED(sale) == Truth(FactsOf(row, next).disputeResponded);
    assert DISPUTE_UNANSWERED(sale) == Not3(DISPUTE_ANSWERED(sale));
    match stage {
      case AwaitingPayment =>
          assert SaleIn({SaleStatus.Pending, Failed}, ANY_SALE)(row)
              == Truth(sale.status in {SaleStatus.Pending, Failed});
      case NeedsShipping => assert SaleIn({Completed}, ANY_SALE)(row) == Truth(sale.status == Completed);
      case InTransit => assert SaleIn({Shipped}, ANY_SALE)(row) == Truth(sale.status == Shipped);
      case DeliveredItem => assert SaleIn({Delivered}, ANY_SALE)(row) == Truth(sale.status == Delivered);
      case RefundedItem => assert SaleIn({Refunded}, ANY_SALE)(row) == Truth(sale.status == Refunded);
      case DisputeAwaitingResponse =>
      case DisputeAnswered =>
      case _ => assert SaleIn({Voided}, ANY_SALE)(row) == Truth(sale.status == Voided);
    }
  }

  lemma WhereWithoutSale(row: ItemRow, stage: Stage, next: bool)
    requires row.auction.None? || row.auction.value.sale.None?
    ensures StageWhere(stage, row) == True <==> DeriveStage(FactsOf(row, next)) == stage
  {
    assert NoSale(row) == True;
    forall statuses, extra ensures SaleIn(statuses, extra)(row) == False {}
    match stage {
      case Live =>
      case CancelledItem =>
      case EndedReserveNotMet =>
      case EndedNoBids =>
        if row.auction.Some? {
          var a := row.auction.value;
          if a.reserveMet.Some? && !a.reserveMet.value {
            assert a.reserveMet == Some(false);
          } else if a.reserveMet.Some? {
            assert a.reserveMet == Some(true);
          }
          assert CLOSED_OTHERWISE(a) == True
              <==> a.status == Closed && !(a.reserveMet == Some(false) && a.bidCount > 0);
        }
      case _ =>
    }
  }

  /** Read naively, as NOT (reserveMet = false), the last filter loses every auction without a reserve. */
  lemma NaiveComplementLosesNoReserve(a: AuctionRow)
    requires a.status == Closed && a.reserveMet.None?
    ensures Not3(Equals3(a.reserveMet, false)) != True && CLOSED_OTHERWISE(a) == True
  {}

  // ---- what a stage and a tab tell ------------------------------------------------------------

  /** The stage shown, read back: what it says about the rows behind the item. */
  lemma StageTells(row: ItemRow, next: bool)
    ensures var sale := FactsOf(row, next).saleStatus;
            match DeriveStage(FactsOf(row, next))
            case AwaitingPayment => sale == Some(SaleStatus.Pending) || sale == Some(Failed)
            case NeedsShipping => sale == Some(Completed)
            case InTransit => sale == Some(Shipped)
            case DeliveredItem => sale == Some(Delivered)
            case RefundedItem => sale == Some(Refunded)
            case DisputeAwaitingResponse => sale == Some(Disputed) && !FactsOf(row, next).disputeResponded
            case DisputeAnswered => sale == Some(Disputed) && FactsOf(row, next).disputeResponded
            case PaymentDefaulted => sale == Some(Voided) && row.relistedAs.None? && row.status != Removed
            case Relisted => sale == Some(Voided) && row.relistedAs.Some?
            case RemovedItem => row.status == Removed && (sale.None? || (sale == Some(Voided) && row.relistedAs.None?))
            case RejectedItem => sale.None? && row.status == Rejected
            case UnderReview => sale.None? && (row.status in {ListingStatus.Pending, Draft} || row.auction.None?)
            case Live => sale.None? && row.auction.Some? && row.auction.value.status == Active
            case CancelledItem => sale.None? && row.auction.Some? && row.auction.value.status == Cancelled
            case EndedReserveNotMet =>
              && sale.None? && row.auction.Some? && row.auction.value.status == Closed
              && row.auction.value.reserveMet == Some(false) && row.auction.value.bidCount > 0
            case EndedNoBids =>
              && sale.None? && row.auction.Some? && row.auction.value.status == Closed
              && !(row.auction.value.reserveMet == Some(false) && row.auction.value.bidCount > 0)
  {}

  /** The six tabs by what became of the item. */
  lemma TabTells(row: ItemRow, next: bool)
    ensures var sale := FactsOf(row, next).saleStatus;
            match StageTab(DeriveStage(FactsOf(row, next)))
            case ActionTab =>
              || sale == Some(Completed) || (sale == Some(Disputed) && !FactsOf(row, next).disputeResponded)
              || (sale == Some(Voided) && row.relistedAs.None? && row.status != Removed)
            case SoldTab =>
              || sale in {Some(SaleStatus.Pending), Some(Failed), Some(Shipped), Some(Delivered), Some(Refunded)}
              || (sale == Some(Disputed) && FactsOf(row, next).disputeResponded)
            case LiveTab => sale.None? && row.status == Approved && FactsOf(row, next).auctionStatus == Some(Active)
            case ReviewTab =>
              sale.None? && (row.status in {ListingStatus.Pending, Draft}
                             || (row.status == Approved && row.auction.None?))
            case UnsoldTab =>
              || (sale == Some(Voided) && row.relistedAs.Some?)
              || (sale.None? && row.status == Approved
                  && FactsOf(row, next).auctionStatus in {Some(Cancelled), Some(Closed)})
            case ClosedTab =>
              || (sale.None? && row.status in {Rejected, Removed})
              || (sale == Some(Voided) && row.relistedAs.None? && row.status == Removed)
  {}

  // ---- tabs and their badges ----------------------------------------------------------------

  /** OR over the fragments of the tab's stages. */
  function AnyStageOf(stages: seq<Stage>, tab: Tab, row: ItemRow): Tri {
    if stages == [] then False
    else if StageTab(stages[0]) == tab then Or3(StageWhere(stages[0], row), AnyStageOf(stages[1..], tab, row))
    else AnyStageOf(stages[1..], tab, row)
  }

  function TabWhere(tab: Tab, row: ItemRow): Tri {
    AnyStageOf(STAGES, tab, row)
  }

  lemma EveryStageListed(stage: Stage)
    ensures stage in STAGES
  {
    assert STAGES[0] == UnderReview && STAGES[1] == RejectedItem && STAGES[2] == RemovedItem && STAGES[3] == Live;
    assert STAGES[4] == AwaitingPayment && STAGES[5] == NeedsShipping && STAGES[6] == InTransit
        && STAGES[7] == DeliveredItem;
    assert STAGES[8] == DisputeAwaitingResponse && STAGES[9] == DisputeAnswered && STAGES[10] == RefundedItem;
    assert STAGES[11] == PaymentDefaulted && STAGES[12] == Relisted && STAGES[13] == EndedReserveNotMet;
    assert STAGES[14] == EndedNoBids && STAGES[15] == CancelledItem;
  }

  lemma {:induction false} AnyStageFinds(stages: seq<Stage>, tab: Tab, row: ItemRow)
    ensures AnyStageOf(stages, tab, row) == True
       <==> exists i :: 0 <= i < |stages| && StageTab(stages[i]) == tab && StageWhere(stages[i], row) == True
  {
    hide StageWhere, StageTab;
    if stages != [] {
      AnyStageFinds(stages[1..], tab, row);
      if i :| 0 <= i < |stages| && StageTab(stages[i]) == tab && StageWhere(stages[i], row) == True {
        assert i > 0 ==> stages[1..][i - 1] == stages[i];
      }
      if i :| 0 <= i < |stages[1..]| && StageTab(stages[1..][i]) == tab && StageWhere(stages[1..][i], row) == True {
        assert stages[i + 1] == stages[1..][i];
      }
    }
  }

  /** The six tabs partition an inventory: an item is in the tab of its stage and in no other. */
  lemma TabsPartition(row: ItemRow, tab: Tab, next: bool)
    ensures TabWhere(tab, row) == True <==> StageTab(DeriveStage(FactsOf(row, next))) == tab
  {
    hide StageWhere, DeriveStage, StageTab, FactsOf;
    var stage := DeriveStage(FactsOf(row, next));
    AnyStageFinds(STAGES, tab, row);
    EveryStageListed(stage);
    forall s ensures StageWhere(s, row) == True <==> s == stage {
      WhereAgreesWithStage(row, s, next);
    }
  }

  function CountOf(rows: seq<ItemRow>, tab: Tab): nat {
    if rows == [] then 0 else CountOf(rows[1..], tab) + if TabWhere(tab, rows[0]) == True then 1 else 0
  }

  /** The badges add up to the inventory: no item is missing and none is counted twice. */
  lemma {:induction false} BadgesCoverInventory(rows: seq<ItemRow>)
    ensures CountOf(rows, ActionTab) + CountOf(rows, ReviewTab) + CountOf(rows, LiveTab)
          + CountOf(rows, SoldTab) + CountOf(rows, UnsoldTab) + CountOf(rows, ClosedTab) == |rows|
  {
    hide TabWhere, DeriveStage, FactsOf;
    if rows != [] {
      BadgesCoverInventory(rows[1..]);
      forall tab ensures TabWhere(tab, rows[0]) == True <==> StageTab(DeriveStage(FactsOf(rows[0], false))) == tab {
        TabsPartition(rows[0], tab, false);
      }
    }
  }
}
