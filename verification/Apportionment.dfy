/**
  The category percentages of the admin panel (src/modules/admin/admin.routes.ts): every share is
  rounded down, and the points left over go to the largest remainders. Shares are exact fractions
  with denominator `total` here.
 */
module Apportionment {
  function Sum(s: seq<int>): int {
    if s == [] then 0 else Sum(s[..|s| - 1]) + s[|s| - 1]
  }

  lemma {:induction false} SumAt(s: seq<int>, i: nat, v: int)
    requires i < |s|
    ensures Sum(s[i := v]) == Sum(s) - s[i] + v
  {
    var init := s[..|s| - 1];
    if i < |s| - 1 {
      SumAt(init, i, v);
      assert s[i := v][..|s| - 1] == init[i := v];
    } else {
      assert s[i := v][..|s| - 1] == init;
    }
  }

  function Floor(count: nat, total: int): nat {
    if total > 0 then count * 100 / total else 0
  }

  /** The numerator, over `total`, of the fractional part of a share. */
  function Remainder(count: nat, total: int): nat {
    if total > 0 then count * 100 % total else 0
  }

  function Floors(counts: seq<nat>): seq<int> {
    seq(|counts|, i requires 0 <= i < |counts| => Floor(counts[i], Sum(counts)))
  }

  function Remainders(counts: seq<nat>): seq<int> {
    seq(|counts|, i requires 0 <= i < |counts| => Remainder(counts[i], Sum(counts)))
  }

  function Leftover(counts: seq<nat>): int {
    (if Sum(counts) > 0 then 100 else 0) - Sum(Floors(counts))
  }

  // ---- the order in which leftover points are handed out ----------------------------------------

  /** A stable descending sort: larger remainder first, and the earlier of two equal ones. */
  predicate Goes(rems: seq<int>, i: nat, j: nat)
    requires i < |rems| && j < |rems|
  {
    rems[i] > rems[j] || (rems[i] == rems[j] && i < j)
  }

  ghost predicate IsOrder(rems: seq<int>, order: seq<nat>, n: nat)
    requires n <= |rems|
  {
    && |order| == n
    && (forall k :: 0 <= k < n ==> order[k] < n)
    && (forall i :: 0 <= i < n ==> i in order)
    && (forall k, l :: 0 <= k < l < n ==> Goes(rems, order[k], order[l]))
  }

  /** Where index x goes among the ones sorted so far. */
  function Position(rems: seq<int>, order: seq<nat>, x: nat): (p: nat)
    requires x < |rems| && forall k :: 0 <= k < |order| ==> order[k] < |rems|
    ensures p <= |order|
    ensures p > 0 ==> Goes(rems, order[p - 1], x)
    ensures forall k :: p <= k < |order| ==> !Goes(rems, order[k], x)
  {
    if order == [] then 0
    else if Goes(rems, order[|order| - 1], x) then |order|
    else Position(rems, order[..|order| - 1], x)
  }

  method {:induction false} SortByRemainder(rems: seq<int>) returns (order: seq<nat>)
    ensures IsOrder(rems, order, |rems|)
  {
    order := [];
    for n := 0 to |rems|
      invariant IsOrder(rems, order, n)
    {
      var p := Position(rems, order, n);
      InsertionKeepsOrder(rems, order, n, p);
      order := order[..p] + [n] + order[p..];
    }
  }

  lemma GoesIsAnOrder(rems: seq<int>, i: nat, j: nat, k: nat)
    requires i < |rems| && j < |rems| && k < |rems|
    ensures Goes(rems, i, j) && Goes(rems, j, k) ==> Goes(rems, i, k)
    ensures i < j && !Goes(rems, i, j) ==> Goes(rems, j, i)
  {}

  lemma InsertionKeepsMembers(n: nat, order: seq<nat>, p: nat)
    requires p <= |order| == n && forall i :: 0 <= i < n ==> i in order
    ensures forall i :: 0 <= i < n + 1 ==> i in order[..p] + [n] + order[p..]
  {
    assert order == order[..p] + order[p..];
    forall i | 0 <= i < n + 1 ensures i in order[..p] + [n] + order[p..] {
      assert i < n ==> i in order;
    }
  }

  lemma OrderInRange(rems: seq<int>, order: seq<nat>)
    requires IsOrder(rems, order, |rems|)
    ensures |order| == |rems| && forall k :: 0 <= k < |order| ==> order[k] < |rems|
  {}

  lemma InsertionKeepsOrder(rems: seq<int>, order: seq<nat>, n: nat, p: nat)
    requires n < |rems| && IsOrder(rems, order, n) && p == Position(rems, order, n)
    ensures IsOrder(rems, order[..p] + [n] + order[p..], n + 1)
  {
    hide Goes, Position;
    var order' := order[..p] + [n] + order[p..];
    InsertionKeepsMembers(n, order, p);
    forall k, l | 0 <= k < l < n + 1 ensures Goes(rems, order'[k], order'[l]) {
      InsertedPair(rems, order, n, p, k, l);
    }
  }

  lemma InsertedPair(rems: seq<int>, order: seq<nat>, n: nat, p: nat, k: nat, l: nat)
    requires n < |rems| && IsOrder(rems, order, n) && p == Position(rems, order, n) && k < l <= n
    ensures var order' := order[..p] + [n] + order[p..];
            order'[k] < |rems| && order'[l] < |rems| && Goes(rems, order'[k], order'[l])
  {
    hide Goes, Position;
    if l == p {
      assert k < p - 1 ==> Goes(rems, order[k], order[p - 1]);
      GoesIsAnOrder(rems, order[k], order[p - 1], n);
    } else if k == p {
      GoesIsAnOrder(rems, order[l - 1], n, n);
    } else {
      assert Goes(rems, order[if k < p then k else k - 1], order[if l < p then l else l - 1]);
    }
  }

  // ---- the percentages ----------------------------------------------------------------------

  /** After the first k points of an order were handed out. */
  function Handed(floors: seq<int>, order: seq<nat>, k: nat): seq<int>
    requires k <= |order|
  {
    seq(|floors|, i requires 0 <= i < |floors| => floors[i] + if i in order[..k] then 1 else 0)
  }

  /** What the panel promises of its percentages. */
  ghost predicate IsApportioned(counts: seq<nat>, pcts: seq<int>) {
    && |pcts| == |counts|
    && Sum(pcts) == (if Sum(counts) > 0 then 100 else 0)
    && (forall i :: 0 <= i < |counts| ==>
        pcts[i] == Floor(counts[i], Sum(counts)) || pcts[i] == Floor(counts[i], Sum(counts)) + 1)
    && (forall i, j :: 0 <= i < |counts| && 0 <= j < |counts| && counts[i] < counts[j] ==> pcts[i] <= pcts[j])
    && (forall i, j :: 0 <= i < j < |counts| && counts[i] == counts[j] ==> pcts[i] >= pcts[j])
    && (forall i, j :: 0 <= i < |counts| && 0 <= j < |counts|
                       && pcts[i] > Floor(counts[i], Sum(counts)) && pcts[j] == Floor(counts[j], Sum(counts)) ==>
          Goes(Remainders(counts), i, j))
  }

  lemma FloorLoses(count: nat, total: nat)
    requires total > 0
    ensures total * Floor(count, total) + Remainder(count, total) == count * 100
    ensures Remainder(count, total) < total
  {}

  lemma Distribute(t: int, a: int, b: int)
    ensures t * (a + b) == t * a + t * b
  {}

  /** Rounding down loses less than a point per share. */
  lemma {:induction false} FloorsAndRemainders(counts: seq<nat>, total: nat, n: nat)
    requires total > 0 && n <= |counts|
    ensures var floors := seq(n, i requires 0 <= i < n => Floor(counts[i], total));
            var lost := 100 * Sum(counts[..n]) - total * Sum(floors);
            0 <= lost && (n > 0 ==> lost < total * n) && (n == 0 ==> lost == 0)
  {
    hide Floor, Remainder;
    if n > 0 {
      var floors := seq(n, i requires 0 <= i < n => Floor(counts[i], total));
      var init := seq(n - 1, i requires 0 <= i < n - 1 => Floor(counts[i], total));
      FloorsAndRemainders(counts, total, n - 1);
      assert floors[..n - 1] == init;
      assert counts[..n][..n - 1] == counts[..n - 1];
      FloorLoses(counts[n - 1], total);
      Distribute(total, Sum(init), floors[n - 1]);
      Distribute(total, n - 1, 1);
    }
  }

  lemma Cancel(t: nat, a: int, b: int)
    requires t > 0
    ensures t * a < t * b ==> a < b
  {
    if a >= b { assert t * (a - b) >= 0; }
  }

  lemma LeftoverIsFew(counts: seq<nat>)
    ensures 0 <= Leftover(counts) <= |counts|
    ensures Leftover(counts) > 0 ==> Leftover(counts) < |counts|
  {
    var total, n := Sum(counts), |counts|;
    if total > 0 {
      FloorsAndRemainders(counts, total, n);
      assert counts[..n] == counts;
      assert Floors(counts) == seq(n, i requires 0 <= i < n => Floor(counts[i], total));
      var lost := total * Leftover(counts);
      assert lost == 100 * total - total * Sum(Floors(counts));
      assert n > 0;
      Cancel(total, -1, Leftover(counts));
      Cancel(total, Leftover(counts), n);
    } else {
      SumOfCounts(counts);
      ZeroFloors(Floors(counts));
    }
  }

  lemma {:induction false} SumOfCounts(counts: seq<nat>)
    ensures Sum(counts) >= 0
  {
    if counts != [] { SumOfCounts(counts[..|counts| - 1]); }
  }

  lemma {:induction false} ZeroFloors(s: seq<int>)
    requires forall i :: 0 <= i < |s| ==> s[i] == 0
    ensures Sum(s) == 0
  {
    if s != [] { ZeroFloors(s[..|s| - 1]); }
  }

  lemma NothingHanded(floors: seq<int>, order: seq<nat>)
    ensures Handed(floors, order, 0) == floors
  {}

  /** Handing out one more point is one increment of one share. */
  lemma HandOne(floors: seq<int>, order: seq<nat>, k: nat, rems: seq<int>)
    requires |rems| == |floors| && IsOrder(rems, order, |rems|) && k < |order|
    ensures Handed(floors, order, k + 1) == Handed(floors, order, k)[order[k] := Handed(floors, order, k)[order[k]] + 1]
  {
    assert order[..k + 1] == order[..k] + [order[k]];
    assert order[k] !in order[..k];
  }

  lemma {:induction false} HandedSum(floors: seq<int>, order: seq<nat>, k: nat, rems: seq<int>)
    requires |rems| == |floors| && IsOrder(rems, order, |rems|) && k <= |order|
    ensures Sum(Handed(floors, order, k)) == Sum(floors) + k
  {
    if k == 0 {
      NothingHanded(floors, order);
    } else {
      HandedSum(floors, order, k - 1, rems);
      HandOne(floors, order, k - 1, rems);
      SumAt(Handed(floors, order, k - 1), order[k - 1], Handed(floors, order, k - 1)[order[k - 1]] + 1);
    }
  }

  lemma EarlierInOrder(rems: seq<int>, order: seq<nat>, k: nat, i: nat, j: nat)
    requires IsOrder(rems, order, |rems|) && k <= |order| && i < |rems| && j < |rems| && Goes(rems, j, i)
    requires i in order[..k]
    ensures j in order[..k]
  {
    var p :| 0 <= p < k && order[p] == i;
    assert j in order;
    var q :| 0 <= q < |order| && order[q] == j;
    assert q > p ==> Goes(rems, order[p], order[q]);
    assert order[..k][q] == j;
  }

  lemma FloorMonotone(a: nat, b: nat, total: nat)
    requires total > 0 && a < b
    ensures Floor(a, total) <= Floor(b, total)
    ensures Floor(a, total) == Floor(b, total) ==> Remainder(a, total) < Remainder(b, total)
  {
    var x, y := a * 100, b * 100;
    assert x == total * (x / total) + x % total;
    assert y == total * (y / total) + y % total;
    assert total * (x / total) < total * (y / total + 1);
    Cancel(total, x / total, y / total + 1);
  }

  lemma HandedIsApportioned(counts: seq<nat>, order: seq<nat>)
    requires IsOrder(Remainders(counts), order, |counts|) && 0 <= Leftover(counts) <= |counts|
    ensures IsApportioned(counts, Handed(Floors(counts), order, Leftover(counts)))
  {
    var floors, rems, k := Floors(counts), Remainders(counts), Leftover(counts);
    var pcts := Handed(floors, order, k);
    HandedSum(floors, order, k, rems);
    SumOfCounts(counts);
    forall i, j | 0 <= i < |counts| && 0 <= j < |counts| && counts[i] < counts[j] ensures pcts[i] <= pcts[j] {
      if Sum(counts) > 0 {
        FloorMonotone(counts[i], counts[j], Sum(counts));
        if floors[i] == floors[j] && i in order[..k] { EarlierInOrder(rems, order, k, i, j); }
      } else {
        ZeroFloors(floors);
      }
    }
    forall i, j | 0 <= i < j < |counts| && counts[i] == counts[j] ensures pcts[i] >= pcts[j] {
      if j in order[..k] { EarlierInOrder(rems, order, k, j, i); }
    }
    forall i, j | 0 <= i < |counts| && 0 <= j < |counts| && pcts[i] > floors[i] && pcts[j] == floors[j]
      ensures Goes(rems, i, j)
    {
      if !Goes(rems, i, j) { EarlierInOrder(rems, order, k, i, j); }
    }
  }

  /** The rows of the panel: the sorted list and the shown list hold the same objects. */
  class Share {
    const count: nat
    const remainder: int
    var pct: int

    constructor (count: nat, remainder: int, pct: int)
      ensures this.count == count && this.remainder == remainder && this.pct == pct
    {
      this.count, this.remainder, this.pct := count, remainder, pct;
    }
  }

  ghost function Pcts(shares: seq<Share>): (s: seq<int>)
    reads shares
    ensures |s| == |shares|
  {
    seq(|shares|, i requires 0 <= i < |shares| reads shares => shares[i].pct)
  }

  predicate Distinct(shares: seq<Share>) {
    forall i, j :: 0 <= i < j < |shares| ==> shares[i] != shares[j]
  }

  method MakeShares(counts: seq<nat>, total: int) returns (shares: seq<Share>)
    requires total == Sum(counts)
    ensures fresh(shares) && |shares| == |counts| && Distinct(shares)
    ensures forall i :: 0 <= i < |counts| ==>
              shares[i].count == counts[i] && shares[i].remainder == Remainder(counts[i], total)
    ensures Pcts(shares) == Floors(counts)
  {
    hide Floor, Remainder, Sum;
    shares := [];
    for n := 0 to |counts|
      invariant fresh(shares) && |shares| == n && Distinct(shares)
      invariant forall i :: 0 <= i < n ==>
        shares[i].count == counts[i] && shares[i].remainder == Remainder(counts[i], total)
            && shares[i].pct == Floor(counts[i], total)
    {
      var share := new Share(counts[n], Remainder(counts[n], total), Floor(counts[n], total));
      shares := shares + [share];
    }
  }

  /** Takes the shares in the order of their remainders and adds a point to each while any is left. */
  method HandOut(shares: seq<Share>, order: seq<nat>, rems: seq<int>, points: int)
    requires Distinct(shares) && |rems| == |shares| && IsOrder(rems, order, |rems|)
    requires 0 <= points <= |shares|
    modifies shares
    ensures Pcts(shares) == Handed(old(Pcts(shares)), order, points)
  {
    hide IsOrder, Handed;
    OrderInRange(rems, order);
    var leftover := points;
    var byRemainder := seq(|order|, k requires 0 <= k < |order| => shares[order[k]]);
    ghost var floors := Pcts(shares);
    NothingHanded(floors, order);
    var n := 0;
    while n < |byRemainder|
      invariant n <= |byRemainder| && n + leftover == points && leftover >= 0
      invariant Pcts(shares) == Handed(floors, order, n)
    {
      if leftover <= 0 { break; }
      ghost var before := Pcts(shares);
      var row := byRemainder[n];
      row.pct := row.pct + 1;
      leftover := leftover - 1;
      assert Pcts(shares) == before[order[n] := before[order[n]] + 1];
      HandOne(floors, order, n, rems);
      n := n + 1;
    }
  }

  method Breakdown(counts: seq<nat>) returns (shares: seq<Share>)
    ensures fresh(shares) && |shares| == |counts|
    ensures forall i :: 0 <= i < |counts| ==> shares[i].count == counts[i]
    ensures IsApportioned(counts, Pcts(shares))
  {
    hide Floor, Remainder, IsOrder, IsApportioned, Handed, Sum;
    var total := Sum(counts);
    shares := MakeShares(counts, total);
    var rems := seq(|shares|, i requires 0 <= i < |shares| => shares[i].remainder);
    assert rems == Remainders(counts);
    var leftover := (if total > 0 then 100 else 0) - SumOfPcts(shares);
    LeftoverIsFew(counts);
    var order := SortByRemainder(rems);
    HandOut(shares, order, rems, leftover);
    HandedIsApportioned(counts, order);
  }

  function SumOfPcts(shares: seq<Share>): (r: int)
    reads shares
    ensures r == Sum(Pcts(shares))
  {
    if shares == [] then 0 else
      assert Pcts(shares)[..|shares| - 1] == Pcts(shares[..|shares| - 1]);
      SumOfPcts(shares[..|shares| - 1]) + shares[|shares| - 1].pct
  }
}
