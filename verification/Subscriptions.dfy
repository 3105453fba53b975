/**
  The live-update socket (src/socket/auction-subscriptions.ts): a token bucket that limits subscribe
  commands, and rooms joined only once an asynchronous lookup has found the auction.
 */
module TokenBucket {
  import opened Options

  const CAPACITY := 50.0
  const WINDOW_MS := 60_000

  /** Milliseconds. */
  type Time = int

  datatype Bucket = Bucket(tokens: Option<real>, refilledAt: Option<Time>)

  const FRESH := Bucket(None, None)

  function Refill(elapsed: int): real {
    elapsed as real / WINDOW_MS as real * CAPACITY
  }

  function Available(b: Bucket, now: Time): real {
    var since := if b.refilledAt.Some? then b.refilledAt.value else now;
    var elapsed := if now - since > 0 then now - since else 0;
    var level := (if b.tokens.Some? then b.tokens.value else CAPACITY) + Refill(elapsed);
    if level < CAPACITY then level else CAPACITY
  }

  function Consume(b: Bucket, now: Time): (Bucket, bool) {
    var available := Available(b, now);
    if available < 1.0 then (Bucket(Some(available), Some(now)), false)
    else (Bucket(Some(available - 1.0), Some(now)), true)
  }

  class SubscriptionBucket {
    var tokens: Option<real>
    var refilledAt: Option<Time>

    function State(): Bucket
      reads this
    {
      Bucket(tokens, refilledAt)
    }

    constructor ()
      ensures State() == FRESH
    {
      tokens, refilledAt := None, None;
    }

    method ConsumeToken(now: Time) returns (accepted: bool)
      modifies this
      ensures (State(), accepted) == Consume(old(State()), now)
      ensures old(IsLevel(State())) ==> IsLevel(State())
    {
      var since := if refilledAt.Some? then refilledAt.value else now;
      var elapsed := if now - since > 0 then now - since else 0;
      RefillGrows(elapsed);
      var available := (if tokens.Some? then tokens.value else CAPACITY) + Refill(elapsed);
      if available > CAPACITY { available := CAPACITY; }

      refilledAt := Some(now);
      if available < 1.0 {
        tokens := Some(available);
        return false;
      }
      tokens := Some(available - 1.0);
      return true;
    }
  }

  predicate IsLevel(b: Bucket) {
    b.tokens.Some? ==> 0.0 <= b.tokens.value <= CAPACITY
  }

  lemma ConsumeKeepsLevel(b: Bucket, now: Time)
    requires IsLevel(b)
    ensures IsLevel(Consume(b, now).0)
  {
    if b.refilledAt.Some? && now > b.refilledAt.value { RefillGrows(now - b.refilledAt.value); }
  }

  lemma RefillGrows(elapsed: int)
    requires elapsed >= 0
    ensures Refill(elapsed) >= 0.0
  {}

  // ---- sequences of calls -------------------------------------------------------------------

  function After(times: seq<Time>): Bucket {
    if times == [] then FRESH else Consume(After(times[..|times| - 1]), times[|times| - 1]).0
  }

  predicate AcceptedAt(times: seq<Time>, k: nat)
    requires k < |times|
  {
    Consume(After(times[..k]), times[k]).1
  }

  /** Calls i to j - 1 that were accepted. */
  function Accepted(times: seq<Time>, i: nat, j: nat): nat
    requires i <= j <= |times|
  {
    if i == j then 0 else Accepted(times, i, j - 1) + if AcceptedAt(times, j - 1) then 1 else 0
  }

  predicate NonDecreasing(times: seq<Time>) {
    forall i, j :: 0 <= i < j < |times| ==> times[i] <= times[j]
  }

  /** What is left at call j of the allowance of the window opened at call i. */
  function Allowance(times: seq<Time>, i: nat, j: nat): real
    requires i <= j < |times|
  {
    CAPACITY - Accepted(times, i, j) as real + Refill(times[j] - times[i])
  }

  lemma RefillAdds(a: int, b: int)
    ensures Refill(a + b) == Refill(a) + Refill(b)
  {}

  lemma AfterCall(times: seq<Time>, j: nat)
    requires j < |times|
    ensures After(times[..j + 1]) == Consume(After(times[..j]), times[j]).0
  {
    assert times[..j + 1][..j] == times[..j];
  }

  /** How the level at one call follows from the level at the call before. */
  lemma NextLevel(times: seq<Time>, j: nat)
    requires 0 < j < |times| && NonDecreasing(times)
    ensures var before := Available(After(times[..j - 1]), times[j - 1]);
            var level := before - (if AcceptedAt(times, j - 1) then 1.0 else 0.0) + Refill(times[j] - times[j - 1]);
            Available(After(times[..j]), times[j]) == if level < CAPACITY then level else CAPACITY
  {
    AfterCall(times, j - 1);
  }

  /** The level is the least allowance of all windows that end now: no more than any, */
  lemma {:induction false} LevelWithinAllowance(times: seq<Time>, i: nat, j: nat)
    requires i <= j < |times| && NonDecreasing(times)
    ensures Available(After(times[..j]), times[j]) <= Allowance(times, i, j)
    decreases j
  {
    if i < j {
      LevelWithinAllowance(times, i, j - 1);
      NextLevel(times, j);
      RefillAdds(times[j - 1] - times[i], times[j] - times[j - 1]);
    }
  }

  /** and equal to one of them. */
  lemma {:induction false} LevelIsAnAllowance(times: seq<Time>, j: nat) returns (i: nat)
    requires j < |times| && NonDecreasing(times)
    ensures i <= j && Available(After(times[..j]), times[j]) == Allowance(times, i, j)
  {
    if j == 0 {
      i := 0;
    } else {
      NextLevel(times, j);
      i := LevelIsAnAllowance(times, j - 1);
      RefillAdds(times[j - 1] - times[i], times[j] - times[j - 1]);
      if Available(After(times[..j]), times[j]) != Allowance(times, i, j) {
        i := j;
      }
    }
  }

  /**
    The limiter is exact: a call is accepted if and only if, in every window of calls that it would
    end, the accepted calls stay within 50 plus 50 per minute of the window's length.
   */
  lemma AcceptsWhateverFits(times: seq<Time>, j: nat)
    requires j < |times| && NonDecreasing(times)
    ensures AcceptedAt(times, j)
       <==> forall i :: 0 <= i <= j ==> Accepted(times, i, j) as real + 1.0 <= CAPACITY + Refill(times[j] - times[i])
  {
    forall i | 0 <= i <= j ensures Available(After(times[..j]), times[j]) <= Allowance(times, i, j) {
      LevelWithinAllowance(times, i, j);
    }
    var w := LevelIsAnAllowance(times, j);
    assert Allowance(times, w, j) == CAPACITY - Accepted(times, w, j) as real + Refill(times[j] - times[w]);
    if AcceptedAt(times, j) {
      forall i | 0 <= i <= j ensures Accepted(times, i, j) as real + 1.0 <= CAPACITY + Refill(times[j] - times[i]) {
        assert Allowance(times, i, j) >= 1.0;
      }
    } else {
      assert Accepted(times, w, j) as real + 1.0 > CAPACITY + Refill(times[j] - times[w]);
    }
  }

  /** In any interval of d milliseconds at most 50 + 50 * d / 60000 calls are accepted. */
  lemma {:induction false} RateLimited(times: seq<Time>, i: nat, j: nat)
    requires i < j <= |times| && NonDecreasing(times)
    ensures Accepted(times, i, j) as real <= CAPACITY + Refill(times[j - 1] - times[i])
    decreases j
  {
    if AcceptedAt(times, j - 1) {
      LevelWithinAllowance(times, i, j - 1);
    } else if j - 1 > i {
      RateLimited(times, i, j - 1);
      RefillAdds(times[j - 2] - times[i], times[j - 1] - times[j - 2]);
    }
  }

  /** The stored level stays between 0 and 50, whatever the clock does. */
  lemma {:induction false} LevelInRange(times: seq<Time>)
    ensures IsLevel(After(times))
  {
    if times != [] {
      LevelInRange(times[..|times| - 1]);
      ConsumeKeepsLevel(After(times[..|times| - 1]), times[|times| - 1]);
    }
  }
}

module AuctionSubscriptions {
  import opened Options
  import opened TokenBucket

  type Room = string

  const MAX_AUCTION_ROOMS := 25
  const MAX_ID := 128

  datatype Wish = Join | Leave

  /** What a client sends in place of an auction id. */
  datatype Payload = NotText | Text(id: string)

  datatype Lookup = Exists | Missing | Failed

  /** One connection: the auction rooms it is in, and the last wish for each room whose lookup is in flight. */
  datatype Socket = Socket(connected: bool, rooms: set<Room>, pending: map<Room, Wish>, bucket: Bucket)

  const FRESH_SOCKET := Socket(true, {}, map[], FRESH)

  /** Once disconnected a socket gets no more commands, but its lookups still answer. */
  datatype Event =
    | Subscribe(payload: Payload, now: Time)
    | Unsubscribe(payload: Payload)
    | Settled(room: Room, lookup: Lookup)
    | Disconnect

  function RoomOf(id: string): Room {
    "auction:" + id
  }

  /** ECMAScript white space and line terminators. */
  predicate IsSpace(c: char) {
    var n := c as int;
    || 0x9 <= n <= 0xD || n == 0x20 || n == 0xA0 || n == 0x1680 || 0x2000 <= n <= 0x200A
    || n == 0x2028 || n == 0x2029 || n == 0x202F || n == 0x205F || n == 0x3000 || n == 0xFEFF
  }

  predicate IsBlank(s: string) {
    forall i :: 0 <= i < |s| ==> IsSpace(s[i])
  }

  predicate Subscribable(p: Payload) {
    p.Text? && !IsBlank(p.id) && |p.id| <= MAX_ID
  }

  predicate Unsubscribable(p: Payload) {
    p.Text? && |p.id| <= MAX_ID
  }

  function Disconnected(s: Socket): Socket {
    s.(connected := false, rooms := {})
  }

  function AfterSubscribe(s: Socket, p: Payload, now: Time): Socket {
    if !s.connected || !Subscribable(p) then s
    else
      var (bucket, ok) := Consume(s.bucket, now);
      var s := s.(bucket := bucket);
      var room := RoomOf(p.id);
      if !ok then Disconnected(s)
      else if room in s.pending then s.(pending := s.pending[room := Join])
      else if room in s.rooms then s
      else if |s.rooms| + |s.pending| >= MAX_AUCTION_ROOMS then s
      else s.(pending := s.pending[room := Join])
  }

  function AfterUnsubscribe(s: Socket, p: Payload): Socket {
    if !s.connected || !Unsubscribable(p) then s
    else
      var room := RoomOf(p.id);
      s.(pending := if room in s.pending then s.pending[room := Leave] else s.pending, rooms := s.rooms - {room})
  }

  function AfterSettled(s: Socket, room: Room, lookup: Lookup): Socket {
    if room !in s.pending then s
    else
      s.(rooms := if lookup == Exists && s.connected && s.pending[room] == Join then s.rooms + {room} else s.rooms,
         pending := s.pending - {room})
  }

  function Apply(s: Socket, e: Event): Socket {
    match e
    case Subscribe(p, now) => AfterSubscribe(s, p, now)
    case Unsubscribe(p) => AfterUnsubscribe(s, p)
    case Settled(room, lookup) => AfterSettled(s, room, lookup)
    case Disconnect => Disconnected(s)
  }

  function Run(events: seq<Event>): Socket {
    if events == [] then FRESH_SOCKET else Apply(Run(events[..|events| - 1]), events[|events| - 1])
  }

  // ---- what a trace says, room by room ---------------------------------------------------------

  /** Whether a subscribe command counts: valid, paid for, and either about a known room or within the cap. */
  predicate AcceptsSubscribe(s: Socket, p: Payload, now: Time) {
    && s.connected && Subscribable(p) && Consume(s.bucket, now).1
    && (RoomOf(p.id) in s.pending || RoomOf(p.id) in s.rooms || |s.rooms| + |s.pending| < MAX_AUCTION_ROOMS)
  }

  /** The last accepted command about a room. */
  function LastCommand(events: seq<Event>, room: Room): Option<Wish> {
    if events == [] then None
    else
      var init, e := events[..|events| - 1], events[|events| - 1];
      match e
      case Subscribe(p, now) =>
        if AcceptsSubscribe(Run(init), p, now) && RoomOf(p.id) == room then Some(Join) else LastCommand(init, room)
      case Unsubscribe(p) =>
        if Run(init).connected && Unsubscribable(p) && RoomOf(p.id) == room then Some(Leave)
        else LastCommand(init, room)
      case _ => LastCommand(init, room)
  }

  /** The answer of the last lookup for a room. */
  function LastLookup(events: seq<Event>, room: Room): Option<Lookup> {
    if events == [] then None
    else
      var init, e := events[..|events| - 1], events[|events| - 1];
      if e.Settled? && e.room == room && room in Run(init).pending then Some(e.lookup) else LastLookup(init, room)
  }

  ghost predicate RoomAgrees(events: seq<Event>, room: Room) {
    var s := Run(events);
    && (room in s.rooms ==> s.connected && room !in s.pending)
    && (s.connected ==>
         if room in s.pending then LastCommand(events, room) == Some(s.pending[room])
         else room in s.rooms <==> LastCommand(events, room) == Some(Join) && LastLookup(events, room) == Some(Exists))
  }

  /**
    The last command wins: on a connected socket, a room with no lookup in flight is joined exactly
    when its last accepted command was subscribe and its last lookup found the auction, whatever the
    order in which commands and answers arrived.
   */
  lemma {:induction false} LastCommandWins(events: seq<Event>, room: Room)
    ensures RoomAgrees(events, room)
  {
    hide AcceptsSubscribe, Consume, Subscribable, Unsubscribable, RoomOf;
    if events != [] {
      var init, e := events[..|events| - 1], events[|events| - 1];
      LastCommandWins(init, room);
      match e
      case Subscribe(p, now) => SubscribeAgrees(events, room);
      case Unsubscribe(p) =>
      case Settled(r, lookup) =>
      case Disconnect =>
    }
  }

  lemma SubscribeAgrees(events: seq<Event>, room: Room)
    requires events != [] && events[|events| - 1].Subscribe? && RoomAgrees(events[..|events| - 1], room)
    ensures RoomAgrees(events, room)
  {
    hide Consume, Subscribable, RoomOf;
  }

  predicate WithinCap(s: Socket) {
    |s.rooms| + |s.pending| <= MAX_AUCTION_ROOMS
  }

  lemma PendingAt(pending: map<Room, Wish>, room: Room, wish: Wish)
    ensures |pending[room := wish]| == |pending| + (if room in pending then 0 else 1)
    ensures |pending - {room}| == |pending| - (if room in pending then 1 else 0)
  {
    assert pending[room := wish].Keys == pending.Keys + {room};
    assert (pending - {room}).Keys == pending.Keys - {room};
  }

  predicate SocketOk(s: Socket) {
    WithinCap(s) && s.rooms !! s.pending.Keys && IsLevel(s.bucket)
  }

  lemma SubscribeWithinCap(s: Socket, p: Payload, now: Time)
    requires SocketOk(s)
    ensures SocketOk(AfterSubscribe(s, p, now))
  {
    hide Consume, IsLevel, RoomOf, IsBlank;
    ConsumeKeepsLevel(s.bucket, now);
    if p.Text? { PendingAt(s.pending, RoomOf(p.id), Join); }
  }

  lemma UnsubscribeWithinCap(s: Socket, p: Payload)
    requires SocketOk(s)
    ensures SocketOk(AfterUnsubscribe(s, p))
  {
    hide IsLevel, RoomOf;
    if p.Text? { PendingAt(s.pending, RoomOf(p.id), Leave); }
  }

  /** Joined and pending rooms never number more than 25, and a room is never both. */
  lemma StepWithinCap(s: Socket, e: Event)
    requires SocketOk(s)
    ensures SocketOk(Apply(s, e))
  {
    hide IsLevel, AfterSubscribe, AfterUnsubscribe;
    match e
    case Subscribe(p, now) => SubscribeWithinCap(s, p, now);
    case Unsubscribe(p) => UnsubscribeWithinCap(s, p);
    case Settled(room, lookup) => PendingAt(s.pending, room, Leave);
    case Disconnect =>
  }

  lemma {:induction false} AlwaysWithinCap(events: seq<Event>)
    ensures SocketOk(Run(events))
    ensures !Run(events).connected ==> Run(events).rooms == {}
  {
    hide SocketOk, AfterSubscribe, AfterUnsubscribe;
    if events != [] {
      AlwaysWithinCap(events[..|events| - 1]);
      StepWithinCap(Run(events[..|events| - 1]), events[|events| - 1]);
      ClosedIsEmpty(Run(events[..|events| - 1]), events[|events| - 1]);
    } else {
      FreshOk();
    }
  }

  lemma FreshOk()
    ensures SocketOk(FRESH_SOCKET)
  {}

  lemma ClosedIsEmpty(s: Socket, e: Event)
    requires s.connected || s.rooms == {}
    ensures Apply(s, e).connected || Apply(s, e).rooms == {}
  {
    hide Consume, Subscribable, Unsubscribable;
  }

  /**
    An asynchronous answer can wait: settling after a later command gives the same rooms as the
    command alone decides.
   */
  lemma LateAnswer(s: Socket, p: Payload, lookup: Lookup)
    requires s.connected && Unsubscribable(p) && RoomOf(p.id) in s.pending && s.rooms !! s.pending.Keys
    ensures Apply(Apply(s, Unsubscribe(p)), Settled(RoomOf(p.id), lookup))
         == Apply(Apply(s, Settled(RoomOf(p.id), lookup)), Unsubscribe(p))
  {
    var room := RoomOf(p.id);
    assert s.pending[room := Leave] - {room} == s.pending - {room};
  }

  /** A command about nothing that could be an auction is ignored and costs no token. */
  lemma MalformedIsIgnored(s: Socket, p: Payload, now: Time)
    requires p.NotText? || |p.id| > 128 || forall i :: 0 <= i < |p.id| ==> p.id[i] in " \t\r\n"
    ensures Apply(s, Subscribe(p, now)) == s
    ensures p.NotText? || |p.id| > 128 ==> Apply(s, Unsubscribe(p)) == s
  {
    assert forall c :: c in " \t\r\n" ==> IsSpace(c);
  }

  // ---- when a socket is closed -----------------------------------------------------------------

  /** The times of the well-formed subscribe commands that reached the handler. */
  function CommandTimes(events: seq<Event>): seq<Time> {
    if events == [] then []
    else
      var init, e := events[..|events| - 1], events[|events| - 1];
      CommandTimes(init) + if e.Subscribe? && Run(init).connected && Subscribable(e.payload) then [e.now] else []
  }

  predicate NoneHangsUp(events: seq<Event>) {
    forall i :: 0 <= i < |events| ==> !events[i].Disconnect?
  }

  predicate AllAccepted(times: seq<Time>) {
    forall k :: 0 <= k < |times| ==> AcceptedAt(times, k)
  }

  lemma NoneHangsUpStep(init: seq<Event>, e: Event)
    ensures NoneHangsUp(init + [e]) <==> NoneHangsUp(init) && !e.Disconnect?
  {
    var events := init + [e];
    assert events[|init|] == e;
    assert forall i :: 0 <= i < |init| ==> events[i] == init[i];
  }

  lemma AllAcceptedStep(times: seq<Time>, now: Time)
    ensures AllAccepted(times + [now]) <==> AllAccepted(times) && Consume(After(times), now).1
  {
    hide Consume, After;
    var times' := times + [now];
    forall k | 0 <= k < |times| ensures AcceptedAt(times', k) == AcceptedAt(times, k) {
      assert times'[..k] == times[..k];
    }
    assert times'[..|times|] == times;
    assert AcceptedAt(times', |times|) == Consume(After(times), now).1;
  }

  lemma CommandSpends(s: Socket, p: Payload, now: Time)
    requires s.connected && Subscribable(p)
    ensures var s' := AfterSubscribe(s, p, now);
            && s'.bucket == Consume(s.bucket, now).0
            && (s'.connected <==> Consume(s.bucket, now).1)
            && (!s'.connected ==> s'.rooms == {})
  {
    hide Consume, Subscribable;
  }

  /** Any other event costs nothing and, unless it hangs up, leaves the socket open or closed as it was. */
  lemma OthersSpendNothing(s: Socket, e: Event)
    requires !(e.Subscribe? && s.connected && Subscribable(e.payload))
    ensures Apply(s, e).bucket == s.bucket
    ensures Apply(s, e).connected <==> s.connected && !e.Disconnect?
    ensures s.connected || s.rooms == {} ==> Apply(s, e).connected || Apply(s, e).rooms == {}
  {
    hide Consume, Subscribable, Unsubscribable;
  }

  lemma {:induction false} BucketIsOfCommands(events: seq<Event>)
    ensures Run(events).bucket == After(CommandTimes(events))
  {
    hide Consume, Subscribable, AfterSubscribe;
    if events != [] {
      var init, e := events[..|events| - 1], events[|events| - 1];
      BucketIsOfCommands(init);
      if e.Subscribe? && Run(init).connected && Subscribable(e.payload) {
        var times := CommandTimes(init);
        assert CommandTimes(events) == times + [e.now] && (times + [e.now])[..|times|] == times;
        CommandSpends(Run(init), e.payload, e.now);
      } else {
        assert CommandTimes(events) == CommandTimes(init);
        OthersSpendNothing(Run(init), e);
      }
    }
  }

  /** A socket is open exactly until its client hangs up or one of its commands finds no token left. */
  lemma {:induction false} OpenIff(events: seq<Event>)
    ensures Run(events).connected <==> NoneHangsUp(events) && AllAccepted(CommandTimes(events))
    ensures !Run(events).connected ==> Run(events).rooms == {}
  {
    hide Consume, Subscribable, AfterSubscribe, NoneHangsUp, AllAccepted, After;
    if events == [] {
      NothingYet();
    } else {
      var init, e := events[..|events| - 1], events[|events| - 1];
      OpenIff(init);
      NoneHangsUpStep(init, e);
      assert events == init + [e];
      var times := CommandTimes(init);
      if e.Subscribe? && Run(init).connected && Subscribable(e.payload) {
        assert CommandTimes(events) == times + [e.now];
        AllAcceptedStep(times, e.now);
        BucketIsOfCommands(init);
        CommandSpends(Run(init), e.payload, e.now);
      } else {
        assert CommandTimes(events) == times;
        OthersSpendNothing(Run(init), e);
      }
    }
  }

  lemma NothingYet()
    ensures NoneHangsUp([]) && AllAccepted([])
  {}

  /** A lookup's answer, a failure too, ends the wait for its room and no other. */
  lemma AnswerEndsWait(s: Socket, room: Room, lookup: Lookup)
    ensures var s' := Apply(s, Settled(room, lookup));
            && s'.pending.Keys == s.pending.Keys - {room}
            && (forall r :: r in s'.pending ==> s'.pending[r] == s.pending[r])
            && s.rooms <= s'.rooms <= s.rooms + {room}
            && s'.connected == s.connected && s'.bucket == s.bucket
  {}

  // ---- the connection's handlers ---------------------------------------------------------------

  class AuctionSocket {
    var connected: bool
    var rooms: set<Room>
    var pending: map<Room, Wish>
    const bucket: SubscriptionBucket

    function State(): Socket
      reads this, bucket
    {
      Socket(connected, rooms, pending, bucket.State())
    }

    predicate Valid()
      reads this, bucket
    {
      SocketOk(State())
    }

    constructor ()
      ensures Valid() && fresh(bucket) && State() == FRESH_SOCKET
    {
      connected, rooms, pending := true, {}, map[];
      bucket := new SubscriptionBucket();
    }

    /** Returns whether a lookup has to be started. */
    method OnSubscribe(p: Payload, now: Time) returns (lookup: bool)
      requires Valid() && connected
      modifies this, bucket
      ensures Valid() && State() == Apply(old(State()), Subscribe(p, now))
      ensures lookup <==> pending.Keys != old(pending.Keys)
    {
      StepWithinCap(State(), Subscribe(p, now));
      if !p.Text? || IsBlank(p.id) || |p.id| > MAX_ID { return false; }
      var ok := bucket.ConsumeToken(now);
      if !ok {
        connected, rooms := false, {};
        return false;
      }
      var room := RoomOf(p.id);
      if room in pending {
        pending := pending[room := Join];
        return false;
      }
      if room in rooms { return false; }
      if |rooms| + |pending| >= MAX_AUCTION_ROOMS { return false; }
      pending := pending[room := Join];
      return true;
    }

    method OnUnsubscribe(p: Payload)
      requires Valid() && connected
      modifies this
      ensures Valid() && State() == Apply(old(State()), Unsubscribe(p))
      ensures pending.Keys == old(pending.Keys)
    {
      StepWithinCap(State(), Unsubscribe(p));
      if !p.Text? || |p.id| > MAX_ID { return; }
      var room := RoomOf(p.id);
      if room in pending { pending := pending[room := Leave]; }
      rooms := rooms - {room};
    }

    /** The lookup's promise: join, report, and in any case forget the room. */
    method OnLookupSettled(room: Room, lookup: Lookup)
      requires Valid() && room in pending
      modifies this
      ensures Valid() && State() == Apply(old(State()), Settled(room, lookup))
    {
      StepWithinCap(State(), Settled(room, lookup));
      if lookup == Exists && connected && pending[room] == Join { rooms := rooms + {room}; }
      pending := pending - {room};
    }

    method OnDisconnect()
      requires Valid()
      modifies this
      ensures Valid() && State() == Apply(old(State()), Event.Disconnect)
    {
      connected, rooms := false, {};
    }
  }
}

module ExistenceCache {
  import opened Options

  const TTL_MS := 30_000
  const CACHE_CAPACITY := 1_000

  type Time = int

  datatype Entry = Entry(id: string, found: bool, expiresAt: Time)

  /** History: what a lookup begun at `at` said. */
  datatype Answer = Answer(id: string, found: bool, at: Time)

  /** A JavaScript Map: keys in the order in which they were first set, since they were last deleted. */
  type Entries = seq<Entry>

  function Find(entries: Entries, id: string): (r: Option<nat>)
    ensures r.Some? ==> r.value < |entries| && entries[r.value].id == id
    ensures r.None? ==> forall i :: 0 <= i < |entries| ==> entries[i].id != id
  {
    if entries == [] then None
    else if entries[|entries| - 1].id == id then Some(|entries| - 1)
    else Find(entries[..|entries| - 1], id)
  }

  predicate DistinctIds(entries: Entries) {
    forall i, j :: 0 <= i < j < |entries| ==> entries[i].id != entries[j].id
  }

  /** After a read: a fresh entry becomes the newest, a stale one goes. */
  function Probed(entries: Entries, id: string, now: Time): Entries {
    match Find(entries, id)
    case None => entries
    case Some(i) =>
      if entries[i].expiresAt > now then entries[..i] + entries[i + 1..] + [entries[i]]
      else entries[..i] + entries[i + 1..]
  }

  function Evicted(entries: Entries): Entries {
    if |entries| >= CACHE_CAPACITY then entries[1..] else entries
  }

  /** After an answer is stored: the oldest entry makes room; a key that is there keeps its place. */
  function Stored(entries: Entries, e: Entry): Entries {
    var kept := Evicted(entries);
    match Find(kept, e.id)
    case None => kept + [e]
    case Some(i) => kept[i := e]
  }

  class AuctionExistenceCache {
    var entries: Entries
    ghost var answers: set<Answer>

    ghost predicate Valid()
      reads this
    {
      && CacheOk(entries)
      && forall i :: 0 <= i < |entries| ==>
           Answer(entries[i].id, entries[i].found, entries[i].expiresAt - TTL_MS) in answers
    }

    constructor ()
      ensures Valid() && entries == [] && answers == {}
    {
      entries, answers := [], {};
    }

    /** An answer from the cache is that of a lookup of this auction begun less than 30 seconds ago. */
    method Probe(id: string, now: Time) returns (cached: Option<bool>)
      requires Valid()
      modifies this`entries
      ensures Valid() && entries == Probed(old(entries), id, now)
      ensures cached.Some? <==>
                exists i :: 0 <= i < |old(entries)| && old(entries)[i].id == id && old(entries)[i].expiresAt > now
      ensures cached.Some? ==> exists at :: Answer(id, cached.value, at) in answers && now < at + TTL_MS
    {
      var found := Find(entries, id);
      if found.None? { return None; }
      var e := entries[found.value];
      assert Answer(id, e.found, e.expiresAt - TTL_MS) in answers;
      entries := entries[..found.value] + entries[found.value + 1..];
      if e.expiresAt <= now { return None; }
      entries := entries + [e];
      return Some(e.found);
    }

    /** The lookup's answer; its 30 seconds run from when it began. */
    method StoreAnswer(id: string, found: bool, began: Time)
      requires Valid()
      modifies this
      ensures Valid() && entries == Stored(old(entries), Entry(id, found, began + TTL_MS))
      ensures answers == old(answers) + {Answer(id, found, began)}
      ensures exists i :: 0 <= i < |entries| && entries[i] == Entry(id, found, began + TTL_MS)
    {
      answers := answers + {Answer(id, found, began)};
      if |entries| >= CACHE_CAPACITY { entries := entries[1..]; }
      var at := Find(entries, id);
      var e := Entry(id, found, began + TTL_MS);
      if at.None? {
        entries := entries + [e];
        assert entries[|entries| - 1] == e;
      } else {
        entries := entries[at.value := e];
        assert entries[at.value] == e;
      }
    }
  }

  // ---- least recently used ------------------------------------------------------------------

  datatype Use = Read(id: string, now: Time) | Store(e: Entry)

  function IdOf(u: Use): string {
    match u case Read(id, _) => id case Store(e) => e.id
  }

  function Used(entries: Entries, uses: seq<Use>): Entries {
    if uses == [] then entries
    else
      var before := Used(entries, uses[..|uses| - 1]);
      match uses[|uses| - 1]
      case Read(id, now) => Probed(before, id, now)
      case Store(e) => Stored(before, e)
  }

  /** The entry is there, with at least `slack` uses of others before it can be evicted. */
  ghost predicate Survives(entries: Entries, e: Entry, slack: int) {
    exists i :: 0 <= i < |entries| && entries[i] == e && i + CACHE_CAPACITY - |entries| >= slack
  }

  ghost predicate CacheOk(entries: Entries) {
    DistinctIds(entries) && |entries| <= CACHE_CAPACITY
  }

  function Without(entries: Entries, i: nat): Entries
    requires i < |entries|
  {
    entries[..i] + entries[i + 1..]
  }

  lemma WithoutOk(entries: Entries, i: nat, k: nat)
    requires DistinctIds(entries) && i < |entries| && k < |entries| && k != i
    ensures DistinctIds(Without(entries, i))
    ensures Without(entries, i)[if k < i then k else k - 1] == entries[k]
    ensures forall j :: 0 <= j < |Without(entries, i)| ==> Without(entries, i)[j].id != entries[i].id
  {}

  lemma ProbedOk(entries: Entries, id: string, now: Time)
    requires CacheOk(entries)
    ensures CacheOk(Probed(entries, id, now))
  {
    hide Find;
    var found := Find(entries, id);
    if found.Some? && |entries| > 1 {
      WithoutOk(entries, found.value, if found.value == 0 then 1 else 0);
    }
  }

  lemma StoredOk(entries: Entries, e: Entry)
    requires CacheOk(entries)
    ensures CacheOk(Stored(entries, e))
  {
    hide Find;
  }

  lemma ReadAnother(entries: Entries, k: nat, id: string, now: Time) returns (k': nat)
    requires CacheOk(entries) && k < |entries| && id != entries[k].id
    ensures var after := Probed(entries, id, now);
            k' < |after| && after[k'] == entries[k] && k' - |after| >= k - |entries| - 1
  {
    hide Find;
    var found := Find(entries, id);
    k' := k;
    if found.Some? {
      WithoutOk(entries, found.value, k);
      k' := if k < found.value then k else k - 1;
    }
  }

  lemma StoreAnother(entries: Entries, k: nat, e: Entry) returns (k': nat)
    requires CacheOk(entries) && k < |entries| && e.id != entries[k].id && k + CACHE_CAPACITY - |entries| > 0
    ensures var after := Stored(entries, e);
            k' < |after| && after[k'] == entries[k] && k' - |after| >= k - |entries| - 1
  {
    hide Find;
    var kept := Evicted(entries);
    k' := k - (|entries| - |kept|);
    assert kept[k'] == entries[k];
  }

  lemma UseOfAnother(entries: Entries, e: Entry, slack: nat, u: Use)
    requires CacheOk(entries) && Survives(entries, e, slack) && slack > 0 && IdOf(u) != e.id
    ensures CacheOk(Used(entries, [u])) && Survives(Used(entries, [u]), e, slack - 1)
  {
    hide Probed, Stored, CacheOk;
    assert Used(entries, []) == entries && [u][..0] == [];
    var k :| 0 <= k < |entries| && entries[k] == e && k + CACHE_CAPACITY - |entries| >= slack;
    match u
    case Read(id, now) =>
      ProbedOk(entries, id, now);
      var k' := ReadAnother(entries, k, id, now);
      assert Used(entries, [u])[k'] == e;
    case Store(other) =>
      StoredOk(entries, other);
      var k' := StoreAnother(entries, k, other);
      assert Used(entries, [u])[k'] == e;
  }

  lemma UsedThen(entries: Entries, uses: seq<Use>, u: Use)
    ensures Used(entries, uses + [u]) == Used(Used(entries, uses), [u])
  {
    assert (uses + [u])[..|uses|] == uses;
    assert [u][..0] == [] && Used(Used(entries, uses), []) == Used(entries, uses);
  }

  lemma {:induction false} SurvivesUses(entries: Entries, e: Entry, slack: nat, uses: seq<Use>)
    requires CacheOk(entries) && Survives(entries, e, slack)
    requires |uses| <= slack && forall i :: 0 <= i < |uses| ==> IdOf(uses[i]) != e.id
    ensures CacheOk(Used(entries, uses)) && Survives(Used(entries, uses), e, slack - |uses|)
  {
    hide Survives, Probed, Stored, CacheOk;
    if uses != [] {
      var init, last := uses[..|uses| - 1], uses[|uses| - 1];
      SurvivesUses(entries, e, slack, init);
      assert IdOf(last) != e.id;
      UseOfAnother(Used(entries, init), e, slack - |init|, last);
      UsedThen(entries, init, last);
      assert uses == init + [last];
    }
  }

  /** An entry that was just read is still cached, unchanged, after any 999 uses of other auctions. */
  lemma RecentlyReadStays(entries: Entries, id: string, now: Time, uses: seq<Use>)
    requires CacheOk(entries)
    requires Find(entries, id).Some? && entries[Find(entries, id).value].expiresAt > now
    requires |uses| < CACHE_CAPACITY && forall i :: 0 <= i < |uses| ==> IdOf(uses[i]) != id
    ensures entries[Find(entries, id).value] in Used(Probed(entries, id, now), uses)
  {
    hide Used, Find;
    var e := entries[Find(entries, id).value];
    JustRead(entries, id, now);
    SurvivesUses(Probed(entries, id, now), e, CACHE_CAPACITY - 1, uses);
  }

  lemma JustRead(entries: Entries, id: string, now: Time)
    requires CacheOk(entries) && Find(entries, id).Some? && entries[Find(entries, id).value].expiresAt > now
    ensures CacheOk(Probed(entries, id, now))
    ensures Survives(Probed(entries, id, now), entries[Find(entries, id).value], CACHE_CAPACITY - 1)
  {
    hide Find;
    var i := Find(entries, id).value;
    if |entries| > 1 { WithoutOk(entries, i, if i == 0 then 1 else 0); }
    var probed := Probed(entries, id, now);
    assert probed == Without(entries, i) + [entries[i]];
    assert probed[|probed| - 1] == entries[i];
  }
}
