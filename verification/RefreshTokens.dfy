/**
  Refresh-token rotation (src/modules/auth/auth.routes.ts, src/utils/jwt.ts): token rows, requests in
  flight between their database calls, and everything that revokes. One step is one database call of
  one request, so any number of requests presenting tokens interleave in every possible way.

  A signed token is its claims (signing is a function of the claims, and only the server can do it),
  and a hash is a wrapper around what was hashed (no collisions).
 */
module RefreshTokens {
  import opened Options

  type UserId = nat
  type TokenId = nat
  type RequestId = nat
  type Time = int

  const DAY_MS := 86_400_000
  const DAY_S := 86_400

  datatype Jwt = Jwt(sub: UserId, jti: TokenId, remember: bool, iat: int)

  datatype Hash = HashOf(token: Jwt)

  datatype Row = Row(user: UserId, hash: Hash, createdAt: Time, expiresAt: Time,
                     revokedAt: Option<Time>, replacedBy: Option<TokenId>)

  /** What a request in flight does next. */
  datatype Phase =
    | Spending(id: TokenId)    // read the row unspent; will try to spend it
    | Lost(id: TokenId)        // its compare-and-set matched nothing; will read the row again
    | Repeating(spent: Row)    // has read the row spent; will look at the successor
    | Replaying                // will sweep the family

  datatype Request = Request(presented: Jwt, user: UserId, phase: Phase)

  datatype Answer =
    | Given(presented: Jwt, token: Jwt)
    | InvalidToken
    | ExpiredOrRevoked
    | Mismatch
    | SessionInvalidated(alert: bool)

  /** History: the string issued for a token, the token it replaced, and its place in its family. */
  datatype Issue = Issue(jwt: Jwt, parent: Option<TokenId>, root: TokenId, generation: nat)

  datatype Config = Config(intervalMs: nat, days: nat)

  datatype State = State(
    rows: map<TokenId, Row>,
    requests: map<RequestId, Request>,
    answers: map<RequestId, Answer>,
    issued: map<TokenId, Issue>)

  const EMPTY := State(map[], map[], map[], map[])

  // ---- signing ------------------------------------------------------------------------------

  function Sign(user: UserId, id: TokenId, remember: bool, issuedAt: Time): Jwt {
    Jwt(user, id, remember, issuedAt / 1000)
  }

  /** jsonwebtoken's expiry check, in whole seconds. */
  predicate Verifies(cfg: Config, jwt: Jwt, now: Time) {
    now / 1000 < jwt.iat + cfg.days * DAY_S
  }

  // ---- rows ---------------------------------------------------------------------------------

  ghost function FindByHash(rows: map<TokenId, Row>, hash: Hash): (r: Option<TokenId>)
    ensures r.Some? ==> r.value in rows && rows[r.value].hash == hash
    ensures r.None? ==> forall id :: id in rows ==> rows[id].hash != hash
  {
    if exists id :: id in rows && rows[id].hash == hash then
      var id :| id in rows && rows[id].hash == hash;
      Some(id)
    else None
  }

  predicate IsLive(rows: map<TokenId, Row>, id: TokenId) {
    id in rows && rows[id].revokedAt.None?
  }

  predicate AnyLive(rows: map<TokenId, Row>, user: UserId) {
    exists id :: id in rows && rows[id].user == user && rows[id].revokedAt.None?
  }

  /** updateMany on the user's unspent rows. */
  function Swept(rows: map<TokenId, Row>, user: UserId, now: Time): (r: map<TokenId, Row>)
    ensures r.Keys == rows.Keys
    ensures !AnyLive(r, user)
    ensures forall id :: id in rows && (rows[id].user != user || rows[id].revokedAt.Some?) ==> r[id] == rows[id]
    ensures forall id :: id in rows ==> r[id] == rows[id].(revokedAt := r[id].revokedAt)
    ensures forall id :: id in rows && rows[id].user == user && rows[id].revokedAt.None? ==>
              r[id].revokedAt == Some(now)
  {
    map id | id in rows ::
      if rows[id].user == user && rows[id].revokedAt.None? then rows[id].(revokedAt := Some(now)) else rows[id]
  }

  /** updateMany on the unspent row with a hash. */
  function RevokedByHash(rows: map<TokenId, Row>, hash: Hash, now: Time): (r: map<TokenId, Row>)
    ensures r.Keys == rows.Keys
    ensures forall id :: id in rows && (rows[id].hash != hash || rows[id].revokedAt.Some?) ==> r[id] == rows[id]
    ensures forall id :: id in rows && rows[id].hash == hash && rows[id].revokedAt.None? ==>
              r[id].revokedAt == Some(now) && r[id].(revokedAt := None) == rows[id]
  {
    map id | id in rows ::
      if rows[id].hash == hash && rows[id].revokedAt.None? then rows[id].(revokedAt := Some(now)) else rows[id]
  }

  function NewRow(cfg: Config, jwt: Jwt, issuedAt: Time, now: Time): Row {
    Row(jwt.sub, HashOf(jwt), issuedAt, now + cfg.days * DAY_MS, None, None)
  }

  /** The successor to hand to a repeat, or None for a replay. `checkedAt` and `now` are its two clock reads. */
  function SuccessorWithinReuseInterval(cfg: Config, rows: map<TokenId, Row>, spent: Row, remember: bool,
                                        checkedAt: Time, now: Time): Option<Jwt> {
    if cfg.intervalMs == 0 || spent.revokedAt.None? || spent.replacedBy.None? then None
    else if checkedAt - spent.revokedAt.value > cfg.intervalMs then None
    else if spent.replacedBy.value !in rows then None
    else
      var successor := rows[spent.replacedBy.value];
      if successor.user != spent.user then None
      else if successor.revokedAt.Some? || successor.expiresAt <= now then None
      else
        var candidate := Sign(successor.user, spent.replacedBy.value, remember, successor.createdAt);
        if HashOf(candidate) == successor.hash then Some(candidate) else None
  }

  // ---- steps --------------------------------------------------------------------------------

  function Answered(st: State, r: RequestId, answer: Answer): State {
    st.(requests := st.requests - {r}, answers := st.answers[r := answer])
  }

  function Advanced(st: State, r: RequestId, phase: Phase): State
    requires r in st.requests
  {
    st.(requests := st.requests[r := st.requests[r].(phase := phase)])
  }

  /** Sign-in (and registration, password change): a new family. */
  function Login(cfg: Config, st: State, user: UserId, id: TokenId, remember: bool, issuedAt: Time, now: Time): State {
    if id in st.issued then st
    else
      var jwt := Sign(user, id, remember, issuedAt);
      st.(rows := st.rows[id := NewRow(cfg, jwt, issuedAt, now)], issued := st.issued[id := Issue(jwt, None, id, 0)])
  }

  /** A refresh request up to and including its first read; None is a string the server never signed. */
  ghost function Present(cfg: Config, st: State, r: RequestId, token: Option<Jwt>, now: Time): State {
    if r in st.requests || r in st.answers then st
    else if token.None? || !Verifies(cfg, token.value, now) then Answered(st, r, InvalidToken)
    else
      var found := FindByHash(st.rows, HashOf(token.value));
      if found.None? then Answered(st, r, ExpiredOrRevoked)
      else
        var row := st.rows[found.value];
        if row.revokedAt.Some? then
          st.(requests := st.requests[r := Request(token.value, row.user, Repeating(row))])
        else if row.expiresAt <= now then Answered(st, r, ExpiredOrRevoked)
        else if found.value != token.value.jti then Answered(st, r, Mismatch)
        else st.(requests := st.requests[r := Request(token.value, row.user, Spending(found.value))])
  }

  /** The compare-and-set and the successor's creation, one transaction. */
  function Spend(cfg: Config, st: State, r: RequestId, newId: TokenId, issuedAt: Time, now: Time): State {
    if r !in st.requests || !st.requests[r].phase.Spending? || newId in st.issued then st
    else
      var req, id := st.requests[r], st.requests[r].phase.id;
      if !IsLive(st.rows, id) || id !in st.issued then Advanced(st, r, Lost(id))
      else
        var jwt := Sign(req.user, newId, req.presented.remember, issuedAt);
        var spent := st.rows[id].(revokedAt := Some(now), replacedBy := Some(newId));
        var issue := Issue(jwt, Some(id), st.issued[id].root, st.issued[id].generation + 1);
        Answered(
          st.(rows := st.rows[id := spent][newId := NewRow(cfg, jwt, issuedAt, now)],
              issued := st.issued[newId := issue]),
          r, Given(req.presented, jwt))
  }

  function Reread(st: State, r: RequestId): State {
    if r !in st.requests || !st.requests[r].phase.Lost? then st
    else
      var id := st.requests[r].phase.id;
      Advanced(st, r, if id in st.rows then Repeating(st.rows[id]) else Replaying)
  }

  function AnswerRepeat(cfg: Config, st: State, r: RequestId, checkedAt: Time, now: Time): State {
    if r !in st.requests || !st.requests[r].phase.Repeating? then st
    else
      var req := st.requests[r];
      var successor :=
          SuccessorWithinReuseInterval(cfg, st.rows, req.phase.spent, req.presented.remember, checkedAt, now);
      if successor.Some? then Answered(st, r, Given(req.presented, successor.value)) else Advanced(st, r, Replaying)
  }

  function RejectReplay(st: State, r: RequestId, now: Time): State {
    if r !in st.requests || !st.requests[r].phase.Replaying? then st
    else
      var user := st.requests[r].user;
      Answered(st.(rows := Swept(st.rows, user, now)), r, SessionInvalidated(AnyLive(st.rows, user)))
  }

  datatype Step =
    | SLogin(user: UserId, id: TokenId, remember: bool, issuedAt: Time, now: Time)
    | SPresent(r: RequestId, token: Option<Jwt>, now: Time)
    | SSpend(r: RequestId, newId: TokenId, issuedAt: Time, now: Time)
    | SReread(r: RequestId)
    | SAnswerRepeat(r: RequestId, checkedAt: Time, now: Time)
    | SRejectReplay(r: RequestId, now: Time)
    | SCrash(r: RequestId)
    | SLogout(presented: Jwt, now: Time)
    | SSweep(user: UserId, now: Time)  // password reset and change, account deletion
    | SDeleteUser(user: UserId)        // the rows go with the user row

  ghost function Apply(cfg: Config, st: State, step: Step): State {
    match step
    case SLogin(user, id, remember, issuedAt, now) => Login(cfg, st, user, id, remember, issuedAt, now)
    case SPresent(r, token, now) => Present(cfg, st, r, token, now)
    case SSpend(r, newId, issuedAt, now) => Spend(cfg, st, r, newId, issuedAt, now)
    case SReread(r) => Reread(st, r)
    case SAnswerRepeat(r, checkedAt, now) => AnswerRepeat(cfg, st, r, checkedAt, now)
    case SRejectReplay(r, now) => RejectReplay(st, r, now)
    case SCrash(r) => st.(requests := st.requests - {r})
    case SLogout(token, now) => st.(rows := RevokedByHash(st.rows, HashOf(token), now))
    case SSweep(user, now) => st.(rows := Swept(st.rows, user, now))
    case SDeleteUser(user) => st.(rows := map id | id in st.rows && st.rows[id].user != user :: st.rows[id])
  }

  ghost function Run(cfg: Config, st: State, steps: seq<Step>): State {
    if steps == [] then st else Apply(cfg, Run(cfg, st, steps[..|steps| - 1]), steps[|steps| - 1])
  }

  // ---- the invariant ------------------------------------------------------------------------

  /** Families: a successor continues its parent's family, for the same user, as remembered as it was. */
  ghost predicate IssueOk(issued: map<TokenId, Issue>, id: TokenId)
    requires id in issued
  {
    var i := issued[id];
    && i.jwt.jti == id
    && (match i.parent
        case None => i.root == id && i.generation == 0
        case Some(p) => p in issued && i.root == issued[p].root && i.generation == issued[p].generation + 1
                        && i.jwt.sub == issued[p].jwt.sub && i.jwt.remember == issued[p].jwt.remember)
  }

  ghost predicate IssuedOk(issued: map<TokenId, Issue>) {
    && (forall id :: id in issued ==> IssueOk(issued, id))
    && (forall a, b :: a in issued && b in issued && issued[a].parent.Some? && issued[a].parent == issued[b].parent ==>
        a == b)
  }

  ghost predicate IsSuccessor(issued: map<TokenId, Issue>, id: TokenId, next: TokenId) {
    next in issued && issued[next].parent == Some(id)
  }

  ghost predicate RowOk(issued: map<TokenId, Issue>, id: TokenId, row: Row) {
    && id in issued
    && row.hash == HashOf(issued[id].jwt)
    && issued[id].jwt == Sign(row.user, id, issued[id].jwt.remember, row.createdAt)
    && (row.replacedBy.Some? ==> row.revokedAt.Some? && IsSuccessor(issued, id, row.replacedBy.value))
  }

  ghost predicate RowsOk(rows: map<TokenId, Row>, issued: map<TokenId, Issue>) {
    && (forall id :: id in rows ==> RowOk(issued, id, rows[id]))
    && (forall id :: id in issued && issued[id].parent.Some? && issued[id].parent.value in rows ==>
          rows[issued[id].parent.value].replacedBy == Some(id))
  }

  ghost predicate RequestOk(rows: map<TokenId, Row>, issued: map<TokenId, Issue>, req: Request) {
    && req.presented.jti in issued
    && issued[req.presented.jti].jwt == req.presented
    && req.user == req.presented.sub
    && match req.phase
       case Spending(id) => id == req.presented.jti
       case Lost(id) => id == req.presented.jti && !IsLive(rows, id)
       case Repeating(spent) => spent.revokedAt.Some? && RowOk(issued, req.presented.jti, spent)
                                && (req.presented.jti in rows ==> rows[req.presented.jti] == spent)
       case Replaying => true
  }

  ghost predicate RequestsOk(rows: map<TokenId, Row>, issued: map<TokenId, Issue>, requests: map<RequestId, Request>) {
    forall r :: r in requests ==> RequestOk(rows, issued, requests[r])
  }

  ghost predicate AnswerOk(issued: map<TokenId, Issue>, answer: Answer) {
    match answer
    case Given(presented, token) =>
      presented.jti in issued && issued[presented.jti].jwt == presented
      && IsSuccessor(issued, presented.jti, token.jti) && issued[token.jti].jwt == token
    case Mismatch => false
    case _ => true
  }

  ghost predicate AnswersOk(issued: map<TokenId, Issue>, answers: map<RequestId, Answer>) {
    forall r :: r in answers ==> AnswerOk(issued, answers[r])
  }

  ghost predicate Inv(st: State) {
    && IssuedOk(st.issued)
    && RowsOk(st.rows, st.issued)
    && RequestsOk(st.rows, st.issued, st.requests)
    && AnswersOk(st.issued, st.answers)
  }

  // ---- every step keeps it ------------------------------------------------------------------

  lemma Answering(st: State, r: RequestId, answer: Answer)
    requires Inv(st) && AnswerOk(st.issued, answer)
    ensures Inv(Answered(st, r, answer))
  {
    hide IssuedOk, RowsOk, RequestOk, AnswerOk;
  }

  /** A request enters a phase. */
  lemma Entering(st: State, r: RequestId, req: Request)
    requires Inv(st) && RequestOk(st.rows, st.issued, req)
    ensures Inv(st.(requests := st.requests[r := req]))
  {
    hide IssuedOk, RowsOk, RequestOk, AnswersOk;
  }

  /** Issuing a token: what was said of the others still holds. */
  lemma IssuedGrows(issued: map<TokenId, Issue>, id: TokenId, issue: Issue)
    requires IssuedOk(issued) && id !in issued
    requires IssueOk(issued[id := issue], id)
    requires issue.parent.Some? ==>
               issue.parent.value != id && forall k :: k in issued ==> issued[k].parent != issue.parent
    ensures IssuedOk(issued[id := issue])
  {
    var issued' := issued[id := issue];
    forall k | k in issued' ensures IssueOk(issued', k) {
      if k != id { assert IssueOk(issued, k); }
    }
  }

  lemma RequestsOutliveIssue(st: State, id: TokenId, issue: Issue)
    requires Inv(st) && id !in st.issued
    ensures RequestsOk(st.rows, st.issued[id := issue], st.requests) && AnswersOk(st.issued[id := issue], st.answers)
  {
    hide IssuedOk, RowsOk;
    var issued' := st.issued[id := issue];
    forall r | r in st.requests ensures RequestOk(st.rows, issued', st.requests[r]) {
      assert RequestOk(st.rows, st.issued, st.requests[r]);
    }
    forall r | r in st.answers ensures AnswerOk(issued', st.answers[r]) {
      assert AnswerOk(st.issued, st.answers[r]);
    }
  }

  /** A new unspent row changes nothing for the requests in flight: none is about it. */
  lemma RequestsOutliveRow(rows: map<TokenId, Row>, issued: map<TokenId, Issue>, requests: map<RequestId, Request>,
                           id: TokenId, rows': map<TokenId, Row>)
    requires RequestsOk(rows, issued, requests)
    requires forall r :: r in requests ==> requests[r].presented.jti != id
    requires forall k :: k in rows' && k != id ==> k in rows && (rows[k].revokedAt.Some? ==> rows'[k] == rows[k])
    ensures RequestsOk(rows', issued, requests)
  {
    hide RowOk;
    forall r | r in requests ensures RequestOk(rows', issued, requests[r]) {
      assert RequestOk(rows, issued, requests[r]);
    }
  }

  lemma PresentedIsIssued(st: State)
    requires Inv(st)
    ensures forall r :: r in st.requests ==> st.requests[r].presented.jti in st.issued
  {
    forall r | r in st.requests ensures st.requests[r].presented.jti in st.issued {
      assert RequestOk(st.rows, st.issued, st.requests[r]);
    }
  }

  lemma RowsGrow(rows: map<TokenId, Row>, issued: map<TokenId, Issue>, id: TokenId, row: Row, issue: Issue)
    requires RowsOk(rows, issued) && IssuedOk(issued) && id !in issued && issue.parent.None?
    requires RowOk(issued[id := issue], id, row)
    ensures RowsOk(rows[id := row], issued[id := issue])
  {
    var rows', issued' := rows[id := row], issued[id := issue];
    forall k | k in rows' ensures RowOk(issued', k, rows'[k]) {
      if k != id { assert RowOk(issued, k, rows[k]); }
    }
    forall k | k in issued' && issued'[k].parent.Some? && issued'[k].parent.value in rows'
      ensures rows'[issued'[k].parent.value].replacedBy == Some(k)
    {
      assert IssueOk(issued, k);
    }
  }

  lemma LoginKeeps(cfg: Config, st: State, user: UserId, id: TokenId, remember: bool, issuedAt: Time, now: Time)
    requires Inv(st)
    ensures Inv(Login(cfg, st, user, id, remember, issuedAt, now))
  {
    hide IssuedOk, RowsOk, RequestsOk, AnswersOk;
    if id !in st.issued {
      var st' := Login(cfg, st, user, id, remember, issuedAt, now);
      var issue := st'.issued[id];
      IssuedGrows(st.issued, id, issue);
      RowsGrow(st.rows, st.issued, id, st'.rows[id], issue);
      RequestsOutliveIssue(st, id, issue);
      PresentedIsIssued(st);
      RequestsOutliveRow(st.rows, st'.issued, st.requests, id, st'.rows);
    }
  }

  lemma RowsRotate(rows: map<TokenId, Row>, issued: map<TokenId, Issue>, id: TokenId, spent: Row, next: TokenId,
                   row: Row, issue: Issue)
    requires RowsOk(rows, issued) && IssuedOk(issued) && next !in issued && IsLive(rows, id)
    requires issue.parent == Some(id) && RowOk(issued[next := issue], next, row) && row.replacedBy.None?
    requires spent == rows[id].(revokedAt := spent.revokedAt, replacedBy := Some(next)) && spent.revokedAt.Some?
    ensures RowsOk(rows[id := spent][next := row], issued[next := issue])
    ensures forall k :: k in issued ==> issued[k].parent != Some(id)
  {
    assert RowOk(issued, id, rows[id]);
    var rows', issued' := rows[id := spent][next := row], issued[next := issue];
    forall k | k in rows' ensures RowOk(issued', k, rows'[k]) {
      if k != next { assert RowOk(issued, k, rows[k]); }
    }
    forall k | k in issued ensures issued[k].parent != Some(id) && issued[k].parent != Some(next) {
      assert IssueOk(issued, k);
    }
  }

  lemma SpendKeeps(cfg: Config, st: State, r: RequestId, newId: TokenId, issuedAt: Time, now: Time)
    requires Inv(st)
    ensures Inv(Spend(cfg, st, r, newId, issuedAt, now))
  {
    hide IssuedOk, RowsOk, RequestsOk, AnswersOk;
    if r in st.requests && st.requests[r].phase.Spending? && newId !in st.issued {
      var req, id := st.requests[r], st.requests[r].phase.id;
      RequestIn(st, r);
      if IsLive(st.rows, id) {
        var st' := Spend(cfg, st, r, newId, issuedAt, now);
        var issue := st'.issued[newId];
        RowIn(st, id);
        RowsRotate(st.rows, st.issued, id, st'.rows[id], newId, st'.rows[newId], issue);
        IssuedGrows(st.issued, newId, issue);
        RequestsOutliveIssue(st, newId, issue);
        PresentedIsIssued(st);
        RequestsOutliveRow(st.rows, st'.issued, st.requests, newId, st'.rows);
        Answering(st'.(requests := st.requests, answers := st.answers), r, st'.answers[r]);
      } else {
        Entering(st, r, req.(phase := Lost(id)));
      }
    }
  }

  lemma RequestIn(st: State, r: RequestId)
    requires Inv(st) && r in st.requests
    ensures RequestOk(st.rows, st.issued, st.requests[r])
  {}

  lemma RowIn(st: State, id: TokenId)
    requires Inv(st) && id in st.rows
    ensures RowOk(st.issued, id, st.rows[id]) && IssueOk(st.issued, id)
  {}

  lemma PresentKeeps(cfg: Config, st: State, r: RequestId, token: Option<Jwt>, now: Time)
    requires Inv(st)
    ensures Inv(Present(cfg, st, r, token, now))
  {
    hide Inv;
    if r in st.requests || r in st.answers {
    } else if token.None? || !Verifies(cfg, token.value, now) {
      Answering(st, r, InvalidToken);
    } else {
      var found := FindByHash(st.rows, HashOf(token.value));
      if found.None? || (st.rows[found.value].revokedAt.None? && st.rows[found.value].expiresAt <= now) {
        Answering(st, r, ExpiredOrRevoked);
      } else {
        RowIn(st, found.value);
        var row := st.rows[found.value];
        Entering(st, r,
                 Request(token.value, row.user, if row.revokedAt.Some? then Repeating(row) else Spending(found.value)));
      }
    }
  }

  lemma RereadKeeps(st: State, r: RequestId)
    requires Inv(st)
    ensures Inv(Reread(st, r))
  {
    hide Inv;
    if r in st.requests && st.requests[r].phase.Lost? {
      RequestIn(st, r);
      var id := st.requests[r].phase.id;
      if id in st.rows { RowIn(st, id); }
      Entering(st, r, st.requests[r].(phase := if id in st.rows then Repeating(st.rows[id]) else Replaying));
    }
  }

  /** In a reachable state the re-signed successor is always the string that was issued. */
  lemma CandidateIsIssued(cfg: Config, st: State, req: Request, checkedAt: Time, now: Time)
    requires Inv(st) && RequestOk(st.rows, st.issued, req) && req.phase.Repeating?
    ensures var spent := req.phase.spent;
            var c := SuccessorWithinReuseInterval(cfg, st.rows, spent, req.presented.remember, checkedAt, now);
            && (c.Some? <==>
                  && cfg.intervalMs > 0
                  && spent.replacedBy.Some?
                  && checkedAt - spent.revokedAt.value <= cfg.intervalMs
                  && IsLive(st.rows, spent.replacedBy.value)
                  && st.rows[spent.replacedBy.value].expiresAt > now)
            && (c.Some? ==> IsSuccessor(st.issued, req.presented.jti, spent.replacedBy.value)
                            && c.value == st.issued[spent.replacedBy.value].jwt)
  {
    hide RowsOk, RequestsOk, AnswersOk;
    var spent := req.phase.spent;
    if spent.replacedBy.Some? && spent.replacedBy.value in st.rows {
      var q := spent.replacedBy.value;
      RowIn(st, q);
      assert IssueOk(st.issued, req.presented.jti);
    }
  }

  lemma AnswerRepeatKeeps(cfg: Config, st: State, r: RequestId, checkedAt: Time, now: Time)
    requires Inv(st)
    ensures Inv(AnswerRepeat(cfg, st, r, checkedAt, now))
  {
    hide Inv, SuccessorWithinReuseInterval;
    if r in st.requests && st.requests[r].phase.Repeating? {
      RequestIn(st, r);
      var req := st.requests[r];
      var successor :=
          SuccessorWithinReuseInterval(cfg, st.rows, req.phase.spent, req.presented.remember, checkedAt, now);
      CandidateIsIssued(cfg, st, req, checkedAt, now);
      if successor.Some? {
        RowIn(st, req.phase.spent.replacedBy.value);
        Answering(st, r, Given(req.presented, successor.value));
      } else {
        Entering(st, r, req.(phase := Replaying));
      }
    }
  }

  /** Rows may go, and an unspent row may be revoked. */
  ghost predicate OnlyRevoked(rows: map<TokenId, Row>, rows': map<TokenId, Row>) {
    forall id :: id in rows' ==>
      id in rows && rows'[id] == rows[id].(revokedAt := rows'[id].revokedAt)
      && (rows[id].revokedAt.Some? ==> rows'[id] == rows[id])
  }

  lemma RevokingKeeps(st: State, rows': map<TokenId, Row>)
    requires Inv(st) && OnlyRevoked(st.rows, rows')
    ensures Inv(st.(rows := rows'))
  {
    hide IssuedOk, AnswersOk;
    forall id | id in rows' ensures RowOk(st.issued, id, rows'[id]) { assert RowOk(st.issued, id, st.rows[id]); }
    forall r | r in st.requests ensures RequestOk(rows', st.issued, st.requests[r]) {
      assert RequestOk(st.rows, st.issued, st.requests[r]);
    }
  }

  lemma RejectReplayKeeps(st: State, r: RequestId, now: Time)
    requires Inv(st)
    ensures Inv(RejectReplay(st, r, now))
  {
    hide Inv;
    if r in st.requests && st.requests[r].phase.Replaying? {
      var user := st.requests[r].user;
      RevokingKeeps(st, Swept(st.rows, user, now));
      Answering(st.(rows := Swept(st.rows, user, now)), r, SessionInvalidated(AnyLive(st.rows, user)));
    }
  }

  lemma StepKeeps(cfg: Config, st: State, step: Step)
    requires Inv(st)
    ensures Inv(Apply(cfg, st, step))
  {
    hide Inv, Login, Present, Spend, Reread, AnswerRepeat, RejectReplay;
    match step
    case SLogin(user, id, remember, issuedAt, now) => LoginKeeps(cfg, st, user, id, remember, issuedAt, now);
    case SPresent(r, token, now) => PresentKeeps(cfg, st, r, token, now);
    case SSpend(r, newId, issuedAt, now) => SpendKeeps(cfg, st, r, newId, issuedAt, now);
    case SReread(r) => RereadKeeps(st, r);
    case SAnswerRepeat(r, checkedAt, now) => AnswerRepeatKeeps(cfg, st, r, checkedAt, now);
    case SRejectReplay(r, now) => RejectReplayKeeps(st, r, now);
    case SCrash(r) => CrashKeeps(st, r);
    case SLogout(token, now) => RevokingKeeps(st, RevokedByHash(st.rows, HashOf(token), now));
    case SSweep(user, now) => RevokingKeeps(st, Swept(st.rows, user, now));
    case SDeleteUser(user) => RevokingKeeps(st, Apply(cfg, st, step).rows);
  }

  lemma CrashKeeps(st: State, r: RequestId)
    requires Inv(st)
    ensures Inv(st.(requests := st.requests - {r}))
  {
    hide IssuedOk, RowsOk, RequestOk, AnswersOk;
  }

  lemma {:induction false} RunKeeps(cfg: Config, steps: seq<Step>)
    ensures Inv(Run(cfg, EMPTY, steps))
  {
    hide Inv, Apply;
    if steps == [] {
      EmptyOk();
    } else {
      RunKeeps(cfg, steps[..|steps| - 1]);
      StepKeeps(cfg, Run(cfg, EMPTY, steps[..|steps| - 1]), steps[|steps| - 1]);
    }
  }

  lemma EmptyOk()
    ensures Inv(EMPTY)
  {}

  // ---- families -----------------------------------------------------------------------------

  /** A family is a line: one token per generation. */
  lemma {:induction false} OnePerGeneration(issued: map<TokenId, Issue>, a: TokenId, b: TokenId)
    requires IssuedOk(issued) && a in issued && b in issued
    requires issued[a].root == issued[b].root && issued[a].generation == issued[b].generation
    ensures a == b
    decreases issued[a].generation
  {
    assert IssueOk(issued, a) && IssueOk(issued, b);
    if issued[a].parent.Some? {
      OnePerGeneration(issued, issued[a].parent.value, issued[b].parent.value);
    }
  }

  lemma {:induction false} LiveIsLast(st: State, a: TokenId, b: TokenId)
    requires Inv(st) && IsLive(st.rows, a) && b in st.issued && a in st.issued && st.issued[a].root == st.issued[b].root
    ensures st.issued[b].generation <= st.issued[a].generation
    decreases st.issued[b].generation
  {
    hide RequestsOk, AnswersOk;
    if st.issued[b].generation > st.issued[a].generation {
      assert IssueOk(st.issued, b) && IssueOk(st.issued, a);
      var p := st.issued[b].parent.value;
      LiveIsLast(st, a, p);
      OnePerGeneration(st.issued, a, p);
      RowIn(st, a);
      assert false;
    }
  }

  /** Only the last token of a family can be unrevoked, so a sign-in never becomes two live sessions. */
  lemma OneLivePerFamily(cfg: Config, steps: seq<Step>, a: TokenId, b: TokenId)
    requires var st := Run(cfg, EMPTY, steps);
             IsLive(st.rows, a) && b in st.issued && a in st.issued && st.issued[a].root == st.issued[b].root
    ensures var st := Run(cfg, EMPTY, steps);
            && st.issued[b].generation <= st.issued[a].generation
            && (IsLive(st.rows, b) ==> a == b)
  {
    hide Run, Inv;
    var st := Run(cfg, EMPTY, steps);
    RunKeeps(cfg, steps);
    LiveIsLast(st, a, b);
    if IsLive(st.rows, b) {
      LiveIsLast(st, b, a);
      assert IssuedOk(st.issued) by { InvIssued(st); }
      OnePerGeneration(st.issued, a, b);
    }
  }

  lemma InvIssued(st: State)
    requires Inv(st)
    ensures IssuedOk(st.issued)
  {}

  // ---- what a presented token is answered with ------------------------------------------------

  /**
    However many requests present one token, and whether they rotated it or repeated it, they all
    get the same string.
   */
  lemma SameTokenForAll(cfg: Config, steps: seq<Step>, r: RequestId, q: RequestId)
    requires var st := Run(cfg, EMPTY, steps);
             && r in st.answers && q in st.answers && st.answers[r].Given? && st.answers[q].Given?
             && st.answers[r].presented == st.answers[q].presented
    ensures var st := Run(cfg, EMPTY, steps);
            && st.answers[r].token == st.answers[q].token
            && st.answers[r].token.sub == st.answers[r].presented.sub
            && st.answers[r].token.remember == st.answers[r].presented.remember
  {
    hide Run, RowsOk, RequestsOk;
    var st := Run(cfg, EMPTY, steps);
    RunKeeps(cfg, steps);
    assert AnswerOk(st.issued, st.answers[r]) && AnswerOk(st.issued, st.answers[q]);
    assert IssueOk(st.issued, st.answers[r].token.jti);
  }

  /** Presenting a string that was issued: its own row decides, and a spent one always becomes a repeat. */
  lemma IssuedIsFound(cfg: Config, steps: seq<Step>, r: RequestId, id: TokenId, now: Time)
    requires var st := Run(cfg, EMPTY, steps); id in st.rows && r !in st.requests && r !in st.answers
    requires id in Run(cfg, EMPTY, steps).issued && Verifies(cfg, Run(cfg, EMPTY, steps).issued[id].jwt, now)
    ensures var st := Run(cfg, EMPTY, steps);
            var st' := Apply(cfg, st, SPresent(r, Some(st.issued[id].jwt), now));
            var row := st.rows[id];
            if row.revokedAt.None? && row.expiresAt <= now then
              r in st'.answers && st'.answers[r] == ExpiredOrRevoked
            else
              var phase := if row.revokedAt.Some? then Repeating(row) else Spending(id);
              r in st'.requests && st'.requests[r] == Request(st.issued[id].jwt, row.user, phase)
  {
    hide Run, Inv;
    var st := Run(cfg, EMPTY, steps);
    RunKeeps(cfg, steps);
    RowIn(st, id);
    var found := FindByHash(st.rows, HashOf(st.issued[id].jwt));
    if found.Some? { RowIn(st, found.value); }
  }

  /** The row found by the presented string is always the one its claims name. */
  lemma NeverMismatch(cfg: Config, steps: seq<Step>, r: RequestId)
    requires r in Run(cfg, EMPTY, steps).answers
    ensures Run(cfg, EMPTY, steps).answers[r] != Mismatch
  {
    hide Run, IssuedOk, RowsOk, RequestsOk;
    RunKeeps(cfg, steps);
  }

  /**
    A repeat is answered exactly when the presented token is the immediate parent of a live, unexpired
    token and was spent within the interval; it gets the string issued then. Otherwise it is a replay.
   */
  lemma RepeatAnswered(cfg: Config, steps: seq<Step>, r: RequestId, checkedAt: Time, now: Time)
    requires var st := Run(cfg, EMPTY, steps); r in st.requests && st.requests[r].phase.Repeating?
    ensures var st := Run(cfg, EMPTY, steps);
            var st' := Apply(cfg, st, SAnswerRepeat(r, checkedAt, now));
            var req := st.requests[r];
            && req.phase.spent.revokedAt.Some?
            && st'.rows == st.rows
            && (if exists next :: IsSuccessor(st.issued, req.presented.jti, next) && IsLive(st.rows, next)
                                  && st.rows[next].expiresAt > now && cfg.intervalMs > 0
                                  && req.phase.spent.replacedBy == Some(next)
                                  && checkedAt - req.phase.spent.revokedAt.value <= cfg.intervalMs
                then r !in st'.requests && r in st'.answers && st'.answers[r].Given?
                    && st'.answers[r].presented == req.presented
                     && IsSuccessor(st.issued, req.presented.jti, st'.answers[r].token.jti)
                     && st'.answers[r].token == st.issued[st'.answers[r].token.jti].jwt
                else r in st'.requests && st'.requests[r] == req.(phase := Replaying))
  {
    hide Run, Inv, SuccessorWithinReuseInterval;
    var st := Run(cfg, EMPTY, steps);
    RunKeeps(cfg, steps);
    RequestIn(st, r);
    var req := st.requests[r];
    CandidateIsIssued(cfg, st, req, checkedAt, now);
    if req.phase.spent.replacedBy.Some? && IsLive(st.rows, req.phase.spent.replacedBy.value) {
      RowIn(st, req.phase.spent.replacedBy.value);
    }
  }

  /** A stored row outlives its string: while the string verifies, the row is not expired. */
  lemma RowOutlivesString(cfg: Config, jwt: Jwt, issuedAt: Time, now: Time, later: Time)
    requires jwt.iat == issuedAt / 1000 && issuedAt <= now && Verifies(cfg, jwt, later)
    ensures later < NewRow(cfg, jwt, issuedAt, now).expiresAt
  {
    assert later < (later / 1000 + 1) * 1000 <= (issuedAt / 1000 + cfg.days * DAY_S) * 1000;
  }

  /**
    A session works: as long as its string verifies, refreshing it once hands on a new live token
    with the same claims.
   */
  lemma SessionRefreshes(cfg: Config, steps: seq<Step>, user: UserId, id: TokenId, remember: bool, issuedAt: Time,
                         now: Time,
                         r: RequestId, later: Time, newId: TokenId, reissuedAt: Time, spentAt: Time)
    requires var st := Run(cfg, EMPTY, steps);
             id !in st.issued && newId !in st.issued && newId != id && r !in st.requests && r !in st.answers
    requires issuedAt <= now && Verifies(cfg, Sign(user, id, remember, issuedAt), later)
    ensures var st1 := Apply(cfg, Run(cfg, EMPTY, steps), SLogin(user, id, remember, issuedAt, now));
            var st2 := Apply(cfg, st1, SPresent(r, Some(Sign(user, id, remember, issuedAt)), later));
            var st3 := Apply(cfg, st2, SSpend(r, newId, reissuedAt, spentAt));
            && r in st3.answers
            && st3.answers[r] == Given(Sign(user, id, remember, issuedAt), Sign(user, newId, remember, reissuedAt))
            && !IsLive(st3.rows, id) && IsLive(st3.rows, newId)
            && st3.rows[newId].hash == HashOf(Sign(user, newId, remember, reissuedAt))
  {
    hide Inv, Run, Verifies;
    var st := Run(cfg, EMPTY, steps);
    RunKeeps(cfg, steps);
    var st1 := Apply(cfg, st, SLogin(user, id, remember, issuedAt, now));
    StepKeeps(cfg, st, SLogin(user, id, remember, issuedAt, now));
    var jwt := Sign(user, id, remember, issuedAt);
    RowOutlivesString(cfg, jwt, issuedAt, now, later);
    assert id in st1.rows && st1.rows[id].hash == HashOf(jwt);
    var found := FindByHash(st1.rows, HashOf(jwt));
    RowIn(st1, found.value);
    assert found == Some(id);
    var st2 := Apply(cfg, st1, SPresent(r, Some(jwt), later));
    assert st2.requests[r] == Request(jwt, user, Spending(id)) && st2.rows == st1.rows && st2.issued == st1.issued;
    SpendingLive(cfg, st2, r, newId, reissuedAt, spentAt);
  }

  lemma SpendingLive(cfg: Config, st: State, r: RequestId, newId: TokenId, issuedAt: Time, now: Time)
    requires r in st.requests && st.requests[r].phase.Spending? && newId !in st.issued
    requires IsLive(st.rows, st.requests[r].phase.id) && st.requests[r].phase.id in st.issued
    ensures var st' := Spend(cfg, st, r, newId, issuedAt, now);
            var token := Sign(st.requests[r].user, newId, st.requests[r].presented.remember, issuedAt);
            && r in st'.answers && st'.answers[r] == Given(st.requests[r].presented, token)
            && !IsLive(st'.rows, st.requests[r].phase.id) && IsLive(st'.rows, newId)
            && st'.rows[newId].hash == HashOf(token)
  {}

  // ---- the race for one token -----------------------------------------------------------------

  /** A request that lost the race reads the token's row again, and the row decides what it is. */
  lemma LoserReadsAgain(cfg: Config, steps: seq<Step>, r: RequestId)
    requires var st := Run(cfg, EMPTY, steps); r in st.requests && st.requests[r].phase.Lost?
    ensures var st := Run(cfg, EMPTY, steps);
            var st' := Apply(cfg, st, SReread(r));
            var id := st.requests[r].presented.jti;
            && st'.rows == st.rows && st'.answers == st.answers && st'.issued == st.issued && r in st'.requests
            && (id in st.rows ==> st.rows[id].revokedAt.Some?)
            && st'.requests[r] == st.requests[r].(phase := if id in st.rows then Repeating(st.rows[id]) else Replaying)
  {
    hide Run, Inv;
    RunKeeps(cfg, steps);
    RequestIn(Run(cfg, EMPTY, steps), r);
  }

  /** Where the row is gone, the loser is refused as a replay. */
  lemma LoserOfGoneRow(cfg: Config, steps: seq<Step>, r: RequestId, now: Time)
    requires var st := Run(cfg, EMPTY, steps);
             r in st.requests && st.requests[r].phase.Lost? && st.requests[r].presented.jti !in st.rows
    ensures var st' := Apply(cfg, Apply(cfg, Run(cfg, EMPTY, steps), SReread(r)), SRejectReplay(r, now));
            && r in st'.answers && st'.answers[r].SessionInvalidated?
            && !AnyLive(st'.rows, Run(cfg, EMPTY, steps).requests[r].user)
  {
    hide Run, Inv, Reread, AnyLive;
    LoserReadsAgain(cfg, steps, r);
    var st1 := Apply(cfg, Run(cfg, EMPTY, steps), SReread(r));
    assert st1.requests[r].phase == Replaying;
  }

  lemma SpendingSpent(cfg: Config, st: State, r: RequestId, newId: TokenId, issuedAt: Time, now: Time)
    requires r in st.requests && st.requests[r].phase.Spending? && newId !in st.issued
    requires !IsLive(st.rows, st.requests[r].phase.id)
    ensures Spend(cfg, st, r, newId, issuedAt, now)
         == st.(requests := st.requests[r := st.requests[r].(phase := Lost(st.requests[r].phase.id))])
  {}

  /** What the winner's transaction leaves for the loser to find. */
  lemma SpentBy(cfg: Config, st: State, r: RequestId, q: RequestId, newId: TokenId, issuedAt: Time, now: Time)
    requires r in st.requests && q in st.requests && q != r && st.requests[r].phase.Spending? && newId !in st.issued
    requires IsLive(st.rows, st.requests[r].phase.id) && st.requests[r].phase.id in st.issued
    requires st.requests[r].phase.id != newId
    ensures var st' := Spend(cfg, st, r, newId, issuedAt, now);
            var id := st.requests[r].phase.id;
            && q in st'.requests && st'.requests[q] == st.requests[q]
            && st'.issued.Keys == st.issued.Keys + {newId}
            && id in st'.rows && st'.rows[id] == st.rows[id].(revokedAt := Some(now), replacedBy := Some(newId))
            && newId in st'.rows && st'.rows[newId].revokedAt.None?
            && st'.rows[newId].expiresAt == now + cfg.days * 86_400_000
  {}

  /**
    Two tabs present one live token at once: one spends it; the other loses, reads the row again and, as
    long as the interval since the spending has not passed and the successor has not expired, is given
    the very same token. That token stays live, and nothing else is revoked. Otherwise it is a replay.
   */
  lemma RaceGivesOneToken(cfg: Config, steps: seq<Step>, winner: RequestId, loser: RequestId, newId: TokenId,
                          issuedAt: Time, spentAt: Time, otherId: TokenId, otherIssuedAt: Time, otherAt: Time,
                          checkedAt: Time, now: Time)
    requires var st := Run(cfg, EMPTY, steps);
             && winner != loser && winner in st.requests && loser in st.requests
             && st.requests[winner].phase.Spending? && st.requests[loser].phase == st.requests[winner].phase
             && IsLive(st.rows, st.requests[winner].phase.id)
             && newId !in st.issued && otherId !in st.issued && otherId != newId
    ensures var st := Run(cfg, EMPTY, steps);
            var st1 := Apply(cfg, st, SSpend(winner, newId, issuedAt, spentAt));
            var st2 := Apply(cfg, st1, SSpend(loser, otherId, otherIssuedAt, otherAt));
            var st4 := Apply(cfg, Apply(cfg, st2, SReread(loser)), SAnswerRepeat(loser, checkedAt, now));
            var token := Sign(st.requests[winner].user, newId, st.requests[winner].presented.remember, issuedAt);
            && winner in st1.answers && st1.answers[winner] == Given(st.requests[winner].presented, token)
            && winner in st4.answers && st4.answers[winner] == st1.answers[winner]
            && st4.rows == st1.rows && IsLive(st4.rows, newId)
            && (if cfg.intervalMs > 0 && checkedAt - spentAt <= cfg.intervalMs && now < spentAt + cfg.days * 86_400_000
                then loser in st4.answers && st4.answers[loser] == Given(st.requests[loser].presented, token)
                     && st4.answers[loser] == st4.answers[winner]
                else loser in st4.requests && st4.requests[loser].phase == Replaying)
  {
    hide Run, Inv, Spend, Reread, AnswerRepeat, Sign, SuccessorWithinReuseInterval;
    var st := Run(cfg, EMPTY, steps);
    RunKeeps(cfg, steps);
    RequestIn(st, winner);
    RequestIn(st, loser);
    var id := st.requests[winner].phase.id;
    RowIn(st, id);
    SpendingLive(cfg, st, winner, newId, issuedAt, spentAt);
    SpentBy(cfg, st, winner, loser, newId, issuedAt, spentAt);
    var st1 := Apply(cfg, st, SSpend(winner, newId, issuedAt, spentAt));
    SpendKeeps(cfg, st, winner, newId, issuedAt, spentAt);
    SpendingSpent(cfg, st1, loser, otherId, otherIssuedAt, otherAt);
    var st2 := Apply(cfg, st1, SSpend(loser, otherId, otherIssuedAt, otherAt));
    SpendKeeps(cfg, st1, loser, otherId, otherIssuedAt, otherAt);
    LoserRepeats(cfg, st2, loser, newId, checkedAt, now, spentAt);
    RowIn(st1, newId);
    AnswerIn(st1, winner);
  }

  lemma AnswerIn(st: State, r: RequestId)
    requires Inv(st) && r in st.answers
    ensures AnswerOk(st.issued, st.answers[r])
  {}

  /** From Lost to an answer, the row's successor being there. */
  lemma LoserRepeats(cfg: Config, st: State, r: RequestId, next: TokenId, checkedAt: Time, now: Time, spentAt: Time)
    requires Inv(st) && r in st.requests && st.requests[r].phase.Lost?
    requires var id := st.requests[r].presented.jti;
             && id in st.rows && st.rows[id].revokedAt == Some(spentAt) && st.rows[id].replacedBy == Some(next)
             && IsLive(st.rows, next)
    ensures next in st.issued
    ensures var st' := AnswerRepeat(cfg, Reread(st, r), r, checkedAt, now);
            && st'.rows == st.rows
            && (forall q :: q in st.answers && q != r ==> q in st'.answers && st'.answers[q] == st.answers[q])
            && (if cfg.intervalMs > 0 && checkedAt - spentAt <= cfg.intervalMs && now < st.rows[next].expiresAt
                then r in st'.answers && st'.answers[r] == Given(st.requests[r].presented, st.issued[next].jwt)
                else r in st'.requests && st'.requests[r].phase == Replaying)
  {
    hide Inv, SuccessorWithinReuseInterval;
    RequestIn(st, r);
    RereadKeeps(st, r);
    var st3 := Reread(st, r);
    RequestIn(st3, r);
    CandidateIsIssued(cfg, st3, st3.requests[r], checkedAt, now);
    RowIn(st, next);
  }

  // ---- what a step leaves alone -----------------------------------------------------------------

  /** The token rows that a step may be about. */
  predicate Concerns(st: State, step: Step, id: TokenId) {
    match step
    case SLogin(_, newId, _, _, _) => id == newId
    case SSpend(r, newId, _, _) => id == newId || (r in st.requests && st.requests[r].phase == Spending(id))
    case SRejectReplay(r, _) => r in st.requests && id in st.rows && st.rows[id].user == st.requests[r].user
    case SLogout(presented, _) => id in st.rows && st.rows[id].hash == HashOf(presented)
    case SSweep(user, _) => id in st.rows && st.rows[id].user == user
    case SDeleteUser(user) => id in st.rows && st.rows[id].user == user
    case _ => false
  }

  /** No call touches any other row: not another session's, not another user's. */
  lemma OthersLeftAlone(cfg: Config, st: State, step: Step, id: TokenId)
    requires !Concerns(st, step, id)
    ensures var st' := Apply(cfg, st, step);
            (id in st'.rows <==> id in st.rows) && (id in st.rows ==> st'.rows[id] == st.rows[id])
  {
    hide SuccessorWithinReuseInterval, FindByHash, Sign, NewRow, Verifies, AnyLive;
  }

  /** And none touches another request in flight. */
  lemma RequestsLeftAlone(cfg: Config, st: State, step: Step, q: RequestId)
    requires q in st.requests
    requires step.SPresent? || step.SSpend? || step.SReread? || step.SAnswerRepeat? || step.SRejectReplay?
               || step.SCrash? ==>
               step.r != q
    ensures var st' := Apply(cfg, st, step); q in st'.requests && st'.requests[q] == st.requests[q]
  {
    hide SuccessorWithinReuseInterval, FindByHash, Sign, NewRow, Verifies, AnyLive, Swept, RevokedByHash;
  }

  /** A sweep leaves the user no live token, and deleting the user leaves them no token. */
  lemma SweepAndDelete(cfg: Config, st: State, user: UserId, now: Time)
    ensures !AnyLive(Apply(cfg, st, SSweep(user, now)).rows, user)
    ensures var rows := Apply(cfg, st, SDeleteUser(user)).rows; forall id :: id in rows ==> rows[id].user != user
  {}

  // ---- what a string says ---------------------------------------------------------------------

  /** A string gives back what was signed into it, to the second; two that are equal were signed for the same. */
  lemma ClaimsComeBack(user: UserId, id: TokenId, remember: bool, at: Time, user': UserId, id': TokenId,
                       remember': bool, at': Time)
    ensures var jwt := Sign(user, id, remember, at);
            jwt.sub == user && jwt.jti == id && jwt.remember == remember && jwt.iat * 1000 <= at < (jwt.iat + 1) * 1000
    ensures Sign(user, id, remember, at) == Sign(user', id', remember', at') <==>
              user == user' && id == id' && remember == remember' && at - at % 1000 == at' - at' % 1000
  {
    assert at == at / 1000 * 1000 + at % 1000 && at' == at' / 1000 * 1000 + at' % 1000;
  }

  // ---- how long a string is good for ------------------------------------------------------------

  /** A refresh string verifies for its days, counted from the second it was issued in, and no longer. */
  lemma StringLastsItsDays(cfg: Config, user: UserId, id: TokenId, remember: bool, issuedAt: Time, now: Time)
    ensures var second := issuedAt - issuedAt % 1000;
            Verifies(cfg, Sign(user, id, remember, issuedAt), now) <==> now < second + cfg.days * 86_400_000
  {
    assert issuedAt == issuedAt / 1000 * 1000 + issuedAt % 1000;
    assert now == now / 1000 * 1000 + now % 1000;
  }

  /** A string that was never signed, has expired, or is stored nowhere is refused, and nothing is revoked. */
  lemma StrangerIsRefused(cfg: Config, st: State, r: RequestId, token: Option<Jwt>, now: Time)
    requires r !in st.requests && r !in st.answers
    requires token.Some? ==>
               !Verifies(cfg, token.value, now) || forall id :: id in st.rows ==>
                   st.rows[id].hash != HashOf(token.value)
    ensures var st' := Apply(cfg, st, SPresent(r, token, now));
            && st'.rows == st.rows && r !in st'.requests && r in st'.answers
            && st'.answers[r] == if token.Some?
                 && Verifies(cfg, token.value, now) then ExpiredOrRevoked else InvalidToken
  {
    hide Verifies;
  }

  /** Signing out revokes the presented token and touches no other row, of that user or any other. */
  lemma LogoutRevokesOne(cfg: Config, steps: seq<Step>, id: TokenId, now: Time, other: TokenId)
    requires var st := Run(cfg, EMPTY, steps); id in st.rows && id in st.issued && other in st.rows && other != id
    ensures var st := Run(cfg, EMPTY, steps);
            var st' := Apply(cfg, st, SLogout(st.issued[id].jwt, now));
            && id in st'.rows && !IsLive(st'.rows, id) && st'.rows.Keys == st.rows.Keys
            && st'.rows[other] == st.rows[other]
            && (IsLive(st.rows, id) ==> st'.rows[id] == st.rows[id].(revokedAt := Some(now)))
            && st' == st.(rows := st'.rows)
  {
    hide Run, Inv;
    var st := Run(cfg, EMPTY, steps);
    RunKeeps(cfg, steps);
    RowIn(st, id);
    RowIn(st, other);
  }

  /** A spent token's row never changes again: it can only go with its user. */
  lemma {:induction false} SpentForGood(cfg: Config, st: State, steps: seq<Step>, id: TokenId)
    requires Inv(st) && id in st.rows && st.rows[id].revokedAt.Some?
    ensures Inv(Run(cfg, st, steps))
    ensures var rows := Run(cfg, st, steps).rows; id in rows ==> rows[id] == st.rows[id]
    ensures id in Run(cfg, st, steps).issued
  {
    hide Inv, Apply;
    if steps != [] {
      var before := Run(cfg, st, steps[..|steps| - 1]);
      SpentForGood(cfg, st, steps[..|steps| - 1], id);
      StepKeeps(cfg, before, steps[|steps| - 1]);
      SpentStays(cfg, before, steps[|steps| - 1], id);
    } else {
      RowIn(st, id);
    }
  }

  lemma SpentStays(cfg: Config, st: State, step: Step, id: TokenId)
    requires id in st.issued
    ensures var st' := Apply(cfg, st, step);
            && id in st'.issued
            && (id in st'.rows ==> id in st.rows && (st.rows[id].revokedAt.Some? ==> st'.rows[id] == st.rows[id]))
  {
    hide SuccessorWithinReuseInterval, FindByHash, Sign, NewRow, Verifies;
  }

  /**
    A request that has seen its token spent (or lost the race to spend it) ends in one of two ways: it
    is given the successor, or it is refused at a commit that leaves its user with no live token.
   */
  lemma ReuseEnds(cfg: Config, st: State, step: Step, r: RequestId)
    requires r in st.requests && !st.requests[r].phase.Spending? && r !in st.answers
    ensures var st' := Apply(cfg, st, step);
            if r in st'.requests then
              st'.requests[r] == st.requests[r].(phase := st'.requests[r].phase) && !st'.requests[r].phase.Spending?
                  && r !in st'.answers
            else if r in st'.answers then
              match st'.answers[r]
              case Given(_, _) => st.requests[r].phase.Repeating? && st'.rows == st.rows
              case SessionInvalidated(alert) =>
                !AnyLive(st'.rows, st.requests[r].user) && (alert <==> AnyLive(st.rows, st.requests[r].user))
              case _ => false
            else step == SCrash(r)
  {
    hide SuccessorWithinReuseInterval, FindByHash, AnyLive, Sign, NewRow, RevokedByHash, Verifies, IsLive;
  }

  lemma StaysDead(cfg: Config, st: State, step: Step, user: UserId)
    requires Inv(st) && !AnyLive(st.rows, user) && !(step.SLogin? && step.user == user)
    ensures !AnyLive(Apply(cfg, st, step).rows, user)
  {
    hide Inv, SuccessorWithinReuseInterval, FindByHash;
    if step.SSpend? && step.r in st.requests {
      RequestIn(st, step.r);
      var id := st.requests[step.r].presented.jti;
      if id in st.rows { RowIn(st, id); }
    }
  }

  /** Containment: once a user has no live token, no request in flight can make one; only a new sign-in does. */
  lemma {:induction false} DeadUntilLogin(cfg: Config, st: State, steps: seq<Step>, user: UserId)
    requires Inv(st) && !AnyLive(st.rows, user)
    requires forall i :: 0 <= i < |steps| ==> !(steps[i].SLogin? && steps[i].user == user)
    ensures Inv(Run(cfg, st, steps)) && !AnyLive(Run(cfg, st, steps).rows, user)
  {
    hide Inv, Apply, AnyLive;
    if steps != [] {
      var init, last := steps[..|steps| - 1], steps[|steps| - 1];
      assert last == steps[|steps| - 1];
      DeadUntilLogin(cfg, st, init, user);
      StepKeeps(cfg, Run(cfg, st, init), last);
      StaysDead(cfg, Run(cfg, st, init), last, user);
    }
  }

  /** The owner is told once: after a refusal, no later replay alerts until someone signs in again. */
  lemma AlertedOnce(cfg: Config, steps: seq<Step>, r: RequestId, now: Time, more: seq<Step>, q: RequestId, later: Time)
    requires var st := Run(cfg, EMPTY, steps); r in st.requests && st.requests[r].phase.Replaying?
    requires var st := Run(cfg, EMPTY, steps);
             var st' := Run(cfg, Apply(cfg, st, SRejectReplay(r, now)), more);
             && q in st'.requests && st'.requests[q].phase.Replaying? && st'.requests[q].user == st.requests[r].user
             && forall i :: 0 <= i < |more| ==> !(more[i].SLogin? && more[i].user == st.requests[r].user)
    ensures var st' := Run(cfg, Apply(cfg, Run(cfg, EMPTY, steps), SRejectReplay(r, now)), more);
            Apply(cfg, st', SRejectReplay(q, later)).answers[q] == SessionInvalidated(false)
  {
    hide Inv, AnyLive, Run;
    RunKeeps(cfg, steps);
    var st := Run(cfg, EMPTY, steps);
    StepKeeps(cfg, st, SRejectReplay(r, now));
    DeadUntilLogin(cfg, Apply(cfg, st, SRejectReplay(r, now)), more, st.requests[r].user);
  }
}

/** The service over its token table, one method per database call of a handler. */
module TokenService {
  import opened Options
  import opened RefreshTokens

  class TokenStore {
    const cfg: Config
    var rows: map<TokenId, Row>
    var requests: map<RequestId, Request>
    var answers: map<RequestId, Answer>
    ghost var issued: map<TokenId, Issue>

    ghost function Model(): State
      reads this
    {
      State(rows, requests, answers, issued)
    }

    ghost predicate Valid()
      reads this
    {
      Inv(Model())
    }

    constructor (cfg: Config)
      ensures Valid() && Model() == EMPTY && this.cfg == cfg
    {
      this.cfg := cfg;
      rows, requests, answers, issued := map[], map[], map[], map[];
      new;
      EmptyOk();
    }

    /** createSessionTokens. `id` is a random UUID: a repeated one is refused by the primary key. */
    method CreateSessionTokens(user: UserId, id: TokenId, remember: bool, issuedAt: Time,
                               now: Time) returns (token: Jwt)
      requires Valid() && id !in issued
      modifies this
      ensures Valid() && Model() == Apply(cfg, old(Model()), SLogin(user, id, remember, issuedAt, now))
      ensures IsLive(rows, id) && rows[id].hash == HashOf(token) && issued[id].jwt == token
    {
      StepKeeps(cfg, Model(), SLogin(user, id, remember, issuedAt, now));
      token := Sign(user, id, remember, issuedAt);
      rows := rows[id := NewRow(cfg, token, issuedAt, now)];
      issued := issued[id := Issue(token, None, id, 0)];
    }

    /** findUnique by tokenHash: at most one row has it. */
    method FindUnique(hash: Hash) returns (found: Option<TokenId>)
      requires Valid()
      ensures found == FindByHash(rows, hash)
    {
      if id :| id in rows && rows[id].hash == hash {
        ghost var other := FindByHash(rows, hash).value;
        RowIn(Model(), id);
        RowIn(Model(), other);
        found := Some(id);
      } else {
        found := None;
      }
    }

    method Finish(r: RequestId, answer: Answer)
      modifies this`requests, this`answers
      ensures Model() == Answered(old(Model()), r, answer)
    {
      requests, answers := requests - {r}, answers[r := answer];
    }

    method Continue(r: RequestId, request: Request)
      modifies this`requests
      ensures requests == old(requests)[r := request]
    {
      requests := requests[r := request];
    }

    /** The start of a refresh: verify, read the row, decide. */
    method StartRefresh(r: RequestId, token: Option<Jwt>, now: Time)
      requires Valid() && r !in requests && r !in answers
      modifies this
      ensures Valid() && Model() == Apply(cfg, old(Model()), SPresent(r, token, now))
    {
      hide Inv;
      StepKeeps(cfg, Model(), SPresent(r, token, now));
      if token.None? || !Verifies(cfg, token.value, now) {
        Finish(r, InvalidToken);
        return;
      }
      var found := FindUnique(HashOf(token.value));
      if found.None? {
        Finish(r, ExpiredOrRevoked);
        return;
      }
      var row := rows[found.value];
      if row.revokedAt.Some? {
        Continue(r, Request(token.value, row.user, Repeating(row)));
      } else if row.expiresAt <= now {
        Finish(r, ExpiredOrRevoked);
      } else if found.value != token.value.jti {
        Finish(r, Mismatch);
      } else {
        Continue(r, Request(token.value, row.user, Spending(found.value)));
      }
    }

    /** The transaction: spend the row while it is unspent, and only then create the successor. */
    method SpendToken(r: RequestId, newId: TokenId, issuedAt: Time, now: Time) returns (rotated: bool)
      requires Valid() && r in requests && requests[r].phase.Spending? && newId !in issued
      modifies this
      ensures Valid() && Model() == Apply(cfg, old(Model()), SSpend(r, newId, issuedAt, now))
      ensures rotated <==> IsLive(old(rows), old(requests[r].phase.id))
      ensures rotated ==> IsLive(rows, newId) && !IsLive(rows, old(requests[r].phase.id))
    {
      hide RowsOk, IssuedOk, AnswersOk;
      RequestIn(Model(), r);
      StepKeeps(cfg, Model(), SSpend(r, newId, issuedAt, now));
      var req, id := requests[r], requests[r].phase.id;
      rotated := id in rows && rows[id].revokedAt.None?;
      if rotated {
        rows := rows[id := rows[id].(revokedAt := Some(now), replacedBy := Some(newId))];
        var token := Sign(req.user, newId, req.presented.remember, issuedAt);
        rows := rows[newId := NewRow(cfg, token, issuedAt, now)];
        issued := issued[newId := Issue(token, Some(id), issued[id].root, issued[id].generation + 1)];
        Finish(r, Given(req.presented, token));
      } else {
        Continue(r, req.(phase := Lost(id)));
      }
    }

    method ReadAgain(r: RequestId)
      requires Valid() && r in requests && requests[r].phase.Lost?
      modifies this
      ensures Valid() && Model() == Apply(cfg, old(Model()), SReread(r))
      ensures var id := old(requests[r]).presented.jti;
              && rows == old(rows) && answers == old(answers) && r in requests
              && requests[r].phase == if id in rows then Repeating(rows[id]) else Replaying
    {
      hide Inv;
      RequestIn(Model(), r);
      StepKeeps(cfg, Model(), SReread(r));
      var id := requests[r].phase.id;
      if id in rows {
        Continue(r, requests[r].(phase := Repeating(rows[id])));
      } else {
        Continue(r, requests[r].(phase := Replaying));
      }
    }

    method Repeat(r: RequestId, checkedAt: Time, now: Time) returns (answered: bool)
      requires Valid() && r in requests && requests[r].phase.Repeating?
      modifies this
      ensures Valid() && Model() == Apply(cfg, old(Model()), SAnswerRepeat(r, checkedAt, now))
      ensures answered <==> r !in requests
    {
      hide Inv;
      StepKeeps(cfg, Model(), SAnswerRepeat(r, checkedAt, now));
      var req := requests[r];
      var successor := SuccessorWithinReuseInterval(cfg, rows, req.phase.spent, req.presented.remember, checkedAt, now);
      answered := successor.Some?;
      if answered {
        Finish(r, Given(req.presented, successor.value));
      } else {
        Continue(r, req.(phase := Replaying));
      }
    }

    /** updateMany over a user's unspent rows; the count decides whether the owner is told. */
    method Sweep(user: UserId, now: Time) returns (signedOut: bool)
      requires Valid()
      modifies this`rows
      ensures Valid() && Model() == Apply(cfg, old(Model()), SSweep(user, now))
      ensures !AnyLive(rows, user) && (signedOut <==> AnyLive(old(rows), user))
    {
      hide Inv;
      StepKeeps(cfg, Model(), SSweep(user, now));
      signedOut := exists id :: id in rows && rows[id].user == user && rows[id].revokedAt.None?;
      rows := Swept(rows, user, now);
    }

    method Reject(r: RequestId, now: Time)
      requires Valid() && r in requests && requests[r].phase.Replaying?
      modifies this
      ensures Valid() && Model() == Apply(cfg, old(Model()), SRejectReplay(r, now))
      ensures !AnyLive(rows, old(requests[r].user))
    {
      hide Inv;
      StepKeeps(cfg, Model(), SRejectReplay(r, now));
      var user := requests[r].user;
      var signedOut := Sweep(user, now);
      Finish(r, SessionInvalidated(signedOut));
    }

    method Logout(token: Jwt, now: Time)
      requires Valid()
      modifies this`rows
      ensures Valid() && Model() == Apply(cfg, old(Model()), SLogout(token, now))
      ensures forall id :: id in rows && rows[id].hash == HashOf(token) ==> !IsLive(rows, id)
    {
      hide Inv;
      StepKeeps(cfg, Model(), SLogout(token, now));
      rows := RevokedByHash(rows, HashOf(token), now);
    }
  }
}
