/** The refresh-session table: each statement and transaction on the rows, what every run of them keeps, and
    the batched clean-up loop. Times are integers. */
module Sessions {
  import opened GoStrings
  import opened ActorTypes

  datatype Session = Session(refreshToken: string, actorID: string, actorType: ActorType, expiresAt: int, revoked: bool)

  /** A row, under its primary key `refresh_token`. */
  datatype Row = Row(actorID: string, actorType: string, expiresAt: int, revoked: bool)

  type Rows = map<string, Row>

  function RowOf(s: Session): Row {
    Row(s.actorID, Name(s.actorType), s.expiresAt, s.revoked)
  }

  function Upserted(rows: Rows, s: Session): Rows {
    rows[s.refreshToken := RowOf(s)]
  }

  function Read(rows: Rows, token: string): Option<Session> {
    if token !in rows then None
    else
      var r := rows[token];
      Some(Session(token, r.actorID, FromString(r.actorType), r.expiresAt, r.revoked))
  }

  function Marked(rows: Rows, token: string): Rows {
    if token in rows then rows[token := rows[token].(revoked := true)] else rows
  }

  datatype Fault = NoFault | BeginFails | UpdateFails | InsertFails | CommitFails

  /** The rotation commits: nothing failed and the new token was not taken. */
  predicate Commits(rows: Rows, next: Session, fault: Fault) {
    fault == NoFault && next.refreshToken !in rows
  }

  function Rotated(rows: Rows, oldToken: string, next: Session, fault: Fault): Rows {
    if Commits(rows, next, fault) then Upserted(Marked(rows, oldToken), next) else rows
  }

  function Live(rows: Rows): set<string> {
    set t | t in rows && !rows[t].revoked
  }

  /** A stored session reads back as it was stored. */
  lemma StoreThenGet(rows: Rows, s: Session, other: string)
    ensures Read(Upserted(rows, s), s.refreshToken) == Some(s)
    ensures other != s.refreshToken ==> Read(Upserted(rows, s), other) == Read(rows, other)
  {
    NameRoundTrip(s.actorType);
  }

  /** After a revocation the token reads back revoked and otherwise as before, and every other one as before. */
  lemma RevokeThenGet(rows: Rows, token: string, other: string)
    ensures Read(Marked(rows, token), other) ==
            if other == token && Read(rows, token).Some? then Some(Read(rows, token).value.(revoked := true))
            else Read(rows, other)
  {
    hide FromString;
  }

  /** After a rotation that commits the new token reads back as it was given, the old one revoked and otherwise as
      before, and every other one as before; after any other rotation all read back as before. */
  lemma RotateThenGet(rows: Rows, oldToken: string, next: Session, fault: Fault, other: string)
    ensures var after := Rotated(rows, oldToken, next, fault);
            if fault != NoFault || Read(rows, next.refreshToken).Some? then after == rows
            else
              Read(after, other) ==
              if other == next.refreshToken then Some(next)
              else if other == oldToken && Read(rows, oldToken).Some? then
                Some(Read(rows, oldToken).value.(revoked := true))
              else Read(rows, other)
  {
    hide FromString, Name;
    StoreThenGet(Marked(rows, oldToken), next, other);
    RevokeThenGet(rows, oldToken, other);
  }

  function Bit(b: bool): nat {
    if b then 1 else 0
  }

  /** The number of unrevoked rows after any rotation; it is conserved exactly when the rotation did not
      commit, or the old token was unrevoked just when the new one is. */
  lemma RotationCount(rows: Rows, oldToken: string, next: Session, fault: Fault)
    ensures |Live(Rotated(rows, oldToken, next, fault))| ==
            if Commits(rows, next, fault) then |Live(rows)| - Bit(oldToken in Live(rows)) + Bit(!next.revoked)
            else |Live(rows)|
    ensures |Live(Rotated(rows, oldToken, next, fault))| == |Live(rows)| <==>
              !Commits(rows, next, fault) || (oldToken in Live(rows) <==> !next.revoked)
  {
    hide Live, Rotated;
    if Commits(rows, next, fault) {
      RotatedLive(rows, oldToken, next, fault);
      var kept := Live(rows) - {oldToken};
      assert oldToken in Live(rows) ==> Live(rows) == kept + {oldToken};
      assert oldToken !in Live(rows) ==> Live(rows) == kept;
      assert |kept| == |Live(rows)| - Bit(oldToken in Live(rows));
    } else {
      NotRotated(rows, oldToken, next, fault);
    }
  }

  lemma RotatedLive(rows: Rows, oldToken: string, next: Session, fault: Fault)
    requires Commits(rows, next, fault)
    ensures Live(Rotated(rows, oldToken, next, fault)) ==
            (Live(rows) - {oldToken}) + if next.revoked then {} else {next.refreshToken}
    ensures next.refreshToken !in Live(rows)
  {
    hide Name;
  }

  lemma NotRotated(rows: Rows, oldToken: string, next: Session, fault: Fault)
    requires !Commits(rows, next, fault)
    ensures Rotated(rows, oldToken, next, fault) == rows
  {
  }

  /** The transaction does not look at how many rows its update touched: rotating one token twice leaves both
      successors live. */
  lemma DoubleRotationForks(rows: Rows, oldToken: string, a: Session, b: Session)
    requires a.refreshToken !in rows && b.refreshToken !in rows && a.refreshToken != b.refreshToken
    requires !a.revoked && !b.revoked && oldToken in rows
    ensures var twice := Rotated(Rotated(rows, oldToken, a, NoFault), oldToken, b, NoFault);
            {a.refreshToken, b.refreshToken} <= Live(twice)
  {
  }

  // ---- expiry ------------------------------------------------------------------------------------

  function Expired(rows: Rows, now: int): set<string> {
    set t | t in rows && rows[t].expiresAt <= now
  }

  function Unexpired(rows: Rows, now: int): Rows {
    map t | t in rows && now < rows[t].expiresAt :: rows[t]
  }

  function Limit(batchSize: int): (n: nat)
    ensures n > 0
  {
    if batchSize <= 0 then 500 else batchSize
  }

  /** What one delete may remove: as many expired rows as there are, up to the limit, earliest expiry first. */
  predicate IsBatch(rows: Rows, now: int, limit: nat, doomed: set<string>) {
    var expired := Expired(rows, now);
    && doomed <= expired
    && |doomed| == (if |expired| <= limit then |expired| else limit)
    && forall d, e :: d in doomed && e in expired - doomed ==> rows[d].expiresAt <= rows[e].expiresAt
  }

  lemma {:induction false} EarliestExists(rows: Rows, pool: set<string>)
    requires pool != {} && pool <= rows.Keys
    ensures exists t :: t in pool && forall u :: u in pool ==> rows[t].expiresAt <= rows[u].expiresAt
  {
    var x :| x in pool;
    if pool == {x} {
      assert forall u :: u in pool ==> u == x;
    } else {
      var rest := pool - {x};
      assert pool == rest + {x};
      EarliestExists(rows, rest);
      var t :| t in rest && forall u :: u in rest ==> rows[t].expiresAt <= rows[u].expiresAt;
      var m := if rows[x].expiresAt <= rows[t].expiresAt then x else t;
      assert forall u :: u in pool ==> u == x || u in rest;
      assert m in pool && forall u :: u in pool ==> rows[m].expiresAt <= rows[u].expiresAt;
    }
  }

  lemma SubsetCard(a: set<string>, b: set<string>)
    requires a <= b
    ensures |a| <= |b| && (|a| == |b| ==> a == b)
  {
    assert b == a + (b - a);
    assert |b| == |a| + |b - a|;
    if |a| == |b| {
      assert b - a == {};
    }
  }

  lemma RemovedCard(rows: Rows, doomed: set<string>)
    requires doomed <= rows.Keys
    ensures |rows - doomed| == |rows| - |doomed|
  {
    assert (rows - doomed).Keys == rows.Keys - doomed;
    assert rows.Keys == (rows.Keys - doomed) + doomed;
    assert |rows.Keys| == |rows.Keys - doomed| + |doomed|;
  }

  /** `after` is `before` with some of the rows expired at `now` removed. */
  predicate Shrunk(before: Rows, after: Rows, now: int) {
    && after.Keys <= before.Keys
    && (forall t :: t in after ==> after[t] == before[t])
    && (forall t :: t in before && t !in after ==> before[t].expiresAt <= now)
  }

  /** Removing a later batch shrinks the table further; a batch smaller than the limit completes the filter. */
  lemma ShrunkBatch(first: Rows, rows: Rows, earlier: int, now: int, limit: nat, doomed: set<string>)
    requires Shrunk(first, rows, earlier) && earlier <= now && IsBatch(rows, now, limit, doomed)
    ensures Shrunk(first, rows - doomed, now) && |rows - doomed| == |rows| - |doomed|
    ensures |doomed| < limit ==> rows - doomed == Unexpired(first, now)
  {
    RemovedCard(rows, doomed);
    if |doomed| < limit {
      SubsetCard(doomed, Expired(rows, now));
      assert doomed == Expired(rows, now);
    }
  }

  /** Rows removed by this many full batches. */
  function Deletions(rounds: nat, size: nat): nat {
    rounds * size
  }

  lemma DeletionsNone(size: nat)
    ensures Deletions(0, size) == 0
  {
  }

  lemma DeletionsStep(rounds: nat, size: nat)
    ensures Deletions(rounds + 1, size) == Deletions(rounds, size) + size
  {
  }

  ghost predicate Monotone(clock: nat -> int) {
    forall i: nat, j: nat :: i <= j ==> clock(i) <= clock(j)
  }

  /** The selection `WHERE expires_at <= now ORDER BY expires_at LIMIT limit`; ties fall either way. */
  method PickBatch(rows: Rows, now: int, limit: nat) returns (chosen: set<string>)
    ensures IsBatch(rows, now, limit, chosen)
  {
    chosen := {};
    var pool := set t | t in rows && rows[t].expiresAt <= now;
    ghost var expired := pool;
    while |chosen| < limit && pool != {}
      invariant chosen !! pool && chosen + pool == expired && |chosen| <= limit
      invariant forall d, e :: d in chosen && e in pool ==> rows[d].expiresAt <= rows[e].expiresAt
      decreases pool
    {
      EarliestExists(rows, pool);
      var t :| t in pool && forall u :: u in pool ==> rows[t].expiresAt <= rows[u].expiresAt;
      chosen, pool := chosen + {t}, pool - {t};
    }
    assert expired - chosen == pool && |expired| == |chosen| + |pool|;
    assert Expired(rows, now) == expired;
  }

  // ---- the table object ----------------------------------------------------------------------------

  class SessionTable {
    var rows: Rows

    constructor ()
      ensures rows == map[]
    {
      rows := map[];
    }

    method StoreSession(sess: Option<Session>, fails: bool) returns (err: bool)
      modifies this
      ensures err <==> sess.Some? && fails
      ensures rows == if sess.Some? && !fails then Upserted(old(rows), sess.value) else old(rows)
    {
      if sess.None? {
        return false;
      }
      if fails {
        return true;
      }
      var s := sess.value;
      rows := rows[s.refreshToken := Row(s.actorID, Name(s.actorType), s.expiresAt, s.revoked)];
      return false;
    }

    method GetSession(token: string) returns (s: Option<Session>)
      ensures s == Read(rows, token)
    {
      if token !in rows {
        return None;
      }
      var r := rows[token];
      return Some(Session(token, r.actorID, FromString(r.actorType), r.expiresAt, r.revoked));
    }

    method RevokeSession(token: string, fails: bool) returns (err: bool)
      modifies this
      ensures err == fails
      ensures rows == if fails then old(rows) else Marked(old(rows), token)
    {
      if !fails && token in rows {
        rows := rows[token := rows[token].(revoked := true)];
      }
      return fails;
    }

    /** All or nothing at every failure point: the two statements work on the transaction's own view. */
    method RotateSession(oldToken: string, next: Option<Session>, fault: Fault) returns (err: bool)
      modifies this
      ensures err <==> next.Some? && !Commits(old(rows), next.value, fault)
      ensures rows == if next.Some? then Rotated(old(rows), oldToken, next.value, fault) else old(rows)
    {
      if next.None? {
        return false;
      }
      if fault == BeginFails {
        return true;
      }
      var tx := rows;
      if fault == UpdateFails {
        return true;
      }
      if oldToken in tx {
        tx := tx[oldToken := tx[oldToken].(revoked := true)];
      }
      var n := next.value;
      if fault == InsertFails || n.refreshToken in tx {
        return true;
      }
      tx := tx[n.refreshToken := Row(n.actorID, Name(n.actorType), n.expiresAt, n.revoked)];
      if fault == CommitFails {
        return true;
      }
      rows := tx;
      return false;
    }

    /** One batched delete. */
    method CleanupExpiredSessions(now: int, batchSize: int, fails: bool)
      returns (deleted: nat, err: bool, ghost doomed: set<string>)
      modifies this
      ensures err == fails
      ensures err ==> rows == old(rows) && deleted == 0
      ensures !err ==> IsBatch(old(rows), now, if batchSize <= 0 then 500 else batchSize, doomed)
                       && rows == old(rows) - doomed && deleted == |doomed|
    {
      var limit := batchSize;
      if limit <= 0 {
        limit := 500;
      }
      if fails {
        return 0, true, {};
      }
      var chosen := PickBatch(rows, now, limit);
      rows := rows - chosen;
      return |chosen|, false, chosen;
    }

    /** The worker's inner loop. `clock(i)` is the database time of round `i` and `faults(i)` its failure; no row
        is inserted meanwhile. It terminates because every round but the last removes a full batch; without a
        failure the table is left as one filter at the last round's time would leave it. */
    method DrainExpired(clock: nat -> int, faults: nat -> bool, batchSize: int) returns (rounds: nat, failed: bool)
      requires Monotone(clock)
      modifies this
      ensures rounds > 0 && failed == faults(rounds - 1)
      ensures !failed ==> rows == Unexpired(old(rows), clock(rounds - 1))
      ensures failed ==> Shrunk(old(rows), rows, clock(rounds - 1))
      ensures Deletions(rounds - 1, Limit(batchSize)) + |rows| <= |old(rows)|
    {
      hide IsBatch, Shrunk, Unexpired, Deletions;
      var size := batchSize;
      if size <= 0 {
        size := 500;
      }
      rounds := 0;
      ShrunkNone(rows, clock(0));
      DeletionsNone(size);
      while true
        invariant Shrunk(old(rows), rows, clock(rounds))
        invariant Deletions(rounds, size) + |rows| <= |old(rows)|
        decreases |rows|
      {
        ghost var before := rows;
        var deleted, err, doomed := CleanupExpiredSessions(clock(rounds), size, faults(rounds));
        rounds := rounds + 1;
        if err {
          failed := true;
          return;
        }
        ShrunkBatch(old(rows), before, clock(rounds - 1), clock(rounds - 1), size, doomed);
        if deleted < size {
          failed := false;
          return;
        }
        BatchFull(before, clock(rounds - 1), size, doomed);
        DeletionsStep(rounds - 1, size);
        assert clock(rounds - 1) <= clock(rounds);
        ShrunkLater(old(rows), rows, clock(rounds - 1), clock(rounds));
      }
    }
  }

  lemma ShrunkNone(rows: Rows, now: int)
    ensures Shrunk(rows, rows, now)
  {
  }

  lemma ShrunkLater(first: Rows, rows: Rows, earlier: int, now: int)
    requires Shrunk(first, rows, earlier) && earlier <= now
    ensures Shrunk(first, rows, now)
  {
  }

  lemma BatchFull(rows: Rows, now: int, limit: nat, doomed: set<string>)
    requires IsBatch(rows, now, limit, doomed) && |doomed| >= limit
    ensures |doomed| == limit
  {
  }

  // ---- runs --------------------------------------------------------------------------------------------

  /** One committed or failed operation; `Delete` removes one clean-up batch. */
  datatype Op =
    | Store(s: Session, fails: bool)
    | Revoke(token: string, fails: bool)
    | Rotate(oldToken: string, next: Session, fault: Fault)
    | Delete(doomed: set<string>)

  function Apply(rows: Rows, op: Op): Rows {
    match op
    case Store(s, fails) => if fails then rows else Upserted(rows, s)
    case Revoke(token, fails) => if fails then rows else Marked(rows, token)
    case Rotate(oldToken, next, fault) => Rotated(rows, oldToken, next, fault)
    case Delete(doomed) => rows - doomed
  }

  function Run(rows: Rows, ops: seq<Op>): Rows {
    if ops == [] then rows else Apply(Run(rows, ops[..|ops| - 1]), ops[|ops| - 1])
  }

  /** The operation writes an unrevoked row under this token. */
  predicate Issues(rows: Rows, op: Op, token: string) {
    match op
    case Store(s, fails) => !fails && s.refreshToken == token && !s.revoked
    case Rotate(_, next, fault) => Commits(rows, next, fault) && next.refreshToken == token && !next.revoked
    case _ => false
  }

  /** A token that does not read as live becomes live exactly by being issued. */
  lemma RevivedIff(rows: Rows, op: Op, token: string)
    requires token !in Live(rows)
    ensures token in Live(Apply(rows, op)) <==> Issues(rows, op, token)
  {
  }

  /** The token an operation stores, if it stores one. */
  predicate Writes(op: Op, token: string) {
    match op
    case Store(s, _) => s.refreshToken == token
    case Rotate(_, next, _) => next.refreshToken == token
    case _ => false
  }

  predicate Touched(ops: seq<Op>, token: string) {
    exists i :: 0 <= i < |ops| && Writes(ops[i], token)
  }

  /** Every stored token is new: not among the first rows and not stored earlier in the run. */
  ghost predicate FreshTokens(rows: Rows, ops: seq<Op>) {
    forall i, token :: 0 <= i < |ops| ==> FreshAt(rows, ops, i, token)
  }

  predicate FreshAt(rows: Rows, ops: seq<Op>, i: nat, token: string)
    requires i < |ops|
  {
    Writes(ops[i], token) ==> token !in rows && !Touched(ops[..i], token)
  }

  lemma {:induction false} UntouchedAbsent(rows: Rows, ops: seq<Op>, token: string)
    requires token !in rows && !Touched(ops, token)
    ensures token !in Run(rows, ops)
  {
    if ops != [] {
      var init := ops[..|ops| - 1];
      assert forall i :: 0 <= i < |init| ==> init[i] == ops[i];
      UntouchedAbsent(rows, init, token);
      assert !Writes(ops[|ops| - 1], token);
    }
  }

  /** Revocation is permanent: in a run with fresh tokens, a token that was written and does not read as live
      at some point never reads as live again. */
  lemma {:induction false} RevocationPermanent(rows: Rows, ops: seq<Op>, i: nat, token: string)
    requires FreshTokens(rows, ops) && i <= |ops|
    requires token in rows || Touched(ops[..i], token)
    requires token !in Live(Run(rows, ops[..i]))
    ensures token !in Live(Run(rows, ops))
    decreases |ops|
  {
    if i == |ops| {
      assert ops[..i] == ops;
    } else {
      var n := |ops| - 1;
      var init := ops[..n];
      assert init[..i] == ops[..i];
      FreshInit(rows, ops);
      RevocationPermanent(rows, init, i, token);
      if Touched(ops[..i], token) {
        var j :| 0 <= j < i && Writes(ops[..i][j], token);
        assert Writes(init[j], token);
      }
      assert FreshAt(rows, ops, n, token);
      assert !Writes(ops[n], token);
      RevivedIff(Run(rows, init), ops[n], token);
    }
  }

  lemma FreshInit(rows: Rows, ops: seq<Op>)
    requires FreshTokens(rows, ops) && ops != []
    ensures FreshTokens(rows, ops[..|ops| - 1])
  {
    var init := ops[..|ops| - 1];
    forall i, token | 0 <= i < |init| ensures FreshAt(rows, init, i, token) {
      assert FreshAt(rows, ops, i, token);
      assert init[..i] == ops[..i] && init[i] == ops[i];
    }
  }

  // ---- login lineages -----------------------------------------------------------------------------------

  datatype Holder = Holder(id: string, kind: ActorType)

  /** The table with, for every token ever stored, the login it descends from; the logins that are over; for every
      login the actor it was for; and what a refresh has read of each token that passed its check. */
  datatype Tracked = Tracked(rows: Rows, origin: map<string, string>, ended: set<string>, holder: map<string, Holder>,
                             checked: map<string, Session>)

  const NO_LOGINS := Tracked(map[], map[], {}, map[], map[])

  /** The database operations of the identity service, which interleave: a login and a logout; the check and the
      rotation of a refresh, which is asked for in the name of an actor and stores a fresh token; and a clean-up
      batch, which the worker runs without the service's mutex. */
  datatype Request =
    | Login(s: Session, fails: bool)
    | Logout(token: string, fails: bool)
    | Check(token: string, now: int, actor: Holder)
    | Swap(token: string, renewed: string, expiresAt: int, fault: Fault)
    | Clean(doomed: set<string>, now: int)

  function LiveOf(t: Tracked, login: string): set<string> {
    set k | k in t.rows && !t.rows[k].revoked && k in t.origin && t.origin[k] == login
  }

  predicate Refreshable(rows: Rows, token: string, now: int) {
    token in rows && !rows[token].revoked && now < rows[token].expiresAt
  }

  /** At every moment a session that was not revoked can either be refreshed or be cleaned up, and not both. */
  lemma RefreshableIff(rows: Rows, token: string, now: int)
    ensures Refreshable(rows, token, now) <==> token in Live(rows) && token !in Expired(rows, now)
  {
  }

  function HolderOf(s: Session): Holder {
    Holder(s.actorID, s.actorType)
  }

  /** A refresh passes its check: the session can be refreshed and belongs to the actor that asks. */
  predicate Passes(rows: Rows, token: string, now: int, actor: Holder) {
    Refreshable(rows, token, now) && HolderOf(Read(rows, token).value) == actor
  }

  /** The session a refresh stores: the actor is the one it read. */
  function NextOf(t: Tracked, token: string, renewed: string, expiresAt: int): Session
    requires token in t.checked
  {
    Session(renewed, t.checked[token].actorID, t.checked[token].actorType, expiresAt, false)
  }

  /** The rows a batch deletes are expired. */
  function Gone(rows: Rows, doomed: set<string>, now: int): set<string> {
    doomed * Expired(rows, now)
  }

  /** A refresh gets to its rotation, and the rotation commits. */
  predicate Swaps(t: Tracked, token: string, renewed: string, expiresAt: int, fault: Fault) {
    token in t.checked && Commits(t.rows, NextOf(t, token, renewed, expiresAt), fault)
  }

  function Serve(t: Tracked, r: Request): Tracked {
    match r
    case Login(s, fails) =>
      if fails then t
      else t.(rows := Upserted(t.rows, s), origin := t.origin[s.refreshToken := s.refreshToken],
              holder := t.holder[s.refreshToken := HolderOf(s)])
    case Logout(token, fails) =>
      if fails then t
      else t.(rows := Marked(t.rows, token),
              ended := if token in Live(t.rows) && token in t.origin then t.ended + {t.origin[token]} else t.ended)
    case Check(token, now, actor) =>
      if Passes(t.rows, token, now, actor) then t.(checked := t.checked[token := Read(t.rows, token).value]) else t
    case Swap(token, renewed, expiresAt, fault) =>
      if !Swaps(t, token, renewed, expiresAt, fault) || token !in t.origin then t
      else t.(rows := Rotated(t.rows, token, NextOf(t, token, renewed, expiresAt), fault),
              origin := t.origin[renewed := t.origin[token]])
    case Clean(doomed, now) =>
      var gone := Gone(t.rows, doomed, now);
      t.(rows := t.rows - gone,
         ended := t.ended + set k | k in gone && k in Live(t.rows) && k in t.origin :: t.origin[k])
  }

  /** New tokens are never-before-used and unrevoked. */
  predicate NewTokens(t: Tracked, r: Request) {
    match r
    case Login(s, _) => s.refreshToken !in t.origin && !s.revoked
    case Swap(_, renewed, _, _) => renewed !in t.origin
    case _ => true
  }

  /** A login has exactly one live session until it ends, and none after. */
  ghost predicate Counted(t: Tracked, login: string) {
    if login in t.ended then LiveOf(t, login) == {} else exists k :: LiveOf(t, login) == {k}
  }

  predicate Rooted(t: Tracked) {
    && t.rows.Keys <= t.origin.Keys
    && (forall k :: k in t.origin ==> t.origin[k] in t.origin)
    && t.ended <= t.origin.Keys && t.checked.Keys <= t.origin.Keys
  }

  ghost predicate OneLiveEach(t: Tracked) {
    Rooted(t) && forall k :: k in t.origin ==> Counted(t, t.origin[k])
  }

  lemma NoLoginsYet()
    ensures OneLiveEach(NO_LOGINS)
  {
  }

  lemma SameCount(t: Tracked, u: Tracked, login: string)
    requires Counted(t, login) && LiveOf(u, login) == LiveOf(t, login) && (login in u.ended <==> login in t.ended)
    ensures Counted(u, login)
  {
  }

  lemma LoginKeeps(t: Tracked, s: Session)
    requires OneLiveEach(t) && NewTokens(t, Login(s, false))
    ensures OneLiveEach(Serve(t, Login(s, false)))
  {
    hide Counted, LiveOf, Serve;
    var u := Serve(t, Login(s, false));
    LoginRoots(t, s);
    forall k | k in u.origin ensures Counted(u, u.origin[k]) {
      var l := u.origin[k];
      LoginLive(t, s, l);
      if l == s.refreshToken {
        OneLeft(u, l, s.refreshToken);
      } else {
        SameCount(t, u, l);
      }
    }
  }

  lemma LoginRoots(t: Tracked, s: Session)
    requires Rooted(t)
    ensures var u := Serve(t, Login(s, false));
            Rooted(u) && u.ended == t.ended && u.origin == t.origin[s.refreshToken := s.refreshToken]
  {
    hide Name;
  }

  lemma LoginLive(t: Tracked, s: Session, l: string)
    requires Rooted(t) && NewTokens(t, Login(s, false))
    ensures LiveOf(Serve(t, Login(s, false)), l) == if l == s.refreshToken then {s.refreshToken} else LiveOf(t, l)
  {
    hide Name;
  }

  lemma OneLeft(t: Tracked, login: string, k: string)
    requires LiveOf(t, login) == {k} && login !in t.ended
    ensures Counted(t, login)
  {
  }

  lemma NoneLeft(t: Tracked, login: string)
    requires LiveOf(t, login) == {} && login in t.ended
    ensures Counted(t, login)
  {
  }

  lemma OnlyLive(t: Tracked, k: string)
    requires k in t.origin && Counted(t, t.origin[k]) && k in LiveOf(t, t.origin[k])
    ensures t.origin[k] !in t.ended && LiveOf(t, t.origin[k]) == {k}
  {
  }

  lemma LogoutKeeps(t: Tracked, token: string)
    requires OneLiveEach(t)
    ensures OneLiveEach(Serve(t, Logout(token, false)))
  {
    hide Counted, LiveOf, Serve, Live;
    var u := Serve(t, Logout(token, false));
    LogoutRoots(t, token);
    forall k | k in u.origin ensures Counted(u, u.origin[k]) {
      var l := u.origin[k];
      LogoutLive(t, token, l);
      if token in LiveOf(t, l) {
        LiveOrigin(t, token, l);
        LiveHas(t, token);
        OnlyLive(t, token);
        NoneLeft(u, l);
      } else {
        assert LiveOf(t, l) - {token} == LiveOf(t, l);
        if token in t.origin && t.origin[token] == l {
          LiveHas(t, token);
        }
        SameCount(t, u, l);
      }
    }
  }

  lemma LogoutRoots(t: Tracked, token: string)
    requires Rooted(t)
    ensures var u := Serve(t, Logout(token, false));
            && Rooted(u) && u.origin == t.origin
            && u.ended == t.ended + if token in Live(t.rows) && token in t.origin then {t.origin[token]} else {}
  {
  }

  lemma LogoutLive(t: Tracked, token: string, l: string)
    ensures LiveOf(Serve(t, Logout(token, false)), l) == LiveOf(t, l) - {token}
  {
  }

  lemma CheckKeeps(t: Tracked, token: string, now: int, actor: Holder)
    requires OneLiveEach(t)
    ensures OneLiveEach(Serve(t, Check(token, now, actor)))
  {
    hide Counted, LiveOf, Serve;
    var u := Serve(t, Check(token, now, actor));
    CheckRoots(t, token, now, actor);
    forall k | k in u.origin ensures Counted(u, u.origin[k]) {
      SameLive(t, u, u.origin[k]);
      SameCount(t, u, u.origin[k]);
    }
  }

  lemma CheckRoots(t: Tracked, token: string, now: int, actor: Holder)
    requires Rooted(t)
    ensures var u := Serve(t, Check(token, now, actor));
            Rooted(u) && u.origin == t.origin && u.ended == t.ended && u.rows == t.rows
  {
    hide Read, FromString;
  }

  lemma SameLive(t: Tracked, u: Tracked, l: string)
    requires u.rows == t.rows && u.origin == t.origin
    ensures LiveOf(u, l) == LiveOf(t, l)
  {
  }

  /** The live sessions of a login after a rotation of one of its tokens, live or not. */
  lemma SwapLive(t: Tracked, token: string, renewed: string, expiresAt: int, fault: Fault, l: string)
    requires Rooted(t) && NewTokens(t, Swap(token, renewed, expiresAt, fault))
    requires Swaps(t, token, renewed, expiresAt, fault)
    ensures token in t.origin
    ensures LiveOf(Serve(t, Swap(token, renewed, expiresAt, fault)), l) ==
            if l == t.origin[token] then LiveOf(t, l) - {token} + {renewed} else LiveOf(t, l)
  {
    hide Name;
    assert token in t.checked;
    var u := Serve(t, Swap(token, renewed, expiresAt, fault));
    assert renewed !in t.rows;
    forall k ensures k in LiveOf(u, l) <==>
                       if l == t.origin[token] then (k in LiveOf(t, l) && k != token) || k == renewed
                       else k in LiveOf(t, l)
    {
    }
  }

  /** A rotation keeps one live session for each login exactly when it does not commit, or the token it replaces is
      live at that moment. */
  lemma SwapKeepsIff(t: Tracked, token: string, renewed: string, expiresAt: int, fault: Fault)
    requires OneLiveEach(t) && NewTokens(t, Swap(token, renewed, expiresAt, fault))
    ensures OneLiveEach(Serve(t, Swap(token, renewed, expiresAt, fault))) <==>
              !Swaps(t, token, renewed, expiresAt, fault) || token in Live(t.rows)
  {
    hide Counted, LiveOf, Serve, Swaps, Live;
    if !Swaps(t, token, renewed, expiresAt, fault) {
      NoSwap(t, token, renewed, expiresAt, fault);
    } else if token in Live(t.rows) {
      LiveSwapKeeps(t, token, renewed, expiresAt, fault);
    } else {
      DeadSwapBreaks(t, token, renewed, expiresAt, fault);
    }
  }

  lemma NoSwap(t: Tracked, token: string, renewed: string, expiresAt: int, fault: Fault)
    requires !Swaps(t, token, renewed, expiresAt, fault)
    ensures Serve(t, Swap(token, renewed, expiresAt, fault)) == t
  {
  }

  lemma SwapRoots(t: Tracked, token: string, renewed: string, expiresAt: int, fault: Fault)
    requires Rooted(t) && Swaps(t, token, renewed, expiresAt, fault) && token in t.origin
    ensures var u := Serve(t, Swap(token, renewed, expiresAt, fault));
            && Rooted(u) && u.ended == t.ended && u.origin == t.origin[renewed := t.origin[token]]
  {
    hide Name;
  }

  lemma LiveHas(t: Tracked, token: string)
    requires token in t.origin
    ensures token in LiveOf(t, t.origin[token]) <==> token in Live(t.rows)
  {
  }

  lemma LiveSwapKeeps(t: Tracked, token: string, renewed: string, expiresAt: int, fault: Fault)
    requires OneLiveEach(t) && NewTokens(t, Swap(token, renewed, expiresAt, fault))
    requires Swaps(t, token, renewed, expiresAt, fault) && token in Live(t.rows)
    ensures OneLiveEach(Serve(t, Swap(token, renewed, expiresAt, fault)))
  {
    hide Counted, LiveOf, Serve, Swaps, Live;
    var u := Serve(t, Swap(token, renewed, expiresAt, fault));
    SwapLive(t, token, renewed, expiresAt, fault, "");
    SwapRoots(t, token, renewed, expiresAt, fault);
    LiveHas(t, token);
    OnlyLive(t, token);
    forall k | k in u.origin ensures Counted(u, u.origin[k]) {
      var l := u.origin[k];
      SwapLive(t, token, renewed, expiresAt, fault, l);
      if l == t.origin[token] {
        OneLeft(u, l, renewed);
      } else {
        SameCount(t, u, l);
      }
    }
  }

  lemma DeadSwapBreaks(t: Tracked, token: string, renewed: string, expiresAt: int, fault: Fault)
    requires OneLiveEach(t) && NewTokens(t, Swap(token, renewed, expiresAt, fault))
    requires Swaps(t, token, renewed, expiresAt, fault) && token !in Live(t.rows)
    ensures !OneLiveEach(Serve(t, Swap(token, renewed, expiresAt, fault)))
  {
    hide Counted, LiveOf, Serve, Swaps, Live;
    var u := Serve(t, Swap(token, renewed, expiresAt, fault));
    SwapLive(t, token, renewed, expiresAt, fault, "");
    SwapRoots(t, token, renewed, expiresAt, fault);
    LiveHas(t, token);
    var l := t.origin[token];
    SwapLive(t, token, renewed, expiresAt, fault, l);
    NewNotLive(t, renewed, l);
    assert LiveOf(t, l) - {token} == LiveOf(t, l);
    OneTooMany(t, u, l, renewed);
    assert u.origin[renewed] == l;
  }

  lemma OneTooMany(t: Tracked, u: Tracked, l: string, k: string)
    requires Counted(t, l) && u.ended == t.ended && k !in LiveOf(t, l) && LiveOf(u, l) == LiveOf(t, l) + {k}
    ensures !Counted(u, l)
  {
    hide LiveOf;
    assert k in LiveOf(u, l);
    if l !in t.ended {
      var j :| LiveOf(t, l) == {j};
      assert j in LiveOf(u, l);
      assert forall x :: LiveOf(u, l) == {x} ==> j in {x} && k in {x};
    }
  }

  lemma NewNotLive(t: Tracked, token: string, l: string)
    requires token !in t.origin
    ensures token !in LiveOf(t, l)
  {
  }

  lemma CleanKeeps(t: Tracked, doomed: set<string>, now: int)
    requires OneLiveEach(t)
    ensures OneLiveEach(Serve(t, Clean(doomed, now)))
  {
    hide Counted, LiveOf, Gone;
    var u := Serve(t, Clean(doomed, now));
    var gone := Gone(t.rows, doomed, now);
    forall k | k in u.origin ensures Counted(u, u.origin[k]) {
      var l := u.origin[k];
      CleanLive(t, doomed, now, l);
      if x :| x in LiveOf(t, l) && x in gone {
        LiveOrigin(t, x, l);
        OnlyLive(t, x);
        assert LiveOf(u, l) == {};
        NoneLeft(u, l);
      } else {
        assert LiveOf(u, l) == LiveOf(t, l);
        SameCount(t, u, l);
      }
    }
  }

  lemma LiveOrigin(t: Tracked, k: string, l: string)
    requires k in LiveOf(t, l)
    ensures k in t.origin && t.origin[k] == l
  {
  }

  lemma CleanLive(t: Tracked, doomed: set<string>, now: int, l: string)
    ensures var u, gone := Serve(t, Clean(doomed, now)), Gone(t.rows, doomed, now);
            LiveOf(u, l) == LiveOf(t, l) - gone
            && (l in u.ended <==> l in t.ended || exists x :: x in gone && x in LiveOf(t, l))
  {
    hide Gone;
  }

  function ServeAll(t: Tracked, rs: seq<Request>): Tracked {
    if rs == [] then t else Serve(ServeAll(t, rs[..|rs| - 1]), rs[|rs| - 1])
  }

  predicate NewTokensAll(t: Tracked, rs: seq<Request>) {
    rs != [] ==>
      var n := |rs| - 1;
      NewTokensAll(t, rs[..n]) && NewTokens(ServeAll(t, rs[..n]), rs[n])
  }

  /** Each login has one live session until it ends, and none after, at every point of the run. */
  ghost predicate StaysConserved(t: Tracked, rs: seq<Request>) {
    OneLiveEach(ServeAll(t, rs)) && (rs != [] ==> StaysConserved(t, rs[..|rs| - 1]))
  }

  /** The rotation, if this is one, does not commit on a token that is no longer live. */
  predicate Timely(t: Tracked, r: Request) {
    r.Swap? ==> !Swaps(t, r.token, r.renewed, r.expiresAt, r.fault) || r.token in Live(t.rows)
  }

  predicate AllTimely(t: Tracked, rs: seq<Request>) {
    rs != [] ==>
      var n := |rs| - 1;
      AllTimely(t, rs[..n]) && Timely(ServeAll(t, rs[..n]), rs[n])
  }

  lemma StepConserves(t: Tracked, r: Request)
    requires OneLiveEach(t) && NewTokens(t, r)
    ensures OneLiveEach(Serve(t, r)) <==> Timely(t, r)
  {
    hide OneLiveEach, Swaps, Live;
    match r
    case Login(s, fails) => if !fails { LoginKeeps(t, s); }
    case Logout(token, fails) => if !fails { LogoutKeeps(t, token); }
    case Check(token, now, actor) => CheckKeeps(t, token, now, actor);
    case Swap(token, renewed, expiresAt, fault) => SwapKeepsIff(t, token, renewed, expiresAt, fault);
    case Clean(doomed, now) => CleanKeeps(t, doomed, now);
  }

  lemma EndedStays(t: Tracked, r: Request)
    ensures t.ended <= Serve(t, r).ended
  {
    hide Swaps, Gone;
  }

  /** Over every interleaving of the operations, with a failure at any point of any of them, logins keep exactly
      their one live session until they end exactly when no rotation commits on a token that is no longer live. */
  lemma {:induction false} LineagesConservedIff(t: Tracked, rs: seq<Request>)
    requires OneLiveEach(t) && NewTokensAll(t, rs)
    ensures StaysConserved(t, rs) <==> AllTimely(t, rs)
    ensures t.ended <= ServeAll(t, rs).ended
  {
    hide OneLiveEach, Serve, NewTokens, Timely;
    if rs != [] {
      var n := |rs| - 1;
      LineagesConservedIff(t, rs[..n]);
      EndedStays(ServeAll(t, rs[..n]), rs[n]);
      if StaysConserved(t, rs[..n]) {
        assert OneLiveEach(ServeAll(t, rs[..n]));
        StepConserves(ServeAll(t, rs[..n]), rs[n]);
      }
    }
  }

  // ---- one refresh ------------------------------------------------------------------------------------

  /** The clean-up batches that the worker runs while a refresh holds the service's mutex. */
  datatype Batch = Batch(doomed: set<string>, now: int)

  function Cleanups(bs: seq<Batch>): seq<Request> {
    seq(|bs|, i requires 0 <= i < |bs| => Clean(bs[i].doomed, bs[i].now))
  }

  /** A batch that includes this row runs once the row has expired. */
  predicate Reaches(bs: seq<Batch>, token: string, expiresAt: int) {
    exists i :: 0 <= i < |bs| && token in bs[i].doomed && expiresAt <= bs[i].now
  }

  lemma {:induction false} CleanupsKeep(t: Tracked, bs: seq<Batch>, token: string)
    requires OneLiveEach(t) && token in Live(t.rows)
    ensures var u := ServeAll(t, Cleanups(bs));
            && OneLiveEach(u) && u.origin == t.origin && u.checked == t.checked && u.rows.Keys <= t.rows.Keys
            && (token in Live(u.rows) <==> !Reaches(bs, token, t.rows[token].expiresAt))
            && (token in u.rows <==> token in Live(u.rows)) && (token in u.rows ==> u.rows[token] == t.rows[token])
  {
    hide OneLiveEach;
    if bs == [] {
      assert Cleanups(bs) == [];
    } else {
      var n := |bs| - 1;
      var init := bs[..n];
      assert Cleanups(bs)[..n] == Cleanups(init);
      CleanupsKeep(t, init, token);
      CleanKeeps(ServeAll(t, Cleanups(init)), bs[n].doomed, bs[n].now);
      ReachesMore(bs, token, t.rows[token].expiresAt);
    }
  }

  lemma ReachesMore(bs: seq<Batch>, token: string, expiresAt: int)
    requires bs != []
    ensures var n := |bs| - 1;
            Reaches(bs, token, expiresAt) <==>
              Reaches(bs[..n], token, expiresAt) || (token in bs[n].doomed && expiresAt <= bs[n].now)
  {
    var n := |bs| - 1;
    assert forall i :: 0 <= i < n ==> bs[..n][i] == bs[i];
  }

  /** A refresh whose check passed, with any number of clean-up batches before its committing rotation, keeps the
      lineages exactly when no batch took its row after it expired; without a batch in between it always does. */
  lemma RefreshKeepsIff(t: Tracked, token: string, now: int, actor: Holder, bs: seq<Batch>,
                        renewed: string, expiresAt: int)
    requires OneLiveEach(t) && Passes(t.rows, token, now, actor) && renewed !in t.origin
    ensures var u := ServeAll(Serve(t, Check(token, now, actor)), Cleanups(bs));
            OneLiveEach(Serve(u, Swap(token, renewed, expiresAt, NoFault))) <==>
              !Reaches(bs, token, t.rows[token].expiresAt)
  {
    hide OneLiveEach, Reaches, Read;
    var c := Serve(t, Check(token, now, actor));
    CheckKeeps(t, token, now, actor);
    CleanupsKeep(c, bs, token);
    var u := ServeAll(c, Cleanups(bs));
    assert u.rows.Keys <= t.origin.Keys by { RowsRooted(t); }
    SwapKeepsIff(u, token, renewed, expiresAt, NoFault);
  }

  lemma RowsRooted(t: Tracked)
    requires OneLiveEach(t)
    ensures t.rows.Keys <= t.origin.Keys
  {
  }

  /** The run that breaks it: the session expires between the check and the rotation, the worker deletes it, and the
      ended login is left with a live session. */
  lemma ExpiryRace(s: Session, renewed: string, expiresAt: int)
    requires !s.revoked && s.refreshToken != renewed
    ensures var rs := [Login(s, false), Check(s.refreshToken, s.expiresAt - 1, HolderOf(s)),
                       Clean({s.refreshToken}, s.expiresAt), Swap(s.refreshToken, renewed, expiresAt, NoFault)];
            var t := ServeAll(NO_LOGINS, rs);
            && NewTokensAll(NO_LOGINS, rs)
            && s.refreshToken in t.ended && LiveOf(t, s.refreshToken) == {renewed}
  {
    hide Name, FromString;
    var rs := [Login(s, false), Check(s.refreshToken, s.expiresAt - 1, HolderOf(s)),
               Clean({s.refreshToken}, s.expiresAt), Swap(s.refreshToken, renewed, expiresAt, NoFault)];
    assert rs[..3][..2] == rs[..2] && rs[..2][..1] == rs[..1] && rs[..1][..0] == [];
    var t1 := Serve(NO_LOGINS, rs[0]);
    assert ServeAll(NO_LOGINS, rs[..1]) == t1;
    StoreThenGet(map[], s, "");
    var t2 := Serve(t1, rs[1]);
    assert ServeAll(NO_LOGINS, rs[..2]) == t2 && s.refreshToken in t2.checked;
    var t3 := Serve(t2, rs[2]);
    assert ServeAll(NO_LOGINS, rs[..3]) == t3 && s.refreshToken !in t3.rows && s.refreshToken in t3.ended;
    assert NewTokensAll(NO_LOGINS, rs[..3]) by {
      assert NewTokensAll(NO_LOGINS, rs[..1]);
      assert NewTokensAll(NO_LOGINS, rs[..2]);
    }
    assert rs[..4] == rs;
  }

  // ---- whose sessions they are --------------------------------------------------------------------------

  /** This token descends from a login of this actor. */
  predicate BelongsTo(t: Tracked, token: string, actor: Holder) {
    token in t.origin && t.origin[token] in t.holder && t.holder[t.origin[token]] == actor
  }

  /** Every session, as it reads and as a refresh has read it, is of the actor that logged in. */
  ghost predicate ActorsKept(t: Tracked) {
    && t.holder.Keys <= t.origin.Keys
    && (forall k :: k in t.rows ==> BelongsTo(t, k, HolderOf(Read(t.rows, k).value)))
    && (forall k :: k in t.checked ==> BelongsTo(t, k, HolderOf(t.checked[k])))
  }

  lemma StepActors(t: Tracked, r: Request)
    requires ActorsKept(t) && NewTokens(t, r)
    ensures ActorsKept(Serve(t, r))
  {
    hide ActorsKept, Read;
    match r
    case Login(s, fails) => if !fails { LoginActors(t, s); }
    case Logout(token, fails) => if !fails { LogoutActors(t, token); }
    case Check(token, now, actor) => CheckActors(t, token, now, actor);
    case Swap(token, renewed, expiresAt, fault) => SwapActors(t, token, renewed, expiresAt, fault);
    case Clean(doomed, now) => CleanActors(t, doomed, now);
  }

  lemma LoginActors(t: Tracked, s: Session)
    requires ActorsKept(t) && s.refreshToken !in t.origin
    ensures ActorsKept(Serve(t, Login(s, false)))
  {
    hide FromString, Name;
    var u := Serve(t, Login(s, false));
    forall k | k in u.rows ensures BelongsTo(u, k, HolderOf(Read(u.rows, k).value)) {
      StoreThenGet(t.rows, s, k);
    }
  }

  lemma LogoutActors(t: Tracked, token: string)
    requires ActorsKept(t)
    ensures ActorsKept(Serve(t, Logout(token, false)))
  {
    hide FromString;
    var u := Serve(t, Logout(token, false));
    forall k | k in u.rows ensures BelongsTo(u, k, HolderOf(Read(u.rows, k).value)) {
      RevokeThenGet(t.rows, token, k);
    }
  }

  lemma CheckActors(t: Tracked, token: string, now: int, actor: Holder)
    requires ActorsKept(t)
    ensures ActorsKept(Serve(t, Check(token, now, actor)))
  {
    hide Read;
  }

  lemma SwapActors(t: Tracked, token: string, renewed: string, expiresAt: int, fault: Fault)
    requires ActorsKept(t) && renewed !in t.origin
    ensures ActorsKept(Serve(t, Swap(token, renewed, expiresAt, fault)))
  {
    hide FromString, Name, Rotated;
    var u := Serve(t, Swap(token, renewed, expiresAt, fault));
    if Swaps(t, token, renewed, expiresAt, fault) && token in t.origin {
      forall k | k in u.rows ensures BelongsTo(u, k, HolderOf(Read(u.rows, k).value)) {
        RotateThenGet(t.rows, token, NextOf(t, token, renewed, expiresAt), fault, k);
      }
    }
  }

  lemma CleanActors(t: Tracked, doomed: set<string>, now: int)
    requires ActorsKept(t)
    ensures ActorsKept(Serve(t, Clean(doomed, now)))
  {
    hide FromString, Gone;
  }

  /** Over every interleaving, every session that is read, however often it was refreshed, is of the actor whose login
      it descends from, and a refresh passes its check only in the name of that actor. */
  lemma {:induction false} ActorsConserved(t: Tracked, rs: seq<Request>)
    requires ActorsKept(t) && NewTokensAll(t, rs)
    ensures ActorsKept(ServeAll(t, rs))
    ensures var u := ServeAll(t, rs);
            forall token, now, actor :: Passes(u.rows, token, now, actor) ==> BelongsTo(u, token, actor)
  {
    hide Serve, NewTokens, Read;
    if rs != [] {
      var n := |rs| - 1;
      ActorsConserved(t, rs[..n]);
      StepActors(ServeAll(t, rs[..n]), rs[n]);
    }
  }

  lemma NoActorsYet()
    ensures ActorsKept(NO_LOGINS)
  {
  }
}
