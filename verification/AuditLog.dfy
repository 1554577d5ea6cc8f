/** The audit log in the database: an append chains its event to the last row of its day, and the verification
    walks the rows in log order. The digest is taken of the event as it was given, and checked on what the columns
    return. */
module AuditLog {
  import opened GoStrings
  import opened Encoding
  import opened AuditChain
  import opened AuditStore

  function Day(e: Record): string {
    e.detail.partitionDay
  }

  /** `ORDER BY recorded_at, audit_id`. */
  predicate Before(a: Record, b: Record) {
    || Instant(a.recordedAt) < Instant(b.recordedAt)
    || (Instant(a.recordedAt) == Instant(b.recordedAt) && a.auditID != b.auditID && LexLeq(a.auditID, b.auditID))
  }

  /** By the fields of the recorded time, the year first, and at equal times by the id. */
  lemma BeforeIff(a: Record, b: Record)
    ensures Before(a, b) <==>
              || Earlier(a.recordedAt, b.recordedAt)
              || (a.recordedAt == b.recordedAt && a.auditID != b.auditID && LexLeq(a.auditID, b.auditID))
  {
    hide Instant, LexLeq, Earlier;
    InstantOrder(a.recordedAt, b.recordedAt);
  }

  lemma BeforeTotal(a: Record, b: Record)
    requires a.auditID != b.auditID
    ensures Before(a, b) <==> !Before(b, a)
  {
    hide Instant, LexLeq;
    LexTotal(a.auditID, b.auditID);
    if LexLeq(a.auditID, b.auditID) && LexLeq(b.auditID, a.auditID) {
      LexAntisymmetric(a.auditID, b.auditID);
    }
  }

  lemma BeforeTransitive(a: Record, b: Record, c: Record)
    requires Before(a, b) && Before(b, c)
    ensures Before(a, c)
  {
    hide Instant, LexLeq;
    if LexLeq(a.auditID, b.auditID) && LexLeq(b.auditID, c.auditID) {
      LexTransitive(a.auditID, b.auditID, c.auditID);
      if a.auditID == c.auditID {
        LexAntisymmetric(a.auditID, b.auditID);
      }
    }
  }

  // ---- appending --------------------------------------------------------------------------------------

  function OfDay(rows: seq<Record>, day: string): seq<Record> {
    if rows == [] then []
    else
      var e := rows[|rows| - 1];
      OfDay(rows[..|rows| - 1], day) + if Day(e) == day then [e] else []
  }

  /** The last row in log order, as `ORDER BY recorded_at DESC, audit_id DESC LIMIT 1` picks it. */
  function Latest(c: seq<Record>): Record
    requires c != []
  {
    var e := c[|c| - 1];
    if |c| == 1 then e
    else
      var m := Latest(c[..|c| - 1]);
      if Before(m, e) then e else m
  }

  function PrevOf(c: seq<Record>): string {
    if c == [] then GENESIS else Latest(c).hashCurr
  }

  predicate HasId(rows: seq<Record>, id: string) {
    exists i :: 0 <= i < |rows| && rows[i].auditID == id
  }

  /** What bytes `json.Unmarshal` accepts, the text a JSON column returns for bytes written to it, and the time a
      timestamp column returns. */
  datatype Columns = Columns(isJSON: Bytes -> bool, text: Bytes -> Bytes, time: Timestamp -> Timestamp)

  /** `{}`. */
  const BRACES: Bytes := [0x7b, 0x7d]

  /** `normalizeAuditJSON`. */
  function Normalized(db: Columns, raw: Bytes): Bytes {
    if raw == [] || !db.isJSON(raw) then BRACES else raw
  }

  /** What the table returns of an event written to it. The fields that the digest does not read stay as they are. */
  function Kept(db: Columns, e: Record): Record {
    e.(recordedAt := db.time(e.recordedAt),
       before := db.text(Normalized(db, e.before)), after := db.text(Normalized(db, e.after)))
  }

  /** The table returns the event as it was hashed. */
  predicate Fixed(db: Columns, e: Record) {
    Kept(db, e) == e
  }

  /** The event as it is hashed: chained to the latest row of its day. */
  function Hashed(h: Digest, rows: seq<Record>, e: Record): Record {
    Chained(h, PrevOf(OfDay(rows, Day(e))), e)
  }

  /** `appendAuditEventToDB`: an event whose id is taken is dropped. */
  function WithRow(h: Digest, db: Columns, rows: seq<Record>, e: Record): seq<Record> {
    if HasId(rows, e.auditID) then rows else rows + [Kept(db, Hashed(h, rows, e))]
  }

  /** The rows, in order of arrival, after these events were appended. */
  function Log(h: Digest, db: Columns, events: seq<Record>): seq<Record> {
    if events == [] then [] else WithRow(h, db, Log(h, db, events[..|events| - 1]), events[|events| - 1])
  }

  /** The events behind those rows, as they were hashed. */
  function HashedLog(h: Digest, db: Columns, events: seq<Record>): seq<Record> {
    if events == [] then []
    else
      var init, e := events[..|events| - 1], events[|events| - 1];
      var rows := Log(h, db, init);
      HashedLog(h, db, init) + if HasId(rows, e.auditID) then [] else [Hashed(h, rows, e)]
  }

  /** The zero `time.Time`. */
  const ZERO_TIME: Timestamp := Civil(1, 1, 1, 0, 0, 0, 0)

  /** The event with its missing times and its missing day filled in. */
  function Completed(e: Record, now: Timestamp): Record {
    var recordedAt := if e.recordedAt == ZERO_TIME then now else e.recordedAt;
    var d := e.detail;
    e.(recordedAt := recordedAt,
       detail := d.(occurredAt := if d.occurredAt == ZERO_TIME then recordedAt else d.occurredAt,
                    partitionDay := if d.partitionDay == "" then DayText(recordedAt) else d.partitionDay))
  }

  /** Nothing that was given is changed; a missing time of recording is the present, a missing time of occurrence
      that of recording, and a missing day the day of recording as the printed time starts with it. */
  lemma CompletedMeaning(e: Record, now: Timestamp)
    ensures var c, zero := Completed(e, now), Civil(1, 1, 1, 0, 0, 0, 0);
            && c.(recordedAt := e.recordedAt, detail := e.detail) == e
            && c.detail.(occurredAt := e.detail.occurredAt, partitionDay := Day(e)) == e.detail
            && (c.recordedAt == if e.recordedAt == zero then now else e.recordedAt)
            && (c.detail.occurredAt == if e.detail.occurredAt == zero then c.recordedAt else e.detail.occurredAt)
            && (if Day(e) != "" then Day(c) == Day(e)
                else Day(c) + "T" <= Stamp(c.recordedAt) && 'T' !in Day(c))
  {
    hide DayText, Stamp;
    DayTextStarts(Completed(e, now).recordedAt);
    DayTextNoT(Completed(e, now).recordedAt);
  }

  lemma DayTextNoT(t: Timestamp)
    ensures 'T' !in DayText(t)
  {
    hide Pad, DayText;
    StampText(t);
  }

  lemma HashedAs(h: Digest, rows: seq<Record>, e: Record)
    ensures var c := OfDay(rows, Day(e));
            var prev := if c == [] then GENESIS else Latest(c).hashCurr;
            var linked := e.(hashPrev := prev);
            Hashed(h, rows, e) == linked.(hashCurr := Hash(h, prev, linked))
  {
    hide OfDay, Latest;
  }

  class AuditTable {
    var rows: seq<Record>

    constructor ()
      ensures rows == []
    {
      rows := [];
    }

    method AppendAuditEvent(h: Digest, db: Columns, e: Record, now: Timestamp)
      modifies this
      ensures rows == WithRow(h, db, old(rows), Completed(e, now))
    {
      hide Hash, OfDay, Latest, DayText, HasId;
      var ev := e;
      if ev.recordedAt == ZERO_TIME {
        ev := ev.(recordedAt := now);
      }
      if ev.detail.occurredAt == ZERO_TIME {
        ev := ev.(detail := ev.detail.(occurredAt := ev.recordedAt));
      }
      if ev.detail.partitionDay == "" {
        ev := ev.(detail := ev.detail.(partitionDay := DayText(ev.recordedAt)));
      }
      assert ev == Completed(e, now);
      var selected := OfDay(rows, Day(ev));
      var prev := GENESIS;
      if selected != [] {
        prev := Latest(selected).hashCurr;
      }
      ev := ev.(hashPrev := prev);
      ev := ev.(hashCurr := Hash(h, prev, ev));
      assert ev == Hashed(h, rows, Completed(e, now)) by { HashedAs(h, rows, Completed(e, now)); }
      ev := ev.(recordedAt := db.time(ev.recordedAt),
                before := db.text(Normalized(db, ev.before)), after := db.text(Normalized(db, ev.after)));
      if !HasId(rows, ev.auditID) {
        rows := rows + [ev];
      }
    }
  }

  predicate DistinctIds(c: seq<Record>) {
    forall i, j :: 0 <= i < j < |c| ==> c[i].auditID != c[j].auditID
  }

  /** `r[i]` was chained to the latest of the rows before `c[i]`, and `c[i]` is what the table kept of it. */
  predicate Grown(h: Digest, db: Columns, c: seq<Record>, r: seq<Record>) {
    |c| == |r| && forall i :: 0 <= i < |c| ==>
      c[i] == Kept(db, r[i]) && r[i].hashPrev == PrevOf(c[..i]) && r[i].hashCurr == Hash(h, r[i].hashPrev, r[i])
  }

  lemma OfDayMore(rows: seq<Record>, e: Record, day: string)
    ensures OfDay(rows + [e], day) == OfDay(rows, day) + if Day(e) == day then [e] else []
  {
    assert (rows + [e])[..|rows|] == rows;
  }

  lemma {:induction false} OfDayFrom(rows: seq<Record>, day: string)
    ensures forall e :: e in OfDay(rows, day) ==> e in rows && Day(e) == day
  {
    if rows != [] {
      var init := rows[..|rows| - 1];
      OfDayFrom(init, day);
      assert rows == init + [rows[|rows| - 1]];
    }
  }

  lemma {:induction false} OfDayDistinct(rows: seq<Record>, day: string)
    requires DistinctIds(rows)
    ensures DistinctIds(OfDay(rows, day))
  {
    if rows != [] {
      var init, e := rows[..|rows| - 1], rows[|rows| - 1];
      OfDayDistinct(init, day);
      OfDayFrom(init, day);
      assert forall r :: r in init ==> r.auditID != e.auditID;
    }
  }

  lemma GrownNext(h: Digest, db: Columns, c: seq<Record>, r: seq<Record>, e: Record)
    requires Grown(h, db, c, r)
    ensures var x := Chained(h, PrevOf(c), e); Grown(h, db, c + [Kept(db, x)], r + [x])
  {
    hide PrevOf, Hash, Kept;
    var x := Chained(h, PrevOf(c), e);
    var d := c + [Kept(db, x)];
    ChainedHash(h, PrevOf(c), e);
    assert forall i :: 0 <= i <= |c| ==> d[..i] == c[..i];
    assert c[..|c|] == c;
  }

  lemma ChainedHash(h: Digest, prev: string, e: Record)
    ensures var r := Chained(h, prev, e); r.hashPrev == prev && r.hashCurr == Hash(h, prev, r)
  {
  }

  lemma {:induction false} LogIds(h: Digest, db: Columns, events: seq<Record>)
    ensures DistinctIds(Log(h, db, events))
    ensures forall id :: HasId(Log(h, db, events), id) <==> HasId(events, id)
  {
    hide PrevOf, Chained, OfDay;
    if events != [] {
      var init, e := events[..|events| - 1], events[|events| - 1];
      var rows := Log(h, db, init);
      LogIds(h, db, init);
      assert events == init + [e];
      forall id ensures HasId(events, id) <==> HasId(init, id) || id == e.auditID {
        HasIdMore(init, e, id);
      }
      var x := Kept(db, Hashed(h, rows, e));
      assert x.auditID == e.auditID by { RowKeeps(h, db, rows, e); }
      forall id ensures HasId(rows + [x], id) <==> HasId(rows, id) || id == e.auditID {
        HasIdMore(rows, x, id);
      }
    }
  }

  lemma HasIdMore(rows: seq<Record>, e: Record, id: string)
    ensures HasId(rows + [e], id) <==> HasId(rows, id) || id == e.auditID
  {
    var more := rows + [e];
    assert more[|rows|] == e;
    assert forall i :: 0 <= i < |rows| ==> more[i] == rows[i];
  }

  lemma RowKeeps(h: Digest, db: Columns, rows: seq<Record>, e: Record)
    ensures Hashed(h, rows, e).auditID == e.auditID && Kept(db, Hashed(h, rows, e)).auditID == e.auditID
    ensures Day(Hashed(h, rows, e)) == Day(e) && Day(Kept(db, Hashed(h, rows, e))) == Day(e)
    ensures Fixed(db, Hashed(h, rows, e)) <==> Fixed(db, e)
  {
    hide Hash, PrevOf;
  }

  /** What the last event adds to a day, in the table and as hashed. */
  lemma LastOfDay(h: Digest, db: Columns, events: seq<Record>, day: string)
    requires events != []
    ensures var init, e := events[..|events| - 1], events[|events| - 1];
            var c, r := OfDay(Log(h, db, init), day), OfDay(HashedLog(h, db, init), day);
            var c', r' := OfDay(Log(h, db, events), day), OfDay(HashedLog(h, db, events), day);
            var x := Chained(h, PrevOf(c), e);
            if HasId(init, e.auditID) || Day(e) != day then c' == c && r' == r
            else c' == c + [Kept(db, x)] && r' == r + [x] && (Fixed(db, x) <==> Fixed(db, e))
  {
    hide PrevOf, Chained, OfDay, Kept, Fixed, HasId;
    var init, e := events[..|events| - 1], events[|events| - 1];
    var rows, past := Log(h, db, init), HashedLog(h, db, init);
    LogIds(h, db, init);
    RowKeeps(h, db, rows, e);
    var x := Hashed(h, rows, e);
    OfDayMore(rows, Kept(db, x), day);
    OfDayMore(past, x, day);
    assert past + [] == past;
  }

  /** What appends alone produce, day by day. */
  lemma {:induction false} LogGrown(h: Digest, db: Columns, events: seq<Record>, day: string)
    ensures Grown(h, db, OfDay(Log(h, db, events), day), OfDay(HashedLog(h, db, events), day))
  {
    hide Grown, PrevOf, Chained, Kept, Fixed, HasId;
    if events != [] {
      var init := events[..|events| - 1];
      LogGrown(h, db, init, day);
      LastOfDay(h, db, events, day);
      GrownNext(h, db, OfDay(Log(h, db, init), day), OfDay(HashedLog(h, db, init), day), events[|events| - 1]);
    } else {
      NoneGrown(h, db);
    }
  }

  lemma NoneGrown(h: Digest, db: Columns)
    ensures forall day :: Grown(h, db, OfDay([], day), OfDay([], day))
  {
  }

  /** Of the events of this day, the first with each id is returned by the table as it was given. */
  predicate Unaltered(db: Columns, events: seq<Record>, day: string) {
    events != [] ==>
      var init, e := events[..|events| - 1], events[|events| - 1];
      Unaltered(db, init, day) && (Day(e) == day && !HasId(init, e.auditID) ==> Fixed(db, e))
  }

  lemma {:induction false} UnalteredIff(h: Digest, db: Columns, events: seq<Record>, day: string)
    ensures Unaltered(db, events, day) <==> OfDay(Log(h, db, events), day) == OfDay(HashedLog(h, db, events), day)
  {
    hide PrevOf, Chained, OfDay, HasId, Log, HashedLog, Kept;
    if events == [] {
      NothingLogged(h, db);
    } else {
      var init, e := events[..|events| - 1], events[|events| - 1];
      var c, r := OfDay(Log(h, db, init), day), OfDay(HashedLog(h, db, init), day);
      UnalteredIff(h, db, init, day);
      LastOfDay(h, db, events, day);
      var x := Chained(h, PrevOf(c), e);
      SnocSame(c, Kept(db, x), r, x);
    }
  }

  lemma NothingLogged(h: Digest, db: Columns)
    ensures Log(h, db, []) == HashedLog(h, db, []) == []
  {
  }

  lemma SnocSame(c: seq<Record>, x: Record, d: seq<Record>, y: Record)
    ensures c + [x] == d + [y] <==> c == d && x == y
  {
    if c + [x] == d + [y] {
      assert |c + [x]| == |d + [y]|;
      assert (c + [x])[..|c|] == c && (d + [y])[..|d|] == d;
      assert (c + [x])[|c|] == x && (d + [y])[|d|] == y;
    }
  }

  // ---- verifying --------------------------------------------------------------------------------------

  /** On each day the rows form a chain in the order given. */
  ghost predicate Verified(h: Digest, rows: seq<Record>) {
    forall day :: Linked(h, OfDay(rows, day))
  }

  /** What the walk expects the next row of this day to be chained to. */
  function Expected(last: map<string, string>, day: string): string {
    if day in last && last[day] != "" then last[day] else GENESIS
  }

  ghost predicate Remembers(last: map<string, string>, rows: seq<Record>) {
    forall day :: Expected(last, day) == Head(OfDay(rows, day))
  }

  /** `verifyAuditChainFromDB` on the rows it selects: it accepts exactly when each day's rows form a chain, and
      otherwise names a row. */
  method VerifyAuditChain(h: Digest, rows: seq<Record>) returns (r: Result<(), string>)
    requires DigestShape(h)
    ensures r.Ok? <==> Verified(h, rows)
    ensures r.Err? ==> HasId(rows, r.error)
  {
    hide Verified, Remembers, Hash, DigestShape, OfDay;
    var last: map<string, string> := map[];
    NothingWalked(h);
    for n := 0 to |rows|
      invariant Verified(h, rows[..n]) && Remembers(last, rows[..n])
    {
      var e := rows[n];
      var expectedPrev := if Day(e) in last then last[Day(e)] else "";
      if expectedPrev == "" {
        expectedPrev := GENESIS;
      }
      assert rows[..n + 1] == rows[..n] + [e];
      WalkOn(h, rows[..n], e, last);
      if e.hashPrev != expectedPrev || e.hashCurr != Hash(h, expectedPrev, e) {
        if Verified(h, rows) {
          VerifiedPrefix(h, rows, n + 1);
        }
        return Err(e.auditID);
      }
      last := last[Day(e) := e.hashCurr];
    }
    assert rows[..|rows|] == rows;
    return Ok(());
  }

  lemma NothingWalked(h: Digest)
    ensures Verified(h, []) && Remembers(map[], [])
  {
  }

  lemma WalkOn(h: Digest, rows: seq<Record>, e: Record, last: map<string, string>)
    requires DigestShape(h) && Verified(h, rows) && Remembers(last, rows)
    ensures var prev := Expected(last, Day(e));
            && (Verified(h, rows + [e]) <==> e.hashPrev == prev && e.hashCurr == Hash(h, prev, e))
            && (Verified(h, rows + [e]) ==> Remembers(last[Day(e) := e.hashCurr], rows + [e]))
  {
    hide Verified, Remembers, Linked, Hash, DigestShape, OfDay;
    HashNotEmpty(h, Expected(last, Day(e)), e);
    VerifiedMore(h, rows, e);
    LinkedMore(h, OfDay(rows, Day(e)), e);
    RemembersMore(rows, e, last);
  }

  lemma VerifiedMore(h: Digest, rows: seq<Record>, e: Record)
    requires Verified(h, rows)
    ensures Linked(h, OfDay(rows, Day(e)))
    ensures Verified(h, rows + [e]) <==> Linked(h, OfDay(rows, Day(e)) + [e])
  {
    hide Linked, OfDay;
    OfDayMore(rows, e, Day(e));
    if Linked(h, OfDay(rows, Day(e)) + [e]) {
      forall day ensures Linked(h, OfDay(rows + [e], day)) {
        OfDayMore(rows, e, day);
        assert day != Day(e) ==> OfDay(rows + [e], day) == OfDay(rows, day);
      }
    }
  }

  lemma RemembersMore(rows: seq<Record>, e: Record, last: map<string, string>)
    requires Remembers(last, rows)
    ensures Expected(last, Day(e)) == Head(OfDay(rows, Day(e)))
    ensures e.hashCurr != "" ==> Remembers(last[Day(e) := e.hashCurr], rows + [e])
  {
    hide OfDay;
    forall day ensures Head(OfDay(rows + [e], day)) == if day == Day(e) then e.hashCurr else Head(OfDay(rows, day)) {
      OfDayMore(rows, e, day);
      assert day != Day(e) ==> OfDay(rows + [e], day) == OfDay(rows, day);
    }
  }

  lemma VerifiedPrefix(h: Digest, rows: seq<Record>, n: nat)
    requires n <= |rows| && Verified(h, rows)
    ensures Verified(h, rows[..n])
  {
    hide Linked, OfDay;
    forall day ensures Linked(h, OfDay(rows[..n], day)) {
      OfDayPrefix(rows, n, day);
      LinkedPrefix(h, OfDay(rows[..n], day), OfDay(rows, day));
    }
  }

  lemma LinkedMore(h: Digest, c: seq<Record>, e: Record)
    requires Linked(h, c)
    ensures Linked(h, c + [e]) <==> e.hashPrev == Head(c) && e.hashCurr == Hash(h, Head(c), e)
  {
    hide Hash;
    var d := c + [e];
    assert d[..|c|] == c && d[|c|] == e;
    assert forall i :: 0 <= i < |c| ==> d[..i] == c[..i] && d[i] == c[i];
  }

  lemma LinkedPrefix(h: Digest, c: seq<Record>, d: seq<Record>)
    requires c <= d && Linked(h, d)
    ensures Linked(h, c)
  {
    hide Hash;
    assert forall i :: 0 <= i < |c| ==> d[..i] == c[..i] && d[i] == c[i];
  }

  lemma {:induction false} OfDayPrefix(rows: seq<Record>, n: nat, day: string)
    requires n <= |rows|
    ensures OfDay(rows[..n], day) <= OfDay(rows, day)
  {
    if n == |rows| {
      assert rows[..n] == rows;
    } else {
      assert rows[..|rows| - 1][..n] == rows[..n];
      OfDayPrefix(rows[..|rows| - 1], n, day);
    }
  }

  lemma HashNotEmpty(h: Digest, prev: string, e: Record)
    requires DigestShape(h)
    ensures Hash(h, prev, e) != "" && Hash(h, prev, e) != GENESIS
  {
  }

  // ---- when appends verify ----------------------------------------------------------------------------

  predicate Increasing(c: seq<Record>) {
    forall i, j :: 0 <= i < j < |c| ==> Before(c[i], c[j])
  }

  /** One day's rows, in log order. */
  predicate Sorts(s: seq<Record>, c: seq<Record>) {
    Increasing(s) && multiset(s) == multiset(c)
  }

  predicate DistinctDigests(c: seq<Record>) {
    forall i, j :: 0 <= i < j < |c| ==> c[i].hashCurr != c[j].hashCurr
  }

  lemma {:induction false} LatestIsLast(c: seq<Record>)
    requires c != [] && DistinctIds(c)
    ensures Latest(c) in c && forall e :: e in c ==> e == Latest(c) || Before(e, Latest(c))
  {
    hide Before;
    if |c| > 1 {
      var init, e := c[..|c| - 1], c[|c| - 1];
      LatestIsLast(init);
      var m := Latest(init);
      assert c == init + [e] && m.auditID != e.auditID;
      BeforeTotal(m, e);
      forall x | x in init && x != Latest(c) ensures Before(x, Latest(c)) {
        if Before(m, e) && x != m {
          BeforeTransitive(x, m, e);
        }
      }
    }
  }

  lemma LatestOfIncreasing(c: seq<Record>)
    requires c != [] && Increasing(c)
    ensures Latest(c) == c[|c| - 1]
  {
    hide Before;
    if |c| > 1 {
      LatestOfIncreasing(c[..|c| - 1]);
      assert Before(c[|c| - 2], c[|c| - 1]);
    }
  }

  /** Rows that arrive in log order form a chain. */
  lemma IncreasingLinked(h: Digest, db: Columns, c: seq<Record>)
    requires Grown(h, db, c, c) && Increasing(c)
    ensures Linked(h, c)
  {
    hide Before, Hash, Latest;
    forall i | 0 <= i < |c| ensures c[i].hashPrev == Head(c[..i]) {
      if i > 0 {
        LatestOfIncreasing(c[..i]);
      }
    }
  }

  /** Two increasing sequences of the same rows are one. */
  lemma {:induction false} IncreasingUnique(c: seq<Record>, d: seq<Record>)
    requires Increasing(c) && Increasing(d) && multiset(c) == multiset(d)
    ensures c == d
  {
    hide Increasing;
    assert |multiset(c)| == |c| && |multiset(d)| == |d|;
    if c != [] {
      var n := |c| - 1;
      assert d[n] in multiset(c) && c[n] in multiset(d);
      LastTwice(c, d);
      InitMultiset(c);
      InitMultiset(d);
      IncreasingInit(c);
      IncreasingInit(d);
      IncreasingUnique(c[..n], d[..n]);
      assert c == c[..n] + [c[n]] && d == d[..n] + [d[n]];
    }
  }

  lemma IncreasingInit(c: seq<Record>)
    requires c != [] && Increasing(c)
    ensures Increasing(c[..|c| - 1])
  {
  }

  lemma InitMultiset(c: seq<Record>)
    requires c != []
    ensures multiset(c[..|c| - 1]) == multiset(c) - multiset{c[|c| - 1]}
  {
    assert c == c[..|c| - 1] + [c[|c| - 1]];
  }

  lemma LastTwice(c: seq<Record>, d: seq<Record>)
    requires c != [] && d != [] && Increasing(c) && Increasing(d) && d[|d| - 1] in c && c[|c| - 1] in d
    ensures c[|c| - 1] == d[|d| - 1]
  {
    hide Before;
    var x, y := c[|c| - 1], d[|d| - 1];
    if x != y {
      assert Before(y, x) && Before(x, y);
      BeforeTransitive(x, y, x);
      NotBeforeItself(x);
    }
  }

  lemma NotBeforeItself(e: Record)
    ensures !Before(e, e)
  {
  }

  lemma At(c: seq<Record>, s: seq<Record>, e: Record) returns (k: nat)
    requires multiset(s) == multiset(c) && e in c
    ensures k < |s| && s[k] == e
  {
    assert e in multiset(s);
    k :| 0 <= k < |s| && s[k] == e;
  }

  lemma CarriesHead(h: Digest, s: seq<Record>, k: nat)
    requires Linked(h, s) && k < |s|
    ensures s[k].hashPrev == if k == 0 then GENESIS else s[k - 1].hashCurr
    ensures s[k].hashCurr == Hash(h, s[k].hashPrev, s[k])
  {
    hide Hash;
    assert s[k].hashPrev == Head(s[..k]);
  }

  /** In a chain of the sorted rows, a row comes after the one whose digest it carries. */
  lemma CarriesEarlier(h: Digest, c: seq<Record>, s: seq<Record>, m: Record, e: Record)
    requires DigestShape(h) && DistinctDigests(c) && Increasing(s) && multiset(s) == multiset(c) && Linked(h, s)
    requires m in c && e in c && e.hashPrev == m.hashCurr == Hash(h, m.hashPrev, m)
    ensures Before(m, e)
  {
    hide Before, Hash, DigestShape, DistinctDigests, Linked;
    var k := At(c, s, e);
    CarriesHead(h, s, k);
    HashNotEmpty(h, m.hashPrev, m);
    var q := s[k - 1];
    assert q in s && q in multiset(c);
    SameDigest(c, q, m);
    assert Before(s[k - 1], s[k]);
  }

  lemma SameDigest(c: seq<Record>, a: Record, b: Record)
    requires DistinctDigests(c) && a in c && b in c && a.hashCurr == b.hashCurr
    ensures a == b
  {
  }

  /** If the sorted rows form a chain, every row came after the latest of the rows before it. */
  lemma LinkedAfter(h: Digest, db: Columns, c: seq<Record>, s: seq<Record>, j: nat)
    requires DigestShape(h) && Grown(h, db, c, c) && DistinctIds(c) && DistinctDigests(c)
    requires Sorts(s, c) && Linked(h, s) && 0 < j < |c|
    ensures Before(Latest(c[..j]), c[j])
  {
    hide Before, Hash, Latest, DigestShape, DistinctDigests, Increasing, Linked;
    var m := Latest(c[..j]);
    LatestIsLast(c[..j]);
    assert m in c && c[j] in c;
    assert c[j].hashPrev == PrevOf(c[..j]) == m.hashCurr;
    CarriesEarlier(h, c, s, m, c[j]);
  }

  lemma AfterIncreasing(c: seq<Record>)
    requires DistinctIds(c) && forall j :: 0 < j < |c| ==> Before(Latest(c[..j]), c[j])
    ensures Increasing(c)
  {
    hide Before, Latest;
    forall i, j | 0 <= i < j < |c| ensures Before(c[i], c[j]) {
      var m := Latest(c[..j]);
      LatestIsLast(c[..j]);
      assert c[i] in c[..j];
      if c[i] != m {
        BeforeTransitive(c[i], m, c[j]);
      }
    }
  }

  /** The time is read back from a pre-image, whatever follows it. */
  lemma TimeInPreimage(a: Record, b: Record)
    requires a.hashPrev == b.hashPrev && a.auditID == b.auditID
    requires Preimage(a.hashPrev, a) == Preimage(b.hashPrev, b)
    ensures a.recordedAt == b.recordedAt
  {
    hide Preimage, Hex, Stamp, Bar, Pieces;
    PreimageFrom(a.hashPrev, a);
    PreimageFrom(b.hashPrev, b);
    var x := Bar(a.actorID, Bar(a.action, Bar(a.result, Bar(Hex(a.before), Hex(a.after)))));
    var y := Bar(b.actorID, Bar(b.action, Bar(b.result, Bar(Hex(b.before), Hex(b.after)))));
    var s, t := Stamp(a.recordedAt), Stamp(b.recordedAt);
    BarCancel(a.hashPrev, Bar(a.auditID, Bar(s, x)), Bar(a.auditID, Bar(t, y)));
    BarCancel(a.auditID, Bar(s, x), Bar(t, y));
    StampFirst(a.recordedAt, x);
    StampFirst(b.recordedAt, y);
    StampInjective(a.recordedAt, b.recordedAt);
  }

  lemma StampFirst(t: Timestamp, rest: string)
    ensures Pieces(Bar(Stamp(t), rest))[0] == Stamp(t)
  {
    hide Stamp, Pieces, Bar;
    StampParts(t);
    PiecesFree(Stamp(t));
    PiecesBar(Stamp(t), rest);
  }

  /** What the table keeps has the pre-image that was hashed exactly when nothing changed on the way in. */
  lemma KeptPreimage(db: Columns, e: Record)
    ensures Preimage(e.hashPrev, Kept(db, e)) == Preimage(e.hashPrev, e) <==> Fixed(db, e)
  {
    hide Preimage, Normalized;
    var k := Kept(db, e);
    if Preimage(e.hashPrev, k) == Preimage(e.hashPrev, e) {
      TimeInPreimage(k, e);
      BytesInPreimage(k, e);
    }
  }

  /** No row's digest is also that of another text. */
  predicate NoCollisions(h: Digest, c: seq<Record>, r: seq<Record>) {
    |c| == |r| && forall i :: 0 <= i < |c| ==> !EventsCollide(h, c[i], r[i])
  }

  /** Rows that form a chain were returned as they were hashed. */
  lemma LinkedFixed(h: Digest, db: Columns, c: seq<Record>, r: seq<Record>, s: seq<Record>)
    requires Grown(h, db, c, r) && NoCollisions(h, c, r) && multiset(s) == multiset(c) && Linked(h, s)
    ensures c == r
  {
    hide Preimage, PrevOf, Normalized;
    forall i | 0 <= i < |c| ensures c[i] == r[i] {
      assert c[i] in c;
      var k := At(c, s, c[i]);
      KeptPreimage(db, r[i]);
    }
  }

  /** A day that was written only by appends verifies exactly when its rows arrived in increasing order of recording
      time and id and the table returns each as it was hashed. */
  lemma DayVerifiesIff(h: Digest, db: Columns, events: seq<Record>, day: string, s: seq<Record>)
    requires DigestShape(h)
    requires var c, r := OfDay(Log(h, db, events), day), OfDay(HashedLog(h, db, events), day);
             DistinctDigests(c) && NoCollisions(h, c, r) && Sorts(s, c)
    ensures Linked(h, s) <==> Increasing(OfDay(Log(h, db, events), day)) && Unaltered(db, events, day)
  {
    hide Before, Log, HashedLog, OfDay, Linked, Grown, Increasing, DistinctIds, DistinctDigests, DigestShape, Latest;
    hide NoCollisions, Unaltered;
    var c, r := OfDay(Log(h, db, events), day), OfDay(HashedLog(h, db, events), day);
    LogGrown(h, db, events, day);
    LogIds(h, db, events);
    OfDayDistinct(Log(h, db, events), day);
    UnalteredIff(h, db, events, day);
    if Increasing(c) && c == r {
      IncreasingUnique(c, s);
      IncreasingLinked(h, db, c);
    } else if Linked(h, s) {
      LinkedFixed(h, db, c, r, s);
      forall j | 0 < j < |c| ensures Before(Latest(c[..j]), c[j]) {
        LinkedAfter(h, db, c, s, j);
      }
      AfterIncreasing(c);
    }
  }

  /** `rows` are the rows of the table in log order within each day, as the query returns them. */
  predicate Selects(rows: seq<Record>, table: seq<Record>) {
    && multiset(rows) == multiset(table)
    && forall i, j :: 0 <= i < j < |rows| && Day(rows[i]) == Day(rows[j]) ==> Before(rows[i], rows[j])
  }

  lemma {:induction false} OfDayCount(rows: seq<Record>, day: string, e: Record)
    ensures multiset(OfDay(rows, day))[e] == if Day(e) == day then multiset(rows)[e] else 0
  {
    hide OfDay;
    if rows == [] {
      NoRows(day);
    } else {
      var init, r := rows[..|rows| - 1], rows[|rows| - 1];
      OfDayCount(init, day, e);
      assert rows == init + [r];
      OfDayMore(init, r, day);
      CountMore(init, r, e);
      CountMore(OfDay(init, day), r, e);
    }
  }

  lemma CountMore(c: seq<Record>, r: Record, e: Record)
    ensures multiset(c + [r])[e] == multiset(c)[e] + (if e == r then 1 else 0)
  {
  }

  lemma {:induction false} OfDayIncreasing(rows: seq<Record>, day: string)
    requires forall i, j :: 0 <= i < j < |rows| && Day(rows[i]) == Day(rows[j]) ==> Before(rows[i], rows[j])
    ensures Increasing(OfDay(rows, day))
  {
    hide Before;
    if rows != [] {
      var init, e := rows[..|rows| - 1], rows[|rows| - 1];
      OfDayIncreasing(init, day);
      OfDayFrom(init, day);
      assert forall r :: r in init && Day(r) == Day(e) ==> Before(r, e);
    }
  }

  lemma SelectedSorts(rows: seq<Record>, table: seq<Record>, day: string)
    requires Selects(rows, table)
    ensures Sorts(OfDay(rows, day), OfDay(table, day))
  {
    hide Before, OfDay;
    OfDayIncreasing(rows, day);
    forall e ensures multiset(OfDay(rows, day))[e] == multiset(OfDay(table, day))[e] {
      OfDayCount(rows, day, e);
      OfDayCount(table, day, e);
    }
  }

  /** A table written only by appends verifies exactly when on every day the rows arrived in increasing order of
      recording time and id and the table returns each as it was hashed. */
  lemma LogVerifiesIff(h: Digest, db: Columns, events: seq<Record>, rows: seq<Record>)
    requires DigestShape(h) && Selects(rows, Log(h, db, events))
    requires forall day :: DistinctDigests(OfDay(Log(h, db, events), day))
    requires forall day :: NoCollisions(h, OfDay(Log(h, db, events), day), OfDay(HashedLog(h, db, events), day))
    ensures Verified(h, rows) <==>
              forall day :: Increasing(OfDay(Log(h, db, events), day)) && Unaltered(db, events, day)
  {
    hide Before, Log, HashedLog, OfDay, Linked, Increasing, DistinctDigests, DigestShape, Selects, Sorts, NoCollisions;
    hide Unaltered;
    if Verified(h, rows) {
      forall day ensures Increasing(OfDay(Log(h, db, events), day)) && Unaltered(db, events, day) {
        SelectedSorts(rows, Log(h, db, events), day);
        DayVerifiesIff(h, db, events, day, OfDay(rows, day));
      }
    } else {
      var day :| !Linked(h, OfDay(rows, day));
      SelectedSorts(rows, Log(h, db, events), day);
      DayVerifiesIff(h, db, events, day, OfDay(rows, day));
    }
  }

  /** The bytes of a state come back as they were given: those of valid JSON, if the column keeps its text, and of
      what is not JSON or empty only what the column makes of `{}`. */
  predicate StateReturned(db: Columns, raw: Bytes) {
    db.text(if raw != [] && db.isJSON(raw) then raw else [0x7b, 0x7d]) == raw
  }

  lemma FixedIff(db: Columns, e: Record)
    ensures Fixed(db, e) <==>
              db.time(e.recordedAt) == e.recordedAt && StateReturned(db, e.before) && StateReturned(db, e.after)
  {
  }

  /** An appended event with an empty state, or one that is not JSON, breaks the verification of its day: `{}` is
      stored in its place. */
  lemma EmptyStateFails(h: Digest, db: Columns, events: seq<Record>, e: Record, raw: Bytes, s: seq<Record>)
    requires DigestShape(h) && !HasId(events, e.auditID) && (raw == e.before || raw == e.after)
    requires (raw == [] || !db.isJSON(raw)) && db.text([0x7b, 0x7d]) != raw
    requires var all, day := events + [e], Day(e);
             var c, r := OfDay(Log(h, db, all), day), OfDay(HashedLog(h, db, all), day);
             DistinctDigests(c) && NoCollisions(h, c, r) && Sorts(s, c)
    ensures !Linked(h, s)
  {
    hide Log, HashedLog, OfDay, Linked, Increasing, DistinctDigests, DigestShape, Sorts, NoCollisions, HasId;
    DayVerifiesIff(h, db, events + [e], Day(e), s);
    assert (events + [e])[..|events|] == events;
    assert !Fixed(db, e);
  }

  /** Numbered ids do not sort as numbers: an event numbered 10 recorded at the same time as number 9 breaks the
      verification of its day, though nobody touched the table. */
  lemma TenAfterNine(h: Digest, db: Columns, prefix: string, x: Record, y: Record, s: seq<Record>)
    requires DigestShape(h) && x.auditID == prefix + "9" && y.auditID == prefix + "10"
    requires x.recordedAt == y.recordedAt && Day(x) == Day(y)
    requires var c, r := OfDay(Log(h, db, [x, y]), Day(x)), OfDay(HashedLog(h, db, [x, y]), Day(x));
             DistinctDigests(c) && NoCollisions(h, c, r) && Sorts(s, c)
    ensures !Linked(h, s)
  {
    hide Before, Linked, Hash, PrevOf, LexLeq, DistinctDigests, Sorts, DigestShape, Unaltered, NoCollisions;
    DayVerifiesIff(h, db, [x, y], Day(x), s);
    assert x.auditID[|prefix|] == '9' && y.auditID[|prefix|] == '1';
    TwoRows(h, db, x, y);
    var c := OfDay(Log(h, db, [x, y]), Day(x));
    NineLater(prefix, c[0], c[1]);
  }

  lemma TwoRows(h: Digest, db: Columns, x: Record, y: Record)
    requires x.auditID != y.auditID && Day(x) == Day(y)
    ensures var c := OfDay(Log(h, db, [x, y]), Day(x));
            && |c| == 2 && c[0].auditID == x.auditID && c[1].auditID == y.auditID
            && c[0].recordedAt == db.time(x.recordedAt) && c[1].recordedAt == db.time(y.recordedAt)
  {
    hide Hash, PrevOf, OfDay, Normalized;
    assert [x, y][..1] == [x] && [x][..0] == [];
    var a := Kept(db, Hashed(h, [], x));
    assert Log(h, db, []) == [] && Log(h, db, [x]) == WithRow(h, db, [], x) == [a];
    var b := Kept(db, Hashed(h, [a], y));
    assert Log(h, db, [x, y]) == [a] + [b];
    OfDayMore([], a, Day(x));
    OfDayMore([a], b, Day(x));
    NoRows(Day(x));
  }

  lemma NoRows(day: string)
    ensures OfDay([], day) == []
  {
  }

  lemma {:induction false} NineLater(prefix: string, a: Record, b: Record)
    requires a.auditID == prefix + "9" && b.auditID == prefix + "10" && a.recordedAt == b.recordedAt
    ensures !Before(a, b)
  {
    hide Instant;
    LexNine(prefix);
  }

  lemma {:induction false} LexNine(prefix: string)
    ensures !LexLeq(prefix + "9", prefix + "10")
  {
    if prefix != "" {
      LexNine(prefix[1..]);
      assert (prefix + "9")[1..] == prefix[1..] + "9" && (prefix + "10")[1..] == prefix[1..] + "10";
    }
  }

  // ---- what verification finds ------------------------------------------------------------------------

  lemma {:induction false} OfDayHas(rows: seq<Record>, e: Record)
    requires e in rows
    ensures e in OfDay(rows, Day(e))
  {
    if e != rows[|rows| - 1] {
      OfDayHas(rows[..|rows| - 1], e);
    }
  }

  lemma VerifiedRow(h: Digest, rows: seq<Record>, e: Record)
    requires Verified(h, rows) && e in rows
    ensures e.hashCurr == Hash(h, e.hashPrev, e)
  {
    hide Hash, OfDay;
    OfDayHas(rows, e);
    assert Linked(h, OfDay(rows, Day(e)));
  }

  /** Of a table that verified and whose rows had their `before_state` and `after_state` overwritten in place,
      verification finds every change, short of a digest collision. */
  lemma WritesFound(h: Digest, rows: seq<Record>, changed: seq<Record>)
    requires Verified(h, rows) && |changed| == |rows|
    requires forall i :: 0 <= i < |rows| ==> SameButBytes(changed[i], rows[i]) && !EventsCollide(h, changed[i], rows[i])
    ensures Verified(h, changed) <==> changed == rows
  {
    hide Verified, Preimage;
    if Verified(h, changed) {
      forall i | 0 <= i < |rows| ensures changed[i] == rows[i] {
        VerifiedRow(h, rows, rows[i]);
        VerifiedRow(h, changed, changed[i]);
        BytesInPreimage(changed[i], rows[i]);
      }
    }
  }

  /** The row keeps its place in the log and in the chain. */
  predicate SamePlace(a: Record, b: Record) {
    && a.auditID == b.auditID && a.recordedAt == b.recordedAt && Day(a) == Day(b)
    && a.hashPrev == b.hashPrev && a.hashCurr == b.hashCurr
  }

  predicate SamePreimage(a: Record, b: Record) {
    Preimage(a.hashPrev, a) == Preimage(b.hashPrev, b)
  }

  /** As far as the walk can see, the same row. */
  predicate Alike(h: Digest, a: Record, b: Record) {
    SamePlace(a, b) && Hash(h, a.hashPrev, a) == Hash(h, b.hashPrev, b)
  }

  predicate AllAlike(h: Digest, c: seq<Record>, d: seq<Record>) {
    |c| == |d| && forall i :: 0 <= i < |c| ==> Alike(h, c[i], d[i])
  }

  lemma {:induction false} AlikeOfDay(h: Digest, rows: seq<Record>, changed: seq<Record>, day: string)
    requires AllAlike(h, rows, changed)
    ensures AllAlike(h, OfDay(rows, day), OfDay(changed, day))
  {
    hide Hash;
    if rows != [] {
      var n := |rows| - 1;
      assert Alike(h, rows[n], changed[n]);
      AlikeOfDay(h, rows[..n], changed[..n], day);
    }
  }

  lemma AlikeLinked(h: Digest, c: seq<Record>, d: seq<Record>)
    requires AllAlike(h, c, d) && Linked(h, c)
    ensures Linked(h, d)
  {
    hide Hash;
    forall i | 0 <= i < |d| ensures d[i].hashPrev == Head(d[..i]) && d[i].hashCurr == Hash(h, d[i].hashPrev, d[i]) {
      assert Alike(h, c[i], d[i]);
      assert i > 0 ==> Alike(h, c[i - 1], d[i - 1]);
    }
  }

  lemma AlikeVerified(h: Digest, rows: seq<Record>, changed: seq<Record>)
    requires AllAlike(h, rows, changed) && Verified(h, rows)
    ensures Verified(h, changed)
  {
    hide AllAlike, Linked, OfDay;
    forall day ensures Linked(h, OfDay(changed, day)) {
      AlikeOfDay(h, rows, changed, day);
      AlikeLinked(h, OfDay(rows, day), OfDay(changed, day));
    }
  }

  /** Of a table that verified and whose rows were changed in place in any field but the two they are ordered by, the
      day and the two digests, verification accepts exactly those changes that leave every pre-image as it was, short
      of a digest collision. */
  lemma RewritesFound(h: Digest, rows: seq<Record>, changed: seq<Record>)
    requires Verified(h, rows) && |changed| == |rows|
    requires forall i :: 0 <= i < |rows| ==> SamePlace(rows[i], changed[i]) && !EventsCollide(h, changed[i], rows[i])
    ensures Verified(h, changed) <==>
              forall i :: 0 <= i < |rows| ==> SamePreimage(rows[i], changed[i])
  {
    hide Verified, Preimage;
    if Verified(h, changed) {
      forall i | 0 <= i < |rows| ensures SamePreimage(rows[i], changed[i]) {
        VerifiedRow(h, rows, rows[i]);
        VerifiedRow(h, changed, changed[i]);
      }
    } else if forall i :: 0 <= i < |rows| ==> SamePreimage(rows[i], changed[i]) {
      AlikeVerified(h, rows, changed);
    }
  }

  /** If moreover every row was unambiguous, verification accepts exactly the tables with every covered field as it
      was. */
  lemma UnambiguousRewritesFound(h: Digest, rows: seq<Record>, changed: seq<Record>)
    requires DigestShape(h) && Verified(h, rows) && |changed| == |rows|
    requires forall i :: 0 <= i < |rows| ==> SamePlace(rows[i], changed[i]) && !EventsCollide(h, changed[i], rows[i])
    requires forall i :: 0 <= i < |rows| ==> Unambiguous(rows[i])
    ensures Verified(h, changed) <==> forall i :: 0 <= i < |rows| ==> SameCovered(rows[i], changed[i])
  {
    hide Verified, Preimage, Unambiguous, DigestShape;
    RewritesFound(h, rows, changed);
    forall i | 0 <= i < |rows| ensures SameCovered(rows[i], changed[i]) <==> SamePreimage(rows[i], changed[i]) {
      var prev := rows[i].hashPrev;
      if SamePreimage(rows[i], changed[i]) {
        PrevHasNoBar(h, rows, rows[i]);
        PreimagePins(prev, rows[i], prev, changed[i]);
      } else if SameCovered(rows[i], changed[i]) {
        SameCoveredPreimage(prev, rows[i], changed[i]);
      }
    }
  }

  lemma SameCoveredPreimage(prev: string, a: Record, b: Record)
    requires SameCovered(a, b)
    ensures Preimage(prev, a) == Preimage(prev, b)
  {
  }

  lemma PrevHasNoBar(h: Digest, rows: seq<Record>, e: Record)
    requires DigestShape(h) && Verified(h, rows) && e in rows
    ensures '|' !in e.hashPrev
  {
    hide Hash, OfDay, DigestShape, Linked;
    OfDayHas(rows, e);
    var c := OfDay(rows, Day(e));
    assert Linked(h, c);
    var i :| 0 <= i < |c| && c[i] == e;
    CarriesHead(h, c, i);
    if i > 0 {
      CarriesHead(h, c, i - 1);
      HashHasNoBar(h, c[i - 1].hashPrev, c[i - 1]);
    }
  }

  lemma HashHasNoBar(h: Digest, prev: string, e: Record)
    requires DigestShape(h)
    ensures '|' !in Hash(h, prev, e)
  {
    assert IsLowerHex(h(Preimage(prev, e)));
  }

  // ---- removed rows -----------------------------------------------------------------------------------

  /** In a chain with distinct digests, only one row can follow a given head. */
  lemma HeadFixes(h: Digest, c: seq<Record>, k: nat, j: nat)
    requires DigestShape(h) && Linked(h, c) && DistinctDigests(c)
    requires k <= |c| && j <= |c| && Head(c[..k]) == Head(c[..j])
    ensures k == j
  {
    hide Hash, DigestShape;
    if k > 0 {
      HashNotEmpty(h, c[k - 1].hashPrev, c[k - 1]);
    }
    if j > 0 {
      HashNotEmpty(h, c[j - 1].hashPrev, c[j - 1]);
    }
  }

  lemma NextRow(h: Digest, c: seq<Record>, d: seq<Record>, n: nat)
    requires DigestShape(h) && Linked(h, c) && Linked(h, d) && DistinctDigests(c)
    requires n < |d| && n <= |c| && d[..n] == c[..n] && d[n] in c
    ensures n < |c| && d[n] == c[n]
  {
    hide Hash, DigestShape, DistinctDigests;
    var j :| 0 <= j < |c| && c[j] == d[n];
    assert d[n].hashPrev == Head(d[..n]) && c[j].hashPrev == Head(c[..j]);
    HeadFixes(h, c, n, j);
  }

  lemma {:induction false} ChainsNest(h: Digest, c: seq<Record>, d: seq<Record>)
    requires DigestShape(h) && Linked(h, c) && Linked(h, d) && DistinctDigests(c) && forall e :: e in d ==> e in c
    ensures d <= c
  {
    hide Linked, DigestShape, DistinctDigests;
    if d != [] {
      var n := |d| - 1;
      LinkedPrefix(h, d[..n], d);
      ChainsNest(h, c, d[..n]);
      NextRow(h, c, d, n);
      assert d == d[..n] + [d[n]];
    }
  }

  /** Rows taken from a verified day, in whatever order and however many were removed, verify exactly when they are
      its first ones. */
  lemma RemovalsFound(h: Digest, c: seq<Record>, d: seq<Record>)
    requires DigestShape(h) && Linked(h, c) && DistinctDigests(c) && forall e :: e in d ==> e in c
    ensures Linked(h, d) <==> d <= c
  {
    hide Linked, DigestShape, DistinctDigests;
    if d <= c {
      LinkedPrefix(h, d, c);
    } else if Linked(h, d) {
      ChainsNest(h, c, d);
    }
  }

  lemma RemovalsOfDay(h: Digest, rows: seq<Record>, left: seq<Record>, day: string)
    requires DigestShape(h) && Verified(h, rows) && DistinctDigests(OfDay(rows, day))
    requires forall e :: e in left ==> e in rows
    ensures Linked(h, OfDay(left, day)) <==> OfDay(left, day) <= OfDay(rows, day)
  {
    hide Linked, OfDay, DigestShape, DistinctDigests;
    OfDayFrom(left, day);
    forall e | e in OfDay(left, day) ensures e in OfDay(rows, day) {
      OfDayHas(rows, e);
    }
    RemovalsFound(h, OfDay(rows, day), OfDay(left, day));
  }

  /** A table with rows removed verifies exactly when on every day what is left is a first part of what was there. */
  lemma TableRemovalsFound(h: Digest, rows: seq<Record>, left: seq<Record>)
    requires DigestShape(h) && Verified(h, rows) && forall e :: e in left ==> e in rows
    requires forall day :: DistinctDigests(OfDay(rows, day))
    ensures Verified(h, left) <==> forall day :: OfDay(left, day) <= OfDay(rows, day)
  {
    hide Linked, OfDay, DigestShape, DistinctDigests;
    if Verified(h, left) {
      forall day ensures OfDay(left, day) <= OfDay(rows, day) {
        RemovalsOfDay(h, rows, left, day);
      }
    } else {
      var day :| !Linked(h, OfDay(left, day));
      RemovalsOfDay(h, rows, left, day);
    }
  }
}
