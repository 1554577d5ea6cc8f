/** The audit hash chain on values: what an event's digest covers, and when the head digest pins the whole
    history. */
module AuditChain {
  import opened GoStrings
  import opened Encoding

  const GENESIS := "GENESIS"

  /** The event fields that the digest does not read. */
  datatype Detail = Detail(occurredAt: Timestamp, actorType: string, authContext: string, objectType: string,
                           objectID: string, reason: string, partitionDay: string)

  /** `B` is what `Before` and `After` hold: a byte buffer in the store, its contents here. */
  datatype Event<B> = Event(auditID: string, recordedAt: Timestamp, actorID: string, action: string, result: string,
                            before: B, after: B, detail: Detail, hashPrev: string, hashCurr: string)

  type Record = Event<Bytes>

  /** SHA-256 followed by hex encoding. */
  type Digest = string -> string

  /** All that is assumed of the digest: its text is 64 lower-case hex digits. */
  ghost predicate DigestShape(h: Digest) {
    forall x :: |h(x)| == 64 && IsLowerHex(h(x))
  }

  function Fields(prev: string, e: Record): seq<string> {
    [prev, e.auditID, Stamp(e.recordedAt), e.actorID, e.action, e.result, Hex(e.before), Hex(e.after)]
  }

  /** The bytes written into the hasher. */
  function Preimage(prev: string, e: Record): string {
    Join(Fields(prev, e), '|')
  }

  function Hash(h: Digest, prev: string, e: Record): string {
    h(Preimage(prev, e))
  }

  // ---- what one digest covers -------------------------------------------------------------

  predicate SameCovered(a: Record, b: Record) {
    a.auditID == b.auditID && a.recordedAt == b.recordedAt && a.actorID == b.actorID && a.action == b.action
    && a.result == b.result && a.before == b.before && a.after == b.after
  }

  /** The check on an event's own fields that makes its pre-image readable in one way only. */
  ghost predicate Unambiguous(e: Record) {
    && '|' !in e.actorID && '|' !in e.action && '|' !in e.result
    && forall k :: 1 <= k < |Pieces(e.auditID)| ==> !IsStamp(Pieces(e.auditID)[k])
  }

  function Pieces(s: string): (p: seq<string>)
    ensures p != []
  {
    Split(s, '|')
  }

  function Bar(x: string, y: string): string {
    x + "|" + y
  }

  lemma BarAssoc(x: string, y: string, z: string)
    ensures Bar(Bar(x, y), z) == Bar(x, Bar(y, z))
  {
  }

  lemma JoinStep(f: seq<string>, i: nat)
    requires i + 1 < |f|
    ensures Join(f[i..], '|') == Bar(f[i], Join(f[i + 1..], '|'))
  {
    assert f[i..][1..] == f[i + 1..];
  }

  lemma PreimageFrom(prev: string, e: Record)
    ensures Preimage(prev, e) == Bar(prev, Bar(e.auditID, Bar(Stamp(e.recordedAt), Bar(e.actorID,
                                 Bar(e.action, Bar(e.result, Bar(Hex(e.before), Hex(e.after))))))))
  {
    hide Stamp, Hex, Bar;
    var f := Fields(prev, e);
    assert f[0..] == f && f[7..] == [f[7]];
    JoinStep(f, 0);
    JoinStep(f, 1);
    JoinStep(f, 2);
    JoinStep(f, 3);
    JoinStep(f, 4);
    JoinStep(f, 5);
    JoinStep(f, 6);
  }

  lemma PiecesBar(x: string, y: string)
    ensures Pieces(Bar(x, y)) == Pieces(x) + Pieces(y)
  {
    SplitConcat(x, '|', y);
  }

  lemma PiecesFree(s: string)
    requires '|' !in s
    ensures Pieces(s) == [s]
  {
    SplitFree(s, '|');
  }

  function Middle(e: Record): seq<string> {
    Pieces(e.auditID) + ([Stamp(e.recordedAt)] + (Pieces(e.actorID) + (Pieces(e.action) + Pieces(e.result))))
  }

  lemma PreimagePieces(prev: string, e: Record)
    requires '|' !in prev
    ensures Pieces(Preimage(prev, e)) == [prev] + (Middle(e) + [Hex(e.before), Hex(e.after)])
  {
    hide Stamp, Hex, Preimage, Bar, Pieces;
    PreimageFrom(prev, e);
    var tail := Bar(Hex(e.before), Hex(e.after));
    var x3 := Bar(e.actorID, Bar(e.action, Bar(e.result, tail)));
    PiecesBar(prev, Bar(e.auditID, Bar(Stamp(e.recordedAt), x3)));
    PiecesBar(e.auditID, Bar(Stamp(e.recordedAt), x3));
    PiecesBar(Stamp(e.recordedAt), x3);
    PiecesBar(e.actorID, Bar(e.action, Bar(e.result, tail)));
    PiecesBar(e.action, Bar(e.result, tail));
    PiecesBar(e.result, tail);
    PiecesBar(Hex(e.before), Hex(e.after));
    StampParts(e.recordedAt);
    PiecesFree(prev);
    PiecesFree(Stamp(e.recordedAt));
    PiecesFree(Hex(e.before));
    PiecesFree(Hex(e.after));
    Regroup(Pieces(e.auditID), [Stamp(e.recordedAt)], Pieces(e.actorID), Pieces(e.action), Pieces(e.result),
            [Hex(e.before)] + [Hex(e.after)]);
  }

  lemma Regroup(a: seq<string>, b: seq<string>, c: seq<string>, d: seq<string>, e: seq<string>, t: seq<string>)
    ensures a + (b + (c + (d + (e + t)))) == (a + (b + (c + (d + e)))) + t
  {
    assert d + (e + t) == (d + e) + t;
    assert c + ((d + e) + t) == (c + (d + e)) + t;
    assert b + ((c + (d + e)) + t) == (b + (c + (d + e))) + t;
  }

  lemma SamePieces(s: string, t: string)
    requires Pieces(s) == Pieces(t)
    ensures s == t
  {
    JoinSplit(s, '|');
    JoinSplit(t, '|');
  }

  lemma SingleMiddle(e: Record)
    requires '|' !in e.actorID && '|' !in e.action && '|' !in e.result
    ensures Middle(e) == Pieces(e.auditID) + [Stamp(e.recordedAt), e.actorID, e.action, e.result]
  {
    SplitFree(e.actorID, '|');
    SplitFree(e.action, '|');
    SplitFree(e.result, '|');
  }

  lemma MiddleDetermines(a: Record, b: Record)
    requires Unambiguous(a) && Middle(a) == Middle(b)
    ensures a.auditID == b.auditID && a.recordedAt == b.recordedAt && a.actorID == b.actorID
    ensures a.action == b.action && a.result == b.result
  {
    SingleMiddle(a);
    var n, m := |Pieces(a.auditID)|, |Pieces(b.auditID)|;
    assert |Middle(b)| == m + 1 + |Pieces(b.actorID)| + |Pieces(b.action)| + |Pieces(b.result)|;
    assert Middle(b)[m] == Stamp(b.recordedAt);
    assert IsStamp(Middle(a)[m]);
    assert m == n;
    SplitSingle(b.actorID, '|');
    SplitSingle(b.action, '|');
    SplitSingle(b.result, '|');
    SingleMiddle(b);
    assert Pieces(a.auditID) == Middle(a)[..n] == Middle(b)[..n] == Pieces(b.auditID);
    SamePieces(a.auditID, b.auditID);
    assert Middle(a)[n..] == Middle(b)[n..];
    StampInjective(a.recordedAt, b.recordedAt);
  }

  /** An unambiguous event is pinned by its pre-image, against every other event. */
  lemma PreimagePins(prev: string, a: Record, prev': string, b: Record)
    requires '|' !in prev && '|' !in prev'
    requires Unambiguous(a) && Preimage(prev, a) == Preimage(prev', b)
    ensures prev == prev' && SameCovered(a, b)
  {
    PreimagePieces(prev, a);
    PreimagePieces(prev', b);
    var s := Pieces(Preimage(prev, a));
    var x, y := Middle(a) + [Hex(a.before), Hex(a.after)], Middle(b) + [Hex(b.before), Hex(b.after)];
    assert x == s[1..] && y == s[1..];
    assert |Middle(a)| == |x| - 2 == |Middle(b)|;
    assert Middle(a) == x[..|x| - 2] == Middle(b);
    assert x[|x| - 2] == Hex(a.before) && y[|y| - 2] == Hex(b.before);
    assert x[|x| - 1] == Hex(a.after) && y[|y| - 1] == Hex(b.after);
    HexInjective(a.before, b.before);
    HexInjective(a.after, b.after);
    MiddleDetermines(a, b);
  }

  lemma Cut(s: string) returns (x: string, y: string)
    requires '|' in s
    ensures s == Bar(x, y) && x != s
  {
    var i := Index(s, '|');
    x, y := s[..i], s[i + 1..];
    assert |x| < |s|;
  }

  /** Every ambiguous event has a twin: different covered fields, the same pre-image. */
  lemma AmbiguousTwin(prev: string, e: Record) returns (f: Record)
    requires !Unambiguous(e)
    ensures Preimage(prev, f) == Preimage(prev, e) && !SameCovered(e, f)
    ensures f.hashPrev == e.hashPrev && f.hashCurr == e.hashCurr
  {
    hide Stamp, Hex, Pieces, Bar, Preimage;
    var tail := Bar(Hex(e.before), Hex(e.after));
    if '|' in e.actorID {
      var x, y := Cut(e.actorID);
      f := e.(actorID := x, action := Bar(y, e.action));
      BarAssoc(x, y, Bar(e.action, Bar(e.result, tail)));
      BarAssoc(y, e.action, Bar(e.result, tail));
    } else if '|' in e.action {
      var x, y := Cut(e.action);
      f := e.(action := x, result := Bar(y, e.result));
      BarAssoc(x, y, Bar(e.result, tail));
      BarAssoc(y, e.result, tail);
    } else if '|' in e.result {
      var x, y := Cut(e.result);
      f := e.(action := Bar(e.action, x), result := y);
      BarLonger(e.action, x);
      BarAssoc(x, y, tail);
      BarAssoc(e.action, x, Bar(y, tail));
    } else {
      f := StampTwin(prev, e);
    }
    PreimageFrom(prev, e);
    PreimageFrom(prev, f);
  }

  lemma BarLonger(x: string, y: string)
    ensures Bar(x, y) != x
  {
    assert |Bar(x, y)| > |x|;
  }

  /** An audit id with a printed time inside it can end before that time instead. */
  lemma StampTwin(prev: string, e: Record) returns (f: Record)
    requires exists k :: 1 <= k < |Pieces(e.auditID)| && IsStamp(Pieces(e.auditID)[k])
    ensures Preimage(prev, f) == Preimage(prev, e) && !SameCovered(e, f)
    ensures f.hashPrev == e.hashPrev && f.hashCurr == e.hashCurr
  {
    hide Stamp, Hex, Pieces, Bar, Preimage;
    var p := Pieces(e.auditID);
    var k :| 1 <= k < |p| && IsStamp(p[k]);
    var t: Timestamp :| Stamp(t) == p[k];
    var stamp := Stamp(e.recordedAt);
    var tail := Bar(e.action, Bar(e.result, Bar(Hex(e.before), Hex(e.after))));
    var id, rest, more := CutPieces(e.auditID, k);
    BarLonger(id, if more then Bar(p[k], rest) else p[k]);
    f := e.(auditID := id, recordedAt := t,
            actorID := if more then Bar(rest, Bar(stamp, e.actorID)) else Bar(stamp, e.actorID));
    var whole := Bar(stamp, Bar(e.actorID, tail));
    BarAssoc(stamp, e.actorID, tail);
    if more {
      BarAssoc(rest, Bar(stamp, e.actorID), tail);
      BarAssoc(p[k], rest, whole);
      BarAssoc(id, Bar(p[k], rest), whole);
    } else {
      BarAssoc(id, p[k], whole);
    }
    PreimageFrom(prev, e);
    PreimageFrom(prev, f);
  }

  lemma CutPieces(s: string, k: nat) returns (x: string, y: string, more: bool)
    requires 1 <= k < |Pieces(s)|
    ensures s == Bar(x, if more then Bar(Pieces(s)[k], y) else Pieces(s)[k])
  {
    hide Split;
    var p := Pieces(s);
    x, y, more := Join(p[..k], '|'), "", k + 1 < |p|;
    JoinSplit(s, '|');
    assert p == p[..k] + p[k..];
    JoinConcat(p[..k], p[k..], '|');
    if more {
      y := Join(p[k + 1..], '|');
      assert p[k..] == [p[k]] + p[k + 1..];
      JoinConcat([p[k]], p[k + 1..], '|');
    } else {
      assert p[k..] == [p[k]];
    }
  }

  // ---- the head digest and the history ------------------------------------------------------

  function Head(c: seq<Record>): string {
    if c == [] then GENESIS else c[|c| - 1].hashCurr
  }

  /** Every event carries the previous digest and a digest of its own pre-image. */
  predicate Linked(h: Digest, c: seq<Record>) {
    forall i :: 0 <= i < |c| ==>
      c[i].hashPrev == Head(c[..i]) && c[i].hashCurr == Hash(h, c[i].hashPrev, c[i])
  }

  predicate SameHistory(c: seq<Record>, d: seq<Record>) {
    |c| == |d| && forall i :: 0 <= i < |c| ==>
      SameCovered(c[i], d[i]) && c[i].hashPrev == d[i].hashPrev && c[i].hashCurr == d[i].hashCurr
  }

  predicate EventsCollide(h: Digest, a: Record, b: Record) {
    Collides(h, Preimage(a.hashPrev, a), Preimage(b.hashPrev, b))
  }

  predicate CollidesAt(h: Digest, c: seq<Record>, d: seq<Record>, k: int) {
    0 < k <= |c| && k <= |d| && EventsCollide(h, c[|c| - k], d[|d| - k])
  }

  /** A digest collision between two events at the same distance from the heads. */
  ghost predicate Collision(h: Digest, c: seq<Record>, d: seq<Record>) {
    exists k :: CollidesAt(h, c, d, k)
  }

  lemma LinkedInit(h: Digest, c: seq<Record>)
    requires c != [] && Linked(h, c)
    ensures Linked(h, c[..|c| - 1])
    ensures c[|c| - 1].hashPrev == Head(c[..|c| - 1])
    ensures Head(c) == Hash(h, c[|c| - 1].hashPrev, c[|c| - 1])
  {
    hide Hash;
    var d := c[..|c| - 1];
    assert forall i :: 0 <= i < |d| ==> d[..i] == c[..i];
  }

  lemma HeadShape(h: Digest, c: seq<Record>)
    requires DigestShape(h) && Linked(h, c)
    ensures '|' !in Head(c) && (Head(c) == GENESIS <==> c == [])
  {
    if c != [] {
      var e := c[|c| - 1];
      assert |h(Preimage(e.hashPrev, e))| == 64;
    }
  }

  lemma CollisionInit(h: Digest, c: seq<Record>, d: seq<Record>)
    requires c != [] && d != [] && Collision(h, c[..|c| - 1], d[..|d| - 1])
    ensures Collision(h, c, d)
  {
    hide EventsCollide;
    var c', d' := c[..|c| - 1], d[..|d| - 1];
    var k :| CollidesAt(h, c', d', k);
    assert CollidesAt(h, c, d, k + 1);
  }

  /** The head digest determines the history, or the two histories exhibit a collision. */
  lemma {:induction false} HeadDetermines(h: Digest, c: seq<Record>, d: seq<Record>)
    requires DigestShape(h) && Linked(h, c) && Linked(h, d) && Head(c) == Head(d)
    requires forall i :: 0 <= i < |c| ==> Unambiguous(c[i])
    ensures SameHistory(c, d) || Collision(h, c, d)
    decreases |c|
  {
    hide Preimage, Unambiguous, Linked, DigestShape, SameCovered;
    HeadShape(h, c);
    HeadShape(h, d);
    if c != [] {
      var a, b := c[|c| - 1], d[|d| - 1];
      LinkedInit(h, c);
      LinkedInit(h, d);
      if Preimage(a.hashPrev, a) != Preimage(b.hashPrev, b) {
        assert CollidesAt(h, c, d, 1);
      } else {
        HeadShape(h, c[..|c| - 1]);
        HeadShape(h, d[..|d| - 1]);
        PreimagePins(a.hashPrev, a, b.hashPrev, b);
        HeadDetermines(h, c[..|c| - 1], d[..|d| - 1]);
        if Collision(h, c[..|c| - 1], d[..|d| - 1]) {
          CollisionInit(h, c, d);
        }
      }
    }
  }

  /** No other collision-free chain with this head tells a different history. */
  ghost predicate HistoryPinned(h: Digest, c: seq<Record>) {
    forall d :: Linked(h, d) && Head(d) == Head(c) && !Collision(h, c, d) ==> SameHistory(c, d)
  }

  predicate SameDigests(c: seq<Record>, d: seq<Record>) {
    |c| == |d| && forall j :: 0 <= j < |c| ==>
      c[j].hashPrev == d[j].hashPrev && c[j].hashCurr == d[j].hashCurr
      && Preimage(c[j].hashPrev, c[j]) == Preimage(d[j].hashPrev, d[j])
  }

  lemma SameDigestsLinked(h: Digest, c: seq<Record>, d: seq<Record>)
    requires SameDigests(c, d) && Linked(h, c)
    ensures Linked(h, d) && Head(d) == Head(c)
  {
    hide Preimage, Hash;
    forall j | 0 <= j < |d|
      ensures d[j].hashPrev == Head(d[..j]) && d[j].hashCurr == Hash(h, d[j].hashPrev, d[j])
    {
      assert c[j].hashPrev == Head(c[..j]) && c[j].hashCurr == Hash(h, c[j].hashPrev, c[j]);
      HashSame(h, c[j], d[j]);
      assert j > 0 ==> c[..j][j - 1] == c[j - 1] && d[..j][j - 1] == d[j - 1];
    }
  }

  lemma HashSame(h: Digest, a: Record, b: Record)
    requires Preimage(a.hashPrev, a) == Preimage(b.hashPrev, b)
    ensures Hash(h, a.hashPrev, a) == Hash(h, b.hashPrev, b)
  {
    hide Preimage;
  }

  lemma SameDigestsFree(h: Digest, c: seq<Record>, d: seq<Record>)
    requires SameDigests(c, d)
    ensures !Collision(h, c, d)
  {
    hide Preimage, Hash;
    forall k ensures !CollidesAt(h, c, d, k) {
    }
  }

  lemma TwinChain(h: Digest, c: seq<Record>, i: nat) returns (d: seq<Record>)
    requires Linked(h, c) && i < |c| && !Unambiguous(c[i])
    ensures Linked(h, d) && Head(d) == Head(c) && !Collision(h, c, d) && !SameHistory(c, d)
  {
    hide Preimage, Unambiguous, SameCovered;
    var f := AmbiguousTwin(c[i].hashPrev, c[i]);
    d := c[i := f];
    assert SameDigests(c, d);
    SameDigestsLinked(h, c, d);
    SameDigestsFree(h, c, d);
    assert !SameCovered(c[i], d[i]);
  }

  /** A linked chain is pinned by its head digest exactly when each of its events is unambiguous. */
  lemma HistoryPinnedIff(h: Digest, c: seq<Record>)
    requires DigestShape(h) && Linked(h, c)
    ensures HistoryPinned(h, c) <==> forall i :: 0 <= i < |c| ==> Unambiguous(c[i])
  {
    hide Preimage, Unambiguous;
    if forall i :: 0 <= i < |c| ==> Unambiguous(c[i]) {
      forall d | Linked(h, d) && Head(d) == Head(c) && !Collision(h, c, d) ensures SameHistory(c, d) {
        HeadDetermines(h, c, d);
      }
    } else {
      var i :| 0 <= i < |c| && !Unambiguous(c[i]);
      var d := TwinChain(h, c, i);
      assert Linked(h, d) && Head(d) == Head(c) && !Collision(h, c, d) && !SameHistory(c, d);
    }
  }
}
