/** The in-memory audit store: its append step on values, what every run of appends and
    writes through shared buffers keeps, and the store object itself. */
module AuditStore {
  import opened GoStrings
  import opened Encoding
  import opened AuditChain

  /** A store read at one moment: events with the bytes their buffers hold right now. */
  datatype Store = Store(events: seq<Record>, last: string)

  datatype AppendError = ErrCorruptChain

  const EMPTY := Store([], GENESIS)

  predicate LastIntact(h: Digest, s: Store) {
    s.events == [] || var e := s.events[|s.events| - 1]; Hash(h, e.hashPrev, e) == e.hashCurr
  }

  function Chained(h: Digest, prev: string, e: Record): Record {
    e.(hashPrev := prev, hashCurr := Hash(h, prev, e))
  }

  /** `Append`: only the last stored event is checked again. */
  function Appended(h: Digest, s: Store, e: Record): Store {
    if LastIntact(h, s) then
      var n := Chained(h, s.last, e);
      Store(s.events + [n], n.hashCurr)
    else s
  }

  // ---- runs ------------------------------------------------------------------------------

  /** `Write` is any effect of writes to byte slices shared with the store: it may give every
      stored event new `Before` and `After` bytes, and it touches nothing else. */
  datatype Op = Append(e: Record) | Write(bytes: nat -> (Bytes, Bytes))

  function Rewritten(events: seq<Record>, bytes: nat -> (Bytes, Bytes)): seq<Record> {
    seq(|events|, i requires 0 <= i < |events| => events[i].(before := bytes(i).0, after := bytes(i).1))
  }

  /** The store together with the events as they were when they were appended. */
  datatype Tracked = Tracked(store: Store, recorded: seq<Record>)

  function Step(h: Digest, t: Tracked, op: Op): Tracked {
    match op
    case Append(e) =>
      if LastIntact(h, t.store) then
        Tracked(Appended(h, t.store, e), t.recorded + [Chained(h, t.store.last, e)])
      else t
    case Write(bytes) => t.(store := t.store.(events := Rewritten(t.store.events, bytes)))
  }

  function Run(h: Digest, t: Tracked, ops: seq<Op>): Tracked
    decreases |ops|
  {
    if ops == [] then t else Run(h, Step(h, t, ops[0]), ops[1..])
  }

  predicate SameButBytes(a: Record, b: Record) {
    a == b.(before := a.before, after := a.after)
  }

  /** What every run keeps, whatever is written into the buffers. */
  predicate Consistent(h: Digest, t: Tracked) {
    && |t.recorded| == |t.store.events|
    && (forall i :: 0 <= i < |t.recorded| ==> SameButBytes(t.store.events[i], t.recorded[i]))
    && Linked(h, t.recorded)
    && t.store.last == Head(t.recorded)
  }

  /** Where runs start: the store as `NewInMemoryStore` returns it. */
  lemma EmptyConsistent(h: Digest)
    ensures Consistent(h, Tracked(EMPTY, [])) && LastIntact(h, EMPTY)
    ensures EMPTY.events == [] && EMPTY.last == "GENESIS"
  {
  }

  lemma LinkedSnoc(h: Digest, c: seq<Record>, e: Record)
    requires Linked(h, c)
    ensures Linked(h, c + [Chained(h, Head(c), e)])
  {
    hide Hash;
    var d := c + [Chained(h, Head(c), e)];
    HashIgnoresLinks(h, Head(c), e);
    forall i | 0 <= i < |d|
      ensures d[i].hashPrev == Head(d[..i]) && d[i].hashCurr == Hash(h, d[i].hashPrev, d[i])
    {
      if i < |c| {
        assert d[..i] == c[..i] && d[i] == c[i];
      } else {
        assert d[..i] == c;
      }
    }
  }

  /** A digest does not depend on the link fields of the event it is computed for. */
  lemma HashIgnoresLinks(h: Digest, prev: string, e: Record)
    ensures Hash(h, prev, Chained(h, prev, e)) == Hash(h, prev, e)
  {
  }

  lemma AppendConsistent(h: Digest, t: Tracked, e: Record)
    requires Consistent(h, t)
    ensures var n := Chained(h, t.store.last, e);
            Consistent(h, Tracked(Store(t.store.events + [n], n.hashCurr), t.recorded + [n]))
  {
    hide Linked, Chained;
    LinkedSnoc(h, t.recorded, e);
  }

  lemma WriteConsistent(h: Digest, t: Tracked, bytes: nat -> (Bytes, Bytes))
    requires Consistent(h, t)
    ensures Consistent(h, t.(store := t.store.(events := Rewritten(t.store.events, bytes))))
  {
    hide Linked;
  }

  lemma StepConsistent(h: Digest, t: Tracked, op: Op)
    requires Consistent(h, t)
    ensures Consistent(h, Step(h, t, op))
    ensures t.recorded <= Step(h, t, op).recorded
  {
    hide Consistent, Chained, LastIntact, Rewritten;
    match op
    case Append(e) => AppendConsistent(h, t, e);
    case Write(bytes) => WriteConsistent(h, t, bytes);
  }

  /** Over every run the appended history stays a linked chain from GENESIS whose head is
      `last`, and it only grows. */
  lemma {:induction false} RunConsistent(h: Digest, t: Tracked, ops: seq<Op>)
    requires Consistent(h, t)
    ensures Consistent(h, Run(h, t, ops))
    ensures t.recorded <= Run(h, t, ops).recorded
    decreases |ops|
  {
    hide Consistent;
    if ops != [] {
      StepConsistent(h, t, ops[0]);
      RunConsistent(h, Step(h, t, ops[0]), ops[1..]);
    }
  }

  /** While nobody writes to shared bytes, every append of every run succeeds, and the stored
      events are one linked chain with one more event per append. */
  lemma {:induction false} AppendOnlyRun(h: Digest, t: Tracked, ops: seq<Op>)
    requires Consistent(h, t) && t.store.events == t.recorded
    requires forall i :: 0 <= i < |ops| ==> ops[i].Append?
    ensures var u := Run(h, t, ops);
            u.store.events == u.recorded && Linked(h, u.store.events) && u.store.last == Head(u.store.events)
            && |u.store.events| == |t.store.events| + |ops| && t.store.events <= u.store.events
            && LastIntact(h, u.store)
    decreases |ops|
  {
    hide Hash;
    assert LastIntact(h, t.store);
    if ops != [] {
      StepConsistent(h, t, ops[0]);
      AppendOnlyRun(h, Step(h, t, ops[0]), ops[1..]);
    }
  }

  // ---- what the append-time check detects ---------------------------------------------------

  predicate BytesChanged(a: Record, b: Record) {
    a.before != b.before || a.after != b.after
  }

  lemma BytesInPreimage(a: Record, b: Record)
    requires SameButBytes(a, b)
    ensures Preimage(a.hashPrev, a) == Preimage(b.hashPrev, b) <==> !BytesChanged(a, b)
  {
    hide Preimage, Hex, Stamp, Bar;
    PreimageFrom(a.hashPrev, a);
    PreimageFrom(b.hashPrev, b);
    if Preimage(a.hashPrev, a) == Preimage(b.hashPrev, b) {
      var x, y := Bar(Hex(a.before), Hex(a.after)), Bar(Hex(b.before), Hex(b.after));
      BarCancel(a.hashPrev, Bar(a.auditID, Bar(Stamp(a.recordedAt), Bar(a.actorID, Bar(a.action, Bar(a.result, x))))),
                Bar(a.auditID, Bar(Stamp(a.recordedAt), Bar(a.actorID, Bar(a.action, Bar(a.result, y))))));
      BarCancel(a.auditID, Bar(Stamp(a.recordedAt), Bar(a.actorID, Bar(a.action, Bar(a.result, x)))),
                Bar(Stamp(a.recordedAt), Bar(a.actorID, Bar(a.action, Bar(a.result, y)))));
      BarCancel(Stamp(a.recordedAt), Bar(a.actorID, Bar(a.action, Bar(a.result, x))),
                Bar(a.actorID, Bar(a.action, Bar(a.result, y))));
      BarCancel(a.actorID, Bar(a.action, Bar(a.result, x)), Bar(a.action, Bar(a.result, y)));
      BarCancel(a.action, Bar(a.result, x), Bar(a.result, y));
      BarCancel(a.result, x, y);
      HexPair(a.before, a.after, b.before, b.after);
    }
  }

  lemma BarCancel(p: string, x: string, y: string)
    requires Bar(p, x) == Bar(p, y)
    ensures x == y
  {
    Peel(p + "|", x, p + "|", y);
  }

  lemma HexPair(a: Bytes, b: Bytes, c: Bytes, d: Bytes)
    requires Bar(Hex(a), Hex(b)) == Bar(Hex(c), Hex(d))
    ensures a == c && b == d
  {
    hide Hex, Pieces;
    PiecesBar(Hex(a), Hex(b));
    PiecesBar(Hex(c), Hex(d));
    PiecesFree(Hex(a));
    PiecesFree(Hex(b));
    PiecesFree(Hex(c));
    PiecesFree(Hex(d));
    var p := Pieces(Bar(Hex(a), Hex(b)));
    assert p[0] == Hex(a) == Hex(c) && p[1] == Hex(b) == Hex(d);
    HexInjective(a, c);
    HexInjective(b, d);
  }

  /** In every reachable state the next append succeeds exactly when the last event's bytes are
      those it was appended with, or their new digest collides with the old one. Bytes of
      earlier events play no part. */
  lemma AppendVerdict(h: Digest, t: Tracked)
    requires Consistent(h, t) && t.recorded != []
    ensures var n := |t.recorded| - 1;
            LastIntact(h, t.store) <==>
              !BytesChanged(t.store.events[n], t.recorded[n]) || EventsCollide(h, t.store.events[n], t.recorded[n])
  {
    hide Preimage;
    var n := |t.recorded| - 1;
    BytesInPreimage(t.store.events[n], t.recorded[n]);
    assert t.recorded[n].hashCurr == Hash(h, t.recorded[n].hashPrev, t.recorded[n]);
  }

  /** The last event's bytes differ from the appended ones, without a digest collision. */
  predicate Tampered(h: Digest, t: Tracked) {
    t.recorded != [] && |t.recorded| == |t.store.events| &&
    var n := |t.recorded| - 1;
    BytesChanged(t.store.events[n], t.recorded[n]) && !EventsCollide(h, t.store.events[n], t.recorded[n])
  }

  predicate StaysTampered(h: Digest, t: Tracked, ops: seq<Op>)
    decreases |ops|
  {
    Tampered(h, t) && (ops == [] || StaysTampered(h, Step(h, t, ops[0]), ops[1..]))
  }

  /** Fail closed: for as long as the last event's bytes are not restored, no run appends
      anything or moves `last`. */
  lemma {:induction false} FailClosed(h: Digest, t: Tracked, ops: seq<Op>)
    requires Consistent(h, t) && StaysTampered(h, t, ops)
    ensures Run(h, t, ops).recorded == t.recorded && Run(h, t, ops).store.last == t.store.last
    ensures !LastIntact(h, Run(h, t, ops).store)
    decreases |ops|
  {
    hide Consistent, LastIntact, EventsCollide;
    AppendVerdict(h, t);
    if ops != [] {
      StepConsistent(h, t, ops[0]);
      FailClosed(h, Step(h, t, ops[0]), ops[1..]);
    }
  }

  // ---- the store object -----------------------------------------------------------------------

  type Stored = Event<array<Byte>>

  function Load(e: Stored): Record
    reads e.before, e.after
  {
    Event(e.auditID, e.recordedAt, e.actorID, e.action, e.result, e.before[..], e.after[..], e.detail,
          e.hashPrev, e.hashCurr)
  }

  /** `ComputeHash`: successive writes into one hasher. */
  method ComputeHash(h: Digest, prev: string, e: Stored) returns (r: string)
    ensures r == Hash(h, prev, Load(e))
  {
    var written := prev;
    written := written + ("|" + e.auditID);
    written := written + ("|" + Stamp(e.recordedAt));
    written := written + ("|" + e.actorID + "|" + e.action + "|" + e.result);
    written := written + ("|" + Hex(e.before[..]) + "|" + Hex(e.after[..]));
    r := h(written);
    WriteOrder(prev, Load(e));
  }

  lemma WriteOrder(prev: string, e: Record)
    ensures prev + ("|" + e.auditID) + ("|" + Stamp(e.recordedAt)) + ("|" + e.actorID + "|" + e.action + "|" + e.result)
            + ("|" + Hex(e.before) + "|" + Hex(e.after)) == Preimage(prev, e)
  {
    hide Preimage, Hex, Stamp;
    PreimageFrom(prev, e);
    var s, x, y := Stamp(e.recordedAt), Hex(e.before), Hex(e.after);
    var tail := "|" + x + "|" + y;
    var mid := "|" + e.actorID + "|" + e.action + "|" + e.result;
    assert mid + tail == "|" + Bar(e.actorID, Bar(e.action, Bar(e.result, Bar(x, y))));
    assert prev + ("|" + e.auditID) + ("|" + s) + mid + tail == prev + ("|" + e.auditID) + ("|" + s) + (mid + tail);
  }

  class InMemoryStore {
    const h: Digest
    var events: seq<Stored>
    var last: string

    ghost function Buffers(): set<object>
      reads this
    {
      (set i | 0 <= i < |events| :: events[i].before as object)
      + (set i | 0 <= i < |events| :: events[i].after as object)
    }

    ghost function View(): (s: Store)
      reads this, Buffers()
      ensures |s.events| == |events| && s.last == last
      ensures forall i :: 0 <= i < |events| ==> s.events[i] == Load(events[i])
    {
      Store(seq(|events|, i requires 0 <= i < |events| reads this, Buffers() => Load(events[i])), last)
    }

    constructor (h: Digest)
      ensures this.h == h && events == [] && View() == EMPTY
    {
      this.h, events, last := h, [], GENESIS;
    }

    /** On success the event is stored sharing the caller's two buffers. */
    method Append(e: Stored) returns (r: Result<Stored, AppendError>)
      modifies this
      ensures View() == Appended(h, old(View()), old(Load(e)))
      ensures r.Ok? <==> LastIntact(h, old(View()))
      ensures r.Ok? ==> r.value == e.(hashPrev := old(last), hashCurr := last) && events == old(events) + [r.value]
      ensures r.Err? ==> events == old(events) && last == old(last)
    {
      hide Hash, Rewritten;
      var curr := ComputeHash(h, last, e);
      var n := e.(hashPrev := last, hashCurr := curr);
      if |events| > 0 {
        var prev := events[|events| - 1];
        var recomputed := ComputeHash(h, prev.hashPrev, prev);
        if recomputed != prev.hashCurr {
          return Err(ErrCorruptChain);
        }
      }
      events := events + [n];
      last := curr;
      assert View().events == old(View()).events + [Chained(h, old(last), Load(e))];
      return Ok(n);
    }

    /** A new slice of the same structs: writing its elements cannot reach the store, writing
        the bytes they point to can. */
    method Events() returns (out: array<Stored>)
      ensures fresh(out) && out[..] == events
    {
      out := new Stored[|events|](i requires 0 <= i < |events| reads this => events[i]);
    }
  }

  /** Any write of one byte into any buffer, shared with the store or not, is a `Write` step. */
  method PokeByte(s: InMemoryStore, buffer: array<Byte>, k: nat, b: Byte) returns (ghost bytes: nat -> (Bytes, Bytes))
    requires k < buffer.Length
    modifies buffer
    ensures s.events == old(s.events) && s.last == old(s.last)
    ensures s.View() == Store(Rewritten(old(s.View()).events, bytes), s.last)
  {
    buffer[k] := b;
    ghost var now := s.View().events;
    bytes := (i: nat) => if i < |now| then (now[i].before, now[i].after) else ([], []);
    assert s.View().events == Rewritten(old(s.View()).events, bytes);
  }
}
