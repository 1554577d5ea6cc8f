/** Keyset rotation as a step system: the refresh goroutine's load and its two separate installs,
    interleaved with signing and verifying at any point. */
module Rotation {
  import opened GoStrings
  import opened Encoding
  import opened Keysets
  import opened Tokens
  import opened Fingerprints

  /** Where the refresh goroutine stands inside a tick. */
  datatype Phase = Idle | Loaded(k: Keyset) | Half(k: Keyset)

  /** `installs` lists every keyset the signer has held, oldest first. */
  datatype Node = Node(signer: Keyset, verifier: Keyset, fingerprint: string, phase: Phase, installs: seq<Keyset>)

  /** Signing and verifying read a node without changing it, so these are the only steps. */
  datatype Op = Load(k: Keyset) | InstallSigner | InstallVerifier

  ghost function Fingerprint(h: string -> string, k: Keyset): string {
    h(FingerprintText(k))
  }

  ghost function Start(h: string -> string, k: Keyset): Node {
    Node(k, k, Fingerprint(h, k), Idle, [k])
  }

  /** A step that the goroutine is not ready for changes nothing. */
  ghost function Step(h: string -> string, n: Node, op: Op): Node {
    match (op, n.phase)
    case (Load(k), Idle) =>
      if Fingerprint(h, k) == n.fingerprint then n else n.(phase := Loaded(k))
    case (InstallSigner, Loaded(k)) =>
      if k.activeKID in k.keys then n.(signer := k, phase := Half(k), installs := n.installs + [k])
      else n.(phase := Idle)
    case (InstallVerifier, Half(k)) =>
      n.(verifier := k, fingerprint := Fingerprint(h, k), phase := Idle)
    case (_, _) => n
  }

  ghost function Run(h: string -> string, n: Node, ops: seq<Op>): Node {
    if ops == [] then n else Step(h, Run(h, n, ops[..|ops| - 1]), ops[|ops| - 1])
  }

  // ---- what every run keeps ------------------------------------------------------------------

  /** Outside the window between its two installs a node holds one keyset, the one it remembers the
      fingerprint of; inside the window the verifier is exactly one install behind. */
  ghost predicate Coherent(h: string -> string, n: Node) {
    && n.installs != [] && n.signer == n.installs[|n.installs| - 1]
    && match n.phase {
         case Half(k) => k == n.signer && |n.installs| >= 2 && n.verifier == n.installs[|n.installs| - 2]
                         && k.activeKID in k.keys
         case _ => n.verifier == n.signer && n.fingerprint == Fingerprint(h, n.signer)
       }
  }

  lemma {:induction false} RunCoherent(h: string -> string, k: Keyset, ops: seq<Op>)
    ensures Coherent(h, Run(h, Start(h, k), ops))
  {
    hide Fingerprint;
    if ops != [] {
      RunCoherent(h, k, ops[..|ops| - 1]);
    }
  }

  /** At the end of every tick of every run: equal keysets, and their fingerprint remembered. */
  lemma TickEndAgreement(h: string -> string, k: Keyset, ops: seq<Op>)
    ensures var n := Run(h, Start(h, k), ops);
            n.phase.Idle? ==> n.signer == n.verifier && n.fingerprint == Fingerprint(h, n.signer)
  {
    RunCoherent(h, k, ops);
  }

  /** A load that the fingerprint test skips was of the keyset already held, if no delimiter hides in
      either and their two texts do not collide. */
  lemma SkipMeansSame(h: string -> string, start: Keyset, ops: seq<Op>, k: Keyset)
    requires var n := Run(h, Start(h, start), ops);
             && n.phase.Idle? && Step(h, n, Load(k)) == n
             && Delimited(k) && Delimited(n.signer)
             && (Fingerprint(h, k) == Fingerprint(h, n.signer) ==> FingerprintText(k) == FingerprintText(n.signer))
    ensures var n := Run(h, Start(h, start), ops); n.signer == k && n.verifier == k
  {
    hide Run, FingerprintText;
    var n := Run(h, Start(h, start), ops);
    RunCoherent(h, start, ops);
    FingerprintTextInjective(k, n.signer);
  }

  /** Every keyset the loader can return that the fingerprint test takes for no change is the one held, or a
      collision of the hash. */
  ghost predicate SkipsOnlySame(h: string -> string, n: Node) {
    forall k :: Loadable(k) && Step(h, n, Load(k)) == n ==>
      k == n.signer || Collides(h, FingerprintText(k), FingerprintText(n.signer))
  }

  /** Between ticks of any run, whatever the hash, the test skips only the keyset held exactly when that keyset's
      text pins it. */
  lemma SkipsOnlySameIff(h: string -> string, start: Keyset, ops: seq<Op>)
    requires Run(h, Start(h, start), ops).phase.Idle?
    ensures var n := Run(h, Start(h, start), ops); SkipsOnlySame(h, n) <==> Pinned(n.signer)
  {
    hide Run, FingerprintText, Loadable;
    var n := Run(h, Start(h, start), ops);
    RunCoherent(h, start, ops);
    assert forall k :: Step(h, n, Load(k)) == n <==> h(FingerprintText(k)) == h(FingerprintText(n.signer));
  }

  lemma {:induction false} InstallsGrow(h: string -> string, n: Node, ops: seq<Op>, i: nat)
    requires i <= |ops|
    ensures Run(h, n, ops[..i]).installs <= Run(h, n, ops).installs
  {
    hide Fingerprint;
    if i == |ops| {
      assert ops[..i] == ops;
    } else {
      assert ops[..|ops| - 1][..i] == ops[..i];
      InstallsGrow(h, n, ops[..|ops| - 1], i);
    }
  }

  // ---- rotation without rejection ------------------------------------------------------------

  predicate LoadsWellFormed(ops: seq<Op>) {
    forall i :: 0 <= i < |ops| && ops[i].Load? ==> WellFormed(ops[i].k)
  }

  lemma {:induction false} InstallsWellFormed(h: string -> string, k: Keyset, ops: seq<Op>)
    requires WellFormed(k) && LoadsWellFormed(ops)
    ensures var n := Run(h, Start(h, k), ops);
            && (n.phase.Loaded? ==> WellFormed(n.phase.k))
            && forall i :: 0 <= i < |n.installs| ==> WellFormed(n.installs[i])
  {
    hide Fingerprint, WellFormed;
    if ops != [] {
      InstallsWellFormed(h, k, ops[..|ops| - 1]);
    }
  }

  /** However loads and installs are interleaved, the signer always finds its active key. */
  lemma RunSigns(mac: Mac, h: string -> string, k: Keyset, ops: seq<Op>, actor: Actor, now: int, ttl: int)
    requires WellFormed(k) && LoadsWellFormed(ops)
    ensures Sign(mac, Run(h, Start(h, k), ops).signer, actor, now, ttl).Ok?
  {
    hide Run, Start, Sign, WellFormed, LoadsWellFormed;
    var n := Run(h, Start(h, k), ops);
    RunCoherent(h, k, ops);
    InstallsWellFormed(h, k, ops);
    WellFormedSigns(mac, n.signer, n.signer, actor, now, ttl);
  }

  /** Two consecutive keysets agree on the secrets of both active kids. */
  predicate Handover(a: Keyset, b: Keyset) {
    && Lookup(a.keys, a.activeKID) == Lookup(b.keys, a.activeKID)
    && Lookup(a.keys, b.activeKID) == Lookup(b.keys, b.activeKID)
  }

  predicate Smooth(ks: seq<Keyset>) {
    forall i :: 0 < i < |ks| ==> Handover(ks[i - 1], ks[i])
  }

  /** A token signed after `i` of the steps and checked after all of them, by a node whose signer has
      moved on by at most one keyset. */
  ghost predicate Recent(h: string -> string, k: Keyset, ops: seq<Op>, i: int) {
    0 <= i <= |ops| && |Run(h, Start(h, k), ops).installs| <= |Run(h, Start(h, k), ops[..i]).installs| + 1
  }

  ghost predicate Delivered(mac: Mac, h: string -> string, k: Keyset, ops: seq<Op>, i: int,
                            actor: Actor, now: int, ttl: int, later: int)
  {
    0 <= i <= |ops| &&
    var signed := Sign(mac, Run(h, Start(h, k), ops[..i]).signer, actor, now, ttl);
    signed.Ok? && Verify(mac, Run(h, Start(h, k), ops).verifier, signed.value, later) == Ok(actor)
  }

  predicate Usable(actor: Actor, now: int, ttl: int, later: int) {
    actor.id != "" && actor.kind != "" && later < (now + ttl) / SECOND * SECOND + LEEWAY
  }

  lemma HandoverAccepts(mac: Mac, a: Keyset, b: Keyset, actor: Actor, now: int, ttl: int, later: int)
    requires WellFormed(a) && Usable(actor, now, ttl, later)
    requires Lookup(b.keys, a.activeKID) == Lookup(a.keys, a.activeKID)
    ensures var r := Sign(mac, a, actor, now, ttl);
            r.Ok? && Verify(mac, b, r.value, later) == Ok(actor)
  {
    WellFormedSigns(mac, a, b, actor, now, ttl);
    AcceptanceIff(mac, a, b, actor, now, ttl, later);
  }

  /** In every interleaving, a usable token signed under the current or the previous keyset is accepted
      for the actor it was signed for. */
  lemma SmoothDelivers(mac: Mac, h: string -> string, k: Keyset, ops: seq<Op>, i: int,
                       actor: Actor, now: int, ttl: int, later: int)
    requires WellFormed(k) && LoadsWellFormed(ops) && Recent(h, k, ops, i)
    requires Smooth(Run(h, Start(h, k), ops).installs)
    requires Usable(actor, now, ttl, later)
    ensures Delivered(mac, h, k, ops, i, actor, now, ttl, later)
  {
    hide Run, Start, Sign, Verify, WellFormed, Fingerprint, Usable, Smooth, Lookup;
    var early, late := Run(h, Start(h, k), ops[..i]), Run(h, Start(h, k), ops);
    RunCoherent(h, k, ops[..i]);
    RunCoherent(h, k, ops);
    InstallsGrow(h, Start(h, k), ops, i);
    InstallsWellFormed(h, k, ops);
    assert early.signer == late.installs[|early.installs| - 1];
    NeighboursAgree(late.installs, |early.installs| - 1, late.verifier);
    HandoverAccepts(mac, early.signer, late.verifier, actor, now, ttl, later);
  }

  lemma NeighboursAgree(ks: seq<Keyset>, n: nat, verifier: Keyset)
    requires Smooth(ks) && n < |ks| <= n + 2
    requires verifier == ks[|ks| - 1] || (|ks| >= 2 && verifier == ks[|ks| - 2])
    ensures Lookup(verifier.keys, ks[n].activeKID) == Lookup(ks[n].keys, ks[n].activeKID)
  {
    hide Lookup;
    if |ks| >= 2 {
      assert Handover(ks[|ks| - 1 - 1], ks[|ks| - 1]);
    }
  }

  // ---- and only then ---------------------------------------------------------------------------

  ghost predicate TellsApart(mac: Mac, s: string, t: string) {
    forall m :: Separates(mac, s, t, m)
  }

  /** Where consecutive keysets give an active kid two secrets, the MAC never gives both the same tag. */
  ghost predicate TellsHandovers(mac: Mac, ks: seq<Keyset>) {
    forall i :: 0 < i < |ks| ==> TellsHandover(mac, ks[i - 1], ks[i])
  }

  ghost predicate TellsHandover(mac: Mac, a: Keyset, b: Keyset) {
    && TellsApart(mac, Lookup(a.keys, a.activeKID), Lookup(b.keys, a.activeKID))
    && TellsApart(mac, Lookup(b.keys, b.activeKID), Lookup(a.keys, b.activeKID))
  }

  /** These keysets can be installed one after the other: each is well formed and each differs in
      fingerprint from the one before. */
  ghost predicate Installable(h: string -> string, ks: seq<Keyset>) {
    && ks != []
    && (forall i :: 0 <= i < |ks| ==> WellFormed(ks[i]))
    && (forall i :: 0 < i < |ks| ==> Fingerprint(h, ks[i - 1]) != Fingerprint(h, ks[i]))
  }

  function FullTick(k: Keyset): seq<Op> {
    [Load(k), InstallSigner, InstallVerifier]
  }

  /** Complete ticks up to keyset `n`. */
  function Script(ks: seq<Keyset>, n: nat): seq<Op>
    requires n < |ks|
  {
    if n == 0 then [] else Script(ks, n - 1) + FullTick(ks[n])
  }

  lemma {:induction false} RunConcat(h: string -> string, n: Node, a: seq<Op>, b: seq<Op>)
    ensures Run(h, n, a + b) == Run(h, Run(h, n, a), b)
  {
    hide Step;
    if b == [] {
      assert a + b == a;
    } else {
      assert (a + b)[..|a + b| - 1] == a + b[..|b| - 1];
      RunConcat(h, n, a, b[..|b| - 1]);
    }
  }

  lemma RunTick(h: string -> string, n: Node, k: Keyset)
    requires n.phase.Idle? && Fingerprint(h, k) != n.fingerprint && k.activeKID in k.keys
    ensures Run(h, n, [Load(k), InstallSigner]) == n.(signer := k, phase := Half(k), installs := n.installs + [k])
    ensures Run(h, n, FullTick(k)) == Node(k, k, Fingerprint(h, k), Idle, n.installs + [k])
  {
    hide Fingerprint;
    var tick := FullTick(k);
    assert tick[..2] == [Load(k), InstallSigner] && tick[..2][..1] == [Load(k)] && [Load(k)][..0] == [];
    assert Run(h, n, []) == n;
    assert Run(h, n, [Load(k)]) == n.(phase := Loaded(k));
  }

  lemma {:induction false} ScriptRun(h: string -> string, ks: seq<Keyset>, n: nat)
    requires Installable(h, ks) && n < |ks|
    ensures Run(h, Start(h, ks[0]), Script(ks, n)) == Node(ks[n], ks[n], Fingerprint(h, ks[n]), Idle, ks[..n + 1])
    ensures LoadsWellFormed(Script(ks, n))
  {
    hide Fingerprint, WellFormed;
    if n > 0 {
      ScriptRun(h, ks, n - 1);
      RunConcat(h, Start(h, ks[0]), Script(ks, n - 1), FullTick(ks[n]));
      ActivePresent(ks[n]);
      assert Fingerprint(h, ks[n - 1]) != Fingerprint(h, ks[n]);
      RunTick(h, Node(ks[n - 1], ks[n - 1], Fingerprint(h, ks[n - 1]), Idle, ks[..n]), ks[n]);
      assert ks[..n] + [ks[n]] == ks[..n + 1];
    } else {
      assert ks[..1] == [ks[0]];
    }
  }

  lemma ActivePresent(k: Keyset)
    requires WellFormed(k)
    ensures k.activeKID in k.keys
  {
  }

  /** Every usable recent token of every run through a prefix of these keysets is accepted. */
  ghost predicate NeverRejects(mac: Mac, h: string -> string, ks: seq<Keyset>)
    requires ks != []
  {
    forall ops, i, actor, now, ttl, later ::
      Recent(h, ks[0], ops, i) && LoadsWellFormed(ops) && Run(h, Start(h, ks[0]), ops).installs <= ks
      && Usable(actor, now, ttl, later)
      ==> Delivered(mac, h, ks[0], ops, i, actor, now, ttl, later)
  }

  lemma RoughRejects(mac: Mac, h: string -> string, ks: seq<Keyset>, n: nat,
                     actor: Actor, now: int, ttl: int, later: int)
    returns (ops: seq<Op>, i: int)
    requires Installable(h, ks) && n + 1 < |ks| && TellsHandover(mac, ks[n], ks[n + 1]) && !Handover(ks[n], ks[n + 1])
    ensures Recent(h, ks[0], ops, i) && LoadsWellFormed(ops) && Run(h, Start(h, ks[0]), ops).installs <= ks
    ensures !Delivered(mac, h, ks[0], ops, i, actor, now, ttl, later)
  {
    hide Run, Script, Fingerprint, WellFormed, Sign, Verify;
    var a, b := ks[n], ks[n + 1];
    ScriptRun(h, ks, n);
    ActivePresent(b);
    assert Fingerprint(h, a) != Fingerprint(h, b);
    var before := Script(ks, n);
    if Lookup(a.keys, a.activeKID) != Lookup(b.keys, a.activeKID) {
      ScriptRun(h, ks, n + 1);
      ops, i := Script(ks, n + 1), |before|;
      assert ops == before + FullTick(b) by { ScriptNext(ks, n); }
      assert ops[..i] == before;
      Refused(mac, a, b, actor, now, ttl, later);
    } else {
      RunConcat(h, Start(h, ks[0]), before, [Load(b), InstallSigner]);
      RunTick(h, Node(a, a, Fingerprint(h, a), Idle, ks[..n + 1]), b);
      ops, i := before + [Load(b), InstallSigner], |before| + 2;
      assert ops[..i] == ops;
      assert ks[..n + 1] + [b] == ks[..n + 2];
      Refused(mac, b, a, actor, now, ttl, later);
    }
  }

  lemma ScriptNext(ks: seq<Keyset>, n: nat)
    requires n + 1 < |ks|
    ensures Script(ks, n + 1) == Script(ks, n) + FullTick(ks[n + 1])
  {
  }

  lemma Refused(mac: Mac, a: Keyset, b: Keyset, actor: Actor, now: int, ttl: int, later: int)
    requires WellFormed(a) && TellsApart(mac, Lookup(a.keys, a.activeKID), Lookup(b.keys, a.activeKID))
    requires Lookup(b.keys, a.activeKID) != Lookup(a.keys, a.activeKID)
    ensures var r := Sign(mac, a, actor, now, ttl);
            r.Ok? && Verify(mac, b, r.value, later).Err?
  {
    WellFormedSigns(mac, a, b, actor, now, ttl);
    var t := Sign(mac, a, actor, now, ttl).value;
    assert Separates(mac, Lookup(a.keys, a.activeKID), Lookup(b.keys, a.activeKID), t.signed);
    AcceptanceIff(mac, a, b, actor, now, ttl, later);
  }

  lemma SmoothNeverRejects(mac: Mac, h: string -> string, ks: seq<Keyset>)
    requires Installable(h, ks) && Smooth(ks)
    ensures NeverRejects(mac, h, ks)
  {
    hide Run, Start, Delivered, Recent, WellFormed, Handover, Usable, LoadsWellFormed, Fingerprint;
    forall ops, i, actor, now, ttl, later |
      Recent(h, ks[0], ops, i) && LoadsWellFormed(ops) && Run(h, Start(h, ks[0]), ops).installs <= ks
      && Usable(actor, now, ttl, later)
      ensures Delivered(mac, h, ks[0], ops, i, actor, now, ttl, later)
    {
      SmoothDelivers(mac, h, ks[0], ops, i, actor, now, ttl, later);
    }
  }

  /** Rotating through these keysets never rejects a recent token exactly when each handover agrees on
      the secrets of both active kids. */
  lemma NeverRejectsIff(mac: Mac, h: string -> string, ks: seq<Keyset>)
    requires Installable(h, ks) && TellsHandovers(mac, ks)
    ensures NeverRejects(mac, h, ks) <==> Smooth(ks)
  {
    hide Run, Start, Delivered, Recent, WellFormed, Handover, Usable, LoadsWellFormed, TellsHandover, Fingerprint;
    if Smooth(ks) {
      SmoothNeverRejects(mac, h, ks);
    } else {
      var i :| 0 < i < |ks| && !Handover(ks[i - 1], ks[i]);
      var actor := Actor("a", "b");
      UsableNow(actor);
      var ops, j := RoughRejects(mac, h, ks, i - 1, actor, 0, 0, 0);
      assert Recent(h, ks[0], ops, j) && !Delivered(mac, h, ks[0], ops, j, actor, 0, 0, 0);
    }
  }

  lemma UsableNow(actor: Actor)
    requires actor.id != "" && actor.kind != ""
    ensures Usable(actor, 0, 0, 0)
  {
  }
}
