/** The signer and verifier objects, which keep deep copies of the keysets they are given, and the
    refresh loop that installs a loaded keyset in both. A byte slice is an `array<char>`. */
module JwtKeys {
  import opened GoStrings
  import opened Keysets
  import opened Tokens

  /** A keyset as the caller holds it: its slices may be nil or shared. */
  datatype SharedKeyset = SharedKeyset(activeKID: string, keys: map<string, array?<char>>)

  ghost function Slices(keys: map<string, array?<char>>): set<object> {
    set k | k in keys && keys[k] != null :: keys[k] as object
  }

  /** What a copy of the map would hold now. */
  ghost function Contents(keys: map<string, array?<char>>): map<string, string>
    reads Slices(keys)
  {
    map k | k in keys && keys[k] != null :: keys[k][..]
  }

  ghost function Value(k: SharedKeyset): Keyset
    reads Slices(k.keys)
  {
    Keyset(k.activeKID, Contents(k.keys))
  }

  /** `copyKeyMap`. */
  method CopyKeyMap(keys: map<string, array?<char>>) returns (out: map<string, array<char>>)
    ensures forall k :: k in out ==> fresh(out[k])
    ensures Contents(out) == Contents(keys)
  {
    out := map[];
    var rest := keys.Keys;
    while rest != {}
      invariant rest <= keys.Keys
      invariant forall k :: k in out <==> k in keys && k !in rest && keys[k] != null
      invariant forall k :: k in out ==> fresh(out[k]) && out[k][..] == keys[k][..]
      decreases rest
    {
      var k :| k in rest;
      rest := rest - {k};
      var v := keys[k];
      if v == null {
        continue;
      }
      var cp := new char[v.Length](i requires 0 <= i < v.Length reads v => v[i]);
      assert cp[..] == v[..];
      out := out[k := cp];
    }
  }

  datatype InstallError = ActiveNotPresent

  class JWTSigner {
    var activeKID: string
    var keys: map<string, array<char>>

    ghost function View(): Keyset
      reads this, Slices(keys)
    {
      Keyset(activeKID, Contents(keys))
    }

    constructor (k: SharedKeyset)
      ensures View() == old(Value(k))
      ensures forall kid :: kid in keys ==> fresh(keys[kid])
    {
      var copied := CopyKeyMap(k.keys);
      activeKID, keys := k.activeKID, copied;
    }

    method SignActor(mac: Mac, actor: Actor, now: int, ttl: int) returns (r: Result<Token, TokenError>, expiresAt: int)
      ensures r == Sign(mac, View(), actor, now, ttl)
      ensures r.Ok? ==> expiresAt == now + ttl
    {
      expiresAt := 0;
      var kid := activeKID;
      var secret := if kid in keys then keys[kid][..] else "";
      if |secret| == 0 {
        return Err(KeyMissing), expiresAt;
      }
      expiresAt := now + ttl;
      var signed := Signed(HS256, kid, Claims(actor.id, actor.kind, now / SECOND, Some(expiresAt / SECOND), None));
      return Ok(Token(signed, mac(secret, signed))), expiresAt;
    }

    method SetKeyset(k: SharedKeyset) returns (r: Result<(), InstallError>)
      modifies this
      ensures r.Ok? <==> k.activeKID in k.keys
      ensures r.Ok? ==> View() == old(Value(k)) && forall kid :: kid in keys ==> fresh(keys[kid])
      ensures r.Err? ==> unchanged(this) && View() == old(View())
    {
      if k.activeKID !in k.keys {
        return Err(ActiveNotPresent);
      }
      var copied := CopyKeyMap(k.keys);
      activeKID, keys := k.activeKID, copied;
      return Ok(());
    }
  }

  class JWTVerifier {
    var activeKID: string
    var keys: map<string, array<char>>

    ghost function View(): Keyset
      reads this, Slices(keys)
    {
      Keyset(activeKID, Contents(keys))
    }

    constructor (k: SharedKeyset)
      ensures View() == old(Value(k))
      ensures forall kid :: kid in keys ==> fresh(keys[kid])
    {
      var copied := CopyKeyMap(k.keys);
      activeKID, keys := k.activeKID, copied;
    }

    /** The active kid and the keys are read together, before the token is looked at. */
    method ParseActor(mac: Mac, t: Token, now: int) returns (r: Result<Actor, TokenError>)
      ensures r == Verify(mac, View(), t, now)
    {
      var active := activeKID;
      var copied := CopyKeyMap(keys);
      if t.signed.alg != HS256 {
        return Err(InvalidToken);
      }
      var kid := t.signed.kid;
      if Trim(kid) == "" {
        kid := active;
      }
      var secret := if kid in copied then copied[kid][..] else "";
      assert secret == Lookup(Contents(copied), kid);
      if |secret| == 0 || t.sig != mac(secret, t.signed) || !Timely(t.signed.claims, now) {
        return Err(InvalidToken);
      }
      var c := t.signed.claims;
      if c.sub == "" || c.actorType == "" {
        return Err(MissingClaims);
      }
      return Ok(Actor(c.sub, c.actorType));
    }

    method SetKeyset(k: SharedKeyset) returns (r: Result<(), InstallError>)
      modifies this
      ensures r.Ok? <==> k.activeKID in k.keys
      ensures r.Ok? ==> View() == old(Value(k)) && forall kid :: kid in keys ==> fresh(keys[kid])
      ensures r.Err? ==> unchanged(this) && View() == old(View())
    {
      if k.activeKID !in k.keys {
        return Err(ActiveNotPresent);
      }
      var copied := CopyKeyMap(k.keys);
      activeKID, keys := k.activeKID, copied;
      return Ok(());
    }
  }

  /** The presence test does not look at the secret: after an install that succeeds, signing fails exactly when the
      active entry is nil or empty, and after one that is refused the signer signs as before. */
  method InstallThenSign(s: JWTSigner, k: SharedKeyset, mac: Mac, actor: Actor, now: int, ttl: int)
    returns (installed: Result<(), InstallError>, r: Result<Token, TokenError>)
    modifies s
    ensures installed.Ok? <==> k.activeKID in k.keys
    ensures installed.Ok? ==>
              (r.Err? <==> k.keys[k.activeKID] == null || k.keys[k.activeKID].Length == 0)
              && r == Sign(mac, old(Value(k)), actor, now, ttl)
    ensures installed.Err? ==> r == Sign(mac, old(s.View()), actor, now, ttl)
  {
    ghost var w := Value(k);
    installed := s.SetKeyset(k);
    assert installed.Ok? ==> s.View() == w;
    var expiresAt: int;
    r, expiresAt := s.SignActor(mac, actor, now, ttl);
  }

  /** Deep-copy isolation: after an install, a write into any buffer the caller can reach leaves
      both objects with the keyset they were given. */
  method InstallThenOverwrite(s: JWTSigner, v: JWTVerifier, k: SharedKeyset, buffer: array<char>, i: nat, c: char)
    requires k.activeKID in k.keys && i < buffer.Length
    modifies s, v, buffer
    ensures s.View() == old(Value(k)) && v.View() == old(Value(k))
  {
    ghost var w := Value(k);
    var a := s.SetKeyset(k);
    assert s.View() == w && Value(k) == w;
    var b := v.SetKeyset(k);
    assert s.View() == w && v.View() == w;
    assert buffer !in Slices(s.keys) && buffer !in Slices(v.keys);
    buffer[i] := c;
  }

  /** The goroutine that reloads the keyset on every tick. */
  class Refresher {
    const h: string -> string
    const signer: JWTSigner
    const verifier: JWTVerifier
    var currentFingerprint: string

    ghost predicate Agreed()
      reads this, signer, verifier, Slices(signer.keys), Slices(verifier.keys)
    {
      signer.View() == verifier.View() && currentFingerprint == h(FingerprintText(signer.View()))
    }

    constructor (h: string -> string, s: JWTSigner, v: JWTVerifier, f: string)
      ensures this.h == h && signer == s && verifier == v && currentFingerprint == f
    {
      this.h, signer, verifier, currentFingerprint := h, s, v, f;
    }

    /** One tick; `ok` says whether the load succeeded. However it ends, the signer and the verifier hold
        equal keysets and the remembered fingerprint is theirs. A load with its active kid present is either
        installed in both or found to have the current fingerprint; any other tick changes nothing. */
    method Tick(ok: bool, loaded: SharedKeyset, order: seq<string>)
      requires Agreed()
      requires ok ==> forall kid :: kid in loaded.keys ==> loaded.keys[kid] != null
      requires ok ==> Enumerates(order, loaded.keys.Keys)
      modifies this, signer, verifier
      ensures Agreed()
      ensures signer.View() == old(signer.View()) || (ok && signer.View() == old(Value(loaded)))
      ensures ok && loaded.activeKID in loaded.keys && signer.View() != old(Value(loaded)) ==>
                h(FingerprintText(signer.View())) == h(FingerprintText(old(Value(loaded))))
    {
      hide FingerprintText, Enumerates;
      if !ok {
        return;
      }
      ghost var w, s, v := Value(loaded), signer.View(), verifier.View();
      var fingerprint := FingerprintOf(h, loaded, order);
      assert signer.View() == s && verifier.View() == v && Value(loaded) == w;
      if fingerprint == currentFingerprint {
        return;
      }
      var installed := InstallBoth(signer, verifier, loaded);
      if !installed {
        assert signer.View() == s && verifier.View() == v;
        return;
      }
      assert signer.View() == w && verifier.View() == w;
      assert this !in Slices(signer.keys) && this !in Slices(verifier.keys);
      currentFingerprint := fingerprint;
      assert signer.View() == w && verifier.View() == w;
    }
  }

  method FingerprintOf(h: string -> string, k: SharedKeyset, order: seq<string>) returns (r: string)
    requires forall kid :: kid in k.keys ==> k.keys[kid] != null
    requires Enumerates(order, k.keys.Keys)
    ensures r == h(FingerprintText(Value(k))) && Value(k) == old(Value(k))
  {
    hide FingerprintText, Enumerates;
    var text := Keyset(k.activeKID, map kid | kid in k.keys :: k.keys[kid][..]);
    assert text == Value(k) && text.keys.Keys == k.keys.Keys;
    r := KeysetFingerprint(h, text, order);
    assert Value(k) == old(Value(k));
  }

  /** The two installs of one tick: once the signer has accepted a keyset, the verifier cannot refuse it. */
  method InstallBoth(s: JWTSigner, v: JWTVerifier, k: SharedKeyset) returns (installed: bool)
    modifies s, v
    ensures installed <==> k.activeKID in k.keys
    ensures installed ==> s.View() == old(Value(k)) && v.View() == old(Value(k))
    ensures !installed ==> s.View() == old(s.View()) && v.View() == old(v.View())
  {
    ghost var w := Value(k);
    var a := s.SetKeyset(k);
    if a.Err? {
      assert v.View() == old(v.View());
      return false;
    }
    assert s.View() == w && Value(k) == w;
    var b := v.SetKeyset(k);
    if b.Err? {
      assert false;
    }
    assert s.View() == w;
    return true;
  }

  /** Start-up: the loaded keyset goes into both objects before the first tick. */
  method Start(h: string -> string, k: SharedKeyset, order: seq<string>) returns (r: Refresher)
    requires forall kid :: kid in k.keys ==> k.keys[kid] != null
    requires Enumerates(order, k.keys.Keys)
    ensures fresh(r) && r.h == h && r.Agreed() && r.signer.View() == old(Value(k))
  {
    hide FingerprintText, Enumerates;
    ghost var w := Value(k);
    var f := FingerprintOf(h, k, order);
    assert Value(k) == w;
    var s := new JWTSigner(k);
    assert Value(k) == w && s.View() == w;
    var v := new JWTVerifier(k);
    assert s.View() == w && v.View() == w;
    r := new Refresher(h, s, v, f);
    assert r.signer.View() == w && r.verifier.View() == w;
  }
}
