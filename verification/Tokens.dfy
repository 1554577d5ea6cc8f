/** Access tokens: signing, verification, and when one keyset accepts what another signed.
    Times are nanoseconds since the epoch. */
module Tokens {
  import opened GoStrings
  import opened Keysets

  const SECOND := 1_000_000_000

  const LEEWAY := 5 * SECOND

  const HS256 := "HS256"

  datatype Actor = Actor(id: string, kind: string)

  /** A missing or ill-typed `sub` or `actor_type` reads as the empty string. */
  datatype Claims = Claims(sub: string, actorType: string, iat: int, exp: Option<int>, nbf: Option<int>)

  /** What the signature covers; a missing or ill-typed `kid` reads as the empty string. */
  datatype Signed = Signed(alg: string, kid: string, claims: Claims)

  datatype Token = Token(signed: Signed, sig: string)

  /** HMAC-SHA-256 (section 3.2 of RFC 7518) over the encoded header and claims. */
  type Mac = (string, Signed) -> string

  datatype TokenError = KeyMissing | InvalidToken | MissingClaims

  /** A Go map read: the zero value for an absent key. */
  function Lookup(keys: map<string, string>, kid: string): string {
    if kid in keys then keys[kid] else ""
  }

  /** `SignActor` from one reading of the signer's keys. */
  function Sign(mac: Mac, k: Keyset, actor: Actor, now: int, ttl: int): Result<Token, TokenError> {
    var secret := Lookup(k.keys, k.activeKID);
    if secret == "" then Err(KeyMissing)
    else
      var claims := Claims(actor.id, actor.kind, now / SECOND, Some((now + ttl) / SECOND), None);
      var signed := Signed(HS256, k.activeKID, claims);
      Ok(Token(signed, mac(secret, signed)))
  }

  /** The kid under which a token's key is looked up. */
  function EffectiveKID(k: Keyset, kid: string): string {
    if Blank(kid) then k.activeKID else kid
  }

  predicate Timely(c: Claims, now: int) {
    && (c.exp.Some? ==> now < c.exp.value * SECOND + LEEWAY)
    && (c.nbf.Some? ==> now >= c.nbf.value * SECOND - LEEWAY)
  }

  predicate Authentic(mac: Mac, k: Keyset, t: Token) {
    var secret := Lookup(k.keys, EffectiveKID(k, t.signed.kid));
    t.signed.alg == HS256 && secret != "" && t.sig == mac(secret, t.signed)
  }

  /** `ParseActor` from one reading of the verifier's keys. */
  function Verify(mac: Mac, k: Keyset, t: Token, now: int): Result<Actor, TokenError> {
    if !Authentic(mac, k, t) || !Timely(t.signed.claims, now) then Err(InvalidToken)
    else
      var c := t.signed.claims;
      if c.sub == "" || c.actorType == "" then Err(MissingClaims)
      else Ok(Actor(c.sub, c.actorType))
  }

  /** The secret that a keyset gives a kid, a blank one standing for the active kid. */
  predicate KeyFor(k: Keyset, kid: string, secret: string) {
    var used := if Blank(kid) then k.activeKID else kid;
    used in k.keys && k.keys[used] == secret != ""
  }

  /** Any token is accepted, and then for the actor its claims name, exactly when it is an HS256 token whose tag is
      that of its contents under the secret its kid stands for, its `exp` has not passed by five seconds and its
      `nbf` is not more than five seconds ahead, if it has them, and both claims of the actor are there. */
  lemma VerifyIff(mac: Mac, k: Keyset, t: Token, now: int, actor: Actor)
    ensures Verify(mac, k, t, now) == Ok(actor) <==>
              && t.signed.alg == "HS256"
              && (exists secret :: KeyFor(k, t.signed.kid, secret) && t.sig == mac(secret, t.signed))
              && (t.signed.claims.exp.Some? ==> now < t.signed.claims.exp.value * 1_000_000_000 + 5_000_000_000)
              && (t.signed.claims.nbf.Some? ==> t.signed.claims.nbf.value * 1_000_000_000 - 5_000_000_000 <= now)
              && actor == Actor(t.signed.claims.sub, t.signed.claims.actorType) && actor.id != "" && actor.kind != ""
  {
    hide Trim;
    var secret := Lookup(k.keys, EffectiveKID(k, t.signed.kid));
    assert secret != "" ==> KeyFor(k, t.signed.kid, secret);
  }

  /** What is signed is signed with the active secret under the active kid, for this actor, from now to the end of
      its life in whole seconds; and only a missing or empty active secret prevents it. */
  lemma SignIff(mac: Mac, k: Keyset, actor: Actor, now: int, ttl: int, t: Token)
    ensures Sign(mac, k, actor, now, ttl) == Ok(t) <==>
              && k.activeKID in k.keys && k.keys[k.activeKID] != "" && t.sig == mac(k.keys[k.activeKID], t.signed)
              && t.signed.alg == "HS256" && t.signed.kid == k.activeKID
              && t.signed.claims.sub == actor.id && t.signed.claims.actorType == actor.kind
              && t.signed.claims.nbf.None? && t.signed.claims.exp.Some?
              && t.signed.claims.iat * 1_000_000_000 <= now < (t.signed.claims.iat + 1) * 1_000_000_000
              && var exp := t.signed.claims.exp.value;
              exp * 1_000_000_000 <= now + ttl < (exp + 1) * 1_000_000_000
  {
    if Sign(mac, k, actor, now, ttl).Ok? {
      Floor(now, t.signed.claims.iat);
      if t.signed.claims.exp.Some? {
        Floor(now + ttl, t.signed.claims.exp.value);
      }
    }
  }

  lemma Floor(x: int, q: int)
    ensures q * 1_000_000_000 <= x < (q + 1) * 1_000_000_000 <==> q == x / SECOND
  {
  }

  /** Two usable secrets do not produce the same tag for this message. */
  predicate Separates(mac: Mac, s: string, t: string, m: Signed) {
    s != "" && t != "" && mac(s, m) == mac(t, m) ==> s == t
  }

  /** A token signed under `k1` is accepted under `k2`, and then for the signed actor, exactly when
      the actor is named, the second `exp` names plus the leeway has not come, and `k2` maps the
      token's kid to the secret it was signed with. */
  lemma AcceptanceIff(mac: Mac, k1: Keyset, k2: Keyset, actor: Actor, now: int, ttl: int, later: int)
    requires Sign(mac, k1, actor, now, ttl).Ok?
    requires var t := Sign(mac, k1, actor, now, ttl).value;
             Separates(mac, Lookup(k2.keys, EffectiveKID(k2, k1.activeKID)), Lookup(k1.keys, k1.activeKID), t.signed)
    ensures var r := Verify(mac, k2, Sign(mac, k1, actor, now, ttl).value, later);
            && (r.Ok? <==>
                  && actor.id != "" && actor.kind != "" && later < (now + ttl) / SECOND * SECOND + LEEWAY
                  && Lookup(k2.keys, EffectiveKID(k2, k1.activeKID)) == Lookup(k1.keys, k1.activeKID))
            && (r.Ok? ==> r.value == actor)
  {
  }

  /** Well-formed keysets always sign, and the blank-kid fallback is never taken for what they sign. */
  lemma WellFormedSigns(mac: Mac, k1: Keyset, k2: Keyset, actor: Actor, now: int, ttl: int)
    requires WellFormed(k1)
    ensures var r := Sign(mac, k1, actor, now, ttl);
            r.Ok? && EffectiveKID(k2, r.value.signed.kid) == k1.activeKID
  {
  }

  /** `exp` rounds down, so a token lives at least to its nominal expiry and at most the leeway past it. */
  lemma ExpiryWindow(now: int, ttl: int)
    ensures now + ttl + 4_000_000_000 < (now + ttl) / SECOND * SECOND + LEEWAY <= now + ttl + 5_000_000_000
  {
  }
}
