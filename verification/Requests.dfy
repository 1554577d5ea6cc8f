/** From the bearer header of a request to the actor the service acts for. */
module Requests {
  import opened GoStrings
  import opened Keysets
  import opened Tokens
  import opened ActorTypes

  const BEARER := "Bearer "

  /** A request context, as far as the actor stored in it. */
  datatype Context = Context(actor: Option<Actor>)

  datatype WireActor = WireActor(id: string, kind: ActorType)

  datatype RequestMeta = RequestMeta(actor: Option<WireActor>)

  /** A gRPC call's incoming metadata, if any. */
  type Metadata = Option<map<string, seq<string>>>

  datatype Denial = MissingMetadata | MissingBearer | BadToken

  /** What the interceptor holds: the method names let through, the token decoder and the verifier's keys. */
  datatype Gate = Gate(allow: set<string>, decode: string -> Option<Token>, mac: Mac, keys: Keyset)

  method BuildAllow(methods: seq<string>) returns (allow: set<string>)
    ensures forall m :: m in allow <==> m in methods
  {
    allow := {};
    for i := 0 to |methods|
      invariant forall m :: m in allow <==> m in methods[..i]
    {
      assert methods[..i + 1] == methods[..i] + [methods[i]];
      allow := allow + {methods[i]};
    }
    assert methods[..|methods|] == methods;
  }

  /** The token text of an authorization header. */
  function BearerText(header: string): Option<string> {
    if BEARER <= header then Some(header[|BEARER|..]) else None
  }

  function ParseActor(g: Gate, text: string, now: int): Result<Actor, TokenError> {
    match g.decode(text)
    case None => Err(InvalidToken)
    case Some(t) => Verify(g.mac, g.keys, t, now)
  }

  function Authenticate(g: Gate, header: string, now: int): Result<Context, Denial> {
    match BearerText(header)
    case None => Err(MissingBearer)
    case Some(text) =>
      match ParseActor(g, text, now)
      case Err(_) => Err(BadToken)
      case Ok(actor) => Ok(Context(Some(actor)))
  }

  /** `UnaryJWTInterceptor`: the context the handler is called with, if it is called. */
  function Intercept(g: Gate, name: string, ctx: Context, metadata: Metadata, now: int): Result<Context, Denial> {
    if name in g.allow then Ok(ctx)
    else if metadata.None? then Err(MissingMetadata)
    else
      var values := if "authorization" in metadata.value then metadata.value["authorization"] else [];
      if values == [] then Err(MissingBearer) else Authenticate(g, values[0], now)
  }

  /** `HTTPJWTMiddlewareWithSkips`, where `g.allow` holds the skipped paths and an absent header reads as empty. */
  function Middleware(g: Gate, path: string, ctx: Context, header: string, now: int): Result<Context, Denial> {
    if path in g.allow then Ok(ctx) else Authenticate(g, header, now)
  }

  datatype ActorError = InvalidContext | ActorMismatch | ActorRequired | BindingRequired

  /** `resolveActor`. */
  function ResolveActor(ctx: Option<Context>, meta: Option<RequestMeta>): Result<WireActor, ActorError> {
    if ctx.Some? && ctx.value.actor.Some? then
      var a := ctx.value.actor.value;
      var bound := WireActor(a.id, FromString(a.kind));
      if bound.id == "" || bound.kind == Unspecified then Err(InvalidContext)
      else if meta.Some? && meta.value.actor.Some? && meta.value.actor.value != bound then Err(ActorMismatch)
      else Ok(bound)
    else if meta.None? || meta.value.actor.None? then Err(ActorRequired)
    else if meta.value.actor.value.id == "" || meta.value.actor.value.kind == Unspecified then Err(BindingRequired)
    else Ok(meta.value.actor.value)
  }

  /** The metadata's first authorization value is this one. */
  predicate Carries(metadata: Metadata, header: string) {
    && metadata.Some? && "authorization" in metadata.value
    && |metadata.value["authorization"]| > 0 && metadata.value["authorization"][0] == header
  }

  /** A listed method or path is reached with the caller's own context, whatever it carries. */
  lemma ListedPass(g: Gate, name: string, ctx: Context, metadata: Metadata, header: string, now: int)
    requires name in g.allow
    ensures Intercept(g, name, ctx, metadata, now) == Middleware(g, name, ctx, header, now) == Ok(ctx)
  {
  }

  /** Anything else is refused without metadata, without an authorization value, and with one that does not start
      with the bearer scheme. */
  lemma NoBearerRefused(g: Gate, name: string, ctx: Context, metadata: Metadata, header: string, now: int)
    requires name !in g.allow
    ensures metadata.None? ==> Intercept(g, name, ctx, metadata, now) == Err(MissingMetadata)
    ensures metadata.Some? && (forall v :: !Carries(metadata, v)) ==>
              Intercept(g, name, ctx, metadata, now) == Err(MissingBearer)
    ensures !("Bearer " <= header) ==>
              && Middleware(g, name, ctx, header, now) == Err(MissingBearer)
              && (Carries(metadata, header) ==> Intercept(g, name, ctx, metadata, now) == Err(MissingBearer))
  {
    if metadata.Some? && "authorization" in metadata.value && metadata.value["authorization"] != [] {
      assert Carries(metadata, metadata.value["authorization"][0]);
    }
  }

  /** An actor is resolved exactly if it is named and of a known type and is the one the token was for, which the
      request may repeat but not contradict; or, without a token, the one the request names. */
  lemma ResolveActorIff(ctx: Option<Context>, meta: Option<RequestMeta>, actor: WireActor)
    ensures var claimed := if meta.Some? then meta.value.actor else None;
            ResolveActor(ctx, meta) == Ok(actor) <==>
              && actor.id != "" && actor.kind != Unspecified
              && if ctx.Some? && ctx.value.actor.Some? then
                   && actor.id == ctx.value.actor.value.id && actor.kind == FromString(ctx.value.actor.value.kind)
                   && (claimed == None || claimed == Some(actor))
                 else claimed == Some(actor)
  {
    hide FromString;
  }

  // ---- end to end --------------------------------------------------------------------------------------

  /** One call of `SignActor`. */
  datatype SignCall = SignCall(keys: Keyset, actor: Actor, now: int, ttl: int)

  function Signing(mac: Mac, c: SignCall): Result<Token, TokenError> {
    Sign(mac, c.keys, c.actor, c.now, c.ttl)
  }

  function HeaderToken(g: Gate, header: string): Option<Token> {
    match BearerText(header)
    case None => None
    case Some(text) => g.decode(text)
  }

  predicate HasTag(mac: Mac, c: SignCall, tag: string) {
    Signing(mac, c).Ok? && Signing(mac, c).value.sig == tag
  }

  /** A call with this tag used this secret, on this message. */
  predicate SameUse(mac: Mac, c: SignCall, secret: string, m: Signed) {
    HasTag(mac, c, mac(secret, m)) ==>
      Lookup(c.keys.keys, c.keys.activeKID) == secret && Signing(mac, c).value.signed == m
  }

  /** Only the signer makes tags: one that is presented and authentic is the tag of some recorded sign call; and the
      MAC does not give the presented message, under the verifier's secret, a tag of another use. */
  ghost predicate Genuine(g: Gate, calls: set<SignCall>, header: string) {
    HeaderToken(g, header).Some? ==>
      var t := HeaderToken(g, header).value;
      && (Authentic(g.mac, g.keys, t) ==> exists c :: c in calls && HasTag(g.mac, c, t.sig))
      && (forall c :: c in calls ==>
            SameUse(g.mac, c, Lookup(g.keys.keys, EffectiveKID(g.keys, t.signed.kid)), t.signed))
  }

  /** The context, whatever the request's own metadata says, stands for this call's actor; the call's token has not
      run out; and the verifier still holds the secret it was signed with. */
  predicate BoundTo(g: Gate, call: SignCall, ctx: Context, meta: Option<RequestMeta>, now: int) {
    && (ResolveActor(Some(ctx), meta).Ok? ==>
          ResolveActor(Some(ctx), meta).value == WireActor(call.actor.id, FromString(call.actor.kind)))
    && now < (call.now + call.ttl) / SECOND * SECOND + LEEWAY
    && Lookup(g.keys.keys, EffectiveKID(g.keys, call.keys.activeKID))
       == Lookup(call.keys.keys, call.keys.activeKID) != ""
  }

  lemma HeaderBinding(g: Gate, calls: set<SignCall>, header: string, meta: Option<RequestMeta>, now: int)
    returns (call: SignCall)
    requires Genuine(g, calls, header) && Authenticate(g, header, now).Ok?
    ensures call in calls && BoundTo(g, call, Authenticate(g, header, now).value, meta, now)
  {
    hide FromString;
    var t := HeaderToken(g, header).value;
    call :| call in calls && HasTag(g.mac, call, t.sig);
    assert SameUse(g.mac, call, Lookup(g.keys.keys, EffectiveKID(g.keys, t.signed.kid)), t.signed);
    SignedFields(g.mac, call);
  }

  lemma SignedFields(mac: Mac, c: SignCall)
    requires Signing(mac, c).Ok?
    ensures var m := Signing(mac, c).value.signed;
            && m.kid == c.keys.activeKID && m.claims.sub == c.actor.id && m.claims.actorType == c.actor.kind
            && m.claims.exp == Some((c.now + c.ttl) / SECOND)
  {
  }

  /** If the handler of a guarded gRPC method is reached, whatever the call's metadata, the context is bound to one
      recorded sign call. */
  lemma ActorBinding(g: Gate, calls: set<SignCall>, name: string, ctx: Context, metadata: Metadata,
                     meta: Option<RequestMeta>, now: int) returns (call: Option<SignCall>)
    requires name !in g.allow && forall v :: Carries(metadata, v) ==> Genuine(g, calls, v)
    ensures var reached := Intercept(g, name, ctx, metadata, now);
            && (reached.Ok? ==> call.Some? && call.value in calls && BoundTo(g, call.value, reached.value, meta, now))
            && (forall v :: Carries(metadata, v) ==> reached == Middleware(g, name, ctx, v, now))
  {
    hide Genuine, BoundTo, Authenticate;
    call := None;
    if Intercept(g, name, ctx, metadata, now).Ok? {
      var header := metadata.value["authorization"][0];
      assert Carries(metadata, header);
      var c := HeaderBinding(g, calls, header, meta, now);
      call := Some(c);
    }
  }

  /** The same over HTTP, whatever the authorization header. */
  lemma MiddlewareBinding(g: Gate, calls: set<SignCall>, path: string, ctx: Context, header: string,
                          meta: Option<RequestMeta>, now: int) returns (call: Option<SignCall>)
    requires path !in g.allow && Genuine(g, calls, header)
    ensures var reached := Middleware(g, path, ctx, header, now);
            reached.Ok? ==> call.Some? && call.value in calls && BoundTo(g, call.value, reached.value, meta, now)
  {
    hide Genuine, BoundTo, Authenticate;
    call := None;
    if Middleware(g, path, ctx, header, now).Ok? {
      var c := HeaderBinding(g, calls, header, meta, now);
      call := Some(c);
    }
  }

  /** A signer's token, sent as a bearer header or as the first authorization value of any metadata, gets its actor
      through the gate and through actor resolution exactly when the keys still agree, it has not run out, it names
      a known actor type, and the request claims no other actor. */
  lemma SignedRequestIff(g: Gate, encode: Token -> string, signer: Keyset, actor: Actor, now: int, ttl: int,
                         path: string, ctx: Context, metadata: Metadata, meta: Option<RequestMeta>, later: int)
    requires WellFormed(signer) && path !in g.allow
    requires var t := Sign(g.mac, signer, actor, now, ttl);
             t.Ok? ==> g.decode(encode(t.value)) == Some(t.value) && Carries(metadata, "Bearer " + encode(t.value))
                       && Separates(g.mac, Lookup(g.keys.keys, signer.activeKID), Lookup(signer.keys, signer.activeKID),
                                    t.value.signed)
    ensures var t := Sign(g.mac, signer, actor, now, ttl);
            && t.Ok?
            && var reached := Middleware(g, path, ctx, "Bearer " + encode(t.value), later);
            var bound := WireActor(actor.id, FromString(actor.kind));
            && Intercept(g, path, ctx, metadata, later) == reached
            && ((reached.Ok? && ResolveActor(Some(reached.value), meta) == Ok(bound)) <==>
                  && actor.id != "" && bound.kind != Unspecified
                  && later < (now + ttl) / SECOND * SECOND + LEEWAY
                  && Lookup(g.keys.keys, signer.activeKID) == Lookup(signer.keys, signer.activeKID)
                  && (meta.Some? && meta.value.actor.Some? ==> meta.value.actor.value == bound))
  {
    hide Sign, Verify, FromString;
    WellFormedSigns(g.mac, signer, g.keys, actor, now, ttl);
    var t := Sign(g.mac, signer, actor, now, ttl).value;
    assert t.signed.kid == signer.activeKID by { KidIsActive(g.mac, signer, actor, now, ttl); }
    AcceptanceIff(g.mac, signer, g.keys, actor, now, ttl, later);
    assert (BEARER + encode(t))[|BEARER|..] == encode(t);
    EmptyKind();
  }

  lemma KidIsActive(mac: Mac, k: Keyset, actor: Actor, now: int, ttl: int)
    requires Sign(mac, k, actor, now, ttl).Ok?
    ensures Sign(mac, k, actor, now, ttl).value.signed.kid == k.activeKID
  {
  }

  lemma EmptyKind()
    ensures FromString("") == Unspecified
  {
  }
}
